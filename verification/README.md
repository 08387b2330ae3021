# Zone replication, verified

A model of the record-keeping core of the name server, with proofs about it: how a
primary accepts RFC 2136 updates, makes them durable and keeps an IXFR journal; how a
secondary reads incremental transfers, owns catalog zones and writes zones to disk; how
the split-horizon cache decides what answers a question; and how the filter decides what
is blocked. `dafny verify dfyconfig.toml` checks everything.

## What is where

| file | about |
|---|---|
| `Serials.dfy` | the three RFC 1982 comparisons the packages each wrote for themselves |
| `Collections.dfy`, `Records.dfy` | sequences without repetition; records, their two notions of identity, generations |
| `Journals.dfy`, `JournalText.dfy` | the primary's journal: differences, bounded history, reconciliation, answers; its text form |
| `IxfrReader.dfy` | the secondary's classifier, parser and increment application, and a reader written from section 4 of RFC 1995 |
| `Replication.dfy`, `Bags.dfy` | replay over whole runs, to the letter and up to letter case |
| `Convergence.dfy`, `Staleness.dfy`, `FailingRuns.dfy` | the complete transfer; secondaries any number of generations behind; runs that go wrong |
| `UpdateEngine.dfy`, `ZoneUpdate.dfy`, `UpdateMeaning.dfy` | prerequisites; prescan, application and zone invariants; the meaning of a section on sets |
| `HttpApply.dfy`, `Requests.dfy`, `HttpMeaning.dfy` | changes arriving over HTTP, rewritten into an update section; sequences of requests of both kinds; what an HTTP change means, read off the request |
| `CommitProtocol.dfy`, `Primary.dfy` | the commit as a machine with failures, crashes and restarts; the engine over record objects on the heap |
| `Catalogs.dfy`, `PersistQueue.dfy` | zone ownership on a secondary; the asynchronous writer |
| `CnameChains.dfy`, `AnswerCache.dfy` | whether a response answers its question; the two caches and prefer_positive |
| `FilterIndex.dfy` | the block/allow index |

## Findings

Some things the code suggests turned out to hold only under a condition. Each has a
concrete failing case and an exact condition.

- `parseIXFR` reads a stream as RFC 1995 means it only when it holds a single difference
  (`IxfrReader.ParseAgreesIff`). Of a longer one it makes an error, when the current serial
  occurs in it before the end, or else one increment that deletes everything earlier
  differences mentioned (`IxfrReader.ParsePrinted`). So a secondary two generations behind
  can take the new serial and miss a record (`FailingRuns.SkippedGenerationLosesARecord`).
  `Staleness.StaleUpToCaseIff` and `Staleness.StaleConvergesIff` say, for every history and
  every retained generation, exactly when a secondary ends with the current zone.
- `ixfrFrom` starts at the first retained increment with the secondary's serial. SOA
  updates can bring a serial back within the history; a secondary holding the later zone
  with that serial is then sent the wrong differences, even when it is one generation
  behind, and even if it reads them as RFC 1995 says
  (`FailingRuns.RecurringSerialMisleads`). The exact conditions are in
  `Staleness.OneBehindIff` and `Convergence.RfcClientConverges`.
- The primary tells records apart by exact text, `dns.IsDuplicate` folds names inside the
  record data. With two records that differ only in the letter case of such a name, a
  replayed increment can leave the one where the other should be: the zones then differ in
  letter case only (`FailingRuns.CaseTwinsBreakReplay`). Up to letter case every history
  replays, without any condition (`Bags.ReplayUpToCase`); to the letter, one commit replays
  exactly when it is `CleanStep` (`Replication.ReplayIff`).
- `apply` lets an added SOA move off the apex (`ZoneUpdate.StraySoaBreaksZone`);
  `ZoneUpdate.InvOneIff` shows this is the only way an update record can break the zone.
- An apex SOA set over HTTP is lost when the same request adds a SOA of another name with a
  later serial (`HttpApply.StrayShutsOutApexSoa`). `HttpApply.SoaIsReplacedIff` says exactly
  when it lands; when it does, its serial is later than before unless the one asked for
  was exactly 2^31 - 1 ahead.
- The comment at dns-update-persistent/update.go:90 says a restart is correct after a
  failed swap. It is, right then; but the process goes on from the old zone with the new
  journal, and a second update that fails between its two writes leaves a store the
  journal does not lead to (`CommitProtocol.FailedSwapBreaksReplay`, with the exact
  condition in `CommitProtocol.ReusedSerialIff`).
- The comment at dns-update-persistent/update.go:18-19 says a write failure leaves memory
  and the store on the previous generation. When it is the journal that fails, the store
  already holds the new one (`CommitProtocol.AllOrNothing`).
- The persist queue releases its lock between the end of `runPersist` and `finishPersist`.
  A snapshot enqueued in that gap starts a second writer (`PersistQueue.OneWriterIff`), and
  an older snapshot can end up stored over a newer one (`PersistQueue.GapOverwritesNewest`).

## How the code is modelled

- Owner names are canonical label sequences: the code compares owners only after
  lower-casing their canonical form. Names inside record data keep their letter case
  (`Field`). `Soa` is a value of Go type `*dns.SOA`, `Rec` any other record; the header
  type is `Type()`, so a record of type SOA that is not a `*dns.SOA` exists in the model.
- `dns.Copy` is the copying of a value; where objects and in-place changes matter
  (`apply`, `bumpSerial`) records are `Primary.Cell` objects. `RR.String` is taken to be
  injective, so `ixfrKey` is equality of records and `rdataKey` equality up to TTL. Stored
  records are in class IN; the class of a record in a message section is `MsgRR.cls`.
- The store, the journal backend and the view builder are cells whose writes succeed or
  fail: the methods take their verdicts as arguments.
- The crash machine of `CommitProtocol` takes every write as atomic and the swap as
  successful, and asks of each zone written that its serial be reached by no saved
  increment (`Writable`).
- "Up to letter case" means: the same SOA, and the same data records counted by the
  identity `dns.IsDuplicate` compares, which leaves out letter case of names and TTLs.
  A secondary that keeps its zone with some names lower-cased holds it in this sense.
- Catalog registry: zone objects and shutdown channels are numbers handed out once. The
  owner "admin" of zones started through the API is its own constructor, because no
  fully qualified origin equals it. The order in which Go walks the map of former members
  is arbitrary in the model.
- Persist queue: one origin (no step touches two), steps cut where the lock is taken or
  released; the check for a stop and the check for staleness are one step.
- Cache keys are the tuples of the hashed fields; times are whole seconds; the verdict of
  `response.Typify` and whether the authority section holds a SOA come with a response.
- Letter case folding is on ASCII letters.
- Some long Go functions are several methods here: `httpUpdatesLocked` (`SortAdds`,
  `SortDeletes`, `FindWipes`), `commitLocked` (`NextGeneration`, `WriteLocked`),
  `checkPrereqs` (`GroupPrereqs`, `CompareGroups`), `writeJournal` (`WriteRecords`,
  `WriteIncrement`).

## Model

| member | source | states |
|---|---|---|
| `Serials.ComparisonsAgree` | dns-update-persistent/zone.go:201-203 | `serialGreater`, `serialNewer` and `less` all decide the order of section 3.2 of RFC 1982 (reachable by adding 1 to 2^31 - 1), except that `less` also says yes, in one direction, at distance exactly 2^31 |
| `Serials.AdvanceIsNewer` | ixfr/journal.go:274-279 | a step of any legal size is newer under all three comparisons and older under none |
| `Serials.NewerIsNotTransitive` | secondary-persistent/transfer.go:205-210 | three serials can each be newer than the one before and the last older than the first |
| `Records.FindSoa` | ixfr/journal.go:245-252 | finds the first SOA, or tells that there is none |
| `Journals.DiffMissing` | ixfr/journal.go:211-229 | returns, in order, exactly the data records of one generation that the other does not hold with the same TTL |
| `Journals.CommitJustified` | ixfr/journal.go:94-116 | committing on the last generation keeps the history the true differences of consecutive generations, whatever truncation drops |
| `Journals.RunRetains` | ixfr/journal.go:105-113 | after any run of commits the journal holds exactly the differences of the last generations, in order, as many as the bound admits |
| `Journals.IsChained` | ixfr/journal.go:85-92 | true exactly when every increment starts where the one before ends |
| `Journals.ReconcileJournal` | ixfr/journal.go:63-83 | the loops compute the reconciled history |
| `Journals.ReconcileEmptyIff` | ixfr/journal.go:67-75 | nothing is kept exactly when no increment ends at the zone's serial |
| `Journals.ReconcileKeepsLongestRun` | ixfr/journal.go:60-83 | on arbitrary increments, what is kept is the longest chained run ending at the last increment that reaches the zone's serial |
| `Journals.ReconcileKeepsJustified` | ixfr/journal.go:60-83 | every increment a run recorded survives reconciliation with the zone the run ends at |
| `Journals.PrintStream` | ixfr/journal.go:175-186 | prints the current SOA around old SOA, deletions, new SOA, additions for each increment |
| `Journals.Journal.Load` | ixfr/journal.go:38-58 | a loaded journal holds the saved increments reconciled with the zone, or none without a backend |
| `Journals.Journal.Commit` | ixfr/journal.go:94-127 | succeeds exactly when both generations have a SOA and the save succeeds; then the history and the snapshot are the new ones and the backend holds the same history; otherwise nothing changes |
| `Journals.Journal.IxfrFromSerial` | ixfr/journal.go:154-187 | the incremental stream from the first retained increment starting at the serial, or none |
| `Journals.Journal.Axfr` | ixfr/journal.go:189-207 | the SOA, every data record in order, the SOA again |
| `Journals.AnswerIsRight` | ixfr/journal.go:136-187 | by outcome, for every journal and serial: up to date, with the SOA alone, exactly for the current serial and those ahead of it under RFC 1982; incremental, from the first increment that starts at the serial, exactly when it is behind, one does and the last ends at the current zone; the whole zone otherwise and for serial 0 |
| `Journals.Journal.AnswerSerial` | ixfr/journal.go:136-152 | the kind and stream chosen for a serial, and that they are right in that sense |
| `IxfrReader.ClassifyMeans` | secondary-persistent/ixfr.go:103-132 | by outcome, for every transfer: an error unless it opens with a SOA and is that alone or closes with one of its serial; a full one has no SOA of another serial, an incremental one has |
| `IxfrReader.ClassifyXfr` | secondary-persistent/ixfr.go:103-132 | the loop decides that classification, error cases included |
| `IxfrReader.ParseStream` | secondary-persistent/ixfr.go:209-285 | the parser's loop computes `ParseIxfr` on every stream, errors included |
| `IxfrReader.ParseMeans` | secondary-persistent/ixfr.go:209-285 | on every stream whatsoever, `parseIXFR` is a recursive-descent reader of one grammar: groups of other-serial SOAs with deletions closed by a final-serial SOA with additions; everything else is an error |
| `IxfrReader.ParsedIsIxfr` | secondary-persistent/ixfr.go:75-86 | whatever parses had been classified as incremental |
| `IxfrReader.ReadInvertsPrint` | ixfr/journal.go:175-186 | a reader built from section 4 of RFC 1995 reads every printed stream back as exactly the increments printed, and every SOA in it is the current one but for its serial |
| `IxfrReader.ParsePrinted` | secondary-persistent/ixfr.go:222-284 | on the printed form of any chain of differences `parseIXFR` returns an error when one starts at the final serial or the last does not move forward; otherwise one increment: from the last old serial, deleting all earlier deletions and additions and the last deletions, adding only the last additions |
| `IxfrReader.ParseAgreesIff` | secondary-persistent/ixfr.go:259-273 | on the printed form of any chain `parseIXFR` agrees with the RFC reader exactly when it is one forward difference |
| `IxfrReader.FindDuplicate` | secondary-persistent/ixfr.go:304-309 | the first deletion not yet used that duplicates a record, if there is one |
| `IxfrReader.RemoveRRs` | secondary-persistent/ixfr.go:297-313 | removal that uses up each deletion, setting it to nil in place |
| `IxfrReader.ReplaceSoaRecord` | secondary-persistent/ixfr.go:315-332 | the new SOA stands where the first one stood, or first; later ones go |
| `IxfrReader.ApplyParsed` | secondary-persistent/ixfr.go:287-295 | applies the increments in order, then the SOA |
| `Replication.RemoveKeeps` | secondary-persistent/ixfr.go:297-313 | when deletions cover the records of each identity, exactly the records of no deleted identity stay, each once |
| `Replication.ReplayStep` | secondary-persistent/ixfr.go:289-292 | one recorded increment of a clean step carries any holder of the old data to the new data |
| `Replication.Replay` | secondary-persistent/ixfr.go:287-295 | the increments of a clean history turn any ordering of the first generation into an ordering of the last, TTL-only changes included |
| `Replication.ReplayIff` | secondary-persistent/ixfr.go:305-307 | one commit replays on every ordering exactly when no deleted record leaves a letter-case twin behind |
| `Replication.TwinIsLost` | secondary-persistent/ixfr.go:305-307 | a twin that stands first is taken in the deleted record's place |
| `Replication.DistinctStepsAreClean` | dns-update-persistent/zone.go:102-112 | every step from a zone without letter-case twins is clean |
| `Bags.BagRemove` | secondary-persistent/ixfr.go:297-313 | by identity, removal is subtraction of multisets, on any records and any deletions |
| `Bags.ReplayUpToCase` | secondary-persistent/ixfr.go:287-295 | over every history whatsoever, whoever holds the first generation up to letter case is taken to the last one up to letter case |
| `Bags.Conservation` | ixfr/journal.go:94-104 | over every history, what there was and was added is what there is and was deleted, identity by identity |
| `Bags.ReplayFromElsewhereIff` | secondary-persistent/ixfr.go:287-295 | replaying a history from any other zone leads to its last generation exactly when the difference is absorbed: no identity held more often, and those held less often used up on the way |
| `Convergence.ReplayRun` | ixfr/journal.go:94-116 | for every run of commits and every generation still in the bounded history, the retained increments from it on replay to the current generation: up to letter case always, to the letter when the steps are clean |
| `Convergence.RfcClientConverges` | ixfr/journal.go:154-187 | a client reading as RFC 1995 says gets exactly the increments from the first retained generation with its serial on, and ends with the current zone exactly when what it holds differs from that generation only in ways they absorb; always when it holds that generation |
| `Convergence.ClassifyRecoversKindIff` | secondary-persistent/ixfr.go:103-132 | for every serial the classifier recovers the kind `answer` chose, exactly when the journal's zone has a SOA |
| `Convergence.FullTransferConverges` | ixfr/journal.go:189-207 | an AXFR, without its closing SOA, is an ordering of the current generation |
| `Convergence.OneBehindConverges` | secondary-persistent/ixfr.go:163-207 | commit, answer, classify, parse, apply: after a clean commit on any journal with no increment from the same serial, a secondary one generation behind ends with the new generation, by the increment exactly when its serial is not zero and the new one is later |
| `Staleness.TransferMeans` | secondary-persistent/transfer.go:68-88 | a transfer of any secondary whatsoever applies the one merged increment, or installs the whole zone, and which of the two |
| `Staleness.StaleUpToCaseIff` | secondary-persistent/ixfr.go:163-295 | for every history and every retained generation: whoever holds it up to letter case ends with the current zone up to letter case exactly when it does not go by the increments, or nothing the last one left alone was touched between the generation sent from and its own, or added since |
| `Staleness.StaleConvergesIff` | secondary-persistent/ixfr.go:209-295 | to the letter: every ordering of it ends as the current zone exactly when it does not go by the increments, or nothing the last one left alone has the identity of anything the merged increment deletes |
| `Staleness.StaleDistinctIff` | secondary-persistent/ixfr.go:209-295 | without letter-case twins, each single ordering ends as the current zone exactly when nothing is lost |
| `Staleness.OneBehindIff` | ixfr/journal.go:154-160 | one generation behind, for every history: convergence exactly when the stream is refused or nothing the commit kept is touched by what is sent; when only the last increment is sent, exactly when the commit is clean, and up to letter case always |
| `FailingRuns.SkippedGenerationLosesARecord` | secondary-persistent/ixfr.go:259-267 | a run of two additions after which the secondary has the current serial and not the first record |
| `FailingRuns.CaseTwinsBreakReplay` | dns-update-persistent/zone.go:102-112 | a zone legal by exact text whose increment leaves the secondary with a zone that differs in letter case only |
| `FailingRuns.RecurringSerialMisleads` | ixfr/journal.go:156-160 | three accepted updates that bring a serial back, after which a secondary one generation behind loses a record, and an RFC 1995 client holds one twice |
| `UpdateEngine.PrereqCodeMeans` | dns-update-persistent/update.go:173-214 | one prerequisite is accepted exactly when it is well formed, in zone, and says what section 3.2 of RFC 2136 asks of the zone |
| `UpdateEngine.NamesAndTypes` | dns-update-persistent/zone.go:214-220 | a name is in the zone when it is the apex with labels before it; the types refused are OPT and 251 to 255 |
| `UpdateEngine.SameRRset` | dns-update-persistent/zone.go:126-142 | true exactly when the two lists are equal as multisets of identities |
| `UpdateEngine.GroupPrereqs` | dns-update-persistent/update.go:171-214 | the right code for the first prerequisite that does not hold, or, when all hold, every listed value grouped under its RRset |
| `UpdateEngine.CheckPrereqs` | dns-update-persistent/update.go:167-223 | by outcome: NOERROR exactly when every prerequisite holds and every listed RRset equals the zone's as a multiset; otherwise the first that does not hold decides: FORMERR if malformed, NOTZONE if out of zone, NXDOMAIN or NXRRSET if it demands what is not there, YXDOMAIN or YXRRSET if it denies what is; NXRRSET when only a listed RRset differs |
| `UpdateEngine.PrereqsMetPermutes` | dns-update-persistent/update.go:216-220 | whether a prerequisite section is met does not depend on its order |
| `ZoneUpdate.PrescanPassesIff` | dns-update-persistent/update.go:228-268 | a section passes exactly when every record is acceptable under section 3.4.1 of RFC 2136 and the type policy |
| `ZoneUpdate.PrescanIsRight` | dns-update-persistent/update.go:228-268 | by outcome: NOTZONE, FORMERR or REFUSED exactly according to what is wrong with the first record that is not acceptable |
| `ZoneUpdate.UnchangedMeansUntouched` | dns-update-persistent/update.go:273-367 | a section that reports no change leaves the very same list |
| `ZoneUpdate.InvOneIff` | dns-update-persistent/update.go:285-363 | an update record keeps the zone invariants exactly when it is not an effective SOA owned by another name than the apex |
| `ZoneUpdate.StraySoaBreaksZone` | dns-update-persistent/update.go:291-304 | a record that passes the prescan and moves the SOA off the apex |
| `ZoneUpdate.InvSection` | dns-update-persistent/update.go:280-366 | a whole section with its SOAs at the apex keeps the invariants |
| `ZoneUpdate.InvBump` | dns-update-persistent/zone.go:208-212 | the bump keeps the invariants and advances the serial by one, wrapping |
| `ZoneUpdate.InvIsGeneration` | dns-update-persistent/zone.go:190-197 | a zone meeting the invariants is a generation the journal can record, and its first SOA is the apex one |
| `Requests.InvariantsOverAllRuns` | dns-update-persistent/update.go:46-57 | over every sequence of wire and HTTP requests whose added SOAs are at the apex: one SOA, at the apex; an apex NS; no identity twice; every owner in zone; CNAME exclusivity |
| `Requests.ServedMeans` | dns-update-persistent/apply.go:61-76 | an accepted request of either kind leaves the data records its section means, and an HTTP wipe of the apex NS set exactly the NS identities it adds |
| `UpdateMeaning.OneRefines` | dns-update-persistent/update.go:280-363 | one update record does to the list what section 3.4.2 of RFC 2136 means on the set of records, and reports a change exactly when the set changes |
| `UpdateMeaning.SectionRefines` | dns-update-persistent/update.go:273-367 | a section ends with exactly the records it means, none twice |
| `UpdateMeaning.StoredOrderIsIrrelevant` | dns-update-persistent/update.go:273-367 | zones with the same records, stored in any order, come out with the same records and the same report of change |
| `CommitProtocol.AllOrNothing` | dns-update-persistent/update.go:61-94 | a no-op writes nothing; success means memory, store and journal hold one new valid generation with the next serial; failure leaves what is served untouched, the store ahead exactly when the zone was written and the journal ahead exactly when it was saved too |
| `CommitProtocol.ReconcileEndsAtStore` | ixfr/journal.go:38-83 | whatever a reachable disk holds, the kept increments are a true history ending with the stored zone |
| `CommitProtocol.SystemStep` | dns-update-persistent/update.go:71-94 | every step (zone written, journal saved or failed, swap, crash, restart) keeps the invariant of disk and process |
| `CommitProtocol.RestartIsSafe` | dns-update-persistent/update.go:61-94 | in every reachable state of every run with failures and crashes, a restart keeps a true history of generations that were served, ending with exactly the stored zone, that replays to it: up to letter case always, to the letter when the zones written were clean steps |
| `CommitProtocol.ServedSecondaryConverges` | ixfr/journal.go:38-58 | a secondary holding any generation served in such a run, asking after a restart, ends with the stored zone when it reads as RFC 1995 says, when it is sent one increment, and when it is sent none (served serials being distinct) |
| `CommitProtocol.CommitFollowsProtocol` | dns-update-persistent/update.go:61-94 | every way `commitLocked` can end is a path of that machine |
| `CommitProtocol.ReusedSerialIff` | ixfr/journal.go:60-83 | when a stored zone's serial is already reached by the saved history, the kept increments replay to it exactly when it holds the data of the generation reached, up to letter case; to the letter for clean histories |
| `CommitProtocol.FailedSwapBreaksReplay` | dns-update-persistent/update.go:89-94 | two acceptable updates on a valid zone, the swap of the first and the journal save of the second failing, after which a restart's increments do not lead to the store |
| `Primary.DeleteCells` | dns-update-persistent/zone.go:144-154 | keeps, in order, the objects that do not match, and reports whether any did |
| `Primary.AddCell` | dns-update-persistent/update.go:286-324 | the effect of an addition, with the TTL changed in place on the copy |
| `Primary.Apply` | dns-update-persistent/update.go:273-367 | applies a section to fresh copies and alters no object that existed before |
| `Primary.Bump` | dns-update-persistent/zone.go:208-212 | advances the serial of the SOA object in place and changes no other record |
| `Primary.UpdatePersist.CommitLocked` | dns-update-persistent/update.go:61-111 | the new state and code are those of the protocol; no record object served before is altered; on failure the served objects and view are the same ones |
| `Primary.UpdatePersist.WriteLocked` | dns-update-persistent/update.go:72-94 | store, journal, swap, in that order, each stopping at the first failure |
| `Primary.UpdatePersist.ServeUpdate` | dns-update-persistent/update.go:46-57 | nothing is touched, and the right code returned, unless all prerequisites hold and the whole prescan passes; then the section is committed |
| `Primary.UpdatePersist.ApplyHttp` | dns-update-persistent/apply.go:61-76 | rejected requests get their error and touch nothing; others are rewritten, prescanned without the type policy and committed; success leaves the zone as served |
| `Primary.PrescanAll` | dns-update-persistent/update.go:228-268 | the code of the first record that fails, or success |
| `HttpApply.SortAdds` | dns-update-persistent/apply.go:98-109 | the additions, in class IN, split into apex NS, apex SOA and the rest, in order |
| `HttpApply.SortDeletes` | dns-update-persistent/apply.go:111-131 | the deletions split into single apex NS deletions and the rest, apex SOA deletions dropped |
| `HttpApply.HttpUpdatesLocked` | dns-update-persistent/apply.go:97-177 | the rewritten section, or the error, for every request |
| `HttpApply.NsSetIsReplaced` | dns-update-persistent/apply.go:152-176 | an apex NS wipe with additions ends with an apex NS identity set equal to the additions, whatever else the request does: the last-NS guard never intervenes |
| `HttpApply.RaisedSerialIff` | dns-update-persistent/apply.go:146-148 | a raised serial always takes effect; after the bump it is later than before exactly when the one asked for was not 2^31 - 1 ahead |
| `HttpApply.RaisedMeans` | dns-update-persistent/apply.go:146-148 | a serial ahead of the current one is kept, any other becomes the next one, and nothing else of the SOA changes |
| `HttpApply.SoaIsReplacedIff` | dns-update-persistent/apply.go:136-176 | one added apex SOA lands, with the fields given and the bumped serial, exactly when what the rest of the request leaves has a SOA with an older serial; otherwise the zone has no SOA at its apex; when it lands the serial is later unless the one asked for was 2^31 - 1 ahead |
| `HttpApply.SoaIsReplaced` | dns-update-persistent/apply.go:136-150 | so it always lands on a zone with its SOA at the apex when the request adds no other SOA |
| `HttpApply.StrayShutsOutApexSoa` | dns-update-persistent/apply.go:168-171 | a request that passes the prescan, adds an apex SOA and leaves the zone with the SOA of another name |
| `HttpMeaning.RejectsIff` | dns-update-persistent/apply.go:133-155 | each of the four refusals exactly when the request deserves it |
| `HttpMeaning.HttpAcceptedIff` | dns-update-persistent/apply.go:61-70 | a request is accepted exactly when it is not refused, every addition is a record of the zone and every deletion that is not subsumed is well formed, single deletions with any TTL; the type policy plays no part |
| `HttpMeaning.HttpReplaces` | dns-update-persistent/apply.go:97-177 | of the records other than the apex NS set and the SOA, exactly those stay that no deletion names and no addition repeats, untouched; every identity added is there as added; nothing else is |
| `HttpMeaning.WipedRRsetIsReplaced` | dns-update-persistent/apply.go:129-170 | a wiped RRset ends as exactly the additions to it |
| `HttpMeaning.ApexNsOutcome` | dns-update-persistent/apply.go:152-176 | the apex NS set afterwards, read off the request: the additions after a wipe; otherwise what there was and is added but for the single deletions, as long as that leaves any |
| `Catalogs.CatalogKeepsInv` | secondary-persistent/catalog.go:16-85 | applying any catalog keeps the five tables consistent and every owned zone listed |
| `Catalogs.InvariantOverAllRuns` | secondary-persistent/runtime.go:65-106 | in every state reached by applying catalogs, loading stored zones and starting and stopping API zones: names without repetition equal to the served zones, the reverse table inverse, dynamic zones served, open channels exactly those of current generations, every zone a catalog owns listed by it |
| `Catalogs.CatalogEffect` | secondary-persistent/catalog.go:24-78 | per zone: an allowed member gets what was decided for it before (created, reset, migrated, left), with its data kept only by a migration whose active, source and target IDs agree; a dropped member is gone with its stored copy; every other zone is as it was |
| `Catalogs.MemberOutcome` | secondary-persistent/catalog.go:24-67 | told on the state before: a new member is created empty; one of this catalog is left exactly as it is if its ID is the same and otherwise starts again empty with its stored copy gone; one handed over keeps contents and stored copy exactly when active, source and target IDs agree; members not admitted, static, API and other catalogs' zones are untouched |
| `Catalogs.StartsAreNew` | secondary-persistent/catalog.go:44-66 | transfers are started for exactly the zones that got a new generation, on the new object, and told whether it holds a zone |
| `Catalogs.StopOutcome` | secondary-persistent/runtime.go:96-106 | an API zone is gone from every table with its channel closed; no other zone is touched |
| `Catalogs.StartOutcome` | secondary-persistent/runtime.go:71-87 | a zone not served is installed for the API with its stored copy if that loads and has a SOA; one served, and every other zone, is untouched |
| `Catalogs.CatalogOwnsIff` | secondary-persistent/catalog.go:31-62 | the catalog owns exactly the allowed members that were new, its own, or handed over; every allowed member is served |
| `Catalogs.RemoveZoneName` | secondary-persistent/zones.go:39-46 | removes the first occurrence and nothing else |
| `Catalogs.SecondaryPersist.ReplaceDynamicZone` | secondary-persistent/catalog.go:120-148 | the old generation stopped and detached, a new one installed with the preserved contents; `hasData` tells whether they hold a SOA |
| `Catalogs.SecondaryPersist.RemoveDynamicZone` | secondary-persistent/catalog.go:170-183 | removes the zone from every table and closes its channel exactly when the owner matches |
| `Catalogs.SecondaryPersist.ApplyOneMember` | secondary-persistent/catalog.go:24-67 | what is decided for one member is carried out, and a transfer is started exactly when a generation was made |
| `Catalogs.SecondaryPersist.ApplyCatalogMembers` | secondary-persistent/catalog.go:16-85 | all members in order, then the former ones, then the new list; and the transfers to start |
| `Catalogs.SecondaryPersist.LoadIfPresent` | secondary-persistent/persist.go:26-51 | a stored copy with a SOA becomes the contents of the zone object; otherwise nothing changes |
| `Catalogs.SecondaryPersist.StartOrigin` | secondary-persistent/runtime.go:65-93 | succeeds exactly when masters are given and the zone is not served, and then installs it with its stored copy; otherwise changes nothing |
| `Catalogs.SecondaryPersist.StopOrigin` | secondary-persistent/runtime.go:96-106 | removes exactly zones started through the API |
| `PersistQueue.OneWriterIff` | secondary-persistent/persist.go:197-231 | a step keeps at most one writer exactly when it is not an enqueue between the end of `runPersist` and `finishPersist` |
| `PersistQueue.RunsAreSound` | secondary-persistent/persist.go:148-231 | over every interleaving without such an enqueue, at most one writer is in flight and each save is newer than the last |
| `PersistQueue.LastSnapshotIsStored` | secondary-persistent/persist.go:148-231 | when such a run with increasing serials and successful saves comes to rest, the snapshot enqueued last is stored |
| `PersistQueue.ClosedSavesNothingNew` | secondary-persistent/persist.go:168-183 | over every interleaving, once the queue is closed nothing is saved but what was being written then |
| `PersistQueue.GapOverwritesNewest` | secondary-persistent/persist.go:209-216 | the run in which an enqueue in the gap yields two writers and an older snapshot stored over a newer one |
| `CnameChains.UniqueCnameTarget` | split-horizon-cache/cache.go:287-299 | whether a name has no alias, one, or several, compared without letter case |
| `CnameChains.CanonicalName` | split-horizon-cache/cache.go:260-280 | terminates, and succeeds exactly when the chain from the name ends at a name without alias, then with that name |
| `CnameChains.CycleNeverEnds` | split-horizon-cache/cache.go:263-266 | a revisited name means no number of hops reaches an end |
| `CnameChains.CanonicalIsUnique` | split-horizon-cache/cache.go:249-259 | a chain has at most one end |
| `CnameChains.AnswerHasType` | split-horizon-cache/cache.go:178-207 | true exactly when section 3.6.2 of RFC 1034 makes the section an answer |
| `CnameChains.AnswersQuestion` | split-horizon-cache/cache.go:170-176 | the same for a response, which must be a success with a question |
| `CnameChains.AnswersIgnoresOrderAndCase` | split-horizon-cache/cache.go:170-207 | reordering the section and changing the letter case of any name changes neither the end of the chain, up to case, nor the verdict |
| `AnswerCache.CacheResponseType` | split-horizon-cache/cache.go:159-165 | a success with a SOA whose non-empty answer section does not answer the question counts as NODATA |
| `AnswerCache.NodataResponse` | split-horizon-cache/cache.go:242-247 | a non-empty answer section that does not answer the question |
| `AnswerCache.KeyFor` | split-horizon-cache/cache.go:98-127 | which responses get a key at all |
| `AnswerCache.SuccessAnswers` | split-horizon-cache/cache.go:111-124 | of what is cached as a plain success, only responses with an empty answer section do not answer their question |
| `AnswerCache.CachedAs` | split-horizon-cache/cache.go:98-165 | from what the library makes of a response, whether it is cached and as what |
| `AnswerCache.Cache.WriteMsg` | split-horizon-cache/cache.go:460-494 | classification, key and store together |
| `AnswerCache.Cache.Set` | split-horizon-cache/cache.go:511-559 | what is stored, retained and removed for each kind of response |
| `AnswerCache.StoredMeans` | split-horizon-cache/cache.go:486-559 | a write that has no key, lives no time, does not match or is excepted changes nothing; any other becomes the entry under its key with its own question, code, verdict, TTL and time; other keys are untouched |
| `AnswerCache.Cache.GetIfNotStale` | split-horizon-cache/handler.go:260-304 | the entry chosen from the two caches |
| `AnswerCache.HistoryRetains` | split-horizon-cache/cache.go:524-528 | over every history the positive cache retains, under every key, the most recent answer to the question |
| `AnswerCache.HistoryDenies` | split-horizon-cache/cache.go:533-538 | over every history and under every policy the negative cache holds exactly the last denial that nothing has cleared: an answer under prefer_positive, a positive refresh otherwise |
| `AnswerCache.PreferPositiveIff` | split-horizon-cache/handler.go:264-275 | over every history a lookup returns the most recent answer exactly until its age reaches its TTL plus the stale span |
| `AnswerCache.LookupMeans` | split-horizon-cache/handler.go:260-304 | for every policy and every state: only entries for the question younger than TTL plus stale span; a preferred answer first, then a denial, except that a SERVFAIL yields to a positive entry, then the positive entry, and a miss only when none serves |
| `AnswerCache.DenialStands` | split-horizon-cache/handler.go:277-293 | over every history and under every policy, a denial other than SERVFAIL that is the last thing cached is returned exactly until its age reaches TTL plus stale span, unless an answer is still preferred |
| `AnswerCache.PositiveStands` | split-horizon-cache/handler.go:295-301 | without prefer_positive, a positive response that is the last thing cached is returned exactly until that age, unless an earlier denial still stands |
| `FilterIndex.ParentName` | admin/filtereng.go:99-105 | the part after the first dot that is not escaped, or nothing |
| `FilterIndex.FilterHit` | admin/filtereng.go:84-97 | true exactly when the name is in the first set or a proper ancestor is in either |
| `FilterIndex.HitIsCover` | admin/filtereng.go:29-54 | a hit in the two sets of an action is a rule of that action covering the name |
| `FilterIndex.FilterEngine.Replace` | admin/filtereng.go:29-54 | the four sets hold exactly the patterns of the rules |
| `FilterIndex.FilterEngine.Blocked` | admin/filtereng.go:63-74 | blocked exactly when some block rule covers the name and no allow rule does |
| `JournalText.WriteJournal` | ixfr/persist.go:13-33 | the header, then each increment line followed by its deletions and additions |
| `JournalText.ParseJournal` | ixfr/persist.go:35-88 | the scanner's loop computes `Parse` on every text, errors included |
| `JournalText.ParseMeans` | ixfr/persist.go:35-88 | on every text whatsoever, `parseJournal` reads headers of two serials each followed by signed records, among the lines that are neither blank nor comments; everything else, and a line too long, is an error |
| `JournalText.LoadJournal` | ixfr/journal.go:38-58 | fails exactly when the backend cannot be read or its text does not parse; otherwise holds the increments read, reconciled with the zone |
| `JournalText.ParseInvertsWrite` | ixfr/persist.go:13-88 | what was written reads back as the same increments |
| `JournalText.RestartTransparent` | ixfr/journal.go:38-58 | after any run of commits, the journal written, read back and reconciled is the journal there was, and answers every serial alike |

## Left out

- Replication.Replay: is to the letter and so for clean histories only, as `CaseTwinsBreakReplay` shows; `Bags.ReplayUpToCase` has no condition and `ReplayIff` is exact for one step.
- Replication.ReplayStep: the same.
- Convergence.OneBehindConverges: is for journals with no earlier increment from the same serial; `Staleness.OneBehindIff` is exact without that.
- IxfrReader.ParsePrinted: is for chains of differences, which is what a journal that starts from its zone holds; after a failed swap a journal can hold two differences from one serial.
- CommitProtocol.RestartIsSafe: assumes that swaps succeed and that a written zone's serial is reached by no saved increment; `FailedSwapBreaksReplay` and `ReusedSerialIff` say what happens otherwise.
- HttpMeaning.HttpReplaces: is for deletions of class NONE or ANY, as dns-update-persistent/apply.go:52 asks, and for additions that meet no CNAME clash; those are ignored one by one, as `UpdateMeaning.OneRefines` says.
- HttpApply.SoaIsReplacedIff: is for requests with one apex SOA; of several, each is weighed against the one before.
- Journals.Journal.Load: starts from parsed increments; `JournalText.LoadJournal` has the errors before that point.
- JournalText.ParseInvertsWrite: asks of each record that its text is one line short enough for the scanner and reads back as the record; the presentation formats themselves are the DNS library's.
- AnswerCache.PreferPositiveIff: has no eviction and takes the key as the tuple of its fields, so hash collisions are not modelled; times are whole seconds.
- FilterIndex.FilterEngine.Blocked: takes the canonical name; canonicalisation and the rule parser (which guarantees at least two labels) are not modelled.
- Catalogs.SecondaryPersist.StartOrigin: does not model the list of masters kept in the zone or the start of the transfer loop.
- AnswerCache.Cache.Set: has no eviction.
- JournalText.ParseJournal: counts characters where the scanner counts bytes.
- Primary.DeleteCells: sets its report after the loop instead of inside it.
- PersistQueue.RunsAreSound: does not model `markWritten`, the removal of stored zones, or the waiting at shutdown.
- Lookup loops of a single condition (`nameInUse`, `rrsetOf`, `countRRset`, `hasCNAME`, `hasNonCNAME`, `indexOfRR`, `catalogMember`) are functions and quantifiers; order and results are kept, the loops are not.
- HTTP handlers, authentication, OIDC, tokens, proxying, metrics, the user interface, webhooks and self-update: plumbing.
- SQLite and gorm internals: the record store and journal backend are atomic cells.
- TSIG verification, DNSSEC signing and password hashing: cryptography in libraries.
- CoreDNS `file.Zone` and its tree, `transfer.Transfer`, `response.Typify` and the sharded cache: a list of records, a call without effect, a classification and a map.
- Network transfer, retry timers, NOTIFY and the update loop of the secondary: sockets and timing.
- `stopDynamicZones`, and the prefetch and verification goroutines of the cache: they would add only easy members.
- Freshness of the cache as a whole: not every change of a zone moves the cache epoch, so agreement with the backend is no invariant.
- Corefile rewriting, cluster join and snapshot replication, and query statistics: text and JSON handling.
