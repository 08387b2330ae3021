/**
 The commit of an update (commitLocked in dns-update-persistent/update.go): write the
 zone to the store, save the journal, swap the served view. Each write may fail and
 the process may stop between any two of them.
 */
module CommitProtocol {
  import opened Collections
  import opened Serials
  import opened Records
  import opened Journals
  import Reader = IxfrReader
  import opened Replication
  import opened Bags
  import opened Convergence
  import Staleness
  import opened UpdateEngine
  import opened ZoneUpdate

  /** What the process serves, what the store holds, and the journal with its backend. */
  datatype Node = Node(live: seq<RR>, store: seq<RR>, hasJournal: bool, hasBackend: bool, journal: JournalState, saved: seq<Increment>)

  datatype Outcome = Outcome(node: Node, rcode: Rcode)

  function SaveJournal(n: Node, next: seq<RR>): Node {
    var j := Committed(n.journal, n.live, next);
    n.(journal := j, saved := if n.hasBackend then j.incs else n.saved)
  }

  predicate JournalTakes(n: Node, next: seq<RR>, saveOk: bool) {
    SoaOf(n.live).Some? && SoaOf(next).Some? && (n.hasBackend ==> saveOk)
  }

  /** The three writes, in order; the verdicts say which of them succeed. */
  function WriteGeneration(n: Node, next: seq<RR>, persistOk: bool, saveOk: bool, swapOk: bool): Outcome {
    if !persistOk then Outcome(n, ServFail)
    else
      var n1 := n.(store := next);
      if n.hasJournal && !JournalTakes(n, next, saveOk) then Outcome(n1, ServFail)
      else
        var n2 := if n.hasJournal then SaveJournal(n1, next) else n1;
        if swapOk then Outcome(n2.(live := next), NoError) else Outcome(n2, ServFail)
  }

  function CommitUpdates(zone: Name, n: Node, us: seq<MsgRR>, persistOk: bool, saveOk: bool, swapOk: bool): Outcome {
    var a := ApplySection(zone, n.live, us);
    if a.changed then WriteGeneration(n, BumpSerial(a.rrs), persistOk, saveOk, swapOk) else Outcome(n, NoError)
  }

  /** Memory, store, journal snapshot and saved journal all belong to one generation. */
  predicate InStep(n: Node) {
    n.store == n.live && (n.hasJournal ==> n.journal.current == n.live && (n.hasBackend ==> n.saved == n.journal.incs))
  }

  predicate AcceptableSection(zone: Name, us: seq<MsgRR>) {
    SoasAtApex(zone, us) && forall u :: u in us ==> InZone(zone, u.rr.owner)
  }

  /** All or nothing. A section that changes nothing writes nothing. Otherwise success
      means every write went through, and then memory, store and journal hold one new
      generation whose serial is one past what the section left; failure leaves what is
      served untouched, the store ahead exactly when the zone was written, and the journal
      ahead exactly when it was saved too (and it was the swap that failed). */
  lemma AllOrNothing(zone: Name, n: Node, us: seq<MsgRR>, persistOk: bool, saveOk: bool, swapOk: bool)
    requires ZoneInv(zone, n.live) && AcceptableSection(zone, us)
    ensures var o := CommitUpdates(zone, n, us, persistOk, saveOk, swapOk);
            var a := ApplySection(zone, n.live, us);
            if !a.changed then o == Outcome(n, NoError) && a.rrs == n.live
            else if persistOk && (n.hasJournal && n.hasBackend ==> saveOk) && swapOk then
              && o.rcode == NoError && InStep(o.node) && ZoneInv(zone, o.node.live)
              && SerialOf(o.node.live) == Advance(SerialOf(a.rrs), 1)
            else
              && o.rcode == ServFail && o.node.live == n.live
              && (if persistOk then o.node.store == BumpSerial(a.rrs) else o.node == n)
              && (if persistOk && n.hasJournal && (n.hasBackend ==> saveOk)
                  then o.node.journal == Committed(n.journal, n.live, BumpSerial(a.rrs))
                       && o.node.saved == (if n.hasBackend then o.node.journal.incs else n.saved)
                  else o.node.journal == n.journal && o.node.saved == n.saved)
  {
    UnchangedMeansUntouched(zone, Applied(n.live, false), us);
    InvSection(zone, Applied(n.live, false), us);
    InvBump(zone, ApplySection(zone, n.live, us).rrs);
    InvIsGeneration(zone, n.live);
    InvIsGeneration(zone, BumpSerial(ApplySection(zone, n.live, us).rrs));
  }

  // ---------------------------------------------------------------- crashes and restarts

  /** Where the process is. The journal, kept by a backend, is modelled with it. */
  datatype Phase =
    | Down
    | Serving(live: seq<RR>, incs: seq<Increment>)
    | ZoneWritten(live: seq<RR>, incs: seq<Increment>, next: seq<RR>)
    | JournalSaved(next: seq<RR>, incs: seq<Increment>)

  /** Two variables only look back: every generation served so far, and whether every zone
      written was a clean step from the one served. */
  datatype System = System(history: nat, store: seq<RR>, saved: seq<Increment>, phase: Phase, served: set<seq<RR>>, clean: bool)

  /** No saved increment ends at this serial. */
  predicate Unreached(saved: seq<Increment>, serial: Serial) {
    forall inc :: inc in saved ==> inc.newSerial != serial
  }

  ghost predicate Init(s: System) {
    && s.phase == Serving(s.store, []) && s.saved == [] && Generation(s.store)
    && s.served == {s.store} && s.clean
  }

  /** What a commit may write: a generation whose serial no saved increment reaches. */
  ghost predicate Writable(saved: seq<Increment>, next: seq<RR>) {
    Generation(next) && Unreached(saved, SerialOf(next))
  }

  ghost predicate WriteZone(s: System, t: System) {
    && s.phase.Serving? && Writable(s.saved, t.store)
    && t == s.(store := t.store, phase := ZoneWritten(s.phase.live, s.phase.incs, t.store),
               clean := s.clean && CleanStep(s.phase.live, t.store))
  }

  ghost predicate WriteJournal(s: System, t: System) {
    && s.phase.ZoneWritten?
    && var next := Truncate(s.history, s.phase.incs + [Delta(s.phase.live, s.phase.next)]);
       t == s.(saved := next, phase := JournalSaved(s.phase.next, next))
  }

  ghost predicate JournalFails(s: System, t: System) {
    s.phase.ZoneWritten? && t == s.(phase := Serving(s.phase.live, s.phase.incs))
  }

  ghost predicate Swap(s: System, t: System) {
    s.phase.JournalSaved? && t == s.(phase := Serving(s.phase.next, s.phase.incs), served := s.served + {s.phase.next})
  }

  ghost predicate Crash(s: System, t: System) {
    t == s.(phase := Down)
  }

  ghost predicate Restart(s: System, t: System) {
    && s.phase.Down?
    && t == s.(phase := Serving(s.store, Reconcile(s.saved, SerialOf(s.store))), served := s.served + {s.store})
  }

  ghost predicate Next(s: System, t: System) {
    s == t || WriteZone(s, t) || WriteJournal(s, t) || JournalFails(s, t) || Swap(s, t) || Crash(s, t) || Restart(s, t)
  }

  /** `incs` is a true history of `gens`, all but the last of which were served; and its
      steps are clean if all were. */
  ghost predicate Recorded(incs: seq<Increment>, gens: seq<seq<RR>>, served: set<seq<RR>>, clean: bool) {
    && Justified(incs, gens) && (clean ==> CleanRun(gens))
    && forall k :: 0 <= k < |incs| ==> gens[k] in served
  }

  /** `incs` records a history that ends with the generation `g`. */
  ghost predicate EndsAt(incs: seq<Increment>, g: seq<RR>, served: set<seq<RR>>, clean: bool) {
    exists gens :: Recorded(incs, gens, served, clean) && Last(gens) == g
  }

  /** What is on disk: either the saved journal ends with the stored zone, or it is a
      true history that nowhere reaches the stored zone's serial. */
  ghost predicate DiskOk(s: System) {
    && Generation(s.store)
    && exists gens :: Recorded(s.saved, gens, s.served, s.clean) && (Last(gens) == s.store || Unreached(s.saved, SerialOf(s.store)))
  }

  ghost predicate PhaseOk(s: System) {
    match s.phase
    case Down => true
    case Serving(live, incs) => EndsAt(incs, live, s.served, s.clean) && live in s.served
    case ZoneWritten(live, incs, next) =>
      && EndsAt(incs, live, s.served, s.clean) && live in s.served
      && next == s.store && (s.clean ==> CleanStep(live, next))
    case JournalSaved(next, incs) => EndsAt(incs, next, s.served, s.clean) && next == s.store
  }

  ghost predicate SystemInv(s: System) {
    DiskOk(s) && PhaseOk(s)
  }

  lemma CommitEndsAt(history: nat, incs: seq<Increment>, live: seq<RR>, next: seq<RR>, served: set<seq<RR>>, clean: bool)
    requires EndsAt(incs, live, served, clean) && live in served && Generation(next) && (clean ==> CleanStep(live, next))
    ensures EndsAt(Truncate(history, incs + [Delta(live, next)]), next, served, clean)
  {
    var gens :| Recorded(incs, gens, served, clean) && Last(gens) == live;
    var j := JournalState(history, incs, live);
    CommitJustified(j, gens, next);
    var all := gens + [next];
    var kept := Committed(j, live, next).incs;
    var first := |all| - 1 - |kept|;
    if clean {
      CleanSnoc(gens, next);
      CleanSlice(all, first, |all|);
      assert all[first..] == all[first..|all|];
    }
    assert Recorded(kept, all[first..], served, clean) && Last(all[first..]) == next;
  }

  lemma CleanSnoc(gens: seq<seq<RR>>, next: seq<RR>)
    requires gens != [] && CleanRun(gens) && CleanStep(Last(gens), next)
    ensures CleanRun(gens + [next])
  {
  }

  /** Whatever is on disk, reconciliation keeps a history that ends with the stored zone. */
  lemma ReconcileEndsAtStore(s: System)
    requires DiskOk(s)
    ensures EndsAt(Reconcile(s.saved, SerialOf(s.store)), s.store, s.served, s.clean)
  {
    var gens :| Recorded(s.saved, gens, s.served, s.clean) && (Last(gens) == s.store || Unreached(s.saved, SerialOf(s.store)));
    if Last(gens) == s.store {
      ReconcileKeepsJustified(s.saved, gens);
    } else {
      ReconcileEmptyIff(s.saved, SerialOf(s.store));
      assert Reconcile(s.saved, SerialOf(s.store)) == [];
      assert Recorded([], [s.store], s.served, s.clean) && Last([s.store]) == s.store;
    }
  }

  lemma EndsAtLater(incs: seq<Increment>, g: seq<RR>, served: set<seq<RR>>, clean: bool, served': set<seq<RR>>, clean': bool)
    requires EndsAt(incs, g, served, clean) && served <= served' && (clean' ==> clean)
    ensures EndsAt(incs, g, served', clean')
  {
    var gens :| Recorded(incs, gens, served, clean) && Last(gens) == g;
    assert Recorded(incs, gens, served', clean');
  }

  lemma DiskLater(s: System, t: System)
    requires DiskOk(s) && t.store == s.store && t.saved == s.saved && s.served <= t.served && t.clean == s.clean
    ensures DiskOk(t)
  {
    var gens :| Recorded(s.saved, gens, s.served, s.clean) && (Last(gens) == s.store || Unreached(s.saved, SerialOf(s.store)));
    assert Recorded(t.saved, gens, t.served, t.clean);
  }

  lemma WriteZoneStep(s: System, t: System)
    requires SystemInv(s) && WriteZone(s, t)
    ensures SystemInv(t)
  {
    var gens :| Recorded(s.saved, gens, s.served, s.clean);
    assert Recorded(t.saved, gens, t.served, t.clean);
    EndsAtLater(s.phase.incs, s.phase.live, s.served, s.clean, t.served, t.clean);
  }

  lemma WriteJournalStep(s: System, t: System)
    requires SystemInv(s) && WriteJournal(s, t)
    ensures SystemInv(t)
  {
    CommitEndsAt(s.history, s.phase.incs, s.phase.live, s.phase.next, s.served, s.clean);
    var gens :| Recorded(t.saved, gens, t.served, t.clean) && Last(gens) == t.store;
  }

  lemma SystemStep(s: System, t: System)
    requires SystemInv(s) && Next(s, t)
    ensures SystemInv(t)
  {
    if WriteZone(s, t) {
      WriteZoneStep(s, t);
    } else if WriteJournal(s, t) {
      WriteJournalStep(s, t);
    } else {
      DiskLater(s, t);
      if Restart(s, t) {
        ReconcileEndsAtStore(s);
        EndsAtLater(t.phase.incs, s.store, s.served, s.clean, t.served, t.clean);
      } else if Swap(s, t) {
        EndsAtLater(t.phase.incs, s.store, s.served, s.clean, t.served, t.clean);
      }
    }
  }

  ghost predicate Execution(run: seq<System>) {
    run != [] && Init(run[0]) && forall k :: 0 <= k < |run| - 1 ==> Next(run[k], run[k + 1])
  }

  lemma {:induction false} InvariantHolds(run: seq<System>, k: nat)
    requires Execution(run) && k < |run|
    ensures SystemInv(run[k])
  {
    if k == 0 {
      var s := run[0];
      assert Recorded([], [s.store], s.served, s.clean) && Last([s.store]) == s.store;
    } else {
      InvariantHolds(run, k - 1);
      SystemStep(run[k - 1], run[k]);
    }
  }

  /** A restart's increments carry every ordering of `first` to the stored zone. */
  ghost predicate ReplaysTo(first: seq<RR>, kept: seq<Increment>, store: seq<RR>)
    requires SoaOf(store).Some?
  {
    forall p :: multiset(p) == multiset(first) ==>
      multiset(Reader.ApplyIncrements(p, kept, SoaOf(store).value)) == multiset(store)
  }

  /** The same up to letter case, from whatever equals `first` up to letter case. */
  ghost predicate ReplaysUpToCase(first: seq<RR>, kept: seq<Increment>, store: seq<RR>)
    requires SoaOf(store).Some?
  {
    forall p :: Bag(p) == Bag(first) ==> SameUpToCase(Reader.ApplyIncrements(p, kept, SoaOf(store).value), store)
  }

  lemma HistoryReplaysTo(kept: seq<Increment>, gens: seq<seq<RR>>)
    requires Justified(kept, gens)
    ensures SoaOf(Last(gens)).Some? && ReplaysUpToCase(gens[0], kept, Last(gens))
    ensures CleanRun(gens) ==> ReplaysTo(gens[0], kept, Last(gens))
  {
    var store := Last(gens);
    GenerationSoa(store);
    forall p | Bag(p) == Bag(gens[0]) ensures SameUpToCase(Reader.ApplyIncrements(p, kept, SoaOf(store).value), store) {
      ReplayUpToCase(kept, gens, p);
    }
    if CleanRun(gens) {
      forall p | multiset(p) == multiset(gens[0])
        ensures multiset(Reader.ApplyIncrements(p, kept, SoaOf(store).value)) == multiset(store)
      {
        Replay(kept, gens, p);
      }
    }
  }

  /** What a restart would keep. */
  function KeptBy(s: System): seq<Increment> {
    Reconcile(s.saved, SerialOf(s.store))
  }

  /** Crash safety: in every reachable state of every run, whatever failed or crashed
      before, a restart keeps increments that are a true history of generations that were
      served, ending with exactly the stored zone, and that replay to it: always up to
      letter case, and to the letter if the zones written were clean steps. */
  lemma RestartIsSafe(run: seq<System>, k: nat) returns (gens: seq<seq<RR>>)
    requires Execution(run) && k < |run|
    ensures var s := run[k];
            && Justified(KeptBy(s), gens) && Last(gens) == s.store && SoaOf(s.store).Some?
            && (forall i :: 0 <= i < |KeptBy(s)| ==> gens[i] in s.served)
            && ReplaysUpToCase(gens[0], KeptBy(s), s.store)
            && (s.clean ==> CleanRun(gens) && ReplaysTo(gens[0], KeptBy(s), s.store))
  {
    var s := run[k];
    InvariantHolds(run, k);
    ReconcileEndsAtStore(s);
    gens :| Recorded(KeptBy(s), gens, s.served, s.clean) && Last(gens) == s.store;
    HistoryReplaysTo(KeptBy(s), gens);
  }

  /** No two generations served have the same serial. */
  predicate SerialsTell(served: set<seq<RR>>) {
    forall a, b :: a in served && b in served && SerialOf(a) == SerialOf(b) ==> a == b
  }

  /** The journal a restart begins with. */
  function Restarted(s: System): JournalState {
    JournalState(s.history, KeptBy(s), s.store)
  }

  /** A secondary that holds any generation ever served in a run of crashes and failures,
      asking after a restart: if it is sent increments and reads them as section 4 of RFC
      1995 says, it ends with the stored zone; through `parseIXFR` it does so when it is one
      generation behind; and when it is sent no increments it gets the stored zone whole. */
  lemma ServedSecondaryConverges(run: seq<System>, k: nat, g: seq<RR>, p: seq<RR>)
    requires Execution(run) && k < |run| && g in run[k].served && SerialsTell(run[k].served)
    requires Bag(p) == Bag(g) && SerialOf(p) == SerialOf(g)
    ensures var s, j := run[k], Restarted(run[k]);
            var sent := Sent(j, SerialOf(p));
            && SoaOf(s.store).Some?
            && (if Behind(SerialOf(p), SerialOf(s.store)) && sent != [] then
                  var (kind, rrs) := Answer(j, SerialOf(p));
                  && kind == Ixfr && rrs != [] && rrs[0].Soa? && Reader.ReadStream(rrs) == Some(sent)
                  && SameUpToCase(Reader.ApplyIncrements(p, sent, rrs[0]), s.store)
                  && (s.clean && multiset(p) == multiset(g) ==> multiset(Reader.ApplyIncrements(p, sent, rrs[0])) == multiset(s.store))
                  && (|sent| == 1 ==> SameUpToCase(TransferIn(j, p), s.store))
                else multiset(TransferIn(j, p)) == multiset(s.store))
  {
    var s, j := run[k], Restarted(run[k]);
    var gens := RestartIsSafe(run, k);
    assert History(j, gens);
    if Behind(SerialOf(p), SerialOf(s.store)) && Sent(j, SerialOf(p)) != [] {
      var m := FirstFrom(j.incs, SerialOf(p));
      JustifiedChained(j.incs, gens);
      assert SerialOf(gens[m]) == SerialOf(g) && gens[m] == g;
      RfcClientConverges(j, gens, m, p);
      if |Sent(j, SerialOf(p))| == 1 {
        LastSentConverges(j, gens, m, p);
      }
    } else {
      Staleness.TransferMeans(j, gens, p);
      FullTransferConverges(s.store);
    }
  }

  lemma LastSentConverges(j: JournalState, gens: seq<seq<RR>>, m: nat, p: seq<RR>)
    requires History(j, gens) && m == FirstFrom(j.incs, SerialOf(p)) && m == |j.incs| - 1
    requires Bag(p) == Bag(gens[m]) && SerialOf(p) == SerialOf(gens[m])
    ensures SoaOf(j.current).Some? && SameUpToCase(TransferIn(j, p), j.current)
  {
    Staleness.StaleUpToCaseIff(j, gens, m, p);
    assert j.incs[m..] == [Last(j.incs)];
    Staleness.OnlyLastSent(j, gens, p);
  }

  function AsSystem(n: Node, served: set<seq<RR>>, clean: bool): System {
    System(n.journal.history, n.store, n.saved, Serving(n.live, n.journal.incs), served, clean)
  }

  ghost predicate ThreeSteps(s: System, t: System) {
    exists u, v :: Next(s, u) && Next(u, v) && Next(v, t)
  }

  /** From `n` the machine gets to `n'`, which serves what `n` served or one zone more. */
  ghost predicate Reaches(n: Node, n': Node, served: set<seq<RR>>, clean: bool) {
    exists clean' :: ThreeSteps(AsSystem(n, served, clean), AsSystem(n', served + {n'.live}, clean'))
  }

  lemma WritesFollowProtocol(n: Node, next: seq<RR>, persistOk: bool, saveOk: bool, served: set<seq<RR>>, clean: bool)
    requires Generation(n.live) && Writable(n.saved, next) && n.hasJournal && n.hasBackend && n.live in served
    ensures Reaches(n, WriteGeneration(n, next, persistOk, saveOk, true).node, served, clean)
  {
    GenerationSoa(n.live);
    GenerationSoa(next);
    var n' := WriteGeneration(n, next, persistOk, saveOk, true).node;
    var s := AsSystem(n, served, clean);
    assert served + {n.live} == served;
    if !persistOk {
      assert Next(s, s);
      assert ThreeSteps(s, AsSystem(n', served + {n'.live}, clean));
    } else {
      var clean' := clean && CleanStep(n.live, next);
      var t := AsSystem(n', served + {n'.live}, clean');
      var u := s.(store := next, phase := ZoneWritten(n.live, n.journal.incs, next), clean := clean');
      assert WriteZone(s, u);
      if !saveOk {
        assert JournalFails(u, t);
        assert Next(s, u) && Next(u, t) && Next(t, t);
      } else {
        var kept := Truncate(s.history, n.journal.incs + [Delta(n.live, next)]);
        var v := u.(saved := kept, phase := JournalSaved(next, kept));
        assert WriteJournal(u, v) && Swap(v, t);
        assert Next(s, u) && Next(u, v) && Next(v, t);
      }
      assert ThreeSteps(s, t);
    }
  }

  /** The steps of the machine are the ones commitLocked takes: each way it can end is
      a path of the machine from the serving state. */
  lemma CommitFollowsProtocol(zone: Name, n: Node, us: seq<MsgRR>, persistOk: bool, saveOk: bool, served: set<seq<RR>>, clean: bool)
    requires ZoneInv(zone, n.live) && AcceptableSection(zone, us) && n.hasJournal && n.hasBackend && n.live in served
    requires Unreached(n.saved, SerialOf(BumpSerial(ApplySection(zone, n.live, us).rrs)))
    ensures Reaches(n, CommitUpdates(zone, n, us, persistOk, saveOk, true).node, served, clean)
  {
    InvSection(zone, Applied(n.live, false), us);
    var next := BumpSerial(ApplySection(zone, n.live, us).rrs);
    InvBump(zone, ApplySection(zone, n.live, us).rrs);
    InvIsGeneration(zone, n.live);
    InvIsGeneration(zone, next);
    if ApplySection(zone, n.live, us).changed {
      WritesFollowProtocol(n, next, persistOk, saveOk, served, clean);
    } else {
      var s := AsSystem(n, served, clean);
      assert served + {n.live} == served && Next(s, s) && ThreeSteps(s, s);
    }
  }

  // ---------------------------------------------------------------- serials used twice

  lemma JustifiedPrefix(saved: seq<Increment>, gens: seq<seq<RR>>, end: nat)
    requires Justified(saved, gens) && end <= |saved|
    ensures Justified(saved[..end], gens[..end + 1]) && (CleanRun(gens) ==> CleanRun(gens[..end + 1]))
  {
    if CleanRun(gens) {
      CleanSlice(gens, 0, end + 1);
      assert gens[0..end + 1] == gens[..end + 1];
    }
  }

  lemma ReplayedData(kept: seq<Increment>, gens: seq<seq<RR>>, p: seq<RR>, store: seq<RR>)
    requires Justified(kept, gens) && CleanRun(gens) && multiset(p) == multiset(gens[0])
    requires Generation(store) && SoaOf(store).Some?
    ensures var r := Reader.ApplyIncrements(p, kept, SoaOf(store).value);
            multiset(r) == multiset(store) <==> Data(Last(gens)) == Data(store)
  {
    GenerationPermutes(gens[0], p);
    ReplayAll(p, kept, gens);
    var out, soa := Reader.ApplyAll(p, kept), SoaOf(store).value;
    ReplaceSoaIs(out, soa);
    var r := Reader.ReplaceSoa(out, soa);
    if Data(Last(gens)) == Data(store) {
      SameGeneration(store, r);
    }
    if multiset(r) == multiset(store) {
      GenerationPermutes(store, r);
    }
  }

  lemma ReplaysIff(kept: seq<Increment>, gens: seq<seq<RR>>, store: seq<RR>)
    requires Justified(kept, gens) && CleanRun(gens) && Generation(store) && SoaOf(store).Some?
    ensures ReplaysTo(gens[0], kept, store) <==> Data(Last(gens)) == Data(store)
  {
    ReplayedData(kept, gens, gens[0], store);
    if Data(Last(gens)) == Data(store) {
      forall p | multiset(p) == multiset(gens[0])
        ensures multiset(Reader.ApplyIncrements(p, kept, SoaOf(store).value)) == multiset(store)
      {
        ReplayedData(kept, gens, p, store);
      }
    }
  }

  lemma ReplaysUpToCaseIff(kept: seq<Increment>, gens: seq<seq<RR>>, store: seq<RR>)
    requires Justified(kept, gens) && SoaOf(store).Some?
    ensures ReplaysUpToCase(gens[0], kept, store) <==> Bag(Last(gens)) == Bag(store)
  {
    var soa := SoaOf(store).value;
    HistoryReplays(kept, gens);
    BagApply(gens[0], kept, soa);
    if ReplaysUpToCase(gens[0], kept, store) {
      assert SameUpToCase(Reader.ApplyIncrements(gens[0], kept, soa), store);
    }
    if Bag(Last(gens)) == Bag(store) {
      forall p | Bag(p) == Bag(gens[0]) ensures SameUpToCase(Reader.ApplyIncrements(p, kept, soa), store) {
        BagApply(p, kept, soa);
      }
    }
  }

  /** Without the condition on serials: if the process stops after writing a zone whose
      serial the saved history already reaches (last at generation `end`), the increments
      a restart keeps replay to the stored zone exactly when it holds the data that
      generation held: up to letter case in general, to the letter for clean histories. */
  lemma ReusedSerialIff(saved: seq<Increment>, gens: seq<seq<RR>>, store: seq<RR>, end: nat)
    requires Justified(saved, gens) && Generation(store)
    requires 0 < end <= |saved| && saved[end - 1].newSerial == SerialOf(store)
    requires forall k :: end <= k < |saved| ==> saved[k].newSerial != SerialOf(store)
    ensures SoaOf(store).Some? && Reconcile(saved, SerialOf(store)) == saved[..end]
    ensures ReplaysUpToCase(gens[0], saved[..end], store) <==> Bag(gens[end]) == Bag(store)
    ensures CleanRun(gens) ==> (ReplaysTo(gens[0], saved[..end], store) <==> Data(gens[end]) == Data(store))
  {
    GenerationSoa(store);
    JustifiedPrefix(saved, gens, end);
    ReconcilePrefix(saved, gens, SerialOf(store), end);
    ReplaysUpToCaseIff(saved[..end], gens[..end + 1], store);
    if CleanRun(gens) {
      ReplaysIff(saved[..end], gens[..end + 1], store);
    }
  }

  lemma ReconcilePrefix(saved: seq<Increment>, gens: seq<seq<RR>>, serial: Serial, end: nat)
    requires 0 < end <= |saved| == |gens| - 1 && Justified(saved[..end], gens[..end + 1]) && saved[end - 1].newSerial == serial
    requires forall k :: end <= k < |saved| ==> saved[k].newSerial != serial
    ensures Reconcile(saved, serial) == saved[..end]
  {
    JustifiedChained(saved[..end], gens[..end + 1]);
    assert LastWith(saved, serial) == end - 1;
    assert saved[..end][0..] == saved[..end];
  }

  // ---------------------------------------------------------------- a failed swap

  const ONE_HOST := Rec(["a"] + EXAMPLE_APEX, 1, 300, [Text("192.0.2.1")])
  const OTHER_HOST := Rec(["b"] + EXAMPLE_APEX, 1, 300, [Text("192.0.2.2")])
  const FRESH_NODE := Node(SMALL_ZONE, SMALL_ZONE, true, true, JournalState(64, [], SMALL_ZONE), [])

  function Adding(rr: RR): seq<MsgRR> {
    [MsgRR(CLASS_IN, 0, rr)]
  }

  /** The small zone with one host more and the next serial. */
  function Grown(rr: RR): seq<RR> {
    [SMALL_ZONE[0].(serial := 2), SMALL_ZONE[1], rr]
  }

  predicate IsHost(rr: RR) {
    rr.Rec? && rr.rtype == 1 && |rr.owner| == 3 && rr.owner[1..] == EXAMPLE_APEX
  }

  lemma GrowsBy(rr: RR)
    requires IsHost(rr)
    ensures ApplySection(EXAMPLE_APEX, SMALL_ZONE, Adding(rr)).changed && Advanced(EXAMPLE_APEX, SMALL_ZONE, Adding(rr)) == Grown(rr)
  {
    var a0 := Applied(SMALL_ZONE, false);
    assert |EXAMPLE_APEX| == 2 && IndexOfRR(SMALL_ZONE, rr) == 2;
    var a1 := ApplyOne(EXAMPLE_APEX, a0, Adding(rr)[0]);
    assert a1 == Applied(SMALL_ZONE + [rr], true);
    assert Adding(rr)[1..] == [] && ApplyAll(EXAMPLE_APEX, a1, []) == a1;
    assert SoaIndex(a1.rrs) == 0;
    assert BumpSerial(a1.rrs) == Grown(rr);
  }

  lemma GrownIs(rr: RR)
    requires IsHost(rr)
    ensures Generation(Grown(rr)) && SoaOf(Grown(rr)).Some? && SerialOf(Grown(rr)) == 2
    ensures forall k :: k in Bag(Grown(rr)) <==> k == DupKey(SMALL_ZONE[1]) || k == DupKey(rr)
  {
    var g := Grown(rr);
    assert |EXAMPLE_APEX| == 2;
    assert SoleSoa(g, g[0]);
    forall k ensures k in Bag(g) <==> k == DupKey(SMALL_ZONE[1]) || k == DupKey(rr) {
      BagMember(g, k);
      assert g[1] in g && g[2] in g;
    }
  }

  /** Two accepted updates, each adding a host. The swap of the first fails, which leaves
      the old zone served and the journal one ahead; the journal save of the second fails.
      The store then holds a zone with a serial the journal reaches with other data, and a
      restart's increments do not lead to it. */
  lemma FailedSwapBreaksReplay()
    ensures ZoneInv(EXAMPLE_APEX, FRESH_NODE.live) && InStep(FRESH_NODE)
    ensures Prescan(EXAMPLE_APEX, None, true, Adding(ONE_HOST)) == Prescan(EXAMPLE_APEX, None, true, Adding(OTHER_HOST)) == NoError
    ensures var o1 := CommitUpdates(EXAMPLE_APEX, FRESH_NODE, Adding(ONE_HOST), true, true, false);
            var o2 := CommitUpdates(EXAMPLE_APEX, o1.node, Adding(OTHER_HOST), true, false, true);
            && o1.rcode == ServFail && o1.node.live == SMALL_ZONE && o2.rcode == ServFail
            && SoaOf(o2.node.store).Some?
            && !ReplaysUpToCase(SMALL_ZONE, Reconcile(o2.node.saved, SerialOf(o2.node.store)), o2.node.store)
  {
    SmallZoneInv();
    HostsPass();
    GrowsBy(ONE_HOST);
    GrowsBy(OTHER_HOST);
    GrownIs(ONE_HOST);
    GrownIs(OTHER_HOST);
    InvIsGeneration(EXAMPLE_APEX, SMALL_ZONE);
    var inc := Delta(SMALL_ZONE, Grown(ONE_HOST));
    assert [] + [inc] == [inc];
    OtherDataStored(inc);
  }

  lemma HostsPass()
    ensures IsHost(ONE_HOST) && IsHost(OTHER_HOST) && ONE_HOST.owner[0] != OTHER_HOST.owner[0]
    ensures Prescan(EXAMPLE_APEX, None, true, Adding(ONE_HOST)) == NoError
    ensures Prescan(EXAMPLE_APEX, None, true, Adding(OTHER_HOST)) == NoError
  {
    assert |EXAMPLE_APEX| == 2 && ONE_HOST.owner[1..] == EXAMPLE_APEX && OTHER_HOST.owner[1..] == EXAMPLE_APEX;
    assert PrescanCode(EXAMPLE_APEX, None, true, Adding(ONE_HOST)[0]) == NoError;
    assert PrescanCode(EXAMPLE_APEX, None, true, Adding(OTHER_HOST)[0]) == NoError;
  }

  lemma OtherDataStored(inc: Increment)
    requires inc == Delta(SMALL_ZONE, Grown(ONE_HOST)) && Generation(SMALL_ZONE)
    ensures SoaOf(Grown(OTHER_HOST)).Some?
    ensures !ReplaysUpToCase(SMALL_ZONE, Reconcile([inc], SerialOf(Grown(OTHER_HOST))), Grown(OTHER_HOST))
  {
    HostsPass();
    GrownIs(ONE_HOST);
    GrownIs(OTHER_HOST);
    BagsDiffer();
    OneIncrementMisleads(inc, SMALL_ZONE, Grown(ONE_HOST), Grown(OTHER_HOST));
  }

  lemma BagsDiffer()
    ensures Bag(Grown(ONE_HOST)) != Bag(Grown(OTHER_HOST))
  {
    HostsPass();
    GrownIs(ONE_HOST);
    GrownIs(OTHER_HOST);
    assert |EXAMPLE_APEX| == 2 && DupKey(ONE_HOST) != DupKey(OTHER_HOST) && DupKey(ONE_HOST) != DupKey(SMALL_ZONE[1]);
    assert DupKey(ONE_HOST) in Bag(Grown(ONE_HOST)) && DupKey(ONE_HOST) !in Bag(Grown(OTHER_HOST));
  }

  lemma OneIncrementMisleads(inc: Increment, g: seq<RR>, g': seq<RR>, store: seq<RR>)
    requires Generation(g) && Generation(g') && Generation(store) && inc == Delta(g, g')
    requires SerialOf(g') == SerialOf(store) && Bag(g') != Bag(store)
    ensures SoaOf(store).Some? && !ReplaysUpToCase(g, Reconcile([inc], SerialOf(store)), store)
  {
    GenerationSoa(store);
    ReconcileOne(inc);
    var gens := [g, g'];
    JustifiedOne(inc, gens);
    ReplaysUpToCaseIff([inc], gens, store);
    assert gens[0] == g && Last(gens) == g';
  }

  lemma JustifiedOne(inc: Increment, gens: seq<seq<RR>>)
    requires |gens| == 2 && Generation(gens[0]) && Generation(gens[1]) && inc == Delta(gens[0], gens[1])
    ensures Justified([inc], gens)
  {
  }

  lemma ReconcileOne(inc: Increment)
    ensures Reconcile([inc], inc.newSerial) == [inc]
  {
    assert LastWith([inc], inc.newSerial) == 0 && [inc][..1] == [inc] && [inc][0..] == [inc];
  }
}
