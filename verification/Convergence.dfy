/**
 The whole pipeline: a journal answers a secondary's serial, the secondary
 classifies, parses and applies the answer (secondary-persistent/ixfr.go and
 transfer.go), falling back to a full transfer when the incremental one fails.
 */
module Convergence {
  import opened Collections
  import opened Records
  import opened Serials
  import opened Journals
  import opened IxfrReader
  import opened Replication
  import opened Bags

  // ---------------------------------------------------------------- runs of commits

  /** For every run of commits and every generation i still in the bounded history: the
      retained increments from i on take whoever holds generation i, up to letter case, to
      the current one; and any ordering of generation i to an ordering of the current one
      when the steps of the run are clean. */
  lemma ReplayRun(history: nat, gens: seq<seq<RR>>, n: nat, i: nat, p: seq<RR>, j: JournalState)
    requires n < |gens| && AllGenerations(gens) && j == AfterRun(history, gens, n)
    requires n - |j.incs| <= i <= n && Bag(p) == Bag(gens[i])
    ensures SoaOf(j.current).Some?
    ensures var r := ApplyIncrements(p, j.incs[|j.incs| - (n - i)..], SoaOf(j.current).value);
            && SameUpToCase(r, j.current)
            && (CleanRun(gens) && multiset(p) == multiset(gens[i]) ==> multiset(r) == multiset(j.current))
  {
    RunRetains(history, gens, n, j);
    var m := |j.incs| - (n - i);
    var kept := RetainedHistory(j, gens, n, m);
    ReplayFrom(j.incs, kept, m, p);
  }

  lemma RetainedHistory(j: JournalState, gens: seq<seq<RR>>, n: nat, m: nat) returns (kept: seq<seq<RR>>)
    requires n < |gens| && Retains(j, gens, n) && m <= |j.incs|
    ensures Justified(j.incs, kept) && kept[m] == gens[n - |j.incs| + m] && Last(kept) == gens[n]
    ensures CleanRun(gens) ==> CleanRun(kept)
  {
    kept := gens[n - |j.incs|..n + 1];
    if CleanRun(gens) {
      CleanSlice(gens, n - |j.incs|, n + 1);
    }
  }

  lemma ReplayFrom(incs: seq<Increment>, gens: seq<seq<RR>>, m: nat, p: seq<RR>)
    requires Justified(incs, gens) && m <= |incs| && Bag(p) == Bag(gens[m])
    ensures SoaOf(Last(gens)).Some?
    ensures var r := ApplyIncrements(p, incs[m..], SoaOf(Last(gens)).value);
            && SameUpToCase(r, Last(gens))
            && (CleanRun(gens) && multiset(p) == multiset(gens[m]) ==> multiset(r) == multiset(Last(gens)))
  {
    var rest := HistorySuffix(incs, gens, m);
    ReplayUpToCase(incs[m..], rest, p);
    if CleanRun(gens) && multiset(p) == multiset(gens[m]) {
      Replay(incs[m..], rest, p);
    }
  }

  lemma HistorySuffix(incs: seq<Increment>, gens: seq<seq<RR>>, m: nat) returns (rest: seq<seq<RR>>)
    requires Justified(incs, gens) && m <= |incs|
    ensures Justified(incs[m..], rest) && rest[0] == gens[m] && Last(rest) == Last(gens)
    ensures CleanRun(gens) ==> CleanRun(rest)
  {
    rest := gens[m..];
    JustifiedSuffix(incs, gens, m);
    if CleanRun(gens) {
      CleanSlice(gens, m, |gens|);
      assert gens[m..|gens|] == gens[m..];
    }
  }

  lemma JustifiedDataOnly(incs: seq<Increment>, gens: seq<seq<RR>>)
    requires Justified(incs, gens)
    ensures DataOnly(incs)
  {
    forall inc | inc in incs
      ensures (forall r :: r in inc.deleted ==> r.Rec?) && (forall r :: r in inc.added ==> r.Rec?)
    {
      var k :| 0 <= k < |incs| && incs[k] == inc;
      assert inc == Delta(gens[k], gens[k + 1]);
    }
  }

  /** The serials for which `answer` looks at the history at all. */
  predicate Behind(serial: Serial, current: Serial) {
    serial != 0 && serial != current && !SerialNewer(serial, current)
  }

  /** A journal whose increments are the differences of `gens`, the last being current. */
  ghost predicate History(j: JournalState, gens: seq<seq<RR>>) {
    Justified(j.incs, gens) && j.current == Last(gens)
  }

  /** What a secondary with this serial is sent: the increments from the first one that
      starts at the serial. */
  function Sent(j: JournalState, serial: Serial): seq<Increment> {
    j.incs[FirstFrom(j.incs, serial)..]
  }

  lemma AnswersFromHistory(j: JournalState, gens: seq<seq<RR>>, serial: Serial)
    requires History(j, gens) && Behind(serial, SerialOf(j.current)) && Sent(j, serial) != []
    ensures SoaOf(j.current).Some?
    ensures Answer(j, serial) == (Ixfr, IxfrStream(SoaOf(j.current).value, Sent(j, serial)))
  {
    JustifiedChained(j.incs, gens);
    GenerationSoa(Last(gens));
  }

  /** The generation a secondary holds is at or after the one its stream starts from. */
  lemma SentFrom(j: JournalState, gens: seq<seq<RR>>, i: nat)
    requires History(j, gens) && i < |j.incs|
    ensures FirstFrom(j.incs, SerialOf(gens[i])) <= i && Sent(j, SerialOf(gens[i])) != []
  {
    JustifiedChained(j.incs, gens);
  }

  /** A secondary that reads the stream as section 4 of RFC 1995 says gets exactly the
      retained increments from the first generation m with its serial on. It ends with the
      current zone exactly when what it holds (generation i) differs from generation m in
      nothing, or only in ways the increments absorb; so always when no earlier retained
      generation has its serial. */
  lemma RfcClientConverges(j: JournalState, gens: seq<seq<RR>>, i: nat, p: seq<RR>)
    requires History(j, gens) && i < |j.incs| && Behind(SerialOf(gens[i]), SerialOf(j.current))
    requires Bag(p) == Bag(gens[i]) && SerialOf(p) == SerialOf(gens[i])
    ensures var (kind, rrs) := Answer(j, SerialOf(p));
            var m := FirstFrom(j.incs, SerialOf(p));
            && kind == Ixfr && rrs != [] && rrs[0].Soa? && ReadStream(rrs) == Some(j.incs[m..]) && m <= i
            && var r := ApplyIncrements(p, j.incs[m..], rrs[0]);
               && (SameUpToCase(r, j.current) <==> Absorbed(Bag(gens[i]), Bag(gens[m]), j.incs[m..], Bag(j.current)))
               && (m == i ==> SameUpToCase(r, j.current))
               && (m == i && CleanRun(gens) && multiset(p) == multiset(gens[i]) ==> multiset(r) == multiset(j.current))
  {
    var serial := SerialOf(p);
    var m := FirstFrom(j.incs, serial);
    SentFrom(j, gens, i);
    AnswersFromHistory(j, gens, serial);
    JustifiedSuffix(j.incs, gens, m);
    JustifiedDataOnly(j.incs[m..], gens[m..]);
    var soa := SoaOf(j.current).value;
    ReadInvertsPrint(soa, j.incs[m..]);
    BagApply(p, j.incs[m..], soa);
    ReplayFromElsewhereIff(j.incs[m..], gens[m..], Bag(p));
    if m == i {
      ReplayFrom(j.incs, gens, m, p);
    }
  }

  // ---------------------------------------------------------------- classification

  lemma PrintedHasOldSoa(soa: RR, incs: seq<Increment>)
    requires soa.Soa? && incs != []
    ensures |PrintIncrements(soa, incs)| >= 2 && PrintIncrements(soa, incs)[0] == SoaWithSerial(soa, incs[0].oldSerial)
  {
  }

  /** The secondary's classifier recovers the kind of answer the journal chose, for
      every serial, exactly when the journal's zone has a SOA. */
  lemma ClassifyRecoversKindIff(j: JournalState, serial: Serial)
    ensures Classify(Answer(j, serial).1) == Some(Answer(j, serial).0) <==> SoaOf(j.current).Some?
  {
    var (kind, rrs) := Answer(j, serial);
    match SoaOf(j.current)
    case None =>
      assert rrs == [] || rrs[0] in j.current;
    case Some(soa) =>
      if kind == Axfr {
        var data := DataRecords(j.current);
        assert rrs == [soa] + data + [soa];
        forall i | 1 <= i < |rrs| - 1 ensures rrs[i].Rec? {
          assert rrs[i] == data[i - 1] && data[i - 1] in data;
        }
      } else if kind == Ixfr {
        var start := FirstFrom(j.incs, serial);
        PrintedHasOldSoa(soa, j.incs[start..]);
        assert rrs[1] == PrintIncrements(soa, j.incs[start..])[0];
        assert rrs[1].Soa? && rrs[1].serial != rrs[0].serial;
      }
  }

  // ---------------------------------------------------------------- the secondary's transfer

  /** What an AXFR installs: the stream without its closing SOA. */
  function Install(stream: seq<RR>): seq<RR>
    requires stream != []
  {
    stream[..|stream| - 1]
  }

  /** `transferIXFR` of a secondary holding `p`; `None` sends it to a full transfer. */
  function TransferIxfr(j: JournalState, p: seq<RR>): Option<seq<RR>> {
    var rrs := Answer(j, SerialOf(p)).1;
    match Classify(rrs)
    case None => None
    case Some(Uptodate) => None
    case Some(Axfr) => Some(Install(rrs))
    case Some(Ixfr) =>
      match ParseIxfr(rrs)
      case None => None
      case Some(incs) => Some(ApplyIncrements(p, incs, rrs[0]))
  }

  /** `transferIn`: the zone the secondary ends up with. */
  function TransferIn(j: JournalState, p: seq<RR>): seq<RR>
    requires SoaOf(j.current).Some?
  {
    match TransferIxfr(j, p)
    case Some(zone) => zone
    case None => Install(AxfrStream(j.current))
  }

  lemma FullTransferConverges(current: seq<RR>)
    requires Generation(current)
    ensures AxfrStream(current) != [] && multiset(Install(AxfrStream(current))) == multiset(current)
  {
    GenerationSoa(current);
    var soa, data := SoaOf(current).value, DataRecords(current);
    assert Install(AxfrStream(current)) == [soa] + data;
    NoDupConcat([soa], data);
    assert SoleSoa([soa] + data, soa);
    assert Data([soa] + data) == Data(current);
    SameGeneration(current, [soa] + data);
  }

  /** A secondary one generation behind always ends with the new generation, and gets
      there by the increment exactly when its serial is not zero and the new one is
      later under the secondary's own comparison. */
  lemma OneBehindConverges(j: JournalState, before: seq<RR>, after: seq<RR>, p: seq<RR>)
    requires Generation(before) && Generation(after) && CleanStep(before, after)
    requires j.history > 0 && multiset(p) == multiset(before)
    requires forall inc :: inc in j.incs ==> inc.oldSerial != SerialOf(before)
    ensures SoaOf(after).Some?
    ensures var j' := Committed(j, before, after);
            && multiset(TransferIn(j', p)) == multiset(after)
            && ((SerialOf(before) != 0 && Less(SerialOf(before), SerialOf(after))) <==>
                  (Answer(j', SerialOf(p)).0 == Ixfr && TransferIxfr(j', p).Some?))
  {
    var j' := Committed(j, before, after);
    GenerationSoa(after);
    GenerationPermutes(before, p);
    FullTransferConverges(after);
    ComparisonsAgree(SerialOf(before), SerialOf(after));
    ComparisonsAgree(SerialOf(after), SerialOf(before));
    ClassifyRecoversKindIff(j', SerialOf(p));
    if Behind(SerialOf(before), SerialOf(after)) {
      OneBehindIncrement(j, before, after, p);
    }
  }

  lemma OneBehindIncrement(j: JournalState, before: seq<RR>, after: seq<RR>, p: seq<RR>)
    requires Generation(before) && Generation(after) && CleanStep(before, after)
    requires j.history > 0 && multiset(p) == multiset(before) && SerialOf(p) == SerialOf(before)
    requires forall inc :: inc in j.incs ==> inc.oldSerial != SerialOf(before)
    requires Behind(SerialOf(before), SerialOf(after)) && SoaOf(after).Some?
    ensures var j' := Committed(j, before, after);
            && Answer(j', SerialOf(p)).0 == Ixfr
            && (if Less(SerialOf(before), SerialOf(after))
                then TransferIxfr(j', p).Some? && multiset(TransferIxfr(j', p).value) == multiset(after)
                else TransferIxfr(j', p).None?)
  {
    var j', inc, soa := Committed(j, before, after), Delta(before, after), SoaOf(after).value;
    CommittedLocates(j, before, after);
    assert j'.incs[|j'.incs| - 1..] == [inc];
    JustifiedDataOnly([inc], [before, after]);
    SingleTransfer(j', inc, p);
    Replay([inc], [before, after], p);
  }

  lemma HistoryTransfer(j: JournalState, p: seq<RR>, incs: seq<Increment>)
    requires SoaOf(j.current).Some? && Answer(j, SerialOf(p)) == (Ixfr, IxfrStream(SoaOf(j.current).value, incs))
    ensures var soa := SoaOf(j.current).value;
            var parsed := ParseIxfr(IxfrStream(soa, incs));
            TransferIxfr(j, p) == if parsed.None? then None else Some(ApplyIncrements(p, parsed.value, soa))
  {
    ClassifyRecoversKindIff(j, SerialOf(p));
  }

  lemma SingleTransfer(j: JournalState, inc: Increment, p: seq<RR>)
    requires SoaOf(j.current).Some? && DataOnly([inc]) && inc.newSerial == SerialOf(j.current)
    requires Behind(SerialOf(p), SerialOf(j.current)) && inc.oldSerial == SerialOf(p)
    requires j.incs != [] && Last(j.incs) == inc && FirstFrom(j.incs, SerialOf(p)) == |j.incs| - 1
    ensures Answer(j, SerialOf(p)).0 == Ixfr
    ensures TransferIxfr(j, p) == if Less(inc.oldSerial, inc.newSerial) then Some(ApplyIncrements(p, [inc], SoaOf(j.current).value)) else None
  {
    var soa := SoaOf(j.current).value;
    assert j.incs[|j.incs| - 1..] == [inc];
    HistoryTransfer(j, p, [inc]);
    ParseSingle(soa, inc);
  }

  lemma ParseSingle(soa: RR, inc: Increment)
    requires soa.Soa? && DataOnly([inc]) && inc.newSerial == soa.serial && inc.oldSerial != soa.serial
    ensures ParseIxfr(IxfrStream(soa, [inc])) == if Less(inc.oldSerial, soa.serial) then Some([inc]) else None
  {
    ParsePrinted(soa, [inc]);
    assert [inc][..0] == [] && [] + inc.deleted == inc.deleted;
  }

  lemma CommittedLocates(j: JournalState, before: seq<RR>, after: seq<RR>)
    requires j.history > 0 && forall inc :: inc in j.incs ==> inc.oldSerial != SerialOf(before)
    ensures var j' := Committed(j, before, after);
            && j'.incs != [] && Last(j'.incs) == Delta(before, after)
            && FirstFrom(j'.incs, SerialOf(before)) == |j'.incs| - 1
  {
    var j' := Committed(j, before, after);
    forall k | 0 <= k < |j'.incs| - 1 ensures j'.incs[k].oldSerial != SerialOf(before) {
      assert j'.incs[k] in j.incs;
    }
  }
}
