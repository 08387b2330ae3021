/** Runs in which a secondary does not end with the primary's zone. */
module FailingRuns {
  import opened Collections
  import opened Serials
  import opened Records
  import opened Journals
  import opened IxfrReader
  import opened Replication
  import opened Bags
  import opened Convergence
  import opened Staleness
  import Update = UpdateEngine
  import Zone = ZoneUpdate

  // ---------------------------------------------------------------- two generations behind

  const FIRST := Rec(["a"] + EXAMPLE_APEX, 1, 300, [Text("192.0.2.1")])
  const SECOND := Rec(["b"] + EXAMPLE_APEX, 1, 300, [Text("192.0.2.2")])
  const GENERATIONS: seq<seq<RR>> := [
    [Soa(EXAMPLE_APEX, 300, 1, [])],
    [Soa(EXAMPLE_APEX, 300, 2, []), FIRST],
    [Soa(EXAMPLE_APEX, 300, 3, []), FIRST, SECOND]
  ]

  const ADD_FIRST := Increment(1, 2, [], [FIRST])
  const ADD_SECOND := Increment(2, 3, [], [SECOND])
  const TWO_ADDITIONS := JournalState(64, [ADD_FIRST, ADD_SECOND], GENERATIONS[2])

  lemma TwoAdditions()
    ensures AfterRun(64, GENERATIONS, 2) == TWO_ADDITIONS
  {
    var g := GENERATIONS;
    assert FIRST.owner[0] != SECOND.owner[0];
    assert g[0][1..] == [] && g[1][1..] == [FIRST] && g[2][1..] == [FIRST, SECOND];
    assert [FIRST][1..] == [] && [FIRST, SECOND][1..] == [SECOND] && [SECOND][1..] == [];
    assert FIRST != SECOND && FIRST !in g[0] && FIRST in g[1] && FIRST in g[2] && SECOND !in g[1];
    assert Diff([FIRST], g[0]) == [FIRST] + Diff([], g[0]);
    assert Diff(g[1], g[0]) == [FIRST] && Diff(g[0], g[1]) == [];
    assert Diff([SECOND], g[1]) == [SECOND] + Diff([], g[1]);
    assert Diff([FIRST, SECOND], g[1]) == [SECOND];
    assert Diff(g[2], g[1]) == [SECOND];
    assert Diff([FIRST], g[2]) == [] && Diff(g[1], g[2]) == [];
    assert SerialOf(g[0]) == 1 && SerialOf(g[1]) == 2 && SerialOf(g[2]) == 3;
    assert Delta(g[0], g[1]) == ADD_FIRST;
    assert Delta(g[1], g[2]) == ADD_SECOND;
    assert AfterRun(64, g, 1).incs == [ADD_FIRST];
  }

  lemma ThreeGenerations()
    ensures AllGenerations(GENERATIONS)
  {
    var g := GENERATIONS;
    assert FIRST.owner[0] != SECOND.owner[0];
    assert SoleSoa(g[0], g[0][0]) && SoleSoa(g[1], g[1][0]) && SoleSoa(g[2], g[2][0]);
  }

  /** Two plain additions, a secondary two generations behind: the first record is
      never seen by the secondary, which nevertheless takes the current serial. */
  lemma SkippedGenerationLosesARecord()
    ensures var j := AfterRun(64, GENERATIONS, 2);
            && AllGenerations(GENERATIONS) && FIRST in j.current && SoaOf(j.current).Some?
            && FIRST !in TransferIn(j, GENERATIONS[0])
            && SerialOf(TransferIn(j, GENERATIONS[0])) == SerialOf(j.current)
  {
    ThreeGenerations();
    TwoAdditions();
    var j, g := TWO_ADDITIONS, GENERATIONS;
    RunRetains(64, g, 2, j);
    assert g[0..3] == g;
    TransferMeans(j, g, g[0]);
    TwoSent();
    CollapsedMisses();
  }

  lemma TwoSent()
    ensures SerialOf(GENERATIONS[0]) == 1 && Accepted(TWO_ADDITIONS, 1)
    ensures Merged(Sent(TWO_ADDITIONS, 1)) == Collapsed([ADD_FIRST], ADD_SECOND)
  {
    var j, g := TWO_ADDITIONS, GENERATIONS;
    assert SerialOf(g[0]) == 1 && SerialOf(g[2]) == 3;
    assert FirstFrom(j.incs, 1) == 0 && Sent(j, 1) == [ADD_FIRST, ADD_SECOND];
    assert Sent(j, 1)[..1] == [ADD_FIRST];
  }

  lemma CollapsedMisses()
    ensures var soa := GENERATIONS[2][0];
            var r := ApplyIncrements(GENERATIONS[0], [Collapsed([ADD_FIRST], ADD_SECOND)], soa);
            FIRST !in r && SoaOf(r) == Some(soa)
  {
    var c, p, soa := Collapsed([ADD_FIRST], ADD_SECOND), GENERATIONS[0], GENERATIONS[2][0];
    var out := Remove(p, c.deleted) + c.added;
    RemoveSubset(p, c.deleted);
    assert FIRST.owner[0] != SECOND.owner[0];
    assert ApplyAll(p, [c]) == out by {
      assert ApplyAll(out, [c][1..]) == out;
    }
    ReplaceSoaIs(out, soa);
    var r := ReplaceSoa(out, soa);
    assert FIRST !in Data(r);
    assert SoleSoa(r, soa);
  }

  // ---------------------------------------------------------------- letter case

  const UPPER := Rec(EXAMPLE_APEX, TYPE_PTR, 300, [DomainName("HOST.")])
  const LOWER := Rec(EXAMPLE_APEX, TYPE_PTR, 300, [DomainName("host.")])
  const TWINS := [UPPER, Soa(EXAMPLE_APEX, 300, 1, []), LOWER]
  const ONE_TWIN := [UPPER, Soa(EXAMPLE_APEX, 300, 2, [])]

  /** The update engine tells records apart by exact text, `dns.IsDuplicate` by folded
      names: two PTR records that differ in letter case make a legal generation, and the
      increment that deletes one of them takes the other from the secondary. The two zones
      then differ, but in letter case only. */
  lemma CaseTwinsBreakReplay()
    ensures Generation(TWINS) && Generation(ONE_TWIN)
    ensures forall x, y :: x in TWINS && y in TWINS && ExactKey(x) == ExactKey(y) ==> x == y
    ensures SoaOf(ONE_TWIN).Some?
    ensures var r := ApplyIncrements(TWINS, [Delta(TWINS, ONE_TWIN)], SoaOf(ONE_TWIN).value);
            multiset(r) != multiset(ONE_TWIN) && SameUpToCase(r, ONE_TWIN)
  {
    TwinNames();
    TwinGenerations();
    TwinIsLost(TWINS, TWINS, ONE_TWIN, UPPER, LOWER);
    CommitReplaysUpToCase(TWINS, ONE_TWIN);
  }

  lemma CommitReplaysUpToCase(g: seq<RR>, g': seq<RR>)
    requires Generation(g) && Generation(g')
    ensures SoaOf(g').Some? && SameUpToCase(ApplyIncrements(g, [Delta(g, g')], SoaOf(g').value), g')
  {
    ReplayUpToCase([Delta(g, g')], [g, g'], g);
  }

  lemma TwinGenerations()
    ensures Generation(TWINS) && Generation(ONE_TWIN) && SoaOf(ONE_TWIN) == Some(ONE_TWIN[1])
    ensures UPPER in Data(TWINS) && LOWER in Data(TWINS) && LOWER !in ONE_TWIN
  {
    TwinNames();
    assert SoleSoa(TWINS, TWINS[1]) && SoleSoa(ONE_TWIN, ONE_TWIN[1]);
  }

  lemma TwinNames()
    ensures UPPER != LOWER && UPPER.fields != LOWER.fields && IsDuplicate(UPPER, LOWER)
  {
    assert "HOST."[0] != "host."[0];
    assert UPPER.fields[0].name != LOWER.fields[0].name;
    assert Lower("HOST.") == Lower("host.");
    assert FoldFields(UPPER.fields) == FoldFields(LOWER.fields);
  }

  // ---------------------------------------------------------------- a serial that comes back

  const NS := Rec(EXAMPLE_APEX, TYPE_NS, 300, [DomainName("ns.")])

  function ExampleZone(serial: Serial, data: seq<RR>): seq<RR> {
    [Soa(EXAMPLE_APEX, 300, serial, []), NS] + data
  }

  function Adding(rr: RR): Update.MsgRR {
    Update.MsgRR(CLASS_IN, 0, rr)
  }

  /** What a primary commits for an update section. */
  function Next(zone: seq<RR>, us: seq<Update.MsgRR>): seq<RR> {
    Zone.BumpSerial(Zone.ApplySection(EXAMPLE_APEX, zone, us).rrs)
  }

  const TO_THE_FAR_SIDE := [Adding(Soa(EXAMPLE_APEX, 300, 0x8000_0000, [])), Adding(FIRST)]
  const AND_BACK := [Adding(Soa(EXAMPLE_APEX, 300, 0, []))]

  const AROUND: seq<seq<RR>> := [
    ExampleZone(1, []), ExampleZone(0x8000_0001, [FIRST]), ExampleZone(1, [FIRST]), ExampleZone(2, [FIRST, SECOND])
  ]

  lemma ExampleZones()
    ensures AllGenerations(AROUND) && Zone.ZoneInv(EXAMPLE_APEX, AROUND[0])
    ensures SerialOf(AROUND[0]) == 1 && SerialOf(AROUND[1]) == 0x8000_0001 && SerialOf(AROUND[2]) == 1 && SerialOf(AROUND[3]) == 2
    ensures FIRST in Data(AROUND[1]) && FIRST !in AROUND[0] && FIRST in Data(AROUND[2]) && FIRST in AROUND[3]
  {
    var g := AROUND;
    assert |FIRST.owner| == 3 && |EXAMPLE_APEX| == 2 && FIRST.owner[0] != SECOND.owner[0];
    assert SoleSoa(g[0], g[0][0]) && SoleSoa(g[1], g[1][0]) && SoleSoa(g[2], g[2][0]) && SoleSoa(g[3], g[3][0]);
    assert g[1][2] == FIRST && g[2][2] == FIRST && g[3][2] == FIRST;
    ExampleInv();
  }

  lemma ExampleInv()
    ensures Zone.ZoneInv(EXAMPLE_APEX, ExampleZone(1, []))
  {
    Zone.SmallZoneInv();
    assert ExampleZone(1, []) == Zone.SMALL_ZONE;
  }

  lemma FarSide()
    ensures AROUND[1] == Next(AROUND[0], TO_THE_FAR_SIDE)
  {
    var z := AROUND[0];
    var far := Soa(EXAMPLE_APEX, 300, 0x8000_0000, []);
    var a0 := Zone.Applied(z, false);
    var a1 := Zone.ApplyOne(EXAMPLE_APEX, a0, TO_THE_FAR_SIDE[0]);
    assert a1 == Zone.Applied([far, NS], true);
    AddFirst(a1);
    var a2 := Zone.ApplyOne(EXAMPLE_APEX, a1, TO_THE_FAR_SIDE[1]);
    assert TO_THE_FAR_SIDE[1..] == [Adding(FIRST)] && TO_THE_FAR_SIDE[1..][1..] == [];
    assert Zone.ApplyAll(EXAMPLE_APEX, a2, []) == a2;
    assert Zone.ApplyAll(EXAMPLE_APEX, a1, TO_THE_FAR_SIDE[1..]) == a2;
    assert Zone.ApplySection(EXAMPLE_APEX, z, TO_THE_FAR_SIDE) == a2;
    assert Update.SoaIndex(a2.rrs) == 0;
    assert Zone.BumpSerial(a2.rrs) == AROUND[1];
  }

  lemma AddFirst(a: Zone.Applied)
    requires |a.rrs| == 2 && a.rrs[0].Soa? && a.rrs[0].owner == EXAMPLE_APEX && a.rrs[1] == NS
    ensures Zone.ApplyOne(EXAMPLE_APEX, a, Adding(FIRST)) == Zone.Applied(a.rrs + [FIRST], true)
  {
    assert |FIRST.owner| == 3 && |EXAMPLE_APEX| == 2;
    assert a.rrs == [a.rrs[0], NS];
    assert Update.IndexOfRR(a.rrs, FIRST) == 2;
  }

  lemma Back()
    ensures AROUND[2] == Next(AROUND[1], AND_BACK)
  {
    var z := AROUND[1];
    var near := Soa(EXAMPLE_APEX, 300, 0, []);
    var a0 := Zone.Applied(z, false);
    var a1 := Zone.ApplyOne(EXAMPLE_APEX, a0, AND_BACK[0]);
    assert Update.SoaIndex(z) == 0;
    assert a1 == Zone.Applied([near, NS, FIRST], true);
    assert AND_BACK[1..] == [] && Zone.ApplyAll(EXAMPLE_APEX, a1, []) == a1;
    assert Zone.ApplySection(EXAMPLE_APEX, z, AND_BACK) == a1;
    assert Zone.BumpSerial(a1.rrs) == AROUND[2];
  }

  lemma Onward()
    ensures AROUND[3] == Next(AROUND[2], [Adding(SECOND)])
  {
    var z, us := AROUND[2], [Adding(SECOND)];
    var a0 := Zone.Applied(z, false);
    assert |SECOND.owner| == 3 && |EXAMPLE_APEX| == 2 && FIRST.owner[0] != SECOND.owner[0];
    assert z == [z[0], NS, FIRST];
    assert Update.IndexOfRR(z, SECOND) == 3;
    var a1 := Zone.ApplyOne(EXAMPLE_APEX, a0, us[0]);
    assert a1 == Zone.Applied(z + [SECOND], true);
    assert us[1..] == [] && Zone.ApplyAll(EXAMPLE_APEX, a1, []) == a1;
    assert Zone.ApplySection(EXAMPLE_APEX, z, us) == a1;
    assert Update.SoaIndex(a1.rrs) == 0;
    assert Zone.BumpSerial(a1.rrs) == AROUND[3];
  }

  lemma AroundJournal(j: JournalState)
    requires j == AfterRun(64, AROUND, 3)
    ensures j.incs == [Delta(AROUND[0], AROUND[1]), Delta(AROUND[1], AROUND[2]), Delta(AROUND[2], AROUND[3])]
    ensures History(j, AROUND)
  {
    ExampleZones();
    assert AfterRun(64, AROUND, 0).incs == [];
    assert AfterRun(64, AROUND, 1).incs == [Delta(AROUND[0], AROUND[1])];
    assert AfterRun(64, AROUND, 2).incs == [Delta(AROUND[0], AROUND[1]), Delta(AROUND[1], AROUND[2])];
  }

  /** Three accepted updates take the serial half-way round the number circle, back, and on
      by one. A secondary holding the third zone has the serial of the first and is sent
      the differences from there: through `parseIXFR` it loses a record, and a client that
      reads as RFC 1995 says gets one twice. */
  lemma RecurringSerialMisleads()
    ensures Zone.ZoneInv(EXAMPLE_APEX, AROUND[0]) && AllGenerations(AROUND)
    ensures AROUND[1] == Next(AROUND[0], TO_THE_FAR_SIDE) && AROUND[2] == Next(AROUND[1], AND_BACK)
    ensures AROUND[3] == Next(AROUND[2], [Adding(SECOND)])
    ensures var j := AfterRun(64, AROUND, 3);
            && SoaOf(j.current).Some? && !SameUpToCase(TransferIn(j, AROUND[2]), j.current)
            && !SameUpToCase(ApplyIncrements(AROUND[2], Sent(j, 1), SoaOf(j.current).value), j.current)
  {
    ExampleZones();
    FarSide();
    Back();
    Onward();
    var j := AfterRun(64, AROUND, 3);
    AroundJournal(j);
    AroundSent(j);
    StaleUpToCaseIff(j, AROUND, 2, AROUND[2]);
    FirstIsTouched(j);
    FirstIsMore(j);
    RfcClientConverges(j, AROUND, 2, AROUND[2]);
  }

  lemma AroundSent(j: JournalState)
    requires j.incs == [Delta(AROUND[0], AROUND[1]), Delta(AROUND[1], AROUND[2]), Delta(AROUND[2], AROUND[3])]
    requires j.current == AROUND[3]
    ensures FirstFrom(j.incs, 1) == 0 && Sent(j, 1) == j.incs && Accepted(j, 1)
  {
    ExampleZones();
  }

  lemma FirstIsTouched(j: JournalState)
    requires j.incs == [Delta(AROUND[0], AROUND[1]), Delta(AROUND[1], AROUND[2]), Delta(AROUND[2], AROUND[3])]
    requires History(j, AROUND)
    ensures !NothingLost(j, 0, 2)
  {
    ExampleZones();
    KeptRecords(j, AROUND);
    var before := j.incs[0..2];
    assert before[0] == Delta(AROUND[0], AROUND[1]) && FIRST in before[0].added;
    assert FIRST in Touched(before) && IsDuplicate(FIRST, FIRST);
  }

  lemma FirstIsMore(j: JournalState)
    ensures !Absorbed(Bag(AROUND[2]), Bag(AROUND[0]), j.incs, Bag(AROUND[3]))
  {
    ExampleZones();
    NotYetThere();
    MoreIsNotAbsorbed(AROUND[2], AROUND[0], j.incs, AROUND[3], FIRST);
  }

  lemma NotYetThere()
    ensures forall x :: x in Data(AROUND[0]) ==> DupKey(x) != DupKey(FIRST)
  {
    assert |FIRST.owner| == 3 && |EXAMPLE_APEX| == 2;
  }

  lemma MoreIsNotAbsorbed(held: seq<RR>, start: seq<RR>, incs: seq<Increment>, end: seq<RR>, x: RR)
    requires x in Data(held) && forall y :: y in Data(start) ==> DupKey(y) != DupKey(x)
    ensures !Absorbed(Bag(held), Bag(start), incs, Bag(end))
  {
    var k := DupKey(x);
    BagMember(held, k);
    BagMember(start, k);
    assert k in Bag(held) && k !in Bag(start);
    assert Bag(held)[k] > 0 && Bag(start)[k] == 0;
  }
}
