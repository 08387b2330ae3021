/**
 A secondary any number of generations behind. `parseIXFR` collapses the stream into one
 increment (see IxfrReader.ParsePrinted), so records added on the way and kept since are
 lost; this module says exactly when none are.
 */
module Staleness {
  import opened Collections
  import opened Records
  import opened Serials
  import opened Journals
  import opened IxfrReader
  import opened Replication
  import opened Bags
  import opened Convergence

  // ---------------------------------------------------------------- what a transfer does

  /** The secondary goes by the increments: the primary sends some and the parser takes them. */
  predicate Accepted(j: JournalState, serial: Serial) {
    Behind(serial, SerialOf(j.current)) && Accepts(Sent(j, serial), SerialOf(j.current))
  }

  /** The one increment the parser makes of what is sent. */
  function Merged(incs: seq<Increment>): Increment
    requires incs != []
  {
    Collapsed(incs[..|incs| - 1], Last(incs))
  }

  /** A transfer of any secondary whatsoever: the merged increment, or the whole zone. */
  lemma TransferMeans(j: JournalState, gens: seq<seq<RR>>, p: seq<RR>)
    requires History(j, gens)
    ensures SoaOf(j.current).Some?
    ensures TransferIn(j, p) ==
            if Accepted(j, SerialOf(p)) then ApplyIncrements(p, [Merged(Sent(j, SerialOf(p)))], SoaOf(j.current).value)
            else Install(AxfrStream(j.current))
  {
    var serial := SerialOf(p);
    GenerationSoa(j.current);
    ClassifyRecoversKindIff(j, serial);
    if Behind(serial, SerialOf(j.current)) && Sent(j, serial) != [] {
      AnswersFromHistory(j, gens, serial);
      HistoryTransfer(j, p, Sent(j, serial));
      SentChain(j, gens, serial);
      ParsePrinted(SoaOf(j.current).value, Sent(j, serial));
    }
  }

  lemma SentChain(j: JournalState, gens: seq<seq<RR>>, serial: Serial)
    requires History(j, gens) && Sent(j, serial) != []
    ensures Chained(Sent(j, serial)) && DataOnly(Sent(j, serial)) && Last(Sent(j, serial)).newSerial == SerialOf(j.current)
  {
    JustifiedChained(j.incs, gens);
    JustifiedDataOnly(j.incs, gens);
  }

  // ---------------------------------------------------------------- up to letter case

  /** The data records of the current zone that its last increment left alone. */
  function Kept(j: JournalState): seq<RR>
    requires j.incs != []
  {
    Diff(j.current, Last(j.incs).added)
  }

  /** For a secondary holding generation i and sent the increments from m on: nothing the
      last increment left alone was touched before generation i or added after it. */
  ghost predicate NothingLost(j: JournalState, m: nat, i: nat) {
    m <= i < |j.incs| && Clear(Kept(j), Touched(j.incs[m..i]), Additions(j.incs[i..|j.incs| - 1]))
  }

  /** No record of `kept` has the identity of one in `u` or `a`. */
  ghost predicate Clear(kept: seq<RR>, u: seq<RR>, a: seq<RR>) {
    forall x :: x in kept ==> !HasDuplicate(u, x) && !HasDuplicate(a, x)
  }

  /** Taking away everything mentioned (`u` before, `d` and `a` since) and what the last
      increment deleted leaves what that increment kept exactly when what it kept was
      neither mentioned before nor added since. */
  lemma MergedBalance<T(!new)>(held: multiset<T>, prev: multiset<T>, u: multiset<T>, d: multiset<T>, a: multiset<T>, del: multiset<T>)
    requires held + a == prev + d && del <= prev
    ensures held - (u + (d + a) + del) == prev - del <==> Spared(prev - del, u, a)
  {
    forall k
      ensures (held - (u + (d + a) + del))[k] == (prev - del)[k] <==> (k in prev - del ==> k !in u && k !in a)
    {
      assert (held + a)[k] == (prev + d)[k];
    }
  }

  lemma KeptRecords(j: JournalState, gens: seq<seq<RR>>)
    requires History(j, gens) && j.incs != []
    ensures var prev := gens[|j.incs| - 1];
            && Last(j.incs) == Delta(prev, j.current) && Generation(prev) && Generation(j.current) && NoDup(Kept(j))
            && forall x :: x in Kept(j) <==> x in Data(prev) && x in j.current
  {
    assert Last(j.incs) == Delta(gens[|j.incs| - 1], gens[|j.incs| - 1 + 1]);
  }

  lemma KeptBag(j: JournalState, gens: seq<seq<RR>>)
    requires History(j, gens) && j.incs != []
    ensures var last, prev := Last(j.incs), gens[|j.incs| - 1];
            && Bag(last.deleted) <= Bag(prev)
            && Bag(Kept(j)) == Bag(prev) - Bag(last.deleted)
            && Bag(j.current) == Bag(Kept(j)) + Bag(last.added)
  {
    var last, prev := Last(j.incs), gens[|j.incs| - 1];
    KeptRecords(j, gens);
    BagDiff(prev, j.current);
    BagWithout(j.current, last.added);
  }

  lemma BagWithout(g: seq<RR>, part: seq<RR>)
    requires NoDup(g) && NoDup(part) && forall x :: x in part ==> x in Data(g)
    ensures Bag(part) <= Bag(g) && Bag(Diff(g, part)) == Bag(g) - Bag(part)
  {
    forall k ensures Bag(g)[k] == Bag(Diff(g, part))[k] + Bag(part)[k] {
      BagDiffAt(g, part, k);
      BagCounts(part, k);
      assert Keyed(g, k) * Keyed(part, k) == Keyed(part, k);
    }
  }

  lemma TouchedSplit(before: seq<Increment>, since: seq<Increment>)
    ensures Bag(Touched(before + since)) == Bag(Touched(before)) + (Bag(Deletions(since)) + Bag(Additions(since)))
  {
    TouchedConcat(before, since);
    BagConcat(Touched(before), Touched(since));
    TouchedTotals(since);
  }

  lemma MergedTotals(sent: seq<Increment>, before: seq<Increment>, since: seq<Increment>, last: Increment)
    requires sent == before + since + [last]
    ensures var c := Merged(sent);
            && c.added == last.added
            && Bag(c.deleted) == Bag(Touched(before)) + (Bag(Deletions(since)) + Bag(Additions(since))) + Bag(last.deleted)
  {
    assert sent[..|sent| - 1] == before + since;
    BagConcat(Touched(before + since), last.deleted);
    TouchedSplit(before, since);
  }

  /** The increments between generation i and the last one, and the generations they record. */
  lemma Since(j: JournalState, gens: seq<seq<RR>>, i: nat) returns (since: seq<Increment>, held: seq<seq<RR>>)
    requires History(j, gens) && i < |j.incs|
    ensures since == j.incs[i..|j.incs| - 1] && SinceRecords(j, gens, i, since, held)
  {
    var n := |j.incs| - 1;
    since, held := j.incs[i..n], gens[i..n + 1];
    JustifiedSlice(j.incs, gens, i, n);
  }

  lemma JustifiedSlice(incs: seq<Increment>, gens: seq<seq<RR>>, i: nat, n: nat)
    requires Justified(incs, gens) && i <= n <= |incs|
    ensures Justified(incs[i..n], gens[i..n + 1])
  {
    forall k | 0 <= k < n - i ensures incs[i..n][k] == Delta(gens[i..n + 1][k], gens[i..n + 1][k + 1]) {
      assert incs[i + k] == Delta(gens[i + k], gens[i + k + 1]);
    }
  }

  ghost predicate SinceRecords(j: JournalState, gens: seq<seq<RR>>, i: nat, since: seq<Increment>, held: seq<seq<RR>>)
    requires i < |j.incs| < |gens|
  {
    && Justified(since, held) && held[0] == gens[i] && Last(held) == gens[|j.incs| - 1]
    && forall g :: g in held ==> g in gens
  }

  ghost predicate AllDistinct(gens: seq<seq<RR>>) {
    forall g :: g in gens ==> Distinct(g)
  }

  lemma SentSplit(incs: seq<Increment>, m: nat, i: nat)
    requires m <= i < |incs|
    ensures incs[m..] == incs[m..i] + incs[i..|incs| - 1] + [Last(incs)]
  {
  }

  /** The merged increment `c` of what is sent from m on to a secondary at generation i: `u`
      was touched before, the increments `since` then record the generations `held`. */
  lemma Parts(j: JournalState, gens: seq<seq<RR>>, m: nat, i: nat)
    returns (c: Increment, u: seq<RR>, since: seq<Increment>, held: seq<seq<RR>>)
    requires History(j, gens) && m <= i < |j.incs|
    ensures c == Merged(j.incs[m..]) && c.added == Last(j.incs).added
    ensures Bag(c.deleted) == Bag(u) + (Bag(Deletions(since)) + Bag(Additions(since))) + Bag(Last(j.incs).deleted)
    ensures SinceRecords(j, gens, i, since, held)
    ensures NothingLost(j, m, i) <==> Clear(Kept(j), u, Additions(since))
  {
    since, held := Since(j, gens, i);
    c, u := SentTotals(j.incs, m, i, since);
    LostIs(j, m, i, u, since);
  }

  lemma LostIs(j: JournalState, m: nat, i: nat, u: seq<RR>, since: seq<Increment>)
    requires m <= i < |j.incs| && u == Touched(j.incs[m..i]) && since == j.incs[i..|j.incs| - 1]
    ensures NothingLost(j, m, i) <==> Clear(Kept(j), u, Additions(since))
  {
  }

  lemma SentTotals(incs: seq<Increment>, m: nat, i: nat, since: seq<Increment>) returns (c: Increment, u: seq<RR>)
    requires m <= i < |incs| && since == incs[i..|incs| - 1]
    ensures c == Merged(incs[m..]) && c.added == Last(incs).added && u == Touched(incs[m..i])
    ensures Bag(c.deleted) == Bag(u) + (Bag(Deletions(since)) + Bag(Additions(since))) + Bag(Last(incs).deleted)
  {
    var before := incs[m..i];
    u := Touched(before);
    SentSplit(incs, m, i);
    MergedTotals(incs[m..], before, since, Last(incs));
    c := Merged(incs[m..]);
  }

  /** Nothing kept is among `u` or `a`. */
  ghost predicate Spared<T(!new)>(kept: multiset<T>, u: multiset<T>, a: multiset<T>) {
    forall k :: k in kept ==> k !in u && k !in a
  }

  lemma MergedEquation<T(!new)>(r: multiset<T>, held: multiset<T>, prev: multiset<T>, u: multiset<T>, d: multiset<T>,
                                a: multiset<T>, del: multiset<T>, kept: multiset<T>, add: multiset<T>, current: multiset<T>)
    requires held + a == prev + d && del <= prev && kept == prev - del && current == kept + add
    requires r == held - (u + (d + a) + del) + add
    ensures r == current <==> Spared(kept, u, a)
  {
    MergedBalance(held, prev, u, d, a, del);
    Cancel(held - (u + (d + a) + del), kept, add);
  }

  lemma ReplayedOne(held: multiset<Identity>, c: Increment)
    ensures Replayed(held, [c]) == held - Bag(c.deleted) + Bag(c.added)
  {
    assert [c][1..] == [];
  }

  lemma MergedKeepsIff(j: JournalState, gens: seq<seq<RR>>, m: nat, i: nat, held: multiset<Identity>)
    requires History(j, gens) && m <= i < |j.incs| && held == Bag(gens[i])
    ensures Replayed(held, [Merged(j.incs[m..])]) == Bag(j.current) <==> NothingLost(j, m, i)
  {
    var c, u, since, hs := Parts(j, gens, m, i);
    KeptBag(j, gens);
    Conservation(since, hs);
    ReplayedOne(held, c);
    MergedEquation(Replayed(held, [c]), held, Bag(gens[|j.incs| - 1]), Bag(u), Bag(Deletions(since)), Bag(Additions(since)),
                   Bag(Last(j.incs).deleted), Bag(Kept(j)), Bag(Last(j.incs).added), Bag(j.current));
    SparedMeans(Kept(j), u, Additions(since));
  }

  lemma Cancel<T>(a: multiset<T>, b: multiset<T>, c: multiset<T>)
    ensures a + c == b + c <==> a == b
  {
    if a + c == b + c {
      assert a == a + c - c;
      assert b == b + c - c;
    }
  }

  lemma SparedMeans(kept: seq<RR>, u: seq<RR>, a: seq<RR>)
    requires forall x :: x in kept ==> x.Rec?
    ensures Spared(Bag(kept), Bag(u), Bag(a)) <==> Clear(kept, u, a)
  {
    forall x | x in kept
      ensures DupKey(x) in Bag(kept)
      ensures HasDuplicate(u, x) <==> DupKey(x) in Bag(u)
      ensures HasDuplicate(a, x) <==> DupKey(x) in Bag(a)
    {
      BagMember(kept, DupKey(x));
      DuplicateInBag(u, x);
      DuplicateInBag(a, x);
    }
    if !Spared(Bag(kept), Bag(u), Bag(a)) {
      var k :| k in Bag(kept) && (k in Bag(u) || k in Bag(a));
      BagMember(kept, k);
      var x :| x in kept && x.Rec? && DupKey(x) == k;
      assert HasDuplicate(u, x) || HasDuplicate(a, x);
    }
  }

  lemma FullTransferUpToCase(current: seq<RR>)
    requires Generation(current)
    ensures AxfrStream(current) != [] && SameUpToCase(Install(AxfrStream(current)), current)
  {
    FullTransferConverges(current);
    BagPermutes(Install(AxfrStream(current)), current);
    GenerationPermutes(current, Install(AxfrStream(current)));
  }

  /** A secondary that holds any retained generation i, up to letter case, ends with the
      current zone, up to letter case, exactly when it does not go by the increments or
      loses nothing by them. No serial need be distinct from any other. */
  lemma StaleUpToCaseIff(j: JournalState, gens: seq<seq<RR>>, i: nat, p: seq<RR>)
    requires History(j, gens) && i < |gens| && Bag(p) == Bag(gens[i]) && SerialOf(p) == SerialOf(gens[i])
    ensures SoaOf(j.current).Some?
    ensures SameUpToCase(TransferIn(j, p), j.current)
       <==> (Accepted(j, SerialOf(p)) ==> NothingLost(j, FirstFrom(j.incs, SerialOf(p)), i))
  {
    TransferMeans(j, gens, p);
    AnyUpToCaseIff(j, gens, i, p, SerialOf(p), TransferIn(j, p));
  }

  lemma AnyUpToCaseIff(j: JournalState, gens: seq<seq<RR>>, i: nat, p: seq<RR>, serial: Serial, r: seq<RR>)
    requires History(j, gens) && i < |gens| && Bag(p) == Bag(gens[i]) && serial == SerialOf(gens[i]) && SoaOf(j.current).Some?
    requires r == if Accepted(j, serial) then ApplyIncrements(p, [Merged(Sent(j, serial))], SoaOf(j.current).value)
                  else Install(AxfrStream(j.current))
    ensures SameUpToCase(r, j.current) <==> (Accepted(j, serial) ==> NothingLost(j, FirstFrom(j.incs, serial), i))
  {
    if Accepted(j, serial) {
      SentFrom(j, gens, i);
    }
    ResultUpToCaseIff(j, gens, FirstFrom(j.incs, serial), i, p, Accepted(j, serial), r);
  }

  lemma ResultUpToCaseIff(j: JournalState, gens: seq<seq<RR>>, m: nat, i: nat, p: seq<RR>, accepted: bool, r: seq<RR>)
    requires History(j, gens) && i < |gens| && Bag(p) == Bag(gens[i]) && SoaOf(j.current).Some?
    requires accepted ==> m <= i < |j.incs|
    requires r == if accepted then ApplyIncrements(p, [Merged(j.incs[m..])], SoaOf(j.current).value) else Install(AxfrStream(j.current))
    ensures SameUpToCase(r, j.current) <==> (accepted ==> NothingLost(j, m, i))
  {
    if accepted {
      AcceptedUpToCase(j, gens, m, i, p);
    } else {
      FullTransferUpToCase(j.current);
    }
  }

  lemma AcceptedUpToCase(j: JournalState, gens: seq<seq<RR>>, m: nat, i: nat, p: seq<RR>)
    requires History(j, gens) && m <= i < |j.incs| && Bag(p) == Bag(gens[i]) && SoaOf(j.current).Some?
    ensures SameUpToCase(ApplyIncrements(p, [Merged(j.incs[m..])], SoaOf(j.current).value), j.current)
       <==> NothingLost(j, m, i)
  {
    BagApply(p, [Merged(j.incs[m..])], SoaOf(j.current).value);
    MergedKeepsIff(j, gens, m, i, Bag(p));
  }

  // ---------------------------------------------------------------- to the letter

  /** Nothing the last increment left alone has the identity of anything the merged
      increment deletes. */
  ghost predicate KeptUntouched(j: JournalState, serial: Serial) {
    Sent(j, serial) != [] && SparesKept(j, Merged(Sent(j, serial)))
  }

  lemma {:induction false} RemoveNoDup(from: seq<RR>, del: seq<RR>)
    requires NoDup(from)
    ensures NoDup(Remove(from, del))
    decreases |from|
  {
    if from != [] {
      RemoveNoDup(from[1..], del);
      RemoveNoDup(from[1..], Consume(del, from[0]));
      RemoveSubset(from[1..], del);
      if !HasDuplicate(del, from[0]) {
        NoDupConcat([from[0]], Remove(from[1..], del));
      }
    }
  }

  lemma {:induction false} ConsumeDuplicates(del: seq<RR>, rr: RR, x: RR)
    requires HasDuplicate(Consume(del, rr), x)
    ensures HasDuplicate(del, x)
  {
    if !IsDuplicate(rr, del[0]) && !IsDuplicate(x, del[0]) {
      assert HasDuplicate(Consume(del[1..], rr), x) by {
        var d :| d in Consume(del, rr) && IsDuplicate(x, d);
        assert d in Consume(del[1..], rr);
      }
      ConsumeDuplicates(del[1..], rr, x);
    }
  }

  lemma {:induction false} RemoveSpares(from: seq<RR>, del: seq<RR>, x: RR)
    requires x in from && !HasDuplicate(del, x)
    ensures x in Remove(from, del)
    decreases |from|
  {
    if from[0] != x {
      if HasDuplicate(del, from[0]) {
        if HasDuplicate(Consume(del, from[0]), x) {
          ConsumeDuplicates(del, from[0], x);
        }
        RemoveSpares(from[1..], Consume(del, from[0]), x);
      } else {
        RemoveSpares(from[1..], del, x);
      }
    }
  }

  lemma DataCons(s: seq<RR>)
    requires s != [] && NoDup(s)
    ensures s[0] !in Data(s[1..]) && Data(s) == if s[0].Rec? then {s[0]} + Data(s[1..]) else Data(s[1..])
  {
    assert s[0] !in s[1..] && s == [s[0]] + s[1..];
  }

  lemma {:induction false} BagSize(s: seq<RR>)
    requires NoDup(s)
    ensures |Bag(s)| == |Data(s)|
  {
    if s == [] {
      assert Data(s) == {};
    } else {
      BagSize(s[1..]);
      DataCons(s);
      assert |Bag(s)| == |One(s[0])| + |Bag(s[1..])|;
    }
  }

  lemma SubsetOfSameSize<T>(a: set<T>, b: set<T>)
    requires a <= b && |a| == |b|
    ensures a == b
  {
    assert b == a + (b - a);
  }

  /** What is left of any ordering, when what should stay is spared and the count is right. */
  lemma RemoveLeaves(p: seq<RR>, del: seq<RR>, kept: seq<RR>)
    requires NoDup(p) && NoDup(kept) && Bag(p) - Bag(del) == Bag(kept)
    requires forall x :: x in kept ==> x.Rec? && x in p && !HasDuplicate(del, x)
    ensures NoDup(Remove(p, del)) && Data(Remove(p, del)) == Data(kept)
  {
    var r := Remove(p, del);
    RemoveNoDup(p, del);
    BagRemove(p, del);
    BagSize(r);
    BagSize(kept);
    forall x | x in kept ensures x in r {
      RemoveSpares(p, del, x);
    }
    SubsetOfSameSize(Data(kept), Data(r));
  }

  lemma {:induction false} NotAddedStays(incs: seq<Increment>, gens: seq<seq<RR>>, x: RR)
    requires Justified(incs, gens) && x in Data(Last(gens)) && !HasDuplicate(Additions(incs), x)
    ensures x in Data(gens[0])
    decreases |incs|
  {
    if incs != [] {
      var inc, rest := incs[0], incs[1..];
      assert inc == Delta(gens[0], gens[1]);
      HasDuplicateConcat(inc.added, Additions(rest), x);
      JustifiedSuffix(incs, gens, 1);
      NotAddedStays(rest, gens[1..], x);
      assert IsDuplicate(x, x);
    }
  }

  lemma HasDuplicateConcat(a: seq<RR>, b: seq<RR>, x: RR)
    ensures HasDuplicate(a + b, x) <==> HasDuplicate(a, x) || HasDuplicate(b, x)
  {
  }

  lemma DuplicateInSum(whole: seq<RR>, u: seq<RR>, d: seq<RR>, a: seq<RR>, del: seq<RR>, x: RR)
    requires x.Rec? && Bag(whole) == Bag(u) + (Bag(d) + Bag(a)) + Bag(del)
    ensures HasDuplicate(whole, x) <==> HasDuplicate(u, x) || HasDuplicate(a, x) || HasDuplicate(d, x) || HasDuplicate(del, x)
  {
    DuplicateInBag(whole, x);
    DuplicateInBag(u, x);
    DuplicateInBag(d, x);
    DuplicateInBag(a, x);
    DuplicateInBag(del, x);
  }

  lemma UntouchedLosesNothing(j: JournalState, gens: seq<seq<RR>>, m: nat, i: nat)
    requires History(j, gens) && m <= i < |j.incs| && SparesKept(j, Merged(j.incs[m..]))
    ensures NothingLost(j, m, i)
  {
    var c, u, since, held := Parts(j, gens, m, i);
    forall x | x in Kept(j) ensures !HasDuplicate(u, x) && !HasDuplicate(Additions(since), x) {
      DuplicateInSum(c.deleted, u, Deletions(since), Additions(since), Last(j.incs).deleted, x);
    }
  }

  lemma UntouchedConverges(j: JournalState, gens: seq<seq<RR>>, m: nat, i: nat, p: seq<RR>)
    requires History(j, gens) && m <= i < |j.incs| && multiset(p) == multiset(gens[i]) && SoaOf(j.current).Some?
    requires SparesKept(j, Merged(j.incs[m..]))
    ensures multiset(ApplyIncrements(p, [Merged(j.incs[m..])], SoaOf(j.current).value)) == multiset(j.current)
  {
    var c := Merged(j.incs[m..]);
    GenerationPermutes(gens[i], p);
    PermutationMembers(p, gens[i]);
    KeptIsHeld(j, gens, m, i);
    MergedLeavesBag(j, gens, m, i, p);
    KeptRecords(j, gens);
    RemoveLeaves(p, c.deleted, Kept(j));
    Rebuilt(j, gens, Remove(p, c.deleted), c, p);
  }

  /** Nothing the last increment left alone has the identity of a record `c` deletes. */
  ghost predicate SparesKept(j: JournalState, c: Increment) {
    j.incs != [] && forall x :: x in Kept(j) ==> !HasDuplicate(c.deleted, x)
  }

  lemma KeptIsHeld(j: JournalState, gens: seq<seq<RR>>, m: nat, i: nat)
    requires History(j, gens) && m <= i < |j.incs| && SparesKept(j, Merged(j.incs[m..]))
    ensures forall x :: x in Kept(j) ==> x in Data(gens[i])
  {
    var c, u, since, held := Parts(j, gens, m, i);
    KeptRecords(j, gens);
    UntouchedLosesNothing(j, gens, m, i);
    KeptSince(Kept(j), since, held);
  }

  lemma KeptSince(kept: seq<RR>, since: seq<Increment>, gens: seq<seq<RR>>)
    requires Justified(since, gens) && forall x :: x in kept ==> x in Data(Last(gens)) && !HasDuplicate(Additions(since), x)
    ensures forall x :: x in kept ==> x in Data(gens[0])
  {
    forall x | x in kept ensures x in Data(gens[0]) {
      NotAddedStays(since, gens, x);
    }
  }

  lemma MergedLeavesBag(j: JournalState, gens: seq<seq<RR>>, m: nat, i: nat, p: seq<RR>)
    requires History(j, gens) && m <= i < |j.incs| && multiset(p) == multiset(gens[i])
    requires SparesKept(j, Merged(j.incs[m..]))
    ensures Bag(p) - Bag(Merged(j.incs[m..]).deleted) == Bag(Kept(j))
  {
    var c := Merged(j.incs[m..]);
    UntouchedLosesNothing(j, gens, m, i);
    BagPermutes(p, gens[i]);
    MergedKeepsIff(j, gens, m, i, Bag(p));
    ReplayedOne(Bag(p), c);
    KeptBag(j, gens);
    Cancel(Bag(p) - Bag(c.deleted), Bag(Kept(j)), Bag(c.added));
  }

  lemma Rebuilt(j: JournalState, gens: seq<seq<RR>>, r: seq<RR>, c: Increment, p: seq<RR>)
    requires History(j, gens) && j.incs != [] && SoaOf(j.current).Some? && c.added == Last(j.incs).added
    requires r == Remove(p, c.deleted) && NoDup(r) && Data(r) == Data(Kept(j))
    ensures multiset(ApplyIncrements(p, [c], SoaOf(j.current).value)) == multiset(j.current)
  {
    var soa := SoaOf(j.current).value;
    KeptRecords(j, gens);
    assert Elems(r) !! Elems(c.added) by {
      forall x | x in r ensures x !in c.added {
        if x.Rec? {
          assert x in Data(r);
        }
      }
    }
    NoDupConcat(r, c.added);
    var out := r + c.added;
    assert ApplyAll(p, [c]) == out by {
      assert ApplyAll(out, [c][1..]) == out;
    }
    assert Data(out) == Data(r) + Data(c.added);
    assert Data(out) == Data(j.current);
    ReplaceSoaIs(out, soa);
    SameGeneration(j.current, ReplaceSoa(out, soa));
  }

  /** Some ordering loses a record that was kept but has the identity of a deleted one. */
  lemma TouchedIsLost(j: JournalState, gens: seq<seq<RR>>, i: nat, c: Increment, x: RR) returns (p: seq<RR>)
    requires History(j, gens) && i < |gens| && j.incs != [] && SoaOf(j.current).Some?
    requires c.added == Last(j.incs).added && x in Kept(j) && HasDuplicate(c.deleted, x)
    ensures multiset(p) == multiset(gens[i])
    ensures multiset(ApplyIncrements(p, [c], SoaOf(j.current).value)) != multiset(j.current)
  {
    p := gens[i];
    if x in p {
      p := TwinFirst(p, x);
      GenerationPermutes(gens[i], p);
      assert x !in p[1..];
      RemoveSubset(p[1..], Consume(c.deleted, x));
    } else {
      RemoveSubset(p, c.deleted);
    }
    var out := Remove(p, c.deleted) + c.added;
    assert x !in out;
    assert ApplyAll(p, [c]) == out by {
      assert ApplyAll(out, [c][1..]) == out;
    }
    var r := ReplaceSoa(out, SoaOf(j.current).value);
    ReplaceSoaIs(out, SoaOf(j.current).value);
    assert x !in Data(r) && x !in r;
    assert x in multiset(j.current) && x !in multiset(r);
  }

  /** Every ordering of generation i is taken to an ordering of the current zone. */
  ghost predicate AllConverge(j: JournalState, g: seq<RR>)
    requires SoaOf(j.current).Some?
  {
    forall p :: multiset(p) == multiset(g) ==> multiset(TransferIn(j, p)) == multiset(j.current)
  }

  /** To the letter: a secondary holding any retained generation i, in whatever order, ends
      with the current zone exactly when it does not go by the increments, or nothing the
      last one left alone has the identity of a record that any increment sent deletes, or
      any but the last adds. */
  lemma StaleConvergesIff(j: JournalState, gens: seq<seq<RR>>, i: nat)
    requires History(j, gens) && i < |gens|
    ensures SoaOf(j.current).Some?
    ensures AllConverge(j, gens[i]) <==> (Accepted(j, SerialOf(gens[i])) ==> KeptUntouched(j, SerialOf(gens[i])))
  {
    GenerationSoa(j.current);
    var serial := SerialOf(gens[i]);
    if Accepted(j, serial) ==> KeptUntouched(j, serial) {
      forall p | multiset(p) == multiset(gens[i]) ensures multiset(TransferIn(j, p)) == multiset(j.current) {
        OrderingConverges(j, gens, i, p);
      }
    } else {
      var p := OrderingLoses(j, gens, i);
    }
  }

  lemma OrderingConverges(j: JournalState, gens: seq<seq<RR>>, i: nat, p: seq<RR>)
    requires History(j, gens) && i < |gens| && multiset(p) == multiset(gens[i])
    requires Accepted(j, SerialOf(gens[i])) ==> KeptUntouched(j, SerialOf(gens[i]))
    ensures SoaOf(j.current).Some? && multiset(TransferIn(j, p)) == multiset(j.current)
  {
    GenerationPermutes(gens[i], p);
    TransferMeans(j, gens, p);
    ResultConverges(j, gens, i, p, TransferIn(j, p));
  }

  lemma ResultConverges(j: JournalState, gens: seq<seq<RR>>, i: nat, p: seq<RR>, r: seq<RR>)
    requires History(j, gens) && i < |gens| && multiset(p) == multiset(gens[i]) && SerialOf(p) == SerialOf(gens[i])
    requires SoaOf(j.current).Some? && (Accepted(j, SerialOf(p)) ==> KeptUntouched(j, SerialOf(p)))
    requires r == if Accepted(j, SerialOf(p)) then ApplyIncrements(p, [Merged(Sent(j, SerialOf(p)))], SoaOf(j.current).value)
                  else Install(AxfrStream(j.current))
    ensures multiset(r) == multiset(j.current)
  {
    if Accepted(j, SerialOf(p)) {
      SentFrom(j, gens, i);
      UntouchedConverges(j, gens, FirstFrom(j.incs, SerialOf(p)), i, p);
    } else {
      FullTransferConverges(j.current);
    }
  }

  lemma OrderingLoses(j: JournalState, gens: seq<seq<RR>>, i: nat) returns (p: seq<RR>)
    requires History(j, gens) && i < |gens|
    requires Accepted(j, SerialOf(gens[i])) && !KeptUntouched(j, SerialOf(gens[i]))
    ensures multiset(p) == multiset(gens[i])
    ensures SoaOf(j.current).Some? && multiset(TransferIn(j, p)) != multiset(j.current)
  {
    GenerationSoa(j.current);
    var c := Merged(Sent(j, SerialOf(gens[i])));
    var x :| x in Kept(j) && HasDuplicate(c.deleted, x);
    p := TouchedIsLost(j, gens, i, c, x);
    GenerationPermutes(gens[i], p);
    TransferMeans(j, gens, p);
  }

  // ---------------------------------------------------------------- without letter-case twins

  lemma {:induction false} NoTwinDeleted(incs: seq<Increment>, gens: seq<seq<RR>>, x: RR)
    requires Justified(incs, gens) && AllDistinct(gens) && x in Data(Last(gens)) && !HasDuplicate(Additions(incs), x)
    ensures x in Data(gens[0]) && !HasDuplicate(Deletions(incs), x)
    decreases |incs|
  {
    if incs != [] {
      var inc, rest := incs[0], incs[1..];
      assert inc == Delta(gens[0], gens[1]);
      HasDuplicateConcat(inc.added, Additions(rest), x);
      HasDuplicateConcat(inc.deleted, Deletions(rest), x);
      JustifiedSuffix(incs, gens, 1);
      NoTwinDeleted(rest, gens[1..], x);
      assert IsDuplicate(x, x) && gens[0] in gens;
      NotLastDeleted(gens[0], gens[1], x);
    }
  }

  lemma DistinctUntouched(j: JournalState, gens: seq<seq<RR>>, m: nat, i: nat, x: RR)
    requires History(j, gens) && AllDistinct(gens) && m <= i < |j.incs| && x in Kept(j) && NothingLost(j, m, i)
    ensures !HasDuplicate(Merged(j.incs[m..]).deleted, x)
  {
    var c, u, since, held := Parts(j, gens, m, i);
    KeptRecords(j, gens);
    DistinctNotDeleted(since, held, gens[|j.incs| - 1], j.current, x);
    DuplicateInSum(c.deleted, u, Deletions(since), Additions(since), Last(j.incs).deleted, x);
  }

  lemma DistinctNotDeleted(since: seq<Increment>, held: seq<seq<RR>>, g: seq<RR>, g': seq<RR>, x: RR)
    requires Justified(since, held) && AllDistinct(held) && Last(held) == g && x in Data(g) && x in g'
    requires !HasDuplicate(Additions(since), x)
    ensures !HasDuplicate(Deletions(since), x) && !HasDuplicate(Diff(g, g'), x)
  {
    NoTwinDeleted(since, held, x);
    NotLastDeleted(g, g', x);
  }

  lemma NotLastDeleted(g: seq<RR>, g': seq<RR>, x: RR)
    requires Distinct(g) && x in Data(g) && x in g'
    ensures !HasDuplicate(Diff(g, g'), x)
  {
  }

  /** Where no zone holds two records that differ in letter case only, each ordering by
      itself is taken to the current zone exactly when nothing is lost. */
  lemma StaleDistinctIff(j: JournalState, gens: seq<seq<RR>>, i: nat, p: seq<RR>)
    requires History(j, gens) && AllDistinct(gens) && i < |gens| && multiset(p) == multiset(gens[i])
    ensures SoaOf(j.current).Some?
    ensures multiset(TransferIn(j, p)) == multiset(j.current)
       <==> (Accepted(j, SerialOf(p)) ==> NothingLost(j, FirstFrom(j.incs, SerialOf(p)), i))
  {
    GenerationPermutes(gens[i], p);
    BagPermutes(p, gens[i]);
    StaleUpToCaseIff(j, gens, i, p);
    StaleConvergesIff(j, gens, i);
    if multiset(TransferIn(j, p)) == multiset(j.current) {
      BagPermutes(TransferIn(j, p), j.current);
      GenerationPermutes(j.current, TransferIn(j, p));
    }
    if Accepted(j, SerialOf(p)) && NothingLost(j, FirstFrom(j.incs, SerialOf(p)), i) {
      forall x | x in Kept(j) ensures !HasDuplicate(Merged(Sent(j, SerialOf(p))).deleted, x) {
        DistinctUntouched(j, gens, FirstFrom(j.incs, SerialOf(p)), i, x);
      }
      assert KeptUntouched(j, SerialOf(p));
    }
  }

  // ---------------------------------------------------------------- one generation behind

  /** Commit, answer, classify, parse, apply: every ordering of the previous generation ends
      with the new one exactly when the stream is refused or nothing the commit kept is
      touched by what is sent. When no earlier retained generation has the same serial,
      that is to say: when the commit is clean; and up to letter case always. */
  lemma OneBehindIff(j: JournalState, gens: seq<seq<RR>>, after: seq<RR>, p: seq<RR>)
    requires History(j, gens) && Generation(after) && j.history > 0 && multiset(p) == multiset(j.current)
    ensures var j' := Committed(j, j.current, after);
            var serial := SerialOf(j.current);
            && SoaOf(after).Some?
            && (AllConverge(j', j.current) <==> (Accepted(j', serial) ==> KeptUntouched(j', serial)))
            && (Sent(j', serial) == [Delta(j.current, after)] ==>
                  && SameUpToCase(TransferIn(j', p), after)
                  && (AllConverge(j', j.current) <==> (Accepted(j', serial) ==> CleanStep(j.current, after))))
  {
    var j', gens' := CommitHistory(j, gens, after);
    var i := |j'.incs| - 1;
    StaleConvergesIff(j', gens', i);
    if Sent(j', SerialOf(j.current)) == [Delta(j.current, after)] {
      GenerationPermutes(j.current, p);
      BagPermutes(p, j.current);
      StaleUpToCaseIff(j', gens', i, p);
      OnlyLastSent(j', gens', p);
    }
  }

  lemma CommitHistory(j: JournalState, gens: seq<seq<RR>>, after: seq<RR>) returns (j': JournalState, gens': seq<seq<RR>>)
    requires History(j, gens) && Generation(after) && j.history > 0
    ensures j' == Committed(j, j.current, after) && History(j', gens')
    ensures j'.incs != [] && Last(j'.incs) == Delta(j.current, after) && gens'[|j'.incs| - 1] == j.current
  {
    j' := Committed(j, j.current, after);
    CommitJustified(j, gens, after);
    var all := gens + [after];
    gens' := all[|all| - 1 - |j'.incs|..];
  }

  lemma OnlyLastSent(j: JournalState, gens: seq<seq<RR>>, p: seq<RR>)
    requires History(j, gens) && j.incs != [] && SerialOf(p) == SerialOf(gens[|j.incs| - 1])
    requires Sent(j, SerialOf(p)) == [Last(j.incs)]
    ensures NothingLost(j, FirstFrom(j.incs, SerialOf(p)), |j.incs| - 1)
    ensures KeptUntouched(j, SerialOf(p)) <==> CleanStep(gens[|j.incs| - 1], j.current)
  {
    assert FirstFrom(j.incs, SerialOf(p)) == |j.incs| - 1;
    NothingBetween(j);
    MergedAlone(Last(j.incs));
    KeptClean(j, gens);
  }

  lemma NothingBetween(j: JournalState)
    requires j.incs != []
    ensures NothingLost(j, |j.incs| - 1, |j.incs| - 1)
  {
    var n := |j.incs| - 1;
    assert j.incs[n..n] == [];
  }

  lemma MergedAlone(inc: Increment)
    ensures Merged([inc]).deleted == inc.deleted
  {
    assert [inc][..0] == [] && [] + inc.deleted == inc.deleted;
  }

  lemma KeptClean(j: JournalState, gens: seq<seq<RR>>)
    requires History(j, gens) && j.incs != []
    ensures (forall x :: x in Kept(j) ==> !HasDuplicate(Last(j.incs).deleted, x)) <==> CleanStep(gens[|j.incs| - 1], j.current)
  {
    var g, last := gens[|j.incs| - 1], Last(j.incs);
    KeptRecords(j, gens);
    forall x, d | x in Data(g) && d in Data(g) && d !in j.current && IsDuplicate(x, d) && x in j.current
      ensures x in Kept(j) && HasDuplicate(last.deleted, x)
    {
      assert d in last.deleted;
    }
  }

}
