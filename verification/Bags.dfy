/**
 Replication up to letter case. `removeRRs` matches records with `dns.IsDuplicate`, which
 folds the names inside a record's data; counting records by that identity, increments
 replay on every run whatsoever.
 */
module Bags {
  import opened Collections
  import opened Serials
  import opened Records
  import opened Journals
  import opened IxfrReader
  import opened Replication

  /** The identities of the data records, with multiplicity. */
  function Bag(s: seq<RR>): multiset<Identity> {
    if s == [] then multiset{}
    else One(s[0]) + Bag(s[1..])
  }

  function One(x: RR): multiset<Identity> {
    if x.Rec? then multiset{DupKey(x)} else multiset{}
  }

  /** The same SOA and, counted by the identity `dns.IsDuplicate` compares (letter case
      of names and TTLs aside), the same data records. */
  ghost predicate SameUpToCase(a: seq<RR>, b: seq<RR>) {
    SoaOf(a) == SoaOf(b) && Bag(a) == Bag(b)
  }

  lemma BagCons(x: RR, s: seq<RR>)
    ensures Bag([x] + s) == One(x) + Bag(s)
  {
    assert ([x] + s)[1..] == s;
  }

  lemma {:induction false} BagConcat(a: seq<RR>, b: seq<RR>)
    ensures Bag(a + b) == Bag(a) + Bag(b)
  {
    if a == [] {
      assert [] + b == b;
    } else {
      assert (a + b)[1..] == a[1..] + b;
      BagConcat(a[1..], b);
    }
  }

  lemma {:induction false} BagMember(s: seq<RR>, k: Identity)
    ensures k in Bag(s) <==> exists x :: x in s && x.Rec? && DupKey(x) == k
  {
    if s != [] {
      BagMember(s[1..], k);
      assert forall x :: x in s <==> x == s[0] || x in s[1..];
    }
  }

  lemma DuplicateInBag(del: seq<RR>, x: RR)
    requires x.Rec?
    ensures HasDuplicate(del, x) <==> DupKey(x) in Bag(del)
  {
    BagMember(del, DupKey(x));
  }

  lemma BagMiddle(a: seq<RR>, x: RR, c: seq<RR>)
    ensures Bag(a + ([x] + c)) == One(x) + Bag(a + c)
  {
    BagConcat(a, c);
    BagConcat(a, [x] + c);
    BagCons(x, c);
    assert Bag(a) + (One(x) + Bag(c)) == One(x) + (Bag(a) + Bag(c));
  }

  lemma {:induction false} BagPermutes(a: seq<RR>, b: seq<RR>)
    requires multiset(a) == multiset(b)
    ensures Bag(a) == Bag(b)
    decreases |a|
  {
    if a == [] {
      assert |multiset(b)| == |b|;
    } else {
      var i := PullOut(a, b);
      BagPermutes(a[1..], b[..i] + b[i + 1..]);
      BagMiddle(b[..i], b[i], b[i + 1..]);
      assert b == b[..i] + ([b[i]] + b[i + 1..]);
    }
  }

  // ---------------------------------------------------------------- removal subtracts

  lemma {:induction false} BagConsume(del: seq<RR>, rr: RR)
    requires HasDuplicate(del, rr)
    ensures Bag(Consume(del, rr)) == if rr.Rec? then Bag(del) - multiset{DupKey(rr)} else Bag(del)
  {
    if !IsDuplicate(rr, del[0]) {
      BagConsume(del[1..], rr);
      BagCons(del[0], Consume(del[1..], rr));
      if rr.Rec? {
        DuplicateInBag(del[1..], rr);
      }
    }
  }

  lemma {:induction false} BagRemove(from: seq<RR>, del: seq<RR>)
    ensures Bag(Remove(from, del)) == Bag(from) - Bag(del)
    decreases |from|
  {
    if from != [] {
      var h, t := from[0], from[1..];
      if h.Rec? {
        DuplicateInBag(del, h);
        Subtract(Bag(t), Bag(del), DupKey(h));
      }
      if HasDuplicate(del, h) {
        BagConsume(del, h);
        BagRemove(t, Consume(del, h));
      } else {
        BagRemove(t, del);
        BagCons(h, Remove(t, del));
      }
    }
  }

  lemma Subtract<T>(b: multiset<T>, d: multiset<T>, k: T)
    ensures (multiset{k} + b) - d == if k in d then b - (d - multiset{k}) else multiset{k} + (b - d)
  {
  }

  lemma {:induction false} BagReplaceFirst(rrs: seq<RR>, soa: RR, found: bool)
    requires soa.Soa?
    ensures Bag(ReplaceFirstSoa(rrs, soa, found)) == Bag(rrs)
  {
    if rrs != [] {
      var tail := ReplaceFirstSoa(rrs[1..], soa, found || rrs[0].Soa?);
      BagReplaceFirst(rrs[1..], soa, found || rrs[0].Soa?);
      BagCons(rrs[0], tail);
      BagCons(soa, tail);
      assert [] + tail == tail;
    }
  }

  lemma BagReplaceSoa(rrs: seq<RR>, soa: RR)
    requires soa.Soa?
    ensures Bag(ReplaceSoa(rrs, soa)) == Bag(rrs) && SoaOf(ReplaceSoa(rrs, soa)) == Some(soa)
  {
    BagReplaceFirst(rrs, soa, false);
    BagCons(soa, ReplaceFirstSoa(rrs, soa, false));
    ReplaceSoaIs(rrs, soa);
  }

  // ---------------------------------------------------------------- differences balance

  function Keyed(s: seq<RR>, k: Identity): set<RR> {
    set x | x in Data(s) && DupKey(x) == k
  }

  lemma KeyedCons(s: seq<RR>, k: Identity)
    requires s != [] && NoDup(s)
    ensures var rest := Keyed(s[1..], k);
            s[0] !in rest && Keyed(s, k) == if s[0].Rec? && DupKey(s[0]) == k then {s[0]} + rest else rest
  {
    assert s[0] !in s[1..] && forall x :: x in s <==> x == s[0] || x in s[1..];
  }

  lemma {:induction false} BagCounts(s: seq<RR>, k: Identity)
    requires NoDup(s)
    ensures Bag(s)[k] == |Keyed(s, k)|
  {
    if s == [] {
      assert Keyed(s, k) == {};
    } else {
      BagCounts(s[1..], k);
      KeyedCons(s, k);
    }
  }

  lemma Cardinalities<T>(a: set<T>, b: set<T>)
    ensures |a| == |a - b| + |a * b|
  {
    assert a == (a - b) + a * b;
  }

  /** The records of `g` that `g'` keeps, by identity. */
  lemma BagDiff(g: seq<RR>, g': seq<RR>)
    requires NoDup(g) && NoDup(g')
    ensures Bag(Diff(g, g')) <= Bag(g)
    ensures Bag(g) - Bag(Diff(g, g')) == Bag(g') - Bag(Diff(g', g))
    ensures Bag(g') == Bag(g) - Bag(Diff(g, g')) + Bag(Diff(g', g))
  {
    forall k
      ensures Bag(Diff(g, g'))[k] <= Bag(g)[k] && Bag(Diff(g', g))[k] <= Bag(g')[k]
      ensures Bag(g)[k] - Bag(Diff(g, g'))[k] == Bag(g')[k] - Bag(Diff(g', g))[k]
    {
      BagDiffAt(g, g', k);
      BagDiffAt(g', g, k);
      assert Keyed(g, k) * Keyed(g', k) == Keyed(g', k) * Keyed(g, k);
    }
  }

  lemma BagDiffAt(g: seq<RR>, g': seq<RR>, k: Identity)
    requires NoDup(g) && NoDup(g')
    ensures Bag(g)[k] == Bag(Diff(g, g'))[k] + |Keyed(g, k) * Keyed(g', k)|
  {
    BagCounts(g, k);
    BagCounts(Diff(g, g'), k);
    Cardinalities(Keyed(g, k), Keyed(g', k));
    assert Keyed(Diff(g, g'), k) == Keyed(g, k) - Keyed(g', k);
  }

  // ---------------------------------------------------------------- replay

  /** What increments do to a bag. */
  function Replayed(b: multiset<Identity>, incs: seq<Increment>): multiset<Identity>
    decreases |incs|
  {
    if incs == [] then b else Replayed(b - Bag(incs[0].deleted) + Bag(incs[0].added), incs[1..])
  }

  lemma {:induction false} BagApplyAll(p: seq<RR>, incs: seq<Increment>)
    ensures Bag(ApplyAll(p, incs)) == Replayed(Bag(p), incs)
    decreases |incs|
  {
    if incs != [] {
      var kept := Remove(p, incs[0].deleted);
      BagRemove(p, incs[0].deleted);
      BagConcat(kept, incs[0].added);
      BagApplyAll(kept + incs[0].added, incs[1..]);
    }
  }

  lemma BagApply(p: seq<RR>, incs: seq<Increment>, soa: RR)
    requires soa.Soa?
    ensures Bag(ApplyIncrements(p, incs, soa)) == Replayed(Bag(p), incs)
    ensures SoaOf(ApplyIncrements(p, incs, soa)) == Some(soa)
  {
    BagApplyAll(p, incs);
    BagReplaceSoa(ApplyAll(p, incs), soa);
  }

  lemma {:induction false} HistoryReplays(incs: seq<Increment>, gens: seq<seq<RR>>)
    requires Justified(incs, gens)
    ensures Replayed(Bag(gens[0]), incs) == Bag(Last(gens))
    decreases |incs|
  {
    if incs != [] {
      assert incs[0] == Delta(gens[0], gens[1]);
      BagDiff(gens[0], gens[1]);
      JustifiedSuffix(incs, gens, 1);
      HistoryReplays(incs[1..], gens[1..]);
    }
  }

  /** Replay over every history: whoever holds the first generation up to letter case ends
      with the last one up to letter case, whatever was added, deleted or given a new TTL
      on the way, letter-case twins included. */
  lemma ReplayUpToCase(incs: seq<Increment>, gens: seq<seq<RR>>, p: seq<RR>)
    requires Justified(incs, gens) && Bag(p) == Bag(gens[0])
    ensures SoaOf(Last(gens)).Some?
    ensures SameUpToCase(ApplyIncrements(p, incs, SoaOf(Last(gens)).value), Last(gens))
  {
    GenerationSoa(Last(gens));
    BagApply(p, incs, SoaOf(Last(gens)).value);
    HistoryReplays(incs, gens);
  }

  // ---------------------------------------------------------------- totals

  function Deletions(incs: seq<Increment>): seq<RR> {
    if incs == [] then [] else incs[0].deleted + Deletions(incs[1..])
  }

  function Additions(incs: seq<Increment>): seq<RR> {
    if incs == [] then [] else incs[0].added + Additions(incs[1..])
  }

  lemma {:induction false} TouchedTotals(incs: seq<Increment>)
    ensures Bag(Touched(incs)) == Bag(Deletions(incs)) + Bag(Additions(incs))
  {
    if incs != [] {
      TouchedTotals(incs[1..]);
      BagConcat(incs[0].deleted + incs[0].added, Touched(incs[1..]));
      BagConcat(incs[0].deleted, incs[0].added);
      BagConcat(incs[0].deleted, Deletions(incs[1..]));
      BagConcat(incs[0].added, Additions(incs[1..]));
    }
  }

  lemma {:induction false} TouchedConcat(a: seq<Increment>, b: seq<Increment>)
    ensures Touched(a + b) == Touched(a) + Touched(b)
  {
    if a == [] {
      assert [] + b == b;
    } else {
      assert (a + b)[1..] == a[1..] + b;
      TouchedConcat(a[1..], b);
      Associate(a[0].deleted + a[0].added, Touched(a[1..]), Touched(b), []);
    }
  }

  /** Over a history, what there was and came in is what there is and went out. */
  lemma {:induction false} Conservation(incs: seq<Increment>, gens: seq<seq<RR>>)
    requires Justified(incs, gens)
    ensures Bag(gens[0]) + Bag(Additions(incs)) == Bag(Last(gens)) + Bag(Deletions(incs))
    decreases |incs|
  {
    if incs != [] {
      assert incs[0] == Delta(gens[0], gens[1]);
      BagDiff(gens[0], gens[1]);
      JustifiedSuffix(incs, gens, 1);
      Conservation(incs[1..], gens[1..]);
      BagConcat(incs[0].deleted, Deletions(incs[1..]));
      BagConcat(incs[0].added, Additions(incs[1..]));
    }
  }

  // ---------------------------------------------------------------- replay from elsewhere

  /** The same for one identity: `c` records of it, each increment taking away and adding. */
  function Counted(c: nat, incs: seq<Increment>, k: Identity): nat
    decreases |incs|
  {
    if incs == [] then c else Counted(CountStep(c, incs[0], k), incs[1..], k)
  }

  function CountStep(c: nat, inc: Increment, k: Identity): nat {
    (if c > Bag(inc.deleted)[k] then c - Bag(inc.deleted)[k] else 0) + Bag(inc.added)[k]
  }

  lemma {:induction false} ReplayedCounts(b: multiset<Identity>, incs: seq<Increment>, k: Identity)
    ensures Replayed(b, incs)[k] == Counted(b[k], incs, k)
    decreases |incs|
  {
    if incs != [] {
      var b' := b - Bag(incs[0].deleted) + Bag(incs[0].added);
      ReplayedCounts(b', incs[1..], k);
      CountStepIs(b, incs[0], k);
    }
  }

  lemma CountStepIs(b: multiset<Identity>, inc: Increment, k: Identity)
    ensures (b - Bag(inc.deleted) + Bag(inc.added))[k] == CountStep(b[k], inc, k)
  {
  }

  lemma {:induction false} CountedMonotone(c: nat, d: nat, incs: seq<Increment>, k: Identity)
    requires c <= d
    ensures Counted(c, incs, k) <= Counted(d, incs, k)
    decreases |incs|
  {
    if incs != [] {
      CountedMonotone(CountStep(c, incs[0], k), CountStep(d, incs[0], k), incs[1..], k);
    }
  }

  /** Two counts that come to the same have both been used up on the way, and so would
      nothing at all. */
  lemma {:induction false} CountedMeets(c: nat, d: nat, incs: seq<Increment>, k: Identity)
    requires c < d && Counted(c, incs, k) == Counted(d, incs, k)
    ensures Counted(0, incs, k) == Counted(c, incs, k)
    decreases |incs|
  {
    var c', d', z := CountStep(c, incs[0], k), CountStep(d, incs[0], k), CountStep(0, incs[0], k);
    if c' < d' {
      CountedMeets(c', d', incs[1..], k);
      CountedMonotone(0, z, incs[1..], k);
      CountedMonotone(z, c', incs[1..], k);
    }
  }

  /** A true history never runs short, so whoever starts with more ends with more. */
  lemma {:induction false} CountedExceeds(c: nat, incs: seq<Increment>, gens: seq<seq<RR>>, k: Identity)
    requires Justified(incs, gens) && c > Bag(gens[0])[k]
    ensures Counted(c, incs, k) > Bag(Last(gens))[k]
    decreases |incs|
  {
    if incs != [] {
      assert incs[0] == Delta(gens[0], gens[1]);
      BagDiff(gens[0], gens[1]);
      JustifiedSuffix(incs, gens, 1);
      CountedExceeds(CountStep(c, incs[0], k), incs[1..], gens[1..], k);
    }
  }

  /** Holding `held` instead of `start` makes no difference: each identity is held as often,
      or less often and used up by the increments on the way. */
  ghost predicate Absorbed(held: multiset<Identity>, start: multiset<Identity>, incs: seq<Increment>, end: multiset<Identity>) {
    forall k :: held[k] == start[k] || (held[k] < start[k] && Replayed(multiset{}, incs)[k] == end[k])
  }

  /** Replaying a history from anything but its first generation leads to its last one
      exactly when the difference is absorbed. */
  lemma ReplayFromElsewhereIff(incs: seq<Increment>, gens: seq<seq<RR>>, held: multiset<Identity>)
    requires Justified(incs, gens)
    ensures Replayed(held, incs) == Bag(Last(gens)) <==> Absorbed(held, Bag(gens[0]), incs, Bag(Last(gens)))
  {
    HistoryReplays(incs, gens);
    forall k
      ensures Replayed(held, incs)[k] == Bag(Last(gens))[k]
         <==> held[k] == Bag(gens[0])[k] || (held[k] < Bag(gens[0])[k] && Replayed(multiset{}, incs)[k] == Bag(Last(gens))[k])
    {
      FromElsewhereAt(incs, gens, held, k);
    }
  }

  lemma FromElsewhereAt(incs: seq<Increment>, gens: seq<seq<RR>>, held: multiset<Identity>, k: Identity)
    requires Justified(incs, gens) && Replayed(Bag(gens[0]), incs) == Bag(Last(gens))
    ensures Replayed(held, incs)[k] == Bag(Last(gens))[k]
       <==> held[k] == Bag(gens[0])[k] || (held[k] < Bag(gens[0])[k] && Replayed(multiset{}, incs)[k] == Bag(Last(gens))[k])
  {
    var start := Bag(gens[0]);
    ReplayedCounts(held, incs, k);
    ReplayedCounts(start, incs, k);
    ReplayedCounts(multiset{}, incs, k);
    if held[k] > start[k] {
      CountedExceeds(held[k], incs, gens, k);
    } else if held[k] < start[k] {
      CountedMonotone(0, held[k], incs, k);
      CountedMonotone(held[k], start[k], incs, k);
      if Counted(held[k], incs, k) == Counted(start[k], incs, k) {
        CountedMeets(held[k], start[k], incs, k);
      }
    }
  }
}
