/**
 From the primary's commits to the secondary's zone: replay over whole runs, the
 complete transfer of a secondary one generation behind, and exactly what becomes
 of one that is further behind.
 */
module Replication {
  import opened Collections
  import opened Records
  import opened Serials
  import opened Journals
  import opened IxfrReader

  // ---------------------------------------------------------------- removal by identity

  function WithKey(s: seq<RR>, k: Identity): set<RR> {
    set x | x in s && DupKey(x) == k
  }

  /** For every identity among the deletions there are at least as many deletions as records. */
  ghost predicate Covered(from: seq<RR>, del: seq<RR>) {
    forall k :: WithKey(del, k) != {} ==> |WithKey(from, k)| <= |WithKey(del, k)|
  }

  lemma {:induction false} ConsumeIs(del: seq<RR>, rr: RR) returns (d: RR)
    requires NoDup(del) && HasDuplicate(del, rr)
    ensures d in del && IsDuplicate(rr, d)
    ensures NoDup(Consume(del, rr)) && forall x :: x in Consume(del, rr) <==> x in del && x != d
  {
    if IsDuplicate(rr, del[0]) {
      d := del[0];
    } else {
      d := ConsumeIs(del[1..], rr);
      var c := Consume(del[1..], rr);
      assert del[0] !in c;
      assert Consume(del, rr) == [del[0]] + c;
    }
  }

  lemma CoveredTail(from: seq<RR>, del: seq<RR>)
    requires from != [] && NoDup(from) && NoDup(del) && Covered(from, del) && HasDuplicate(del, from[0])
    ensures NoDup(Consume(del, from[0])) && Covered(from[1..], Consume(del, from[0]))
    ensures forall x :: x in from[1..] && WithKey(Consume(del, from[0]), DupKey(x)) == {} ==> WithKey(del, DupKey(x)) == {}
  {
    var h, t := from[0], from[1..];
    var d := ConsumeIs(del, h);
    var del' := Consume(del, h);
    forall k ensures WithKey(del', k) != {} ==> |WithKey(t, k)| <= |WithKey(del', k)| {
      KeyMinus(del, del', d, k);
      KeyMinus(from, t, h, k);
      assert d in WithKey(del, DupKey(h));
    }
    forall x | x in t && WithKey(del', DupKey(x)) == {} ensures WithKey(del, DupKey(x)) == {} {
      KeyMinus(del, del', d, DupKey(x));
      KeyMinus(from, t, h, DupKey(x));
      assert x in WithKey(t, DupKey(x));
    }
  }

  lemma KeyMinus(s: seq<RR>, s': seq<RR>, d: RR, k: Identity)
    requires d in s && forall x :: x in s' <==> x in s && x != d
    ensures WithKey(s', k) == if DupKey(d) == k then WithKey(s, k) - {d} else WithKey(s, k)
    ensures DupKey(d) == k ==> |WithKey(s', k)| == |WithKey(s, k)| - 1
  {
  }

  /** When the deletions cover the records, every record with a deleted identity goes. */
  lemma {:induction false} RemoveKeeps(from: seq<RR>, del: seq<RR>)
    requires NoDup(from) && NoDup(del) && Covered(from, del)
    ensures NoDup(Remove(from, del))
    ensures forall x :: x in Remove(from, del) <==> x in from && WithKey(del, DupKey(x)) == {}
    decreases |from|
  {
    if from != [] {
      var h, t := from[0], from[1..];
      if HasDuplicate(del, h) {
        var d := ConsumeIs(del, h);
        assert d in WithKey(del, DupKey(h));
        CoveredTail(from, del);
        RemoveKeeps(t, Consume(del, h));
        forall x | x in t && WithKey(del, DupKey(x)) == {} ensures WithKey(Consume(del, h), DupKey(x)) == {} {
          assert WithKey(Consume(del, h), DupKey(x)) <= WithKey(del, DupKey(x));
        }
      } else {
        assert WithKey(del, DupKey(h)) == {};
        forall k | WithKey(del, k) != {} ensures |WithKey(t, k)| <= |WithKey(del, k)| {
          KeyMinus(from, t, h, k);
        }
        RemoveKeeps(t, del);
      }
    }
  }

  // ---------------------------------------------------------------- replay

  /** A record that leaves the zone takes its letter-case twins with it. */
  ghost predicate CleanStep(g: seq<RR>, g': seq<RR>) {
    forall x, d :: x in Data(g) && d in Data(g) && d !in g' && IsDuplicate(x, d) ==> x !in g'
  }

  ghost predicate CleanRun(gens: seq<seq<RR>>) {
    forall k :: 0 <= k < |gens| - 1 ==> CleanStep(gens[k], gens[k + 1])
  }

  lemma CleanSlice(gens: seq<seq<RR>>, i: nat, j: nat)
    requires i <= j <= |gens| && CleanRun(gens)
    ensures CleanRun(gens[i..j])
  {
    var s := gens[i..j];
    forall k | 0 <= k < |s| - 1 ensures CleanStep(s[k], s[k + 1]) {
      assert CleanStep(gens[i + k], gens[i + k + 1]);
    }
  }

  lemma DistinctStepsAreClean(g: seq<RR>, g': seq<RR>)
    requires Distinct(g)
    ensures CleanStep(g, g')
  {
  }

  /** `out` is a zone with data `d` and one SOA, whichever SOA that is. */
  ghost predicate Holds(out: seq<RR>, d: set<RR>) {
    Generation(out) && Data(out) == d
  }

  lemma SubsetCardinality(a: set<RR>, b: set<RR>)
    requires a <= b
    ensures |a| <= |b|
  {
    assert b == a + (b - a);
  }

  lemma DiffCovers(out: seq<RR>, g: seq<RR>, g': seq<RR>)
    requires Data(out) == Data(g) && CleanStep(g, g')
    ensures Covered(out, Diff(g, g'))
    ensures forall x :: x in out ==> (WithKey(Diff(g, g'), DupKey(x)) == {} <==> x.Soa? || x in g')
  {
    var del := Diff(g, g');
    forall k | WithKey(del, k) != {} ensures |WithKey(out, k)| <= |WithKey(del, k)| {
      var d :| d in WithKey(del, k);
      forall x | x in WithKey(out, k) ensures x in WithKey(del, k) {
        assert IsDuplicate(x, d) && x in Data(out);
      }
      SubsetCardinality(WithKey(out, k), WithKey(del, k));
    }
    forall x | x in out ensures WithKey(del, DupKey(x)) == {} <==> x.Soa? || x in g' {
      if x.Rec? && x !in g' {
        assert x in Data(out) && x in WithKey(del, DupKey(x));
      } else if WithKey(del, DupKey(x)) != {} {
        var d :| d in WithKey(del, DupKey(x));
        assert IsDuplicate(x, d) && x in Data(out);
        assert false;
      }
    }
  }

  /** One increment carries a holder of the old data to the new data. */
  lemma ReplayStep(out: seq<RR>, g: seq<RR>, g': seq<RR>)
    requires Holds(out, Data(g)) && Generation(g) && Generation(g') && CleanStep(g, g')
    ensures Holds(Remove(out, Diff(g, g')) + Diff(g', g), Data(g'))
  {
    var del, add := Diff(g, g'), Diff(g', g);
    DiffCovers(out, g, g');
    RemoveKeeps(out, del);
    var kept := Remove(out, del);
    assert forall x :: x in kept <==> x in out && (x.Soa? || x in g');
    assert Elems(kept) !! Elems(add) by {
      forall x | x in kept ensures x !in add {
        if x.Rec? {
          assert x in Data(out);
        }
      }
    }
    NoDupConcat(kept, add);
    GenerationSoa(out);
    assert SoleSoa(kept + add, SoaOf(out).value);
    forall x ensures x in Data(kept + add) <==> x in Data(g') {
      if x.Rec? && x in kept {
        assert x in Data(out);
      }
      if x in Data(g') && x in g {
        assert x in Data(g) && x in out;
      }
    }
  }

  lemma {:induction false} ReplayAll(out: seq<RR>, incs: seq<Increment>, gens: seq<seq<RR>>)
    requires Justified(incs, gens) && Holds(out, Data(gens[0]))
    requires CleanRun(gens)
    ensures Holds(ApplyAll(out, incs), Data(Last(gens)))
    decreases |incs|
  {
    if incs != [] {
      assert incs[0] == Delta(gens[0], gens[1]);
      ReplayStep(out, gens[0], gens[1]);
      JustifiedSuffix(incs, gens, 1);
      CleanSlice(gens, 1, |gens|);
      assert gens[1..|gens|] == gens[1..];
      ReplayAll(Remove(out, incs[0].deleted) + incs[0].added, incs[1..], gens[1..]);
    }
  }

  lemma {:induction false} ReplaceFirstSoaIs(rrs: seq<RR>, soa: RR, found: bool)
    requires soa.Soa?
    ensures var r := ReplaceFirstSoa(rrs, soa, found);
            && (NoDup(rrs) ==> NoDup(r))
            && (forall x :: x in r <==> x in Data(rrs) || (x == soa && !found && SoaOf(rrs).Some?))
  {
    if rrs != [] {
      ReplaceFirstSoaIs(rrs[1..], soa, found || rrs[0].Soa?);
      var tail := ReplaceFirstSoa(rrs[1..], soa, found || rrs[0].Soa?);
      assert [] + tail == tail;
      assert forall x :: x in Data(rrs) <==> x in Data(rrs[1..]) || (x.Rec? && x == rrs[0]);
      if rrs[0].Rec? && NoDup(rrs) {
        NoDupConcat([rrs[0]], tail);
      } else if rrs[0].Soa? && !found && NoDup(rrs) {
        NoDupConcat([soa], tail);
      }
    }
  }

  lemma ReplaceSoaIs(rrs: seq<RR>, soa: RR)
    requires soa.Soa?
    ensures var r := ReplaceSoa(rrs, soa);
            SoleSoa(r, soa) && Data(r) == Data(rrs) && (NoDup(rrs) ==> Generation(r) && SoaOf(r) == Some(soa))
  {
    ReplaceFirstSoaIs(rrs, soa, false);
    var r := ReplaceSoa(rrs, soa);
    var body := ReplaceFirstSoa(rrs, soa, false);
    if NoDup(rrs) && SoaOf(rrs).None? {
      NoDupConcat([soa], body);
    }
    assert forall x :: x in r <==> x in Data(rrs) || x == soa;
    assert SoleSoa(r, soa);
  }

  /** Replaying the recorded increments on any ordering of the generation they
      start from, with the last generation's SOA, gives an ordering of the last one. */
  lemma Replay(incs: seq<Increment>, gens: seq<seq<RR>>, p: seq<RR>)
    requires Justified(incs, gens) && multiset(p) == multiset(gens[0])
    requires CleanRun(gens)
    ensures SoaOf(Last(gens)).Some?
    ensures multiset(ApplyIncrements(p, incs, SoaOf(Last(gens)).value)) == multiset(Last(gens))
  {
    GenerationSoa(Last(gens));
    GenerationPermutes(gens[0], p);
    ReplayAll(p, incs, gens);
    var soa := SoaOf(Last(gens)).value;
    ReplaceSoaIs(ApplyAll(p, incs), soa);
    SameGeneration(Last(gens), ApplyIncrements(p, incs, soa));
  }

  /** For one commit the condition is exact: the increment carries every ordering of
      the old generation to the new one precisely when no deleted record leaves a
      letter-case twin behind. */
  lemma ReplayIff(g: seq<RR>, g': seq<RR>)
    requires Generation(g) && Generation(g')
    ensures SoaOf(g').Some?
    ensures CleanStep(g, g') <==>
            forall p :: multiset(p) == multiset(g) ==>
              multiset(ApplyIncrements(p, [Delta(g, g')], SoaOf(g').value)) == multiset(g')
  {
    GenerationSoa(g');
    var soa := SoaOf(g').value;
    if CleanStep(g, g') {
      forall p | multiset(p) == multiset(g)
        ensures multiset(ApplyIncrements(p, [Delta(g, g')], soa)) == multiset(g')
      {
        Replay([Delta(g, g')], [g, g'], p);
      }
    } else {
      var x, d :| x in Data(g) && d in Data(g) && d !in g' && IsDuplicate(x, d) && x in g';
      var p := TwinFirst(g, x);
      TwinIsLost(p, g, g', x, d);
    }
  }

  lemma TwinFirst(g: seq<RR>, x: RR) returns (p: seq<RR>)
    requires x in g
    ensures multiset(p) == multiset(g) && p != [] && p[0] == x
  {
    var i :| 0 <= i < |g| && g[i] == x;
    p := [x] + g[..i] + g[i + 1..];
    assert g == g[..i] + [x] + g[i + 1..];
  }

  lemma {:induction false} RemoveSubset(from: seq<RR>, del: seq<RR>)
    ensures forall x :: x in Remove(from, del) ==> x in from
    decreases |from|
  {
    if from != [] {
      RemoveSubset(from[1..], del);
      RemoveSubset(from[1..], Consume(del, from[0]));
    }
  }

  lemma TwinIsLost(p: seq<RR>, g: seq<RR>, g': seq<RR>, x: RR, d: RR)
    requires Generation(g) && Generation(g') && multiset(p) == multiset(g) && p != [] && p[0] == x
    requires x in Data(g) && d in Data(g) && d !in g' && IsDuplicate(x, d) && x in g'
    requires SoaOf(g').Some?
    ensures multiset(ApplyIncrements(p, [Delta(g, g')], SoaOf(g').value)) != multiset(g')
  {
    var inc, soa := Delta(g, g'), SoaOf(g').value;
    GenerationPermutes(g, p);
    var kept := Remove(p, inc.deleted);
    assert d in inc.deleted;
    assert HasDuplicate(inc.deleted, x);
    assert kept == Remove(p[1..], Consume(inc.deleted, x));
    assert x !in p[1..];
    RemoveSubset(p[1..], Consume(inc.deleted, x));
    assert x !in inc.added;
    assert x !in kept + inc.added;
    assert ApplyAll(p, [inc]) == kept + inc.added by {
      assert ApplyAll(kept + inc.added, [inc][1..]) == kept + inc.added;
    }
    ReplaceSoaIs(kept + inc.added, soa);
    assert x !in Data(kept + inc.added);
    var r := ApplyIncrements(p, [inc], soa);
    assert forall y :: y in r && y.Rec? ==> y in Data(r);
    assert x !in r;
    assert x in multiset(g') && x !in multiset(r);
  }
}
