/**
 What an update section means, told on sets (section 3.4.2 of RFC 2136): a zone is a
 set of records, and each update record adds, replaces or takes away. The engine, which
 edits a list in place, is shown to refine this.
 */
module UpdateMeaning {
  import opened Collections
  import opened Serials
  import opened Records
  import opened UpdateEngine
  import opened ZoneUpdate

  function SameIdentity(s: set<RR>, rr: RR): set<RR> {
    set x | x in s && ExactKey(x) == ExactKey(rr)
  }

  function TypedSet(s: set<RR>, name: Name, t: nat): set<RR> {
    set x | x in s && x.owner == name && x.Type() == t
  }

  function Soas(s: set<RR>): set<RR> {
    set x | x in s && x.Soa?
  }

  /** A CNAME beside other data, or other data beside a CNAME. */
  predicate Clashes(s: set<RR>, rr: RR) {
    exists x :: x in s && x.owner == rr.owner
      && if rr.Type() == TYPE_CNAME then x.Type() != TYPE_CNAME && x.Type() != TYPE_RRSIG && x.Type() != TYPE_NSEC
         else x.Type() == TYPE_CNAME
  }

  /** Section 3.4.2.2: a SOA replaces an older one, a record takes the place of the one
      with its identity, and one that clashes is ignored. */
  ghost function Added(s: set<RR>, rr: RR): set<RR> {
    if rr.Type() == TYPE_SOA then
      if rr.Soa? && exists x :: x in s && x.Soa? && SerialGreater(rr.serial, x.serial) then s - Soas(s) + {rr} else s
    else if Clashes(s, rr) then s
    else s - SameIdentity(s, rr) + {rr}
  }

  /** Section 3.4.2.4: one record goes, except the apex SOA and the only apex NS. */
  ghost function Deleted(zone: Name, s: set<RR>, rr: RR): set<RR> {
    if rr.owner == zone && rr.Type() == TYPE_SOA then s
    else if rr.owner == zone && rr.Type() == TYPE_NS && |TypedSet(s, zone, TYPE_NS)| <= 1 then s
    else s - SameIdentity(s, rr)
  }

  /** Section 3.4.2.3: an RRset goes, or all of them; the apex keeps its SOA and NS. */
  ghost function Emptied(zone: Name, s: set<RR>, name: Name, t: nat): set<RR> {
    set x | x in s && !(x.owner == name && (t == TYPE_ANY || x.Type() == t)
                        && !(name == zone && (x.Type() == TYPE_SOA || x.Type() == TYPE_NS)))
  }

  ghost function Updated(zone: Name, s: set<RR>, u: MsgRR): set<RR> {
    if u.cls == CLASS_IN then Added(s, u.rr)
    else if u.cls == CLASS_ANY then Emptied(zone, s, u.rr.owner, u.rr.Type())
    else if u.cls == CLASS_NONE then Deleted(zone, s, u.rr)
    else s
  }

  ghost function UpdatedAll(zone: Name, s: set<RR>, us: seq<MsgRR>): set<RR>
    decreases |us|
  {
    if us == [] then s else UpdatedAll(zone, Updated(zone, s, us[0]), us[1..])
  }

  /** No identity twice and one SOA at most, wherever it stands. */
  ghost predicate Tidy(rrs: seq<RR>) {
    KeysDistinct(rrs) && forall x, y :: x in rrs && y in rrs && x.Soa? && y.Soa? ==> x == y
  }

  lemma InvIsTidy(zone: Name, rrs: seq<RR>)
    requires ZoneInv(zone, rrs)
    ensures Tidy(rrs)
  {
    InvIsGeneration(zone, rrs);
    GenerationSoa(rrs);
  }

  lemma FirstIsOnly(rrs: seq<RR>, rr: RR)
    requires KeysDistinct(rrs)
    ensures var i := IndexOfRR(rrs, rr);
            SameIdentity(Elems(rrs), rr) == if i < |rrs| then {rrs[i]} else {}
  {
    var i := IndexOfRR(rrs, rr);
    forall x | x in rrs && ExactKey(x) == ExactKey(rr) ensures i < |rrs| && x == rrs[i] {
      var k :| 0 <= k < |rrs| && rrs[k] == x;
    }
    if i < |rrs| {
      assert rrs[i] in Elems(rrs);
    }
  }

  lemma SoaIsOnly(rrs: seq<RR>)
    requires Tidy(rrs)
    ensures var i := SoaIndex(rrs);
            Soas(Elems(rrs)) == if i < |rrs| then {rrs[i]} else {}
  {
    var i := SoaIndex(rrs);
    if i < |rrs| {
      assert rrs[i] in Elems(rrs);
    }
  }

  lemma AddSoaMeans(a: Applied, rr: RR)
    requires Tidy(a.rrs) && rr.Type() == TYPE_SOA
    ensures Elems(AddRecord(a, rr).rrs) == Added(Elems(a.rrs), rr) && Tidy(AddRecord(a, rr).rrs)
  {
    var i := SoaIndex(a.rrs);
    SoaIsOnly(a.rrs);
    if i < |a.rrs| && rr.Soa? && SerialGreater(rr.serial, a.rrs[i].serial) {
      assert a.rrs[i] in Elems(a.rrs);
      forall k | 0 <= k < |a.rrs| && k != i ensures a.rrs[k].Rec? {
        assert a.rrs[k] in a.rrs && ExactKey(a.rrs[k]) != ExactKey(a.rrs[i]);
      }
      UpdateElems(a.rrs, i, rr);
      UpdateKeys(a.rrs, i, rr);
      ElemsMembers(a.rrs[i := rr]);
    } else {
      assert forall x :: x in Elems(a.rrs) && x.Soa? ==> x in Soas(Elems(a.rrs));
    }
  }

  lemma ElemsMembers(rrs: seq<RR>)
    ensures forall x :: x in rrs <==> x in Elems(rrs)
  {
  }

  lemma ClashMeans(rrs: seq<RR>, rr: RR)
    ensures Clashes(Elems(rrs), rr)
       <==> if rr.Type() == TYPE_CNAME then HasNonCname(rrs, rr.owner) else HasCname(rrs, rr.owner)
  {
    ElemsMembers(rrs);
  }

  lemma SameButTtl(x: RR, rr: RR)
    requires ExactKey(x) == ExactKey(rr)
    ensures SetTtl(x, rr.ttl) == rr
  {
  }

  lemma AddDataMeans(a: Applied, rr: RR)
    requires Tidy(a.rrs) && rr.Type() != TYPE_SOA
    ensures Elems(AddRecord(a, rr).rrs) == Added(Elems(a.rrs), rr) && Tidy(AddRecord(a, rr).rrs)
  {
    ClashMeans(a.rrs, rr);
    FirstIsOnly(a.rrs, rr);
    var i := IndexOfRR(a.rrs, rr);
    if !Clashes(Elems(a.rrs), rr) {
      if i == |a.rrs| {
        assert Elems(a.rrs + [rr]) == Elems(a.rrs) + {rr};
        ElemsMembers(a.rrs + [rr]);
      } else {
        SameButTtl(a.rrs[i], rr);
        assert a.rrs[i] in Elems(a.rrs);
        UpdateElems(a.rrs, i, rr);
        UpdateKeys(a.rrs, i, rr);
        ElemsMembers(a.rrs[i := rr]);
        if a.rrs[i].ttl == rr.ttl {
          SameButTtl(rr, a.rrs[i]);
          assert a.rrs[i] == rr;
        }
      }
    }
  }

  lemma TypedCons(x: RR, s: set<RR>, name: Name, t: nat)
    ensures TypedSet({x} + s, name, t)
         == if x.owner == name && x.Type() == t then {x} + TypedSet(s, name, t) else TypedSet(s, name, t)
  {
  }

  lemma HeadIsNew(rrs: seq<RR>)
    requires rrs != [] && KeysDistinct(rrs)
    ensures KeysDistinct(rrs[1..]) && rrs[0] !in Elems(rrs[1..]) && Elems(rrs) == {rrs[0]} + Elems(rrs[1..])
  {
    assert rrs == [rrs[0]] + rrs[1..];
  }

  lemma {:induction false} CountIsCardinality(rrs: seq<RR>, name: Name, t: nat)
    requires KeysDistinct(rrs)
    ensures CountRRset(rrs, name, t) == |TypedSet(Elems(rrs), name, t)|
  {
    if rrs == [] {
      assert TypedSet(Elems(rrs), name, t) == {};
    } else {
      HeadIsNew(rrs);
      CountIsCardinality(rrs[1..], name, t);
      TypedCons(rrs[0], Elems(rrs[1..]), name, t);
      assert rrs[0] !in TypedSet(Elems(rrs[1..]), name, t);
    }
  }

  lemma DeleteMeans(zone: Name, a: Applied, rr: RR)
    requires Tidy(a.rrs)
    ensures var r := DeleteRecord(a, rr, rr.owner == zone).rrs;
            Elems(r) == Deleted(zone, Elems(a.rrs), rr) && Tidy(r)
  {
    CountIsCardinality(a.rrs, zone, TYPE_NS);
    FirstIsOnly(a.rrs, rr);
    var i := IndexOfRR(a.rrs, rr);
    if i < |a.rrs| {
      DeleteElems(a.rrs, i);
      ElemsMembers(a.rrs[..i] + a.rrs[i + 1..]);
    }
  }

  lemma EmptyMeans(zone: Name, a: Applied, u: MsgRR)
    requires Tidy(a.rrs) && u.cls == CLASS_ANY
    ensures var r := ApplyOne(zone, a, u).rrs;
            Elems(r) == Emptied(zone, Elems(a.rrs), u.rr.owner, u.rr.Type()) && Tidy(r)
  {
    var apex := u.rr.owner == zone;
    if u.rr.Type() == TYPE_ANY {
      WithoutDistinct(a.rrs, AllAt(u.rr.owner, apex));
    } else if !(apex && (u.rr.Type() == TYPE_SOA || u.rr.Type() == TYPE_NS)) {
      WithoutDistinct(a.rrs, TypedAt(u.rr.owner, u.rr.Type()));
    }
  }

  /** One update record does to the list what it means on the set, keeps the list tidy,
      and reports a change exactly when it makes one. */
  lemma OneRefines(zone: Name, a: Applied, u: MsgRR)
    requires Tidy(a.rrs)
    ensures var a' := ApplyOne(zone, a, u);
            && Elems(a'.rrs) == Updated(zone, Elems(a.rrs), u) && Tidy(a'.rrs)
            && (a'.changed <==> a.changed || Updated(zone, Elems(a.rrs), u) != Elems(a.rrs))
  {
    if u.cls == CLASS_IN {
      if u.rr.Type() == TYPE_SOA {
        AddSoaMeans(a, u.rr);
      } else {
        AddDataMeans(a, u.rr);
      }
    } else if u.cls == CLASS_ANY {
      EmptyMeans(zone, a, u);
    } else if u.cls == CLASS_NONE {
      DeleteMeans(zone, a, u.rr);
    }
    ChangeShows(zone, a, u);
  }

  lemma ChangeShows(zone: Name, a: Applied, u: MsgRR)
    requires Tidy(a.rrs)
    ensures var a' := ApplyOne(zone, a, u);
            a'.changed <==> a.changed || Elems(a'.rrs) != Elems(a.rrs)
  {
    var r := ApplyOne(zone, a, u).rrs;
    if r == a.rrs {
    } else if u.cls == CLASS_IN {
      AddShows(a, u.rr);
    } else if u.cls == CLASS_ANY {
      if u.rr.Type() == TYPE_ANY {
        WithoutShows(a.rrs, AllAt(u.rr.owner, u.rr.owner == zone));
      } else {
        WithoutShows(a.rrs, TypedAt(u.rr.owner, u.rr.Type()));
      }
    } else {
      var i := IndexOfRR(a.rrs, u.rr);
      DeleteElems(a.rrs, i);
      assert a.rrs[i] in Elems(a.rrs);
    }
  }

  lemma AddShows(a: Applied, rr: RR)
    requires Tidy(a.rrs) && AddRecord(a, rr).rrs != a.rrs
    ensures AddRecord(a, rr).changed && Elems(AddRecord(a, rr).rrs) != Elems(a.rrs)
  {
    var r := AddRecord(a, rr).rrs;
    if rr.Type() == TYPE_SOA {
      var i := SoaIndex(a.rrs);
      assert r[i] == rr && rr in Elems(r);
      assert a.rrs[i] in a.rrs && rr !in Elems(a.rrs);
    } else {
      var i := IndexOfRR(a.rrs, rr);
      FirstIsOnly(a.rrs, rr);
      if i == |a.rrs| {
        assert r[i] == rr && rr in Elems(r) && rr !in SameIdentity(Elems(a.rrs), rr);
      } else {
        SameButTtl(a.rrs[i], rr);
        assert r[i] == rr && rr in Elems(r) && rr !in SameIdentity(Elems(a.rrs), rr);
      }
    }
  }

  lemma {:induction false} WithoutShows(rrs: seq<RR>, match_: RR -> bool)
    requires Without(rrs, match_) != rrs
    ensures |Without(rrs, match_)| < |rrs| && Elems(Without(rrs, match_)) != Elems(rrs)
  {
    if !match_(rrs[0]) {
      WithoutShows(rrs[1..], match_);
    }
    var k := Matching(rrs, match_);
    assert rrs[k] in Elems(rrs) && rrs[k] !in Elems(Without(rrs, match_));
  }

  lemma {:induction false} Matching(rrs: seq<RR>, match_: RR -> bool) returns (k: nat)
    requires Without(rrs, match_) != rrs
    ensures k < |rrs| && match_(rrs[k])
  {
    if match_(rrs[0]) {
      k := 0;
    } else {
      k := Matching(rrs[1..], match_);
      k := k + 1;
    }
  }

  /** The engine refines the meaning: whatever the order of the stored list, the records
      it ends with are those the section means. */
  lemma {:induction false} SectionRefines(zone: Name, a: Applied, us: seq<MsgRR>)
    requires Tidy(a.rrs)
    ensures Elems(ApplyAll(zone, a, us).rrs) == UpdatedAll(zone, Elems(a.rrs), us)
    ensures Tidy(ApplyAll(zone, a, us).rrs)
    decreases |us|
  {
    if us != [] {
      OneRefines(zone, a, us[0]);
      SectionRefines(zone, ApplyOne(zone, a, us[0]), us[1..]);
    }
  }

  /** Two lists with the same records come out of a section as lists with the same
      records, and agree on whether anything changed. */
  lemma {:induction false} StoredOrderIsIrrelevant(zone: Name, a: Applied, b: Applied, us: seq<MsgRR>)
    requires Tidy(a.rrs) && Tidy(b.rrs) && Elems(a.rrs) == Elems(b.rrs) && a.changed == b.changed
    ensures var a', b' := ApplyAll(zone, a, us), ApplyAll(zone, b, us);
            Elems(a'.rrs) == Elems(b'.rrs) && a'.changed == b'.changed
    decreases |us|
  {
    if us != [] {
      OneRefines(zone, a, us[0]);
      OneRefines(zone, b, us[0]);
      StoredOrderIsIrrelevant(zone, ApplyOne(zone, a, us[0]), ApplyOne(zone, b, us[0]), us[1..]);
    }
  }
}
