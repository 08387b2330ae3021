/**
 Prescan and application of an update section (sections 3.4.1 and 3.4.2 of RFC
 2136), and the invariants every accepted update keeps.
 */
module ZoneUpdate {
  import opened Collections
  import opened Serials
  import opened Records
  import opened UpdateEngine

  // ---------------------------------------------------------------- prescan

  /** The type policy for wire updates; `None` means no policy. */
  type Policy = Option<set<nat>>

  function PrescanCode(zone: Name, policy: Policy, enforce: bool, u: MsgRR): Rcode {
    var t := u.rr.Type();
    if !InZone(zone, u.rr.owner) then NotZone
    else if IsMetaType(t) && !(u.cls == CLASS_ANY && t == TYPE_ANY) then FormErr
    else if u.cls == CLASS_IN && t == TYPE_ANY then FormErr
    else if u.cls == CLASS_ANY && (u.rr.ttl != 0 || u.rdlength != 0) then FormErr
    else if u.cls == CLASS_NONE && (u.rr.ttl != 0 || t == TYPE_ANY) then FormErr
    else if u.cls != CLASS_IN && u.cls != CLASS_ANY && u.cls != CLASS_NONE then FormErr
    else if enforce && policy.Some? && t != TYPE_ANY && t !in policy.value then Refused
    else NoError
  }

  /** The code of the first record that fails; the whole section stands or falls together. */
  function Prescan(zone: Name, policy: Policy, enforce: bool, us: seq<MsgRR>): (r: Rcode)
    ensures r == NoError <==> forall u :: u in us ==> PrescanCode(zone, policy, enforce, u) == NoError
  {
    if us == [] then NoError
    else if PrescanCode(zone, policy, enforce, us[0]) != NoError then PrescanCode(zone, policy, enforce, us[0])
    else Prescan(zone, policy, enforce, us[1..])
  }

  /** Section 3.4.1 of RFC 2136, class by class. */
  predicate WellFormed(u: MsgRR) {
    var t := u.rr.Type();
    || (u.cls == CLASS_IN && !IsMetaType(t))
    || (u.cls == CLASS_NONE && !IsMetaType(t) && u.rr.ttl == 0)
    || (u.cls == CLASS_ANY && (t == TYPE_ANY || !IsMetaType(t)) && u.rr.ttl == 0 && u.rdlength == 0)
  }

  predicate TypeAllowed(policy: Policy, enforce: bool, t: nat) {
    enforce && policy.Some? && t != TYPE_ANY ==> t in policy.value
  }

  predicate Acceptable(zone: Name, policy: Policy, enforce: bool, u: MsgRR) {
    InZone(zone, u.rr.owner) && WellFormed(u) && TypeAllowed(policy, enforce, u.rr.Type())
  }

  lemma PrescanCodeMeans(zone: Name, policy: Policy, enforce: bool, u: MsgRR)
    ensures var code := PrescanCode(zone, policy, enforce, u);
            && (code == NoError <==> Acceptable(zone, policy, enforce, u))
            && (code == NotZone <==> !InZone(zone, u.rr.owner))
            && (code == FormErr <==> InZone(zone, u.rr.owner) && !WellFormed(u))
            && (code == Refused <==> InZone(zone, u.rr.owner) && WellFormed(u) && !TypeAllowed(policy, enforce, u.rr.Type()))
  {
  }

  /** A section passes exactly when every record of it is acceptable, in whatever order. */
  lemma PrescanPassesIff(zone: Name, policy: Policy, enforce: bool, us: seq<MsgRR>)
    ensures Prescan(zone, policy, enforce, us) == NoError <==> forall u :: u in us ==> Acceptable(zone, policy, enforce, u)
  {
    forall u | u in us ensures PrescanCode(zone, policy, enforce, u) == NoError <==> Acceptable(zone, policy, enforce, u) {
      PrescanCodeMeans(zone, policy, enforce, u);
    }
  }

  /** Record f is the first that is not acceptable. */
  ghost predicate FirstUnacceptable(zone: Name, policy: Policy, enforce: bool, us: seq<MsgRR>, f: int) {
    && 0 <= f < |us| && !Acceptable(zone, policy, enforce, us[f])
    && forall i :: 0 <= i < f ==> Acceptable(zone, policy, enforce, us[i])
  }

  /** The code by outcome: what is wrong with the first record that is not acceptable. */
  ghost predicate RightPrescanCode(zone: Name, policy: Policy, enforce: bool, us: seq<MsgRR>, rcode: Rcode) {
    && (rcode == NoError <==> forall u :: u in us ==> Acceptable(zone, policy, enforce, u))
    && (rcode == NotZone <==> exists f :: FirstUnacceptable(zone, policy, enforce, us, f) && !InZone(zone, us[f].rr.owner))
    && (rcode == FormErr <==> exists f :: FirstUnacceptable(zone, policy, enforce, us, f)
                                && InZone(zone, us[f].rr.owner) && !WellFormed(us[f]))
    && (rcode == Refused <==> exists f :: FirstUnacceptable(zone, policy, enforce, us, f)
                                && InZone(zone, us[f].rr.owner) && WellFormed(us[f]))
  }

  lemma {:induction false} PrescanAt(zone: Name, policy: Policy, enforce: bool, us: seq<MsgRR>) returns (f: nat)
    requires Prescan(zone, policy, enforce, us) != NoError
    ensures FirstUnacceptable(zone, policy, enforce, us, f)
    ensures Prescan(zone, policy, enforce, us) == PrescanCode(zone, policy, enforce, us[f])
  {
    PrescanCodeMeans(zone, policy, enforce, us[0]);
    if PrescanCode(zone, policy, enforce, us[0]) != NoError {
      f := 0;
    } else {
      f := PrescanAt(zone, policy, enforce, us[1..]);
      f := f + 1;
    }
  }

  lemma PrescanIsRight(zone: Name, policy: Policy, enforce: bool, us: seq<MsgRR>)
    ensures RightPrescanCode(zone, policy, enforce, us, Prescan(zone, policy, enforce, us))
  {
    PrescanPassesIff(zone, policy, enforce, us);
    if Prescan(zone, policy, enforce, us) != NoError {
      var f := PrescanAt(zone, policy, enforce, us);
      PrescanCodeMeans(zone, policy, enforce, us[f]);
      assert forall g :: FirstUnacceptable(zone, policy, enforce, us, g) ==> g == f;
    }
  }

  // ---------------------------------------------------------------- application

  datatype Applied = Applied(rrs: seq<RR>, changed: bool)

  function Without(rrs: seq<RR>, match_: RR -> bool): (r: seq<RR>)
    ensures |r| <= |rrs|
    ensures forall x :: x in r <==> x in rrs && !match_(x)
    ensures |r| == |rrs| ==> r == rrs
  {
    if rrs == [] then [] else if match_(rrs[0]) then Without(rrs[1..], match_) else [rrs[0]] + Without(rrs[1..], match_)
  }

  /** Everything at a name; at the apex the SOA and the NS records stay. */
  function AllAt(name: Name, apex: bool): RR -> bool {
    (x: RR) => x.owner == name && !(apex && (x.Type() == TYPE_SOA || x.Type() == TYPE_NS))
  }

  function TypedAt(name: Name, t: nat): RR -> bool {
    (x: RR) => x.owner == name && x.Type() == t
  }

  function DeleteWhere(a: Applied, match_: RR -> bool): Applied {
    var r := Without(a.rrs, match_);
    Applied(r, a.changed || |r| < |a.rrs|)
  }

  function AddRecord(a: Applied, rr: RR): Applied {
    if rr.Type() == TYPE_SOA then
      var i := SoaIndex(a.rrs);
      if rr.Rec? || i == |a.rrs| || !SerialGreater(rr.serial, a.rrs[i].serial) then a
      else Applied(a.rrs[i := rr], true)
    else if rr.Type() == TYPE_CNAME && HasNonCname(a.rrs, rr.owner) then a
    else if rr.Type() != TYPE_CNAME && HasCname(a.rrs, rr.owner) then a
    else
      var i := IndexOfRR(a.rrs, rr);
      if i == |a.rrs| then Applied(a.rrs + [rr], true)
      else if a.rrs[i].ttl != rr.ttl then Applied(a.rrs[i := SetTtl(a.rrs[i], rr.ttl)], true)
      else a
  }

  function DeleteRecord(a: Applied, rr: RR, apex: bool): Applied {
    if apex && rr.Type() == TYPE_SOA then a
    else if apex && rr.Type() == TYPE_NS && CountRRset(a.rrs, rr.owner, TYPE_NS) <= 1 then a
    else
      var i := IndexOfRR(a.rrs, rr);
      if i == |a.rrs| then a else Applied(a.rrs[..i] + a.rrs[i + 1..], true)
  }

  function ApplyOne(zone: Name, a: Applied, u: MsgRR): Applied {
    var apex := u.rr.owner == zone;
    if u.cls == CLASS_IN then AddRecord(a, u.rr)
    else if u.cls == CLASS_ANY then
      if u.rr.Type() == TYPE_ANY then DeleteWhere(a, AllAt(u.rr.owner, apex))
      else if apex && (u.rr.Type() == TYPE_SOA || u.rr.Type() == TYPE_NS) then a
      else DeleteWhere(a, TypedAt(u.rr.owner, u.rr.Type()))
    else if u.cls == CLASS_NONE then DeleteRecord(a, u.rr, apex)
    else a
  }

  function ApplyAll(zone: Name, a: Applied, us: seq<MsgRR>): Applied
    decreases |us|
  {
    if us == [] then a else ApplyAll(zone, ApplyOne(zone, a, us[0]), us[1..])
  }

  function ApplySection(zone: Name, rrs: seq<RR>, us: seq<MsgRR>): Applied {
    ApplyAll(zone, Applied(rrs, false), us)
  }

  function BumpSerial(rrs: seq<RR>): (r: seq<RR>)
    ensures |r| == |rrs|
  {
    var i := SoaIndex(rrs);
    if i == |rrs| then rrs else rrs[i := rrs[i].(serial := Advance(rrs[i].serial, 1))]
  }

  /** The zone a committed section leaves. */
  function Advanced(zone: Name, rrs: seq<RR>, us: seq<MsgRR>): seq<RR> {
    var a := ApplySection(zone, rrs, us);
    if a.changed then BumpSerial(a.rrs) else rrs
  }

  /** A section that reports no change has made none: the records are the very same. */
  lemma {:induction false} UnchangedMeansUntouched(zone: Name, a: Applied, us: seq<MsgRR>)
    ensures a.changed ==> ApplyAll(zone, a, us).changed
    ensures !ApplyAll(zone, a, us).changed ==> ApplyAll(zone, a, us).rrs == a.rrs
    decreases |us|
  {
    if us != [] {
      UnchangedMeansUntouched(zone, ApplyOne(zone, a, us[0]), us[1..]);
    }
  }

  // ---------------------------------------------------------------- the zone invariants

  predicate KeysDistinct(rrs: seq<RR>) {
    forall i, j :: 0 <= i < j < |rrs| ==> ExactKey(rrs[i]) != ExactKey(rrs[j])
  }

  /** `soa` is the only SOA among `s`, and stands at the apex. */
  ghost predicate ApexSoa(zone: Name, s: set<RR>, soa: RR) {
    soa in s && soa.Soa? && soa.owner == zone && forall x :: x in s && x.Soa? ==> x == soa
  }

  ghost predicate ApexNs(zone: Name, s: set<RR>, ns: RR) {
    ns in s && ns.owner == zone && ns.Type() == TYPE_NS
  }

  /** A CNAME stands beside nothing but CNAME, RRSIG and NSEC records. */
  ghost predicate CnameExclusive(s: set<RR>) {
    forall x, y :: x in s && y in s && x.owner == y.owner && x.Type() == TYPE_CNAME ==>
      y.Type() == TYPE_CNAME || y.Type() == TYPE_RRSIG || y.Type() == TYPE_NSEC
  }

  /** One SOA, at the apex; an apex NS; every owner in zone; CNAME exclusivity. */
  ghost predicate Lawful(zone: Name, s: set<RR>) {
    && (exists soa :: ApexSoa(zone, s, soa))
    && (exists ns :: ApexNs(zone, s, ns))
    && (forall x :: x in s && x.Rec? ==> x.rtype != TYPE_SOA)
    && (forall x :: x in s ==> InZone(zone, x.owner))
    && CnameExclusive(s)
  }

  ghost predicate ZoneInv(zone: Name, rrs: seq<RR>) {
    KeysDistinct(rrs) && Lawful(zone, Elems(rrs))
  }

  /** Every zone meeting the invariants is a generation the journal can record. */
  lemma InvIsGeneration(zone: Name, rrs: seq<RR>)
    requires ZoneInv(zone, rrs)
    ensures Generation(rrs) && SoaIndex(rrs) < |rrs| && SoaOf(rrs) == Some(rrs[SoaIndex(rrs)])
    ensures ApexSoa(zone, Elems(rrs), rrs[SoaIndex(rrs)])
  {
    var soa :| ApexSoa(zone, Elems(rrs), soa);
    assert soa in rrs;
    assert rrs[SoaIndex(rrs)] in Elems(rrs);
    assert SoleSoa(rrs, soa) by {
      forall x | x in rrs && x.Soa? ensures x == soa {
        assert x in Elems(rrs);
      }
    }
  }

  /** The one way an update record can break the invariants: an added SOA that takes
      effect and is owned by a name other than the apex. */
  predicate MisplacedSoa(zone: Name, rrs: seq<RR>, u: MsgRR) {
    u.cls == CLASS_IN && u.rr.Soa? && u.rr.owner != zone && SerialGreater(u.rr.serial, SerialOf(rrs))
  }

  lemma LawfulSubset(zone: Name, s: set<RR>, t: set<RR>, soa: RR, ns: RR)
    requires Lawful(zone, s) && t <= s && ApexSoa(zone, s, soa) && soa in t && ApexNs(zone, t, ns)
    ensures Lawful(zone, t)
  {
    assert ApexSoa(zone, t, soa);
  }

  lemma LawfulAdd(zone: Name, s: set<RR>, rr: RR)
    requires Lawful(zone, s) && InZone(zone, rr.owner) && rr.Type() != TYPE_SOA
    requires rr.Type() == TYPE_CNAME ==> forall x :: x in s && x.owner == rr.owner ==> BesideCname(x.Type())
    requires rr.Type() != TYPE_CNAME ==> forall x :: x in s && x.owner == rr.owner ==> x.Type() != TYPE_CNAME
    ensures Lawful(zone, s + {rr})
  {
    var soa :| ApexSoa(zone, s, soa);
    var ns :| ApexNs(zone, s, ns);
    assert ApexSoa(zone, s + {rr}, soa) && ApexNs(zone, s + {rr}, ns);
  }

  /** Exchanging a record for one of the same owner and type keeps the law. */
  lemma LawfulSwap(zone: Name, s: set<RR>, x: RR, y: RR)
    requires Lawful(zone, s) && x in s
    requires y.owner == x.owner && y.Type() == x.Type() && y.Soa? == x.Soa?
    ensures Lawful(zone, s - {x} + {y})
  {
    var t := s - {x} + {y};
    var soa :| ApexSoa(zone, s, soa);
    var ns :| ApexNs(zone, s, ns);
    assert ApexSoa(zone, t, if soa == x then y else soa) && ApexNs(zone, t, if ns == x then y else ns);
    SwapCname(s, x, y);
  }

  lemma SwapCname(s: set<RR>, x: RR, y: RR)
    requires CnameExclusive(s) && x in s && y.owner == x.owner && y.Type() == x.Type()
    ensures CnameExclusive(s - {x} + {y})
  {
    var t := s - {x} + {y};
    forall a, b | a in t && b in t && a.owner == b.owner && a.Type() == TYPE_CNAME ensures BesideCname(b.Type()) {
      var a', b' := if a == y then x else a, if b == y then x else b;
      assert a' in s && b' in s;
    }
  }

  lemma UpdateElems(rrs: seq<RR>, i: nat, y: RR)
    requires i < |rrs| && KeysDistinct(rrs)
    ensures Elems(rrs[i := y]) == Elems(rrs) - {rrs[i]} + {y}
  {
    var r := rrs[i := y];
    forall x | x in Elems(rrs) && x != rrs[i] ensures x in Elems(r) {
      var k :| 0 <= k < |rrs| && rrs[k] == x;
      assert r[k] == x;
    }
    assert r[i] == y;
  }

  lemma UpdateKeys(rrs: seq<RR>, i: nat, y: RR)
    requires i < |rrs| && KeysDistinct(rrs)
    requires forall k :: 0 <= k < |rrs| && k != i ==> ExactKey(rrs[k]) != ExactKey(y)
    ensures KeysDistinct(rrs[i := y])
  {
  }

  lemma InvSwap(zone: Name, rrs: seq<RR>, i: nat, y: RR)
    requires ZoneInv(zone, rrs) && i < |rrs|
    requires y.owner == rrs[i].owner && y.Type() == rrs[i].Type() && y.Soa? == rrs[i].Soa?
    requires forall k :: 0 <= k < |rrs| && k != i ==> ExactKey(rrs[k]) != ExactKey(y)
    ensures ZoneInv(zone, rrs[i := y])
  {
    UpdateElems(rrs, i, y);
    UpdateKeys(rrs, i, y);
    assert rrs[i] in Elems(rrs);
    LawfulSwap(zone, Elems(rrs), rrs[i], y);
  }

  lemma {:induction false} WithoutDistinct(rrs: seq<RR>, match_: RR -> bool)
    requires KeysDistinct(rrs)
    ensures KeysDistinct(Without(rrs, match_))
  {
    if rrs != [] {
      WithoutDistinct(rrs[1..], match_);
      var tail := Without(rrs[1..], match_);
      forall i | 0 <= i < |tail| ensures ExactKey(rrs[0]) != ExactKey(tail[i]) {
        assert tail[i] in rrs[1..];
      }
    }
  }

  lemma InvWithout(zone: Name, rrs: seq<RR>, match_: RR -> bool)
    requires ZoneInv(zone, rrs)
    requires forall x: RR :: x.owner == zone && (x.Type() == TYPE_SOA || x.Type() == TYPE_NS) ==> !match_(x)
    ensures ZoneInv(zone, Without(rrs, match_))
  {
    WithoutDistinct(rrs, match_);
    var soa :| ApexSoa(zone, Elems(rrs), soa);
    var ns :| ApexNs(zone, Elems(rrs), ns);
    LawfulSubset(zone, Elems(rrs), Elems(Without(rrs, match_)), soa, ns);
  }

  lemma InvAppend(zone: Name, rrs: seq<RR>, rr: RR)
    requires ZoneInv(zone, rrs) && InZone(zone, rr.owner) && rr.Type() != TYPE_SOA
    requires rr.Type() == TYPE_CNAME ==> !HasNonCname(rrs, rr.owner)
    requires rr.Type() != TYPE_CNAME ==> !HasCname(rrs, rr.owner)
    requires IndexOfRR(rrs, rr) == |rrs|
    ensures ZoneInv(zone, rrs + [rr])
  {
    assert Elems(rrs + [rr]) == Elems(rrs) + {rr};
    LawfulAdd(zone, Elems(rrs), rr);
  }

  lemma InvAdd(zone: Name, a: Applied, rr: RR)
    requires ZoneInv(zone, a.rrs) && InZone(zone, rr.owner) && rr.Type() != TYPE_SOA
    ensures ZoneInv(zone, AddRecord(a, rr).rrs)
  {
    var i := IndexOfRR(a.rrs, rr);
    if rr.Type() == TYPE_CNAME && HasNonCname(a.rrs, rr.owner) {
    } else if rr.Type() != TYPE_CNAME && HasCname(a.rrs, rr.owner) {
    } else if i == |a.rrs| {
      InvAppend(zone, a.rrs, rr);
    } else {
      InvSwap(zone, a.rrs, i, SetTtl(a.rrs[i], rr.ttl));
    }
  }

  lemma InvSoa(zone: Name, rrs: seq<RR>, soa: RR)
    requires ZoneInv(zone, rrs) && soa.Soa?
    ensures SoaIndex(rrs) < |rrs|
    ensures ZoneInv(zone, rrs[SoaIndex(rrs) := soa]) <==> soa.owner == zone
  {
    InvIsGeneration(zone, rrs);
    var i := SoaIndex(rrs);
    forall k | 0 <= k < |rrs| && k != i ensures ExactKey(rrs[k]) != ExactKey(soa) {
      assert rrs[k] in Elems(rrs);
      assert ExactKey(rrs[k]) != ExactKey(rrs[i]);
    }
    if soa.owner == zone {
      InvSwap(zone, rrs, i, soa);
    } else {
      assert rrs[i := soa][i] in Elems(rrs[i := soa]);
    }
  }

  lemma {:induction false} RRsetConcat(a: seq<RR>, b: seq<RR>, name: Name, t: nat)
    ensures RRsetOf(a + b, name, t) == RRsetOf(a, name, t) + RRsetOf(b, name, t)
  {
    if a == [] {
      assert [] + b == b;
    } else {
      assert (a + b)[1..] == a[1..] + b;
      RRsetConcat(a[1..], b, name, t);
    }
  }

  lemma CountAfterDelete(rrs: seq<RR>, i: nat, name: Name, t: nat)
    requires i < |rrs| && CountRRset(rrs, name, t) > 1
    ensures RRsetExists(rrs[..i] + rrs[i + 1..], name, t)
  {
    var before, at, after := rrs[..i], [rrs[i]], rrs[i + 1..];
    assert rrs == before + (at + after);
    RRsetConcat(before, at + after, name, t);
    RRsetConcat(at, after, name, t);
    RRsetConcat(before, after, name, t);
    assert |RRsetOf(at, name, t)| <= 1 by {
      assert RRsetOf(at[1..], name, t) == [];
    }
    assert RRsetOf(before + after, name, t)[0] in RRsetOf(before + after, name, t);
  }

  lemma DeleteElems(rrs: seq<RR>, i: nat)
    requires i < |rrs| && KeysDistinct(rrs)
    ensures KeysDistinct(rrs[..i] + rrs[i + 1..])
    ensures Elems(rrs[..i] + rrs[i + 1..]) == Elems(rrs) - {rrs[i]}
  {
    var r := rrs[..i] + rrs[i + 1..];
    forall x | x in Elems(rrs) && x != rrs[i] ensures x in Elems(r) {
      var k :| 0 <= k < |rrs| && rrs[k] == x;
      assert x == if k < i then r[k] else r[k - 1];
    }
  }

  lemma InvDeleteAt(zone: Name, rrs: seq<RR>, i: nat)
    requires ZoneInv(zone, rrs) && i < |rrs| && rrs[i].Rec?
    requires rrs[i].owner == zone && rrs[i].Type() == TYPE_NS ==> CountRRset(rrs, zone, TYPE_NS) > 1
    ensures ZoneInv(zone, rrs[..i] + rrs[i + 1..])
  {
    var r := rrs[..i] + rrs[i + 1..];
    DeleteElems(rrs, i);
    var soa :| ApexSoa(zone, Elems(rrs), soa);
    var ns :| ApexNs(zone, Elems(rrs), ns);
    if rrs[i].owner == zone && rrs[i].Type() == TYPE_NS {
      CountAfterDelete(rrs, i, zone, TYPE_NS);
      ns :| ns in r && ns.owner == zone && ns.Type() == TYPE_NS;
    }
    LawfulSubset(zone, Elems(rrs), Elems(r), soa, ns);
  }

  lemma InvDelete(zone: Name, a: Applied, rr: RR)
    requires ZoneInv(zone, a.rrs)
    ensures ZoneInv(zone, DeleteRecord(a, rr, rr.owner == zone).rrs)
  {
    var i, r := IndexOfRR(a.rrs, rr), DeleteRecord(a, rr, rr.owner == zone).rrs;
    DeleteShape(zone, a, rr);
    if r != a.rrs {
      NotTheSoa(zone, a.rrs, i, rr);
      InvDeleteAt(zone, a.rrs, i);
    }
  }

  lemma DeleteShape(zone: Name, a: Applied, rr: RR)
    ensures var i, r := IndexOfRR(a.rrs, rr), DeleteRecord(a, rr, rr.owner == zone).rrs;
            r == a.rrs ||
            (&& i < |a.rrs| && r == a.rrs[..i] + a.rrs[i + 1..]
             && !(rr.owner == zone && rr.Type() == TYPE_SOA)
             && (rr.owner == zone && rr.Type() == TYPE_NS ==> CountRRset(a.rrs, zone, TYPE_NS) > 1))
  {
  }

  /** A record that is not named as the apex SOA is not the zone's SOA. */
  lemma NotTheSoa(zone: Name, rrs: seq<RR>, i: nat, rr: RR)
    requires ZoneInv(zone, rrs) && i < |rrs| && ExactKey(rrs[i]) == ExactKey(rr) && !(rr.owner == zone && rr.Type() == TYPE_SOA)
    ensures rrs[i].Rec? && rrs[i].owner == rr.owner && rrs[i].Type() == rr.Type()
  {
    assert rrs[i] in Elems(rrs);
  }

  /** One update record, exactly: the invariants survive it unless, and only unless,
      it is an effective SOA owned by another name. */
  lemma InvOneIff(zone: Name, a: Applied, u: MsgRR)
    requires ZoneInv(zone, a.rrs) && InZone(zone, u.rr.owner)
    ensures ZoneInv(zone, ApplyOne(zone, a, u).rrs) <==> !MisplacedSoa(zone, a.rrs, u)
  {
    InvIsGeneration(zone, a.rrs);
    if u.cls == CLASS_IN {
      if u.rr.Soa? {
        InvSoa(zone, a.rrs, u.rr);
      } else if u.rr.Type() != TYPE_SOA {
        InvAdd(zone, a, u.rr);
      }
    } else if u.cls == CLASS_ANY {
      if u.rr.Type() == TYPE_ANY {
        InvWithout(zone, a.rrs, AllAt(u.rr.owner, u.rr.owner == zone));
      } else if !(u.rr.owner == zone && (u.rr.Type() == TYPE_SOA || u.rr.Type() == TYPE_NS)) {
        InvWithout(zone, a.rrs, TypedAt(u.rr.owner, u.rr.Type()));
      }
    } else if u.cls == CLASS_NONE {
      InvDelete(zone, a, u.rr);
    }
  }

  const SMALL_ZONE: seq<RR> := [Soa(EXAMPLE_APEX, 300, 1, []), Rec(EXAMPLE_APEX, TYPE_NS, 300, [DomainName("ns.")])]
  const STRAY_SOA := MsgRR(CLASS_IN, 0, Soa(["a"] + EXAMPLE_APEX, 300, 2, []))

  lemma SmallZoneInv()
    ensures ZoneInv(EXAMPLE_APEX, SMALL_ZONE)
  {
    var soa, ns := SMALL_ZONE[0], SMALL_ZONE[1];
    assert soa in Elems(SMALL_ZONE) && ns in Elems(SMALL_ZONE);
    assert ApexSoa(EXAMPLE_APEX, Elems(SMALL_ZONE), soa) && ApexNs(EXAMPLE_APEX, Elems(SMALL_ZONE), ns);
  }

  /** Such a record passes the prescan and moves the zone's SOA off its apex. */
  lemma StraySoaBreaksZone()
    ensures ZoneInv(EXAMPLE_APEX, SMALL_ZONE) && Prescan(EXAMPLE_APEX, None, true, [STRAY_SOA]) == NoError
    ensures !ZoneInv(EXAMPLE_APEX, ApplySection(EXAMPLE_APEX, SMALL_ZONE, [STRAY_SOA]).rrs)
  {
    SmallZoneInv();
    var name := STRAY_SOA.rr.owner;
    assert |name| == |EXAMPLE_APEX| + 1 && name[1..] == EXAMPLE_APEX && InZone(EXAMPLE_APEX, name);
    assert PrescanCode(EXAMPLE_APEX, None, true, STRAY_SOA) == NoError;
    var a := Applied(SMALL_ZONE, false);
    InvOneIff(EXAMPLE_APEX, a, STRAY_SOA);
    assert SoaOf(SMALL_ZONE) == Some(SMALL_ZONE[0]);
    assert ApplyAll(EXAMPLE_APEX, a, [STRAY_SOA]) == ApplyOne(EXAMPLE_APEX, a, STRAY_SOA) by {
      assert ApplyAll(EXAMPLE_APEX, ApplyOne(EXAMPLE_APEX, a, STRAY_SOA), [STRAY_SOA][1..]) == ApplyOne(EXAMPLE_APEX, a, STRAY_SOA);
    }
  }

  predicate SoasAtApex(zone: Name, us: seq<MsgRR>) {
    forall u :: u in us && u.cls == CLASS_IN && u.rr.Soa? ==> u.rr.owner == zone
  }

  lemma {:induction false} InvSection(zone: Name, a: Applied, us: seq<MsgRR>)
    requires ZoneInv(zone, a.rrs) && SoasAtApex(zone, us) && forall u :: u in us ==> InZone(zone, u.rr.owner)
    ensures ZoneInv(zone, ApplyAll(zone, a, us).rrs)
    decreases |us|
  {
    if us != [] {
      assert us[0] in us;
      InvOneIff(zone, a, us[0]);
      InvSection(zone, ApplyOne(zone, a, us[0]), us[1..]);
    }
  }

  lemma InvBump(zone: Name, rrs: seq<RR>)
    requires ZoneInv(zone, rrs)
    ensures ZoneInv(zone, BumpSerial(rrs)) && SerialOf(BumpSerial(rrs)) == Advance(SerialOf(rrs), 1)
  {
    InvIsGeneration(zone, rrs);
    var i := SoaIndex(rrs);
    var soa := rrs[i].(serial := Advance(rrs[i].serial, 1));
    InvSoa(zone, rrs, soa);
    InvIsGeneration(zone, BumpSerial(rrs));
    assert soa in BumpSerial(rrs) by {
      assert BumpSerial(rrs)[i] == soa;
    }
  }
}
