/**
 What an HTTP change means, read off the request: which ones are accepted, and what
 becomes of every record other than the apex NS set and the SOA
 (dns-update-persistent/apply.go).
 */
module HttpMeaning {
  import opened Collections
  import opened Serials
  import opened Records
  import opened UpdateEngine
  import opened ZoneUpdate
  import opened UpdateMeaning
  import opened HttpApply
  import opened Requests

  // ---------------------------------------------------------------- which requests are accepted

  ghost predicate AddsApex(zone: Name, adds: seq<MsgRR>, t: nat) {
    exists m :: m in adds && ApexType(zone, m, t)
  }

  lemma PickedAdds(zone: Name, adds: seq<MsgRR>)
    ensures NsAdds(zone, adds) != [] <==> AddsApex(zone, adds, TYPE_NS)
    ensures SoaAdds(zone, adds) != [] <==> AddsApex(zone, adds, TYPE_SOA)
    ensures (exists m :: m in SoaAdds(zone, adds) && m.rr.Rec?) <==> exists m :: m in adds && ApexType(zone, m, TYPE_SOA) && m.rr.Rec?
  {
    CopiesIn(adds);
    forall m | m in adds ensures CopyIn(m) in CopyAllIn(adds) && CopyIn(m).rr == m.rr {
    }
    if AddsApex(zone, adds, TYPE_NS) {
      var m :| m in adds && ApexType(zone, m, TYPE_NS);
      assert CopyIn(m) in NsAdds(zone, adds);
    }
    if NsAdds(zone, adds) != [] {
      assert NsAdds(zone, adds)[0] in NsAdds(zone, adds);
    }
    if AddsApex(zone, adds, TYPE_SOA) {
      var m :| m in adds && ApexType(zone, m, TYPE_SOA);
      assert CopyIn(m) in SoaAdds(zone, adds);
    }
    if SoaAdds(zone, adds) != [] {
      assert SoaAdds(zone, adds)[0] in SoaAdds(zone, adds);
    }
    forall m | m in adds && ApexType(zone, m, TYPE_SOA) && m.rr.Rec? ensures exists u :: u in SoaAdds(zone, adds) && u.rr.Rec? {
      assert CopyIn(m) in SoaAdds(zone, adds);
    }
  }

  lemma CopiesIn(adds: seq<MsgRR>)
    ensures forall m :: m in adds ==> CopyIn(m) in CopyAllIn(adds)
    ensures forall u :: u in CopyAllIn(adds) ==> exists m :: m in adds && u == CopyIn(m)
  {
    forall m | m in adds ensures CopyIn(m) in CopyAllIn(adds) {
      var i :| 0 <= i < |adds| && adds[i] == m;
      assert CopyAllIn(adds)[i] == CopyIn(m);
    }
    forall u | u in CopyAllIn(adds) ensures exists m :: m in adds && u == CopyIn(m) {
      var i :| 0 <= i < |adds| && u == CopyIn(adds[i]);
      assert adds[i] in adds;
    }
  }

  lemma CopiesDelete(deletes: seq<MsgRR>)
    ensures forall d :: d in deletes ==> CopyDelete(d) in CopyAllDeletes(deletes)
    ensures forall u :: u in CopyAllDeletes(deletes) ==> exists d :: d in deletes && u == CopyDelete(d)
  {
    forall d | d in deletes ensures CopyDelete(d) in CopyAllDeletes(deletes) {
      var i :| 0 <= i < |deletes| && deletes[i] == d;
      assert CopyAllDeletes(deletes)[i] == CopyDelete(d);
    }
    forall u | u in CopyAllDeletes(deletes) ensures exists d :: d in deletes && u == CopyDelete(d) {
      var i :| 0 <= i < |deletes| && u == CopyDelete(deletes[i]);
      assert deletes[i] in deletes;
    }
  }

  /** The four refusals, each exactly when the request deserves it: the SOA wiped and not
      given, a SOA given for a zone without one, a SOA record that is none, the apex NS set
      wiped and not given. */
  lemma RejectsIff(zone: Name, rrs: seq<RR>, adds: seq<MsgRR>, deletes: seq<MsgRR>)
    ensures var r := HttpUpdates(zone, rrs, adds, deletes);
            var unsound := exists m :: m in adds && ApexType(zone, m, TYPE_SOA) && m.rr.Rec?;
            && (r == Rejected(CannotDeleteSoa) <==> Wipes(zone, deletes, TYPE_SOA) && !AddsApex(zone, adds, TYPE_SOA))
            && (r == Rejected(NoSoa) <==> AddsApex(zone, adds, TYPE_SOA) && SoaOf(rrs).None?)
            && (r == Rejected(InvalidSoa) <==> SoaOf(rrs).Some? && unsound)
            && (r == Rejected(CannotDeleteApexNs) <==>
                  && !(Wipes(zone, deletes, TYPE_SOA) && !AddsApex(zone, adds, TYPE_SOA))
                  && (AddsApex(zone, adds, TYPE_SOA) ==> SoaOf(rrs).Some? && !unsound)
                  && Wipes(zone, deletes, TYPE_NS) && !AddsApex(zone, adds, TYPE_NS))
  {
    PickedAdds(zone, adds);
  }

  /** A deletion the request may carry: one record with any TTL, or a whole RRset or name. */
  predicate GoodDelete(zone: Name, d: MsgRR) {
    && InZone(zone, d.rr.owner)
    && ((d.cls == CLASS_NONE && !IsMetaType(d.rr.Type()))
        || (d.cls == CLASS_ANY && (d.rr.Type() == TYPE_ANY || !IsMetaType(d.rr.Type())) && d.rr.ttl == 0 && d.rdlength == 0)
        || (d.cls == CLASS_IN && !IsMetaType(d.rr.Type())))
  }

  /** The deletion is subsumed: of the SOA, which is never deleted, or of apex NS records
      when the whole set is replaced. */
  predicate Subsumed(zone: Name, deletes: seq<MsgRR>, d: MsgRR) {
    ApexType(zone, d, TYPE_SOA) || (ApexType(zone, d, TYPE_NS) && (d.cls == CLASS_ANY || Wipes(zone, deletes, TYPE_NS)))
  }

  /** The additions of the section. */
  function SectionAdds(zone: Name, rrs: seq<RR>, adds: seq<MsgRR>): seq<MsgRR> {
    OtherAdds(zone, adds) + RaiseSerials(SoaAdds(zone, adds), SerialOf(rrs)) + NsAdds(zone, adds)
  }

  /** The addition behind an addition of the section. */
  lemma AddBehind(zone: Name, rrs: seq<RR>, adds: seq<MsgRR>, u: MsgRR) returns (m: MsgRR)
    requires u in SectionAdds(zone, rrs, adds)
    ensures m in adds && SameShape(u, m)
  {
    var soas := SoaAdds(zone, adds);
    CopiesIn(adds);
    if u in RaiseSerials(soas, SerialOf(rrs)) {
      var i :| 0 <= i < |soas| && u == RaiseSerial(soas[i], SerialOf(rrs));
      assert soas[i] in soas;
      m :| m in adds && soas[i] == CopyIn(m);
    } else {
      m :| m in adds && u == CopyIn(m);
    }
  }

  /** The addition of the section an addition becomes. */
  lemma AddAhead(zone: Name, rrs: seq<RR>, adds: seq<MsgRR>, m: MsgRR) returns (u: MsgRR)
    requires m in adds
    ensures u in SectionAdds(zone, rrs, adds) && SameShape(u, m)
  {
    var soas := SoaAdds(zone, adds);
    var raised := RaiseSerials(soas, SerialOf(rrs));
    CopiesIn(adds);
    u := CopyIn(m);
    if u in soas {
      var i :| 0 <= i < |soas| && soas[i] == u;
      u := raised[i];
      assert u in raised;
    }
  }

  /** The addition as it stands in the section: class IN, and the same record except that a
      SOA's serial may have been raised. */
  predicate SameShape(u: MsgRR, m: MsgRR) {
    && u.cls == CLASS_IN && u.rr.owner == m.rr.owner && u.rr.Type() == m.rr.Type()
    && (m.rr.Rec? ==> u.rr == m.rr) && u.rr.Rec? == m.rr.Rec?
  }

  ghost predicate AllAcceptable(zone: Name, policy: Policy, us: seq<MsgRR>) {
    forall u :: u in us ==> Acceptable(zone, policy, false, u)
  }

  ghost predicate GoodAdds(zone: Name, adds: seq<MsgRR>) {
    forall m :: m in adds ==> InZone(zone, m.rr.owner) && !IsMetaType(m.rr.Type())
  }

  ghost predicate GoodDeletes(zone: Name, deletes: seq<MsgRR>) {
    forall d :: d in deletes ==> Subsumed(zone, deletes, d) || GoodDelete(zone, d)
  }

  lemma CopyAcceptable(zone: Name, policy: Policy, d: MsgRR)
    ensures Acceptable(zone, policy, false, CopyDelete(d)) <==> GoodDelete(zone, d)
  {
  }

  lemma DroppedAcceptable(zone: Name, policy: Policy, rrs: seq<RR>, adds: seq<MsgRR>)
    ensures AllAcceptable(zone, policy, DropOld(RRsetOf(rrs, zone, TYPE_NS), NsAdds(zone, adds)))
  {
    var ns := DropOld(RRsetOf(rrs, zone, TYPE_NS), NsAdds(zone, adds));
    forall u | u in ns ensures Acceptable(zone, policy, false, u) {
      var x :| x in RRsetOf(rrs, zone, TYPE_NS) && !HasIdentity(NsAdds(zone, adds), ExactKey(x)) && u == MsgRR(CLASS_NONE, 0, SetTtl(x, 0));
      assert u.rr.owner == zone && zone[0..] == zone;
    }
  }

  lemma DeleteAhead(zone: Name, rrs: seq<RR>, adds: seq<MsgRR>, deletes: seq<MsgRR>, d: MsgRR)
    requires d in deletes && !Subsumed(zone, deletes, d)
    ensures CopyDelete(d) in EarlyDeletes(zone, deletes) || CopyDelete(d) in NsDeletes(zone, rrs, adds, deletes)
  {
    CopiesDelete(deletes);
    assert CopyDelete(d) in CopyAllDeletes(deletes);
  }

  lemma DeleteBehind(zone: Name, deletes: seq<MsgRR>, u: MsgRR) returns (d: MsgRR)
    requires u in EarlyDeletes(zone, deletes) || (u in Pick(CopyAllDeletes(deletes), IsApexDelete(zone, TYPE_NS)) && !Wipes(zone, deletes, TYPE_NS))
    ensures d in deletes && u == CopyDelete(d) && !Subsumed(zone, deletes, d)
  {
    CopiesDelete(deletes);
    d :| d in deletes && u == CopyDelete(d);
  }

  lemma DeletesAcceptable(zone: Name, policy: Policy, rrs: seq<RR>, adds: seq<MsgRR>, deletes: seq<MsgRR>)
    ensures AllAcceptable(zone, policy, EarlyDeletes(zone, deletes)) && AllAcceptable(zone, policy, NsDeletes(zone, rrs, adds, deletes)) <==>
            GoodDeletes(zone, deletes)
  {
    var early, ns := EarlyDeletes(zone, deletes), NsDeletes(zone, rrs, adds, deletes);
    if AllAcceptable(zone, policy, early) && AllAcceptable(zone, policy, ns) {
      forall d | d in deletes && !Subsumed(zone, deletes, d) ensures GoodDelete(zone, d) {
        DeleteAhead(zone, rrs, adds, deletes, d);
        CopyAcceptable(zone, policy, d);
      }
    }
    if GoodDeletes(zone, deletes) {
      forall u | u in early ensures Acceptable(zone, policy, false, u) {
        var d := DeleteBehind(zone, deletes, u);
        CopyAcceptable(zone, policy, d);
      }
      DroppedAcceptable(zone, policy, rrs, adds);
      forall u | u in ns && !Wipes(zone, deletes, TYPE_NS) ensures Acceptable(zone, policy, false, u) {
        var d := DeleteBehind(zone, deletes, u);
        CopyAcceptable(zone, policy, d);
      }
    }
  }

  /** A request is accepted exactly when it deserves none of the refusals, every addition is
      a record of the zone, and every deletion that is not subsumed is well formed. The type
      policy of wire updates plays no part. */
  lemma HttpAcceptedIff(zone: Name, policy: Policy, rrs: seq<RR>, adds: seq<MsgRR>, deletes: seq<MsgRR>)
    ensures Section(zone, policy, rrs, Http(adds, deletes)).Some? <==>
            HttpUpdates(zone, rrs, adds, deletes).Updates? && GoodAdds(zone, adds) && GoodDeletes(zone, deletes)
  {
    if HttpUpdates(zone, rrs, adds, deletes).Updates? {
      SectionParts(zone, rrs, adds, deletes);
      AddsAcceptable(zone, policy, rrs, adds);
      DeletesAcceptable(zone, policy, rrs, adds, deletes);
      PartsAcceptable(zone, policy, EarlyDeletes(zone, deletes), SectionAdds(zone, rrs, adds), NsDeletes(zone, rrs, adds, deletes));
    }
  }

  lemma PartsAcceptable(zone: Name, policy: Policy, early: seq<MsgRR>, all: seq<MsgRR>, ns: seq<MsgRR>)
    ensures Prescan(zone, policy, false, early + all + ns) == NoError <==>
            AllAcceptable(zone, policy, early) && AllAcceptable(zone, policy, all) && AllAcceptable(zone, policy, ns)
  {
    PrescanPassesIff(zone, policy, false, early + all + ns);
    assert forall u :: u in early + all + ns <==> u in early || u in all || u in ns;
  }

  lemma SectionParts(zone: Name, rrs: seq<RR>, adds: seq<MsgRR>, deletes: seq<MsgRR>)
    requires HttpUpdates(zone, rrs, adds, deletes).Updates?
    ensures HttpUpdates(zone, rrs, adds, deletes).us
         == EarlyDeletes(zone, deletes) + SectionAdds(zone, rrs, adds) + NsDeletes(zone, rrs, adds, deletes)
  {
    var e, o, s, n := EarlyDeletes(zone, deletes), OtherAdds(zone, adds), RaiseSerials(SoaAdds(zone, adds), SerialOf(rrs)), NsAdds(zone, adds);
    assert e + o + s + n == e + (o + s + n);
  }

  lemma AddsAcceptable(zone: Name, policy: Policy, rrs: seq<RR>, adds: seq<MsgRR>)
    ensures AllAcceptable(zone, policy, SectionAdds(zone, rrs, adds)) <==> GoodAdds(zone, adds)
  {
    var all := SectionAdds(zone, rrs, adds);
    if AllAcceptable(zone, policy, all) {
      forall m | m in adds ensures InZone(zone, m.rr.owner) && !IsMetaType(m.rr.Type()) {
        var u := AddAhead(zone, rrs, adds, m);
      }
    }
    if GoodAdds(zone, adds) {
      forall u | u in all ensures Acceptable(zone, policy, false, u) {
        var m := AddBehind(zone, rrs, adds, u);
      }
    }
  }

  // ---------------------------------------------------------------- what becomes of other records

  /** The apex NS set and the apex SOA, which have rules of their own. */
  predicate ApexOwn(zone: Name, x: RR) {
    x.owner == zone && (x.Type() == TYPE_NS || x.Type() == TYPE_SOA)
  }

  /** The deletion names the record: all at its name, its RRset, or itself. */
  predicate Names(d: MsgRR, x: RR) {
    || (d.cls == CLASS_ANY && x.owner == d.rr.owner && (d.rr.Type() == TYPE_ANY || x.Type() == d.rr.Type()))
    || (d.cls == CLASS_NONE && ExactKey(x) == ExactKey(d.rr))
  }

  /** Deletions are of class NONE or ANY (dns-update-persistent/apply.go:52). */
  predicate Deletions(deletes: seq<MsgRR>) {
    forall d :: d in deletes ==> d.cls == CLASS_NONE || d.cls == CLASS_ANY
  }

  predicate Named(deletes: seq<MsgRR>, x: RR) {
    exists d :: d in deletes && Names(d, x)
  }

  predicate Stays(zone: Name, deletes: seq<MsgRR>, x: RR) {
    ApexOwn(zone, x) || !Named(deletes, x)
  }

  predicate Readded(adds: seq<MsgRR>, x: RR) {
    exists m :: m in adds && ExactKey(m.rr) == ExactKey(x)
  }

  /** A record of type t may be added where one of type u stands. */
  predicate Fits(t: nat, u: nat) {
    if t == TYPE_CNAME then u == TYPE_CNAME || u == TYPE_RRSIG || u == TYPE_NSEC else u != TYPE_CNAME
  }

  /** No addition meets a CNAME, or as a CNAME other data, among the records that stay and
      the other additions. */
  ghost predicate NoClash(zone: Name, rrs: seq<RR>, adds: seq<MsgRR>, deletes: seq<MsgRR>) {
    && (forall a, y :: a in adds && a.rr.Type() != TYPE_SOA && y in rrs && Stays(zone, deletes, y) && y.owner == a.rr.owner ==>
          Fits(a.rr.Type(), y.Type()))
    && (forall a, b :: a in adds && a.rr.Type() != TYPE_SOA && b in adds && b.rr.owner == a.rr.owner ==>
          Fits(a.rr.Type(), b.rr.Type()))
  }

  lemma OneDelete(zone: Name, s: set<RR>, u: MsgRR, x: RR)
    requires (u.cls == CLASS_ANY || u.cls == CLASS_NONE) && !ApexType(zone, u, TYPE_NS) && !ApexType(zone, u, TYPE_SOA)
    ensures x in Updated(zone, s, u) <==> x in s && (ApexOwn(zone, x) || !Names(u, x))
  {
  }

  lemma {:induction false} AllDeletes(zone: Name, s: set<RR>, us: seq<MsgRR>, x: RR)
    requires forall u :: u in us ==> (u.cls == CLASS_ANY || u.cls == CLASS_NONE) && !ApexType(zone, u, TYPE_NS) && !ApexType(zone, u, TYPE_SOA)
    ensures x in UpdatedAll(zone, s, us) <==> x in s && Stays(zone, us, x)
    decreases |us|
  {
    if us != [] {
      assert us[0] in us;
      OneDelete(zone, s, us[0], x);
      AllDeletes(zone, Updated(zone, s, us[0]), us[1..], x);
      NamedCons(us, x);
    }
  }

  lemma NamedCons(us: seq<MsgRR>, x: RR)
    requires us != []
    ensures Named(us, x) <==> Names(us[0], x) || Named(us[1..], x)
  {
    assert forall u :: u in us <==> u == us[0] || u in us[1..];
  }

  /** The early deletions take exactly what the request's deletions name, apex NS and SOA aside. */
  lemma EarlyMeans(zone: Name, s: set<RR>, deletes: seq<MsgRR>, x: RR)
    requires Deletions(deletes)
    ensures x in UpdatedAll(zone, s, EarlyDeletes(zone, deletes)) <==> x in s && Stays(zone, deletes, x)
  {
    var early := EarlyDeletes(zone, deletes);
    CopiesDelete(deletes);
    AllDeletes(zone, s, early, x);
    if !ApexOwn(zone, x) {
      forall d | d in deletes && Names(d, x) ensures CopyDelete(d) in early && Names(CopyDelete(d), x) {
        assert CopyDelete(d) in CopyAllDeletes(deletes);
      }
      forall u | u in early && Names(u, x) ensures Named(deletes, x) {
        var d :| d in deletes && u == CopyDelete(d);
        assert Names(d, x);
      }
    }
  }

  /** What additions that do not clash leave: every record whose identity is not added, and
      for every identity added, a record as added. */
  ghost predicate AddsLand(s: set<RR>, us: seq<MsgRR>, r: set<RR>) {
    && (forall x :: x in r && x.Rec? ==> (x in s && !Readded(us, x)) || exists u :: u in us && u.rr == x)
    && (forall x :: x in s && x.Rec? && !Readded(us, x) ==> x in r)
    && (forall u :: u in us && u.rr.Type() != TYPE_SOA ==> exists x :: x in r && ExactKey(x) == ExactKey(u.rr))
  }

  /** `around` holds whatever an addition could meet. */
  ghost predicate Peaceful(us: seq<MsgRR>, around: set<RR>) {
    && (forall u :: u in us ==> u.cls == CLASS_IN && u.rr in around)
    && forall u, y :: u in us && u.rr.Type() != TYPE_SOA && y in around && y.owner == u.rr.owner ==> Fits(u.rr.Type(), y.Type())
  }

  lemma AddOne(s: set<RR>, rr: RR, around: set<RR>)
    requires s <= around && rr in around
    requires rr.Type() != TYPE_SOA ==> forall y :: y in around && y.owner == rr.owner ==> Fits(rr.Type(), y.Type())
    ensures var t := Added(s, rr);
            && t <= around
            && (forall x :: x in t && x.Rec? ==> x == rr || (x in s && (rr.Type() == TYPE_SOA || ExactKey(x) != ExactKey(rr))))
            && (forall x :: x in s && x.Rec? && ExactKey(x) != ExactKey(rr) ==> x in t)
            && (rr.Type() != TYPE_SOA ==> rr in t)
  {
    if rr.Type() != TYPE_SOA {
      assert !Clashes(s, rr);
    }
  }

  lemma ReaddedCons(us: seq<MsgRR>, x: RR)
    requires us != []
    ensures Readded(us, x) <==> ExactKey(us[0].rr) == ExactKey(x) || Readded(us[1..], x)
  {
    assert forall u :: u in us <==> u == us[0] || u in us[1..];
  }

  lemma {:induction false} AddAll(zone: Name, s: set<RR>, us: seq<MsgRR>, around: set<RR>)
    requires s <= around && Peaceful(us, around) && forall x :: x in s && x.Rec? ==> x.rtype != TYPE_SOA
    ensures AddsLand(s, us, UpdatedAll(zone, s, us))
    decreases |us|
  {
    if us != [] {
      var rr, rest := us[0].rr, us[1..];
      assert us[0] in us && forall u :: u in rest ==> u in us;
      var t := Added(s, rr);
      AddOne(s, rr, around);
      AddAll(zone, t, rest, around);
      LandCons(s, us, t, UpdatedAll(zone, t, rest));
    }
  }

  lemma LandCons(s: set<RR>, us: seq<MsgRR>, t: set<RR>, r: set<RR>)
    requires us != [] && AddsLand(t, us[1..], r) && forall x :: x in t && x.Rec? ==> x.rtype != TYPE_SOA
    requires forall x :: x in t && x.Rec? ==> x == us[0].rr || (x in s && (us[0].rr.Type() == TYPE_SOA || ExactKey(x) != ExactKey(us[0].rr)))
    requires forall x :: x in s && x.Rec? && ExactKey(x) != ExactKey(us[0].rr) ==> x in t
    requires us[0].rr.Type() != TYPE_SOA ==> us[0].rr in t
    ensures AddsLand(s, us, r)
  {
    var rr, rest := us[0].rr, us[1..];
    forall x | x in r && x.Rec? ensures (x in s && !Readded(us, x)) || exists u :: u in us && u.rr == x {
      ReaddedCons(us, x);
      if u :| u in rest && u.rr == x {
        assert u in us;
      } else if x == rr {
        assert us[0] in us;
      }
    }
    forall x | x in s && x.Rec? && !Readded(us, x) ensures x in r {
      ReaddedCons(us, x);
    }
    forall u | u in us && u.rr.Type() != TYPE_SOA ensures exists x :: x in r && ExactKey(x) == ExactKey(u.rr) {
      AddedIsThere(us, t, r, u);
    }
  }

  lemma AddedIsThere(us: seq<MsgRR>, t: set<RR>, r: set<RR>, u: MsgRR)
    requires us != [] && AddsLand(t, us[1..], r) && u in us && u.rr.Type() != TYPE_SOA && (u == us[0] ==> u.rr in t)
    ensures exists x :: x in r && ExactKey(x) == ExactKey(u.rr)
  {
    if u !in us[1..] {
      if Readded(us[1..], u.rr) {
        var v :| v in us[1..] && ExactKey(v.rr) == ExactKey(u.rr);
        var x :| x in r && ExactKey(x) == ExactKey(v.rr);
      } else {
        assert u.rr in r;
      }
    }
  }

  lemma {:induction false} NsDeletesOnly(zone: Name, s: set<RR>, us: seq<MsgRR>, x: RR)
    requires (forall u :: u in us ==> u.cls == CLASS_NONE && ApexType(zone, u, TYPE_NS)) && !ApexOwn(zone, x)
    ensures x in UpdatedAll(zone, s, us) <==> x in s
    decreases |us|
  {
    if us != [] {
      assert us[0] in us;
      assert x in Updated(zone, s, us[0]) <==> x in s;
      NsDeletesOnly(zone, Updated(zone, s, us[0]), us[1..], x);
    }
  }

  lemma {:induction false} MeaningConcat(zone: Name, s: set<RR>, us: seq<MsgRR>, vs: seq<MsgRR>)
    ensures UpdatedAll(zone, s, us + vs) == UpdatedAll(zone, UpdatedAll(zone, s, us), vs)
    decreases |us|
  {
    if us == [] {
      assert [] + vs == vs;
    } else {
      assert (us + vs)[1..] == us[1..] + vs;
      MeaningConcat(zone, Updated(zone, s, us[0]), us[1..], vs);
    }
  }

  lemma NsDeletesAreNs(zone: Name, rrs: seq<RR>, adds: seq<MsgRR>, deletes: seq<MsgRR>)
    requires Deletions(deletes)
    ensures forall u :: u in NsDeletes(zone, rrs, adds, deletes) ==> u.cls == CLASS_NONE && ApexType(zone, u, TYPE_NS)
  {
    CopiesDelete(deletes);
    if Wipes(zone, deletes, TYPE_NS) {
      DroppedKeys(zone, rrs, NsAdds(zone, adds));
    }
  }

  /** The records an addition could meet: those that stay and the additions themselves. */
  ghost function Around(zone: Name, rrs: seq<RR>, adds: seq<MsgRR>, deletes: seq<MsgRR>): set<RR> {
    (set x | x in rrs && Stays(zone, deletes, x)) + (set u | u in SectionAdds(zone, rrs, adds) :: u.rr)
  }

  lemma AddsPeaceful(zone: Name, rrs: seq<RR>, adds: seq<MsgRR>, deletes: seq<MsgRR>)
    requires NoClash(zone, rrs, adds, deletes)
    ensures Peaceful(SectionAdds(zone, rrs, adds), Around(zone, rrs, adds, deletes))
  {
    var all, around := SectionAdds(zone, rrs, adds), Around(zone, rrs, adds, deletes);
    forall u | u in all ensures u.cls == CLASS_IN && u.rr in around {
      var m := AddBehind(zone, rrs, adds, u);
    }
    forall u, y | u in all && u.rr.Type() != TYPE_SOA && y in around && y.owner == u.rr.owner ensures Fits(u.rr.Type(), y.Type()) {
      var m := AddBehind(zone, rrs, adds, u);
      if !(y in rrs && Stays(zone, deletes, y)) {
        var v :| v in all && v.rr == y;
        var b := AddBehind(zone, rrs, adds, v);
        assert Fits(m.rr.Type(), b.rr.Type());
      }
    }
  }

  /** The data records other than apex NS and SOA ones, before and after: those that stay and
      are not added again; and for each identity added, a record as added. */
  ghost predicate RecordsReplaced(zone: Name, rrs: seq<RR>, adds: seq<MsgRR>, deletes: seq<MsgRR>, after: set<RR>) {
    && (forall x :: x in after && x.Rec? && !ApexOwn(zone, x) ==>
          (x in rrs && !Named(deletes, x) && !Readded(adds, x)) || exists m :: m in adds && m.rr == x)
    && (forall x :: x in rrs && x.Rec? && !ApexOwn(zone, x) && !Named(deletes, x) && !Readded(adds, x) ==> x in after)
    && (forall m :: m in adds && m.rr.Type() != TYPE_SOA && !ApexOwn(zone, m.rr) ==>
          exists x :: x in after && x.Rec? && ExactKey(x) == ExactKey(m.rr))
  }

  lemma ReaddedSame(zone: Name, rrs: seq<RR>, adds: seq<MsgRR>, x: RR)
    requires x.Rec?
    ensures Readded(SectionAdds(zone, rrs, adds), x) <==> Readded(adds, x)
  {
    var all := SectionAdds(zone, rrs, adds);
    if Readded(all, x) {
      var u :| u in all && ExactKey(u.rr) == ExactKey(x);
      var m := AddBehind(zone, rrs, adds, u);
      assert m.rr == u.rr;
    }
    if Readded(adds, x) {
      var m :| m in adds && ExactKey(m.rr) == ExactKey(x);
      var u := AddAhead(zone, rrs, adds, m);
      assert m.rr == u.rr;
    }
  }

  lemma SectionReplaces(zone: Name, rrs: seq<RR>, adds: seq<MsgRR>, deletes: seq<MsgRR>)
    requires ZoneInv(zone, rrs) && Deletions(deletes) && NoClash(zone, rrs, adds, deletes)
    requires HttpUpdates(zone, rrs, adds, deletes).Updates?
    ensures RecordsReplaced(zone, rrs, adds, deletes, UpdatedAll(zone, Elems(rrs), HttpUpdates(zone, rrs, adds, deletes).us))
  {
    var s0 := Elems(rrs);
    var early, all, ns := EarlyDeletes(zone, deletes), SectionAdds(zone, rrs, adds), NsDeletes(zone, rrs, adds, deletes);
    SectionParts(zone, rrs, adds, deletes);
    MeaningConcat(zone, s0, early + all, ns);
    MeaningConcat(zone, s0, early, all);
    var s1 := UpdatedAll(zone, s0, early);
    var s2 := UpdatedAll(zone, s1, all);
    forall x ensures x in s1 <==> x in rrs && Stays(zone, deletes, x) {
      EarlyMeans(zone, s0, deletes, x);
    }
    AddsPeaceful(zone, rrs, adds, deletes);
    AddAll(zone, s1, all, Around(zone, rrs, adds, deletes));
    NsDeletesAreNs(zone, rrs, adds, deletes);
    forall x | !ApexOwn(zone, x) ensures x in UpdatedAll(zone, s2, ns) <==> x in s2 {
      NsDeletesOnly(zone, s2, ns, x);
    }
    LandsReplaced(zone, rrs, adds, deletes, s1, s2, UpdatedAll(zone, s2, ns));
  }

  lemma LandsReplaced(zone: Name, rrs: seq<RR>, adds: seq<MsgRR>, deletes: seq<MsgRR>, s1: set<RR>, s2: set<RR>, after: set<RR>)
    requires AddsLand(s1, SectionAdds(zone, rrs, adds), s2)
    requires forall x :: x in s1 <==> x in rrs && Stays(zone, deletes, x)
    requires forall x :: !ApexOwn(zone, x) ==> (x in after <==> x in s2)
    ensures RecordsReplaced(zone, rrs, adds, deletes, after)
  {
    var all := SectionAdds(zone, rrs, adds);
    forall x | x in after && x.Rec? && !ApexOwn(zone, x)
      ensures (x in rrs && !Named(deletes, x) && !Readded(adds, x)) || exists m :: m in adds && m.rr == x
    {
      LandedFrom(zone, rrs, adds, all, s1, s2, x);
    }
    forall x | x in rrs && x.Rec? && !ApexOwn(zone, x) && !Named(deletes, x) && !Readded(adds, x) ensures x in after {
      ReaddedSame(zone, rrs, adds, x);
    }
    forall m | m in adds && m.rr.Type() != TYPE_SOA && !ApexOwn(zone, m.rr) ensures exists x :: x in after && x.Rec? && ExactKey(x) == ExactKey(m.rr) {
      var x := LandedAs(zone, rrs, adds, all, s1, s2, m);
      assert !ApexOwn(zone, x);
    }
  }

  lemma LandedFrom(zone: Name, rrs: seq<RR>, adds: seq<MsgRR>, all: seq<MsgRR>, s1: set<RR>, s2: set<RR>, x: RR)
    requires all == SectionAdds(zone, rrs, adds) && AddsLand(s1, all, s2) && x in s2 && x.Rec?
    ensures (x in s1 && !Readded(adds, x)) || exists m :: m in adds && m.rr == x
  {
    ReaddedSame(zone, rrs, adds, x);
    if u :| u in all && u.rr == x {
      var m := AddBehind(zone, rrs, adds, u);
      assert m.rr == x;
    }
  }

  lemma LandedAs(zone: Name, rrs: seq<RR>, adds: seq<MsgRR>, all: seq<MsgRR>, s1: set<RR>, s2: set<RR>, m: MsgRR) returns (x: RR)
    requires all == SectionAdds(zone, rrs, adds) && AddsLand(s1, all, s2) && m in adds && m.rr.Type() != TYPE_SOA
    ensures x in s2 && x.Rec? && ExactKey(x) == ExactKey(m.rr)
  {
    var u := AddAhead(zone, rrs, adds, m);
    x :| x in s2 && ExactKey(x) == ExactKey(u.rr);
  }

  /** What an accepted request does to every record other than the apex NS set and the SOA, on
      a zone meeting the invariants and without CNAME clashes: what no deletion names and no
      addition repeats stays untouched, what is added is there as added, and nothing else. */
  lemma HttpReplaces(zone: Name, policy: Policy, rrs: seq<RR>, adds: seq<MsgRR>, deletes: seq<MsgRR>)
    requires ZoneInv(zone, rrs) && Deletions(deletes) && NoClash(zone, rrs, adds, deletes)
    requires Section(zone, policy, rrs, Http(adds, deletes)).Some?
    ensures RecordsReplaced(zone, rrs, adds, deletes, Data(Served(zone, policy, rrs, Http(adds, deletes))))
  {
    SectionReplaces(zone, rrs, adds, deletes);
    ServedMeans(zone, policy, rrs, Http(adds, deletes));
    DataOnlyReplaced(zone, rrs, adds, deletes, UpdatedAll(zone, Elems(rrs), HttpUpdates(zone, rrs, adds, deletes).us),
                     Data(Served(zone, policy, rrs, Http(adds, deletes))));
  }

  lemma DataOnlyReplaced(zone: Name, rrs: seq<RR>, adds: seq<MsgRR>, deletes: seq<MsgRR>, all: set<RR>, data: set<RR>)
    requires RecordsReplaced(zone, rrs, adds, deletes, all) && data == set x | x in all && x.Rec?
    ensures RecordsReplaced(zone, rrs, adds, deletes, data)
  {
    forall m | m in adds && m.rr.Type() != TYPE_SOA && !ApexOwn(zone, m.rr) ensures exists x :: x in data && x.Rec? && ExactKey(x) == ExactKey(m.rr) {
      var x :| x in all && x.Rec? && ExactKey(x) == ExactKey(m.rr);
      assert x in data;
    }
  }

  function RRsetKeys(s: set<RR>, name: Name, t: nat): set<Identity> {
    set x | x in s && x.owner == name && x.Type() == t :: ExactKey(x)
  }

  /** So wiping an RRset and adding records to it leaves exactly the added ones. */
  lemma WipedRRsetIsReplaced(zone: Name, policy: Policy, rrs: seq<RR>, adds: seq<MsgRR>, deletes: seq<MsgRR>, wipe: MsgRR)
    requires ZoneInv(zone, rrs) && Deletions(deletes) && NoClash(zone, rrs, adds, deletes)
    requires Section(zone, policy, rrs, Http(adds, deletes)).Some?
    requires wipe in deletes && wipe.cls == CLASS_ANY && wipe.rr.Type() != TYPE_SOA && !ApexOwn(zone, wipe.rr)
    ensures var name, t := wipe.rr.owner, wipe.rr.Type();
            RRsetKeys(Data(Served(zone, policy, rrs, Http(adds, deletes))), name, t)
            == set m | m in adds && m.rr.owner == name && m.rr.Type() == t :: ExactKey(m.rr)
  {
    HttpReplaces(zone, policy, rrs, adds, deletes);
    var after, name, t := Data(Served(zone, policy, rrs, Http(adds, deletes))), wipe.rr.owner, wipe.rr.Type();
    forall x | x in after && x.owner == name && x.Type() == t ensures exists m :: m in adds && m.rr == x {
      assert Names(wipe, x);
    }
    forall m | m in adds && m.rr.owner == name && m.rr.Type() == t ensures ExactKey(m.rr) in RRsetKeys(after, name, t) {
      var x :| x in after && x.Rec? && ExactKey(x) == ExactKey(m.rr);
    }
  }

  // ---------------------------------------------------------------- the apex NS set

  /** The identities of the apex NS records among additions or single deletions. */
  function ApexNsKeys(zone: Name, ms: seq<MsgRR>): set<Identity> {
    set m | m in ms && ApexType(zone, m, TYPE_NS) && m.cls != CLASS_ANY :: ExactKey(m.rr)
  }

  lemma NsAddsKeys(zone: Name, adds: seq<MsgRR>)
    ensures AddedKeys(NsAdds(zone, adds)) == set m | m in adds && ApexType(zone, m, TYPE_NS) :: ExactKey(m.rr)
  {
    CopiesIn(adds);
    forall m | m in adds && ApexType(zone, m, TYPE_NS) ensures ExactKey(m.rr) in AddedKeys(NsAdds(zone, adds)) {
      assert CopyIn(m) in NsAdds(zone, adds);
    }
    forall u | u in NsAdds(zone, adds) ensures exists m :: m in adds && ApexType(zone, m, TYPE_NS) && u.rr == m.rr {
      var m :| m in adds && u == CopyIn(m);
    }
  }

  lemma NsSinglesKeys(zone: Name, deletes: seq<MsgRR>)
    ensures AddedKeys(Pick(CopyAllDeletes(deletes), IsApexDelete(zone, TYPE_NS))) == ApexNsKeys(zone, deletes)
  {
    var ns := Pick(CopyAllDeletes(deletes), IsApexDelete(zone, TYPE_NS));
    CopiesDelete(deletes);
    forall d | d in deletes && ApexType(zone, d, TYPE_NS) && d.cls != CLASS_ANY ensures ExactKey(d.rr) in AddedKeys(ns) {
      assert CopyDelete(d) in ns && ExactKey(CopyDelete(d).rr) == ExactKey(d.rr);
    }
    forall u | u in ns ensures ExactKey(u.rr) in ApexNsKeys(zone, deletes) {
      var d :| d in deletes && u == CopyDelete(d);
      assert ExactKey(u.rr) == ExactKey(d.rr);
    }
  }

  /** The apex NS set after an accepted request, told on the request: with a wipe, exactly the
      additions; without one, what there was and is added but for what is deleted, as long as
      that leaves any. */
  lemma ApexNsOutcome(zone: Name, policy: Policy, rrs: seq<RR>, adds: seq<MsgRR>, deletes: seq<MsgRR>)
    requires ZoneInv(zone, rrs) && Deletions(deletes) && Section(zone, policy, rrs, Http(adds, deletes)).Some?
    ensures var after := NsKeys(zone, Served(zone, policy, rrs, Http(adds, deletes)));
            var given := set m | m in adds && ApexType(zone, m, TYPE_NS) :: ExactKey(m.rr);
            if Wipes(zone, deletes, TYPE_NS) then after == given
            else (NsKeys(zone, rrs) + given) - ApexNsKeys(zone, deletes) != {} ==>
                   after == (NsKeys(zone, rrs) + given) - ApexNsKeys(zone, deletes)
  {
    InvIsSane(zone, rrs);
    NsAddsKeys(zone, adds);
    NsSinglesKeys(zone, deletes);
    if Wipes(zone, deletes, TYPE_NS) {
      WipeReplacesNs(zone, policy, rrs, adds, deletes);
    } else if (NsKeys(zone, rrs) + AddedKeys(NsAdds(zone, adds))) - ApexNsKeys(zone, deletes) != {} {
      SinglesLand(zone, rrs, adds, deletes);
      var us := HttpUpdates(zone, rrs, adds, deletes).us;
      UnchangedMeansUntouched(zone, Applied(rrs, false), us);
    }
  }

  lemma SinglesLand(zone: Name, rrs: seq<RR>, adds: seq<MsgRR>, deletes: seq<MsgRR>)
    requires ApexSane(zone, rrs) && NsKeys(zone, rrs) != {} && Deletions(deletes) && !Wipes(zone, deletes, TYPE_NS)
    requires HttpUpdates(zone, rrs, adds, deletes).Updates?
    requires (NsKeys(zone, rrs) + AddedKeys(NsAdds(zone, adds))) - ApexNsKeys(zone, deletes) != {}
    ensures var r := ApplySection(zone, rrs, HttpUpdates(zone, rrs, adds, deletes).us).rrs;
            NsKeys(zone, r) == NsKeys(zone, BumpSerial(r)) == (NsKeys(zone, rrs) + AddedKeys(NsAdds(zone, adds))) - ApexNsKeys(zone, deletes)
  {
    var nsAdds, nsDels := NsAdds(zone, adds), NsDeletes(zone, rrs, adds, deletes);
    var others := EarlyDeletes(zone, deletes) + OtherAdds(zone, adds) + RaiseSerials(SoaAdds(zone, adds), SerialOf(rrs));
    OthersAreOther(zone, rrs, adds, deletes);
    NsSinglesKeys(zone, deletes);
    NsDeletesAreNs(zone, rrs, adds, deletes);
    var stays :| stays in (NsKeys(zone, rrs) + AddedKeys(nsAdds)) - ApexNsKeys(zone, deletes);
    NsInPhases(zone, rrs, others, nsAdds, nsDels, stays);
    BumpKeepsNs(zone, ApplySection(zone, rrs, others + nsAdds + nsDels).rrs);
  }
}
