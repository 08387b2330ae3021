/**
 Record changes coming from the HTTP API (dns-update-persistent/apply.go). A wipe of
 the apex NS set or of the SOA, which an update section would ignore, is rewritten
 into a real replacement.
 */
module HttpApply {
  import opened Collections
  import opened Serials
  import opened Records
  import opened UpdateEngine
  import opened ZoneUpdate
  import opened UpdateMeaning

  datatype HttpError = CannotDeleteSoa | NoSoa | InvalidSoa | CannotDeleteApexNs

  datatype Rewritten = Rejected(error: HttpError) | Updates(us: seq<MsgRR>)

  predicate ApexType(zone: Name, m: MsgRR, t: nat) {
    m.rr.Type() == t && m.rr.owner == zone
  }

  function Pick(ms: seq<MsgRR>, want: MsgRR -> bool): (r: seq<MsgRR>)
    ensures forall m :: m in r <==> m in ms && want(m)
  {
    if ms == [] then [] else if want(ms[0]) then [ms[0]] + Pick(ms[1..], want) else Pick(ms[1..], want)
  }

  function IsApex(zone: Name, t: nat): MsgRR -> bool {
    (m: MsgRR) => ApexType(zone, m, t)
  }

  function NotApex(zone: Name): MsgRR -> bool {
    (m: MsgRR) => !ApexType(zone, m, TYPE_NS) && !ApexType(zone, m, TYPE_SOA)
  }

  function IsApexDelete(zone: Name, t: nat): MsgRR -> bool {
    (m: MsgRR) => ApexType(zone, m, t) && m.cls != CLASS_ANY
  }

  predicate Wipes(zone: Name, deletes: seq<MsgRR>, t: nat) {
    exists m :: m in deletes && ApexType(zone, m, t) && m.cls == CLASS_ANY
  }

  function CopyIn(m: MsgRR): MsgRR {
    m.(cls := CLASS_IN)
  }

  function CopyDelete(m: MsgRR): MsgRR {
    if m.cls == CLASS_NONE then m.(rr := SetTtl(m.rr, 0)) else m
  }

  function CopyAllIn(ms: seq<MsgRR>): (r: seq<MsgRR>)
    ensures |r| == |ms| && forall i :: 0 <= i < |ms| ==> r[i] == CopyIn(ms[i])
  {
    seq(|ms|, i requires 0 <= i < |ms| => CopyIn(ms[i]))
  }

  function CopyAllDeletes(ms: seq<MsgRR>): (r: seq<MsgRR>)
    ensures |r| == |ms| && forall i :: 0 <= i < |ms| ==> r[i] == CopyDelete(ms[i])
  {
    seq(|ms|, i requires 0 <= i < |ms| => CopyDelete(ms[i]))
  }

  /** An added SOA that would be ignored gets the next serial instead. */
  function RaiseSerial(m: MsgRR, current: Serial): MsgRR {
    if m.rr.Soa? && !SerialGreater(m.rr.serial, current) then m.(rr := m.rr.(serial := Advance(current, 1))) else m
  }

  function RaiseSerials(ms: seq<MsgRR>, current: Serial): (r: seq<MsgRR>)
    ensures |r| == |ms| && forall i :: 0 <= i < |ms| ==> r[i] == RaiseSerial(ms[i], current)
  {
    seq(|ms|, i requires 0 <= i < |ms| => RaiseSerial(ms[i], current))
  }

  predicate HasIdentity(ms: seq<MsgRR>, k: Identity) {
    exists m :: m in ms && ExactKey(m.rr) == k
  }

  /** Single-record deletions of the current NS records that are not added again. */
  function DropOld(current: seq<RR>, nsAdds: seq<MsgRR>): (r: seq<MsgRR>)
    ensures forall m :: m in r <==> exists x :: x in current && !HasIdentity(nsAdds, ExactKey(x)) && m == MsgRR(CLASS_NONE, 0, SetTtl(x, 0))
  {
    if current == [] then []
    else if HasIdentity(nsAdds, ExactKey(current[0])) then DropOld(current[1..], nsAdds)
    else [MsgRR(CLASS_NONE, 0, SetTtl(current[0], 0))] + DropOld(current[1..], nsAdds)
  }

  function NsAdds(zone: Name, adds: seq<MsgRR>): seq<MsgRR> {
    Pick(CopyAllIn(adds), IsApex(zone, TYPE_NS))
  }

  function SoaAdds(zone: Name, adds: seq<MsgRR>): seq<MsgRR> {
    Pick(CopyAllIn(adds), IsApex(zone, TYPE_SOA))
  }

  function OtherAdds(zone: Name, adds: seq<MsgRR>): seq<MsgRR> {
    Pick(CopyAllIn(adds), NotApex(zone))
  }

  function EarlyDeletes(zone: Name, deletes: seq<MsgRR>): seq<MsgRR> {
    Pick(CopyAllDeletes(deletes), NotApex(zone))
  }

  function NsDeletes(zone: Name, rrs: seq<RR>, adds: seq<MsgRR>, deletes: seq<MsgRR>): seq<MsgRR> {
    if Wipes(zone, deletes, TYPE_NS) then DropOld(RRsetOf(rrs, zone, TYPE_NS), NsAdds(zone, adds))
    else Pick(CopyAllDeletes(deletes), IsApexDelete(zone, TYPE_NS))
  }

  /** The update section an HTTP change becomes. Apex NS additions come before apex NS
      deletions, so that the guard on the last NS never gets in the way. */
  function HttpUpdates(zone: Name, rrs: seq<RR>, adds: seq<MsgRR>, deletes: seq<MsgRR>): Rewritten {
    var soaAdds := SoaAdds(zone, adds);
    if Wipes(zone, deletes, TYPE_SOA) && soaAdds == [] then Rejected(CannotDeleteSoa)
    else if soaAdds != [] && SoaOf(rrs).None? then Rejected(NoSoa)
    else if exists m :: m in soaAdds && m.rr.Rec? then Rejected(InvalidSoa)
    else if Wipes(zone, deletes, TYPE_NS) && NsAdds(zone, adds) == [] then Rejected(CannotDeleteApexNs)
    else
      Updates(EarlyDeletes(zone, deletes) + OtherAdds(zone, adds) + RaiseSerials(soaAdds, SerialOf(rrs))
              + NsAdds(zone, adds) + NsDeletes(zone, rrs, adds, deletes))
  }

  // ---------------------------------------------------------------- replacing the apex NS set

  /** The identities of the apex NS records. */
  function NsKeys(zone: Name, rrs: seq<RR>): set<Identity> {
    set x | x in rrs && x.owner == zone && x.Type() == TYPE_NS :: ExactKey(x)
  }

  function AddedKeys(ms: seq<MsgRR>): set<Identity> {
    set m | m in ms :: ExactKey(m.rr)
  }

  /** What the replacement needs of a zone: no identity twice, one SOA at most, and no
      CNAME at the apex. Every zone meeting ZoneUpdate.ZoneInv is one. */
  ghost predicate ApexSane(zone: Name, rrs: seq<RR>) {
    && KeysDistinct(rrs)
    && (forall x, y :: x in rrs && y in rrs && x.Soa? && y.Soa? ==> x == y)
    && (forall x :: x in rrs && x.owner == zone ==> x.Type() != TYPE_CNAME)
  }

  lemma InvIsSane(zone: Name, rrs: seq<RR>)
    requires ZoneInv(zone, rrs)
    ensures ApexSane(zone, rrs) && NsKeys(zone, rrs) != {}
  {
    var soa :| ApexSoa(zone, Elems(rrs), soa);
    var ns :| ApexNs(zone, Elems(rrs), ns);
    assert ExactKey(ns) in NsKeys(zone, rrs);
    forall x | x in rrs && x.owner == zone ensures x.Type() != TYPE_CNAME {
      assert x in Elems(rrs);
    }
    forall x, y | x in rrs && y in rrs && x.Soa? && y.Soa? ensures x == y {
      assert x in Elems(rrs) && y in Elems(rrs);
    }
  }

  lemma SaneSubset(zone: Name, rrs: seq<RR>, rest: seq<RR>)
    requires ApexSane(zone, rrs) && KeysDistinct(rest) && forall x :: x in rest ==> x in rrs
    requires forall x :: x in rrs && x.owner == zone && x.Type() == TYPE_NS ==> x in rest
    ensures ApexSane(zone, rest) && NsKeys(zone, rest) == NsKeys(zone, rrs)
  {
  }

  lemma SaneSwap(zone: Name, rrs: seq<RR>, i: nat, y: RR)
    requires ApexSane(zone, rrs) && i < |rrs| && ExactKey(rrs[i]) == ExactKey(y)
    ensures ApexSane(zone, rrs[i := y]) && NsKeys(zone, rrs[i := y]) == NsKeys(zone, rrs)
  {
    var r := rrs[i := y];
    UpdateElems(rrs, i, y);
    UpdateKeys(rrs, i, y);
    assert forall x :: x in r <==> x in Elems(rrs) - {rrs[i]} + {y} by {
      assert forall x :: x in r <==> x in Elems(r);
    }
    assert rrs[i] in rrs && y in r;
  }

  lemma SaneAppend(zone: Name, rrs: seq<RR>, rr: RR)
    requires ApexSane(zone, rrs) && IndexOfRR(rrs, rr) == |rrs| && rr.Type() != TYPE_SOA
    requires rr.owner == zone ==> rr.Type() != TYPE_CNAME
    ensures ApexSane(zone, rrs + [rr])
    ensures NsKeys(zone, rrs + [rr])
         == if rr.owner == zone && rr.Type() == TYPE_NS then NsKeys(zone, rrs) + {ExactKey(rr)} else NsKeys(zone, rrs)
  {
    var r := rrs + [rr];
    assert forall x :: x in r <==> x in rrs || x == rr;
  }

  lemma SaneSoa(zone: Name, rrs: seq<RR>, soa: RR)
    requires ApexSane(zone, rrs) && soa.Soa? && SoaIndex(rrs) < |rrs|
    ensures ApexSane(zone, rrs[SoaIndex(rrs) := soa]) && NsKeys(zone, rrs[SoaIndex(rrs) := soa]) == NsKeys(zone, rrs)
  {
    var i := SoaIndex(rrs);
    forall k | 0 <= k < |rrs| && k != i ensures ExactKey(rrs[k]) != ExactKey(soa) {
      assert rrs[k] in rrs && rrs[i] in rrs && ExactKey(rrs[k]) != ExactKey(rrs[i]);
    }
    UpdateElems(rrs, i, soa);
    UpdateKeys(rrs, i, soa);
    var r := rrs[i := soa];
    assert forall x :: x in r <==> x in Elems(rrs) - {rrs[i]} + {soa} by {
      assert forall x :: x in r <==> x in Elems(r);
    }
  }

  lemma SaneAdd(zone: Name, a: Applied, rr: RR)
    requires ApexSane(zone, a.rrs) && NsKeys(zone, a.rrs) != {}
    ensures var r := AddRecord(a, rr).rrs;
            && ApexSane(zone, r)
            && NsKeys(zone, r) == if rr.owner == zone && rr.Type() == TYPE_NS then NsKeys(zone, a.rrs) + {ExactKey(rr)} else NsKeys(zone, a.rrs)
  {
    var k :| k in NsKeys(zone, a.rrs);
    var ns :| ns in a.rrs && ns.owner == zone && ns.Type() == TYPE_NS && ExactKey(ns) == k;
    if rr.Type() == TYPE_SOA {
      if rr.Soa? && SoaIndex(a.rrs) < |a.rrs| {
        SaneSoa(zone, a.rrs, rr);
      }
    } else if !(rr.Type() == TYPE_CNAME && HasNonCname(a.rrs, rr.owner)) && !(rr.Type() != TYPE_CNAME && HasCname(a.rrs, rr.owner)) {
      var i := IndexOfRR(a.rrs, rr);
      if i == |a.rrs| {
        SaneAppend(zone, a.rrs, rr);
      } else {
        SaneSwap(zone, a.rrs, i, SetTtl(a.rrs[i], rr.ttl));
        assert a.rrs[i] in a.rrs;
      }
    }
  }

  lemma SaneOther(zone: Name, a: Applied, u: MsgRR)
    requires ApexSane(zone, a.rrs) && NsKeys(zone, a.rrs) != {} && !ApexType(zone, u, TYPE_NS)
    ensures ApexSane(zone, ApplyOne(zone, a, u).rrs) && NsKeys(zone, ApplyOne(zone, a, u).rrs) == NsKeys(zone, a.rrs)
  {
    var r := ApplyOne(zone, a, u).rrs;
    if u.cls == CLASS_IN {
      SaneAdd(zone, a, u.rr);
    } else if r != a.rrs {
      if u.cls == CLASS_ANY {
        var m := if u.rr.Type() == TYPE_ANY then AllAt(u.rr.owner, u.rr.owner == zone) else TypedAt(u.rr.owner, u.rr.Type());
        WithoutDistinct(a.rrs, m);
        SaneSubset(zone, a.rrs, r);
      } else {
        var i := IndexOfRR(a.rrs, u.rr);
        DeleteElems(a.rrs, i);
        assert forall x :: x in r <==> x in Elems(r);
        SaneSubset(zone, a.rrs, r);
      }
    }
  }

  lemma {:induction false} SaneOthers(zone: Name, a: Applied, us: seq<MsgRR>)
    requires ApexSane(zone, a.rrs) && NsKeys(zone, a.rrs) != {} && forall u :: u in us ==> !ApexType(zone, u, TYPE_NS)
    ensures ApexSane(zone, ApplyAll(zone, a, us).rrs) && NsKeys(zone, ApplyAll(zone, a, us).rrs) == NsKeys(zone, a.rrs)
    decreases |us|
  {
    if us != [] {
      assert us[0] in us;
      SaneOther(zone, a, us[0]);
      SaneOthers(zone, ApplyOne(zone, a, us[0]), us[1..]);
    }
  }

  lemma {:induction false} NsAddsLand(zone: Name, a: Applied, us: seq<MsgRR>)
    requires ApexSane(zone, a.rrs) && NsKeys(zone, a.rrs) != {}
    requires forall u :: u in us ==> ApexType(zone, u, TYPE_NS) && u.cls == CLASS_IN
    ensures ApexSane(zone, ApplyAll(zone, a, us).rrs)
    ensures NsKeys(zone, ApplyAll(zone, a, us).rrs) == NsKeys(zone, a.rrs) + AddedKeys(us)
    decreases |us|
  {
    if us != [] {
      assert us[0] in us;
      SaneAdd(zone, a, us[0].rr);
      NsAddsLand(zone, ApplyOne(zone, a, us[0]), us[1..]);
      assert AddedKeys(us) == {ExactKey(us[0].rr)} + AddedKeys(us[1..]);
    }
  }

  lemma TwoAtApex(zone: Name, rrs: seq<RR>, x: RR, y: RR)
    requires x in rrs && y in rrs && x != y && x.owner == y.owner == zone && x.Type() == y.Type() == TYPE_NS
    ensures CountRRset(rrs, zone, TYPE_NS) > 1
  {
    var s := RRsetOf(rrs, zone, TYPE_NS);
    assert x in s && y in s;
  }

  /** Deleting an apex NS is never blocked while another identity is to stay. */
  lemma NsDeleteLands(zone: Name, a: Applied, u: MsgRR, stays: Identity)
    requires ApexSane(zone, a.rrs) && ApexType(zone, u, TYPE_NS) && u.cls == CLASS_NONE
    requires stays in NsKeys(zone, a.rrs) && stays != ExactKey(u.rr)
    ensures ApexSane(zone, ApplyOne(zone, a, u).rrs)
    ensures NsKeys(zone, ApplyOne(zone, a, u).rrs) == NsKeys(zone, a.rrs) - {ExactKey(u.rr)}
  {
    var i := IndexOfRR(a.rrs, u.rr);
    var y :| y in a.rrs && y.owner == zone && y.Type() == TYPE_NS && ExactKey(y) == stays;
    if i < |a.rrs| {
      assert a.rrs[i] in a.rrs;
      TwoAtApex(zone, a.rrs, a.rrs[i], y);
      DeleteElems(a.rrs, i);
      var r := a.rrs[..i] + a.rrs[i + 1..];
      assert forall x :: x in r <==> x in Elems(r);
      DeleteDropsKey(zone, a.rrs, i);
    } else {
      assert ExactKey(u.rr) !in NsKeys(zone, a.rrs);
    }
  }

  lemma DeleteDropsKey(zone: Name, rrs: seq<RR>, i: nat)
    requires KeysDistinct(rrs) && i < |rrs|
    ensures NsKeys(zone, rrs[..i] + rrs[i + 1..]) == NsKeys(zone, rrs) - {ExactKey(rrs[i])}
  {
    DeleteElems(rrs, i);
    var r := rrs[..i] + rrs[i + 1..];
    assert forall x :: x in r <==> x in Elems(r);
    forall x | x in r ensures ExactKey(x) != ExactKey(rrs[i]) {
      var k :| 0 <= k < |rrs| && rrs[k] == x;
      assert k != i;
    }
  }

  lemma {:induction false} NsDeletesLand(zone: Name, a: Applied, us: seq<MsgRR>, stays: Identity)
    requires ApexSane(zone, a.rrs) && stays in NsKeys(zone, a.rrs) && stays !in AddedKeys(us)
    requires forall u :: u in us ==> ApexType(zone, u, TYPE_NS) && u.cls == CLASS_NONE
    ensures ApexSane(zone, ApplyAll(zone, a, us).rrs)
    ensures NsKeys(zone, ApplyAll(zone, a, us).rrs) == NsKeys(zone, a.rrs) - AddedKeys(us)
    decreases |us|
  {
    if us != [] {
      assert us[0] in us && ExactKey(us[0].rr) in AddedKeys(us);
      NsDeleteLands(zone, a, us[0], stays);
      NsDeletesLand(zone, ApplyOne(zone, a, us[0]), us[1..], stays);
      assert AddedKeys(us) == {ExactKey(us[0].rr)} + AddedKeys(us[1..]);
    }
  }

  lemma {:induction false} ApplyConcat(zone: Name, a: Applied, us: seq<MsgRR>, vs: seq<MsgRR>)
    ensures ApplyAll(zone, a, us + vs) == ApplyAll(zone, ApplyAll(zone, a, us), vs)
    decreases |us|
  {
    if us == [] {
      assert [] + vs == vs;
    } else {
      assert (us + vs)[1..] == us[1..] + vs;
      ApplyConcat(zone, ApplyOne(zone, a, us[0]), us[1..], vs);
    }
  }

  lemma BumpKeepsNs(zone: Name, rrs: seq<RR>)
    requires ApexSane(zone, rrs)
    ensures NsKeys(zone, BumpSerial(rrs)) == NsKeys(zone, rrs)
  {
    var i := SoaIndex(rrs);
    if i < |rrs| {
      SaneSoa(zone, rrs, rrs[i].(serial := Advance(rrs[i].serial, 1)));
    }
  }

  /** Wiping the apex NS set and adding at least one NS replaces the set: whatever else
      the same request adds or deletes, the apex NS identities end up being exactly the
      added ones. */
  lemma NsSetIsReplaced(zone: Name, rrs: seq<RR>, adds: seq<MsgRR>, deletes: seq<MsgRR>)
    requires ApexSane(zone, rrs) && NsKeys(zone, rrs) != {}
    requires Wipes(zone, deletes, TYPE_NS) && HttpUpdates(zone, rrs, adds, deletes).Updates?
    ensures var r := ApplySection(zone, rrs, HttpUpdates(zone, rrs, adds, deletes).us).rrs;
            NsKeys(zone, r) == NsKeys(zone, BumpSerial(r)) == AddedKeys(NsAdds(zone, adds))
  {
    var others := EarlyDeletes(zone, deletes) + OtherAdds(zone, adds) + RaiseSerials(SoaAdds(zone, adds), SerialOf(rrs));
    OthersAreOther(zone, rrs, adds, deletes);
    ReplaceInPhases(zone, rrs, others, NsAdds(zone, adds));
    BumpKeepsNs(zone, ApplySection(zone, rrs, HttpUpdates(zone, rrs, adds, deletes).us).rrs);
  }

  lemma OthersAreOther(zone: Name, rrs: seq<RR>, adds: seq<MsgRR>, deletes: seq<MsgRR>)
    ensures forall u :: u in EarlyDeletes(zone, deletes) + OtherAdds(zone, adds) + RaiseSerials(SoaAdds(zone, adds), SerialOf(rrs))
              ==> !ApexType(zone, u, TYPE_NS)
    ensures forall u :: u in NsAdds(zone, adds) ==> ApexType(zone, u, TYPE_NS) && u.cls == CLASS_IN
  {
    var soas := SoaAdds(zone, adds);
    forall u | u in RaiseSerials(soas, SerialOf(rrs)) ensures !ApexType(zone, u, TYPE_NS) {
      var i :| 0 <= i < |soas| && u == RaiseSerial(soas[i], SerialOf(rrs));
      assert soas[i] in soas;
    }
  }

  /** Whatever comes first, additions and then deletions do to the apex NS identities what
      they say, as long as one identity stays. */
  lemma NsInPhases(zone: Name, rrs: seq<RR>, others: seq<MsgRR>, nsAdds: seq<MsgRR>, nsDels: seq<MsgRR>, stays: Identity)
    requires ApexSane(zone, rrs) && NsKeys(zone, rrs) != {}
    requires forall u :: u in others ==> !ApexType(zone, u, TYPE_NS)
    requires forall u :: u in nsAdds ==> ApexType(zone, u, TYPE_NS) && u.cls == CLASS_IN
    requires forall u :: u in nsDels ==> ApexType(zone, u, TYPE_NS) && u.cls == CLASS_NONE
    requires stays in NsKeys(zone, rrs) + AddedKeys(nsAdds) && stays !in AddedKeys(nsDels)
    ensures var r := ApplySection(zone, rrs, others + nsAdds + nsDels).rrs;
            ApexSane(zone, r) && NsKeys(zone, r) == (NsKeys(zone, rrs) + AddedKeys(nsAdds)) - AddedKeys(nsDels)
  {
    var a0 := Applied(rrs, false);
    var a1 := ApplyAll(zone, a0, others);
    var a2 := ApplyAll(zone, a1, nsAdds);
    ApplyConcat(zone, a0, others + nsAdds, nsDels);
    ApplyConcat(zone, a0, others, nsAdds);
    SaneOthers(zone, a0, others);
    NsAddsLand(zone, a1, nsAdds);
    NsDeletesLand(zone, a2, nsDels, stays);
  }

  lemma ReplaceInPhases(zone: Name, rrs: seq<RR>, others: seq<MsgRR>, nsAdds: seq<MsgRR>)
    requires ApexSane(zone, rrs) && NsKeys(zone, rrs) != {} && nsAdds != []
    requires forall u :: u in others ==> !ApexType(zone, u, TYPE_NS)
    requires forall u :: u in nsAdds ==> ApexType(zone, u, TYPE_NS) && u.cls == CLASS_IN
    ensures var r := ApplySection(zone, rrs, others + nsAdds + DropOld(RRsetOf(rrs, zone, TYPE_NS), nsAdds)).rrs;
            ApexSane(zone, r) && NsKeys(zone, r) == AddedKeys(nsAdds)
  {
    DroppedKeys(zone, rrs, nsAdds);
    assert nsAdds[0] in nsAdds;
    var stays := ExactKey(nsAdds[0].rr);
    assert stays in AddedKeys(nsAdds);
    NsInPhases(zone, rrs, others, nsAdds, DropOld(RRsetOf(rrs, zone, TYPE_NS), nsAdds), stays);
  }

  lemma DroppedKeys(zone: Name, rrs: seq<RR>, nsAdds: seq<MsgRR>)
    ensures var dels := DropOld(RRsetOf(rrs, zone, TYPE_NS), nsAdds);
            && (forall u :: u in dels ==> ApexType(zone, u, TYPE_NS) && u.cls == CLASS_NONE)
            && AddedKeys(dels) == NsKeys(zone, rrs) - AddedKeys(nsAdds)
  {
    var dels := DropOld(RRsetOf(rrs, zone, TYPE_NS), nsAdds);
    forall k | k in NsKeys(zone, rrs) - AddedKeys(nsAdds) ensures k in AddedKeys(dels) {
      var x :| x in rrs && x.owner == zone && x.Type() == TYPE_NS && ExactKey(x) == k;
      var m := MsgRR(CLASS_NONE, 0, SetTtl(x, 0));
      assert x in RRsetOf(rrs, zone, TYPE_NS) && !HasIdentity(nsAdds, k);
      assert m in dels && ExactKey(m.rr) == k;
    }
    forall k | k in AddedKeys(dels) ensures k in NsKeys(zone, rrs) && k !in AddedKeys(nsAdds) {
      var m :| m in dels && ExactKey(m.rr) == k;
      var x :| x in RRsetOf(rrs, zone, TYPE_NS) && !HasIdentity(nsAdds, ExactKey(x)) && m == MsgRR(CLASS_NONE, 0, SetTtl(x, 0));
      assert ExactKey(x) == k;
    }
  }

  // ---------------------------------------------------------------- replacing the SOA

  /** The serial a replaced SOA ends with is later than the one before, except when the
      serial asked for was already exactly 2^31 - 1 ahead. */
  lemma RaisedSerialIff(m: MsgRR, current: Serial)
    requires m.rr.Soa?
    ensures SerialGreater(RaiseSerial(m, current).rr.serial, current)
    ensures SerialGreater(Advance(RaiseSerial(m, current).rr.serial, 1), current) <==> m.rr.serial != Advance(current, HALF - 1)
  {
  }

  /** A serial that is ahead stays as it is, any other becomes the next one, and nothing else
      of the record changes. */
  lemma RaisedMeans(m: MsgRR, current: Serial)
    requires m.rr.Soa?
    ensures RaiseSerial(m, current) == m.(rr := m.rr.(serial := if Ahead(m.rr.serial, current) then m.rr.serial else Advance(current, 1)))
  {
    ComparisonsAgree(m.rr.serial, current);
  }

  lemma SoaOfTidy(rrs: seq<RR>)
    requires Tidy(rrs)
    ensures Soas(Elems(rrs)) == if SoaOf(rrs).Some? then {SoaOf(rrs).value} else {}
  {
    SoaIsOnly(rrs);
  }

  lemma {:induction false} NsLeavesSoas(zone: Name, s: set<RR>, us: seq<MsgRR>)
    requires forall u :: u in us ==> u.rr.Type() == TYPE_NS
    ensures Soas(UpdatedAll(zone, s, us)) == Soas(s)
    decreases |us|
  {
    if us != [] {
      assert us[0] in us;
      var t := Updated(zone, s, us[0]);
      assert forall x :: x in Soas(t) <==> x in Soas(s);
      NsLeavesSoas(zone, t, us[1..]);
    }
  }

  /** No SOA of the apex is added. */
  predicate NoApexSoa(zone: Name, us: seq<MsgRR>) {
    forall u :: u in us && u.cls == CLASS_IN && u.rr.Type() == TYPE_SOA ==> u.rr.owner != zone
  }

  lemma {:induction false} StraySoasOnly(zone: Name, s: set<RR>, us: seq<MsgRR>)
    requires NoApexSoa(zone, us)
    ensures forall x :: x in Soas(UpdatedAll(zone, s, us)) ==> x in Soas(s) || x.owner != zone
    decreases |us|
  {
    if us != [] {
      assert us[0] in us;
      var t := Updated(zone, s, us[0]);
      assert forall x :: x in Soas(t) ==> x in Soas(s) || x.owner != zone;
      StraySoasOnly(zone, t, us[1..]);
    }
  }

  /** The section up to the apex SOA leaves one SOA at most, the old one or a stray one. */
  lemma BeforeSoa(zone: Name, rrs: seq<RR>, before: seq<MsgRR>)
    requires Tidy(rrs) && NoApexSoa(zone, before)
    ensures var r := ApplySection(zone, rrs, before).rrs;
            Tidy(r) && (SoaOf(r).None? || SoaOf(r) == SoaOf(rrs) || SoaOf(r).value.owner != zone)
  {
    var r := ApplySection(zone, rrs, before).rrs;
    SectionRefines(zone, Applied(rrs, false), before);
    StraySoasOnly(zone, Elems(rrs), before);
    SoaOfTidy(rrs);
    SoaOfTidy(r);
    if SoaOf(r).Some? {
      assert SoaOf(r).value in Soas(Elems(r));
    }
  }

  /** An added SOA replaces the one there is exactly when it is newer. */
  lemma SoaAddedIff(zone: Name, a: Applied, m: MsgRR)
    requires Tidy(a.rrs) && m.cls == CLASS_IN && m.rr.Soa?
    ensures var r := ApplyOne(zone, a, m).rrs;
            && Tidy(r)
            && SoaOf(r) == if SoaOf(a.rrs).Some? && SerialGreater(m.rr.serial, SerialOf(a.rrs)) then Some(m.rr) else SoaOf(a.rrs)
  {
    OneRefines(zone, a, m);
    SoaOfTidy(a.rrs);
    SoaOfTidy(ApplyOne(zone, a, m).rrs);
    var s := Elems(a.rrs);
    assert forall x :: x in s && x.Soa? ==> x in Soas(s);
    if SoaOf(a.rrs).Some? && SerialGreater(m.rr.serial, SerialOf(a.rrs)) {
      assert SoaOf(a.rrs).value in Soas(s);
      assert Soas(s - Soas(s) + {m.rr}) == {m.rr};
    }
  }

  lemma AfterSoa(zone: Name, a: Applied, after: seq<MsgRR>)
    requires Tidy(a.rrs) && forall u :: u in after ==> u.rr.Type() == TYPE_NS
    ensures SoaOf(ApplyAll(zone, a, after).rrs) == SoaOf(a.rrs)
  {
    SectionRefines(zone, a, after);
    NsLeavesSoas(zone, Elems(a.rrs), after);
    SoaOfTidy(a.rrs);
    SoaOfTidy(ApplyAll(zone, a, after).rrs);
  }

  /** The SOA after a section that adds one SOA, with strays before it and NS after it. */
  lemma SoaThrough(zone: Name, rrs: seq<RR>, before: seq<MsgRR>, m: MsgRR, after: seq<MsgRR>)
    requires Tidy(rrs) && NoApexSoa(zone, before) && m.cls == CLASS_IN && m.rr.Soa?
    requires forall u :: u in after ==> u.rr.Type() == TYPE_NS
    ensures var r1 := ApplySection(zone, rrs, before).rrs;
            SoaOf(ApplySection(zone, rrs, before + [m] + after).rrs)
            == if SoaOf(r1).Some? && SerialGreater(m.rr.serial, SerialOf(r1)) then Some(m.rr) else SoaOf(r1)
  {
    var a0 := Applied(rrs, false);
    var a1 := ApplyAll(zone, a0, before);
    var a2 := ApplyOne(zone, a1, m);
    ApplyConcat(zone, a0, before + [m], after);
    ApplyConcat(zone, a0, before, [m]);
    assert ApplyAll(zone, a1, [m]) == a2 by {
      assert ApplyAll(zone, a2, [m][1..]) == a2;
    }
    BeforeSoa(zone, rrs, before);
    SoaAddedIff(zone, a1, m);
    AfterSoa(zone, a2, after);
  }

  lemma BumpedSoa(rrs: seq<RR>)
    ensures SoaOf(BumpSerial(rrs))
         == if SoaOf(rrs).None? then None else Some(SoaOf(rrs).value.(serial := Advance(SerialOf(rrs), 1)))
  {
    var i := SoaIndex(rrs);
    if i < |rrs| {
      FirstSoaSwapped(rrs, rrs[i].(serial := Advance(rrs[i].serial, 1)));
    }
  }

  lemma {:induction false} FirstSoaSwapped(rrs: seq<RR>, soa: RR)
    requires SoaIndex(rrs) < |rrs| && soa.Soa?
    ensures SoaOf(rrs[SoaIndex(rrs) := soa]) == Some(soa)
  {
    if rrs[0].Rec? {
      FirstSoaSwapped(rrs[1..], soa);
      assert rrs[SoaIndex(rrs) := soa][1..] == rrs[1..][SoaIndex(rrs[1..]) := soa];
    }
  }

  lemma OneSoaShape(zone: Name, rrs: seq<RR>, adds: seq<MsgRR>, deletes: seq<MsgRR>, m: MsgRR)
    requires HttpUpdates(zone, rrs, adds, deletes).Updates? && SoaAdds(zone, adds) == [m]
    ensures HttpUpdates(zone, rrs, adds, deletes).us
         == EarlyDeletes(zone, deletes) + OtherAdds(zone, adds) + [RaiseSerial(m, SerialOf(rrs))]
            + (NsAdds(zone, adds) + NsDeletes(zone, rrs, adds, deletes))
  {
    var before := EarlyDeletes(zone, deletes) + OtherAdds(zone, adds);
    assert RaiseSerials([m], SerialOf(rrs)) == [RaiseSerial(m, SerialOf(rrs))];
    Associate(before + RaiseSerials([m], SerialOf(rrs)), NsAdds(zone, adds), NsDeletes(zone, rrs, adds, deletes), []);
  }

  lemma NsComesLast(zone: Name, rrs: seq<RR>, adds: seq<MsgRR>, deletes: seq<MsgRR>)
    ensures forall u :: u in NsAdds(zone, adds) + NsDeletes(zone, rrs, adds, deletes) ==> u.rr.Type() == TYPE_NS
    ensures NoApexSoa(zone, EarlyDeletes(zone, deletes) + OtherAdds(zone, adds))
  {
    if Wipes(zone, deletes, TYPE_NS) {
      DroppedKeys(zone, rrs, NsAdds(zone, adds));
    }
  }

  /** The zone as the request leaves it before its apex SOA is considered. */
  function BeforeApexSoa(zone: Name, rrs: seq<RR>, adds: seq<MsgRR>, deletes: seq<MsgRR>): seq<RR> {
    ApplySection(zone, rrs, EarlyDeletes(zone, deletes) + OtherAdds(zone, adds)).rrs
  }

  /** One added apex SOA lands, with the owner, TTL and fields given and the bumped serial,
      exactly when what the rest of the request leaves still has a SOA, and an older one.
      Otherwise the zone is left without a SOA at its apex. Either way the request changes
      the zone; and when the SOA lands, the serial has moved forward unless the one asked
      for was exactly 2^31 - 1 ahead. */
  lemma SoaIsReplacedIff(zone: Name, rrs: seq<RR>, adds: seq<MsgRR>, deletes: seq<MsgRR>, m: MsgRR)
    requires Tidy(rrs) && HttpUpdates(zone, rrs, adds, deletes).Updates? && SoaAdds(zone, adds) == [m]
    ensures m.rr.Soa? && m.rr.owner == zone
    ensures var a := ApplySection(zone, rrs, HttpUpdates(zone, rrs, adds, deletes).us);
            var r1 := BeforeApexSoa(zone, rrs, adds, deletes);
            var raised := RaiseSerial(m, SerialOf(rrs)).rr;
            var result := SoaOf(BumpSerial(a.rrs));
            && a.changed
            && (result == Some(raised.(serial := Advance(raised.serial, 1))) <==>
                  SoaOf(r1).Some? && SerialGreater(raised.serial, SerialOf(r1)))
            && (result == Some(raised.(serial := Advance(raised.serial, 1))) ==>
                  (SerialGreater(result.value.serial, SerialOf(rrs)) <==> m.rr.serial != Advance(SerialOf(rrs), HALF - 1)))
            && (result.Some? && result.value.owner == zone ==> result == Some(raised.(serial := Advance(raised.serial, 1))))
  {
    assert m in SoaAdds(zone, adds);
    var before := EarlyDeletes(zone, deletes) + OtherAdds(zone, adds);
    var after := NsAdds(zone, adds) + NsDeletes(zone, rrs, adds, deletes);
    var us := HttpUpdates(zone, rrs, adds, deletes).us;
    OneSoaShape(zone, rrs, adds, deletes, m);
    NsComesLast(zone, rrs, adds, deletes);
    RaisedSerialIff(m, SerialOf(rrs));
    SoaThrough(zone, rrs, before, RaiseSerial(m, SerialOf(rrs)), after);
    BeforeSoa(zone, rrs, before);
    var a := ApplySection(zone, rrs, us);
    BumpedSoa(a.rrs);
    UnchangedMeansUntouched(zone, Applied(rrs, false), us);
  }

  lemma {:induction false} ApexSoaStays(zone: Name, s: set<RR>, us: seq<MsgRR>, soa: RR)
    requires Soas(s) == {soa} && soa.owner == zone
    requires forall u :: u in us ==> !(u.cls == CLASS_IN && u.rr.Type() == TYPE_SOA)
    ensures Soas(UpdatedAll(zone, s, us)) == {soa}
    decreases |us|
  {
    if us != [] {
      assert us[0] in us;
      var t := Updated(zone, s, us[0]);
      assert soa in Soas(s);
      assert Soas(t) == {soa};
      ApexSoaStays(zone, t, us[1..], soa);
    }
  }

  /** In particular it always lands on a zone with its SOA at the apex when the request
      adds no other SOA, whatever else it does. */
  lemma SoaIsReplaced(zone: Name, rrs: seq<RR>, adds: seq<MsgRR>, deletes: seq<MsgRR>, soa: RR, m: MsgRR)
    requires Tidy(rrs) && SoaOf(rrs) == Some(soa) && soa.owner == zone
    requires HttpUpdates(zone, rrs, adds, deletes).Updates? && SoaAdds(zone, adds) == [m]
    requires forall u :: u in EarlyDeletes(zone, deletes) + OtherAdds(zone, adds) ==> !(u.cls == CLASS_IN && u.rr.Type() == TYPE_SOA)
    ensures m.rr.Soa? && m.rr.owner == zone
    ensures var a := ApplySection(zone, rrs, HttpUpdates(zone, rrs, adds, deletes).us);
            var raised := RaiseSerial(m, soa.serial).rr;
            && a.changed
            && SoaOf(BumpSerial(a.rrs)) == Some(raised.(serial := Advance(raised.serial, 1)))
            && (SerialGreater(SerialOf(BumpSerial(a.rrs)), soa.serial) <==> m.rr.serial != Advance(soa.serial, HALF - 1))
  {
    var before := EarlyDeletes(zone, deletes) + OtherAdds(zone, adds);
    SoaIsReplacedIff(zone, rrs, adds, deletes, m);
    SectionRefines(zone, Applied(rrs, false), before);
    SoaOfTidy(rrs);
    ApexSoaStays(zone, Elems(rrs), before, soa);
    SoaOfTidy(BeforeApexSoa(zone, rrs, adds, deletes));
    assert soa in Soas(Elems(BeforeApexSoa(zone, rrs, adds, deletes)));
    RaisedSerialIff(m, soa.serial);
  }

  const APEX_SOA := MsgRR(CLASS_IN, 0, Soa(EXAMPLE_APEX, 300, 5, []))
  const LATE_STRAY := MsgRR(CLASS_IN, 0, Soa(["a"] + EXAMPLE_APEX, 300, 100, []))

  /** A request that passes the prescan and adds a new apex SOA beside a SOA of another name
      with a later serial: the other one takes the place of the zone's SOA, and the apex one
      comes too late. */
  lemma StrayShutsOutApexSoa()
    ensures ZoneInv(EXAMPLE_APEX, SMALL_ZONE)
    ensures var us := HttpUpdates(EXAMPLE_APEX, SMALL_ZONE, [LATE_STRAY, APEX_SOA], []);
            && us == Updates([LATE_STRAY, APEX_SOA]) && Prescan(EXAMPLE_APEX, None, false, us.us) == NoError
            && SoaOf(BumpSerial(ApplySection(EXAMPLE_APEX, SMALL_ZONE, us.us).rrs)) == Some(LATE_STRAY.rr.(serial := 101))
  {
    SmallZoneInv();
    StraySorted();
    StrayPasses();
    StrayEnds();
  }

  lemma StrayPasses()
    ensures Prescan(EXAMPLE_APEX, None, false, [LATE_STRAY, APEX_SOA]) == NoError
  {
    var zone := EXAMPLE_APEX;
    assert |LATE_STRAY.rr.owner| == 3 && LATE_STRAY.rr.owner[1..] == zone && |zone| == 2;
    assert PrescanCode(zone, None, false, LATE_STRAY) == NoError && PrescanCode(zone, None, false, APEX_SOA) == NoError;
  }

  lemma StrayEnds()
    ensures SoaOf(BumpSerial(ApplySection(EXAMPLE_APEX, SMALL_ZONE, [LATE_STRAY, APEX_SOA]).rrs)) == Some(LATE_STRAY.rr.(serial := 101))
  {
    SmallZoneInv();
    InvIsTidy(EXAMPLE_APEX, SMALL_ZONE);
    StrayFirst();
    assert |LATE_STRAY.rr.owner| == 3 && |EXAMPLE_APEX| == 2;
    SoaThrough(EXAMPLE_APEX, SMALL_ZONE, [LATE_STRAY], APEX_SOA, []);
    assert [LATE_STRAY] + [APEX_SOA] + [] == [LATE_STRAY, APEX_SOA];
    BumpedSoa(ApplySection(EXAMPLE_APEX, SMALL_ZONE, [LATE_STRAY, APEX_SOA]).rrs);
  }

  lemma StrayFirst()
    ensures SoaOf(ApplySection(EXAMPLE_APEX, SMALL_ZONE, [LATE_STRAY]).rrs) == Some(LATE_STRAY.rr)
  {
    var a0 := Applied(SMALL_ZONE, false);
    var a1 := ApplyOne(EXAMPLE_APEX, a0, LATE_STRAY);
    assert SoaIndex(SMALL_ZONE) == 0;
    assert a1.rrs == [LATE_STRAY.rr, SMALL_ZONE[1]];
    assert ApplyAll(EXAMPLE_APEX, a1, [LATE_STRAY][1..]) == a1;
  }

  lemma PickTwo(a: MsgRR, b: MsgRR, want: MsgRR -> bool)
    ensures Pick([a, b], want) == (if want(a) then [a] else []) + (if want(b) then [b] else [])
  {
    assert [a, b][1..] == [b] && Pick([b][1..], want) == [];
  }

  lemma StrayPicked()
    ensures var adds := [LATE_STRAY, APEX_SOA];
            SoaAdds(EXAMPLE_APEX, adds) == [APEX_SOA] && OtherAdds(EXAMPLE_APEX, adds) == [LATE_STRAY] && NsAdds(EXAMPLE_APEX, adds) == []
  {
    var zone, adds := EXAMPLE_APEX, [LATE_STRAY, APEX_SOA];
    assert |LATE_STRAY.rr.owner| == 3 && |zone| == 2;
    assert CopyAllIn(adds) == adds;
    PickTwo(LATE_STRAY, APEX_SOA, IsApex(zone, TYPE_SOA));
    PickTwo(LATE_STRAY, APEX_SOA, IsApex(zone, TYPE_NS));
    PickTwo(LATE_STRAY, APEX_SOA, NotApex(zone));
  }

  lemma StraySorted()
    ensures HttpUpdates(EXAMPLE_APEX, SMALL_ZONE, [LATE_STRAY, APEX_SOA], []) == Updates([LATE_STRAY, APEX_SOA])
  {
    StrayPicked();
    assert CopyAllDeletes([]) == [];
    assert SerialOf(SMALL_ZONE) == 1 && RaiseSerials([APEX_SOA], 1) == [APEX_SOA];
    assert [] + [LATE_STRAY] + [APEX_SOA] + [] + [] == [LATE_STRAY, APEX_SOA];
  }

  // ---------------------------------------------------------------- the rewriting itself

  lemma {:induction false} PickNext(ms: seq<MsgRR>, i: nat, want: MsgRR -> bool)
    requires i < |ms|
    ensures Pick(ms[..i + 1], want) == if want(ms[i]) then Pick(ms[..i], want) + [ms[i]] else Pick(ms[..i], want)
    decreases i
  {
    assert ms[..i + 1][1..] == ms[1..][..i];
    if i > 0 {
      assert ms[..i][1..] == ms[1..][..i - 1];
      PickNext(ms[1..], i - 1, want);
    } else {
      assert ms[..1] == [ms[0]] && Pick([ms[0]][1..], want) == [];
    }
  }

  /** The first loop of `httpUpdatesLocked`: additions sorted by what they are. */
  method SortAdds(zone: Name, adds: seq<MsgRR>) returns (nsAdds: seq<MsgRR>, soaAdds: seq<MsgRR>, otherAdds: seq<MsgRR>)
    ensures nsAdds == NsAdds(zone, adds) && soaAdds == SoaAdds(zone, adds) && otherAdds == OtherAdds(zone, adds)
  {
    nsAdds, soaAdds, otherAdds := [], [], [];
    var all := CopyAllIn(adds);
    for i := 0 to |all|
      invariant nsAdds == Pick(all[..i], IsApex(zone, TYPE_NS))
      invariant soaAdds == Pick(all[..i], IsApex(zone, TYPE_SOA))
      invariant otherAdds == Pick(all[..i], NotApex(zone))
    {
      PickNext(all, i, IsApex(zone, TYPE_NS));
      PickNext(all, i, IsApex(zone, TYPE_SOA));
      PickNext(all, i, NotApex(zone));
      if ApexType(zone, all[i], TYPE_NS) {
        nsAdds := nsAdds + [all[i]];
      } else if ApexType(zone, all[i], TYPE_SOA) {
        soaAdds := soaAdds + [all[i]];
      } else {
        otherAdds := otherAdds + [all[i]];
      }
    }
    assert all[..|all|] == all;
  }

  /** The second loop: deletions, with the apex ones set apart. */
  method SortDeletes(zone: Name, deletes: seq<MsgRR>) returns (early: seq<MsgRR>, nsDels: seq<MsgRR>)
    ensures early == EarlyDeletes(zone, deletes)
    ensures nsDels == Pick(CopyAllDeletes(deletes), IsApexDelete(zone, TYPE_NS))
  {
    early, nsDels := [], [];
    var all := CopyAllDeletes(deletes);
    for i := 0 to |all|
      invariant early == Pick(all[..i], NotApex(zone))
      invariant nsDels == Pick(all[..i], IsApexDelete(zone, TYPE_NS))
    {
      PickNext(all, i, NotApex(zone));
      PickNext(all, i, IsApexDelete(zone, TYPE_NS));
      if ApexType(zone, all[i], TYPE_SOA) {
        continue;
      }
      if ApexType(zone, all[i], TYPE_NS) {
        if all[i].cls != CLASS_ANY {
          nsDels := nsDels + [all[i]];
        }
      } else {
        early := early + [all[i]];
      }
    }
    assert all[..|all|] == all;
  }

  /** The flags the second loop sets on the way. */
  method FindWipes(zone: Name, deletes: seq<MsgRR>) returns (wipeNs: bool, wipeSoa: bool)
    ensures wipeNs == Wipes(zone, deletes, TYPE_NS) && wipeSoa == Wipes(zone, deletes, TYPE_SOA)
  {
    wipeNs, wipeSoa := false, false;
    for i := 0 to |deletes|
      invariant wipeNs == Wipes(zone, deletes[..i], TYPE_NS) && wipeSoa == Wipes(zone, deletes[..i], TYPE_SOA)
    {
      WipesNext(zone, deletes, i, TYPE_NS);
      WipesNext(zone, deletes, i, TYPE_SOA);
      var c := CopyDelete(deletes[i]);
      if c.cls == CLASS_ANY {
        wipeNs := wipeNs || ApexType(zone, c, TYPE_NS);
        wipeSoa := wipeSoa || ApexType(zone, c, TYPE_SOA);
      }
    }
    assert deletes[..|deletes|] == deletes;
  }

  lemma WipesNext(zone: Name, deletes: seq<MsgRR>, i: nat, t: nat)
    requires i < |deletes|
    ensures Wipes(zone, deletes[..i + 1], t)
       <==> Wipes(zone, deletes[..i], t) || (ApexType(zone, deletes[i], t) && deletes[i].cls == CLASS_ANY)
  {
    assert deletes[..i + 1] == deletes[..i] + [deletes[i]];
  }

  method HttpUpdatesLocked(zone: Name, rrs: seq<RR>, adds: seq<MsgRR>, deletes: seq<MsgRR>) returns (r: Rewritten)
    ensures r == HttpUpdates(zone, rrs, adds, deletes)
  {
    var nsAdds, soaAdds, otherAdds := SortAdds(zone, adds);
    var early, nsDels := SortDeletes(zone, deletes);
    var wipeNs, wipeSoa := FindWipes(zone, deletes);
    if wipeSoa && soaAdds == [] {
      return Rejected(CannotDeleteSoa);
    }
    if soaAdds != [] {
      var cur := FindSoa(rrs);
      if cur.None? {
        return Rejected(NoSoa);
      }
      if exists m :: m in soaAdds && m.rr.Rec? {
        return Rejected(InvalidSoa);
      }
      soaAdds := RaiseSerials(soaAdds, cur.value.serial);
    }
    if wipeNs {
      if nsAdds == [] {
        return Rejected(CannotDeleteApexNs);
      }
      nsDels := DropOld(RRsetOf(rrs, zone, TYPE_NS), nsAdds);
    }
    return Updates(early + otherAdds + soaAdds + nsAdds + nsDels);
  }
}
