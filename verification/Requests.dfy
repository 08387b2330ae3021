/**
 Sequences of requests of both kinds, updates on the wire (`serveUpdate`) and changes
 over HTTP (`Apply`), and what they keep.
 */
module Requests {
  import opened Collections
  import opened Serials
  import opened Records
  import opened UpdateEngine
  import opened ZoneUpdate
  import opened UpdateMeaning
  import opened HttpApply

  datatype Request = Wire(prereqs: seq<MsgRR>, updates: seq<MsgRR>) | Http(adds: seq<MsgRR>, deletes: seq<MsgRR>)

  /** The update section a request comes down to, if it is accepted. */
  ghost function Section(zone: Name, policy: Policy, rrs: seq<RR>, r: Request): Option<seq<MsgRR>> {
    match r
    case Wire(prereqs, updates) =>
      if PrereqsMet(zone, rrs, prereqs) && Prescan(zone, policy, true, updates) == NoError then Some(updates) else None
    case Http(adds, deletes) =>
      match HttpUpdates(zone, rrs, adds, deletes)
      case Rejected(_) => None
      case Updates(us) => if Prescan(zone, policy, false, us) == NoError then Some(us) else None
  }

  /** The zone after a request whose writes all succeed. */
  ghost function Served(zone: Name, policy: Policy, rrs: seq<RR>, r: Request): seq<RR> {
    match Section(zone, policy, rrs, r)
    case None => rrs
    case Some(us) => Advanced(zone, rrs, us)
  }

  ghost function ServedAll(zone: Name, policy: Policy, rrs: seq<RR>, rs: seq<Request>): seq<RR>
    decreases |rs|
  {
    if rs == [] then rrs else ServedAll(zone, policy, Served(zone, policy, rrs, rs[0]), rs[1..])
  }

  /** Every SOA the request adds is one of the apex. */
  predicate ApexSoasOnly(zone: Name, r: Request) {
    match r
    case Wire(_, updates) => SoasAtApex(zone, updates)
    case Http(adds, deletes) => SoasAtApex(zone, CopyAllIn(adds)) && SoasAtApex(zone, deletes)
  }

  lemma HttpSoasAtApex(zone: Name, rrs: seq<RR>, adds: seq<MsgRR>, deletes: seq<MsgRR>)
    requires SoasAtApex(zone, CopyAllIn(adds)) && SoasAtApex(zone, deletes) && HttpUpdates(zone, rrs, adds, deletes).Updates?
    ensures SoasAtApex(zone, HttpUpdates(zone, rrs, adds, deletes).us)
  {
    forall u | u in HttpUpdates(zone, rrs, adds, deletes).us && u.cls == CLASS_IN && u.rr.Soa? ensures u.rr.owner == zone {
      if u in EarlyDeletes(zone, deletes) {
        DeletesAtApex(zone, deletes, u);
      } else if u in RaiseSerials(SoaAdds(zone, adds), SerialOf(rrs)) {
        RaisedAtApex(zone, adds, SerialOf(rrs), u);
      } else if u in NsDeletes(zone, rrs, adds, deletes) {
        NsComesLast(zone, rrs, adds, deletes);
      }
    }
  }

  lemma DeletesAtApex(zone: Name, deletes: seq<MsgRR>, u: MsgRR)
    requires SoasAtApex(zone, deletes) && u in CopyAllDeletes(deletes) && u.cls == CLASS_IN && u.rr.Soa?
    ensures u.rr.owner == zone
  {
    var i :| 0 <= i < |deletes| && u == CopyDelete(deletes[i]);
    assert deletes[i] in deletes;
  }

  lemma RaisedAtApex(zone: Name, adds: seq<MsgRR>, current: Serial, u: MsgRR)
    requires u in RaiseSerials(SoaAdds(zone, adds), current)
    ensures u.rr.owner == zone
  {
    var soas := SoaAdds(zone, adds);
    var i :| 0 <= i < |soas| && u == RaiseSerial(soas[i], current);
    assert soas[i] in soas;
  }

  lemma SectionAtApex(zone: Name, policy: Policy, rrs: seq<RR>, r: Request)
    requires ApexSoasOnly(zone, r) && Section(zone, policy, rrs, r).Some?
    ensures var us := Section(zone, policy, rrs, r).value;
            SoasAtApex(zone, us) && forall u :: u in us ==> InZone(zone, u.rr.owner)
  {
    if r.Http? {
      HttpSoasAtApex(zone, rrs, r.adds, r.deletes);
    }
  }

  lemma InvServed(zone: Name, policy: Policy, rrs: seq<RR>, r: Request)
    requires ZoneInv(zone, rrs) && ApexSoasOnly(zone, r)
    ensures ZoneInv(zone, Served(zone, policy, rrs, r))
  {
    if Section(zone, policy, rrs, r).Some? {
      var us := Section(zone, policy, rrs, r).value;
      SectionAtApex(zone, policy, rrs, r);
      InvSection(zone, Applied(rrs, false), us);
      InvBump(zone, ApplySection(zone, rrs, us).rrs);
    }
  }

  /** Over every sequence of requests of both kinds, accepted or refused, whose added SOAs
      belong to the apex, the zone keeps one SOA at its apex, an apex NS, no identity twice,
      every owner in zone, and CNAME exclusivity. */
  lemma {:induction false} InvariantsOverAllRuns(zone: Name, policy: Policy, rrs: seq<RR>, rs: seq<Request>)
    requires ZoneInv(zone, rrs) && forall r :: r in rs ==> ApexSoasOnly(zone, r)
    ensures ZoneInv(zone, ServedAll(zone, policy, rrs, rs))
    decreases |rs|
  {
    if rs != [] {
      InvServed(zone, policy, rrs, rs[0]);
      InvariantsOverAllRuns(zone, policy, Served(zone, policy, rrs, rs[0]), rs[1..]);
    }
  }

  lemma WipeReplacesNs(zone: Name, policy: Policy, rrs: seq<RR>, adds: seq<MsgRR>, deletes: seq<MsgRR>)
    requires ApexSane(zone, rrs) && NsKeys(zone, rrs) != {} && Wipes(zone, deletes, TYPE_NS)
    requires Section(zone, policy, rrs, Http(adds, deletes)).Some?
    ensures NsKeys(zone, Served(zone, policy, rrs, Http(adds, deletes))) == AddedKeys(NsAdds(zone, adds))
  {
    NsSetIsReplaced(zone, rrs, adds, deletes);
    UnchangedMeansUntouched(zone, Applied(rrs, false), HttpUpdates(zone, rrs, adds, deletes).us);
  }

  /** On a zone meeting the invariants, an accepted request leaves, the SOA's serial aside,
      the records its section means; and an HTTP request that wipes the apex NS set leaves
      exactly the NS identities it adds. */
  lemma ServedMeans(zone: Name, policy: Policy, rrs: seq<RR>, r: Request)
    requires ZoneInv(zone, rrs) && Section(zone, policy, rrs, r).Some?
    ensures Data(Served(zone, policy, rrs, r)) == (set x | x in UpdatedAll(zone, Elems(rrs), Section(zone, policy, rrs, r).value) && x.Rec?)
    ensures r.Http? && Wipes(zone, r.deletes, TYPE_NS) ==>
              NsKeys(zone, Served(zone, policy, rrs, r)) == AddedKeys(NsAdds(zone, r.adds))
  {
    var us := Section(zone, policy, rrs, r).value;
    var a := ApplySection(zone, rrs, us);
    InvIsTidy(zone, rrs);
    SectionRefines(zone, Applied(rrs, false), us);
    UnchangedMeansUntouched(zone, Applied(rrs, false), us);
    BumpKeepsData(a.rrs);
    assert Data(a.rrs) == set x | x in Elems(a.rrs) && x.Rec?;
    if r.Http? && Wipes(zone, r.deletes, TYPE_NS) {
      InvIsSane(zone, rrs);
      WipeReplacesNs(zone, policy, rrs, r.adds, r.deletes);
    }
  }

  lemma BumpKeepsData(rrs: seq<RR>)
    ensures Data(BumpSerial(rrs)) == Data(rrs)
  {
    var i := SoaIndex(rrs);
    if i < |rrs| {
      var r := BumpSerial(rrs);
      forall x | x in Data(rrs) ensures x in Data(r) {
        var k :| 0 <= k < |rrs| && rrs[k] == x;
        assert r[k] == x;
      }
    }
  }
}
