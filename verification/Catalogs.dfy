/**
 Which zones a secondary serves, and who owns them: catalog members, zones started
 through the API and zones of the static configuration
 (secondary-persistent/catalog.go, runtime.go, zones.go; RFC 9432).
 */
module Catalogs {
  import opened Collections
  import opened Records
  import opened UpdateEngine

  /** Member IDs are labels; an API zone's ID is its own name. */
  type MemberId = seq<string>

  datatype Member = Member(zone: Name, id: MemberId, changeOfOwnership: Option<Name>)

  /** API zones are owned by the pseudo catalog "admin", which no origin can equal. */
  datatype Owner = Admin | Catalog(origin: Name)

  /** A transfer generation of a dynamic zone; `shutdown` is its channel. */
  datatype Dynamic = Dynamic(owner: Owner, memberId: MemberId, shutdown: nat)

  /** Zone objects and channels are numbered as they are made. */
  datatype Registry = Registry(
    zones: map<Name, Option<nat>>,
    names: seq<Name>,
    zoneNames: map<nat, Name>,
    dynamicZones: map<Name, Dynamic>,
    memberZones: map<Name, set<Name>>,
    open: set<nat>,
    content: map<nat, seq<RR>>,
    saved: map<Name, seq<RR>>,
    next: nat)

  /** The catalogs last parsed, and per catalog the zones its members may lie in. */
  datatype Config = Config(catalogs: map<Name, seq<Member>>, catalogZones: map<Name, seq<Name>>)

  predicate Allowed(cfg: Config, origin: Name, zone: Name) {
    origin in cfg.catalogZones
    && (cfg.catalogZones[origin] == [] || exists z :: z in cfg.catalogZones[origin] && InZone(z, zone))
  }

  /** The first member for the zone in a catalog. */
  function FindMember(members: seq<Member>, zone: Name): Option<Member> {
    if members == [] then None else if members[0].zone == zone then Some(members[0]) else FindMember(members[1..], zone)
  }

  function SourceMember(cfg: Config, owner: Owner, zone: Name): Option<Member> {
    if owner.Catalog? && owner.origin in cfg.catalogs then FindMember(cfg.catalogs[owner.origin], zone) else None
  }

  // ---------------------------------------------------------------- operations

  /** Stops the generation being replaced and drops its zone object from the reverse
      table, or enters a new name. */
  function DetachZone(r: Registry, zone: Name): Registry {
    r.(open := if zone in r.dynamicZones then r.open - {r.dynamicZones[zone].shutdown} else r.open,
       zoneNames := if zone in r.zones && r.zones[zone].Some? then r.zoneNames - {r.zones[zone].value} else r.zoneNames,
       names := if zone in r.zones then r.names else r.names + [zone])
  }

  function InstallZone(r: Registry, zone: Name, id: MemberId, owner: Owner, data: seq<RR>): Registry {
    var z := r.next;
    r.(zones := r.zones[zone := Some(z)],
       zoneNames := r.zoneNames[z := zone],
       dynamicZones := r.dynamicZones[zone := Dynamic(owner, id, z)],
       open := r.open + {z},
       content := r.content[z := data],
       next := z + 1)
  }

  function ContentOf(r: Registry, z: Option<nat>): seq<RR> {
    if z.Some? && z.value in r.content then r.content[z.value] else []
  }

  /** A new generation of `zone`, stopping the one before; the contents of `preserve`
      are carried over. */
  function ReplaceZone(r: Registry, zone: Name, id: MemberId, owner: Owner, preserve: Option<nat>): Registry {
    InstallZone(DetachZone(r, zone), zone, id, owner, ContentOf(r, preserve))
  }

  function RemoveName(names: seq<Name>, name: Name): seq<Name> {
    if names == [] then [] else if names[0] == name then names[1..] else [names[0]] + RemoveName(names[1..], name)
  }

  predicate Owns(r: Registry, owner: Owner, zone: Name) {
    zone in r.dynamicZones && r.dynamicZones[zone].owner == owner
  }

  function RemoveZone(r: Registry, zone: Name, owner: Owner): Registry {
    if !Owns(r, owner, zone) then r
    else
      r.(open := r.open - {r.dynamicZones[zone].shutdown},
         dynamicZones := r.dynamicZones - {zone},
         zoneNames := if zone in r.zones && r.zones[zone].Some? then r.zoneNames - {r.zones[zone].value} else r.zoneNames,
         zones := r.zones - {zone},
         names := RemoveName(r.names, zone))
  }

  function Forget(r: Registry, zone: Name): Registry {
    r.(saved := r.saved - {zone})
  }

  /** What a catalog does with one allowed member. */
  datatype Decision = Create | Leave | Reset | Migrate(preserve: bool)

  function Decide(r: Registry, cfg: Config, origin: Name, m: Member): Decision {
    if m.zone !in r.zones then Create
    else if m.zone !in r.dynamicZones || r.zones[m.zone].None? then Leave
    else
      var dyn := r.dynamicZones[m.zone];
      if dyn.owner == Catalog(origin) then (if dyn.memberId == m.id then Leave else Reset)
      else
        match SourceMember(cfg, dyn.owner, m.zone)
        case None => Leave
        case Some(source) =>
          if source.changeOfOwnership != Some(origin) then Leave
          else Migrate(dyn.memberId == source.id && source.id == m.id)
  }

  function Enact(r: Registry, origin: Name, m: Member, d: Decision): Registry {
    match d
    case Leave => r
    case Create => ReplaceZone(r, m.zone, m.id, Catalog(origin), None)
    case Reset => ReplaceZone(Forget(r, m.zone), m.zone, m.id, Catalog(origin), None)
    case Migrate(preserve) =>
      if preserve && m.zone in r.zones then ReplaceZone(r, m.zone, m.id, Catalog(origin), r.zones[m.zone])
      else ReplaceZone(Forget(r, m.zone), m.zone, m.id, Catalog(origin), None)
  }

  function ApplyMember(r: Registry, cfg: Config, origin: Name, m: Member): Registry {
    if Allowed(cfg, origin, m.zone) then Enact(r, origin, m, Decide(r, cfg, origin, m)) else r
  }

  function ApplyMembers(r: Registry, cfg: Config, origin: Name, members: seq<Member>): Registry
    decreases |members|
  {
    if members == [] then r else ApplyMembers(ApplyMember(r, cfg, origin, members[0]), cfg, origin, members[1..])
  }

  function AllowedZones(cfg: Config, origin: Name, members: seq<Member>): set<Name> {
    set m | m in members && Allowed(cfg, origin, m.zone) :: m.zone
  }

  function ListedBy(r: Registry, origin: Name): set<Name> {
    if origin in r.memberZones then r.memberZones[origin] else {}
  }

  function RemoveMember(r: Registry, zone: Name, origin: Name): Registry {
    if Owns(r, Catalog(origin), zone) then Forget(RemoveZone(r, zone, Catalog(origin)), zone) else r
  }

  function RemoveMembers(r: Registry, zones: seq<Name>, origin: Name): Registry
    decreases |zones|
  {
    if zones == [] then r else RemoveMembers(RemoveMember(r, zones[0], origin), zones[1..], origin)
  }

  /** `applyCatalog`; `order` is the order in which the map of former members happens
      to be walked. */
  function ApplyCatalog(r: Registry, cfg: Config, origin: Name, members: seq<Member>, order: seq<Name>): Registry {
    var r' := RemoveMembers(ApplyMembers(r, cfg, origin, members), order, origin);
    r'.(memberZones := r'.memberZones[origin := AllowedZones(cfg, origin, members)])
  }

  predicate WalksFormer(r: Registry, cfg: Config, origin: Name, members: seq<Member>, order: seq<Name>) {
    Elems(order) == ListedBy(r, origin) - AllowedZones(cfg, origin, members)
  }

  /** `loadIfPresent`: the stored copy of the zone becomes the contents of the object `z`,
      if there is one with a SOA; `ok` is the verdict of the store and of the zone builder. */
  function LoadZone(r: Registry, origin: Name, z: nat, ok: bool): Registry {
    if ok && origin in r.saved && SoaOf(r.saved[origin]).Some? then r.(content := r.content[z := r.saved[origin]]) else r
  }

  function StartZone(r: Registry, origin: Name, loadOk: bool): Registry {
    if origin in r.zones then r else LoadZone(ReplaceZone(r, origin, origin, Admin, None), origin, r.next, loadOk)
  }

  function StopZone(r: Registry, origin: Name): Registry {
    RemoveZone(r, origin, Admin)
  }

  // ---------------------------------------------------------------- the invariant

  /** `names` lists the served zones, each once; `zoneNames` is the inverse of `zones`. */
  ghost predicate Named(r: Registry) {
    && NoDup(r.names) && Elems(r.names) == r.zones.Keys
    && (forall n :: n in r.zones && r.zones[n].Some? ==> r.zones[n].value in r.zoneNames && r.zoneNames[r.zones[n].value] == n)
    && (forall z :: z in r.zoneNames ==> r.zoneNames[z] in r.zones && r.zones[r.zoneNames[z]] == Some(z))
  }

  /** The open channels are those of the current generations, one each. */
  ghost predicate Channelled(r: Registry) {
    && (forall n :: n in r.dynamicZones ==> n in r.zones && r.zones[n].Some? && r.dynamicZones[n].shutdown in r.open)
    && (forall c :: c in r.open ==> exists n :: n in r.dynamicZones && r.dynamicZones[n].shutdown == c)
    && (forall m, n :: m in r.dynamicZones && n in r.dynamicZones && r.dynamicZones[m].shutdown == r.dynamicZones[n].shutdown ==> m == n)
  }

  /** Numbers are handed out once. */
  ghost predicate Numbered(r: Registry) {
    && (forall z :: z in r.zoneNames ==> z < r.next && z in r.content)
    && (forall c :: c in r.open ==> c < r.next)
    && (forall z :: z in r.content ==> z < r.next)
  }

  /** Every zone a catalog owns is among its listed members, or (while `origin` is being
      applied) among the ones it now allows. */
  ghost predicate Listed(r: Registry, origin: Name, extra: set<Name>) {
    forall n :: n in r.dynamicZones && r.dynamicZones[n].owner.Catalog? ==>
      var o := r.dynamicZones[n].owner.origin;
      n in ListedBy(r, o) || (o == origin && n in extra)
  }

  ghost predicate Consistent(r: Registry) {
    Named(r) && Channelled(r) && Numbered(r)
  }

  ghost predicate RegistryInv(r: Registry) {
    Consistent(r) && Listed(r, [], {})
  }

  lemma ReplaceConsistent(r: Registry, zone: Name, id: MemberId, owner: Owner, preserve: Option<nat>)
    requires Consistent(r)
    ensures Consistent(ReplaceZone(r, zone, id, owner, preserve))
  {
    ReplaceNamed(r, zone, id, owner, preserve);
    ReplaceChannelled(r, zone, id, owner, preserve);
    ReplaceNumbered(r, zone, id, owner, preserve);
  }

  lemma ReplaceNumbered(r: Registry, zone: Name, id: MemberId, owner: Owner, preserve: Option<nat>)
    requires Numbered(r)
    ensures Numbered(ReplaceZone(r, zone, id, owner, preserve))
  {
  }

  lemma ReplaceNames(r: Registry, zone: Name)
    requires NoDup(r.names) && Elems(r.names) == r.zones.Keys
    ensures NoDup(DetachZone(r, zone).names) && Elems(DetachZone(r, zone).names) == r.zones.Keys + {zone}
  {
    if zone !in r.zones {
      assert zone !in Elems(r.names);
      NoDupConcat(r.names, [zone]);
      assert Elems(r.names + [zone]) == Elems(r.names) + {zone};
    }
  }

  lemma ReplaceNamed(r: Registry, zone: Name, id: MemberId, owner: Owner, preserve: Option<nat>)
    requires Named(r) && Numbered(r)
    ensures Named(ReplaceZone(r, zone, id, owner, preserve))
  {
    var r' := ReplaceZone(r, zone, id, owner, preserve);
    ReplaceNames(r, zone);
    assert r'.zones.Keys == r.zones.Keys + {zone};
  }

  lemma ReplaceChannelled(r: Registry, zone: Name, id: MemberId, owner: Owner, preserve: Option<nat>)
    requires Channelled(r) && Numbered(r)
    ensures Channelled(ReplaceZone(r, zone, id, owner, preserve))
  {
    var r' := ReplaceZone(r, zone, id, owner, preserve);
    forall c | c in r'.open ensures exists n :: n in r'.dynamicZones && r'.dynamicZones[n].shutdown == c {
      if c == r.next {
        assert r'.dynamicZones[zone].shutdown == c;
      } else {
        var n :| n in r.dynamicZones && r.dynamicZones[n].shutdown == c;
        assert n in r'.dynamicZones && r'.dynamicZones[n].shutdown == c;
      }
    }
  }

  lemma {:induction false} RemoveNameIs(names: seq<Name>, name: Name)
    requires NoDup(names)
    ensures NoDup(RemoveName(names, name)) && Elems(RemoveName(names, name)) == Elems(names) - {name}
  {
    if names != [] {
      RemoveNameIs(names[1..], name);
      assert Elems(names) == {names[0]} + Elems(names[1..]);
      if names[0] == name {
        assert name !in names[1..];
      } else {
        var tail := RemoveName(names[1..], name);
        assert names[0] !in Elems(tail);
        NoDupConcat([names[0]], tail);
        assert Elems([names[0]] + tail) == {names[0]} + Elems(tail);
      }
    }
  }

  lemma RemoveNamed(r: Registry, zone: Name, owner: Owner)
    requires Named(r) && Owns(r, owner, zone)
    ensures Named(RemoveZone(r, zone, owner))
  {
    var r' := RemoveZone(r, zone, owner);
    RemoveNameIs(r.names, zone);
    assert r'.zones.Keys == r.zones.Keys - {zone};
  }

  lemma RemoveChannelled(r: Registry, zone: Name, owner: Owner)
    requires Channelled(r) && Owns(r, owner, zone)
    ensures Channelled(RemoveZone(r, zone, owner))
  {
    var r' := RemoveZone(r, zone, owner);
    forall c | c in r'.open ensures exists n :: n in r'.dynamicZones && r'.dynamicZones[n].shutdown == c {
      var n :| n in r.dynamicZones && r.dynamicZones[n].shutdown == c;
      assert n in r'.dynamicZones && r'.dynamicZones[n].shutdown == c;
    }
  }

  lemma RemoveNumbered(r: Registry, zone: Name, owner: Owner)
    requires Numbered(r)
    ensures Numbered(RemoveZone(r, zone, owner))
  {
  }

  lemma RemoveConsistent(r: Registry, zone: Name, owner: Owner)
    requires Consistent(r)
    ensures Consistent(RemoveZone(r, zone, owner))
  {
    if Owns(r, owner, zone) {
      RemoveNamed(r, zone, owner);
      RemoveChannelled(r, zone, owner);
      RemoveNumbered(r, zone, owner);
    }
  }

  lemma ReplaceStep(r: Registry, zone: Name, id: MemberId, owner: Owner, preserve: Option<nat>, origin: Name, extra: set<Name>)
    requires Consistent(r) && Listed(r, origin, extra) && (owner.Catalog? ==> owner.origin == origin && zone in extra)
    ensures var r' := ReplaceZone(r, zone, id, owner, preserve);
            Consistent(r') && Listed(r', origin, extra) && r'.memberZones == r.memberZones
  {
    ReplaceConsistent(r, zone, id, owner, preserve);
  }

  lemma ForgetStep(r: Registry, zone: Name, origin: Name, extra: set<Name>)
    requires Consistent(r) && Listed(r, origin, extra)
    ensures Consistent(Forget(r, zone)) && Listed(Forget(r, zone), origin, extra)
  {
  }

  lemma EnactStep(r: Registry, origin: Name, m: Member, d: Decision, extra: set<Name>)
    requires Consistent(r) && Listed(r, origin, extra) && m.zone in extra
    ensures var r' := Enact(r, origin, m, d);
            Consistent(r') && Listed(r', origin, extra) && r'.memberZones == r.memberZones
  {
    ForgetStep(r, m.zone, origin, extra);
    if d == Create {
      ReplaceStep(r, m.zone, m.id, Catalog(origin), None, origin, extra);
    } else if d.Migrate? && d.preserve && m.zone in r.zones {
      ReplaceStep(r, m.zone, m.id, Catalog(origin), r.zones[m.zone], origin, extra);
    } else if d != Leave {
      ReplaceStep(Forget(r, m.zone), m.zone, m.id, Catalog(origin), None, origin, extra);
    }
  }

  lemma MemberStep(r: Registry, cfg: Config, origin: Name, m: Member, extra: set<Name>)
    requires Consistent(r) && Listed(r, origin, extra)
    requires Allowed(cfg, origin, m.zone) ==> m.zone in extra
    ensures var r' := ApplyMember(r, cfg, origin, m);
            Consistent(r') && Listed(r', origin, extra) && r'.memberZones == r.memberZones
  {
    if Allowed(cfg, origin, m.zone) {
      EnactStep(r, origin, m, Decide(r, cfg, origin, m), extra);
    }
  }

  lemma {:induction false} MembersStep(r: Registry, cfg: Config, origin: Name, members: seq<Member>, extra: set<Name>)
    requires Consistent(r) && Listed(r, origin, extra) && AllowedZones(cfg, origin, members) <= extra
    ensures var r' := ApplyMembers(r, cfg, origin, members);
            Consistent(r') && Listed(r', origin, extra) && r'.memberZones == r.memberZones
    decreases |members|
  {
    if members != [] {
      MemberStep(r, cfg, origin, members[0], extra);
      MembersStep(ApplyMember(r, cfg, origin, members[0]), cfg, origin, members[1..], extra);
    }
  }

  /** What removing one former member leaves. */
  ghost predicate Shrunk(r: Registry, r': Registry) {
    && r'.memberZones == r.memberZones
    && forall n :: n in r'.dynamicZones ==> n in r.dynamicZones && r'.dynamicZones[n] == r.dynamicZones[n]
  }

  lemma RemovalStep(r: Registry, zone: Name, origin: Name)
    requires Consistent(r)
    ensures var r' := RemoveMember(r, zone, origin);
            Consistent(r') && Shrunk(r, r') && !Owns(r', Catalog(origin), zone)
  {
    RemoveConsistent(r, zone, Catalog(origin));
  }

  lemma {:induction false} RemovalsStep(r: Registry, zones: seq<Name>, origin: Name)
    requires Consistent(r)
    ensures var r' := RemoveMembers(r, zones, origin);
            Consistent(r') && Shrunk(r, r') && forall n :: n in zones ==> !Owns(r', Catalog(origin), n)
    decreases |zones|
  {
    if zones != [] {
      RemovalStep(r, zones[0], origin);
      RemovalsStep(RemoveMember(r, zones[0], origin), zones[1..], origin);
    }
  }

  lemma CatalogKeepsInv(r: Registry, cfg: Config, origin: Name, members: seq<Member>, order: seq<Name>)
    requires RegistryInv(r) && WalksFormer(r, cfg, origin, members, order)
    ensures RegistryInv(ApplyCatalog(r, cfg, origin, members, order))
  {
    var extra := AllowedZones(cfg, origin, members);
    MembersStep(r, cfg, origin, members, extra);
    var r1 := ApplyMembers(r, cfg, origin, members);
    RemovalsStep(r1, order, origin);
    ListNew(r, r1, RemoveMembers(r1, order, origin), origin, extra, order);
  }

  /** Entering the new list of members, once the former ones are gone. */
  lemma ListNew(r: Registry, r1: Registry, r2: Registry, origin: Name, extra: set<Name>, order: seq<Name>)
    requires Consistent(r2) && Shrunk(r1, r2) && Listed(r1, origin, extra) && r1.memberZones == r.memberZones
    requires Elems(order) == ListedBy(r, origin) - extra && forall n :: n in order ==> !Owns(r2, Catalog(origin), n)
    ensures RegistryInv(r2.(memberZones := r2.memberZones[origin := extra]))
  {
    var r3 := r2.(memberZones := r2.memberZones[origin := extra]);
    assert Consistent(r3);
    forall n | n in r3.dynamicZones && r3.dynamicZones[n].owner.Catalog? ensures n in ListedBy(r3, r3.dynamicZones[n].owner.origin) {
      assert r1.dynamicZones[n] == r2.dynamicZones[n];
      if r3.dynamicZones[n].owner == Catalog(origin) {
        assert n !in Elems(order);
      }
    }
  }

  // ---------------------------------------------------------------- all runs

  datatype Action =
    | Apply(cfg: Config, origin: Name, members: seq<Member>, order: seq<Name>)
    | Load(zone: Name, z: nat, ok: bool)
    | Start(zone: Name, loadOk: bool)
    | Stop(zone: Name)

  function Act(r: Registry, a: Action): Registry {
    match a
    case Apply(cfg, origin, members, order) => ApplyCatalog(r, cfg, origin, members, order)
    case Load(zone, z, ok) => LoadZone(r, zone, z, ok)
    case Start(zone, loadOk) => StartZone(r, zone, loadOk)
    case Stop(zone) => StopZone(r, zone)
  }

  predicate Possible(r: Registry, a: Action) {
    && (a.Apply? ==> WalksFormer(r, a.cfg, a.origin, a.members, a.order))
    && (a.Load? ==> a.z in r.content)
  }

  lemma LoadKeepsInv(r: Registry, zone: Name, z: nat, ok: bool)
    requires RegistryInv(r) && z in r.content
    ensures RegistryInv(LoadZone(r, zone, z, ok))
  {
  }

  lemma ActKeepsInv(r: Registry, a: Action)
    requires RegistryInv(r) && Possible(r, a)
    ensures RegistryInv(Act(r, a))
  {
    match a
    case Apply(cfg, origin, members, order) => CatalogKeepsInv(r, cfg, origin, members, order);
    case Load(zone, z, ok) => LoadKeepsInv(r, zone, z, ok);
    case Start(zone, loadOk) =>
      ReplaceStep(r, zone, zone, Admin, None, [], {});
      LoadKeepsInv(ReplaceZone(r, zone, zone, Admin, None), zone, r.next, loadOk);
    case Stop(zone) => RemoveConsistent(r, zone, Admin);
  }

  /** `run` is a run of the registry under `actions`. */
  ghost predicate IsRun(run: seq<Registry>, actions: seq<Action>) {
    && |run| == |actions| + 1 && RegistryInv(run[0])
    && forall i :: 0 <= i < |actions| ==> Possible(run[i], actions[i]) && run[i + 1] == Act(run[i], actions[i])
  }

  /** In every state reached by applying catalogs, loading stored zones, and starting and
      stopping API zones, in any order and with any contents, the five tables agree with each other. */
  lemma {:induction false} InvariantOverAllRuns(run: seq<Registry>, actions: seq<Action>, k: nat)
    requires IsRun(run, actions) && k < |run|
    ensures RegistryInv(run[k])
  {
    if k > 0 {
      InvariantOverAllRuns(run, actions, k - 1);
      ActKeepsInv(run[k - 1], actions[k - 1]);
      assert run[k - 1 + 1] == Act(run[k - 1], actions[k - 1]);
    }
  }

  // ---------------------------------------------------------------- what one catalog does to one zone

  /** Everything the registry holds about one name. */
  datatype Slot = Slot(zone: Option<Option<nat>>, dyn: Option<Dynamic>, content: seq<RR>, saved: Option<seq<RR>>)

  function SlotOf(r: Registry, n: Name): Slot {
    Slot(if n in r.zones then Some(r.zones[n]) else None,
         if n in r.dynamicZones then Some(r.dynamicZones[n]) else None,
         if n in r.zones && r.zones[n].Some? && r.zones[n].value in r.content then r.content[r.zones[n].value] else [],
         if n in r.saved then Some(r.saved[n]) else None)
  }

  lemma ReplaceFrame(r: Registry, zone: Name, id: MemberId, owner: Owner, preserve: Option<nat>, n: Name)
    requires Named(r) && Numbered(r) && n != zone
    ensures SlotOf(ReplaceZone(r, zone, id, owner, preserve), n) == SlotOf(r, n)
  {
  }

  lemma MemberFrame(r: Registry, cfg: Config, origin: Name, m: Member, n: Name)
    requires Numbered(r) && Named(r) && (m.zone != n || !Allowed(cfg, origin, n))
    ensures SlotOf(ApplyMember(r, cfg, origin, m), n) == SlotOf(r, n)
  {
    if Allowed(cfg, origin, m.zone) {
      var d, f := Decide(r, cfg, origin, m), Forget(r, m.zone);
      if d == Create {
        ReplaceFrame(r, m.zone, m.id, Catalog(origin), None, n);
      } else if d.Migrate? && d.preserve && m.zone in r.zones {
        ReplaceFrame(r, m.zone, m.id, Catalog(origin), r.zones[m.zone], n);
      } else if d != Leave {
        assert SlotOf(f, n) == SlotOf(r, n);
        ReplaceFrame(f, m.zone, m.id, Catalog(origin), None, n);
      }
    }
  }

  /** `after` is a new generation owned by `origin` for member `m`, holding `content`. */
  predicate NewGeneration(after: Slot, origin: Name, m: Member, content: seq<RR>, saved: Option<seq<RR>>) {
    && after.zone.Some? && after.zone.value.Some?
    && after.dyn.Some? && after.dyn.value.owner == Catalog(origin) && after.dyn.value.memberId == m.id
    && after.content == content && after.saved == saved
  }

  /** Zone data survives a migration exactly when it is preserved; a reset forgets the
      stored copy as well. */
  predicate Enacted(before: Slot, after: Slot, origin: Name, m: Member, d: Decision) {
    match d
    case Leave => after == before
    case Create => NewGeneration(after, origin, m, [], before.saved)
    case Reset => NewGeneration(after, origin, m, [], None)
    case Migrate(preserve) =>
      if preserve then NewGeneration(after, origin, m, before.content, before.saved) else NewGeneration(after, origin, m, [], None)
  }

  lemma ReplacedSlot(r: Registry, m: Member, origin: Name, preserve: Option<nat>)
    ensures NewGeneration(SlotOf(ReplaceZone(r, m.zone, m.id, Catalog(origin), preserve), m.zone), origin, m,
                          ContentOf(r, preserve), SlotOf(r, m.zone).saved)
  {
  }

  lemma MemberEffect(r: Registry, cfg: Config, origin: Name, m: Member)
    requires Allowed(cfg, origin, m.zone)
    ensures Enacted(SlotOf(r, m.zone), SlotOf(ApplyMember(r, cfg, origin, m), m.zone), origin, m, Decide(r, cfg, origin, m))
  {
    var d := Decide(r, cfg, origin, m);
    if d == Create {
      ReplacedSlot(r, m, origin, None);
    } else if d.Migrate? && d.preserve {
      ReplacedSlot(r, m, origin, r.zones[m.zone]);
    } else if d != Leave {
      ReplacedSlot(Forget(r, m.zone), m, origin, None);
    }
  }

  /** The decision depends on nothing but what is held about the member's own zone. */
  lemma DecideLocal(r: Registry, s: Registry, cfg: Config, origin: Name, m: Member)
    requires SlotOf(r, m.zone) == SlotOf(s, m.zone)
    ensures Decide(r, cfg, origin, m) == Decide(s, cfg, origin, m)
  {
    assert SlotOf(r, m.zone).zone == SlotOf(s, m.zone).zone && SlotOf(r, m.zone).dyn == SlotOf(s, m.zone).dyn;
  }

  predicate DistinctMembers(members: seq<Member>) {
    forall i, j :: 0 <= i < j < |members| ==> members[i].zone != members[j].zone
  }

  lemma {:induction false} MembersFrame(r: Registry, cfg: Config, origin: Name, members: seq<Member>, n: Name)
    requires Consistent(r) && forall m :: m in members ==> m.zone != n || !Allowed(cfg, origin, n)
    ensures SlotOf(ApplyMembers(r, cfg, origin, members), n) == SlotOf(r, n)
    decreases |members|
  {
    if members != [] {
      assert members[0] in members;
      MemberFrame(r, cfg, origin, members[0], n);
      ApplyMemberConsistent(r, cfg, origin, members[0]);
      MembersFrame(ApplyMember(r, cfg, origin, members[0]), cfg, origin, members[1..], n);
    }
  }

  lemma ApplyMemberConsistent(r: Registry, cfg: Config, origin: Name, m: Member)
    requires Consistent(r)
    ensures Consistent(ApplyMember(r, cfg, origin, m))
  {
    EnactConsistent(r, origin, m, Decide(r, cfg, origin, m));
  }

  lemma EnactConsistent(r: Registry, origin: Name, m: Member, d: Decision)
    requires Consistent(r)
    ensures Consistent(Enact(r, origin, m, d))
  {
    if d == Create {
      ReplaceConsistent(r, m.zone, m.id, Catalog(origin), None);
    } else if d.Migrate? && d.preserve && m.zone in r.zones {
      ReplaceConsistent(r, m.zone, m.id, Catalog(origin), r.zones[m.zone]);
    } else if d != Leave {
      assert Consistent(Forget(r, m.zone));
      ReplaceConsistent(Forget(r, m.zone), m.zone, m.id, Catalog(origin), None);
    }
  }

  lemma {:induction false} MembersEffect(r: Registry, cfg: Config, origin: Name, members: seq<Member>, m: Member)
    requires Consistent(r) && DistinctMembers(members) && m in members && Allowed(cfg, origin, m.zone)
    ensures Enacted(SlotOf(r, m.zone), SlotOf(ApplyMembers(r, cfg, origin, members), m.zone), origin, m, Decide(r, cfg, origin, m))
    decreases |members|
  {
    var r1 := ApplyMember(r, cfg, origin, members[0]);
    ApplyMemberConsistent(r, cfg, origin, members[0]);
    if members[0] == m {
      MemberEffect(r, cfg, origin, m);
      MembersFrame(r1, cfg, origin, members[1..], m.zone);
    } else {
      assert m in members[1..];
      MemberFrame(r, cfg, origin, members[0], m.zone);
      DecideLocal(r, r1, cfg, origin, m);
      MembersEffect(r1, cfg, origin, members[1..], m);
    }
  }

  lemma RemoveFrame(r: Registry, zone: Name, origin: Name, n: Name)
    requires Consistent(r)
    ensures var r' := RemoveMember(r, zone, origin);
            if n == zone && Owns(r, Catalog(origin), n) then SlotOf(r', n) == Slot(None, None, [], None)
            else SlotOf(r', n) == SlotOf(r, n)
  {
  }

  lemma {:induction false} RemovalsFrame(r: Registry, zones: seq<Name>, origin: Name, n: Name)
    requires Consistent(r)
    ensures var r' := RemoveMembers(r, zones, origin);
            if n in zones && Owns(r, Catalog(origin), n) then SlotOf(r', n) == Slot(None, None, [], None)
            else SlotOf(r', n) == SlotOf(r, n)
    decreases |zones|
  {
    if zones != [] {
      RemoveFrame(r, zones[0], origin, n);
      RemoveConsistent(r, zones[0], Catalog(origin));
      var r1 := RemoveMember(r, zones[0], origin);
      assert Consistent(r1);
      assert Owns(r1, Catalog(origin), n) ==> SlotOf(r1, n).dyn.Some?;
      RemovalsFrame(r1, zones[1..], origin, n);
    }
  }

  /** Applying a catalog with distinct members, name by name: an allowed member gets
      exactly what was decided for it in the state before; a zone this catalog owned and
      no longer allows is gone, stored copy included; every other zone, static, API or of
      another catalog, is left exactly as it was. */
  lemma CatalogEffect(r: Registry, cfg: Config, origin: Name, members: seq<Member>, order: seq<Name>, n: Name)
    requires RegistryInv(r) && WalksFormer(r, cfg, origin, members, order) && DistinctMembers(members)
    ensures var after := SlotOf(ApplyCatalog(r, cfg, origin, members, order), n);
            && (forall m :: m in members && m.zone == n && Allowed(cfg, origin, n) ==>
                  Enacted(SlotOf(r, n), after, origin, m, Decide(r, cfg, origin, m)))
            && (n !in AllowedZones(cfg, origin, members) ==>
                  after == if Owns(r, Catalog(origin), n) then Slot(None, None, [], None) else SlotOf(r, n))
  {
    var extra := AllowedZones(cfg, origin, members);
    MembersStep(r, cfg, origin, members, extra);
    var r1 := ApplyMembers(r, cfg, origin, members);
    RemovalsFrame(r1, order, origin, n);
    var r2 := RemoveMembers(r1, order, origin);
    assert SlotOf(ApplyCatalog(r, cfg, origin, members, order), n) == SlotOf(r2, n);
    if n in extra {
      assert n !in Elems(order);
      forall m | m in members && m.zone == n && Allowed(cfg, origin, n)
        ensures Enacted(SlotOf(r, n), SlotOf(r2, n), origin, m, Decide(r, cfg, origin, m))
      {
        MembersEffect(r, cfg, origin, members, m);
      }
    } else {
      MembersFrame(r, cfg, origin, members, n);
      assert SlotOf(r1, n).dyn == SlotOf(r, n).dyn;
      if Owns(r, Catalog(origin), n) {
        assert n in ListedBy(r, origin) && n in Elems(order);
      }
    }
  }

  /** Entry k is the first one for zone `n`. */
  predicate FirstFor(members: seq<Member>, n: Name, k: int) {
    0 <= k < |members| && members[k].zone == n && forall i :: 0 <= i < k ==> members[i].zone != n
  }

  /** The zone is owned by another catalog, and the first entry for it there, `source`, hands
      it over to `origin`. */
  ghost predicate HandsOver(r: Registry, cfg: Config, origin: Name, n: Name, source: Member) {
    && n in r.dynamicZones && r.dynamicZones[n].owner.Catalog? && r.dynamicZones[n].owner.origin != origin
    && var o := r.dynamicZones[n].owner.origin;
       && o in cfg.catalogs
       && (exists k :: FirstFor(cfg.catalogs[o], n, k) && source == cfg.catalogs[o][k])
       && source.changeOfOwnership == Some(origin)
  }

  ghost predicate HandedOver(r: Registry, cfg: Config, origin: Name, n: Name) {
    exists source :: HandsOver(r, cfg, origin, n, source)
  }

  lemma {:induction false} FindMemberIs(members: seq<Member>, n: Name)
    ensures FindMember(members, n).None? <==> forall k :: !FirstFor(members, n, k)
    ensures forall k :: FirstFor(members, n, k) ==> FindMember(members, n) == Some(members[k])
  {
    if members != [] {
      var rest := members[1..];
      FindMemberIs(rest, n);
      if members[0].zone == n {
        assert FirstFor(members, n, 0);
      } else {
        forall k ensures FirstFor(members, n, k) <==> FirstFor(rest, n, k - 1) {
        }
        assert forall k :: FirstFor(rest, n, k) ==> FirstFor(members, n, k + 1);
      }
    }
  }

  lemma HandsOverMeans(r: Registry, cfg: Config, origin: Name, n: Name, source: Member)
    requires n in r.dynamicZones && r.dynamicZones[n].owner != Catalog(origin)
    ensures HandsOver(r, cfg, origin, n, source) <==>
            SourceMember(cfg, r.dynamicZones[n].owner, n) == Some(source) && source.changeOfOwnership == Some(origin)
  {
    var owner := r.dynamicZones[n].owner;
    if owner.Catalog? && owner.origin in cfg.catalogs {
      FindMemberIs(cfg.catalogs[owner.origin], n);
    }
  }

  /** Members may lie anywhere, or only in the zones configured for the catalog. */
  ghost predicate Admits(cfg: Config, origin: Name, n: Name) {
    && origin in cfg.catalogZones
    && (cfg.catalogZones[origin] == [] || exists z :: z in cfg.catalogZones[origin] && |z| <= |n| && n[|n| - |z|..] == z)
  }

  /** What applying a catalog does to one member of it, told on the state before. A new zone
      is created, empty. A zone of this catalog stays exactly as it is, generation and all,
      if its member ID is the same, and otherwise starts again empty, its stored copy gone.
      A zone another catalog hands over goes over with its contents and stored copy if the
      active, source and target IDs agree, and otherwise empty with its stored copy gone. A
      member that is not admitted leaves a zone of another owner alone, and so does one for a
      static zone, an API zone, or a zone of another catalog that does not hand it over. */
  lemma MemberOutcome(r: Registry, cfg: Config, origin: Name, members: seq<Member>, order: seq<Name>, m: Member)
    requires RegistryInv(r) && WalksFormer(r, cfg, origin, members, order) && DistinctMembers(members) && m in members
    ensures var n := m.zone;
            var before, after := SlotOf(r, n), SlotOf(ApplyCatalog(r, cfg, origin, members, order), n);
            && (Admits(cfg, origin, n) && n !in r.zones ==> NewGeneration(after, origin, m, [], before.saved))
            && (Admits(cfg, origin, n) && Owns(r, Catalog(origin), n) ==>
                  && (after == before <==> r.dynamicZones[n].memberId == m.id)
                  && (r.dynamicZones[n].memberId != m.id ==> NewGeneration(after, origin, m, [], None)))
            && (forall source :: Admits(cfg, origin, n) && HandsOver(r, cfg, origin, n, source) ==>
                  if r.dynamicZones[n].memberId == source.id && source.id == m.id
                  then NewGeneration(after, origin, m, before.content, before.saved)
                  else NewGeneration(after, origin, m, [], None))
            && (n in r.zones && !Owns(r, Catalog(origin), n) && (!Admits(cfg, origin, n) || !HandedOver(r, cfg, origin, n)) ==>
                  after == before)
  {
    CatalogEffect(r, cfg, origin, members, order, m.zone);
    assert Admits(cfg, origin, m.zone) <==> Allowed(cfg, origin, m.zone);
    if Allowed(cfg, origin, m.zone) {
      DecidedOutcome(r, cfg, origin, m, SlotOf(ApplyCatalog(r, cfg, origin, members, order), m.zone));
    } else {
      NotAllowed(cfg, origin, members, m);
    }
  }

  lemma NotAllowed(cfg: Config, origin: Name, members: seq<Member>, m: Member)
    requires !Allowed(cfg, origin, m.zone)
    ensures m.zone !in AllowedZones(cfg, origin, members)
  {
  }

  lemma DecidedOutcome(r: Registry, cfg: Config, origin: Name, m: Member, after: Slot)
    requires RegistryInv(r) && Enacted(SlotOf(r, m.zone), after, origin, m, Decide(r, cfg, origin, m))
    ensures var n, before := m.zone, SlotOf(r, m.zone);
            && (n !in r.zones ==> NewGeneration(after, origin, m, [], before.saved))
            && (Owns(r, Catalog(origin), n) ==>
                  && (after == before <==> r.dynamicZones[n].memberId == m.id)
                  && (r.dynamicZones[n].memberId != m.id ==> NewGeneration(after, origin, m, [], None)))
            && (forall source :: HandsOver(r, cfg, origin, n, source) ==>
                  if r.dynamicZones[n].memberId == source.id && source.id == m.id
                  then NewGeneration(after, origin, m, before.content, before.saved)
                  else NewGeneration(after, origin, m, [], None))
            && (n in r.zones && !Owns(r, Catalog(origin), n) && !HandedOver(r, cfg, origin, n) ==> after == before)
  {
    var n := m.zone;
    if n in r.dynamicZones {
      assert n in r.zones && r.zones[n].Some?;
      if !Owns(r, Catalog(origin), n) {
        var found := SourceMember(cfg, r.dynamicZones[n].owner, n);
        forall source ensures HandsOver(r, cfg, origin, n, source) <==> found == Some(source) && source.changeOfOwnership == Some(origin) {
          HandsOverMeans(r, cfg, origin, n, source);
        }
      }
    }
  }

  /** Ownership after applying a catalog, in one line: a catalog owns the allowed members
      that were new, already its own, or handed to it; and every allowed member is served. */
  lemma CatalogOwnsIff(r: Registry, cfg: Config, origin: Name, members: seq<Member>, order: seq<Name>, n: Name)
    requires RegistryInv(r) && WalksFormer(r, cfg, origin, members, order) && DistinctMembers(members)
    ensures var r' := ApplyCatalog(r, cfg, origin, members, order);
            && (Owns(r', Catalog(origin), n) <==>
                  n in AllowedZones(cfg, origin, members)
                  && (n !in r.zones || Owns(r, Catalog(origin), n) || HandedOver(r, cfg, origin, n)))
            && (n in AllowedZones(cfg, origin, members) ==> n in r'.zones)
  {
    CatalogEffect(r, cfg, origin, members, order, n);
    var r' := ApplyCatalog(r, cfg, origin, members, order);
    SlotOwner(r, origin, n);
    SlotOwner(r', origin, n);
    if n in AllowedZones(cfg, origin, members) {
      var m :| m in members && m.zone == n && Allowed(cfg, origin, n);
      DecidedOwner(r, cfg, origin, m, SlotOf(r', n));
    }
  }

  lemma SlotOwner(r: Registry, origin: Name, n: Name)
    ensures Owns(r, Catalog(origin), n) <==> SlotOf(r, n).dyn.Some? && SlotOf(r, n).dyn.value.owner == Catalog(origin)
    ensures n in r.zones <==> SlotOf(r, n).zone.Some?
  {
  }

  lemma DecidedOwner(r: Registry, cfg: Config, origin: Name, m: Member, after: Slot)
    requires RegistryInv(r) && Enacted(SlotOf(r, m.zone), after, origin, m, Decide(r, cfg, origin, m))
    ensures after.zone.Some?
    ensures (after.dyn.Some? && after.dyn.value.owner == Catalog(origin)) <==>
            (m.zone !in r.zones || Owns(r, Catalog(origin), m.zone) || HandedOver(r, cfg, origin, m.zone))
  {
    SlotOwner(r, origin, m.zone);
    DecidedOutcome(r, cfg, origin, m, after);
  }

  /** Stopping an API zone takes it out of every table and closes its channel; it touches no
      other zone, and no zone at all that is not an API zone. */
  lemma StopOutcome(r: Registry, zone: Name, n: Name)
    requires RegistryInv(r)
    ensures var r' := StopZone(r, zone);
            && (zone in r.dynamicZones && r.dynamicZones[zone].owner == Admin ==>
                  && zone !in r'.zones && zone !in r'.names && zone !in r'.dynamicZones
                  && r.dynamicZones[zone].shutdown !in r'.open
                  && (forall z :: z in r'.zoneNames ==> r'.zoneNames[z] != zone))
            && (!(zone in r.dynamicZones && r.dynamicZones[zone].owner == Admin) ==> r' == r)
            && (n != zone ==> SlotOf(r', n) == SlotOf(r, n))
  {
    if Owns(r, Admin, zone) {
      RemoveNameIs(r.names, zone);
      RemoveConsistent(r, zone, Admin);
      assert zone !in Elems(RemoveName(r.names, zone));
    }
  }

  /** Starting a zone that is not served installs it for the API, holding the stored copy if
      that can be loaded and has a SOA, and nothing otherwise; starting one that is served
      changes nothing; no other zone is touched. */
  lemma StartOutcome(r: Registry, zone: Name, loadOk: bool, n: Name)
    requires RegistryInv(r)
    ensures var r', after := StartZone(r, zone, loadOk), SlotOf(StartZone(r, zone, loadOk), zone);
            && (zone in r.zones ==> r' == r)
            && (zone !in r.zones ==>
                  && after.zone.Some? && after.zone.value.Some? && zone in r'.names
                  && after.dyn.Some? && after.dyn.value.owner == Admin && after.dyn.value.memberId == zone
                  && after.dyn.value.shutdown in r'.open
                  && after.saved == SlotOf(r, zone).saved
                  && after.content == if loadOk && zone in r.saved && SoaOf(r.saved[zone]).Some? then r.saved[zone] else [])
            && (n != zone ==> SlotOf(r', n) == SlotOf(r, n))
  {
    if zone !in r.zones && n != zone {
      ReplaceFrame(r, zone, zone, Admin, None, n);
      assert n in r.zones && r.zones[n].Some? ==> r.zones[n].value < r.next;
    }
  }

  // ---------------------------------------------------------------- transfers to start

  /** A zone whose transfer loop is to be started. */
  datatype ZoneStart = ZoneStart(origin: Name, zone: nat, hasData: bool)

  /** The transfers applying the members starts, in order. */
  function Starts(r: Registry, cfg: Config, origin: Name, members: seq<Member>): seq<ZoneStart>
    decreases |members|
  {
    if members == [] then []
    else
      StartOf(r, ApplyMember(r, cfg, origin, members[0]), members[0].zone)
      + Starts(ApplyMember(r, cfg, origin, members[0]), cfg, origin, members[1..])
  }

  /** The transfer to start when `r` has become `r'`: one, if a generation was made. */
  function StartOf(r: Registry, r': Registry, zone: Name): seq<ZoneStart> {
    if r'.next == r.next then [] else [ZoneStart(zone, r.next, SoaOf(ContentOf(r', Some(r.next))).Some?)]
  }

  lemma StartsStep(starts: seq<ZoneStart>, r: Registry, cfg: Config, origin: Name, members: seq<Member>, i: nat)
    requires i < |members|
    ensures var r' := ApplyMember(r, cfg, origin, members[i]);
            && ApplyMembers(r, cfg, origin, members[i..]) == ApplyMembers(r', cfg, origin, members[i + 1..])
            && starts + Starts(r, cfg, origin, members[i..]) == starts + StartOf(r, r', members[i].zone) + Starts(r', cfg, origin, members[i + 1..])
  {
    var r' := ApplyMember(r, cfg, origin, members[i]);
    assert members[i..][0] == members[i] && members[i..][1..] == members[i + 1..];
    Associate(starts, StartOf(r, r', members[i].zone), Starts(r', cfg, origin, members[i + 1..]), []);
  }

  lemma MemberZones(r: Registry, cfg: Config, origin: Name, m: Member, n: Name)
    ensures var r' := ApplyMember(r, cfg, origin, m);
            && (r' == r || (r'.next == r.next + 1 && r'.zones == r.zones[m.zone := Some(r.next)]))
            && (n in r'.zones && r'.zones[n].Some? && r'.zones[n].value < r.next ==> n in r.zones && r.zones[n] == r'.zones[n])
  {
    EnactZones(r, origin, m, Decide(r, cfg, origin, m));
  }

  lemma EnactZones(r: Registry, origin: Name, m: Member, d: Decision)
    ensures var r' := Enact(r, origin, m, d);
            r' == r || (r'.next == r.next + 1 && r'.zones == r.zones[m.zone := Some(r.next)])
  {
    ReplaceZones(r, m.zone, m.id, Catalog(origin), None);
    ReplaceZones(Forget(r, m.zone), m.zone, m.id, Catalog(origin), None);
    if m.zone in r.zones {
      ReplaceZones(r, m.zone, m.id, Catalog(origin), r.zones[m.zone]);
    }
  }

  lemma ReplaceZones(r: Registry, zone: Name, id: MemberId, owner: Owner, preserve: Option<nat>)
    ensures var r' := ReplaceZone(r, zone, id, owner, preserve);
            r'.next == r.next + 1 && r'.zones == r.zones[zone := Some(r.next)]
  {
  }

  /** An object is either new or was there before. */
  lemma {:induction false} MembersZones(r: Registry, cfg: Config, origin: Name, members: seq<Member>, n: Name)
    ensures var r' := ApplyMembers(r, cfg, origin, members);
            && r'.next >= r.next
            && (n in r'.zones && r'.zones[n].Some? && r'.zones[n].value < r.next ==> n in r.zones && r.zones[n] == r'.zones[n])
    decreases |members|
  {
    if members != [] {
      MemberZones(r, cfg, origin, members[0], n);
      MembersZones(ApplyMember(r, cfg, origin, members[0]), cfg, origin, members[1..], n);
    }
  }

  /** The zone is served by a new object, and `hasData` tells whether that holds a zone. */
  predicate IsNew(r: Registry, r': Registry, s: ZoneStart) {
    && s.origin in r'.zones && r'.zones[s.origin] == Some(s.zone) && s.zone >= r.next
    && s.hasData == SoaOf(SlotOf(r', s.origin).content).Some?
  }

  lemma FirstStart(r: Registry, cfg: Config, origin: Name, m: Member, s: ZoneStart)
    requires Consistent(r) && s.origin == m.zone
    ensures var r1 := ApplyMember(r, cfg, origin, m);
            IsNew(r, r1, s) <==> r1.next != r.next && s == ZoneStart(m.zone, r.next, SoaOf(ContentOf(r1, Some(r.next))).Some?)
  {
    MemberZones(r, cfg, origin, m, m.zone);
  }

  lemma OldZone(r: Registry, n: Name)
    requires Consistent(r) && n in r.zones && r.zones[n].Some?
    ensures r.zones[n].value < r.next
  {
  }

  /** A transfer is started for exactly the zones that got a new generation, on the new
      object, and told whether that object already holds a zone. */
  lemma {:induction false} StartsAreNew(r: Registry, cfg: Config, origin: Name, members: seq<Member>, s: ZoneStart)
    requires Consistent(r) && DistinctMembers(members)
    ensures s in Starts(r, cfg, origin, members) <==> IsNew(r, ApplyMembers(r, cfg, origin, members), s)
    decreases |members|
  {
    if members == [] {
      if s.origin in r.zones && r.zones[s.origin].Some? {
        OldZone(r, s.origin);
      }
    } else {
      var r1 := ApplyMember(r, cfg, origin, members[0]);
      ApplyMemberConsistent(r, cfg, origin, members[0]);
      StartsAreNew(r1, cfg, origin, members[1..], s);
      OneMoreStart(r, r1, cfg, origin, members[0], members[1..], s);
    }
  }

  lemma OneMoreStart(r: Registry, r1: Registry, cfg: Config, origin: Name, m: Member, rest: seq<Member>, s: ZoneStart)
    requires Consistent(r) && Consistent(r1) && r1 == ApplyMember(r, cfg, origin, m) && forall k :: k in rest ==> k.zone != m.zone
    ensures var r' := ApplyMembers(r1, cfg, origin, rest);
            IsNew(r, r', s) <==> s in StartOf(r, r1, m.zone) || IsNew(r1, r', s)
  {
    var r' := ApplyMembers(r1, cfg, origin, rest);
    MemberZones(r, cfg, origin, m, s.origin);
    if s.origin == m.zone {
      MembersFrame(r1, cfg, origin, rest, m.zone);
      FirstStart(r, cfg, origin, m, s);
      SameSlotNew(r, r1, r', s);
    } else {
      MemberFrame(r, cfg, origin, m, s.origin);
      MembersZones(r1, cfg, origin, rest, s.origin);
      OtherStart(r, r1, r', s);
    }
  }

  lemma SameSlotNew(r: Registry, r1: Registry, r': Registry, s: ZoneStart)
    requires Consistent(r1) && SlotOf(r', s.origin) == SlotOf(r1, s.origin)
    ensures IsNew(r, r', s) <==> IsNew(r, r1, s)
    ensures !IsNew(r1, r', s)
  {
    assert s.origin in r'.zones <==> SlotOf(r', s.origin).zone.Some?;
    assert s.origin in r1.zones <==> SlotOf(r1, s.origin).zone.Some?;
    if s.origin in r1.zones && r1.zones[s.origin].Some? {
      OldZone(r1, s.origin);
    }
  }

  lemma OtherStart(r: Registry, r1: Registry, r': Registry, s: ZoneStart)
    requires Consistent(r) && r1.next <= r.next + 1 && r.next <= r1.next && SlotOf(r1, s.origin) == SlotOf(r, s.origin)
    requires s.origin in r'.zones && r'.zones[s.origin].Some? && r'.zones[s.origin].value < r1.next ==>
               s.origin in r1.zones && r1.zones[s.origin] == r'.zones[s.origin]
    ensures IsNew(r, r', s) <==> IsNew(r1, r', s)
  {
    assert s.origin in r.zones <==> SlotOf(r, s.origin).zone.Some?;
    assert s.origin in r1.zones <==> SlotOf(r1, s.origin).zone.Some?;
    if s.origin in r.zones && r.zones[s.origin].Some? {
      OldZone(r, s.origin);
    }
  }

  // ---------------------------------------------------------------- the secondary's tables, updated in place

  lemma {:induction false} MembersKeepLists(r: Registry, cfg: Config, origin: Name, members: seq<Member>)
    ensures ApplyMembers(r, cfg, origin, members).memberZones == r.memberZones
    decreases |members|
  {
    if members != [] {
      MembersKeepLists(ApplyMember(r, cfg, origin, members[0]), cfg, origin, members[1..]);
    }
  }

  method RemoveZoneName(names: seq<Name>, name: Name) returns (rest: seq<Name>)
    ensures rest == RemoveName(names, name)
  {
    for i := 0 to |names|
      invariant RemoveName(names, name) == names[..i] + RemoveName(names[i..], name)
    {
      if names[i] == name {
        return names[..i] + names[i + 1..];
      }
      assert names[i..][1..] == names[i + 1..];
      Associate(names[..i], [names[i]], RemoveName(names[i + 1..], name), []);
      assert names[..i] + [names[i]] == names[..i + 1];
    }
    return names;
  }

  class SecondaryPersist {
    var zones: map<Name, Option<nat>>
    var names: seq<Name>
    var zoneNames: map<nat, Name>
    var dynamicZones: map<Name, Dynamic>
    var catalogMemberZones: map<Name, set<Name>>
    var open: set<nat>
    var content: map<nat, seq<RR>>
    var records: map<Name, seq<RR>>
    var next: nat

    function View(): Registry
      reads this
    {
      Registry(zones, names, zoneNames, dynamicZones, catalogMemberZones, open, content, records, next)
    }

    constructor ()
      ensures RegistryInv(View())
    {
      zones, names, zoneNames, dynamicZones := map[], [], map[], map[];
      catalogMemberZones, open, content, records, next := map[], {}, map[], map[], 0;
    }

    method ReplaceDynamicZone(member: Member, owner: Owner, preserveFrom: Option<nat>) returns (start: ZoneStart)
      modifies this
      ensures View() == ReplaceZone(old(View()), member.zone, member.id, owner, preserveFrom)
      ensures start == ZoneStart(member.zone, old(next), SoaOf(ContentOf(old(View()), preserveFrom)).Some?)
    {
      var data := if preserveFrom.Some? && preserveFrom.value in content then content[preserveFrom.value] else [];
      Detach(member.zone);
      start := Install(member.zone, member.id, owner, data);
    }

    method Detach(zone: Name)
      modifies this
      ensures View() == DetachZone(old(View()), zone)
    {
      if zone in dynamicZones {
        open := open - {dynamicZones[zone].shutdown};
      }
      if zone in zones {
        if zones[zone].Some? {
          zoneNames := zoneNames - {zones[zone].value};
        }
      } else {
        names := names + [zone];
      }
    }

    method Install(zone: Name, id: MemberId, owner: Owner, data: seq<RR>) returns (start: ZoneStart)
      modifies this
      ensures View() == InstallZone(old(View()), zone, id, owner, data)
      ensures start == ZoneStart(zone, old(next), SoaOf(data).Some?)
    {
      var z := next;
      next := z + 1;
      content := content[z := data];
      zones := zones[zone := Some(z)];
      zoneNames := zoneNames[z := zone];
      dynamicZones := dynamicZones[zone := Dynamic(owner, id, z)];
      open := open + {z};
      start := ZoneStart(zone, z, SoaOf(data).Some?);
    }

    method RemoveDynamicZone(zone: Name, owner: Owner) returns (removed: bool)
      modifies this
      ensures View() == RemoveZone(old(View()), zone, owner)
      ensures removed <==> Owns(old(View()), owner, zone)
    {
      if zone !in dynamicZones || dynamicZones[zone].owner != owner {
        return false;
      }
      open := open - {dynamicZones[zone].shutdown};
      dynamicZones := dynamicZones - {zone};
      if zone in zones && zones[zone].Some? {
        zoneNames := zoneNames - {zones[zone].value};
      }
      zones := zones - {zone};
      var rest := RemoveZoneName(names, zone);
      names := rest;
      return true;
    }

    method ApplyOneMember(cfg: Config, origin: Name, member: Member) returns (start: Option<ZoneStart>)
      modifies this
      ensures View() == ApplyMember(old(View()), cfg, origin, member)
      ensures (if start.Some? then [start.value] else []) == StartOf(old(View()), View(), member.zone)
    {
      if !Allowed(cfg, origin, member.zone) {
        return None;
      }
      var s: ZoneStart;
      if member.zone in zones {
        if member.zone !in dynamicZones || zones[member.zone].None? {
          return None;
        }
        var dyn := dynamicZones[member.zone];
        if dyn.owner == Catalog(origin) {
          if dyn.memberId == member.id {
            return None;
          }
          records := records - {member.zone};
          s := ReplaceDynamicZone(member, Catalog(origin), None);
          return Some(s);
        }
        var source := SourceMember(cfg, dyn.owner, member.zone);
        if source.None? || source.value.changeOfOwnership != Some(origin) {
          return None;
        }
        if dyn.memberId == source.value.id && source.value.id == member.id {
          s := ReplaceDynamicZone(member, Catalog(origin), zones[member.zone]);
        } else {
          records := records - {member.zone};
          s := ReplaceDynamicZone(member, Catalog(origin), None);
        }
        return Some(s);
      }
      s := ReplaceDynamicZone(member, Catalog(origin), None);
      return Some(s);
    }

    /** `order` records the order in which the table of former members was walked. */
    method ApplyCatalogMembers(cfg: Config, origin: Name, members: seq<Member>) returns (starts: seq<ZoneStart>, ghost order: seq<Name>)
      modifies this
      ensures WalksFormer(old(View()), cfg, origin, members, order)
      ensures View() == ApplyCatalog(old(View()), cfg, origin, members, order)
      ensures starts == Starts(old(View()), cfg, origin, members)
    {
      starts := ApplyAllMembers(cfg, origin, members);
      MembersKeepLists(old(View()), cfg, origin, members);
      var memberZones := AllowedZones(cfg, origin, members);
      order := RemoveFormer(origin, memberZones);
      catalogMemberZones := catalogMemberZones[origin := memberZones];
    }

    method ApplyAllMembers(cfg: Config, origin: Name, members: seq<Member>) returns (starts: seq<ZoneStart>)
      modifies this
      ensures View() == ApplyMembers(old(View()), cfg, origin, members)
      ensures starts == Starts(old(View()), cfg, origin, members)
    {
      starts := [];
      ghost var after, all := ApplyMembers(View(), cfg, origin, members), Starts(View(), cfg, origin, members);
      for i := 0 to |members|
        invariant after == ApplyMembers(View(), cfg, origin, members[i..])
        invariant all == starts + Starts(View(), cfg, origin, members[i..])
      {
        StartsStep(starts, View(), cfg, origin, members, i);
        var start := ApplyOneMember(cfg, origin, members[i]);
        starts := starts + if start.Some? then [start.value] else [];
      }
    }

    method RemoveFormer(origin: Name, memberZones: set<Name>) returns (ghost order: seq<Name>)
      modifies this
      ensures Elems(order) == ListedBy(old(View()), origin) - memberZones
      ensures View() == RemoveMembers(old(View()), order, origin)
      ensures View().memberZones == old(View()).memberZones
    {
      order := [];
      ghost var r1 := View();
      var all := if origin in catalogMemberZones then catalogMemberZones[origin] else {};
      var todo := all - memberZones;
      while todo != {}
        invariant todo <= all - memberZones
        invariant Elems(order) == all - memberZones - todo
        invariant View() == RemoveMembers(r1, order, origin) && catalogMemberZones == r1.memberZones
        decreases todo
      {
        var zone :| zone in todo;
        RemoveMembersSnoc(r1, order, zone, origin);
        var removed := RemoveDynamicZone(zone, Catalog(origin));
        if removed {
          records := records - {zone};
        }
        assert Elems(order + [zone]) == Elems(order) + {zone};
        order := order + [zone];
        todo := todo - {zone};
      }
    }

    method LoadIfPresent(origin: Name, z: nat, loadOk: bool)
      modifies this
      ensures View() == LoadZone(old(View()), origin, z, loadOk)
    {
      if loadOk && origin in records {
        var soa := FindSoa(records[origin]);
        if soa.Some? {
          content := content[z := records[origin]];
        }
      }
    }

    method StartOrigin(origin: Name, from: seq<string>, loadOk: bool) returns (ok: bool)
      modifies this
      ensures ok <==> from != [] && origin !in old(zones)
      ensures View() == if ok then StartZone(old(View()), origin, loadOk) else old(View())
    {
      if from == [] || origin in zones {
        return false;
      }
      var start := ReplaceDynamicZone(Member(origin, origin, None), Admin, None);
      LoadIfPresent(origin, start.zone, loadOk);
      return true;
    }

    method StopOrigin(origin: Name) returns (ok: bool)
      modifies this
      ensures ok <==> Owns(old(View()), Admin, origin)
      ensures View() == StopZone(old(View()), origin)
    {
      ok := RemoveDynamicZone(origin, Admin);
    }
  }

  lemma {:induction false} RemoveMembersSnoc(r: Registry, zones: seq<Name>, zone: Name, origin: Name)
    ensures RemoveMembers(r, zones + [zone], origin) == RemoveMember(RemoveMembers(r, zones, origin), zone, origin)
    decreases |zones|
  {
    if zones == [] {
      assert [] + [zone] == [zone];
      assert RemoveMembers(RemoveMember(r, zone, origin), [zone][1..], origin) == RemoveMember(r, zone, origin);
    } else {
      assert (zones + [zone])[1..] == zones[1..] + [zone];
      RemoveMembersSnoc(RemoveMember(r, zones[0], origin), zones[1..], zone, origin);
    }
  }
}
