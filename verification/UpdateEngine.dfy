/**
 The RFC 2136 update engine (dns-update-persistent/update.go and zone.go):
 prerequisites, prescan, and the application of an update section.
 */
module UpdateEngine {
  import opened Collections
  import opened Serials
  import opened Records

  datatype Rcode = NoError | FormErr | ServFail | NXDomain | YXDomain | YXRRset | NXRRset | NotZone | Refused

  /** A record as it stands in a message section: its class carries the intent. */
  datatype MsgRR = MsgRR(cls: nat, rdlength: nat, rr: RR)

  predicate InZone(zone: Name, name: Name) {
    |zone| <= |name| && name[|name| - |zone|..] == zone
  }

  predicate IsMetaType(t: nat) {
    t == TYPE_ANY || t == TYPE_AXFR || t == TYPE_IXFR || t == TYPE_MAILA || t == TYPE_MAILB || t == TYPE_OPT
  }

  /** A name is in the zone when it is the apex or has labels before it; the types that can
      only be asked for are OPT and the query types from IXFR to ANY. */
  lemma NamesAndTypes(zone: Name, name: Name, t: nat)
    ensures InZone(zone, name) <==> exists labels: Name :: name == labels + zone
    ensures IsMetaType(t) <==> t == 41 || 251 <= t <= 255
  {
    if InZone(zone, name) {
      assert name == name[..|name| - |zone|] + zone;
    }
    if labels: Name :| name == labels + zone {
      assert name[|name| - |zone|..] == zone;
    }
  }

  // ---------------------------------------------------------------- looking at a zone

  predicate NameInUse(rrs: seq<RR>, name: Name) {
    exists x :: x in rrs && x.owner == name
  }

  function RRsetOf(rrs: seq<RR>, name: Name, t: nat): (r: seq<RR>)
    ensures forall x :: x in r <==> x in rrs && x.owner == name && x.Type() == t
  {
    if rrs == [] then []
    else if rrs[0].owner == name && rrs[0].Type() == t then [rrs[0]] + RRsetOf(rrs[1..], name, t)
    else RRsetOf(rrs[1..], name, t)
  }

  predicate RRsetExists(rrs: seq<RR>, name: Name, t: nat) {
    exists x :: x in rrs && x.owner == name && x.Type() == t
  }

  function CountRRset(rrs: seq<RR>, name: Name, t: nat): nat {
    |RRsetOf(rrs, name, t)|
  }

  predicate HasCname(rrs: seq<RR>, name: Name) {
    RRsetExists(rrs, name, TYPE_CNAME)
  }

  /** The types that may sit beside a CNAME. */
  predicate BesideCname(t: nat) {
    t == TYPE_CNAME || t == TYPE_RRSIG || t == TYPE_NSEC
  }

  predicate HasNonCname(rrs: seq<RR>, name: Name) {
    exists x :: x in rrs && x.owner == name && !BesideCname(x.Type())
  }

  /** The index of the first record with the identity of `want`, or |rrs|. */
  function IndexOfRR(rrs: seq<RR>, want: RR): (i: nat)
    ensures i <= |rrs|
    ensures i < |rrs| ==> ExactKey(rrs[i]) == ExactKey(want)
    ensures forall k :: 0 <= k < i ==> ExactKey(rrs[k]) != ExactKey(want)
  {
    if rrs == [] || ExactKey(rrs[0]) == ExactKey(want) then 0 else 1 + IndexOfRR(rrs[1..], want)
  }

  /** The index of the SOA record, or |rrs|. */
  function SoaIndex(rrs: seq<RR>): (i: nat)
    ensures i <= |rrs|
    ensures i < |rrs| ==> rrs[i].Soa? && SoaOf(rrs) == Some(rrs[i])
    ensures i == |rrs| ==> SoaOf(rrs) == None
  {
    if rrs == [] || rrs[0].Soa? then 0 else 1 + SoaIndex(rrs[1..])
  }

  // ---------------------------------------------------------------- prerequisites (section 3.2 of RFC 2136)

  /** What one prerequisite answers on its own; class IN ones are compared later. */
  function PrereqCode(zone: Name, rrs: seq<RR>, p: MsgRR): Rcode {
    var name, t := p.rr.owner, p.rr.Type();
    if p.rr.ttl != 0 then FormErr
    else if !InZone(zone, name) then NotZone
    else if p.cls == CLASS_ANY then
      if p.rdlength != 0 then FormErr
      else if t == TYPE_ANY then (if NameInUse(rrs, name) then NoError else NXDomain)
      else (if RRsetExists(rrs, name, t) then NoError else NXRRset)
    else if p.cls == CLASS_NONE then
      if p.rdlength != 0 then FormErr
      else if t == TYPE_ANY then (if NameInUse(rrs, name) then YXDomain else NoError)
      else (if RRsetExists(rrs, name, t) then YXRRset else NoError)
    else if p.cls == CLASS_IN then NoError
    else FormErr
  }

  /** The first code that is not success. */
  function PrereqScan(zone: Name, rrs: seq<RR>, ps: seq<MsgRR>): (r: Rcode)
    ensures r == NoError <==> forall p :: p in ps ==> PrereqCode(zone, rrs, p) == NoError
  {
    if ps == [] then NoError
    else if PrereqCode(zone, rrs, ps[0]) != NoError then PrereqCode(zone, rrs, ps[0])
    else PrereqScan(zone, rrs, ps[1..])
  }

  /** The identities of `rrs`, with multiplicity. */
  function KeyBag(rrs: seq<RR>): multiset<Identity> {
    if rrs == [] then multiset{} else multiset{ExactKey(rrs[0])} + KeyBag(rrs[1..])
  }

  predicate IsValueFor(p: MsgRR, name: Name, t: nat) {
    p.cls == CLASS_IN && p.rr.owner == name && p.rr.Type() == t
  }

  /** The records a prerequisite section lists for one RRset, in section order. */
  function ValuesFor(ps: seq<MsgRR>, name: Name, t: nat): seq<RR> {
    if ps == [] then []
    else if IsValueFor(ps[0], name, t) then [ps[0].rr] + ValuesFor(ps[1..], name, t)
    else ValuesFor(ps[1..], name, t)
  }

  /** Every RRset the section lists values for is exactly the zone's RRset. */
  ghost predicate ValuesMatch(rrs: seq<RR>, ps: seq<MsgRR>) {
    forall p :: p in ps && p.cls == CLASS_IN ==>
      KeyBag(RRsetOf(rrs, p.rr.owner, p.rr.Type())) == KeyBag(ValuesFor(ps, p.rr.owner, p.rr.Type()))
  }

  /** Section 3.2 of RFC 2136, each prerequisite in its own words. */
  ghost predicate PrereqHolds(zone: Name, rrs: seq<RR>, p: MsgRR) {
    && p.rr.ttl == 0 && InZone(zone, p.rr.owner)
    && (p.cls == CLASS_IN
        || (p.rdlength == 0 && p.cls == CLASS_ANY && p.rr.Type() == TYPE_ANY && NameInUse(rrs, p.rr.owner))
        || (p.rdlength == 0 && p.cls == CLASS_ANY && p.rr.Type() != TYPE_ANY && RRsetExists(rrs, p.rr.owner, p.rr.Type()))
        || (p.rdlength == 0 && p.cls == CLASS_NONE && p.rr.Type() == TYPE_ANY && !NameInUse(rrs, p.rr.owner))
        || (p.rdlength == 0 && p.cls == CLASS_NONE && p.rr.Type() != TYPE_ANY && !RRsetExists(rrs, p.rr.owner, p.rr.Type())))
  }

  ghost predicate PrereqsMet(zone: Name, rrs: seq<RR>, ps: seq<MsgRR>) {
    (forall p :: p in ps ==> PrereqHolds(zone, rrs, p)) && ValuesMatch(rrs, ps)
  }

  lemma PrereqCodeMeans(zone: Name, rrs: seq<RR>, p: MsgRR)
    ensures PrereqCode(zone, rrs, p) == NoError <==> PrereqHolds(zone, rrs, p)
  {
  }

  /** The values listed for an RRset, counted, do not depend on the order of the section. */
  function BagFor(ps: seq<MsgRR>, name: Name, t: nat): multiset<Identity> {
    KeyBag(ValuesFor(ps, name, t))
  }

  lemma {:induction false} BagConcat(a: seq<MsgRR>, b: seq<MsgRR>, name: Name, t: nat)
    ensures BagFor(a + b, name, t) == BagFor(a, name, t) + BagFor(b, name, t)
  {
    if a == [] {
      assert [] + b == b;
    } else {
      assert (a + b)[1..] == a[1..] + b;
      BagConcat(a[1..], b, name, t);
      BagCons(a, name, t);
      BagCons(a + b, name, t);
    }
  }

  lemma BagCons(a: seq<MsgRR>, name: Name, t: nat)
    requires a != []
    ensures BagFor(a, name, t)
         == (if IsValueFor(a[0], name, t) then multiset{ExactKey(a[0].rr)} else multiset{}) + BagFor(a[1..], name, t)
  {
    var tail := ValuesFor(a[1..], name, t);
    assert ([a[0].rr] + tail)[1..] == tail;
  }

  lemma {:induction false} BagPermutes(a: seq<MsgRR>, b: seq<MsgRR>, name: Name, t: nat)
    requires multiset(a) == multiset(b)
    ensures BagFor(a, name, t) == BagFor(b, name, t)
    decreases |a|
  {
    if a == [] {
      assert |multiset(b)| == |b| && |multiset(a)| == 0;
    } else {
      var i := PullOut(a, b);
      var rest := b[..i] + b[i + 1..];
      assert b == b[..i] + [b[i]] + b[i + 1..];
      assert a == [a[0]] + a[1..];
      BagPermutes(a[1..], rest, name, t);
      BagConcat([a[0]], a[1..], name, t);
      BagConcat(b[..i] + [b[i]], b[i + 1..], name, t);
      BagConcat(b[..i], [b[i]], name, t);
      BagConcat(b[..i], b[i + 1..], name, t);
    }
  }

  /** Whether a prerequisite section is met does not depend on the order of its records. */
  lemma PrereqsMetPermutes(zone: Name, rrs: seq<RR>, a: seq<MsgRR>, b: seq<MsgRR>)
    requires multiset(a) == multiset(b)
    ensures PrereqsMet(zone, rrs, a) <==> PrereqsMet(zone, rrs, b)
  {
    PermutationMembers(a, b);
    forall p | p in a ensures BagFor(a, p.rr.owner, p.rr.Type()) == BagFor(b, p.rr.owner, p.rr.Type()) {
      BagPermutes(a, b, p.rr.owner, p.rr.Type());
    }
  }

  lemma {:induction false} KeyBagConcat(a: seq<RR>, b: seq<RR>)
    ensures KeyBag(a + b) == KeyBag(a) + KeyBag(b)
  {
    if a == [] {
      assert [] + b == b;
    } else {
      assert (a + b)[1..] == a[1..] + b;
      KeyBagConcat(a[1..], b);
    }
  }

  lemma KeyBagSnoc(a: seq<RR>, x: RR)
    ensures KeyBag(a + [x]) == KeyBag(a) + multiset{ExactKey(x)}
  {
    KeyBagConcat(a, [x]);
    var empty: seq<RR> := [];
    assert [x][1..] == empty && KeyBag(empty) == multiset{};
  }

  lemma KeyBagAppend(rrs: seq<RR>, i: nat)
    requires i < |rrs|
    ensures KeyBag(rrs[..i + 1]) == KeyBag(rrs[..i]) + multiset{ExactKey(rrs[i])}
  {
    KeyBagSnoc(rrs[..i], rrs[i]);
    assert rrs[..i + 1] == rrs[..i] + [rrs[i]];
  }

  lemma KeyBagSplit(rrs: seq<RR>, i: nat)
    requires i <= |rrs|
    ensures KeyBag(rrs) == KeyBag(rrs[..i]) + KeyBag(rrs[i..])
  {
    var a, b := rrs[..i], rrs[i..];
    assert a + b == rrs;
    KeyBagConcat(a, b);
  }

  lemma {:induction false} KeyBagSize(rrs: seq<RR>)
    ensures |KeyBag(rrs)| == |rrs|
  {
    if rrs != [] {
      KeyBagSize(rrs[1..]);
    }
  }

  method Tally(rrs: seq<RR>) returns (counts: multiset<Identity>)
    ensures counts == KeyBag(rrs)
  {
    counts := multiset{};
    for i := 0 to |rrs|
      invariant counts == KeyBag(rrs[..i])
    {
      KeyBagAppend(rrs, i);
      counts := counts + multiset{ExactKey(rrs[i])};
    }
    assert rrs[..|rrs|] == rrs;
  }

  lemma MoreThan(want: seq<RR>, i: nat, have: multiset<Identity>)
    requires i < |want| && have[ExactKey(want[i])] == KeyBag(want[..i])[ExactKey(want[i])]
    ensures have != KeyBag(want)
  {
    KeyBagAppend(want, i);
    KeyBagSplit(want, i + 1);
    var k := ExactKey(want[i]);
    assert KeyBag(want[..i + 1])[k] == have[k] + 1;
  }

  /** Equality of two RRsets as bags of identities, decided with one table of counts. */
  method SameRRset(have: seq<RR>, want: seq<RR>) returns (same: bool)
    ensures same <==> KeyBag(have) == KeyBag(want)
  {
    KeyBagSize(have);
    KeyBagSize(want);
    if |have| != |want| {
      return false;
    }
    var counts := Tally(have);
    ghost var bag := counts;
    for i := 0 to |want|
      invariant bag == counts + KeyBag(want[..i])
    {
      var k := ExactKey(want[i]);
      if counts[k] == 0 {
        MoreThan(want, i, bag);
        return false;
      }
      KeyBagAppend(want, i);
      counts := counts - multiset{k};
    }
    assert want[..|want|] == want;
    assert |bag| == |counts| + |KeyBag(want)|;
    assert counts == multiset{};
    return true;
  }

  lemma {:induction false} ValuesAppend(ps: seq<MsgRR>, p: MsgRR, name: Name, t: nat)
    ensures ValuesFor(ps + [p], name, t) == ValuesFor(ps, name, t) + if IsValueFor(p, name, t) then [p.rr] else []
  {
    if ps == [] {
      assert [] + [p] == [p];
    } else {
      assert (ps + [p])[1..] == ps[1..] + [p];
      ValuesAppend(ps[1..], p, name, t);
    }
  }

  lemma {:induction false} ScanAppend(zone: Name, rrs: seq<RR>, ps: seq<MsgRR>, i: nat)
    requires i < |ps| && PrereqScan(zone, rrs, ps[..i]) == NoError && PrereqCode(zone, rrs, ps[i]) != NoError
    ensures PrereqScan(zone, rrs, ps) == PrereqCode(zone, rrs, ps[i])
  {
    if i > 0 {
      assert ps[..i][0] == ps[0] && ps[..i][1..] == ps[1..][..i - 1];
      ScanAppend(zone, rrs, ps[1..], i - 1);
    }
  }

  /** The listed values grouped by RRset. */
  ghost predicate Grouped(values: map<(Name, nat), seq<RR>>, ps: seq<MsgRR>) {
    && (forall k :: k in values ==> values[k] == ValuesFor(ps, k.0, k.1))
    && (forall p :: p in ps && p.cls == CLASS_IN ==> (p.rr.owner, p.rr.Type()) in values)
    && (forall k :: k in values ==> exists p :: p in ps && IsValueFor(p, k.0, k.1))
  }

  lemma GroupStep(values: map<(Name, nat), seq<RR>>, ps: seq<MsgRR>, p: MsgRR)
    requires Grouped(values, ps) && p.cls == CLASS_IN
    ensures var k := (p.rr.owner, p.rr.Type());
            Grouped(values[k := (if k in values then values[k] else []) + [p.rr]], ps + [p])
  {
    var k := (p.rr.owner, p.rr.Type());
    var values' := values[k := (if k in values then values[k] else []) + [p.rr]];
    assert p in ps + [p];
    forall q | q in values' ensures values'[q] == ValuesFor(ps + [p], q.0, q.1) {
      ValuesAppend(ps, p, q.0, q.1);
      if q == k && k !in values {
        NoValues(ps, k.0, k.1);
      }
    }
    forall q | q in values' ensures exists r :: r in ps + [p] && IsValueFor(r, q.0, q.1) {
      if q == k {
        assert IsValueFor(p, q.0, q.1);
      } else {
        var r :| r in ps && IsValueFor(r, q.0, q.1);
        assert r in ps + [p];
      }
    }
  }

  lemma {:induction false} NoValues(ps: seq<MsgRR>, name: Name, t: nat)
    requires forall p :: p in ps ==> !IsValueFor(p, name, t)
    ensures ValuesFor(ps, name, t) == []
  {
    if ps != [] {
      assert ps[0] in ps;
      NoValues(ps[1..], name, t);
    }
  }

  lemma GroupSkip(values: map<(Name, nat), seq<RR>>, ps: seq<MsgRR>, p: MsgRR)
    requires Grouped(values, ps) && p.cls != CLASS_IN
    ensures Grouped(values, ps + [p])
  {
    forall k | k in values
      ensures values[k] == ValuesFor(ps + [p], k.0, k.1) && exists q :: q in ps + [p] && IsValueFor(q, k.0, k.1)
    {
      ValuesAppend(ps, p, k.0, k.1);
      var q :| q in ps && IsValueFor(q, k.0, k.1);
      assert q in ps + [p];
    }
  }

  lemma ScanMeans(zone: Name, rrs: seq<RR>, ps: seq<MsgRR>)
    ensures PrereqScan(zone, rrs, ps) == NoError <==> forall p :: p in ps ==> PrereqHolds(zone, rrs, p)
  {
    forall p | p in ps ensures PrereqCode(zone, rrs, p) == NoError <==> PrereqHolds(zone, rrs, p) {
      PrereqCodeMeans(zone, rrs, p);
    }
  }

  /** The first pass over the section. */
  method GroupPrereqs(zone: Name, rrs: seq<RR>, ps: seq<MsgRR>)
    returns (rcode: Rcode, values: map<(Name, nat), seq<RR>>)
    ensures rcode == PrereqScan(zone, rrs, ps)
    ensures rcode != NoError ==> RightPrereqCode(zone, rrs, ps, rcode)
    ensures rcode == NoError ==> Grouped(values, ps) && forall p :: p in ps ==> PrereqHolds(zone, rrs, p)
  {
    values := map[];
    for i := 0 to |ps|
      invariant PrereqScan(zone, rrs, ps[..i]) == NoError
      invariant Grouped(values, ps[..i])
    {
      var p := ps[i];
      assert ps[..i + 1] == ps[..i] + [p];
      var code := PrereqCode(zone, rrs, p);
      if code != NoError {
        ScanAppend(zone, rrs, ps, i);
        ScanIsRight(zone, rrs, ps);
        return code, values;
      }
      if p.cls == CLASS_IN {
        GroupStep(values, ps[..i], p);
        var k := (p.rr.owner, p.rr.Type());
        values := values[k := (if k in values then values[k] else []) + [p.rr]];
      } else {
        GroupSkip(values, ps[..i], p);
      }
    }
    assert ps[..|ps|] == ps;
    AllHold(zone, rrs, ps);
    return NoError, values;
  }

  lemma GroupedMatch(rrs: seq<RR>, ps: seq<MsgRR>, values: map<(Name, nat), seq<RR>>)
    requires Grouped(values, ps)
    ensures ValuesMatch(rrs, ps) <==> GroupsMatch(rrs, values)
  {
    forall k | k in values && KeyBag(RRsetOf(rrs, k.0, k.1)) != KeyBag(values[k]) ensures !ValuesMatch(rrs, ps) {
      var p :| p in ps && IsValueFor(p, k.0, k.1);
    }
    forall p | p in ps && p.cls == CLASS_IN ensures (p.rr.owner, p.rr.Type()) in values {
    }
  }

  /** Every group of values is the zone's RRset, compared in no particular order. */
  ghost predicate GroupsMatch(rrs: seq<RR>, values: map<(Name, nat), seq<RR>>) {
    forall k :: k in values ==> KeyBag(RRsetOf(rrs, k.0, k.1)) == KeyBag(values[k])
  }

  method CompareGroups(rrs: seq<RR>, values: map<(Name, nat), seq<RR>>) returns (same: bool)
    ensures same <==> GroupsMatch(rrs, values)
  {
    var todo := values.Keys;
    while todo != {}
      invariant todo <= values.Keys
      invariant forall k :: k in values.Keys - todo ==> KeyBag(RRsetOf(rrs, k.0, k.1)) == KeyBag(values[k])
      decreases todo
    {
      var k :| k in todo;
      same := SameRRset(RRsetOf(rrs, k.0, k.1), values[k]);
      if !same {
        return;
      }
      todo := todo - {k};
    }
    return true;
  }

  // ---------------------------------------------------------------- which code a failing section gets

  /** Prerequisite f is the first of the section that does not hold. */
  ghost predicate FirstFailing(zone: Name, rrs: seq<RR>, ps: seq<MsgRR>, f: int) {
    && 0 <= f < |ps| && !PrereqHolds(zone, rrs, ps[f])
    && forall i :: 0 <= i < f ==> PrereqHolds(zone, rrs, ps[i])
  }

  predicate OutOfZone(zone: Name, p: MsgRR) {
    p.rr.ttl == 0 && !InZone(zone, p.rr.owner)
  }

  predicate Malformed(zone: Name, p: MsgRR) {
    || p.rr.ttl != 0
    || (InZone(zone, p.rr.owner) && p.cls != CLASS_IN && (p.rdlength != 0 || (p.cls != CLASS_ANY && p.cls != CLASS_NONE)))
  }

  predicate WellPut(zone: Name, p: MsgRR) {
    p.rr.ttl == 0 && InZone(zone, p.rr.owner) && p.rdlength == 0
  }

  predicate DemandsName(zone: Name, p: MsgRR) {
    WellPut(zone, p) && p.cls == CLASS_ANY && p.rr.Type() == TYPE_ANY
  }

  predicate DemandsRRset(zone: Name, p: MsgRR) {
    WellPut(zone, p) && p.cls == CLASS_ANY && p.rr.Type() != TYPE_ANY
  }

  predicate DeniesName(zone: Name, p: MsgRR) {
    WellPut(zone, p) && p.cls == CLASS_NONE && p.rr.Type() == TYPE_ANY
  }

  predicate DeniesRRset(zone: Name, p: MsgRR) {
    WellPut(zone, p) && p.cls == CLASS_NONE && p.rr.Type() != TYPE_ANY
  }

  /** Section 3.2 of RFC 2136, by outcome: what the first prerequisite that does not hold
      asked for decides the code; when all hold and a listed RRset differs it is NXRRSET. */
  ghost predicate RightPrereqCode(zone: Name, rrs: seq<RR>, ps: seq<MsgRR>, rcode: Rcode) {
    && (rcode == NoError <==> PrereqsMet(zone, rrs, ps))
    && (rcode == FormErr <==> exists f :: FirstFailing(zone, rrs, ps, f) && Malformed(zone, ps[f]))
    && (rcode == NotZone <==> exists f :: FirstFailing(zone, rrs, ps, f) && OutOfZone(zone, ps[f]))
    && (rcode == NXDomain <==> exists f :: FirstFailing(zone, rrs, ps, f) && DemandsName(zone, ps[f]))
    && (rcode == YXDomain <==> exists f :: FirstFailing(zone, rrs, ps, f) && DeniesName(zone, ps[f]))
    && (rcode == YXRRset <==> exists f :: FirstFailing(zone, rrs, ps, f) && DeniesRRset(zone, ps[f]))
    && (rcode == NXRRset <==>
          || (exists f :: FirstFailing(zone, rrs, ps, f) && DemandsRRset(zone, ps[f]))
          || ((forall p :: p in ps ==> PrereqHolds(zone, rrs, p)) && !ValuesMatch(rrs, ps)))
  }

  lemma FailingCode(zone: Name, rrs: seq<RR>, p: MsgRR)
    requires !PrereqHolds(zone, rrs, p)
    ensures PrereqCode(zone, rrs, p) == FormErr <==> Malformed(zone, p)
    ensures PrereqCode(zone, rrs, p) == NotZone <==> OutOfZone(zone, p)
    ensures PrereqCode(zone, rrs, p) == NXDomain <==> DemandsName(zone, p)
    ensures PrereqCode(zone, rrs, p) == YXDomain <==> DeniesName(zone, p)
    ensures PrereqCode(zone, rrs, p) == NXRRset <==> DemandsRRset(zone, p)
    ensures PrereqCode(zone, rrs, p) == YXRRset <==> DeniesRRset(zone, p)
  {
  }

  lemma FailingScan(zone: Name, rrs: seq<RR>, ps: seq<MsgRR>, f: nat)
    requires FirstFailing(zone, rrs, ps, f)
    ensures PrereqScan(zone, rrs, ps) == PrereqCode(zone, rrs, ps[f]) != NoError
    ensures forall g :: FirstFailing(zone, rrs, ps, g) ==> g == f
  {
    ScanMeans(zone, rrs, ps[..f]);
    PrereqCodeMeans(zone, rrs, ps[f]);
    ScanAppend(zone, rrs, ps, f);
  }

  lemma {:induction false} SomeFails(zone: Name, rrs: seq<RR>, ps: seq<MsgRR>) returns (f: nat)
    requires exists p :: p in ps && !PrereqHolds(zone, rrs, p)
    ensures FirstFailing(zone, rrs, ps, f)
  {
    if !PrereqHolds(zone, rrs, ps[0]) {
      f := 0;
    } else {
      f := SomeFails(zone, rrs, ps[1..]);
      f := f + 1;
    }
  }

  lemma ScanIsRight(zone: Name, rrs: seq<RR>, ps: seq<MsgRR>)
    requires PrereqScan(zone, rrs, ps) != NoError
    ensures RightPrereqCode(zone, rrs, ps, PrereqScan(zone, rrs, ps))
  {
    ScanMeans(zone, rrs, ps);
    var f := SomeFails(zone, rrs, ps);
    FailingScan(zone, rrs, ps, f);
    FailingCode(zone, rrs, ps[f]);
    assert ps[f] in ps;
  }

  lemma AllHold(zone: Name, rrs: seq<RR>, ps: seq<MsgRR>)
    requires PrereqScan(zone, rrs, ps) == NoError
    ensures forall p :: p in ps ==> PrereqHolds(zone, rrs, p)
    ensures RightPrereqCode(zone, rrs, ps, if ValuesMatch(rrs, ps) then NoError else NXRRset)
  {
    ScanMeans(zone, rrs, ps);
  }

  /** The whole section: success exactly when every prerequisite holds and every listed
      RRset equals the zone's, and otherwise the code the RFC gives. */
  method CheckPrereqs(zone: Name, rrs: seq<RR>, ps: seq<MsgRR>) returns (rcode: Rcode)
    ensures rcode == NoError <==> PrereqsMet(zone, rrs, ps)
    ensures RightPrereqCode(zone, rrs, ps, rcode)
  {
    var values;
    rcode, values := GroupPrereqs(zone, rrs, ps);
    if rcode != NoError {
      return;
    }
    AllHold(zone, rrs, ps);
    GroupedMatch(rrs, ps, values);
    var same := CompareGroups(rrs, values);
    if !same {
      rcode := NXRRset;
    }
  }
}
