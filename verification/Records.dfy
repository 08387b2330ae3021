/**
 Resource records, the two notions of "the same record" the program uses, and
 zone generations.
 */
module Records {
  import opened Collections
  import opened Serials

  /** A canonical owner name: lower-case labels, the zone's own labels last. */
  type Name = seq<string>

  /** The apex of the zones in the worked examples. */
  const EXAMPLE_APEX: Name := ["example", "org"]

  const TYPE_NS: nat := 2
  const TYPE_CNAME: nat := 5
  const TYPE_SOA: nat := 6
  const TYPE_PTR: nat := 12
  const TYPE_OPT: nat := 41
  const TYPE_RRSIG: nat := 46
  const TYPE_NSEC: nat := 47
  const TYPE_IXFR: nat := 251
  const TYPE_AXFR: nat := 252
  const TYPE_MAILB: nat := 253
  const TYPE_MAILA: nat := 254
  const TYPE_ANY: nat := 255

  const CLASS_IN: nat := 1
  const CLASS_NONE: nat := 254
  const CLASS_ANY: nat := 255

  /** One field of a record's data. Domain names compare without regard to
      letter case under `dns.IsDuplicate`; everything else compares exactly. */
  datatype Field = DomainName(name: string) | Text(text: string)

  /** `Soa` is a value of Go type `*dns.SOA`; `Rec` is any other record, whose
      header type is `rtype`. */
  datatype RR =
    | Soa(owner: Name, ttl: nat, serial: Serial, fields: seq<Field>)
    | Rec(owner: Name, rtype: nat, ttl: nat, fields: seq<Field>)
  {
    function Type(): nat {
      if Soa? then TYPE_SOA else rtype
    }
  }

  function SetTtl(r: RR, ttl: nat): RR {
    match r
    case Soa(owner, _, serial, fields) => Soa(owner, ttl, serial, fields)
    case Rec(owner, rtype, _, fields) => Rec(owner, rtype, ttl, fields)
  }

  /** What two records must share to be the same record; the TTL is not part of it. */
  datatype Identity = Identity(soa: bool, owner: Name, rtype: nat, serial: int, fields: seq<Field>)

  function LowerChar(c: char): char {
    if 'A' <= c <= 'Z' then (c as int + 32) as char else c
  }

  function Lower(s: string): string {
    seq(|s|, i requires 0 <= i < |s| => LowerChar(s[i]))
  }

  function FoldField(f: Field): Field {
    if f.DomainName? then DomainName(Lower(f.name)) else f
  }

  function FoldFields(fs: seq<Field>): seq<Field> {
    seq(|fs|, i requires 0 <= i < |fs| => FoldField(fs[i]))
  }

  /** `rdataKey`: the presentation form with the TTL zeroed, so field text counts exactly. */
  function ExactKey(r: RR): Identity {
    Identity(r.Soa?, r.owner, r.Type(), if r.Soa? then r.serial else 0, r.fields)
  }

  /** What `dns.IsDuplicate` compares: names inside the data are folded. */
  function DupKey(r: RR): Identity {
    Identity(r.Soa?, r.owner, r.Type(), if r.Soa? then r.serial else 0, FoldFields(r.fields))
  }

  predicate IsDuplicate(a: RR, b: RR) {
    DupKey(a) == DupKey(b)
  }

  /** No two records of `s` are duplicates under `dns.IsDuplicate`. */
  ghost predicate Distinct(s: seq<RR>) {
    forall x, y :: x in s && y in s && IsDuplicate(x, y) ==> x == y
  }

  /** Everything in `s` but its SOA records. */
  function Data(s: seq<RR>): set<RR> {
    set r | r in s && r.Rec?
  }

  /** `soa` is the one SOA record of `s`. */
  ghost predicate SoleSoa(s: seq<RR>, soa: RR) {
    soa.Soa? && soa in s && forall x :: x in s && x.Soa? ==> x == soa
  }

  /** A zone generation: exactly one SOA and no record twice. */
  ghost predicate Generation(g: seq<RR>) {
    NoDup(g) && exists soa :: SoleSoa(g, soa)
  }

  /** The first SOA record, as every package's `soaOf` finds it. */
  function SoaOf(s: seq<RR>): (r: Option<RR>)
    ensures r.Some? ==> r.value in s && r.value.Soa?
    ensures r.None? ==> forall x :: x in s ==> x.Rec?
  {
    if s == [] then None else if s[0].Soa? then Some(s[0]) else SoaOf(s[1..])
  }

  function SerialOf(s: seq<RR>): Serial {
    if SoaOf(s).Some? then SoaOf(s).value.serial else 0
  }

  method FindSoa(s: seq<RR>) returns (r: Option<RR>)
    ensures r == SoaOf(s)
  {
    for i := 0 to |s|
      invariant SoaOf(s) == SoaOf(s[i..])
    {
      if s[i].Soa? {
        return Some(s[i]);
      }
    }
    return None;
  }

  lemma GenerationSoa(g: seq<RR>)
    requires Generation(g)
    ensures SoaOf(g).Some? && SoleSoa(g, SoaOf(g).value)
  {
  }

  lemma GenerationPermutes(g: seq<RR>, p: seq<RR>)
    requires Generation(g) && multiset(p) == multiset(g)
    ensures Generation(p) && Data(p) == Data(g) && SoaOf(p) == SoaOf(g)
  {
    GenerationSoa(g);
    PermutationMembers(p, g);
    NoDupPermutes(g, p);
    assert SoleSoa(p, SoaOf(g).value);
  }

  /** Generations with the same SOA and the same data are permutations. */
  lemma SameGeneration(g: seq<RR>, p: seq<RR>)
    requires Generation(g) && Generation(p) && Data(g) == Data(p) && SoaOf(g) == SoaOf(p)
    ensures multiset(p) == multiset(g)
  {
    GenerationSoa(g);
    GenerationSoa(p);
    forall x ensures x in g <==> x in p {
      if x.Rec? {
        assert x in g <==> x in Data(g);
      }
    }
    SameElementsPermute(p, g);
  }
}
