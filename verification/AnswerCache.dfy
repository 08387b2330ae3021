/**
 The two caches and the prefer_positive policy (split-horizon-cache/cache.go,
 handler.go, item.go): positive answers and denials are kept apart, a positive answer
 that answers its question is retained when something that does not answer it takes its
 place, and lookups prefer it even past its TTL.
 */
module AnswerCache {
  import opened Collections
  import opened Records
  import opened CnameChains

  const RCODE_SERVFAIL: nat := 2

  /** The fields hashed into a cache key. */
  datatype Key = Key(name: string, qtype: nat, qclass: nat, do_: bool, cd: bool, src: string, epoch: nat)

  /** A cached response; times and TTLs are in whole seconds. */
  datatype Item = Item(question: Question, rcode: nat, answering: bool, lastKnownGood: Option<Item>, origTtl: nat, stored: int)
  {
    function Ttl(now: int): int {
      origTtl - (now - stored)
    }

    predicate Matches(q: Question) {
      q.qtype == question.qtype && q.qclass == question.qclass && Lower(q.name) == Lower(question.name)
    }

    predicate AnswersQuestion(q: Question) {
      answering && Matches(q)
    }

    /** The item itself when it answers, else the one it retains. */
    function AnsweringItem(q: Question): Option<Item> {
      if AnswersQuestion(q) then Some(this)
      else if lastKnownGood.Some? && lastKnownGood.value.AnswersQuestion(q) then lastKnownGood
      else None
    }
  }

  datatype ResponseType = NoErrorType | Delegation | NameError | NoData | ServerError | OtherError | Meta | Update

  predicate Positive(t: ResponseType) {
    t == NoErrorType || t == Delegation
  }

  predicate Denial(t: ResponseType) {
    t == NameError || t == NoData || t == ServerError
  }

  /** A response, with what `response.Typify` makes of it and whether its authority section
      holds a SOA. */
  datatype Response = Response(message: Message, typified: ResponseType, hasSoa: bool, truncated: bool)

  // ---------------------------------------------------------------- what is cached, and as what

  /** A non-empty answer section that does not answer the question. */
  ghost predicate IsNodata(m: Message) {
    m.answer != [] && !AnswersMessage(m)
  }

  ghost function CacheType(r: Response): ResponseType {
    if r.typified == NoErrorType && r.hasSoa && IsNodata(r.message) then NoData else r.typified
  }

  ghost predicate HasKey(r: Response) {
    && !r.truncated && !(CacheType(r) in {OtherError, Meta, Update})
    && !(CacheType(r) == NameError && !r.hasSoa)
    && !(CacheType(r) == NoErrorType && !r.hasSoa && IsNodata(r.message))
  }

  /** What becomes of a response, from what the library makes of it. A success that answers
      its question, or has no answer section, is cached as a success; one that does not
      answer is cached as a denial if a SOA bounds it and not at all otherwise. A name error
      needs a SOA too. Truncated responses, other errors, meta queries and updates are never
      cached; everything else is cached as what it is. */
  lemma CachedAs(r: Response)
    ensures HasKey(r) <==>
            && !r.truncated && r.typified != OtherError && r.typified != Meta && r.typified != Update
            && (r.typified == NameError || (r.typified == NoErrorType && IsNodata(r.message)) ==> r.hasSoa)
    ensures HasKey(r) ==>
              CacheType(r) == if r.typified == NoErrorType && r.message.answer != [] && !AnswersMessage(r.message) then NoData else r.typified
    ensures HasKey(r) ==> Positive(CacheType(r)) || Denial(CacheType(r))
  {
  }

  /** Reclassification and key together keep non-answers out of the positive cache: of what
      is cached as a plain success, only responses with an empty answer section do not
      answer their question. */
  lemma SuccessAnswers(r: Response)
    requires HasKey(r) && CacheType(r) == NoErrorType && r.message.answer != []
    ensures AnswersMessage(r.message)
  {
  }

  method CacheResponseType(r: Response) returns (t: ResponseType)
    ensures t == CacheType(r)
  {
    if r.typified == NoErrorType && r.hasSoa {
      var nodata := NodataResponse(r.message);
      if nodata {
        return NoData;
      }
    }
    return r.typified;
  }

  method NodataResponse(m: Message) returns (nodata: bool)
    ensures nodata <==> IsNodata(m)
  {
    if m.answer == [] {
      return false;
    }
    var answers := AnswersQuestion(m);
    return !answers;
  }

  method KeyFor(r: Response, t: ResponseType) returns (hasKey: bool)
    requires t == CacheType(r)
    ensures hasKey <==> HasKey(r)
  {
    if r.truncated || t == OtherError || t == Meta || t == Update || (t == NameError && !r.hasSoa) {
      return false;
    }
    if t == NoErrorType && !r.hasSoa {
      var nodata := NodataResponse(r.message);
      return !nodata;
    }
    return true;
  }

  // ---------------------------------------------------------------- writes and lookups

  /** A response about to be written: whether it matches the request (`matched`), and
      whether its zone is excepted from caching. */
  datatype Write = Write(key: Key, response: Response, ttl: nat, now: int, prefetch: bool, matched: bool, excepted: bool)

  function Asked(w: Write): Question {
    if w.response.message.question == [] then Question("", 0, 0) else w.response.message.question[0]
  }

  ghost predicate Answering(w: Write) {
    AnswersMessage(w.response.message)
  }

  ghost predicate Cached(w: Write) {
    HasKey(w.response) && w.ttl > 0 && w.matched && !w.excepted
  }

  /** The key is computed from the question. */
  predicate WellFormed(w: Write) {
    w.key.name == Lower(Asked(w).name) && w.key.qtype == Asked(w).qtype && w.key.qclass == Asked(w).qclass
  }

  datatype Caches = Caches(pcache: map<Key, Item>, ncache: map<Key, Item>)

  datatype Policy = Policy(preferPositive: bool, staleUpTo: nat)

  ghost function NewItem(w: Write): Item {
    Item(Asked(w), w.response.message.rcode, Answering(w), None, w.ttl, w.now)
  }

  ghost function Retained(p: Policy, c: Caches, w: Write): Option<Item> {
    if p.preferPositive && !Answering(w) && w.key in c.pcache then c.pcache[w.key].AnsweringItem(Asked(w)) else None
  }

  ghost function Stored(p: Policy, c: Caches, w: Write): Caches {
    if !Cached(w) then c
    else if Positive(CacheType(w.response)) then
      var i := NewItem(w).(lastKnownGood := Retained(p, c, w));
      c.(pcache := c.pcache[w.key := i],
         ncache := if (!p.preferPositive && w.prefetch) || (p.preferPositive && Answering(w)) then c.ncache - {w.key} else c.ncache)
    else if Denial(CacheType(w.response)) then c.(ncache := c.ncache[w.key := NewItem(w)])
    else c
  }

  /** Fresh, or stale by less than the configured span. */
  predicate Usable(p: Policy, i: Item, now: int) {
    i.Ttl(now) > 0 || (p.staleUpTo > 0 && -i.Ttl(now) < p.staleUpTo)
  }

  function PositiveHit(p: Policy, c: Caches, k: Key, q: Question, now: int): Option<Item> {
    if k in c.pcache && c.pcache[k].Matches(q) && Usable(p, c.pcache[k], now) then Some(c.pcache[k]) else None
  }

  function Lookup(p: Policy, c: Caches, k: Key, q: Question, now: int): Option<Item> {
    var preferred := if p.preferPositive && p.staleUpTo > 0 && k in c.pcache then c.pcache[k].AnsweringItem(q) else None;
    if preferred.Some? && Usable(p, preferred.value, now) then preferred
    else if k in c.ncache && c.ncache[k].Matches(q) && Usable(p, c.ncache[k], now) then
      if c.ncache[k].rcode == RCODE_SERVFAIL && PositiveHit(p, c, k, q, now).Some? then PositiveHit(p, c, k, q, now)
      else Some(c.ncache[k])
    else PositiveHit(p, c, k, q, now)
  }

  // ---------------------------------------------------------------- the cache object

  class Cache {
    const policy: Policy
    var pcache: map<Key, Item>
    var ncache: map<Key, Item>

    function View(): Caches
      reads this
    {
      Caches(pcache, ncache)
    }

    constructor (policy: Policy)
      ensures View() == Caches(map[], map[]) && this.policy == policy
    {
      this.policy := policy;
      pcache, ncache := map[], map[];
    }

    /** `WriteMsg`: classify, find the key, and store what has one. */
    method WriteMsg(w: Write)
      modifies this
      ensures View() == Stored(policy, old(View()), w)
    {
      var t := CacheResponseType(w.response);
      var hasKey := KeyFor(w.response, t);
      if hasKey && w.ttl > 0 && w.matched {
        Set(w, t);
      }
    }

    method Set(w: Write, t: ResponseType)
      requires t == CacheType(w.response) && HasKey(w.response) && w.ttl > 0 && w.matched
      modifies this
      ensures View() == Stored(policy, old(View()), w)
    {
      if w.excepted {
        return;
      }
      var answering := AnswersQuestion(w.response.message);
      var i := Item(Asked(w), w.response.message.rcode, answering, None, w.ttl, w.now);
      if Positive(t) {
        if policy.preferPositive && !i.answering && w.key in pcache {
          i := i.(lastKnownGood := pcache[w.key].AnsweringItem(Asked(w)));
        }
        pcache := pcache[w.key := i];
        if (!policy.preferPositive && w.prefetch) || (policy.preferPositive && i.answering) {
          ncache := ncache - {w.key};
        }
      } else if Denial(t) {
        ncache := ncache[w.key := i];
      }
    }

    method GetIfNotStale(k: Key, q: Question, now: int) returns (r: Option<Item>)
      ensures r == Lookup(policy, View(), k, q, now)
    {
      if policy.preferPositive && policy.staleUpTo > 0 && k in pcache {
        var i := pcache[k].AnsweringItem(q);
        if i.Some? {
          var ttl := i.value.Ttl(now);
          if ttl > 0 || -ttl < policy.staleUpTo {
            return i;
          }
        }
      }
      if k in ncache {
        var i := ncache[k];
        if i.Matches(q) && Usable(policy, i, now) {
          if i.rcode == RCODE_SERVFAIL && k in pcache && pcache[k].Matches(q) && Usable(policy, pcache[k], now) {
            return Some(pcache[k]);
          }
          return Some(i);
        }
      }
      if k in pcache && pcache[k].Matches(q) && Usable(policy, pcache[k], now) {
        return Some(pcache[k]);
      }
      return None;
    }
  }

  // ---------------------------------------------------------------- histories

  ghost function AfterWrites(p: Policy, ws: seq<Write>): Caches {
    if ws == [] then Caches(map[], map[]) else Stored(p, AfterWrites(p, ws[..|ws| - 1]), Last(ws))
  }

  /** The most recent cached response for the key that answers its question. */
  ghost function LastAnswer(ws: seq<Write>, k: Key): Option<Item> {
    if ws == [] then None
    else
      var w := Last(ws);
      if w.key == k && Cached(w) && Positive(CacheType(w.response)) && Answering(w) then Some(NewItem(w))
      else LastAnswer(ws[..|ws| - 1], k)
  }

  /** A question that hashes to the key. */
  predicate Asks(q: Question, k: Key) {
    Lower(q.name) == k.name && q.qtype == k.qtype && q.qclass == k.qclass
  }

  /** The positive cache retains, under every key, the last answer. */
  ghost predicate Retains(c: Caches, ws: seq<Write>) {
    forall k, q :: Asks(q, k) ==>
      LastAnswer(ws, k) == if k in c.pcache then c.pcache[k].AnsweringItem(q) else None
  }

  lemma RetainStep(p: Policy, c: Caches, ws: seq<Write>, w: Write)
    requires p.preferPositive && Retains(c, ws) && WellFormed(w)
    ensures Retains(Stored(p, c, w), ws + [w])
  {
    var c' := Stored(p, c, w);
    var ws' := ws + [w];
    assert ws'[..|ws'| - 1] == ws && Last(ws') == w;
    forall k, q | Asks(q, k)
      ensures LastAnswer(ws', k) == if k in c'.pcache then c'.pcache[k].AnsweringItem(q) else None
    {
      assert Asks(Asked(w), w.key);
      assert LastAnswer(ws, k) == if k in c.pcache then c.pcache[k].AnsweringItem(q) else None;
      assert LastAnswer(ws, w.key) == if w.key in c.pcache then c.pcache[w.key].AnsweringItem(Asked(w)) else None;
      AnswerMatches(ws, k, q);
    }
  }

  lemma {:induction false} AnswerMatches(ws: seq<Write>, k: Key, q: Question)
    requires Asks(q, k)
    ensures LastAnswer(ws, k).Some? ==> LastAnswer(ws, k).value.answering && LastAnswer(ws, k).value.lastKnownGood.None?
  {
    if ws != [] {
      AnswerMatches(ws[..|ws| - 1], k, q);
    }
  }

  lemma {:induction false} HistoryRetains(p: Policy, ws: seq<Write>)
    requires p.preferPositive && forall w :: w in ws ==> WellFormed(w)
    ensures Retains(AfterWrites(p, ws), ws)
  {
    if ws != [] {
      var before := ws[..|ws| - 1];
      HistoryRetains(p, before);
      assert Last(ws) in ws;
      RetainStep(p, AfterWrites(p, before), before, Last(ws));
      assert before + [Last(ws)] == ws;
    }
  }

  /** Prefer-positive retention, over every history of positive, non-answering and denial
      writes for any keys: a lookup returns the most recently cached answer exactly until
      its age reaches its TTL plus the configured stale span. */
  lemma PreferPositiveIff(p: Policy, ws: seq<Write>, k: Key, q: Question, now: int)
    requires p.preferPositive && p.staleUpTo > 0 && Asks(q, k) && LastAnswer(ws, k).Some?
    requires forall w :: w in ws ==> WellFormed(w)
    ensures var g := LastAnswer(ws, k).value;
            Lookup(p, AfterWrites(p, ws), k, q, now) == Some(g) <==> now - g.stored < g.origTtl + p.staleUpTo
  {
    HistoryRetains(p, ws);
    var c, g := AfterWrites(p, ws), LastAnswer(ws, k).value;
    assert k in c.pcache && c.pcache[k].AnsweringItem(q) == Some(g);
    assert Usable(p, g, now) <==> now - g.stored < g.origTtl + p.staleUpTo;
  }

  // ---------------------------------------------------------------- which entry a lookup chooses

  /** The item is for this question, letter case aside, and its age has not reached its TTL
      plus the stale span. */
  predicate Serves(p: Policy, i: Item, q: Question, now: int) {
    && i.question.qtype == q.qtype && i.question.qclass == q.qclass && Lower(i.question.name) == Lower(q.name)
    && now - i.stored < i.origTtl + p.staleUpTo
  }

  function DenialUnder(c: Caches, k: Key): Option<Item> {
    if k in c.ncache then Some(c.ncache[k]) else None
  }

  function PositiveUnder(c: Caches, k: Key): Option<Item> {
    if k in c.pcache then Some(c.pcache[k]) else None
  }

  predicate SomeServes(p: Policy, i: Option<Item>, q: Question, now: int) {
    i.Some? && Serves(p, i.value, q, now)
  }

  /** `i` is an answer that prefer_positive puts before everything else: the positive entry
      itself, or the one it retains. */
  predicate Preferred(p: Policy, c: Caches, k: Key, q: Question, now: int, i: Item) {
    && p.preferPositive && p.staleUpTo > 0 && k in c.pcache && Serves(p, i, q, now) && i.answering
    && (i == c.pcache[k]
        || (c.pcache[k].lastKnownGood == Some(i) && !(c.pcache[k].answering && c.pcache[k].Matches(q))))
  }

  /** The choice, for every policy and every state of the caches: an entry that serves the
      question or nothing; a preferred answer first; then a denial, except that a SERVFAIL
      yields to a positive entry; then the positive entry. */
  lemma LookupMeans(p: Policy, c: Caches, k: Key, q: Question, now: int)
    ensures var r := Lookup(p, c, k, q, now);
            var denial, positive := DenialUnder(c, k), PositiveUnder(c, k);
            && (r.Some? ==> Serves(p, r.value, q, now))
            && (forall i :: Preferred(p, c, k, q, now, i) ==> r == Some(i))
            && ((forall i :: !Preferred(p, c, k, q, now, i)) ==>
                  if SomeServes(p, denial, q, now) then
                    if denial.value.rcode == RCODE_SERVFAIL && SomeServes(p, positive, q, now) then r == positive else r == denial
                  else if SomeServes(p, positive, q, now) then r == positive
                  else r == None)
  {
    var preferred := if p.preferPositive && p.staleUpTo > 0 && k in c.pcache then c.pcache[k].AnsweringItem(q) else None;
    if preferred.Some? && Usable(p, preferred.value, now) {
      assert Preferred(p, c, k, q, now, preferred.value);
    }
  }

  /** What a write does: nothing when the response has no key, lives no time, does not match
      its request or is of an excepted zone; otherwise it becomes the positive entry or the
      denial under its key, with its own question, code, verdict, TTL and time. Entries
      under other keys are never touched. */
  lemma StoredMeans(p: Policy, c: Caches, w: Write, k: Key)
    ensures var c' := Stored(p, c, w);
            var kept := HasKey(w.response) && w.ttl > 0 && w.matched && !w.excepted;
            && (!kept ==> c' == c)
            && (k != w.key ==> PositiveUnder(c', k) == PositiveUnder(c, k) && DenialUnder(c', k) == DenialUnder(c, k))
            && (kept && Denial(CacheType(w.response)) ==>
                  c'.pcache == c.pcache && DenialUnder(c', w.key) == Some(NewItem(w)))
            && (kept && Positive(CacheType(w.response)) ==>
                  && w.key in c'.pcache
                  && var i := c'.pcache[w.key];
                     && i.question == Asked(w) && i.rcode == w.response.message.rcode && i.answering == Answering(w)
                     && i.origTtl == w.ttl && i.stored == w.now)
  {
  }

  // ---------------------------------------------------------------- denials over histories

  /** What clears a denial: an answer under prefer_positive, a positive refresh otherwise. */
  ghost predicate Clears(p: Policy, w: Write) {
    Positive(CacheType(w.response)) && if p.preferPositive then Answering(w) else w.prefetch
  }

  /** The most recent denial cached for the key that nothing has cleared since. */
  ghost function OpenDenial(p: Policy, ws: seq<Write>, k: Key): Option<Item> {
    if ws == [] then None
    else
      var w := Last(ws);
      if w.key == k && Cached(w) && Denial(CacheType(w.response)) then Some(NewItem(w))
      else if w.key == k && Cached(w) && Clears(p, w) then None
      else OpenDenial(p, ws[..|ws| - 1], k)
  }

  /** Over every history and under every policy the negative cache holds, under every key,
      exactly the last denial that nothing has cleared. */
  lemma {:induction false} HistoryDenies(p: Policy, ws: seq<Write>, k: Key)
    ensures DenialUnder(AfterWrites(p, ws), k) == OpenDenial(p, ws, k)
  {
    if ws != [] {
      HistoryDenies(p, ws[..|ws| - 1], k);
    }
  }

  /** The last write that was cached under the key at all. */
  ghost function LastCached(ws: seq<Write>, k: Key): (r: Option<Write>)
    ensures r.Some? ==> r.value in ws && r.value.key == k && Cached(r.value)
  {
    if ws == [] then None
    else if Last(ws).key == k && Cached(Last(ws)) then Some(Last(ws))
    else LastCached(ws[..|ws| - 1], k)
  }

  lemma {:induction false} LastDenialIsOpen(p: Policy, ws: seq<Write>, k: Key)
    requires LastCached(ws, k).Some? && Denial(CacheType(LastCached(ws, k).value.response))
    ensures OpenDenial(p, ws, k) == Some(NewItem(LastCached(ws, k).value))
  {
    if !(Last(ws).key == k && Cached(Last(ws))) {
      LastDenialIsOpen(p, ws[..|ws| - 1], k);
    }
  }

  lemma {:induction false} LastPositiveIsHeld(p: Policy, ws: seq<Write>, k: Key)
    requires LastCached(ws, k).Some? && Positive(CacheType(LastCached(ws, k).value.response)) && !p.preferPositive
    ensures PositiveUnder(AfterWrites(p, ws), k) == Some(NewItem(LastCached(ws, k).value))
  {
    if !(Last(ws).key == k && Cached(Last(ws))) {
      LastPositiveIsHeld(p, ws[..|ws| - 1], k);
    }
  }

  /** The last answer, where prefer_positive applies, has run out. */
  ghost predicate NoLiveAnswer(p: Policy, ws: seq<Write>, k: Key, now: int) {
    p.preferPositive && p.staleUpTo > 0 && LastAnswer(ws, k).Some? ==>
      var g := LastAnswer(ws, k).value; now - g.stored >= g.origTtl + p.staleUpTo
  }

  lemma NothingPreferred(p: Policy, ws: seq<Write>, k: Key, q: Question, now: int)
    requires Asks(q, k) && (forall w :: w in ws ==> WellFormed(w)) && NoLiveAnswer(p, ws, k, now)
    ensures forall i :: !Preferred(p, AfterWrites(p, ws), k, q, now, i)
  {
    var c := AfterWrites(p, ws);
    if p.preferPositive {
      HistoryRetains(p, ws);
      forall i | Preferred(p, c, k, q, now, i) ensures LastAnswer(ws, k) == Some(i) {
        assert c.pcache[k].AnsweringItem(q) == Some(i);
      }
    }
  }

  /** Over every history and under every policy: a denial other than SERVFAIL that is the
      last thing cached for its question is what a lookup returns, exactly until its age
      reaches its TTL plus the stale span; unless an answer is still preferred. */
  lemma DenialStands(p: Policy, ws: seq<Write>, k: Key, q: Question, now: int)
    requires Asks(q, k) && (forall w :: w in ws ==> WellFormed(w)) && NoLiveAnswer(p, ws, k, now)
    requires LastCached(ws, k).Some? && Denial(CacheType(LastCached(ws, k).value.response))
    requires LastCached(ws, k).value.response.message.rcode != RCODE_SERVFAIL
    ensures var w := LastCached(ws, k).value;
            Lookup(p, AfterWrites(p, ws), k, q, now) == Some(NewItem(w)) <==> now - w.now < w.ttl + p.staleUpTo
  {
    HistoryDenies(p, ws, k);
    LastDenialIsOpen(p, ws, k);
    NothingPreferred(p, ws, k, q, now);
    LookupMeans(p, AfterWrites(p, ws), k, q, now);
  }

  /** Without prefer_positive: a positive response that is the last thing cached for its
      question is what a lookup returns, exactly until that age, provided no denial that
      serves and is not SERVFAIL is still open before it. */
  lemma PositiveStands(p: Policy, ws: seq<Write>, k: Key, q: Question, now: int)
    requires Asks(q, k) && (forall w :: w in ws ==> WellFormed(w)) && !p.preferPositive
    requires LastCached(ws, k).Some? && Positive(CacheType(LastCached(ws, k).value.response))
    requires var d := OpenDenial(p, ws, k); SomeServes(p, d, q, now) ==> d.value.rcode == RCODE_SERVFAIL
    ensures var w := LastCached(ws, k).value;
            Lookup(p, AfterWrites(p, ws), k, q, now) == Some(NewItem(w)) <==> now - w.now < w.ttl + p.staleUpTo
  {
    HistoryDenies(p, ws, k);
    LastPositiveIsHeld(p, ws, k);
    LookupMeans(p, AfterWrites(p, ws), k, q, now);
  }
}
