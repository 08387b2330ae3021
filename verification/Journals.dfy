/**
 The primary's IXFR journal (ixfr/journal.go): the difference of two
 generations, the bounded history, reconciliation with the stored zone after a
 restart, and the record streams it answers with.
 */
module Journals {
  import opened Collections
  import opened Records
  import opened Serials

  /** One RFC 1995 difference sequence. */
  datatype Increment = Increment(oldSerial: Serial, newSerial: Serial, deleted: seq<RR>, added: seq<RR>)

  datatype JournalState = JournalState(history: nat, incs: seq<Increment>, current: seq<RR>)

  datatype Kind = Uptodate | Axfr | Ixfr

  // ---------------------------------------------------------------- differences

  /** The records of `a`, SOA excluded, that `b` does not hold with the same TTL. */
  function Diff(a: seq<RR>, b: seq<RR>): (r: seq<RR>)
    ensures forall x :: x in r <==> x in Data(a) && x !in b
    ensures NoDup(a) ==> NoDup(r)
  {
    if a == [] then []
    else if a[0].Rec? && a[0] !in b then [a[0]] + Diff(a[1..], b)
    else Diff(a[1..], b)
  }

  lemma {:induction false} DiffAppend(a: seq<RR>, x: RR, b: seq<RR>)
    ensures Diff(a + [x], b) == Diff(a, b) + if x.Rec? && x !in b then [x] else []
  {
    if a == [] {
      assert [] + [x] == [x];
    } else {
      assert (a + [x])[1..] == a[1..] + [x];
      DiffAppend(a[1..], x, b);
    }
  }

  method DiffMissing(a: seq<RR>, b: seq<RR>) returns (out: seq<RR>)
    ensures out == Diff(a, b)
  {
    var have: set<RR> := {};
    for i := 0 to |b|
      invariant have == Data(b[..i])
    {
      assert b[..i + 1] == b[..i] + [b[i]];
      if b[i].Rec? {
        have := have + {b[i]};
      }
    }
    assert b[..|b|] == b;
    out := [];
    for i := 0 to |a|
      invariant out == Diff(a[..i], b)
    {
      DiffAppend(a[..i], a[i], b);
      assert a[..i + 1] == a[..i] + [a[i]];
      if a[i].Rec? && a[i] !in have {
        out := out + [a[i]];
      }
    }
    assert a[..|a|] == a;
  }

  function Delta(before: seq<RR>, after: seq<RR>): Increment {
    Increment(SerialOf(before), SerialOf(after), Diff(before, after), Diff(after, before))
  }

  // ---------------------------------------------------------------- history

  function Truncate(history: nat, incs: seq<Increment>): seq<Increment> {
    if |incs| > history then incs[|incs| - history..] else incs
  }

  function Committed(j: JournalState, before: seq<RR>, after: seq<RR>): JournalState {
    j.(incs := Truncate(j.history, j.incs + [Delta(before, after)]), current := after)
  }

  predicate Chained(incs: seq<Increment>) {
    forall i :: 1 <= i < |incs| ==> incs[i].oldSerial == incs[i - 1].newSerial
  }

  ghost predicate AllGenerations(gens: seq<seq<RR>>) {
    forall k :: 0 <= k < |gens| ==> Generation(gens[k])
  }

  /** `incs` is the recorded history of the generations `gens`, oldest first. */
  ghost predicate Justified(incs: seq<Increment>, gens: seq<seq<RR>>) {
    && |gens| == |incs| + 1
    && AllGenerations(gens)
    && forall k :: 0 <= k < |incs| ==> incs[k] == Delta(gens[k], gens[k + 1])
  }

  lemma JustifiedSuffix(incs: seq<Increment>, gens: seq<seq<RR>>, i: nat)
    requires Justified(incs, gens) && i <= |incs|
    ensures Justified(incs[i..], gens[i..]) && Last(gens[i..]) == Last(gens)
  {
  }

  lemma JustifiedChained(incs: seq<Increment>, gens: seq<seq<RR>>)
    requires Justified(incs, gens)
    ensures Chained(incs)
    ensures incs != [] ==> Last(incs).newSerial == SerialOf(Last(gens))
    ensures forall k :: 0 <= k < |incs| ==> incs[k].oldSerial == SerialOf(gens[k])
  {
    forall k | 0 <= k < |incs|
      ensures incs[k].oldSerial == SerialOf(gens[k]) && incs[k].newSerial == SerialOf(gens[k + 1])
    {
      assert incs[k] == Delta(gens[k], gens[k + 1]);
    }
  }

  /** Committing on top of the last generation keeps the history justified,
      whatever the truncation throws away. */
  lemma CommitJustified(j: JournalState, gens: seq<seq<RR>>, after: seq<RR>)
    requires Justified(j.incs, gens) && Generation(after)
    ensures var all := gens + [after];
            var j' := Committed(j, Last(gens), after);
            |j'.incs| <= |j.incs| + 1 && Justified(j'.incs, all[|all| - 1 - |j'.incs|..])
  {
    var all := gens + [after];
    var longer := j.incs + [Delta(Last(gens), after)];
    assert Justified(longer, all);
    var j' := Committed(j, Last(gens), after);
    JustifiedSuffix(longer, all, |longer| - |j'.incs|);
    assert longer[|longer| - |j'.incs|..] == j'.incs;
  }

  /** The journal after the commits gens[0] -> gens[1] -> ... -> gens[n]. */
  function AfterRun(history: nat, gens: seq<seq<RR>>, n: nat): (j: JournalState)
    requires n < |gens|
    ensures j.history == history && j.current == gens[n]
    ensures |j.incs| == if n <= history then n else history
  {
    if n == 0 then JournalState(history, [], gens[0])
    else Committed(AfterRun(history, gens, n - 1), gens[n - 1], gens[n])
  }

  /** The journal holds the true differences of the generations up to gens[n]. */
  ghost predicate Retains(j: JournalState, gens: seq<seq<RR>>, n: nat)
    requires n < |gens|
  {
    |j.incs| <= n && Justified(j.incs, gens[n - |j.incs|..n + 1])
  }

  /** A run of any length keeps exactly the last `history` differences, in order. */
  lemma {:induction false} RunRetains(history: nat, gens: seq<seq<RR>>, n: nat, j: JournalState)
    requires n < |gens| && AllGenerations(gens) && j == AfterRun(history, gens, n)
    ensures Retains(j, gens, n)
  {
    if n == 0 {
      RetainFirst(j, gens);
    } else {
      var i := AfterRun(history, gens, n - 1);
      RunRetains(history, gens, n - 1, i);
      RetainStep(i, gens, n);
    }
  }

  lemma RetainFirst(j: JournalState, gens: seq<seq<RR>>)
    requires gens != [] && Generation(gens[0]) && j.incs == []
    ensures Retains(j, gens, 0)
  {
    assert gens[0..1] == [gens[0]];
  }

  lemma RetainStep(j: JournalState, gens: seq<seq<RR>>, n: nat)
    requires 0 < n < |gens| && Generation(gens[n]) && Retains(j, gens, n - 1)
    ensures Retains(Committed(j, gens[n - 1], gens[n]), gens, n)
  {
    var first := n - 1 - |j.incs|;
    var kept := gens[first..n];
    assert Last(kept) == gens[n - 1];
    CommitJustified(j, kept, gens[n]);
    var j' := Committed(j, gens[n - 1], gens[n]);
    SuffixOfSlice(gens, first, n, |j'.incs|);
  }

  lemma SuffixOfSlice(gens: seq<seq<RR>>, first: nat, n: nat, k: nat)
    requires first <= n < |gens| && k <= n - first
    ensures var all := gens[first..n] + [gens[n]];
            all[|all| - 1 - k..] == gens[n - k..n + 1]
  {
    assert gens[first..n] + [gens[n]] == gens[first..n + 1];
    DropSlice(gens, first, n + 1, n - k);
  }

  // ---------------------------------------------------------------- restart

  /** The last index whose increment ends at `serial`, or -1. */
  function LastWith(incs: seq<Increment>, serial: Serial): (end: int)
    ensures -1 <= end < |incs|
    ensures end >= 0 ==> incs[end].newSerial == serial
    ensures forall k :: end < k < |incs| ==> incs[k].newSerial != serial
  {
    if incs == [] then -1
    else if Last(incs).newSerial == serial then |incs| - 1
    else LastWith(incs[..|incs| - 1], serial)
  }

  /** The first index from `start` on after which the increments chain. */
  function FirstChained(incs: seq<Increment>, start: nat): (r: nat)
    requires start <= |incs|
    ensures start <= r <= |incs| && Chained(incs[r..])
    ensures start < |incs| ==> r < |incs|
    ensures forall k :: start <= k < r ==> !Chained(incs[k..])
    decreases |incs| - start
  {
    if start == |incs| || Chained(incs[start..]) then start else FirstChained(incs, start + 1)
  }

  function LongestChain(incs: seq<Increment>): seq<Increment> {
    incs[FirstChained(incs, 0)..]
  }

  function Reconcile(incs: seq<Increment>, current: Serial): seq<Increment> {
    LongestChain(incs[..LastWith(incs, current) + 1])
  }

  /** `reconcile` keeps nothing exactly when no increment reaches the zone's serial. */
  lemma ReconcileEmptyIff(incs: seq<Increment>, current: Serial)
    ensures Reconcile(incs, current) == [] <==> forall k :: 0 <= k < |incs| ==> incs[k].newSerial != current
  {
    var end := LastWith(incs, current);
    if end < 0 {
      assert incs[..end + 1] == [];
    }
  }

  /** On any list of increments whatsoever, if `end` is just past the last one that
      reaches the zone's serial, `reconcile` keeps the longest chained run ending there. */
  lemma ReconcileKeepsLongestRun(incs: seq<Increment>, current: Serial, end: nat)
    requires 0 < end <= |incs| && incs[end - 1].newSerial == current
    requires forall k :: end <= k < |incs| ==> incs[k].newSerial != current
    ensures 0 < |Reconcile(incs, current)| <= end
    ensures Reconcile(incs, current) == incs[end - |Reconcile(incs, current)|..end]
    ensures Chained(Reconcile(incs, current))
    ensures forall k :: 0 <= k < end - |Reconcile(incs, current)| ==> !Chained(incs[k..end])
  {
    assert LastWith(incs, current) == end - 1;
    var kept := incs[..end];
    var start := FirstChained(kept, 0);
    assert Reconcile(incs, current) == kept[start..] == incs[start..end];
    forall k | 0 <= k < start ensures !Chained(incs[k..end]) {
      assert kept[k..] == incs[k..end];
    }
  }

  /** Everything a run recorded survives reconciliation with the zone it ends at. */
  lemma ReconcileKeepsJustified(incs: seq<Increment>, gens: seq<seq<RR>>)
    requires Justified(incs, gens)
    ensures Reconcile(incs, SerialOf(Last(gens))) == incs
  {
    JustifiedChained(incs, gens);
    assert incs[..|incs|] == incs;
  }

  method IsChained(incs: seq<Increment>) returns (r: bool)
    ensures r == Chained(incs)
  {
    var i := 1;
    while i < |incs|
      invariant 1 <= i
      invariant forall k :: 1 <= k < i && k < |incs| ==> incs[k].oldSerial == incs[k - 1].newSerial
    {
      if incs[i].oldSerial != incs[i - 1].newSerial {
        return false;
      }
      i := i + 1;
    }
    return true;
  }

  method ReconcileJournal(incs: seq<Increment>, current: Serial) returns (r: seq<Increment>)
    ensures r == Reconcile(incs, current)
  {
    var end := -1;
    for i := 0 to |incs|
      invariant -1 <= end < i
      invariant end >= 0 ==> incs[end].newSerial == current
      invariant forall k :: end < k < i ==> incs[k].newSerial != current
    {
      if incs[i].newSerial == current {
        end := i;
      }
    }
    assert end == LastWith(incs, current);
    if end < 0 {
      return [];
    }
    var kept := incs[..end + 1];
    for start := 0 to |kept|
      invariant FirstChained(kept, 0) == FirstChained(kept, start)
    {
      var ok := IsChained(kept[start..]);
      if ok {
        return kept[start..];
      }
    }
    return [];
  }

  // ---------------------------------------------------------------- streams

  function SoaWithSerial(soa: RR, serial: Serial): RR
    requires soa.Soa?
  {
    soa.(serial := serial)
  }

  function PrintIncrement(soa: RR, inc: Increment): seq<RR>
    requires soa.Soa?
  {
    [SoaWithSerial(soa, inc.oldSerial)] + inc.deleted + [SoaWithSerial(soa, inc.newSerial)] + inc.added
  }

  function PrintIncrements(soa: RR, incs: seq<Increment>): seq<RR>
    requires soa.Soa?
  {
    if incs == [] then [] else PrintIncrement(soa, incs[0]) + PrintIncrements(soa, incs[1..])
  }

  /** The incremental answer: the current SOA around the difference sequences. */
  function IxfrStream(soa: RR, incs: seq<Increment>): seq<RR>
    requires soa.Soa?
  {
    [soa] + PrintIncrements(soa, incs) + [soa]
  }

  function DataRecords(rrs: seq<RR>): (r: seq<RR>)
    ensures forall x :: x in r <==> x in Data(rrs)
    ensures NoDup(rrs) ==> NoDup(r)
  {
    Diff(rrs, [])
  }

  function AxfrStream(rrs: seq<RR>): seq<RR> {
    match SoaOf(rrs)
    case None => rrs
    case Some(soa) => [soa] + DataRecords(rrs) + [soa]
  }

  /** The first retained increment that starts at `serial`, or |incs|. */
  function FirstFrom(incs: seq<Increment>, serial: Serial): (start: nat)
    ensures start <= |incs|
    ensures start < |incs| ==> incs[start].oldSerial == serial
    ensures forall k :: 0 <= k < start ==> incs[k].oldSerial != serial
  {
    if incs == [] || incs[0].oldSerial == serial then 0 else 1 + FirstFrom(incs[1..], serial)
  }

  function IxfrFrom(j: JournalState, serial: Serial): Option<seq<RR>> {
    var start := FirstFrom(j.incs, serial);
    if start == |j.incs| || SoaOf(j.current).None? || Last(j.incs).newSerial != SerialOf(j.current) then None
    else Some(IxfrStream(SoaOf(j.current).value, j.incs[start..]))
  }

  function Answer(j: JournalState, serial: Serial): (Kind, seq<RR>) {
    var cur := SerialOf(j.current);
    if serial == 0 then (Axfr, AxfrStream(j.current))
    else if serial == cur || SerialNewer(serial, cur) then
      (Uptodate, if SoaOf(j.current).Some? then [SoaOf(j.current).value] else [])
    else
      match IxfrFrom(j, serial)
      case None => (Axfr, AxfrStream(j.current))
      case Some(stream) => (Ixfr, stream)
  }

  /** The increments an incremental answer to `serial` carries: from the first one that
      starts there. */
  ghost predicate StartsAt(incs: seq<Increment>, serial: Serial, m: int) {
    0 <= m < |incs| && incs[m].oldSerial == serial && forall k :: 0 <= k < m ==> incs[k].oldSerial != serial
  }

  /** What a serial is answered with. It is up to date, and gets the SOA alone, exactly when
      it is the current one or ahead of it under RFC 1982; it is sent increments exactly
      when it is behind, some retained increment starts at it and the last one ends at the
      current zone; otherwise, and always for serial 0, the whole zone. */
  ghost predicate RightAnswer(j: JournalState, serial: Serial, kind: Kind, rrs: seq<RR>) {
    var cur, soa := SerialOf(j.current), SoaOf(j.current);
    && (kind == Uptodate <==> serial != 0 && (serial == cur || Ahead(serial, cur)))
    && (kind == Uptodate ==> rrs == if soa.Some? then [soa.value] else [])
    && (kind == Ixfr <==>
          && serial != 0 && serial != cur && !Ahead(serial, cur) && soa.Some?
          && (exists m :: StartsAt(j.incs, serial, m)) && Last(j.incs).newSerial == cur)
    && (kind == Ixfr ==> exists m :: StartsAt(j.incs, serial, m) && rrs == IxfrStream(soa.value, j.incs[m..]))
    && (kind == Axfr ==> rrs == AxfrStream(j.current))
  }

  lemma AnswerIsRight(j: JournalState, serial: Serial)
    ensures RightAnswer(j, serial, Answer(j, serial).0, Answer(j, serial).1)
  {
    var m := FirstFrom(j.incs, serial);
    ComparisonsAgree(serial, SerialOf(j.current));
    if m < |j.incs| {
      assert StartsAt(j.incs, serial, m);
    }
  }

  lemma {:induction false} PrintAppend(soa: RR, incs: seq<Increment>, inc: Increment)
    requires soa.Soa?
    ensures PrintIncrements(soa, incs + [inc]) == PrintIncrements(soa, incs) + PrintIncrement(soa, inc)
  {
    if incs == [] {
      assert [] + [inc] == [inc];
      assert PrintIncrements(soa, [inc]) == PrintIncrement(soa, inc) + [];
    } else {
      assert (incs + [inc])[1..] == incs[1..] + [inc];
      PrintAppend(soa, incs[1..], inc);
    }
  }

  method PrintStream(soa: RR, incs: seq<Increment>) returns (out: seq<RR>)
    requires soa.Soa?
    ensures out == IxfrStream(soa, incs)
  {
    var body := [];
    for i := 0 to |incs|
      invariant body == PrintIncrements(soa, incs[..i])
    {
      PrintAppend(soa, incs[..i], incs[i]);
      assert incs[..i + 1] == incs[..i] + [incs[i]];
      body := body + ([SoaWithSerial(soa, incs[i].oldSerial)] + incs[i].deleted
                      + [SoaWithSerial(soa, incs[i].newSerial)] + incs[i].added);
    }
    assert incs[..|incs|] == incs;
    out := [soa] + body + [soa];
  }

  // ---------------------------------------------------------------- the journal object

  class Journal {
    const history: nat
    const hasBackend: bool
    var incs: seq<Increment>
    var current: seq<RR>
    /** What the backend holds: the increments of the last successful save. */
    var saved: seq<Increment>

    function View(): JournalState
      reads this
    {
      JournalState(history, incs, current)
    }

    /** `loadJournal`: start from what the backend holds, reconciled with the zone. */
    constructor Load(history: nat, hasBackend: bool, saved: seq<Increment>, current: seq<RR>)
      ensures View() == JournalState(history, if hasBackend then Reconcile(saved, SerialOf(current)) else [], current)
      ensures this.hasBackend == hasBackend && this.saved == saved
    {
      this.history := history;
      this.hasBackend := hasBackend;
      this.saved := saved;
      this.current := current;
      var kept := [];
      if hasBackend {
        kept := ReconcileJournal(saved, SerialOf(current));
      }
      this.incs := kept;
    }

    /** `saveOk` is the backend's verdict on the write. */
    method Commit(before: seq<RR>, after: seq<RR>, saveOk: bool) returns (ok: bool)
      modifies this
      ensures ok <==> SoaOf(before).Some? && SoaOf(after).Some? && (hasBackend ==> saveOk)
      ensures ok ==> View() == Committed(old(View()), before, after)
      ensures ok ==> saved == if hasBackend then incs else old(saved)
      ensures !ok ==> unchanged(this)
    {
      var oldSoa := FindSoa(before);
      var newSoa := FindSoa(after);
      if oldSoa.None? || newSoa.None? {
        return false;
      }
      var deleted := DiffMissing(before, after);
      var added := DiffMissing(after, before);
      var next := incs + [Increment(oldSoa.value.serial, newSoa.value.serial, deleted, added)];
      if |next| > history {
        next := next[|next| - history..];
      }
      if hasBackend {
        if !saveOk {
          return false;
        }
        saved := next;
      }
      incs := next;
      current := after;
      return true;
    }

    method IxfrFromSerial(serial: Serial) returns (r: Option<seq<RR>>)
      ensures r == IxfrFrom(View(), serial)
    {
      var start := 0;
      while start < |incs| && incs[start].oldSerial != serial
        invariant start <= |incs|
        invariant FirstFrom(incs, serial) == start + FirstFrom(incs[start..], serial)
      {
        start := start + 1;
      }
      if start == |incs| {
        return None;
      }
      var newSoa := FindSoa(current);
      if newSoa.None? || Last(incs).newSerial != newSoa.value.serial {
        return None;
      }
      var out := PrintStream(newSoa.value, incs[start..]);
      return Some(out);
    }

    method Axfr() returns (out: seq<RR>)
      ensures out == AxfrStream(current)
    {
      var soa := FindSoa(current);
      if soa.None? {
        return current;
      }
      var data := [];
      for i := 0 to |current|
        invariant data == DataRecords(current[..i])
      {
        DiffAppend(current[..i], current[i], []);
        assert current[..i + 1] == current[..i] + [current[i]];
        if current[i].Rec? {
          data := data + [current[i]];
        }
      }
      assert current[..|current|] == current;
      out := [soa.value] + data + [soa.value];
    }

    method AnswerSerial(serial: Serial) returns (kind: Kind, rrs: seq<RR>)
      ensures (kind, rrs) == Answer(View(), serial)
      ensures RightAnswer(View(), serial, kind, rrs)
    {
      AnswerIsRight(View(), serial);
      var soa := FindSoa(current);
      var cur := if soa.Some? then soa.value.serial else 0;
      if serial != 0 {
        if serial == cur || SerialNewer(serial, cur) {
          return Uptodate, if soa.Some? then [soa.value] else [];
        }
        var stream := IxfrFromSerial(serial);
        if stream.Some? {
          return Ixfr, stream.value;
        }
      }
      rrs := Axfr();
      kind := Kind.Axfr;
    }
  }
}
