/**
 The secondary's side of an incremental transfer (secondary-persistent/ixfr.go):
 classifying a transfer, parsing an IXFR stream, and applying the increments.
 The parser is modelled as written; `ReadDifferences` is a separate reader
 following section 4 of RFC 1995.
 */
module IxfrReader {
  import opened Collections
  import opened Records
  import opened Serials
  import opened Journals

  // ---------------------------------------------------------------- classification

  /** `None` is the error return. */
  function Classify(rrs: seq<RR>): Option<Kind> {
    if rrs == [] || rrs[0].Rec? then None
    else if |rrs| == 1 then Some(Uptodate)
    else if Last(rrs).Rec? || Last(rrs).serial != rrs[0].serial then None
    else if exists i :: 1 <= i < |rrs| - 1 && rrs[i].Soa? && rrs[i].serial != rrs[0].serial then Some(Ixfr)
    else Some(Axfr)
  }

  /** Every transfer there can be, by outcome: an error unless it opens with a SOA and is
      that SOA alone or closes with one of the same serial; then up to date, incremental if
      some SOA inside has another serial, and full if none has. */
  lemma ClassifyMeans(rrs: seq<RR>)
    ensures Classify(rrs).None? <==> rrs == [] || rrs[0].Rec? || (|rrs| > 1 && (Last(rrs).Rec? || Last(rrs).serial != rrs[0].serial))
    ensures Classify(rrs) == Some(Uptodate) <==> |rrs| == 1 && rrs[0].Soa?
    ensures Classify(rrs) == Some(Axfr) ==> forall x :: x in rrs && x.Soa? ==> x.serial == rrs[0].serial
    ensures Classify(rrs) == Some(Ixfr) ==> exists x :: x in rrs && x.Soa? && x.serial != rrs[0].serial
  {
    if Classify(rrs) == Some(Axfr) {
      forall x | x in rrs && x.Soa? ensures x.serial == rrs[0].serial {
        var i :| 0 <= i < |rrs| && rrs[i] == x;
      }
    }
  }

  method ClassifyXfr(rrs: seq<RR>) returns (r: Option<Kind>)
    ensures r == Classify(rrs)
  {
    if |rrs| == 0 || rrs[0].Rec? {
      return None;
    }
    if |rrs| == 1 {
      return Some(Uptodate);
    }
    var last := rrs[|rrs| - 1];
    if last.Rec? || last.serial != rrs[0].serial {
      return None;
    }
    var innerDifferent := false;
    var i := 1;
    while i < |rrs| - 1
      invariant 1 <= i <= |rrs| - 1 && !innerDifferent
      invariant forall k :: 1 <= k < i && rrs[k].Soa? ==> rrs[k].serial == rrs[0].serial
    {
      if rrs[i].Soa? && rrs[i].serial != rrs[0].serial {
        return Some(Ixfr);
      }
      i := i + 1;
    }
    return Some(Axfr);
  }

  // ---------------------------------------------------------------- parsing

  datatype Mode = ModeNone | ModeDel | ModeAdd

  datatype Parse = Failed | Parsing(mode: Mode, cur: Increment, incs: seq<Increment>)

  const NO_INCREMENT := Increment(0, 0, [], [])
  const PARSE_START := Parsing(ModeNone, NO_INCREMENT, [])

  function Flush(p: Parse): Parse
    requires p.Parsing?
  {
    if p.mode == ModeNone then p
    else if p.mode != ModeAdd then Failed
    else if p.cur.oldSerial == p.cur.newSerial || !Less(p.cur.oldSerial, p.cur.newSerial) then Failed
    else p.(incs := p.incs + [p.cur], cur := NO_INCREMENT)
  }

  /** One record of the stream, `envelope` being the serial of its first SOA. */
  function ParseOne(p: Parse, rr: RR, envelope: Serial): Parse {
    if p.Failed? then Failed
    else if rr.Rec? then
      match p.mode
      case ModeNone => Failed
      case ModeDel => p.(cur := p.cur.(deleted := p.cur.deleted + [rr]))
      case ModeAdd => p.(cur := p.cur.(added := p.cur.added + [rr]))
    else if rr.serial != envelope then
      var q := if p.mode == ModeAdd then Flush(p) else p;
      if q.Failed? then Failed else q.(mode := ModeDel, cur := q.cur.(oldSerial := rr.serial))
    else if p.mode != ModeDel then Failed
    else p.(mode := ModeAdd, cur := p.cur.(newSerial := rr.serial))
  }

  function ParseAll(p: Parse, rrs: seq<RR>, envelope: Serial): Parse
    decreases |rrs|
  {
    if rrs == [] then p else ParseAll(ParseOne(p, rrs[0], envelope), rrs[1..], envelope)
  }

  function Finish(p: Parse, envelope: Serial): Option<seq<Increment>> {
    if p.Failed? then None
    else
      var q := Flush(p);
      if q.Failed? || q.incs == [] || Last(q.incs).newSerial != envelope then None else Some(q.incs)
  }

  function ParseIxfr(rrs: seq<RR>): Option<seq<Increment>> {
    if |rrs| < 2 || rrs[0].Rec? || Last(rrs).Rec? || Last(rrs).serial != rrs[0].serial then None
    else Finish(ParseAll(PARSE_START, rrs[1..|rrs| - 1], rrs[0].serial), rrs[0].serial)
  }

  lemma {:induction false} ParseConcat(p: Parse, a: seq<RR>, b: seq<RR>, envelope: Serial)
    ensures ParseAll(p, a + b, envelope) == ParseAll(ParseAll(p, a, envelope), b, envelope)
    decreases |a|
  {
    if a == [] {
      assert [] + b == b;
    } else {
      assert (a + b)[1..] == a[1..] + b;
      ParseConcat(ParseOne(p, a[0], envelope), a[1..], b, envelope);
    }
  }

  lemma {:induction false} ParseFailed(rrs: seq<RR>, envelope: Serial)
    ensures ParseAll(Failed, rrs, envelope) == Failed
  {
    if rrs != [] {
      ParseFailed(rrs[1..], envelope);
    }
  }

  /** The parser with the source's own loop and mutable variables. */
  method ParseStream(rrs: seq<RR>) returns (r: Option<seq<Increment>>)
    ensures r == ParseIxfr(rrs)
  {
    if |rrs| < 2 || rrs[0].Rec? {
      return None;
    }
    var last := rrs[|rrs| - 1];
    if last.Rec? || last.serial != rrs[0].serial {
      return None;
    }
    var envelope := rrs[0].serial;
    ghost var inner := rrs[1..|rrs| - 1];
    var mode, cur, incs := ModeNone, NO_INCREMENT, [];
    var i := 1;
    while i < |rrs| - 1
      invariant 1 <= i <= |rrs| - 1
      invariant ParseAll(PARSE_START, inner, envelope) == ParseAll(Parsing(mode, cur, incs), inner[i - 1..], envelope)
    {
      var rr := rrs[i];
      assert inner[i - 1..][0] == rr && inner[i - 1..][1..] == inner[i..];
      ParseFailed(inner[i..], envelope);
      if rr.Rec? {
        match mode
        case ModeDel => cur := cur.(deleted := cur.deleted + [rr]);
        case ModeAdd => cur := cur.(added := cur.added + [rr]);
        case ModeNone => return None;
      } else if rr.serial != envelope {
        if mode == ModeAdd {
          if cur.oldSerial == cur.newSerial || !Less(cur.oldSerial, cur.newSerial) {
            return None;
          }
          incs, cur := incs + [cur], NO_INCREMENT;
        }
        mode := ModeDel;
        cur := cur.(oldSerial := rr.serial);
      } else {
        if mode != ModeDel {
          return None;
        }
        mode := ModeAdd;
        cur := cur.(newSerial := rr.serial);
      }
      i := i + 1;
    }
    if mode == ModeDel || (mode == ModeAdd && !Less(cur.oldSerial, cur.newSerial)) {
      return None;
    }
    if mode == ModeAdd {
      incs := incs + [cur];
    }
    if incs == [] || incs[|incs| - 1].newSerial != envelope {
      return None;
    }
    return Some(incs);
  }

  // ---------------------------------------------------------------- a reader after RFC 1995

  /** How many records from the front of `rrs` are not SOA records. */
  function DataRun(rrs: seq<RR>): (n: nat)
    ensures n <= |rrs|
    ensures forall k :: 0 <= k < n ==> rrs[k].Rec?
    ensures n < |rrs| ==> rrs[n].Soa?
  {
    if rrs == [] || rrs[0].Soa? then 0 else 1 + DataRun(rrs[1..])
  }

  /** Section 4 of RFC 1995: difference sequences, each an old SOA, the deleted
      records, a new SOA and the added records, up to the closing SOA. */
  function ReadDifferences(rrs: seq<RR>): Option<seq<Increment>>
    decreases |rrs|
  {
    if rrs == [] || rrs[0].Rec? then None
    else if |rrs| == 1 then Some([])
    else
      var rest := rrs[1..];
      var d := DataRun(rest);
      if d == |rest| then None
      else
        var rest' := rest[d + 1..];
        var a := DataRun(rest');
        match ReadDifferences(rest'[a..])
        case None => None
        case Some(more) => Some([Increment(rrs[0].serial, rest[d].serial, rest[..d], rest'[..a])] + more)
  }

  function ReadStream(rrs: seq<RR>): Option<seq<Increment>> {
    if rrs == [] || rrs[0].Rec? then None else ReadDifferences(rrs[1..])
  }

  predicate DataOnly(incs: seq<Increment>) {
    forall inc :: inc in incs ==>
      (forall r :: r in inc.deleted ==> r.Rec?) && (forall r :: r in inc.added ==> r.Rec?)
  }

  lemma {:induction false} DataRunIs(data: seq<RR>, rest: seq<RR>)
    requires (forall r :: r in data ==> r.Rec?) && rest != [] && rest[0].Soa?
    ensures DataRun(data + rest) == |data|
  {
    if data == [] {
      assert [] + rest == rest;
    } else {
      assert (data + rest)[1..] == data[1..] + rest && data[0] in data && (data + rest)[0] == data[0];
      DataRunIs(data[1..], rest);
    }
  }

  lemma ReadOne(s: seq<RR>, d: seq<RR>, n: RR, a: seq<RR>, tail: seq<RR>)
    requires s != [] && s[0].Soa? && n.Soa? && (forall r :: r in d ==> r.Rec?) && forall r :: r in a ==> r.Rec?
    requires s[1..] == d + ([n] + (a + tail))
    requires tail != [] && tail[0].Soa? && ReadDifferences(tail).Some?
    ensures ReadDifferences(s) == Some([Increment(s[0].serial, n.serial, d, a)] + ReadDifferences(tail).value)
  {
    var rest := s[1..];
    var rest' := rest[|d| + 1..];
    assert DataRun(rest) == |d| by { DataRunIs(d, [n] + (a + tail)); }
    assert rest' == a + tail;
    assert DataRun(rest') == |a| by { DataRunIs(a, tail); }
    assert rest'[|a|..] == tail && rest'[..|a|] == a;
    assert rest[..|d|] == d && rest[|d|] == n;
  }

  /** What the primary prints, a reader built from the RFC reads back exactly. */
  lemma {:induction false} ReadPrinted(soa: RR, incs: seq<Increment>)
    requires soa.Soa? && DataOnly(incs)
    ensures ReadDifferences(PrintIncrements(soa, incs) + [soa]) == Some(incs)
    decreases |incs|
  {
    if incs == [] {
      assert PrintIncrements(soa, incs) + [soa] == [soa];
    } else {
      var inc := incs[0];
      var tail := PrintIncrements(soa, incs[1..]) + [soa];
      var o, n := SoaWithSerial(soa, inc.oldSerial), SoaWithSerial(soa, inc.newSerial);
      ReadPrinted(soa, incs[1..]);
      PrintedStartsWithSoa(soa, incs[1..]);
      var s := PrintIncrements(soa, incs) + [soa];
      PrintedShape(soa, incs);
      ReadOne(s, inc.deleted, n, inc.added, tail);
      assert incs == [inc] + incs[1..];
    }
  }

  lemma PrintedShape(soa: RR, incs: seq<Increment>)
    requires soa.Soa? && incs != []
    ensures var s := PrintIncrements(soa, incs) + [soa];
            var tail := PrintIncrements(soa, incs[1..]) + [soa];
            && s[0] == SoaWithSerial(soa, incs[0].oldSerial)
            && s[1..] == incs[0].deleted + ([SoaWithSerial(soa, incs[0].newSerial)] + (incs[0].added + tail))
  {
    var o, n := SoaWithSerial(soa, incs[0].oldSerial), SoaWithSerial(soa, incs[0].newSerial);
    Regroup(o, incs[0].deleted, n, incs[0].added, PrintIncrements(soa, incs[1..]), soa);
  }

  lemma PrintedStartsWithSoa(soa: RR, incs: seq<Increment>)
    requires soa.Soa?
    ensures (PrintIncrements(soa, incs) + [soa])[0].Soa?
  {
  }

  /** The stream the primary prints reads back as the increments it printed, and every SOA
      in it is the current one but for its serial. */
  lemma ReadInvertsPrint(soa: RR, incs: seq<Increment>)
    requires soa.Soa? && DataOnly(incs)
    ensures ReadStream(IxfrStream(soa, incs)) == Some(incs)
    ensures forall x :: x in IxfrStream(soa, incs) && x.Soa? ==> x.(serial := soa.serial) == soa
  {
    assert IxfrStream(soa, incs)[1..] == PrintIncrements(soa, incs) + [soa];
    ReadPrinted(soa, incs);
    PrintedSoas(soa, incs);
  }

  lemma {:induction false} PrintedSoas(soa: RR, incs: seq<Increment>)
    requires soa.Soa? && DataOnly(incs)
    ensures forall x :: x in PrintIncrements(soa, incs) && x.Soa? ==> x.(serial := soa.serial) == soa
  {
    if incs != [] {
      assert incs[0] in incs;
      PrintedSoas(soa, incs[1..]);
    }
  }

  // ---------------------------------------------------------------- what the parser accepts at all

  /** The grammar `parseIXFR` amounts to, read by descent: one or more SOAs of other serials,
      each followed by records to delete; a SOA of the final serial, followed by records to
      add; and so on. Each such group is one increment, from the last of the other serials. */
  function ReadGroups(s: seq<RR>, envelope: Serial, del: seq<RR>): Option<seq<Increment>>
    decreases |s|
  {
    if s == [] || s[0].Rec? || s[0].serial == envelope then None
    else
      var rest := s[1..];
      var d := DataRun(rest);
      if d == |rest| then None
      else if rest[d].serial != envelope then ReadGroups(rest[d..], envelope, del + rest[..d])
      else
        var rest' := rest[d + 1..];
        var a := DataRun(rest');
        var inc := Increment(s[0].serial, envelope, del + rest[..d], rest'[..a]);
        if !Less(inc.oldSerial, envelope) then None
        else if a == |rest'| then Some([inc])
        else Prepend([inc], ReadGroups(rest'[a..], envelope, []))
  }

  function Prepend(incs: seq<Increment>, more: Option<seq<Increment>>): Option<seq<Increment>> {
    if more.None? then None else Some(incs + more.value)
  }

  lemma RunIsData(s: seq<RR>)
    ensures forall r :: r in s[..DataRun(s)] ==> r.Rec?
  {
  }

  /** The parser past a SOA of another serial and the records behind it. */
  lemma ParseOldPart(p: Parse, s: seq<RR>, d: nat, envelope: Serial)
    requires p.Parsing? && p.mode != ModeAdd && s != [] && s[0].Soa? && s[0].serial != envelope && d == DataRun(s[1..])
    ensures ParseAll(p, s, envelope)
         == ParseAll(p.(mode := ModeDel, cur := p.cur.(oldSerial := s[0].serial, deleted := p.cur.deleted + s[1..][..d])), s[1..][d..], envelope)
  {
    var rest := s[1..];
    RunIsData(rest);
    var p1 := p.(mode := ModeDel, cur := p.cur.(oldSerial := s[0].serial));
    ParseConcat(p1, rest[..d], rest[d..], envelope);
    assert rest[..d] + rest[d..] == rest;
    ParseDeletes(p1, rest[..d], envelope);
  }

  /** The parser past the SOA of the final serial and the records behind it. */
  lemma ParseNewPart(p: Parse, s: seq<RR>, a: nat, envelope: Serial)
    requires p.Parsing? && p.mode == ModeDel && p.cur.added == [] && s != [] && s[0].Soa? && s[0].serial == envelope
    requires a == DataRun(s[1..])
    ensures ParseAll(p, s, envelope)
         == ParseAll(p.(mode := ModeAdd, cur := p.cur.(newSerial := envelope, added := s[1..][..a])), s[1..][a..], envelope)
  {
    var rest := s[1..];
    RunIsData(rest);
    var p1 := p.(mode := ModeAdd, cur := p.cur.(newSerial := envelope));
    ParseConcat(p1, rest[..a], rest[a..], envelope);
    assert rest[..a] + rest[a..] == rest;
    ParseAdds(p1, rest[..a], envelope);
    assert [] + rest[..a] == rest[..a];
  }

  /** The parser at the end of a group: the group is flushed, or nothing is. */
  lemma ParseGroupEnd(p: Parse, s: seq<RR>, envelope: Serial)
    requires p.Parsing? && p.mode == ModeAdd && p.cur.newSerial == envelope && p.cur.oldSerial != envelope
    requires s != [] ==> s[0].Soa?
    ensures s == [] ==>
              Finish(ParseAll(p, s, envelope), envelope) == if Less(p.cur.oldSerial, envelope) then Some(p.incs + [p.cur]) else None
    ensures s != [] && (s[0].serial == envelope || !Less(p.cur.oldSerial, envelope)) ==> ParseAll(p, s, envelope) == Failed
    ensures s != [] && s[0].serial != envelope && Less(p.cur.oldSerial, envelope) ==>
              ParseAll(p, s, envelope) == ParseAll(Parsing(ModeNone, NO_INCREMENT, p.incs + [p.cur]), s, envelope)
  {
    if s != [] {
      ParseFailed(s[1..], envelope);
    }
  }

  lemma {:induction false} ParseGroups(p: Parse, s: seq<RR>, envelope: Serial)
    requires p.Parsing? && p.mode != ModeAdd && p.cur.added == [] && s != [] && s[0].Soa? && s[0].serial != envelope
    ensures Finish(ParseAll(p, s, envelope), envelope) == Prepend(p.incs, ReadGroups(s, envelope, p.cur.deleted))
    decreases |s|, 0
  {
    var rest := s[1..];
    var d := DataRun(rest);
    var del := p.cur.deleted + rest[..d];
    var p2 := p.(mode := ModeDel, cur := p.cur.(oldSerial := s[0].serial, deleted := del));
    ParseOldPart(p, s, d, envelope);
    if d == |rest| {
      assert rest[d..] == [];
    } else if rest[d].serial != envelope {
      ParseGroups(p2, rest[d..], envelope);
    } else {
      var tail := rest[d..];
      var rest' := rest[d + 1..];
      assert tail[1..] == rest';
      var a := DataRun(rest');
      var p4 := p2.(mode := ModeAdd, cur := Increment(s[0].serial, envelope, del, rest'[..a]));
      ParseNewPart(p2, tail, a, envelope);
      ParseAfterGroup(p4, rest'[a..], envelope);
    }
  }

  lemma {:induction false} ParseAfterGroup(p: Parse, s: seq<RR>, envelope: Serial)
    requires p.Parsing? && p.mode == ModeAdd && p.cur.newSerial == envelope && p.cur.oldSerial != envelope
    requires s != [] ==> s[0].Soa?
    ensures Finish(ParseAll(p, s, envelope), envelope)
         == if !Less(p.cur.oldSerial, envelope) then None
            else if s == [] then Some(p.incs + [p.cur])
            else Prepend(p.incs, Prepend([p.cur], ReadGroups(s, envelope, [])))
    decreases |s|, 1
  {
    ParseGroupEnd(p, s, envelope);
    if s != [] && s[0].serial != envelope && Less(p.cur.oldSerial, envelope) {
      ParseGroups(Parsing(ModeNone, NO_INCREMENT, p.incs + [p.cur]), s, envelope);
      var more := ReadGroups(s, envelope, []);
      if more.Some? {
        Associate(p.incs, [p.cur], more.value, []);
      }
    }
  }

  /** Exactly what `parseIXFR` makes of any stream whatsoever: between a SOA and a closing
      one of the same serial, what the grammar reads, and an error for everything else. */
  lemma ParseMeans(rrs: seq<RR>)
    ensures ParseIxfr(rrs) ==
            if |rrs| < 2 || rrs[0].Rec? || Last(rrs).Rec? || Last(rrs).serial != rrs[0].serial then None
            else ReadGroups(rrs[1..|rrs| - 1], rrs[0].serial, [])
  {
    if !(|rrs| < 2 || rrs[0].Rec? || Last(rrs).Rec? || Last(rrs).serial != rrs[0].serial) {
      var s, envelope := rrs[1..|rrs| - 1], rrs[0].serial;
      if s != [] && s[0].Soa? && s[0].serial != envelope {
        ParseGroups(PARSE_START, s, envelope);
        var more := ReadGroups(s, envelope, []);
        assert more.Some? ==> [] + more.value == more.value;
      } else if s != [] {
        ParseFailed(s[1..], envelope);
      }
    }
  }

  /** Whatever parses is classified as incremental. */
  lemma ParsedIsIxfr(rrs: seq<RR>)
    requires ParseIxfr(rrs).Some?
    ensures Classify(rrs) == Some(Ixfr)
  {
    ParseMeans(rrs);
    assert rrs[1] == rrs[1..|rrs| - 1][0];
  }

  // ---------------------------------------------------------------- what the parser makes of a printed stream

  /** All records the increments mention, in stream order. */
  function Touched(incs: seq<Increment>): seq<RR> {
    if incs == [] then [] else incs[0].deleted + incs[0].added + Touched(incs[1..])
  }

  lemma {:induction false} ParseDeletes(p: Parse, data: seq<RR>, envelope: Serial)
    requires p.Parsing? && p.mode == ModeDel && forall r :: r in data ==> r.Rec?
    ensures ParseAll(p, data, envelope) == p.(cur := p.cur.(deleted := p.cur.deleted + data))
    decreases |data|
  {
    if data == [] {
      assert p.cur.deleted + [] == p.cur.deleted;
    } else {
      var q := p.(cur := p.cur.(deleted := p.cur.deleted + [data[0]]));
      ParseDeletes(q, data[1..], envelope);
      assert q.cur.deleted + data[1..] == p.cur.deleted + data;
    }
  }

  lemma {:induction false} ParseAdds(p: Parse, data: seq<RR>, envelope: Serial)
    requires p.Parsing? && p.mode == ModeAdd && forall r :: r in data ==> r.Rec?
    ensures ParseAll(p, data, envelope) == p.(cur := p.cur.(added := p.cur.added + data))
    decreases |data|
  {
    if data == [] {
      assert p.cur.added + [] == p.cur.added;
    } else {
      var q := p.(cur := p.cur.(added := p.cur.added + [data[0]]));
      ParseAdds(q, data[1..], envelope);
      assert q.cur.added + data[1..] == p.cur.added + data;
    }
  }

  /** An increment that stops short of the envelope serial is swallowed whole into
      the deletions, its additions included. */
  lemma ParseIntermediate(p: Parse, soa: RR, inc: Increment, envelope: Serial)
    requires p.Parsing? && p.mode != ModeAdd && soa.Soa? && DataOnly([inc])
    requires inc.oldSerial != envelope && inc.newSerial != envelope
    ensures ParseAll(p, PrintIncrement(soa, inc), envelope)
         == p.(mode := ModeDel, cur := p.cur.(oldSerial := inc.newSerial, deleted := p.cur.deleted + inc.deleted + inc.added))
  {
    assert inc in [inc];
    var o, n := SoaWithSerial(soa, inc.oldSerial), SoaWithSerial(soa, inc.newSerial);
    ParseConcat(p, [o] + inc.deleted + [n], inc.added, envelope);
    ParseConcat(p, [o] + inc.deleted, [n], envelope);
    ParseConcat(p, [o], inc.deleted, envelope);
    var p1 := ParseAll(p, [o], envelope);
    assert p1 == ParseOne(p, o, envelope);
    ParseDeletes(p1, inc.deleted, envelope);
    var p2 := ParseAll(p1, inc.deleted, envelope);
    var p3 := ParseAll(p2, [n], envelope);
    assert p3 == ParseOne(p2, n, envelope);
    ParseDeletes(p3, inc.added, envelope);
  }

  predicate ShortOf(incs: seq<Increment>, envelope: Serial) {
    forall inc :: inc in incs ==> inc.oldSerial != envelope && inc.newSerial != envelope
  }

  lemma {:induction false} ParsePrefix(p: Parse, soa: RR, incs: seq<Increment>, envelope: Serial)
    requires p.Parsing? && p.mode != ModeAdd && soa.Soa? && DataOnly(incs) && ShortOf(incs, envelope)
    ensures var q := ParseAll(p, PrintIncrements(soa, incs), envelope);
            && q.Parsing? && q.mode != ModeAdd && q.incs == p.incs
            && q.cur.added == p.cur.added && q.cur.deleted == p.cur.deleted + Touched(incs)
    decreases |incs|
  {
    if incs == [] {
      assert p.cur.deleted + [] == p.cur.deleted;
    } else {
      var first, rest := incs[0], incs[1..];
      assert DataOnly([first]) && DataOnly(rest) && ShortOf(rest, envelope);
      ParseIntermediate(p, soa, first, envelope);
      var q := ParseAll(p, PrintIncrement(soa, first), envelope);
      ParseConcat(p, PrintIncrement(soa, first), PrintIncrements(soa, rest), envelope);
      ParsePrefix(q, soa, rest, envelope);
      Associate(p.cur.deleted, first.deleted, first.added, Touched(rest));
    }
  }

  lemma ParseLast(p: Parse, soa: RR, inc: Increment)
    requires p.Parsing? && p.mode != ModeAdd && p.cur.added == [] && soa.Soa? && DataOnly([inc])
    requires inc.oldSerial != soa.serial && inc.newSerial == soa.serial
    ensures ParseAll(p, PrintIncrement(soa, inc), soa.serial)
         == p.(mode := ModeAdd, cur := Increment(inc.oldSerial, soa.serial, p.cur.deleted + inc.deleted, inc.added))
  {
    assert inc in [inc];
    var o, n := SoaWithSerial(soa, inc.oldSerial), SoaWithSerial(soa, inc.newSerial);
    ParseConcat(p, [o] + inc.deleted + [n], inc.added, soa.serial);
    ParseConcat(p, [o] + inc.deleted, [n], soa.serial);
    ParseConcat(p, [o], inc.deleted, soa.serial);
    var p1 := ParseAll(p, [o], soa.serial);
    assert p1 == ParseOne(p, o, soa.serial);
    ParseDeletes(p1, inc.deleted, soa.serial);
    var p2 := ParseAll(p1, inc.deleted, soa.serial);
    var p3 := ParseAll(p2, [n], soa.serial);
    assert p3 == ParseOne(p2, n, soa.serial);
    ParseAdds(p3, inc.added, soa.serial);
  }

  /** The increment `parseIXFR` makes of a printed stream. */
  function Collapsed(prefix: seq<Increment>, last: Increment): Increment {
    last.(deleted := Touched(prefix) + last.deleted)
  }

  lemma ParseShort(soa: RR, prefix: seq<Increment>, last: Increment)
    requires soa.Soa? && DataOnly(prefix + [last]) && ShortOf(prefix, soa.serial)
    requires last.oldSerial != soa.serial && last.newSerial == soa.serial
    ensures ParseAll(PARSE_START, PrintIncrements(soa, prefix + [last]), soa.serial) == Parsing(ModeAdd, Collapsed(prefix, last), [])
  {
    assert forall inc :: inc in prefix ==> inc in prefix + [last];
    assert last in prefix + [last];
    PrintAppend(soa, prefix, last);
    ParseConcat(PARSE_START, PrintIncrements(soa, prefix), PrintIncrement(soa, last), soa.serial);
    ParsePrefix(PARSE_START, soa, prefix, soa.serial);
    var p := ParseAll(PARSE_START, PrintIncrements(soa, prefix), soa.serial);
    assert p.cur.deleted == Touched(prefix);
    ParseLast(p, soa, last);
  }

  lemma {:induction false} PrintConcat(soa: RR, a: seq<Increment>, b: seq<Increment>)
    requires soa.Soa?
    ensures PrintIncrements(soa, a + b) == PrintIncrements(soa, a) + PrintIncrements(soa, b)
  {
    if a == [] {
      assert [] + b == b;
    } else {
      assert (a + b)[1..] == a[1..] + b;
      PrintConcat(soa, a[1..], b);
    }
  }

  /** No difference starts at the serial the stream ends at. */
  predicate StaysAway(incs: seq<Increment>, envelope: Serial) {
    forall inc :: inc in incs ==> inc.oldSerial != envelope
  }

  /** In a chain that never returns to its final serial, nothing but the last difference
      reaches that serial. */
  lemma ChainShortOf(incs: seq<Increment>, envelope: Serial)
    requires incs != [] && Chained(incs) && StaysAway(incs, envelope)
    ensures ShortOf(incs[..|incs| - 1], envelope)
  {
    forall inc | inc in incs[..|incs| - 1] ensures inc.oldSerial != envelope && inc.newSerial != envelope {
      var k :| 0 <= k < |incs| - 1 && incs[k] == inc;
      assert incs[k + 1] in incs && incs[k + 1].oldSerial == inc.newSerial;
    }
  }

  /** The parser is not deleting when it meets the final serial as an old serial. */
  lemma FailsComingBack(p: Parse, soa: RR, incs: seq<Increment>)
    requires soa.Soa? && incs != [] && incs[0].oldSerial == soa.serial && p.Parsing? && p.mode != ModeDel
    ensures ParseAll(p, PrintIncrements(soa, incs), soa.serial) == Failed
  {
    var s := PrintIncrements(soa, incs);
    assert s[0] == SoaWithSerial(soa, incs[0].oldSerial);
    ParseFailed(s[1..], soa.serial);
  }

  /** The first difference that starts at the serial. */
  lemma FirstBack(incs: seq<Increment>, envelope: Serial) returns (f: nat)
    requires !StaysAway(incs, envelope)
    ensures f < |incs| && incs[f].oldSerial == envelope && StaysAway(incs[..f], envelope)
  {
    f := FirstFrom(incs, envelope);
  }

  lemma ParseComingBack(soa: RR, incs: seq<Increment>)
    requires soa.Soa? && DataOnly(incs) && Chained(incs) && !StaysAway(incs, soa.serial)
    ensures ParseAll(PARSE_START, PrintIncrements(soa, incs), soa.serial) == Failed
  {
    var f := FirstBack(incs, soa.serial);
    var before, rest := incs[..f], incs[f..];
    assert incs == before + rest;
    PrintConcat(soa, before, rest);
    ParseConcat(PARSE_START, PrintIncrements(soa, before), PrintIncrements(soa, rest), soa.serial);
    if f > 0 {
      ChainedPrefix(incs, f);
      ParseOnward(soa, before);
    }
    FailsComingBack(ParseAll(PARSE_START, PrintIncrements(soa, before), soa.serial), soa, rest);
  }

  lemma ChainedPrefix(incs: seq<Increment>, f: nat)
    requires 0 < f < |incs| && Chained(incs) && DataOnly(incs)
    ensures Chained(incs[..f]) && DataOnly(incs[..f]) && Last(incs[..f]).newSerial == incs[f].oldSerial
  {
  }

  lemma ParseOnward(soa: RR, incs: seq<Increment>)
    requires soa.Soa? && DataOnly(incs) && Chained(incs) && incs != [] && Last(incs).newSerial == soa.serial
    requires StaysAway(incs, soa.serial)
    ensures ParseAll(PARSE_START, PrintIncrements(soa, incs), soa.serial)
         == Parsing(ModeAdd, Collapsed(incs[..|incs| - 1], Last(incs)), [])
  {
    var prefix, last := incs[..|incs| - 1], Last(incs);
    assert prefix + [last] == incs && last in incs;
    ChainShortOf(incs, soa.serial);
    ParseShort(soa, prefix, last);
  }

  /** What `parseIXFR` demands of a chain of differences: none starts at the final serial,
      and the last one moves forward. */
  predicate Accepts(incs: seq<Increment>, envelope: Serial) {
    incs != [] && StaysAway(incs, envelope) && Less(Last(incs).oldSerial, envelope)
  }

  /** Exactly what `parseIXFR` returns on the printed form of any chain of differences: an
      error, or one increment, from the last difference's old serial, that deletes
      everything any earlier difference mentioned and adds only what the last one added. */
  lemma ParsePrinted(soa: RR, incs: seq<Increment>)
    requires soa.Soa? && DataOnly(incs) && Chained(incs) && incs != [] && Last(incs).newSerial == soa.serial
    ensures ParseIxfr(IxfrStream(soa, incs))
         == if Accepts(incs, soa.serial) then Some([Collapsed(incs[..|incs| - 1], Last(incs))]) else None
  {
    var stream := IxfrStream(soa, incs);
    assert stream[1..|stream| - 1] == PrintIncrements(soa, incs);
    if StaysAway(incs, soa.serial) {
      var inc := Collapsed(incs[..|incs| - 1], Last(incs));
      ParseOnward(soa, incs);
      assert [] + [inc] == [inc] && Last(incs) in incs;
    } else {
      ParseComingBack(soa, incs);
    }
  }

  /** `parseIXFR` reads the printed form of a chain as RFC 1995 means it exactly when it
      holds a single difference whose serial moves forward. */
  lemma ParseAgreesIff(soa: RR, incs: seq<Increment>)
    requires soa.Soa? && DataOnly(incs) && Chained(incs) && incs != [] && Last(incs).newSerial == soa.serial
    ensures var stream := IxfrStream(soa, incs);
            ParseIxfr(stream) == ReadStream(stream) <==> |incs| == 1 && Less(incs[0].oldSerial, soa.serial)
  {
    ParsePrinted(soa, incs);
    ReadInvertsPrint(soa, incs);
    if |incs| == 1 {
      assert incs == [incs[0]] && incs[..0] == [] && [] + incs[0].deleted == incs[0].deleted;
    } else {
      assert |[Collapsed(incs[..|incs| - 1], Last(incs))]| != |incs|;
    }
  }

  // ---------------------------------------------------------------- application

  predicate HasDuplicate(del: seq<RR>, rr: RR) {
    exists d :: d in del && IsDuplicate(rr, d)
  }

  /** `del` with its first duplicate of `rr` used up. */
  function Consume(del: seq<RR>, rr: RR): seq<RR> {
    if del == [] then []
    else if IsDuplicate(rr, del[0]) then del[1..]
    else [del[0]] + Consume(del[1..], rr)
  }

  function Remove(from: seq<RR>, del: seq<RR>): seq<RR> {
    if from == [] then []
    else if HasDuplicate(del, from[0]) then Remove(from[1..], Consume(del, from[0]))
    else [from[0]] + Remove(from[1..], del)
  }

  function ApplyAll(rrs: seq<RR>, incs: seq<Increment>): seq<RR>
    decreases |incs|
  {
    if incs == [] then rrs
    else ApplyAll(Remove(rrs, incs[0].deleted) + incs[0].added, incs[1..])
  }

  function ReplaceFirstSoa(rrs: seq<RR>, soa: RR, found: bool): seq<RR> {
    if rrs == [] then []
    else if rrs[0].Rec? then [rrs[0]] + ReplaceFirstSoa(rrs[1..], soa, found)
    else (if found then [] else [soa]) + ReplaceFirstSoa(rrs[1..], soa, true)
  }

  function ReplaceSoa(rrs: seq<RR>, soa: RR): seq<RR> {
    if SoaOf(rrs).Some? then ReplaceFirstSoa(rrs, soa, false) else [soa] + ReplaceFirstSoa(rrs, soa, false)
  }

  function ApplyIncrements(current: seq<RR>, incs: seq<Increment>, soa: RR): seq<RR> {
    ReplaceSoa(ApplyAll(current, incs), soa)
  }

  /** The entries of a deletion list that have not been set to nil. */
  function Live(del: seq<Option<RR>>): seq<RR> {
    if del == [] then []
    else (if del[0].Some? then [del[0].value] else []) + Live(del[1..])
  }

  lemma {:induction false} LiveMembers(del: seq<Option<RR>>)
    ensures forall x :: x in Live(del) <==> Some(x) in del
  {
    if del != [] {
      LiveMembers(del[1..]);
    }
  }

  lemma {:induction false} LiveConsume(del: seq<Option<RR>>, rr: RR, i: nat)
    requires i < |del| && del[i].Some? && IsDuplicate(rr, del[i].value)
    requires forall k :: 0 <= k < i && del[k].Some? ==> !IsDuplicate(rr, del[k].value)
    ensures Live(del[i := None]) == Consume(Live(del), rr)
  {
    if i == 0 {
      assert del[0 := None][1..] == del[1..];
      assert Live(del)[1..] == Live(del[1..]);
    } else {
      assert del[i := None][1..] == del[1..][i - 1 := None];
      LiveConsume(del[1..], rr, i - 1);
      assert del[i := None][0] == del[0];
      if del[0].Some? {
        assert Live(del)[0] == del[0].value && Live(del)[1..] == Live(del[1..]);
      } else {
        assert Live(del) == Live(del[1..]) && Live(del[i := None]) == Live(del[1..][i - 1 := None]);
      }
    }
  }

  /** The first entry still live that duplicates `rr`, or the array's length. */
  method FindDuplicate(del: array<Option<RR>>, rr: RR) returns (i: nat)
    ensures i <= del.Length
    ensures forall m :: 0 <= m < i && del[m].Some? ==> !IsDuplicate(rr, del[m].value)
    ensures i < del.Length ==> del[i].Some? && IsDuplicate(rr, del[i].value)
    ensures i < del.Length <==> HasDuplicate(Live(del[..]), rr)
  {
    i := 0;
    while i < del.Length && (del[i].None? || !IsDuplicate(rr, del[i].value))
      invariant i <= del.Length
      invariant forall m :: 0 <= m < i && del[m].Some? ==> !IsDuplicate(rr, del[m].value)
    {
      i := i + 1;
    }
    LiveMembers(del[..]);
    if i < del.Length {
      assert Some(del[i].value) == del[..][i];
    }
  }

  /** Sets to nil, in place, each deletion it uses. */
  method RemoveRRs(from: seq<RR>, del: array<Option<RR>>) returns (out: seq<RR>)
    modifies del
    ensures out == Remove(from, Live(old(del[..])))
  {
    out := [];
    for k := 0 to |from|
      invariant Remove(from, Live(old(del[..]))) == out + Remove(from[k..], Live(del[..]))
    {
      ghost var rest := from[k + 1..];
      assert from[k..] == [from[k]] + rest;
      var i := FindDuplicate(del, from[k]);
      if i < del.Length {
        LiveConsume(del[..], from[k], i);
        ghost var next := del[..][i := None];
        del[i] := None;
        assert del[..] == next;
      } else {
        assert out + ([from[k]] + Remove(rest, Live(del[..]))) == out + [from[k]] + Remove(rest, Live(del[..]));
        out := out + [from[k]];
      }
    }
  }

  method ReplaceSoaRecord(rrs: seq<RR>, soa: RR) returns (out: seq<RR>)
    ensures out == ReplaceSoa(rrs, soa)
  {
    var found := false;
    out := [];
    for i := 0 to |rrs|
      invariant ReplaceFirstSoa(rrs, soa, false) == out + ReplaceFirstSoa(rrs[i..], soa, found)
      invariant found <==> exists k :: 0 <= k < i && rrs[k].Soa?
    {
      ghost var rest := rrs[i + 1..];
      assert rrs[i..][1..] == rest;
      if rrs[i].Soa? {
        if !found {
          Associate(out, [soa], ReplaceFirstSoa(rest, soa, true), []);
          out := out + [soa];
          found := true;
        } else {
          assert [] + ReplaceFirstSoa(rest, soa, true) == ReplaceFirstSoa(rest, soa, true);
        }
      } else {
        Associate(out, [rrs[i]], ReplaceFirstSoa(rest, soa, found), []);
        out := out + [rrs[i]];
      }
    }
    assert out + [] == out;
    assert found <==> SoaOf(rrs).Some? by {
      if found {
        var k :| 0 <= k < |rrs| && rrs[k].Soa?;
        assert rrs[k] in rrs;
      }
    }
    if !found {
      out := [soa] + out;
    }
  }

  lemma {:induction false} LiveOfAll(del: seq<RR>, slots: seq<Option<RR>>)
    requires |slots| == |del| && forall i :: 0 <= i < |del| ==> slots[i] == Some(del[i])
    ensures Live(slots) == del
  {
    if del != [] {
      LiveOfAll(del[1..], slots[1..]);
    }
  }

  method ApplyParsed(current: seq<RR>, incs: seq<Increment>, soa: RR) returns (out: seq<RR>)
    ensures out == ApplyIncrements(current, incs, soa)
  {
    out := current;
    for i := 0 to |incs|
      invariant ApplyAll(current, incs) == ApplyAll(out, incs[i..])
    {
      var deleted := incs[i].deleted;
      var slots := new Option<RR>[|deleted|](k requires 0 <= k < |deleted| => Some(deleted[k]));
      LiveOfAll(deleted, slots[..]);
      out := RemoveRRs(out, slots);
      out := out + incs[i].added;
      assert incs[i..][1..] == incs[i + 1..];
    }
    out := ReplaceSoaRecord(out, soa);
  }
}
