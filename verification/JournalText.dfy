/**
 The journal as text (ixfr/persist.go): written when increments are saved, read back
 when the process starts.
 */
module JournalText {
  import opened Collections
  import opened Serials
  import opened Records
  import opened Journals

  /** The presentation form of a record and its parser (`RR.String` and `dns.NewRR`). */
  datatype Codec = Codec(show: RR -> string, read: string -> Option<RR>)

  /** The scanner's buffer: a line and its newline must fit. */
  const MAX_LINE: nat := 1048575

  const INCREMENT := "$INCREMENT"

  // ---------------------------------------------------------------- characters and words

  /** White space as `strings.TrimSpace` and `strings.Fields` know it. */
  predicate IsSpace(c: char) {
    || c == ' ' || c == '\t' || c == '\n' || c == '\r' || c == '\U{0B}' || c == '\U{0C}' || c == '\U{85}' || c == '\U{A0}'
    || c == '\U{1680}' || '\U{2000}' <= c <= '\U{200A}' || c == '\U{2028}' || c == '\U{2029}' || c == '\U{202F}'
    || c == '\U{205F}' || c == '\U{3000}'
  }

  predicate Solid(s: string) {
    s != "" && forall c :: c in s ==> !IsSpace(c)
  }

  function TrimLeft(s: string): string {
    if s != "" && IsSpace(s[0]) then TrimLeft(s[1..]) else s
  }

  function TrimRight(s: string): string {
    if s != "" && IsSpace(Last(s)) then TrimRight(s[..|s| - 1]) else s
  }

  function TrimSpace(s: string): string {
    TrimRight(TrimLeft(s))
  }

  /** The length of the word at the front. */
  function WordLength(s: string): (n: nat)
    ensures n <= |s|
  {
    if s == "" || IsSpace(s[0]) then 0 else 1 + WordLength(s[1..])
  }

  function Fields(s: string): seq<string>
    decreases |s|
  {
    if s == "" then []
    else if IsSpace(s[0]) then Fields(s[1..])
    else [s[..WordLength(s)]] + Fields(s[WordLength(s)..])
  }

  function Digit(d: nat): char
    requires d < 10
  {
    "0123456789"[d]
  }

  function DigitValue(c: char): Option<nat> {
    if '0' <= c <= '9' then Some(c as int - '0' as int) else None
  }

  function PrintNat(n: nat): string {
    if n < 10 then [Digit(n)] else PrintNat(n / 10) + [Digit(n % 10)]
  }

  function ReadDigits(s: string): Option<nat> {
    if s == "" then None
    else
      match DigitValue(Last(s))
      case None => None
      case Some(d) =>
        if |s| == 1 then Some(d)
        else
          match ReadDigits(s[..|s| - 1])
          case None => None
          case Some(n) => Some(n * 10 + d)
  }

  /** `strconv.ParseUint(s, 10, 32)`. */
  function ParseSerial(s: string): Option<Serial> {
    match ReadDigits(s)
    case None => None
    case Some(n) => if n < 0x1_0000_0000 then Some(n) else None
  }

  lemma DigitRoundTrip(d: nat)
    requires d < 10
    ensures DigitValue(Digit(d)) == Some(d) && !IsSpace(Digit(d))
  {
    assert Digit(d) == (d + '0' as int) as char;
  }

  lemma {:induction false} NatRoundTrip(n: nat)
    ensures ReadDigits(PrintNat(n)) == Some(n) && Solid(PrintNat(n))
  {
    if n < 10 {
      DigitRoundTrip(n);
    } else {
      NatRoundTrip(n / 10);
      DigitRoundTrip(n % 10);
      var front := PrintNat(n / 10);
      assert PrintNat(n)[..|front|] == front;
    }
  }

  lemma {:induction false} WordThen(w: string, rest: string)
    requires (forall c :: c in w ==> !IsSpace(c)) && (rest == "" || IsSpace(rest[0]))
    ensures WordLength(w + rest) == |w|
  {
    if w == "" {
      assert "" + rest == rest;
    } else {
      assert (w + rest)[1..] == w[1..] + rest && w[0] in w;
      WordThen(w[1..], rest);
    }
  }

  lemma FieldsWord(w: string, rest: string)
    requires Solid(w) && (rest == "" || IsSpace(rest[0]))
    ensures Fields(w + rest) == [w] + Fields(rest)
  {
    WordThen(w, rest);
    assert w[0] in w;
    assert (w + rest)[..|w|] == w && (w + rest)[|w|..] == rest;
  }

  lemma {:induction false} TrimRightKeeps(s: string)
    requires s != "" && !IsSpace(Last(s))
    ensures TrimRight(s) == s
  {
  }

  lemma {:induction false} TrimRightOf(prefix: string, s: string)
    requires TrimRight(s) != ""
    ensures TrimRight(prefix + s) == prefix + TrimRight(s)
    decreases |s|
  {
    assert Last(prefix + s) == Last(s);
    if IsSpace(Last(s)) {
      TrimRightOf(prefix, s[..|s| - 1]);
      assert (prefix + s)[..|prefix + s| - 1] == prefix + s[..|s| - 1];
    }
  }

  // ---------------------------------------------------------------- lines

  function HeaderLine(origin: string, history: nat, current: Serial): string {
    "; ixfr-journal origin=" + origin + " current=" + PrintNat(current) + " history=" + PrintNat(history)
  }

  function IncrementLine(inc: Increment): string {
    INCREMENT + (" " + PrintNat(inc.oldSerial) + (" " + PrintNat(inc.newSerial)))
  }

  function RecordLine(c: Codec, sign: char, rr: RR): string {
    [sign, ' '] + c.show(rr)
  }

  function RecordLines(c: Codec, sign: char, rrs: seq<RR>): (r: seq<string>)
    ensures |r| == |rrs| && forall i :: 0 <= i < |rrs| ==> r[i] == RecordLine(c, sign, rrs[i])
  {
    seq(|rrs|, i requires 0 <= i < |rrs| => RecordLine(c, sign, rrs[i]))
  }

  function IncrementLines(c: Codec, inc: Increment): seq<string> {
    [IncrementLine(inc)] + (RecordLines(c, '-', inc.deleted) + RecordLines(c, '+', inc.added))
  }

  function BodyLines(c: Codec, incs: seq<Increment>): seq<string> {
    if incs == [] then [] else IncrementLines(c, incs[0]) + BodyLines(c, incs[1..])
  }

  function JournalLines(c: Codec, origin: string, history: nat, current: Serial, incs: seq<Increment>): seq<string> {
    [HeaderLine(origin, history, current)] + BodyLines(c, incs)
  }

  function Unlines(ls: seq<string>): string {
    if ls == [] then "" else ls[0] + ['\n'] + Unlines(ls[1..])
  }

  /** The length of the first line. */
  function LineLength(s: string): (n: nat)
    ensures n <= |s|
  {
    if s == "" || s[0] == '\n' then 0 else 1 + LineLength(s[1..])
  }

  function Lines(s: string): seq<string>
    decreases |s|
  {
    if s == "" then []
    else
      var n := LineLength(s);
      [s[..n]] + if n == |s| then [] else Lines(s[n + 1..])
  }

  predicate OneLine(s: string) {
    forall c :: c in s ==> c != '\n'
  }

  lemma {:induction false} LineThen(l: string, rest: string)
    requires OneLine(l)
    ensures LineLength(l + ['\n'] + rest) == |l|
  {
    if l != "" {
      assert (l + ['\n'] + rest)[1..] == l[1..] + ['\n'] + rest && l[0] in l;
      assert forall c :: c in l[1..] ==> c in l;
      LineThen(l[1..], rest);
    }
  }

  lemma {:induction false} LinesOfUnlines(ls: seq<string>)
    requires forall l :: l in ls ==> OneLine(l)
    ensures Lines(Unlines(ls)) == ls
  {
    if ls != [] {
      var l, rest := ls[0], Unlines(ls[1..]);
      assert l in ls;
      LineThen(l, rest);
      var s := l + ['\n'] + rest;
      assert s[..|l|] == l && s[|l| + 1..] == rest;
      LinesOfUnlines(ls[1..]);
    }
  }

  // ---------------------------------------------------------------- parsing

  datatype Scan = Bad | Scanning(incs: seq<Increment>, cur: Option<Increment>)

  function FlushScan(s: Scan): Scan
    requires s.Scanning?
  {
    if s.cur.Some? then Scanning(s.incs + [s.cur.value], None) else s
  }

  predicate HasPrefix(s: string, prefix: string) {
    |prefix| <= |s| && s[..|prefix|] == prefix
  }

  function ScanIncrement(s: Scan, line: string): Scan
    requires s.Scanning?
  {
    var fields := Fields(line);
    if |fields| != 3 then Bad
    else
      match (ParseSerial(fields[1]), ParseSerial(fields[2]))
      case (Some(o), Some(n)) => Scanning(FlushScan(s).incs, Some(Increment(o, n, [], [])))
      case _ => Bad
  }

  function ScanRecord(c: Codec, s: Scan, line: string): Scan
    requires s.Scanning?
  {
    if s.cur.None? || |line| < 3 || (line[0] != '+' && line[0] != '-') || line[1] != ' ' then Bad
    else
      match c.read(line[2..])
      case None => Bad
      case Some(rr) =>
        s.(cur := Some(WithRecord(s.cur.value, line[0], rr)))
  }

  function ScanLine(c: Codec, s: Scan, raw: string): Scan {
    if s.Bad? || |raw| > MAX_LINE then Bad
    else
      var line := TrimSpace(raw);
      if line == "" || line[0] == ';' then s
      else if HasPrefix(line, INCREMENT) then ScanIncrement(s, line)
      else ScanRecord(c, s, line)
  }

  function ScanLines(c: Codec, s: Scan, ls: seq<string>): Scan
    decreases |ls|
  {
    if ls == [] then s else ScanLines(c, ScanLine(c, s, ls[0]), ls[1..])
  }

  function Parse(c: Codec, text: string): Option<seq<Increment>> {
    match ScanLines(c, Scanning([], None), Lines(text))
    case Bad => None
    case Scanning(incs, cur) => Some(FlushScan(Scanning(incs, cur)).incs)
  }

  // ---------------------------------------------------------------- round trip

  /** The laws the library's text form obeys for a record: it is one line of bounded
      length and, without trailing white space, reads back as the record. */
  predicate Readable(c: Codec, rr: RR) {
    && OneLine(c.show(rr)) && |c.show(rr)| <= MAX_LINE - 2
    && TrimRight(c.show(rr)) != "" && c.read(TrimRight(c.show(rr))) == Some(rr)
  }

  predicate AllReadable(c: Codec, incs: seq<Increment>) {
    forall inc :: inc in incs ==>
      (forall r :: r in inc.deleted ==> Readable(c, r)) && (forall r :: r in inc.added ==> Readable(c, r))
  }

  function WithRecord(inc: Increment, sign: char, rr: RR): Increment {
    if sign == '-' then inc.(deleted := inc.deleted + [rr]) else inc.(added := inc.added + [rr])
  }

  lemma ScanRecordLine(c: Codec, s: Scan, sign: char, rr: RR)
    requires s.Scanning? && s.cur.Some? && (sign == '+' || sign == '-') && Readable(c, rr)
    ensures ScanLine(c, s, RecordLine(c, sign, rr)) == s.(cur := Some(WithRecord(s.cur.value, sign, rr)))
  {
    var raw := RecordLine(c, sign, rr);
    TrimRightOf([sign, ' '], c.show(rr));
    var line := [sign, ' '] + TrimRight(c.show(rr));
    assert TrimSpace(raw) == line;
    assert line[0] == sign && INCREMENT[0] == '$' && line[2..] == TrimRight(c.show(rr));
  }

  lemma {:induction false} ScanConcat(c: Codec, s: Scan, a: seq<string>, b: seq<string>)
    ensures ScanLines(c, s, a + b) == ScanLines(c, ScanLines(c, s, a), b)
    decreases |a|
  {
    if a == [] {
      assert [] + b == b;
    } else {
      assert (a + b)[1..] == a[1..] + b;
      ScanConcat(c, ScanLine(c, s, a[0]), a[1..], b);
    }
  }

  lemma TailLines(c: Codec, sign: char, rrs: seq<RR>)
    requires rrs != []
    ensures RecordLines(c, sign, rrs)[0] == RecordLine(c, sign, rrs[0]) && RecordLines(c, sign, rrs)[1..] == RecordLines(c, sign, rrs[1..])
  {
  }

  lemma MoveHead(a: seq<RR>, b: seq<RR>)
    requires b != []
    ensures a + [b[0]] + b[1..] == a + b
  {
  }

  lemma {:induction false} ScanDeletes(c: Codec, s: Scan, rrs: seq<RR>)
    requires s.Scanning? && s.cur.Some? && forall r :: r in rrs ==> Readable(c, r)
    ensures ScanLines(c, s, RecordLines(c, '-', rrs)) == s.(cur := Some(s.cur.value.(deleted := s.cur.value.deleted + rrs)))
    decreases |rrs|
  {
    if rrs == [] {
      assert s.cur.value.deleted + [] == s.cur.value.deleted;
    } else {
      assert rrs[0] in rrs;
      ScanRecordLine(c, s, '-', rrs[0]);
      var s1 := s.(cur := Some(s.cur.value.(deleted := s.cur.value.deleted + [rrs[0]])));
      TailLines(c, '-', rrs);
      ScanDeletes(c, s1, rrs[1..]);
      MoveHead(s.cur.value.deleted, rrs);
    }
  }

  lemma {:induction false} ScanAdds(c: Codec, s: Scan, rrs: seq<RR>)
    requires s.Scanning? && s.cur.Some? && forall r :: r in rrs ==> Readable(c, r)
    ensures ScanLines(c, s, RecordLines(c, '+', rrs)) == s.(cur := Some(s.cur.value.(added := s.cur.value.added + rrs)))
    decreases |rrs|
  {
    if rrs == [] {
      assert s.cur.value.added + [] == s.cur.value.added;
    } else {
      assert rrs[0] in rrs;
      ScanRecordLine(c, s, '+', rrs[0]);
      var s1 := s.(cur := Some(s.cur.value.(added := s.cur.value.added + [rrs[0]])));
      TailLines(c, '+', rrs);
      ScanAdds(c, s1, rrs[1..]);
      MoveHead(s.cur.value.added, rrs);
    }
  }

  lemma {:induction false} SerialTextShort(n: nat, digits: nat, bound: nat)
    requires digits >= 1 && n < bound && bound == Pow10(digits)
    ensures |PrintNat(n)| <= digits
  {
    if n >= 10 {
      SerialTextShort(n / 10, digits - 1, bound / 10);
    }
  }

  function Pow10(d: nat): nat {
    if d == 0 then 1 else 10 * Pow10(d - 1)
  }

  lemma FieldsSpace(w: string, rest: string)
    requires Solid(w) && (rest == "" || IsSpace(rest[0]))
    ensures Fields(" " + w + rest) == [w] + Fields(rest)
  {
    FieldsWord(w, rest);
    SkipSpace(" " + w + rest, w + rest);
  }

  lemma SkipSpace(s: string, t: string)
    requires s == " " + t
    ensures Fields(s) == Fields(t)
  {
    assert s[0] == ' ' && s[1..] == t;
  }

  lemma IncrementFields(inc: Increment)
    ensures Fields(IncrementLine(inc)) == [INCREMENT, PrintNat(inc.oldSerial), PrintNat(inc.newSerial)]
  {
    var o, n := PrintNat(inc.oldSerial), PrintNat(inc.newSerial);
    NatRoundTrip(inc.oldSerial);
    NatRoundTrip(inc.newSerial);
    FieldsSpace(n, "");
    assert " " + n + "" == " " + n;
    FieldsSpace(o, " " + n);
    IncrementIsWord();
    FieldsWord(INCREMENT, " " + o + (" " + n));
  }

  lemma IncrementIsWord()
    ensures Solid(INCREMENT)
  {
  }

  lemma ScanIncrementLine(c: Codec, s: Scan, inc: Increment)
    requires s.Scanning?
    ensures ScanLine(c, s, IncrementLine(inc)) == Scanning(FlushScan(s).incs, Some(Increment(inc.oldSerial, inc.newSerial, [], [])))
  {
    var raw := IncrementLine(inc);
    NatRoundTrip(inc.oldSerial);
    NatRoundTrip(inc.newSerial);
    IncrementFields(inc);
    assert Last(raw) == Last(PrintNat(inc.newSerial)) && Last(PrintNat(inc.newSerial)) in PrintNat(inc.newSerial);
    assert raw[0] == '$';
    TrimRightKeeps(raw);
    assert TrimSpace(raw) == raw && HasPrefix(raw, INCREMENT);
    SerialsAreShort(inc);
  }

  lemma SerialsAreShort(inc: Increment)
    ensures |IncrementLine(inc)| <= MAX_LINE
  {
    TenDigits();
    SerialTextShort(inc.oldSerial, 10, Pow10(10));
    SerialTextShort(inc.newSerial, 10, Pow10(10));
  }

  lemma TenDigits()
    ensures Pow10(10) == 10000000000
  {
    assert Pow10(2) == 100;
    assert Pow10(4) == 10000;
    assert Pow10(6) == 1000000;
    assert Pow10(8) == 100000000;
  }

  lemma ScanOneIncrement(c: Codec, s: Scan, inc: Increment)
    requires s.Scanning? && AllReadable(c, [inc])
    ensures ScanLines(c, s, IncrementLines(c, inc)) == Scanning(FlushScan(s).incs, Some(inc))
  {
    assert inc in [inc];
    ScanIncrementLine(c, s, inc);
    var s1 := ScanLine(c, s, IncrementLine(inc));
    var records := RecordLines(c, '-', inc.deleted) + RecordLines(c, '+', inc.added);
    assert IncrementLines(c, inc)[1..] == records;
    ScanConcat(c, s1, RecordLines(c, '-', inc.deleted), RecordLines(c, '+', inc.added));
    ScanDeletes(c, s1, inc.deleted);
    var s2 := ScanLines(c, s1, RecordLines(c, '-', inc.deleted));
    ScanAdds(c, s2, inc.added);
    assert [] + inc.deleted == inc.deleted && [] + inc.added == inc.added;
  }

  lemma {:induction false} ScanBody(c: Codec, s: Scan, incs: seq<Increment>)
    requires s.Scanning? && AllReadable(c, incs)
    ensures var r := ScanLines(c, s, BodyLines(c, incs));
            r.Scanning? && FlushScan(r).incs == FlushScan(s).incs + incs
    decreases |incs|
  {
    if incs == [] {
      assert FlushScan(s).incs + [] == FlushScan(s).incs;
    } else {
      var inc, rest := incs[0], incs[1..];
      assert inc in incs && AllReadable(c, [inc]) && AllReadable(c, rest);
      ScanOneIncrement(c, s, inc);
      ScanConcat(c, s, IncrementLines(c, inc), BodyLines(c, rest));
      ScanBody(c, Scanning(FlushScan(s).incs, Some(inc)), rest);
      Associate(FlushScan(s).incs, [inc], rest, []);
      assert [inc] + rest == incs;
    }
  }

  lemma {:induction false} BodyIsLines(c: Codec, incs: seq<Increment>)
    requires AllReadable(c, incs)
    ensures forall l :: l in BodyLines(c, incs) ==> OneLine(l)
  {
    if incs != [] {
      var inc, rest := incs[0], incs[1..];
      assert inc in incs && AllReadable(c, rest);
      BodyIsLines(c, rest);
      IncrementIsLine(inc);
      RecordsAreLines(c, '-', inc.deleted);
      RecordsAreLines(c, '+', inc.added);
    }
  }

  lemma RecordsAreLines(c: Codec, sign: char, rrs: seq<RR>)
    requires sign != '\n' && forall r :: r in rrs ==> Readable(c, r)
    ensures forall l :: l in RecordLines(c, sign, rrs) ==> OneLine(l)
  {
    forall l | l in RecordLines(c, sign, rrs) ensures OneLine(l) {
      var i :| 0 <= i < |rrs| && l == RecordLine(c, sign, rrs[i]);
      assert rrs[i] in rrs;
      forall x | x in l ensures x != '\n' {
        assert x in [sign, ' '] || x in c.show(rrs[i]);
      }
    }
  }

  lemma IncrementIsLine(inc: Increment)
    ensures OneLine(IncrementLine(inc))
  {
    NatRoundTrip(inc.oldSerial);
    NatRoundTrip(inc.newSerial);
  }

  function JournalFile(c: Codec, origin: string, history: nat, current: Serial, incs: seq<Increment>): string {
    Unlines(JournalLines(c, origin, history, current, incs))
  }

  /** What was written reads back: the same increments, in order, with the same serials
      and records. */
  lemma ParseInvertsWrite(c: Codec, origin: string, history: nat, current: Serial, incs: seq<Increment>)
    requires AllReadable(c, incs) && OneLine(origin) && |HeaderLine(origin, history, current)| <= MAX_LINE
    ensures Parse(c, JournalFile(c, origin, history, current, incs)) == Some(incs)
  {
    var header, body := HeaderLine(origin, history, current), BodyLines(c, incs);
    NatRoundTrip(current);
    NatRoundTrip(history);
    BodyIsLines(c, incs);
    assert OneLine(header);
    LinesOfUnlines([header] + body);
    var s := Scanning([], None);
    assert ScanLine(c, s, header) == s by {
      HeaderIsComment(c, s, header);
    }
    assert ([header] + body)[1..] == body;
    ScanBody(c, s, incs);
    assert [] + incs == incs;
  }

  lemma HeaderIsComment(c: Codec, s: Scan, raw: string)
    requires s.Scanning? && |raw| <= MAX_LINE && raw != "" && raw[0] == ';'
    ensures ScanLine(c, s, raw) == s
  {
    assert TrimLeft(raw) == raw;
    TrimRightPrefix(raw);
  }

  lemma {:induction false} TrimRightPrefix(s: string)
    ensures |TrimRight(s)| <= |s| && TrimRight(s) == s[..|TrimRight(s)|]
  {
    if s != "" && IsSpace(Last(s)) {
      TrimRightPrefix(s[..|s| - 1]);
    }
  }

  /** Restart transparency: after any run of commits, the journal written to the backend,
      read back and reconciled with the zone it belongs to, is the journal there was, so
      every serial gets the same answer. */
  lemma RestartTransparent(c: Codec, origin: string, history: nat, gens: seq<seq<RR>>, n: nat, j: JournalState, serial: Serial)
    requires n < |gens| && AllGenerations(gens) && j == AfterRun(history, gens, n)
    requires AllReadable(c, j.incs) && OneLine(origin) && |HeaderLine(origin, history, SerialOf(j.current))| <= MAX_LINE
    ensures var text := JournalFile(c, origin, history, SerialOf(j.current), j.incs);
            && Parse(c, text).Some?
            && var reloaded := JournalState(history, Reconcile(Parse(c, text).value, SerialOf(j.current)), j.current);
               reloaded == j && Answer(reloaded, serial) == Answer(j, serial)
  {
    ParseInvertsWrite(c, origin, history, SerialOf(j.current), j.incs);
    RunRetains(history, gens, n, j);
    ReconcileKeepsJustified(j.incs, gens[n - |j.incs|..n + 1]);
  }

  // ---------------------------------------------------------------- what the parser accepts at all

  /** The lines that matter: trimmed, neither blank nor comments. */
  function Significant(ls: seq<string>): seq<string> {
    if ls == [] then []
    else
      var line := TrimSpace(ls[0]);
      (if line == "" || line[0] == ';' then [] else [line]) + Significant(ls[1..])
  }

  predicate IsHeader(line: string) {
    HasPrefix(line, INCREMENT)
  }

  function ReadHeader(line: string): Option<(Serial, Serial)> {
    var fields := Fields(line);
    if |fields| == 3 && ParseSerial(fields[1]).Some? && ParseSerial(fields[2]).Some?
    then Some((ParseSerial(fields[1]).value, ParseSerial(fields[2]).value)) else None
  }

  /** A sign, a space and a record. */
  function ReadRecord(c: Codec, line: string): Option<RR> {
    if |line| >= 3 && (line[0] == '+' || line[0] == '-') && line[1] == ' ' then c.read(line[2..]) else None
  }

  /** How many lines from the front are not headers. */
  function RecordRun(ls: seq<string>): (n: nat)
    ensures n <= |ls| && (forall k :: 0 <= k < n ==> !IsHeader(ls[k])) && (n < |ls| ==> IsHeader(ls[n]))
  {
    if ls == [] || IsHeader(ls[0]) then 0 else 1 + RecordRun(ls[1..])
  }

  predicate AllRecords(c: Codec, ls: seq<string>) {
    forall l :: l in ls ==> ReadRecord(c, l).Some?
  }

  /** The records of the lines with the given sign, in order. */
  function Signed(c: Codec, ls: seq<string>, sign: char): seq<RR>
    requires AllRecords(c, ls)
  {
    if ls == [] then []
    else
      assert ls[0] in ls;
      (if ls[0][0] == sign then [ReadRecord(c, ls[0]).value] else []) + Signed(c, ls[1..], sign)
  }

  /** A journal: headers, each followed by its records. */
  function ReadJournal(c: Codec, ls: seq<string>): Option<seq<Increment>>
    decreases |ls|
  {
    if ls == [] then Some([])
    else if !IsHeader(ls[0]) || ReadHeader(ls[0]).None? then None
    else
      var n := RecordRun(ls[1..]);
      var records, rest := ls[1..][..n], ls[1..][n..];
      if !AllRecords(c, records) || ReadJournal(c, rest).None? then None
      else
        var (o, s) := ReadHeader(ls[0]).value;
        Some([Increment(o, s, Signed(c, records, '-'), Signed(c, records, '+'))] + ReadJournal(c, rest).value)
  }

  function ScanTrimmed(c: Codec, s: Scan, line: string): Scan {
    if s.Bad? then Bad else if IsHeader(line) then ScanIncrement(s, line) else ScanRecord(c, s, line)
  }

  function ScanAll(c: Codec, s: Scan, ls: seq<string>): Scan
    decreases |ls|
  {
    if ls == [] then s else ScanAll(c, ScanTrimmed(c, s, ls[0]), ls[1..])
  }

  lemma {:induction false} ScanAllConcat(c: Codec, s: Scan, a: seq<string>, b: seq<string>)
    ensures ScanAll(c, s, a + b) == ScanAll(c, ScanAll(c, s, a), b)
    decreases |a|
  {
    if a == [] {
      assert [] + b == b;
    } else {
      assert (a + b)[1..] == a[1..] + b;
      ScanAllConcat(c, ScanTrimmed(c, s, a[0]), a[1..], b);
    }
  }

  lemma {:induction false} ScanAllBad(c: Codec, ls: seq<string>)
    ensures ScanAll(c, Bad, ls) == Bad
  {
    if ls != [] {
      ScanAllBad(c, ls[1..]);
    }
  }

  lemma {:induction false} ScanSignificant(c: Codec, s: Scan, ls: seq<string>)
    requires forall l :: l in ls ==> |l| <= MAX_LINE
    ensures ScanLines(c, s, ls) == ScanAll(c, s, Significant(ls))
    decreases |ls|
  {
    if ls != [] {
      var line, rest := TrimSpace(ls[0]), Significant(ls[1..]);
      assert ls[0] in ls;
      ScanSignificant(c, ScanLine(c, s, ls[0]), ls[1..]);
      if line == "" || line[0] == ';' {
        assert [] + rest == rest;
        if s.Bad? {
          ScanAllBad(c, rest);
        }
      } else {
        assert ([line] + rest)[1..] == rest;
      }
    }
  }

  lemma {:induction false} ScanLongLine(c: Codec, s: Scan, ls: seq<string>)
    requires exists l :: l in ls && |l| > MAX_LINE
    ensures ScanLines(c, s, ls) == Bad
    decreases |ls|
  {
    if |ls[0]| > MAX_LINE {
      ScanBad(c, ls[1..]);
    } else {
      ScanLongLine(c, ScanLine(c, s, ls[0]), ls[1..]);
    }
  }

  lemma {:induction false} ScanRecords(c: Codec, s: Scan, ls: seq<string>)
    requires s.Scanning? && s.cur.Some? && forall l :: l in ls ==> !IsHeader(l)
    ensures AllRecords(c, ls) ==>
              var inc := s.cur.value;
              ScanAll(c, s, ls) == s.(cur := Some(inc.(deleted := inc.deleted + Signed(c, ls, '-'), added := inc.added + Signed(c, ls, '+'))))
    ensures !AllRecords(c, ls) ==> ScanAll(c, s, ls) == Bad
    decreases |ls|
  {
    if ls == [] {
      assert s.cur.value.deleted + [] == s.cur.value.deleted && s.cur.value.added + [] == s.cur.value.added;
    } else {
      assert ls[0] in ls && forall l :: l in ls <==> l == ls[0] || l in ls[1..];
      if ReadRecord(c, ls[0]).None? {
        ScanAllBad(c, ls[1..]);
      } else {
        var s1 := ScanTrimmed(c, s, ls[0]);
        ScanRecords(c, s1, ls[1..]);
        if AllRecords(c, ls) {
          SignedStep(c, s.cur.value, ls);
        }
      }
    }
  }

  lemma SignedStep(c: Codec, inc: Increment, ls: seq<string>)
    requires ls != [] && AllRecords(c, ls)
    ensures AllRecords(c, ls[1..]) && ls[0] in ls
    ensures var next := WithRecord(inc, ls[0][0], ReadRecord(c, ls[0]).value);
            && next.deleted + Signed(c, ls[1..], '-') == inc.deleted + Signed(c, ls, '-')
            && next.added + Signed(c, ls[1..], '+') == inc.added + Signed(c, ls, '+')
  {
    assert ls[0] in ls;
    var x, d, a := ReadRecord(c, ls[0]).value, Signed(c, ls[1..], '-'), Signed(c, ls[1..], '+');
    Associate(inc.deleted, [x], d, []);
    Associate(inc.added, [x], a, []);
    assert [] + d == d && [] + a == a;
  }

  /** The increments once the last one is closed. */
  function Closed(s: Scan): Option<seq<Increment>> {
    if s.Bad? then None else Some(FlushScan(s).incs)
  }

  lemma {:induction false} ScanJournal(c: Codec, s: Scan, ls: seq<string>)
    requires s.Scanning? && (ls != [] ==> IsHeader(ls[0]))
    ensures var more := ReadJournal(c, ls);
            Closed(ScanAll(c, s, ls)) == if more.None? then None else Some(FlushScan(s).incs + more.value)
    decreases |ls|
  {
    if ls == [] {
      assert FlushScan(s).incs + [] == FlushScan(s).incs;
    } else if ReadHeader(ls[0]).None? {
      ScanAllBad(c, ls[1..]);
    } else {
      var tail := ls[1..];
      var n := RecordRun(tail);
      var records, rest := tail[..n], tail[n..];
      var s1 := ScanTrimmed(c, s, ls[0]);
      assert tail == records + rest;
      ScanAllConcat(c, s1, records, rest);
      ScanRecords(c, s1, records);
      if AllRecords(c, records) {
        ScanJournal(c, ScanAll(c, s1, records), rest);
        HeaderStep(c, s, ls[0], records, s1);
        var more := ReadJournal(c, rest);
        if more.Some? {
          Associate(FlushScan(s).incs, [ScanAll(c, s1, records).cur.value], more.value, []);
        }
      } else {
        ScanAllBad(c, rest);
      }
    }
  }

  lemma HeaderStep(c: Codec, s: Scan, header: string, records: seq<string>, s1: Scan)
    requires s.Scanning? && IsHeader(header) && ReadHeader(header).Some? && AllRecords(c, records) && s1 == ScanTrimmed(c, s, header)
    requires forall l :: l in records ==> !IsHeader(l)
    ensures var (o, n) := ReadHeader(header).value;
            ScanAll(c, s1, records) == Scanning(FlushScan(s).incs, Some(Increment(o, n, Signed(c, records, '-'), Signed(c, records, '+'))))
  {
    ScanRecords(c, s1, records);
    assert [] + Signed(c, records, '-') == Signed(c, records, '-') && [] + Signed(c, records, '+') == Signed(c, records, '+');
  }

  /** Exactly what `parseJournal` makes of any text whatsoever: no line may be too long, and
      the lines that matter must be headers of two serials, each followed by records with
      their signs; everything else is an error. */
  lemma ParseMeans(c: Codec, text: string)
    ensures Parse(c, text) == if exists l :: l in Lines(text) && |l| > MAX_LINE then None else ReadJournal(c, Significant(Lines(text)))
  {
    var s, ls := Scanning([], None), Significant(Lines(text));
    if exists l :: l in Lines(text) && |l| > MAX_LINE {
      ScanLongLine(c, s, Lines(text));
    } else {
      ScanSignificant(c, s, Lines(text));
      if ls != [] && !IsHeader(ls[0]) {
        ScanAllBad(c, ls[1..]);
      } else {
        ScanJournal(c, s, ls);
        var more := ReadJournal(c, ls);
        assert more.Some? ==> [] + more.value == more.value;
      }
    }
  }

  // ---------------------------------------------------------------- the loops

  lemma {:induction false} UnlinesSnoc(ls: seq<string>, l: string)
    ensures Unlines(ls + [l]) == Unlines(ls) + l + ['\n']
  {
    if ls == [] {
      assert [] + [l] == [l];
      assert Unlines([l][1..]) == "";
    } else {
      assert (ls + [l])[1..] == ls[1..] + [l];
      UnlinesSnoc(ls[1..], l);
    }
  }

  lemma {:induction false} BodySnoc(c: Codec, incs: seq<Increment>, inc: Increment)
    ensures BodyLines(c, incs + [inc]) == BodyLines(c, incs) + IncrementLines(c, inc)
  {
    if incs == [] {
      assert [] + [inc] == [inc];
      assert BodyLines(c, [inc][1..]) == [];
    } else {
      assert (incs + [inc])[1..] == incs[1..] + [inc];
      BodySnoc(c, incs[1..], inc);
    }
  }

  lemma RecordSnoc(c: Codec, sign: char, rrs: seq<RR>, i: nat, ls: seq<string>)
    requires i < |rrs|
    ensures Unlines(ls + RecordLines(c, sign, rrs[..i + 1]))
         == Unlines(ls + RecordLines(c, sign, rrs[..i])) + RecordLine(c, sign, rrs[i]) + ['\n']
  {
    UnlinesSnoc(ls + RecordLines(c, sign, rrs[..i]), RecordLine(c, sign, rrs[i]));
    assert RecordLines(c, sign, rrs[..i + 1]) == RecordLines(c, sign, rrs[..i]) + [RecordLine(c, sign, rrs[i])];
    assert ls + RecordLines(c, sign, rrs[..i + 1]) == ls + RecordLines(c, sign, rrs[..i]) + [RecordLine(c, sign, rrs[i])];
  }

  /** `w` holds the lines `ls`; the records follow. */
  method WriteRecords(c: Codec, sign: char, rrs: seq<RR>, w: string, ghost ls: seq<string>) returns (w': string)
    requires w == Unlines(ls)
    ensures w' == Unlines(ls + RecordLines(c, sign, rrs))
  {
    w' := w;
    assert ls + RecordLines(c, sign, rrs[..0]) == ls;
    for i := 0 to |rrs|
      invariant w' == Unlines(ls + RecordLines(c, sign, rrs[..i]))
    {
      RecordSnoc(c, sign, rrs, i, ls);
      w' := w' + RecordLine(c, sign, rrs[i]) + ['\n'];
    }
    assert rrs[..|rrs|] == rrs;
  }

  method WriteIncrement(c: Codec, inc: Increment, w: string, ghost ls: seq<string>) returns (w': string)
    requires w == Unlines(ls)
    ensures w' == Unlines(ls + IncrementLines(c, inc))
  {
    UnlinesSnoc(ls, IncrementLine(inc));
    w' := w + IncrementLine(inc) + ['\n'];
    ghost var head, del, add := [IncrementLine(inc)], RecordLines(c, '-', inc.deleted), RecordLines(c, '+', inc.added);
    w' := WriteRecords(c, '-', inc.deleted, w', ls + head);
    w' := WriteRecords(c, '+', inc.added, w', ls + head + del);
    Grouped(ls, head, del, add);
  }

  lemma Grouped(ls: seq<string>, head: seq<string>, del: seq<string>, add: seq<string>)
    ensures ls + head + del + add == ls + (head + (del + add))
  {
  }

  method WriteJournal(c: Codec, origin: string, history: nat, current: Serial, incs: seq<Increment>) returns (w: string)
    ensures w == JournalFile(c, origin, history, current, incs)
  {
    ghost var header := [HeaderLine(origin, history, current)];
    w := HeaderLine(origin, history, current) + ['\n'];
    assert w == Unlines(header + []) by {
      assert header + [] == header && Unlines(header[1..]) == "";
      assert header[0] + ['\n'] + "" == header[0] + ['\n'];
    }
    for i := 0 to |incs|
      invariant w == Unlines(header + BodyLines(c, incs[..i]))
    {
      ghost var ls := header + BodyLines(c, incs[..i]);
      BodySnoc(c, incs[..i], incs[i]);
      assert incs[..i + 1] == incs[..i] + [incs[i]];
      Associate(header, BodyLines(c, incs[..i]), IncrementLines(c, incs[i]), []);
      w := WriteIncrement(c, incs[i], w, ls);
    }
    assert incs[..|incs|] == incs;
  }

  method ParseJournal(c: Codec, text: string) returns (r: Option<seq<Increment>>)
    ensures r == Parse(c, text)
  {
    var ls := Lines(text);
    var s := Scanning([], None);
    for i := 0 to |ls|
      invariant ScanLines(c, Scanning([], None), ls) == ScanLines(c, s, ls[i..]) && s.Scanning?
    {
      assert ls[i..][1..] == ls[i + 1..];
      var next := ScanLine(c, s, ls[i]);
      if next.Bad? {
        ScanBad(c, ls[i + 1..]);
        return None;
      }
      s := next;
    }
    return Some(FlushScan(s).incs);
  }

  /** What the backend gives when a journal is loaded. */
  datatype Backend = NoBackend | Unreadable | Body(text: string)

  /** `loadJournal`: fails exactly when the backend cannot be read or its text does not
      parse; otherwise the journal holds the increments read, reconciled with the zone. */
  method LoadJournal(c: Codec, history: nat, backend: Backend, current: seq<RR>) returns (r: Option<Journal>)
    ensures r.None? <==> backend.Unreadable? || (backend.Body? && Parse(c, backend.text).None?)
    ensures r.Some? && backend.NoBackend? ==> r.value.View() == JournalState(history, [], current)
    ensures r.Some? && backend.Body? ==>
              r.value.View() == JournalState(history, Reconcile(Parse(c, backend.text).value, SerialOf(current)), current)
  {
    var parsed := Some([]);
    if backend.Unreadable? {
      return None;
    }
    if backend.Body? {
      parsed := ParseJournal(c, backend.text);
      if parsed.None? {
        return None;
      }
    }
    var j := new Journal.Load(history, backend.Body?, parsed.value, current);
    return Some(j);
  }

  lemma {:induction false} ScanBad(c: Codec, ls: seq<string>)
    ensures ScanLines(c, Bad, ls) == Bad
  {
    if ls != [] {
      ScanBad(c, ls[1..]);
    }
  }
}
