/**
 Deciding whether a response answers its question (split-horizon-cache/cache.go):
 the CNAME chain in the answer section is walked from the question name, without
 regard to letter case, and must be a single path to a name that has no alias.
 */
module CnameChains {
  import opened Collections
  import opened Records

  /** Owner and target names as they stand in a message, letter case included; no name
      in a message is the empty string, which the code uses to mean "no target". */
  type DomainText = s: string | s != "" witness "."

  datatype AnswerRR =
    | Alias(owner: DomainText, cls: nat, target: DomainText)
    | Plain(owner: DomainText, cls: nat, rtype: nat)
  {
    function Type(): nat {
      if Alias? then TYPE_CNAME else rtype
    }
  }

  predicate EqualFold(a: string, b: string) {
    Lower(a) == Lower(b)
  }

  predicate ClassMatches(cls: nat, qclass: nat) {
    qclass == CLASS_ANY || cls == qclass
  }

  predicate IsAliasOf(r: AnswerRR, owner: string, qclass: nat) {
    r.Alias? && ClassMatches(r.cls, qclass) && Lower(r.owner) == owner
  }

  /** The names, folded, that the folded name `owner` is aliased to. */
  function Targets(answer: set<AnswerRR>, owner: string, qclass: nat): set<string> {
    set r | r in answer && IsAliasOf(r, owner, qclass) :: Lower(r.target)
  }

  /** Where a name leads: nowhere further, to one other name, or to several. */
  datatype Hop = Terminal | To(name: string) | Ambiguous

  ghost function HopOf(answer: set<AnswerRR>, owner: string, qclass: nat): Hop {
    var ts := Targets(answer, owner, qclass);
    if ts == {} then Terminal
    else
      var t :| t in ts;
      if ts == {t} then To(t) else Ambiguous
  }

  /** The name reached from `n` after exactly k hops, if the path is that long. */
  ghost function Walk(answer: set<AnswerRR>, qclass: nat, n: string, k: nat): Option<string> {
    if k == 0 then Some(n)
    else
      match Walk(answer, qclass, n, k - 1)
      case None => None
      case Some(m) => if HopOf(answer, m, qclass).To? then Some(HopOf(answer, m, qclass).name) else None
  }

  /** The chain from `n` ends, after k hops, at the canonical name `t`. */
  ghost predicate EndsAt(answer: set<AnswerRR>, qclass: nat, n: string, k: nat, t: string) {
    Walk(answer, qclass, n, k) == Some(t) && HopOf(answer, t, qclass) == Terminal
  }

  ghost predicate HasCanonical(answer: set<AnswerRR>, qclass: nat, n: string) {
    exists k: nat, t: string :: EndsAt(answer, qclass, n, k, t)
  }

  // ---------------------------------------------------------------- facts about walks

  lemma {:induction false} WalkIsPrefixClosed(answer: set<AnswerRR>, qclass: nat, n: string, i: nat, k: nat)
    requires i <= k && Walk(answer, qclass, n, k).Some?
    ensures Walk(answer, qclass, n, i).Some?
    ensures i < k ==> HopOf(answer, Walk(answer, qclass, n, i).value, qclass).To?
  {
    if i < k {
      WalkIsPrefixClosed(answer, qclass, n, i, k - 1);
    }
  }

  lemma {:induction false} WalkShifts(answer: set<AnswerRR>, qclass: nat, n: string, i: nat, j: nat, d: nat)
    requires Walk(answer, qclass, n, i) == Walk(answer, qclass, n, j)
    ensures Walk(answer, qclass, n, i + d) == Walk(answer, qclass, n, j + d)
  {
    if d > 0 {
      WalkShifts(answer, qclass, n, i, j, d - 1);
      assert Walk(answer, qclass, n, i + d - 1) == Walk(answer, qclass, n, j + d - 1);
    }
  }

  /** A revisited name means the walk never ends. */
  lemma {:induction false} CycleNeverEnds(answer: set<AnswerRR>, qclass: nat, n: string, i: nat, j: nat, k: nat, t: string)
    requires i < j && Walk(answer, qclass, n, j).Some? && Walk(answer, qclass, n, i) == Walk(answer, qclass, n, j)
    ensures !EndsAt(answer, qclass, n, k, t)
    decreases k
  {
    if k < j {
      WalkIsPrefixClosed(answer, qclass, n, k, j);
    } else {
      WalkShifts(answer, qclass, n, i, j, k - j);
      CycleNeverEnds(answer, qclass, n, i, j, k - (j - i), t);
    }
  }

  lemma AmbiguousNeverEnds(answer: set<AnswerRR>, qclass: nat, n: string, j: nat, k: nat, t: string)
    requires Walk(answer, qclass, n, j).Some? && HopOf(answer, Walk(answer, qclass, n, j).value, qclass) == Ambiguous
    ensures !EndsAt(answer, qclass, n, k, t)
  {
    if k < j {
      WalkIsPrefixClosed(answer, qclass, n, k, j);
    } else if j < k && Walk(answer, qclass, n, k).Some? {
      WalkIsPrefixClosed(answer, qclass, n, j, k);
    }
  }

  /** The canonical name, when there is one, is unique. */
  lemma CanonicalIsUnique(answer: set<AnswerRR>, qclass: nat, n: string, i: nat, s: string, k: nat, t: string)
    requires EndsAt(answer, qclass, n, i, s) && EndsAt(answer, qclass, n, k, t)
    ensures i == k && s == t
  {
    if i < k {
      WalkIsPrefixClosed(answer, qclass, n, i, k);
    } else if k < i {
      WalkIsPrefixClosed(answer, qclass, n, k, i);
    }
  }

  // ---------------------------------------------------------------- the code

  /** `target` is the text of one of the targets, the empty string when there is none. */
  method UniqueCnameTarget(answer: seq<AnswerRR>, owner: string, qclass: nat) returns (target: string, ok: bool)
    ensures var hop := HopOf(Elems(answer), Lower(owner), qclass);
            && (ok <==> hop != Ambiguous)
            && (ok ==> (target == "" <==> hop == Terminal) && (target != "" ==> hop == To(Lower(target))))
  {
    target := "";
    ghost var n := Lower(owner);
    for i := 0 to |answer|
      invariant Targets(Elems(answer[..i]), n, qclass) == if target == "" then {} else {Lower(target)}
    {
      TargetsNext(answer, i, n, qclass);
      var r := answer[i];
      if r.Alias? && ClassMatches(r.cls, qclass) && EqualFold(r.owner, owner) {
        if target != "" && !EqualFold(target, r.target) {
          TwoTargets(answer, i + 1, n, qclass, Lower(target), Lower(r.target));
          return "", false;
        }
        target := r.target;
      }
    }
    assert answer[..|answer|] == answer;
    ok := true;
  }

  lemma TargetsNext(answer: seq<AnswerRR>, i: nat, n: string, qclass: nat)
    requires i < |answer|
    ensures Targets(Elems(answer[..i + 1]), n, qclass)
         == Targets(Elems(answer[..i]), n, qclass) + if IsAliasOf(answer[i], n, qclass) then {Lower(answer[i].target)} else {}
  {
    assert answer[..i + 1] == answer[..i] + [answer[i]];
    assert Elems(answer[..i + 1]) == Elems(answer[..i]) + {answer[i]};
  }

  lemma TwoTargets(answer: seq<AnswerRR>, i: nat, n: string, qclass: nat, s: string, t: string)
    requires i <= |answer| && s != t && {s, t} <= Targets(Elems(answer[..i]), n, qclass)
    ensures HopOf(Elems(answer), n, qclass) == Ambiguous
  {
    assert Elems(answer[..i]) <= Elems(answer);
    assert {s, t} <= Targets(Elems(answer), n, qclass);
  }

  /** Every name a walk can visit. */
  function Reachable(answer: set<AnswerRR>, n: string): set<string> {
    {n} + set r | r in answer && r.Alias? :: Lower(r.target)
  }

  /** Follows the chain; succeeds exactly when it ends, and then with the canonical name
      (in the letter case of the last record naming it). It always terminates: each turn
      visits a name of the answer section not visited before. */
  method CanonicalName(answer: seq<AnswerRR>, start: string, qclass: nat) returns (name: string, ok: bool)
    ensures ok <==> HasCanonical(Elems(answer), qclass, Lower(start))
    ensures ok ==> exists k: nat :: EndsAt(Elems(answer), qclass, Lower(start), k, Lower(name))
  {
    name := start;
    var visited: set<string> := {};
    ghost var set_, n := Elems(answer), Lower(start);
    ghost var trail: seq<string> := [];
    while true
      invariant Trail(set_, qclass, n, trail, visited) && Walk(set_, qclass, n, |trail|) == Some(Lower(name))
      invariant Lower(name) in Reachable(set_, n) && visited <= Reachable(set_, n)
      decreases Reachable(set_, n) - visited
    {
      if Lower(name) in visited {
        ghost var i :| 0 <= i < |trail| && trail[i] == Lower(name);
        forall k: nat, t: string ensures !EndsAt(set_, qclass, n, k, t) {
          CycleNeverEnds(set_, qclass, n, i, |trail|, k, t);
        }
        return name, false;
      }
      visited := visited + {Lower(name)};
      var target, unique := UniqueCnameTarget(answer, name, qclass);
      if !unique {
        forall k: nat, t: string ensures !EndsAt(set_, qclass, n, k, t) {
          AmbiguousNeverEnds(set_, qclass, n, |trail|, k, t);
        }
        return name, false;
      }
      if target == "" {
        assert EndsAt(set_, qclass, n, |trail|, Lower(name));
        return name, true;
      }
      HopIsReachable(set_, Lower(name), qclass, Lower(target));
      trail := trail + [Lower(name)];
      name := target;
    }
  }

  /** `trail` is the walk so far and `visited` its names. */
  ghost predicate Trail(answer: set<AnswerRR>, qclass: nat, n: string, trail: seq<string>, visited: set<string>) {
    visited == Elems(trail) && forall i :: 0 <= i < |trail| ==> Walk(answer, qclass, n, i) == Some(trail[i])
  }

  lemma HopIsReachable(answer: set<AnswerRR>, m: string, qclass: nat, t: string)
    requires HopOf(answer, m, qclass) == To(t)
    ensures exists r :: r in answer && r.Alias? && Lower(r.target) == t
  {
    assert t in Targets(answer, m, qclass);
  }

  // ---------------------------------------------------------------- answering

  /** Section 3.6.2 of RFC 1034: a record of the asked type at the end of the chain; for
      ANY a record at the name itself, for CNAME an unambiguous alias of it. */
  ghost predicate Answers(answer: set<AnswerRR>, name: string, qtype: nat, qclass: nat) {
    if qtype == TYPE_ANY then
      exists r :: r in answer && ClassMatches(r.cls, qclass) && Lower(r.owner) == Lower(name)
    else if qtype == TYPE_CNAME then HopOf(answer, Lower(name), qclass).To?
    else
      exists k: nat, t: string, r :: EndsAt(answer, qclass, Lower(name), k, t)
        && r in answer && r.Type() == qtype && ClassMatches(r.cls, qclass) && Lower(r.owner) == t
  }

  method AnswerHasType(answer: seq<AnswerRR>, name: string, qtype: nat, qclass: nat) returns (yes: bool)
    ensures yes <==> Answers(Elems(answer), name, qtype, qclass)
  {
    ghost var set_ := Elems(answer);
    if |answer| == 0 {
      NothingAnswers(name, qtype, qclass);
      return false;
    }
    if qtype == TYPE_ANY {
      return exists r :: r in answer && ClassMatches(r.cls, qclass) && EqualFold(r.owner, name);
    }
    if qtype == TYPE_CNAME {
      var target, unique := UniqueCnameTarget(answer, name, qclass);
      return unique && target != "";
    }
    var terminal, ok := CanonicalName(answer, name, qclass);
    if !ok {
      return false;
    }
    ghost var k: nat :| EndsAt(set_, qclass, Lower(name), k, Lower(terminal));
    yes := exists r :: r in answer && r.Type() == qtype && ClassMatches(r.cls, qclass) && EqualFold(r.owner, terminal);
    if Answers(set_, name, qtype, qclass) {
      ghost var k', t, r :| EndsAt(set_, qclass, Lower(name), k', t)
        && r in set_ && r.Type() == qtype && ClassMatches(r.cls, qclass) && Lower(r.owner) == t;
      CanonicalIsUnique(set_, qclass, Lower(name), k, Lower(terminal), k', t);
    }
  }

  lemma NothingAnswers(name: string, qtype: nat, qclass: nat)
    ensures !Answers({}, name, qtype, qclass)
  {
  }

  /** The parts of a response the verdict looks at. */
  datatype Message = Message(rcode: nat, question: seq<Question>, answer: seq<AnswerRR>)

  datatype Question = Question(name: string, qtype: nat, qclass: nat)

  const RCODE_SUCCESS: nat := 0

  ghost predicate AnswersMessage(m: Message) {
    m.rcode == RCODE_SUCCESS && m.question != []
    && var q := m.question[0]; Answers(Elems(m.answer), q.name, q.qtype, q.qclass)
  }

  method AnswersQuestion(m: Message) returns (yes: bool)
    ensures yes <==> AnswersMessage(m)
  {
    if m.rcode != RCODE_SUCCESS || m.question == [] {
      return false;
    }
    var q := m.question[0];
    yes := AnswerHasType(m.answer, q.name, q.qtype, q.qclass);
  }

  // ---------------------------------------------------------------- order and letter case

  /** A record with its names folded. */
  datatype Folded = FoldedAlias(owner: string, cls: nat, target: string) | FoldedPlain(owner: string, cls: nat, rtype: nat)

  function Fold(r: AnswerRR): Folded {
    match r
    case Alias(owner, cls, target) => FoldedAlias(Lower(owner), cls, Lower(target))
    case Plain(owner, cls, rtype) => FoldedPlain(Lower(owner), cls, rtype)
  }

  function FoldAll(answer: seq<AnswerRR>): (r: seq<Folded>)
    ensures |r| == |answer| && forall i :: 0 <= i < |answer| ==> r[i] == Fold(answer[i])
  {
    seq(|answer|, i requires 0 <= i < |answer| => Fold(answer[i]))
  }

  /** The same records, apart from their order, repetition and letter case. */
  predicate SameRecords(a: set<AnswerRR>, b: set<AnswerRR>) {
    Folds(a) == Folds(b)
  }

  function Folds(answer: set<AnswerRR>): set<Folded> {
    set r | r in answer :: Fold(r)
  }

  lemma Partner(a: set<AnswerRR>, b: set<AnswerRR>, r: AnswerRR) returns (s: AnswerRR)
    requires SameRecords(a, b) && r in a
    ensures s in b && Fold(s) == Fold(r)
    ensures s.Type() == r.Type() && s.cls == r.cls && Lower(s.owner) == Lower(r.owner)
    ensures s.Alias? == r.Alias? && (r.Alias? ==> Lower(s.target) == Lower(r.target))
  {
    assert Fold(r) in Folds(b);
    s :| s in b && Fold(s) == Fold(r);
  }

  lemma SameHops(a: set<AnswerRR>, b: set<AnswerRR>, qclass: nat, n: string)
    requires SameRecords(a, b)
    ensures HopOf(a, n, qclass) == HopOf(b, n, qclass)
  {
    TargetsWithin(a, b, n, qclass);
    TargetsWithin(b, a, n, qclass);
    assert Targets(a, n, qclass) == Targets(b, n, qclass);
  }

  lemma TargetsWithin(a: set<AnswerRR>, b: set<AnswerRR>, n: string, qclass: nat)
    requires SameRecords(a, b)
    ensures Targets(a, n, qclass) <= Targets(b, n, qclass)
  {
    forall t | t in Targets(a, n, qclass) ensures t in Targets(b, n, qclass) {
      var r :| r in a && IsAliasOf(r, n, qclass) && Lower(r.target) == t;
      var s := Partner(a, b, r);
      assert IsAliasOf(s, n, qclass) && Lower(s.target) == t;
    }
  }

  lemma {:induction false} SameWalks(a: set<AnswerRR>, b: set<AnswerRR>, qclass: nat, n: string, k: nat)
    requires SameRecords(a, b)
    ensures Walk(a, qclass, n, k) == Walk(b, qclass, n, k)
  {
    if k > 0 {
      SameWalks(a, b, qclass, n, k - 1);
      var m := Walk(a, qclass, n, k - 1);
      if m.Some? {
        SameHops(a, b, qclass, m.value);
      }
    }
  }

  lemma SameEnds(a: set<AnswerRR>, b: set<AnswerRR>, qclass: nat, n: string, k: nat, t: string)
    requires SameRecords(a, b)
    ensures EndsAt(a, qclass, n, k, t) <==> EndsAt(b, qclass, n, k, t)
  {
    SameWalks(a, b, qclass, n, k);
    SameHops(a, b, qclass, t);
  }

  lemma AnswersWithin(a: set<AnswerRR>, b: set<AnswerRR>, name: string, name': string, qtype: nat, qclass: nat)
    requires SameRecords(a, b) && Lower(name) == Lower(name') && Answers(a, name, qtype, qclass)
    ensures Answers(b, name', qtype, qclass)
  {
    if qtype == TYPE_ANY {
      var r :| r in a && ClassMatches(r.cls, qclass) && Lower(r.owner) == Lower(name);
      var s := Partner(a, b, r);
    } else if qtype == TYPE_CNAME {
      SameHops(a, b, qclass, Lower(name));
    } else {
      var k: nat, t: string, r :| EndsAt(a, qclass, Lower(name), k, t)
        && r in a && r.Type() == qtype && ClassMatches(r.cls, qclass) && Lower(r.owner) == t;
      SameEnds(a, b, qclass, Lower(name), k, t);
      var s := Partner(a, b, r);
    }
  }

  lemma FoldsAreElems(a: seq<AnswerRR>)
    ensures Folds(Elems(a)) == Elems(FoldAll(a))
  {
    forall x | x in Folds(Elems(a)) ensures x in Elems(FoldAll(a)) {
      var r :| r in a && Fold(r) == x;
      var i :| 0 <= i < |a| && a[i] == r;
      assert FoldAll(a)[i] == x;
    }
  }

  lemma FoldedPermutation(a: seq<AnswerRR>, b: seq<AnswerRR>)
    requires multiset(FoldAll(a)) == multiset(FoldAll(b))
    ensures SameRecords(Elems(a), Elems(b))
  {
    PermutationMembers(FoldAll(a), FoldAll(b));
    FoldsAreElems(a);
    FoldsAreElems(b);
    assert Elems(FoldAll(a)) == Elems(FoldAll(b));
  }

  /** Reordering the answer section and changing the letter case of any name in it, or of
      the question name, changes neither where the chain ends (up to letter case) nor the
      verdict. */
  lemma AnswersIgnoresOrderAndCase(a: seq<AnswerRR>, b: seq<AnswerRR>, name: string, name': string, qtype: nat, qclass: nat)
    requires multiset(FoldAll(a)) == multiset(FoldAll(b)) && Lower(name) == Lower(name')
    ensures forall k: nat, t: string ::
              EndsAt(Elems(a), qclass, Lower(name), k, t) <==> EndsAt(Elems(b), qclass, Lower(name'), k, t)
    ensures Answers(Elems(a), name, qtype, qclass) <==> Answers(Elems(b), name', qtype, qclass)
  {
    FoldedPermutation(a, b);
    forall k: nat, t: string
      ensures EndsAt(Elems(a), qclass, Lower(name), k, t) <==> EndsAt(Elems(b), qclass, Lower(name'), k, t)
    {
      SameEnds(Elems(a), Elems(b), qclass, Lower(name), k, t);
    }
    if Answers(Elems(a), name, qtype, qclass) {
      AnswersWithin(Elems(a), Elems(b), name, name', qtype, qclass);
    }
    if Answers(Elems(b), name', qtype, qclass) {
      AnswersWithin(Elems(b), Elems(a), name', name, qtype, qclass);
    }
  }
}
