/**
 The block/allow filter (admin/filtereng.go): four sets of patterns and a walk over the
 ancestors of a name, against a plain scan of the rule list.
 */
module FilterIndex {

  datatype Action = Allow | Block

  datatype Rule = Rule(pattern: string, kidsOnly: bool, action: Action)

  // ---------------------------------------------------------------- labels

  /** How many backslashes stand directly before position i. */
  function Slashes(s: string, i: nat): nat
    requires i <= |s|
  {
    if i > 0 && s[i - 1] == '\\' then 1 + Slashes(s, i - 1) else 0
  }

  /** A label other than the first begins at o: after a dot that is not escaped. */
  predicate LabelStart(s: string, o: int) {
    0 < o < |s| && s[o - 1] == '.' && Slashes(s, o - 1) % 2 == 0
  }

  /** The presentation form of the parent: `dns.NextLabel` finds the next label, the empty
      string when there is none. */
  method ParentName(s: string) returns (parent: string)
    ensures parent == "" ==> forall o :: !LabelStart(s, o)
    ensures parent != "" ==> LabelStart(s, |s| - |parent|) && parent == s[|s| - |parent|..]
    ensures parent != "" ==> forall o :: LabelStart(s, o) ==> |s| - |parent| <= o
  {
    var i := 0;
    while i < |s| - 1
      invariant 0 <= i && (|s| > 0 ==> i <= |s| - 1)
      invariant forall o :: o <= i ==> !LabelStart(s, o)
    {
      if s[i] == '.' {
        var j := i - 1;
        while j >= 0 && s[j] == '\\'
          invariant -1 <= j < i
          invariant Slashes(s, i) == (i - 1 - j) + Slashes(s, j + 1)
        {
          j := j - 1;
        }
        if (i - 1 - j) % 2 == 0 {
          return s[i + 1..];
        }
      }
      i := i + 1;
    }
    return "";
  }

  /** The labels of an ancestor are labels of the name. */
  lemma {:induction false} SlashesOfSuffix(s: string, o: nat, i: nat)
    requires 0 < o <= |s| && s[o - 1] != '\\' && i <= |s| - o
    ensures Slashes(s[o..], i) == Slashes(s, o + i)
  {
    if i > 0 {
      SlashesOfSuffix(s, o, i - 1);
    }
  }

  lemma LabelsOfSuffix(s: string, o: nat, p: int)
    requires LabelStart(s, o)
    ensures LabelStart(s[o..], p) <==> p > 0 && LabelStart(s, o + p)
  {
    if 0 < p < |s| - o {
      SlashesOfSuffix(s, o, p - 1);
    }
  }

  // ---------------------------------------------------------------- meaning

  /** A pattern covers the names below it, label by label, and itself unless kids-only. */
  ghost predicate Covers(r: Rule, name: string) {
    (!r.kidsOnly && r.pattern == name) || exists o :: LabelStart(name, o) && r.pattern == name[o..]
  }

  /** A plain scan: some block rule covers the name and no allow rule does. */
  ghost predicate BlockedBy(rules: seq<Rule>, name: string) {
    && (exists r :: r in rules && r.action == Block && Covers(r, name))
    && !(exists r :: r in rules && r.action == Allow && Covers(r, name))
  }

  /** Patterns as the parser admits them have at least two labels; all that matters here
      is that none is the root. */
  predicate NoRoot(rules: seq<Rule>) {
    forall r :: r in rules ==> r.pattern != "."
  }

  function Patterns(rules: seq<Rule>, action: Action, kidsOnly: bool): set<string> {
    set r | r in rules && r.action == action && r.kidsOnly == kidsOnly :: r.pattern
  }

  ghost predicate Hit(name: string, self: set<string>, kids: set<string>) {
    name in self || exists o :: LabelStart(name, o) && (name[o..] in self || name[o..] in kids)
  }

  lemma HitIsCover(rules: seq<Rule>, action: Action, name: string)
    ensures Hit(name, Patterns(rules, action, false), Patterns(rules, action, true))
       <==> exists r :: r in rules && r.action == action && Covers(r, name)
  {
    var self, kids := Patterns(rules, action, false), Patterns(rules, action, true);
    if Hit(name, self, kids) {
      if name in self {
        var r :| r in rules && r.action == action && !r.kidsOnly && r.pattern == name;
        assert Covers(r, name);
      } else {
        var o :| LabelStart(name, o) && (name[o..] in self || name[o..] in kids);
        var r :| r in rules && r.action == action && r.pattern == name[o..];
        assert Covers(r, name);
      }
    }
    forall r | r in rules && r.action == action && Covers(r, name) ensures Hit(name, self, kids) {
      assert r.pattern in self || r.pattern in kids;
    }
  }

  // ---------------------------------------------------------------- the engine

  /** Walks the ancestors from the nearest one up. */
  method FilterHit(name: string, self: set<string>, kids: set<string>) returns (hit: bool)
    requires "." !in self && "." !in kids
    ensures hit <==> Hit(name, self, kids)
  {
    if name in self {
      return true;
    }
    var rest := ParentName(name);
    ghost var o := |name| - |rest|;
    while rest != "" && rest != "."
      invariant o == |name| - |rest| && o >= 0 && rest == name[o..]
      invariant rest != "" ==> LabelStart(name, o)
      invariant forall p :: LabelStart(name, p) && p < o ==> name[p..] !in self && name[p..] !in kids
      decreases |rest|
    {
      if rest in self || rest in kids {
        return true;
      }
      ghost var above := rest;
      rest := ParentName(rest);
      ghost var o' := |name| - |rest|;
      forall p | LabelStart(name, p) && p < o' ensures name[p..] !in self && name[p..] !in kids {
        if p > o {
          LabelsOfSuffix(name, o, p - o);
        }
      }
      if rest != "" {
        LabelsOfSuffix(name, o, |above| - |rest|);
      }
      o := o';
    }
    return false;
  }

  class FilterEngine {
    var allowSelf: set<string>
    var blockSelf: set<string>
    var allowKids: set<string>
    var blockKids: set<string>

    /** The four sets hold exactly the patterns of `rules`. */
    ghost predicate Indexes(rules: seq<Rule>)
      reads this
    {
      && allowSelf == Patterns(rules, Allow, false) && allowKids == Patterns(rules, Allow, true)
      && blockSelf == Patterns(rules, Block, false) && blockKids == Patterns(rules, Block, true)
    }

    constructor ()
      ensures Indexes([])
    {
      allowSelf, blockSelf, allowKids, blockKids := {}, {}, {}, {};
    }

    method Replace(rules: seq<Rule>)
      modifies this
      ensures Indexes(rules)
    {
      var aSelf: set<string>, bSelf: set<string>, aKids: set<string>, bKids: set<string> := {}, {}, {}, {};
      for i := 0 to |rules|
        invariant aSelf == Patterns(rules[..i], Allow, false) && aKids == Patterns(rules[..i], Allow, true)
        invariant bSelf == Patterns(rules[..i], Block, false) && bKids == Patterns(rules[..i], Block, true)
      {
        var r := rules[i];
        assert rules[..i + 1] == rules[..i] + [r];
        if r.kidsOnly {
          if r.action == Allow {
            aKids := aKids + {r.pattern};
          } else {
            bKids := bKids + {r.pattern};
          }
          continue;
        }
        if r.action == Allow {
          aSelf := aSelf + {r.pattern};
        } else {
          bSelf := bSelf + {r.pattern};
        }
      }
      assert rules[..|rules|] == rules;
      allowSelf, allowKids := aSelf, aKids;
      blockSelf, blockKids := bSelf, bKids;
    }

    /** The index decides exactly what a scan of all the rules would. */
    method Blocked(name: string, ghost rules: seq<Rule>) returns (blocked: bool)
      requires Indexes(rules) && NoRoot(rules)
      ensures blocked <==> BlockedBy(rules, name)
    {
      HitIsCover(rules, Allow, name);
      HitIsCover(rules, Block, name);
      if blockSelf == {} && blockKids == {} {
        return false;
      }
      var allowed := FilterHit(name, allowSelf, allowKids);
      if allowed {
        return false;
      }
      blocked := FilterHit(name, blockSelf, blockKids);
    }
  }
}
