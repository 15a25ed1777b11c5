// Ignore rules: which apply to a path, in what order, and what they exclude.
module IgnoreRules {
  import opened Glob
  import opened PathBytes

  type Path = seq<Text>

  /** One line of an ignore file, and the directory the file lives in. */
  datatype Pattern = Pattern(negated: bool, dirOnly: bool, regex: seq<Regex>)
  datatype Rule = Rule(base: Path, pattern: Pattern)

  function Join(path: Path): Text {
    if path == [] then [] else if |path| == 1 then path[0] else path[0] + [SLASH] + Join(path[1..])
  }

  predicate Inside(base: Path, path: Path) {
    |base| < |path| && path[..|base|] == base
  }

  /** Whether a rule applies to a path and matches it. */
  predicate Hits(r: Rule, path: Path, isDir: bool) {
    && (r.pattern.dirOnly ==> isDir)
    && Inside(r.base, path) && LangAll(r.pattern.regex, Join(path[|r.base|..]))
  }

  /** The last rule that hits decides. */
  predicate Excluded(rules: seq<Rule>, path: Path, isDir: bool) {
    if rules == [] then false
    else
      var last := rules[|rules| - 1];
      if Hits(last, path, isDir) then !last.pattern.negated else Excluded(rules[..|rules| - 1], path, isDir)
  }

  method MatchesDirectly(rules: seq<Rule>, path: Path, isDir: bool) returns (ignored: bool)
    ensures ignored == Excluded(rules, path, isDir)
  {
    ignored := false;
    var i := 0;
    while i < |rules|
      invariant 0 <= i <= |rules|
      invariant ignored == Excluded(rules[..i], path, isDir)
    {
      var rule := rules[i];
      assert rules[..i + 1][..i] == rules[..i] && rules[..i + 1][i] == rule;
      if Hits(rule, path, isDir) {
        ignored := !rule.pattern.negated;
      }
      i := i + 1;
    }
    assert rules[..|rules|] == rules;
  }

  /** A path is ignored when it, or a directory above it, is excluded. */
  predicate Ignored(rules: seq<Rule>, path: Path, isDir: bool) {
    AboveIgnored(rules, path) || Excluded(rules, path, isDir)
  }

  predicate AboveIgnored(rules: seq<Rule>, path: Path) {
    exists k | 0 < k < |path| :: Excluded(rules, path[..k], true)
  }

  method IsIgnored(rules: seq<Rule>, path: Path, isDir: bool) returns (ignored: bool)
    ensures ignored == Ignored(rules, path, isDir)
  {
    var k := 1;
    while k < |path|
      invariant 1 <= k
      invariant forall j | 0 < j < k && j < |path| :: !Excluded(rules, path[..j], true)
    {
      ignored := MatchesDirectly(rules, path[..k], true);
      if ignored {
        return;
      }
      k := k + 1;
    }
    ignored := MatchesDirectly(rules, path, isDir);
  }

  /** Nothing below an ignored directory is included again, whatever the rules say. */
  lemma NeverReincluded(rules: seq<Rule>, dir: Path, path: Path, isDir: bool)
    requires Ignored(rules, dir, true) && dir != [] && Inside(dir, path)
    ensures AboveIgnored(rules, path) && Ignored(rules, path, isDir)
  {
    if Excluded(rules, dir, true) {
      assert path[..|dir|] == dir;
    } else {
      var k :| 0 < k < |dir| && Excluded(rules, dir[..k], true);
      assert path[..k] == dir[..k];
    }
  }

  // ----- the rules that matter for a path

  function Relevant(rules: seq<Rule>, path: Path): seq<Rule> {
    if rules == [] then []
    else (if Inside(rules[0].base, path) then [rules[0]] else []) + Relevant(rules[1..], path)
  }

  function AtBase(rules: seq<Rule>, base: Path): seq<Rule> {
    if rules == [] then []
    else (if rules[0].base == base then [rules[0]] else []) + AtBase(rules[1..], base)
  }

  lemma {:induction false} RelevantAppend(a: seq<Rule>, b: seq<Rule>, path: Path)
    ensures Relevant(a + b, path) == Relevant(a, path) + Relevant(b, path)
  {
    hide Inside;
    if a == [] {
      assert a + b == b;
    } else {
      RelevantAppend(a[1..], b, path);
      assert (a + b)[1..] == a[1..] + b && (a + b)[0] == a[0];
      Assoc(if Inside(a[0].base, path) then [a[0]] else [], Relevant(a[1..], path), Relevant(b, path));
    }
  }

  lemma {:induction false} AtBaseAppend(a: seq<Rule>, b: seq<Rule>, base: Path)
    ensures AtBase(a + b, base) == AtBase(a, base) + AtBase(b, base)
  {
    if a == [] {
      assert a + b == b;
    } else {
      AtBaseAppend(a[1..], b, base);
      assert (a + b)[1..] == a[1..] + b && (a + b)[0] == a[0];
      Assoc(if a[0].base == base then [a[0]] else [], AtBase(a[1..], base), AtBase(b, base));
    }
  }

  lemma {:induction false} OnlyRelevantDecide(rules: seq<Rule>, path: Path, isDir: bool)
    ensures Excluded(rules, path, isDir) == Excluded(Relevant(rules, path), path, isDir)
    decreases |rules|
  {
    hide Hits;
    if rules != [] {
      var n := |rules| - 1;
      OnlyRelevantDecide(rules[..n], path, isDir);
      RelevantAppend(rules[..n], [rules[n]], path);
      assert rules[..n] + [rules[n]] == rules;
      LastRelevant(rules[..n], rules[n], path, isDir);
    }
  }

  lemma LastRelevant(rules: seq<Rule>, last: Rule, path: Path, isDir: bool)
    ensures var more := Relevant([last], path);
            if Hits(last, path, isDir) then more == [last] && Excluded(Relevant(rules, path) + more, path, isDir) == !last.pattern.negated
            else Excluded(Relevant(rules, path) + more, path, isDir) == Excluded(Relevant(rules, path), path, isDir)
  {
    var front, more := Relevant(rules, path), Relevant([last], path);
    assert [last][1..] == [] && Relevant([], path) == [];
    assert more == if Inside(last.base, path) then [last] else [];
    assert more == [last] ==> (front + more)[..|front|] == front;
    assert more == [] ==> front + more == front;
  }

  lemma {:induction false} RelevantTwice(rules: seq<Rule>, path: Path, longer: Path)
    requires path == longer || Inside(path, longer)
    ensures Relevant(Relevant(rules, longer), path) == Relevant(rules, path)
  {
    if rules != [] {
      RelevantTwice(rules[1..], path, longer);
      var b := rules[0].base;
      assert Inside(b, path) ==> longer[..|b|] == path[..|b|];
      RelevantAppend(if Inside(b, longer) then [rules[0]] else [], Relevant(rules[1..], longer), path);
      assert [rules[0]][1..] == [];
    }
  }

  /** Rules that agree on what is relevant to a path agree on whether it is ignored. */
  lemma SameRelevantSameIgnored(rules: seq<Rule>, chain: seq<Rule>, path: Path, isDir: bool)
    requires chain == Relevant(rules, path)
    ensures Ignored(chain, path, isDir) == Ignored(rules, path, isDir)
    ensures AboveIgnored(chain, path) == AboveIgnored(rules, path)
  {
    hide Excluded;
    forall k, dir | 0 < k <= |path|
      ensures Excluded(chain, path[..k], dir) == Excluded(rules, path[..k], dir)
    {
      assert k == |path| ==> path[..k] == path;
      assert k < |path| ==> Inside(path[..k], path);
      OnlyRelevantDecide(rules, path[..k], dir);
      OnlyRelevantDecide(chain, path[..k], dir);
      RelevantTwice(rules, path[..k], path);
    }
    if path == [] {
      OnlyRelevantDecide(rules, path, isDir);
      OnlyRelevantDecide(chain, path, isDir);
      RelevantTwice(rules, path, path);
    } else {
      assert path[..|path|] == path;
    }
  }

  // ----- evaluation order

  function Insert(r: Rule, rules: seq<Rule>): seq<Rule> {
    if rules == [] || |r.base| <= |rules[0].base| then [r] + rules else [rules[0]] + Insert(r, rules[1..])
  }

  /** Shallower directories first; rules of one depth keep their order. */
  function OrderRules(rules: seq<Rule>): seq<Rule> {
    if rules == [] then [] else Insert(rules[0], OrderRules(rules[1..]))
  }

  ghost predicate ByDepth(rules: seq<Rule>) {
    forall i, j | 0 <= i < j < |rules| :: |rules[i].base| <= |rules[j].base|
  }

  lemma {:induction false} InsertHolds(r: Rule, rules: seq<Rule>)
    ensures multiset(Insert(r, rules)) == multiset(rules) + multiset{r}
    ensures forall x :: x in Insert(r, rules) <==> x == r || x in rules
  {
    if rules != [] && |rules[0].base| < |r.base| {
      InsertHolds(r, rules[1..]);
      assert rules == [rules[0]] + rules[1..];
    }
  }

  lemma {:induction false} InsertByDepth(r: Rule, rules: seq<Rule>)
    requires ByDepth(rules)
    ensures ByDepth(Insert(r, rules))
  {
    if rules != [] && |rules[0].base| < |r.base| {
      InsertByDepth(r, rules[1..]);
      InsertHolds(r, rules[1..]);
      var rest := Insert(r, rules[1..]);
      assert Insert(r, rules) == [rules[0]] + rest;
      hide Insert;
      assert forall i | 0 <= i < |rules[1..]| :: |rules[0].base| <= |rules[1..][i].base|;
      assert forall i | 0 <= i < |rest| :: rest[i] in rest;
    }
  }

  /** The stable order: nothing is lost, depths ascend, and every directory's rules keep their order. */
  lemma {:induction false} OrderIsStable(rules: seq<Rule>, base: Path)
    ensures ByDepth(OrderRules(rules)) && multiset(OrderRules(rules)) == multiset(rules)
    ensures AtBase(OrderRules(rules), base) == AtBase(rules, base)
  {
    if rules != [] {
      assert OrderRules(rules) == Insert(rules[0], OrderRules(rules[1..]));
      assert rules == [rules[0]] + rules[1..];
      hide *;
      OrderIsStable(rules[1..], base);
      InsertByDepth(rules[0], OrderRules(rules[1..]));
      InsertHolds(rules[0], OrderRules(rules[1..]));
      InsertAtBase(rules[0], OrderRules(rules[1..]), base);
      AtBaseAppend([rules[0]], rules[1..], base);
    }
  }

  lemma {:induction false} InsertAtBase(r: Rule, rules: seq<Rule>, base: Path)
    ensures AtBase(Insert(r, rules), base) == AtBase([r], base) + AtBase(rules, base)
  {
    hide AtBase;
    if rules == [] || |r.base| <= |rules[0].base| {
      AtBaseAppend([r], rules, base);
    } else {
      InsertAtBase(r, rules[1..], base);
      AtBaseAppend([rules[0]], Insert(r, rules[1..]), base);
      AtBaseAppend([rules[0]], rules[1..], base);
      assert rules == [rules[0]] + rules[1..];
      AtOneBase(r, rules[0], base);
    }
  }

  lemma AtOneBase(r: Rule, x: Rule, base: Path)
    requires |x.base| < |r.base|
    ensures AtBase([r], base) == [] || AtBase([x], base) == []
  {
    assert [r][1..] == [] && [x][1..] == [];
  }

  lemma InsideNext(base: Path, dir: Path, name: Text)
    ensures Inside(base, dir + [name]) <==> Inside(base, dir) || base == dir
    ensures !Inside(dir, dir)
  {
    assert (dir + [name])[..|dir|] == dir;
    assert |base| <= |dir| ==> (dir + [name])[..|base|] == dir[..|base|];
  }

  /** In evaluation order, the rules that matter inside a directory are those that matter to it, then its own. */
  lemma {:induction false} RelevantInside(rules: seq<Rule>, dir: Path, name: Text)
    requires ByDepth(rules)
    ensures Relevant(rules, dir + [name]) == Relevant(rules, dir) + AtBase(rules, dir)
  {
    if rules != [] {
      var r, t, p := rules[0], rules[1..], dir + [name];
      InsideNext(r.base, dir, name);
      assert Relevant(rules, p) == (if Inside(r.base, p) then [r] else []) + Relevant(t, p);
      assert Relevant(rules, dir) == (if Inside(r.base, dir) then [r] else []) + Relevant(t, dir);
      assert AtBase(rules, dir) == (if r.base == dir then [r] else []) + AtBase(t, dir);
      hide *;
      RelevantInside(t, dir, name);
      if r.base == dir {
        NoneShallower(t, dir);
      } else if Inside(r.base, dir) {
        Assoc([r], Relevant(t, dir), AtBase(t, dir));
      }
    } else {
      assert Relevant(rules, dir + [name]) == Relevant(rules, dir) == AtBase(rules, dir) == [];
    }
  }

  lemma {:induction false} NoneShallower(rules: seq<Rule>, dir: Path)
    requires forall r | r in rules :: |dir| <= |r.base|
    ensures Relevant(rules, dir) == []
  {
    if rules != [] {
      NoneShallower(rules[1..], dir);
    }
  }
}
