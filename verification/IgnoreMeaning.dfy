// Which paths a list of ignore lines excludes, by the segments of their patterns and nothing else.
module IgnoreMeaning {
  import opened PathBytes
  import opened Glob
  import opened IgnoreRules

  /** A line of an ignore file as it was parsed, and the directory of the file. */
  datatype Line = Line(base: Path, glob: Text, anchored: bool, negated: bool, dirOnly: bool)

  function RuleOf(l: Line): Rule {
    Rule(l.base, Pattern(l.negated, l.dirOnly, Compiled(l.glob, l.anchored)))
  }

  function RulesOf(ls: seq<Line>): (rules: seq<Rule>)
    ensures |rules| == |ls| && forall i | 0 <= i < |ls| :: rules[i] == RuleOf(ls[i])
  {
    seq(|ls|, i requires 0 <= i < |ls| => RuleOf(ls[i]))
  }

  /** A pattern against names: anchored from the first one on, otherwise from any. */
  ghost predicate Fits(l: Line, names: Path) {
    if l.anchored then Matches(Tokens(l.glob), names) else exists k :: 0 <= k < |names| && Matches(Tokens(l.glob), names[k..])
  }

  /** A line applies below its directory, to directories only if it says so, and to the names it fits. */
  ghost predicate Applies(l: Line, path: Path, isDir: bool) {
    && |l.base| < |path| && path[..|l.base|] == l.base && (l.dirOnly ==> isDir)
    && Fits(l, path[|l.base|..])
  }

  ghost predicate NoneLater(ls: seq<Line>, i: int, path: Path, isDir: bool)
    requires 0 <= i
  {
    forall j | i < j < |ls| :: !Applies(ls[j], path, isDir)
  }

  /** The last line that applies excludes. */
  ghost predicate LastExcludes(ls: seq<Line>, path: Path, isDir: bool) {
    exists i :: 0 <= i < |ls| && !ls[i].negated && Applies(ls[i], path, isDir) && NoneLater(ls, i, path, isDir)
  }

  /** Names as directory entries have them, without line terminators. */
  ghost predicate Ordinary(path: Path) {
    forall i, j | 0 <= i < |path| && 0 <= j < |path[i]| :: path[i][j] != SLASH && !LineTerminator(path[i][j])
  }

  lemma {:induction false} SplitJoined(path: Path)
    requires path != [] && Ordinary(path)
    ensures Split(IgnoreRules.Join(path)) == path && OneLine(IgnoreRules.Join(path))
  {
    var s := IgnoreRules.Join(path);
    var n := FirstSlash(s);
    if |path| == 1 {
      assert n == |s|;
    } else {
      assert s == path[0] + [SLASH] + IgnoreRules.Join(path[1..]);
      assert forall j | 0 <= j < |path[0]| :: s[j] == path[0][j];
      assert s[|path[0]|] == SLASH;
      assert n == |path[0]|;
      assert s[..n] == path[0] && s[n + 1..] == IgnoreRules.Join(path[1..]);
      assert Ordinary(path[1..]);
      SplitJoined(path[1..]);
      assert path == [path[0]] + path[1..];
    }
  }

  lemma HitsExactly(l: Line, path: Path, isDir: bool)
    requires Plain(l.glob) && Ordinary(path)
    ensures Hits(RuleOf(l), path, isDir) <==> Applies(l, path, isDir)
  {
    if Inside(l.base, path) {
      var names := path[|l.base|..];
      assert Ordinary(names);
      SplitJoined(names);
      GlobCompiles(l.glob, l.anchored, IgnoreRules.Join(names));
    }
    hide LangAll, Compiled, Matches, Tokens, IgnoreRules.Join, Split, Ordinary, OneLine;
  }

  lemma LastExcludesStep(ls: seq<Line>, path: Path, isDir: bool)
    requires ls != []
    ensures var n := |ls| - 1;
            LastExcludes(ls, path, isDir) <==> if Applies(ls[n], path, isDir) then !ls[n].negated else LastExcludes(ls[..n], path, isDir)
  {
    hide Applies;
    var n := |ls| - 1;
    if Applies(ls[n], path, isDir) {
      assert NoneLater(ls, n, path, isDir);
    } else {
      if LastExcludes(ls[..n], path, isDir) {
        var i :| 0 <= i < n && !ls[i].negated && Applies(ls[i], path, isDir) && NoneLater(ls[..n], i, path, isDir);
        forall j | i < j < |ls|
          ensures !Applies(ls[j], path, isDir)
        {
          if j < n {
            assert ls[..n][j] == ls[j];
          }
        }
      }
      if LastExcludes(ls, path, isDir) {
        var i :| 0 <= i < |ls| && !ls[i].negated && Applies(ls[i], path, isDir) && NoneLater(ls, i, path, isDir);
        assert i < n && ls[..n][i] == ls[i] && NoneLater(ls[..n], i, path, isDir);
      }
    }
  }

  lemma ExcludedStep(ls: seq<Line>, path: Path, isDir: bool)
    requires ls != []
    ensures var n := |ls| - 1;
            Excluded(RulesOf(ls), path, isDir) <==> if Hits(RuleOf(ls[n]), path, isDir) then !ls[n].negated else Excluded(RulesOf(ls[..n]), path, isDir)
  {
    hide Hits;
    assert RulesOf(ls)[..|ls| - 1] == RulesOf(ls[..|ls| - 1]);
  }

  lemma {:induction false} ExcludedExactly(ls: seq<Line>, path: Path, isDir: bool)
    requires Ordinary(path) && forall l | l in ls :: Plain(l.glob)
    ensures Excluded(RulesOf(ls), path, isDir) <==> LastExcludes(ls, path, isDir)
  {
    if ls == [] {
      assert RulesOf(ls) == [];
    } else {
      hide *;
      var n := |ls| - 1;
      ExcludedExactly(ls[..n], path, isDir);
      HitsExactly(ls[n], path, isDir);
      LastExcludesStep(ls, path, isDir);
      ExcludedStep(ls, path, isDir);
    }
  }

  /**
   * A path is ignored exactly when for it or a directory above it the last line that applies excludes; where a line
   * applies is read off its pattern segment by segment.
   */
  lemma IgnoredExactly(ls: seq<Line>, path: Path, isDir: bool)
    requires Ordinary(path) && forall l | l in ls :: Plain(l.glob)
    ensures Ignored(RulesOf(ls), path, isDir) <==> exists k :: 0 < k <= |path| && LastExcludes(ls, path[..k], k < |path| || isDir)
  {
    hide Excluded, LastExcludes, RulesOf;
    forall k, dir | 0 <= k <= |path|
      ensures Excluded(RulesOf(ls), path[..k], dir) <==> LastExcludes(ls, path[..k], dir)
    {
      assert Ordinary(path[..k]);
      ExcludedExactly(ls, path[..k], dir);
    }
    assert path[..|path|] == path;
    NothingExcluded(RulesOf(ls), isDir);
    hide Ordinary;
    if AboveIgnored(RulesOf(ls), path) {
      var k :| 0 < k < |path| && Excluded(RulesOf(ls), path[..k], true);
      assert LastExcludes(ls, path[..k], k < |path| || isDir);
    }
    if path != [] && Excluded(RulesOf(ls), path, isDir) {
      assert LastExcludes(ls, path[..|path|], |path| < |path| || isDir);
    }
    if k :| 0 < k <= |path| && LastExcludes(ls, path[..k], k < |path| || isDir) {
      assert k < |path| ==> Excluded(RulesOf(ls), path[..k], true);
    }
  }

  lemma {:induction false} NothingExcluded(rules: seq<Rule>, isDir: bool)
    ensures !Excluded(rules, [], isDir)
  {
    if rules != [] {
      NothingExcluded(rules[..|rules| - 1], isDir);
    }
  }
}
