// Ignore patterns: the regular expression they are compiled to, and the segment-wise matcher it must agree with.
module Glob {
  import opened PathBytes

  const SLASH: Unit := 0x2F
  const STAR: Unit := 0x2A
  const QUESTION: Unit := 0x3F
  const BACKSLASH: Unit := 0x5C
  const OPEN_CLASS: Unit := 0x5B

  // ----- regular expressions and their languages

  /** What one unit may be: a given unit, any but a slash, any but a line terminator. */
  datatype Class = Exactly(u: Unit) | NotSlash | Dot

  predicate LineTerminator(u: Unit) {
    u == 0x0A || u == 0x0D || u == 0x2028 || u == 0x2029
  }

  predicate In(u: Unit, c: Class) {
    match c
    case Exactly(v) => u == v
    case NotSlash => u != SLASH
    case Dot => !LineTerminator(u)
  }

  datatype Regex = One(c: Class) | Cat(first: Regex, second: Regex) | Star(inner: Regex) | Opt(inner: Regex)

  predicate Lang(re: Regex, s: Text)
    decreases re, |s|
  {
    match re
    case One(c) => |s| == 1 && In(s[0], c)
    case Cat(a, b) => exists k | 0 <= k <= |s| :: Lang(a, s[..k]) && Lang(b, s[k..])
    case Star(a) => s == [] || exists k | 0 < k <= |s| :: Lang(a, s[..k]) && Lang(re, s[k..])
    case Opt(a) => s == [] || Lang(a, s)
  }

  /** The language of a concatenation of pieces. */
  predicate LangAll(res: seq<Regex>, s: Text)
    decreases |res|
  {
    if res == [] then s == []
    else exists k | 0 <= k <= |s| :: Lang(res[0], s[..k]) && LangAll(res[1..], s[k..])
  }

  // ----- compilation

  // Text within a segment; whole directories; anything; and any leading directories.
  const NAME := Star(One(NotSlash))
  const DIRECTORIES := Star(Cat(Cat(One(NotSlash), NAME), One(Exactly(SLASH))))
  const EVERYTHING := Star(One(Dot))
  const ANYWHERE := Opt(Cat(EVERYTHING, One(Exactly(SLASH))))

  /** Length of the run of stars at the front. */
  function StarRun(glob: Text): (n: nat)
    ensures n <= |glob| && (n < |glob| ==> glob[n] != STAR)
    ensures forall i | 0 <= i < n :: glob[i] == STAR
    ensures glob != [] && glob[0] == STAR ==> 0 < n
  {
    if glob != [] && glob[0] == STAR then 1 + StarRun(glob[1..]) else 0
  }

  /** A pattern without character classes. */
  predicate Plain(glob: Text) {
    if glob == [] then true
    else if glob[0] == BACKSLASH then |glob| == 1 || Plain(glob[2..])
    else glob[0] != OPEN_CLASS && Plain(glob[1..])
  }

  /** What is compiled next: a piece, how much of the pattern it takes, and whether a path segment begins after it. */
  datatype Step = Step(piece: Regex, length: nat, atStart: bool)

  function NextStep(glob: Text, atStart: bool): (step: Step)
    requires glob != []
    ensures 0 < step.length <= |glob|
  {
    if glob[0] == BACKSLASH then
      if |glob| == 1 then Step(One(Exactly(BACKSLASH)), 1, false) else Step(One(Exactly(glob[1])), 2, glob[1] == SLASH)
    else if glob[0] == STAR then
      var run := StarRun(glob);
      if 2 <= run && atStart && run < |glob| && glob[run] == SLASH then Step(DIRECTORIES, run + 1, true)
      else if 2 <= run && atStart && run == |glob| then Step(EVERYTHING, run, false)
      else Step(NAME, run, false)
    else if glob[0] == QUESTION then Step(One(NotSlash), 1, false)
    else Step(One(Exactly(glob[0])), 1, glob[0] == SLASH)
  }

  /** The pieces of a pattern; atStart says whether it begins a path segment. */
  function Pieces(glob: Text, atStart: bool): seq<Regex> {
    if glob == [] then []
    else
      var step := NextStep(glob, atStart);
      [step.piece] + Pieces(glob[step.length..], step.atStart)
  }

  function Prefix(anchored: bool): seq<Regex> {
    if anchored then [] else [ANYWHERE]
  }

  function Compiled(glob: Text, anchored: bool): seq<Regex> {
    Prefix(anchored) + Pieces(glob, true)
  }

  /** Whether a path segment begins at i. */
  predicate SegmentStart(glob: Text, i: nat)
    requires i <= |glob|
  {
    i == 0 || glob[i - 1] == SLASH
  }

  lemma StepEnd(glob: Text, atStart: bool)
    requires glob != []
    ensures var step := NextStep(glob, atStart); step.atStart <==> glob[step.length - 1] == SLASH
  {
    hide NAME, DIRECTORIES, EVERYTHING;
  }

  lemma Gather(pieces: seq<Regex>, glob: Text, i: nat)
    requires i < |glob|
    ensures var step := NextStep(glob[i..], SegmentStart(glob, i));
            && i + step.length <= |glob| && step.atStart == SegmentStart(glob, i + step.length)
            && pieces + Pieces(glob[i..], SegmentStart(glob, i))
               == (pieces + [step.piece]) + Pieces(glob[i + step.length..], SegmentStart(glob, i + step.length))
  {
    hide NextStep;
    var rest := glob[i..];
    var step := NextStep(rest, SegmentStart(glob, i));
    StepEnd(rest, SegmentStart(glob, i));
    assert rest[step.length - 1] == glob[i + step.length - 1];
    assert rest[step.length..] == glob[i + step.length..];
    assert Pieces(rest, SegmentStart(glob, i)) == [step.piece] + Pieces(rest[step.length..], step.atStart);
    hide Pieces;
    assert (pieces + [step.piece]) + Pieces(rest[step.length..], step.atStart) == pieces + ([step.piece] + Pieces(rest[step.length..], step.atStart));
  }

  method GlobToRegex(glob: Text, anchored: bool) returns (regex: seq<Regex>)
    requires Plain(glob)
    ensures regex == Compiled(glob, anchored)
  {
    hide Pieces, StarRun;
    var pieces := [];
    var i := 0;
    assert glob[0..] == glob;
    while i < |glob|
      invariant 0 <= i <= |glob|
      invariant pieces + Pieces(glob[i..], SegmentStart(glob, i)) == Pieces(glob, true)
    {
      Gather(pieces, glob, i);
      var ch := glob[i];
      if ch == BACKSLASH {
        if i + 1 < |glob| {
          pieces := pieces + [One(Exactly(glob[i + 1]))];
          i := i + 2;
        } else {
          pieces := pieces + [One(Exactly(BACKSLASH))];
          i := i + 1;
        }
      } else if ch == STAR {
        var j := i;
        while j < |glob| && glob[j] == STAR
          invariant i <= j <= |glob|
          invariant forall k | i <= k < j :: glob[k] == STAR
        {
          j := j + 1;
        }
        RunLength(glob, i, j);
        var doubled := j - i >= 2;
        if doubled && j < |glob| && glob[j] == SLASH && (i == 0 || glob[i - 1] == SLASH) {
          pieces := pieces + [DIRECTORIES];
          i := j + 1;
        } else if doubled && j == |glob| && (i == 0 || glob[i - 1] == SLASH) {
          pieces := pieces + [EVERYTHING];
          i := j;
        } else {
          pieces := pieces + [NAME];
          i := j;
        }
      } else if ch == QUESTION {
        pieces := pieces + [One(NotSlash)];
        i := i + 1;
      } else {
        pieces := pieces + [One(Exactly(ch))];
        i := i + 1;
      }
    }
    EmptyPieces(SegmentStart(glob, i));
    assert glob[i..] == [];
    return Prefix(anchored) + pieces;
  }

  lemma EmptyPieces(atStart: bool)
    ensures Pieces([], atStart) == []
  {
  }

  lemma RunLength(glob: Text, i: nat, j: nat)
    requires i <= j <= |glob| && (forall k | i <= k < j :: glob[k] == STAR) && (j < |glob| ==> glob[j] != STAR)
    ensures StarRun(glob[i..]) == j - i && (j < |glob| ==> glob[i..][j - i] == glob[j])
  {
    var rest := glob[i..];
    assert forall k | 0 <= k < j - i :: rest[k] == glob[i + k];
    var m := StarRun(rest);
    assert m < |rest| ==> rest[m] == glob[i + m];
    assert j - i < |rest| ==> rest[j - i] == glob[j];
  }

  // ----- the segment-wise matcher

  /** Tokens of a pattern: escapes undone, runs of stars together. */
  datatype Token = Literal(u: Unit) | AnyUnit | Stars(count: nat) | Separator(escaped: bool)

  function Tokens(glob: Text): seq<Token> {
    if glob == [] then []
    else if glob[0] == BACKSLASH then
      if |glob| == 1 then [Literal(BACKSLASH)]
      else [if glob[1] == SLASH then Separator(true) else Literal(glob[1])] + Tokens(glob[2..])
    else if glob[0] == STAR then [Stars(StarRun(glob))] + Tokens(glob[StarRun(glob)..])
    else [if glob[0] == QUESTION then AnyUnit else if glob[0] == SLASH then Separator(false) else Literal(glob[0])] + Tokens(glob[1..])
  }

  function FirstSlash(s: Text): (k: nat)
    ensures k <= |s| && (k < |s| ==> s[k] == SLASH) && forall i | 0 <= i < k :: s[i] != SLASH
  {
    if s == [] || s[0] == SLASH then 0 else 1 + FirstSlash(s[1..])
  }

  /** The segments of a path. */
  function Split(s: Text): (segments: seq<Text>)
    ensures segments != []
  {
    var k := FirstSlash(s);
    if k == |s| then [s] else [s[..k]] + Split(s[k + 1..])
  }

  function SegmentLength(ts: seq<Token>): (n: nat)
    ensures n <= |ts| && (n < |ts| ==> ts[n].Separator?) && forall i | 0 <= i < n :: !ts[i].Separator?
  {
    if ts == [] || ts[0].Separator? then 0 else 1 + SegmentLength(ts[1..])
  }

  /** One segment against one name: stars of any number stand for any text. */
  predicate Wild(ts: seq<Token>, name: Text)
    decreases |ts|, |name|
  {
    if ts == [] then name == []
    else match ts[0]
         case Literal(u) => name != [] && name[0] == u && Wild(ts[1..], name[1..])
         case AnyUnit => name != [] && Wild(ts[1..], name[1..])
         case Stars(_) => Wild(ts[1..], name) || (name != [] && Wild(ts, name[1..]))
         case Separator(_) => false
  }

  predicate DoubleStar(ts: seq<Token>) {
    |ts| == 1 && ts[0].Stars? && 2 <= ts[0].count
  }

  /**
   * A pattern against the segments of a path. A double star that is a whole segment stands for any directories
   * before an unescaped separator, and for everything inside at the end.
   */
  predicate Matches(ts: seq<Token>, path: seq<Text>)
    decreases |ts|, |path|
  {
    var n := SegmentLength(ts);
    if n == |ts| then path != [] && (DoubleStar(ts) || (|path| == 1 && Wild(ts, path[0])))
    else if DoubleStar(ts[..n]) && !ts[n].escaped then
      Matches(ts[n + 1..], path) || (path != [] && path[0] != [] && Matches(ts, path[1..]))
    else path != [] && Wild(ts[..n], path[0]) && Matches(ts[n + 1..], path[1..])
  }

  /** Anchored patterns match from the first segment on, others from any. */
  ghost predicate GlobMatches(glob: Text, anchored: bool, s: Text) {
    var path := Split(s);
    if anchored then Matches(Tokens(glob), path) else exists k | 0 <= k < |path| :: Matches(Tokens(glob), path[k..])
  }

  // ----- tokens and pieces

  /** The pieces of a token list, as the compiler makes them. */
  function TokenPieces(ts: seq<Token>, atStart: bool): seq<Regex>
    decreases |ts|
  {
    if ts == [] then []
    else match ts[0]
         case Literal(u) => [One(Exactly(u))] + TokenPieces(ts[1..], false)
         case AnyUnit => [One(NotSlash)] + TokenPieces(ts[1..], false)
         case Separator(_) => [One(Exactly(SLASH))] + TokenPieces(ts[1..], true)
         case Stars(n) =>
           if 2 <= n && atStart && 1 < |ts| && ts[1] == Separator(false) then [DIRECTORIES] + TokenPieces(ts[2..], true)
           else if 2 <= n && atStart && |ts| == 1 then [EVERYTHING]
           else [NAME] + TokenPieces(ts[1..], false)
  }

  lemma TokensOfStars(glob: Text)
    requires glob != [] && glob[0] == STAR
    ensures var n := StarRun(glob);
            && (n == |glob| ==> Tokens(glob) == [Stars(n)])
            && (n < |glob| && glob[n] == SLASH ==> Tokens(glob) == [Stars(n), Separator(false)] + Tokens(glob[n + 1..]))
            && (n < |glob| && glob[n] != SLASH ==> 1 < |Tokens(glob)| && Tokens(glob)[1] != Separator(false))
            && Tokens(glob) != [] && Tokens(glob)[0] == Stars(n) && Tokens(glob)[1..] == Tokens(glob[n..])
  {
    var n := StarRun(glob);
    var rest := glob[n..];
    assert n < |glob| ==> glob[n] != STAR;
    StarsFirst(glob);
    hide *;
    EmptyTokens();
    if n < |glob| {
      assert rest[0] == glob[n] && rest[1..] == glob[n + 1..];
      FirstToken(rest);
      if glob[n] == SLASH {
        Assoc([Stars(n)], [Separator(false)], Tokens(glob[n + 1..]));
        assert [Stars(n)] + [Separator(false)] == [Stars(n), Separator(false)];
      }
    } else {
      assert rest == [];
    }
  }

  lemma StarsFirst(glob: Text)
    requires glob != [] && glob[0] == STAR
    ensures var n := StarRun(glob);
            && Tokens(glob) == [Stars(n)] + Tokens(glob[n..]) && Tokens(glob)[0] == Stars(n) && Tokens(glob)[1..] == Tokens(glob[n..])
  {
    hide StarRun;
  }

  lemma EmptyTokens()
    ensures Tokens([]) == []
  {
  }

  lemma FirstToken(glob: Text)
    requires glob != [] && glob[0] != STAR
    ensures Tokens(glob) != [] && (Tokens(glob)[0] == Separator(false) <==> glob[0] == SLASH)
    ensures glob[0] == SLASH ==> Tokens(glob) == [Separator(false)] + Tokens(glob[1..])
  {
  }

  lemma {:induction false} PiecesAreTokenPieces(glob: Text, atStart: bool)
    ensures Pieces(glob, atStart) == TokenPieces(Tokens(glob), atStart)
    decreases |glob|
  {
    hide DIRECTORIES, EVERYTHING, NAME, StarRun;
    if glob != [] {
      var step := NextStep(glob, atStart);
      PiecesAreTokenPieces(glob[step.length..], step.atStart);
      if glob[0] == STAR {
        TokensOfStars(glob);
        StarsPieces(glob, atStart);
      }
    }
  }

  lemma StarsPieces(glob: Text, atStart: bool)
    requires glob != [] && glob[0] == STAR
    requires var step := NextStep(glob, atStart); Pieces(glob[step.length..], step.atStart) == TokenPieces(Tokens(glob[step.length..]), step.atStart)
    ensures Pieces(glob, atStart) == TokenPieces(Tokens(glob), atStart)
  {
    hide DIRECTORIES, EVERYTHING, NAME, StarRun, Tokens;
    TokensOfStars(glob);
    var n := StarRun(glob);
    var ts := Tokens(glob);
    if 2 <= n && atStart && n < |glob| && glob[n] == SLASH {
      assert ts[2..] == Tokens(glob[n + 1..]);
    } else if n == |glob| {
      EmptyPieces(false);
      assert glob[n..] == [];
    } else {
      assert TokenPieces(ts, atStart) == [NAME] + TokenPieces(ts[1..], false);
    }
  }

  ghost predicate NoSlash(s: Text) {
    forall i | 0 <= i < |s| :: s[i] != SLASH
  }

  ghost predicate OneLine(s: Text) {
    forall i | 0 <= i < |s| :: !LineTerminator(s[i])
  }

  // ----- the languages of the pieces

  lemma SplitPrefix(s: Text, j: nat, k: nat)
    requires j <= k <= |s|
    ensures s[..k][..j] == s[..j] && s[..k][j..] == s[j..k] && s[j..][..k - j] == s[j..k] && s[j..][k - j..] == s[k..]
  {
  }

  lemma StarUnfolds(a: Regex, rest: seq<Regex>, s: Text, k: nat)
    requires 0 < k <= |s| && Lang(Star(a), s[..k]) && LangAll(rest, s[k..])
    ensures exists j | 0 < j <= |s| :: Lang(a, s[..j]) && LangAll([Star(a)] + rest, s[j..])
  {
    var j :| 0 < j <= k && Lang(a, s[..k][..j]) && Lang(Star(a), s[..k][j..]);
    hide *;
    SplitPrefix(s, j, k);
    LangAllCons(Star(a), rest, s[j..], k - j);
  }

  lemma LangAllCons(a: Regex, rest: seq<Regex>, s: Text, k: nat)
    requires k <= |s| && Lang(a, s[..k]) && LangAll(rest, s[k..])
    ensures LangAll([a] + rest, s)
  {
    hide Lang;
    assert ([a] + rest)[0] == a && ([a] + rest)[1..] == rest;
  }

  lemma StarFolds(a: Regex, rest: seq<Regex>, s: Text, j: nat)
    requires 0 < j <= |s| && Lang(a, s[..j]) && LangAll([Star(a)] + rest, s[j..])
    ensures LangAll([Star(a)] + rest, s)
  {
    var all := [Star(a)] + rest;
    assert all[0] == Star(a) && all[1..] == rest;
    var k :| 0 <= k <= |s[j..]| && Lang(Star(a), s[j..][..k]) && LangAll(rest, s[j..][k..]);
    SplitPrefix(s, j, j + k);
    assert Lang(Star(a), s[..j + k]) by {
      hide LangAll;
      assert Lang(a, s[..j + k][..j]) && Lang(Star(a), s[..j + k][j..]);
    }
    hide Lang;
    assert Lang(all[0], s[..j + k]) && LangAll(all[1..], s[j + k..]);
  }

  /** A repeated piece: none of it, or one of it and then any number. */
  lemma StarFirst(a: Regex, rest: seq<Regex>, s: Text)
    ensures LangAll([Star(a)] + rest, s)
            <==> LangAll(rest, s) || exists k | 0 < k <= |s| :: Lang(a, s[..k]) && LangAll([Star(a)] + rest, s[k..])
  {
    var all := [Star(a)] + rest;
    assert all[0] == Star(a) && all[1..] == rest && s[0..] == s && s[..0] == [];
    assert Lang(Star(a), []);
    hide Lang;
    if LangAll(all, s) {
      var k :| 0 <= k <= |s| && Lang(Star(a), s[..k]) && LangAll(rest, s[k..]);
      if 0 < k {
        StarUnfolds(a, rest, s, k);
      }
    }
    if LangAll(rest, s) {
      assert Lang(all[0], s[..0]) && LangAll(all[1..], s[0..]);
    }
    if j :| 0 < j <= |s| && Lang(a, s[..j]) && LangAll(all, s[j..]) {
      StarFolds(a, rest, s, j);
    }
  }

  lemma StarOneFirst(c: Class, rest: seq<Regex>, s: Text)
    ensures var all := [Star(One(c))] + rest;
            LangAll(all, s) <==> LangAll(rest, s) || (s != [] && In(s[0], c) && LangAll(all, s[1..]))
  {
    StarFirst(One(c), rest, s);
    if s != [] {
      assert Lang(One(c), s[..1]) <==> In(s[0], c);
    }
    assert forall k | 0 < k <= |s| && Lang(One(c), s[..k]) :: k == 1;
    hide LangAll;
  }

  lemma OneFirst(c: Class, rest: seq<Regex>, s: Text)
    ensures LangAll([One(c)] + rest, s) <==> s != [] && In(s[0], c) && LangAll(rest, s[1..])
  {
    assert ([One(c)] + rest)[1..] == rest;
    if s != [] {
      assert Lang(One(c), s[..1]) <==> In(s[0], c);
    }
    if LangAll([One(c)] + rest, s) {
      var k :| 0 <= k <= |s| && Lang(One(c), s[..k]) && LangAll(rest, s[k..]);
      assert k == 1;
    }
  }

  /** A prefix of s that names part of a segment, and the pieces after it for what is left. */
  ghost predicate SegmentThen(p: seq<Token>, rest: seq<Regex>, s: Text, k: nat) {
    k <= |s| && NoSlash(s[..k]) && Wild(p, s[..k]) && LangAll(rest, s[k..])
  }

  function WildPieces(p: seq<Token>): seq<Regex>
    requires forall i | 0 <= i < |p| :: !p[i].Separator?
  {
    if p == [] then []
    else [PieceOf(p[0])] + WildPieces(p[1..])
  }

  function PieceOf(t: Token): Regex {
    if t.Literal? then One(Exactly(t.u)) else if t.AnyUnit? then One(NotSlash) else NAME
  }

  ghost predicate Literals(ts: seq<Token>) {
    forall i | 0 <= i < |ts| :: ts[i] != Literal(SLASH)
  }

  lemma SegmentThenShift(p: seq<Token>, q: seq<Token>, rest: seq<Regex>, s: Text, k: nat)
    requires s != [] && k < |s| && s[0] != SLASH
    requires forall t | t == s[..k + 1] :: Wild(p, t) <==> Wild(q, t[1..])
    ensures SegmentThen(p, rest, s, k + 1) <==> SegmentThen(q, rest, s[1..], k)
  {
    assert s[..k + 1][1..] == s[1..][..k] && s[1..][k..] == s[k + 1..];
    assert s[..k + 1] == [s[0]] + s[1..][..k];
    hide Wild, LangAll;
  }

  ghost predicate Segments(p: seq<Token>, rest: seq<Regex>, s: Text) {
    exists k: nat :: SegmentThen(p, rest, s, k)
  }

  lemma UnitSegment(p: seq<Token>, rest: seq<Regex>, s: Text)
    requires p != [] && (p[0].Literal? || p[0].AnyUnit?) && Literals(p)
    ensures Segments(p, rest, s) <==>
            s != [] && In(s[0], if p[0].Literal? then Exactly(p[0].u) else NotSlash) && Segments(p[1..], rest, s[1..])
  {
    hide LangAll;
    if s != [] {
      forall k: nat | k < |s| && In(s[0], if p[0].Literal? then Exactly(p[0].u) else NotSlash)
        ensures SegmentThen(p, rest, s, k + 1) <==> SegmentThen(p[1..], rest, s[1..], k)
      {
        assert s[..k + 1][0] == s[0];
        SegmentThenShift(p, p[1..], rest, s, k);
      }
    }
    if Segments(p, rest, s) {
      var k: nat :| SegmentThen(p, rest, s, k);
      assert 0 < k && s[..k][0] == s[0];
      assert SegmentThen(p[1..], rest, s[1..], k - 1);
    }
  }

  lemma StarsSegment(p: seq<Token>, rest: seq<Regex>, s: Text)
    requires p != [] && p[0].Stars?
    ensures Segments(p, rest, s) <==> Segments(p[1..], rest, s) || (s != [] && s[0] != SLASH && Segments(p, rest, s[1..]))
  {
    hide LangAll;
    forall k: nat | SegmentThen(p, rest, s, k) && !SegmentThen(p[1..], rest, s, k)
      ensures s != [] && s[0] != SLASH && Segments(p, rest, s[1..])
    {
      assert 0 < k && s[..k][0] == s[0];
      assert s[..k][1..] == s[1..][..k - 1] && s[1..][k - 1..] == s[k..];
      assert SegmentThen(p, rest, s[1..], k - 1);
    }
    forall k: nat | SegmentThen(p[1..], rest, s, k)
      ensures SegmentThen(p, rest, s, k)
    {
    }
    if s != [] && s[0] != SLASH && Segments(p, rest, s[1..]) {
      var k: nat :| SegmentThen(p, rest, s[1..], k);
      assert s[..k + 1][1..] == s[1..][..k] && s[1..][k..] == s[k + 1..];
      assert s[..k + 1] == [s[0]] + s[1..][..k];
      assert SegmentThen(p, rest, s, k + 1);
    }
  }

  lemma {:induction false} WildLang(p: seq<Token>, rest: seq<Regex>, s: Text)
    requires Literals(p) && forall i | 0 <= i < |p| :: !p[i].Separator?
    ensures LangAll(WildPieces(p) + rest, s) <==> Segments(p, rest, s)
    decreases |p|, |s|
  {
    hide NAME, LangAll, Wild, Segments;
    if p == [] {
      NoSegment(rest, s);
      assert WildPieces(p) + rest == rest;
    } else {
      var pieces := WildPieces(p[1..]) + rest;
      assert WildPieces(p) + rest == [WildPieces(p)[0]] + pieces;
      if p[0].Stars? {
        NameFirst(pieces, s);
        StarsSegment(p, rest, s);
        WildLang(p[1..], rest, s);
        if s != [] {
          WildLang(p, rest, s[1..]);
        }
      } else {
        OneFirst(WildPieces(p)[0].c, pieces, s);
        UnitSegment(p, rest, s);
        if s != [] {
          WildLang(p[1..], rest, s[1..]);
        }
      }
    }
  }

  lemma NameFirst(rest: seq<Regex>, s: Text)
    ensures LangAll([NAME] + rest, s) <==> LangAll(rest, s) || (s != [] && s[0] != SLASH && LangAll([NAME] + rest, s[1..]))
  {
    StarOneFirst(NotSlash, rest, s);
    hide LangAll;
  }

  lemma NoSegment(rest: seq<Regex>, s: Text)
    ensures Segments([], rest, s) <==> LangAll(rest, s)
  {
    hide LangAll;
    assert s[0..] == s && s[..0] == [];
    if LangAll(rest, s) {
      assert SegmentThen([], rest, s, 0);
    }
  }

  lemma {:induction false} NameLang(s: Text)
    ensures Lang(NAME, s) <==> NoSlash(s)
    decreases |s|
  {
    if s != [] {
      NameLang(s[1..]);
      assert Lang(One(NotSlash), s[..1]) <==> s[0] != SLASH;
      assert s == s[..1] + s[1..];
      if Lang(NAME, s) {
        var k :| 0 < k <= |s| && Lang(One(NotSlash), s[..k]) && Lang(NAME, s[k..]);
        assert k == 1;
      }
    }
  }

  lemma {:induction false} EverythingLang(s: Text)
    requires OneLine(s)
    ensures Lang(EVERYTHING, s)
    decreases |s|
  {
    if s != [] {
      EverythingLang(s[1..]);
      assert Lang(One(Dot), s[..1]);
      assert s[..1] + s[1..] == s;
    }
  }

  lemma Single(re: Regex, s: Text)
    ensures LangAll([re], s) <==> Lang(re, s)
  {
    assert [re][1..] == [] && s[..|s|] == s && s[|s|..] == [];
    hide Lang;
  }

  const DIRECTORY := Cat(Cat(One(NotSlash), NAME), One(Exactly(SLASH)))

  lemma DirectoryName(s: Text)
    ensures Lang(Cat(One(NotSlash), NAME), s) <==> s != [] && NoSlash(s)
  {
    forall k | 0 <= k <= |s|
      ensures Lang(One(NotSlash), s[..k]) && Lang(NAME, s[k..]) <==> k == 1 && s[0] != SLASH && NoSlash(s[k..])
    {
      NameLang(s[k..]);
    }
    hide Lang, NAME;
    if s != [] {
      assert s == [s[0]] + s[1..];
    }
  }

  lemma DirectoryLang(s: Text)
    ensures Lang(DIRECTORY, s) <==> 1 < |s| && s[|s| - 1] == SLASH && NoSlash(s[..|s| - 1])
  {
    forall k | 0 <= k <= |s|
      ensures Lang(Cat(One(NotSlash), NAME), s[..k]) && Lang(One(Exactly(SLASH)), s[k..])
              <==> 1 < |s| && k == |s| - 1 && NoSlash(s[..k]) && s[k] == SLASH
    {
      DirectoryName(s[..k]);
      hide NAME;
    }
    hide NAME;
  }

  lemma DirectoriesFirst(rest: seq<Regex>, s: Text)
    ensures var k := FirstSlash(s);
            LangAll([DIRECTORIES] + rest, s)
            <==> LangAll(rest, s) || (0 < k < |s| && LangAll([DIRECTORIES] + rest, s[k + 1..]))
  {
    hide Lang, LangAll, NAME, NoSlash;
    StarFirst(DIRECTORY, rest, s);
    var n := FirstSlash(s);
    forall k | 0 < k <= |s|
      ensures Lang(DIRECTORY, s[..k]) <==> 0 < n && k == n + 1
    {
      DirectoryLang(s[..k]);
      assert s[..k][..k - 1] == s[..k - 1];
      NoSlashUpTo(s, k - 1);
    }
  }

  lemma NoSlashUpTo(s: Text, k: nat)
    requires k <= |s|
    ensures NoSlash(s[..k]) <==> k <= FirstSlash(s)
  {
    if FirstSlash(s) < k {
      assert s[..k][FirstSlash(s)] == SLASH;
    }
  }

  lemma AnywhereFirst(rest: seq<Regex>, s: Text)
    ensures var found := LangAll(rest, s) || exists i | 0 <= i < |s| :: s[i] == SLASH && LangAll(rest, s[i + 1..]);
            (LangAll([ANYWHERE] + rest, s) ==> found) && (OneLine(s) && found ==> LangAll([ANYWHERE] + rest, s))
  {
    var all := [ANYWHERE] + rest;
    assert all[0] == ANYWHERE && all[1..] == rest && s[0..] == s && s[..0] == [];
    forall k | 0 <= k <= |s|
      ensures Lang(ANYWHERE, s[..k]) ==> k == 0 || s[k - 1] == SLASH
      ensures OneLine(s) && (k == 0 || s[k - 1] == SLASH) ==> Lang(ANYWHERE, s[..k])
    {
      LeadingLang(s[..k]);
      hide Lang;
    }
    hide Lang, ANYWHERE;
    if LangAll(all, s) {
      var k :| 0 <= k <= |s| && Lang(ANYWHERE, s[..k]) && LangAll(rest, s[k..]);
      if 0 < k {
        assert s[k - 1] == SLASH && LangAll(rest, s[k - 1 + 1..]);
      }
    }
    if LangAll(rest, s) {
      assert Lang(all[0], s[..0]) && LangAll(all[1..], s[0..]);
    }
    if i :| OneLine(s) && 0 <= i < |s| && s[i] == SLASH && LangAll(rest, s[i + 1..]) {
      assert Lang(all[0], s[..i + 1]) && LangAll(all[1..], s[i + 1..]);
    }
  }

  lemma SlashLang(s: Text)
    ensures Lang(One(Exactly(SLASH)), s) <==> s == [SLASH]
  {
  }

  lemma LeadingLang(s: Text)
    ensures Lang(ANYWHERE, s) ==> s == [] || s[|s| - 1] == SLASH
    ensures OneLine(s) && (s == [] || s[|s| - 1] == SLASH) ==> Lang(ANYWHERE, s)
  {
    var a, b := EVERYTHING, One(Exactly(SLASH));
    hide EVERYTHING;
    forall k | 0 <= k <= |s|
      ensures Lang(b, s[k..]) ==> s != [] && s[|s| - 1] == SLASH
    {
      SlashLang(s[k..]);
      hide Lang;
    }
    if OneLine(s) && s != [] && s[|s| - 1] == SLASH {
      EverythingLang(s[..|s| - 1]);
      SlashLang(s[|s| - 1..]);
      assert Lang(a, s[..|s| - 1]) && Lang(b, s[|s| - 1..]);
    }
    assert Lang(Cat(a, b), s) ==> s != [] && s[|s| - 1] == SLASH;
  }

  // ----- the compiled pattern and the matcher agree

  ghost predicate SpecialStart(ts: seq<Token>) {
    var n := SegmentLength(ts);
    DoubleStar(ts[..n]) && (n < |ts| ==> !ts[n].escaped)
  }

  lemma SpecialStarts(ts: seq<Token>)
    requires ts != []
    ensures ts[0].Stars? && 2 <= ts[0].count && (|ts| == 1 || ts[1] == Separator(false)) ==> SpecialStart(ts)
  {
  }

  lemma TokenStep(ts: seq<Token>, atStart: bool)
    requires ts != [] && !ts[0].Separator? && (atStart ==> !SpecialStart(ts))
    ensures TokenPieces(ts, atStart) == [PieceOf(ts[0])] + TokenPieces(ts[1..], false)
  {
    hide NAME, DIRECTORIES, EVERYTHING, SpecialStart;
    SpecialStarts(ts);
  }

  lemma WildCons(p: seq<Token>)
    requires p != [] && forall i | 0 <= i < |p| :: !p[i].Separator?
    ensures WildPieces(p) == [PieceOf(p[0])] + WildPieces(p[1..])
  {
    hide PieceOf;
  }

  lemma SegmentStep(ts: seq<Token>)
    requires ts != [] && !ts[0].Separator?
    ensures var n := SegmentLength(ts);
            n == 1 + SegmentLength(ts[1..]) && WildPieces(ts[..n]) == [PieceOf(ts[0])] + WildPieces(ts[1..][..n - 1])
  {
    hide WildPieces;
    var n := SegmentLength(ts);
    WildCons(ts[..n]);
    assert ts[..n][1..] == ts[1..][..n - 1];
  }

  /** A segment that is no whole double star is compiled token by token. */
  lemma {:induction false} SegmentPieces(ts: seq<Token>, atStart: bool)
    requires atStart ==> !SpecialStart(ts)
    ensures var n := SegmentLength(ts); TokenPieces(ts, atStart) == WildPieces(ts[..n]) + TokenPieces(ts[n..], false)
    decreases |ts|
  {
    hide *;
    var n := SegmentLength(ts);
    if n == 0 {
      NoSegmentPieces(ts, atStart);
      assert ts[..0] == [] && ts[0..] == ts;
    } else {
      TokenStep(ts, atStart);
      SegmentStep(ts);
      SegmentPieces(ts[1..], false);
      assert ts[1..][n - 1..] == ts[n..];
    }
  }

  lemma NoSegmentPieces(ts: seq<Token>, atStart: bool)
    requires SegmentLength(ts) == 0
    ensures TokenPieces(ts, atStart) == TokenPieces(ts, false) && WildPieces([]) == []
  {
    hide NAME, DIRECTORIES, EVERYTHING;
  }

  lemma {:induction false} NothingMatches(ts: seq<Token>)
    ensures !Matches(ts, [])
    decreases |ts|
  {
    var n := SegmentLength(ts);
    if n < |ts| {
      NothingMatches(ts[n + 1..]);
    }
  }

  lemma SplitAt(s: Text)
    ensures var k := FirstSlash(s);
            && Split(s)[0] == s[..k] && NoSlash(s[..k])
            && (k == |s| ==> Split(s) == [s] && s[..k] == s && Split(s)[1..] == [])
            && (k < |s| ==> Split(s)[1..] == Split(s[k + 1..]))
  {
    hide *;
    FirstSegment(s);
    SplitStep(s);
    assert s[..|s|] == s;
  }

  lemma FirstSegment(s: Text)
    ensures NoSlash(s[..FirstSlash(s)])
  {
    hide FirstSlash;
  }

  lemma SplitStep(s: Text)
    ensures var k := FirstSlash(s); Split(s) == if k == |s| then [s] else [s[..k]] + Split(s[k + 1..])
  {
    hide FirstSlash;
  }

  /** Where the first segment ends. */
  lemma LastEnds(p: seq<Token>, s: Text)
    ensures Segments(p, [], s) <==> FirstSlash(s) == |s| && Wild(p, s)
  {
    hide Wild;
    var n := FirstSlash(s);
    assert s[..|s|] == s && NoSlash(s[..n]);
    assert n == |s| && Wild(p, s) ==> SegmentThen(p, [], s, |s|);
    if k: nat :| SegmentThen(p, [], s, k) {
      assert k == |s|;
    }
  }

  lemma SlashThen(rest: seq<Regex>, s: Text, k: nat)
    requires k <= |s|
    ensures LangAll([One(Exactly(SLASH))] + rest, s[k..]) <==> k < |s| && s[k] == SLASH && LangAll(rest, s[k + 1..])
  {
    OneFirst(Exactly(SLASH), rest, s[k..]);
    assert k < |s| ==> s[k..][1..] == s[k + 1..];
    hide LangAll;
  }

  lemma FirstEnds(p: seq<Token>, rest: seq<Regex>, s: Text)
    ensures Segments(p, [One(Exactly(SLASH))] + rest, s)
            <==> FirstSlash(s) < |s| && Wild(p, s[..FirstSlash(s)]) && LangAll(rest, s[FirstSlash(s) + 1..])
  {
    hide Wild, LangAll;
    var n := FirstSlash(s);
    SlashThen(rest, s, n);
    assert NoSlash(s[..n]);
    if k: nat :| SegmentThen(p, [One(Exactly(SLASH))] + rest, s, k) {
      SlashThen(rest, s, k);
      assert forall i | 0 <= i < k :: s[..k][i] == s[i];
      assert k == n;
    }
    assert n < |s| && Wild(p, s[..n]) && LangAll(rest, s[n + 1..]) ==> SegmentThen(p, [One(Exactly(SLASH))] + rest, s, n);
  }

  /** The pieces of ts accept only paths that match, and of paths without line terminators all. */
  ghost predicate Agrees(ts: seq<Token>, s: Text) {
    && (LangAll(TokenPieces(ts, true), s) ==> Matches(ts, Split(s)))
    && (OneLine(s) && Matches(ts, Split(s)) ==> LangAll(TokenPieces(ts, true), s))
  }

  lemma OneLineAfter(s: Text, k: nat)
    requires OneLine(s) && k <= |s|
    ensures OneLine(s[k..])
  {
  }

  lemma LastDoubleStarAgrees(ts: seq<Token>, s: Text)
    requires DoubleStar(ts)
    ensures Agrees(ts, s)
  {
    hide NAME, DIRECTORIES, EVERYTHING, LangAll, Split, Lang, OneLine;
    assert SegmentLength(ts) == 1 && ts[..1] == ts;
    assert TokenPieces(ts, true) == [EVERYTHING];
    Single(EVERYTHING, s);
    if OneLine(s) {
      EverythingLang(s);
    }
  }

  lemma LastNameAgrees(ts: seq<Token>, s: Text)
    requires Literals(ts) && SegmentLength(ts) == |ts| && !DoubleStar(ts)
    ensures Agrees(ts, s)
  {
    assert ts[..|ts|] == ts && ts[|ts|..] == [] && TokenPieces([], false) == [] && !SpecialStart(ts);
    assert forall i | 0 <= i < |ts| :: !ts[i].Separator?;
    assert Matches(ts, Split(s)) <==> |Split(s)| == 1 && Wild(ts, Split(s)[0]);
    hide *;
    SplitAt(s);
    SegmentPieces(ts, true);
    WildLang(ts, [], s);
    LastEnds(ts, s);
    assert WildPieces(ts) + [] == WildPieces(ts);
    LastNameFacts(ts, s);
  }

  lemma LastNameFacts(ts: seq<Token>, s: Text)
    requires LangAll(TokenPieces(ts, true), s) <==> Matches(ts, Split(s))
    ensures Agrees(ts, s)
  {
    hide LangAll, TokenPieces, Matches, Split;
  }

  lemma LastAgrees(ts: seq<Token>, s: Text)
    requires Literals(ts) && SegmentLength(ts) == |ts|
    ensures Agrees(ts, s)
  {
    hide Agrees;
    if DoubleStar(ts) {
      LastDoubleStarAgrees(ts, s);
    } else {
      LastNameAgrees(ts, s);
    }
  }

  lemma DoubleStarAgrees(ts: seq<Token>, s: Text)
    requires var n := SegmentLength(ts); n < |ts| && DoubleStar(ts[..n]) && !ts[n].escaped && Agrees(ts[n + 1..], s)
    requires FirstSlash(s) < |s| ==> Agrees(ts, s[FirstSlash(s) + 1..])
    ensures Agrees(ts, s)
  {
    var n, k := SegmentLength(ts), FirstSlash(s);
    DoubleStarStep(ts, Split(s));
    hide *;
    var rest := TokenPieces(ts[n + 1..], true);
    SplitAt(s);
    DirectoriesFirst(rest, s);
    NothingMatches(ts);
    if OneLine(s) && k < |s| {
      OneLineAfter(s, k + 1);
    }
    if k < |s| {
      AgreesMeans(ts, s[k + 1..]);
    }
    AgreesMeans(ts[n + 1..], s);
    AgreesMeans(ts, s);
  }

  lemma AgreesMeans(ts: seq<Token>, s: Text)
    ensures Agrees(ts, s) <==>
              && (LangAll(TokenPieces(ts, true), s) ==> Matches(ts, Split(s)))
              && (OneLine(s) && Matches(ts, Split(s)) ==> LangAll(TokenPieces(ts, true), s))
  {
    hide LangAll, TokenPieces, Matches, Split, OneLine;
  }

  lemma DoubleStarStep(ts: seq<Token>, path: seq<Text>)
    requires var n := SegmentLength(ts); n < |ts| && DoubleStar(ts[..n]) && !ts[n].escaped && path != []
    ensures var n := SegmentLength(ts);
            && TokenPieces(ts, true) == [DIRECTORIES] + TokenPieces(ts[n + 1..], true)
            && (Matches(ts, path) <==> Matches(ts[n + 1..], path) || (path[0] != [] && Matches(ts, path[1..])))
  {
    hide NAME, DIRECTORIES, EVERYTHING;
    var n := SegmentLength(ts);
    assert ts[..n][0] == ts[0] && ts[1] == Separator(false) && n == 1;
  }

  lemma SlashPieces(ts: seq<Token>)
    requires var n := SegmentLength(ts); n < |ts| && !(DoubleStar(ts[..n]) && !ts[n].escaped)
    ensures !SpecialStart(ts)
    ensures var n := SegmentLength(ts); TokenPieces(ts[n..], false) == [One(Exactly(SLASH))] + TokenPieces(ts[n + 1..], true)
  {
    var n := SegmentLength(ts);
    assert ts[n].Separator? && !SpecialStart(ts);
    hide *;
    SeparatorPieces(ts[n..]);
    assert ts[n..][1..] == ts[n + 1..];
  }

  lemma SeparatorPieces(ts: seq<Token>)
    requires ts != [] && ts[0].Separator?
    ensures TokenPieces(ts, false) == [One(Exactly(SLASH))] + TokenPieces(ts[1..], true)
  {
    hide NAME, DIRECTORIES, EVERYTHING;
  }

  lemma SegmentLiterals(ts: seq<Token>)
    requires Literals(ts)
    ensures var p := ts[..SegmentLength(ts)]; Literals(p) && forall i | 0 <= i < |p| :: !p[i].Separator?
  {
  }

  /** A segment that is not a double star, by its language and by its matches. */
  lemma SegmentLang(ts: seq<Token>, s: Text)
    requires var n := SegmentLength(ts); n < |ts| && !(DoubleStar(ts[..n]) && !ts[n].escaped) && Literals(ts)
    ensures var n, k := SegmentLength(ts), FirstSlash(s);
            LangAll(TokenPieces(ts, true), s)
            <==> k < |s| && Wild(ts[..n], s[..k]) && LangAll(TokenPieces(ts[n + 1..], true), s[k + 1..])
  {
    SlashPieces(ts);
    SegmentLiterals(ts);
    hide *;
    SegmentPieces(ts, true);
    var p, rest := ts[..SegmentLength(ts)], TokenPieces(ts[SegmentLength(ts) + 1..], true);
    WildLang(p, [One(Exactly(SLASH))] + rest, s);
    FirstEnds(p, rest, s);
  }

  lemma SegmentMatches(ts: seq<Token>, s: Text)
    requires var n := SegmentLength(ts); n < |ts| && !(DoubleStar(ts[..n]) && !ts[n].escaped)
    ensures var n, k := SegmentLength(ts), FirstSlash(s);
            Matches(ts, Split(s)) <==> Wild(ts[..n], s[..k]) && Matches(ts[n + 1..], if k < |s| then Split(s[k + 1..]) else [])
  {
    SplitAt(s);
    hide Wild, Split, FirstSlash;
  }

  lemma NameAgrees(ts: seq<Token>, s: Text)
    requires var n := SegmentLength(ts); n < |ts| && !(DoubleStar(ts[..n]) && !ts[n].escaped) && Literals(ts)
    requires FirstSlash(s) < |s| ==> Agrees(ts[SegmentLength(ts) + 1..], s[FirstSlash(s) + 1..])
    ensures Agrees(ts, s)
  {
    hide *;
    var n, k := SegmentLength(ts), FirstSlash(s);
    SegmentLang(ts, s);
    SegmentMatches(ts, s);
    NothingMatches(ts[n + 1..]);
    AgreesMeans(ts, s);
    if k < |s| {
      AgreesMeans(ts[n + 1..], s[k + 1..]);
      if OneLine(s) {
        OneLineAfter(s, k + 1);
      }
    }
  }

  lemma {:induction false} MatchesLang(ts: seq<Token>, s: Text)
    requires Literals(ts)
    ensures Agrees(ts, s)
    decreases |ts|, |s|
  {
    var n, k := SegmentLength(ts), FirstSlash(s);
    if n == |ts| {
      LastAgrees(ts, s);
    } else {
      assert Literals(ts[n + 1..]);
      hide Agrees, Literals, DoubleStar;
      MatchesLang(ts[n + 1..], s);
      if k < |s| {
        MatchesLang(ts[n + 1..], s[k + 1..]);
      }
      if DoubleStar(ts[..n]) && !ts[n].escaped {
        if k < |s| {
          MatchesLang(ts, s[k + 1..]);
        }
        DoubleStarAgrees(ts, s);
      } else {
        NameAgrees(ts, s);
      }
    }
  }

  lemma {:induction false} TokensAreLiteral(glob: Text)
    ensures Literals(Tokens(glob))
    decreases |glob|
  {
    hide StarRun;
    if glob != [] {
      if glob[0] == BACKSLASH {
        if 1 < |glob| {
          TokensAreLiteral(glob[2..]);
        }
      } else if glob[0] == STAR {
        TokensAreLiteral(glob[StarRun(glob)..]);
      } else {
        TokensAreLiteral(glob[1..]);
      }
    }
  }

  ghost predicate LaterLang(res: seq<Regex>, s: Text) {
    exists i | 0 <= i < |s| :: s[i] == SLASH && LangAll(res, s[i + 1..])
  }

  ghost predicate LaterMatch(ts: seq<Token>, path: seq<Text>) {
    exists k | 0 < k < |path| :: Matches(ts, path[k..])
  }

  lemma LaterAfter(res: seq<Regex>, s: Text, n: nat, i: nat)
    requires n < i < |s|
    ensures var t := s[n + 1..]; (s[i] == SLASH && LangAll(res, s[i + 1..]) <==> t[i - n - 1] == SLASH && LangAll(res, t[i - n - 1 + 1..]))
  {
    hide LangAll;
    assert s[n + 1..][i - n..] == s[i + 1..];
  }

  lemma LaterAt(res: seq<Regex>, s: Text, i: nat)
    requires i < |s| && s[i] == SLASH && LangAll(res, s[i + 1..])
    ensures LaterLang(res, s)
  {
    hide LangAll;
  }

  lemma SomeLater(res: seq<Regex>, s: Text) returns (i: nat)
    requires LaterLang(res, s)
    ensures i < |s| && s[i] == SLASH && LangAll(res, s[i + 1..])
  {
    hide LangAll;
    i :| 0 <= i < |s| && s[i] == SLASH && LangAll(res, s[i + 1..]);
  }

  lemma LaterIn(res: seq<Regex>, s: Text, n: nat)
    requires n < |s| && s[n] == SLASH && LaterLang(res, s[n + 1..])
    ensures LaterLang(res, s)
  {
    hide *;
    var i := SomeLater(res, s[n + 1..]);
    LaterAfter(res, s, n, n + 1 + i);
    LaterAt(res, s, n + 1 + i);
  }

  lemma LaterOut(res: seq<Regex>, s: Text)
    requires LaterLang(res, s)
    ensures var n := FirstSlash(s); n < |s| && (LangAll(res, s[n + 1..]) || LaterLang(res, s[n + 1..]))
  {
    hide *;
    var n := FirstSlash(s);
    var i := SomeLater(res, s);
    if i != n {
      LaterAfter(res, s, n, i);
      LaterAt(res, s[n + 1..], i - n - 1);
    }
  }

  lemma LaterLangStep(res: seq<Regex>, s: Text)
    ensures var n := FirstSlash(s); LaterLang(res, s) <==> n < |s| && (LangAll(res, s[n + 1..]) || LaterLang(res, s[n + 1..]))
  {
    hide *;
    var n := FirstSlash(s);
    if LaterLang(res, s) {
      LaterOut(res, s);
    } else if n < |s| {
      if LangAll(res, s[n + 1..]) {
        LaterAt(res, s, n);
      } else if LaterLang(res, s[n + 1..]) {
        LaterIn(res, s, n);
      }
    }
  }

  lemma LaterMatchStep(ts: seq<Token>, path: seq<Text>)
    requires path != []
    ensures LaterMatch(ts, path) <==> path[1..] != [] && (Matches(ts, path[1..]) || LaterMatch(ts, path[1..]))
  {
    hide Matches;
    var rest := path[1..];
    forall k | 0 <= k < |rest| ensures rest[k..] == path[k + 1..] {}
    if LaterMatch(ts, rest) {
      var k :| 0 < k < |rest| && Matches(ts, rest[k..]);
      assert Matches(ts, path[k + 1..]);
    }
    if LaterMatch(ts, path) && !Matches(ts, rest) {
      var k :| 0 < k < |path| && Matches(ts, path[k..]);
      assert Matches(ts, rest[k - 1..]);
    }
  }

  lemma {:induction false} LaterSegments(ts: seq<Token>, s: Text)
    requires Literals(ts)
    ensures LaterLang(TokenPieces(ts, true), s) ==> LaterMatch(ts, Split(s))
    ensures OneLine(s) && LaterMatch(ts, Split(s)) ==> LaterLang(TokenPieces(ts, true), s)
    decreases |s|
  {
    var n, res := FirstSlash(s), TokenPieces(ts, true);
    assert n < |s| && OneLine(s) ==> OneLine(s[n + 1..]);
    hide *;
    LaterLangStep(res, s);
    LaterMatchStep(ts, Split(s));
    SplitAt(s);
    if n < |s| {
      LaterSegments(ts, s[n + 1..]);
      AgreesAt(ts, s[n + 1..]);
    }
  }

  lemma AgreesAt(ts: seq<Token>, s: Text)
    requires Literals(ts)
    ensures LangAll(TokenPieces(ts, true), s) ==> Matches(ts, Split(s))
    ensures OneLine(s) && Matches(ts, Split(s)) ==> LangAll(TokenPieces(ts, true), s)
  {
    MatchesLang(ts, s);
    hide LangAll, TokenPieces, Matches, Split;
  }

  /**
   * The compiled pattern accepts only paths that the segment-wise matcher does, and of paths without line
   * terminators all of them.
   */
  lemma GlobCompiles(glob: Text, anchored: bool, s: Text)
    requires Plain(glob)
    ensures LangAll(Compiled(glob, anchored), s) ==> GlobMatches(glob, anchored, s)
    ensures OneLine(s) && GlobMatches(glob, anchored, s) ==> LangAll(Compiled(glob, anchored), s)
  {
    hide NAME, DIRECTORIES, EVERYTHING, ANYWHERE, LangAll, Pieces, Matches, Split, Tokens, TokenPieces, OneLine;
    var ts := Tokens(glob);
    PiecesAreTokenPieces(glob, true);
    TokensAreLiteral(glob);
    AgreesAt(ts, s);
    assert Split(s)[0..] == Split(s);
    if anchored {
      assert Compiled(glob, anchored) == Pieces(glob, true);
    } else {
      AnywhereFirst(TokenPieces(ts, true), s);
      LaterSegments(ts, s);
    }
  }

  /** A directory whose name has a line terminator hides what is below it from an unanchored pattern. */
  lemma LineTerminatorsHide()
    ensures var glob, s: Text := [0x78], [0x0D, SLASH, 0x78];
            Plain(glob) && GlobMatches(glob, false, s) && !LangAll(Compiled(glob, false), s)
  {
    var glob, s: Text := [0x78], [0x0D, SLASH, 0x78];
    assert glob[1..] == [] && Pieces(glob, true) == [One(Exactly(0x78))];
    assert s[..1] == [0x0D] && s[2..] == glob && FirstSlash(glob) == 1 && FirstSlash(s) == 1;
    SplitAt(glob);
    SplitAt(s);
    OneLiteral(0x78);
    forall k | 0 <= k <= |s|
      ensures !(Lang(ANYWHERE, s[..k]) && LangAll([One(Exactly(0x78))], s[k..]))
    {
      Single(One(Exactly(0x78)), s[k..]);
      if k == 2 {
        ReturnIsNoDot(s[..2]);
      }
    }
    assert Compiled(glob, false)[0] == ANYWHERE && Compiled(glob, false)[1..] == [One(Exactly(0x78))];
    hide Lang, ANYWHERE;
  }

  lemma OneLiteral(u: Unit)
    requires u != BACKSLASH && u != STAR && u != QUESTION && u != SLASH
    ensures Tokens([u]) == [Literal(u)] && Matches([Literal(u)], [[u]])
  {
    assert [u][1..] == [] && Tokens([]) == [];
    var ts := [Literal(u)];
    assert ts[1..] == [] && SegmentLength(ts) == 1;
    assert Wild([], []) && Wild(ts, [u]);
  }

  lemma ReturnIsNoDot(s: Text)
    requires s == [0x0D, SLASH]
    ensures !Lang(ANYWHERE, s)
  {
    forall k | 0 <= k <= 2
      ensures !(Lang(EVERYTHING, s[..k]) && Lang(One(Exactly(SLASH)), s[k..]))
    {
      if k == 1 {
        assert forall j | 0 < j <= 1 :: s[..1][..j] == [0x0D];
        assert !Lang(One(Dot), [0x0D]);
      }
    }
  }

  lemma {:induction false} DotsAreOneLine(s: Text)
    requires Lang(EVERYTHING, s)
    ensures OneLine(s)
    decreases |s|
  {
    if s != [] {
      var k :| 0 < k <= |s| && Lang(One(Dot), s[..k]) && Lang(EVERYTHING, s[k..]);
      assert k == 1 && s[..1][0] == s[0];
      DotsAreOneLine(s[1..]);
      assert s == [s[0]] + s[1..];
    }
  }

  /** The pattern of two stars: it matches every path, and compiles to text without line terminators. */
  lemma TwoStars(s: Text)
    ensures Plain([STAR, STAR]) && GlobMatches([STAR, STAR], true, s)
    ensures LangAll(Compiled([STAR, STAR], true), s) <==> Lang(EVERYTHING, s)
  {
    var glob: Text := [STAR, STAR];
    hide EVERYTHING, DIRECTORIES, NAME, Lang, LangAll, Split;
    assert glob[1..] == [STAR] && [STAR][1..] == [] && StarRun([STAR]) == 1 && StarRun(glob) == 2 && glob[2..] == [];
    assert Plain([]) && Plain([STAR]) && Plain(glob);
    assert Tokens([]) == [] && Tokens(glob) == [Stars(2)];
    assert SegmentLength([Stars(2)]) == 1 && DoubleStar([Stars(2)]);
    assert Pieces([], false) == [] && Pieces(glob, true) == [EVERYTHING];
    assert Compiled(glob, true) == [EVERYTHING];
    Single(EVERYTHING, s);
  }

  /** Compilation keeps the meaning of all patterns at a path exactly when the path has no line terminator. */
  lemma CompilesExactly(s: Text)
    ensures (forall glob, anchored | Plain(glob) :: LangAll(Compiled(glob, anchored), s) <==> GlobMatches(glob, anchored, s))
            <==> OneLine(s)
  {
    hide LangAll, Compiled, GlobMatches, Plain, OneLine, Lang, EVERYTHING;
    if OneLine(s) {
      forall glob, anchored | Plain(glob)
        ensures LangAll(Compiled(glob, anchored), s) <==> GlobMatches(glob, anchored, s)
      {
        GlobCompiles(glob, anchored, s);
      }
    } else {
      TwoStars(s);
      if Lang(EVERYTHING, s) {
        DotsAreOneLine(s);
      }
    }
  }
}
