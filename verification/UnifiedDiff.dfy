// unifiedDiff of cli/src/diff.ts, and what applying its text to a file does.
module UnifiedDiff {
  import opened Wrappers
  import opened EditScript
  import opened Hunks
  import opened PatchText
  import Myers

  const MAX_TOTAL_LINES := 20_000

  // ----- lines that keep their newline

  /** text.split("\n") */
  function SplitNewlines(text: string): (parts: seq<string>)
    ensures parts != []
  {
    var i := LineEnd(text);
    if i == |text| then [text] else [text[..i]] + SplitNewlines(text[i + 1..])
  }

  /** Every part but the last gets its newline back; an empty last part is no line. */
  function TerminateParts(parts: seq<string>): seq<Line>
    requires parts != []
  {
    var last := parts[|parts| - 1];
    var lines := seq(|parts| - 1, i requires 0 <= i < |parts| - 1 => parts[i] + "\n");
    if last != "" then lines + [last] else lines
  }

  function SplitLines(text: string): seq<Line> {
    if text == "" then [] else TerminateParts(SplitNewlines(text))
  }

  function Flatten(lines: seq<Line>): string {
    if lines == [] then "" else lines[0] + Flatten(lines[1..])
  }

  lemma TerminatePartsStep(part: string, tail: seq<string>)
    requires tail != []
    ensures TerminateParts([part] + tail) == [part + "\n"] + TerminateParts(tail)
  {
    var parts := [part] + tail;
    assert parts[|parts| - 1] == tail[|tail| - 1];
  }

  lemma NothingAfterLast(part: string)
    ensures TerminateParts([part]) == if part == "" then [] else [part]
  {
  }

  lemma SplitNewlinesStep(text: string)
    ensures var i := LineEnd(text);
            SplitNewlines(text) == if i == |text| then [text] else [text[..i]] + SplitNewlines(text[i + 1..])
  {
    hide LineEnd;
  }

  lemma SplitLinesIsTerminated(text: string)
    ensures SplitLines(text) == TerminateParts(SplitNewlines(text))
  {
    if text == "" {
      SplitNewlinesStep(text);
      NothingAfterLast("");
    }
  }

  lemma SplitLinesStep(text: string)
    requires text != ""
    ensures var i := LineEnd(text);
            SplitLines(text) == if i == |text| then [text] else [text[..i] + "\n"] + SplitLines(text[i + 1..])
  {
    hide *;
    var i := LineEnd(text);
    SplitLinesIsTerminated(text);
    SplitNewlinesStep(text);
    if i == |text| {
      NothingAfterLast(text);
    } else {
      SplitLinesIsTerminated(text[i + 1..]);
      TerminatePartsStep(text[..i], SplitNewlines(text[i + 1..]));
    }
  }

  lemma {:induction false} LineEndIsFirst(text: string)
    ensures NoNewline(text[..LineEnd(text)])
    ensures LineEnd(text) < |text| ==> text[LineEnd(text)] == '\n'
  {
    if text != [] && text[0] != '\n' {
      LineEndIsFirst(text[1..]);
      var n := LineEnd(text[1..]);
      assert text[..1 + n] == [text[0]] + text[1..][..n];
    }
  }

  lemma FlattenCons(line: Line, lines: seq<Line>)
    ensures Flatten([line] + lines) == line + Flatten(lines)
  {
    assert ([line] + lines)[1..] == lines;
  }

  lemma FirstLineShaped(text: string)
    ensures var i := LineEnd(text);
            LineShaped(if i == |text| then text else text[..i] + "\n")
  {
    hide LineEnd;
    var i := LineEnd(text);
    LineEndIsFirst(text);
    if i == |text| {
      assert text[..i] == text;
    } else {
      assert (text[..i] + "\n")[..i] == text[..i];
    }
  }

  /** Splitting loses nothing, and every line is newline-free up to its terminator. */
  lemma {:induction false} SplitLinesFlatten(text: string)
    ensures Flatten(SplitLines(text)) == text
    ensures forall line | line in SplitLines(text) :: LineShaped(line)
    decreases |text|
  {
    hide *;
    if text != "" {
      var i := LineEnd(text);
      var first := if i == |text| then text else text[..i] + "\n";
      var rest := if i == |text| then "" else text[i + 1..];
      FirstLineShaped(text);
      SplitLinesFirst(text);
      SplitLinesFlatten(rest);
      FlattenCons(first, SplitLines(rest));
    } else {
      SplitLinesNil();
    }
  }

  lemma SplitLinesFirst(text: string)
    requires text != ""
    ensures var i := LineEnd(text);
            var first := if i == |text| then text else text[..i] + "\n";
            var rest := if i == |text| then "" else text[i + 1..];
            text == first + rest && |rest| < |text| && SplitLines(text) == [first] + SplitLines(rest)
  {
    hide *;
    SplitLinesStep(text);
    SplitLinesNil();
    LineEndIsFirst(text);
  }

  lemma SplitLinesNil()
    ensures SplitLines("") == [] && Flatten([]) == ""
  {
  }

  // ----- applying patch text

  function FileHeader(path: string): string {
    "--- a/" + path + "\n+++ b/" + path + "\n"
  }

  function ParsePatch(path: string, patch: string): Option<seq<Hunk<Line>>> {
    if patch == "" then Some([])
    else match Expect(patch, "--- a/" + path + "\n+++ b/" + path + "\n")
      case Bad => None
      case Parsed(_, rest) => ParseHunks(rest)
  }

  function ApplyHunks(hunks: seq<Hunk<Line>>, text: string): Option<string> {
    match Apply(SplitLines(text), 0, hunks)
    case None => None
    case Some(lines) => Some(Flatten(lines))
  }

  /** What a patch tool makes of a file's text. */
  function ApplyPatch(path: string, patch: string, text: string): Option<string> {
    match ParsePatch(path, patch)
    case None => None
    case Some(hunks) => ApplyHunks(hunks, text)
  }

  /** What a patch tool makes of a file's text when asked to apply the patch in reverse. */
  function RevertPatch(path: string, patch: string, text: string): Option<string> {
    match ParsePatch(path, patch)
    case None => None
    case Some(hunks) => ApplyHunks(ReverseAll(hunks), text)
  }

  /** Lines marked + or - by a list of hunks. */
  function Changes(hunks: seq<Hunk<Line>>): nat {
    if hunks == [] then 0 else Cost(hunks[0].body) + Changes(hunks[1..])
  }

  // ----- from covering hunks to the text

  lemma {:induction false} LinesComeFromSides(ops: seq<Op<Line>>)
    ensures forall i | 0 <= i < |ops| :: ops[i].line in Source(ops) || ops[i].line in Target(ops)
  {
    if ops != [] {
      LinesComeFromSides(ops[1..]);
    }
  }

  lemma CoveringHunksPrint(ops: seq<Op<Line>>, a: seq<Line>, b: seq<Line>, hunks: seq<Hunk<Line>>)
    requires IsScript(ops, a, b) && Covers(ops, hunks)
    requires forall line | line in a :: LineShaped(line)
    requires forall line | line in b :: LineShaped(line)
    requires forall h | h in hunks :: Tight(h)
    ensures forall i | 0 <= i < |hunks| :: Printable(hunks[i])
  {
    var cuts :| Cover(ops, |ops|, hunks, cuts);
    LinesComeFromSides(ops);
    forall i | 0 <= i < |hunks|
      ensures Printable(hunks[i])
    {
      var h, c := hunks[i], cuts[i];
      assert Placed(ops, h, c) && Tight(h);
      Slice(ops, c.start, c.end);
      forall j | 0 <= j < |h.body|
        ensures LineShaped(h.body[j].line)
      {
        assert h.body[j] == ops[c.start + j];
      }
    }
  }

  lemma {:induction false} KeptCostsNothing(ops: seq<Op<Line>>, i: nat, j: nat)
    requires KeptBetween(ops, i, j)
    ensures Cost(ops[i..j]) == 0
    decreases j - i
  {
    if i < j {
      assert ops[i..j][0] == ops[i] && ops[i..j][1..] == ops[i + 1..j];
      KeptCostsNothing(ops, i + 1, j);
    }
  }

  /** The hunks show every insertion and deletion of the script exactly once. */
  lemma {:induction false} ChangesAreCost(ops: seq<Op<Line>>, hunks: seq<Hunk<Line>>, cuts: seq<Cut>, i: nat)
    requires Cover(ops, |ops|, hunks, cuts) && i <= |hunks|
    ensures EndBefore(cuts, i) <= |ops| && Changes(hunks[i..]) == Cost(ops[EndBefore(cuts, i)..])
    decreases |hunks| - i
  {
    var from := EndBefore(cuts, i);
    if i == |hunks| {
      KeptCostsNothing(ops, from, |ops|);
      assert ops[from..|ops|] == ops[from..];
      assert hunks[i..] == [];
    } else {
      assert Placed(ops, hunks[i], cuts[i]) && KeptBetween(ops, from, cuts[i].start);
      assert hunks[i..][0] == hunks[i] && hunks[i..][1..] == hunks[i + 1..];
      hide Cover, Cost, KeptBetween;
      ChangesAreCost(ops, hunks, cuts, i + 1);
      CostSplit(ops, from, cuts[i].start, cuts[i].end);
    }
  }

  lemma CostSplit(ops: seq<Op<Line>>, i: nat, j: nat, k: nat)
    requires j <= k <= |ops| && KeptBetween(ops, i, j)
    ensures Cost(ops[i..]) == Cost(ops[j..k]) + Cost(ops[k..])
  {
    KeptCostsNothing(ops, i, j);
    assert ops[i..] == ops[i..j] + (ops[j..k] + ops[k..]);
    Concat(ops[i..j], ops[j..k] + ops[k..]);
    Concat(ops[j..k], ops[k..]);
  }

  lemma HunkThenAppends(h: Hunk<Line>, rest: string)
    ensures HunkThen(h, rest) == HunkThen(h, "") + rest
  {
    hide BodyThen, RangeThen;
    BodyThenAppends(h.body, rest);
    var body := BodyThen(h.body, "");
    RangeThenAppends(h.bStart, h.bCount, " @@\n" + body, rest);
    assert (" @@\n" + body) + rest == " @@\n" + (body + rest);
    var b := RangeThen(h.bStart, h.bCount, " @@\n" + body);
    RangeThenAppends(h.aStart, h.aCount, " +" + b, rest);
    assert (" +" + b) + rest == " +" + (b + rest);
    var a := RangeThen(h.aStart, h.aCount, " +" + b);
    assert ("@@ -" + a) + rest == "@@ -" + (a + rest);
  }

  lemma RangeThenAppends(start0: nat, count: nat, text: string, rest: string)
    ensures RangeThen(start0, count, text + rest) == RangeThen(start0, count, text) + rest
  {
    assert "," + (NatText(count) + (text + rest)) == ("," + (NatText(count) + text)) + rest;
  }

  lemma {:induction false} BodyThenAppends(body: seq<Op<Line>>, rest: string)
    ensures BodyThen(body, rest) == BodyThen(body, "") + rest
  {
    if body != [] {
      BodyThenAppends(body[1..], rest);
      OpThenAppends(body[0], BodyThen(body[1..], ""), rest);
    }
  }

  lemma OpThenAppends(op: Op<Line>, text: string, rest: string)
    ensures OpThen(op, text + rest) == OpThen(op, text) + rest
  {
    hide NO_NEWLINE;
    if !Terminated(op.line) {
      assert "\n" + (NO_NEWLINE + (text + rest)) == ("\n" + (NO_NEWLINE + text)) + rest;
    }
  }

  lemma ReplaceAllIsScript(a: seq<Line>, b: seq<Line>)
    ensures IsScript(Myers.ReplaceAll(a, b), a, b)
  {
    var deletes := seq(|a|, i requires 0 <= i < |a| => Op(Delete, a[i]));
    var inserts := seq(|b|, i requires 0 <= i < |b| => Op(Insert, b[i]));
    AllDeleted(deletes, a);
    AllInserted(inserts, b);
    Concat(deletes, inserts);
  }

  lemma {:induction false} AllDeleted(ops: seq<Op<Line>>, a: seq<Line>)
    requires |ops| == |a| && forall i | 0 <= i < |a| :: ops[i] == Op(Delete, a[i])
    ensures IsScript(ops, a, [])
  {
    if ops != [] {
      AllDeleted(ops[1..], a[1..]);
    }
  }

  lemma {:induction false} AllInserted(ops: seq<Op<Line>>, b: seq<Line>)
    requires |ops| == |b| && forall i | 0 <= i < |b| :: ops[i] == Op(Insert, b[i])
    ensures IsScript(ops, [], b)
  {
    if ops != [] {
      AllInserted(ops[1..], b[1..]);
    }
  }

  method PrintHunks(hunks: seq<Hunk<Line>>) returns (text: string)
    requires forall i | 0 <= i < |hunks| :: Printable(hunks[i])
    ensures text == HunksText(hunks)
  {
    text := "";
    for i := 0 to |hunks|
      invariant text + HunksText(hunks[i..]) == HunksText(hunks)
    {
      var printed := PrintHunk(hunks[i]);
      HunkThenAppends(hunks[i], HunksText(hunks[i + 1..]));
      assert hunks[i..][0] == hunks[i] && hunks[i..][1..] == hunks[i + 1..];
      assert text + (printed + HunksText(hunks[i + 1..])) == (text + printed) + HunksText(hunks[i + 1..]);
      text := text + printed;
    }
    assert hunks[|hunks|..] == [];
    assert text + "" == text;
  }

  /** The text of hunks that cover a script parses, applies both ways, and marks as many lines as the script costs. */
  lemma TextOfScript(path: string, ops: seq<Op<Line>>, hunks: seq<Hunk<Line>>)
    requires Covers(ops, hunks) && forall i | 0 <= i < |hunks| :: Printable(hunks[i])
    ensures var patch := FileHeader(path) + HunksText(hunks);
            && patch != "" && ParsePatch(path, patch) == Some(hunks)
            && Changes(hunks) == Cost(ops)
            && Apply(Source(ops), 0, hunks) == Some(Target(ops))
            && Apply(Target(ops), 0, ReverseAll(hunks)) == Some(Source(ops))
  {
    ExpectPrinted(FileHeader(path), HunksText(hunks));
    HunksPrinted(hunks);
    ApplyBothWays(ops, hunks);
    var cuts :| Cover(ops, |ops|, hunks, cuts);
    ChangesAreCost(ops, hunks, cuts, 0);
    assert hunks[0..] == hunks && ops[0..] == ops;
  }

  /** No hunks means no change, and the other way round. */
  lemma NoHunksNoChange(ops: seq<Op<Line>>, a: seq<Line>, b: seq<Line>, hunks: seq<Hunk<Line>>)
    requires IsScript(ops, a, b) && Covers(ops, hunks) && hunks == []
    ensures a == b
  {
    var cuts :| Cover(ops, |ops|, hunks, cuts);
    AllKept(ops);
  }

  /** What a patch promises about two texts. */
  ghost predicate IsPatch(path: string, patch: string, baseText: string, newText: string) {
    && (patch == "" <==> baseText == newText)
    && ApplyPatch(path, patch, baseText) == Some(newText)
    && RevertPatch(path, patch, newText) == Some(baseText)
  }

  /** The patch marks no more lines than any way of turning the base lines into the new lines changes. */
  ghost predicate IsMinimal(path: string, patch: string, baseText: string, newText: string) {
    && ParsePatch(path, patch).Some?
    && forall ops | IsScript(ops, SplitLines(baseText), SplitLines(newText)) :: Changes(ParsePatch(path, patch).value) <= Cost(ops)
  }

  /** The patch shows every change of some edit script, with the context it is meant to have. */
  ghost predicate IsLaidOut(path: string, patch: string, baseText: string, newText: string) {
    && ParsePatch(path, patch).Some?
    && exists ops :: IsScript(ops, SplitLines(baseText), SplitLines(newText)) && Layout(ops, ParsePatch(path, patch).value)
  }

  lemma LaidOut(path: string, patch: string, baseText: string, newText: string, ops: seq<Op<Line>>, hunks: seq<Hunk<Line>>)
    requires ParsePatch(path, patch) == Some(hunks) && IsScript(ops, SplitLines(baseText), SplitLines(newText)) && Layout(ops, hunks)
    ensures IsLaidOut(path, patch, baseText, newText)
  {
    hide ParsePatch, SplitLines, IsScript, Layout;
  }

  lemma EmptyPatch(path: string, text: string)
    ensures IsPatch(path, "", text, text) && IsMinimal(path, "", text, text)
  {
    SplitLinesFlatten(text);
    assert SplitLines(text)[0..] == SplitLines(text);
  }

  lemma PrintedPatch(path: string, baseText: string, newText: string, ops: seq<Op<Line>>, hunks: seq<Hunk<Line>>)
    requires baseText != newText && IsScript(ops, SplitLines(baseText), SplitLines(newText))
    requires Covers(ops, hunks) && forall i | 0 <= i < |hunks| :: Printable(hunks[i])
    ensures IsPatch(path, FileHeader(path) + HunksText(hunks), baseText, newText)
    ensures ParsePatch(path, FileHeader(path) + HunksText(hunks)) == Some(hunks) && Changes(hunks) == Cost(ops)
  {
    hide SplitLines, Flatten, ParsePatch, FileHeader, HunksText, Apply, Covers, Printable;
    SplitLinesFlatten(baseText);
    SplitLinesFlatten(newText);
    TextOfScript(path, ops, hunks);
  }

  lemma ShortestIsMinimal(path: string, patch: string, baseText: string, newText: string, hunks: seq<Hunk<Line>>)
    requires ParsePatch(path, patch) == Some(hunks)
    requires var a, b := SplitLines(baseText), SplitLines(newText);
             Changes(hunks) == Dist(a, b, |a|, |b|)
    ensures IsMinimal(path, patch, baseText, newText)
  {
    hide ParsePatch, SplitLines, Dist, Changes, Source, Target;
    var a, b := SplitLines(baseText), SplitLines(newText);
    assert a[..|a|] == a && b[..|b|] == b;
    forall ops | IsScript(ops, a, b)
      ensures Changes(hunks) <= Cost(ops)
    {
      DistIsLowerBound(a, b, ops, |a|, |b|);
    }
  }

  /**
   * The patch is empty exactly for equal texts; applied to the base text it gives the new text, applied in
   * reverse to the new text it gives the base text; and up to the size limit it marks the fewest lines possible.
   */
  method UnifiedDiff(path: string, baseText: string, newText: string) returns (patch: string)
    ensures IsPatch(path, patch, baseText, newText)
    ensures baseText != newText ==> IsLaidOut(path, patch, baseText, newText)
    ensures |SplitLines(baseText)| + |SplitLines(newText)| <= 20_000 ==> IsMinimal(path, patch, baseText, newText)
  {
    hide SplitLines, IsPatch, IsMinimal, IsLaidOut, Layout, IsScript, Covers, Printable, Tight, HunksText, FileHeader, Dist, Cost, Changes;
    if baseText == newText {
      EmptyPatch(path, baseText);
      return "";
    }
    SplitLinesFlatten(baseText);
    SplitLinesFlatten(newText);
    var a, b := SplitLines(baseText), SplitLines(newText);
    var ops: seq<Op<Line>>;
    if |a| + |b| > MAX_TOTAL_LINES {
      ops := Myers.ReplaceAll(a, b);
      ReplaceAllIsScript(a, b);
    } else {
      ops := Myers.MyersDiff(a, b);
    }
    var hunks := BuildHunks(ops);
    if |hunks| == 0 {
      NoHunksNoChange(ops, a, b, hunks);
      return "";
    }
    CoveringHunksPrint(ops, a, b, hunks);
    var text := PrintHunks(hunks);
    patch := FileHeader(path) + text;
    PrintedPatch(path, baseText, newText, ops, hunks);
    LaidOut(path, patch, baseText, newText, ops, hunks);
    if |a| + |b| <= MAX_TOTAL_LINES {
      ShortestIsMinimal(path, patch, baseText, newText, hunks);
    }
  }
}
