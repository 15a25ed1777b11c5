// The text of hunks as cli/src/diff.ts prints it, and a parser of unified diff text.
module PatchText {
  import opened Wrappers
  import opened EditScript
  import opened Hunks

  type Line = string

  const NO_NEWLINE := "\\ No newline at end of file\n"

  // ----- printing, with the text that follows as last argument

  function NatText(n: nat): string {
    if n < 10 then [('0' as int + n) as char] else NatText(n / 10) + [('0' as int + n % 10) as char]
  }

  /** The start and count of a hunk header; a count of 1 is left out, and an empty side names the line before it. */
  function HunkRange(start0: nat, count: nat): string {
    var start1 := if count == 0 then start0 else start0 + 1;
    if count == 1 then NatText(start1) else NatText(start1) + "," + NatText(count)
  }

  function RangeThen(start0: nat, count: nat, rest: string): string {
    var start1 := if count == 0 then start0 else start0 + 1;
    NatText(start1) + (if count == 1 then rest else "," + (NatText(count) + rest))
  }

  function TagChar(tag: Tag): char {
    match tag case Keep => ' ' case Delete => '-' case Insert => '+'
  }

  predicate Terminated(line: Line) {
    line != [] && line[|line| - 1] == '\n'
  }

  function OpThen(op: Op<Line>, rest: string): string {
    [TagChar(op.tag)] + (op.line + (if Terminated(op.line) then rest else "\n" + (NO_NEWLINE + rest)))
  }

  function BodyThen(body: seq<Op<Line>>, rest: string): string {
    if body == [] then rest else OpThen(body[0], BodyThen(body[1..], rest))
  }

  function HunkThen(h: Hunk<Line>, rest: string): string
  {
    "@@ -" + RangeThen(h.aStart, h.aCount, " +" + RangeThen(h.bStart, h.bCount, " @@\n" + BodyThen(h.body, rest)))
  }

  function HunksText(hunks: seq<Hunk<Line>>): string
  {
    if hunks == [] then "" else HunkThen(hunks[0], HunksText(hunks[1..]))
  }

  // ----- parsing

  datatype Parsed<+T> = Bad | Parsed(value: T, rest: string)

  function Expect(s: string, literal: string): Parsed<()> {
    if literal <= s then Parsed((), s[|literal|..]) else Bad
  }

  predicate IsDigit(c: char) {
    '0' <= c <= '9'
  }

  function ParseDigits(s: string, acc: nat): (r: (nat, string))
    ensures |r.1| <= |s|
  {
    if s != [] && IsDigit(s[0]) then ParseDigits(s[1..], 10 * acc + (s[0] as int - '0' as int)) else (acc, s)
  }

  function ParseNat(s: string): (r: Parsed<nat>)
    ensures r.Parsed? ==> |r.rest| < |s|
  {
    if s != [] && IsDigit(s[0]) then
      var (n, rest) := ParseDigits(s[1..], s[0] as int - '0' as int);
      Parsed(n, rest)
    else Bad
  }

  /** A header range, back to a zero-based start and a count. */
  function ParseRange(s: string): (r: Parsed<(nat, nat)>)
    ensures r.Parsed? ==> |r.rest| < |s|
  {
    match ParseNat(s)
    case Bad => Bad
    case Parsed(start1, more) =>
      if more != [] && more[0] == ',' then
        match ParseNat(more[1..])
        case Bad => Bad
        case Parsed(count, rest) => RangeOf(start1, count, rest)
      else RangeOf(start1, 1, more)
  }

  function RangeOf(start1: nat, count: nat, rest: string): Parsed<(nat, nat)> {
    if count == 0 then Parsed((start1, 0), rest)
    else if start1 == 0 then Bad
    else Parsed((start1 - 1, count), rest)
  }

  function LineEnd(s: string): (i: nat)
    ensures i <= |s|
  {
    if s == [] || s[0] == '\n' then 0 else 1 + LineEnd(s[1..])
  }

  // The line that follows a line without newline, as patch tools know it.
  const MARKER := "\\ No newline at end of file\n"

  /** One body line without its tag: up to the newline, which is dropped again when the marker line follows. */
  function ParseLine(s: string): (r: Parsed<Line>)
    ensures r.Parsed? ==> |r.rest| < |s|
  {
    var i := LineEnd(s);
    if i == |s| then Bad
    else if MARKER <= s[i + 1..] then Parsed(s[..i], s[i + 1..][|MARKER|..])
    else Parsed(s[..i + 1], s[i + 1..])
  }

  function ParseTag(c: char): Option<Tag> {
    if c == ' ' then Some(Keep) else if c == '-' then Some(Delete) else if c == '+' then Some(Insert) else None
  }

  /** Body lines, until both counts of the header are used up. */
  function ParseBody(s: string, aLeft: nat, bLeft: nat): (r: Parsed<seq<Op<Line>>>)
    ensures r.Parsed? ==> |r.rest| <= |s|
    decreases |s|
  {
    if aLeft == 0 && bLeft == 0 then Parsed([], s)
    else if s == [] then Bad
    else match ParseTag(s[0])
      case None => Bad
      case Some(tag) =>
        if (!tag.Insert? && aLeft == 0) || (!tag.Delete? && bLeft == 0) then Bad
        else match ParseLine(s[1..])
          case Bad => Bad
          case Parsed(line, more) =>
            match ParseBody(more, if tag.Insert? then aLeft else aLeft - 1, if tag.Delete? then bLeft else bLeft - 1)
            case Bad => Bad
            case Parsed(ops, rest) => Parsed([Op(tag, line)] + ops, rest)
  }

  function ParseHunk(s: string): (r: Parsed<Hunk<Line>>)
    ensures r.Parsed? ==> |r.rest| < |s|
  {
    match Expect(s, "@@ -")
    case Bad => Bad
    case Parsed(_, s1) =>
      match ParseRange(s1)
      case Bad => Bad
      case Parsed((aStart, aCount), s2) =>
        match Expect(s2, " +")
        case Bad => Bad
        case Parsed(_, s3) =>
          match ParseRange(s3)
          case Bad => Bad
          case Parsed((bStart, bCount), s4) =>
            match Expect(s4, " @@\n")
            case Bad => Bad
            case Parsed(_, s5) =>
              match ParseBody(s5, aCount, bCount)
              case Bad => Bad
              case Parsed(body, rest) => Parsed(Hunk(aStart, aCount, bStart, bCount, body), rest)
  }

  function ParseHunks(s: string): Option<seq<Hunk<Line>>>
    decreases |s|
  {
    if s == [] then Some([])
    else match ParseHunk(s)
      case Bad => None
      case Parsed(h, rest) =>
        match ParseHunks(rest)
        case None => None
        case Some(hunks) => Some([h] + hunks)
  }

  // ----- what is printed parses back

  predicate NoNewline(s: string) {
    forall i | 0 <= i < |s| :: s[i] != '\n'
  }

  /** A line keeps its newline; only its last character can be one. */
  predicate LineShaped(line: Line) {
    NoNewline(if Terminated(line) then line[..|line| - 1] else line)
  }

  predicate Printable(h: Hunk<Line>) {
    && h.aCount == |Source(h.body)| && h.bCount == |Target(h.body)| && h.body != []
    && forall i | 0 <= i < |h.body| :: LineShaped(h.body[i].line)
  }

  predicate NoDigitAhead(rest: string) {
    rest == [] || !IsDigit(rest[0])
  }

  predicate NoMarkerAhead(rest: string) {
    rest == [] || rest[0] != '\\'
  }

  lemma ExpectPrinted(literal: string, rest: string)
    ensures Expect(literal + rest, literal) == Parsed((), rest)
  {
    assert (literal + rest)[|literal|..] == rest;
  }

  lemma {:induction false} DigitsPrinted(n: nat, rest: string)
    ensures NatText(n) != [] && IsDigit(NatText(n)[0])
    ensures ParseDigits(NatText(n) + rest, 0) == ParseDigits(rest, n)
  {
    var d := ('0' as int + n % 10) as char;
    assert ([d] + rest)[1..] == rest;
    assert ParseDigits([d] + rest, n / 10) == ParseDigits(rest, n);
    if n >= 10 {
      DigitsPrinted(n / 10, [d] + rest);
      assert NatText(n) + rest == NatText(n / 10) + ([d] + rest);
    } else {
      assert NatText(n) == [d];
    }
  }

  lemma NatPrinted(n: nat, rest: string)
    requires NoDigitAhead(rest)
    ensures ParseNat(NatText(n) + rest) == Parsed(n, rest)
  {
    DigitsPrinted(n, rest);
    var s := NatText(n) + rest;
    assert ParseDigits(s, 0) == ParseDigits(s[1..], s[0] as int - '0' as int);
  }

  lemma RangePrinted(start0: nat, count: nat, rest: string)
    requires rest != [] && !IsDigit(rest[0]) && rest[0] != ','
    ensures ParseRange(RangeThen(start0, count, rest)) == Parsed((start0, count), rest)
  {
    var start1 := if count == 0 then start0 else start0 + 1;
    if count == 1 {
      NatPrinted(start1, rest);
    } else {
      var more := "," + (NatText(count) + rest);
      assert more[1..] == NatText(count) + rest;
      NatPrinted(count, rest);
      NatPrinted(start1, more);
    }
  }

  lemma {:induction false} LineEndFound(content: string, rest: string)
    requires NoNewline(content)
    ensures LineEnd(content + ("\n" + rest)) == |content|
  {
    if content != [] {
      assert (content + ("\n" + rest))[1..] == content[1..] + ("\n" + rest);
      LineEndFound(content[1..], rest);
    }
  }

  lemma LineCut(content: string, more: string)
    requires NoNewline(content)
    ensures var s := content + ("\n" + more);
            LineEnd(s) == |content| < |s| && s[..|content|] == content && s[..|content| + 1] == content + "\n" && s[|content| + 1..] == more
  {
    LineEndFound(content, more);
  }

  lemma TerminatedPrinted(content: string, rest: string)
    requires NoNewline(content) && NoMarkerAhead(rest)
    ensures ParseLine(content + ("\n" + rest)) == Parsed(content + "\n", rest)
  {
    assert !(MARKER <= rest);
    hide LineEnd, MARKER;
    LineCut(content, rest);
  }

  lemma UnterminatedPrinted(line: Line, rest: string)
    requires NoNewline(line)
    ensures ParseLine(line + ("\n" + (NO_NEWLINE + rest))) == Parsed(line, rest)
  {
    assert NO_NEWLINE == MARKER;
    hide LineEnd, NO_NEWLINE, MARKER;
    LineCut(line, NO_NEWLINE + rest);
    assert NO_NEWLINE <= NO_NEWLINE + rest && (NO_NEWLINE + rest)[|NO_NEWLINE|..] == rest;
  }

  lemma LinePrinted(line: Line, rest: string)
    requires LineShaped(line) && NoMarkerAhead(rest)
    ensures ParseLine(line + (if Terminated(line) then rest else "\n" + (NO_NEWLINE + rest))) == Parsed(line, rest)
  {
    hide ParseLine, NO_NEWLINE, NoNewline, NoMarkerAhead;
    if Terminated(line) {
      var content := line[..|line| - 1];
      assert content + "\n" == line && content + ("\n" + rest) == line + rest;
      TerminatedPrinted(content, rest);
    } else {
      UnterminatedPrinted(line, rest);
    }
  }

  lemma BodyStartsWithTag(body: seq<Op<Line>>, rest: string)
    requires NoMarkerAhead(rest)
    ensures NoMarkerAhead(BodyThen(body, rest))
  {
  }

  lemma ParseBodyStep(s: string, a: nat, b: nat, op: Op<Line>, more: string, ops: seq<Op<Line>>, rest: string)
    requires s != [] && ParseTag(s[0]) == Some(op.tag) && ParseLine(s[1..]) == Parsed(op.line, more)
    requires ParseBody(more, a, b) == Parsed(ops, rest)
    ensures ParseBody(s, a + |Source([op])|, b + |Target([op])|) == Parsed([op] + ops, rest)
  {
    hide ParseLine, LineEnd, NO_NEWLINE;
    match op.tag
    case Keep => assert ParseBody(s, a + 1, b + 1) == Parsed([op] + ops, rest);
    case Delete => assert ParseBody(s, a + 1, b) == Parsed([op] + ops, rest);
    case Insert => assert ParseBody(s, a, b + 1) == Parsed([op] + ops, rest);
  }

  lemma OpPrinted(op: Op<Line>, more: string)
    requires LineShaped(op.line) && NoMarkerAhead(more)
    ensures var s := OpThen(op, more);
            s != [] && ParseTag(s[0]) == Some(op.tag) && ParseLine(s[1..]) == Parsed(op.line, more)
  {
    LinePrinted(op.line, more);
    hide ParseLine, NO_NEWLINE, LineShaped, NoMarkerAhead, Terminated;
    assert OpThen(op, more)[1..] == op.line + (if Terminated(op.line) then more else "\n" + (NO_NEWLINE + more));
  }

  lemma BodyConsPrinted(op: Op<Line>, tail: seq<Op<Line>>, rest: string)
    requires NoMarkerAhead(rest) && LineShaped(op.line)
    requires ParseBody(BodyThen(tail, rest), |Source(tail)|, |Target(tail)|) == Parsed(tail, rest)
    ensures ParseBody(OpThen(op, BodyThen(tail, rest)), |Source([op] + tail)|, |Target([op] + tail)|) == Parsed([op] + tail, rest)
  {
    hide *;
    BodyStartsWithTag(tail, rest);
    OpPrinted(op, BodyThen(tail, rest));
    Concat([op], tail);
    ParseBodyStep(OpThen(op, BodyThen(tail, rest)), |Source(tail)|, |Target(tail)|, op, BodyThen(tail, rest), tail, rest);
  }

  lemma {:induction false} BodyPrinted(body: seq<Op<Line>>, rest: string)
    requires NoMarkerAhead(rest) && forall i | 0 <= i < |body| :: LineShaped(body[i].line)
    ensures ParseBody(BodyThen(body, rest), |Source(body)|, |Target(body)|) == Parsed(body, rest)
  {
    if body != [] {
      BodyPrinted(body[1..], rest);
      BodyConsPrinted(body[0], body[1..], rest);
      assert [body[0]] + body[1..] == body;
    }
  }

  lemma HunkPrinted(h: Hunk<Line>, rest: string)
    requires Printable(h) && NoMarkerAhead(rest)
    ensures ParseHunk(HunkThen(h, rest)) == Parsed(h, rest)
  {
    hide BodyThen, ParseBody, ParseRange, RangeThen, NO_NEWLINE;
    var s5 := BodyThen(h.body, rest);
    var s4 := " @@\n" + s5;
    var s3 := RangeThen(h.bStart, h.bCount, s4);
    var s2 := " +" + s3;
    var s1 := RangeThen(h.aStart, h.aCount, s2);
    ExpectPrinted("@@ -", s1);
    RangePrinted(h.aStart, h.aCount, s2);
    ExpectPrinted(" +", s3);
    RangePrinted(h.bStart, h.bCount, s4);
    ExpectPrinted(" @@\n", s5);
    BodyPrinted(h.body, rest);
  }

  lemma ParseHunksCons(s: string, h: Hunk<Line>, rest: string, hunks: seq<Hunk<Line>>)
    requires ParseHunk(s) == Parsed(h, rest) && ParseHunks(rest) == Some(hunks)
    ensures ParseHunks(s) == Some([h] + hunks)
  {
    hide ParseHunk;
    assert s != [];
  }

  lemma HunkThenNonEmpty(h: Hunk<Line>, rest: string)
    ensures HunkThen(h, rest) != [] && HunkThen(h, rest)[0] == '@'
  {
  }

  /** Parsing undoes printing. */
  lemma {:induction false} HunksPrinted(hunks: seq<Hunk<Line>>)
    requires forall i | 0 <= i < |hunks| :: Printable(hunks[i])
    ensures ParseHunks(HunksText(hunks)) == Some(hunks)
  {
    hide Printable, HunkThen, ParseHunk, ParseHunks;
    if hunks != [] {
      var tail := hunks[1..];
      HunksPrinted(tail);
      HunksTextStep(hunks);
      HunksConsPrinted(hunks[0], tail);
      assert [hunks[0]] + tail == hunks;
    } else {
      assert ParseHunks([]) == Some([]) by { NoHunksPrinted(); }
    }
  }

  lemma NoHunksPrinted()
    ensures ParseHunks([]) == Some([])
  {
  }

  lemma HunksConsPrinted(h: Hunk<Line>, tail: seq<Hunk<Line>>)
    requires Printable(h) && NoMarkerAhead(HunksText(tail)) && ParseHunks(HunksText(tail)) == Some(tail)
    ensures ParseHunks(HunkThen(h, HunksText(tail))) == Some([h] + tail)
  {
    hide *;
    HunkPrinted(h, HunksText(tail));
    ParseHunksCons(HunkThen(h, HunksText(tail)), h, HunksText(tail), tail);
  }

  lemma HunksTextStep(hunks: seq<Hunk<Line>>)
    requires hunks != []
    ensures HunksText(hunks) == HunkThen(hunks[0], HunksText(hunks[1..])) && NoMarkerAhead(HunksText(hunks[1..]))
  {
    hide HunkThen;
    if |hunks| > 1 {
      HunkThenNonEmpty(hunks[1], HunksText(hunks[1..][1..]));
    }
  }

  // ----- the printing loop

  function Join(lines: seq<string>, separator: string): string {
    if lines == [] then "" else if |lines| == 1 then lines[0] else lines[0] + separator + Join(lines[1..], separator)
  }

  function LinesThen(lines: seq<string>, rest: string): string {
    if lines == [] then rest else lines[0] + ("\n" + LinesThen(lines[1..], rest))
  }

  lemma {:induction false} JoinedLines(lines: seq<string>)
    requires lines != []
    ensures Join(lines, "\n") + "\n" == LinesThen(lines, "")
  {
    if |lines| == 1 {
      assert LinesThen(lines[1..], "") == "";
    } else {
      JoinedLines(lines[1..]);
    }
  }

  lemma {:induction false} LinesSnoc(lines: seq<string>, line: string, rest: string)
    ensures LinesThen(lines + [line], rest) == LinesThen(lines, line + ("\n" + rest))
  {
    if lines == [] {
      assert lines + [line] == [line] && [line][1..] == [];
    } else {
      assert (lines + [line])[0] == lines[0] && (lines + [line])[1..] == lines[1..] + [line];
      LinesSnoc(lines[1..], line, rest);
    }
  }

  lemma {:induction false} BodySnoc(body: seq<Op<Line>>, op: Op<Line>, rest: string)
    ensures BodyThen(body + [op], rest) == BodyThen(body, OpThen(op, rest))
  {
    if body == [] {
      assert body + [op] == [op] && [op][1..] == [];
    } else {
      assert (body + [op])[0] == body[0] && (body + [op])[1..] == body[1..] + [op];
      BodySnoc(body[1..], op, rest);
    }
  }

  /** The lines pushed so far print the operations seen so far, whatever follows. */
  ghost predicate Prints(lines: seq<string>, body: seq<Op<Line>>) {
    forall rest :: LinesThen(lines, rest) == BodyThen(body, rest)
  }

  lemma PushTerminated(lines: seq<string>, body: seq<Op<Line>>, o: Op<Line>)
    requires Prints(lines, body) && Terminated(o.line)
    ensures Prints(lines + [[TagChar(o.tag)] + o.line[..|o.line| - 1]], body + [o])
  {
    var line := [TagChar(o.tag)] + o.line[..|o.line| - 1];
    forall rest
      ensures LinesThen(lines + [line], rest) == BodyThen(body + [o], rest)
    {
      BodySnoc(body, o, rest);
      LinesSnoc(lines, line, rest);
      assert line + ("\n" + rest) == OpThen(o, rest);
    }
  }

  lemma PushUnterminated(lines: seq<string>, body: seq<Op<Line>>, o: Op<Line>)
    requires Prints(lines, body) && !Terminated(o.line)
    ensures Prints(lines + [[TagChar(o.tag)] + o.line] + [NO_NEWLINE[..|NO_NEWLINE| - 1]], body + [o])
  {
    var line, marker := [TagChar(o.tag)] + o.line, NO_NEWLINE[..|NO_NEWLINE| - 1];
    assert NO_NEWLINE == marker + "\n";
    hide NO_NEWLINE, LinesThen;
    forall rest
      ensures LinesThen(lines + [line] + [marker], rest) == BodyThen(body + [o], rest)
    {
      BodySnoc(body, o, rest);
      LinesSnoc(lines + [line], marker, rest);
      LinesSnoc(lines, line, marker + ("\n" + rest));
      MarkedLine([TagChar(o.tag)], o.line, marker, rest);
    }
  }

  lemma MarkedLine(tag: string, line: string, marker: string, rest: string)
    ensures (tag + line) + ("\n" + (marker + ("\n" + rest))) == tag + (line + ("\n" + ((marker + "\n") + rest)))
  {
    assert marker + ("\n" + rest) == (marker + "\n") + rest;
  }

  method PrintHunk(h: Hunk<Line>) returns (text: string)
    requires h.body != []
    ensures text == HunkThen(h, "")
  {
    var lines: seq<string> := [];
    for i := 0 to |h.body|
      invariant lines == [] ==> i == 0
      invariant Prints(lines, h.body[..i])
    {
      var o := h.body[i];
      assert h.body[..i + 1] == h.body[..i] + [o];
      if Terminated(o.line) {
        PushTerminated(lines, h.body[..i], o);
        lines := lines + [[TagChar(o.tag)] + o.line[..|o.line| - 1]];
      } else {
        PushUnterminated(lines, h.body[..i], o);
        lines := lines + [[TagChar(o.tag)] + o.line];
        lines := lines + [NO_NEWLINE[..|NO_NEWLINE| - 1]];
      }
    }
    assert h.body[..|h.body|] == h.body;
    JoinedLines(lines);
    var header := "@@ -" + HunkRange(h.aStart, h.aCount) + " +" + HunkRange(h.bStart, h.bCount) + " @@";
    text := header + "\n" + Join(lines, "\n") + "\n";
    HeaderThen(h, Join(lines, "\n"));
  }

  lemma HeaderThen(h: Hunk<Line>, joined: string)
    requires joined + "\n" == BodyThen(h.body, "")
    ensures "@@ -" + HunkRange(h.aStart, h.aCount) + " +" + HunkRange(h.bStart, h.bCount) + " @@" + "\n" + joined + "\n"
            == HunkThen(h, "")
  {
    hide BodyThen, NatText;
    var body := BodyThen(h.body, "");
    var b := RangeThen(h.bStart, h.bCount, " @@\n" + body);
    assert b == HunkRange(h.bStart, h.bCount) + (" @@\n" + body);
    assert RangeThen(h.aStart, h.aCount, " +" + b) == HunkRange(h.aStart, h.aCount) + (" +" + b);
    assert " @@" + "\n" + joined + "\n" == " @@\n" + body;
  }

  // ----- the short form of a count

  lemma {:induction false} NatDigits(n: nat)
    ensures NatText(n) != [] && forall i | 0 <= i < |NatText(n)| :: '0' <= NatText(n)[i] <= '9'
  {
    if n >= 10 {
      NatDigits(n / 10);
    }
  }

  /** A header names a count unless it is one. */
  lemma CountOfOneIsLeftOut(start0: nat, count: nat)
    ensures (forall i | 0 <= i < |HunkRange(start0, count)| :: '0' <= HunkRange(start0, count)[i] <= '9') <==> count == 1
  {
    var start1 := if count == 0 then start0 else start0 + 1;
    NatDigits(start1);
    if count != 1 {
      assert HunkRange(start0, count)[|NatText(start1)|] == ',';
    }
  }
}
