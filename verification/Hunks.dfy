// Grouping an edit script into hunks with context, and applying hunks to a base.
module Hunks {
  import opened Wrappers
  import opened EditScript

  const CONTEXT := 3

  /** Zero-based starts, line counts and the operations of one hunk. */
  datatype Hunk<+T> = Hunk(aStart: nat, aCount: nat, bStart: nat, bCount: nat, body: seq<Op<T>>)

  // ----- what patch tools do with hunks

  /** Applies hunks from line cursor of the base on; None when a hunk does not fit where its header says. */
  function Apply<T(==)>(base: seq<T>, cursor: nat, hunks: seq<Hunk<T>>): Option<seq<T>>
    requires cursor <= |base|
    decreases |hunks|
  {
    if hunks == [] then Some(base[cursor..])
    else
      var h := hunks[0];
      if !(cursor <= h.aStart && h.aStart + h.aCount <= |base|) then None
      else if base[h.aStart..h.aStart + h.aCount] != Source(h.body) || |Target(h.body)| != h.bCount then None
      else match Apply(base, h.aStart + h.aCount, hunks[1..])
        case None => None
        case Some(rest) => Some(base[cursor..h.aStart] + Target(h.body) + rest)
  }

  function Flip(tag: Tag): Tag {
    match tag case Keep => Keep case Delete => Insert case Insert => Delete
  }

  function ReverseOps<T>(ops: seq<Op<T>>): seq<Op<T>> {
    if ops == [] then [] else [ops[0].(tag := Flip(ops[0].tag))] + ReverseOps(ops[1..])
  }

  /** The hunk that undoes h. */
  function ReverseHunk<T>(h: Hunk<T>): Hunk<T> {
    Hunk(h.bStart, h.bCount, h.aStart, h.aCount, ReverseOps(h.body))
  }

  function ReverseAll<T>(hunks: seq<Hunk<T>>): seq<Hunk<T>> {
    if hunks == [] then [] else [ReverseHunk(hunks[0])] + ReverseAll(hunks[1..])
  }

  // ----- hunks that cover a script

  /** Lines consumed and produced by the first i operations. */
  ghost function ALines<T>(ops: seq<Op<T>>, i: nat): nat requires i <= |ops| { |Source(ops[..i])| }
  ghost function BLines<T>(ops: seq<Op<T>>, i: nat): nat requires i <= |ops| { |Target(ops[..i])| }

  ghost predicate KeptBetween<T>(ops: seq<Op<T>>, i: int, j: int) {
    0 <= i <= j <= |ops| && forall k | i <= k < j :: ops[k].tag.Keep?
  }

  /** The stretch of operations a hunk shows. */
  datatype Cut = Cut(start: nat, end: nat)

  /** The hunk shows exactly the operations of its cut, and its header gives their true position and counts. */
  ghost predicate Placed<T>(ops: seq<Op<T>>, h: Hunk<T>, c: Cut) {
    && c.start <= c.end <= |ops| && h.body == ops[c.start..c.end]
    && h.aStart == ALines(ops, c.start) && h.aStart + h.aCount == ALines(ops, c.end)
    && h.bStart == BLines(ops, c.start) && h.bStart + h.bCount == BLines(ops, c.end)
  }

  /** Where the cut before number i ends. */
  function EndBefore(cuts: seq<Cut>, i: nat): nat
    requires i <= |cuts|
  {
    if i == 0 then 0 else cuts[i - 1].end
  }

  /** In order and without overlap, the hunks show every change among the first n operations. */
  ghost predicate Cover<T>(ops: seq<Op<T>>, n: nat, hunks: seq<Hunk<T>>, cuts: seq<Cut>) {
    && |cuts| == |hunks|
    && (forall i {:trigger hunks[i]} | 0 <= i < |hunks| ::
          Placed(ops, hunks[i], cuts[i]) && KeptBetween(ops, EndBefore(cuts, i), cuts[i].start))
    && KeptBetween(ops, EndBefore(cuts, |cuts|), n)
  }

  ghost predicate Covers<T>(ops: seq<Op<T>>, hunks: seq<Hunk<T>>) {
    exists cuts :: Cover(ops, |ops|, hunks, cuts)
  }

  /** Both ends of the hunk are within CONTEXT lines of a change. */
  ghost predicate Tight<T>(h: Hunk<T>) {
    && (exists i | 0 <= i < |h.body| :: i <= CONTEXT && !h.body[i].tag.Keep?)
    && (exists i | 0 <= i < |h.body| :: |h.body| - 1 - i <= CONTEXT && !h.body[i].tag.Keep?)
  }

  /** From its first to its last change the cut has no run of more than six kept lines. */
  ghost predicate Together<T>(ops: seq<Op<T>>, first: int, last: int) {
    forall i | first <= i && i + 7 <= last :: !LongRun(ops, i)
  }

  ghost predicate LongRun<T>(ops: seq<Op<T>>, i: int) {
    KeptBetween(ops, i, i + 7)
  }

  /**
   * The extent of a cut around its first and last change: three kept lines before, unless the script begins there; after,
   * two when more than six kept lines follow, and otherwise up to three, since no change follows.
   */
  ghost predicate Extent<T>(ops: seq<Op<T>>, c: Cut, first: int, last: int) {
    && c.start <= first <= last < c.end <= |ops| && !ops[first].tag.Keep? && !ops[last].tag.Keep?
    && KeptBetween(ops, c.start, first) && (first - c.start == 3 || (c.start == 0 && first <= 3))
    && Together(ops, first, last)
    && if LongRun(ops, last + 1) then c.end == last + 3
       else KeptBetween(ops, last + 1, |ops|) && c.end == if last + 4 < |ops| then last + 4 else |ops|
  }

  ghost predicate Framed<T>(ops: seq<Op<T>>, c: Cut) {
    exists first, last :: Extent(ops, c, first, last)
  }

  /** The hunks show every change, each with the context it is meant to have. */
  ghost predicate Layout<T>(ops: seq<Op<T>>, hunks: seq<Hunk<T>>) {
    exists cuts :: Cover(ops, |ops|, hunks, cuts) && forall c | c in cuts :: Framed(ops, c)
  }

  /** A slice of the script consumes and produces the corresponding slices of both sides. */
  lemma Slice<T>(ops: seq<Op<T>>, i: nat, j: nat)
    requires i <= j <= |ops|
    ensures ALines(ops, i) <= ALines(ops, j) <= |Source(ops)|
    ensures BLines(ops, i) <= BLines(ops, j) <= |Target(ops)|
    ensures Source(ops)[ALines(ops, i)..ALines(ops, j)] == Source(ops[i..j])
    ensures Target(ops)[BLines(ops, i)..BLines(ops, j)] == Target(ops[i..j])
  {
    assert ops == ops[..i] + ops[i..j] + ops[j..];
    Concat3(ops[..i], ops[i..j], ops[j..]);
    assert ops[..j] == ops[..i] + ops[i..j];
    Concat(ops[..i], ops[i..j]);
  }

  lemma KeptSlice<T>(ops: seq<Op<T>>, i: nat, j: nat)
    requires KeptBetween(ops, i, j)
    ensures Source(ops[i..j]) == Target(ops[i..j])
    ensures ALines(ops, j) == ALines(ops, i) + (j - i) && BLines(ops, j) == BLines(ops, i) + (j - i)
  {
    AllKept(ops[i..j]);
    Slice(ops, i, j);
  }

  lemma LinesStep<T>(ops: seq<Op<T>>, i: nat)
    requires i < |ops|
    ensures ALines(ops, i + 1) == ALines(ops, i) + (if ops[i].tag.Insert? then 0 else 1)
    ensures BLines(ops, i + 1) == BLines(ops, i) + (if ops[i].tag.Delete? then 0 else 1)
  {
    Slice(ops, i, i + 1);
    assert ops[i..i + 1] == [ops[i]];
  }

  lemma WholeLines<T>(ops: seq<Op<T>>)
    ensures ALines(ops, 0) == BLines(ops, 0) == 0
    ensures ALines(ops, |ops|) == |Source(ops)| && BLines(ops, |ops|) == |Target(ops)|
  {
    assert ops[..|ops|] == ops;
  }

  lemma ApplyFirst<T>(base: seq<T>, cursor: nat, hunks: seq<Hunk<T>>, rest: seq<T>)
    requires hunks != [] && cursor <= hunks[0].aStart && hunks[0].aStart + hunks[0].aCount <= |base|
    requires base[hunks[0].aStart..hunks[0].aStart + hunks[0].aCount] == Source(hunks[0].body)
    requires |Target(hunks[0].body)| == hunks[0].bCount
    requires Apply(base, hunks[0].aStart + hunks[0].aCount, hunks[1..]) == Some(rest)
    ensures Apply(base, cursor, hunks) == Some(base[cursor..hunks[0].aStart] + Target(hunks[0].body) + rest)
  {
  }

  /** Applying one placed hunk: the untouched lines before it, what it produces, and what the rest gives. */
  lemma ApplyPlaced<T>(ops: seq<Op<T>>, from: nat, hunks: seq<Hunk<T>>, c: Cut)
    requires hunks != [] && Placed(ops, hunks[0], c) && KeptBetween(ops, from, c.start)
    requires ALines(ops, c.end) <= |Source(ops)| && BLines(ops, c.end) <= |Target(ops)|
    requires Apply(Source(ops), ALines(ops, c.end), hunks[1..]) == Some(Target(ops)[BLines(ops, c.end)..])
    ensures ALines(ops, from) <= |Source(ops)| && BLines(ops, from) <= |Target(ops)|
    ensures Apply(Source(ops), ALines(ops, from), hunks) == Some(Target(ops)[BLines(ops, from)..])
  {
    KeptSlice(ops, from, c.start);
    Slice(ops, from, c.start);
    Slice(ops, c.start, c.end);
    ApplyFirst(Source(ops), ALines(ops, from), hunks, Target(ops)[BLines(ops, c.end)..]);
    JoinSlices(Target(ops), BLines(ops, from), BLines(ops, c.start), BLines(ops, c.end));
  }

  /** Hunks that cover a script, applied to the script's source, give its target. */
  lemma {:induction false} CoverApplies<T>(ops: seq<Op<T>>, hunks: seq<Hunk<T>>, cuts: seq<Cut>, i: nat)
    requires Cover(ops, |ops|, hunks, cuts) && i <= |hunks|
    ensures var from := EndBefore(cuts, i);
            && from <= |ops| && ALines(ops, from) <= |Source(ops)| && BLines(ops, from) <= |Target(ops)|
            && Apply(Source(ops), ALines(ops, from), hunks[i..]) == Some(Target(ops)[BLines(ops, from)..])
    decreases |hunks| - i
  {
    if i == |hunks| {
      var from := EndBefore(cuts, i);
      WholeLines(ops);
      KeptSlice(ops, from, |ops|);
      Slice(ops, from, |ops|);
      assert hunks[i..] == [];
      assert Source(ops)[ALines(ops, from)..] == Source(ops)[ALines(ops, from)..ALines(ops, |ops|)];
      assert Target(ops)[BLines(ops, from)..] == Target(ops)[BLines(ops, from)..BLines(ops, |ops|)];
    } else {
      assert Placed(ops, hunks[i], cuts[i]);
      CoverApplies(ops, hunks, cuts, i + 1);
      assert hunks[i..][0] == hunks[i] && hunks[i..][1..] == hunks[i + 1..];
      ApplyPlaced(ops, EndBefore(cuts, i), hunks[i..], cuts[i]);
    }
  }

  lemma JoinSlices<T>(s: seq<T>, i: nat, j: nat, k: nat)
    requires i <= j <= k <= |s|
    ensures s[i..j] + s[j..k] + s[k..] == s[i..]
  {
  }

  lemma {:induction false} ReverseOpsSwaps<T>(ops: seq<Op<T>>)
    ensures Source(ReverseOps(ops)) == Target(ops) && Target(ReverseOps(ops)) == Source(ops)
    ensures |ReverseOps(ops)| == |ops|
    ensures forall i | 0 <= i < |ops| :: ReverseOps(ops)[i] == ops[i].(tag := Flip(ops[i].tag))
  {
    if ops != [] {
      ReverseOpsSwaps(ops[1..]);
    }
  }

  lemma ReverseOpsSlice<T>(ops: seq<Op<T>>, i: nat, j: nat)
    requires i <= j <= |ops|
    ensures |ReverseOps(ops)| == |ops| && ReverseOps(ops)[i..j] == ReverseOps(ops[i..j])
  {
    ReverseOpsSwaps(ops);
    ReverseOpsSwaps(ops[i..j]);
  }

  lemma ReverseLines<T>(ops: seq<Op<T>>, i: nat)
    requires i <= |ops|
    ensures |ReverseOps(ops)| == |ops|
    ensures ALines(ReverseOps(ops), i) == BLines(ops, i) && BLines(ReverseOps(ops), i) == ALines(ops, i)
  {
    ReverseOpsSlice(ops, 0, i);
    ReverseOpsSwaps(ops[..i]);
    assert ops[0..i] == ops[..i] && ReverseOps(ops)[0..i] == ReverseOps(ops)[..i];
  }

  /** The reversed hunks cover the reversed script. */
  lemma ReverseCovers<T>(ops: seq<Op<T>>, hunks: seq<Hunk<T>>, cuts: seq<Cut>)
    requires Cover(ops, |ops|, hunks, cuts)
    ensures Cover(ReverseOps(ops), |ops|, ReverseAll(hunks), cuts)
  {
    ReverseOpsSwaps(ops);
    ReverseAllAt(hunks);
    forall i {:trigger hunks[i]} | 0 <= i < |hunks|
      ensures Placed(ReverseOps(ops), ReverseAll(hunks)[i], cuts[i])
    {
      assert Placed(ops, hunks[i], cuts[i]);
      ReverseLines(ops, cuts[i].start);
      ReverseLines(ops, cuts[i].end);
      ReverseOpsSlice(ops, cuts[i].start, cuts[i].end);
    }
  }

  lemma {:induction false} ReverseAllAt<T>(hunks: seq<Hunk<T>>)
    ensures |ReverseAll(hunks)| == |hunks|
    ensures forall i | 0 <= i < |hunks| :: ReverseAll(hunks)[i] == ReverseHunk(hunks[i])
  {
    if hunks != [] {
      ReverseAllAt(hunks[1..]);
    }
  }

  /** Applied forwards the hunks turn source into target; applied in reverse, target into source. */
  lemma ApplyBothWays<T>(ops: seq<Op<T>>, hunks: seq<Hunk<T>>)
    requires Covers(ops, hunks)
    ensures Apply(Source(ops), 0, hunks) == Some(Target(ops))
    ensures Apply(Target(ops), 0, ReverseAll(hunks)) == Some(Source(ops))
  {
    var cuts :| Cover(ops, |ops|, hunks, cuts);
    CoverApplies(ops, hunks, cuts, 0);
    ReverseCovers(ops, hunks, cuts);
    ReverseOpsSwaps(ops);
    CoverApplies(ReverseOps(ops), ReverseAll(hunks), cuts, 0);
    assert hunks[0..] == hunks && ReverseAll(hunks)[0..] == ReverseAll(hunks);
    WholeLines(ops);
    WholeLines(ReverseOps(ops));
  }

  // ----- building hunks

  /** Backs up over at most CONTEXT kept lines before a change. */
  method LeadingContext<T>(ops: seq<Op<T>>, i: nat) returns (start: nat, leading: nat)
    requires i < |ops|
    ensures start + leading == i && leading <= CONTEXT && KeptBetween(ops, start, i)
    ensures leading == CONTEXT || start == 0 || !ops[start - 1].tag.Keep?
  {
    start, leading := i, 0;
    while start > 0 && leading < CONTEXT && ops[start - 1].tag.Keep?
      invariant start + leading == i && leading <= CONTEXT && KeptBetween(ops, start, i)
    {
      start, leading := start - 1, leading + 1;
    }
  }

  lemma TogetherExtends<T>(ops: seq<Op<T>>, first: int, last: int, next: int)
    requires Together(ops, first, last) && 0 <= first <= last < next < |ops| && next - last - 1 <= 2 * CONTEXT && !ops[last].tag.Keep?
    ensures Together(ops, first, next)
  {
    forall i | first <= i && i + 2 * CONTEXT + 1 <= next
      ensures !LongRun(ops, i)
    {
      assert last < i + 2 * CONTEXT + 1 ==> i <= last;
    }
  }

  /**
   * Runs from a change to the end of its hunk, before trimming. `trailing` counts the kept lines at the end;
   * when more than 2 * CONTEXT of them close the hunk, it counts one more that is not consumed.
   */
  method HunkEnd<T>(ops: seq<Op<T>>, i: nat, aLine: int, bLine: int, leading: nat)
    returns (end: nat, aCount: int, bCount: int, aCur: int, bCur: int, trailing: nat)
    requires i < |ops| && !ops[i].tag.Keep?
    requires aLine == ALines(ops, i) && bLine == BLines(ops, i)
    ensures i < end <= |ops|
    ensures aCur == ALines(ops, end) && bCur == BLines(ops, end)
    ensures aCount == leading + aCur - aLine && bCount == leading + bCur - bLine
    ensures if end < |ops| then trailing == 2 * CONTEXT + 1 && ops[end].tag.Keep? else trailing <= 2 * CONTEXT
    ensures var kept := if end < |ops| then 2 * CONTEXT else trailing;
            i < end - kept && KeptBetween(ops, end - kept, end) && !ops[end - kept - 1].tag.Keep? && Together(ops, i, end - kept - 1)
  {
    end, aCount, bCount, aCur, bCur, trailing := i, leading, leading, aLine, bLine, 0;
    while end < |ops|
      invariant i <= end <= |ops|
      invariant aCur == ALines(ops, end) && bCur == BLines(ops, end)
      invariant aCount == leading + aCur - aLine && bCount == leading + bCur - bLine
      invariant trailing <= 2 * CONTEXT && i <= end - trailing
      invariant KeptBetween(ops, end - trailing, end)
      invariant i < end ==> i < end - trailing && !ops[end - trailing - 1].tag.Keep?
      invariant Together(ops, i, end - trailing - 1)
    {
      var o := ops[end];
      if o.tag.Keep? {
        trailing := trailing + 1;
        if trailing > 2 * CONTEXT { break; }
      } else {
        if i < end { TogetherExtends(ops, i, end - trailing - 1, end); }
        trailing := 0;
      }
      LinesStep(ops, end);
      if !o.tag.Insert? {
        aCur, aCount := aCur + 1, aCount + 1;
      }
      if !o.tag.Delete? {
        bCur, bCount := bCur + 1, bCount + 1;
      }
      end := end + 1;
    }
  }

  /** The next change, if any, is further away than its leading context reaches back. */
  ghost predicate Clear<T>(ops: seq<Op<T>>, i: int) {
    KeptBetween(ops, i, |ops|) || KeptBetween(ops, i, i + CONTEXT + 1)
  }

  lemma TightBetween<T>(ops: seq<Op<T>>, h: Hunk<T>, start: nat, end: nat, first: nat, last: nat)
    requires start <= first <= last < end <= |ops| && h.body == ops[start..end]
    requires first <= start + CONTEXT && end - 1 - last <= CONTEXT && !ops[first].tag.Keep? && !ops[last].tag.Keep?
    ensures Tight(h)
  {
    assert h.body[first - start] == ops[first] && h.body[last - start] == ops[last];
  }

  method NextHunk<T>(ops: seq<Op<T>>, i: nat, aLine: int, bLine: int, ghost from: nat)
    returns (h: Hunk<T>, next: nat, aNext: int, bNext: int, ghost c: Cut)
    requires i < |ops| && !ops[i].tag.Keep?
    requires aLine == ALines(ops, i) && bLine == BLines(ops, i)
    requires from <= i && KeptBetween(ops, from, i) && (from == 0 || from + CONTEXT < i)
    ensures Placed(ops, h, c) && Tight(h) && Framed(ops, c)
    ensures i < c.end && c.start <= i <= c.start + CONTEXT && KeptBetween(ops, c.start, i)
    ensures next == c.end && aNext == ALines(ops, next) && bNext == BLines(ops, next)
    ensures Clear(ops, next)
  {
    hide Source, Target, ALines, BLines, Together, Framed;
    var start, leading := LeadingContext(ops, i);
    KeptSlice(ops, start, i);
    var aStart, bStart := aLine - leading, bLine - leading;
    var end, aCount, bCount, aCur, bCur, trailing := HunkEnd(ops, i, aLine, bLine, leading);
    var surplus := if trailing > CONTEXT then trailing - CONTEXT else 0;
    ghost var full := end;
    ghost var last := end - (if end < |ops| then 2 * CONTEXT else trailing) - 1;
    end := end - surplus;
    aCount, bCount, aCur, bCur := aCount - surplus, bCount - surplus, aCur - surplus, bCur - surplus;
    KeptSlice(ops, end, full);
    Slice(ops, start, end);
    h := Hunk(aStart, aCount, bStart, bCount, ops[start..end]);
    c := Cut(start, end);
    next, aNext, bNext := end, aCur, bCur;
    TightBetween(ops, h, start, end, i, last);
    ExtentOf(ops, c, i, last, full, from);
  }

  /** The extent of a cut, from how far the hunk ran before it was trimmed and where the one before ended. */
  lemma ExtentOf<T>(ops: seq<Op<T>>, c: Cut, first: nat, last: nat, full: nat, from: nat)
    requires c.start <= first <= last < full <= |ops| && !ops[first].tag.Keep? && !ops[last].tag.Keep? && Together(ops, first, last)
    requires KeptBetween(ops, c.start, first) && first - c.start <= CONTEXT
    requires first - c.start == CONTEXT || c.start == 0 || !ops[c.start - 1].tag.Keep?
    requires from <= first && KeptBetween(ops, from, first) && (from == 0 || from + CONTEXT < first)
    requires KeptBetween(ops, last + 1, full) && full - last - 1 <= 2 * CONTEXT
    requires full < |ops| ==> full == last + 1 + 2 * CONTEXT && ops[full].tag.Keep?
    requires c.end == if full < |ops| then last + CONTEXT else if full - last - 1 > CONTEXT then last + 1 + CONTEXT else full
    ensures Framed(ops, c)
  {
    assert Extent(ops, c, first, last);
  }

  lemma CoverSnoc<T>(ops: seq<Op<T>>, i: nat, hunks: seq<Hunk<T>>, cuts: seq<Cut>, h: Hunk<T>, c: Cut)
    requires Cover(ops, i, hunks, cuts) && Placed(ops, h, c)
    requires EndBefore(cuts, |cuts|) <= c.start <= i
    ensures Cover(ops, c.end, hunks + [h], cuts + [c])
  {
    var hunks', cuts' := hunks + [h], cuts + [c];
    assert KeptBetween(ops, EndBefore(cuts, |cuts|), c.start);
    assert EndBefore(cuts', |cuts'|) == c.end && KeptBetween(ops, c.end, c.end);
    hide Placed, KeptBetween;
    forall j {:trigger hunks'[j]} | 0 <= j < |hunks'|
      ensures Placed(ops, hunks'[j], cuts'[j]) && KeptBetween(ops, EndBefore(cuts', j), cuts'[j].start)
    {
      assert EndBefore(cuts', j) == EndBefore(cuts, j);
      if j < |hunks| {
        assert hunks'[j] == hunks[j] && cuts'[j] == cuts[j];
      }
    }
  }

  method BuildHunks<T>(ops: seq<Op<T>>) returns (hunks: seq<Hunk<T>>)
    ensures Covers(ops, hunks) && Layout(ops, hunks)
    ensures forall h | h in hunks :: Tight(h)
  {
    hunks := [];
    var i, aLine, bLine := 0, 0, 0;
    ghost var cuts: seq<Cut> := [];
    while i < |ops|
      invariant 0 <= i <= |ops| && Cover(ops, i, hunks, cuts)
      invariant aLine == ALines(ops, i) && bLine == BLines(ops, i)
      invariant forall h | h in hunks :: Tight(h)
      invariant forall c | c in cuts :: Framed(ops, c)
      invariant hunks == [] || Clear(ops, EndBefore(cuts, |cuts|))
    {
      if ops[i].tag.Keep? {
        LinesStep(ops, i);
        aLine, bLine, i := aLine + 1, bLine + 1, i + 1;
        continue;
      }
      var h: Hunk<T>;
      ghost var c;
      ghost var before := i;
      h, i, aLine, bLine, c := NextHunk(ops, i, aLine, bLine, EndBefore(cuts, |cuts|));
      CoverSnoc(ops, before, hunks, cuts, h, c);
      hunks, cuts := hunks + [h], cuts + [c];
    }
  }
}
