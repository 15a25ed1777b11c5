// The greedy O(ND) search of cli/src/diff.ts and its backtracking pass.
module Myers {
  import opened EditScript

  /** (x, y) is the furthest point of its diagonal that d moves reach, the grid continued past its borders. */
  ghost predicate Furthest<T>(a: seq<T>, b: seq<T>, d: int, x: int, y: int) {
    0 <= x && 0 <= y && Dist(a, b, x, y) <= d < Dist(a, b, x + 1, y + 1)
  }

  ghost predicate OnDiagonals(d: int, k: int) {
    -d <= k <= d && (k + d) % 2 == 0
  }

  /** Row d of the search: entry max + k holds the furthest column of every diagonal of d's parity. */
  ghost predicate Row<T>(a: seq<T>, b: seq<T>, d: int, v: seq<int>) {
    var max := |a| + |b|;
    && |v| == 2 * max + 1 && d <= max
    && (d < 0 ==> forall i | 0 <= i < |v| :: v[i] == 0)
    && forall k {:trigger OnDiagonals(d, k)} | OnDiagonals(d, k) :: Furthest(a, b, d, v[max + k], v[max + k] - k)
  }

  /** Whether diagonal k is entered by an insertion from k + 1 rather than a deletion from k - 1. */
  predicate EntersDown(v: seq<int>, max: int, d: int, k: int)
    requires |v| == 2 * max + 1 && 0 < max && 0 <= d <= max && -d <= k <= d
  {
    k == -d || (k != d && v[max + k - 1] < v[max + k + 1])
  }

  function EntryColumn(v: seq<int>, max: int, d: int, k: int): int
    requires |v| == 2 * max + 1 && 0 < max && 0 <= d <= max && -d <= k <= d
  {
    if EntersDown(v, max, d, k) then v[max + k + 1] else v[max + k - 1] + 1
  }

  lemma RowAt<T>(a: seq<T>, b: seq<T>, d: int, v: seq<int>, k: int) returns (x: nat, y: nat)
    requires Row(a, b, d, v) && OnDiagonals(d, k)
    ensures x == v[|a| + |b| + k] && x - y == k && Furthest(a, b, d, x, y)
  {
    x, y := v[|a| + |b| + k], v[|a| + |b| + k] - k;
  }

  /** The point where a diagonal is entered is within d moves. */
  lemma EntryIsReached<T>(a: seq<T>, b: seq<T>, v: seq<int>, d: int, x: int, y: int)
    requires 0 < |a| + |b|
    requires 0 <= d <= |a| + |b| && Row(a, b, d - 1, v) && OnDiagonals(d, x - y)
    requires x == EntryColumn(v, |a| + |b|, d, x - y)
    ensures 0 <= x && 0 <= y && Dist(a, b, x, y) <= d
  {
    if d == 0 {
      assert x == y == 0;
    } else {
      hide Row, Dist;
      if EntersDown(v, |a| + |b|, d, x - y) {
        EnteredFromAbove(a, b, v, d, x, y);
      } else {
        EnteredFromLeft(a, b, v, d, x, y);
      }
    }
  }

  lemma EnteredFromAbove<T>(a: seq<T>, b: seq<T>, v: seq<int>, d: int, x: int, y: int)
    requires |v| == 2 * (|a| + |b|) + 1 && Row(a, b, d - 1, v) && OnDiagonals(d - 1, x - y + 1) && x == v[|a| + |b| + (x - y) + 1]
    ensures 0 <= x && 0 <= y && Dist(a, b, x, y) <= d
  {
    var aboveX, aboveY := RowAt(a, b, d - 1, v, x - y + 1);
    hide Row, Dist;
    DownStep(a, b, aboveX, aboveY);
  }

  lemma EnteredFromLeft<T>(a: seq<T>, b: seq<T>, v: seq<int>, d: int, x: int, y: int)
    requires |v| == 2 * (|a| + |b|) + 1 && Row(a, b, d - 1, v) && OnDiagonals(d - 1, x - y - 1) && x == v[|a| + |b| + (x - y) - 1] + 1
    ensures 0 <= x && 0 <= y && Dist(a, b, x, y) <= d
  {
    var leftX, leftY := RowAt(a, b, d - 1, v, x - y - 1);
    hide Row, Dist;
    RightStep(a, b, leftX, leftY);
  }

  /** From the entry on, the next point of the diagonal is within d moves only if its lines match. */
  lemma OnlyMatchesAdvance<T>(a: seq<T>, b: seq<T>, v: seq<int>, d: int, x: nat, y: nat)
    requires 0 < |a| + |b|
    requires 0 <= d <= |a| + |b| && Row(a, b, d - 1, v) && OnDiagonals(d, x - y)
    requires EntryColumn(v, |a| + |b|, d, x - y) <= x
    requires !Match(a, b, x, y)
    ensures d < Dist(a, b, x + 1, y + 1)
  {
    BelowIsFar(a, b, v, d, x, y);
    RightIsFar(a, b, v, d, x, y);
    hide Row, EntryColumn;
  }

  lemma BelowIsFar<T>(a: seq<T>, b: seq<T>, v: seq<int>, d: int, x: nat, y: nat)
    requires 0 < |a| + |b|
    requires 0 <= d <= |a| + |b| && Row(a, b, d - 1, v) && OnDiagonals(d, x - y)
    requires EntryColumn(v, |a| + |b|, d, x - y) <= x
    ensures d <= Dist(a, b, x, y + 1)
  {
    hide Dist;
    if x - y == -d {
      Bounds(a, b, x, y + 1);
    } else {
      var leftX, leftY := RowAt(a, b, d - 1, v, x - y - 1);
      BeyondFurthest(a, b, d - 1, leftX, leftY, x, y + 1);
    }
  }

  lemma RightIsFar<T>(a: seq<T>, b: seq<T>, v: seq<int>, d: int, x: nat, y: nat)
    requires 0 < |a| + |b|
    requires 0 <= d <= |a| + |b| && Row(a, b, d - 1, v) && OnDiagonals(d, x - y)
    requires EntryColumn(v, |a| + |b|, d, x - y) <= x
    ensures d <= Dist(a, b, x + 1, y)
  {
    hide Dist;
    if x - y == d {
      Bounds(a, b, x + 1, y);
    } else {
      var aboveX, aboveY := RowAt(a, b, d - 1, v, x - y + 1);
      BeyondFurthest(a, b, d - 1, aboveX, aboveY, x + 1, y);
    }
  }

  lemma BeyondFurthest<T>(a: seq<T>, b: seq<T>, d: int, x: int, y: int, x': int, y': int)
    requires Furthest(a, b, d, x, y) && x < x' && x' - y' == x - y
    ensures d < Dist(a, b, x', y')
  {
    DiagonalMonotone(a, b, x + 1, y + 1, x' - (x + 1));
  }

  /** On or past the last line of both sides, the distance beats the far corner's by the overshoot. */
  lemma Overshoot<T>(a: seq<T>, b: seq<T>, x: nat, y: nat)
    requires |a| <= x && |b| <= y
    ensures Dist(a, b, x, y) == Dist(a, b, |a|, |b|) + (x - |a|) + (y - |b|)
  {
    PastRight(a, b, x, y);
    PastBottom(a, b, |a|, y);
  }

  /** Furthest on its diagonal, and not at the far corner. */
  ghost predicate StoppedShort<T>(a: seq<T>, b: seq<T>, d: int, x: int, y: int) {
    Furthest(a, b, d, x, y) && !(|a| <= x && |b| <= y)
  }

  /** A round that reached the far corner on no diagonal below k. */
  ghost predicate ShortBelow<T>(a: seq<T>, b: seq<T>, d: int, k: int, v: seq<int>) {
    var max := |a| + |b|;
    && |v| == 2 * max + 1 && 0 <= d <= max
    && forall j {:trigger OnDiagonals(d, j)} | OnDiagonals(d, j) && j < k :: StoppedShort(a, b, d, v[max + j], v[max + j] - j)
  }

  lemma ShortBelowExtends<T>(a: seq<T>, b: seq<T>, d: int, k: int, v: seq<int>, x: int, y: int)
    requires ShortBelow(a, b, d, k, v) && OnDiagonals(d, k) && x - y == k && StoppedShort(a, b, d, x, y)
    ensures ShortBelow(a, b, d, k + 2, v[|a| + |b| + k := x])
  {
  }

  /** A round that never reached the far corner proves that the corner is further than d moves away. */
  lemma CornerNotReached<T>(a: seq<T>, b: seq<T>, d: nat, k: int, v: seq<int>)
    requires d <= Dist(a, b, |a|, |b|) && d < k && ShortBelow(a, b, d, k, v)
    ensures Row(a, b, d, v) && d < Dist(a, b, |a|, |b|)
  {
    Bounds(a, b, |a|, |b|);
    var corner := |a| - |b|;
    if OnDiagonals(d, corner) {
      var x := v[|a| + |b| + corner];
      BeyondFurthest(a, b, d, x, x - corner, |a|, |b|);
    }
  }

  /** One diagonal of one round: enter it, then follow matching lines. */
  method Advance<T(==)>(a: seq<T>, b: seq<T>, v: array<int>, d: int, k: int) returns (x: int, y: int)
    requires 0 < |a| + |b| && 0 <= d <= |a| + |b| && OnDiagonals(d, k)
    requires Row(a, b, d - 1, v[..])
    ensures x - y == k && Furthest(a, b, d, x, y)
  {
    var max := |a| + |b|;
    if k == -d || (k != d && v[max + k - 1] < v[max + k + 1]) {
      x := v[max + k + 1];
    } else {
      x := v[max + k - 1] + 1;
    }
    ghost var entry := x;
    assert entry == EntryColumn(v[..], max, d, k);
    y := x - k;
    EntryIsReached(a, b, v[..], d, x, y);
    while x < |a| && y < |b| && a[x] == b[y]
      invariant entry <= x && y == x - k && 0 <= x && 0 <= y
      invariant Dist(a, b, x, y) <= d
    {
      assert Match(a, b, x, y);
      x, y := x + 1, y + 1;
    }
    OnlyMatchesAdvance(a, b, v[..], d, x, y);
  }

  /** One round: every diagonal of d's parity, until one is at or past both ends. */
  method Round<T(==)>(a: seq<T>, b: seq<T>, v: array<int>, d: int) returns (next: array<int>, found: bool)
    requires 0 < |a| + |b| && 0 <= d <= |a| + |b|
    requires Row(a, b, d - 1, v[..]) && d <= Dist(a, b, |a|, |b|)
    ensures found ==> d == Dist(a, b, |a|, |b|) && OnDiagonals(d, |a| - |b|) && Furthest(a, b, d, |a|, |b|)
    ensures !found ==> Row(a, b, d, next[..]) && d < Dist(a, b, |a|, |b|)
  {
    var max := |a| + |b|;
    next := new int[2 * max + 1](i requires 0 <= i < v.Length reads v => v[i]);
    var k := -d;
    while k <= d
      invariant -d <= k <= d + 2 && (k + d) % 2 == 0
      invariant Row(a, b, d - 1, v[..])
      invariant ShortBelow(a, b, d, k, next[..])
      decreases d - k
    {
      var x, y := Advance(a, b, v, d, k);
      ghost var before := next[..];
      next[max + k] := x;
      if x >= |a| && y >= |b| {
        Overshoot(a, b, x, y);
        return next, true;
      }
      ShortBelowExtends(a, b, d, k, before, x, y);
      assert next[..] == before[max + k := x];
      k := k + 2;
    }
    CornerNotReached(a, b, d, k, next[..]);
    found := false;
  }

  /** The search loop: stops, exactly at the far corner, with a number of moves equal to the distance. */
  method Search<T(==)>(a: seq<T>, b: seq<T>) returns (trace: seq<seq<int>>, dFound: int)
    requires 0 < |a| + |b|
    ensures 0 <= dFound <= |a| + |b| && dFound == Dist(a, b, |a|, |b|)
    ensures |trace| == dFound + 2
    ensures forall d | 0 <= d <= dFound :: Row(a, b, d - 1, trace[d])
    ensures OnDiagonals(dFound, |a| - |b|) && Furthest(a, b, dFound, |a|, |b|)
  {
    var max := |a| + |b|;
    var v := new int[2 * max + 1](_ => 0);
    trace := [];
    dFound := -1;
    var d := 0;
    while d <= max
      invariant 0 <= d <= max + 1
      invariant Row(a, b, d - 1, v[..]) && d <= Dist(a, b, |a|, |b|)
      invariant |trace| == d && forall e | 0 <= e < d :: Row(a, b, e - 1, trace[e])
    {
      trace := trace + [v[..]];
      var next, found := Round(a, b, v, d);
      v := next;
      if found {
        trace := trace + [v[..]];
        return trace, d;
      }
      d := d + 1;
    }
    Bounds(a, b, |a|, |b|);
    assert false;
  }

  // ----- backtracking

  function Reversed<T>(s: seq<T>): seq<T> {
    if s == [] then [] else [s[|s| - 1]] + Reversed(s[..|s| - 1])
  }

  /** The steps collected so far, last first, are a script of that cost for everything from (x, y) on. */
  ghost predicate Explains<T>(a: seq<T>, b: seq<T>, x: int, y: int, steps: seq<Op<T>>, cost: int) {
    && 0 <= x <= |a| && 0 <= y <= |b|
    && IsScript(Reversed(steps), a[x..], b[y..]) && Cost(Reversed(steps)) == cost
  }

  lemma PushReversed<T>(steps: seq<Op<T>>, op: Op<T>)
    ensures Reversed(steps + [op]) == [op] + Reversed(steps)
    ensures Source([op] + Reversed(steps)) == Source([op]) + Source(Reversed(steps))
    ensures Target([op] + Reversed(steps)) == Target([op]) + Target(Reversed(steps))
    ensures Cost([op] + Reversed(steps)) == Cost([op]) + Cost(Reversed(steps))
  {
    assert (steps + [op])[..|steps|] == steps;
    Concat([op], Reversed(steps));
  }

  lemma PushKeep<T>(a: seq<T>, b: seq<T>, x: int, y: int, steps: seq<Op<T>>, cost: int)
    requires Explains(a, b, x, y, steps, cost) && 0 < x && 0 < y && a[x - 1] == b[y - 1]
    ensures Explains(a, b, x - 1, y - 1, steps + [Op(Keep, a[x - 1])], cost)
  {
    PushReversed(steps, Op(Keep, a[x - 1]));
    assert a[x - 1..] == [a[x - 1]] + a[x..] && b[y - 1..] == [b[y - 1]] + b[y..];
  }

  lemma PushDelete<T>(a: seq<T>, b: seq<T>, x: int, y: int, steps: seq<Op<T>>, cost: int)
    requires Explains(a, b, x, y, steps, cost) && 0 < x
    ensures Explains(a, b, x - 1, y, steps + [Op(Delete, a[x - 1])], cost + 1)
  {
    PushReversed(steps, Op(Delete, a[x - 1]));
    assert a[x - 1..] == [a[x - 1]] + a[x..];
  }

  lemma PushInsert<T>(a: seq<T>, b: seq<T>, x: int, y: int, steps: seq<Op<T>>, cost: int)
    requires Explains(a, b, x, y, steps, cost) && 0 < y
    ensures Explains(a, b, x, y - 1, steps + [Op(Insert, b[y - 1])], cost + 1)
  {
    PushReversed(steps, Op(Insert, b[y - 1]));
    assert b[y - 1..] == [b[y - 1]] + b[y..];
  }

  /** The diagonal of the previous round from which diagonal k was entered. */
  function FromDiagonal(prev: seq<int>, max: int, d: int, k: int): int
    requires |prev| == 2 * max + 1 && 0 < d <= max && -d <= k <= d
  {
    if EntersDown(prev, max, d, k) then k + 1 else k - 1
  }

  /** Column far of diagonal k is reached from the previous row by one move and then matching lines only. */
  ghost predicate StepsBack<T>(a: seq<T>, b: seq<T>, prev: seq<int>, d: int, k: int, far: int) {
    var max := |a| + |b|;
    && 0 < d <= max && |prev| == 2 * max + 1 && -d <= k <= d
    && var prevK := FromDiagonal(prev, max, d, k);
    && var entry := EntryColumn(prev, max, d, k);
    && 0 <= prev[max + prevK] && 0 <= prev[max + prevK] - prevK
    && entry <= far <= |a| && far - k <= |b|
    && forall z {:trigger a[z]} | entry <= z < far :: a[z] == b[z - k]
  }

  lemma RowStepsBack<T>(a: seq<T>, b: seq<T>, prev: seq<int>, d: int, x: int, y: int)
    requires 0 < d <= |a| + |b| && Row(a, b, d - 1, prev) && OnDiagonals(d, x - y)
    requires Furthest(a, b, d, x, y) && x <= |a| && y <= |b|
    ensures StepsBack(a, b, prev, d, x - y, x)
    ensures var prevK := FromDiagonal(prev, |a| + |b|, d, x - y);
            var prevX := prev[|a| + |b| + prevK];
            OnDiagonals(d - 1, prevK) && Furthest(a, b, d - 1, prevX, prevX - prevK)
  {
    var k := x - y;
    assert OnDiagonals(d - 1, FromDiagonal(prev, |a| + |b|, d, k));
    var entry := EntryColumn(prev, |a| + |b|, d, k);
    EntryIsReached(a, b, prev, d, entry, entry - k);
    assert |prev| == 2 * (|a| + |b|) + 1;
    hide Dist, Row;
    if x < entry {
      BeyondFurthest(a, b, d, x, y, entry, entry - k);
    }
    forall z {:trigger a[z]} | entry <= z < x
      ensures a[z] == b[z - k]
    {
      MatchedBefore(a, b, prev, d, x, y, z);
    }
  }

  lemma MatchedBefore<T>(a: seq<T>, b: seq<T>, prev: seq<int>, d: int, x: int, y: int, z: int)
    requires 0 < d <= |a| + |b| && |prev| == 2 * (|a| + |b|) + 1 && Row(a, b, d - 1, prev) && OnDiagonals(d, x - y)
    requires Furthest(a, b, d, x, y) && x <= |a| && y <= |b|
    requires EntryColumn(prev, |a| + |b|, d, x - y) <= z < x && 0 <= z && 0 <= z - (x - y)
    ensures a[z] == b[z - (x - y)]
  {
    hide Dist, Row, EntryColumn;
    var w := z - (x - y);
    if !Match(a, b, z, w) {
      OnlyMatchesAdvance(a, b, prev, d, z, w);
      DiagonalMonotone(a, b, z + 1, w + 1, x - (z + 1));
    }
  }

  /** One round of backtracking: down the matching lines to the entry, then over the insertion or deletion. */
  method BacktrackRound<T(==)>(a: seq<T>, b: seq<T>, prev: seq<int>, d: int, x0: int, y0: int, ops0: seq<Op<T>>, ghost cost: int)
    returns (x: int, y: int, ops: seq<Op<T>>)
    requires StepsBack(a, b, prev, d, x0 - y0, x0) && Explains(a, b, x0, y0, ops0, cost)
    ensures x - y == FromDiagonal(prev, |a| + |b|, d, x0 - y0) && x == prev[|a| + |b| + (x - y)]
    ensures Explains(a, b, x, y, ops, cost + 1)
  {
    hide Explains, Dist;
    var max := |a| + |b|;
    x, y, ops := x0, y0, ops0;
    var k := x - y;
    var prevK := k - 1;
    if k == -d || (k != d && prev[max + k - 1] < prev[max + k + 1]) {
      prevK := k + 1;
    }
    var prevX := prev[max + prevK];
    var prevY := prevX - prevK;
    while x > prevX && y > prevY
      invariant EntryColumn(prev, max, d, k) <= x <= x0 && x - y == k
      invariant Explains(a, b, x, y, ops, cost)
    {
      PushKeep(a, b, x, y, ops, cost);
      ops := ops + [Op(Keep, a[x - 1])];
      x, y := x - 1, y - 1;
    }
    if x == prevX {
      PushInsert(a, b, x, y, ops, cost);
      ops := ops + [Op(Insert, b[y - 1])];
      y := y - 1;
    } else {
      PushDelete(a, b, x, y, ops, cost);
      ops := ops + [Op(Delete, a[x - 1])];
      x := x - 1;
    }
  }

  /** At distance 0 the two sides agree line by line. */
  method FollowMatches<T(==)>(a: seq<T>, b: seq<T>, x0: int, y0: int, ops0: seq<Op<T>>, ghost cost: int)
    returns (x: int, y: int, ops: seq<Op<T>>)
    requires Explains(a, b, x0, y0, ops0, cost) && Dist(a, b, x0, y0) == 0
    ensures x == y == 0 && Explains(a, b, x, y, ops, cost)
  {
    x, y, ops := x0, y0, ops0;
    while x > 0 && y > 0
      invariant Explains(a, b, x, y, ops, cost)
      invariant Dist(a, b, x, y) == 0
    {
      PushKeep(a, b, x, y, ops, cost);
      ops := ops + [Op(Keep, a[x - 1])];
      x, y := x - 1, y - 1;
    }
  }

  /** The two closing loops: whatever is left on one side is deleted or inserted. */
  method Drain<T(==)>(a: seq<T>, b: seq<T>, x0: int, y0: int, ops0: seq<Op<T>>, ghost cost: int) returns (ops: seq<Op<T>>)
    requires Explains(a, b, x0, y0, ops0, cost)
    ensures Explains(a, b, 0, 0, ops, cost + x0 + y0)
  {
    var x, y := x0, y0;
    ops := ops0;
    while x > 0
      invariant y == y0 && Explains(a, b, x, y, ops, cost + x0 - x)
    {
      PushDelete(a, b, x, y, ops, cost + x0 - x);
      ops := ops + [Op(Delete, a[x - 1])];
      x := x - 1;
    }
    while y > 0
      invariant Explains(a, b, 0, y, ops, cost + x0 + y0 - y)
    {
      PushInsert(a, b, 0, y, ops, cost + x0 + y0 - y);
      ops := ops + [Op(Insert, b[y - 1])];
      y := y - 1;
    }
  }

  method Backtrack<T(==)>(a: seq<T>, b: seq<T>, trace: seq<seq<int>>, dFound: int) returns (ops: seq<Op<T>>)
    requires 0 < |a| + |b| && 0 <= dFound <= |a| + |b| && dFound < |trace|
    requires forall d | 0 <= d <= dFound :: Row(a, b, d - 1, trace[d])
    requires OnDiagonals(dFound, |a| - |b|) && Furthest(a, b, dFound, |a|, |b|)
    ensures IsScript(ops, a, b) && Cost(ops) == dFound
  {
    ops := [];
    var x, y := |a|, |b|;
    var d := dFound;
    while d > 0
      invariant 0 <= d <= dFound
      invariant Explains(a, b, x, y, ops, dFound - d)
      invariant OnDiagonals(d, x - y) && Furthest(a, b, d, x, y)
    {
      RowStepsBack(a, b, trace[d], d, x, y);
      x, y, ops := BacktrackRound(a, b, trace[d], d, x, y, ops, dFound - d);
      d := d - 1;
    }
    x, y, ops := FollowMatches(a, b, x, y, ops, dFound);
    ops := Drain(a, b, x, y, ops, dFound);
    ops := Reversed(ops);
    assert a[0..] == a && b[0..] == b;
  }

  function ReplaceAll<T>(a: seq<T>, b: seq<T>): (ops: seq<Op<T>>) {
    seq(|a|, i requires 0 <= i < |a| => Op(Delete, a[i])) + seq(|b|, i requires 0 <= i < |b| => Op(Insert, b[i]))
  }

  /** The result turns a into b, and no script that does costs less. */
  method MyersDiff<T(==)>(a: seq<T>, b: seq<T>) returns (ops: seq<Op<T>>)
    ensures IsScript(ops, a, b)
    ensures Cost(ops) == Dist(a, b, |a|, |b|)
    ensures forall other | IsScript(other, a, b) :: Cost(ops) <= Cost(other)
  {
    if |a| + |b| == 0 {
      ops := [];
    } else {
      var trace, dFound := Search(a, b);
      if dFound < 0 {
        ops := ReplaceAll(a, b);
      } else {
        ops := Backtrack(a, b, trace, dFound);
      }
    }
    forall other | IsScript(other, a, b)
      ensures Cost(ops) <= Cost(other)
    {
      assert a[..|a|] == a && b[..|b|] == b;
      DistIsLowerBound(a, b, other, |a|, |b|);
    }
  }
}
