// Edit scripts between two line sequences, and the distance they are measured by.
module EditScript {

  datatype Tag = Keep | Delete | Insert

  datatype Op<+T> = Op(tag: Tag, line: T)

  /** The lines a script consumes. */
  function Source<T>(ops: seq<Op<T>>): seq<T> {
    if ops == [] then []
    else (if ops[0].tag.Insert? then [] else [ops[0].line]) + Source(ops[1..])
  }

  /** The lines a script produces. */
  function Target<T>(ops: seq<Op<T>>): seq<T> {
    if ops == [] then []
    else (if ops[0].tag.Delete? then [] else [ops[0].line]) + Target(ops[1..])
  }

  /** Insertions plus deletions. */
  function Cost<T>(ops: seq<Op<T>>): nat {
    if ops == [] then 0
    else (if ops[0].tag.Keep? then 0 else 1) + Cost(ops[1..])
  }

  ghost predicate IsScript<T>(ops: seq<Op<T>>, a: seq<T>, b: seq<T>) {
    Source(ops) == a && Target(ops) == b
  }

  lemma {:induction false} SourceConcat<T>(p: seq<Op<T>>, q: seq<Op<T>>)
    ensures Source(p + q) == Source(p) + Source(q)
  {
    if p == [] {
      assert p + q == q;
    } else {
      assert (p + q)[0] == p[0] && (p + q)[1..] == p[1..] + q;
      SourceConcat(p[1..], q);
    }
  }

  lemma {:induction false} TargetConcat<T>(p: seq<Op<T>>, q: seq<Op<T>>)
    ensures Target(p + q) == Target(p) + Target(q)
  {
    if p == [] {
      assert p + q == q;
    } else {
      assert (p + q)[0] == p[0] && (p + q)[1..] == p[1..] + q;
      TargetConcat(p[1..], q);
    }
  }

  lemma {:induction false} CostConcat<T>(p: seq<Op<T>>, q: seq<Op<T>>)
    ensures Cost(p + q) == Cost(p) + Cost(q)
  {
    if p == [] {
      assert p + q == q;
    } else {
      assert (p + q)[0] == p[0] && (p + q)[1..] == p[1..] + q;
      CostConcat(p[1..], q);
    }
  }

  lemma Concat<T>(p: seq<Op<T>>, q: seq<Op<T>>)
    ensures Source(p + q) == Source(p) + Source(q)
    ensures Target(p + q) == Target(p) + Target(q)
    ensures Cost(p + q) == Cost(p) + Cost(q)
  {
    SourceConcat(p, q);
    TargetConcat(p, q);
    CostConcat(p, q);
  }

  lemma Concat3<T>(p: seq<Op<T>>, q: seq<Op<T>>, r: seq<Op<T>>)
    ensures Source(p + q + r) == Source(p) + Source(q) + Source(r)
    ensures Target(p + q + r) == Target(p) + Target(q) + Target(r)
  {
    Concat(p + q, r);
    Concat(p, q);
  }

  /** A script of kept lines only changes nothing. */
  lemma {:induction false} AllKept<T>(ops: seq<Op<T>>)
    requires forall i | 0 <= i < |ops| :: ops[i].tag.Keep?
    ensures Source(ops) == Target(ops) && |Source(ops)| == |ops|
  {
    if ops != [] {
      AllKept(ops[1..]);
    }
  }

  // ----- distance on the edit graph, continued past the borders of the grid

  ghost predicate Match<T>(a: seq<T>, b: seq<T>, x: nat, y: nat) {
    x < |a| && y < |b| && a[x] == b[y]
  }

  ghost function Min(x: int, y: int): int {
    if x < y then x else y
  }

  /** Fewest right and down moves from (0, 0) to (x, y); diagonals exist only where lines match. */
  ghost function Dist<T>(a: seq<T>, b: seq<T>, x: nat, y: nat): nat {
    if x == 0 then y
    else if y == 0 then x
    else if Match(a, b, x - 1, y - 1) then Dist(a, b, x - 1, y - 1)
    else 1 + Min(Dist(a, b, x - 1, y), Dist(a, b, x, y - 1))
  }

  lemma {:induction false} RightStep<T>(a: seq<T>, b: seq<T>, x: nat, y: nat)
    ensures Dist(a, b, x + 1, y) == Dist(a, b, x, y) + 1 || Dist(a, b, x + 1, y) == Dist(a, b, x, y) - 1
    decreases x + y, 0
  {
    if y > 0 {
      DownStep(a, b, x, y - 1);
      RightStep(a, b, x, y - 1);
    }
  }

  lemma {:induction false} DownStep<T>(a: seq<T>, b: seq<T>, x: nat, y: nat)
    ensures Dist(a, b, x, y + 1) == Dist(a, b, x, y) + 1 || Dist(a, b, x, y + 1) == Dist(a, b, x, y) - 1
    decreases x + y, 0
  {
    if x > 0 {
      RightStep(a, b, x - 1, y);
      DownStep(a, b, x - 1, y);
    }
  }

  lemma DiagonalStep<T>(a: seq<T>, b: seq<T>, x: nat, y: nat)
    ensures Dist(a, b, x, y) <= Dist(a, b, x + 1, y + 1)
  {
    RightStep(a, b, x, y);
    DownStep(a, b, x, y);
  }

  lemma {:induction false} DiagonalMonotone<T>(a: seq<T>, b: seq<T>, x: nat, y: nat, i: nat)
    ensures Dist(a, b, x, y) <= Dist(a, b, x + i, y + i)
    decreases i
  {
    if i > 0 {
      DiagonalMonotone(a, b, x, y, i - 1);
      DiagonalStep(a, b, x + i - 1, y + i - 1);
    }
  }

  lemma DistStep<T>(a: seq<T>, b: seq<T>, x: nat, y: nat)
    ensures x == 0 || y == 0 ==> Dist(a, b, x, y) == x + y
    ensures 0 < x && 0 < y ==>
              || Dist(a, b, x, y) == Dist(a, b, x - 1, y - 1)
              || Dist(a, b, x, y) == 1 + Dist(a, b, x - 1, y)
              || Dist(a, b, x, y) == 1 + Dist(a, b, x, y - 1)
  {
    hide Match;
  }

  lemma {:induction false} Bounds<T>(a: seq<T>, b: seq<T>, x: nat, y: nat)
    ensures x - y <= Dist(a, b, x, y) <= x + y
    ensures y - x <= Dist(a, b, x, y)
    ensures (Dist(a, b, x, y) - (x - y)) % 2 == 0
    decreases x + y
  {
    hide Dist;
    DistStep(a, b, x, y);
    if x > 0 && y > 0 {
      Bounds(a, b, x - 1, y - 1);
      Bounds(a, b, x - 1, y);
      Bounds(a, b, x, y - 1);
    }
  }

  lemma {:induction false} PastRight<T>(a: seq<T>, b: seq<T>, x: nat, y: nat)
    requires |a| <= x
    ensures Dist(a, b, x, y) == Dist(a, b, |a|, y) + (x - |a|)
    decreases x + y
  {
    if |a| < x && y > 0 {
      PastRight(a, b, x - 1, y);
      PastRight(a, b, x, y - 1);
      DownStep(a, b, |a|, y - 1);
    }
  }

  lemma {:induction false} PastBottom<T>(a: seq<T>, b: seq<T>, x: nat, y: nat)
    requires |b| <= y
    ensures Dist(a, b, x, y) == Dist(a, b, x, |b|) + (y - |b|)
    decreases x + y
  {
    if |b| < y && x > 0 {
      PastBottom(a, b, x - 1, y);
      PastBottom(a, b, x, y - 1);
      RightStep(a, b, x - 1, |b|);
    }
  }

  /** Every script from a to b costs at least the distance of the far corner. */
  lemma {:induction false} DistIsLowerBound<T>(a: seq<T>, b: seq<T>, ops: seq<Op<T>>, x: nat, y: nat)
    requires x <= |a| && y <= |b|
    requires IsScript(ops, a[..x], b[..y])
    ensures Dist(a, b, x, y) <= Cost(ops)
    decreases |ops|
  {
    if ops != [] {
      var init, last := ops[..|ops| - 1], ops[|ops| - 1];
      assert ops == init + [last];
      Concat(init, [last]);
      match last.tag
      case Keep =>
        assert Source(init) == a[..x - 1] && Target(init) == b[..y - 1];
        assert a[x - 1] == a[..x][x - 1] == last.line == b[..y][y - 1] == b[y - 1];
        DistIsLowerBound(a, b, init, x - 1, y - 1);
      case Delete =>
        assert Source(init) == a[..x - 1];
        DistIsLowerBound(a, b, init, x - 1, y);
        RightStep(a, b, x - 1, y);
      case Insert =>
        assert Target(init) == b[..y - 1];
        DistIsLowerBound(a, b, init, x, y - 1);
        DownStep(a, b, x, y - 1);
    }
  }
}
