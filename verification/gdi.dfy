/**
 * The line rasterizer: the all-octant integer Bresenham algorithm. It emits
 * the grid points from start to end, both included, each carrying start.z.
 */
module Gdi {
  import opened Vectors

  /** A real with no fractional part. */
  predicate Integral(r: real) {
    r.Floor as real == r
  }

  /** `r as i64`: truncation toward zero (saturation at the i64 range is not modelled). */
  function Trunc(r: real): int {
    if r >= 0.0 then r.Floor else -((-r).Floor)
  }

  function RealAbs(r: real): real {
    if r < 0.0 then -r else r
  }

  function Max(a: int, b: int): int {
    if a < b then b else a
  }

  function RealMax(a: real, b: real): real {
    if a < b then b else a
  }

  /** The step direction `line` picks: +1 towards a larger end, otherwise -1 (also when equal). */
  function Step(from: real, to: real): int {
    if from < to then 1 else -1
  }

  /** v lies between p and q, whichever of them is the larger. */
  predicate Between(v: real, p: real, q: real) {
    (p <= v <= q) || (q <= v <= p)
  }

  /**
   * q is one grid move from p: each coordinate either stays or moves by its
   * step towards the end, and at least one of them moves.
   */
  predicate GridMove(p: Vec3, q: Vec3, sx: int, sy: int) {
    && (q.x == p.x || q.x == p.x + sx as real)
    && (q.y == p.y || q.y == p.y + sy as real)
    && (q.x != p.x || q.y != p.y)
  }

  lemma TruncIntegral(r: real)
    requires Integral(r)
    ensures Trunc(r) as real == r
  {
    var n := r.Floor;
    if r < 0.0 {
      assert -r == (-n) as real;
      assert (-r).Floor == -n;
    }
  }

  /** The distance between two integral coordinates is integral, and so is its negation. */
  lemma IntegralDistance(s: real, e: real)
    requires Integral(s) && Integral(e)
    ensures Integral(RealAbs(e - s)) && Integral(-RealAbs(e - s))
  {
    var n: int := e.Floor - s.Floor;
    assert e - s == n as real;
    var m: int := if n < 0 then -n else n;
    assert RealAbs(e - s) == m as real;
    assert -RealAbs(e - s) == (-m) as real;
    assert ((-m) as real).Floor == -m;
  }

  /** `r as i64` for an integral r: the integer with the same value. */
  method AsI64(r: real) returns (n: int)
    requires Integral(r)
    ensures n as real == r
  {
    n := Trunc(r);
    TruncIntegral(r);
  }

  /**
   * p * q as repeated addition. The loop's distance term is built from it, so
   * that its proof obligations stay linear; TimesIsProduct links it to `*`.
   */
  function Times(p: nat, q: int): int {
    if p == 0 then 0 else Times(p - 1, q) + q
  }

  lemma {:induction false} TimesIsProduct(p: nat, q: int)
    ensures Times(p, q) == p * q
  {
    if p > 0 {
      TimesIsProduct(p - 1, q);
    }
  }

  /** Unit steps: k steps of +1 or -1 add up to k or -k. */
  lemma {:induction false} TimesUnit(k: nat, s: int)
    requires s == 1 || s == -1
    ensures Times(k, s) == if s == 1 then k else -(k as int)
  {
    if k > 0 {
      TimesUnit(k - 1, s);
    }
  }

  /** The scaled signed distance of the point a steps along x, b along y from the ideal line. */
  function Dist(dx: int, dY: int, a: nat, b: nat): int {
    Times(b, dx) - Times(a, dY)
  }

  function Abs(n: int): nat {
    if n < 0 then -n else n
  }

  /**
   * The loop's distance bound after a steps along x and b along y: along the
   * minor axis the cursor is the cell nearest the ideal line, a tie between
   * two cells going to the one further from the start. For an x-major line
   * that is -dx < 2 * Dist <= dx, for a y-major one -dY <= 2 * Dist < dY.
   */
  predicate Balanced(dx: int, dY: int, a: nat, b: nat) {
    if dx >= dY then dx == 0 || -dx < 2 * Dist(dx, dY, a, b) <= dx
    else -dY <= 2 * Dist(dx, dY, a, b) < dY
  }

  /** A natural number times a nonpositive number is nonpositive. */
  lemma {:induction false} MulNonPositive(p: nat, q: int)
    requires q <= 0
    ensures p * q <= 0
  {
    if p > 0 {
      MulNonPositive(p - 1, q);
      assert p * q == (p - 1) * q + q;
    }
  }

  /** Once x has reached the end while y has not, the x step is never taken. */
  lemma NoStepPastEndX(dx: nat, dY: int, b: nat)
    requires b < dY
    ensures 2 * Dist(dx, dY, dx, b) < dY - 2 * dx
  {
    TimesIsProduct(b, dx);
    TimesIsProduct(dx, dY);
    MulNonPositive(dx, b - dY + 1);
    assert dx * (b - dY + 1) == dx * b - dY * dx + dx;
  }

  /** Once y has reached the end while x has not, the y step is never taken. */
  lemma NoStepPastEndY(dx: int, dY: nat, a: nat)
    requires a < dx
    ensures 2 * Dist(dx, dY, a, dY) > 2 * dY - dx
  {
    TimesIsProduct(dY, dx);
    TimesIsProduct(a, dY);
    MulNonPositive(dY, a - dx + 1);
    assert dY * (a - dx + 1) == dY * a - dx * dY + dY;
  }

  /**
   * n is the whole number nearest to m * minor / major, a half rounded up:
   * -1/2 < n - m * minor / major <= 1/2, with major > 0.
   */
  predicate RoundsTo(n: real, m: real, minor: real, major: real) {
    -major < 2.0 * (n * major - m * minor) <= major
  }

  /**
   * p is the grid cell nearest the ideal line from start to end: its offset
   * from start along the minor axis is its offset along the major axis scaled
   * by the slope and rounded to the nearest whole number, halves up (away
   * from start). The x axis is major when the x distance is at least the y
   * distance.
   */
  predicate NearLine(p: Vec3, start: Vec3, end: Vec3) {
    var dx, dy := RealAbs(end.x - start.x), RealAbs(end.y - start.y);
    var a, b := RealAbs(p.x - start.x), RealAbs(p.y - start.y);
    if dx >= dy then dx == 0.0 || RoundsTo(b, a, dy, dx) else RoundsTo(a, b, dx, dy)
  }

  /** p is a grid point of the line's bounding box carrying start.z, nearest the ideal line. */
  predicate OnLine(p: Vec3, start: Vec3, end: Vec3) {
    && p.z == start.z
    && Integral(p.x) && Integral(p.y)
    && Between(p.x, start.x, end.x) && Between(p.y, start.y, end.y)
    && NearLine(p, start, end)
  }

  /** A cursor position of the loop: an (x, y) pair of i64 values. */
  type Cell = (int, int)

  /** The point pushed for a cursor: `Vec3::new(x as f64, y as f64, z)`. */
  function Point(c: Cell, z: real): Vec3 {
    Vec3(c.0 as real, c.1 as real, z)
  }

  /** The points pushed for a sequence of cursors, in order. */
  function Render(cells: seq<Cell>, z: real): (r: seq<Vec3>)
    ensures |r| == |cells|
    decreases |cells|
  {
    if cells == [] then [] else Render(cells[..|cells| - 1], z) + [Point(cells[|cells| - 1], z)]
  }

  lemma RenderSnoc(cells: seq<Cell>, c: Cell, z: real)
    ensures Render(cells + [c], z) == Render(cells, z) + [Point(c, z)]
  {
    assert (cells + [c])[..|cells|] == cells;
  }

  lemma {:induction false} RenderAt(cells: seq<Cell>, z: real)
    ensures forall k :: 0 <= k < |cells| ==> Render(cells, z)[k] == Point(cells[k], z)
    decreases |cells|
  {
    if cells != [] {
      RenderAt(cells[..|cells| - 1], z);
    }
  }

  /** c lies in the box with corners (x0, y0) and (x1, y1). */
  predicate InBox(c: Cell, x0: int, y0: int, x1: int, y1: int) {
    (x0 <= c.0 <= x1 || x1 <= c.0 <= x0) && (y0 <= c.1 <= y1 || y1 <= c.1 <= y0)
  }

  /** c is the cell nearest the ideal line from (x0, y0) to (x1, y1), as Balanced on its step counts. */
  predicate Nearest(c: Cell, x0: int, y0: int, x1: int, y1: int) {
    Balanced(Abs(x1 - x0), Abs(y1 - y0), Abs(c.0 - x0), Abs(c.1 - y0))
  }

  /** GridMove on cursors. */
  predicate Move(p: Cell, q: Cell, sx: int, sy: int) {
    && (q.0 == p.0 || q.0 == p.0 + sx)
    && (q.1 == p.1 || q.1 == p.1 + sy)
    && q != p
  }

  /**
   * Every cursor lies in the box and is the cell nearest the ideal line, and
   * consecutive cursors are one move apart; stated cursor by cursor from the
   * last one back.
   */
  ghost predicate Walk(cells: seq<Cell>, x0: int, y0: int, x1: int, y1: int, sx: int, sy: int)
    decreases |cells|
  {
    cells == [] ||
    var n := |cells|;
    && Walk(cells[..n - 1], x0, y0, x1, y1, sx, sy)
    && InBox(cells[n - 1], x0, y0, x1, y1)
    && Nearest(cells[n - 1], x0, y0, x1, y1)
    && (n > 1 ==> Move(cells[n - 2], cells[n - 1], sx, sy))
  }

  lemma WalkExtend(cells: seq<Cell>, c: Cell, x0: int, y0: int, x1: int, y1: int, sx: int, sy: int)
    requires Walk(cells, x0, y0, x1, y1, sx, sy) && InBox(c, x0, y0, x1, y1) && Nearest(c, x0, y0, x1, y1)
    requires cells != [] ==> Move(cells[|cells| - 1], c, sx, sy)
    ensures Walk(cells + [c], x0, y0, x1, y1, sx, sy)
  {
    assert (cells + [c])[..|cells|] == cells;
  }

  /** A walk, read cursor by cursor. */
  lemma {:induction false} WalkCells(cells: seq<Cell>, x0: int, y0: int, x1: int, y1: int, sx: int, sy: int)
    requires Walk(cells, x0, y0, x1, y1, sx, sy)
    ensures forall k :: 0 <= k < |cells| ==> InBox(cells[k], x0, y0, x1, y1) && Nearest(cells[k], x0, y0, x1, y1)
    ensures forall k :: 0 <= k < |cells| - 1 ==> Move(cells[k], cells[k + 1], sx, sy)
    decreases |cells|
  {
    if cells != [] {
      WalkCells(cells[..|cells| - 1], x0, y0, x1, y1, sx, sy);
    }
  }

  /**
   * One iteration of the loop, on the step counts alone: with error term
   * dx - dY + Dist, the x step is taken when twice the error is at least -dY
   * and the y step when it is at most dx. At least one step is taken, neither
   * axis passes its end, the major axis always steps, and the distance bound
   * holds again afterwards.
   */
  lemma StepKeepsInvariant(dx: int, dY: int, a: nat, b: nat, stepX: bool, stepY: bool)
    requires a <= dx && b <= dY && (a < dx || b < dY)
    requires Balanced(dx, dY, a, b)
    requires stepX == (2 * (dx - dY + Dist(dx, dY, a, b)) >= -dY)
    requires stepY == (2 * (dx - dY + Dist(dx, dY, a, b)) <= dx)
    ensures stepX || stepY
    ensures dx >= dY ==> stepX
    ensures dx < dY ==> stepY
    ensures stepX && stepY ==>
      && a < dx && b < dY
      && Dist(dx, dY, a + 1, b + 1) == Dist(dx, dY, a, b) + dx - dY
      && Balanced(dx, dY, a + 1, b + 1)
    ensures stepX && !stepY ==>
      && a < dx
      && Dist(dx, dY, a + 1, b) == Dist(dx, dY, a, b) - dY
      && Balanced(dx, dY, a + 1, b)
    ensures !stepX && stepY ==>
      && b < dY
      && Dist(dx, dY, a, b + 1) == Dist(dx, dY, a, b) + dx
      && Balanced(dx, dY, a, b + 1)
  {
    if a == dx {
      NoStepPastEndX(dx, dY, b);
    }
    if b == dY {
      NoStepPastEndY(dx, dY, a);
    }
    assert Times(a + 1, dY) == Times(a, dY) + dY;
    assert Times(b + 1, dx) == Times(b, dx) + dx;
  }

  /** k steps of s from x0, with s = +1 or -1, stay between x0 and n steps of s from x0, for k <= n. */
  lemma {:induction false} WithinSteps(x0: int, s: int, k: nat, n: nat)
    requires s == 1 || s == -1
    requires k <= n
    ensures (x0 <= x0 + Times(k, s) <= x0 + Times(n, s)) || (x0 + Times(n, s) <= x0 + Times(k, s) <= x0)
  {
    TimesUnit(k, s);
    TimesUnit(n, s);
  }

  /** Different step counts of a unit step end at different places. */
  lemma StepsDistinct(s: int, k: nat, n: nat)
    requires s == 1 || s == -1
    ensures Times(k, s) == Times(n, s) ==> k == n
  {
    TimesUnit(k, s);
    TimesUnit(n, s);
  }

  /**
   * One coordinate's step: a cursor c that is k unit steps s from c0, with
   * k <= n, moves by s (and k by one) when it steps, and stays otherwise; it
   * remains between c0 and n steps from c0.
   */
  lemma CoordStep(c0: int, s: int, n: nat, k: nat, c: int, step: bool, k': nat, c': int)
    requires s == 1 || s == -1
    requires k <= n && c == c0 + Times(k, s)
    requires step ==> k < n && c' == c + s && k' == k + 1
    requires !step ==> c' == c && k' == k
    ensures k' <= n && c' == c0 + Times(k', s)
    ensures (c0 <= c' <= c0 + Times(n, s)) || (c0 + Times(n, s) <= c' <= c0)
  {
    if step {
      assert Times(k + 1, s) == Times(k, s) + s;
    }
    WithinSteps(c0, s, k', n);
  }

  /**
   * The arithmetic state of the loop after a steps along x and b along y: the
   * cursor has moved a cells from x0 and b cells from y0 in the step
   * directions and lies in the line's box, the error term is dx - dY + Dist,
   * and twice the distance stays within max(dx, dY).
   */
  ghost predicate Tracking(dx: int, dY: int, sx: int, sy: int, x0: int, y0: int, x1: int, y1: int,
                           x: int, y: int, err: int, a: nat, b: nat)
  {
    && a <= dx && b <= dY
    && x == x0 + Times(a, sx) && y == y0 + Times(b, sy)
    && InBox((x, y), x0, y0, x1, y1)
    && err == dx - dY + Dist(dx, dY, a, b)
    && Balanced(dx, dY, a, b)
  }

  /**
   * The error term's side of one iteration: the step counts advance as the
   * two tests decide, at least one of them and always the major axis, and the
   * error term stays dx - dY + Dist within its bound.
   */
  lemma ErrorStep(dx: int, dY: int, a: nat, b: nat, err: int, stepX: bool, stepY: bool, a': nat, b': nat, err': int)
    requires a <= dx && b <= dY && (a < dx || b < dY)
    requires err == dx - dY + Dist(dx, dY, a, b)
    requires Balanced(dx, dY, a, b)
    requires stepX == (2 * err >= -dY) && stepY == (2 * err <= dx)
    requires a' == (if stepX then a + 1 else a) && b' == (if stepY then b + 1 else b)
    requires err' == err + (if stepX then -dY else 0) + (if stepY then dx else 0)
    ensures a' <= dx && b' <= dY && a' + b' > a + b
    ensures (dx >= dY ==> a' == a + 1) && (dx < dY ==> b' == b + 1)
    ensures err' == dx - dY + Dist(dx, dY, a', b')
    ensures Balanced(dx, dY, a', b')
  {
    StepKeepsInvariant(dx, dY, a, b, stepX, stepY);
    if stepX && stepY {
      assert a' == a + 1 && b' == b + 1 && err' == err - dY + dx;
    } else if stepX {
      assert a' == a + 1 && b' == b && err' == err - dY;
    } else {
      assert a' == a && b' == b + 1 && err' == err + dx;
    }
  }

  /**
   * One iteration of the loop short of the end cell: with e2 = 2 * err, x steps
   * when e2 >= dy (dy being -dY) and y steps when e2 <= dx. At least one of
   * them steps, the major axis always does, and the state is tracked again.
   */
  lemma Advance(dx: int, dY: int, sx: int, sy: int, x0: int, y0: int, x1: int, y1: int,
                x: int, y: int, err: int, a: nat, b: nat,
                x': int, y': int, err': int, a': nat, b': nat)
    requires Tracking(dx, dY, sx, sy, x0, y0, x1, y1, x, y, err, a, b)
    requires (sx == 1 || sx == -1) && (sy == 1 || sy == -1)
    requires x1 == x0 + Times(dx, sx) && y1 == y0 + Times(dY, sy)
    requires x != x1 || y != y1
    requires 2 * err >= -dY ==> x' == x + sx && a' == a + 1
    requires 2 * err < -dY ==> x' == x && a' == a
    requires 2 * err <= dx ==> y' == y + sy && b' == b + 1
    requires 2 * err > dx ==> y' == y && b' == b
    requires err' == err + (if 2 * err >= -dY then -dY else 0) + (if 2 * err <= dx then dx else 0)
    ensures a' + b' > a + b
    ensures (dx >= dY ==> a' == a + 1) && (dx < dY ==> b' == b + 1)
    ensures Move((x, y), (x', y'), sx, sy)
    ensures Tracking(dx, dY, sx, sy, x0, y0, x1, y1, x', y', err', a', b')
  {
    var stepX, stepY := 2 * err >= -dY, 2 * err <= dx;
    ErrorStep(dx, dY, a, b, err, stepX, stepY, a', b', err');
    CoordStep(x0, sx, dx, a, x, stepX, a', x');
    CoordStep(y0, sy, dY, b, y, stepY, b', y');
  }

  /** A cursor a unit steps along x and b along y from the start, with its steps Balanced, is the nearest cell. */
  lemma StepsNearest(dx: nat, dY: nat, sx: int, sy: int, x0: int, y0: int, x1: int, y1: int,
                     x: int, y: int, a: nat, b: nat)
    requires (sx == 1 || sx == -1) && (sy == 1 || sy == -1)
    requires x1 == x0 + Times(dx, sx) && y1 == y0 + Times(dY, sy)
    requires x == x0 + Times(a, sx) && y == y0 + Times(b, sy)
    requires Balanced(dx, dY, a, b)
    ensures Nearest((x, y), x0, y0, x1, y1)
  {
    assert Abs(x1 - x0) == dx by { TimesUnit(dx, sx); }
    assert Abs(y1 - y0) == dY by { TimesUnit(dY, sy); }
    assert Abs(x - x0) == a by { TimesUnit(a, sx); }
    assert Abs(y - y0) == b by { TimesUnit(b, sy); }
  }

  /**
   * What `GDI::line` promises of its output: max(|dx|, |dy|) + 1 points, the
   * first being start and the last the end cell at start's depth; every point
   * is an integral grid point of the line's box at start's depth; and
   * consecutive points are one grid move apart in the step directions.
   */
  predicate Rasterized(points: seq<Vec3>, start: Vec3, end: Vec3) {
    && |points| as real == RealMax(RealAbs(end.x - start.x), RealAbs(end.y - start.y)) + 1.0
    && points[0] == start
    && points[|points| - 1] == Vec3(end.x, end.y, start.z)
    && (forall k :: 0 <= k < |points| ==> OnLine(points[k], start, end))
    && (forall k :: 0 <= k < |points| - 1 ==>
          GridMove(points[k], points[k + 1], Step(start.x, end.x), Step(start.y, end.y)))
  }

  /** The loop's output so far: the rendering of a walk that starts at (x0, y0). */
  ghost predicate Emitted(points: seq<Vec3>, cells: seq<Cell>, z: real,
                          x0: int, y0: int, x1: int, y1: int, sx: int, sy: int)
  {
    && points == Render(cells, z)
    && Walk(cells, x0, y0, x1, y1, sx, sy)
    && (cells != [] ==> cells[0] == (x0, y0))
  }

  /** Pushing the cursor: the first push is the start cell, later ones are one move on. */
  lemma Push(points: seq<Vec3>, cells: seq<Cell>, z: real,
             x0: int, y0: int, x1: int, y1: int, sx: int, sy: int, x: int, y: int)
    requires Emitted(points, cells, z, x0, y0, x1, y1, sx, sy)
    requires InBox((x, y), x0, y0, x1, y1) && Nearest((x, y), x0, y0, x1, y1)
    requires cells == [] ==> (x, y) == (x0, y0)
    requires cells != [] ==> Move(cells[|cells| - 1], (x, y), sx, sy)
    ensures Emitted(points + [Vec3(x as real, y as real, z)], cells + [(x, y)], z, x0, y0, x1, y1, sx, sy)
  {
    WalkExtend(cells, (x, y), x0, y0, x1, y1, sx, sy);
    RenderSnoc(cells, (x, y), z);
  }

  /** A product of naturals read as a real is the product of the reals. */
  lemma {:induction false} RealProduct(p: nat, q: nat)
    ensures (p * q) as real == p as real * q as real
  {
    if p > 0 {
      RealProduct(p - 1, q);
      assert p * q == (p - 1) * q + q;
    }
  }

  /** Bounds on twice an integer carry over to the real it equals. */
  lemma BoundsAsReal(d: int, e: real, lo: int, hi: int)
    requires d as real == e && lo < 2 * d <= hi
    ensures lo as real < 2.0 * e <= hi as real
  {
  }

  /** The loop's integer distance from the ideal line, read as a real. */
  lemma DistAsReal(dx: nat, dY: nat, a: nat, b: nat)
    ensures Dist(dx, dY, a, b) as real == b as real * dx as real - a as real * dY as real
  {
    TimesIsProduct(b, dx);
    TimesIsProduct(a, dY);
    RealProduct(b, dx);
    RealProduct(a, dY);
  }

  /** The balance the loop keeps on integers is rounding on the reals. */
  lemma BalancedRounds(dx: nat, dY: nat, a: nat, b: nat)
    requires Balanced(dx, dY, a, b)
    ensures if dx >= dY then dx == 0 || RoundsTo(b as real, a as real, dY as real, dx as real)
            else RoundsTo(a as real, b as real, dx as real, dY as real)
  {
    var d := Dist(dx, dY, a, b);
    var e := b as real * dx as real - a as real * dY as real;
    DistAsReal(dx, dY, a, b);
    if dx >= dY {
      if dx != 0 {
        BoundsAsReal(d, e, -(dx as int), dx);
      }
    } else {
      BoundsAsReal(-d, -e, -(dY as int), dY);
    }
  }

  /** The nearest cell on the loop's integers is the nearest grid point on the line's reals. */
  lemma NearestNearLine(c: Cell, z: real, start: Vec3, end: Vec3, x0: int, y0: int, x1: int, y1: int)
    requires start.x == x0 as real && start.y == y0 as real
    requires end.x == x1 as real && end.y == y1 as real
    requires Nearest(c, x0, y0, x1, y1)
    ensures NearLine(Point(c, z), start, end)
  {
    var dx, dY, a, b := Abs(x1 - x0), Abs(y1 - y0), Abs(c.0 - x0), Abs(c.1 - y0);
    var p := Point(c, z);
    assert RealAbs(end.x - start.x) == dx as real by { assert end.x - start.x == (x1 - x0) as real; }
    assert RealAbs(end.y - start.y) == dY as real by { assert end.y - start.y == (y1 - y0) as real; }
    assert RealAbs(p.x - start.x) == a as real by { assert p.x - start.x == (c.0 - x0) as real; }
    assert RealAbs(p.y - start.y) == b as real by { assert p.y - start.y == (c.1 - y0) as real; }
    BalancedRounds(dx, dY, a, b);
  }

  /** A cursor of the walk, pushed as a point, lies on the line. */
  lemma CellOnLine(c: Cell, z: real, start: Vec3, end: Vec3, x0: int, y0: int, x1: int, y1: int)
    requires start.x == x0 as real && start.y == y0 as real && start.z == z
    requires end.x == x1 as real && end.y == y1 as real
    requires InBox(c, x0, y0, x1, y1) && Nearest(c, x0, y0, x1, y1)
    ensures OnLine(Point(c, z), start, end)
  {
    NearestNearLine(c, z, start, end, x0, y0, x1, y1);
  }

  /** The walk the loop leaves behind, restated on the line's own coordinates. */
  lemma LineResult(points: seq<Vec3>, cells: seq<Cell>, start: Vec3, end: Vec3,
                   x0: int, y0: int, x1: int, y1: int, dx: int, dY: int, sx: int, sy: int)
    requires start.x == x0 as real && start.y == y0 as real
    requires end.x == x1 as real && end.y == y1 as real
    requires dx as real == RealAbs(end.x - start.x) && dY as real == RealAbs(end.y - start.y)
    requires sx == Step(start.x, end.x) && sy == Step(start.y, end.y)
    requires |cells| == Max(dx, dY) + 1 && cells[|cells| - 1] == (x1, y1)
    requires Emitted(points, cells, start.z, x0, y0, x1, y1, sx, sy)
    ensures Rasterized(points, start, end)
  {
    WalkCells(cells, x0, y0, x1, y1, sx, sy);
    RenderAt(cells, start.z);
    forall k | 0 <= k < |points|
      ensures OnLine(points[k], start, end)
    {
      CellOnLine(cells[k], start.z, start, end, x0, y0, x1, y1);
    }
    forall k | 0 <= k < |points| - 1
      ensures GridMove(points[k], points[k + 1], sx, sy)
    {
      assert Move(cells[k], cells[k + 1], sx, sy);
    }
  }

  /**
   * The loop's state at the top of an iteration: the cursor is tracked, the
   * points pushed so far render a walk from (x0, y0), one point has been
   * pushed per step along the major axis, and the cursor is one move on from
   * the last pushed cell.
   */
  ghost predicate Looping(dx: int, dY: int, sx: int, sy: int, x0: int, y0: int, x1: int, y1: int, z: real,
                          x: int, y: int, err: int, a: nat, b: nat, points: seq<Vec3>, cells: seq<Cell>)
  {
    && Tracking(dx, dY, sx, sy, x0, y0, x1, y1, x, y, err, a, b)
    && Emitted(points, cells, z, x0, y0, x1, y1, sx, sy)
    && |cells| == (if dx >= dY then a else b)
    && (cells == [] ==> a == 0 && b == 0)
    && (cells != [] ==> Move(cells[|cells| - 1], (x, y), sx, sy))
  }

  /** The loop's first iteration starts in a Looping state. */
  lemma Enter(dx: nat, dY: nat, sx: int, sy: int, x0: int, y0: int, x1: int, y1: int, z: real)
    requires (sx == 1 || sx == -1) && (sy == 1 || sy == -1)
    requires x1 == x0 + Times(dx, sx) && y1 == y0 + Times(dY, sy)
    ensures Looping(dx, dY, sx, sy, x0, y0, x1, y1, z, x0, y0, dx - dY, 0, 0, [], [])
  {
    WithinSteps(x0, sx, 0, dx);
    WithinSteps(y0, sy, 0, dY);
  }

  /** Pushing the end cell finishes the walk with max(dx, dY) + 1 cells. */
  lemma Arrive(dx: nat, dY: nat, sx: int, sy: int, x0: int, y0: int, x1: int, y1: int, z: real,
               x: int, y: int, err: int, a: nat, b: nat, points: seq<Vec3>, cells: seq<Cell>)
    requires (sx == 1 || sx == -1) && (sy == 1 || sy == -1)
    requires x1 == x0 + Times(dx, sx) && y1 == y0 + Times(dY, sy)
    requires Looping(dx, dY, sx, sy, x0, y0, x1, y1, z, x, y, err, a, b, points, cells)
    requires x == x1 && y == y1
    ensures |cells + [(x, y)]| == Max(dx, dY) + 1
    ensures Emitted(points + [Vec3(x as real, y as real, z)], cells + [(x, y)], z, x0, y0, x1, y1, sx, sy)
  {
    StepsNearest(dx, dY, sx, sy, x0, y0, x1, y1, x, y, a, b);
    Push(points, cells, z, x0, y0, x1, y1, sx, sy, x, y);
    StepsDistinct(sx, a, dx);
    StepsDistinct(sy, b, dY);
  }

  /** Pushing a cell short of the end and stepping gives a Looping state again, closer to the end. */
  lemma Iterate(dx: nat, dY: nat, sx: int, sy: int, x0: int, y0: int, x1: int, y1: int, z: real,
                x: int, y: int, err: int, a: nat, b: nat, points: seq<Vec3>, cells: seq<Cell>,
                x': int, y': int, err': int, a': nat, b': nat)
    requires (sx == 1 || sx == -1) && (sy == 1 || sy == -1)
    requires x1 == x0 + Times(dx, sx) && y1 == y0 + Times(dY, sy)
    requires Looping(dx, dY, sx, sy, x0, y0, x1, y1, z, x, y, err, a, b, points, cells)
    requires x != x1 || y != y1
    requires 2 * err >= -(dY as int) ==> x' == x + sx && a' == a + 1
    requires 2 * err < -(dY as int) ==> x' == x && a' == a
    requires 2 * err <= dx ==> y' == y + sy && b' == b + 1
    requires 2 * err > dx ==> y' == y && b' == b
    requires err' == err + (if 2 * err >= -(dY as int) then -(dY as int) else 0) + (if 2 * err <= dx then dx else 0)
    ensures a' <= dx && b' <= dY && a' + b' > a + b
    ensures Looping(dx, dY, sx, sy, x0, y0, x1, y1, z, x', y', err', a', b',
                    points + [Vec3(x as real, y as real, z)], cells + [(x, y)])
  {
    StepsNearest(dx, dY, sx, sy, x0, y0, x1, y1, x, y, a, b);
    Push(points, cells, z, x0, y0, x1, y1, sx, sy, x, y);
    Advance(dx, dY, sx, sy, x0, y0, x1, y1, x, y, err, a, b, x', y', err', a', b');
  }

  /**
   * The loop of `GDI::line`, from the error term's initialisation on: it
   * pushes the cursor, stops once the cursor is the end cell (x1, y1), and
   * otherwise steps x when 2 * err >= dy and y when 2 * err <= dx. After a
   * steps along x and b along y the error term is dx + dy + Dist(dx, -dy, a, b),
   * and twice that distance stays within max(dx, -dy): the cursor never strays
   * more than half a cell from the ideal line, so the major axis steps on every
   * iteration and the walk ends at (x1, y1) after max(dx, -dy) steps.
   */
  method Trace(x0: int, y0: int, z: real, x1: int, y1: int, dx: nat, dy: int, sx: int, sy: int)
    returns (points: seq<Vec3>, ghost cells: seq<Cell>)
    requires dy <= 0 && (sx == 1 || sx == -1) && (sy == 1 || sy == -1)
    requires x1 == x0 + Times(dx, sx) && y1 == y0 + Times(-dy, sy)
    ensures |cells| == Max(dx, -dy) + 1 && cells[|cells| - 1] == (x1, y1)
    ensures Emitted(points, cells, z, x0, y0, x1, y1, sx, sy)
  {
    points := [];
    var err := dx + dy;
    var x, y := x0, y0;

    ghost var dY: nat := -dy;
    // a and b count the steps taken along x and along y; cells are the cursors pushed so far
    ghost var a: nat, b: nat := 0, 0;
    cells := [];
    Enter(dx, dY, sx, sy, x0, y0, x1, y1, z);

    while true
      invariant Looping(dx, dY, sx, sy, x0, y0, x1, y1, z, x, y, err, a, b, points, cells)
      invariant a <= dx && b <= dY
      decreases (dx - a) + (dY - b)
    {
      ghost var x', y', err', a', b', points', cells' := x, y, err, a, b, points, cells;
      points := points + [Vec3(x as real, y as real, z)];
      cells := cells + [(x, y)];
      if x == x1 && y == y1 {
        Arrive(dx, dY, sx, sy, x0, y0, x1, y1, z, x, y, err, a, b, points', cells');
        break;
      }

      var e2 := 2 * err;
      if e2 >= dy {
        err := err + dy;
        x := x + sx;
        a := a + 1;
      }
      if e2 <= dx {
        err := err + dx;
        y := y + sy;
        b := b + 1;
      }
      Iterate(dx, dY, sx, sy, x0, y0, x1, y1, z, x', y', err', a', b', points', cells', x, y, err, a, b);
    }
  }

  /**
   * `GDI::line`: the coordinates are cast to i64 (exactly, since they are
   * integral), dx = |end.x - start.x|, dy = -|end.y - start.y|, each step
   * direction is +1 towards a larger end coordinate and -1 otherwise, and the
   * loop runs from the start cell.
   */
  method Line(start: Vec3, end: Vec3) returns (points: seq<Vec3>)
    requires Integral(start.x) && Integral(start.y) && Integral(end.x) && Integral(end.y)
    ensures Rasterized(points, start, end)
  {
    IntegralDistance(start.x, end.x);
    IntegralDistance(start.y, end.y);
    var dx := AsI64(RealAbs(end.x - start.x));
    var dy := AsI64(-RealAbs(end.y - start.y));
    var sx := if start.x < end.x then 1 else -1;
    var sy := if start.y < end.y then 1 else -1;

    var x := AsI64(start.x);
    var y := AsI64(start.y);
    var z := start.z;
    // `end.x as i64` and `end.y as i64`, which the loop test re-evaluates to the same values each time
    var x1 := AsI64(end.x);
    var y1 := AsI64(end.y);

    assert (sx == 1 && x1 == x + dx) || (sx == -1 && x1 == x - dx);
    assert (sy == 1 && y1 == y - dy) || (sy == -1 && y1 == y + dy);
    TimesIsProduct(dx, sx);
    TimesIsProduct(-dy, sy);
    ghost var cells;
    points, cells := Trace(x, y, z, x1, y1, dx, dy, sx, sy);
    LineResult(points, cells, start, end, x, y, x1, y1, dx, -dy, sx, sy);
  }

  /** How far p has got along the step directions. */
  function Progress(p: Vec3, sx: int, sy: int): real {
    sx as real * p.x + sy as real * p.y
  }

  /** A grid move in unit step directions makes progress of at least one. */
  lemma MoveProgresses(p: Vec3, q: Vec3, sx: int, sy: int)
    requires (sx == 1 || sx == -1) && (sy == 1 || sy == -1)
    requires GridMove(p, q, sx, sy)
    ensures Progress(q, sx, sy) >= Progress(p, sx, sy) + 1.0
  {
  }

  lemma {:induction false} ProgressGrows(points: seq<Vec3>, sx: int, sy: int, i: nat, j: nat)
    requires (sx == 1 || sx == -1) && (sy == 1 || sy == -1)
    requires forall k :: 0 <= k < |points| - 1 ==> GridMove(points[k], points[k + 1], sx, sy)
    requires i < j < |points|
    ensures Progress(points[j], sx, sy) >= Progress(points[i], sx, sy) + (j - i) as real
    decreases j
  {
    MoveProgresses(points[j - 1], points[j], sx, sy);
    if i < j - 1 {
      ProgressGrows(points, sx, sy, i, j - 1);
    }
  }

  /**
   * A rasterized line never emits a point twice: every grid move gets further
   * along the step directions. In particular a line from a point to itself is
   * that single point.
   */
  lemma RasterizedDistinct(points: seq<Vec3>, start: Vec3, end: Vec3)
    requires Rasterized(points, start, end)
    ensures forall i, j :: 0 <= i < j < |points| ==> points[i] != points[j]
    ensures start.x == end.x && start.y == end.y ==> points == [start]
  {
    forall i, j | 0 <= i < j < |points|
      ensures points[i] != points[j]
    {
      ProgressGrows(points, Step(start.x, end.x), Step(start.y, end.y), i, j);
    }
  }

  /**
   * A line with equal end coordinates on one axis never moves along that
   * axis, although its step there is -1.
   */
  lemma StraightLines(points: seq<Vec3>, start: Vec3, end: Vec3)
    requires Rasterized(points, start, end)
    ensures start.x == end.x ==> forall k :: 0 <= k < |points| ==> points[k].x == start.x
    ensures start.y == end.y ==> forall k :: 0 <= k < |points| ==> points[k].y == start.y
  {
  }

  /** The line from (0, 0) to (3, 0) is the four points (0, 0), (1, 0), (2, 0), (3, 0). */
  lemma HorizontalExample(points: seq<Vec3>, z: real)
    requires Rasterized(points, Vec3(0.0, 0.0, z), Vec3(3.0, 0.0, z))
    ensures points == [Vec3(0.0, 0.0, z), Vec3(1.0, 0.0, z), Vec3(2.0, 0.0, z), Vec3(3.0, 0.0, z)]
  {
    // y stays 0 throughout, so every move is one step along x.
    assert |points| == 4;
    assert OnLine(points[1], Vec3(0.0, 0.0, z), Vec3(3.0, 0.0, z));
    assert OnLine(points[2], Vec3(0.0, 0.0, z), Vec3(3.0, 0.0, z));
    assert GridMove(points[0], points[1], 1, -1);
    assert GridMove(points[1], points[2], 1, -1);
    assert GridMove(points[2], points[3], 1, -1);
  }

  /**
   * The line from (0, 0) to (4, 1) is (0, 0), (1, 0), (2, 1), (3, 1), (4, 1): halfway along,
   * the ideal y of 0.5 is a tie and goes to the row further from start.
   */
  lemma LowSlopeExample(points: seq<Vec3>, z: real)
    requires Rasterized(points, Vec3(0.0, 0.0, z), Vec3(4.0, 1.0, z))
    ensures points == [Vec3(0.0, 0.0, z), Vec3(1.0, 0.0, z), Vec3(2.0, 1.0, z), Vec3(3.0, 1.0, z), Vec3(4.0, 1.0, z)]
  {
    var start, end := Vec3(0.0, 0.0, z), Vec3(4.0, 1.0, z);
    var expected := [Vec3(0.0, 0.0, z), Vec3(1.0, 0.0, z), Vec3(2.0, 1.0, z), Vec3(3.0, 1.0, z), Vec3(4.0, 1.0, z)];
    assert Rasterized(expected, start, end) by {
      assert OnLine(expected[1], start, end) && OnLine(expected[2], start, end);
      assert OnLine(expected[3], start, end) && OnLine(expected[4], start, end);
      assert GridMove(expected[0], expected[1], 1, 1) && GridMove(expected[1], expected[2], 1, 1);
      assert GridMove(expected[2], expected[3], 1, 1) && GridMove(expected[3], expected[4], 1, 1);
    }
    RasterizedUnique(points, expected, start, end);
  }

  /** Scaling by a positive major length keeps a factor of at least one at least that length. */
  lemma ScaleBeyondOne(d: real, major: real)
    requires major > 0.0
    ensures d >= 1.0 ==> d * major >= major
    ensures d <= -1.0 ==> d * major <= -major
  {
    assert d * major - major == (d - 1.0) * major;
    assert d * major + major == (d + 1.0) * major;
  }

  /** Two whole numbers that both round m * minor / major are equal. */
  lemma RoundsToUnique(n1: real, n2: real, m: real, minor: real, major: real)
    requires major > 0.0 && Integral(n1) && Integral(n2)
    requires RoundsTo(n1, m, minor, major) && RoundsTo(n2, m, minor, major)
    ensures n1 == n2
  {
    var d, e1, e2 := n1 - n2, n1 * major - m * minor, n2 * major - m * minor;
    assert -major < 2.0 * e1 <= major && -major < 2.0 * e2 <= major;
    assert e1 - e2 == d * major;
    ScaleBeyondOne(d, major);
    assert d == (n1.Floor - n2.Floor) as real;
  }

  /** Neighbouring whole numbers never both round the same value. */
  lemma RoundsApart(n: real, m: real, minor: real, major: real)
    requires major > 0.0
    ensures !(RoundsTo(n, m, minor, major) && RoundsTo(n + 1.0, m, minor, major))
  {
    assert (n + 1.0) * major == n * major + major;
  }

  /**
   * Along one axis, a coordinate between s and e that stays or moves by the
   * step towards e stays as far from s, or gets one further.
   */
  lemma AxisStep(u: real, v: real, s: real, e: real)
    requires Between(u, s, e) && Between(v, s, e)
    requires v == u || v == u + Step(s, e) as real
    ensures RealAbs(v - s) == RealAbs(u - s) + (if v == u then 0.0 else 1.0)
  {
  }

  /** Along one axis, a coordinate between s and e is fixed by its distance from s. */
  lemma AxisDistance(u: real, v: real, s: real, e: real)
    requires Between(u, s, e) && Between(v, s, e) && RealAbs(u - s) == RealAbs(v - s)
    ensures u == v
  {
  }

  /**
   * Offsets from the start along the major axis (ms) and the minor axis (ns)
   * of a walk: each move adds one to either or both, and every minor offset
   * rounds its major offset. Then no move can add to the minor offset alone,
   * so the k-th major offset is k.
   */
  lemma {:induction false} MajorSteps(ms: seq<real>, ns: seq<real>, minor: real, major: real, k: nat)
    requires |ms| == |ns| && k < |ms| && ms[0] == 0.0 && major > 0.0
    requires forall i :: 0 <= i < |ms| ==> RoundsTo(ns[i], ms[i], minor, major)
    requires forall i :: 0 <= i < |ms| - 1 ==>
      && (ms[i + 1] == ms[i] || ms[i + 1] == ms[i] + 1.0)
      && (ns[i + 1] == ns[i] || ns[i + 1] == ns[i] + 1.0)
      && (ms[i + 1] != ms[i] || ns[i + 1] != ns[i])
    ensures ms[k] == k as real
    decreases k
  {
    if k > 0 {
      MajorSteps(ms, ns, minor, major, k - 1);
      RoundsApart(ns[k - 1], ms[k - 1], minor, major);
    }
  }

  /** A grid move between points of the line: each offset from start stays or grows by one, and one grows. */
  lemma OffsetStep(p: Vec3, q: Vec3, start: Vec3, end: Vec3)
    requires OnLine(p, start, end) && OnLine(q, start, end)
    requires GridMove(p, q, Step(start.x, end.x), Step(start.y, end.y))
    ensures var a, a', b, b' := RealAbs(p.x - start.x), RealAbs(q.x - start.x), RealAbs(p.y - start.y), RealAbs(q.y - start.y);
      && (a' == a || a' == a + 1.0)
      && (b' == b || b' == b + 1.0)
      && (a' != a || b' != b)
  {
    AxisStep(p.x, q.x, start.x, end.x);
    AxisStep(p.y, q.y, start.y, end.y);
  }

  /** The distances from start along one axis: of the x coordinates when onX, else of the y coordinates. */
  function Offsets(points: seq<Vec3>, start: Vec3, onX: bool): seq<real> {
    seq(|points|, i requires 0 <= i < |points| => if onX then RealAbs(points[i].x - start.x) else RealAbs(points[i].y - start.y))
  }

  /** The k-th offsets are point k's distances from start. */
  lemma OffsetAt(points: seq<Vec3>, start: Vec3, k: nat)
    requires k < |points|
    ensures Offsets(points, start, true)[k] == RealAbs(points[k].x - start.x)
    ensures Offsets(points, start, false)[k] == RealAbs(points[k].y - start.y)
  {
  }

  /** Along a rasterized line each move adds one to either offset or to both. */
  lemma OffsetSteps(points: seq<Vec3>, start: Vec3, end: Vec3)
    requires Rasterized(points, start, end)
    ensures var xs, ys := Offsets(points, start, true), Offsets(points, start, false);
      forall i :: 0 <= i < |points| - 1 ==>
        && (xs[i + 1] == xs[i] || xs[i + 1] == xs[i] + 1.0)
        && (ys[i + 1] == ys[i] || ys[i + 1] == ys[i] + 1.0)
        && (xs[i + 1] != xs[i] || ys[i + 1] != ys[i])
  {
    var xs, ys := Offsets(points, start, true), Offsets(points, start, false);
    forall i | 0 <= i < |points| - 1
      ensures && (xs[i + 1] == xs[i] || xs[i + 1] == xs[i] + 1.0)
              && (ys[i + 1] == ys[i] || ys[i + 1] == ys[i] + 1.0)
              && (xs[i + 1] != xs[i] || ys[i + 1] != ys[i])
    {
      assert OnLine(points[i], start, end) && OnLine(points[i + 1], start, end);
      OffsetStep(points[i], points[i + 1], start, end);
    }
  }

  /** Along a rasterized line the minor offset of every point rounds its major offset. */
  lemma OffsetsRound(points: seq<Vec3>, start: Vec3, end: Vec3)
    requires Rasterized(points, start, end)
    ensures var dx, dy := RealAbs(end.x - start.x), RealAbs(end.y - start.y);
      var xs, ys := Offsets(points, start, true), Offsets(points, start, false);
      && (dx >= dy && dx > 0.0 ==> forall i :: 0 <= i < |points| ==> RoundsTo(ys[i], xs[i], dy, dx))
      && (dx < dy ==> forall i :: 0 <= i < |points| ==> RoundsTo(xs[i], ys[i], dx, dy))
  {
    forall i | 0 <= i < |points|
      ensures NearLine(points[i], start, end)
    {
      assert OnLine(points[i], start, end);
    }
  }

  /** The k-th point of a rasterized line lies k cells from start along the major axis. */
  lemma MajorIndex(points: seq<Vec3>, start: Vec3, end: Vec3)
    requires Rasterized(points, start, end)
    ensures var dx, dy := RealAbs(end.x - start.x), RealAbs(end.y - start.y);
      forall k :: 0 <= k < |points| ==>
        if dx >= dy then RealAbs(points[k].x - start.x) == k as real
        else RealAbs(points[k].y - start.y) == k as real
  {
    var dx, dy := RealAbs(end.x - start.x), RealAbs(end.y - start.y);
    var xs, ys := Offsets(points, start, true), Offsets(points, start, false);
    assert xs[0] == 0.0 && ys[0] == 0.0;
    OffsetSteps(points, start, end);
    OffsetsRound(points, start, end);
    forall k | 0 <= k < |points|
      ensures if dx >= dy then xs[k] == k as real else ys[k] == k as real
    {
      if dx >= dy && dx > 0.0 {
        MajorSteps(xs, ys, dy, dx, k);
      } else if dx < dy {
        MajorSteps(ys, xs, dx, dy, k);
      }
    }
    forall k | 0 <= k < |points|
      ensures if dx >= dy then RealAbs(points[k].x - start.x) == k as real
              else RealAbs(points[k].y - start.y) == k as real
    {
      OffsetAt(points, start, k);
    }
  }

  /** Two points of the line at the same distance k along a major axis have the same minor offset: the one that rounds k. */
  lemma SameMinor(n: real, n': real, s: real, u: real, v: real, k: nat, minor: real, major: real)
    requires major > 0.0 && Integral(s) && Integral(u) && Integral(v)
    requires n == RealAbs(u - s) && n' == RealAbs(v - s)
    requires RoundsTo(n, k as real, minor, major) && RoundsTo(n', k as real, minor, major)
    ensures n == n'
  {
    IntegralDistance(s, u);
    IntegralDistance(s, v);
    RoundsToUnique(n, n', k as real, minor, major);
  }

  /** Two points of the line at the same distance k along the major axis are the same point. */
  lemma SameMajor(u: Vec3, v: Vec3, start: Vec3, end: Vec3, k: nat)
    requires Integral(start.x) && Integral(start.y)
    requires OnLine(u, start, end) && OnLine(v, start, end)
    requires var dx, dy := RealAbs(end.x - start.x), RealAbs(end.y - start.y);
      if dx >= dy then RealAbs(u.x - start.x) == RealAbs(v.x - start.x) == k as real
      else RealAbs(u.y - start.y) == RealAbs(v.y - start.y) == k as real
    ensures u == v
  {
    var dx, dy := RealAbs(end.x - start.x), RealAbs(end.y - start.y);
    var a, b, a', b' := RealAbs(u.x - start.x), RealAbs(u.y - start.y), RealAbs(v.x - start.x), RealAbs(v.y - start.y);
    if dx >= dy && dx > 0.0 {
      SameMinor(b, b', start.y, u.y, v.y, k, dy, dx);
    } else if dx < dy {
      SameMinor(a, a', start.x, u.x, v.x, k, dx, dy);
    } else {
      assert b == 0.0 && b' == 0.0 by {
        assert Between(u.y, start.y, end.y) && Between(v.y, start.y, end.y);
      }
    }
    SameOffsets(u, v, start, end);
  }

  /** Two points of the line at the same offsets from start are the same point. */
  lemma SameOffsets(u: Vec3, v: Vec3, start: Vec3, end: Vec3)
    requires OnLine(u, start, end) && OnLine(v, start, end)
    requires RealAbs(u.x - start.x) == RealAbs(v.x - start.x)
    requires RealAbs(u.y - start.y) == RealAbs(v.y - start.y)
    ensures u == v
  {
    AxisDistance(u.x, v.x, start.x, end.x);
    AxisDistance(u.y, v.y, start.y, end.y);
  }

  /**
   * The contract fixes the output: two point sequences that both rasterize
   * the same segment are equal, so `Line` returns exactly the nearest cells.
   */
  lemma RasterizedUnique(p: seq<Vec3>, q: seq<Vec3>, start: Vec3, end: Vec3)
    requires Rasterized(p, start, end) && Rasterized(q, start, end)
    ensures p == q
  {
    assert |p| == |q|;
    MajorIndex(p, start, end);
    MajorIndex(q, start, end);
    assert OnLine(p[0], start, end);
    forall k | 0 <= k < |p|
      ensures p[k] == q[k]
    {
      SameMajor(p[k], q[k], start, end, k);
    }
  }
}
