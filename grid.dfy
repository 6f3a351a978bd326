/**
 * Integer bookkeeping shared by both top-level grids: the row-major flat cell
 * index (`cell_getid`) and its inverse, the periodic wrap used by every window
 * walk, the clamp of a walk's radius, the direct-neighbour tests and the
 * 27-way direction index of a neighbour offset.
 */
module Grid {

  /** Cell counts along the three axes of one grid (`cdim`). */
  datatype Dim3 = Dim3(x: int, y: int, z: int)

  /** Integer coordinates (or offsets) of a cell within one grid. */
  datatype Ijk = Ijk(i: int, j: int, k: int)

  /** A point or extent in the box, one real per axis. */
  datatype Vec3 = Vec3(x: real, y: real, z: real)

  /** The outcome of an operation the source may abort with a fatal error. */
  datatype Result<T, E> = Ok(value: T) | Err(error: E)

  predicate Positive(cd: Dim3) {
    cd.x > 0 && cd.y > 0 && cd.z > 0
  }

  /** Number of cells of a grid (the product of its cdim). */
  function Count(cd: Dim3): int {
    cd.x * cd.y * cd.z
  }

  lemma CountPositive(cd: Dim3)
    requires Positive(cd)
    ensures Count(cd) > 0
  {
    assert cd.x * cd.y > 0;
  }

  lemma CountNonNegative(cd: Dim3)
    requires cd.x >= 0 && cd.y >= 0 && cd.z >= 0
    ensures Count(cd) >= 0
  {
    assert cd.x * cd.y >= 0;
  }

  predicate InGrid(cd: Dim3, t: Ijk) {
    0 <= t.i < cd.x && 0 <= t.j < cd.y && 0 <= t.k < cd.z
  }

  /** `cell_getid`: the flat index of (i, j, k), with k varying fastest. */
  function CellId(cd: Dim3, t: Ijk): int {
    t.k + cd.z * (t.j + cd.y * t.i)
  }

  /** The inverse the passes write out: i = cid / (cy cz), j = (cid / cz) % cy, k = cid % cz. */
  function CellIjk(cd: Dim3, cid: int): Ijk
    requires cd.y > 0 && cd.z > 0 && cid >= 0
  {
    Ijk(cid / (cd.y * cd.z), (cid / cd.z) % cd.y, cid % cd.z)
  }

  // ---------------------------------------------------------------------------
  // Arithmetic helpers

  lemma MulLe(d: int, a: int, b: int)
    requires d >= 0 && a <= b
    ensures d * a <= d * b
  {
    assert d * b - d * a == d * (b - a);
  }

  /** Euclidean division is determined by any quotient/remainder pair. */
  lemma DivModUnique(a: int, d: int, q: int, r: int)
    requires d > 0 && 0 <= r < d && a == q * d + r
    ensures a / d == q && a % d == r
  {
    var q', r' := a / d, a % d;
    assert a == d * q' + r';
    if q' > q {
      MulLe(d, q + 1, q');
      assert false;
    } else if q' < q {
      MulLe(d, q' + 1, q);
      assert false;
    }
  }

  /** Dividing by z and then by y is dividing by y * z. */
  lemma DivDiv(a: int, y: int, z: int)
    requires a >= 0 && y > 0 && z > 0
    ensures (a / z) / y == a / (y * z) && a / (y * z) >= 0
  {
    var q, r := a / z, a % z;
    var s, t := q / y, q % y;
    assert a == q * z + r && q == s * y + t;
    Regroup(s, y, t, z);
    MulLe(z, t, y - 1);
    Regroup(1, y, -1, z);
    DivModUnique(a, y * z, s, t * z + r);
  }

  /** (s y + t) z == s (y z) + t z. */
  lemma Regroup(s: int, y: int, t: int, z: int)
    ensures (s * y + t) * z == s * (y * z) + t * z
  {
  }

  /** C's conversion of a double to int: truncation toward zero. */
  function Trunc(x: real): int {
    if x >= 0.0 then x.Floor else -((-x).Floor)
  }

  /** On a non-negative argument the truncation is the floor. */
  lemma TruncNonNegative(x: real)
    requires x >= 0.0
    ensures Trunc(x) >= 0 && (Trunc(x) as real) <= x < (Trunc(x) as real) + 1.0
  {
  }

  // ---------------------------------------------------------------------------
  // Flat index <-> ijk

  lemma CellIdRange(cd: Dim3, t: Ijk)
    requires InGrid(cd, t)
    ensures 0 <= CellId(cd, t) < Count(cd)
  {
    var row := t.j + cd.y * t.i;
    MulLe(cd.y, t.i, cd.x - 1);
    assert 0 <= row < cd.y * cd.x;
    MulLe(cd.z, row, cd.y * cd.x - 1);
    assert cd.z * (cd.y * cd.x) == Count(cd);
  }

  /** CellIjk undoes CellId (the inversion at zoom_region.c:1409-1411, 1656-1658, 2188-2190). */
  lemma {:induction false} CellIjkOfId(cd: Dim3, t: Ijk)
    requires InGrid(cd, t)
    ensures CellId(cd, t) >= 0 && CellIjk(cd, CellId(cd, t)) == t
  {
    CellIdRange(cd, t);
    var cid := CellId(cd, t);
    var row := t.j + cd.y * t.i;
    assert row >= 0;
    DivModUnique(cid, cd.z, row, t.k);
    DivModUnique(row, cd.y, t.i, t.j);
    DivDiv(cid, cd.y, cd.z);
  }

  /** Every flat index of the grid decodes to in-grid coordinates that encode back to it. */
  lemma {:induction false} CellIdOfIjk(cd: Dim3, cid: int)
    requires Positive(cd) && 0 <= cid < Count(cd)
    ensures InGrid(cd, CellIjk(cd, cid)) && CellId(cd, CellIjk(cd, cid)) == cid
  {
    var t := CellIjk(cd, cid);
    var q := cid / cd.z;
    DivDiv(cid, cd.y, cd.z);
    assert q == cd.y * t.i + t.j;
    assert cid == cd.z * q + t.k;
    MulLe(cd.z, cd.y * t.i, q);
    assert cid >= (cd.y * cd.z) * t.i;
    if t.i >= cd.x {
      MulLe(cd.y * cd.z, cd.x, t.i);
      assert false;
    }
  }

  /** Two in-grid coordinates with the same flat index are equal. */
  lemma CellIdInjective(cd: Dim3, a: Ijk, b: Ijk)
    requires InGrid(cd, a) && InGrid(cd, b) && CellId(cd, a) == CellId(cd, b)
    ensures a == b
  {
    CellIjkOfId(cd, a);
    CellIjkOfId(cd, b);
  }

  // ---------------------------------------------------------------------------
  // Periodic wrap

  /** C's `%` on a positive divisor: the remainder takes the sign of the dividend. */
  function CRem(a: int, b: int): int
    requires b > 0
  {
    if a >= 0 then a % b else -((-a) % b)
  }

  /** The wrap as the walks write it: `(x + n) % n` with C's `%`. */
  function SourceWrap(x: int, n: int): int
    requires n > 0
  {
    CRem(x + n, n)
  }

  /** The periodic wrap of a coordinate onto [0, n). */
  function Wrap(x: int, n: int): int
    requires n > 0
  {
    x % n
  }

  /** The written wrap lands in [0, n) and agrees with Wrap whenever x >= -n. */
  lemma SourceWrapAgrees(x: int, n: int)
    requires n > 0 && x >= -n
    ensures 0 <= SourceWrap(x, n) < n && SourceWrap(x, n) == Wrap(x, n)
  {
    DivModUnique(x + n, n, x / n + 1, x % n);
  }

  /** Below -n the written wrap leaves [0, n): (-4 + 3) % 3 is -1 in C. */
  lemma SourceWrapNegative()
    ensures SourceWrap(-4, 3) == -1 && Wrap(-4, 3) == 2
  {
  }

  /** Inside [0, n) the wrap is the identity: a non-periodic walk never wraps. */
  lemma WrapIdentity(x: int, n: int)
    requires 0 <= x < n
    ensures Wrap(x, n) == x
  {
    DivModUnique(x, n, 0, x);
  }

  // ---------------------------------------------------------------------------
  // Walk windows

  /** The offsets walked on each axis: [-m, p] (`delta_m`, `delta_p`). */
  datatype Window = Window(m: int, p: int)

  function Min(a: int, b: int): int {
    if a <= b then a else b
  }

  function Max(a: int, b: int): int {
    if a <= b then b else a
  }

  /**
   * The "every cell is in range of every other one" clamp of a walk radius
   * on an axis of n cells (zoom_region.c:916-924, 1639-1647, 1818-1826).
   */
  function ClampWindow(delta: int, n: int): (w: Window)
    requires n > 0
    ensures w.m == Min(delta, n / 2) && w.p == Min(delta, (n - 1) / 2)
    ensures w.m + w.p + 1 <= n
  {
    if delta >= n / 2 then
      if n % 2 == 0 then Window(n / 2, n / 2 - 1) else Window(n / 2, n / 2)
    else
      Window(delta, delta)
  }

  /**
   * Where offset o from coordinate v lands on an axis of n cells; -1 when a
   * non-periodic walk skips it because it falls outside the grid.
   */
  function Target(v: int, o: int, n: int, periodic: bool): int
    requires n > 0
  {
    if !periodic && (v + o < 0 || v + o >= n) then -1 else Wrap(v + o, n)
  }

  lemma TargetRange(v: int, o: int, n: int, periodic: bool)
    requires n > 0
    ensures Target(v, o, n, periodic) == -1 || 0 <= Target(v, o, n, periodic) < n
  {
  }

  /** A non-periodic walk lands exactly on v + o, without wrapping. */
  lemma NonPeriodicTarget(v: int, o: int, n: int)
    requires n > 0 && Target(v, o, n, false) != -1
    ensures Target(v, o, n, false) == v + o && 0 <= v + o < n
  {
    WrapIdentity(v + o, n);
  }

  /** An axis fits a window when no two of its offsets can wrap onto the same cell. */
  predicate Fits(w: Window, n: int, periodic: bool) {
    !periodic || w.m + w.p + 1 <= n
  }

  /** Distinct offsets of a window that fits land on distinct cells. */
  lemma TargetInjective(v: int, a: int, b: int, n: int, periodic: bool, w: Window)
    requires n > 0 && Fits(w, n, periodic)
    requires -w.m <= a < b <= w.p
    requires Target(v, a, n, periodic) != -1
    ensures Target(v, a, n, periodic) != Target(v, b, n, periodic)
  {
    if !periodic {
      NonPeriodicTarget(v, a, n);
      if Target(v, b, n, periodic) != -1 {
        NonPeriodicTarget(v, b, n);
      }
    } else if Target(v, a, n, periodic) == Target(v, b, n, periodic) {
      var qa, qb := (v + a) / n, (v + b) / n;
      assert v + a == qa * n + (v + a) % n && v + b == qb * n + (v + b) % n;
      Regroup(1, qb, -qa, n);
      NoMultipleBetween(qb - qa, n);
    }
  }

  /** No multiple of n lies strictly between 0 and n. */
  lemma NoMultipleBetween(k: int, n: int)
    requires n > 0
    ensures k * n <= 0 || k * n >= n
  {
    if k <= 0 {
      MulLe(n, k, 0);
    } else {
      MulLe(n, 1, k);
    }
  }

  /** Some offset in [lo, hi) walks from v onto t. */
  ghost predicate Reaches(v: int, t: int, lo: int, hi: int, n: int, periodic: bool)
    requires n > 0
  {
    exists o :: lo <= o < hi && Target(v, o, n, periodic) == t
  }

  lemma ReachesStep(v: int, t: int, lo: int, o: int, n: int, periodic: bool)
    requires n > 0 && lo <= o
    ensures Reaches(v, t, lo, o + 1, n, periodic)
            <==> Reaches(v, t, lo, o, n, periodic) || Target(v, o, n, periodic) == t
  {
    if Reaches(v, t, lo, o + 1, n, periodic) && Target(v, o, n, periodic) != t {
      var o' :| lo <= o' < o + 1 && Target(v, o', n, periodic) == t;
      assert lo <= o' < o;
    }
  }

  lemma ReachesEmpty(v: int, t: int, lo: int, n: int, periodic: bool)
    requires n > 0
    ensures !Reaches(v, t, lo, lo, n, periodic)
  {
  }

  /** In a window that fits, the cell reached by offset o is not reached by any earlier offset. */
  lemma TargetFresh(v: int, o: int, n: int, periodic: bool, w: Window)
    requires n > 0 && Fits(w, n, periodic) && -w.m <= o <= w.p
    requires Target(v, o, n, periodic) != -1
    ensures !Reaches(v, Target(v, o, n, periodic), -w.m, o, n, periodic)
  {
    if Reaches(v, Target(v, o, n, periodic), -w.m, o, n, periodic) {
      var o' :| -w.m <= o' < o && Target(v, o', n, periodic) == Target(v, o, n, periodic);
      TargetInjective(v, o', o, n, periodic, w);
    }
  }

  /** Cell x of the grid lies in the window w around c (each axis reached by some offset). */
  ghost predicate InWindow(cd: Dim3, periodic: bool, c: Ijk, w: Window, x: int)
    requires Positive(cd)
  {
    0 <= x < Count(cd) &&
    var t := CellIjk(cd, x);
    Reaches(c.i, t.i, -w.m, w.p + 1, cd.x, periodic) &&
    Reaches(c.j, t.j, -w.m, w.p + 1, cd.y, periodic) &&
    Reaches(c.k, t.k, -w.m, w.p + 1, cd.z, periodic)
  }

  // ---------------------------------------------------------------------------
  // Direct neighbours and direction index

  function Abs(x: int): int {
    if x < 0 then -x else x
  }

  /** One axis of the periodic direct-neighbour test (zoom_region.c:979-984). */
  predicate AxisAdjacentPeriodic(a: int, b: int, n: int) {
    Abs(a - b) <= 1 || Abs(a - b - n) <= 1 || Abs(a - b + n) <= 1
  }

  /** The periodic direct-neighbour test of the background passes. */
  predicate AdjacentPeriodic(cd: Dim3, a: Ijk, b: Ijk) {
    AxisAdjacentPeriodic(a.i, b.i, cd.x) && AxisAdjacentPeriodic(a.j, b.j, cd.y) &&
    AxisAdjacentPeriodic(a.k, b.k, cd.z)
  }

  /** The direct-neighbour test without periodicity (zoom_region.c:1230-1231). */
  predicate Adjacent(a: Ijk, b: Ijk) {
    Abs(a.i - b.i) <= 1 && Abs(a.j - b.j) <= 1 && Abs(a.k - b.k) <= 1
  }

  /**
   * For coordinates on an axis of at least three cells, the written periodic
   * test says exactly that the circular distance is at most one.
   */
  lemma AxisAdjacentPeriodicIsCircular(a: int, b: int, n: int)
    requires n >= 3 && 0 <= a < n && 0 <= b < n
    ensures AxisAdjacentPeriodic(a, b, n) <==> (a - b) % n in {0, 1, n - 1}
  {
    var d := a - b;
    if d >= 0 {
      DivModUnique(d, n, 0, d);
    } else {
      DivModUnique(d, n, -1, d + n);
    }
  }

  /** `sortlistID` slot of a neighbour offset: (kk+1) + 3((jj+1) + 3(ii+1)). */
  function DirectionIndex(o: Ijk): int {
    (o.k + 1) + 3 * ((o.j + 1) + 3 * (o.i + 1))
  }

  predicate UnitOffset(o: Ijk) {
    -1 <= o.i <= 1 && -1 <= o.j <= 1 && -1 <= o.k <= 1
  }

  /** The 27 unit offsets map one-to-one onto [0, 27). */
  lemma DirectionIndexBijective(o: Ijk, o': Ijk)
    requires UnitOffset(o) && UnitOffset(o')
    ensures 0 <= DirectionIndex(o) < 27
    ensures DirectionIndex(o) == DirectionIndex(o') ==> o == o'
    ensures DirectionIndex(o) == 13 <==> o == Ijk(0, 0, 0)
  {
  }
}
