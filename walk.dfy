/**
 * The window walk every pass of the zoom-region code writes out as three
 * nested loops: for each offset (ii, jj, kk) in [-delta_m, delta_p]^3 around
 * a cell (i, j, k), skip the coordinates that leave a non-periodic grid, wrap
 * the others, and visit cell_getid(cdim, iii, jjj, kkk).
 */
module Walk {
  import opened Grid

  predicate Distinct(s: seq<int>) {
    forall a, b :: 0 <= a < b < |s| ==> s[a] != s[b]
  }

  lemma DistinctConcat(s: seq<int>, t: seq<int>)
    requires Distinct(s) && Distinct(t)
    requires forall x :: x in s ==> x !in t
    ensures Distinct(s + t)
  {
    forall a, b | 0 <= a < b < |s + t|
      ensures (s + t)[a] != (s + t)[b]
    {
      if a < |s| && b >= |s| {
        assert (s + t)[a] in s && (s + t)[b] in t;
      }
    }
  }

  /** A duplicate-free list of values from [lo, hi) has at most hi - lo entries. */
  lemma {:induction false} DistinctBound(s: seq<int>, lo: int, hi: int)
    requires lo <= hi && Distinct(s)
    requires forall x :: x in s ==> lo <= x < hi
    ensures |s| <= hi - lo
    decreases |s|
  {
    if |s| > 0 {
      var e := s[|s| - 1];
      var t := s[..|s| - 1];
      assert e in s;
      // close the gap left by e: the values above it move down by one
      var t' := seq(|t|, n requires 0 <= n < |t| => if t[n] > e then t[n] - 1 else t[n]);
      forall n | 0 <= n < |t'|
        ensures lo <= t'[n] < hi - 1
      {
        assert t[n] == s[n] && s[n] in s && s[n] != e;
      }
      forall a, b | 0 <= a < b < |t'|
        ensures t'[a] != t'[b]
      {
        assert t[a] == s[a] && t[b] == s[b] && s[a] != s[b];
        assert s[a] != e && s[b] != e;
      }
      DistinctBound(t', lo, hi - 1);
    }
  }

  /** A window of non-negative radii. */
  predicate WindowOk(w: Window) {
    w.m >= 0 && w.p >= 0
  }

  /** Cell x is the one the walk around c visits with offsets o. */
  ghost predicate Visited(cd: Dim3, periodic: bool, c: Ijk, w: Window, x: int, o: Ijk)
    requires Positive(cd)
  {
    -w.m <= o.i <= w.p && -w.m <= o.j <= w.p && -w.m <= o.k <= w.p &&
    var t := Ijk(Target(c.i, o.i, cd.x, periodic), Target(c.j, o.j, cd.y, periodic),
                 Target(c.k, o.k, cd.z, periodic));
    InGrid(cd, t) && x == CellId(cd, t)
  }

  /** The window fits every axis, so no cell can be visited twice. */
  predicate FitsAll(cd: Dim3, w: Window, periodic: bool) {
    Fits(w, cd.x, periodic) && Fits(w, cd.y, periodic) && Fits(w, cd.z, periodic)
  }

  /** The innermost (kk) loop, for the row at i-target ti and j-target tj. */
  method WalkRow(cd: Dim3, periodic: bool, c: Ijk, w: Window, oi: int, oj: int)
    returns (ids: seq<int>, offs: seq<Ijk>)
    requires Positive(cd) && WindowOk(w)
    requires -w.m <= oi <= w.p && -w.m <= oj <= w.p
    requires 0 <= Target(c.i, oi, cd.x, periodic) && 0 <= Target(c.j, oj, cd.y, periodic)
    ensures |ids| == |offs|
    ensures forall n :: 0 <= n < |ids| ==>
      Visited(cd, periodic, c, w, ids[n], offs[n]) && offs[n].i == oi && offs[n].j == oj
    ensures forall x :: x in ids <==>
      0 <= x < Count(cd) &&
      CellIjk(cd, x).i == Target(c.i, oi, cd.x, periodic) &&
      CellIjk(cd, x).j == Target(c.j, oj, cd.y, periodic) &&
      Reaches(c.k, CellIjk(cd, x).k, -w.m, w.p + 1, cd.z, periodic)
    ensures Fits(w, cd.z, periodic) ==> Distinct(ids)
  {
    var ti, tj := Target(c.i, oi, cd.x, periodic), Target(c.j, oj, cd.y, periodic);
    ids, offs := [], [];
    for kk := -w.m to w.p + 1
      invariant |ids| == |offs|
      invariant forall n :: 0 <= n < |ids| ==>
        Visited(cd, periodic, c, w, ids[n], offs[n]) && offs[n].i == oi && offs[n].j == oj
      invariant forall x :: x in ids <==>
        0 <= x < Count(cd) && CellIjk(cd, x).i == ti && CellIjk(cd, x).j == tj &&
        Reaches(c.k, CellIjk(cd, x).k, -w.m, kk, cd.z, periodic)
      invariant Fits(w, cd.z, periodic) ==> Distinct(ids)
    {
      var tk := Target(c.k, kk, cd.z, periodic);
      TargetRange(c.k, kk, cd.z, periodic);
      forall x | 0 <= x < Count(cd)
        ensures Reaches(c.k, CellIjk(cd, x).k, -w.m, kk + 1, cd.z, periodic)
                <==> Reaches(c.k, CellIjk(cd, x).k, -w.m, kk, cd.z, periodic) || tk == CellIjk(cd, x).k
      {
        ReachesStep(c.k, CellIjk(cd, x).k, -w.m, kk, cd.z, periodic);
      }
      if tk != -1 {
        var t := Ijk(ti, tj, tk);
        var cjd := CellId(cd, t);
        CellIjkOfId(cd, t);
        CellIdRange(cd, t);
        forall x | 0 <= x < Count(cd) && CellIjk(cd, x) == t
          ensures x == cjd
        {
          CellIdOfIjk(cd, x);
        }
        if Fits(w, cd.z, periodic) {
          TargetFresh(c.k, kk, cd.z, periodic, w);
          assert cjd !in ids;
        }
        ids, offs := ids + [cjd], offs + [Ijk(oi, oj, kk)];
      }
    }
  }

  /** The middle (jj) loop, for the plane at i-target Target(c.i, oi). */
  method WalkPlane(cd: Dim3, periodic: bool, c: Ijk, w: Window, oi: int)
    returns (ids: seq<int>, offs: seq<Ijk>)
    requires Positive(cd) && WindowOk(w)
    requires -w.m <= oi <= w.p && 0 <= Target(c.i, oi, cd.x, periodic)
    ensures |ids| == |offs|
    ensures forall n :: 0 <= n < |ids| ==> Visited(cd, periodic, c, w, ids[n], offs[n]) && offs[n].i == oi
    ensures forall x :: x in ids <==>
      0 <= x < Count(cd) &&
      CellIjk(cd, x).i == Target(c.i, oi, cd.x, periodic) &&
      Reaches(c.j, CellIjk(cd, x).j, -w.m, w.p + 1, cd.y, periodic) &&
      Reaches(c.k, CellIjk(cd, x).k, -w.m, w.p + 1, cd.z, periodic)
    ensures Fits(w, cd.y, periodic) && Fits(w, cd.z, periodic) ==> Distinct(ids)
  {
    var ti := Target(c.i, oi, cd.x, periodic);
    ids, offs := [], [];
    for jj := -w.m to w.p + 1
      invariant |ids| == |offs|
      invariant forall n :: 0 <= n < |ids| ==> Visited(cd, periodic, c, w, ids[n], offs[n]) && offs[n].i == oi
      invariant forall x :: x in ids <==>
        0 <= x < Count(cd) && CellIjk(cd, x).i == ti &&
        Reaches(c.j, CellIjk(cd, x).j, -w.m, jj, cd.y, periodic) &&
        Reaches(c.k, CellIjk(cd, x).k, -w.m, w.p + 1, cd.z, periodic)
      invariant Fits(w, cd.y, periodic) && Fits(w, cd.z, periodic) ==> Distinct(ids)
    {
      var tj := Target(c.j, jj, cd.y, periodic);
      TargetRange(c.j, jj, cd.y, periodic);
      forall x | 0 <= x < Count(cd)
        ensures Reaches(c.j, CellIjk(cd, x).j, -w.m, jj + 1, cd.y, periodic)
                <==> Reaches(c.j, CellIjk(cd, x).j, -w.m, jj, cd.y, periodic) || tj == CellIjk(cd, x).j
      {
        ReachesStep(c.j, CellIjk(cd, x).j, -w.m, jj, cd.y, periodic);
      }
      if tj != -1 {
        var rowIds, rowOffs := WalkRow(cd, periodic, c, w, oi, jj);
        if Fits(w, cd.y, periodic) && Fits(w, cd.z, periodic) {
          TargetFresh(c.j, jj, cd.y, periodic, w);
          DistinctConcat(ids, rowIds);
        }
        ids, offs := ids + rowIds, offs + rowOffs;
      }
    }
  }

  /**
   * The whole walk around c: the visited cells in loop order and the offsets
   * that reached each one. Every visited cell is in the window and every cell
   * of the window is visited; when the window fits every axis, at most once.
   */
  method WalkWindow(cd: Dim3, periodic: bool, c: Ijk, w: Window)
    returns (ids: seq<int>, offs: seq<Ijk>)
    requires Positive(cd) && WindowOk(w)
    ensures |ids| == |offs|
    ensures forall n :: 0 <= n < |ids| ==> Visited(cd, periodic, c, w, ids[n], offs[n])
    ensures forall x :: x in ids <==> InWindow(cd, periodic, c, w, x)
    ensures FitsAll(cd, w, periodic) ==> Distinct(ids)
  {
    ids, offs := [], [];
    for ii := -w.m to w.p + 1
      invariant |ids| == |offs|
      invariant forall n :: 0 <= n < |ids| ==> Visited(cd, periodic, c, w, ids[n], offs[n])
      invariant forall x :: x in ids <==>
        0 <= x < Count(cd) &&
        Reaches(c.i, CellIjk(cd, x).i, -w.m, ii, cd.x, periodic) &&
        Reaches(c.j, CellIjk(cd, x).j, -w.m, w.p + 1, cd.y, periodic) &&
        Reaches(c.k, CellIjk(cd, x).k, -w.m, w.p + 1, cd.z, periodic)
      invariant FitsAll(cd, w, periodic) ==> Distinct(ids)
    {
      var ti := Target(c.i, ii, cd.x, periodic);
      TargetRange(c.i, ii, cd.x, periodic);
      forall x | 0 <= x < Count(cd)
        ensures Reaches(c.i, CellIjk(cd, x).i, -w.m, ii + 1, cd.x, periodic)
                <==> Reaches(c.i, CellIjk(cd, x).i, -w.m, ii, cd.x, periodic) || ti == CellIjk(cd, x).i
      {
        ReachesStep(c.i, CellIjk(cd, x).i, -w.m, ii, cd.x, periodic);
      }
      if ti != -1 {
        var planeIds, planeOffs := WalkPlane(cd, periodic, c, w, ii);
        if FitsAll(cd, w, periodic) {
          TargetFresh(c.i, ii, cd.x, periodic, w);
          DistinctConcat(ids, planeIds);
        }
        ids, offs := ids + planeIds, offs + planeOffs;
      }
    }
  }
  // ---------------------------------------------------------------------------
  // Symmetry of the window

  /**
   * On an axis of n cells, w reaches back from every cell it reaches: its
   * two radii agree, or it is periodic and covers the whole axis.
   */
  predicate ReachesBackOn(w: Window, n: int, periodic: bool) {
    w.m == w.p || (periodic && w.m + w.p + 1 >= n)
  }

  /** Every cell a walk visits is a cell of the grid. */
  lemma WalkInGrid(cd: Dim3, periodic: bool, c: Ijk, w: Window, ids: seq<int>, n: int)
    requires Positive(cd) && n == Count(cd)
    requires forall x :: x in ids <==> InWindow(cd, periodic, c, w, x)
    ensures forall x :: x in ids ==> 0 <= x < n
  {
  }

  /** A periodic window at least as wide as the axis reaches every cell of it. */
  lemma ReachesAll(v: int, t: int, w: Window, n: int)
    requires n > 0 && WindowOk(w) && w.m + w.p + 1 >= n
    requires 0 <= v < n && 0 <= t < n
    ensures Reaches(v, t, -w.m, w.p + 1, n, true)
  {
    var r := t - v;
    var o, q := if r > w.p then r - n else if r < -w.m then r + n else r,
                if r > w.p then -1 else if r < -w.m then 1 else 0;
    assert v + o == q * n + t;
    DivModUnique(v + o, n, q, t);
    assert Target(v, o, n, true) == t;
  }

  /** If v reaches t on an axis where the window reaches back, t reaches v. */
  lemma ReachesBack(v: int, t: int, w: Window, n: int, periodic: bool)
    requires n > 0 && WindowOk(w) && ReachesBackOn(w, n, periodic)
    requires 0 <= v < n && 0 <= t < n
    requires Reaches(v, t, -w.m, w.p + 1, n, periodic)
    ensures Reaches(t, v, -w.m, w.p + 1, n, periodic)
  {
    if periodic && w.m + w.p + 1 >= n {
      ReachesAll(t, v, w, n);
    } else {
      var o :| -w.m <= o < w.p + 1 && Target(v, o, n, periodic) == t;
      TargetBack(v, o, n, periodic);
      ReachesStep(t, v, -w.m, -o, n, periodic);
    }
  }

  /** The offset -o leads back from where the offset o led. */
  lemma TargetBack(v: int, o: int, n: int, periodic: bool)
    requires n > 0 && 0 <= v < n && Target(v, o, n, periodic) != -1
    ensures Target(Target(v, o, n, periodic), -o, n, periodic) == v
  {
    var t := Target(v, o, n, periodic);
    if !periodic {
      NonPeriodicTarget(v, o, n);
      WrapIdentity(v, n);
    } else {
      var q := (v + o) / n;
      assert v + o == q * n + t;
      DivModUnique(t - o, n, -q, v);
    }
  }

  /** The window reaches back on every axis of the grid. */
  predicate ReachesBackAll(cd: Dim3, w: Window, periodic: bool) {
    ReachesBackOn(w, cd.x, periodic) && ReachesBackOn(w, cd.y, periodic) && ReachesBackOn(w, cd.z, periodic)
  }

  /**
   * Where the window reaches back on every axis, cell b is in the window
   * around cell a exactly when a is in the window around b: a walk that
   * keeps only the pairs with a < b still meets every pair once.
   */
  lemma InWindowSymmetric(cd: Dim3, periodic: bool, w: Window, a: int, b: int)
    requires Positive(cd) && WindowOk(w) && ReachesBackAll(cd, w, periodic)
    requires 0 <= a < Count(cd) && 0 <= b < Count(cd)
    ensures InWindow(cd, periodic, CellIjk(cd, a), w, b) <==> InWindow(cd, periodic, CellIjk(cd, b), w, a)
  {
    CellIdOfIjk(cd, a);
    CellIdOfIjk(cd, b);
    var ta, tb := CellIjk(cd, a), CellIjk(cd, b);
    if InWindow(cd, periodic, ta, w, b) {
      ReachesBack(ta.i, tb.i, w, cd.x, periodic);
      ReachesBack(ta.j, tb.j, w, cd.y, periodic);
      ReachesBack(ta.k, tb.k, w, cd.z, periodic);
    }
    if InWindow(cd, periodic, tb, w, a) {
      ReachesBack(tb.i, ta.i, w, cd.x, periodic);
      ReachesBack(tb.j, ta.j, w, cd.y, periodic);
      ReachesBack(tb.k, ta.k, w, cd.z, periodic);
    }
  }
}
