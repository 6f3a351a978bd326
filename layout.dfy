/**
 * The layout of the top-level cell array once the zoom region is known
 * (`construct_zoom_region`): zoom cells first, background cells after them,
 * one background cell (the void cell) standing where the zoom region is; and
 * the location of a point in that array (`cell_getid_zoom`).
 */
module Layout {
  import opened Grid
  import opened Sizing

  /** What construct_zoom_region stores in the space and the zoom properties. */
  datatype Layout = Layout(
    zoomCdim: Dim3,       // zoom cells per axis (read, not set, here)
    zoomWidth: Vec3,      // zoom cell side per axis
    zoomLo: Vec3,         // lower region bounds
    bkgCdim: Dim3,        // background cells per axis
    bkgWidth: Vec3,       // background cell side: the region side on every axis
    zoomCellIjk: Ijk,     // the background cell the region sits in
    offset: int,          // tl_cell_offset: first background index
    nrZoomCells: int,
    nrBkgCells: int,
    voidIndex: int)       // flat index of the void cell

  datatype LayoutError = TooFewCellsForPeriodicity

  /** `(int)floor((dim + 0.1 width) / width)`: background cells across a box side. */
  function BkgCells(d: real, w: real): int
    requires w > 0.0
  {
    ((d + w / 10.0) / w).Floor
  }

  /** A side that is n whole region widths gets exactly n background cells. */
  lemma BkgCellsExact(n: int, w: real)
    requires n >= 1 && w > 0.0
    ensures BkgCells((n as real) * w, w) == n
  {
    var a, c := (n as real) * w + w / 10.0, (n as real) + 1.0 / 10.0;
    assert a == c * w;
    DivCancel(c, w);
    assert a / w == c;
    assert c.Floor == n;
  }

  lemma DivCancel(c: real, w: real)
    requires w > 0.0
    ensures (c * w) / w == c
  {
  }

  predicate PositiveVec(v: Vec3) {
    v.x > 0.0 && v.y > 0.0 && v.z > 0.0
  }

  predicate WidthsOk(l: Layout) {
    PositiveVec(l.zoomWidth) && PositiveVec(l.bkgWidth)
  }

  /** The relations construct_zoom_region establishes between the counts and indices it stores. */
  predicate LayoutOk(l: Layout) {
    Positive(l.zoomCdim) && WidthsOk(l) &&
    l.bkgCdim.x >= 0 && l.bkgCdim.y >= 0 && l.bkgCdim.z >= 0 &&
    l.offset == Count(l.zoomCdim) && l.nrZoomCells == Count(l.zoomCdim) &&
    l.nrBkgCells == Count(l.bkgCdim) && 0 < l.offset && 0 <= l.nrBkgCells &&
    l.zoomCellIjk == Ijk(l.bkgCdim.x / 2, l.bkgCdim.y / 2, l.bkgCdim.z / 2) &&
    l.voidIndex == CellId(l.bkgCdim, l.zoomCellIjk) + l.offset
  }

  /** Total number of top-level cells. */
  function NrCells(l: Layout): int {
    l.nrZoomCells + l.nrBkgCells
  }

  /** The zoom cell side on an axis: the region side w cut into n cells. */
  function ZoomWidth(w: real, n: int): (r: real)
    requires w > 0.0 && n >= 1
    ensures r > 0.0 && r * (n as real) == w
  {
    w / n as real
  }

  /**
   * construct_zoom_region for the region z, the zoom cdim, the box and the
   * periodic switch: fails when a periodic box gets fewer than three
   * background cells on some axis.
   */
  function ConstructZoomRegion(z: ZoomProps, zoomCdim: Dim3, dim: Vec3, periodic: bool)
    : (r: Result<Layout, LayoutError>)
    requires Positive(zoomCdim) && z.width > 0.0 && PositiveVec(dim)
    ensures r.Err? <==>
      periodic && (BkgCells(dim.x, z.width) < 3 || BkgCells(dim.y, z.width) < 3 || BkgCells(dim.z, z.width) < 3)
    ensures r.Ok? ==> LayoutOk(r.value) && r.value.zoomCdim == zoomCdim && r.value.zoomLo == z.lo
    ensures r.Ok? ==> r.value.bkgCdim == Dim3(BkgCells(dim.x, z.width), BkgCells(dim.y, z.width), BkgCells(dim.z, z.width))
    ensures r.Ok? ==> r.value.bkgWidth == Vec3(z.width, z.width, z.width)
    ensures r.Ok? ==>
      r.value.zoomWidth == Vec3(ZoomWidth(z.width, zoomCdim.x), ZoomWidth(z.width, zoomCdim.y), ZoomWidth(z.width, zoomCdim.z))
    ensures r.Ok? && periodic ==> Positive(r.value.bkgCdim)
  {
    var w := z.width;
    var cd := Dim3(BkgCells(dim.x, w), BkgCells(dim.y, w), BkgCells(dim.z, w));
    if periodic && (cd.x < 3 || cd.y < 3 || cd.z < 3) then
      Err(TooFewCellsForPeriodicity)
    else
      var zc := Ijk(cd.x / 2, cd.y / 2, cd.z / 2);
      var offset := Count(zoomCdim);
      CountPositive(zoomCdim);
      CountNonNegative(cd);
      Ok(Layout(zoomCdim,
                Vec3(ZoomWidth(w, zoomCdim.x), ZoomWidth(w, zoomCdim.y), ZoomWidth(w, zoomCdim.z)),
                z.lo, cd, Vec3(w, w, w), zc,
                offset, offset, Count(cd), CellId(cd, zc) + offset))
  }

  /**
   * With at least one background cell per axis, the void cell is a
   * background cell and sits at zoom_cell_ijk.
   */
  lemma VoidInBackground(l: Layout)
    requires LayoutOk(l) && Positive(l.bkgCdim)
    ensures InGrid(l.bkgCdim, l.zoomCellIjk)
    ensures 0 < l.offset <= l.voidIndex < l.offset + l.nrBkgCells
    ensures CellIjk(l.bkgCdim, l.voidIndex - l.offset) == l.zoomCellIjk
  {
    CountPositive(l.zoomCdim);
    CellIdRange(l.bkgCdim, l.zoomCellIjk);
    CellIjkOfId(l.bkgCdim, l.zoomCellIjk);
  }

  // ---------------------------------------------------------------------------
  // Point location

  /** The background ijk of a point: `(int)(x * iwidth)` (iwidth is exactly 1 / width here). */
  function BkgIjk(l: Layout, p: Vec3): Ijk
    requires WidthsOk(l)
  {
    Ijk(Trunc(p.x / l.bkgWidth.x), Trunc(p.y / l.bkgWidth.y), Trunc(p.z / l.bkgWidth.z))
  }

  /** The zoom ijk of a point: `(int)((x - region lower bound) * zoom iwidth)`. */
  function ZoomIjk(l: Layout, p: Vec3): Ijk
    requires WidthsOk(l)
  {
    Ijk(Trunc((p.x - l.zoomLo.x) / l.zoomWidth.x), Trunc((p.y - l.zoomLo.y) / l.zoomWidth.y),
        Trunc((p.z - l.zoomLo.z) / l.zoomWidth.z))
  }

  /** `cell_getid_zoom`: the top-level cell holding p. */
  function CellGetIdZoom(l: Layout, p: Vec3): int
    requires LayoutOk(l)
  {
    var b := BkgIjk(l, p);
    if b == l.zoomCellIjk then CellId(l.zoomCdim, ZoomIjk(l, p))
    else CellId(l.bkgCdim, b) + l.offset
  }

  /**
   * With an in-range background ijk (and an in-range zoom ijk inside the
   * void cell) the located index is a zoom index exactly when
   * the background ijk is zoom_cell_ijk, and it decodes back to the ijk it
   * was built from in its own segment; a point never lands on the void cell.
   */
  lemma LocateSegments(l: Layout, p: Vec3)
    requires LayoutOk(l) && InGrid(l.bkgCdim, BkgIjk(l, p))
    requires BkgIjk(l, p) == l.zoomCellIjk ==> InGrid(l.zoomCdim, ZoomIjk(l, p))
    ensures CellGetIdZoom(l, p) < l.offset <==> BkgIjk(l, p) == l.zoomCellIjk
    ensures BkgIjk(l, p) == l.zoomCellIjk ==>
      0 <= CellGetIdZoom(l, p) && CellIjk(l.zoomCdim, CellGetIdZoom(l, p)) == ZoomIjk(l, p)
    ensures BkgIjk(l, p) != l.zoomCellIjk ==>
      CellGetIdZoom(l, p) < l.offset + l.nrBkgCells && CellGetIdZoom(l, p) != l.voidIndex &&
      CellIjk(l.bkgCdim, CellGetIdZoom(l, p) - l.offset) == BkgIjk(l, p)
  {
    var b := BkgIjk(l, p);
    CellIdRange(l.bkgCdim, b);
    CellIjkOfId(l.bkgCdim, b);
    if b == l.zoomCellIjk {
      CellIdRange(l.zoomCdim, ZoomIjk(l, p));
      CellIjkOfId(l.zoomCdim, ZoomIjk(l, p));
    } else {
      VoidInBackground(l);
      if CellId(l.bkgCdim, b) == CellId(l.bkgCdim, l.zoomCellIjk) {
        CellIdInjective(l.bkgCdim, b, l.zoomCellIjk);
      }
    }
  }

  /** A coordinate in the k-th slab of side w truncates to k. */
  lemma AxisIndex(x: real, w: real, k: int)
    requires w > 0.0 && k >= 0 && (k as real) * w <= x < ((k + 1) as real) * w
    ensures Trunc(x / w) == k
  {
    var q := x / w;
    assert q * w == x;
    if q < k as real {
      MulStrict(q, k as real, w);
    }
    if q >= (k + 1) as real {
      MulMono((k + 1) as real, q, w);
    }
  }

  /** A coordinate within n cells of side w from lo lands on one of those n cells. */
  lemma AxisZoom(x: real, lo: real, w: real, n: int)
    requires w > 0.0 && n >= 1 && lo <= x < lo + w * (n as real)
    ensures 0 <= Trunc((x - lo) / w) < n
  {
    var q := (x - lo) / w;
    assert q * w == x - lo;
    if q < 0.0 {
      MulStrict(q, 0.0, w);
    }
    if q >= n as real {
      MulMono(n as real, q, w);
    }
  }

  /** The region occupies exactly the void cell and the zoom cells tile it. */
  predicate Aligned(l: Layout) {
    WidthsOk(l) && Positive(l.zoomCdim) &&
    l.zoomCellIjk.i >= 0 && l.zoomCellIjk.j >= 0 && l.zoomCellIjk.k >= 0 &&
    l.zoomLo == Vec3((l.zoomCellIjk.i as real) * l.bkgWidth.x, (l.zoomCellIjk.j as real) * l.bkgWidth.y,
                     (l.zoomCellIjk.k as real) * l.bkgWidth.z) &&
    l.zoomWidth == Vec3(l.bkgWidth.x / l.zoomCdim.x as real, l.bkgWidth.y / l.zoomCdim.y as real,
                        l.bkgWidth.z / l.zoomCdim.z as real)
  }

  /** p lies in the half-open slab of background cells [t, t + 1) on every axis. */
  predicate InCell(l: Layout, t: Ijk, p: Vec3) {
    (t.i as real) * l.bkgWidth.x <= p.x < ((t.i + 1) as real) * l.bkgWidth.x &&
    (t.j as real) * l.bkgWidth.y <= p.y < ((t.j + 1) as real) * l.bkgWidth.y &&
    (t.k as real) * l.bkgWidth.z <= p.z < ((t.k + 1) as real) * l.bkgWidth.z
  }

  /** A point of the region has the void cell's background ijk and an in-range zoom ijk. */
  lemma LocateInRegionIjk(l: Layout, p: Vec3)
    requires Aligned(l) && InCell(l, l.zoomCellIjk, p)
    ensures BkgIjk(l, p) == l.zoomCellIjk && InGrid(l.zoomCdim, ZoomIjk(l, p))
  {
    var t := l.zoomCellIjk;
    AxisInRegion(p.x, t.i, l.bkgWidth.x, l.zoomLo.x, l.zoomWidth.x, l.zoomCdim.x);
    AxisInRegion(p.y, t.j, l.bkgWidth.y, l.zoomLo.y, l.zoomWidth.y, l.zoomCdim.y);
    AxisInRegion(p.z, t.k, l.bkgWidth.z, l.zoomLo.z, l.zoomWidth.z, l.zoomCdim.z);
  }

  /** A point of the region is located in a zoom cell. */
  lemma LocateInRegion(l: Layout, p: Vec3)
    requires LayoutOk(l) && Aligned(l) && InCell(l, l.zoomCellIjk, p)
    ensures 0 <= CellGetIdZoom(l, p) < l.offset
  {
    LocateInRegionIjk(l, p);
    CellIdRange(l.zoomCdim, ZoomIjk(l, p));
  }

  /** One axis of LocateInRegion: the background slab t starting at lo, cut into n zoom slabs. */
  lemma AxisInRegion(x: real, t: int, bw: real, lo: real, zw: real, n: int)
    requires bw > 0.0 && zw > 0.0 && t >= 0 && n >= 1
    requires lo == (t as real) * bw && zw == bw / (n as real)
    requires (t as real) * bw <= x < ((t + 1) as real) * bw
    ensures Trunc(x / bw) == t && 0 <= Trunc((x - lo) / zw) < n
  {
    AxisIndex(x, bw, t);
    assert zw * (n as real) == bw;
    assert ((t + 1) as real) * bw == lo + zw * (n as real);
    AxisZoom(x, lo, zw, n);
  }

  /** A point of any other background cell of the grid is located in that cell, never the void cell. */
  lemma LocateOutsideRegion(l: Layout, t: Ijk, p: Vec3)
    requires LayoutOk(l) && InGrid(l.bkgCdim, t) && t != l.zoomCellIjk && InCell(l, t, p)
    ensures BkgIjk(l, p) == t
    ensures l.offset <= CellGetIdZoom(l, p) < l.offset + l.nrBkgCells
    ensures CellGetIdZoom(l, p) != l.voidIndex
    ensures CellIjk(l.bkgCdim, CellGetIdZoom(l, p) - l.offset) == t
  {
    AxisIndex(p.x, l.bkgWidth.x, t.i);
    AxisIndex(p.y, l.bkgWidth.y, t.j);
    AxisIndex(p.z, l.bkgWidth.z, t.k);
    CellIdRange(l.bkgCdim, t);
    CellIjkOfId(l.bkgCdim, t);
    VoidInBackground(l);
    if CellId(l.bkgCdim, t) == CellId(l.bkgCdim, l.zoomCellIjk) {
      CellIdInjective(l.bkgCdim, t, l.zoomCellIjk);
    }
  }

  /**
   * In a cubic box, the layout built from a region that zoom_region_init
   * sized (an odd number n of region sides tile the box side, the bounds
   * centred) has n background cells per axis, and the region is exactly the
   * middle background cell, tiled by the zoom cells.
   */
  lemma {:induction false} SizedRegionIsVoidCell(z: ZoomProps, zoomCdim: Dim3, dim: Vec3, periodic: bool)
    requires z.nrZoomRegions >= 1 && z.nrZoomRegions % 2 == 1
    requires z.width * (z.nrZoomRegions as real) == dim.x && Centred(z, dim)
    requires dim.x == dim.y == dim.z
    requires Positive(zoomCdim) && z.width > 0.0 && PositiveVec(dim)
    requires !periodic || z.nrZoomRegions >= 3
    ensures ConstructZoomRegion(z, zoomCdim, dim, periodic).Ok?
    ensures var l := ConstructZoomRegion(z, zoomCdim, dim, periodic).value;
      LayoutOk(l) && Aligned(l) && l.bkgCdim == Dim3(z.nrZoomRegions, z.nrZoomRegions, z.nrZoomRegions) &&
      Positive(l.bkgCdim)
  {
    var n, w := z.nrZoomRegions, z.width;
    var k := n / 2;
    var h := (k as real) * w;
    assert BkgCells(dim.x, w) == n by {
      assert dim.x == (n as real) * w;
      BkgCellsExact(n, w);
    }
    assert z.lo == Vec3(h, h, h) by {
      CentredLow(z.lo.x, z.hi.x, dim.x, w, n);
      CentredLow(z.lo.y, z.hi.y, dim.x, w, n);
      CentredLow(z.lo.z, z.hi.z, dim.x, w, n);
    }
    var l := ConstructZoomRegion(z, zoomCdim, dim, periodic).value;
    assert l.bkgCdim == Dim3(n, n, n) && l.zoomCellIjk == Ijk(k, k, k);
    assert l.bkgWidth == Vec3(w, w, w) && l.zoomLo == Vec3(h, h, h);
    AlignedAt(l, k, w);
  }

  /** A layout whose region starts k background widths in on every axis is aligned. */
  lemma AlignedAt(l: Layout, k: int, w: real)
    requires WidthsOk(l) && Positive(l.zoomCdim) && k >= 0
    requires l.zoomCellIjk == Ijk(k, k, k) && l.bkgWidth == Vec3(w, w, w)
    requires l.zoomLo == Vec3((k as real) * w, (k as real) * w, (k as real) * w)
    requires l.zoomWidth == Vec3(ZoomWidth(w, l.zoomCdim.x), ZoomWidth(w, l.zoomCdim.y), ZoomWidth(w, l.zoomCdim.z))
    ensures Aligned(l)
  {
  }

  /** Bounds of side w centred on a side of n (odd) widths start n / 2 widths in. */
  lemma CentredLow(lo: real, hi: real, d: real, w: real, n: int)
    requires lo + hi == d && hi - lo == w && (n as real) * w == d && n >= 1 && n % 2 == 1
    ensures lo == ((n / 2) as real) * w
  {
    var h := n / 2;
    assert n as real == 2.0 * (h as real) + 1.0;
    assert d == 2.0 * ((h as real) * w) + w;
  }
}
