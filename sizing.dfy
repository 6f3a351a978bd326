/**
 * Sizing of the zoom region (`zoom_region_init`): the bounding box of the
 * dark-matter particles, the check that it fits in half the box, the shift
 * that centres it, and the odd number of region widths per box side that
 * makes the background and zoom grids line up.
 */
module Sizing {
  import opened Grid

  /** The part of a gravity particle the sizing reads: position and whether it is dark matter. */
  datatype GPart = GPart(pos: Vec3, darkMatter: bool)

  /** An axis-aligned box [lo, hi] (`new_zoom_boundary`). */
  datatype Box = Box(lo: Vec3, hi: Vec3)

  /** The starting boundary, 1e20 below and -1e20 above. */
  const Far: real := 100000000000000000000.0

  function Shifted(p: Vec3, s: Vec3): Vec3 {
    Vec3(p.x + s.x, p.y + s.y, p.z + s.z)
  }

  predicate InBox(b: Box, p: Vec3) {
    b.lo.x <= p.x <= b.hi.x && b.lo.y <= p.y <= b.hi.y && b.lo.z <= p.z <= b.hi.z
  }

  function Coord(v: Vec3, a: int): real {
    if a == 0 then v.x else if a == 1 then v.y else v.z
  }

  /** The six "amend the boundary" updates for one particle. */
  function Extend(b: Box, p: Vec3): (e: Box)
    ensures InBox(e, p)
    ensures forall q :: InBox(b, q) ==> InBox(e, q)
  {
    Box(Vec3(if p.x < b.lo.x then p.x else b.lo.x,
             if p.y < b.lo.y then p.y else b.lo.y,
             if p.z < b.lo.z then p.z else b.lo.z),
        Vec3(if p.x > b.hi.x then p.x else b.hi.x,
             if p.y > b.hi.y then p.y else b.hi.y,
             if p.z > b.hi.z then p.z else b.hi.z))
  }

  /** The boundary after the scan of `parts`: every dark-matter position, shifted by the IC shift. */
  function BoxOf(parts: seq<GPart>, shift: Vec3): Box {
    if |parts| == 0 then Box(Vec3(Far, Far, Far), Vec3(-Far, -Far, -Far))
    else
      var b := BoxOf(parts[..|parts| - 1], shift);
      var q := parts[|parts| - 1];
      if q.darkMatter then Extend(b, Shifted(q.pos, shift)) else b
  }

  /**
   * The particle loop of zoom_region_init: the shifted positions are not
   * wrapped (the `box_wrap` results are discarded), and non-dark-matter
   * particles are skipped.
   */
  method ScanDarkMatter(parts: seq<GPart>, shift: Vec3) returns (b: Box)
    ensures b == BoxOf(parts, shift)
  {
    b := Box(Vec3(Far, Far, Far), Vec3(-Far, -Far, -Far));
    for k := 0 to |parts|
      invariant b == BoxOf(parts[..k], shift)
    {
      assert parts[..k + 1][..k] == parts[..k];
      if !parts[k].darkMatter {
        continue;
      }
      var p := Shifted(parts[k].pos, shift);
      var lo, hi := b.lo, b.hi;
      if p.x < lo.x { lo := lo.(x := p.x); }
      if p.x > hi.x { hi := hi.(x := p.x); }
      if p.y < lo.y { lo := lo.(y := p.y); }
      if p.y > hi.y { hi := hi.(y := p.y); }
      if p.z < lo.z { lo := lo.(z := p.z); }
      if p.z > hi.z { hi := hi.(z := p.z); }
      b := Box(lo, hi);
    }
    assert parts[..|parts|] == parts;
  }

  /** Every dark-matter particle lies in the scanned box. */
  lemma {:induction false} BoxContains(parts: seq<GPart>, shift: Vec3, i: int)
    requires 0 <= i < |parts| && parts[i].darkMatter
    ensures InBox(BoxOf(parts, shift), Shifted(parts[i].pos, shift))
  {
    var prefix := parts[..|parts| - 1];
    if i < |parts| - 1 {
      assert prefix[i] == parts[i];
      BoxContains(prefix, shift, i);
    }
  }

  /** Each face of the scanned box is either still at its starting value or touches a dark-matter particle. */
  lemma {:induction false} BoxTight(parts: seq<GPart>, shift: Vec3, a: int)
    requires 0 <= a < 3
    ensures Coord(BoxOf(parts, shift).lo, a) == Far ||
            exists i :: 0 <= i < |parts| && parts[i].darkMatter &&
                        Coord(Shifted(parts[i].pos, shift), a) == Coord(BoxOf(parts, shift).lo, a)
    ensures Coord(BoxOf(parts, shift).hi, a) == -Far ||
            exists i :: 0 <= i < |parts| && parts[i].darkMatter &&
                        Coord(Shifted(parts[i].pos, shift), a) == Coord(BoxOf(parts, shift).hi, a)
  {
    if |parts| > 0 {
      var last := |parts| - 1;
      var prefix := parts[..last];
      var b, e := BoxOf(prefix, shift), BoxOf(parts, shift);
      BoxTight(prefix, shift, a);
      if Coord(e.lo, a) != Far && !(parts[last].darkMatter && Coord(Shifted(parts[last].pos, shift), a) == Coord(e.lo, a)) {
        assert Coord(e.lo, a) == Coord(b.lo, a);
        var i :| 0 <= i < |prefix| && prefix[i].darkMatter && Coord(Shifted(prefix[i].pos, shift), a) == Coord(b.lo, a);
        assert parts[i] == prefix[i];
      }
      if Coord(e.hi, a) != -Far && !(parts[last].darkMatter && Coord(Shifted(parts[last].pos, shift), a) == Coord(e.hi, a)) {
        assert Coord(e.hi, a) == Coord(b.hi, a);
        var i :| 0 <= i < |prefix| && prefix[i].darkMatter && Coord(Shifted(prefix[i].pos, shift), a) == Coord(b.hi, a);
        assert parts[i] == prefix[i];
      }
    }
  }

  // ---------------------------------------------------------------------------
  // Region geometry

  function Extent(b: Box): Vec3 {
    Vec3(b.hi.x - b.lo.x, b.hi.y - b.lo.y, b.hi.z - b.lo.z)
  }

  /** The geometric mid point, written `hi - extent / 2`. */
  function Midpoint(b: Box): Vec3 {
    Vec3(b.hi.x - (b.hi.x - b.lo.x) / 2.0, b.hi.y - (b.hi.y - b.lo.y) / 2.0, b.hi.z - (b.hi.z - b.lo.z) / 2.0)
  }

  function Half(v: Vec3): Vec3 {
    Vec3(v.x / 2.0, v.y / 2.0, v.z / 2.0)
  }

  function Max3(v: Vec3): real {
    if v.x >= v.y && v.x >= v.z then v.x else if v.y >= v.z then v.y else v.z
  }

  lemma Max3Bounds(v: Vec3)
    ensures v.x <= Max3(v) && v.y <= Max3(v) && v.z <= Max3(v)
  {
  }

  /** Some initial extent exceeds half the box on its axis. */
  predicate TooLarge(ext: Vec3, dim: Vec3) {
    ext.x > dim.x / 2.0 || ext.y > dim.y / 2.0 || ext.z > dim.z / 2.0
  }

  /** The shift the fatal message suggests: half the box on each offending axis, zero elsewhere. */
  function SuggestedShift(ext: Vec3, dim: Vec3): (s: Vec3)
    ensures s.x == 0.0 || s.x == dim.x / 2.0
    ensures s.y == 0.0 || s.y == dim.y / 2.0
    ensures s.z == 0.0 || s.z == dim.z / 2.0
    ensures dim.x > 0.0 ==> (s.x != 0.0 <==> ext.x > dim.x / 2.0)
    ensures dim.y > 0.0 ==> (s.y != 0.0 <==> ext.y > dim.y / 2.0)
    ensures dim.z > 0.0 ==> (s.z != 0.0 <==> ext.z > dim.z / 2.0)
    ensures dim.x > 0.0 && dim.y > 0.0 && dim.z > 0.0 ==> (TooLarge(ext, dim) <==> s != Vec3(0.0, 0.0, 0.0))
  {
    Vec3(if ext.x > dim.x / 2.0 then dim.x / 2.0 else 0.0,
         if ext.y > dim.y / 2.0 then dim.y / 2.0 else 0.0,
         if ext.z > dim.z / 2.0 then dim.z / 2.0 else 0.0)
  }

  /** The largest odd integer not above k (the "if even, subtract one" step). */
  function OddAtMost(k: int): (n: int)
    ensures n % 2 == 1 && n <= k < n + 2
  {
    if k % 2 == 0 then k - 1 else k
  }

  lemma MulMono(a: real, b: real, c: real)
    requires a <= b && c >= 0.0
    ensures a * c <= b * c
  {
  }

  /** Scaling by a factor of at least one does not shrink. */
  lemma Grows(a: real, k: real)
    requires a >= 0.0 && k >= 1.0
    ensures a <= a * k
  {
    assert a * k - a == a * (k - 1.0);
  }

  lemma MulStrict(a: real, b: real, c: real)
    requires a < b && c > 0.0
    ensures a * c < b * c
  {
  }

  /** `(int)(dim0 / maxDim)`: how many boosted regions fit across the box. */
  function FitCount(dim0: real, maxDim: real): (n: int)
    requires dim0 > 0.0 && maxDim > 0.0
    ensures n >= 0 && (n as real) * maxDim <= dim0 < ((n + 1) as real) * maxDim
  {
    var q := dim0 / maxDim;
    assert q * maxDim == dim0;
    TruncNonNegative(q);
    MulMono(Trunc(q) as real, q, maxDim);
    var n := Trunc(q);
    assert q < (n + 1) as real;
    MulStrict(q, (n + 1) as real, maxDim);
    assert dim0 < ((n + 1) as real) * maxDim;
    n
  }

  lemma FitAtLeastOne(dim0: real, maxDim: real)
    requires 0.0 < maxDim <= dim0
    ensures FitCount(dim0, maxDim) >= 1
  {
    var q := dim0 / maxDim;
    assert q * maxDim == dim0;
    assert q >= 1.0 by {
      if q < 1.0 { MulStrict(q, 1.0, maxDim); }
    }
  }

  /**
   * The region count as written at zoom_region.c:228-229: when not even one
   * boosted region fits across the box, the count becomes -1.
   */
  function NrZoomRegionsAsWritten(dim0: real, maxDim: real): (n: int)
    requires dim0 > 0.0 && maxDim > 0.0
    ensures n % 2 == 1 && (n as real) * maxDim <= dim0
  {
    var k := FitCount(dim0, maxDim);
    MulMono(OddAtMost(k) as real, k as real, maxDim);
    OddAtMost(k)
  }

  /** A box side of 100 and a boosted extent of 105 (extent 50, boost 2.1) give -1 regions. */
  lemma NrZoomRegionsAsWrittenNegative()
    ensures NrZoomRegionsAsWritten(100.0, 105.0) == -1
    ensures 100.0 / (NrZoomRegionsAsWritten(100.0, 105.0) as real) < 0.0
  {
    assert FitCount(100.0, 105.0) == 0;
  }

  /**
   * The boost factor as written at zoom_region.c:243-245, from the box side,
   * the old and the clamped region counts and the old factor: the divisor
   * `max_dim / boost` uses the width already rounded to the old count.
   */
  function RefinedBoostAsWritten(dim0: real, oldCount: int, newCount: int, boost: real): real
    requires oldCount > 0 && newCount > 0 && boost > 0.0 && dim0 > 0.0
  {
    (dim0 / newCount as real) / ((dim0 / oldCount as real) / boost)
  }

  /**
   * Box 100, extent 10, boost 1.1: 9 regions fit, clamped to 5 (width 20),
   * but the reported factor is 1.98 where the region is 2.0 times the extent.
   */
  lemma RefinedBoostAsWrittenMismatch()
    ensures FitCount(100.0, 10.0 * 1.1) == 9
    ensures RefinedBoostAsWritten(100.0, 9, 5, 1.1) == 1.98
    ensures RefinedBoostAsWritten(100.0, 9, 5, 1.1) * 10.0 != 100.0 / 5.0
  {
  }

  /** Why zoom_region_init stops. */
  datatype InitError =
    | ExtendsBeyondBox(suggestedShift: Vec3)
    | WiderThanBox

  /** What zoom_region_init stores in the zoom properties. */
  datatype ZoomProps = ZoomProps(
    zoomShift: Vec3,       // moves the particles' mid point to the box centre
    nrZoomRegions: int,    // region widths per box side (odd)
    width: real,           // the region side, equal on all axes
    boostFactor: real,     // region width over particle extent when refined
    lo: Vec3, hi: Vec3)    // region_bounds

  /** The region bounds are symmetric about the box mid point with side `width`. */
  predicate Centred(z: ZoomProps, dim: Vec3) {
    z.lo.x + z.hi.x == dim.x && z.lo.y + z.hi.y == dim.y && z.lo.z + z.hi.z == dim.z &&
    z.hi.x - z.lo.x == z.width && z.hi.y - z.lo.y == z.width && z.hi.z - z.lo.z == z.width
  }


  /** The smallest odd integer not below k. */
  function OddAtLeast(k: int): (n: int)
    ensures n % 2 == 1 && n - 2 < k <= n
  {
    if k % 2 == 0 then k + 1 else k
  }

  /** n is the largest odd count of regions of side maxDim that fits across dim0. */
  predicate LargestOddFit(n: int, dim0: real, maxDim: real) {
    n % 2 == 1 && (n as real) * maxDim <= dim0 < ((n + 2) as real) * maxDim
  }

  /**
   * The refinement clamp applies: refinement is on and the odd count that fits
   * is at least cdim0, that is, some odd count not below cdim0 fits.
   */
  predicate Clamps(refine: bool, cdim0: int, dim0: real, maxDim: real) {
    refine && (OddAtLeast(cdim0) as real) * maxDim <= dim0
  }

  /** For the largest odd count that fits, "at least cdim0" is the floor-free test of Clamps. */
  lemma ClampTest(odd: int, cdim0: int, dim0: real, maxDim: real)
    requires maxDim > 0.0 && LargestOddFit(odd, dim0, maxDim)
    ensures odd >= cdim0 <==> (OddAtLeast(cdim0) as real) * maxDim <= dim0
  {
    var c := OddAtLeast(cdim0);
    if odd >= cdim0 {
      if odd < c {
        OddGap(odd, c);
      }
      MulMono(c as real, odd as real, maxDim);
    } else {
      OddGap(odd, c);
      MulMono((odd + 2) as real, c as real, maxDim);
    }
  }

  /** Two distinct odd numbers are at least two apart. */
  lemma OddGap(a: int, b: int)
    requires a % 2 == 1 && b % 2 == 1 && a < b
    ensures a + 2 <= b
  {
  }

  /** The region side `dim0 / count`: count regions tile the box side, each at least maxDim wide. */
  lemma WidthBound(dim0: real, count: int, maxDim: real)
    requires count >= 1 && maxDim > 0.0 && (count as real) * maxDim <= dim0
    ensures (dim0 / count as real) * (count as real) == dim0 && dim0 / count as real >= maxDim
  {
    var w := dim0 / count as real;
    assert w * (count as real) == dim0;
    if w < maxDim {
      MulStrict(w, maxDim, count as real);
    }
  }

  /** The shift that moves the box mid point to the box centre. */
  function CentreShift(mid: Vec3, dim: Vec3): (s: Vec3)
    ensures Shifted(mid, s) == Half(dim)
  {
    Vec3(dim.x / 2.0 - mid.x, dim.y / 2.0 - mid.y, dim.z / 2.0 - mid.z)
  }

  /** Region bounds of side `width` centred on the box mid point. */
  function CentredRegion(shift: Vec3, count: int, width: real, factor: real, dim: Vec3): (z: ZoomProps)
    ensures Centred(z, dim)
    ensures z.zoomShift == shift && z.nrZoomRegions == count && z.width == width && z.boostFactor == factor
  {
    ZoomProps(shift, count, width, factor,
              Vec3(dim.x / 2.0 - width / 2.0, dim.y / 2.0 - width / 2.0, dim.z / 2.0 - width / 2.0),
              Vec3(dim.x / 2.0 + width / 2.0, dim.y / 2.0 + width / 2.0, dim.z / 2.0 + width / 2.0))
  }

  function Bounds(z: ZoomProps): Box {
    Box(z.lo, z.hi)
  }

  /**
   * A box no wider than the region on any axis, whose mid point the zoom
   * shift moves to the box centre, lies in the centred region once moved.
   */
  lemma CentredHoldsBox(b: Box, z: ZoomProps, dim: Vec3)
    requires Centred(z, dim) && Shifted(Midpoint(b), z.zoomShift) == Half(dim)
    requires Max3(Extent(b)) <= z.width
    ensures forall p :: InBox(b, p) ==> InBox(Bounds(z), Shifted(p, z.zoomShift))
  {
    Max3Bounds(Extent(b));
  }

  /**
   * The region z suits a particle extent, a boost factor, the box, the zoom
   * cdim and the refinement switch: an odd number of equal regions tile the
   * box side, each at least as wide as the boosted extent; without the
   * refinement clamp the count is the largest odd one that fits and the boost
   * factor is kept, with it the count is the largest odd one not above cdim0
   * and the stored factor is the region side over the extent; the bounds are
   * centred on the box.
   */
  ghost predicate Sized(z: ZoomProps, extent: real, boost: real, dim: Vec3, cdim0: int, refine: bool) {
    z.nrZoomRegions >= 1 && z.nrZoomRegions % 2 == 1 &&
    z.width * (z.nrZoomRegions as real) == dim.x && z.width >= extent * boost &&
    Centred(z, dim) &&
    (!Clamps(refine, cdim0, dim.x, extent * boost) ==>
      LargestOddFit(z.nrZoomRegions, dim.x, extent * boost) && z.boostFactor == boost) &&
    (Clamps(refine, cdim0, dim.x, extent * boost) ==>
      z.nrZoomRegions <= cdim0 < z.nrZoomRegions + 2 && z.boostFactor * extent == z.width)
  }

  /**
   * zoom_region_init after the particle scan, for the box b, the box side dim,
   * the boost factor, the zoom cdim and the refinement switch. It fails when
   * an extent exceeds half the box, or (unlike the as-written code, which
   * goes on with -1 regions) when not even one boosted region fits across it.
   * Otherwise an odd number of equal regions tile the box side, each at least
   * as wide as the boosted extent; the count is the largest odd one that fits
   * or, when the refinement clamp applies, the largest odd one not above
   * cdim0, with the boost factor raised to the region side over the extent;
   * the region is centred on the box and, for a boost factor of at least one,
   * holds the particle box once it is moved by the zoom shift.
   */
  method ZoomRegionInit(b: Box, dim: Vec3, boost: real, cdim0: int, refine: bool)
    returns (r: Result<ZoomProps, InitError>)
    requires dim.x > 0.0 && boost > 0.0 && cdim0 >= 1
    requires Max3(Extent(b)) > 0.0
    ensures r.Err? && r.error.ExtendsBeyondBox? <==> TooLarge(Extent(b), dim)
    ensures r.Err? && r.error.ExtendsBeyondBox? ==> r.error.suggestedShift == SuggestedShift(Extent(b), dim)
    ensures r == Err(WiderThanBox) <==> !TooLarge(Extent(b), dim) && Max3(Extent(b)) * boost > dim.x
    ensures r.Ok? ==> Sized(r.value, Max3(Extent(b)), boost, dim, cdim0, refine)
    ensures r.Ok? ==> Shifted(Midpoint(b), r.value.zoomShift) == Half(dim)
    ensures r.Ok? && boost >= 1.0 ==>
      forall p :: InBox(b, p) ==> InBox(Bounds(r.value), Shifted(p, r.value.zoomShift))
  {
    var ext := Extent(b);
    var extent := Max3(ext);
    if TooLarge(ext, dim) {
      r := Err(ExtendsBeyondBox(SuggestedShift(ext, dim)));
    } else if extent * boost > dim.x {
      r := Err(WiderThanBox);
    } else {
      var shift := CentreShift(Midpoint(b), dim);
      var z := SizeRegion(extent, boost, dim, cdim0, refine, shift);
      if boost >= 1.0 {
        CentredHoldsBox(b, z, dim);
      }
      r := Ok(z);
    }
  }

  /**
   * The region zoom_region_init settles on once the boosted extent
   * `extent * boost` fits across the box: RegionCount regions of equal side
   * tile the box side; the boost factor is kept, or, when the refinement
   * clamp was taken, raised to the region side over the extent; the bounds
   * are centred on the box.
   */
  method SizeRegion(extent: real, boost: real, dim: Vec3, cdim0: int, refine: bool, shift: Vec3)
    returns (z: ZoomProps)
    requires extent > 0.0 && boost > 0.0 && cdim0 >= 1 && extent * boost <= dim.x
    ensures Sized(z, extent, boost, dim, cdim0, refine) && z.zoomShift == shift
    ensures boost >= 1.0 ==> extent <= z.width
  {
    var maxDim := extent * boost;
    assert 0.0 < maxDim by {
      MulStrict(0.0, boost, extent);
    }
    assert boost >= 1.0 ==> extent <= maxDim by {
      if boost >= 1.0 {
        Grows(extent, boost);
      }
    }
    var n, clamped := RegionCount(dim.x, maxDim, cdim0, refine);
    var width := dim.x / n as real;
    WidthBound(dim.x, n, maxDim);
    var factor := boost;
    if clamped {
      factor := width / extent;
    }
    z := CentredRegion(shift, n, width, factor, dim);
  }

  /**
   * The region count of zoom_region.c:228-254 once at least one boosted
   * region of side maxDim fits across the box side dim0: the truncated
   * quotient made odd, then, when refining and it is at least cdim0, cdim0
   * made odd; `clamped` says whether that second step was taken. (The
   * as-written code reaches this without the "fits" precondition; see
   * NrZoomRegionsAsWritten.)
   */
  method RegionCount(dim0: real, maxDim: real, cdim0: int, refine: bool) returns (n: int, clamped: bool)
    requires 0.0 < maxDim <= dim0 && cdim0 >= 1
    ensures n >= 1 && n % 2 == 1 && (n as real) * maxDim <= dim0
    ensures clamped <==> Clamps(refine, cdim0, dim0, maxDim)
    ensures !clamped ==> LargestOddFit(n, dim0, maxDim)
    ensures clamped ==> n <= cdim0 < n + 2
  {
    var fit := FitCount(dim0, maxDim);
    n := OddAtMost(fit);
    OddFit(fit, dim0, maxDim);
    ClampTest(n, cdim0, dim0, maxDim);
    clamped := false;
    if refine && n >= cdim0 {
      var wide := n;
      n := OddAtMost(cdim0);
      NarrowerFits(n, wide, dim0, maxDim);
      clamped := true;
    }
  }

  /** The truncated quotient made odd is the largest odd count that fits, and at least one. */
  lemma OddFit(fit: int, dim0: real, maxDim: real)
    requires 0.0 < maxDim <= dim0 && fit == FitCount(dim0, maxDim)
    ensures OddAtMost(fit) >= 1 && LargestOddFit(OddAtMost(fit), dim0, maxDim)
  {
    FitAtLeastOne(dim0, maxDim);
    var n := OddAtMost(fit);
    MulMono(n as real, fit as real, maxDim);
    MulMono((fit + 1) as real, (n + 2) as real, maxDim);
  }

  /** A count no larger than one that fits also fits. */
  lemma NarrowerFits(n: int, wide: int, dim0: real, maxDim: real)
    requires n <= wide && maxDim > 0.0 && (wide as real) * maxDim <= dim0
    ensures (n as real) * maxDim <= dim0
  {
    MulMono(n as real, wide as real, maxDim);
  }
}
