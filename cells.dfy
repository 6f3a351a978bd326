/**
 * The top-level cells of a zoom run: their kinds, their construction
 * (`construct_tl_cells_with_zoom_region`), the consistency check run after it
 * (`debug_cell_type`), the relabelling of the background cells around the
 * zoom region (`find_neighbouring_cells`) and the minimum-distance dispatch
 * between two top-level cells (`cell_min_dist2`).
 */
module Cells {
  import opened Grid
  import opened Walk
  import opened Layout

  /** `tl_cell_type`: tl_cell (0), tl_cell_neighbour (1), void_tl_cell (2), zoom_tl_cell (3). */
  datatype Kind = Plain | Neighbour | Void | Zoom

  function KindCode(k: Kind): int {
    match k
    case Plain => 0
    case Neighbour => 1
    case Void => 2
    case Zoom => 3
  }

  /** A kind of at most 2 is a background-grid cell. */
  predicate BackgroundLevel(k: Kind) {
    KindCode(k) <= 2
  }

  /** The fields of a top-level cell that the zoom machinery reads or writes. */
  datatype Cell = Cell(
    kind: Kind,
    loc: Vec3,
    width: Vec3,
    dmin: real,
    parent: int,          // parent_bkg_cid
    depth: int,
    split: bool,
    hydroCount: int,
    gravCount: int,
    starsCount: int,
    sinksCount: int,
    bhCount: int,         // black_holes.count
    multipole: int,       // index into multipoles_top, -1 when unset
    nodeID: int,
    sendto: set<int>)     // the proxies this cell is sent to (bits of mpi.sendto)

  /** A freshly zeroed cell. */
  const Blank: Cell := Cell(Plain, Vec3(0.0, 0.0, 0.0), Vec3(0.0, 0.0, 0.0), 0.0, 0, 0, false, 0, 0, 0, 0, 0, -1, 0, {})

  function Min3(v: Vec3): real {
    if v.x <= v.y && v.x <= v.z then v.x else if v.y <= v.z then v.y else v.z
  }

  /** Zoom cell cid as the first construction loop leaves it. */
  function ZoomCellAt(c0: Cell, l: Layout, selfGravity: bool, cid: int): Cell
    requires Positive(l.zoomCdim) && 0 <= cid
  {
    var t := CellIjk(l.zoomCdim, cid);
    c0.(kind := Zoom,
        loc := Vec3((t.i as real) * l.zoomWidth.x + l.zoomLo.x, (t.j as real) * l.zoomWidth.y + l.zoomLo.y,
                    (t.k as real) * l.zoomWidth.z + l.zoomLo.z),
        parent := l.voidIndex, width := l.zoomWidth, dmin := Min3(l.zoomWidth),
        depth := 0, split := false, hydroCount := 0, gravCount := 0, starsCount := 0, sinksCount := 0,
        multipole := if selfGravity then cid else c0.multipole)
  }

  /** Background cell cid as the second construction loop leaves it. */
  function BkgCellAt(c0: Cell, l: Layout, dmin: real, selfGravity: bool, cid: int): Cell
    requires Positive(l.bkgCdim) && l.offset <= cid
  {
    var t := CellIjk(l.bkgCdim, cid - l.offset);
    c0.(kind := Plain,
        loc := Vec3((t.i as real) * l.bkgWidth.x, (t.j as real) * l.bkgWidth.y, (t.k as real) * l.bkgWidth.z),
        width := l.bkgWidth, dmin := dmin, parent := cid,
        depth := 0, split := false, hydroCount := 0, gravCount := 0, starsCount := 0, sinksCount := 0,
        multipole := if selfGravity then cid else c0.multipole)
  }

  /** Cell cid after construction, the void relabelling included. */
  function ConstructedCell(c0: Cell, l: Layout, dmin: real, selfGravity: bool, cid: int): Cell
    requires Positive(l.zoomCdim) && Positive(l.bkgCdim) && 0 <= cid
  {
    if cid < l.offset then ZoomCellAt(c0, l, selfGravity, cid)
    else if cid == l.voidIndex then BkgCellAt(c0, l, dmin, selfGravity, cid).(kind := Void)
    else BkgCellAt(c0, l, dmin, selfGravity, cid)
  }

  /**
   * The layout invariant of the top-level cells: zoom cells (kind zoom, zoom
   * width, parent the void cell) first, background cells (a background kind,
   * background width, parent themselves) after them, and exactly one void
   * cell, at void_cell_index.
   */
  ghost predicate TopLevelOk(s: seq<Cell>, l: Layout) {
    |s| == NrCells(l) &&
    (forall cid :: 0 <= cid < l.offset && cid < |s| ==>
      s[cid].kind == Zoom && s[cid].parent == l.voidIndex && s[cid].width == l.zoomWidth) &&
    (forall cid :: 0 <= l.offset <= cid < |s| ==>
      s[cid].kind != Zoom && s[cid].parent == cid && s[cid].width == l.bkgWidth &&
      (s[cid].kind == Void <==> cid == l.voidIndex))
  }

  /** The constructed cells keep the layout invariant and hold no particles. */
  lemma ConstructedTopLevel(s0: seq<Cell>, s: seq<Cell>, l: Layout, dmin: real, selfGravity: bool)
    requires LayoutOk(l) && Positive(l.bkgCdim) && |s| == |s0| == NrCells(l)
    requires forall cid :: 0 <= cid < |s| ==> s[cid] == ConstructedCell(s0[cid], l, dmin, selfGravity, cid)
    ensures TopLevelOk(s, l)
    ensures forall cid :: 0 <= cid < |s| ==>
      s[cid].hydroCount == 0 && s[cid].gravCount == 0 && s[cid].starsCount == 0 && s[cid].sinksCount == 0
  {
    VoidInBackground(l);
  }

  /** What debug_cell_type checks: kind zoom exactly below the offset, and the matching widths. */
  predicate CellTypesConsistent(s: seq<Cell>, l: Layout) {
    forall cid :: 0 <= cid < |s| ==>
      (cid < l.offset <==> s[cid].kind == Zoom) &&
      s[cid].width == (if cid < l.offset then l.zoomWidth else l.bkgWidth)
  }

  lemma TopLevelOkConsistent(s: seq<Cell>, l: Layout)
    requires TopLevelOk(s, l) && LayoutOk(l)
    ensures CellTypesConsistent(s, l)
  {
  }

  /**
   * The kind cell x ends with: zoom below the offset, void at the void
   * index, neighbour when marking ran and the cell is in the window w
   * around the void cell, plain otherwise.
   */
  ghost function BuiltKind(l: Layout, periodic: bool, w: Window, marked: bool, x: int): Kind
    requires LayoutOk(l) && Positive(l.bkgCdim) && 0 <= x
  {
    if x < l.offset then Zoom
    else if x == l.voidIndex then Void
    else if marked && InWindow(l.bkgCdim, periodic, l.zoomCellIjk, w, x - l.offset) then Neighbour
    else Plain
  }

  /** `delta_cells` of find_neighbouring_cells: (int)(2 width / theta / dmin) + 1. */
  function NeighbourDelta(width: real, dmin: real, theta: real): int
    requires dmin > 0.0 && theta > 0.0
  {
    Trunc((2.0 * width * (1.0 / theta)) / dmin) + 1
  }

  /**
   * x is a plain background cell in the window w around one of the first
   * upTo background cells that is void.
   */
  ghost predicate NearVoid(s0: seq<Cell>, l: Layout, periodic: bool, w: Window, upTo: int, x: int)
    requires Positive(l.bkgCdim) && 0 <= l.offset && 0 <= upTo && l.offset + upTo <= |s0|
  {
    l.offset <= x < |s0| && s0[x].kind == Plain &&
    exists u :: l.offset <= u < l.offset + upTo && s0[u].kind == Void &&
      InWindow(l.bkgCdim, periodic, CellIjk(l.bkgCdim, u - l.offset), w, x - l.offset)
  }

  lemma NearVoidStep(s0: seq<Cell>, l: Layout, periodic: bool, w: Window, c: int, x: int)
    requires Positive(l.bkgCdim) && 0 <= l.offset && 0 <= c && l.offset + c < |s0|
    ensures NearVoid(s0, l, periodic, w, c + 1, x) <==>
      NearVoid(s0, l, periodic, w, c, x) ||
      (s0[l.offset + c].kind == Void && l.offset <= x < |s0| && s0[x].kind == Plain &&
       InWindow(l.bkgCdim, periodic, CellIjk(l.bkgCdim, c), w, x - l.offset))
  {
    if NearVoid(s0, l, periodic, w, c + 1, x) && !(s0[l.offset + c].kind == Void &&
         InWindow(l.bkgCdim, periodic, CellIjk(l.bkgCdim, c), w, x - l.offset)) {
      var u :| l.offset <= u < l.offset + c + 1 && s0[u].kind == Void &&
        InWindow(l.bkgCdim, periodic, CellIjk(l.bkgCdim, u - l.offset), w, x - l.offset);
      assert u != l.offset + c;
    }
  }

  /** Walking the window around the void background cell b adds exactly the plain cells it reaches. */
  lemma MarkStepVoid(s0: seq<Cell>, l: Layout, periodic: bool, w: Window, b: int, ids: seq<int>,
                     before: set<int>, after: set<int>)
    requires Positive(l.bkgCdim) && 0 <= l.offset && 0 <= b && l.offset + b < |s0| && s0[l.offset + b].kind == Void
    requires forall x :: x in ids <==> InWindow(l.bkgCdim, periodic, CellIjk(l.bkgCdim, b), w, x)
    requires forall x :: x in before <==> NearVoid(s0, l, periodic, w, b, x)
    requires after == before + Reached(s0, l, ids)
    ensures forall x :: x in after <==> NearVoid(s0, l, periodic, w, b + 1, x)
  {
    forall x
      ensures x in after <==> NearVoid(s0, l, periodic, w, b + 1, x)
    {
      if l.offset <= x < |s0| {
        NearVoidStep(s0, l, periodic, w, b, x);
      } else {
        assert !NearVoid(s0, l, periodic, w, b + 1, x);
      }
    }
  }

  /** A background cell b that is not void adds nothing. */
  lemma MarkStepOther(s0: seq<Cell>, l: Layout, periodic: bool, w: Window, b: int, marked: set<int>)
    requires Positive(l.bkgCdim) && 0 <= l.offset && 0 <= b && l.offset + b < |s0| && s0[l.offset + b].kind != Void
    requires forall x :: x in marked <==> NearVoid(s0, l, periodic, w, b, x)
    ensures forall x :: x in marked <==> NearVoid(s0, l, periodic, w, b + 1, x)
  {
    forall x
      ensures x in marked <==> NearVoid(s0, l, periodic, w, b + 1, x)
    {
      if l.offset <= x < |s0| {
        NearVoidStep(s0, l, periodic, w, b, x);
      }
    }
  }

  /** Once the cells are constructed, the window is the one around the single void cell. */
  lemma NearTheVoidCell(s0: seq<Cell>, l: Layout, periodic: bool, w: Window, x: int)
    requires LayoutOk(l) && Positive(l.bkgCdim) && TopLevelOk(s0, l)
    ensures NearVoid(s0, l, periodic, w, l.nrBkgCells, x) <==>
      l.offset <= x < |s0| && s0[x].kind == Plain &&
      InWindow(l.bkgCdim, periodic, l.zoomCellIjk, w, x - l.offset)
  {
    VoidInBackground(l);
    NearTheOnlyVoid(s0, l, periodic, w, x, l.voidIndex, l.zoomCellIjk);
  }

  /** With v the only void background cell, a cell near a void cell is near v. */
  lemma NearTheOnlyVoid(s0: seq<Cell>, l: Layout, periodic: bool, w: Window, x: int, v: int, t: Ijk)
    requires Positive(l.bkgCdim) && 0 <= l.offset <= v < l.offset + l.nrBkgCells == |s0|
    requires forall u :: l.offset <= u < |s0| ==> (s0[u].kind == Void <==> u == v)
    requires CellIjk(l.bkgCdim, v - l.offset) == t
    ensures NearVoid(s0, l, periodic, w, l.nrBkgCells, x) <==>
      l.offset <= x < |s0| && s0[x].kind == Plain && InWindow(l.bkgCdim, periodic, t, w, x - l.offset)
  {
    if l.offset <= x < |s0| && s0[x].kind == Plain && InWindow(l.bkgCdim, periodic, t, w, x - l.offset) {
      assert s0[v].kind == Void;
    }
  }

  /** Cell x after find_neighbouring_cells has relabelled the first upTo void cells' windows. */
  ghost function Relabelled(s0: seq<Cell>, l: Layout, periodic: bool, w: Window, upTo: int, x: int): Cell
    requires LayoutOk(l) && Positive(l.bkgCdim) && |s0| == NrCells(l) && 0 <= upTo <= l.nrBkgCells
    requires 0 <= x < |s0|
  {
    if NearVoid(s0, l, periodic, w, upTo, x) then s0[x].(kind := Neighbour) else s0[x]
  }

  /** Relabelling keeps the layout invariant and touches only plain background cells. */
  lemma RelabelKeepsTopLevel(s0: seq<Cell>, s: seq<Cell>, l: Layout, periodic: bool, w: Window)
    requires LayoutOk(l) && Positive(l.bkgCdim) && TopLevelOk(s0, l) && |s| == |s0|
    requires forall x :: 0 <= x < |s| ==> s[x] == Relabelled(s0, l, periodic, w, l.nrBkgCells, x)
    ensures TopLevelOk(s, l)
    ensures forall x :: 0 <= x < |s| && s0[x].kind != Plain ==> s[x] == s0[x]
  {
  }

  /**
   * After construction (s0 to s1) and, when marking ran, the relabelling
   * (s1 to s), every cell has the kind BuiltKind gives it and otherwise what
   * the construction loops gave it, and the layout invariant holds.
   */
  lemma BuiltCells(s0: seq<Cell>, s1: seq<Cell>, s: seq<Cell>, l: Layout, periodic: bool, w: Window,
                   dmin: real, selfGravity: bool, marked: bool)
    requires LayoutOk(l) && Positive(l.bkgCdim) && |s0| == |s1| == |s| == NrCells(l)
    requires forall x :: 0 <= x < |s1| ==> s1[x] == ConstructedCell(s0[x], l, dmin, selfGravity, x)
    requires TopLevelOk(s1, l)
    requires marked ==> forall x :: 0 <= x < |s| ==> s[x] == Relabelled(s1, l, periodic, w, l.nrBkgCells, x)
    requires !marked ==> s == s1
    ensures TopLevelOk(s, l) && CellTypesConsistent(s, l)
    ensures forall x :: 0 <= x < |s| ==>
      s[x].kind == BuiltKind(l, periodic, w, marked, x) &&
      s[x] == ConstructedCell(s0[x], l, dmin, selfGravity, x).(kind := s[x].kind)
    ensures marked ==> forall x :: NearVoid(s1, l, periodic, w, l.nrBkgCells, x) <==>
      0 <= x < |s| && s[x].kind == Neighbour
  {
    VoidInBackground(l);
    if marked {
      forall x
        ensures NearVoid(s1, l, periodic, w, l.nrBkgCells, x) <==>
          l.offset <= x < |s1| && s1[x].kind == Plain && InWindow(l.bkgCdim, periodic, l.zoomCellIjk, w, x - l.offset)
      {
        NearTheVoidCell(s1, l, periodic, w, x);
      }
      RelabelKeepsTopLevel(s1, s, l, periodic, w);
    }
    TopLevelOkConsistent(s, l);
  }

  /**
   * The top-level cells of a zoom run and the list of background cells that
   * neighbour the zoom region.
   */
  class Space {
    const layout: Layout
    const periodic: bool
    const withSelfGravity: bool
    var cells: array<Cell>
    var neighbourCells: array<int>   // neighbour_cells_top
    var nrNeighbourCells: int

    ghost predicate Valid()
      reads this
    {
      LayoutOk(layout) && Positive(layout.bkgCdim) && cells.Length == NrCells(layout) &&
      0 < layout.offset <= layout.voidIndex < cells.Length
    }

    /** The zeroed cell array the regrid hands over. */
    constructor (l: Layout, periodic: bool, selfGravity: bool)
      requires LayoutOk(l) && Positive(l.bkgCdim)
      ensures Valid() && layout == l && this.periodic == periodic && withSelfGravity == selfGravity
      ensures fresh(cells) && forall cid :: 0 <= cid < cells.Length ==> cells[cid] == Blank
      ensures nrNeighbourCells == 0
    {
      VoidInBackground(l);
      layout := l;
      this.periodic := periodic;
      withSelfGravity := selfGravity;
      cells := new Cell[NrCells(l)](_ => Blank);
      neighbourCells := new int[0];
      nrNeighbourCells := 0;
    }

    /**
     * The two construction loops and the void relabelling of
     * construct_tl_cells_with_zoom_region, for the background cell dmin.
     */
    method BuildTopLevelCells(dmin: real)
      requires Valid()
      modifies cells
      ensures forall cid :: 0 <= cid < cells.Length ==>
        cells[cid] == ConstructedCell(old(cells[cid]), layout, dmin, withSelfGravity, cid)
      ensures TopLevelOk(cells[..], layout)
      ensures forall cid :: 0 <= cid < cells.Length ==>
        cells[cid].hydroCount == 0 && cells[cid].gravCount == 0 &&
        cells[cid].starsCount == 0 && cells[cid].sinksCount == 0
    {
      BuildZoomCells();
      BuildBkgCells(dmin);
      cells[layout.voidIndex] := cells[layout.voidIndex].(kind := Void);
      ConstructedTopLevel(old(cells[..]), cells[..], layout, dmin, withSelfGravity);
    }

    /** The first construction loop: the zoom cells, one per zoom grid position. */
    method BuildZoomCells()
      requires Positive(layout.zoomCdim) && 0 <= layout.offset <= cells.Length
      modifies cells
      ensures forall x :: 0 <= x < layout.offset ==> cells[x] == ZoomCellAt(old(cells[x]), layout, withSelfGravity, x)
      ensures forall x :: layout.offset <= x < cells.Length ==> cells[x] == old(cells[x])
    {
      for cid := 0 to layout.offset
        invariant forall x :: 0 <= x < cid ==> cells[x] == ZoomCellAt(old(cells[x]), layout, withSelfGravity, x)
        invariant forall x :: cid <= x < cells.Length ==> cells[x] == old(cells[x])
      {
        cells[cid] := ZoomCellAt(cells[cid], layout, withSelfGravity, cid);
      }
    }

    /** The second construction loop: the background cells, one per background grid position. */
    method BuildBkgCells(dmin: real)
      requires Positive(layout.bkgCdim) && 0 <= layout.offset <= cells.Length
      modifies cells
      ensures forall x :: 0 <= x < layout.offset ==> cells[x] == old(cells[x])
      ensures forall x :: layout.offset <= x < cells.Length ==>
        cells[x] == BkgCellAt(old(cells[x]), layout, dmin, withSelfGravity, x)
    {
      for cid := layout.offset to cells.Length
        invariant forall x :: 0 <= x < layout.offset ==> cells[x] == old(cells[x])
        invariant forall x :: layout.offset <= x < cid ==>
          cells[x] == BkgCellAt(old(cells[x]), layout, dmin, withSelfGravity, x)
        invariant forall x :: cid <= x < cells.Length ==> cells[x] == old(cells[x])
      {
        cells[cid] := BkgCellAt(cells[cid], layout, dmin, withSelfGravity, cid);
      }
    }

    /** debug_cell_type: true when no cell has the wrong kind or width for its position. */
    method DebugCellType() returns (ok: bool)
      requires Valid()
      ensures ok <==> CellTypesConsistent(cells[..], layout)
    {
      var l := layout;
      for cid := 0 to cells.Length
        invariant forall x :: 0 <= x < cid ==>
          (x < l.offset <==> cells[x].kind == Zoom) &&
          cells[x].width == (if x < l.offset then l.zoomWidth else l.bkgWidth)
      {
        if cid < l.offset && cells[cid].kind != Zoom {
          return false;
        }
        if cid >= l.offset && cells[cid].kind == Zoom {
          return false;
        }
        if cid < l.offset && cells[cid].width != l.zoomWidth {
          return false;
        }
        if cid >= l.offset && cells[cid].width != l.bkgWidth {
          return false;
        }
      }
      return true;
    }

    /**
     * construct_tl_cells_with_zoom_region followed, in a run with a zoom
     * region, by find_neighbouring_cells: every cell holds what the
     * construction loops give it, and its kind is zoom, void, neighbour (a
     * background cell in the walk window around the void cell) or plain.
     */
    method ConstructTlCells(dmin: real, theta: real, withZoomRegion: bool)
      requires Valid() && dmin > 0.0 && theta > 0.0
      modifies this, cells
      ensures Valid() && cells == old(cells)
      ensures TopLevelOk(cells[..], layout) && CellTypesConsistent(cells[..], layout)
      ensures forall x :: 0 <= x < cells.Length ==>
        cells[x].kind == BuiltKind(layout, periodic, NeighbourWindow(layout.bkgWidth.x, dmin, theta), withZoomRegion, x) &&
        cells[x] == ConstructedCell(old(cells[x]), layout, dmin, withSelfGravity, x).(kind := cells[x].kind)
      ensures withZoomRegion ==>
        neighbourCells.Length == layout.nrBkgCells && 0 <= nrNeighbourCells <= layout.nrBkgCells &&
        Distinct(neighbourCells[..nrNeighbourCells]) &&
        forall x :: x in neighbourCells[..nrNeighbourCells] <==> 0 <= x < cells.Length && cells[x].kind == Neighbour
    {
      ghost var s0 := cells[..];
      BuildTopLevelCells(dmin);
      ghost var s1 := cells[..];
      if withZoomRegion {
        assert s1[layout.offset].width.x == layout.bkgWidth.x && s1[layout.offset].dmin == dmin;
        FindNeighbouringCells(theta);
      }
      BuiltCells(s0, s1, cells[..], layout, periodic, NeighbourWindow(layout.bkgWidth.x, dmin, theta),
                 dmin, withSelfGravity, withZoomRegion);
    }

    /**
     * find_neighbouring_cells: the walk radius comes from the first
     * background cell, (int)(2 width / theta / dmin) + 1, and every plain
     * background cell within it of a void cell becomes a neighbour cell.
     */
    method FindNeighbouringCells(theta: real)
      requires Valid() && theta > 0.0
      requires cells[layout.offset].dmin > 0.0 && cells[layout.offset].width.x >= 0.0
      modifies this, cells
      ensures Valid() && cells == old(cells)
      ensures forall x :: 0 <= x < cells.Length ==>
        cells[x] == Relabelled(old(cells[..]), layout, periodic,
          NeighbourWindow(old(cells[layout.offset].width.x), old(cells[layout.offset].dmin), theta),
          layout.nrBkgCells, x)
      ensures fresh(neighbourCells) && neighbourCells.Length == layout.nrBkgCells
      ensures 0 <= nrNeighbourCells <= layout.nrBkgCells
      ensures Distinct(neighbourCells[..nrNeighbourCells])
      ensures forall x :: x in neighbourCells[..nrNeighbourCells] <==>
        NearVoid(old(cells[..]), layout, periodic,
          NeighbourWindow(old(cells[layout.offset].width.x), old(cells[layout.offset].dmin), theta),
          layout.nrBkgCells, x)
    {
      var c := cells[layout.offset];
      MarkNeighbours(NeighbourWindow(c.width.x, c.dmin, theta));
    }

    /**
     * The walk of find_neighbouring_cells over the window w (delta_cells on
     * either side): every plain background cell in the window around a void
     * cell becomes a neighbour cell and is listed once; nothing else changes.
     */
    method MarkNeighbours(w: Window)
      requires Valid() && w.m == w.p >= 0
      modifies this, cells
      ensures Valid() && cells == old(cells)
      ensures forall x :: 0 <= x < cells.Length ==>
        cells[x] == Relabelled(old(cells[..]), layout, periodic, w, layout.nrBkgCells, x)
      ensures fresh(neighbourCells) && neighbourCells.Length == layout.nrBkgCells
      ensures 0 <= nrNeighbourCells <= layout.nrBkgCells
      ensures Distinct(neighbourCells[..nrNeighbourCells])
      ensures forall x :: x in neighbourCells[..nrNeighbourCells] <==>
        NearVoid(old(cells[..]), layout, periodic, w, layout.nrBkgCells, x)
    {
      var l := layout;
      VoidInBackground(l);
      ghost var s0 := cells[..];
      var buf := new int[l.nrBkgCells];
      var count := 0;
      ghost var marked: set<int> := {};
      for b := 0 to l.nrBkgCells
        invariant cells == old(cells)
        invariant Marks(s0, cells[..], l, marked)
        invariant 0 <= count <= buf.Length && Listed(buf[..count], marked)
        invariant forall x :: x in marked <==> NearVoid(s0, l, periodic, w, b, x)
      {
        var cid := b + l.offset;
        assert cells[cid].kind == Void <==> s0[cid].kind == Void;
        if cells[cid].kind == Void {
          var ids, _ := WalkWindow(l.bkgCdim, periodic, CellIjk(l.bkgCdim, b), w);
          WalkInGrid(l.bkgCdim, periodic, CellIjk(l.bkgCdim, b), w, ids, l.nrBkgCells);
          ghost var before := marked;
          count, marked := MarkPlain(ids, buf, count, s0, marked);
          MarkStepVoid(s0, l, periodic, w, b, ids, before, marked);
        } else {
          MarkStepOther(s0, l, periodic, w, b, marked);
        }
      }
      neighbourCells, nrNeighbourCells := buf, count;
    }

    /** The body of that loop for cell cjd: a plain cell becomes a neighbour and is appended to buf. */
    method MarkCell(cjd: int, buf: array<int>, count0: int, ghost s0: seq<Cell>, ghost marked0: set<int>)
      returns (count: int, ghost marked: set<int>)
      requires 0 <= layout.offset <= cjd < cells.Length == layout.offset + layout.nrBkgCells
      requires buf.Length == layout.nrBkgCells
      requires Marks(s0, cells[..], layout, marked0)
      requires 0 <= count0 <= buf.Length && Listed(buf[..count0], marked0)
      modifies cells, buf
      ensures Marks(s0, cells[..], layout, marked) && 0 <= count <= buf.Length && Listed(buf[..count], marked)
      ensures marked == marked0 + (if s0[cjd].kind == Plain then {cjd} else {})
    {
      var l := layout;
      count, marked := count0, marked0;
      MarkedKind(s0, cells[..], l, marked, cjd);
      if cells[cjd].kind == Plain {
        ghost var list := buf[..count];
        MarkOne(s0, cells[..], l, marked, list, cjd, l.offset + l.nrBkgCells);
        cells[cjd] := cells[cjd].(kind := Neighbour);
        buf[count] := cjd;
        assert buf[..count + 1] == list + [cjd];
        count, marked := count + 1, marked + {cjd};
      }
    }

    /**
     * The inner loop of find_neighbouring_cells over one walk: the plain
     * cells it reaches become neighbours and are appended to buf.
     */
    method MarkPlain(ids: seq<int>, buf: array<int>, count0: int, ghost s0: seq<Cell>, ghost marked0: set<int>)
      returns (count: int, ghost marked: set<int>)
      requires 0 <= layout.offset && layout.offset + layout.nrBkgCells == cells.Length && buf.Length == layout.nrBkgCells
      requires forall x :: x in ids ==> 0 <= x < layout.nrBkgCells
      requires Marks(s0, cells[..], layout, marked0)
      requires 0 <= count0 <= buf.Length && Listed(buf[..count0], marked0)
      modifies cells, buf
      ensures Marks(s0, cells[..], layout, marked) && 0 <= count <= buf.Length && Listed(buf[..count], marked)
      ensures marked == marked0 + Reached(s0, layout, ids)
    {
      var l := layout;
      count, marked := count0, marked0;
      for n := 0 to |ids|
        invariant Marks(s0, cells[..], l, marked)
        invariant 0 <= count <= buf.Length && Listed(buf[..count], marked)
        invariant marked == marked0 + Reached(s0, l, ids[..n])
      {
        assert ids[n] in ids;
        ghost var before := marked;
        count, marked := MarkCell(ids[n] + l.offset, buf, count, s0, marked);
        MarkedStep(s0, l, ids, n, marked0, before, marked);
      }
      assert ids[..|ids|] == ids;
    }
  }

  /**
   * The cells s are s0 with exactly the cells of m relabelled as neighbours,
   * and m holds only plain background cells of s0.
   */
  ghost predicate Marks(s0: seq<Cell>, s: seq<Cell>, l: Layout, m: set<int>) {
    |s| == |s0| &&
    (forall x :: 0 <= x < |s| ==> s[x] == if x in m then s0[x].(kind := Neighbour) else s0[x]) &&
    (forall x :: x in m ==> 0 <= l.offset <= x < |s0| && s0[x].kind == Plain)
  }

  /** A cell of s is plain exactly when it is plain in s0 and not yet marked. */
  lemma MarkedKind(s0: seq<Cell>, s: seq<Cell>, l: Layout, m: set<int>, x: int)
    requires Marks(s0, s, l, m) && 0 <= x < |s|
    ensures s[x].kind == Plain <==> s0[x].kind == Plain && x !in m
  {
  }

  /** Marking the plain cell x and listing it keeps the marks and the list in step. */
  lemma MarkOne(s0: seq<Cell>, s: seq<Cell>, l: Layout, m: set<int>, list: seq<int>, x: int, hi: int)
    requires Marks(s0, s, l, m) && Listed(list, m) && 0 <= l.offset <= x < |s| == hi && s[x].kind == Plain
    ensures Marks(s0, s[x := s[x].(kind := Neighbour)], l, m + {x}) && Listed(list + [x], m + {x})
    ensures |list| < hi - l.offset
  {
    MarkedKind(s0, s, l, m, x);
    DistinctConcat(list, [x]);
    DistinctBound(list + [x], l.offset, hi);
  }

  /** The list holds the members of m, each once. */
  ghost predicate Listed(list: seq<int>, m: set<int>) {
    Distinct(list) && forall x :: x in list <==> x in m
  }

  /** The plain background cells of s0 that the walk ids visits. */
  ghost function Reached(s0: seq<Cell>, l: Layout, ids: seq<int>): set<int> {
    set x | 0 <= l.offset <= x < |s0| && s0[x].kind == Plain && x - l.offset in ids
  }

  /** Marking the n-th cell of the walk extends the marks to the walk's first n + 1 cells. */
  lemma MarkedStep(s0: seq<Cell>, l: Layout, ids: seq<int>, n: int, marked0: set<int>, before: set<int>, after: set<int>)
    requires 0 <= n < |ids| && 0 <= l.offset <= ids[n] + l.offset < |s0|
    requires before == marked0 + Reached(s0, l, ids[..n])
    requires after == before + (if s0[ids[n] + l.offset].kind == Plain then {ids[n] + l.offset} else {})
    ensures after == marked0 + Reached(s0, l, ids[..n + 1])
  {
    ReachedStep(s0, l, ids[..n], ids[n]);
    assert ids[..n + 1] == ids[..n] + [ids[n]];
  }

  lemma ReachedStep(s0: seq<Cell>, l: Layout, ids: seq<int>, b: int)
    ensures Reached(s0, l, ids + [b]) ==
      Reached(s0, l, ids) + (if 0 <= l.offset <= b + l.offset < |s0| && s0[b + l.offset].kind == Plain then {b + l.offset} else {})
  {
  }

  /** The walk window of find_neighbouring_cells for background cells of this width and dmin. */
  function NeighbourWindow(width: real, dmin: real, theta: real): (w: Window)
    requires dmin > 0.0 && theta > 0.0 && width >= 0.0
    ensures w.m == w.p >= 1
  {
    TruncNonNegative((2.0 * width * (1.0 / theta)) / dmin);
    var delta := NeighbourDelta(width, dmin, theta);
    Window(delta, delta)
  }

  /**
   * The walk radius can exceed the grid: in a periodic box of three
   * background cells of width and dmin 1 with theta 0.5 the radius is 5, and
   * from the void cell at i = 1 the offset -5 gives (-4 + 3) % 3 == -1 under
   * C's remainder, an index outside the grid; Wrap gives 2.
   */
  lemma NeighbourWalkWrapsTooFar()
    ensures NeighbourWindow(1.0, 1.0, 0.5) == Window(5, 5)
    ensures SourceWrap(1 - 5, 3) == -1 && Target(1, -5, 3, true) == 2
  {
    assert (2.0 * 1.0 * (1.0 / 0.5)) / 1.0 == 4.0;
    assert Trunc(4.0) == 4;
  }

  // ---------------------------------------------------------------------------
  // Minimum distance between two top-level cells

  /** The geometry of a cell: its lower corner and widths. */
  datatype CellBox = CellBox(loc: Vec3, width: Vec3)

  function Geometry(c: Cell): CellBox {
    CellBox(c.loc, c.width)
  }

  function Centre(c: Cell): Vec3 {
    Vec3(c.loc.x + c.width.x / 2.0, c.loc.y + c.width.y / 2.0, c.loc.z + c.width.z / 2.0)
  }

  function Norm2(v: Vec3): real {
    v.x * v.x + v.y * v.y + v.z * v.z
  }

  function Diff(p: Vec3, q: Vec3): Vec3 {
    Vec3(p.x - q.x, p.y - q.y, p.z - q.z)
  }

  /** The centre-to-centre vector of ci and cj, folded by `nearest` in a periodic box. */
  function Separation(ci: Cell, cj: Cell, periodic: bool, dim: Vec3, nearest: (real, real) -> real): Vec3 {
    var d := Diff(Centre(ci), Centre(cj));
    if periodic then Vec3(nearest(d.x, dim.x), nearest(d.y, dim.y), nearest(d.z, dim.z)) else d
  }

  /** p lies in the closed box of cell c. */
  predicate InCellBox(c: Cell, p: Vec3) {
    c.loc.x <= p.x <= c.loc.x + c.width.x &&
    c.loc.y <= p.y <= c.loc.y + c.width.y &&
    c.loc.z <= p.z <= c.loc.z + c.width.z
  }

  predicate NonNegativeWidths(c: Cell) {
    c.width.x >= 0.0 && c.width.y >= 0.0 && c.width.z >= 0.0
  }

  /**
   * cell_min_dist2_diff_size as written: the squared centre distance minus
   * half of each cell's squared diagonal. This is not a lower bound on the
   * distance between points of the two cells.
   */
  function CellMinDist2DiffSizeAsWritten(ci: Cell, cj: Cell, periodic: bool, dim: Vec3,
                                         nearest: (real, real) -> real): real
  {
    Norm2(Separation(ci, cj, periodic, dim, nearest)) - (Norm2(ci.width) / 2.0 + Norm2(cj.width) / 2.0)
  }

  /** Two cells and two points of them that are closer than the as-written distance claims. */
  lemma DiffSizeAsWrittenOverestimates()
    ensures var ci := Blank.(loc := Vec3(0.0, 0.0, 0.0), width := Vec3(10.0, 10.0, 10.0));
            var cj := Blank.(loc := Vec3(20.0, 20.0, 20.0), width := Vec3(1.0, 1.0, 1.0));
            var p, q := Vec3(10.0, 10.0, 10.0), Vec3(20.0, 20.0, 20.0);
            InCellBox(ci, p) && InCellBox(cj, q) &&
            Norm2(Diff(p, q)) == 300.0 &&
            CellMinDist2DiffSizeAsWritten(ci, cj, false, Vec3(100.0, 100.0, 100.0), (a, b) => a) == 569.25
  {
  }

  function Abs(a: real): real {
    if a < 0.0 then -a else a
  }

  /** The gap along one axis between intervals of widths wi and wj whose centres are d apart. */
  function AxisGap(d: real, wi: real, wj: real): (g: real)
    ensures g >= 0.0
    ensures g == 0.0 <==> Abs(d) <= (wi + wj) / 2.0
  {
    if Abs(d) <= (wi + wj) / 2.0 then 0.0 else Abs(d) - (wi + wj) / 2.0
  }

  /**
   * cell_min_dist2_diff_size, corrected: the squared distance between the
   * two boxes, summed from the per-axis gaps.
   */
  function CellMinDist2DiffSize(ci: Cell, cj: Cell, periodic: bool, dim: Vec3, nearest: (real, real) -> real): (r: real)
    ensures r >= 0.0
  {
    GapNorm2(Separation(ci, cj, periodic, dim, nearest), ci.width, cj.width)
  }

  /** The squared length of the per-axis gaps between boxes of widths wi and wj whose centres are d apart. */
  function GapNorm2(d: Vec3, wi: Vec3, wj: Vec3): (r: real)
    ensures r >= 0.0
  {
    var gx, gy, gz := AxisGap(d.x, wi.x, wj.x), AxisGap(d.y, wi.y, wj.y), AxisGap(d.z, wi.z, wj.z);
    gx * gx + gy * gy + gz * gz
  }

  /** Along one axis, points of [li, li + wi] and [lj, lj + wj] are at least the gap apart. */
  lemma AxisGapBound(a: real, li: real, wi: real, b: real, lj: real, wj: real, d: real)
    requires li <= a <= li + wi && lj <= b <= lj + wj
    requires d == (li + wi / 2.0) - (lj + wj / 2.0)
    ensures Abs(a - b) >= AxisGap(d, wi, wj)
  {
  }

  /** A distance along an axis at least the gap squares to at least the squared gap. */
  lemma SquareAtLeast(e: real, g: real)
    requires 0.0 <= g <= Abs(e)
    ensures g * g <= e * e
  {
    var a := Abs(e);
    assert a * a == e * e;
    assert g * g <= g * a <= a * a;
  }

  /** Per-axis distances at least the per-axis gaps give a squared distance at least the squared gap. */
  lemma SumOfSquaresBound(e: Vec3, d: Vec3, wi: Vec3, wj: Vec3)
    requires Abs(e.x) >= AxisGap(d.x, wi.x, wj.x) && Abs(e.y) >= AxisGap(d.y, wi.y, wj.y)
    requires Abs(e.z) >= AxisGap(d.z, wi.z, wj.z)
    ensures Norm2(e) >= GapNorm2(d, wi, wj)
  {
    SquareAtLeast(e.x, AxisGap(d.x, wi.x, wj.x));
    SquareAtLeast(e.y, AxisGap(d.y, wi.y, wj.y));
    SquareAtLeast(e.z, AxisGap(d.z, wi.z, wj.z));
  }

  /** Per-axis distances equal to the per-axis gaps give exactly the squared gap. */
  lemma SumOfSquaresEqual(e: Vec3, d: Vec3, wi: Vec3, wj: Vec3)
    requires Abs(e.x) == AxisGap(d.x, wi.x, wj.x) && Abs(e.y) == AxisGap(d.y, wi.y, wj.y)
    requires Abs(e.z) == AxisGap(d.z, wi.z, wj.z)
    ensures Norm2(e) == GapNorm2(d, wi, wj)
  {
    SquareAbs(e.x);
    SquareAbs(e.y);
    SquareAbs(e.z);
  }

  lemma SquareAbs(a: real)
    ensures Abs(a) * Abs(a) == a * a
  {
  }

  /** Along one axis, some pair of points of the two intervals is exactly the gap apart. */
  lemma AxisGapAttained(li: real, wi: real, lj: real, wj: real, d: real) returns (a: real, b: real)
    requires wi >= 0.0 && wj >= 0.0 && d == (li + wi / 2.0) - (lj + wj / 2.0)
    ensures li <= a <= li + wi && lj <= b <= lj + wj
    ensures Abs(a - b) == AxisGap(d, wi, wj)
  {
    if d > (wi + wj) / 2.0 {
      a, b := li, lj + wj;
    } else if d < -(wi + wj) / 2.0 {
      a, b := li + wi, lj;
    } else {
      a := if li < lj then lj else li;
      b := a;
    }
  }

  /** Without periodicity the corrected distance is a lower bound on every point pair ... */
  lemma DiffSizeLowerBound(ci: Cell, cj: Cell, dim: Vec3, nearest: (real, real) -> real, p: Vec3, q: Vec3)
    requires InCellBox(ci, p) && InCellBox(cj, q)
    ensures Norm2(Diff(p, q)) >= CellMinDist2DiffSize(ci, cj, false, dim, nearest)
  {
    var d := Diff(Centre(ci), Centre(cj));
    AxisGapBound(p.x, ci.loc.x, ci.width.x, q.x, cj.loc.x, cj.width.x, d.x);
    AxisGapBound(p.y, ci.loc.y, ci.width.y, q.y, cj.loc.y, cj.width.y, d.y);
    AxisGapBound(p.z, ci.loc.z, ci.width.z, q.z, cj.loc.z, cj.width.z, d.z);
    SumOfSquaresBound(Diff(p, q), d, ci.width, cj.width);
  }

  /** ... and some point pair attains it, so it is the minimum distance. */
  lemma DiffSizeAttained(ci: Cell, cj: Cell, dim: Vec3, nearest: (real, real) -> real) returns (p: Vec3, q: Vec3)
    requires NonNegativeWidths(ci) && NonNegativeWidths(cj)
    ensures InCellBox(ci, p) && InCellBox(cj, q)
    ensures Norm2(Diff(p, q)) == CellMinDist2DiffSize(ci, cj, false, dim, nearest)
  {
    p, q := ClosestPoints(ci, cj);
  }

  /** A point of each cell that are exactly the gap distance apart. */
  lemma ClosestPoints(ci: Cell, cj: Cell) returns (p: Vec3, q: Vec3)
    requires NonNegativeWidths(ci) && NonNegativeWidths(cj)
    ensures InCellBox(ci, p) && InCellBox(cj, q)
    ensures Norm2(Diff(p, q)) == GapNorm2(Diff(Centre(ci), Centre(cj)), ci.width, cj.width)
  {
    var d := Diff(Centre(ci), Centre(cj));
    var px, qx := AxisGapAttained(ci.loc.x, ci.width.x, cj.loc.x, cj.width.x, d.x);
    var py, qy := AxisGapAttained(ci.loc.y, ci.width.y, cj.loc.y, cj.width.y, d.y);
    var pz, qz := AxisGapAttained(ci.loc.z, ci.width.z, cj.loc.z, cj.width.z, d.z);
    p, q := Vec3(px, py, pz), Vec3(qx, qy, qz);
    SumOfSquaresEqual(Diff(p, q), d, ci.width, cj.width);
  }

  /** Without periodicity the corrected distance does not depend on the order of the cells. */
  lemma DiffSizeSymmetric(ci: Cell, cj: Cell, dim: Vec3, nearest: (real, real) -> real)
    ensures CellMinDist2DiffSize(ci, cj, false, dim, nearest) == CellMinDist2DiffSize(cj, ci, false, dim, nearest)
  {
  }

  /**
   * cell_min_dist2: two background-level cells or two zoom cells use the
   * same-size distance (`sameSize`, which is not part of this model), a
   * mixed pair the corrected different-size one.
   */
  function CellMinDist2(ci: Cell, cj: Cell, periodic: bool, dim: Vec3,
                        sameSize: (CellBox, CellBox, bool, Vec3) -> real, nearest: (real, real) -> real): (r: real)
    ensures BackgroundLevel(ci.kind) == BackgroundLevel(cj.kind) ==>
      r == sameSize(Geometry(ci), Geometry(cj), periodic, dim)
    ensures BackgroundLevel(ci.kind) != BackgroundLevel(cj.kind) ==> r == CellMinDist2DiffSize(ci, cj, periodic, dim, nearest)
  {
    if KindCode(ci.kind) <= 2 && KindCode(cj.kind) <= 2 then sameSize(Geometry(ci), Geometry(cj), periodic, dim)
    else if ci.kind == Zoom && cj.kind == Zoom then sameSize(Geometry(ci), Geometry(cj), periodic, dim)
    else CellMinDist2DiffSize(ci, cj, periodic, dim, nearest)
  }

  /**
   * On constructed top-level cells whose two grids have different widths,
   * cell_min_dist2 takes the same-size branch exactly for two cells of the
   * same width.
   */
  lemma DispatchBySize(s: seq<Cell>, l: Layout, a: int, b: int)
    requires LayoutOk(l) && TopLevelOk(s, l) && l.zoomWidth != l.bkgWidth
    requires 0 <= a < |s| && 0 <= b < |s|
    ensures BackgroundLevel(s[a].kind) == BackgroundLevel(s[b].kind) <==> s[a].width == s[b].width
  {
  }
}
