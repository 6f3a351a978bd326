/**
 * The top-level task mappers of a zoom run: the gravity tasks within the
 * zoom grid and within the background grid, the gravity tasks between the
 * two grids, and the hydro and friends-of-friends tasks of the zoom grid.
 * Each mapper handles the slice [start, start + num) of its cells, as one
 * threadpool call does, reads the top-level cells without changing them,
 * and returns, in order, the tasks it hands to scheduler_addtask.
 */
module Tasks {
  import opened Grid
  import opened Walk
  import opened Layout
  import opened Cells
  import Proxies

  datatype TaskType = SelfTask | PairTask | FofSelfTask | FofPairTask

  datatype SubType = NoSubtype | Grav | Density

  /** One scheduler_addtask call: type, subtype, flags, ci and cj (-1 for NULL). */
  datatype Task = Task(kind: TaskType, sub: SubType, flags: int, ci: int, cj: int)

  datatype TaskError = VoidCellHasParticles | MultipoleNotExchanged

  /** A mapper call returns, or stops the run with error(). */
  datatype MapOutcome = Mapped | Failed(err: TaskError)

  predicate Unique(ts: seq<Task>) {
    forall x, y :: 0 <= x < y < |ts| ==> ts[x] != ts[y]
  }

  lemma UniqueConcat(ts: seq<Task>, us: seq<Task>)
    requires Unique(ts) && Unique(us)
    requires forall t :: t in ts ==> t !in us
    ensures Unique(ts + us)
  {
    forall x, y | 0 <= x < y < |ts + us|
      ensures (ts + us)[x] != (ts + us)[y]
    {
      if x < |ts| && y >= |ts| {
        assert (ts + us)[x] in ts && (ts + us)[y] in us;
      }
    }
  }

  /** At least one of the two cells is on this rank: the pair is not completely foreign. */
  predicate Involves(s: seq<Cell>, nodeID: int, x: int, y: int)
    requires 0 <= x < |s| && 0 <= y < |s|
  {
    s[x].nodeID == nodeID || s[y].nodeID == nodeID
  }

  /** A foreign cell of the pair has no multipole: it was not exchanged through the proxies. */
  predicate MultipoleMissing(s: seq<Cell>, nodeID: int, x: int, y: int)
    requires 0 <= x < |s| && 0 <= y < |s|
  {
    (s[x].multipole < 0 && s[x].nodeID != nodeID) || (s[y].multipole < 0 && s[y].nodeID != nodeID)
  }

  // ---------------------------------------------------------------------------
  // The steps of one window walk

  /** What the body of the walk does for one visited cell. */
  datatype Step = Skip | Emit(task: Task) | Fail(err: TaskError)

  // ---------------------------------------------------------------------------
  // Gravity within one grid (engine_make_self_gravity_tasks_mapper_zoom_cells,
  // engine_make_self_gravity_tasks_mapper_natural_cells)

  /**
   * A same-grid gravity mapper: the cells base .. base + |cd| - 1 laid out
   * on the grid cd and walked with window w; in a periodic box a pair whose
   * cells are more than the mesh cut-off apart (squared, maxDist2) gets no
   * task, with sameSize as cell_min_dist2_same_size (not part of this model);
   * voidCheck is set for the background grid, where a void cell holding
   * gravity particles stops the run.
   */
  datatype GravGrid = GravGrid(base: int, cd: Dim3, periodic: bool, w: Window, voidCheck: bool, maxDist2: real,
                               dim: Vec3, sameSize: (CellBox, CellBox, bool, Vec3) -> real)

  predicate GridOk(g: GravGrid, n: int) {
    Positive(g.cd) && WindowOk(g.w) && 0 <= g.base && g.base + Count(g.cd) <= n
  }

  /** In a periodic box, the pair is beyond the distance where the truncated forces vanish. */
  predicate BeyondMesh(g: GravGrid, s: seq<Cell>, x: int, y: int)
    requires 0 <= x < |s| && 0 <= y < |s|
  {
    g.periodic && g.sameSize(Geometry(s[x]), Geometry(s[y]), g.periodic, g.dim) > g.maxDist2
  }

  /** The guards of the walk body: a < b, b holds gravity particles and the pair is not completely foreign. */
  predicate GravPairKept(g: GravGrid, s: seq<Cell>, nodeID: int, a: int, b: int)
    requires GridOk(g, |s|) && 0 <= a < Count(g.cd) && 0 <= b < Count(g.cd)
  {
    a < b && s[g.base + b].gravCount != 0 && Involves(s, nodeID, g.base + a, g.base + b)
  }

  /**
   * The pairs the walk around grid cell a reaches and keeps: b in the
   * window around a, a holding gravity particles, and the guards of the
   * walk body.
   */
  ghost predicate GravCandidate(g: GravGrid, s: seq<Cell>, nodeID: int, a: int, b: int)
    requires GridOk(g, |s|)
  {
    0 <= a < Count(g.cd) && 0 <= b < Count(g.cd) && InWindow(g.cd, g.periodic, CellIjk(g.cd, a), g.w, b) &&
    s[g.base + a].gravCount != 0 && GravPairKept(g, s, nodeID, a, b)
  }

  /**
   * The pairs that get a gravity pair task: candidates within the mesh
   * cut-off that the multipole acceptance criterion mac
   * (cell_can_use_pair_mm, not part of this model) rejects.
   */
  ghost predicate GravPairWanted(g: GravGrid, s: seq<Cell>, nodeID: int, mac: (int, int) -> bool, a: int, b: int)
    requires GridOk(g, |s|)
  {
    GravCandidate(g, s, nodeID, a, b) && !BeyondMesh(g, s, g.base + a, g.base + b) && !mac(g.base + a, g.base + b)
  }

  /** Grid cell a stops the run: a void cell with gravity particles, or a candidate pair with a missing multipole. */
  ghost predicate GravCellFails(g: GravGrid, s: seq<Cell>, nodeID: int, a: int)
    requires GridOk(g, |s|) && 0 <= a < Count(g.cd)
  {
    s[g.base + a].gravCount != 0 &&
    ((g.voidCheck && s[g.base + a].kind == Void) ||
     exists b :: GravPairFails(g, s, nodeID, a, b))
  }

  /** A gravity pair task of grid cell a whose partner is a wanted pair. */
  ghost predicate GravPairTask(g: GravGrid, s: seq<Cell>, nodeID: int, mac: (int, int) -> bool, a: int, t: Task)
    requires GridOk(g, |s|)
  {
    t == Task(PairTask, Grav, 0, g.base + a, t.cj) && GravPairWanted(g, s, nodeID, mac, a, t.cj - g.base)
  }

  /** The tasks of grid cell a: its self task when it is local and not empty, and its wanted pairs. */
  ghost predicate GravCellTask(g: GravGrid, s: seq<Cell>, nodeID: int, mac: (int, int) -> bool, a: int, t: Task)
    requires GridOk(g, |s|) && 0 <= a < Count(g.cd)
  {
    var cid := g.base + a;
    (t == Task(SelfTask, Grav, 0, cid, -1) && s[cid].gravCount != 0 && s[cid].nodeID == nodeID) ||
    GravPairTask(g, s, nodeID, mac, a, t)
  }

  /** The tasks of the grid cells lo .. hi - 1. */
  ghost predicate GravTask(g: GravGrid, s: seq<Cell>, nodeID: int, mac: (int, int) -> bool, lo: int, hi: int, t: Task)
    requires GridOk(g, |s|) && 0 <= lo && hi <= Count(g.cd)
  {
    lo <= t.ci - g.base < hi && GravCellTask(g, s, nodeID, mac, t.ci - g.base, t)
  }

  /** The body of the walk around grid cell a for the visited cell b. */
  function GravPairStep(g: GravGrid, s: seq<Cell>, nodeID: int, mac: (int, int) -> bool, a: int, b: int): Step
    requires GridOk(g, |s|) && 0 <= a < Count(g.cd) && 0 <= b < Count(g.cd)
  {
    if !GravPairKept(g, s, nodeID, a, b) then Skip
    else if MultipoleMissing(s, nodeID, g.base + a, g.base + b) then Fail(MultipoleNotExchanged)
    else if BeyondMesh(g, s, g.base + a, g.base + b) || mac(g.base + a, g.base + b) then Skip
    else Emit(Task(PairTask, Grav, 0, g.base + a, g.base + b))
  }

  /** For a cell b in the window around a non-empty cell a, what the walk body does with b. */
  lemma GravStepOne(g: GravGrid, s: seq<Cell>, nodeID: int, mac: (int, int) -> bool, a: int, b: int)
    requires GridOk(g, |s|) && 0 <= a < Count(g.cd) && s[g.base + a].gravCount != 0
    requires InWindow(g.cd, g.periodic, CellIjk(g.cd, a), g.w, b)
    ensures GravPairStep(g, s, nodeID, mac, a, b).Fail? <==> GravPairFails(g, s, nodeID, a, b)
    ensures GravPairStep(g, s, nodeID, mac, a, b).Emit? <==>
      GravPairWanted(g, s, nodeID, mac, a, b) && !MultipoleMissing(s, nodeID, g.base + a, g.base + b)
    ensures GravPairStep(g, s, nodeID, mac, a, b).Emit? ==>
      GravPairStep(g, s, nodeID, mac, a, b).task == Task(PairTask, Grav, 0, g.base + a, g.base + b)
  {
  }

  /** A candidate pair whose foreign multipole is missing: the walk stops the run there. */
  ghost predicate GravPairFails(g: GravGrid, s: seq<Cell>, nodeID: int, a: int, b: int)
    requires GridOk(g, |s|)
  {
    GravCandidate(g, s, nodeID, a, b) && MultipoleMissing(s, nodeID, g.base + a, g.base + b)
  }

  /** A visited cell that does not stop the run leaves no failing cell among those visited so far. */
  lemma GravWalkNoFail(g: GravGrid, s: seq<Cell>, nodeID: int, mac: (int, int) -> bool, a: int, ids: seq<int>, n: int)
    requires GridOk(g, |s|) && 0 <= a < Count(g.cd) && s[g.base + a].gravCount != 0
    requires 0 <= n < |ids| && InWindow(g.cd, g.periodic, CellIjk(g.cd, a), g.w, ids[n]) && 0 <= ids[n] < Count(g.cd)
    requires forall b :: b in ids[..n] ==> !GravPairFails(g, s, nodeID, a, b)
    requires !GravPairStep(g, s, nodeID, mac, a, ids[n]).Fail?
    ensures forall b :: b in ids[..n + 1] ==> !GravPairFails(g, s, nodeID, a, b)
  {
    GravStepOne(g, s, nodeID, mac, a, ids[n]);
    assert ids[..n + 1] == ids[..n] + [ids[n]];
  }

  /**
   * One visited cell of the walk around a non-empty grid cell a, when it
   * does not stop the run: the tasks so far are those of the cells visited
   * before it and one more.
   */
  lemma GravWalkStep(g: GravGrid, s: seq<Cell>, nodeID: int, mac: (int, int) -> bool, a: int,
                     ids: seq<int>, n: int, pairs: seq<Task>, next: seq<Task>)
    requires GridOk(g, |s|) && 0 <= a < Count(g.cd) && s[g.base + a].gravCount != 0
    requires 0 <= n < |ids| && InWindow(g.cd, g.periodic, CellIjk(g.cd, a), g.w, ids[n]) && 0 <= ids[n] < Count(g.cd)
    requires forall t :: t in pairs <==> GravPairTask(g, s, nodeID, mac, a, t) && t.cj - g.base in ids[..n]
    requires !GravPairStep(g, s, nodeID, mac, a, ids[n]).Fail?
    requires var st := GravPairStep(g, s, nodeID, mac, a, ids[n]); next == if st.Emit? then pairs + [st.task] else pairs
    ensures forall t :: t in next <==> GravPairTask(g, s, nodeID, mac, a, t) && t.cj - g.base in ids[..n + 1]
    ensures Distinct(ids) && Unique(pairs) ==> Unique(next)
  {
    var b := ids[n];
    GravStepOne(g, s, nodeID, mac, a, b);
    assert ids[..n + 1] == ids[..n] + [b];
    var st := GravPairStep(g, s, nodeID, mac, a, b);
    forall t
      ensures t in next <==> GravPairTask(g, s, nodeID, mac, a, t) && t.cj - g.base in ids[..n + 1]
    {
      if t.cj - g.base == b {
        assert GravPairTask(g, s, nodeID, mac, a, t) <==> st.Emit? && t == st.task;
      }
    }
    if st.Emit? && Distinct(ids) && Unique(pairs) {
      assert b !in ids[..n];
      UniqueConcat(pairs, [st.task]);
    }
  }

  /** After the whole walk, the visited cells are the whole window. */
  lemma GravWalkDone(g: GravGrid, s: seq<Cell>, nodeID: int, mac: (int, int) -> bool, a: int,
                     ids: seq<int>, pairs: seq<Task>)
    requires GridOk(g, |s|) && 0 <= a < Count(g.cd)
    requires forall x :: InWindow(g.cd, g.periodic, CellIjk(g.cd, a), g.w, x) ==> x in ids
    requires forall b :: b in ids[..|ids|] ==> !GravPairFails(g, s, nodeID, a, b)
    requires forall t :: t in pairs <==> GravPairTask(g, s, nodeID, mac, a, t) && t.cj - g.base in ids[..|ids|]
    ensures !exists b :: GravPairFails(g, s, nodeID, a, b)
    ensures forall t :: t in pairs <==> GravPairTask(g, s, nodeID, mac, a, t)
  {
    assert ids[..|ids|] == ids;
    forall b | GravCandidate(g, s, nodeID, a, b)
      ensures b in ids
    {
    }
  }

  /**
   * The walk around a non-empty grid cell a: it stops exactly on a
   * candidate pair with a missing multipole; otherwise it adds exactly the
   * pair tasks of the wanted pairs, each once when the window fits the grid.
   */
  method GravityWalk(g: GravGrid, s: seq<Cell>, nodeID: int, mac: (int, int) -> bool, a: int)
    returns (res: MapOutcome, pairs: seq<Task>)
    requires GridOk(g, |s|) && 0 <= a < Count(g.cd) && s[g.base + a].gravCount != 0
    ensures res.Failed? <==> exists b :: GravPairFails(g, s, nodeID, a, b)
    ensures res.Mapped? ==> forall t :: t in pairs <==> GravPairTask(g, s, nodeID, mac, a, t)
    ensures res.Mapped? && FitsAll(g.cd, g.w, g.periodic) ==> Unique(pairs)
  {
    var ids, _ := WalkWindow(g.cd, g.periodic, CellIjk(g.cd, a), g.w);
    res, pairs := Mapped, [];
    for n := 0 to |ids|
      invariant forall b :: b in ids[..n] ==> !GravPairFails(g, s, nodeID, a, b)
      invariant forall t :: t in pairs <==> GravPairTask(g, s, nodeID, mac, a, t) && t.cj - g.base in ids[..n]
      invariant FitsAll(g.cd, g.w, g.periodic) ==> Unique(pairs)
    {
      assert ids[n] in ids;
      var st := GravPairStep(g, s, nodeID, mac, a, ids[n]);
      if st.Fail? {
        GravStepOne(g, s, nodeID, mac, a, ids[n]);
        return Failed(st.err), pairs;
      }
      var next := if st.Emit? then pairs + [st.task] else pairs;
      GravWalkNoFail(g, s, nodeID, mac, a, ids, n);
      GravWalkStep(g, s, nodeID, mac, a, ids, n, pairs, next);
      pairs := next;
    }
    GravWalkDone(g, s, nodeID, mac, a, ids, pairs);
  }

  /**
   * One iteration of a same-grid gravity mapper, for grid cell a: an empty
   * cell is skipped, a void cell holding particles stops the run, a local
   * cell gets its self task, and the walk around the cell adds the pair
   * tasks.
   */
  method GravityCell(g: GravGrid, s: seq<Cell>, nodeID: int, mac: (int, int) -> bool, a: int)
    returns (res: MapOutcome, added: seq<Task>)
    requires GridOk(g, |s|) && 0 <= a < Count(g.cd)
    ensures res.Failed? <==> GravCellFails(g, s, nodeID, a)
    ensures res.Mapped? ==> forall t :: t in added <==> GravCellTask(g, s, nodeID, mac, a, t)
    ensures res.Mapped? && FitsAll(g.cd, g.w, g.periodic) ==> Unique(added)
  {
    var cid := g.base + a;
    if s[cid].gravCount == 0 {
      res, added := Mapped, [];
    } else if g.voidCheck && s[cid].kind == Void {
      res, added := Failed(VoidCellHasParticles), [];
    } else {
      var self := if s[cid].nodeID == nodeID then [Task(SelfTask, Grav, 0, cid, -1)] else [];
      var pairs;
      res, pairs := GravityWalk(g, s, nodeID, mac, a);
      if res.Mapped? && FitsAll(g.cd, g.w, g.periodic) {
        UniqueConcat(self, pairs);
      }
      added := self + pairs;
    }
  }

  /** The mapper's tasks after one more grid cell a, whose own tasks are cell. */
  lemma GravTasksStep(g: GravGrid, s: seq<Cell>, nodeID: int, mac: (int, int) -> bool, lo: int, a: int,
                      added: seq<Task>, cell: seq<Task>)
    requires GridOk(g, |s|) && 0 <= lo <= a < Count(g.cd)
    requires forall t :: t in added <==> GravTask(g, s, nodeID, mac, lo, a, t)
    requires forall t :: t in cell <==> GravCellTask(g, s, nodeID, mac, a, t)
    ensures forall t :: t in added + cell <==> GravTask(g, s, nodeID, mac, lo, a + 1, t)
    ensures Unique(added) && Unique(cell) ==> Unique(added + cell)
  {
    if Unique(added) && Unique(cell) {
      UniqueConcat(added, cell);
    }
  }

  /**
   * A same-grid gravity mapper over the grid cells start .. start + num - 1:
   * it stops exactly when one of them fails; otherwise its tasks are
   * exactly the tasks of those cells, each once when the window fits the
   * grid.
   */
  method GravityMapper(g: GravGrid, s: seq<Cell>, nodeID: int, mac: (int, int) -> bool, start: int, num: int)
    returns (res: MapOutcome, added: seq<Task>)
    requires GridOk(g, |s|) && 0 <= start && 0 <= num && start + num <= Count(g.cd)
    ensures res.Failed? <==> exists a :: start <= a < start + num && GravCellFails(g, s, nodeID, a)
    ensures res.Mapped? ==> forall t :: t in added <==> GravTask(g, s, nodeID, mac, start, start + num, t)
    ensures res.Mapped? && FitsAll(g.cd, g.w, g.periodic) ==> Unique(added)
  {
    res, added := Mapped, [];
    for ind := 0 to num
      invariant res == Mapped
      invariant forall a :: start <= a < start + ind ==> !GravCellFails(g, s, nodeID, a)
      invariant forall t :: t in added <==> GravTask(g, s, nodeID, mac, start, start + ind, t)
      invariant FitsAll(g.cd, g.w, g.periodic) ==> Unique(added)
    {
      var r, cell := GravityCell(g, s, nodeID, mac, start + ind);
      if r.Failed? {
        return r, added;
      }
      GravTasksStep(g, s, nodeID, mac, start, start + ind, added, cell);
      added := added + cell;
    }
  }

  /** `delta` of the gravity mappers: (int)((2.5 width / theta) / width) + 1 cells. */
  function GravityDelta(width: real, theta: real): (d: int)
    requires width > 0.0 && theta > 0.0
    ensures d >= 1
  {
    var x := (2.5 * width / theta) / width;
    assert x >= 0.0 by {
      assert 2.5 * width / theta > 0.0;
    }
    TruncNonNegative(x);
    Trunc(x) + 1
  }

  /**
   * The zoom-grid mapper's grid: the zoom cells from index 0, never
   * periodic, no void check, and the radius from the first zoom cell's
   * width.
   */
  function ZoomGravityGrid(l: Layout, s: seq<Cell>, theta: real, dim: Vec3,
                           sameSize: (CellBox, CellBox, bool, Vec3) -> real): (g: GravGrid)
    requires LayoutOk(l) && |s| == NrCells(l) && s[0].width.x > 0.0 && theta > 0.0
    ensures GridOk(g, |s|) && g.base == 0 && g.cd == l.zoomCdim && !g.periodic
  {
    GravGrid(0, l.zoomCdim, false, Proxies.PassWindow(GravityDelta(s[0].width.x, theta), l.zoomCdim.x, false),
             false, 0.0, dim, sameSize)
  }

  /**
   * The background mapper's grid: the background cells from the offset,
   * the box's periodicity, the void check, the mesh cut-off and the radius
   * from the first background cell's width.
   */
  function NaturalGravityGrid(l: Layout, periodic: bool, s: seq<Cell>, theta: real, maxDistance: real, dim: Vec3,
                              sameSize: (CellBox, CellBox, bool, Vec3) -> real): (g: GravGrid)
    requires LayoutOk(l) && Positive(l.bkgCdim) && |s| == NrCells(l) && s[l.offset].width.x > 0.0 && theta > 0.0
    ensures GridOk(g, |s|) && g.base == l.offset && g.cd == l.bkgCdim && g.periodic == periodic && g.voidCheck
  {
    GravGrid(l.offset, l.bkgCdim, periodic,
             Proxies.PassWindow(GravityDelta(s[l.offset].width.x, theta), l.bkgCdim.x, periodic),
             true, maxDistance * maxDistance, dim, sameSize)
  }

  /** engine_make_self_gravity_tasks_mapper_zoom_cells over the zoom cells start .. start + num - 1. */
  method ZoomGravityMapper(l: Layout, s: seq<Cell>, nodeID: int, theta: real, dim: Vec3,
                           sameSize: (CellBox, CellBox, bool, Vec3) -> real, mac: (int, int) -> bool,
                           start: int, num: int)
    returns (res: MapOutcome, added: seq<Task>)
    requires LayoutOk(l) && |s| == NrCells(l) && s[0].width.x > 0.0 && theta > 0.0
    requires 0 <= start && 0 <= num && start + num <= l.nrZoomCells
    ensures var g := ZoomGravityGrid(l, s, theta, dim, sameSize);
      (res.Failed? <==> exists a :: start <= a < start + num && GravCellFails(g, s, nodeID, a)) &&
      (res.Mapped? ==> forall t :: t in added <==> GravTask(g, s, nodeID, mac, start, start + num, t)) &&
      (res.Mapped? ==> Unique(added))
  {
    var g := ZoomGravityGrid(l, s, theta, dim, sameSize);
    res, added := GravityMapper(g, s, nodeID, mac, start, num);
  }

  /** engine_make_self_gravity_tasks_mapper_natural_cells over the background cells start .. start + num - 1. */
  method NaturalGravityMapper(l: Layout, periodic: bool, s: seq<Cell>, nodeID: int, theta: real, maxDistance: real,
                              dim: Vec3, sameSize: (CellBox, CellBox, bool, Vec3) -> real, mac: (int, int) -> bool,
                              start: int, num: int)
    returns (res: MapOutcome, added: seq<Task>)
    requires LayoutOk(l) && Positive(l.bkgCdim) && |s| == NrCells(l) && s[l.offset].width.x > 0.0 && theta > 0.0
    requires 0 <= start && 0 <= num && start + num <= l.nrBkgCells
    ensures var g := NaturalGravityGrid(l, periodic, s, theta, maxDistance, dim, sameSize);
      (res.Failed? <==> exists a :: start <= a < start + num && GravCellFails(g, s, nodeID, a)) &&
      (res.Mapped? ==> forall t :: t in added <==> GravTask(g, s, nodeID, mac, start, start + num, t)) &&
      (res.Mapped? && FitsAll(g.cd, g.w, g.periodic) ==> Unique(added))
  {
    var g := NaturalGravityGrid(l, periodic, s, theta, maxDistance, dim, sameSize);
    res, added := GravityMapper(g, s, nodeID, mac, start, num);
  }

  /**
   * On the top-level cells of a built space, the zoom mapper's self tasks
   * go to local non-empty zoom cells and its pair tasks pair two zoom cells
   * ci < cj, cj not empty and one of them local: the check of its debug
   * build.
   */
  lemma ZoomGravityTasksAreZoom(l: Layout, s: seq<Cell>, nodeID: int, theta: real, dim: Vec3,
                                sameSize: (CellBox, CellBox, bool, Vec3) -> real, mac: (int, int) -> bool,
                                start: int, num: int, t: Task)
    requires LayoutOk(l) && TopLevelOk(s, l) && s[0].width.x > 0.0 && theta > 0.0
    requires 0 <= start && start + num <= l.nrZoomCells
    requires GravTask(ZoomGravityGrid(l, s, theta, dim, sameSize), s, nodeID, mac, start, start + num, t)
    ensures 0 <= t.ci < l.offset && s[t.ci].kind == Zoom && s[t.ci].gravCount != 0
    ensures t.kind == SelfTask ==> t.cj == -1 && s[t.ci].nodeID == nodeID
    ensures t.kind == PairTask ==>
      t.ci < t.cj < l.offset && s[t.cj].kind == Zoom && s[t.cj].gravCount != 0 && Involves(s, nodeID, t.ci, t.cj)
  {
  }

  /**
   * On the top-level cells of a built space, the background mapper's tasks
   * name background cells only, and never the void cell when it runs
   * through: its self tasks go to local non-empty background cells and its
   * pair tasks pair two background cells ci < cj, one of them local.
   */
  lemma NaturalGravityTasksAreBackground(l: Layout, periodic: bool, s: seq<Cell>, nodeID: int, theta: real,
                                         maxDistance: real, dim: Vec3, sameSize: (CellBox, CellBox, bool, Vec3) -> real,
                                         mac: (int, int) -> bool, start: int, num: int, t: Task)
    requires LayoutOk(l) && Positive(l.bkgCdim) && TopLevelOk(s, l) && s[l.offset].width.x > 0.0 && theta > 0.0
    requires 0 <= start && start + num <= l.nrBkgCells
    requires var g := NaturalGravityGrid(l, periodic, s, theta, maxDistance, dim, sameSize);
      (forall a :: start <= a < start + num ==> !GravCellFails(g, s, nodeID, a)) &&
      GravTask(g, s, nodeID, mac, start, start + num, t)
    ensures l.offset <= t.ci < |s| && BackgroundLevel(s[t.ci].kind) && s[t.ci].kind != Void
    ensures t.kind == SelfTask ==> t.cj == -1 && s[t.ci].nodeID == nodeID && s[t.ci].gravCount != 0
    ensures t.kind == PairTask ==>
      t.ci < t.cj < |s| && BackgroundLevel(s[t.cj].kind) && s[t.cj].gravCount != 0 && Involves(s, nodeID, t.ci, t.cj)
  {
    var g := NaturalGravityGrid(l, periodic, s, theta, maxDistance, dim, sameSize);
    assert !GravCellFails(g, s, nodeID, t.ci - l.offset);
  }

  // ---------------------------------------------------------------------------
  // Hydro and friends-of-friends loops over the zoom grid
  // (engine_make_hydroloop_tasks_mapper_with_zoom,
  // engine_make_fofloop_tasks_mapper_with_zoom)

  /** The zoom grid the hydro and FOF mappers walk: cells 0 .. |cd| - 1, never periodic. */
  predicate ZoomGridOk(cd: Dim3, n: int) {
    Positive(cd) && Count(cd) <= n
  }

  /** The offset from grid cell a to an adjacent grid cell b. */
  function Offset(cd: Dim3, a: int, b: int): (o: Ijk)
    requires Positive(cd) && 0 <= a < Count(cd) && 0 <= b < Count(cd)
    requires Adjacent(CellIjk(cd, a), CellIjk(cd, b))
    ensures UnitOffset(o)
    ensures o == Ijk(0, 0, 0) <==> a == b
  {
    var ta, tb := CellIjk(cd, a), CellIjk(cd, b);
    CellIdOfIjk(cd, a);
    CellIdOfIjk(cd, b);
    Ijk(tb.i - ta.i, tb.j - ta.j, tb.k - ta.k)
  }

  /** On one axis, the non-periodic unit window around v reaches exactly the coordinates next to it. */
  lemma AxisUnitWindow(v: int, x: int, n: int)
    requires 0 <= v < n && 0 <= x < n
    ensures Reaches(v, x, -1, 2, n, false) <==> -1 <= x - v <= 1
  {
    if -1 <= x - v <= 1 {
      WrapIdentity(x, n);
      assert Target(v, x - v, n, false) == x;
    }
    if Reaches(v, x, -1, 2, n, false) {
      var o :| -1 <= o < 2 && Target(v, o, n, false) == x;
      NonPeriodicTarget(v, o, n);
    }
  }

  /** The cells the hydro and FOF walks visit around a are exactly the grid cells adjacent to it. */
  lemma UnitWindowAdjacent(cd: Dim3, a: int, b: int)
    requires Positive(cd) && 0 <= a < Count(cd)
    ensures InWindow(cd, false, CellIjk(cd, a), Window(1, 1), b) <==>
      0 <= b < Count(cd) && Adjacent(CellIjk(cd, a), CellIjk(cd, b))
  {
    if 0 <= b < Count(cd) {
      CellIdOfIjk(cd, a);
      CellIdOfIjk(cd, b);
      var ta, tb := CellIjk(cd, a), CellIjk(cd, b);
      AxisUnitWindow(ta.i, tb.i, cd.x);
      AxisUnitWindow(ta.j, tb.j, cd.y);
      AxisUnitWindow(ta.k, tb.k, cd.z);
    }
  }

  /** The walk's offsets (ii, jj, kk) to a visited cell are its offset from the centre cell. */
  lemma VisitedOffset(cd: Dim3, a: int, b: int, o: Ijk)
    requires Positive(cd) && 0 <= a < Count(cd)
    requires Visited(cd, false, CellIjk(cd, a), Window(1, 1), b, o)
    ensures 0 <= b < Count(cd) && Adjacent(CellIjk(cd, a), CellIjk(cd, b)) && o == Offset(cd, a, b)
  {
    var c := CellIjk(cd, a);
    CellIdOfIjk(cd, a);
    var t := Ijk(Target(c.i, o.i, cd.x, false), Target(c.j, o.j, cd.y, false), Target(c.k, o.k, cd.z, false));
    NonPeriodicTarget(c.i, o.i, cd.x);
    NonPeriodicTarget(c.j, o.j, cd.y);
    NonPeriodicTarget(c.k, o.k, cd.z);
    CellIjkOfId(cd, t);
    CellIdRange(cd, t);
  }

  /**
   * `sortlistID[(kk + 1) + 3 ((jj + 1) + 3 (ii + 1))]`: the sort direction
   * of the pair (a, b), from the table of 27 sort ids (not part of this
   * model) indexed by the offset between the cells.
   */
  function SortId(sortlist: seq<int>, cd: Dim3, a: int, b: int): int
    requires |sortlist| == 27 && Positive(cd) && 0 <= a < Count(cd) && 0 <= b < Count(cd)
    requires Adjacent(CellIjk(cd, a), CellIjk(cd, b))
  {
    sortlist[DirectionIndex(Offset(cd, a, b))]
  }

  /**
   * The direction index of a pair of distinct adjacent cells is one of the
   * 26 slots other than the centre 13, and distinct partners of a cell get
   * distinct slots.
   */
  lemma DirectionIndexOfPair(cd: Dim3, a: int, b: int, b': int)
    requires Positive(cd) && 0 <= a < Count(cd) && 0 <= b < Count(cd) && 0 <= b' < Count(cd) && a != b
    requires Adjacent(CellIjk(cd, a), CellIjk(cd, b)) && Adjacent(CellIjk(cd, a), CellIjk(cd, b'))
    ensures 0 <= DirectionIndex(Offset(cd, a, b)) < 27 && DirectionIndex(Offset(cd, a, b)) != 13
    ensures DirectionIndex(Offset(cd, a, b)) == DirectionIndex(Offset(cd, a, b')) ==> b == b'
  {
    var o, o' := Offset(cd, a, b), Offset(cd, a, b');
    DirectionIndexBijective(o, o');
    if o == o' {
      CellIdOfIjk(cd, b);
      CellIdOfIjk(cd, b');
      CellIdInjective(cd, CellIjk(cd, b), CellIjk(cd, b'));
    }
  }

  /** The engine policies the hydro mapper reads. */
  datatype Policy = Policy(feedback: bool, stars: bool, sinks: bool, blackHoles: bool)

  /** The cell takes part in the hydro loop: it has gas, or stars, sinks or black holes when those are on. */
  predicate HydroActive(p: Policy, c: Cell) {
    c.hydroCount != 0 || (p.stars && c.starsCount != 0) || (p.sinks && c.sinksCount != 0) ||
    (p.blackHoles && c.bhCount != 0)
  }

  /** The test on the neighbouring cell, where stars count only with feedback. */
  predicate HydroNeighbourActive(p: Policy, c: Cell) {
    c.hydroCount != 0 || (p.feedback && c.starsCount != 0) || (p.sinks && c.sinksCount != 0) ||
    (p.blackHoles && c.bhCount != 0)
  }

  /** The pairs that get a density pair task: adjacent zoom cells a < b, both active, one of them local. */
  predicate HydroPair(cd: Dim3, s: seq<Cell>, nodeID: int, p: Policy, a: int, b: int)
    requires ZoomGridOk(cd, |s|)
  {
    0 <= a < b < Count(cd) && Adjacent(CellIjk(cd, a), CellIjk(cd, b)) &&
    HydroActive(p, s[a]) && HydroNeighbourActive(p, s[b]) && Involves(s, nodeID, a, b)
  }

  /** The density pair task of cell a and a partner, flagged with the pair's sort direction. */
  predicate HydroPairTask(cd: Dim3, s: seq<Cell>, nodeID: int, p: Policy, sortlist: seq<int>, a: int, t: Task)
    requires ZoomGridOk(cd, |s|) && |sortlist| == 27
  {
    HydroPair(cd, s, nodeID, p, a, t.cj) && t == Task(PairTask, Density, SortId(sortlist, cd, a, t.cj), a, t.cj)
  }

  /** The tasks of zoom cell a: its self task when it is local and active, and its density pairs. */
  predicate HydroCellTask(cd: Dim3, s: seq<Cell>, nodeID: int, p: Policy, sortlist: seq<int>, a: int, t: Task)
    requires ZoomGridOk(cd, |s|) && |sortlist| == 27 && 0 <= a < Count(cd)
  {
    (t == Task(SelfTask, Density, 0, a, -1) && HydroActive(p, s[a]) && s[a].nodeID == nodeID) ||
    HydroPairTask(cd, s, nodeID, p, sortlist, a, t)
  }

  /** The body of the hydro walk around cell a for the cell b reached with offsets o. */
  function HydroPairStep(cd: Dim3, s: seq<Cell>, nodeID: int, p: Policy, sortlist: seq<int>, a: int, b: int, o: Ijk): Step
    requires ZoomGridOk(cd, |s|) && |sortlist| == 27 && 0 <= a < Count(cd) && 0 <= b < Count(cd) && UnitOffset(o)
  {
    if a >= b || !HydroNeighbourActive(p, s[b]) || !Involves(s, nodeID, a, b) then Skip
    else Emit(Task(PairTask, Density, sortlist[DirectionIndex(o)], a, b))
  }

  /** One visited cell of the hydro walk around an active cell a. */
  lemma HydroWalkStep(cd: Dim3, s: seq<Cell>, nodeID: int, p: Policy, sortlist: seq<int>, a: int,
                      ids: seq<int>, offs: seq<Ijk>, n: int, pairs: seq<Task>, next: seq<Task>)
    requires ZoomGridOk(cd, |s|) && |sortlist| == 27 && 0 <= a < Count(cd) && HydroActive(p, s[a])
    requires |ids| == |offs| && 0 <= n < |ids| && Visited(cd, false, CellIjk(cd, a), Window(1, 1), ids[n], offs[n])
    requires 0 <= ids[n] < Count(cd) && UnitOffset(offs[n])
    requires forall t :: t in pairs <==> HydroPairTask(cd, s, nodeID, p, sortlist, a, t) && t.cj in ids[..n]
    requires var st := HydroPairStep(cd, s, nodeID, p, sortlist, a, ids[n], offs[n]);
      next == if st.Emit? then pairs + [st.task] else pairs
    ensures forall t :: t in next <==> HydroPairTask(cd, s, nodeID, p, sortlist, a, t) && t.cj in ids[..n + 1]
    ensures Distinct(ids) && Unique(pairs) ==> Unique(next)
  {
    var b := ids[n];
    VisitedOffset(cd, a, b, offs[n]);
    assert ids[..n + 1] == ids[..n] + [b];
    var st := HydroPairStep(cd, s, nodeID, p, sortlist, a, b, offs[n]);
    if st.Emit? && Distinct(ids) && Unique(pairs) {
      assert b !in ids[..n];
      UniqueConcat(pairs, [st.task]);
    }
  }

  /** After the whole hydro walk, the visited cells are all the cells adjacent to a. */
  lemma HydroWalkDone(cd: Dim3, s: seq<Cell>, nodeID: int, p: Policy, sortlist: seq<int>, a: int,
                      ids: seq<int>, pairs: seq<Task>)
    requires ZoomGridOk(cd, |s|) && |sortlist| == 27 && 0 <= a < Count(cd)
    requires forall x :: InWindow(cd, false, CellIjk(cd, a), Window(1, 1), x) ==> x in ids
    requires forall t :: t in pairs <==> HydroPairTask(cd, s, nodeID, p, sortlist, a, t) && t.cj in ids[..|ids|]
    ensures forall t :: t in pairs <==> HydroPairTask(cd, s, nodeID, p, sortlist, a, t)
  {
    assert ids[..|ids|] == ids;
    forall b | 0 <= b < Count(cd) && Adjacent(CellIjk(cd, a), CellIjk(cd, b))
      ensures b in ids
    {
      UnitWindowAdjacent(cd, a, b);
    }
  }

  /** The hydro walk around an active zoom cell a: exactly its density pairs, each once. */
  method HydroWalk(cd: Dim3, s: seq<Cell>, nodeID: int, p: Policy, sortlist: seq<int>, a: int)
    returns (pairs: seq<Task>)
    requires ZoomGridOk(cd, |s|) && |sortlist| == 27 && 0 <= a < Count(cd) && HydroActive(p, s[a])
    ensures forall t :: t in pairs <==> HydroPairTask(cd, s, nodeID, p, sortlist, a, t)
    ensures Unique(pairs)
  {
    var ids, offs := WalkWindow(cd, false, CellIjk(cd, a), Window(1, 1));
    pairs := [];
    for n := 0 to |ids|
      invariant forall t :: t in pairs <==> HydroPairTask(cd, s, nodeID, p, sortlist, a, t) && t.cj in ids[..n]
      invariant Unique(pairs)
    {
      VisitedOffset(cd, a, ids[n], offs[n]);
      var st := HydroPairStep(cd, s, nodeID, p, sortlist, a, ids[n], offs[n]);
      var next := if st.Emit? then pairs + [st.task] else pairs;
      HydroWalkStep(cd, s, nodeID, p, sortlist, a, ids, offs, n, pairs, next);
      pairs := next;
    }
    HydroWalkDone(cd, s, nodeID, p, sortlist, a, ids, pairs);
  }

  /**
   * engine_make_hydroloop_tasks_mapper_with_zoom over the zoom cells
   * start .. start + num - 1: exactly the tasks of those cells, each once.
   */
  method HydroMapper(cd: Dim3, s: seq<Cell>, nodeID: int, p: Policy, sortlist: seq<int>, start: int, num: int)
    returns (added: seq<Task>)
    requires ZoomGridOk(cd, |s|) && |sortlist| == 27 && 0 <= start && 0 <= num && start + num <= Count(cd)
    ensures forall t :: t in added <==>
      start <= t.ci < start + num && HydroCellTask(cd, s, nodeID, p, sortlist, t.ci, t)
    ensures Unique(added)
  {
    added := [];
    for ind := 0 to num
      invariant forall t :: t in added <==>
        start <= t.ci < start + ind && HydroCellTask(cd, s, nodeID, p, sortlist, t.ci, t)
      invariant Unique(added)
    {
      var cid := start + ind;
      var cell := [];
      if HydroActive(p, s[cid]) {
        var self := if s[cid].nodeID == nodeID then [Task(SelfTask, Density, 0, cid, -1)] else [];
        var pairs := HydroWalk(cd, s, nodeID, p, sortlist, cid);
        UniqueConcat(self, pairs);
        cell := self + pairs;
      }
      assert forall t :: t in cell <==> HydroCellTask(cd, s, nodeID, p, sortlist, cid, t);
      UniqueConcat(added, cell);
      added := added + cell;
    }
  }

  /** The FOF pairs: adjacent zoom cells a < b, both holding gravity particles, a local and b on a's node. */
  predicate FofPair(cd: Dim3, s: seq<Cell>, nodeID: int, a: int, b: int)
    requires ZoomGridOk(cd, |s|)
  {
    0 <= a < b < Count(cd) && Adjacent(CellIjk(cd, a), CellIjk(cd, b)) &&
    s[a].gravCount != 0 && s[a].nodeID == nodeID && s[b].gravCount != 0 && s[b].nodeID == s[a].nodeID
  }

  /** The tasks of zoom cell a: its FOF self task when it is local and not empty, and its FOF pairs. */
  predicate FofCellTask(cd: Dim3, s: seq<Cell>, nodeID: int, a: int, t: Task)
    requires ZoomGridOk(cd, |s|) && 0 <= a < Count(cd)
  {
    (t == Task(FofSelfTask, NoSubtype, 0, a, -1) && s[a].gravCount != 0 && s[a].nodeID == nodeID) ||
    (t == Task(FofPairTask, NoSubtype, 0, a, t.cj) && FofPair(cd, s, nodeID, a, t.cj))
  }

  /** The body of the FOF walk around cell a for the visited cell b. */
  function FofPairStep(cd: Dim3, s: seq<Cell>, a: int, b: int): Step
    requires ZoomGridOk(cd, |s|) && 0 <= a < Count(cd) && 0 <= b < Count(cd)
  {
    if a >= b || s[b].gravCount == 0 || s[a].nodeID != s[b].nodeID then Skip
    else Emit(Task(FofPairTask, NoSubtype, 0, a, b))
  }

  /** One visited cell of the FOF walk around a local non-empty cell a. */
  lemma FofWalkStep(cd: Dim3, s: seq<Cell>, nodeID: int, a: int, ids: seq<int>, n: int, pairs: seq<Task>,
                    next: seq<Task>)
    requires ZoomGridOk(cd, |s|) && 0 <= a < Count(cd) && s[a].gravCount != 0 && s[a].nodeID == nodeID
    requires 0 <= n < |ids| && InWindow(cd, false, CellIjk(cd, a), Window(1, 1), ids[n]) && 0 <= ids[n] < Count(cd)
    requires forall t :: t in pairs <==>
      t == Task(FofPairTask, NoSubtype, 0, a, t.cj) && FofPair(cd, s, nodeID, a, t.cj) && t.cj in ids[..n]
    requires var st := FofPairStep(cd, s, a, ids[n]); next == if st.Emit? then pairs + [st.task] else pairs
    ensures forall t :: t in next <==>
      t == Task(FofPairTask, NoSubtype, 0, a, t.cj) && FofPair(cd, s, nodeID, a, t.cj) && t.cj in ids[..n + 1]
    ensures Distinct(ids) && Unique(pairs) ==> Unique(next)
  {
    var b := ids[n];
    UnitWindowAdjacent(cd, a, b);
    assert ids[..n + 1] == ids[..n] + [b];
    var st := FofPairStep(cd, s, a, b);
    if st.Emit? && Distinct(ids) && Unique(pairs) {
      assert b !in ids[..n];
      UniqueConcat(pairs, [st.task]);
    }
  }

  /** The FOF walk around a local non-empty zoom cell a: exactly its FOF pairs, each once. */
  method FofWalk(cd: Dim3, s: seq<Cell>, nodeID: int, a: int) returns (pairs: seq<Task>)
    requires ZoomGridOk(cd, |s|) && 0 <= a < Count(cd) && s[a].gravCount != 0 && s[a].nodeID == nodeID
    ensures forall t :: t in pairs <==> t == Task(FofPairTask, NoSubtype, 0, a, t.cj) && FofPair(cd, s, nodeID, a, t.cj)
    ensures Unique(pairs)
  {
    var ids, _ := WalkWindow(cd, false, CellIjk(cd, a), Window(1, 1));
    pairs := [];
    for n := 0 to |ids|
      invariant forall t :: t in pairs <==>
        t == Task(FofPairTask, NoSubtype, 0, a, t.cj) && FofPair(cd, s, nodeID, a, t.cj) && t.cj in ids[..n]
      invariant Unique(pairs)
    {
      assert ids[n] in ids;
      var st := FofPairStep(cd, s, a, ids[n]);
      var next := if st.Emit? then pairs + [st.task] else pairs;
      FofWalkStep(cd, s, nodeID, a, ids, n, pairs, next);
      pairs := next;
    }
    assert ids[..|ids|] == ids;
    forall b | 0 <= b < Count(cd) && Adjacent(CellIjk(cd, a), CellIjk(cd, b))
      ensures b in ids
    {
      UnitWindowAdjacent(cd, a, b);
    }
  }

  /**
   * engine_make_fofloop_tasks_mapper_with_zoom over the zoom cells
   * start .. start + num - 1: exactly the tasks of those cells, each once.
   */
  method FofMapper(cd: Dim3, s: seq<Cell>, nodeID: int, start: int, num: int) returns (added: seq<Task>)
    requires ZoomGridOk(cd, |s|) && 0 <= start && 0 <= num && start + num <= Count(cd)
    ensures forall t :: t in added <==> start <= t.ci < start + num && FofCellTask(cd, s, nodeID, t.ci, t)
    ensures Unique(added)
  {
    added := [];
    for ind := 0 to num
      invariant forall t :: t in added <==> start <= t.ci < start + ind && FofCellTask(cd, s, nodeID, t.ci, t)
      invariant Unique(added)
    {
      var cid := start + ind;
      var cell := [];
      if s[cid].gravCount != 0 && s[cid].nodeID == nodeID {
        var pairs := FofWalk(cd, s, nodeID, cid);
        UniqueConcat([Task(FofSelfTask, NoSubtype, 0, cid, -1)], pairs);
        cell := [Task(FofSelfTask, NoSubtype, 0, cid, -1)] + pairs;
      }
      assert forall t :: t in cell <==> FofCellTask(cd, s, nodeID, cid, t);
      UniqueConcat(added, cell);
      added := added + cell;
    }
  }

  // ---------------------------------------------------------------------------
  // Gravity between the two grids (engine_make_self_gravity_tasks_mapper_with_zoom_diffsize)

  /**
   * The cross-level mapper's parameters: the first background index, the
   * box, the mesh cut-off (squared) and `nearest` for the corrected
   * cell_min_dist2_diff_size.
   */
  datatype DiffPass = DiffPass(offset: int, periodic: bool, dim: Vec3, nearest: (real, real) -> real, maxDist2: real)

  /** A background cell that is not a neighbour of the zoom region: such cells take no part. */
  predicate Outlying(c: Cell) {
    BackgroundLevel(c.kind) && c.kind != Neighbour
  }

  /** Cell x scans for partners: it is not a local background cell, holds gravity particles and is not outlying. */
  predicate DiffScanned(s: seq<Cell>, nodeID: int, x: int)
    requires 0 <= x < |s|
  {
    !(s[x].nodeID == nodeID && BackgroundLevel(s[x].kind)) && s[x].gravCount != 0 && !Outlying(s[x])
  }

  /** The partners cell x scans: the zoom cells for a background cell, the background cells for a zoom cell. */
  predicate DiffInRange(d: DiffPass, s: seq<Cell>, x: int, y: int)
    requires 0 <= x < |s|
  {
    if BackgroundLevel(s[x].kind) then 0 <= y < d.offset else d.offset <= y < |s|
  }

  /** The guards on the partner y: not outlying, not empty, not a foreign pair, and the two duplicate guards. */
  predicate DiffPairKept(s: seq<Cell>, nodeID: int, x: int, y: int)
    requires 0 <= x < |s| && 0 <= y < |s|
  {
    !Outlying(s[y]) && s[y].gravCount != 0 && Involves(s, nodeID, x, y) &&
    !((s[x].nodeID == s[y].nodeID && x >= y) || (s[y].nodeID == nodeID && s[y].kind == Zoom))
  }

  /** The pairs the scan of x keeps. */
  predicate DiffCandidate(d: DiffPass, s: seq<Cell>, nodeID: int, x: int, y: int)
    requires 0 <= d.offset <= |s|
  {
    0 <= x < |s| && DiffScanned(s, nodeID, x) && DiffInRange(d, s, x, y) && DiffPairKept(s, nodeID, x, y)
  }

  /** In a periodic box, the two cells are farther apart than the mesh cut-off. */
  predicate DiffBeyondMesh(d: DiffPass, s: seq<Cell>, x: int, y: int)
    requires 0 <= x < |s| && 0 <= y < |s|
  {
    d.periodic && CellMinDist2DiffSize(s[x], s[y], d.periodic, d.dim, d.nearest) > d.maxDist2
  }

  /** The pairs that get a gravity pair task: candidates within the cut-off that mac rejects. */
  predicate DiffPairWanted(d: DiffPass, s: seq<Cell>, nodeID: int, mac: (int, int) -> bool, x: int, y: int)
    requires 0 <= d.offset <= |s|
  {
    DiffCandidate(d, s, nodeID, x, y) && !DiffBeyondMesh(d, s, x, y) && !mac(x, y)
  }

  /** A candidate with a missing multipole stops the run. */
  predicate DiffPairFails(d: DiffPass, s: seq<Cell>, nodeID: int, x: int, y: int)
    requires 0 <= d.offset <= |s|
  {
    DiffCandidate(d, s, nodeID, x, y) && MultipoleMissing(s, nodeID, x, y)
  }

  /** The tasks of cell x: its wanted cross-level pairs. */
  predicate DiffCellTask(d: DiffPass, s: seq<Cell>, nodeID: int, mac: (int, int) -> bool, x: int, t: Task)
    requires 0 <= d.offset <= |s|
  {
    t == Task(PairTask, Grav, 0, x, t.cj) && DiffPairWanted(d, s, nodeID, mac, x, t.cj)
  }

  /** The body of the scan of x for the partner y. */
  function DiffPairStep(d: DiffPass, s: seq<Cell>, nodeID: int, mac: (int, int) -> bool, x: int, y: int): Step
    requires 0 <= x < |s| && 0 <= y < |s|
  {
    if !DiffPairKept(s, nodeID, x, y) then Skip
    else if MultipoleMissing(s, nodeID, x, y) then Fail(MultipoleNotExchanged)
    else if DiffBeyondMesh(d, s, x, y) || mac(x, y) then Skip
    else Emit(Task(PairTask, Grav, 0, x, y))
  }

  /**
   * The scan of a scanning cell x over its partners lo .. hi - 1: it stops
   * exactly on a candidate with a missing multipole; otherwise it adds
   * exactly the pair tasks of the wanted pairs, each once.
   */
  method DiffPairs(d: DiffPass, s: seq<Cell>, nodeID: int, mac: (int, int) -> bool, x: int, lo: int, hi: int)
    returns (res: MapOutcome, pairs: seq<Task>)
    requires 0 <= d.offset <= |s| && 0 <= x < |s| && DiffScanned(s, nodeID, x)
    requires (lo, hi) == (if BackgroundLevel(s[x].kind) then (0, d.offset) else (d.offset, |s|))
    ensures res.Failed? <==> exists y :: DiffPairFails(d, s, nodeID, x, y)
    ensures res.Mapped? ==> forall t :: t in pairs <==> DiffCellTask(d, s, nodeID, mac, x, t)
    ensures Unique(pairs)
  {
    res, pairs := Mapped, [];
    for cjd := lo to hi
      invariant forall y :: lo <= y < cjd ==> !DiffPairFails(d, s, nodeID, x, y)
      invariant forall t :: t in pairs <==> DiffCellTask(d, s, nodeID, mac, x, t) && t.cj < cjd
      invariant Unique(pairs)
    {
      var st := DiffPairStep(d, s, nodeID, mac, x, cjd);
      if st.Fail? {
        assert DiffPairFails(d, s, nodeID, x, cjd);
        return Failed(st.err), pairs;
      }
      if st.Emit? {
        UniqueConcat(pairs, [st.task]);
        pairs := pairs + [st.task];
      }
    }
  }

  /**
   * One iteration of the cross-level mapper, for cell x: cells that do not
   * scan add nothing; a scanning background cell scans the zoom cells and
   * a zoom cell the background cells.
   */
  method DiffCell(d: DiffPass, s: seq<Cell>, nodeID: int, mac: (int, int) -> bool, x: int)
    returns (res: MapOutcome, added: seq<Task>)
    requires 0 <= d.offset <= |s| && 0 <= x < |s|
    ensures res.Failed? <==> exists y :: DiffPairFails(d, s, nodeID, x, y)
    ensures res.Mapped? ==> forall t :: t in added <==> DiffCellTask(d, s, nodeID, mac, x, t)
    ensures Unique(added)
  {
    if !DiffScanned(s, nodeID, x) {
      res, added := Mapped, [];
    } else {
      var background := BackgroundLevel(s[x].kind);
      var lo, hi := if background then 0 else d.offset, if background then d.offset else |s|;
      res, added := DiffPairs(d, s, nodeID, mac, x, lo, hi);
    }
  }

  /**
   * The cross-level mapper over the cells start .. start + num - 1 of the
   * whole array: it stops exactly when one of them meets a candidate with a
   * missing multipole; otherwise its tasks are exactly the wanted pairs of
   * those cells, each once.
   */
  method DiffSizeGravityMapper(l: Layout, periodic: bool, s: seq<Cell>, nodeID: int, maxDistance: real, dim: Vec3,
                               nearest: (real, real) -> real, mac: (int, int) -> bool, start: int, num: int)
    returns (res: MapOutcome, added: seq<Task>)
    requires 0 <= l.offset <= |s| && 0 <= start && 0 <= num && start + num <= |s|
    ensures var d := DiffPass(l.offset, periodic, dim, nearest, maxDistance * maxDistance);
      (res.Failed? <==> exists x, y :: start <= x < start + num && DiffPairFails(d, s, nodeID, x, y)) &&
      (res.Mapped? ==> forall t :: t in added <==> start <= t.ci < start + num && DiffCellTask(d, s, nodeID, mac, t.ci, t)) &&
      Unique(added)
  {
    var d := DiffPass(l.offset, periodic, dim, nearest, maxDistance * maxDistance);
    res, added := Mapped, [];
    for ind := 0 to num
      invariant res == Mapped
      invariant forall x, y :: start <= x < start + ind ==> !DiffPairFails(d, s, nodeID, x, y)
      invariant forall t :: t in added <==> start <= t.ci < start + ind && DiffCellTask(d, s, nodeID, mac, t.ci, t)
      invariant Unique(added)
    {
      var r, cell := DiffCell(d, s, nodeID, mac, start + ind);
      if r.Failed? {
        return r, added;
      }
      UniqueConcat(added, cell);
      added := added + cell;
    }
  }

  /**
   * On the top-level cells of a built space, the cross-level mapper pairs
   * exactly the non-empty zoom cells with the non-empty neighbour cells,
   * zoom cell first, one of the two local: a scanning background cell never
   * adds a task, so no pair is added twice, once from each side.
   */
  lemma DiffPairsZoomToNeighbour(d: DiffPass, l: Layout, s: seq<Cell>, nodeID: int, mac: (int, int) -> bool,
                                 x: int, y: int)
    requires LayoutOk(l) && TopLevelOk(s, l) && d.offset == l.offset
    ensures DiffCandidate(d, s, nodeID, x, y) <==>
      0 <= x < l.offset <= y < |s| && s[y].kind == Neighbour &&
      s[x].gravCount != 0 && s[y].gravCount != 0 && Involves(s, nodeID, x, y)
    ensures DiffPairWanted(d, s, nodeID, mac, x, y) ==> s[x].kind == Zoom && s[y].kind == Neighbour
  {
    if 0 <= x < |s| && BackgroundLevel(s[x].kind) && 0 <= y < l.offset {
      assert s[y].kind == Zoom;
    }
  }
}
