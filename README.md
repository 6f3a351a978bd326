# Zoom-region top-level cells, proxies and task mappers

A model, in Dafny, of the zoom-region machinery of the SWIFT cosmological code
(`src/zoom_region.c`). A zoom simulation puts a small, finely resolved region
in the middle of a large box. The top level of the space is then two grids:

* `zoom_cdim` zoom cells, at indices `0 .. tl_cell_offset - 1`, which tile the
  zoom region;
* the background grid of `cdim` natural cells, at indices
  `tl_cell_offset ..`. The natural cell that holds the zoom region is the void
  cell. The natural cells within a gravity radius of it are neighbour cells.

The model covers the following parts of the source:

* `zoom_region_init`: size the region from the dark-matter particles, an
  odd number of equal regions per box side, centred on the box.
* `construct_zoom_region` and `cell_getid_zoom`: the two grids and how a
  position is located in them.
* `construct_tl_cells_with_zoom_region`, `debug_cell_type` and
  `find_neighbouring_cells`: build and label the top-level cells.
* `cell_min_dist2_diff_size` and `cell_min_dist2`: the distance between cells.
* The three proxy passes and their driver, over the zoom grid, the natural
  grid and between the grids.
* The gravity (zoom, natural, and cross-level), hydro and friends-of-friends
  task mappers.

Modules, one per concern:

| module | file | what |
|---|---|---|
| `Grid` | grid.dfy | `cell_getid` and its inverse, the wrap of a walk coordinate, the window clamp, direct-neighbour tests, the 27-entry direction index |
| `Walk` | walk.dfy | the `ii/jj/kk` window walk shared by every pass, as three nested loops |
| `Sizing` | sizing.dfy | `zoom_region_init` |
| `Layout` | layout.dfy | `construct_zoom_region`, `cell_getid_zoom` |
| `Cells` | cells.dfy | the cell record, the `Space` class (its `cells` array is `cells_top`), cell construction, labelling, distances |
| `Proxies` | proxies.dfy | the `Engine` class (`proxy_ind`, `nr_proxies`, the proxies) and the three passes |
| `Tasks` | tasks.dfy | the mappers, each returning the tasks it adds |

Modelling choices:

* Reals stand for doubles. Truncating casts are written out with `Trunc`.
* C's `%` on a negative left operand is written out (`Grid.SourceWrap`).
* `sendto` is a set of proxy ids. Ids must stay below 64 bits.
* Three physics routines of the rest of the code come in as function
  parameters:
  * `cell_min_dist2_same_size` and the periodic `nearest`;
  * the multipole acceptance test `cell_can_use_pair_mm`.
* A failing `error()` call becomes an error value: `Fatal` for a proxy pass,
  `Failed` for a mapper.
* `scheduler_addtask` becomes an append to the sequence of tasks that a mapper
  returns.

## Model

| member | source | states |
|---|---|---|
| Grid.CellIdRange | src/zoom_region.c:545-548 | a grid coordinate inside `cdim` has a cell id in `[0, cdim[0]*cdim[1]*cdim[2])` |
| Grid.CellIjkOfId | src/zoom_region.c:1656-1658 | recovering `i, j, k` from an id by `/` and `%` inverts `cell_getid` on every in-grid coordinate |
| Grid.CellIdOfIjk | src/zoom_region.c:2188-2190 | every id in range comes from an in-grid coordinate that maps back to it |
| Grid.CellIdInjective | src/zoom_region.c:545-548 | distinct in-grid coordinates get distinct ids, so every top-level slot is written once |
| Grid.SourceWrapAgrees | src/zoom_region.c:729-740 | the written wrap `(iii + cdim) % cdim` lands on the axis and agrees with the wrap onto the axis whenever the offset is at least `-cdim` |
| Grid.SourceWrapNegative | src/zoom_region.c:732 | below `-cdim` the written wrap leaves the axis (-4 on an axis of 3 gives -1) |
| Grid.ClampWindow | src/zoom_region.c:916-924 | the clamped window is `[-min(delta, n/2), min(delta, (n-1)/2)]` and never covers more than the n cells of the axis |
| Grid.TargetRange | src/zoom_region.c:942-953 | a walk coordinate is skipped (-1) or lies on the axis |
| Grid.TargetInjective | src/zoom_region.c:942-953 | within a window that fits the axis, distinct offsets reach distinct coordinates |
| Grid.AxisAdjacentPeriodicIsCircular | src/zoom_region.c:979-984 | the three-way `abs` test on an axis of at least 3 cells holds exactly when the coordinates differ by -1, 0 or 1 modulo the axis |
| Grid.DirectionIndexBijective | src/zoom_region.c:2235 | `(kk+1) + 3((jj+1) + 3(ii+1))` maps the 27 unit offsets one-to-one onto `[0, 27)`, and 13 is the zero offset |
| Walk.WalkRow | src/zoom_region.c:950-956 | the `kk` loop visits exactly the cells of its row whose `k` the window reaches, without repeats when the window fits |
| Walk.WalkPlane | src/zoom_region.c:946-956 | the `jj` loop visits exactly the cells of its plane the window reaches, without repeats when the window fits |
| Walk.WalkWindow | src/zoom_region.c:942-956 | the three nested loops visit exactly the cells in the window around a cell, each once when the window fits every axis |
| Walk.TargetBack | src/zoom_region.c:942-953 | stepping back by the negated offset returns to the start coordinate |
| Walk.InWindowSymmetric | src/zoom_region.c:959 | when the window reaches back on every axis, b is in the window around a exactly when a is in the window around b, so the `cid >= cjd` guard loses no pair |
| Layout.BkgCellsExact | src/zoom_region.c:434-435 | `floor((dim + 0.1 w) / w)` recovers n for a box side of exactly n widths |
| Layout.ZoomWidth | src/zoom_region.c:422 | the zoom cell width is positive and `zoom_cdim` of them make up the region side |
| Layout.ConstructZoomRegion | src/zoom_region.c:415-470 | fails exactly when the box is periodic and some background axis has fewer than 3 cells; otherwise gives the background cdim from the region width, the zoom widths, and a layout whose void cell lies inside the background slots |
| Layout.VoidInBackground | src/zoom_region.c:466-470 | the void cell index is a background slot whose coordinate is `zoom_cell_ijk` |
| Layout.AxisIndex | src/zoom_region.c:310-312 | a coordinate in `[k w, (k+1) w)` truncates to k |
| Layout.LocateSegments | src/zoom_region.c:288-340 | `cell_getid_zoom` gives a zoom id (below the offset) exactly when the background coordinate is the zoom cell's; that id is the zoom coordinate's, and any other id is the background coordinate's, shifted by the offset, and is not the void cell |
| Layout.LocateInRegion | src/zoom_region.c:315-327 | a position inside the zoom region, on an aligned layout, gets a zoom cell id in range |
| Layout.LocateOutsideRegion | src/zoom_region.c:331-337 | a position inside another background cell gets that cell's id, in the background range and not the void cell |
| Layout.SizedRegionIsVoidCell | src/zoom_region.c:434-436 | for a region sized as `zoom_region_init` sizes it, the background grid is `nr_zoom_regions` cells per side, and the region is exactly the middle (void) cell |
| Sizing.ScanDarkMatter | src/zoom_region.c:105-126 | the particle scan computes the bounding box of the shifted dark-matter positions |
| Sizing.BoxContains | src/zoom_region.c:120-126 | every shifted dark-matter particle lies in the scanned box |
| Sizing.BoxTight | src/zoom_region.c:120-126 | each face of the scanned box is attained by a particle (or the box is still the empty start box) |
| Sizing.SuggestedShift | src/zoom_region.c:190-199 | on each axis the suggested shift is either zero or half the box, and (for a positive side) it is non-zero exactly when that axis's extent exceeds half the box; in a box of positive sides the shift is non-zero exactly when the fatal error's condition holds |
| Sizing.FitCount | src/zoom_region.c:228 | `(int)(dim / max_dim)` is the number of whole widths that fit |
| Sizing.NrZoomRegionsAsWritten | src/zoom_region.c:228-229 | the written count is odd and its widths fit, but it may be -1 |
| Sizing.NrZoomRegionsAsWrittenNegative | src/zoom_region.c:228-230 | box 100, boosted extent 105: the count is -1 and the region width negative |
| Sizing.RefinedBoostAsWrittenMismatch | src/zoom_region.c:243-245 | box 100, extent 10, boost 1.1, clamped to 5 regions: the reported factor 1.98 is not the region side over the extent (2.0) |
| Sizing.ClampTest | src/zoom_region.c:233-234 | for the odd count that fits, `nr_zoom_regions >= cdim[0]` is the same as "the odd count at or above cdim[0] fits" |
| Sizing.WidthBound | src/zoom_region.c:230 | `dim / count` regions tile the side and are at least `max_dim` wide |
| Sizing.CentreShift | src/zoom_region.c:204-207 | the zoom shift moves the particles' mid point onto the box centre |
| Sizing.CentredRegion | src/zoom_region.c:258-267 | the bounds are centred on the box with side `max_dim` on every axis |
| Sizing.CentredHoldsBox | src/zoom_region.c:256-267 | a centred region at least as wide as the extent holds every shifted particle |
| Sizing.RegionCount | src/zoom_region.c:226-254 | the count is odd, at least 1 and fits. Unclamped it is the largest odd count that fits; clamped (refinement on and at least `cdim[0]`) it is the largest odd count not above `cdim[0]` |
| Sizing.SizeRegion | src/zoom_region.c:221-267 | odd equal regions tile the side, each at least the boosted extent, centred. The boost is kept, or raised to side/extent when clamped |
| Sizing.ZoomRegionInit | src/zoom_region.c:48-272 | stops, with the suggested shift, exactly when an extent exceeds half the box; stops when no boosted region fits; otherwise sizes the region as SizeRegion, centred, holding the shifted particles for a boost of at least 1 |
| Cells.ConstructedTopLevel | src/zoom_region.c:545-640 | the constructed cells satisfy the top-level invariant, and all particle counts are zero. The invariant: zoom cells below the offset with the void cell as parent; background cells above it, each its own parent; exactly one void cell, at `void_cell_index` |
| Cells.TopLevelOkConsistent | src/zoom_region.c:354-401 | the top-level invariant implies what `debug_cell_type` checks: types and widths match the array position |
| Cells.Space.BuildZoomCells | src/zoom_region.c:545-589 | every zoom slot holds the zoom cell of its coordinate; background slots are unchanged |
| Cells.Space.BuildBkgCells | src/zoom_region.c:591-636 | every background slot holds the natural cell of its coordinate; zoom slots are unchanged |
| Cells.Space.BuildTopLevelCells | src/zoom_region.c:545-640 | every slot holds its constructed cell, the void cell relabelled; the top-level invariant holds; counts are zero |
| Cells.Space.DebugCellType | src/zoom_region.c:354-401 | reports success exactly when every cell's type and width agree with its array position |
| Cells.Space.ConstructTlCells | src/zoom_region.c:527-652 | builds the cells and, with a zoom region, labels the neighbours. It keeps the top-level invariant; each cell's type is BuiltKind; the neighbour list holds exactly the cells labelled Neighbour, once each |
| Cells.Space.FindNeighbouringCells | src/zoom_region.c:664-767 | relabels as Neighbour exactly the natural cells in the walk window of a void cell, and lists each of them once in `neighbour_cells_top` |
| Cells.Space.MarkNeighbours | src/zoom_region.c:710-757 | the outer scan over background cells: every cell ends relabelled; the list holds, once each, the plain cells near some void cell |
| Cells.Space.MarkPlain | src/zoom_region.c:729-751 | the walk around one void cell adds exactly its plain cells to the marked set and the list |
| Cells.Space.MarkCell | src/zoom_region.c:743-751 | one visited cell is marked and listed exactly when it is still plain |
| Cells.NearTheVoidCell | src/zoom_region.c:724-751 | with the top-level invariant, "near some void cell" is "in the window around `zoom_cell_ijk`" |
| Cells.RelabelKeepsTopLevel | src/zoom_region.c:745-748 | relabelling plain cells as neighbours keeps the top-level invariant and changes no other cell |
| Cells.BuiltCells | src/zoom_region.c:545-649 | construction then labelling gives the invariant, the per-slot contents, and the neighbour labels exactly on the cells near the void cell |
| Cells.NeighbourWindow | src/zoom_region.c:676-686 | the walk radius `(int)(2 w / theta / dmin) + 1` is at least 1 on both sides |
| Cells.NeighbourWalkWrapsTooFar | src/zoom_region.c:729-732 | with radius 5 on a periodic axis of 3 cells, the written wrap gives -1 where the wrap onto the axis gives 2 |
| Cells.DiffSizeAsWrittenOverestimates | src/zoom_region.c:795-816 | boxes [0,10]^3 and [20,21]^3 hold points 300 apart squared; the written formula gives 569.25 |
| Cells.CellMinDist2DiffSize | src/zoom_region.c:776-818 | the corrected distance is non-negative |
| Cells.DiffSizeLowerBound | src/zoom_region.c:776-818 | the corrected distance is a lower bound on the squared distance between any two points of the two cells |
| Cells.DiffSizeAttained | src/zoom_region.c:776-818 | the bound is attained by a pair of points of the two cells, so it is the exact minimum |
| Cells.DiffSizeSymmetric | src/zoom_region.c:776-818 | the distance does not depend on the order of the two cells |
| Cells.CellMinDist2 | src/zoom_region.c:834-856 | two background-level cells, or two zoom cells, use the same-size distance; mixed levels use the corrected different-size one |
| Cells.DispatchBySize | src/zoom_region.c:841-850 | under the invariant, "same level" is "same width", so the dispatch picks the same-size routine exactly for equal cells |
| Proxies.AdjacentNeedsProxy | src/zoom_region.c:969-1003 | a direct neighbour pair needs a proxy exactly when hydro or gravity is on |
| Proxies.GravityMonotone | src/zoom_region.c:1016-1034 | a pair that needs a gravity proxy at some distance also needs one at any smaller distance |
| Proxies.SendtoGuardAdmits64 | src/zoom_region.c:1060-1064 | the guard `proxy_id > 64` lets id 64 through, where `1ULL << 64` overflows |
| Proxies.SendtoGuardSound | src/zoom_region.c:1060-1072 | under the corrected guard every id shifted into `sendto` is below 64 |
| Proxies.RelationsOkAppend | src/zoom_region.c:1042-1072 | adding a proxied cell keeps every logged relation consistent: a local cell, a foreign cell, and a proxy of the foreign cell's node |
| Proxies.PassDelta | src/zoom_region.c:894-909 | the pass radius is at least 1 and exactly 1 for hydro alone; with gravity, d - 1 cells of width `dmin` fit in the reach `2 r_max / theta` and d cells do not |
| Proxies.PassWindow | src/zoom_region.c:912-924 | the corrected window fits the axis and reaches back when periodic; without periodicity it is the unclamped radius |
| Proxies.PassWindowSymmetric | src/zoom_region.c:912-959 | with this window, b is in the window around a exactly when a is in the window around b |
| Proxies.ClampedWalkMissesPair | src/zoom_region.c:1171-1179 | on a 2x1x1 zoom grid with radius 1, the written clamp gives [-1, 0] and misses the direct neighbour that the unclamped window reaches |
| Proxies.NaturalWalkWrapsTooFar | src/zoom_region.c:916-953 | the clamp is taken from `cdim[0]` alone: on an 8x3x3 grid, radius 4 walks j to -4, which the written wrap sends to -1 |
| Proxies.ZoomPass | src/zoom_region.c:1133-1179 | the zoom pass runs over the zoom grid from index 0 and is never periodic |
| Proxies.NaturalPass | src/zoom_region.c:875-924 | the natural pass runs over the background grid from the offset, periodic as the box |
| Proxies.PairRecorded | src/zoom_region.c:959-1107 | a wanted same-grid pair ends in the log with its proxy type; every new entry is a wanted pair of the pass |
| Proxies.BetweenRecorded | src/zoom_region.c:1414-1565 | the same for a zoom cell and a neighbour cell of the between-grids pass, with the proxy type taken from the corrected different-size distance |
| Proxies.MadeFromPasses | src/zoom_region.c:1591-1593 | the three passes in order give a log that holds every wanted pair of each pass and nothing else; the between-grids pass judges pairs by the corrected different-size distance |
| Proxies.Engine.ProxyFor | src/zoom_region.c:1045-1065 | the proxy of a node: an existing one is reused; otherwise one is appended; this fails when `engine_maxproxies` are in use or the id would reach 64. On success `proxy_ind` and the proxies stay inverse to each other, so no node has two proxies |
| Proxies.Engine.AddRelation | src/zoom_region.c:1042-1073 | logs one local/foreign relation with its type and proxy, and adds the proxy to the local cell's `sendto` |
| Proxies.Engine.RecordPair | src/zoom_region.c:1039-1107 | an unwanted (type none) or same-node pair changes nothing; a mixed pair is logged from its local side; a failure happens only on a mixed pair that is wanted |
| Proxies.Engine.PassPair | src/zoom_region.c:956-1107 | one visited pair: the type is computed, and a wanted pair ends in the log |
| Proxies.Engine.PassIds | src/zoom_region.c:942-1108 | every wanted pair among the visited cells ends in the log |
| Proxies.Engine.PassCell | src/zoom_region.c:939-1110 | every wanted pair of a cell with a cell in its window ends in the log |
| Proxies.Engine.SameGridPass | src/zoom_region.c:934-1113 | on success every wanted pair of the grid is logged and every new entry is a wanted pair |
| Proxies.Engine.BetweenPair | src/zoom_region.c:1417-1565 | one zoom cell and one later cell: a wanted zoom/neighbour pair, typed by the corrected different-size distance, ends in the log |
| Proxies.Engine.BetweenCell | src/zoom_region.c:1405-1566 | every wanted pair of one zoom cell with a neighbour cell, typed by the corrected different-size distance, ends in the log |
| Proxies.Engine.BetweenGrids | src/zoom_region.c:1405-1567 | every wanted zoom/neighbour pair, typed by the corrected different-size distance, ends in the log, and nothing else does |
| Proxies.Engine.ResetProxies | src/zoom_region.c:1585-1589 | `proxy_ind` exists, every entry is -1, and there are no proxies |
| Proxies.Engine.RunPasses | src/zoom_region.c:1591-1593 | the zoom, natural and between-grids passes in that order make the proxies ProxiesMade describes, with at most one proxy per node |
| Proxies.Engine.MakeProxiesWithZoomRegion | src/zoom_region.c:1578-1603 | resets, then on success leaves a consistent engine with at most one proxy per node. Every wanted pair of the three passes is logged, and cells change only by `sendto` bits of logged relations |
| Tasks.GravStepOne | src/zoom_region.c:1695-1727 | one visited pair fails exactly when it is a kept candidate with a missing foreign multipole; it gives a pair task exactly when it is wanted and nothing is missing |
| Tasks.GravityWalk | src/zoom_region.c:1677-1786 | the walk around a non-empty cell fails exactly when some pair in its window fails; otherwise it returns exactly the wanted pair tasks, each once when the window fits |
| Tasks.GravityCell | src/zoom_region.c:1661-1786 | an empty cell adds nothing; a non-empty void cell fails; otherwise it adds the self task of a local cell and the pair tasks of the walk |
| Tasks.GravityMapper | src/zoom_region.c:1650-1787 | the slice fails exactly when one of its cells fails; otherwise it adds exactly the tasks of its cells, each once when the window fits |
| Tasks.GravityDelta | src/zoom_region.c:1633-1634 | the mapper radius `(int)(2.5 w / theta / w) + 1` is at least 1 |
| Tasks.ZoomGravityGrid | src/zoom_region.c:1806-1826 | the zoom mapper walks the zoom grid from index 0, non-periodic, without the void check |
| Tasks.NaturalGravityGrid | src/zoom_region.c:1621-1647 | the natural mapper walks the background grid from the offset, periodic as the box, with the void check |
| Tasks.ZoomGravityMapper | src/zoom_region.c:1798-1957 | the zoom gravity mapper fails exactly on a missing foreign multipole and otherwise adds exactly its wanted tasks, each once |
| Tasks.NaturalGravityMapper | src/zoom_region.c:1613-1788 | the natural gravity mapper fails exactly on a non-empty void cell or a missing foreign multipole and otherwise adds exactly its wanted tasks |
| Tasks.ZoomGravityTasksAreZoom | src/zoom_region.c:1898-1905 | every zoom-mapper task names non-empty zoom cells: a self task a local one, a pair task two with `ci < cj` and one local, so the debug check never fires |
| Tasks.NaturalGravityTasksAreBackground | src/zoom_region.c:1729-1736 | when no cell fails, every natural-mapper task names background cells that are not void, so the debug check never fires |
| Tasks.Offset | src/zoom_region.c:2208-2219 | the offset between two direct neighbours is a unit offset, zero only for the same cell |
| Tasks.UnitWindowAdjacent | src/zoom_region.c:2208-2219 | the `-1 .. 1` walk without wrap reaches exactly the in-grid direct neighbours |
| Tasks.VisitedOffset | src/zoom_region.c:2208-2235 | the loop offsets `(ii, jj, kk)` of a visited cell are its offset from the centre cell |
| Tasks.DirectionIndexOfPair | src/zoom_region.c:2235 | the `sortlistID` index of a pair is in `[0, 27)`, never the centre 13, and differs between different partners |
| Tasks.HydroWalk | src/zoom_region.c:2208-2284 | returns exactly the density pair tasks of the cell with each later direct neighbour that is active, when one of the two is local; each is flagged with the sort id of its direction and appears once |
| Tasks.HydroMapper | src/zoom_region.c:2164-2286 | adds exactly the density self and pair tasks of the slice's active zoom cells, each once |
| Tasks.FofWalk | src/zoom_region.c:2340-2366 | returns exactly the FOF pair tasks with later non-empty neighbours on the same node, once each |
| Tasks.FofMapper | src/zoom_region.c:2304-2368 | adds exactly the FOF self task of each local non-empty zoom cell and its pair tasks, each once |
| Tasks.DiffPairs | src/zoom_region.c:2028-2144 | the scan of the other level fails exactly on a missing foreign multipole; otherwise returns exactly the wanted cross-level pair tasks, each once |
| Tasks.DiffCell | src/zoom_region.c:2007-2144 | a skipped cell (local background, empty, or outlying) adds nothing; otherwise as DiffPairs |
| Tasks.DiffSizeGravityMapper | src/zoom_region.c:1976-2146 | the slice fails exactly when a pair of one of its cells fails; otherwise adds exactly their cross-level tasks, each once |
| Tasks.DiffPairsZoomToNeighbour | src/zoom_region.c:2014-2096 | under the invariant a cross-level candidate is always a zoom cell with a later neighbour cell, both non-empty, one local; the background-side scan adds nothing, and the debug check never fires |

## Left out

- MPI communication, `proxy_init`, and the lists of cells in and out of a proxy: a proxy is modelled as the node it talks to, and a log of relations stands for the calls to `proxy_addcell_in` and `proxy_addcell_out`.
- The parameter parser, memory allocation, `message` output and timing: the parameters are method arguments.
- Floating point: doubles are reals, so rounding is not modelled; the `(int)` casts are truncations.
- `cell_min_dist2_same_size`, the periodic `nearest`, `cell_can_use_pair_mm` and the `sortlistID` table are defined outside this file. They enter as function parameters, or in the case of the table, as a sequence of 27 values.
- The centre of mass, `cell_min`, `nr_wanderers` and the periodic `box_wrap` of particles in `zoom_region_init`: they do not influence the layout. Particles are taken as already inside the box.
- The `ti_*`, `top`, `super`, MPI tag and multipole-pointer fields of a cell: the multipole pointer is kept only as "present or NULL".
- `cell_getid` itself is not part of this model's source files. It is modelled as row-major with `k` fastest, as the index inversions at 1656-1658 show.
- The debug cross-checks in the mappers that a proxied foreign cell is in the proxy's cell list (for example 1737-1781): the task windows differ from the proxy windows, and the proxy lists are not modelled.
- The threadpool: a mapper slice is run on its own; slices do not interleave.
- `Tasks.GravityCell`: the self task comes before the walk, so on failure the tasks already added are not stated; the source aborts there.
- `Sizing.ZoomRegionInit`: the `box_wrap` of periodic particle positions is left out, and the extent must be positive. When the refinement clamp applies, the stored boost factor is the region side over the extent (the corrected factor, see Findings). The source stores `(dim / n) / (max_dim / boost)` with `max_dim` already rounded at line 230, which can differ (1.98 against 2.0 in `Sizing.RefinedBoostAsWrittenMismatch`).
- `Proxies.PassWindow`, `Tasks.ZoomGravityGrid`, `Tasks.NaturalGravityGrid`: these use the corrected window, clamped only in a periodic box (see Findings). The clamp on the shorter axes of a periodic box stays on `cdim[0]`, as in the source. A periodic box whose first axis is not the longest can therefore reach a cell twice.
- `Walk.WalkWindow`: the walk wraps onto the axis (the corrected wrap). The written `%` differs only below `-cdim`, see Findings.
- `Tasks.DiffSizeGravityMapper`: uses the corrected different-size distance (see Findings). The periodic `nearest` applies to the centre separation only.
- `Cells.CellMinDist2`: for mixed levels it uses the corrected different-size distance (see Findings) where the source calls the written `cell_min_dist2_diff_size`. The written formula is not the minimum point distance, so the model can judge a different set of pairs than the source: a pair whose written distance is beyond reach although its closest points are within it can be related here and not in the source.
- `Proxies.BetweenRecorded`: its wanted pairs are typed by `Proxies.BetweenType`, which uses the corrected different-size distance (see Findings) where the source calls the written `cell_min_dist2_diff_size`. The written formula is not the minimum point distance, so the model can judge a different set of pairs than the source: a pair whose written distance is beyond reach although its closest points are within it can be related here and not in the source. The between-grids pass may therefore log different gravity proxies than the source.
- `Proxies.MadeFromPasses`: the between-grids part of the log follows `Proxies.BetweenType`, which uses the corrected different-size distance (see `Proxies.BetweenRecorded`). It may hold different gravity proxies than the source creates.
- `Proxies.Engine.BetweenPair`: the pair type uses the corrected different-size distance (see `Proxies.BetweenRecorded`), so it may log a different gravity proxy than the source.
- `Proxies.Engine.BetweenCell`: as `Proxies.Engine.BetweenPair`, with the corrected different-size distance.
- `Proxies.Engine.BetweenGrids`: as `Proxies.Engine.BetweenPair`, with the corrected different-size distance.
- `Proxies.Engine.RunPasses`: its between-grids pass uses the corrected different-size distance (see `Proxies.BetweenRecorded`).
- `Proxies.Engine.MakeProxiesWithZoomRegion`: its between-grids pass uses the corrected different-size distance (see `Proxies.BetweenRecorded`).
- `Tasks.DiffPairs`: the pair tasks are judged with the corrected different-size distance, as for `Tasks.DiffSizeGravityMapper`.
- `Tasks.DiffCell`: as `Tasks.DiffPairs`, with the corrected different-size distance.

## Findings

| source | as written | input that shows it | evidently intended | confidence | as-written member | corrected member |
|---|---|---|---|---|---|---|
| src/zoom_region.c:228-230 | `nr_zoom_regions = (int)(dim / max_dim)`, minus 1 when even | box 100, boosted extent 105 (boost above 2): the count is -1 and `max_dim = dim / -1` is negative | stop when not even one boosted region fits | not executed | Sizing.NrZoomRegionsAsWrittenNegative | Sizing.ZoomRegionInit |
| src/zoom_region.c:729-740 | `(iii + cdim) % cdim` with the walk radius unbounded | periodic axis of 3 cells, width and dmin 1, theta 0.5: radius 5, offset -5 from i = 1 gives -1 | wrap onto the axis | not executed | Cells.NeighbourWalkWrapsTooFar | Walk.WalkWindow |
| src/zoom_region.c:1060 | `if ((size_t)proxy_id > 8 * sizeof(long long)) error(...)` | the 65th proxy, id 64, passes the guard and `1ULL << 64` is undefined | reject ids from 64 on | not executed | Proxies.SendtoGuardAdmits64 | Proxies.Engine.ProxyFor |
| src/zoom_region.c:1171-1179 | the periodic clamp applied in a box that is not periodic (zoom pass; also the natural pass at 916-924) | zoom grid 2x1x1, radius 1: window [-1, 0], so direct neighbours 0 and 1 never get a proxy | clamp only when periodic | not executed | Proxies.ClampedWalkMissesPair | Proxies.PassWindowSymmetric |
| src/zoom_region.c:1818-1826 | the same clamp in the zoom gravity mapper (and in the natural one at 1639-1647) | zoom grid 2x1x1, radius 1: cells 0 and 1 get no pair task | clamp only when periodic | not executed | Proxies.ClampedWalkMissesPair | Tasks.ZoomGravityMapper |
| src/zoom_region.c:916-953 | clamp from `cdim[0]` applied to every axis | periodic 8x3x3 grid, radius 4: `(0 - 4 + 3) % 3` is -1 | wrap onto each axis | not executed | Proxies.NaturalWalkWrapsTooFar | Walk.WalkWindow |
| src/zoom_region.c:243-245 | `new_boost = (dim / n) / (max_dim / boost)` with `max_dim` already rounded at 230 | box 100, extent 10, boost 1.1: 9 regions, clamped to 5; the reported factor is 1.98 but the region is 2.0 times the extent | region side over the extent | not executed | Sizing.RefinedBoostAsWrittenMismatch | Sizing.SizeRegion |
| src/zoom_region.c:816 | `r2 - (diag_i2 / 2 + diag_j2 / 2)` as the minimum distance of two cells | boxes [0,10]^3 and [20,21]^3: points 300 apart squared, formula 569.25 | a lower bound on the squared point distance (per-axis gap) | not executed | Cells.DiffSizeAsWrittenOverestimates | Cells.DiffSizeLowerBound |
