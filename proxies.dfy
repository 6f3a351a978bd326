/**
 * The proxies of a zoom run (`engine_makeproxies_with_zoom_region` and its
 * three passes): for every pair of top-level cells on different ranks that
 * must exchange particles or multipoles, a proxy to the other rank is found
 * or created lazily, the foreign cell is added to it "in", the local cell
 * "out", and the local cell's sendto mask gains the proxy's bit.
 */
module Proxies {
  import opened Grid
  import opened Walk
  import opened Layout
  import opened Cells

  /** The proxy_cell_type_hydro and proxy_cell_type_gravity bits of a pair. */
  datatype ProxyType = ProxyType(hydro: bool, gravity: bool)

  const NoProxy := ProxyType(false, false)

  /**
   * One proxy_addcell_in / proxy_addcell_out call pair: the foreign cell
   * goes in and the local cell out of proxy `proxy`, with type t.
   */
  datatype Relation = Relation(local: int, foreign: int, proxy: int, t: ProxyType)

  datatype ProxyError = TooManyProxies | SendtoOverflow

  datatype Outcome = Done | Fatal(err: ProxyError)

  /** The width of a cell's mpi.sendto mask (8 * sizeof(long long)). */
  const SendtoBits := 64

  /** The engine policy switches and gravity constants the passes read. */
  datatype Physics = Physics(withHydro: bool, withGravity: bool, theta: real, maxMeshDist2: real)

  /**
   * The multipole acceptance test of the passes for two cells at least d2
   * apart (squared) whose multipoles reach rMax2 (squared): a proxy is
   * needed when they are too close for an M2L interaction and, in a
   * periodic box, closer than the mesh cut-off.
   */
  predicate TooCloseForM2L(ph: Physics, d2: real, rMax2: real, periodic: bool) {
    !(4.0 * rMax2 < ph.theta * ph.theta * d2) && (!periodic || d2 < ph.maxMeshDist2)
  }

  /** The proxy type of a pair: direct neighbours, or (gravity) too close for M2L. */
  function ProxyTypeOf(ph: Physics, adjacent: bool, d2: real, rMax2: real, periodic: bool): ProxyType {
    ProxyType(ph.withHydro && adjacent,
              ph.withGravity && (adjacent || TooCloseForM2L(ph, d2, rMax2, periodic)))
  }

  /** Direct neighbours always get a proxy as soon as hydro or gravity is on. */
  lemma AdjacentNeedsProxy(ph: Physics, d2: real, rMax2: real, periodic: bool)
    ensures ProxyTypeOf(ph, true, d2, rMax2, periodic) != NoProxy <==> ph.withHydro || ph.withGravity
  {
  }

  /** A pair closer than one that needs a gravity proxy needs one too. */
  lemma GravityMonotone(ph: Physics, adjacent: bool, d2: real, d2': real, rMax2: real, periodic: bool)
    requires 0.0 <= d2 <= d2'
    requires ProxyTypeOf(ph, adjacent, d2', rMax2, periodic).gravity
    ensures ProxyTypeOf(ph, adjacent, d2, rMax2, periodic).gravity
  {
    if !adjacent {
      var t2 := ph.theta * ph.theta;
      assert t2 >= 0.0;
      assert t2 * d2 <= t2 * d2' by {
        assert t2 * (d2' - d2) >= 0.0;
      }
    }
  }

  /**
   * r_max squared for cells of width w: r_diag = sqrt(w.w) / 2 and
   * r_max = 2 r_diag, so r_max^2 is w.w exactly.
   */
  function RMax2(w: Vec3): real {
    w.x * w.x + w.y * w.y + w.z * w.z
  }

  // ---------------------------------------------------------------------------
  // The sendto guard

  /** The written guard `proxy_id > 8 * sizeof(long long)`. */
  predicate SendtoGuardAsWritten(pid: int) {
    pid > SendtoBits
  }

  /** The guard the shift `1ULL << proxy_id` needs. */
  predicate SendtoOverflows(pid: int) {
    pid >= SendtoBits
  }

  /** The written guard lets proxy id 64 through, whose bit does not exist in a 64-bit mask. */
  lemma SendtoGuardAdmits64()
    ensures !SendtoGuardAsWritten(64) && SendtoOverflows(64)
  {
  }

  /** A proxy id that passes the corrected guard names a bit of the mask. */
  lemma SendtoGuardSound(pid: int)
    requires 0 <= pid && !SendtoOverflows(pid)
    ensures 0 <= pid < SendtoBits && !SendtoGuardAsWritten(pid)
  {
  }

  /** No two proxies talk to the same rank. */
  predicate OneProxyPerNode(proxies: seq<int>) {
    forall p, q :: 0 <= p < q < |proxies| ==> proxies[p] != proxies[q]
  }

  // ---------------------------------------------------------------------------
  // The relations recorded so far and the sendto bits they imply

  /** The proxy bits the relations in log give cell x. */
  ghost function Sent(log: seq<Relation>, x: int): set<int> {
    set r | r in log && r.local == x :: r.proxy
  }

  lemma SentConcat(a: seq<Relation>, b: seq<Relation>, x: int)
    ensures Sent(a + b, x) == Sent(a, x) + Sent(b, x)
  {
    assert forall r :: r in a + b <==> r in a || r in b;
  }

  lemma SentEmpty(x: int)
    ensures Sent([], x) == {}
  {
  }

  /** The cells s (with relations l) are s0 (with relations l0) plus the sendto bits of the new relations. */
  ghost predicate CellsSince(s0: seq<Cell>, l0: seq<Relation>, s: seq<Cell>, l: seq<Relation>) {
    |s| == |s0| && |l0| <= |l| && l[..|l0|] == l0 &&
    forall x :: 0 <= x < |s0| ==> s[x] == s0[x].(sendto := s0[x].sendto + Sent(l[|l0|..], x))
  }

  lemma CellsSinceRefl(s: seq<Cell>, l: seq<Relation>)
    ensures CellsSince(s, l, s, l)
  {
    forall x | 0 <= x < |s|
      ensures s[x] == s[x].(sendto := s[x].sendto + Sent(l[|l|..], x))
    {
      assert l[|l|..] == [];
      SentEmpty(x);
    }
  }

  lemma {:induction false} CellsSinceTrans(s0: seq<Cell>, l0: seq<Relation>, s1: seq<Cell>, l1: seq<Relation>,
                                           s2: seq<Cell>, l2: seq<Relation>)
    requires CellsSince(s0, l0, s1, l1) && CellsSince(s1, l1, s2, l2)
    ensures CellsSince(s0, l0, s2, l2)
  {
    assert l2[..|l0|] == l1[..|l0|];
    assert l2[|l0|..] == l1[|l0|..] + l2[|l1|..];
    forall x | 0 <= x < |s0|
      ensures s2[x] == s0[x].(sendto := s0[x].sendto + Sent(l2[|l0|..], x))
    {
      SentConcat(l1[|l0|..], l2[|l1|..], x);
    }
  }

  /** Since (s0, l0, p0): the cells changed only by the new relations' sendto bits, and the proxies only grew. */
  /** Setting the proxy bit of r in r's local cell is the cell change that logging r accounts for. */
  lemma CellsSinceOne(s0: seq<Cell>, l0: seq<Relation>, r: Relation)
    requires 0 <= r.local < |s0|
    ensures CellsSince(s0, l0, s0[r.local := s0[r.local].(sendto := s0[r.local].sendto + {r.proxy})], l0 + [r])
  {
    var s, l := s0[r.local := s0[r.local].(sendto := s0[r.local].sendto + {r.proxy})], l0 + [r];
    assert l[|l0|..] == [r];
    forall x | 0 <= x < |s0|
      ensures s[x] == s0[x].(sendto := s0[x].sendto + Sent(l[|l0|..], x))
    {
    }
  }

  ghost predicate Extends(s0: seq<Cell>, l0: seq<Relation>, p0: seq<int>, s: seq<Cell>, l: seq<Relation>, p: seq<int>) {
    CellsSince(s0, l0, s, l) && |p0| <= |p| && p[..|p0|] == p0
  }

  lemma ExtendsRefl(s: seq<Cell>, l: seq<Relation>, p: seq<int>)
    ensures Extends(s, l, p, s, l, p)
  {
    CellsSinceRefl(s, l);
  }

  lemma ExtendsTrans(s0: seq<Cell>, l0: seq<Relation>, p0: seq<int>, s1: seq<Cell>, l1: seq<Relation>, p1: seq<int>,
                     s2: seq<Cell>, l2: seq<Relation>, p2: seq<int>)
    requires Extends(s0, l0, p0, s1, l1, p1) && Extends(s1, l1, p1, s2, l2, p2)
    ensures Extends(s0, l0, p0, s2, l2, p2)
  {
    CellsSinceTrans(s0, l0, s1, l1, s2, l2);
    assert p2[..|p0|] == p1[..|p0|];
  }

  /** s and s0 differ at most in the sendto masks. */
  ghost predicate Alike(s: seq<Cell>, s0: seq<Cell>) {
    |s| == |s0| && forall x :: 0 <= x < |s| ==> s[x] == s0[x].(sendto := s[x].sendto)
  }

  lemma CellsSinceAlike(s0: seq<Cell>, l0: seq<Relation>, s: seq<Cell>, l: seq<Relation>, s00: seq<Cell>)
    requires CellsSince(s0, l0, s, l) && Alike(s0, s00)
    ensures Alike(s, s00)
  {
  }

  /** One relation between a local and a foreign cell, carrying its pair's type. */
  ghost predicate Logged(log: seq<Relation>, local: int, foreign: int, t: ProxyType) {
    exists n :: 0 <= n < |log| && log[n].local == local && log[n].foreign == foreign && log[n].t == t
  }

  lemma LoggedGrows(log: seq<Relation>, log': seq<Relation>, local: int, foreign: int, t: ProxyType)
    requires Logged(log, local, foreign, t) && |log| <= |log'| && log'[..|log|] == log
    ensures Logged(log', local, foreign, t)
  {
    var n :| 0 <= n < |log| && log[n].local == local && log[n].foreign == foreign && log[n].t == t;
    assert log'[n] == log[n];
  }

  /** Some relation of log goes through proxy p. */
  ghost predicate Uses(log: seq<Relation>, p: int) {
    exists n :: 0 <= n < |log| && log[n].proxy == p
  }

  /** Every proxy holds a relation, and every relation joins a local cell to a foreign cell of its proxy's rank. */
  ghost predicate RelationsOk(log: seq<Relation>, s: seq<Cell>, nodeID: int, proxies: seq<int>) {
    (forall p :: 0 <= p < |proxies| ==> Uses(log, p)) &&
    forall r :: r in log ==>
      0 <= r.local < |s| && 0 <= r.foreign < |s| && s[r.local].nodeID == nodeID &&
      0 <= r.proxy < |proxies| && proxies[r.proxy] == s[r.foreign].nodeID
  }

  /**
   * Appending a relation r keeps the relations consistent when the cells
   * change only in sendto and r goes through an existing proxy or the one
   * just appended.
   */
  lemma RelationsOkAppend(log: seq<Relation>, s: seq<Cell>, s': seq<Cell>, nodeID: int,
                          proxies: seq<int>, proxies': seq<int>, r: Relation)
    requires RelationsOk(log, s, nodeID, proxies) && Alike(s', s)
    requires proxies' == proxies ||
      (|proxies'| == |proxies| + 1 && proxies' == proxies + [proxies'[|proxies|]] && r.proxy == |proxies|)
    requires 0 <= r.local < |s| && 0 <= r.foreign < |s| && s[r.local].nodeID == nodeID
    requires 0 <= r.proxy < |proxies'| && proxies'[r.proxy] == s[r.foreign].nodeID
    ensures RelationsOk(log + [r], s', nodeID, proxies')
  {
    var log' := log + [r];
    forall p | 0 <= p < |proxies'|
      ensures Uses(log', p)
    {
      if p < |proxies| {
        assert Uses(log, p);
        var n :| 0 <= n < |log| && log[n].proxy == p;
        assert log'[n] == log[n];
      } else {
        assert log'[|log|] == r;
      }
    }
    forall q | q in log'
      ensures 0 <= q.local < |s'| && 0 <= q.foreign < |s'| && s'[q.local].nodeID == nodeID &&
        0 <= q.proxy < |proxies'| && proxies'[q.proxy] == s'[q.foreign].nodeID
    {
      if q in log {
        assert proxies'[q.proxy] == proxies[q.proxy];
      }
    }
  }

  /** Exactly one of the two cells is on this rank. */
  predicate Mixed(s: seq<Cell>, nodeID: int, x: int, y: int)
    requires 0 <= x < |s| && 0 <= y < |s|
  {
    (s[x].nodeID == nodeID) != (s[y].nodeID == nodeID)
  }

  /** The pair x, y logged with its local cell first. */
  ghost predicate LoggedPair(log: seq<Relation>, s: seq<Cell>, nodeID: int, x: int, y: int, t: ProxyType)
    requires 0 <= x < |s| && 0 <= y < |s|
  {
    if s[x].nodeID == nodeID then Logged(log, x, y, t) else Logged(log, y, x, t)
  }

  /** Relation r records the pair x, y with type t, the pair's local cell as r.local. */
  predicate Oriented(r: Relation, s: seq<Cell>, nodeID: int, x: int, y: int, t: ProxyType)
    requires 0 <= x < |s| && 0 <= y < |s|
  {
    r.t == t &&
    ((s[x].nodeID == nodeID && r.local == x && r.foreign == y) ||
     (s[y].nodeID == nodeID && r.local == y && r.foreign == x))
  }

  /** What recording the pair x, y of type t appends to the log l1: one oriented relation when it needs one, else nothing. */
  predicate Recorded(l1: seq<Relation>, l: seq<Relation>, s: seq<Cell>, nodeID: int, x: int, y: int, t: ProxyType)
    requires 0 <= x < |s| && 0 <= y < |s|
  {
    if t != NoProxy && Mixed(s, nodeID, x, y) then |l| == |l1| + 1 && Oriented(l[|l1|], s, nodeID, x, y, t)
    else l == l1
  }

  lemma OrientedLogged(log: seq<Relation>, s: seq<Cell>, nodeID: int, x: int, y: int, t: ProxyType, n: int)
    requires 0 <= x < |s| && 0 <= y < |s| && 0 <= n < |log|
    requires Mixed(s, nodeID, x, y) && Oriented(log[n], s, nodeID, x, y, t)
    ensures LoggedPair(log, s, nodeID, x, y, t)
  {
  }

  lemma LoggedPairGrows(log: seq<Relation>, log': seq<Relation>, s: seq<Cell>, nodeID: int, x: int, y: int, t: ProxyType)
    requires 0 <= x < |s| && 0 <= y < |s|
    requires LoggedPair(log, s, nodeID, x, y, t) && |log| <= |log'| && log'[..|log|] == log
    ensures LoggedPair(log', s, nodeID, x, y, t)
  {
    if s[x].nodeID == nodeID {
      LoggedGrows(log, log', x, y, t);
    } else {
      LoggedGrows(log, log', y, x, t);
    }
  }

  // ---------------------------------------------------------------------------
  // The same-grid passes (engine_makeproxies_zoom_cells, engine_makeproxies_natural_cells)

  /**
   * One same-grid pass: the cells base .. base + |cd| - 1 laid out on the
   * grid cd and walked with window w; `ring` selects the periodic
   * direct-neighbour test, rMax2 is the squared multipole reach of the
   * grid's cells, and sameSize is cell_min_dist2_same_size (not part of this
   * model) in the box dim.
   */
  datatype GridPass = GridPass(base: int, cd: Dim3, periodic: bool, ring: bool, w: Window, rMax2: real,
                               dim: Vec3, sameSize: (CellBox, CellBox, bool, Vec3) -> real)

  predicate PassOk(gp: GridPass, n: int) {
    Positive(gp.cd) && WindowOk(gp.w) && 0 <= gp.base && gp.base + Count(gp.cd) <= n
  }

  /** The proxy type a same-grid pass gives the pair of grid cells a, b. */
  function PairType(ph: Physics, gp: GridPass, s: seq<Cell>, a: int, b: int): ProxyType
    requires PassOk(gp, |s|) && 0 <= a < Count(gp.cd) && 0 <= b < Count(gp.cd)
  {
    var ta, tb := CellIjk(gp.cd, a), CellIjk(gp.cd, b);
    var adjacent := if gp.ring then AdjacentPeriodic(gp.cd, ta, tb) else Adjacent(ta, tb);
    ProxyTypeOf(ph, adjacent, gp.sameSize(Geometry(s[gp.base + a]), Geometry(s[gp.base + b]), gp.periodic, gp.dim),
                gp.rMax2, gp.periodic)
  }

  /**
   * The pairs a same-grid pass must relate: a < b, b in the window around a,
   * one cell on this rank and the other not, and a proxy type that is not
   * none.
   */
  ghost predicate Wanted(ph: Physics, gp: GridPass, s: seq<Cell>, nodeID: int, a: int, b: int)
    requires PassOk(gp, |s|)
  {
    0 <= a < b < Count(gp.cd) && InWindow(gp.cd, gp.periodic, CellIjk(gp.cd, a), gp.w, b) &&
    Mixed(s, nodeID, gp.base + a, gp.base + b) && PairType(ph, gp, s, a, b) != NoProxy
  }

  /** Every pair the pass wants from grid cell a is logged with its type. */
  ghost predicate CellDone(ph: Physics, gp: GridPass, s: seq<Cell>, nodeID: int, log: seq<Relation>, a: int)
    requires PassOk(gp, |s|)
  {
    forall b :: Wanted(ph, gp, s, nodeID, a, b) ==>
      LoggedPair(log, s, nodeID, gp.base + a, gp.base + b, PairType(ph, gp, s, a, b))
  }

  lemma CellDoneGrows(ph: Physics, gp: GridPass, s: seq<Cell>, nodeID: int, log: seq<Relation>, log': seq<Relation>, a: int)
    requires PassOk(gp, |s|) && CellDone(ph, gp, s, nodeID, log, a)
    requires |log| <= |log'| && log'[..|log|] == log
    ensures CellDone(ph, gp, s, nodeID, log', a)
  {
    forall b | Wanted(ph, gp, s, nodeID, a, b)
      ensures LoggedPair(log', s, nodeID, gp.base + a, gp.base + b, PairType(ph, gp, s, a, b))
    {
      LoggedPairGrows(log, log', s, nodeID, gp.base + a, gp.base + b, PairType(ph, gp, s, a, b));
    }
  }

  /** Every pair the pass wants from grid cell a towards a cell of bs is logged. */
  ghost predicate CellDoneFor(ph: Physics, gp: GridPass, s: seq<Cell>, nodeID: int, log: seq<Relation>, a: int,
                              bs: seq<int>)
    requires PassOk(gp, |s|)
  {
    forall b :: b in bs && Wanted(ph, gp, s, nodeID, a, b) ==>
      LoggedPair(log, s, nodeID, gp.base + a, gp.base + b, PairType(ph, gp, s, a, b))
  }

  lemma CellDoneForStep(ph: Physics, gp: GridPass, s: seq<Cell>, nodeID: int, log: seq<Relation>,
                        log': seq<Relation>, a: int, ids: seq<int>, n: int)
    requires PassOk(gp, |s|) && 0 <= n < |ids| && CellDoneFor(ph, gp, s, nodeID, log, a, ids[..n])
    requires |log| <= |log'| && log'[..|log|] == log
    requires Wanted(ph, gp, s, nodeID, a, ids[n]) ==>
      LoggedPair(log', s, nodeID, gp.base + a, gp.base + ids[n], PairType(ph, gp, s, a, ids[n]))
    ensures CellDoneFor(ph, gp, s, nodeID, log', a, ids[..n + 1])
  {
    var bs, b := ids[..n], ids[n];
    assert ids[..n + 1] == bs + [b];
    forall b' | b' in bs + [b] && Wanted(ph, gp, s, nodeID, a, b')
      ensures LoggedPair(log', s, nodeID, gp.base + a, gp.base + b', PairType(ph, gp, s, a, b'))
    {
      if b' != b {
        LoggedPairGrows(log, log', s, nodeID, gp.base + a, gp.base + b', PairType(ph, gp, s, a, b'));
      }
    }
  }

  /** Every pair the pass wants from the grid cells below k is logged. */
  ghost predicate PassDone(ph: Physics, gp: GridPass, s: seq<Cell>, nodeID: int, log: seq<Relation>, k: int)
    requires PassOk(gp, |s|)
  {
    forall a :: 0 <= a < k ==> CellDone(ph, gp, s, nodeID, log, a)
  }

  lemma PassDoneStep(ph: Physics, gp: GridPass, s: seq<Cell>, nodeID: int, log: seq<Relation>, log': seq<Relation>,
                     k: int)
    requires PassOk(gp, |s|) && PassDone(ph, gp, s, nodeID, log, k) && CellDone(ph, gp, s, nodeID, log', k)
    requires |log| <= |log'| && log'[..|log|] == log
    ensures PassDone(ph, gp, s, nodeID, log', k + 1)
  {
    forall a | 0 <= a < k
      ensures CellDone(ph, gp, s, nodeID, log', a)
    {
      CellDoneGrows(ph, gp, s, nodeID, log, log', a);
    }
  }

  /** r is a relation of a wanted pair, local cell first, with the pair's type. */
  ghost predicate PassEntry(ph: Physics, gp: GridPass, s: seq<Cell>, nodeID: int, r: Relation)
    requires PassOk(gp, |s|)
  {
    var a, b := Min(r.local, r.foreign) - gp.base, Max(r.local, r.foreign) - gp.base;
    Wanted(ph, gp, s, nodeID, a, b) && s[r.local].nodeID == nodeID && r.t == PairType(ph, gp, s, a, b)
  }

  ghost predicate PassEntries(ph: Physics, gp: GridPass, s: seq<Cell>, nodeID: int, log: seq<Relation>)
    requires PassOk(gp, |s|)
  {
    forall r :: r in log ==> PassEntry(ph, gp, s, nodeID, r)
  }

  lemma PassEntriesConcat(ph: Physics, gp: GridPass, s: seq<Cell>, nodeID: int, l: seq<Relation>, l': seq<Relation>)
    requires PassOk(gp, |s|) && PassEntries(ph, gp, s, nodeID, l) && PassEntries(ph, gp, s, nodeID, l')
    ensures PassEntries(ph, gp, s, nodeID, l + l')
  {
    assert forall r :: r in l + l' ==> r in l || r in l';
  }

  lemma PassEntriesSince(ph: Physics, gp: GridPass, s: seq<Cell>, nodeID: int, l0: seq<Relation>, l1: seq<Relation>,
                         l2: seq<Relation>)
    requires PassOk(gp, |s|) && |l0| <= |l1| <= |l2| && l2[..|l1|] == l1
    requires PassEntries(ph, gp, s, nodeID, l1[|l0|..]) && PassEntries(ph, gp, s, nodeID, l2[|l1|..])
    ensures PassEntries(ph, gp, s, nodeID, l2[|l0|..])
  {
    assert l2[|l0|..] == l1[|l0|..] + l2[|l1|..];
    PassEntriesConcat(ph, gp, s, nodeID, l1[|l0|..], l2[|l1|..]);
  }

  /** The walk around a visits every cell of its window, so logging the wanted pairs towards them covers a. */
  lemma CellDoneForAll(ph: Physics, gp: GridPass, s: seq<Cell>, nodeID: int, log: seq<Relation>, a: int,
                       ids: seq<int>)
    requires PassOk(gp, |s|) && 0 <= a < Count(gp.cd) && CellDoneFor(ph, gp, s, nodeID, log, a, ids)
    requires forall x :: x in ids <==> InWindow(gp.cd, gp.periodic, CellIjk(gp.cd, a), gp.w, x)
    ensures CellDone(ph, gp, s, nodeID, log, a)
  {
  }

  // ---------------------------------------------------------------------------
  // The walk of a same-grid pass

  /**
   * `delta_cells` of a same-grid pass: one cell for hydro alone, with
   * gravity (int)(2 r_max / theta_crit / dmin) + 1.
   */
  function PassDelta(ph: Physics, rMax: real, dmin: real): (d: int)
    requires ph.withGravity ==> ph.theta > 0.0 && dmin > 0.0 && rMax >= 0.0
    ensures d >= 1
    ensures !ph.withGravity ==> d == 1
    ensures ph.withGravity ==>
      var reach := 2.0 * rMax * (1.0 / ph.theta);
      ((d - 1) as real) * dmin <= reach < (d as real) * dmin
  {
    if ph.withGravity then
      var reach := 2.0 * rMax * (1.0 / ph.theta);
      var x := reach / dmin;
      assert x >= 0.0 by {
        assert 1.0 / ph.theta > 0.0;
        assert reach >= 0.0;
      }
      TruncNonNegative(x);
      WholeCells(reach, dmin, Trunc(x));
      Trunc(x) + 1
    else
      1
  }

  /** k whole cells of width w fit in the reach r and k + 1 do not, when k = floor(r / w). */
  lemma WholeCells(r: real, w: real, k: int)
    requires w > 0.0 && (k as real) <= r / w < (k as real) + 1.0
    ensures (k as real) * w <= r < ((k as real) + 1.0) * w
  {
    var q, lo, hi := r / w, k as real, (k as real) + 1.0;
    assert r == q * w;
    assert (q - lo) * w >= 0.0 && q * w - lo * w >= 0.0;
    assert (hi - q) * w > 0.0 && hi * w - q * w > 0.0;
  }

  /**
   * The window a same-grid pass walks on a grid whose first axis has n
   * cells: the radius delta, clamped to the "every cell is in range of every
   * other one" window in a periodic box.
   */
  function PassWindow(delta: int, n: int, periodic: bool): (w: Window)
    requires n > 0 && delta >= 0
    ensures WindowOk(w) && ReachesBackOn(w, n, periodic)
    ensures periodic ==> Fits(w, n, true) && w.m <= n / 2
    ensures !periodic ==> w.m == w.p == delta
  {
    if periodic then ClampWindow(delta, n) else Window(delta, delta)
  }

  /**
   * The window of a pass reaches back on every axis when the box is not
   * periodic, or when its first axis is the longest: the a < b guard of
   * the walk then drops no pair, since b is in the window around a exactly
   * when a is in the window around b.
   */
  lemma PassWindowSymmetric(cd: Dim3, delta: int, periodic: bool, a: int, b: int)
    requires Positive(cd) && delta >= 0 && (periodic ==> cd.y <= cd.x && cd.z <= cd.x)
    requires 0 <= a < Count(cd) && 0 <= b < Count(cd)
    ensures var w := PassWindow(delta, cd.x, periodic);
      InWindow(cd, periodic, CellIjk(cd, a), w, b) <==> InWindow(cd, periodic, CellIjk(cd, b), w, a)
  {
    var w := PassWindow(delta, cd.x, periodic);
    assert ReachesBackAll(cd, w, periodic);
    InWindowSymmetric(cd, periodic, w, a, b);
  }

  /**
   * Clamping the walk of a box that is not periodic, as both same-grid
   * passes do, drops pairs: on a 2 x 1 x 1 grid with delta 1 the window is
   * [-1, 0], so cell 1 is not in the window around cell 0, and the walk
   * around cell 1 reaches cell 0 only to skip it by the a < b guard; the
   * two cells are direct neighbours.
   */
  lemma ClampedWalkMissesPair()
    ensures var cd := Dim3(2, 1, 1);
      ClampWindow(1, 2) == Window(1, 0) && Adjacent(CellIjk(cd, 0), CellIjk(cd, 1)) &&
      !InWindow(cd, false, CellIjk(cd, 0), ClampWindow(1, 2), 1) &&
      InWindow(cd, false, CellIjk(cd, 0), PassWindow(1, 2, false), 1)
  {
    var cd := Dim3(2, 1, 1);
    assert CellIjk(cd, 0) == Ijk(0, 0, 0) && CellIjk(cd, 1) == Ijk(1, 0, 0);
    assert Target(0, 1, 2, false) == 1 && Target(0, 0, 1, false) == 0;
    assert forall o :: -1 <= o < 1 ==> Target(0, o, 2, false) != 1;
  }

  /**
   * The periodic clamp is taken from the first axis alone: on a 8 x 3 x 3
   * box a radius of 4 or more walks j offsets down to -4, and the written
   * wrap `(j + jj + cdim[1]) % cdim[1]` of j = 0 then gives -1, a
   * coordinate outside the grid, where the wrap onto the axis gives 2.
   */
  lemma NaturalWalkWrapsTooFar()
    ensures ClampWindow(4, 8).m == 4 && SourceWrap(0 - 4, 3) == -1 && Target(0, -4, 3, true) == 2
  {
  }

  // ---------------------------------------------------------------------------
  // The pass between the grids (engine_makeproxies_between_grids)

  /** The layout and box of the between-grids pass; nearest is the periodic nearest() of the box. */
  datatype BetweenPass = BetweenPass(l: Layout, periodic: bool, dim: Vec3, nearest: (real, real) -> real)

  /** The cells fit the layout and every zoom cell's parent is a background cell. */
  ghost predicate BetweenOk(bp: BetweenPass, s: seq<Cell>) {
    LayoutOk(bp.l) && Positive(bp.l.bkgCdim) && |s| == NrCells(bp.l) &&
    forall a :: 0 <= a < bp.l.offset ==> bp.l.offset <= s[a].parent < |s|
  }

  /**
   * The proxy type of zoom cell a and background cell b: direct neighbours
   * (periodic test) between a's parent and b, or the multipole acceptance
   * test on the corrected distance between the two differently sized cells,
   * with the background cells' reach.
   */
  function BetweenType(ph: Physics, bp: BetweenPass, s: seq<Cell>, a: int, b: int): ProxyType
    requires BetweenOk(bp, s) && 0 <= a < bp.l.offset <= b < |s|
  {
    var ta := CellIjk(bp.l.bkgCdim, s[a].parent - bp.l.offset);
    var tb := CellIjk(bp.l.bkgCdim, b - bp.l.offset);
    ProxyTypeOf(ph, AdjacentPeriodic(bp.l.bkgCdim, ta, tb),
                CellMinDist2DiffSize(s[a], s[b], bp.periodic, bp.dim, bp.nearest),
                RMax2(s[bp.l.offset].width), bp.periodic)
  }

  /** The pairs the between-grids pass must relate: a zoom cell and a neighbour cell on different sides. */
  ghost predicate WantedBetween(ph: Physics, bp: BetweenPass, s: seq<Cell>, nodeID: int, a: int, b: int)
    requires BetweenOk(bp, s)
  {
    0 <= a < bp.l.offset <= b < |s| && s[b].kind == Neighbour && Mixed(s, nodeID, a, b) &&
    BetweenType(ph, bp, s, a, b) != NoProxy
  }

  /** Every pair the pass wants from zoom cell a towards a cell below hi is logged. */
  ghost predicate BetweenCellDone(ph: Physics, bp: BetweenPass, s: seq<Cell>, nodeID: int, log: seq<Relation>,
                                  a: int, hi: int)
    requires BetweenOk(bp, s)
  {
    forall b :: b < hi && WantedBetween(ph, bp, s, nodeID, a, b) ==>
      LoggedPair(log, s, nodeID, a, b, BetweenType(ph, bp, s, a, b))
  }

  lemma BetweenCellDoneStep(ph: Physics, bp: BetweenPass, s: seq<Cell>, nodeID: int, log: seq<Relation>,
                            log': seq<Relation>, a: int, b: int)
    requires BetweenOk(bp, s) && BetweenCellDone(ph, bp, s, nodeID, log, a, b)
    requires |log| <= |log'| && log'[..|log|] == log
    requires WantedBetween(ph, bp, s, nodeID, a, b) ==> LoggedPair(log', s, nodeID, a, b, BetweenType(ph, bp, s, a, b))
    ensures BetweenCellDone(ph, bp, s, nodeID, log', a, b + 1)
  {
    forall b' | b' < b + 1 && WantedBetween(ph, bp, s, nodeID, a, b')
      ensures LoggedPair(log', s, nodeID, a, b', BetweenType(ph, bp, s, a, b'))
    {
      if b' != b {
        LoggedPairGrows(log, log', s, nodeID, a, b', BetweenType(ph, bp, s, a, b'));
      }
    }
  }

  /** Every pair the pass wants from the zoom cells below k is logged. */
  ghost predicate BetweenDone(ph: Physics, bp: BetweenPass, s: seq<Cell>, nodeID: int, log: seq<Relation>, k: int)
    requires BetweenOk(bp, s)
  {
    forall a :: 0 <= a < k ==> BetweenCellDone(ph, bp, s, nodeID, log, a, |s|)
  }

  lemma BetweenDoneGrows(ph: Physics, bp: BetweenPass, s: seq<Cell>, nodeID: int, log: seq<Relation>,
                         log': seq<Relation>, k: int)
    requires BetweenOk(bp, s) && BetweenDone(ph, bp, s, nodeID, log, k)
    requires |log| <= |log'| && log'[..|log|] == log
    ensures BetweenDone(ph, bp, s, nodeID, log', k)
  {
    forall a | 0 <= a < k
      ensures BetweenCellDone(ph, bp, s, nodeID, log', a, |s|)
    {
      BetweenCellDoneGrows(ph, bp, s, nodeID, log, log', a, |s|);
    }
  }

  lemma BetweenDoneStep(ph: Physics, bp: BetweenPass, s: seq<Cell>, nodeID: int, log: seq<Relation>,
                        log': seq<Relation>, k: int)
    requires BetweenOk(bp, s) && BetweenDone(ph, bp, s, nodeID, log, k) && BetweenCellDone(ph, bp, s, nodeID, log', k, |s|)
    requires |log| <= |log'| && log'[..|log|] == log
    ensures BetweenDone(ph, bp, s, nodeID, log', k + 1)
  {
    BetweenDoneGrows(ph, bp, s, nodeID, log, log', k);
  }

  lemma BetweenCellDoneGrows(ph: Physics, bp: BetweenPass, s: seq<Cell>, nodeID: int, log: seq<Relation>,
                             log': seq<Relation>, a: int, hi: int)
    requires BetweenOk(bp, s) && BetweenCellDone(ph, bp, s, nodeID, log, a, hi)
    requires |log| <= |log'| && log'[..|log|] == log
    ensures BetweenCellDone(ph, bp, s, nodeID, log', a, hi)
  {
    forall b | b < hi && WantedBetween(ph, bp, s, nodeID, a, b)
      ensures LoggedPair(log', s, nodeID, a, b, BetweenType(ph, bp, s, a, b))
    {
      LoggedPairGrows(log, log', s, nodeID, a, b, BetweenType(ph, bp, s, a, b));
    }
  }

  /** r is a relation of a wanted zoom-background pair, local cell first, with the pair's type. */
  ghost predicate BetweenEntry(ph: Physics, bp: BetweenPass, s: seq<Cell>, nodeID: int, r: Relation)
    requires BetweenOk(bp, s)
  {
    var a, b := Min(r.local, r.foreign), Max(r.local, r.foreign);
    WantedBetween(ph, bp, s, nodeID, a, b) && s[r.local].nodeID == nodeID && r.t == BetweenType(ph, bp, s, a, b)
  }

  ghost predicate BetweenEntries(ph: Physics, bp: BetweenPass, s: seq<Cell>, nodeID: int, log: seq<Relation>)
    requires BetweenOk(bp, s)
  {
    forall r :: r in log ==> BetweenEntry(ph, bp, s, nodeID, r)
  }

  lemma BetweenEntriesSince(ph: Physics, bp: BetweenPass, s: seq<Cell>, nodeID: int, l0: seq<Relation>,
                            l1: seq<Relation>, l2: seq<Relation>)
    requires BetweenOk(bp, s) && |l0| <= |l1| <= |l2| && l2[..|l1|] == l1
    requires BetweenEntries(ph, bp, s, nodeID, l1[|l0|..]) && BetweenEntries(ph, bp, s, nodeID, l2[|l1|..])
    ensures BetweenEntries(ph, bp, s, nodeID, l2[|l0|..])
  {
    assert l2[|l0|..] == l1[|l0|..] + l2[|l1|..];
    assert forall r :: r in l2[|l0|..] ==> r in l1[|l0|..] || r in l2[|l1|..];
  }

  lemma PassDoneGrows(ph: Physics, gp: GridPass, s: seq<Cell>, nodeID: int, log: seq<Relation>, log': seq<Relation>,
                      k: int)
    requires PassOk(gp, |s|) && PassDone(ph, gp, s, nodeID, log, k)
    requires |log| <= |log'| && log'[..|log|] == log
    ensures PassDone(ph, gp, s, nodeID, log', k)
  {
    forall a | 0 <= a < k
      ensures CellDone(ph, gp, s, nodeID, log', a)
    {
      CellDoneGrows(ph, gp, s, nodeID, log, log', a);
    }
  }

  // ---------------------------------------------------------------------------
  // The three passes of engine_makeproxies_with_zoom_region

  /** The zoom-cell pass: never periodic, the plain direct-neighbour test, the zoom cells' reach. */
  function ZoomPass(ph: Physics, l: Layout, s: seq<Cell>, rMax: real, dim: Vec3,
                    sameSize: (CellBox, CellBox, bool, Vec3) -> real): (gp: GridPass)
    requires LayoutOk(l) && l.offset < |s|
    requires ph.withGravity ==> ph.theta > 0.0 && s[0].dmin > 0.0 && rMax >= 0.0
    ensures PassOk(gp, |s|) && gp.base == 0 && gp.cd == l.zoomCdim && !gp.periodic
  {
    GridPass(0, l.zoomCdim, false, false, PassWindow(PassDelta(ph, rMax, s[0].dmin), l.zoomCdim.x, false),
             RMax2(s[0].width), dim, sameSize)
  }

  /** The background-cell pass: the box's periodicity, the periodic direct-neighbour test, the background reach. */
  function NaturalPass(ph: Physics, l: Layout, periodic: bool, s: seq<Cell>, rMax: real, dim: Vec3,
                       sameSize: (CellBox, CellBox, bool, Vec3) -> real): (gp: GridPass)
    requires LayoutOk(l) && Positive(l.bkgCdim) && |s| == NrCells(l)
    requires ph.withGravity ==> ph.theta > 0.0 && s[l.offset].dmin > 0.0 && rMax >= 0.0
    ensures PassOk(gp, |s|) && gp.base == l.offset && gp.cd == l.bkgCdim && gp.periodic == periodic
  {
    GridPass(l.offset, l.bkgCdim, periodic, true, PassWindow(PassDelta(ph, rMax, s[l.offset].dmin), l.bkgCdim.x, periodic),
             RMax2(s[l.offset].width), dim, sameSize)
  }

  /** The type and the sides of a pair do not depend on the sendto masks. */
  lemma PairTypeAlike(ph: Physics, gp: GridPass, s: seq<Cell>, s0: seq<Cell>, a: int, b: int)
    requires Alike(s, s0) && PassOk(gp, |s|) && 0 <= a < Count(gp.cd) && 0 <= b < Count(gp.cd)
    ensures PairType(ph, gp, s, a, b) == PairType(ph, gp, s0, a, b)
  {
    assert Geometry(s[gp.base + a]) == Geometry(s0[gp.base + a]);
    assert Geometry(s[gp.base + b]) == Geometry(s0[gp.base + b]);
  }

  /**
   * What RecordPair leaves for the pair a < b of a same-grid pass: the
   * pair is logged when wanted, and whatever was logged is a pass entry.
   */
  lemma PairRecorded(ph: Physics, gp: GridPass, s0: seq<Cell>, nodeID: int, s1: seq<Cell>, l1: seq<Relation>,
                     s: seq<Cell>, l: seq<Relation>, a: int, b: int)
    requires PassOk(gp, |s0|) && 0 <= a < b < Count(gp.cd)
    requires InWindow(gp.cd, gp.periodic, CellIjk(gp.cd, a), gp.w, b)
    requires Alike(s1, s0) && CellsSince(s1, l1, s, l)
    requires |s1| == |s0| && Recorded(l1, l, s1, nodeID, gp.base + a, gp.base + b, PairType(ph, gp, s1, a, b))
    ensures Alike(s, s0)
    ensures Wanted(ph, gp, s0, nodeID, a, b) ==>
      LoggedPair(l, s0, nodeID, gp.base + a, gp.base + b, PairType(ph, gp, s0, a, b))
    ensures PassEntries(ph, gp, s0, nodeID, l[|l1|..])
  {
    CellsSinceAlike(s1, l1, s, l, s0);
    PairTypeAlike(ph, gp, s1, s0, a, b);
    var x, y, t := gp.base + a, gp.base + b, PairType(ph, gp, s0, a, b);
    assert s1[x].nodeID == s0[x].nodeID && s1[y].nodeID == s0[y].nodeID;
    if Wanted(ph, gp, s0, nodeID, a, b) {
      OrientedLogged(l, s0, nodeID, x, y, t, |l1|);
      assert l[|l1|..] == [l[|l1|]];
      assert PassEntry(ph, gp, s0, nodeID, l[|l1|]);
    } else {
      assert l[|l1|..] == [];
    }
  }

  lemma BetweenTypeAlike(ph: Physics, bp: BetweenPass, s: seq<Cell>, s0: seq<Cell>, a: int, b: int)
    requires Alike(s, s0) && BetweenOk(bp, s0) && 0 <= a < bp.l.offset <= b < |s|
    ensures BetweenOk(bp, s) && BetweenType(ph, bp, s, a, b) == BetweenType(ph, bp, s0, a, b)
  {
    assert forall x :: 0 <= x < bp.l.offset ==> s[x].parent == s0[x].parent;
  }

  /** What RecordPair leaves for zoom cell a and neighbour cell b of the between-grids pass. */
  lemma BetweenRecorded(ph: Physics, bp: BetweenPass, s0: seq<Cell>, nodeID: int, s1: seq<Cell>, l1: seq<Relation>,
                        s: seq<Cell>, l: seq<Relation>, a: int, b: int)
    requires BetweenOk(bp, s0) && 0 <= a < bp.l.offset <= b < |s0| && s0[b].kind == Neighbour
    requires Alike(s1, s0) && CellsSince(s1, l1, s, l)
    requires |s1| == |s0| && BetweenOk(bp, s1) && Recorded(l1, l, s1, nodeID, a, b, BetweenType(ph, bp, s1, a, b))
    ensures Alike(s, s0)
    ensures WantedBetween(ph, bp, s0, nodeID, a, b) ==> LoggedPair(l, s0, nodeID, a, b, BetweenType(ph, bp, s0, a, b))
    ensures BetweenEntries(ph, bp, s0, nodeID, l[|l1|..])
  {
    CellsSinceAlike(s1, l1, s, l, s0);
    BetweenTypeAlike(ph, bp, s1, s0, a, b);
    var t := BetweenType(ph, bp, s0, a, b);
    assert s1[a].nodeID == s0[a].nodeID && s1[b].nodeID == s0[b].nodeID;
    if WantedBetween(ph, bp, s0, nodeID, a, b) {
      OrientedLogged(l, s0, nodeID, a, b, t, |l1|);
      assert l[|l1|..] == [l[|l1|]];
      assert BetweenEntry(ph, bp, s0, nodeID, l[|l1|]);
    } else {
      assert l[|l1|..] == [];
    }
  }

  /**
   * The outcome of the three passes on the cells s: every wanted pair of
   * each pass is logged, and the log is the zoom pass's relations, then the
   * background pass's, then the between-grids pass's.
   */
  ghost predicate ProxiesMade(ph: Physics, zp: GridPass, np: GridPass, bp: BetweenPass, s: seq<Cell>, nodeID: int,
                              log: seq<Relation>, zoomEnd: int, naturalEnd: int)
    requires PassOk(zp, |s|) && PassOk(np, |s|) && BetweenOk(bp, s)
  {
    0 <= zoomEnd <= naturalEnd <= |log| &&
    PassDone(ph, zp, s, nodeID, log, Count(zp.cd)) && PassEntries(ph, zp, s, nodeID, log[..zoomEnd]) &&
    PassDone(ph, np, s, nodeID, log, Count(np.cd)) && PassEntries(ph, np, s, nodeID, log[zoomEnd..naturalEnd]) &&
    BetweenDone(ph, bp, s, nodeID, log, bp.l.offset) && BetweenEntries(ph, bp, s, nodeID, log[naturalEnd..])
  }

  lemma MadeFromPasses(ph: Physics, zp: GridPass, np: GridPass, bp: BetweenPass, s: seq<Cell>, nodeID: int,
                       lz: seq<Relation>, ln: seq<Relation>, log: seq<Relation>)
    requires PassOk(zp, |s|) && PassOk(np, |s|) && BetweenOk(bp, s)
    requires |lz| <= |ln| <= |log| && ln[..|lz|] == lz && log[..|ln|] == ln
    requires PassDone(ph, zp, s, nodeID, lz, Count(zp.cd)) && PassEntries(ph, zp, s, nodeID, lz[0..])
    requires PassDone(ph, np, s, nodeID, ln, Count(np.cd)) && PassEntries(ph, np, s, nodeID, ln[|lz|..])
    requires BetweenDone(ph, bp, s, nodeID, log, bp.l.offset) && BetweenEntries(ph, bp, s, nodeID, log[|ln|..])
    ensures ProxiesMade(ph, zp, np, bp, s, nodeID, log, |lz|, |ln|)
  {
    assert log[..|lz|] == lz == lz[0..];
    assert log[|lz|..|ln|] == ln[|lz|..];
    PassDoneGrows(ph, zp, s, nodeID, lz, log, Count(zp.cd));
    PassDoneGrows(ph, np, s, nodeID, ln, log, Count(np.cd));
  }

  /**
   * The engine's proxy state: proxy_ind (the proxy of each rank, -1 for
   * none), nr_proxies, the rank each proxy talks to, and the relations added
   * to the proxies so far.
   */
  class Engine {
    const nodeID: int
    const nrNodes: int
    const maxProxies: int
    const space: Space
    var proxyInd: array?<int>
    var nrProxies: int
    var proxies: seq<int>
    var log: seq<Relation>

    /** An engine on rank nodeID of nrNodes whose proxy index is not allocated yet. */
    constructor (nodeID: int, nrNodes: int, maxProxies: int, space: Space)
      ensures this.nodeID == nodeID && this.nrNodes == nrNodes && this.maxProxies == maxProxies
      ensures this.space == space && proxyInd == null && nrProxies == 0 && proxies == [] && log == []
    {
      this.nodeID, this.nrNodes, this.maxProxies, this.space := nodeID, nrNodes, maxProxies, space;
      proxyInd, nrProxies, proxies, log := null, 0, [], [];
    }

    /**
     * proxy_ind and the proxies are inverse to each other, so each rank has
     * at most one proxy, and no proxy talks to this rank.
     */
    ghost predicate TableOk()
      reads this, proxyInd
    {
      proxyInd != null && proxyInd.Length == nrNodes && 0 <= nodeID < nrNodes &&
      nrProxies == |proxies| <= maxProxies && nrProxies <= SendtoBits &&
      (forall n :: 0 <= n < nrNodes ==> -1 <= proxyInd[n] < nrProxies) &&
      (forall n :: 0 <= n < nrNodes && 0 <= proxyInd[n] ==> proxies[proxyInd[n]] == n) &&
      (forall p :: 0 <= p < nrProxies ==>
         0 <= proxies[p] < nrNodes && proxies[p] != nodeID && proxyInd[proxies[p]] == p)
    }

    /**
     * The proxy table is consistent, every cell lives on a known rank, every
     * proxy holds a relation, and every relation joins a local cell to a
     * foreign cell of its proxy's rank.
     */
    ghost predicate Consistent()
      reads this, proxyInd, space, space.cells
    {
      TableOk() &&
      (forall x :: 0 <= x < space.cells.Length ==> 0 <= space.cells[x].nodeID < nrNodes) &&
      RelationsOk(log, space.cells[..], nodeID, proxies)
    }

    /** A consistent engine over a well-formed space. */
    ghost predicate Valid()
      reads this, proxyInd, space, space.cells
    {
      space.Valid() && Consistent()
    }

    /** Since the state (s0, l0, p0): the proxies and relations only grew, and cells changed only in sendto. */
    ghost predicate Since(s0: seq<Cell>, l0: seq<Relation>, p0: seq<int>)
      reads this, space, space.cells
    {
      Extends(s0, l0, p0, space.cells[..], log, proxies)
    }

    /** A fatal outcome leaves behind the proxy count that tripped it. */
    ghost predicate Explains(res: Outcome)
      reads this
    {
      match res
      case Done => true
      case Fatal(TooManyProxies) => nrProxies == maxProxies
      case Fatal(SendtoOverflow) => nrProxies == SendtoBits + 1
    }

    /**
     * The proxy of rank `node`, created (proxy_init, with a fresh id
     * nr_proxies) when there is none yet. Creating one beyond the limit, or
     * one whose bit does not fit the sendto mask, is fatal.
     */
    method ProxyFor(node: int) returns (res: Outcome, pid: int)
      requires TableOk() && 0 <= node < nrNodes && node != nodeID
      modifies this, proxyInd
      ensures proxyInd == old(proxyInd) && log == old(log)
      ensures res.Done? ==>
        TableOk() && OneProxyPerNode(proxies) && 0 <= pid < nrProxies && proxies[pid] == node &&
        (old(proxyInd[node]) >= 0 ==> proxies == old(proxies) && pid == old(proxyInd[node])) &&
        (old(proxyInd[node]) < 0 ==> proxies == old(proxies) + [node] && pid == old(nrProxies))
      ensures res == Fatal(TooManyProxies) ==> old(proxyInd[node]) < 0 && old(nrProxies) == maxProxies
      ensures res == Fatal(SendtoOverflow) ==> old(proxyInd[node]) < 0 && old(nrProxies) == SendtoBits
      ensures Explains(res)
    {
      res, pid := Done, proxyInd[node];
      if pid < 0 {
        if nrProxies == maxProxies {
          return Fatal(TooManyProxies), pid;
        }
        proxies := proxies + [node];
        proxyInd[node] := nrProxies;
        pid := nrProxies;
        nrProxies := nrProxies + 1;
        if SendtoOverflows(pid) {
          return Fatal(SendtoOverflow), pid;
        }
      }
    }

    /**
     * The two symmetric "add to proxies" blocks of the passes, for a local
     * and a foreign cell: find or create the proxy of the foreign cell's
     * rank, record the relation (proxy_addcell_in of the foreign cell,
     * proxy_addcell_out of the local one) and set the proxy's bit in the
     * local cell's sendto.
     */
    method AddRelation(local: int, foreign: int, t: ProxyType) returns (res: Outcome)
      requires Consistent()
      requires 0 <= local < space.cells.Length && 0 <= foreign < space.cells.Length
      requires space.cells[local].nodeID == nodeID && space.cells[foreign].nodeID != nodeID
      modifies this, proxyInd, space.cells
      ensures proxyInd == old(proxyInd)
      ensures var node := old(space.cells[foreign].nodeID);
        res.Done? ==>
          Consistent() && Since(old(space.cells[..]), old(log), old(proxies)) &&
          |log| == |old(log)| + 1 && log[|old(log)|].local == local && log[|old(log)|].foreign == foreign &&
          log[|old(log)|].t == t &&
          (old(proxyInd[node]) >= 0 ==> proxies == old(proxies) && log[|old(log)|].proxy == old(proxyInd[node])) &&
          (old(proxyInd[node]) < 0 ==> proxies == old(proxies) + [node] && log[|old(log)|].proxy == old(nrProxies))
      ensures var node := old(space.cells[foreign].nodeID);
        res == Fatal(TooManyProxies) ==> old(proxyInd[node]) < 0 && old(nrProxies) == maxProxies
      ensures var node := old(space.cells[foreign].nodeID);
        res == Fatal(SendtoOverflow) ==> old(proxyInd[node]) < 0 && old(nrProxies) == SendtoBits
      ensures Explains(res)
    {
      ghost var s0, l0, p0 := space.cells[..], log, proxies;
      var pid;
      res, pid := ProxyFor(space.cells[foreign].nodeID);
      if res.Fatal? {
        return;
      }
      var r := Relation(local, foreign, pid, t);
      log := log + [r];
      space.cells[local] := space.cells[local].(sendto := space.cells[local].sendto + {pid});
      assert space.cells[..] == s0[local := s0[local].(sendto := s0[local].sendto + {pid})];
      CellsSinceOne(s0, l0, r);
      CellsSinceAlike(s0, l0, space.cells[..], log, s0);
      RelationsOkAppend(l0, s0, space.cells[..], nodeID, p0, proxies, r);
    }

    /**
     * The tail of a pass's inner loop for the pair x, y of type t: nothing
     * for the type none or a pair on one rank, otherwise the "add to
     * proxies" block for whichever of the two cells is local.
     */
    method RecordPair(x: int, y: int, t: ProxyType) returns (res: Outcome)
      requires Consistent() && 0 <= x < space.cells.Length && 0 <= y < space.cells.Length
      modifies this, proxyInd, space.cells
      ensures proxyInd == old(proxyInd) && Explains(res)
      ensures res.Fatal? ==> t != NoProxy && Mixed(old(space.cells[..]), nodeID, x, y)
      ensures res.Done? ==> Consistent() && Since(old(space.cells[..]), old(log), old(proxies))
      ensures res.Done? ==> Recorded(old(log), log, old(space.cells[..]), nodeID, x, y, t)
    {
      var cx, cy := space.cells[x], space.cells[y];
      if t != NoProxy && cx.nodeID == nodeID && cy.nodeID != nodeID {
        res := AddRelation(x, y, t);
      } else if t != NoProxy && cy.nodeID == nodeID && cx.nodeID != nodeID {
        res := AddRelation(y, x, t);
      } else {
        res := Done;
        ExtendsRefl(space.cells[..], log, proxies);
      }
    }

    /** One visited cell b of the walk around grid cell a: skipped unless a < b, then typed and recorded. */
    method PassPair(ph: Physics, gp: GridPass, a: int, b: int, ghost s0: seq<Cell>) returns (res: Outcome)
      requires Consistent() && PassOk(gp, space.cells.Length) && 0 <= a < Count(gp.cd)
      requires InWindow(gp.cd, gp.periodic, CellIjk(gp.cd, a), gp.w, b) && Alike(space.cells[..], s0)
      modifies this, proxyInd, space.cells
      ensures proxyInd == old(proxyInd) && Explains(res)
      ensures res.Done? ==>
        Consistent() && Since(old(space.cells[..]), old(log), old(proxies)) && Alike(space.cells[..], s0) &&
        (Wanted(ph, gp, s0, nodeID, a, b) ==>
           LoggedPair(log, s0, nodeID, gp.base + a, gp.base + b, PairType(ph, gp, s0, a, b))) &&
        PassEntries(ph, gp, s0, nodeID, log[|old(log)|..])
    {
      ghost var s1, l1 := space.cells[..], log;
      if a < b {
        var t := PairType(ph, gp, space.cells[..], a, b);
        res := RecordPair(gp.base + a, gp.base + b, t);
        if res.Fatal? {
          return;
        }
        PairRecorded(ph, gp, s0, nodeID, s1, l1, space.cells[..], log, a, b);
      } else {
        res := Done;
        ExtendsRefl(s1, l1, proxies);
        assert log[|l1|..] == [];
      }
    }

    /** The inner loop of the walk around grid cell a, over the visited cells ids. */
    method PassIds(ph: Physics, gp: GridPass, a: int, ids: seq<int>, ghost s0: seq<Cell>) returns (res: Outcome)
      requires Consistent() && PassOk(gp, space.cells.Length) && 0 <= a < Count(gp.cd)
      requires forall n :: 0 <= n < |ids| ==> InWindow(gp.cd, gp.periodic, CellIjk(gp.cd, a), gp.w, ids[n])
      requires Alike(space.cells[..], s0)
      modifies this, proxyInd, space.cells
      ensures proxyInd == old(proxyInd) && Explains(res)
      ensures res.Done? ==>
        Consistent() && Since(old(space.cells[..]), old(log), old(proxies)) && Alike(space.cells[..], s0) &&
        CellDoneFor(ph, gp, s0, nodeID, log, a, ids) && PassEntries(ph, gp, s0, nodeID, log[|old(log)|..])
    {
      ghost var s1, l1, p1 := space.cells[..], log, proxies;
      ExtendsRefl(s1, l1, p1);
      res := Done;
      for n := 0 to |ids|
        invariant proxyInd == old(proxyInd) && res == Done
        invariant Consistent() && Since(s1, l1, p1) && Alike(space.cells[..], s0)
        invariant CellDoneFor(ph, gp, s0, nodeID, log, a, ids[..n])
        invariant PassEntries(ph, gp, s0, nodeID, log[|l1|..])
      {
        ghost var s2, l2, p2 := space.cells[..], log, proxies;
        res := PassPair(ph, gp, a, ids[n], s0);
        if res.Fatal? {
          return;
        }
        ExtendsTrans(s1, l1, p1, s2, l2, p2, space.cells[..], log, proxies);
        CellDoneForStep(ph, gp, s0, nodeID, l2, log, a, ids, n);
        PassEntriesSince(ph, gp, s0, nodeID, l1, l2, log);
      }
      assert ids[..|ids|] == ids;
    }

    /**
     * The walk around grid cell a of a same-grid pass: every cell b of the
     * window with a < b is typed and recorded.
     */
    method PassCell(ph: Physics, gp: GridPass, a: int, ghost s0: seq<Cell>) returns (res: Outcome)
      requires Consistent() && PassOk(gp, space.cells.Length) && 0 <= a < Count(gp.cd)
      requires Alike(space.cells[..], s0)
      modifies this, proxyInd, space.cells
      ensures proxyInd == old(proxyInd) && Explains(res)
      ensures res.Done? ==>
        Consistent() && Since(old(space.cells[..]), old(log), old(proxies)) && Alike(space.cells[..], s0) &&
        CellDone(ph, gp, s0, nodeID, log, a) && PassEntries(ph, gp, s0, nodeID, log[|old(log)|..])
    {
      var ids, _ := WalkWindow(gp.cd, gp.periodic, CellIjk(gp.cd, a), gp.w);
      res := PassIds(ph, gp, a, ids, s0);
      if res.Done? {
        CellDoneForAll(ph, gp, s0, nodeID, log, a, ids);
      }
    }

    /** A whole same-grid pass: the walk around every cell of the grid, in flat-index order. */
    method SameGridPass(ph: Physics, gp: GridPass, ghost s0: seq<Cell>) returns (res: Outcome)
      requires Consistent() && PassOk(gp, space.cells.Length) && Alike(space.cells[..], s0)
      modifies this, proxyInd, space.cells
      ensures proxyInd == old(proxyInd) && Explains(res)
      ensures res.Done? ==>
        Consistent() && Since(old(space.cells[..]), old(log), old(proxies)) && Alike(space.cells[..], s0) &&
        PassDone(ph, gp, s0, nodeID, log, Count(gp.cd)) && PassEntries(ph, gp, s0, nodeID, log[|old(log)|..])
    {
      ghost var s1, l1, p1 := space.cells[..], log, proxies;
      ExtendsRefl(s1, l1, p1);
      res := Done;
      for a := 0 to Count(gp.cd)
        invariant proxyInd == old(proxyInd) && res == Done
        invariant Consistent() && Since(s1, l1, p1) && Alike(space.cells[..], s0)
        invariant PassDone(ph, gp, s0, nodeID, log, a)
        invariant PassEntries(ph, gp, s0, nodeID, log[|l1|..])
      {
        ghost var s2, l2, p2 := space.cells[..], log, proxies;
        res := PassCell(ph, gp, a, s0);
        if res.Fatal? {
          return;
        }
        ExtendsTrans(s1, l1, p1, s2, l2, p2, space.cells[..], log, proxies);
        PassDoneStep(ph, gp, s0, nodeID, l2, log, a);
        PassEntriesSince(ph, gp, s0, nodeID, l1, l2, log);
      }
    }

    /** Zoom cell a against background cell b: skipped unless b is a neighbour cell, then typed and recorded. */
    method BetweenPair(ph: Physics, bp: BetweenPass, a: int, b: int, ghost s0: seq<Cell>) returns (res: Outcome)
      requires Consistent() && BetweenOk(bp, s0) && Alike(space.cells[..], s0)
      requires 0 <= a < bp.l.offset <= b < space.cells.Length
      modifies this, proxyInd, space.cells
      ensures proxyInd == old(proxyInd) && Explains(res)
      ensures res.Done? ==>
        Consistent() && Since(old(space.cells[..]), old(log), old(proxies)) && Alike(space.cells[..], s0) &&
        (WantedBetween(ph, bp, s0, nodeID, a, b) ==>
           LoggedPair(log, s0, nodeID, a, b, BetweenType(ph, bp, s0, a, b))) &&
        BetweenEntries(ph, bp, s0, nodeID, log[|old(log)|..])
    {
      ghost var s1, l1 := space.cells[..], log;
      if space.cells[b].kind == Neighbour {
        BetweenTypeAlike(ph, bp, s1, s0, a, b);
        var t := BetweenType(ph, bp, space.cells[..], a, b);
        res := RecordPair(a, b, t);
        if res.Fatal? {
          return;
        }
        BetweenRecorded(ph, bp, s0, nodeID, s1, l1, space.cells[..], log, a, b);
      } else {
        res := Done;
        ExtendsRefl(s1, l1, proxies);
        assert log[|l1|..] == [];
      }
    }

    /** The inner loop of the between-grids pass: zoom cell a against every background cell. */
    method BetweenCell(ph: Physics, bp: BetweenPass, a: int, ghost s0: seq<Cell>) returns (res: Outcome)
      requires Consistent() && BetweenOk(bp, s0) && Alike(space.cells[..], s0) && 0 <= a < bp.l.offset
      modifies this, proxyInd, space.cells
      ensures proxyInd == old(proxyInd) && Explains(res)
      ensures res.Done? ==>
        Consistent() && Since(old(space.cells[..]), old(log), old(proxies)) && Alike(space.cells[..], s0) &&
        BetweenCellDone(ph, bp, s0, nodeID, log, a, |s0|) && BetweenEntries(ph, bp, s0, nodeID, log[|old(log)|..])
    {
      ghost var s1, l1, p1 := space.cells[..], log, proxies;
      ExtendsRefl(s1, l1, p1);
      res := Done;
      for b := bp.l.offset to space.cells.Length
        invariant proxyInd == old(proxyInd) && res == Done
        invariant Consistent() && Since(s1, l1, p1) && Alike(space.cells[..], s0)
        invariant BetweenCellDone(ph, bp, s0, nodeID, log, a, b)
        invariant BetweenEntries(ph, bp, s0, nodeID, log[|l1|..])
      {
        ghost var s2, l2, p2 := space.cells[..], log, proxies;
        res := BetweenPair(ph, bp, a, b, s0);
        if res.Fatal? {
          return;
        }
        ExtendsTrans(s1, l1, p1, s2, l2, p2, space.cells[..], log, proxies);
        BetweenCellDoneStep(ph, bp, s0, nodeID, l2, log, a, b);
        BetweenEntriesSince(ph, bp, s0, nodeID, l1, l2, log);
      }
    }

    /** engine_makeproxies_between_grids: every zoom cell against every background cell. */
    method BetweenGrids(ph: Physics, bp: BetweenPass, ghost s0: seq<Cell>) returns (res: Outcome)
      requires Consistent() && BetweenOk(bp, s0) && Alike(space.cells[..], s0)
      modifies this, proxyInd, space.cells
      ensures proxyInd == old(proxyInd) && Explains(res)
      ensures res.Done? ==>
        Consistent() && Since(old(space.cells[..]), old(log), old(proxies)) && Alike(space.cells[..], s0) &&
        BetweenDone(ph, bp, s0, nodeID, log, bp.l.offset) && BetweenEntries(ph, bp, s0, nodeID, log[|old(log)|..])
    {
      ghost var s1, l1, p1 := space.cells[..], log, proxies;
      ExtendsRefl(s1, l1, p1);
      res := Done;
      for a := 0 to bp.l.offset
        invariant proxyInd == old(proxyInd) && res == Done
        invariant Consistent() && Since(s1, l1, p1) && Alike(space.cells[..], s0)
        invariant BetweenDone(ph, bp, s0, nodeID, log, a)
        invariant BetweenEntries(ph, bp, s0, nodeID, log[|l1|..])
      {
        ghost var s2, l2, p2 := space.cells[..], log, proxies;
        res := BetweenCell(ph, bp, a, s0);
        if res.Fatal? {
          return;
        }
        ExtendsTrans(s1, l1, p1, s2, l2, p2, space.cells[..], log, proxies);
        BetweenDoneStep(ph, bp, s0, nodeID, l2, log, a);
        BetweenEntriesSince(ph, bp, s0, nodeID, l1, l2, log);
      }
    }

    /** The preparation of engine_makeproxies_with_zoom_region: proxy_ind all -1 and no proxy. */
    method ResetProxies()
      requires space.Valid() && 0 <= nodeID < nrNodes && 0 <= maxProxies
      requires proxyInd != null ==> proxyInd.Length == nrNodes
      requires forall x :: 0 <= x < space.cells.Length ==> 0 <= space.cells[x].nodeID < nrNodes
      modifies this, proxyInd
      ensures Valid() && nrProxies == 0 && proxies == [] && log == []
      ensures old(proxyInd) != null ==> proxyInd == old(proxyInd)
      ensures old(proxyInd) == null ==> fresh(proxyInd)
      ensures forall k :: 0 <= k < nrNodes ==> proxyInd[k] == -1
    {
      if proxyInd == null {
        proxyInd := new int[nrNodes];
      }
      forall k | 0 <= k < nrNodes {
        proxyInd[k] := -1;
      }
      nrProxies, proxies, log := 0, [], [];
    }

    /**
     * engine_makeproxies_with_zoom_region: allocate proxy_ind if needed,
     * forget every proxy, then run the zoom-cell, background-cell and
     * between-grids passes in that order. zoomRMax and bkgRMax are r_max of
     * the two grids, the square root of the squared cell diagonal.
     */
    method MakeProxiesWithZoomRegion(ph: Physics, zoomRMax: real, bkgRMax: real, dim: Vec3,
                                     sameSize: (CellBox, CellBox, bool, Vec3) -> real, nearest: (real, real) -> real)
      returns (res: Outcome, ghost zoomEnd: int, ghost naturalEnd: int)
      requires space.Valid() && 0 <= nodeID < nrNodes && 0 <= maxProxies
      requires proxyInd != null ==> proxyInd.Length == nrNodes
      requires forall x :: 0 <= x < space.cells.Length ==> 0 <= space.cells[x].nodeID < nrNodes
      requires BetweenOk(BetweenPass(space.layout, space.periodic, dim, nearest), space.cells[..])
      requires zoomRMax >= 0.0 && zoomRMax * zoomRMax == RMax2(space.cells[0].width)
      requires bkgRMax >= 0.0 && bkgRMax * bkgRMax == RMax2(space.cells[space.layout.offset].width)
      requires ph.withGravity ==>
        ph.theta > 0.0 && space.cells[0].dmin > 0.0 && space.cells[space.layout.offset].dmin > 0.0
      modifies this, proxyInd, space.cells
      ensures Explains(res)
      ensures res.Done? ==>
        var s0 := old(space.cells[..]);
        Valid() && OneProxyPerNode(proxies) && CellsSince(s0, [], space.cells[..], log) &&
        ProxiesMade(ph, ZoomPass(ph, space.layout, s0, zoomRMax, dim, sameSize),
                    NaturalPass(ph, space.layout, space.periodic, s0, bkgRMax, dim, sameSize),
                    BetweenPass(space.layout, space.periodic, dim, nearest), s0, nodeID, log, zoomEnd, naturalEnd)
    {
      ResetProxies();
      var zp := ZoomPass(ph, space.layout, space.cells[..], zoomRMax, dim, sameSize);
      var np := NaturalPass(ph, space.layout, space.periodic, space.cells[..], bkgRMax, dim, sameSize);
      var bp := BetweenPass(space.layout, space.periodic, dim, nearest);
      res, zoomEnd, naturalEnd := RunPasses(ph, zp, np, bp, space.cells[..]);
    }

    /** The three passes of engine_makeproxies_with_zoom_region, from an empty proxy table. */
    method RunPasses(ph: Physics, zp: GridPass, np: GridPass, bp: BetweenPass, ghost s0: seq<Cell>)
      returns (res: Outcome, ghost zoomEnd: int, ghost naturalEnd: int)
      requires Consistent() && log == [] && proxies == [] && space.cells[..] == s0
      requires PassOk(zp, |s0|) && PassOk(np, |s0|) && BetweenOk(bp, s0)
      modifies this, proxyInd, space.cells
      ensures proxyInd == old(proxyInd) && Explains(res)
      ensures res.Done? ==>
        Consistent() && OneProxyPerNode(proxies) && CellsSince(s0, [], space.cells[..], log) &&
        ProxiesMade(ph, zp, np, bp, s0, nodeID, log, zoomEnd, naturalEnd)
    {
      zoomEnd, naturalEnd := 0, 0;
      assert Alike(s0, s0);
      res := SameGridPass(ph, zp, s0);
      if res.Fatal? {
        return;
      }
      ghost var sz, lz, pz := space.cells[..], log, proxies;
      zoomEnd := |log|;

      res := SameGridPass(ph, np, s0);
      if res.Fatal? {
        return;
      }
      ghost var sn, ln, pn := space.cells[..], log, proxies;
      naturalEnd := |log|;

      res := BetweenGrids(ph, bp, s0);
      if res.Fatal? {
        return;
      }
      ExtendsTrans(s0, [], [], sz, lz, pz, sn, ln, pn);
      ExtendsTrans(s0, [], [], sn, ln, pn, space.cells[..], log, proxies);
      MadeFromPasses(ph, zp, np, bp, s0, nodeID, lz, ln, log);
    }
  }
}
