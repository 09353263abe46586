/** Tile groups of a pod as values: placement on the mesh, launch, completion, and what every run keeps.

libraries/bsg_manycore_cuda.cpp
*/
module TileGroups {
  import opened Bits
  import opened Wrappers
  import opened Geometry
  import M = MemoryManagement

  // -------------------- state --------------------

  datatype Status = Initialized | Allocated | Launched | Finished

  datatype Group = Group(
    id: Coord,
    grid: nat,
    gridDim: Coord,
    dim: Coord,
    origin: Coord,
    status: Status,
    kernel: Option<nat>,
    finishEpa: nat,
    argv: nat)

  // `known`: the program has a symbol of that name; `released`: how often the kernel was cleaned up
  datatype Kernel = Kernel(argc: nat, known: bool, refcount: nat, released: nat)

  datatype Tile = Tile(busy: bool, origin: Coord, groupId: Coord)

  datatype Mesh = Mesh(origin: Coord, dim: Coord, tiles: seq<Tile>)

  datatype PodState = PodState(
    mesh: Mesh,
    groups: seq<Group>,
    kernels: seq<Kernel>,
    grids: nat,
    heap: M.Heap)

  const FINISH_BASE: nat := 0xF000
  const FINISH_SIGNAL: nat := 0xFACE
  const NO_ADDRESS: nat := 0xffff_ffff

  predicate Active(g: Group) { g.status == Allocated || g.status == Launched }
  predicate AllFinished(p: PodState) { forall i :: 0 <= i < |p.groups| ==> p.groups[i].status == Finished }
  predicate Empty(dim: Coord) { dim.x == 0 || dim.y == 0 }

  // -------------------- tiles --------------------

  predicate InMesh(m: Mesh, c: Coord) { InRect(c, m.origin, m.dim) }

  predicate Shaped(m: Mesh) { m.dim.x >= 1 && m.dim.y >= 1 && |m.tiles| == Mul(m.dim.x, m.dim.y) }

  function TileId(m: Mesh, c: Coord): nat
    requires InMesh(m, c)
  {
    ToIndex(Coord(c.x - m.origin.x, c.y - m.origin.y), m.dim)
  }

  lemma {:induction false} TileIdBound(m: Mesh, c: Coord)
    requires Shaped(m) && InMesh(m, c)
    ensures TileId(m, c) < |m.tiles|
    ensures FromIndex(TileId(m, c), m.dim) == Coord(c.x - m.origin.x, c.y - m.origin.y)
  {
    IndexBijection(Coord(c.x - m.origin.x, c.y - m.origin.y), m.dim);
  }

  predicate IsTile(m: Mesh, c: Coord, t: Tile) {
    InMesh(m, c) && TileId(m, c) < |m.tiles| && m.tiles[TileId(m, c)] == t
  }

  predicate Busy(m: Mesh, c: Coord) {
    InMesh(m, c) && TileId(m, c) < |m.tiles| && m.tiles[TileId(m, c)].busy
  }

  // The mesh with the tiles of a rectangle replaced
  function Painted(m: Mesh, o: Coord, dim: Coord, t: Tile): Mesh
    requires Shaped(m)
  {
    m.(tiles := seq(|m.tiles|, k requires 0 <= k < |m.tiles| =>
      var rel := FromIndex(k, m.dim);
      if InRect(Coord(rel.x + m.origin.x, rel.y + m.origin.y), o, dim) then t else m.tiles[k]))
  }

  lemma {:induction false} PaintedTile(m: Mesh, o: Coord, dim: Coord, t: Tile, c: Coord, u: Tile)
    requires Shaped(m) && InMesh(m, c)
    ensures Shaped(Painted(m, o, dim, t))
    ensures IsTile(Painted(m, o, dim, t), c, u) <==> if InRect(c, o, dim) then u == t else IsTile(m, c, u)
    ensures Busy(Painted(m, o, dim, t), c) <==> if InRect(c, o, dim) then t.busy else Busy(m, c)
  {
    hide ToIndex, FromIndex;
    TileIdBound(m, c);
  }

  // -------------------- placement --------------------

  predicate Fits(m: Mesh, dim: Coord) { dim.x <= m.dim.x && dim.y <= m.dim.y }

  // The origins that the scan visits
  predicate CanStart(m: Mesh, dim: Coord, o: Coord) {
    Fits(m, dim) && InRect(o, m.origin, Coord(m.dim.x - dim.x + 1, m.dim.y - dim.y + 1))
  }

  ghost predicate AllFree(m: Mesh, dim: Coord, o: Coord) {
    forall c :: InRect(c, o, dim) ==> !Busy(m, c)
  }

  ghost predicate FreePlacement(m: Mesh, dim: Coord, o: Coord) { CanStart(m, dim, o) && AllFree(m, dim, o) }

  // The least free placement in scan order
  ghost predicate IsFirstFit(m: Mesh, dim: Coord, o: Coord) {
    FreePlacement(m, dim, o) && forall o' :: FreePlacement(m, dim, o') ==> !Before(o', o)
  }

  ghost function FirstFit(m: Mesh, dim: Coord): Option<Coord> {
    if exists o :: IsFirstFit(m, dim, o) then
      var o :| IsFirstFit(m, dim, o);
      Some(o)
    else None
  }

  lemma {:induction false} LeastPlacement(m: Mesh, dim: Coord, o: Coord)
    requires FreePlacement(m, dim, o)
    ensures exists o' :: IsFirstFit(m, dim, o')
    decreases o.x, o.y
  {
    hide FreePlacement;
    if IsFirstFit(m, dim, o) {
    } else {
      var o' :| FreePlacement(m, dim, o') && Before(o', o);
      LeastPlacement(m, dim, o');
    }
  }

  /** First fit finds a place exactly when some all-free placement of the shape exists, and then the least one in
  `(x, y)` order. */
  lemma {:induction false} FirstFitComplete(m: Mesh, dim: Coord)
    ensures FirstFit(m, dim).Some? <==> exists o :: FreePlacement(m, dim, o)
    ensures FirstFit(m, dim).Some? ==> IsFirstFit(m, dim, FirstFit(m, dim).value)
    ensures forall o :: IsFirstFit(m, dim, o) ==> FirstFit(m, dim) == Some(o)
  {
    hide FreePlacement;
    if o :| FreePlacement(m, dim, o) {
      LeastPlacement(m, dim, o);
    }
    forall o | IsFirstFit(m, dim, o)
      ensures FirstFit(m, dim) == Some(o)
    {
      assert FreePlacement(m, dim, o);
      var f := FirstFit(m, dim).value;
      assert IsFirstFit(m, dim, f);
      assert !Before(f, o) && !Before(o, f);
    }
  }

  /** The scan visits every place at which the rectangle lies inside the mesh, and no other, ... */
  lemma {:induction false} CanStartInside(m: Mesh, dim: Coord, o: Coord)
    ensures CanStart(m, dim, o) <==>
              && m.origin.x <= o.x && o.x + dim.x <= m.origin.x + m.dim.x
              && m.origin.y <= o.y && o.y + dim.y <= m.origin.y + m.dim.y
  {
  }

  /** ... and takes the first all-free one, column by column from the origin on. */
  lemma {:induction false} FirstFitIsFirst(m: Mesh, dim: Coord, o: Coord)
    requires m.origin.x <= o.x && o.x + dim.x <= m.origin.x + m.dim.x
    requires m.origin.y <= o.y && o.y + dim.y <= m.origin.y + m.dim.y
    requires forall c: Coord :: o.x <= c.x < o.x + dim.x && o.y <= c.y < o.y + dim.y ==> !Busy(m, c)
    ensures var r := FirstFit(m, dim);
            r.Some? && (r.value.x < o.x || (r.value.x == o.x && r.value.y <= o.y))
  {
    CanStartInside(m, dim, o);
    assert FreePlacement(m, dim, o) by {
      forall c | InRect(c, o, dim) ensures !Busy(m, c) {
      }
    }
    hide FreePlacement;
    FirstFitComplete(m, dim);
  }

  // -------------------- the operations --------------------

  predicate WellFormed(p: PodState) {
    && Shaped(p.mesh) && p.heap.alignment > 0
    && forall i :: 0 <= i < |p.groups| && p.groups[i].status != Finished ==>
         p.groups[i].kernel.Some? && p.groups[i].kernel.value < |p.kernels|
  }

  // Group `i` placed at `o`
  function Placed(p: PodState, i: nat, o: Coord): PodState
    requires WellFormed(p) && i < |p.groups|
  {
    var g := p.groups[i];
    p.(mesh := Painted(p.mesh, o, g.dim, Tile(true, o, g.id)),
       groups := p.groups[i := g.(origin := o, status := Allocated)])
  }

  // `hb_mc_device_pod_malloc`: the 64-bit result of the allocator is stored in 32 bits before it is compared with the
  // 64-bit null, so the call always succeeds.
  function PodMalloc(h: M.Heap, size: nat): (M.Heap, nat)
    requires h.alignment > 0
  {
    var (h', r) := M.Alloc(h, size);
    (h', Wrap(r))
  }

  function ArgvBytes(k: Kernel): nat { Wrap(4 * k.argc) }

  // A placed group gets its arguments and wakes its tiles. The copy of the arguments fails on an unaligned address.
  function WithLaunch(p: PodState, i: nat): (PodState, Option<Error>)
    requires WellFormed(p) && i < |p.groups| && p.groups[i].status == Allocated
  {
    var g := p.groups[i];
    var k := p.kernels[g.kernel.value];
    var (h, eva) := PodMalloc(p.heap, ArgvBytes(k));
    var p1 := p.(heap := h, groups := p.groups[i := g.(argv := eva)]);
    if ArgvBytes(k) > 0 && eva % 4 != 0 then (p1, Some(Unaligned))
    else if !k.known then (p1, Some(NotFound))
    else (p1.(groups := p.groups[i := g.(argv := eva, status := Launched)]), None)
  }

  datatype Outcome = Outcome(pod: PodState, lastFailed: Coord, error: Option<Error>)

  // One group of a launch pass; `skip` says whether the shape that failed last is remembered.
  ghost function Step(p: PodState, i: nat, lastFailed: Coord, skip: bool): (r: Outcome)
    requires WellFormed(p) && i < |p.groups|
    ensures WellFormed(r.pod) && |r.pod.groups| == |p.groups|
  {
    hide Painted, FirstFit, Shaped;
    var g := p.groups[i];
    if g.status != Initialized || (skip && lastFailed == g.dim) then Outcome(p, lastFailed, None)
    else
      match FirstFit(p.mesh, g.dim)
      case None => Outcome(p, g.dim, None)
      case Some(o) =>
        PlacedWellFormed(p, i, o);
        var (q, e) := WithLaunch(Placed(p, i, o), i);
        Outcome(q, lastFailed, e)
  }

  lemma {:induction false} PlacedWellFormed(p: PodState, i: nat, o: Coord)
    requires WellFormed(p) && i < |p.groups| && p.groups[i].status != Finished
    ensures WellFormed(Placed(p, i, o))
  {
  }

  // A launch pass from group `i` on
  ghost function Pass(p: PodState, i: nat, lastFailed: Coord, skip: bool): (r: (PodState, Option<Error>))
    requires WellFormed(p) && i <= |p.groups|
    ensures WellFormed(r.0) && |r.0.groups| == |p.groups|
    decreases |p.groups| - i
  {
    hide Step, WellFormed;
    if i == |p.groups| then (p, None)
    else
      var s := Step(p, i, lastFailed, skip);
      if s.error.Some? then (s.pod, s.error) else Pass(s.pod, i + 1, s.lastFailed, skip)
  }

  // `hb_mc_device_pod_try_launch_tile_groups`
  ghost function TryLaunch(p: PodState): (r: (PodState, Option<Error>))
    requires WellFormed(p)
    ensures WellFormed(r.0) && |r.0.groups| == |p.groups|
  {
    Pass(p, 0, Coord(0, 0), true)
  }

  // The packet of group `i`
  predicate Matches(g: Group, src: Coord, epa: nat) { g.status == Launched && g.origin == src && g.finishEpa == epa }

  // The first group that a finish packet matches, or the number of groups
  function FindGroup(groups: seq<Group>, src: Coord, epa: nat): (i: nat)
    ensures i <= |groups|
    ensures i < |groups| ==> Matches(groups[i], src, epa)
    ensures forall j :: 0 <= j < i ==> !Matches(groups[j], src, epa)
  {
    if groups == [] then 0 else if Matches(groups[0], src, epa) then 0 else 1 + FindGroup(groups[1..], src, epa)
  }

  // Dropping one reference; the last one cleans the kernel up.
  function Dropped(k: Kernel): Kernel
    requires k.refcount > 0
  {
    if k.refcount == 1 then k.(refcount := 0, argc := 0, released := k.released + 1)
    else k.(refcount := k.refcount - 1)
  }

  function Retired(m: Mesh, g: Group): Group {
    g.(id := Coord(0, 0), grid := 0, dim := Coord(0, 0), origin := m.origin, status := Finished, kernel := None)
  }

  // Group `i` is finished: its tiles, its arguments and its reference to the kernel are given back.
  function Completed(p: PodState, i: nat): PodState
    requires WellFormed(p) && i < |p.groups| && p.groups[i].status != Finished
    requires p.kernels[p.groups[i].kernel.value].refcount > 0
  {
    var g := p.groups[i];
    var k := g.kernel.value;
    p.(mesh := Painted(p.mesh, g.origin, g.dim, Tile(false, p.mesh.origin, Coord(0, 0))),
       heap := M.Free(p.heap, g.argv),
       groups := p.groups[i := Retired(p.mesh, g)],
       kernels := p.kernels[k := Dropped(p.kernels[k])])
  }

  function FinishEpa(id: Coord, gridDim: Coord): nat {
    Wrap(FINISH_BASE + 4 * (Mul(id.y, gridDim.x) + id.x))
  }

  function NewGroup(p: PodState, id: Coord, gridDim: Coord, dim: Coord): Group {
    Group(id, p.grids, gridDim, dim, p.mesh.origin, Initialized, Some(|p.kernels|), FinishEpa(id, gridDim), 0)
  }

  function GridId(k: nat, gridDim: Coord): Coord {
    if gridDim.y > 0 then FromIndex(k, gridDim) else Coord(0, 0)
  }

  // The groups of a grid, column by column
  function NewGroups(p: PodState, gridDim: Coord, dim: Coord): seq<Group> {
    seq(Mul(gridDim.x, gridDim.y), k requires k >= 0 => NewGroup(p, GridId(k, gridDim), gridDim, dim))
  }

  // `hb_mc_device_pod_kernel_enqueue`; grids are numbered in 8 bits.
  function Enqueued(p: PodState, gridDim: Coord, dim: Coord, argc: nat, known: bool): PodState {
    p.(groups := p.groups + NewGroups(p, gridDim, dim),
       kernels := p.kernels + [Kernel(argc, known, Mul(gridDim.x, gridDim.y), 0)],
       grids := (p.grids + 1) % 256)
  }

  // -------------------- invariant: tiles --------------------

  predicate Holds(groups: seq<Group>, i: int, c: Coord) {
    0 <= i < |groups| && Active(groups[i]) && InRect(c, groups[i].origin, groups[i].dim)
  }

  /** A tile is busy exactly when it lies in the rectangle of an allocated or launched group; the rectangles lie inside
  the mesh and no tile is in two of them. Each busy tile records the group that has it. */
  ghost predicate TileInv(m: Mesh, groups: seq<Group>) {
    && Shaped(m)
    && (forall i :: 0 <= i < |groups| && Active(groups[i]) ==> CanStart(m, groups[i].dim, groups[i].origin))
    && (forall i, c :: Holds(groups, i, c) ==> IsTile(m, c, Tile(true, groups[i].origin, groups[i].id)))
    && (forall c :: Busy(m, c) ==> exists i :: Holds(groups, i, c))
    && (forall i, j, c :: Holds(groups, i, c) && Holds(groups, j, c) ==> i == j)
  }

  lemma {:induction false} BusyIffHeld(m: Mesh, groups: seq<Group>, c: Coord)
    requires TileInv(m, groups)
    ensures Busy(m, c) <==> exists i :: Holds(groups, i, c)
    ensures forall i, j :: Holds(groups, i, c) && Holds(groups, j, c) ==> i == j
    ensures forall i :: Holds(groups, i, c) ==> InMesh(m, c)
  {
    hide TileId;
  }

  lemma {:induction false} PlacedKeepsTiles(m: Mesh, groups: seq<Group>, i: nat, o: Coord)
    requires TileInv(m, groups) && i < |groups| && groups[i].status == Initialized
    requires FreePlacement(m, groups[i].dim, o)
    ensures TileInv(Painted(m, o, groups[i].dim, Tile(true, o, groups[i].id)),
                    groups[i := groups[i].(origin := o, status := Allocated)])
  {
    hide Painted, TileId, IsTile, Busy;
    var g := groups[i];
    var t := Tile(true, o, g.id);
    var m', gs := Painted(m, o, g.dim, t), groups[i := g.(origin := o, status := Allocated)];
    PaintedMesh(m, o, g.dim, t);
    forall c ensures forall j :: Holds(groups, j, c) ==> !InRect(c, o, g.dim) {
      if InRect(c, o, g.dim) { assert !Busy(m, c); }
      HeldIsBusy(m, groups, c);
    }
    forall j, c ensures Holds(gs, j, c) <==> if j == i then InRect(c, o, g.dim) else Holds(groups, j, c) {
    }
    forall c | Busy(m', c)
      ensures exists j :: Holds(gs, j, c)
    {
      if InRect(c, o, g.dim) {
        assert Holds(gs, i, c);
      } else {
        var j :| Holds(groups, j, c);
        assert Holds(gs, j, c);
      }
    }
  }

  lemma {:induction false} PaintedMesh(m: Mesh, o: Coord, dim: Coord, t: Tile)
    requires Shaped(m)
    ensures var m' := Painted(m, o, dim, t);
            && Shaped(m') && m'.origin == m.origin && m'.dim == m.dim
            && (forall c, u :: IsTile(m', c, u) <==> if InMesh(m, c) && InRect(c, o, dim) then u == t else IsTile(m, c, u))
            && (forall c :: Busy(m', c) <==> if InMesh(m, c) && InRect(c, o, dim) then t.busy else Busy(m, c))
  {
    hide TileId;
    var m' := Painted(m, o, dim, t);
    forall c, u
      ensures IsTile(m', c, u) <==> if InMesh(m, c) && InRect(c, o, dim) then u == t else IsTile(m, c, u)
    {
      if InMesh(m, c) { PaintedTile(m, o, dim, t, c, u); }
    }
    forall c
      ensures Busy(m', c) <==> if InMesh(m, c) && InRect(c, o, dim) then t.busy else Busy(m, c)
    {
      if InMesh(m, c) { PaintedTile(m, o, dim, t, c, t); }
    }
  }

  lemma {:induction false} HeldIsBusy(m: Mesh, groups: seq<Group>, c: Coord)
    requires TileInv(m, groups)
    ensures forall j :: Holds(groups, j, c) ==> Busy(m, c)
  {
    hide TileId;
  }

  lemma {:induction false} CompletedKeepsTiles(m: Mesh, groups: seq<Group>, i: nat, g': Group)
    requires TileInv(m, groups) && i < |groups| && Active(groups[i]) && !Active(g')
    ensures TileInv(Painted(m, groups[i].origin, groups[i].dim, Tile(false, m.origin, Coord(0, 0))), groups[i := g'])
  {
    hide Painted, TileId, IsTile, Busy;
    var g := groups[i];
    var t := Tile(false, m.origin, Coord(0, 0));
    var m', gs := Painted(m, g.origin, g.dim, t), groups[i := g'];
    PaintedMesh(m, g.origin, g.dim, t);
    forall j, c ensures Holds(gs, j, c) <==> j != i && Holds(groups, j, c) {
    }
    forall c ensures InRect(c, g.origin, g.dim) <==> Holds(groups, i, c) {
    }
    forall c | Busy(m', c)
      ensures exists j :: Holds(gs, j, c)
    {
      assert Busy(m, c);
      var j :| Holds(groups, j, c);
      if j == i {
        HeldIsBusy(m, groups, c);
        InsideMesh(m, groups, c);
        assert false;
      }
      assert Holds(gs, j, c);
    }
  }

  lemma {:induction false} InsideMesh(m: Mesh, groups: seq<Group>, c: Coord)
    requires TileInv(m, groups)
    ensures forall j :: Holds(groups, j, c) ==> InMesh(m, c)
  {
    hide TileId;
  }

  // The invariant depends on the rectangles and names of the active groups only.
  lemma {:induction false} SameRectangles(m: Mesh, groups: seq<Group>, gs: seq<Group>)
    requires TileInv(m, groups) && |groups| <= |gs|
    requires forall i :: 0 <= i < |groups| ==>
               && (Active(gs[i]) <==> Active(groups[i]))
               && gs[i].origin == groups[i].origin && gs[i].dim == groups[i].dim && gs[i].id == groups[i].id
    requires forall i :: |groups| <= i < |gs| ==> !Active(gs[i])
    ensures TileInv(m, gs)
  {
    hide TileId, IsTile, Busy, Shaped;
    forall j, c ensures Holds(gs, j, c) <==> Holds(groups, j, c) {
    }
    forall c | Busy(m, c)
      ensures exists j :: Holds(gs, j, c)
    {
      var j :| Holds(groups, j, c);
      assert Holds(gs, j, c);
    }
  }

  // -------------------- invariant: kernels --------------------

  // What is counted: the groups of one kernel, or all unfinished groups
  datatype Kind = OfKernel(k: nat) | Unfinished

  predicate Counted(kind: Kind, g: Group) {
    match kind
    case OfKernel(k) => g.kernel == Some(k)
    case Unfinished => g.status != Finished
  }

  function Tally(kind: Kind, groups: seq<Group>): nat {
    if groups == [] then 0
    else (if Counted(kind, groups[|groups| - 1]) then 1 else 0) + Tally(kind, groups[..|groups| - 1])
  }

  /** A kernel counts its unfinished groups. It is cleaned up at most once, and not while one of them is left. */
  ghost predicate KernelInv(groups: seq<Group>, kernels: seq<Kernel>) {
    && (forall i :: 0 <= i < |groups| ==>
          && (groups[i].status == Finished <==> groups[i].kernel == None)
          && (groups[i].kernel.Some? ==> groups[i].kernel.value < |kernels|))
    && (forall k :: 0 <= k < |kernels| ==>
          && kernels[k].refcount == Tally(OfKernel(k), groups)
          && kernels[k].released <= 1 && (kernels[k].refcount > 0 ==> kernels[k].released == 0))
  }

  lemma {:induction false} TallyUpdate(kind: Kind, groups: seq<Group>, i: nat, g: Group)
    requires i < |groups|
    ensures Tally(kind, groups[i := g]) + (if Counted(kind, groups[i]) then 1 else 0)
            == Tally(kind, groups) + (if Counted(kind, g) then 1 else 0)
  {
    var n := |groups| - 1;
    if i < n {
      TallyUpdate(kind, groups[..n], i, g);
      assert groups[i := g][..n] == groups[..n][i := g];
    } else {
      assert groups[i := g][..n] == groups[..n];
    }
  }

  lemma {:induction false} TallyPositive(kind: Kind, groups: seq<Group>)
    ensures Tally(kind, groups) > 0 <==> exists i :: 0 <= i < |groups| && Counted(kind, groups[i])
    ensures Tally(kind, groups) <= |groups|
  {
    if groups == [] {
    } else {
      var n := |groups| - 1;
      TallyPositive(kind, groups[..n]);
      if i :| 0 <= i < |groups| && Counted(kind, groups[i]) {
        if i < n { assert Counted(kind, groups[..n][i]); }
      }
      if Tally(kind, groups) > 0 && !Counted(kind, groups[n]) {
        var i :| 0 <= i < n && Counted(kind, groups[..n][i]);
        assert Counted(kind, groups[i]);
      }
    }
  }

  lemma {:induction false} TallyAppend(kind: Kind, groups: seq<Group>, more: seq<Group>)
    ensures Tally(kind, groups + more) == Tally(kind, groups) + Tally(kind, more)
  {
    if more == [] {
      assert groups + more == groups;
    } else {
      var n := |more| - 1;
      TallyAppend(kind, groups, more[..n]);
      assert (groups + more)[..|groups| + n] == groups + more[..n];
    }
  }

  lemma {:induction false} TallyUniform(kind: Kind, groups: seq<Group>, yes: bool)
    requires forall i :: 0 <= i < |groups| ==> Counted(kind, groups[i]) == yes
    ensures Tally(kind, groups) == if yes then |groups| else 0
  {
    if groups == [] {
    } else {
      TallyUniform(kind, groups[..|groups| - 1], yes);
    }
  }

  lemma {:induction false} CompletedKeepsKernels(groups: seq<Group>, kernels: seq<Kernel>, i: nat, g': Group)
    requires KernelInv(groups, kernels) && i < |groups| && groups[i].status != Finished
    requires g'.status == Finished && g'.kernel == None
    ensures kernels[groups[i].kernel.value].refcount > 0
    ensures var k := groups[i].kernel.value;
            && KernelInv(groups[i := g'], kernels[k := Dropped(kernels[k])])
            && (kernels[k].refcount == 1 <==> Dropped(kernels[k]).released == 1)
    ensures Tally(Unfinished, groups[i := g']) == Tally(Unfinished, groups) - 1
  {
    hide Tally;
    var k0 := groups[i].kernel.value;
    TallyPositive(OfKernel(k0), groups);
    TallyUpdate(Unfinished, groups, i, g');
    forall k: nat | k < |kernels|
      ensures Tally(OfKernel(k), groups[i := g']) == Tally(OfKernel(k), groups) - if k == k0 then 1 else 0
    {
      TallyUpdate(OfKernel(k), groups, i, g');
    }
  }

  // Same kernels and statuses, up to launching
  lemma {:induction false} SameKernels(groups: seq<Group>, kernels: seq<Kernel>, i: nat, g: Group)
    requires KernelInv(groups, kernels) && i < |groups|
    requires g.kernel == groups[i].kernel && (g.status == Finished <==> groups[i].status == Finished)
    ensures KernelInv(groups[i := g], kernels)
    ensures Tally(Unfinished, groups[i := g]) == Tally(Unfinished, groups)
  {
    hide Tally;
    TallyUpdate(Unfinished, groups, i, g);
    forall k: nat | k < |kernels|
      ensures Tally(OfKernel(k), groups[i := g]) == Tally(OfKernel(k), groups)
    {
      TallyUpdate(OfKernel(k), groups, i, g);
    }
  }

  lemma {:induction false} EnqueuedKeepsKernels(groups: seq<Group>, kernels: seq<Kernel>, more: seq<Group>, k: Kernel)
    requires KernelInv(groups, kernels) && k.refcount == |more| && k.released == 0
    requires forall i :: 0 <= i < |more| ==> more[i].status == Initialized && more[i].kernel == Some(|kernels|)
    ensures KernelInv(groups + more, kernels + [k])
    ensures Tally(Unfinished, groups + more) == Tally(Unfinished, groups) + |more|
  {
    hide Tally;
    TallyAppend(Unfinished, groups, more);
    TallyUniform(Unfinished, more, true);
    forall j: nat | j <= |kernels|
      ensures Tally(OfKernel(j), groups + more)
              == if j < |kernels| then Tally(OfKernel(j), groups) else |more|
    {
      TallyAppend(OfKernel(j), groups, more);
      TallyUniform(OfKernel(j), more, j == |kernels|);
      if j == |kernels| { TallyUniform(OfKernel(j), groups, false); }
    }
  }

  // -------------------- when a launch succeeds --------------------

  // Where first fit finds room for a request, if anywhere: known before the call
  function NextStart(h: M.Heap, size: nat): Option<nat>
    requires h.alignment > 0
  {
    var i := M.FirstFit(h.free, M.Padded(size, h.alignment));
    if i == |h.free| then None else Some(h.free[i].start)
  }

  // Arguments of `n` bytes can be copied: there are none, or there is an aligned block for them.
  predicate HasRoom(h: M.Heap, n: nat)
    requires h.alignment > 0
  {
    n == 0 || (NextStart(h, n).Some? && NextStart(h, n).value % 4 == 0)
  }

  // -------------------- one step --------------------

  // What every operation keeps, whatever the allocator does
  ghost predicate Inv(p: PodState) {
    && TileInv(p.mesh, p.groups)
    && KernelInv(p.groups, p.kernels)
    && p.heap.alignment > 0
  }

  lemma {:induction false} InvWellFormed(p: PodState)
    requires Inv(p)
    ensures WellFormed(p)
  {
    hide TileId, Tally, Mul;
  }

  // What launching does to a pod: groups at most become active, tiles at most become busy.
  ghost predicate Advanced(p: PodState, q: PodState) {
    && |q.groups| == |p.groups| && q.kernels == p.kernels && q.grids == p.grids
    && q.mesh.origin == p.mesh.origin && q.mesh.dim == p.mesh.dim
    && (forall j :: 0 <= j < |p.groups| ==>
          || q.groups[j] == p.groups[j]
          || (p.groups[j].status == Initialized && Active(q.groups[j]) && q.groups[j].dim == p.groups[j].dim
              && q.groups[j].id == p.groups[j].id && q.groups[j].gridDim == p.groups[j].gridDim
              && q.groups[j].kernel == p.groups[j].kernel && q.groups[j].finishEpa == p.groups[j].finishEpa))
    && (forall c :: Busy(p.mesh, c) ==> Busy(q.mesh, c))
    && p.heap.busy <= q.heap.busy
    && Tally(Unfinished, q.groups) == Tally(Unfinished, p.groups)
  }

  lemma {:induction false} AdvancedRefl(p: PodState)
    ensures Advanced(p, p)
  {
  }

  lemma {:induction false} AdvancedTransitive(p: PodState, q: PodState, r: PodState)
    requires Advanced(p, q) && Advanced(q, r)
    ensures Advanced(p, r)
  {
    hide Busy, Tally;
  }

  /** Placing and launching group `i` at a free placement: it asks for four bytes for each argument, and succeeds if and
  only if there is room for them and the program knows its kernel. */
  lemma {:induction false} LaunchStep(p: PodState, i: nat, o: Coord)
    requires Inv(p) && WellFormed(p) && i < |p.groups| && p.groups[i].status == Initialized
    requires FreePlacement(p.mesh, p.groups[i].dim, o)
    ensures WellFormed(Placed(p, i, o))
    ensures var (q, e) := WithLaunch(Placed(p, i, o), i);
            var k := p.kernels[p.groups[i].kernel.value];
            var n := (4 * k.argc) % 0x1_0000_0000;
            && Inv(q) && Advanced(p, q)
            && (forall j :: 0 <= j < |p.groups| && j != i ==> q.groups[j] == p.groups[j])
            && q.groups[i].origin == o && q.groups[i].status == (if e.None? then Launched else Allocated)
            && (e.None? <==> HasRoom(p.heap, n) && k.known)
            && (e == Some(Unaligned) <==> !HasRoom(p.heap, n))
            && (q.heap, q.groups[i].argv) == PodMalloc(p.heap, n)
  {
    hide TileInv, KernelInv, FreePlacement, Painted, PodMalloc, NextStart, Tally, Busy, Shaped;
    PlacedWellFormed(p, i, o);
    var g := p.groups[i];
    var k := p.kernels[g.kernel.value];
    var (q, e) := WithLaunch(Placed(p, i, o), i);
    var placed := p.groups[i := g.(origin := o, status := Allocated)];
    var t := Tile(true, o, g.id);
    PlacedKeepsTiles(p.mesh, p.groups, i, o);
    SameRectangles(q.mesh, placed, q.groups);
    SameKernels(p.groups, p.kernels, i, q.groups[i]);
    assert q.groups == p.groups[i := q.groups[i]];
    AllocGrows(p.heap, ArgvBytes(k));
    PodMallocAligned(p.heap, ArgvBytes(k));
    PaintedBusier(p.mesh, o, g.dim, t);
  }

  lemma {:induction false} AllocGrows(h: M.Heap, size: nat)
    requires h.alignment > 0
    ensures var h' := PodMalloc(h, size).0;
            && h.busy <= h'.busy
            && h'.start == h.start && h'.size == h.size && h'.alignment == h.alignment
  {
    hide M.Padded, M.Carve;
  }

  lemma {:induction false} PaintedBusier(m: Mesh, o: Coord, dim: Coord, t: Tile)
    requires Shaped(m) && t.busy
    ensures var m' := Painted(m, o, dim, t);
            m'.origin == m.origin && m'.dim == m.dim && forall c :: Busy(m, c) ==> Busy(m', c)
  {
    hide Painted, TileId;
    PaintedMesh(m, o, dim, t);
  }

  // An address of the allocator, or the one that stands for none, as the copy of the arguments sees it
  lemma {:induction false} PodMallocAligned(h: M.Heap, size: nat)
    requires h.alignment > 0
    ensures PodMalloc(h, size).1 % 4 == 0 <==> NextStart(h, size).Some? && NextStart(h, size).value % 4 == 0
  {
    WrapModFour(M.Alloc(h, size).1);
    WrapModFour(M.NULL);
    hide M.Padded, M.Carve, Wrap;
  }

  lemma {:induction false} WrapModFour(a: nat)
    ensures Wrap(a) % 4 == a % 4
  {
  }

  /** A step of a launch pass keeps the invariants and only advances the pod. */
  lemma {:induction false} StepKeeps(p: PodState, i: nat, lastFailed: Coord, skip: bool)
    requires Inv(p) && WellFormed(p) && i < |p.groups|
    ensures var s := Step(p, i, lastFailed, skip);
            && Inv(s.pod) && Advanced(p, s.pod)
            && (forall j :: 0 <= j < |p.groups| && j != i ==> s.pod.groups[j] == p.groups[j])
  {
    hide Inv, FirstFit, FreePlacement, WithLaunch, Advanced, WellFormed;
    AdvancedRefl(p);
    var g := p.groups[i];
    FirstFitComplete(p.mesh, g.dim);
    if g.status == Initialized && !(skip && lastFailed == g.dim) && FirstFit(p.mesh, g.dim).Some? {
      LaunchStep(p, i, FirstFit(p.mesh, g.dim).value);
    }
  }

  /** A launch pass keeps the invariants and only advances the pod. */
  lemma {:induction false} PassKeeps(p: PodState, i: nat, lastFailed: Coord, skip: bool)
    requires Inv(p) && WellFormed(p) && i <= |p.groups|
    ensures var (q, e) := Pass(p, i, lastFailed, skip);
            Inv(q) && Advanced(p, q) && forall j :: 0 <= j < i ==> q.groups[j] == p.groups[j]
    decreases |p.groups| - i
  {
    hide Inv, Step, Advanced, WellFormed;
    AdvancedRefl(p);
    if i == |p.groups| {
    } else {
      var s := Step(p, i, lastFailed, skip);
      StepKeeps(p, i, lastFailed, skip);
      if s.error.None? {
        PassKeeps(s.pod, i + 1, s.lastFailed, skip);
        AdvancedTransitive(p, s.pod, Pass(s.pod, i + 1, s.lastFailed, skip).0);
      }
    }
  }

  /** A completion gives back exactly the tiles and the kernel reference of its group, cleans the kernel up if it was the
  last reference, and leaves one unfinished group less. */
  lemma {:induction false} CompletedKeeps(p: PodState, i: nat)
    requires Inv(p) && i < |p.groups| && Active(p.groups[i])
    ensures WellFormed(p) && p.kernels[p.groups[i].kernel.value].refcount > 0
    ensures var q, g := Completed(p, i), p.groups[i];
            && Inv(q)
            && (forall c :: Busy(q.mesh, c) <==> Busy(p.mesh, c) && !InRect(c, g.origin, g.dim))
            && Tally(Unfinished, q.groups) == Tally(Unfinished, p.groups) - 1
  {
    InvWellFormed(p);
    FreeKeepsFrame(p.heap, p.groups[i].argv);
    hide TileInv, KernelInv, Painted, Tally, Shaped, M.Free, Dropped, Busy;
    var g := p.groups[i];
    CompletedKeepsKernels(p.groups, p.kernels, i, Retired(p.mesh, g));
    var q := Completed(p, i);
    CompletedKeepsTiles(p.mesh, p.groups, i, q.groups[i]);
    PaintedFree(p.mesh, g.origin, g.dim, Tile(false, p.mesh.origin, Coord(0, 0)));
  }

  lemma {:induction false} FreeKeepsFrame(h: M.Heap, buf: nat)
    ensures var h' := M.Free(h, buf); h'.start == h.start && h'.size == h.size && h'.alignment == h.alignment
  {
  }

  lemma {:induction false} PaintedFree(m: Mesh, o: Coord, dim: Coord, t: Tile)
    requires Shaped(m) && !t.busy
    ensures forall c :: Busy(Painted(m, o, dim, t), c) <==> Busy(m, c) && !InRect(c, o, dim)
  {
    hide Painted, TileId;
    PaintedMesh(m, o, dim, t);
    forall c ensures Busy(m, c) ==> InMesh(m, c) {
    }
  }

  lemma {:induction false} EnqueuedKeeps(p: PodState, gridDim: Coord, dim: Coord, argc: nat, known: bool)
    requires Inv(p)
    ensures var q := Enqueued(p, gridDim, dim, argc, known);
            && Inv(q) && q.mesh == p.mesh
            && Tally(Unfinished, q.groups) == Tally(Unfinished, p.groups) + Mul(gridDim.x, gridDim.y)
  {
    hide TileInv, KernelInv, Tally, Mul, FinishEpa;
    var more := NewGroups(p, gridDim, dim);
    var k := Kernel(argc, known, Mul(gridDim.x, gridDim.y), 0);
    NewGroupsFresh(p, gridDim, dim);
    SameRectangles(p.mesh, p.groups, p.groups + more);
    EnqueuedKeepsKernels(p.groups, p.kernels, more, k);
  }

  lemma {:induction false} NewGroupsFresh(p: PodState, gridDim: Coord, dim: Coord)
    ensures var more := NewGroups(p, gridDim, dim);
            && |more| == Mul(gridDim.x, gridDim.y)
            && forall i :: 0 <= i < |more| ==>
                 more[i].status == Initialized && more[i].kernel == Some(|p.kernels|) && more[i].dim == dim
  {
    hide FinishEpa;
  }

  /** Every coordinate of a grid is the id of exactly one of its groups. */
  lemma {:induction false} EveryCoordinateOnce(p: PodState, gridDim: Coord, dim: Coord, id: Coord)
    requires InRect(id, Coord(0, 0), gridDim)
    ensures var more := NewGroups(p, gridDim, dim);
            && |more| == Mul(gridDim.x, gridDim.y)
            && (exists k :: 0 <= k < |more| && more[k].id == id)
            && (forall j, k :: 0 <= j < k < |more| ==> more[j].id != more[k].id)
  {
    hide FinishEpa, ToIndex, FromIndex, Mul;
    var more := NewGroups(p, gridDim, dim);
    IndexBijection(id, gridDim);
    assert more[ToIndex(id, gridDim)].id == id;
    forall j, k | 0 <= j < k < |more|
      ensures more[j].id != more[k].id
    {
      IndexBijectionBack(j, gridDim);
      IndexBijectionBack(k, gridDim);
    }
  }

  /** The groups of a grid have distinct finish addresses, as long as these do not wrap. */
  lemma {:induction false} FinishEpasDiffer(gridDim: Coord, i: Coord, j: Coord)
    requires InRect(i, Coord(0, 0), gridDim) && InRect(j, Coord(0, 0), gridDim) && i != j
    requires FINISH_BASE + 4 * Mul(gridDim.y, gridDim.x) <= WORD32
    ensures FinishEpa(i, gridDim) != FinishEpa(j, gridDim)
  {
    hide Mul, Div, Mod;
    DivModOf(i.y, gridDim.x, i.x);
    DivModOf(j.y, gridDim.x, j.x);
    MulMonotone(i.y, gridDim.y, gridDim.x);
    MulMonotone(j.y, gridDim.y, gridDim.x);
  }

  /** The finish address of a group: four bytes for each group of its grid, counted row by row. */
  lemma {:induction false} FinishEpaValue(id: Coord, gridDim: Coord)
    ensures FinishEpa(id, gridDim) == (0xF000 + 4 * (id.y * gridDim.x + id.x)) % 0x1_0000_0000
  {
    MulIsTimes(id.y, gridDim.x);
  }

  /** Enqueuing a grid leaves every group and kernel as it was and appends the groups column by column, waiting, with the
  kernel they all share. */
  lemma {:induction false} EnqueuedGroup(p: PodState, gridDim: Coord, dim: Coord, argc: nat, known: bool, id: Coord)
    requires id.x < gridDim.x && id.y < gridDim.y
    ensures var q := Enqueued(p, gridDim, dim, argc, known);
            && |q.groups| == |p.groups| + gridDim.x * gridDim.y && p.groups <= q.groups
            && q.kernels == p.kernels + [Kernel(argc, known, gridDim.x * gridDim.y, 0)]
            && q.grids == (p.grids + 1) % 256 && q.mesh == p.mesh && q.heap == p.heap
    ensures var q, i := Enqueued(p, gridDim, dim, argc, known), |p.groups| + (id.x * gridDim.y + id.y);
            i < |q.groups| &&
            q.groups[i] == Group(id, p.grids, gridDim, dim, p.mesh.origin, Initialized, Some(|p.kernels|),
                                 (0xF000 + 4 * (id.y * gridDim.x + id.x)) % 0x1_0000_0000, 0)
  {
    hide ToIndex, FromIndex, Mul, FinishEpa;
    IndexBijection(id, gridDim);
    IndexValue(id, gridDim);
    MulIsTimes(gridDim.x, gridDim.y);
    FinishEpaValue(id, gridDim);
    var k := ToIndex(id, gridDim);
    assert GridId(k, gridDim) == id;
    assert NewGroups(p, gridDim, dim)[k] == NewGroup(p, id, gridDim, dim);
  }
}
