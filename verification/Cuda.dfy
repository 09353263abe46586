/** The CUDA-Lite runtime: pods that place, launch and retire tile groups, and the execution loops of a device.

libraries/bsg_manycore_cuda.cpp
*/
module Cuda {
  import opened Bits
  import opened Wrappers
  import opened Geometry
  import opened TileGroups
  import opened GroupRuns
  import opened DeviceRuns
  import M = MemoryManagement

  // -------------------- scanning a rectangle of tiles --------------------

  // `m` is `m0` with the tiles of the rectangle before `now` in scan order replaced.
  ghost predicate PaintedTo(m0: Mesh, m: Mesh, o: Coord, dim: Coord, t: Tile, now: Coord) {
    && m.origin == m0.origin && m.dim == m0.dim && |m.tiles| == |m0.tiles|
    && forall c, u :: IsTile(m, c, u) <==>
         if InMesh(m0, c) && InRect(c, o, dim) && Before(c, now) then u == t else IsTile(m0, c, u)
  }

  lemma {:induction false} PaintStart(m: Mesh, o: Coord, dim: Coord, t: Tile)
    ensures PaintedTo(m, m, o, dim, t, o)
  {
    hide TileId;
    ScanStart(o, dim);
  }

  lemma {:induction false} PaintStep(m0: Mesh, m1: Mesh, o: Coord, dim: Coord, t: Tile, now: Coord)
    requires Shaped(m0) && InRect(now, o, dim) && InMesh(m0, now) && PaintedTo(m0, m1, o, dim, t, now)
    ensures Shaped(m1) && InMesh(m1, now) && TileId(m1, now) < |m1.tiles|
    ensures PaintedTo(m0, m1.(tiles := m1.tiles[TileId(m1, now) := t]), o, dim, t, Next(now, o, dim))
  {
    hide ToIndex, FromIndex, Next, Mul;
    ScanStep(now, o, dim);
    TileIdBound(m1, now);
    var m2 := m1.(tiles := m1.tiles[TileId(m1, now) := t]);
    forall c, u
      ensures IsTile(m2, c, u) <==> if c == now then u == t else IsTile(m1, c, u)
    {
      if InMesh(m1, c) { TileIdBound(m1, c); }
    }
  }

  lemma {:induction false} PaintEnd(m0: Mesh, m: Mesh, o: Coord, dim: Coord, t: Tile, now: Coord)
    requires Shaped(m0) && PaintedTo(m0, m, o, dim, t, now)
    requires ScanAt(now, o, dim) && Stop(now, o, dim)
    ensures m == Painted(m0, o, dim, t)
  {
    hide ToIndex, FromIndex, Mul;
    var p := Painted(m0, o, dim, t);
    forall k | 0 <= k < |m0.tiles|
      ensures m.tiles[k] == p.tiles[k]
    {
      IndexBijectionBack(k, m0.dim);
      var rel := FromIndex(k, m0.dim);
      var c := Coord(rel.x + m0.origin.x, rel.y + m0.origin.y);
      assert InMesh(m0, c) && TileId(m0, c) == k && TileId(m, c) == k;
      assert IsTile(m, c, m.tiles[k]) && IsTile(m0, c, m0.tiles[k]);
    }
  }

  // -------------------- a pod --------------------

  class Pod {
    const origin: Coord
    const dim: Coord
    const tiles: array<Tile>
    var groups: seq<Group>
    var capacity: nat
    var kernels: seq<Kernel>
    var grids: nat
    const heap: M.MemoryManager

    ghost function Footprint(): set<object> { {this, tiles, heap} }

    ghost function Grid(): Mesh
      reads tiles
    {
      Mesh(origin, dim, tiles[..])
    }

    ghost function State(): PodState
      reads this, tiles, heap
    {
      PodState(Grid(), groups, kernels, grids, heap.State())
    }

    // The queue has room for its groups.
    ghost predicate Valid()
      reads this, tiles, heap
    {
      Inv(State()) && |groups| <= capacity && capacity >= 1
    }

    /** A pod without groups, all of whose tiles are free */
    constructor (origin: Coord, dim: Coord, start: nat, size: nat, alignment: nat)
      requires dim.x >= 1 && dim.y >= 1
      requires alignment > 0 && Mod(start, alignment) == 0
      ensures Valid() && IsNew(State()) && fresh(Footprint())
      ensures this.origin == origin && this.dim == dim && State().heap == M.Fresh(start, size, alignment)
    {
      this.origin, this.dim := origin, dim;
      groups, capacity, kernels, grids := [], 1, [], 0;
      tiles := new Tile[Mul(dim.x, dim.y)](_ => Tile(false, origin, Coord(WORD32 - 1, WORD32 - 1)));
      heap := new M.MemoryManager(size, start, alignment);
      new;
      assert IsNew(State());
    }

    // Whether all tiles of a rectangle are free
    method TilesFree(o: Coord, shape: Coord) returns (free: bool)
      requires Shaped(Grid()) && CanStart(Grid(), shape, o)
      ensures free <==> AllFree(Grid(), shape, o)
    {
      hide ToIndex, Next, Mul;
      ScanStart(o, shape);
      free := true;
      var xy := o;
      while !Stop(xy, o, shape)
        invariant ScanAt(xy, o, shape)
        invariant forall c :: InRect(c, o, shape) && Before(c, xy) ==> !Busy(Grid(), c)
        decreases o.x + shape.x - xy.x, o.y + shape.y - xy.y
      {
        TileIdBound(Grid(), xy);
        var id := ToIndex(Coord(xy.x - origin.x, xy.y - origin.y), dim);
        if tiles[id].busy {
          assert Busy(Grid(), xy);
          return false;
        }
        ScanStep(xy, o, shape);
        NextDecreases(xy, o, shape);
        xy := Next(xy, o, shape);
      }
    }

    method PaintTiles(o: Coord, shape: Coord, t: Tile)
      requires Shaped(Grid()) && CanStart(Grid(), shape, o)
      modifies tiles
      ensures Grid() == Painted(old(Grid()), o, shape, t)
    {
      hide ToIndex, FromIndex, Next, Mul, PaintedTo, Shaped, TileId;
      ScanStart(o, shape);
      PaintStart(Grid(), o, shape, t);
      var xy := o;
      while !Stop(xy, o, shape)
        invariant ScanAt(xy, o, shape)
        invariant PaintedTo(old(Grid()), Grid(), o, shape, t, xy)
        decreases o.x + shape.x - xy.x, o.y + shape.y - xy.y
      {
        ghost var before := Grid();
        PaintStep(old(Grid()), before, o, shape, t, xy);
        var id := TileIndex(xy);
        tiles[id] := t;
        assert Grid() == before.(tiles := before.tiles[id := t]);
        ScanStep(xy, o, shape);
        NextDecreases(xy, o, shape);
        xy := Next(xy, o, shape);
      }
      PaintEnd(old(Grid()), Grid(), o, shape, t, xy);
    }

    // `hb_mc_get_tile_id`
    function TileIndex(c: Coord): (id: nat)
      requires InRect(c, origin, dim)
      reads tiles
      ensures id == TileId(Grid(), c)
    {
      ToIndex(Coord(c.x - origin.x, c.y - origin.y), dim)
    }

    /** `hb_mc_device_pod_tile_group_allocate_tiles`: group `i` gets the least free placement if there is one, and
    nothing changes otherwise. */
    method AllocateTiles(i: nat) returns (ok: bool)
      requires WellFormed(State()) && i < |groups|
      modifies this`groups, tiles
      ensures ok <==> FirstFit(old(Grid()), old(groups)[i].dim).Some?
      ensures ok ==> State() == Placed(old(State()), i, FirstFit(old(Grid()), old(groups)[i].dim).value)
      ensures !ok ==> State() == old(State())
    {
      hide ToIndex, FromIndex, Next, Mul, Painted, FirstFit, AllFree, Shaped, TileId, Busy;
      var g := groups[i];
      FirstFitComplete(Grid(), g.dim);
      if dim.x < g.dim.x || dim.y < g.dim.y {
        return false;
      }
      var boundary := Coord(dim.x - g.dim.x + 1, dim.y - g.dim.y + 1);
      ok := false;
      var o := origin;
      ScanStart(origin, boundary);
      while !Stop(o, origin, boundary)
        invariant ScanAt(o, origin, boundary)
        invariant !ok && forall c :: InRect(c, origin, boundary) && Before(c, o) ==> !AllFree(Grid(), g.dim, c)
        invariant State() == old(State()) && groups == old(groups)
        decreases origin.x + boundary.x - o.x, origin.y + boundary.y - o.y
      {
        ok := TilesFree(o, g.dim);
        if ok {
          assert IsFirstFit(Grid(), g.dim, o);
          PaintTiles(o, g.dim, Tile(true, o, g.id));
          groups := groups[i := g.(origin := o, status := Allocated)];
          return;
        }
        ScanStep(o, origin, boundary);
        NextDecreases(o, origin, boundary);
        o := Next(o, origin, boundary);
      }
    }

    /** `hb_mc_device_pod_tile_group_launch` */
    method LaunchGroup(i: nat) returns (e: Option<Error>)
      requires WellFormed(State()) && i < |groups| && groups[i].status == Allocated
      modifies this`groups, heap
      ensures (State(), e) == WithLaunch(old(State()), i)
    {
      hide Shaped, M.Alloc;
      var k := kernels[groups[i].kernel.value];
      var bytes := Wrap(4 * k.argc);
      var address := heap.Allocate(bytes);
      var eva := Wrap(address);
      groups := groups[i := groups[i].(argv := eva)];
      if bytes > 0 && eva % 4 != 0 {
        return Some(Unaligned);
      }
      if !k.known {
        return Some(NotFound);
      }
      groups := groups[i := groups[i].(status := Launched)];
      assert groups == old(groups)[i := old(groups)[i].(argv := eva, status := Launched)];
      return None;
    }

    /** `hb_mc_device_pod_try_launch_tile_groups` */
    method TryLaunchGroups() returns (e: Option<Error>)
      requires Valid()
      modifies this`groups, tiles, heap
      ensures Valid() && old(WellFormed(State()))
      ensures (State(), e) == TryLaunch(old(State()))
    {
      hide WellFormed, Placed, WithLaunch, FirstFit, Inv, Shaped;
      InvWellFormed(State());
      TryLaunchKeeps(State());
      var lastFailed := Coord(0, 0);
      var i := 0;
      while i < |groups|
        invariant 0 <= i <= |groups| && WellFormed(State())
        invariant Pass(State(), i, lastFailed, true) == TryLaunch(old(State()))
        decreases |groups| - i
      {
        ghost var p, last := State(), lastFailed;
        if groups[i].status == Initialized && lastFailed != groups[i].dim {
          var ok := AllocateTiles(i);
          if !ok {
            lastFailed := groups[i].dim;
          } else {
            LaunchIsReady(p, i, FirstFit(p.mesh, p.groups[i].dim).value);
            e := LaunchGroup(i);
            if e.Some? {
              return;
            }
          }
        }
        assert Step(p, i, last, true).pod == State();
        i := i + 1;
      }
      return None;
    }

    /** A finished group gives back its tiles (`hb_mc_device_pod_tile_group_deallocate_tiles`), then its arguments and
    its kernel (`hb_mc_device_pod_tile_group_exit`). */
    method CompleteGroup(i: nat)
      requires Valid() && i < |groups| && Active(groups[i])
      modifies this, tiles, heap
      ensures Valid() && old(WellFormed(State()) && kernels[groups[i].kernel.value].refcount > 0)
      ensures State() == Completed(old(State()), i)
    {
      hide Painted, M.Free, Mul, Inv;
      var g := groups[i];
      CompletedKeeps(State(), i);
      ActiveCanStart(State(), i);
      PaintTiles(g.origin, g.dim, Tile(false, origin, Coord(0, 0)));
      heap.Release(g.argv);
      groups := groups[i := g.(id := Coord(0, 0), grid := 0, dim := Coord(0, 0), origin := origin, status := Finished)];
      var k := g.kernel.value;
      kernels := kernels[k := kernels[k].(refcount := kernels[k].refcount - 1)];
      if kernels[k].refcount == 0 {
        kernels := kernels[k := kernels[k].(argc := 0, released := kernels[k].released + 1)];
      }
      groups := groups[i := groups[i].(kernel := None)];
      assert kernels == old(kernels)[k := Dropped(old(kernels)[k])];
      assert groups == old(groups)[i := Retired(Grid(), g)];
    }

    /** `hb_mc_device_pod_kernel_enqueue`: one group per coordinate of the grid, column by column. The queue doubles
    when it is full, so there is room for every group. */
    method EnqueueKernel(gridDim: Coord, shape: Coord, argc: nat, known: bool)
      requires Valid()
      modifies this
      ensures Valid() && State() == Enqueued(old(State()), gridDim, shape, argc, known)
    {
      hide ToIndex, FromIndex, Next, Mul, NewGroups, Inv, Tally, GridAt;
      ghost var p := State();
      assert Inv(Enqueued(p, gridDim, shape, argc, known)) by { EnqueuedKeeps(p, gridDim, shape, argc, known); }
      NewGroupsFresh(p, gridDim, shape);
      var k := |kernels|;
      kernels := kernels + [Kernel(argc, known, 0, 0)];
      var id := Coord(0, 0);
      ghost var n := 0;
      GridStart(gridDim);
      while !Stop(id, Coord(0, 0), gridDim)
        invariant n <= Mul(gridDim.x, gridDim.y) && GridAt(id, gridDim, n)
        invariant groups == p.groups + NewGroups(p, gridDim, shape)[..n]
        invariant kernels == p.kernels + [Kernel(argc, known, n, 0)]
        invariant |groups| <= capacity && capacity >= 1 && grids == p.grids
        invariant heap.State() == p.heap && Grid() == p.mesh
        decreases Mul(gridDim.x, gridDim.y) - n
      {
        GridStep(id, gridDim, n);
        if capacity == |groups| {
          capacity := capacity * 2;
        }
        var epa := Wrap(FINISH_BASE + 4 * (Mul(id.y, gridDim.x) + id.x));
        groups := groups + [Group(id, grids, gridDim, shape, origin, Initialized, Some(k), epa, 0)];
        kernels := kernels[k := kernels[k].(refcount := kernels[k].refcount + 1)];
        assert groups[|groups| - 1] == NewGroup(p, id, gridDim, shape);
        NewGroupsGrow(p, gridDim, shape, n);
        id := Next(id, Coord(0, 0), gridDim);
        n := n + 1;
      }
      GridEnd(id, gridDim, n);
      assert NewGroups(p, gridDim, shape)[..n] == NewGroups(p, gridDim, shape);
      grids := (grids + 1) % 256;
    }

    // The group that a finish packet from `src` is for
    method FindSender(src: Coord, epa: nat) returns (i: nat)
      ensures i == FindGroup(groups, src, epa)
    {
      i := 0;
      while i < |groups| && !Matches(groups[i], src, epa)
        invariant 0 <= i <= |groups|
        invariant forall j :: 0 <= j < i ==> !Matches(groups[j], src, epa)
      {
        i := i + 1;
      }
      FindGroupIs(groups, src, epa, i);
    }

    method AllGroupsFinished() returns (r: bool)
      ensures r <==> AllFinished(State())
    {
      for i := 0 to |groups|
        invariant forall j :: 0 <= j < i ==> groups[j].status == Finished
      {
        if groups[i].status != Finished {
          return false;
        }
      }
      return true;
    }
  }

  lemma {:induction false} LaunchIsReady(p: PodState, i: nat, o: Coord)
    requires WellFormed(p) && i < |p.groups| && p.groups[i].status == Initialized
    ensures var q := Placed(p, i, o);
            WellFormed(q) && |q.groups| == |p.groups| && q.groups[i].status == Allocated
  {
    hide Painted;
    PlacedWellFormed(p, i, o);
  }

  lemma {:induction false} NextDecreases(now: Coord, o: Coord, dim: Coord)
    requires InRect(now, o, dim)
    ensures var n := Next(now, o, dim);
            o.x <= n.x && o.y <= n.y && (n.x > now.x || (n.x == now.x && n.y > now.y))
  {
  }

  // The scan of a grid stands at coordinate number `n`, or is behind the last one.
  ghost predicate GridAt(id: Coord, dim: Coord, n: nat) {
    || (InRect(id, Coord(0, 0), dim) && ToIndex(id, dim) == n)
    || (Stop(id, Coord(0, 0), dim) && n == Mul(dim.x, dim.y))
  }

  lemma {:induction false} GridStart(dim: Coord)
    ensures GridAt(Coord(0, 0), dim, 0)
  {
    MulIsTimes(dim.x, dim.y);
  }

  lemma {:induction false} GridStep(id: Coord, dim: Coord, n: nat)
    requires GridAt(id, dim, n) && !Stop(id, Coord(0, 0), dim)
    ensures n < Mul(dim.x, dim.y) && id == GridId(n, dim)
    ensures GridAt(Next(id, Coord(0, 0), dim), dim, n + 1)
  {
    hide Mul, FromIndex;
    IndexBijection(id, dim);
    MulPlus(id.x, 1, dim.y);
    MulOne(dim.y);
    assert ToIndex(Coord(id.x + 1, 0), dim) == Mul(id.x + 1, dim.y);
  }

  lemma {:induction false} MulOne(m: nat)
    ensures Mul(1, m) == m
  {
    MulIsTimes(1, m);
  }

  lemma {:induction false} GridEnd(id: Coord, dim: Coord, n: nat)
    requires GridAt(id, dim, n) && Stop(id, Coord(0, 0), dim)
    ensures n == Mul(dim.x, dim.y)
  {
  }

  lemma {:induction false} NewGroupsGrow(p: PodState, gridDim: Coord, dim: Coord, n: nat)
    requires n < Mul(gridDim.x, gridDim.y)
    ensures |NewGroups(p, gridDim, dim)| == Mul(gridDim.x, gridDim.y)
    ensures NewGroups(p, gridDim, dim)[..n + 1]
            == NewGroups(p, gridDim, dim)[..n] + [NewGroup(p, GridId(n, gridDim), gridDim, dim)]
  {
    hide Mul, GridId, NewGroup;
  }

  lemma {:induction false} FindGroupIs(groups: seq<Group>, src: Coord, epa: nat, i: nat)
    requires i <= |groups| && (i < |groups| ==> Matches(groups[i], src, epa))
    requires forall j :: 0 <= j < i ==> !Matches(groups[j], src, epa)
    ensures FindGroup(groups, src, epa) == i
  {
  }

  // -------------------- a device --------------------

  ghost predicate Apart(a: Pod, b: Pod) { a != b && a.tiles != b.tiles && a.heap != b.heap }

  lemma {:induction false} ActiveCanStart(p: PodState, i: nat)
    requires Inv(p) && i < |p.groups| && Active(p.groups[i])
    ensures CanStart(p.mesh, p.groups[i].dim, p.groups[i].origin)
  {
    hide KernelInv;
  }

  class Device {
    const cfg: Config
    const pods: seq<Pod>
    ghost const repr: set<object>

    constructor (cfg: Config, pods: seq<Pod>)
      requires GoodPods(cfg) && |pods| == Mul(cfg.pods.x, cfg.pods.y)
      requires forall k :: 0 <= k < |pods| ==> pods[k].Valid() && IsMeshOf(cfg, pods[k].origin, pods[k].dim, k)
      requires forall j, k :: 0 <= j < k < |pods| ==> Apart(pods[j], pods[k])
      ensures Valid() && this.cfg == cfg && this.pods == pods
    {
      hide GoodPods, Pod.Valid, IsMeshOf, Mul;
      this.cfg, this.pods := cfg, pods;
      repr := (set k | 0 <= k < |pods| :: pods[k] as object) + (set k | 0 <= k < |pods| :: pods[k].tiles as object)
              + (set k | 0 <= k < |pods| :: pods[k].heap as object);
    }

    // The objects of pod `k`
    ghost predicate Owns(k: nat) {
      k < |pods| ==> pods[k] in repr && pods[k].tiles in repr && pods[k].heap in repr
    }

    ghost predicate Valid()
      reads repr
    {
      && GoodPods(cfg) && |pods| == Mul(cfg.pods.x, cfg.pods.y)
      && (forall k :: 0 <= k < |pods| ==> Owns(k) && pods[k].Valid() && IsMeshOf(cfg, pods[k].origin, pods[k].dim, k))
      && (forall j, k :: 0 <= j < k < |pods| ==> Apart(pods[j], pods[k]))
    }

    ghost function States(): (s: seq<PodState>)
      requires forall k :: 0 <= k < |pods| ==> Owns(k)
      reads repr
      ensures |s| == |pods| && forall k :: 0 <= k < |pods| ==> s[k] == pods[k].State()
    {
      seq(|pods|, k requires 0 <= k < |pods| && Owns(k) reads repr => pods[k].State())
    }

    // Reads packets until one matches a running group of its pod, or names no pod.
    method NextFinish(rx: seq<Packet>) returns (n: nat, sender: Option<(nat, nat)>)
      requires Valid()
      ensures n == Await(cfg, States(), rx)
      ensures sender.Some? <==> n < |rx| && EndsWait(cfg, States(), rx[n])
      ensures sender.Some? ==>
        var (pid, g) := sender.value;
        pid == PodIndex(cfg, rx[n].src) && g == FindGroup(States()[pid].groups, rx[n].src, rx[n].epa)
    {
      hide GoodPods, Geometry.Pod, PodIndex, Mul, Pod.Valid, IsMeshOf, Await;
      n := 0;
      while n < |rx|
        invariant n <= |rx|
        invariant forall m :: 0 <= m < n ==> !EndsWait(cfg, States(), rx[m]) && !OutOfPods(cfg, |pods|, rx[m])
      {
        if rx[n].data == FINISH_SIGNAL {
          var pid := PodIndex(cfg, rx[n].src);
          if !(0 <= pid < |pods|) {
            // the runtime does not check the index
            AwaitIs(cfg, States(), rx, n);
            return n, None;
          }
          var g := pods[pid].FindSender(rx[n].src, rx[n].epa);
          if g < |pods[pid].groups| {
            AwaitIs(cfg, States(), rx, n);
            return n, Some((pid, g));
          }
        }
        n := n + 1;
      }
      AwaitIs(cfg, States(), rx, n);
      return n, None;
    }

    /** `hb_mc_device_podv_wait_for_tile_group_finish_any`: packets are dropped until one matches a running group of its
    pod; that group is completed and no other pod changes. `done` is the pod, if there is one. */
    method WaitAny(rx: seq<Packet>) returns (done: Option<nat>, n: nat)
      requires Valid()
      modifies repr
      ensures Valid() && AllInv(old(States())) && Kept(old(States()), States())
      ensures n == Await(cfg, old(States()), rx)
      ensures done.Some? <==> n < |rx| && EndsWait(cfg, old(States()), rx[n])
      ensures done.None? ==> States() == old(States())
      ensures done.Some? ==> && PodIndex(cfg, rx[n].src) == done.value < |pods|
                             && States() == Arrived(cfg, old(States()), rx[n])
    {
      hide Inv, GoodPods, PodIndex, IsMeshOf, Mul, FindGroup, Completed, WellFormed, Total, Kept, Await;
      ValidStates();
      var sender;
      n, sender := NextFinish(rx);
      KeptRefl(States());
      if sender.None? {
        return None, n;
      }
      var (pid, g) := sender.value;
      ghost var s := States();
      CompletedPod(s, pid, g);
      pods[pid].CompleteGroup(g);
      assert States() == s[pid := Completed(s[pid], g)];
      return Some(pid), n;
    }

    /** One launch pass of pod `k` */
    method Launch(k: nat) returns (e: Option<Error>)
      requires Valid() && k < |pods|
      modifies repr
      ensures Valid() && AllInv(old(States())) && (States(), e) == Relaunch(old(States()), k)
    {
      hide Inv, GoodPods, IsMeshOf, Mul, TryLaunch, WellFormed, Total, Kept;
      ValidStates();
      ghost var s := States();
      LaunchedPod(s, k);
      e := pods[k].TryLaunchGroups();
      assert States() == s[k := TryLaunch(s[k]).0];
    }

    lemma {:induction false} ValidStates()
      requires Valid()
      ensures (forall k :: 0 <= k < |pods| ==> Owns(k)) && AllInv(States()) && AllMeshes(cfg, States())
    {
      hide Inv, GoodPods, IsMeshOf, Mul;
    }

    /** `hb_mc_device_pod_kernels_execute`: the loop ends as specified. When it is done, every group of the pod has
    finished; while it is blocked, some group of the pod runs. */
    method ExecutePod(podId: int, rx: seq<Packet>) returns (v: Verdict)
      requires Valid()
      modifies repr
      ensures Valid() && AllInv(old(States()))
      ensures !(0 <= podId < |pods|) ==> v == Failed(InvalidAddress) && States() == old(States())
      ensures 0 <= podId < |pods| ==>
        var r := ServeOne(cfg, old(States()), podId, rx);
        && v == r.verdict && States() == r.pods
        && (Runnable(old(States())[podId]) ==>
              && EndsWell(cfg, old(States()), [podId], rx, r)
              && (v.Done? ==> GivenBack(old(States())[podId], States()[podId])))
    {
      hide Pod.Valid, IsMeshOf, GoodPods, Mul, Inv, Runnable, AllFinished, Relaunch, Arrived, EndsWait, OutOfPods, PodIndex,
           Await, Total, Kept, GivenBack, AllInv, EndsWell, ServeOne;
      ValidStates();
      if !(0 <= podId < |pods|) {
        return Failed(InvalidAddress);
      }
      ghost var start := States();
      if Runnable(start[podId]) { ServeOneEnds(cfg, start, podId, rx); }
      assert rx[0..] == rx;
      var i := 0;
      ghost var count := 0;
      while true
        invariant 0 <= i <= |rx|
        invariant Valid() && AllInv(States())
        invariant ServeOne(cfg, start, podId, rx) == Later(ServeOne(cfg, States(), podId, rx[i..]), count)
        decreases Total(States())
      {
        ServeOneStep(cfg, States(), podId, rx[i..]);
        var finished := pods[podId].AllGroupsFinished();
        if finished {
          return Done;
        }
        var e := Launch(podId);
        if e.Some? {
          return Failed(e.value);
        }
        ValidStates();
        var done, n := WaitAny(rx[i..]);
        if done.None? {
          return if n == |rx[i..]| then Waiting else Undefined;
        }
        ValidStates();
        assert rx[i..][n + 1..] == rx[i + n + 1..];
        i := i + n + 1;
        count := count + 1;
      }
    }

    // `hb_mc_device_podv_try_launch_tile_groups`
    method LaunchPods(podv: seq<nat>) returns (e: Option<Error>)
      requires Valid() && forall id :: id in podv ==> id < |pods|
      modifies repr
      ensures Valid() && AllInv(old(States())) && (States(), e) == LaunchAll(old(States()), podv)
    {
      hide Pod.Valid, IsMeshOf, GoodPods, Mul, Inv, Relaunch, Total, AllInv;
      ValidStates();
      ghost var start := States();
      assert podv[0..] == podv;
      for k := 0 to |podv|
        invariant Valid() && AllInv(States())
        invariant forall id :: id in podv[k..] ==> id < |pods|
        invariant LaunchAll(start, podv) == LaunchAll(States(), podv[k..])
      {
        assert podv[k] in podv && podv[k..][0] == podv[k] && podv[k..][1..] == podv[k + 1..];
        assert forall id :: id in podv[k..][1..] ==> id in podv[k..];
        e := Launch(podv[k]);
        if e.Some? {
          return;
        }
        ValidStates();
      }
      return None;
    }

    /** `hb_mc_device_podv_kernels_execute`: after the first pass over all pods only the pod that just completed a group
    is launched again. The loop ends as specified, and when it is done, all is given back. */
    method ExecutePods(podv: seq<nat>, rx: seq<Packet>) returns (v: Verdict)
      requires Valid() && forall id :: id in podv ==> id < |pods|
      modifies repr
      ensures Valid() && AllInv(old(States()))
      ensures var r := Execute(cfg, old(States()), podv, rx);
              && v == r.verdict && States() == r.pods
              && (AllRunnable(old(States()), podv) ==>
                    && EndsWell(cfg, old(States()), podv, rx, r)
                    && (v.Done? ==> forall id :: id in podv ==> GivenBack(old(States())[id], States()[id])))
    {
      hide Pod.Valid, IsMeshOf, GoodPods, Mul, Inv, AllRunnable, AllFinished, Relaunch, Arrived, EndsWait, OutOfPods, PodIndex,
           Await, Total, Kept, GivenBack, AllInv, EndsWell, LaunchAll, PodsFinished, Serve, Execute;
      ValidStates();
      ghost var start := States();
      if AllRunnable(start, podv) { ExecuteEnds(cfg, start, podv, rx); }
      ExecuteStep(cfg, start, podv, rx);
      assert rx[0..] == rx;
      var e := LaunchPods(podv);
      if e.Some? {
        return Failed(e.value);
      }
      ValidStates();
      var i := 0;
      ghost var count := 0;
      while true
        invariant 0 <= i <= |rx|
        invariant Valid() && AllInv(States())
        invariant Execute(cfg, start, podv, rx) == Later(Serve(cfg, States(), podv, rx[i..]), count)
        decreases Total(States())
      {
        ServeStep(cfg, States(), podv, rx[i..]);
        var finished := AllPodsFinished(podv);
        if finished {
          return Done;
        }
        var done, n := WaitAny(rx[i..]);
        if done.None? {
          return if n == |rx[i..]| then Waiting else Undefined;
        }
        ValidStates();
        e := Launch(done.value);
        if e.Some? {
          return Failed(e.value);
        }
        ValidStates();
        assert rx[i..][n + 1..] == rx[i + n + 1..];
        i := i + n + 1;
        count := count + 1;
      }
    }

    method AllPodsFinished(podv: seq<nat>) returns (r: bool)
      requires Valid() && forall id :: id in podv ==> id < |pods|
      ensures r <==> PodsFinished(States(), podv)
    {
      hide Pod.Valid, IsMeshOf, GoodPods, Mul, AllFinished;
      for k := 0 to |podv|
        invariant forall id :: id in podv[..k] ==> id in podv && AllFinished(States()[id])
      {
        assert podv[k] in podv && podv[..k + 1] == podv[..k] + [podv[k]];
        var finished := pods[podv[k]].AllGroupsFinished();
        if !finished {
          return false;
        }
      }
      assert podv[..|podv|] == podv;
      return true;
    }
  }
}
