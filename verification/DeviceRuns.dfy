/** The pods of a device as values: which pod a finish packet comes from, and the execution loops over all orders in which
groups finish.

libraries/bsg_manycore_cuda.cpp
*/
module DeviceRuns {
  import opened Bits
  import opened Wrappers
  import opened Geometry
  import opened TileGroups
  import opened GroupMemory
  import opened GroupRuns
  import M = MemoryManagement

  // -------------------- the pod of a finish packet --------------------

  // Storing 32 unsigned bits in a signed integer
  function Signed32(a: nat): int
    requires a < WORD32
  {
    if a < WORD32 / 2 then a else a - WORD32
  }

  // The pod that the runtime recovers from the source of a packet, without a check: 32 unsigned bits, stored in an `int`
  function PodIndex(cfg: Config, src: Coord): int { Signed32(Wrap(ToIndex(Pod(cfg, src), cfg.pods))) }

  // The same in terms of the pod and tile fields of the source: the number of the pod in whose area a core or bank lies,
  // counted on without bounds, and 0 for everything else
  function AreaNumber(cfg: Config, src: Coord): int {
    var w := TileWidth(cfg);
    var podX, podY, tileY := Shr(src.x, w.x), Shr(src.y, w.y), Low(src.y, w.y);
    if podY % 2 == 1 then cfg.pods.y * (podX - 1) + podY / 2
    else if tileY == 0 && src.y != cfg.host.y then cfg.pods.y * (podX - 1) + podY / 2 - 1
    else if tileY == Mask(w.y) then cfg.pods.y * (podX - 1) + podY / 2
    else 0
  }

  /** Whatever the 8-bit source of a packet is, the index is the area number: the wrap-around of the product and of the
signed result cancel. */
  lemma {:induction false} SourceIndex(cfg: Config, src: Coord)
    requires GoodPods(cfg) && src.x < 256 && src.y < 256
    ensures PodIndex(cfg, src) == AreaNumber(cfg, src)
  {
    hide Shr, Low, Mul, Wrap, Signed32, Pod, TileWidth, Mask;
    PodsPositive(cfg);
    PodFields(cfg, src);
    var w := TileWidth(cfg);
    var podX: int, podY: int := Shr(src.x, w.x), Shr(src.y, w.y);
    ShrSmaller(src.x, w.x);
    ShrSmaller(src.y, w.y);
    SignedIndex(cfg.pods.y, podX - 1, podY / 2);
    SignedIndex(cfg.pods.y, podX - 1, podY / 2 - 1);
    SignedIndex(cfg.pods.y, 0, 0);
  }

  // `hb_mc_config_pod` in terms of the fields, with its 32-bit subtractions
  lemma {:induction false} PodFields(cfg: Config, src: Coord)
    requires GoodPods(cfg) && src.x < 256 && src.y < 256
    ensures var w := TileWidth(cfg);
            var podX: int, podY: int, tileY := Shr(src.x, w.x), Shr(src.y, w.y), Low(src.y, w.y);
            Pod(cfg, src) == if podY % 2 == 1 then Coord((podX - 1) % WORD32, podY / 2)
                             else if tileY == 0 && src.y != cfg.host.y then Coord((podX - 1) % WORD32, (podY / 2 - 1) % WORD32)
                             else if tileY == Mask(w.y) then Coord((podX - 1) % WORD32, podY / 2)
                             else Coord(0, 0)
  {
    FieldsOf(cfg, src);
    hide Shr, Low, And, Pow2;
    var w := TileWidth(cfg);
    assert TileMask(cfg).y == Mask(w.y);
    hide TileInPod, Npod, Mask, TileMask;
  }

  lemma {:induction false} WrappedProduct(py: nat, x: int)
    requires 1 <= py <= 7 && -1 <= x < 256
    ensures (x % WORD32) * py == py * x + WORD32 * (if x < 0 then py else 0)
    ensures -7 <= py * x < 1792
  {
    if x < 0 {
      assert x % WORD32 == WORD32 - 1;
      assert (WORD32 - 1) * py == WORD32 * py - py;
    } else {
      assert x % WORD32 == x;
      assert py * x <= 7 * x;
    }
  }

  lemma {:induction false} SignedWrap(i: int, k: nat)
    requires -8 <= i < 2048 && i + WORD32 * k >= 0
    ensures Signed32(Wrap(i + WORD32 * k)) == i
  {
    hide Wrap;
    if i < 0 {
      WrapRest(k - 1, WORD32 + i);
    } else {
      WrapRest(k, i);
    }
  }

  lemma {:induction false} SignedIndex(py: nat, x: int, y: int)
    requires 1 <= py <= 7 && -1 <= x < 256 && -1 <= y < 256
    ensures Signed32(Wrap(Mul(x % WORD32, py) + y % WORD32)) == py * x + y
  {
    MulIsTimes(x % WORD32, py);
    WrappedProduct(py, x);
    hide Mul, Wrap, Signed32;
    assert y % WORD32 == y + WORD32 * (if y < 0 then 1 else 0);
    SignedWrap(py * x + y, (if x < 0 then py else 0) + (if y < 0 then 1 else 0));
  }

  lemma {:induction false} ShrSmaller(a: nat, n: nat)
    ensures Shr(a, n) <= a
  {
    if n == 0 {
    } else {
      ShrSmaller(a / 2, n - 1);
    }
  }

  /** So a finish signal stays inside the array of pods if and only if its area number is one of theirs: west of all pods
  the number is negative, east of them and south of the last column too large. */
  lemma {:induction false} SourceInRange(cfg: Config, src: Coord)
    requires GoodPods(cfg) && src.x < 256 && src.y < 256
    ensures InRange(cfg, src) <==> 0 <= AreaNumber(cfg, src) < Mul(cfg.pods.x, cfg.pods.y)
    ensures IsWest(cfg, src) ==> PodIndex(cfg, src) < 0
  {
    hide GoodPods, PodIndex, Mul, Shr, Low;
    SourceIndex(cfg, src);
  }

  // A core, in the column of pod fields west of all pods, where the host sits
  predicate IsWest(cfg: Config, src: Coord) {
    var podY := Shr(src.y, TileWidth(cfg).y);
    Shr(src.x, TileWidth(cfg).x) == 0 && podY % 2 == 1 && podY / 2 < cfg.pods.y
  }

  predicate InRange(cfg: Config, src: Coord) { 0 <= PodIndex(cfg, src) < Mul(cfg.pods.x, cfg.pods.y) }

  // The mesh of pod `id`: it starts at the pod's first core and is no larger than the pod.
  predicate IsMeshOf(cfg: Config, origin: Coord, dim: Coord, id: nat)
    requires cfg.pods.y > 0
  {
    origin == VcoreOrigin(cfg, FromIndex(id, cfg.pods)) && dim.x <= cfg.podShape.x && dim.y <= cfg.podShape.y
  }

  /** The pod that is recovered from the origin of a running group is the pod that runs it. */
  lemma {:induction false} PacketSelectsPod(cfg: Config, id: nat, p: PodState, i: nat)
    requires GoodPods(cfg) && id < Mul(cfg.pods.x, cfg.pods.y) && IsMeshOf(cfg, p.mesh.origin, p.mesh.dim, id)
    requires Inv(p) && Runnable(p) && i < |p.groups| && p.groups[i].status == Launched
    ensures PodIndex(cfg, p.groups[i].origin) == id
  {
    hide KernelInv, TileId, Busy, GoodPods, Pod, VcoreOrigin, FromIndex, Mul, CanStart;
    PodsPositive(cfg);
    var pod := FromIndex(id, cfg.pods);
    var c := p.groups[i].origin;
    IndexBijectionBack(id, cfg.pods);
    FewPods(cfg);
    assert Holds(p.groups, i, c);
    InsideMesh(p.mesh, p.groups, c);
    MeshInPod(cfg, pod, p.mesh, c);
    PodOfMember(cfg, pod, c);
  }

  lemma {:induction false} FewPods(cfg: Config)
    requires GoodPods(cfg)
    ensures Mul(cfg.pods.x, cfg.pods.y) <= 49
  {
    MulMonotone(cfg.pods.x, 7, cfg.pods.y);
    MulIsTimes(7, cfg.pods.y);
  }

  lemma {:induction false} PodsPositive(cfg: Config)
    requires GoodPods(cfg)
    ensures cfg.pods.x > 0 && cfg.pods.y > 0
  {
  }

  lemma {:induction false} MeshInPod(cfg: Config, pod: Coord, m: Mesh, c: Coord)
    requires GoodPods(cfg) && PodExists(cfg, pod)
    requires m.origin == VcoreOrigin(cfg, pod) && m.dim.x <= cfg.podShape.x && m.dim.y <= cfg.podShape.y && InMesh(m, c)
    ensures BelongsTo(cfg, pod, c)
  {
    hide GoodPods, VcoreOrigin, Corner, SouthRow;
    OriginValue(cfg, pod);
    ShapePositive(cfg);
  }

  // -------------------- what stays the same --------------------

  ghost predicate AllInv(s: seq<PodState>) { forall k :: 0 <= k < |s| ==> Inv(s[k]) }

  // The device-wide number of unfinished groups
  function Total(s: seq<PodState>): nat {
    if s == [] then 0 else Tally(Unfinished, s[|s| - 1].groups) + Total(s[..|s| - 1])
  }

  lemma {:induction false} TotalUpdate(s: seq<PodState>, k: nat, p: PodState)
    requires k < |s|
    ensures Total(s[k := p]) + Tally(Unfinished, s[k].groups) == Total(s) + Tally(Unfinished, p.groups)
  {
    hide Tally;
    var n := |s| - 1;
    if k == n {
      assert s[k := p][..n] == s[..n];
    } else {
      TotalUpdate(s[..n], k, p);
      assert s[k := p][..n] == s[..n][k := p];
    }
  }

  lemma {:induction false} TotalCovers(s: seq<PodState>, k: nat)
    requires k < |s|
    ensures Tally(Unfinished, s[k].groups) <= Total(s)
  {
    hide Tally;
    if k == |s| - 1 {
    } else {
      TotalCovers(s[..|s| - 1], k);
    }
  }

  // Stocks for arguments last. With a budget for its arguments a pod has nothing but argument blocks allocated or freed.
  ghost predicate PodKept(p: PodState, q: PodState) {
    && q.mesh.origin == p.mesh.origin && q.mesh.dim == p.mesh.dim
    && (Funded(p, 0) ==> Funded(q, 0) && SameOthers(p, q))
    && (Stocked(p, 0) ==> Stocked(q, 0))
  }

  ghost predicate Kept(s: seq<PodState>, t: seq<PodState>) {
    |t| == |s| && forall k :: 0 <= k < |s| ==> PodKept(s[k], t[k])
  }

  lemma {:induction false} KeptRefl(s: seq<PodState>)
    ensures Kept(s, s)
  {
    hide Funded, Stocked;
  }

  lemma {:induction false} KeptTransitive(s: seq<PodState>, t: seq<PodState>, u: seq<PodState>)
    requires Kept(s, t) && Kept(t, u)
    ensures Kept(s, u)
  {
    hide OtherAllocations, Funded, Stocked;
  }

  lemma {:induction false} PodGivenBack(s: seq<PodState>, t: seq<PodState>, k: nat)
    requires Kept(s, t) && k < |t| && Inv(t[k]) && AllFinished(t[k])
    ensures GivenBack(s[k], t[k])
  {
    hide Inv, AllFinished, OtherAllocations, GivenBack, Funded, Stocked;
    AllGivenBack(s[k], t[k]);
  }

  // -------------------- one pass, one completion --------------------

  // All groups are finished, or one of them runs and owes a packet.
  predicate Fed(p: PodState) { AllFinished(p) || SomeLaunched(p) }

  lemma {:induction false} Relaunched(p: PodState)
    requires Inv(p) && WellFormed(p) && Runnable(p) && TryLaunch(p).1.None?
    ensures Runnable(TryLaunch(p).0) && Fed(TryLaunch(p).0)
  {
    hide Inv, WellFormed, Pass, Runnable, AllFinished;
    if AllFinished(p) {
      TryLaunchKeeps(p);
      StillLaunched(p, TryLaunch(p).0);
      PassRunnable(p, 0, Coord(0, 0));
    } else {
      SomethingRuns(p);
    }
  }

  // A launch pass of pod `k`
  lemma {:induction false} LaunchedPod(s: seq<PodState>, k: nat)
    requires k < |s| && AllInv(s)
    ensures WellFormed(s[k])
    ensures var (q, e) := TryLaunch(s[k]);
            && AllInv(s[k := q]) && Kept(s, s[k := q]) && Total(s[k := q]) == Total(s)
            && (e.None? && Runnable(s[k]) ==> Runnable(q) && Fed(q))
            && (Stocked(s[k], 0) ==> e.None?)
            && (AllFinished(q) <==> AllFinished(s[k]))
  {
    hide Inv, Pass, WellFormed, OtherAllocations, Tally, Runnable, Fed, Total, Funded, Stocked;
    InvWellFormed(s[k]);
    TryLaunchKeeps(s[k]);
    var (q, e) := TryLaunch(s[k]);
    AdvancedMesh(s[k], q);
    if Funded(s[k], 0) { PassBudget(s[k], 0, Coord(0, 0), true, 0); }
    if Stocked(s[k], 0) { StockedPass(s[k], 0, Coord(0, 0), true, 0); }
    TotalUpdate(s, k, q);
    AdvancedTally(s[k], q);
    StillLaunched(s[k], q);
    if e.None? && Runnable(s[k]) {
      Relaunched(s[k]);
    }
  }

  /** The completion of a running group takes one off the device-wide number of unfinished groups. */
  lemma {:induction false} CompletedPod(s: seq<PodState>, k: nat, i: nat)
    requires k < |s| && AllInv(s) && i < |s[k].groups| && Active(s[k].groups[i])
    ensures WellFormed(s[k]) && s[k].kernels[s[k].groups[i].kernel.value].refcount > 0
    ensures var q := Completed(s[k], i);
            && AllInv(s[k := q]) && Kept(s, s[k := q]) && Total(s[k := q]) == Total(s) - 1
            && (Runnable(s[k]) ==> Runnable(q))
  {
    hide Inv, Completed, WellFormed, Tally, Runnable, Total, PodKept;
    CompletedGroup(s[k], i);
    KeptRefl(s);
    TotalUpdate(s, k, Completed(s[k], i));
  }

  lemma {:induction false} CompletedGroup(p: PodState, i: nat)
    requires Inv(p) && i < |p.groups| && Active(p.groups[i])
    ensures WellFormed(p) && p.kernels[p.groups[i].kernel.value].refcount > 0
    ensures var q := Completed(p, i);
            && Inv(q) && PodKept(p, q) && (Runnable(p) ==> Runnable(q))
            && Tally(Unfinished, q.groups) == Tally(Unfinished, p.groups) - 1
  {
    hide Inv, Painted, WellFormed, OtherAllocations, Tally, Runnable, M.Free, Funded, Stocked, Shaped, Dropped, Retired;
    CanComplete(p, i);
    CompletedKeeps(p, i);
    MeshShaped(p);
    PaintedDims(p.mesh, p.groups[i].origin, p.groups[i].dim, Tile(false, p.mesh.origin, Coord(0, 0)));
    if Runnable(p) { CompletedRunnable(p, i); }
    if Funded(p, 0) { CompletedBudget(p, i, 0); }
    if Stocked(p, 0) { StockedCompletion(p, i, 0); }
  }

  // -------------------- any order of completions --------------------

  ghost predicate Completes(s: seq<PodState>, k: int, i: int, c: PodState)
    requires AllInv(s)
  {
    0 <= k < |s| && CompletesTo(s[k], i, c)
  }

  /** One turn of the device loop: some running group of some pod completes, and that pod is launched again. */
  ghost predicate DeviceTurn(s: seq<PodState>, t: seq<PodState>)
    requires AllInv(s)
  {
    exists k, i, c :: Completes(s, k, i, c) && WellFormed(c) && TryLaunch(c).1.None? && t == s[k := TryLaunch(c).0]
  }

  // A group may complete whose pod then fails to launch.
  ghost predicate MayFail(s: seq<PodState>)
    requires AllInv(s)
  {
    exists k, i, c :: Completes(s, k, i, c) && WellFormed(c) && TryLaunch(c).1.Some?
  }

  ghost predicate AllFed(s: seq<PodState>, podv: seq<nat>) {
    forall id :: id in podv ==> id < |s| && Runnable(s[id]) && Fed(s[id])
  }

  predicate PodsFinished(s: seq<PodState>, podv: seq<nat>) {
    forall id :: id in podv ==> id < |s| && AllFinished(s[id])
  }

  ghost predicate AllStocked(s: seq<PodState>) { forall k :: 0 <= k < |s| ==> Stocked(s[k], 0) }

  // A completion of group `i` in pod `k` followed by a launch pass of that pod
  lemma {:induction false} TurnOfPod(s: seq<PodState>, k: nat, i: nat)
    requires AllInv(s) && k < |s| && i < |s[k].groups| && Active(s[k].groups[i])
    ensures WellFormed(s[k]) && s[k].kernels[s[k].groups[i].kernel.value].refcount > 0
    ensures WellFormed(Completed(s[k], i))
    ensures var (q, e) := TryLaunch(Completed(s[k], i));
            && AllInv(s[k := q]) && Kept(s, s[k := q]) && Total(s[k := q]) == Total(s) - 1
            && (Runnable(s[k]) && e.None? ==> Runnable(q) && Fed(q))
            && (Stocked(s[k], 0) ==> e.None?)
  {
    hide Inv, Completed, TryLaunch, WellFormed, Runnable, Fed, Total, PodKept;
    CompletedPod(s, k, i);
    var c := Completed(s[k], i);
    var t := s[k := c];
    LaunchedPod(t, k);
    assert t[k := TryLaunch(c).0] == s[k := TryLaunch(c).0];
    KeptTransitive(s, t, t[k := TryLaunch(c).0]);
    hide Kept, AllInv;
    KeptPod(s, t, k);
  }

  lemma {:induction false} KeptPod(s: seq<PodState>, t: seq<PodState>, k: nat)
    requires Kept(s, t) && k < |s|
    ensures Stocked(s[k], 0) ==> Stocked(t[k], 0)
  {
    hide Funded, Stocked, OtherAllocations;
  }

  lemma {:induction false} DeviceTurnEffect(s: seq<PodState>, t: seq<PodState>, podv: seq<nat>)
    requires AllInv(s) && AllFed(s, podv) && DeviceTurn(s, t)
    ensures AllInv(t) && AllFed(t, podv) && Kept(s, t) && Total(t) == Total(s) - 1
  {
    hide Inv, Completed, TryLaunch, WellFormed, Runnable, Fed, Total, Kept;
    var k, i, c :| Completes(s, k, i, c) && WellFormed(c) && TryLaunch(c).1.None? && t == s[k := TryLaunch(c).0];
    TurnOfPod(s, k, i);
  }

  lemma {:induction false} DeviceTurns(ss: seq<seq<PodState>>, podv: seq<nat>)
    requires |ss| > 0 && AllInv(ss[0]) && AllFed(ss[0], podv)
    requires forall n :: 0 <= n < |ss| - 1 ==> AllInv(ss[n]) && DeviceTurn(ss[n], ss[n + 1])
    ensures var t := ss[|ss| - 1];
            AllInv(t) && AllFed(t, podv) && Kept(ss[0], t) && Total(t) == Total(ss[0]) - (|ss| - 1)
  {
    hide AllInv, AllFed, Kept, Total, DeviceTurn;
    var n := |ss| - 1;
    if n == 0 {
      KeptRefl(ss[0]);
    } else {
      DeviceTurns(ss[..n], podv);
      DeviceTurnEffect(ss[n - 1], ss[n], podv);
      KeptTransitive(ss[0], ss[n - 1], ss[n]);
    }
  }

  /** Whatever groups of whatever pods the device finishes next, and although only their pods are launched again: each turn
  takes one off the number of unfinished groups, every pod of the list has finished or has a running group, the loop never
  stops short of the last group except on a launch error, and when it stops without one, all is given back. With a stock
  of arguments in every pod there is no launch error. */
  lemma {:induction false} AnyOrderOfPods(ss: seq<seq<PodState>>, podv: seq<nat>)
    requires |ss| > 0 && AllInv(ss[0]) && AllFed(ss[0], podv)
    requires forall n :: 0 <= n < |ss| - 1 ==> AllInv(ss[n]) && DeviceTurn(ss[n], ss[n + 1])
    ensures var t := ss[|ss| - 1];
            && AllInv(t) && AllFed(t, podv) && Total(t) == Total(ss[0]) - (|ss| - 1)
            && (PodsFinished(t, podv) || MayFail(t) || exists u :: DeviceTurn(t, u))
            && (AllStocked(ss[0]) ==> !MayFail(t))
            && (PodsFinished(t, podv) ==> forall id :: id in podv ==> GivenBack(ss[0][id], t[id]))
  {
    hide Inv, Kept, Total, DeviceTurn, GivenBack, Runnable, Stocked, AllFinished, PodKept, WellFormed;
    var t := ss[|ss| - 1];
    DeviceTurns(ss, podv);
    if PodsFinished(t, podv) {
      forall id | id in podv ensures GivenBack(ss[0][id], t[id]) {
        PodGivenBack(ss[0], t, id);
      }
    } else if !MayFail(t) {
      NextDeviceTurn(t, podv);
    }
    if AllStocked(ss[0]) {
      StockedPods(ss[0], t);
      StockNeverFails(t);
    }
  }

  lemma {:induction false} StockedPods(s: seq<PodState>, t: seq<PodState>)
    requires Kept(s, t) && AllStocked(s)
    ensures AllStocked(t)
  {
    hide Kept, Stocked;
    KeptLength(s, t);
    forall k | 0 <= k < |t| ensures Stocked(t[k], 0) {
      KeptPod(s, t, k);
    }
  }

  lemma {:induction false} KeptLength(s: seq<PodState>, t: seq<PodState>)
    requires Kept(s, t)
    ensures |t| == |s|
  {
    hide PodKept;
  }

  lemma {:induction false} StockNeverFails(s: seq<PodState>)
    requires AllInv(s) && AllStocked(s)
    ensures !MayFail(s)
  {
    hide Inv, Completed, TryLaunch, WellFormed, Stocked;
    if k, i, c :| Completes(s, k, i, c) && WellFormed(c) && TryLaunch(c).1.Some? {
      TurnOfPod(s, k, i);
      assert false;
    }
  }

  lemma {:induction false} NextDeviceTurn(s: seq<PodState>, podv: seq<nat>)
    requires AllInv(s) && AllFed(s, podv) && !PodsFinished(s, podv) && !MayFail(s)
    ensures exists t :: DeviceTurn(s, t)
  {
    hide Inv, Completed, TryLaunch, WellFormed, Runnable, AllFinished;
    var id :| id in podv && !AllFinished(s[id]);
    var i :| 0 <= i < |s[id].groups| && s[id].groups[i].status == Launched;
    TurnOfPod(s, id, i);
    var c := Completed(s[id], i);
    assert Completes(s, id, i, c);
    assert TryLaunch(c).1.None?;
    assert DeviceTurn(s, s[id := TryLaunch(c).0]);
  }

  // -------------------- the loops, packet by packet --------------------

  // The packet is a finish signal of a running group of the pod that its source names.
  predicate EndsWait(cfg: Config, s: seq<PodState>, packet: Packet) {
    && packet.data == FINISH_SIGNAL && 0 <= PodIndex(cfg, packet.src) < |s|
    && var groups := s[PodIndex(cfg, packet.src)].groups;
       FindGroup(groups, packet.src, packet.epa) < |groups|
  }

  /** A wait ends exactly on a packet with the finish value, from the origin of a running group of the pod that its source
  names, to the finish address of that group. */
  lemma {:induction false} EndsWaitExactly(cfg: Config, s: seq<PodState>, packet: Packet)
    ensures EndsWait(cfg, s, packet) <==>
              && 0 <= PodIndex(cfg, packet.src) < |s|
              && exists i :: 0 <= i < |s[PodIndex(cfg, packet.src)].groups|
                             && Sent(s[PodIndex(cfg, packet.src)].groups[i], packet)
  {
    hide PodIndex;
    var id := PodIndex(cfg, packet.src);
    if 0 <= id < |s| {
      var i := FindGroup(s[id].groups, packet.src, packet.epa);
      if EndsWait(cfg, s, packet) {
        assert Sent(s[id].groups[i], packet);
      }
    }
  }

  // The packet is a finish signal whose source names no pod: the runtime looks at memory outside its array of pods.
  predicate OutOfPods(cfg: Config, pods: nat, packet: Packet) {
    packet.data == FINISH_SIGNAL && !(0 <= PodIndex(cfg, packet.src) < pods)
  }

  // Packets are dropped up to the first that ends the wait or leaves the array of pods.
  function Await(cfg: Config, s: seq<PodState>, rx: seq<Packet>): (n: nat)
    ensures n <= |rx|
    ensures n < |rx| ==> EndsWait(cfg, s, rx[n]) || OutOfPods(cfg, |s|, rx[n])
    ensures forall m :: 0 <= m < n ==> !EndsWait(cfg, s, rx[m]) && !OutOfPods(cfg, |s|, rx[m])
  {
    hide EndsWait, OutOfPods;
    if rx == [] then 0
    else if EndsWait(cfg, s, rx[0]) || OutOfPods(cfg, |s|, rx[0]) then 0
    else 1 + Await(cfg, s, rx[1..])
  }

  lemma {:induction false} AwaitIs(cfg: Config, s: seq<PodState>, rx: seq<Packet>, n: nat)
    requires n <= |rx| && forall m :: 0 <= m < n ==> !EndsWait(cfg, s, rx[m]) && !OutOfPods(cfg, |s|, rx[m])
    requires n < |rx| ==> EndsWait(cfg, s, rx[n]) || OutOfPods(cfg, |s|, rx[n])
    ensures Await(cfg, s, rx) == n
  {
    hide EndsWait, OutOfPods;
    var m := Await(cfg, s, rx);
    assert !(m < n) && !(n < m);
  }

  // `Waiting`: the loop is blocked on the next packet. `Undefined`: a packet left the array of pods.
  datatype Verdict = Done | Waiting | Failed(error: Error) | Undefined

  // How a loop ends: the pods, why, and how many groups have completed
  datatype Ending = Ending(pods: seq<PodState>, verdict: Verdict, completions: nat)

  // An ending after `n` more completions
  function Later(r: Ending, n: nat): Ending { r.(completions := r.completions + n) }

  // What a packet that ends a wait does to its pod
  ghost function Arrived(cfg: Config, s: seq<PodState>, packet: Packet): (r: seq<PodState>)
    requires AllInv(s) && EndsWait(cfg, s, packet)
    ensures AllInv(r) && |r| == |s| && Total(r) == Total(s) - 1
  {
    hide Inv, Completed, Total, FindGroup, PodIndex, Kept, WellFormed;
    var k := PodIndex(cfg, packet.src);
    var i := FindGroup(s[k].groups, packet.src, packet.epa);
    CompletedPod(s, k, i);
    s[k := Completed(s[k], i)]
  }

  // A launch pass of pod `k`
  ghost function Relaunch(s: seq<PodState>, k: nat): (r: (seq<PodState>, Option<Error>))
    requires AllInv(s) && k < |s|
    ensures AllInv(r.0) && |r.0| == |s| && Total(r.0) == Total(s)
  {
    hide Inv, TryLaunch, Total, Kept, WellFormed;
    LaunchedPod(s, k);
    var (q, e) := TryLaunch(s[k]);
    (s[k := q], e)
  }

  // `hb_mc_device_podv_try_launch_tile_groups`: stops at the first error.
  ghost function LaunchAll(s: seq<PodState>, podv: seq<nat>): (r: (seq<PodState>, Option<Error>))
    requires AllInv(s) && forall id :: id in podv ==> id < |s|
    ensures AllInv(r.0) && |r.0| == |s| && Total(r.0) == Total(s)
    decreases |podv|
  {
    hide Relaunch, AllInv, Total;
    if podv == [] then (s, None)
    else
      assert podv[0] in podv && forall id :: id in podv[1..] ==> id in podv;
      var (t, e) := Relaunch(s, podv[0]);
      if e.Some? then (t, e) else LaunchAll(t, podv[1..])
  }

  // The loop of `hb_mc_device_podv_kernels_execute` after the first launches
  ghost function Serve(cfg: Config, s: seq<PodState>, podv: seq<nat>, rx: seq<Packet>): Ending
    requires AllInv(s)
    decreases Total(s)
  {
    hide AllInv, Arrived, Relaunch, PodsFinished, PodIndex, Total;
    var n := Await(cfg, s, rx);
    if PodsFinished(s, podv) then Ending(s, Done, 0)
    else if n == |rx| then Ending(s, Waiting, 0)
    else if !EndsWait(cfg, s, rx[n]) then Ending(s, Undefined, 0)
    else
      var (t, e) := Relaunch(Arrived(cfg, s, rx[n]), PodIndex(cfg, rx[n].src));
      if e.Some? then Ending(t, Failed(e.value), 1)
      else
        Later(Serve(cfg, t, podv, rx[n + 1..]), 1)
  }

  // The loop of `hb_mc_device_pod_kernels_execute`, which launches its own pod and waits for any
  ghost function ServeOne(cfg: Config, s: seq<PodState>, id: nat, rx: seq<Packet>): Ending
    requires AllInv(s) && id < |s|
    decreases Total(s)
  {
    hide AllInv, Arrived, Relaunch, PodIndex, Total, AllFinished;
    var (t, e) := Relaunch(s, id);
    var n := Await(cfg, t, rx);
    if AllFinished(s[id]) then Ending(s, Done, 0)
    else if e.Some? then Ending(t, Failed(e.value), 0)
    else if n == |rx| then Ending(t, Waiting, 0)
    else if !EndsWait(cfg, t, rx[n]) then Ending(t, Undefined, 0)
    else Later(ServeOne(cfg, Arrived(cfg, t, rx[n]), id, rx[n + 1..]), 1)
  }

  // `hb_mc_device_podv_kernels_execute`
  ghost function Execute(cfg: Config, s: seq<PodState>, podv: seq<nat>, rx: seq<Packet>): Ending
    requires AllInv(s) && forall id :: id in podv ==> id < |s|
  {
    hide AllInv, LaunchAll, Serve, Total;
    var (t, e) := LaunchAll(s, podv);
    if e.Some? then Ending(t, Failed(e.value), 0) else Serve(cfg, t, podv, rx)
  }

  // One round of each loop
  lemma {:induction false} ServeStep(cfg: Config, s: seq<PodState>, podv: seq<nat>, rx: seq<Packet>)
    requires AllInv(s)
    ensures var n := Await(cfg, s, rx);
            if PodsFinished(s, podv) then Serve(cfg, s, podv, rx) == Ending(s, Done, 0)
            else if n == |rx| then Serve(cfg, s, podv, rx) == Ending(s, Waiting, 0)
            else if !EndsWait(cfg, s, rx[n]) then Serve(cfg, s, podv, rx) == Ending(s, Undefined, 0)
            else
              && 0 <= PodIndex(cfg, rx[n].src) < |s|
              && var (t, e) := Relaunch(Arrived(cfg, s, rx[n]), PodIndex(cfg, rx[n].src));
                 Serve(cfg, s, podv, rx) == if e.Some? then Ending(t, Failed(e.value), 1)
                                            else Later(Serve(cfg, t, podv, rx[n + 1..]), 1)
  {
    hide AllInv, Arrived, Relaunch, PodsFinished, PodIndex, Total;
  }

  lemma {:induction false} ServeOneStep(cfg: Config, s: seq<PodState>, id: nat, rx: seq<Packet>)
    requires AllInv(s) && id < |s|
    ensures var (t, e) := Relaunch(s, id);
            var n := Await(cfg, t, rx);
            if AllFinished(s[id]) then ServeOne(cfg, s, id, rx) == Ending(s, Done, 0)
            else if e.Some? then ServeOne(cfg, s, id, rx) == Ending(t, Failed(e.value), 0)
            else if n == |rx| then ServeOne(cfg, s, id, rx) == Ending(t, Waiting, 0)
            else if !EndsWait(cfg, t, rx[n]) then ServeOne(cfg, s, id, rx) == Ending(t, Undefined, 0)
            else ServeOne(cfg, s, id, rx) == Later(ServeOne(cfg, Arrived(cfg, t, rx[n]), id, rx[n + 1..]), 1)
  {
    hide AllInv, Arrived, Relaunch, PodIndex, Total, AllFinished, EndsWait;
  }

  lemma {:induction false} ExecuteStep(cfg: Config, s: seq<PodState>, podv: seq<nat>, rx: seq<Packet>)
    requires AllInv(s) && forall id :: id in podv ==> id < |s|
    ensures var (t, e) := LaunchAll(s, podv);
            Execute(cfg, s, podv, rx) == if e.Some? then Ending(t, Failed(e.value), 0) else Serve(cfg, t, podv, rx)
  {
    hide AllInv, LaunchAll, Serve, Total;
  }

  // -------------------- what the loops guarantee --------------------

  ghost predicate AllRunnable(s: seq<PodState>, podv: seq<nat>) {
    forall id :: id in podv ==> id < |s| && Runnable(s[id])
  }

  predicate KnownSources(cfg: Config, pods: nat, rx: seq<Packet>) {
    forall packet :: packet in rx ==> !OutOfPods(cfg, pods, packet)
  }

  lemma {:induction false} RelaunchEffect(s: seq<PodState>, k: nat, podv: seq<nat>, fed: seq<nat>)
    requires AllInv(s) && k < |s| && AllRunnable(s, podv) && AllFed(s, fed)
    ensures var (t, e) := Relaunch(s, k);
            && Kept(s, t) && (AllStocked(s) ==> e.None?)
            && (e.None? ==> AllRunnable(t, podv) && AllFed(t, fed) && (Runnable(s[k]) ==> AllFed(t, fed + [k])))
  {
    hide Inv, TryLaunch, Runnable, Fed, Total, Kept, WellFormed, Stocked;
    LaunchedPod(s, k);
  }

  // A completion and the launch pass that follows it
  lemma {:induction false} TurnEffectOfPacket(cfg: Config, s: seq<PodState>, packet: Packet, podv: seq<nat>)
    requires AllInv(s) && EndsWait(cfg, s, packet) && AllFed(s, podv)
    ensures var (t, e) := Relaunch(Arrived(cfg, s, packet), PodIndex(cfg, packet.src));
            && Kept(s, t) && (AllStocked(s) ==> e.None?) && (e.None? ==> AllFed(t, podv))
  {
    hide Inv, Completed, TryLaunch, Runnable, Fed, Total, Kept, WellFormed, FindGroup, PodIndex, Stocked;
    var k := PodIndex(cfg, packet.src);
    TurnOfPod(s, k, FindGroup(s[k].groups, packet.src, packet.epa));
    var c := Arrived(cfg, s, packet);
    assert c[k := TryLaunch(c[k]).0] == s[k := TryLaunch(c[k]).0];
  }

  lemma {:induction false} LaunchAllEffect(s: seq<PodState>, podv: seq<nat>, fed: seq<nat>)
    requires AllInv(s) && AllRunnable(s, podv) && AllFed(s, fed)
    ensures var (t, e) := LaunchAll(s, podv);
            && Kept(s, t) && (AllStocked(s) ==> e.None?) && (e.None? ==> AllFed(t, fed + podv))
    decreases |podv|
  {
    hide AllInv, AllFed, AllStocked, Kept, Total, Relaunch, Runnable;
    if podv == [] {
      KeptRefl(s);
      assert fed + podv == fed;
    } else {
      var k, rest := podv[0], podv[1..];
      assert k in podv && forall id :: id in rest ==> id in podv;
      RelaunchEffect(s, k, podv, fed);
      var (t, e) := Relaunch(s, k);
      if e.None? {
        if AllStocked(s) { StockedPods(s, t); }
        LaunchAllEffect(t, rest, fed + [k]);
        KeptTransitive(s, t, LaunchAll(t, rest).0);
        assert fed + [k] + rest == fed + podv;
      }
    }
  }

  /** How a loop over the pods `podv` that starts from `s` ends: each completion has taken one off the number of unfinished
  groups; when the loop is done, all groups of the list have finished; while it waits, every pod of the list has finished or
  has a running group, and one has not finished; it fails only if a launch does, which a stock of arguments in every pod
  excludes; and it leaves the array of pods only on a packet whose source names no pod. */
  ghost predicate EndsWell(cfg: Config, s: seq<PodState>, podv: seq<nat>, rx: seq<Packet>, r: Ending) {
    && AllInv(r.pods) && Kept(s, r.pods) && Total(r.pods) + r.completions == Total(s) && r.completions <= |rx|
    && (r.verdict.Done? ==> PodsFinished(r.pods, podv))
    && (r.verdict.Waiting? ==> AllFed(r.pods, podv) && !PodsFinished(r.pods, podv))
    && (AllStocked(s) ==> !r.verdict.Failed?)
    && (KnownSources(cfg, |s|, rx) ==> !r.verdict.Undefined?)
  }

  // The ending after one more completion, with packet `n` of the sequence
  lemma {:induction false} OneTurnLater(cfg: Config, s: seq<PodState>, t: seq<PodState>, podv: seq<nat>, rx: seq<Packet>, n: nat,
                                        r: Ending)
    requires n < |rx| && EndsWell(cfg, t, podv, rx[n + 1..], r)
    requires Kept(s, t) && Total(t) + 1 == Total(s) && (AllStocked(s) ==> AllStocked(t)) && |t| == |s|
    ensures EndsWell(cfg, s, podv, rx, Later(r, 1))
  {
    hide AllInv, AllFed, AllStocked, Kept, Total, PodsFinished, OutOfPods;
    assert forall packet :: packet in rx[n + 1..] ==> packet in rx;
    KeptTransitive(s, t, r.pods);
  }

  /** Over every sequence of packets, in whatever order groups finish, the loop over several pods ends well. */
  lemma {:induction false} ServeEffect(cfg: Config, s: seq<PodState>, podv: seq<nat>, rx: seq<Packet>)
    requires AllInv(s) && AllFed(s, podv)
    ensures EndsWell(cfg, s, podv, rx, Serve(cfg, s, podv, rx))
    decreases Total(s)
  {
    hide AllInv, AllFed, AllStocked, Kept, Total, Relaunch, Arrived, PodsFinished, OutOfPods, EndsWait, PodIndex;
    KeptRefl(s);
    var n := Await(cfg, s, rx);
    if PodsFinished(s, podv) || n == |rx| || !EndsWait(cfg, s, rx[n]) {
      assert n < |rx| ==> rx[n] in rx;
    } else {
      TurnEffectOfPacket(cfg, s, rx[n], podv);
      InRangePacket(cfg, s, rx[n]);
      var (t, e) := Relaunch(Arrived(cfg, s, rx[n]), PodIndex(cfg, rx[n].src));
      if e.None? {
        hide EndsWell;
        if AllStocked(s) { StockedPods(s, t); }
        ServeEffect(cfg, t, podv, rx[n + 1..]);
        OneTurnLater(cfg, s, t, podv, rx, n, Serve(cfg, t, podv, rx[n + 1..]));
      }
    }
  }

  lemma {:induction false} InRangePacket(cfg: Config, s: seq<PodState>, packet: Packet)
    requires EndsWait(cfg, s, packet)
    ensures 0 <= PodIndex(cfg, packet.src) < |s|
  {
  }

  lemma {:induction false} LaunchOne(s: seq<PodState>, id: nat)
    requires AllInv(s) && id < |s| && Runnable(s[id])
    ensures var (t, e) := Relaunch(s, id);
            && Kept(s, t) && (AllStocked(s) ==> e.None? && AllStocked(t))
            && (e.None? ==> Runnable(t[id]) && Fed(t[id])) && (AllFinished(t[id]) <==> AllFinished(s[id]))
  {
    hide Inv, TryLaunch, Runnable, Fed, Total, Kept, WellFormed, Stocked, AllFinished;
    LaunchedPod(s, id);
    if AllStocked(s) { StockedPods(s, Relaunch(s, id).0); }
  }

  lemma {:induction false} ArriveOne(cfg: Config, s: seq<PodState>, packet: Packet, id: nat)
    requires AllInv(s) && EndsWait(cfg, s, packet) && id < |s| && Runnable(s[id])
    ensures var t := Arrived(cfg, s, packet); Kept(s, t) && Runnable(t[id]) && (AllStocked(s) ==> AllStocked(t))
  {
    hide Inv, Completed, Runnable, Total, Kept, WellFormed, FindGroup, PodIndex, Stocked;
    var k := PodIndex(cfg, packet.src);
    CompletedPod(s, k, FindGroup(s[k].groups, packet.src, packet.epa));
    if AllStocked(s) { StockedPods(s, Arrived(cfg, s, packet)); }
  }

  /** The same for the loop of one pod, which launches that pod before each wait. */
  lemma {:induction false} ServeOneEffect(cfg: Config, s: seq<PodState>, id: nat, rx: seq<Packet>)
    requires AllInv(s) && id < |s| && Runnable(s[id])
    ensures EndsWell(cfg, s, [id], rx, ServeOne(cfg, s, id, rx))
    decreases Total(s)
  {
    hide AllInv, AllStocked, Kept, Total, Relaunch, Arrived, OutOfPods, EndsWait, PodIndex, Runnable, Fed, AllFinished;
    KeptRefl(s);
    assert id in [id] && forall k :: k in [id] ==> k == id;
    if AllFinished(s[id]) {
    } else {
      LaunchOne(s, id);
      var (t, e) := Relaunch(s, id);
      var n := Await(cfg, t, rx);
      if e.Some? {
      } else if n == |rx| || !EndsWait(cfg, t, rx[n]) {
        assert n < |rx| ==> rx[n] in rx;
      } else {
        ArriveOne(cfg, t, rx[n], id);
        var u := Arrived(cfg, t, rx[n]);
        assert forall packet :: packet in rx[n + 1..] ==> packet in rx;
        ServeOneEffect(cfg, u, id, rx[n + 1..]);
        KeptTransitive(s, t, u);
        KeptTransitive(s, u, ServeOne(cfg, u, id, rx[n + 1..]).pods);
      }
    }
  }

  lemma {:induction false} ExecuteEffect(cfg: Config, s: seq<PodState>, podv: seq<nat>, rx: seq<Packet>)
    requires AllInv(s) && AllRunnable(s, podv)
    ensures EndsWell(cfg, s, podv, rx, Execute(cfg, s, podv, rx))
  {
    hide AllInv, AllStocked, Kept, Total, LaunchAll, Serve, KnownSources, Runnable;
    LaunchAllEffect(s, podv, []);
    assert [] + podv == podv;
    var (t, e) := LaunchAll(s, podv);
    if e.None? {
      if AllStocked(s) { StockedPods(s, t); }
      ServeEffect(cfg, t, podv, rx);
      KeptTransitive(s, t, Serve(cfg, t, podv, rx).pods);
    }
  }

  lemma {:induction false} ExecuteEnds(cfg: Config, s: seq<PodState>, podv: seq<nat>, rx: seq<Packet>)
    requires AllInv(s) && AllRunnable(s, podv)
    ensures var r := Execute(cfg, s, podv, rx);
            && EndsWell(cfg, s, podv, rx, r)
            && |r.pods| == |s| && (r.verdict.Done? ==> forall id :: id in podv ==> GivenBack(s[id], r.pods[id]))
  {
    hide Execute, GivenBack, PodKept, Inv, Total, AllStocked, KnownSources, Runnable, AllFinished;
    ExecuteEffect(cfg, s, podv, rx);
    var r := Execute(cfg, s, podv, rx);
    if r.verdict.Done? {
      forall id | id in podv ensures GivenBack(s[id], r.pods[id]) {
        PodGivenBack(s, r.pods, id);
      }
    }
  }

  lemma {:induction false} ServeOneEnds(cfg: Config, s: seq<PodState>, id: nat, rx: seq<Packet>)
    requires AllInv(s) && id < |s| && Runnable(s[id])
    ensures var r := ServeOne(cfg, s, id, rx);
            && EndsWell(cfg, s, [id], rx, r)
            && |r.pods| == |s| && (r.verdict.Done? ==> GivenBack(s[id], r.pods[id]))
  {
    hide ServeOne, GivenBack, PodKept, Inv, Total, AllStocked, KnownSources, Runnable, AllFinished;
    ServeOneEffect(cfg, s, id, rx);
    var r := ServeOne(cfg, s, id, rx);
    assert id in [id];
    if r.verdict.Done? { PodGivenBack(s, r.pods, id); }
  }

  /** So the completions of all groups suffice: a loop that still waits has seen fewer. */
  lemma {:induction false} CompletionsSuffice(cfg: Config, s: seq<PodState>, podv: seq<nat>, rx: seq<Packet>)
    requires AllInv(s) && AllRunnable(s, podv) && AllStocked(s) && KnownSources(cfg, |s|, rx)
    ensures var r := Execute(cfg, s, podv, rx);
            && r.completions <= Total(s)
            && (r.verdict.Waiting? ==> r.completions < Total(s))
            && (r.completions == Total(s) ==> r.verdict.Done?)
  {
    hide AllInv, AllStocked, Kept, Total, Execute, KnownSources, Runnable, Fed, Tally;
    ExecuteEffect(cfg, s, podv, rx);
    var r := Execute(cfg, s, podv, rx);
    if r.verdict.Waiting? {
      var id :| id in podv && !AllFinished(r.pods[id]);
      TallyPositive(Unfinished, r.pods[id].groups);
      TotalCovers(r.pods, id);
    }
  }

  // -------------------- the packets of running groups --------------------

  // Each pod's mesh lies in the area of its pod.
  ghost predicate AllMeshes(cfg: Config, s: seq<PodState>)
    requires cfg.pods.y > 0
  {
    |s| == Mul(cfg.pods.x, cfg.pods.y) && forall k :: 0 <= k < |s| ==> IsMeshOf(cfg, s[k].mesh.origin, s[k].mesh.dim, k)
  }

  function FinishPacket(g: Group): Packet { Packet(g.origin, g.finishEpa, FINISH_SIGNAL) }

  /** The finish packet of a running group ends the wait and completes that very group, in the pod that runs it. */
  lemma {:induction false} SenderCompletes(cfg: Config, s: seq<PodState>, id: nat, i: nat)
    requires GoodPods(cfg) && AllMeshes(cfg, s) && id < |s|
    requires AllInv(s) && Runnable(s[id]) && i < |s[id].groups| && s[id].groups[i].status == Launched
    ensures WellFormed(s[id]) && s[id].kernels[s[id].groups[i].kernel.value].refcount > 0
    ensures var packet := FinishPacket(s[id].groups[i]);
            && EndsWait(cfg, s, packet) && PodIndex(cfg, packet.src) == id
            && Arrived(cfg, s, packet) == s[id := Completed(s[id], i)]
  {
    hide Inv, GoodPods, PodIndex, IsMeshOf, Mul, FindGroup, Completed, Runnable, WellFormed;
    CanComplete(s[id], i);
    PacketSelectsSender(s[id], i);
    PacketSelectsPod(cfg, id, s[id], i);
  }

  lemma {:induction false} AwaitAppend(cfg: Config, s: seq<PodState>, rx: seq<Packet>, more: seq<Packet>)
    ensures Await(cfg, s, rx + more) == if Await(cfg, s, rx) < |rx| then Await(cfg, s, rx) else |rx| + Await(cfg, s, more)
  {
    hide EndsWait, OutOfPods;
    if rx == [] {
      assert rx + more == more;
    } else {
      AwaitAppend(cfg, s, rx[1..], more);
      assert (rx + more)[1..] == rx[1..] + more;
    }
  }

  // A loop that waits goes on with the packets to come.
  lemma {:induction false} ServeAppend(cfg: Config, s: seq<PodState>, podv: seq<nat>, rx: seq<Packet>, more: seq<Packet>)
    requires AllInv(s) && Serve(cfg, s, podv, rx).verdict.Waiting?
    ensures var r := Serve(cfg, s, podv, rx);
            && AllInv(r.pods)
            && Serve(cfg, s, podv, rx + more) == Later(Serve(cfg, r.pods, podv, more), r.completions)
    decreases Total(s)
  {
    hide AllInv, Total, Relaunch, Arrived, PodsFinished, OutOfPods, EndsWait, PodIndex;
    AwaitAppend(cfg, s, rx, more);
    var n := Await(cfg, s, rx);
    if n == |rx| {
      assert (rx + more)[n..] == more;
      ServeLater(cfg, s, podv, rx, more);
    } else {
      InRangePacket(cfg, s, rx[n]);
      var t := Relaunch(Arrived(cfg, s, rx[n]), PodIndex(cfg, rx[n].src)).0;
      ServeAppend(cfg, t, podv, rx[n + 1..], more);
      assert (rx + more)[n] == rx[n] && (rx + more)[n + 1..] == rx[n + 1..] + more;
    }
  }

  // Packets that end nothing might as well not have come.
  lemma {:induction false} ServeLater(cfg: Config, s: seq<PodState>, podv: seq<nat>, rx: seq<Packet>, more: seq<Packet>)
    requires AllInv(s) && Await(cfg, s, rx) == |rx|
    ensures Serve(cfg, s, podv, rx + more) == Serve(cfg, s, podv, more)
  {
    hide AllInv, Total, Relaunch, Arrived, PodsFinished, OutOfPods, EndsWait, PodIndex;
    AwaitAppend(cfg, s, rx, more);
    var n := Await(cfg, s, more);
    if n < |more| {
      assert (rx + more)[|rx| + n] == more[n] && (rx + more)[|rx| + n + 1..] == more[n + 1..];
    }
  }

  /** While a loop waits, the packet of any running group of a pod on the list completes that group. */
  lemma {:induction false} NextCompletes(cfg: Config, s: seq<PodState>, podv: seq<nat>, rx: seq<Packet>, id: nat, i: nat)
    requires GoodPods(cfg) && AllMeshes(cfg, s) && AllInv(s) && AllFed(s, podv) && id in podv
    requires Serve(cfg, s, podv, rx).verdict.Waiting? && id < |Serve(cfg, s, podv, rx).pods|
    requires var p := Serve(cfg, s, podv, rx).pods[id]; i < |p.groups| && p.groups[i].status == Launched
    ensures var r := Serve(cfg, s, podv, rx);
            var t := Serve(cfg, s, podv, rx + [FinishPacket(r.pods[id].groups[i])]);
            t.completions == r.completions + 1 && !t.verdict.Undefined?
  {
    PodsPositive(cfg);
    hide GoodPods, AllInv, AllMeshes, Total, Relaunch, Arrived, Serve, EndsWait, Kept, PodIndex, OutOfPods, Runnable, Fed,
         PodsFinished, AllStocked;
    ServeEffect(cfg, s, podv, rx);
    var r := Serve(cfg, s, podv, rx);
    MeshesKept(cfg, s, r.pods);
    var packet := FinishPacket(r.pods[id].groups[i]);
    SenderCompletes(cfg, r.pods, id, i);
    ServeAppend(cfg, s, podv, rx, [packet]);
    OnePacket(cfg, r.pods, podv, packet);
  }

  lemma {:induction false} MeshesKept(cfg: Config, s: seq<PodState>, t: seq<PodState>)
    requires cfg.pods.y > 0 && AllMeshes(cfg, s) && Kept(s, t)
    ensures AllMeshes(cfg, t)
  {
    hide Funded, Stocked, OtherAllocations, IsMeshOf, Mul;
  }

  lemma {:induction false} OnePacket(cfg: Config, s: seq<PodState>, podv: seq<nat>, packet: Packet)
    requires AllInv(s) && EndsWait(cfg, s, packet) && !PodsFinished(s, podv)
    ensures var r := Serve(cfg, s, podv, [packet]); r.completions == 1 && !r.verdict.Undefined?
  {
    hide AllInv, Total, Relaunch, Arrived, PodsFinished, OutOfPods, EndsWait, PodIndex;
    assert Await(cfg, s, [packet]) == 0;
    InRangePacket(cfg, s, packet);
    var t := Relaunch(Arrived(cfg, s, packet), PodIndex(cfg, packet.src)).0;
    assert [packet][1..] == [];
    assert Serve(cfg, t, podv, []).completions == 0;
  }

  lemma {:induction false} ServeReachesEnd(cfg: Config, s: seq<PodState>, podv: seq<nat>, rx: seq<Packet>) returns (more: seq<Packet>)
    requires GoodPods(cfg) && AllMeshes(cfg, s) && AllInv(s) && AllFed(s, podv)
    requires Serve(cfg, s, podv, rx).verdict.Waiting?
    ensures var r := Serve(cfg, s, podv, rx + more);
            && !r.verdict.Waiting? && !r.verdict.Undefined?
            && (AllStocked(s) ==> r.verdict.Done? && PodsFinished(r.pods, podv))
    decreases Total(s) - Serve(cfg, s, podv, rx).completions
  {
    hide GoodPods, AllInv, AllMeshes, Total, Serve, Kept, Runnable, AllFinished, AllStocked, KnownSources;
    ServeEffect(cfg, s, podv, rx);
    var r := Serve(cfg, s, podv, rx);
    var id :| id in podv && !AllFinished(r.pods[id]);
    var i :| 0 <= i < |r.pods[id].groups| && r.pods[id].groups[i].status == Launched;
    NextCompletes(cfg, s, podv, rx, id, i);
    var one := [FinishPacket(r.pods[id].groups[i])];
    ServeEffect(cfg, s, podv, rx + one);
    if Serve(cfg, s, podv, rx + one).verdict.Waiting? {
      var rest := ServeReachesEnd(cfg, s, podv, rx + one);
      more := one + rest;
      assert rx + more == rx + one + rest;
      ServeEffect(cfg, s, podv, rx + more);
    } else {
      more := one;
    }
  }

  // A loop that waits has launched all pods.
  lemma {:induction false} Started(cfg: Config, s: seq<PodState>, podv: seq<nat>, rx: seq<Packet>)
    requires GoodPods(cfg) && AllMeshes(cfg, s) && AllInv(s) && AllRunnable(s, podv)
    requires Execute(cfg, s, podv, rx).verdict.Waiting?
    ensures var (t, e) := LaunchAll(s, podv);
            e.None? && AllMeshes(cfg, t) && AllFed(t, podv) && (AllStocked(s) ==> AllStocked(t))
  {
    PodsPositive(cfg);
    hide GoodPods, AllInv, AllMeshes, Total, Serve, LaunchAll, Kept, Runnable, AllFinished, AllStocked, AllFed;
    LaunchAllEffect(s, podv, []);
    assert [] + podv == podv;
    var t := LaunchAll(s, podv).0;
    MeshesKept(cfg, s, t);
    if AllStocked(s) { StockedPods(s, t); }
  }

  /** From every point at which the loop waits, finish packets of running groups bring it to its end, and to the end of all
  groups of the list if every pod has a stock of arguments. */
  lemma {:induction false} ReachesEnd(cfg: Config, s: seq<PodState>, podv: seq<nat>, rx: seq<Packet>) returns (more: seq<Packet>)
    requires GoodPods(cfg) && AllMeshes(cfg, s) && AllInv(s) && AllRunnable(s, podv)
    requires Execute(cfg, s, podv, rx).verdict.Waiting?
    ensures var r := Execute(cfg, s, podv, rx + more);
            && !r.verdict.Waiting? && !r.verdict.Undefined?
            && (AllStocked(s) ==> r.verdict.Done? && PodsFinished(r.pods, podv))
  {
    hide GoodPods, AllInv, AllMeshes, Total, Serve, LaunchAll, Runnable, Execute, PodsFinished, AllStocked, AllFed;
    Started(cfg, s, podv, rx);
    ExecuteBy(cfg, s, podv, rx);
    more := ServeReachesEnd(cfg, LaunchAll(s, podv).0, podv, rx);
    ExecuteBy(cfg, s, podv, rx + more);
  }

  lemma {:induction false} ExecuteBy(cfg: Config, s: seq<PodState>, podv: seq<nat>, rx: seq<Packet>)
    requires AllInv(s) && AllRunnable(s, podv) && LaunchAll(s, podv).1.None?
    ensures Execute(cfg, s, podv, rx) == Serve(cfg, LaunchAll(s, podv).0, podv, rx)
  {
    hide AllInv, LaunchAll, Serve, Total, Runnable;
  }
}
