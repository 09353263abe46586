/** Whole runs of the tile-group scheduler of a pod: safety, progress, and what is given back at the end.

libraries/bsg_manycore_cuda.cpp
*/
module GroupRuns {
  import opened Bits
  import opened Wrappers
  import opened Geometry
  import opened TileGroups
  import opened GroupMemory
  import M = MemoryManagement

  // -------------------- events --------------------

  datatype Packet = Packet(src: Coord, epa: nat, data: nat)

  // What a request packet does to the pod it comes from
  ghost function Received(p: PodState, packet: Packet): PodState
    requires Inv(p)
  {
    var i := FindGroup(p.groups, packet.src, packet.epa);
    if packet.data == FINISH_SIGNAL && i < |p.groups| then
      CanComplete(p, i);
      Completed(p, i)
    else p
  }

  lemma {:induction false} CanComplete(p: PodState, i: nat)
    requires Inv(p) && i < |p.groups| && Active(p.groups[i])
    ensures WellFormed(p) && p.kernels[p.groups[i].kernel.value].refcount > 0
  {
    hide Inv, WellFormed;
    CompletedKeeps(p, i);
  }

  // A running group with the origin and the finish address of the packet
  predicate Sent(g: Group, packet: Packet) {
    packet.data == 0xFACE && g.status == Launched && g.origin == packet.src && g.finishEpa == packet.epa
  }

  /** A packet completes the first running group whose origin it comes from and whose finish address and value it carries;
  any other packet changes nothing. */
  lemma {:induction false} ReceivedExactly(p: PodState, packet: Packet)
    requires Inv(p)
    ensures (forall i :: 0 <= i < |p.groups| ==> !Sent(p.groups[i], packet)) ==> Received(p, packet) == p
    ensures forall i :: 0 <= i < |p.groups| && Sent(p.groups[i], packet)
                        && (forall j :: 0 <= j < i ==> !Sent(p.groups[j], packet)) ==>
              && WellFormed(p) && p.kernels[p.groups[i].kernel.value].refcount > 0
              && Received(p, packet) == Completed(p, i)
  {
    hide Inv, Completed, WellFormed;
    var n := FindGroup(p.groups, packet.src, packet.epa);
    if packet.data == 0xFACE && n < |p.groups| {
      assert Sent(p.groups[n], packet);
      CanComplete(p, n);
    }
    forall i | 0 <= i < |p.groups| && Sent(p.groups[i], packet) && (forall j :: 0 <= j < i ==> !Sent(p.groups[j], packet))
      ensures i == n
    {
      assert Matches(p.groups[i], packet.src, packet.epa);
    }
  }

  datatype Event =
    | Enqueue(gridDim: Coord, dim: Coord, argc: nat, known: bool)
    | Launch
    | Receive(packet: Packet)

  ghost function After(p: PodState, e: Event): (q: PodState)
    requires Inv(p)
    ensures Inv(q)
  {
    hide Inv, TryLaunch, Completed;
    InvWellFormed(p);
    match e
    case Enqueue(gridDim, dim, argc, known) => (EnqueuedKeeps(p, gridDim, dim, argc, known); Enqueued(p, gridDim, dim, argc, known))
    case Launch => (TryLaunchKeeps(p); TryLaunch(p).0)
    case Receive(packet) => (ReceivedKeeps(p, packet); Received(p, packet))
  }

  lemma {:induction false} TryLaunchKeeps(p: PodState)
    requires Inv(p) && WellFormed(p)
    ensures Inv(TryLaunch(p).0) && Advanced(p, TryLaunch(p).0)
  {
    hide Inv, WellFormed, Pass, Busy;
    PassKeeps(p, 0, Coord(0, 0), true);
  }

  lemma {:induction false} ReceivedKeeps(p: PodState, packet: Packet)
    requires Inv(p)
    ensures Inv(Received(p, packet))
  {
    hide Inv, Completed, WellFormed;
    var i := FindGroup(p.groups, packet.src, packet.epa);
    if packet.data == FINISH_SIGNAL && i < |p.groups| {
      CompletedKeeps(p, i);
    }
  }

  ghost function Run(p: PodState, es: seq<Event>): (q: PodState)
    requires Inv(p)
    ensures Inv(q)
  {
    hide Inv;
    if es == [] then p else After(Run(p, es[..|es| - 1]), es[|es| - 1])
  }

  // A pod whose mesh has just been set up
  ghost predicate IsNew(p: PodState) {
    && Shaped(p.mesh) && (forall c :: !Busy(p.mesh, c))
    && p.groups == [] && p.kernels == [] && p.heap.alignment > 0
  }

  /** After any history of enqueues, launch passes and packets, a tile is busy exactly when it lies in the rectangle of
  one allocated or launched group, all those rectangles lie inside the mesh, and no two of them share a tile. */
  lemma {:induction false} RunSafety(p: PodState, es: seq<Event>, c: Coord)
    requires IsNew(p)
    ensures Inv(p)
    ensures var q := Run(p, es);
            && (Busy(q.mesh, c) <==> exists i :: Holds(q.groups, i, c))
            && (forall i :: Holds(q.groups, i, c) ==> InMesh(q.mesh, c))
            && (forall i, j :: Holds(q.groups, i, c) && Holds(q.groups, j, c) ==> i == j)
  {
    hide Busy, TileId;
    assert Inv(p);
    BusyIffHeld(Run(p, es).mesh, Run(p, es).groups, c);
  }

  // -------------------- device memory over a run --------------------

  // At no point of the run does an allocation start at or beyond 0xFFFFFFFF.
  ghost predicate StaysLow(p: PodState, es: seq<Event>)
    requires Inv(p)
  {
    LowStarts(Run(p, es).heap) && (es == [] || StaysLow(p, es[..|es| - 1]))
  }

  /** After any history that stays low, active groups own distinct allocated argument blocks, apart from those launched
  on a full heap, which own none. */
  lemma {:induction false} DistinctArguments(p: PodState, es: seq<Event>, i: nat, j: nat)
    requires Inv(p) && MemoryInv(p) && StaysLow(p, es)
    requires var q := Run(p, es);
             i < j < |q.groups| && Active(q.groups[i]) && Active(q.groups[j]) && q.groups[i].argv != NO_ADDRESS
    ensures var q := Run(p, es);
            q.groups[i].argv != q.groups[j].argv && q.groups[i].argv in M.Allocations(q.heap.busy)
  {
    hide Inv, GoodHeap, M.Allocations, Run, StaysLow, OtherAllocations;
    RunMemory(p, es);
  }

  // The bytes of the arguments of a running group
  function ArgumentEnd(q: PodState, i: nat): nat
    requires i < |q.groups| && q.groups[i].kernel.Some? && q.groups[i].kernel.value < |q.kernels|
  {
    q.groups[i].argv + (4 * q.kernels[q.groups[i].kernel.value].argc) % 0x1_0000_0000
  }

  /** ... and the arguments of two of them, four bytes each, share no byte. */
  lemma {:induction false} ArgumentsApart(p: PodState, es: seq<Event>, i: nat, j: nat)
    requires Inv(p) && MemoryInv(p) && StaysLow(p, es)
    requires var q := Run(p, es);
             && i < j < |q.groups| && Active(q.groups[i]) && Active(q.groups[j])
             && q.groups[i].argv != NO_ADDRESS && q.groups[j].argv != NO_ADDRESS
    ensures var q := Run(p, es);
            && q.groups[i].kernel.Some? && q.groups[i].kernel.value < |q.kernels|
            && q.groups[j].kernel.Some? && q.groups[j].kernel.value < |q.kernels|
            && (ArgumentEnd(q, i) <= q.groups[j].argv || ArgumentEnd(q, j) <= q.groups[i].argv)
  {
    hide Inv, M.Valid, M.Allocations, Run, StaysLow, OtherAllocations, LowStarts;
    RunMemory(p, es);
    var q := Run(p, es);
    assert HasArguments(q.heap, q.groups[i], q.kernels) && HasArguments(q.heap, q.groups[j], q.kernels);
    BlocksApart(q.heap, q.groups[i].argv, q.groups[j].argv);
  }

  // Two allocated blocks are disjoint.
  lemma {:induction false} BlocksApart(h: M.Heap, a: nat, b: nat)
    requires M.Valid(h) && a in M.Allocations(h.busy) && b in M.Allocations(h.busy) && a != b
    ensures a + M.Allocations(h.busy)[a] <= b || b + M.Allocations(h.busy)[b] <= a
  {
    hide M.Valid, M.Allocations;
    var i := M.AllocationBlock(h.busy, a);
    var j := M.AllocationBlock(h.busy, b);
    var n := |h.free|;
    assert (h.free + h.busy)[n + i] == h.busy[i] && (h.free + h.busy)[n + j] == h.busy[j];
    if i < j {
      M.TilesMeansDisjoint(h, n + i, n + j);
    } else {
      M.TilesMeansDisjoint(h, n + j, n + i);
    }
  }

  lemma {:induction false} RunMemory(p: PodState, es: seq<Event>)
    requires Inv(p) && MemoryInv(p) && StaysLow(p, es)
    ensures MemoryInv(Run(p, es)) && SameOthers(p, Run(p, es))
  {
    hide Inv, MemoryInv, LowStarts, OtherAllocations, After;
    if es == [] {
    } else {
      RunMemory(p, es[..|es| - 1]);
      AfterMemory(Run(p, es[..|es| - 1]), es[|es| - 1]);
    }
  }

  lemma {:induction false} AfterMemory(p: PodState, e: Event)
    requires Inv(p) && MemoryInv(p) && LowStarts(After(p, e).heap)
    ensures MemoryInv(After(p, e)) && SameOthers(p, After(p, e))
  {
    InvWellFormed(p);
    hide Inv, MemoryInv, LowStarts, OtherAllocations, Pass, Completed, Enqueued, WellFormed, FindGroup;
    match e
    case Enqueue(gridDim, dim, argc, known) =>
      EnqueuedMemory(p, gridDim, dim, argc, known);
    case Launch =>
      PassMemory(p, 0, Coord(0, 0), true);
    case Receive(packet) =>
      var i := FindGroup(p.groups, packet.src, packet.epa);
      if packet.data == FINISH_SIGNAL && i < |p.groups| {
        CompletedMemory(p, i);
      }
  }

  // What the grids of a run are going to ask for
  function Orders(es: seq<Event>, alignment: nat): nat
    requires alignment > 0
  {
    if es == [] then 0
    else
      Orders(es[..|es| - 1], alignment)
      + match es[|es| - 1] case Enqueue(gridDim, _, argc, _) => GridDemand(gridDim, argc, alignment) case _ => 0
  }

  /** A caller can tell in advance that a run stays low: it does if the arguments of all its groups fit behind what is
  already in use. */
  lemma {:induction false} BudgetStaysLow(p: PodState, es: seq<Event>, more: nat)
    requires Inv(p) && p.heap.alignment > 0 && Funded(p, Orders(es, p.heap.alignment) + more)
    ensures StaysLow(p, es) && Funded(Run(p, es), more) && Run(p, es).heap.alignment == p.heap.alignment
    ensures SameOthers(p, Run(p, es))
  {
    hide Inv, Funded, LowStarts, OtherAllocations, After, GridDemand;
    if es == [] {
      FundedIsLow(p, more);
    } else {
      var n, al := |es| - 1, p.heap.alignment;
      var order := match es[n] case Enqueue(gridDim, _, argc, _) => GridDemand(gridDim, argc, al) case _ => 0;
      assert Orders(es, al) == Orders(es[..n], al) + order;
      BudgetStaysLow(p, es[..n], order + more);
      AfterBudget(Run(p, es[..n]), es[n], more);
      FundedIsLow(Run(p, es), more);
    }
  }

  lemma {:induction false} AfterBudget(p: PodState, e: Event, more: nat)
    requires Inv(p) && p.heap.alignment > 0
    requires Funded(p, (match e case Enqueue(gridDim, _, argc, _) => GridDemand(gridDim, argc, p.heap.alignment) case _ => 0) + more)
    ensures Funded(After(p, e), more) && SameOthers(p, After(p, e)) && After(p, e).heap.alignment == p.heap.alignment
  {
    InvWellFormed(p);
    hide Inv, Funded, OtherAllocations, Pass, Completed, WellFormed, FindGroup, GridDemand;
    match e
    case Enqueue(gridDim, dim, argc, known) =>
      EnqueuedBudget(p, gridDim, dim, argc, known, more);
      EnqueuedFrame(p, gridDim, dim, argc, known);
    case Launch =>
      PassBudget(p, 0, Coord(0, 0), true, more);
      PassAlignment(p, 0, Coord(0, 0), true);
    case Receive(packet) =>
      var i := FindGroup(p.groups, packet.src, packet.epa);
      if packet.data == FINISH_SIGNAL && i < |p.groups| {
        CompletedBudget(p, i, more);
        CompletedFrame(p, i);
      }
  }

  predicate KnownNames(es: seq<Event>) { forall e :: e in es && e.Enqueue? ==> e.known }

  /** The same for launches: over a history whose grids have known kernels and ask for no more than the stock, no launch
  fails, whatever addresses are handed out. */
  lemma {:induction false} StockLasts(p: PodState, es: seq<Event>, more: nat)
    requires Inv(p) && Stocked(p, Orders(es, p.heap.alignment) + more) && KnownNames(es)
    ensures WellFormed(Run(p, es)) && TryLaunch(Run(p, es)).1.None?
  {
    assert p.heap.alignment > 0;
    hide Inv, Stocked, Run, GridDemand, Pass, WellFormed, Orders;
    RunStock(p, es, more);
    InvWellFormed(Run(p, es));
    StockedPass(Run(p, es), 0, Coord(0, 0), true, more);
  }

  lemma {:induction false} RunStock(p: PodState, es: seq<Event>, more: nat)
    requires Inv(p) && p.heap.alignment > 0 && Stocked(p, Orders(es, p.heap.alignment) + more) && KnownNames(es)
    ensures Stocked(Run(p, es), more) && Run(p, es).heap.alignment == p.heap.alignment
  {
    hide Inv, Stocked, After, GridDemand;
    if es == [] {
    } else {
      var n, al := |es| - 1, p.heap.alignment;
      var order := match es[n] case Enqueue(gridDim, _, argc, _) => GridDemand(gridDim, argc, al) case _ => 0;
      assert Orders(es, al) == Orders(es[..n], al) + order;
      assert es[n] in es;
      RunStock(p, es[..n], order + more);
      AfterStock(Run(p, es[..n]), es[n], more);
    }
  }

  lemma {:induction false} AfterStock(p: PodState, e: Event, more: nat)
    requires Inv(p) && (e.Enqueue? ==> e.known)
    requires Stocked(p, (match e case Enqueue(gridDim, _, argc, _) => GridDemand(gridDim, argc, p.heap.alignment) case _ => 0) + more)
    ensures Stocked(After(p, e), more) && After(p, e).heap.alignment == p.heap.alignment
  {
    InvWellFormed(p);
    hide Inv, Stocked, Pass, Completed, WellFormed, FindGroup, GridDemand;
    match e
    case Enqueue(gridDim, dim, argc, known) =>
      StockedGrid(p, gridDim, dim, argc, more);
      EnqueuedFrame(p, gridDim, dim, argc, known);
    case Launch =>
      StockedPass(p, 0, Coord(0, 0), true, more);
      PassAlignment(p, 0, Coord(0, 0), true);
    case Receive(packet) =>
      var i := FindGroup(p.groups, packet.src, packet.epa);
      if packet.data == FINISH_SIGNAL && i < |p.groups| {
        StockedCompletion(p, i, more);
        CompletedFrame(p, i);
      }
  }

  lemma {:induction false} EnqueuedFrame(p: PodState, gridDim: Coord, dim: Coord, argc: nat, known: bool)
    ensures Enqueued(p, gridDim, dim, argc, known).heap == p.heap
  {
    hide NewGroups, Mul;
  }

  lemma {:induction false} CompletedFrame(p: PodState, i: nat)
    requires WellFormed(p) && i < |p.groups| && p.groups[i].status != Finished
    requires p.kernels[p.groups[i].kernel.value].refcount > 0
    ensures Completed(p, i).heap.alignment == p.heap.alignment
  {
    hide Painted, M.Free;
    FreeKeepsFrame(p.heap, p.groups[i].argv);
  }

  lemma {:induction false} PassAlignment(p: PodState, i: nat, lastFailed: Coord, skip: bool)
    requires WellFormed(p) && i <= |p.groups|
    ensures Pass(p, i, lastFailed, skip).0.heap.alignment == p.heap.alignment
    decreases |p.groups| - i
  {
    hide Step, WellFormed;
    if i == |p.groups| {
    } else {
      var s := Step(p, i, lastFailed, skip);
      StepAlignment(p, i, lastFailed, skip);
      if s.error.None? { PassAlignment(s.pod, i + 1, s.lastFailed, skip); }
    }
  }

  lemma {:induction false} StepAlignment(p: PodState, i: nat, lastFailed: Coord, skip: bool)
    requires WellFormed(p) && i < |p.groups|
    ensures Step(p, i, lastFailed, skip).pod.heap.alignment == p.heap.alignment
  {
    hide Painted, FirstFit, M.Alloc, Shaped;
    if p.groups[i].status == Initialized {
      AllocGrows(p.heap, BytesFor(p, i));
    }
  }

  predicate Idle(p: PodState) { forall i :: 0 <= i < |p.groups| ==> !Active(p.groups[i]) }

  // All tiles are free, no kernel is referenced and nothing is unfinished.
  ghost predicate FreeAgain(q: PodState) {
    && (forall c :: !Busy(q.mesh, c))
    && (forall k :: 0 <= k < |q.kernels| ==> q.kernels[k].refcount == 0)
    && Tally(Unfinished, q.groups) == 0
  }

  // Besides, the allocations are those of the idle pod from before, if that had a budget for its arguments.
  ghost predicate GivenBack(p: PodState, q: PodState) {
    FreeAgain(q) && (Idle(p) && Funded(p, 0) ==> M.Allocations(q.heap.busy) == M.Allocations(p.heap.busy))
  }

  lemma {:induction false} FinishedIsFree(q: PodState)
    requires Inv(q) && AllFinished(q)
    ensures FreeAgain(q)
  {
    hide Busy, Tally, TileId;
    forall c ensures !Busy(q.mesh, c) {
      BusyIffHeld(q.mesh, q.groups, c);
    }
    TallyUniform(Unfinished, q.groups, false);
    forall k: nat | k < |q.kernels|
      ensures q.kernels[k].refcount == 0
    {
      TallyUniform(OfKernel(k), q.groups, false);
    }
  }

  // Two idle pods that differ in argument blocks only have the same allocations.
  lemma {:induction false} SameAllocations(p: PodState, q: PodState)
    requires Idle(p) && AllFinished(q) && SameOthers(p, q)
    ensures M.Allocations(q.heap.busy) == M.Allocations(p.heap.busy)
  {
    hide OtherAllocations, M.Allocations;
    NothingActive(p);
    NothingActive(q);
  }

  /** When every group has finished, everything that the groups held is given back. */
  lemma {:induction false} AllGivenBack(p: PodState, q: PodState)
    requires Inv(q) && AllFinished(q) && (Funded(p, 0) ==> SameOthers(p, q))
    ensures GivenBack(p, q)
  {
    hide Inv, AllFinished, Idle, Funded, OtherAllocations, M.Allocations, FreeAgain;
    FinishedIsFree(q);
    if Idle(p) && Funded(p, 0) { SameAllocations(p, q); }
  }

  lemma {:induction false} NothingActive(p: PodState)
    requires Idle(p)
    ensures OtherAllocations(p.heap, p.groups) == M.Allocations(p.heap.busy)
  {
    hide M.Allocations;
    assert ArgvSet(p.groups) == {};
  }

  /** After any history, once every group has finished, tiles and kernel references are given back; and after any history
  that stays low, the allocator's busy set is the one from before. */
  lemma {:induction false} RunGivesBack(p: PodState, es: seq<Event>)
    requires Inv(p) && AllFinished(Run(p, es))
    ensures FreeAgain(Run(p, es))
    ensures Idle(p) && MemoryInv(p) && StaysLow(p, es) ==> M.Allocations(Run(p, es).heap.busy) == M.Allocations(p.heap.busy)
  {
    hide Inv, OtherAllocations, FreeAgain, Run, StaysLow, MemoryInv, AllFinished, Idle, M.Allocations;
    FinishedIsFree(Run(p, es));
    if Idle(p) && MemoryInv(p) && StaysLow(p, es) {
      RunMemory(p, es);
      SameAllocations(p, Run(p, es));
    }
  }

  // A kernel that is cleaned up exactly when its last group is done
  predicate Live(p: PodState, k: nat) {
    k < |p.kernels| && (p.kernels[k].refcount == 0 <==> p.kernels[k].released == 1)
  }

  lemma {:induction false} AfterKeepsLive(p: PodState, e: Event, k: nat)
    requires Inv(p) && k < |p.kernels|
    ensures k < |After(p, e).kernels| && (Live(After(p, e), k) <==> Live(p, k))
  {
    InvWellFormed(p);
    hide Inv, Completed, Enqueued, TryLaunch, WellFormed;
    match e
    case Enqueue(gridDim, dim, argc, known) =>
      EnqueuedKernels(p, gridDim, dim, argc, known);
    case Launch =>
      TryLaunchKeeps(p);
      AdvancedKernels(p, TryLaunch(p).0);
    case Receive(packet) =>
      var i := FindGroup(p.groups, packet.src, packet.epa);
      if packet.data == FINISH_SIGNAL && i < |p.groups| {
        CanComplete(p, i);
        CompletedKernels(p, i, k);
      }
  }

  lemma {:induction false} EnqueuedKernels(p: PodState, gridDim: Coord, dim: Coord, argc: nat, known: bool)
    ensures var q := Enqueued(p, gridDim, dim, argc, known);
            q.kernels == p.kernels + [Kernel(argc, known, Mul(gridDim.x, gridDim.y), 0)]
  {
    hide NewGroups, Mul;
  }

  lemma {:induction false} AdvancedKernels(p: PodState, q: PodState)
    requires Advanced(p, q)
    ensures q.kernels == p.kernels
  {
  }

  lemma {:induction false} CompletedKernels(p: PodState, i: nat, k: nat)
    requires Inv(p) && WellFormed(p) && i < |p.groups| && Active(p.groups[i]) && k < |p.kernels|
    requires p.kernels[p.groups[i].kernel.value].refcount > 0
    ensures |Completed(p, i).kernels| == |p.kernels| && (Live(Completed(p, i), k) <==> Live(p, k))
  {
    hide TileInv, WellFormed, Painted, M.Free, Tally;
  }

  /** Over every run a kernel is cleaned up exactly once, when its last group completes, if its grid has a group at
  all; after any run the kernel of an empty grid has not been cleaned up. */
  lemma {:induction false} ReleasedOnce(p: PodState, gridDim: Coord, dim: Coord, argc: nat, known: bool, es: seq<Event>)
    requires Inv(p)
    ensures var q := After(p, Enqueue(gridDim, dim, argc, known));
            Live(q, |p.kernels|) <==> Mul(gridDim.x, gridDim.y) > 0
    ensures var q := After(p, Enqueue(gridDim, dim, argc, known));
            Live(Run(q, es), |p.kernels|) <==> Mul(gridDim.x, gridDim.y) > 0
  {
    hide Inv, Enqueued;
    var q := After(p, Enqueue(gridDim, dim, argc, known));
    EnqueuedKernels(p, gridDim, dim, argc, known);
    RunKeepsLive(q, es, |p.kernels|);
  }

  lemma {:induction false} RunKeepsLive(p: PodState, es: seq<Event>, k: nat)
    requires Inv(p) && k < |p.kernels|
    ensures k < |Run(p, es).kernels| && (Live(Run(p, es), k) <==> Live(p, k))
  {
    hide Inv, After, Live;
    if es == [] {
    } else {
      RunKeepsLive(p, es[..|es| - 1], k);
      AfterKeepsLive(Run(p, es[..|es| - 1]), es[|es| - 1], k);
    }
  }

  // -------------------- the shape that failed last --------------------

  ghost predicate StillFails(m: Mesh, lastFailed: Coord) {
    lastFailed == Coord(0, 0) || FirstFit(m, lastFailed).None?
  }

  lemma {:induction false} BusierStillFails(m: Mesh, m': Mesh, dim: Coord)
    requires m'.origin == m.origin && m'.dim == m.dim
    requires forall c :: Busy(m, c) ==> Busy(m', c)
    requires FirstFit(m, dim).None?
    ensures FirstFit(m', dim).None?
  {
    hide Busy, FirstFit;
    FirstFitComplete(m, dim);
    FirstFitComplete(m', dim);
    forall o ensures FreePlacement(m', dim, o) ==> FreePlacement(m, dim, o) {
    }
  }

  lemma {:induction false} EmptyFits(m: Mesh)
    requires Shaped(m)
    ensures FirstFit(m, Coord(0, 0)).Some?
  {
    hide FirstFit, Busy;
    FirstFitComplete(m, Coord(0, 0));
    assert FreePlacement(m, Coord(0, 0), m.origin);
  }

  // From group `i` on, the pass meets a waiting group of dimension (0, 0) while no shape has failed yet: its
  // dimension is the initial value of the remembered shape.
  ghost predicate MeetsEmpty(p: PodState, i: nat, lastFailed: Coord)
    requires WellFormed(p) && i <= |p.groups|
    decreases |p.groups| - i
  {
    if i == |p.groups| then false
    else if p.groups[i].status == Initialized && p.groups[i].dim == lastFailed == Coord(0, 0) then true
    else
      var s := Step(p, i, lastFailed, true);
      s.error.None? && MeetsEmpty(s.pod, i + 1, s.lastFailed)
  }

  lemma {:induction false} SameStep(p: PodState, i: nat, lastFailed: Coord, other: Coord)
    requires Inv(p) && WellFormed(p) && i < |p.groups| && StillFails(p.mesh, lastFailed)
    requires !(p.groups[i].status == Initialized && p.groups[i].dim == lastFailed == Coord(0, 0))
    ensures var s, t := Step(p, i, lastFailed, true), Step(p, i, other, false);
            s.pod == t.pod && s.error == t.error && StillFails(s.pod.mesh, s.lastFailed)
  {
    hide Inv, WellFormed, FirstFit, WithLaunch, Placed;
    var s := Step(p, i, lastFailed, true);
    StepKeeps(p, i, lastFailed, true);
    AdvancedMesh(p, s.pod);
    if lastFailed != Coord(0, 0) {
      BusierStillFails(p.mesh, s.pod.mesh, lastFailed);
    }
  }

  lemma {:induction false} AdvancedMesh(p: PodState, q: PodState)
    requires Advanced(p, q)
    ensures q.mesh.origin == p.mesh.origin && q.mesh.dim == p.mesh.dim
    ensures forall c :: Busy(p.mesh, c) ==> Busy(q.mesh, c)
  {
    hide Busy, Tally;
  }

  /** Remembering the last shape that failed changes nothing, unless the pass meets a waiting group of dimension (0, 0)
  before any shape has failed: that group is skipped although it would fit. */
  lemma {:induction false} SkipExact(p: PodState, i: nat, lastFailed: Coord, other: Coord)
    requires Inv(p) && WellFormed(p) && i <= |p.groups| && StillFails(p.mesh, lastFailed)
    ensures Pass(p, i, lastFailed, true) == Pass(p, i, other, false) <==> !MeetsEmpty(p, i, lastFailed)
    decreases |p.groups| - i
  {
    hide Inv, WellFormed, Step, StillFails, FirstFit, Advanced;
    if i == |p.groups| {
    } else {
      if p.groups[i].status == Initialized && p.groups[i].dim == lastFailed == Coord(0, 0) {
        SkippedGroupDiffers(p, i, other);
      } else {
        SameStep(p, i, lastFailed, other);
        var s, t := Step(p, i, lastFailed, true), Step(p, i, other, false);
        StepKeeps(p, i, lastFailed, true);
        if s.error.None? {
          SkipExact(s.pod, i + 1, s.lastFailed, t.lastFailed);
        }
      }
    }
  }

  /** In particular it changes nothing when no waiting group has dimension (0, 0). */
  lemma {:induction false} SkipHarmless(p: PodState)
    requires Inv(p) && WellFormed(p)
    requires forall i :: 0 <= i < |p.groups| && p.groups[i].status == Initialized ==> p.groups[i].dim != Coord(0, 0)
    ensures TryLaunch(p) == Pass(p, 0, Coord(0, 0), false)
  {
    hide Inv, WellFormed, Pass;
    NeverMeetsEmpty(p, 0, Coord(0, 0));
    SkipExact(p, 0, Coord(0, 0), Coord(0, 0));
  }

  lemma {:induction false} NeverMeetsEmpty(p: PodState, i: nat, lastFailed: Coord)
    requires Inv(p) && WellFormed(p) && i <= |p.groups|
    requires forall j :: 0 <= j < |p.groups| && p.groups[j].status == Initialized ==> p.groups[j].dim != Coord(0, 0)
    ensures !MeetsEmpty(p, i, lastFailed)
    decreases |p.groups| - i
  {
    hide Inv, WellFormed, Step, Busy, Tally;
    if i == |p.groups| {
    } else {
      var s := Step(p, i, lastFailed, true);
      StepKeeps(p, i, lastFailed, true);
      if s.error.None? { NeverMeetsEmpty(s.pod, i + 1, s.lastFailed); }
    }
  }

  lemma {:induction false} SkippedGroupDiffers(p: PodState, i: nat, other: Coord)
    requires Inv(p) && WellFormed(p) && i < |p.groups|
    requires p.groups[i].status == Initialized && p.groups[i].dim == Coord(0, 0)
    ensures Pass(p, i, Coord(0, 0), true) != Pass(p, i, other, false)
  {
    hide Inv, WellFormed, Pass;
    SkippedGroupWaits(p, i);
    EmptyGroupPlaced(p, i, other);
  }

  lemma {:induction false} SkippedGroupWaits(p: PodState, i: nat)
    requires Inv(p) && WellFormed(p) && i < |p.groups|
    requires p.groups[i].status == Initialized && p.groups[i].dim == Coord(0, 0)
    ensures Pass(p, i, Coord(0, 0), true).0.groups[i].status == Initialized
  {
    hide Inv, WellFormed, FirstFit, Advanced, WithLaunch, Placed;
    var s := Step(p, i, Coord(0, 0), true);
    assert s.pod == p && s.error.None?;
    PassKeeps(p, i + 1, Coord(0, 0), true);
  }

  lemma {:induction false} EmptyGroupPlaced(p: PodState, i: nat, other: Coord)
    requires Inv(p) && WellFormed(p) && i < |p.groups|
    requires p.groups[i].status == Initialized && p.groups[i].dim == Coord(0, 0)
    ensures Active(Pass(p, i, other, false).0.groups[i])
  {
    hide Inv, WellFormed, Step, Advanced;
    MeshShaped(p);
    EmptyFits(p.mesh);
    StepPlaces(p, i, other, false);
    var t := Step(p, i, other, false);
    StepKeeps(p, i, other, false);
    if t.error.None? {
      PassKeeps(t.pod, i + 1, t.lastFailed, false);
    }
  }

  // A waiting group that is looked at and has room becomes active, and launched unless there is an error.
  lemma {:induction false} StepPlaces(p: PodState, i: nat, lastFailed: Coord, skip: bool)
    requires Inv(p) && WellFormed(p) && i < |p.groups| && p.groups[i].status == Initialized
    requires FirstFit(p.mesh, p.groups[i].dim).Some? && !(skip && lastFailed == p.groups[i].dim)
    ensures var t := Step(p, i, lastFailed, skip);
            t.pod.groups[i].status == (if t.error.None? then Launched else Allocated)
  {
    hide Inv, WellFormed, FirstFit, FreePlacement, Advanced, WithLaunch, Placed, HasRoom;
    FirstFitComplete(p.mesh, p.groups[i].dim);
    LaunchStep(p, i, FirstFit(p.mesh, p.groups[i].dim).value);
  }

  lemma {:induction false} MeshShaped(p: PodState)
    requires Inv(p)
    ensures Shaped(p.mesh)
  {
    hide KernelInv;
  }

  // -------------------- progress --------------------

  // Every waiting group has a tile and fits the mesh, every launched one has a tile, and no launch has failed.
  predicate Runnable(p: PodState) {
    forall i :: 0 <= i < |p.groups| ==>
      var g := p.groups[i];
      && g.status != Allocated
      && (g.status != Finished ==> !Empty(g.dim))
      && (g.status == Initialized ==> Fits(p.mesh, g.dim))
  }

  predicate SomeLaunched(p: PodState) { exists i :: 0 <= i < |p.groups| && p.groups[i].status == Launched }

  // With every tile free, the pass launches the first group that waits.
  lemma {:induction false} FirstWaitingLaunched(p: PodState, i: nat)
    requires Inv(p) && WellFormed(p) && Runnable(p) && i < |p.groups|
    requires forall j :: 0 <= j < |p.groups| ==> p.groups[j].status != Launched
    requires exists j :: i <= j < |p.groups| && p.groups[j].status == Initialized
    ensures var (q, e) := Pass(p, i, Coord(0, 0), true); e.Some? || SomeLaunched(q)
    decreases |p.groups| - i
  {
    hide Inv, WellFormed, FirstFit, Advanced, WithLaunch, Placed;
    if p.groups[i].status != Initialized {
      FirstWaitingLaunched(p, i + 1);
    } else {
      IdleMeshHasRoom(p, p.groups[i].dim);
      WaitingLaunched(p, i);
    }
  }

  lemma {:induction false} WaitingLaunched(p: PodState, i: nat)
    requires Inv(p) && WellFormed(p) && i < |p.groups| && p.groups[i].status == Initialized
    requires p.groups[i].dim != Coord(0, 0) && FirstFit(p.mesh, p.groups[i].dim).Some?
    ensures var (q, e) := Pass(p, i, Coord(0, 0), true); e.Some? || SomeLaunched(q)
  {
    hide Inv, WellFormed, FirstFit, Advanced, Step;
    StepPlaces(p, i, Coord(0, 0), true);
    StepKeeps(p, i, Coord(0, 0), true);
    var s := Step(p, i, Coord(0, 0), true);
    if s.error.None? {
      PassKeeps(s.pod, i + 1, s.lastFailed, true);
      assert Pass(s.pod, i + 1, s.lastFailed, true).0.groups[i].status == Launched;
    }
  }

  lemma {:induction false} IdleMeshHasRoom(p: PodState, dim: Coord)
    requires Inv(p) && Fits(p.mesh, dim)
    requires forall j :: 0 <= j < |p.groups| ==> !Active(p.groups[j])
    ensures FirstFit(p.mesh, dim).Some?
  {
    hide KernelInv, Busy, FirstFit, TileId;
    forall c ensures !Busy(p.mesh, c) {
      BusyIffHeld(p.mesh, p.groups, c);
    }
    FirstFitComplete(p.mesh, dim);
    assert FreePlacement(p.mesh, dim, p.mesh.origin);
  }

  /** No deadlock: if a pod has unfinished groups and every waiting one has a tile and fits the mesh, then after a
  launch pass that reports no error some group runs, so a finish packet is due. */
  lemma {:induction false} SomethingRuns(p: PodState)
    requires Inv(p) && WellFormed(p) && Runnable(p) && !AllFinished(p)
    ensures var (q, e) := TryLaunch(p); e.None? ==> SomeLaunched(q) && Runnable(q)
  {
    hide Inv, WellFormed, Pass, FirstFit;
    PassKeeps(p, 0, Coord(0, 0), true);
    if !SomeLaunched(p) {
      var j :| 0 <= j < |p.groups| && p.groups[j].status != Finished;
      FirstWaitingLaunched(p, 0);
    }
    PassRunnable(p, 0, Coord(0, 0));
    StillLaunched(p, TryLaunch(p).0);
  }

  lemma {:induction false} StillLaunched(p: PodState, q: PodState)
    requires Advanced(p, q)
    ensures SomeLaunched(p) ==> SomeLaunched(q)
    ensures AllFinished(p) <==> AllFinished(q)
  {
    hide Busy, Tally;
    if i :| 0 <= i < |p.groups| && p.groups[i].status == Launched {
      assert q.groups[i] == p.groups[i];
    }
  }

  lemma {:induction false} PassRunnable(p: PodState, i: nat, lastFailed: Coord)
    requires Inv(p) && WellFormed(p) && i <= |p.groups| && Runnable(p)
    ensures var (q, e) := Pass(p, i, lastFailed, true); e.None? ==> Runnable(q)
    decreases |p.groups| - i
  {
    hide Inv, WellFormed, Step, Advanced, Fits, Empty;
    if i == |p.groups| {
    } else {
      StepKeeps(p, i, lastFailed, true);
      var s := Step(p, i, lastFailed, true);
      if s.error.None? {
        StepRunnable(p, i, lastFailed);
        PassRunnable(s.pod, i + 1, s.lastFailed);
      }
    }
  }

  lemma {:induction false} StepRunnable(p: PodState, i: nat, lastFailed: Coord)
    requires Inv(p) && WellFormed(p) && i < |p.groups| && Runnable(p)
    requires Step(p, i, lastFailed, true).error.None?
    ensures Runnable(Step(p, i, lastFailed, true).pod)
  {
    hide Inv, WellFormed, FirstFit, Empty, Placed, WithLaunch;
    var g := p.groups[i];
    var s := Step(p, i, lastFailed, true);
    StepKeeps(p, i, lastFailed, true);
    AdvancedMesh(p, s.pod);
    if g.status == Initialized && FirstFit(p.mesh, g.dim).Some? && lastFailed != g.dim {
      StepPlaces(p, i, lastFailed, true);
    }
  }

  lemma {:induction false} CompletedRunnable(p: PodState, i: nat)
    requires Inv(p) && Runnable(p) && i < |p.groups| && Active(p.groups[i])
    requires WellFormed(p) && p.kernels[p.groups[i].kernel.value].refcount > 0
    ensures Runnable(Completed(p, i))
  {
    hide Inv, WellFormed, Empty, Painted;
    MeshShaped(p);
    PaintedDims(p.mesh, p.groups[i].origin, p.groups[i].dim, Tile(false, p.mesh.origin, Coord(0, 0)));
  }

  lemma {:induction false} PaintedDims(m: Mesh, o: Coord, dim: Coord, t: Tile)
    requires Shaped(m)
    ensures Painted(m, o, dim, t).dim == m.dim && Painted(m, o, dim, t).origin == m.origin
  {
  }

  /** One turn of the execution loop of a pod: a launch pass without error, then the completion of any running group. */
  ghost predicate Turn(p: PodState, q: PodState) {
    && Inv(p) && WellFormed(p) && TryLaunch(p).1.None? && Inv(TryLaunch(p).0)
    && exists i :: CompletesTo(TryLaunch(p).0, i, q)
  }

  ghost predicate CompletesTo(r: PodState, i: int, q: PodState)
    requires Inv(r)
  {
    0 <= i < |r.groups| && r.groups[i].status == Launched && (CanComplete(r, i); q == Completed(r, i))
  }

  lemma {:induction false} TurnEffect(p: PodState, q: PodState)
    requires Inv(p) && Runnable(p) && Turn(p, q)
    ensures Inv(q) && Runnable(q) && Tally(Unfinished, q.groups) == Tally(Unfinished, p.groups) - 1
    ensures Funded(p, 0) ==> Funded(q, 0) && SameOthers(p, q)
    ensures Stocked(p, 0) ==> Stocked(q, 0)
  {
    hide Inv, WellFormed, Pass, Completed, OtherAllocations, Tally, Funded, Stocked;
    TryLaunchKeeps(p);
    PassRunnable(p, 0, Coord(0, 0));
    var r := TryLaunch(p).0;
    var i :| CompletesTo(r, i, q);
    CanComplete(r, i);
    CompletedKeeps(r, i);
    CompletedRunnable(r, i);
    AdvancedTally(p, r);
    if Funded(p, 0) {
      PassBudget(p, 0, Coord(0, 0), true, 0);
      CompletedBudget(r, i, 0);
    }
    if Stocked(p, 0) {
      StockedPass(p, 0, Coord(0, 0), true, 0);
      StockedCompletion(r, i, 0);
    }
  }

  lemma {:induction false} AdvancedTally(p: PodState, q: PodState)
    requires Advanced(p, q)
    ensures Tally(Unfinished, q.groups) == Tally(Unfinished, p.groups)
  {
    hide Tally, Busy;
  }

  /** Whatever order the device finishes groups in, the loop makes at most one turn per unfinished group, it never
  stops short of the last group except on a launch error, and when it stops without one, all is given back. A pod with a
  stock for its arguments has no launch error. */
  lemma {:induction false} AnyOrder(ps: seq<PodState>)
    requires |ps| > 0 && Inv(ps[0]) && Runnable(ps[0])
    requires forall n :: 0 <= n < |ps| - 1 ==> Turn(ps[n], ps[n + 1])
    ensures var q := ps[|ps| - 1];
            && Inv(q) && WellFormed(q)
            && Tally(Unfinished, q.groups) == Tally(Unfinished, ps[0].groups) - (|ps| - 1)
            && (AllFinished(q) || TryLaunch(q).1.Some? || exists q' :: Turn(q, q'))
            && (Stocked(ps[0], 0) ==> TryLaunch(q).1.None?)
            && (AllFinished(q) ==> GivenBack(ps[0], q))
  {
    hide Inv, Turn, Pass, Tally, OtherAllocations, WellFormed, GivenBack, Runnable, AllFinished, Funded, Stocked;
    var q := ps[|ps| - 1];
    TurnsEffect(ps);
    InvWellFormed(q);
    if Stocked(ps[0], 0) { StockedPass(q, 0, Coord(0, 0), true, 0); }
    if AllFinished(q) {
      AllGivenBack(ps[0], q);
    } else if TryLaunch(q).1.None? {
      NextTurn(q);
    }
  }

  lemma {:induction false} NextTurn(p: PodState)
    requires Inv(p) && WellFormed(p) && Runnable(p) && !AllFinished(p) && TryLaunch(p).1.None?
    ensures exists q :: Turn(p, q)
  {
    hide Inv, WellFormed, TryLaunch, Completed;
    TryLaunchKeeps(p);
    SomethingRuns(p);
    var r := TryLaunch(p).0;
    var i :| 0 <= i < |r.groups| && r.groups[i].status == Launched;
    CanComplete(r, i);
    assert CompletesTo(r, i, Completed(r, i));
    assert Turn(p, Completed(r, i));
  }

  lemma {:induction false} TurnsEffect(ps: seq<PodState>)
    requires |ps| > 0 && Inv(ps[0]) && Runnable(ps[0])
    requires forall n :: 0 <= n < |ps| - 1 ==> Turn(ps[n], ps[n + 1])
    ensures var q := ps[|ps| - 1];
            && Inv(q) && Runnable(q)
            && Tally(Unfinished, q.groups) == Tally(Unfinished, ps[0].groups) - (|ps| - 1)
            && (Funded(ps[0], 0) ==> Funded(q, 0) && SameOthers(ps[0], q))
            && (Stocked(ps[0], 0) ==> Stocked(q, 0))
  {
    hide Inv, Turn, Tally, OtherAllocations, Runnable, Funded, Stocked;
    if |ps| == 1 {
    } else {
      var n := |ps| - 1;
      TurnsEffect(ps[..n]);
      assert Turn(ps[n - 1], ps[n]);
      TurnEffect(ps[n - 1], ps[n]);
    }
  }

  // -------------------- attribution of finish packets --------------------

  /** At most one launched group with a tile matches a source tile, whatever its finish address: the packet of group
  `i` selects group `i`. */
  lemma {:induction false} PacketSelectsSender(p: PodState, i: nat)
    requires Inv(p) && Runnable(p) && i < |p.groups| && p.groups[i].status == Launched
    ensures FindGroup(p.groups, p.groups[i].origin, p.groups[i].finishEpa) == i
  {
    hide KernelInv, TileId, Busy, CanStart;
    var g := p.groups[i];
    var j := FindGroup(p.groups, g.origin, g.finishEpa);
    assert Holds(p.groups, i, g.origin);
    if j < |p.groups| {
      assert Holds(p.groups, j, g.origin);
    }
  }
}
