/** Device memory of tile groups: what `hb_mc_device_pod_malloc` hands out, and the argument blocks of running groups.

libraries/bsg_manycore_cuda.cpp
*/
module GroupMemory {
  import opened Bits
  import opened Quotients
  import opened Wrappers
  import opened Geometry
  import opened TileGroups
  import M = MemoryManagement

  // -------------------- 64-bit addresses in 32 bits --------------------

  // Every allocation starts where 32 bits can say so, and not at the value that stands for no address.
  ghost predicate LowStarts(h: M.Heap) { forall i :: 0 <= i < |h.busy| ==> h.busy[i].start < NO_ADDRESS }

  // The call hands out a new block at the address that the allocator chose.
  ghost predicate HandsOut(h: M.Heap, size: nat)
    requires h.alignment > 0
  {
    var (h', eva) := PodMalloc(h, size);
    && eva == M.Alloc(h, size).1 && eva != NO_ADDRESS
    && eva !in M.Allocations(h.busy)
    && M.Allocations(h'.busy) == M.Allocations(h.busy)[eva := M.RoundUp(size, h.alignment)]
  }

  /** On every heap, the caller gets the address of a new block if and only if the first block with room starts below
  0xFFFFFFFF. With no room the caller gets 0xFFFFFFFF, and success. */
  lemma {:induction false} PodMallocExact(h: M.Heap, size: nat)
    requires M.Valid(h) && h.alignment <= WORD32 && size < WORD32
    ensures h.alignment > 0 && M.Valid(PodMalloc(h, size).0)
    ensures HandsOut(h, size) <==> NextStart(h, size).Some? && NextStart(h, size).value < NO_ADDRESS
    ensures NextStart(h, size).None? ==> PodMalloc(h, size) == (h, NO_ADDRESS)
    ensures NextStart(h, size).Some? ==>
              && M.Alloc(h, size).1 == NextStart(h, size).value
              && PodMalloc(h, size).0.busy == h.busy + [M.Block(NextStart(h, size).value, M.RoundUp(size, h.alignment))]
  {
    hide M.RoundUp, M.Valid, M.Allocations, M.Count, Mod, M.Carve, M.Padded;
    HeapAlignment(h);
    RequestFits(size, h.alignment);
    M.AllocEffect(h, size);
    PaddedIs(h, size);
    var i := M.FirstFit(h.free, M.Padded(size, h.alignment));
    if i < |h.free| {
      M.StartIsNotNull(h, i);
    }
  }

  lemma {:induction false} PaddedIs(h: M.Heap, size: nat)
    requires M.Valid(h) && h.alignment <= WORD32 && size < WORD32
    ensures M.Padded(size, h.alignment) == M.RoundUp(size, h.alignment)
  {
    hide M.Tiles, M.AlignedBlocks, M.Total, Mod, M.RoundUp;
    RequestFits(size, h.alignment);
    M.PaddedWraps(size, h.alignment);
  }

  // A heap that reaches less than one alignment unit beyond 2^32 bytes
  predicate Short(h: M.Heap) { h.size < WORD32 + h.alignment }

  /** In such a heap no two live blocks share their 32-bit address, ... */
  lemma {:induction false} WordsDiffer(h: M.Heap, i: nat, j: nat)
    requires M.Valid(h) && Short(h) && i < j < |h.busy|
    ensures Wrap(h.busy[i].start) != Wrap(h.busy[j].start)
  {
    hide Mod, M.Count, M.Total;
    M.ListInside(h, h.busy);
    M.BusyStartsUnique(h, i, j);
    MultipleIsWhole(h.busy[i].size, h.alignment);
    MultipleIsWhole(h.busy[j].size, h.alignment);
  }

  lemma {:induction false} MultipleIsWhole(n: nat, m: nat)
    requires n > 0 && m > 0 && Mod(n, m) == 0
    ensures n >= m
  {
  }

  /** ... and a block that starts at or beyond 2^32 is reported at an address where no block starts: freeing that address
  does nothing, so the block is lost. */
  lemma {:induction false} HighBlockIsLost(h: M.Heap, i: nat)
    requires M.Valid(h) && Short(h) && i < |h.busy| && h.busy[i].start >= WORD32
    ensures Wrap(h.busy[i].start) !in M.Allocations(h.busy)
    ensures M.Free(h, Wrap(h.busy[i].start)) == h
  {
    hide Mod, M.Count, M.Total, M.Valid;
    var a := Wrap(h.busy[i].start);
    forall j | 0 <= j < |h.busy| ensures h.busy[j].start != a {
      if h.busy[j].start == a {
        WordsDiffer(h, if i < j then i else j, if i < j then j else i);
        assert false;
      }
    }
    if a in M.Allocations(h.busy) {
      var j := M.AllocationBlock(h.busy, a);
      assert false;
    }
  }

  lemma {:induction false} RoundUpOfMultiple(q: nat, m: nat)
    requires q > 0 && m > 0
    ensures M.RoundUp(q * m, m) == q * m && (q * m < WORD64 ==> M.Padded(q * m, m) == q * m)
  {
    MulIsTimes(q, m);
    DivModOf(q, m, 0);
  }

  // Two live blocks are reported at one address.
  ghost predicate Repeats(h: M.Heap) {
    exists i, j :: 0 <= i < j < |h.busy| && Wrap(h.busy[i].start) == Wrap(h.busy[j].start)
  }

  // The heap after the requests, as the runtime makes them
  function Requested(h: M.Heap, sizes: seq<nat>): M.Heap
    requires h.alignment > 0
    decreases |sizes|
  {
    if sizes == [] then h else (AllocGrows(h, sizes[0]); Requested(PodMalloc(h, sizes[0]).0, sizes[1..]))
  }

  predicate Requests(sizes: seq<nat>) { forall n :: n in sizes ==> n < WORD32 }

  lemma {:induction false} RequestedValid(h: M.Heap, sizes: seq<nat>)
    requires M.Valid(h) && h.alignment <= WORD32 && Requests(sizes)
    ensures var h' := Requested(h, sizes); M.Valid(h') && h'.size == h.size && h'.alignment == h.alignment
    decreases |sizes|
  {
    HeapAlignment(h);
    hide M.Valid, PodMalloc, NextStart, HandsOut;
    if sizes == [] {
    } else {
      assert sizes[0] in sizes && forall n :: n in sizes[1..] ==> n in sizes;
      PodMallocExact(h, sizes[0]);
      AllocGrows(h, sizes[0]);
      RequestedValid(PodMalloc(h, sizes[0]).0, sizes[1..]);
    }
  }

  // One block, all but one alignment unit of 2^32 bytes, and a block that starts 2^32 bytes behind the first
  function ThreeRequests(al: nat): seq<nat>
    requires al < WORD32
  {
    [al, WORD32 - al, al]
  }

  /** From a fresh heap some requests make two live blocks share a 32-bit address if and only if the heap has room for 2^32
  bytes and one alignment unit. */
  lemma {:induction false} RepeatsExactly(start: nat, size: nat, al: nat)
    requires M.Valid(M.Fresh(start, size, al)) && al < WORD32
    ensures al > 0
    ensures (exists sizes :: Requests(sizes) && Repeats(Requested(M.Fresh(start, size, al), sizes))) <==> size >= WORD32 + al
  {
    var h := M.Fresh(start, size, al);
    HeapAlignment(h);
    hide M.Valid, Repeats, Requested, M.Fresh;
    if size >= WORD32 + al {
      LongHeapRepeats(start, size, al);
      assert Requests(ThreeRequests(al));
    } else {
      forall sizes | Requests(sizes) ensures !Repeats(Requested(h, sizes)) {
        RequestedValid(h, sizes);
        ShortNeverRepeats(Requested(h, sizes));
      }
    }
  }

  lemma {:induction false} ShortNeverRepeats(h: M.Heap)
    requires M.Valid(h) && Short(h)
    ensures !Repeats(h)
  {
    hide M.Valid;
    forall i, j | 0 <= i < j < |h.busy| ensures Wrap(h.busy[i].start) != Wrap(h.busy[j].start) {
      WordsDiffer(h, i, j);
    }
  }

  lemma {:induction false} LongHeapRepeats(start: nat, size: nat, al: nat)
    requires M.Valid(M.Fresh(start, size, al)) && al < WORD32 && size >= WORD32 + al
    ensures al > 0 && Repeats(Requested(M.Fresh(start, size, al), ThreeRequests(al)))
    ensures var (h1, a) := PodMalloc(M.Fresh(start, size, al), al);
            var h2 := PodMalloc(h1, WORD32 - al).0;
            var (h3, c) := PodMalloc(h2, al);
            a == c == Wrap(start) && |h3.busy| == 3
  {
    HeapAlignment(M.Fresh(start, size, al));
    var h1, h2, h3 := ThreeBlocks(start, size, al);
    SameWord(start);
    hide M.Valid, PodMalloc, Wrap, M.Fresh;
    UnfoldThree(M.Fresh(start, size, al), ThreeRequests(al));
    assert Wrap(h3.busy[0].start) == Wrap(h3.busy[2].start);
  }

  lemma {:induction false} UnfoldThree(h: M.Heap, sizes: seq<nat>)
    requires h.alignment > 0 && |sizes| == 3
    ensures var h1 := PodMalloc(h, sizes[0]).0;
            && h1.alignment > 0
            && var h2 := PodMalloc(h1, sizes[1]).0;
               h2.alignment > 0 && Requested(h, sizes) == PodMalloc(h2, sizes[2]).0
  {
    hide PodMalloc;
    AllocGrows(h, sizes[0]);
    var h1 := PodMalloc(h, sizes[0]).0;
    AllocGrows(h1, sizes[1]);
    var h2 := PodMalloc(h1, sizes[1]).0;
    var s1, s2 := sizes[1..], sizes[1..][1..];
    assert s1[0] == sizes[1] && s2[0] == sizes[2] && s2[1..] == [];
    assert Requested(h2, s2) == PodMalloc(h2, sizes[2]).0;
    assert Requested(h1, s1) == Requested(h2, s2);
  }

  lemma {:induction false} ThreeBlocks(start: nat, size: nat, al: nat) returns (h1: M.Heap, h2: M.Heap, h3: M.Heap)
    requires M.Valid(M.Fresh(start, size, al)) && 0 < al < WORD32 && size >= WORD32 + al
    ensures h1.alignment == h2.alignment == al
    ensures PodMalloc(M.Fresh(start, size, al), al) == (h1, Wrap(start))
    ensures PodMalloc(h1, WORD32 - al).0 == h2
    ensures PodMalloc(h2, al) == (h3, Wrap(start + WORD32))
    ensures h3.busy == [M.Block(start, al), M.Block(start + al, WORD32 - al), M.Block(start + WORD32, al)]
  {
    assert start + size < WORD64 && Mod(WORD64, al) == 0;
    var u := DividesWord(al);
    assert (u - 1) * al == WORD32 - al;
    hide M.Valid, M.Padded, M.RoundUp, Mod, Wrap;
    RoundUpOfMultiple(1, al);
    RoundUpOfMultiple(u - 1, al);
    h1 := M.Heap(start, size, al, [M.Block(start + al, size - al)], [M.Block(start, al)], size - al);
    assert h1 == M.Alloc(M.Fresh(start, size, al), al).0;
    h2 := M.Alloc(h1, WORD32 - al).0;
    assert h2.busy == [M.Block(start, al), M.Block(start + al, WORD32 - al)];
    assert h2.free == [M.Block(start + WORD32, size - WORD32)];
    h3 := M.Alloc(h2, al).0;
  }

  // An alignment below 2^32 that divides 2^64 divides 2^32.
  lemma {:induction false} DividesWord(al: nat) returns (u: nat)
    requires 0 < al < WORD32 && Mod(WORD64, al) == 0
    ensures WORD32 == u * al && u >= 2
  {
    DivMod(WORD64, al);
    MulIsTimes(Div(WORD64, al), al);
    Pow2Of64();
    hide Pow2, Mod, Div, Mul;
    u := DividesSmaller(al, Div(WORD64, al), 64, 32);
    assert u * al == al * u;
    assert u != 0 && u != 1;
  }

  lemma {:induction false} SameWord(a: nat)
    ensures Wrap(a + WORD32) == Wrap(a)
  {
  }

  /** The shipped heap of 2 GiB behind the program: a second allocation after one of almost 2 GiB lies at 2^32 and is
  reported at address 0, where nothing is allocated. */
  lemma {:induction false} ShippedHeapWraps()
    ensures var h := M.Fresh(0x8000_0080, 0x8000_0000, 128);
            var (h1, a) := PodMalloc(h, 0x7FFF_FF80);
            var (h2, b) := PodMalloc(h1, 128);
            && a == 0x8000_0080 && b == 0
            && h2.busy == [M.Block(0x8000_0080, 0x7FFF_FF80), M.Block(WORD32, 128)] && 0 !in M.Allocations(h2.busy)
  {
    hide Mod, M.Padded, M.RoundUp;
    RoundUpOfMultiple(0xFF_FFFF, 128);
    RoundUpOfMultiple(1, 128);
    var h := M.Fresh(0x8000_0080, 0x8000_0000, 128);
    var h1 := M.Alloc(h, 0x7FFF_FF80).0;
    assert h1 == M.Heap(0x8000_0080, 0x8000_0000, 128, [M.Block(WORD32, 128)], [M.Block(0x8000_0080, 0x7FFF_FF80)], 128);
    var h2 := M.Alloc(h1, 128).0;
    assert h2.busy == [M.Block(0x8000_0080, 0x7FFF_FF80), M.Block(WORD32, 128)];
    assert h2.busy[..1][..0] == [];
    assert M.Allocations(h2.busy[..1]).Keys == {0x8000_0080};
  }

  // -------------------- argument blocks --------------------

  // A heap all of whose allocations have 32-bit addresses; its free memory may reach further.
  ghost predicate GoodHeap(h: M.Heap) { M.Valid(h) && h.alignment <= WORD32 && LowStarts(h) }

  /** The argument blocks of the active groups are allocated and distinct; a group launched on a full heap has the
  address `NO_ADDRESS` and no block. */
  ghost predicate ArgvInv(h: M.Heap, groups: seq<Group>) {
    && GoodHeap(h)
    && (forall i :: 0 <= i < |groups| && Active(groups[i]) ==>
          groups[i].argv == NO_ADDRESS || groups[i].argv in M.Allocations(h.busy))
    && (forall i, j :: 0 <= i < j < |groups| && Active(groups[i]) && Active(groups[j]) && groups[i].argv != NO_ADDRESS
          ==> groups[i].argv != groups[j].argv)
  }

  ghost function ArgvSet(groups: seq<Group>): set<nat> {
    set i | 0 <= i < |groups| && Active(groups[i]) :: groups[i].argv
  }

  // What is allocated apart from argument blocks
  ghost function OtherAllocations(h: M.Heap, groups: seq<Group>): map<nat, nat> {
    M.Allocations(h.busy) - ArgvSet(groups)
  }

  lemma {:induction false} NoAddressIsFree(h: M.Heap)
    requires GoodHeap(h)
    ensures NO_ADDRESS !in M.Allocations(h.busy)
  {
    hide M.Valid;
    if NO_ADDRESS in M.Allocations(h.busy) {
      var j := M.AllocationBlock(h.busy, NO_ADDRESS);
      assert false;
    }
  }

  // On a good heap, as long as the next block starts low
  lemma {:induction false} PodMallocEffect(h: M.Heap, size: nat)
    requires GoodHeap(h) && size < WORD32
    ensures h.alignment > 0
    ensures var (h', eva) := PodMalloc(h, size);
            && (LowStarts(h') <==> GoodHeap(h'))
            && (LowStarts(h') <==> NextStart(h, size).None? || NextStart(h, size).value < NO_ADDRESS)
            && (LowStarts(h') && eva == NO_ADDRESS ==> h' == h)
            && (LowStarts(h') && eva != NO_ADDRESS ==> HandsOut(h, size))
  {
    hide M.Valid, M.Allocations, HandsOut, M.RoundUp, NextStart, M.Alloc;
    PodMallocExact(h, size);
    AllocGrows(h, size);
    var h' := PodMalloc(h, size).0;
    if NextStart(h, size).Some? {
      assert h'.busy[|h.busy|].start == NextStart(h, size).value;
      forall i | 0 <= i < |h.busy| ensures h'.busy[i] == h.busy[i] {
      }
    }
  }

  lemma {:induction false} RequestFits(n: nat, m: nat)
    requires n < WORD32 && 0 < m <= WORD32
    ensures 0 < M.RoundUp(n, m) < WORD64
  {
    M.RoundUpAligned(n, m);
  }

  lemma {:induction false} HeapAlignment(h: M.Heap)
    requires M.Valid(h)
    ensures h.alignment > 0
  {
    hide M.Tiles, M.AlignedBlocks, Mod, M.Total;
  }

  // An allocated block with room for `size` bytes
  predicate HasBlock(h: M.Heap, address: nat, size: nat) {
    address in M.Allocations(h.busy) && M.Allocations(h.busy)[address] >= size
  }

  lemma {:induction false} GoodAlignment(h: M.Heap)
    requires GoodHeap(h)
    ensures h.alignment > 0
  {
    HeapAlignment(h);
  }

  lemma {:induction false} LaunchKeepsHeap(h: M.Heap, groups: seq<Group>, i: nat, size: nat, g: Group)
    requires ArgvInv(h, groups) && i < |groups| && !Active(groups[i]) && size < WORD32
    requires Active(g) && g.argv == PodMalloc(h, size).1 && LowStarts(PodMalloc(h, size).0)
    ensures ArgvInv(PodMalloc(h, size).0, groups[i := g])
    ensures OtherAllocations(PodMalloc(h, size).0, groups[i := g]) == OtherAllocations(h, groups)
    ensures g.argv != NO_ADDRESS ==> HasBlock(PodMalloc(h, size).0, g.argv, size)
  {
    hide GoodHeap, PodMalloc, M.Allocations, M.RoundUp, LowStarts;
    PodMallocEffect(h, size);
    GoodAlignment(h);
    M.RoundUpAligned(size, h.alignment);
    var h', gs := PodMalloc(h, size).0, groups[i := g];
    NoAddressIsFree(h);
    assert ArgvSet(gs) == ArgvSet(groups) + {g.argv} by {
      forall a | a in ArgvSet(groups) + {g.argv} ensures a in ArgvSet(gs) {
        if a == g.argv {
          assert gs[i].argv == a;
        } else {
          var j :| 0 <= j < |groups| && Active(groups[j]) && groups[j].argv == a;
          assert gs[j].argv == a;
        }
      }
    }
  }

  lemma {:induction false} CompletedKeepsHeap(h: M.Heap, groups: seq<Group>, i: nat, g': Group)
    requires ArgvInv(h, groups) && i < |groups| && Active(groups[i]) && !Active(g')
    ensures ArgvInv(M.Free(h, groups[i].argv), groups[i := g'])
    ensures OtherAllocations(M.Free(h, groups[i].argv), groups[i := g']) == OtherAllocations(h, groups)
  {
    hide M.Allocations, M.Valid, M.Free, LowStarts;
    var a, gs := groups[i].argv, groups[i := g'];
    M.FreeEffect(h, a);
    FreeKeepsLow(h, a);
    HeapAlignment(h);
    FreeKeepsFrame(h, a);
    NoAddressIsFree(h);
    forall b | b != a
      ensures b in ArgvSet(gs) <==> b in ArgvSet(groups)
    {
      if b in ArgvSet(groups) {
        var j :| 0 <= j < |groups| && Active(groups[j]) && groups[j].argv == b;
        assert gs[j].argv == b;
      }
    }
    if a != NO_ADDRESS {
      assert a !in ArgvSet(gs);
    }
    assert a in ArgvSet(groups);
  }

  lemma {:induction false} FreeKeepsLow(h: M.Heap, buf: nat)
    requires LowStarts(h)
    ensures LowStarts(M.Free(h, buf))
  {
  }

  lemma {:induction false} EnqueuedKeepsHeap(h: M.Heap, groups: seq<Group>, more: seq<Group>)
    requires ArgvInv(h, groups) && forall i :: 0 <= i < |more| ==> !Active(more[i])
    ensures ArgvInv(h, groups + more) && OtherAllocations(h, groups + more) == OtherAllocations(h, groups)
  {
    hide GoodHeap, M.Allocations;
    assert ArgvSet(groups + more) == ArgvSet(groups) by {
      forall a | a in ArgvSet(groups) ensures a in ArgvSet(groups + more) {
        var j :| 0 <= j < |groups| && Active(groups[j]) && groups[j].argv == a;
        assert (groups + more)[j].argv == a;
      }
    }
  }

  // The block of a running group has four bytes for each argument of its kernel.
  predicate HasArguments(h: M.Heap, g: Group, kernels: seq<Kernel>) {
    Active(g) && g.argv != NO_ADDRESS ==>
      && g.kernel.Some? && g.kernel.value < |kernels|
      && HasBlock(h, g.argv, (4 * kernels[g.kernel.value].argc) % 0x1_0000_0000)
  }

  ghost predicate AllArguments(p: PodState) {
    forall i :: 0 <= i < |p.groups| ==> HasArguments(p.heap, p.groups[i], p.kernels)
  }

  ghost predicate MemoryInv(p: PodState) { ArgvInv(p.heap, p.groups) && AllArguments(p) }

  lemma {:induction false} BlocksStay(h: M.Heap, size: nat, g: Group, kernels: seq<Kernel>)
    requires GoodHeap(h) && size < WORD32 && h.alignment > 0 && LowStarts(PodMalloc(h, size).0)
    requires HasArguments(h, g, kernels)
    ensures HasArguments(PodMalloc(h, size).0, g, kernels)
  {
    hide GoodHeap, PodMalloc, M.Allocations, M.RoundUp, LowStarts, NextStart;
    PodMallocEffect(h, size);
  }

  lemma {:induction false} LaunchArguments(p: PodState, i: nat, q: PodState, n: nat)
    requires MemoryInv(p) && i < |p.groups| && p.heap.alignment > 0 && n < WORD32
    requires q.heap == PodMalloc(p.heap, n).0 && LowStarts(q.heap) && q.kernels == p.kernels
    requires |q.groups| == |p.groups| && forall j :: 0 <= j < |p.groups| && j != i ==> q.groups[j] == p.groups[j]
    requires HasArguments(q.heap, q.groups[i], q.kernels)
    ensures AllArguments(q)
  {
    hide ArgvInv, PodMalloc, HasArguments, LowStarts;
    assert GoodHeap(p.heap) by { ArgvHeap(p.heap, p.groups); }
    forall j | 0 <= j < |q.groups|
      ensures HasArguments(q.heap, q.groups[j], q.kernels)
    {
      if j != i { BlocksStay(p.heap, n, p.groups[j], p.kernels); }
    }
  }

  lemma {:induction false} ArgvHeap(h: M.Heap, groups: seq<Group>)
    requires ArgvInv(h, groups)
    ensures GoodHeap(h)
  {
    hide GoodHeap;
  }

  lemma {:induction false} CompletedArguments(p: PodState, i: nat)
    requires MemoryInv(p) && WellFormed(p) && i < |p.groups| && Active(p.groups[i])
    requires p.kernels[p.groups[i].kernel.value].refcount > 0
    requires M.Allocations(M.Free(p.heap, p.groups[i].argv).busy) == M.Allocations(p.heap.busy) - {p.groups[i].argv}
    ensures AllArguments(Completed(p, i))
  {
    hide GoodHeap, Painted, M.Free, M.Allocations, LowStarts;
    var q := Completed(p, i);
    forall j | 0 <= j < |q.groups|
      ensures HasArguments(q.heap, q.groups[j], q.kernels)
    {
      if j != i && Active(p.groups[j]) && p.groups[j].argv != NO_ADDRESS {
        assert HasArguments(p.heap, p.groups[j], p.kernels);
        assert p.groups[j].argv != p.groups[i].argv;
      }
    }
  }

  lemma {:induction false} EnqueuedArguments(p: PodState, more: seq<Group>, k: Kernel, q: PodState)
    requires MemoryInv(p) && forall i :: 0 <= i < |more| ==> !Active(more[i])
    requires q.heap == p.heap && q.groups == p.groups + more && q.kernels == p.kernels + [k]
    ensures AllArguments(q)
  {
    hide ArgvInv, HasBlock;
    forall j | 0 <= j < |q.groups|
      ensures HasArguments(q.heap, q.groups[j], q.kernels)
    {
      if j < |p.groups| { assert HasArguments(p.heap, p.groups[j], p.kernels); }
    }
  }

  // Nothing but argument blocks was allocated or freed between `p` and `q`.
  ghost predicate SameOthers(p: PodState, q: PodState) {
    OtherAllocations(q.heap, q.groups) == OtherAllocations(p.heap, p.groups)
  }

  // -------------------- what an operation does to device memory --------------------

  function BytesFor(p: PodState, i: nat): nat
    requires WellFormed(p) && i < |p.groups| && p.groups[i].status != Finished
  {
    ArgvBytes(p.kernels[p.groups[i].kernel.value])
  }

  /** Launching a group keeps argument blocks allocated and distinct if the block that it gets starts below 0xFFFFFFFF,
  and that block has four bytes for each argument, as long as 32 bits can say how many that are. */
  lemma {:induction false} LaunchMemory(p: PodState, i: nat, o: Coord)
    requires Inv(p) && WellFormed(p) && i < |p.groups| && p.groups[i].status == Initialized
    requires FreePlacement(p.mesh, p.groups[i].dim, o)
    requires MemoryInv(p)
    ensures WellFormed(Placed(p, i, o))
    ensures var q := WithLaunch(Placed(p, i, o), i).0;
            var argc := p.kernels[p.groups[i].kernel.value].argc;
            var n := (4 * argc) % 0x1_0000_0000;
            && (MemoryInv(q) <==> LowStarts(q.heap))
            && (LowStarts(q.heap) <==> NextStart(p.heap, n).None? || NextStart(p.heap, n).value < NO_ADDRESS)
            && (LowStarts(q.heap) ==> SameOthers(p, q))
            && (LowStarts(q.heap) && q.groups[i].argv != NO_ADDRESS ==>
                  && HasBlock(q.heap, q.groups[i].argv, n)
                  && (argc < 0x4000_0000 ==> HasBlock(q.heap, q.groups[i].argv, 4 * argc)))
  {
    PlacedWellFormed(p, i, o);
    var argc := p.kernels[p.groups[i].kernel.value].argc;
    LaunchMemoryOf(p, i, o, BytesFor(p, i));
    hide Inv, WellFormed, Placed, WithLaunch, FreePlacement, OtherAllocations, HasBlock, LowStarts, GoodHeap, NextStart,
         SameOthers, MemoryInv;
    if argc < 0x4000_0000 { assert BytesFor(p, i) == 4 * argc; }
  }

  lemma {:induction false} LaunchMemoryOf(p: PodState, i: nat, o: Coord, n: nat)
    requires Inv(p) && WellFormed(p) && i < |p.groups| && p.groups[i].status == Initialized
    requires FreePlacement(p.mesh, p.groups[i].dim, o)
    requires MemoryInv(p) && n == BytesFor(p, i)
    ensures WellFormed(Placed(p, i, o)) && p.heap.alignment > 0
    ensures var q := WithLaunch(Placed(p, i, o), i).0;
            && (MemoryInv(q) <==> LowStarts(q.heap))
            && (LowStarts(q.heap) <==> NextStart(p.heap, n).None? || NextStart(p.heap, n).value < NO_ADDRESS)
            && (LowStarts(q.heap) ==> SameOthers(p, q))
            && (LowStarts(q.heap) && q.groups[i].argv != NO_ADDRESS ==> HasBlock(q.heap, q.groups[i].argv, n))
  {
    PlacedWellFormed(p, i, o);
    LaunchStep(p, i, o);
    var q := WithLaunch(Placed(p, i, o), i).0;
    hide Inv, WellFormed, Placed, WithLaunch, FreePlacement, Advanced, PodMalloc, NextStart, OtherAllocations, HasBlock,
         LowStarts, GoodHeap, ArgvInv, AllArguments;
    PodMallocEffect(p.heap, n);
    assert q.groups == p.groups[i := q.groups[i]];
    if LowStarts(q.heap) {
      LaunchKeepsHeap(p.heap, p.groups, i, n, q.groups[i]);
      LaunchArguments(p, i, q, n);
    }
    GoodIsLow(q.heap);
  }

  lemma {:induction false} GoodIsLow(h: M.Heap)
    ensures GoodHeap(h) ==> LowStarts(h)
  {
    hide M.Valid, LowStarts;
  }

  lemma {:induction false} PrefixLow(h: M.Heap, h': M.Heap)
    requires h.busy <= h'.busy && LowStarts(h')
    ensures LowStarts(h)
  {
    forall i | 0 <= i < |h.busy| ensures h.busy[i] == h'.busy[i] {
    }
  }

  lemma {:induction false} StepMemory(p: PodState, i: nat, lastFailed: Coord, skip: bool)
    requires Inv(p) && WellFormed(p) && i < |p.groups| && MemoryInv(p)
    ensures var s := Step(p, i, lastFailed, skip);
            LowStarts(s.pod.heap) ==> MemoryInv(s.pod) && SameOthers(p, s.pod)
  {
    hide Inv, FirstFit, FreePlacement, WithLaunch, WellFormed, MemoryInv, OtherAllocations, LowStarts, HasBlock, NextStart;
    var g := p.groups[i];
    FirstFitComplete(p.mesh, g.dim);
    if g.status == Initialized && !(skip && lastFailed == g.dim) && FirstFit(p.mesh, g.dim).Some? {
      LaunchMemory(p, i, FirstFit(p.mesh, g.dim).value);
    }
  }

  /** A launch pass keeps argument blocks allocated and distinct, and every other allocation, as long as every block that
  it hands out starts below 0xFFFFFFFF. */
  lemma {:induction false} PassMemory(p: PodState, i: nat, lastFailed: Coord, skip: bool)
    requires Inv(p) && WellFormed(p) && i <= |p.groups| && MemoryInv(p)
    requires LowStarts(Pass(p, i, lastFailed, skip).0.heap)
    ensures MemoryInv(Pass(p, i, lastFailed, skip).0) && SameOthers(p, Pass(p, i, lastFailed, skip).0)
    decreases |p.groups| - i
  {
    hide Inv, Step, WellFormed, MemoryInv, OtherAllocations, LowStarts;
    if i == |p.groups| {
    } else {
      var s := Step(p, i, lastFailed, skip);
      StepKeeps(p, i, lastFailed, skip);
      if s.error.None? {
        PassKeeps(s.pod, i + 1, s.lastFailed, skip);
        PassGrows(s.pod, Pass(s.pod, i + 1, s.lastFailed, skip).0);
      }
      StepMemory(p, i, lastFailed, skip);
      if s.error.None? {
        PassMemory(s.pod, i + 1, s.lastFailed, skip);
      }
    }
  }

  lemma {:induction false} PassGrows(p: PodState, q: PodState)
    requires Advanced(p, q)
    ensures LowStarts(q.heap) ==> LowStarts(p.heap)
  {
    hide LowStarts, Busy, Tally;
    if LowStarts(q.heap) { PrefixLow(p.heap, q.heap); }
  }

  /** A completion frees exactly the argument block of its group. */
  lemma {:induction false} CompletedMemory(p: PodState, i: nat)
    requires Inv(p) && i < |p.groups| && Active(p.groups[i]) && MemoryInv(p)
    ensures WellFormed(p) && p.kernels[p.groups[i].kernel.value].refcount > 0
    ensures var q := Completed(p, i);
            && MemoryInv(q) && SameOthers(p, q)
            && M.Allocations(q.heap.busy) == M.Allocations(p.heap.busy) - {p.groups[i].argv}
  {
    CompletedKeeps(p, i);
    hide Inv, WellFormed, OtherAllocations, M.Free, M.Allocations, Dropped, Painted, M.Valid, LowStarts;
    var g := p.groups[i];
    CompletedKeepsHeap(p.heap, p.groups, i, Retired(p.mesh, g));
    M.FreeEffect(p.heap, g.argv);
    CompletedArguments(p, i);
  }

  lemma {:induction false} EnqueuedMemory(p: PodState, gridDim: Coord, dim: Coord, argc: nat, known: bool)
    requires MemoryInv(p)
    ensures MemoryInv(Enqueued(p, gridDim, dim, argc, known))
    ensures SameOthers(p, Enqueued(p, gridDim, dim, argc, known))
  {
    hide ArgvInv, OtherAllocations, NewGroups, Mul;
    NewGroupsFresh(p, gridDim, dim);
    EnqueuedKeepsHeap(p.heap, p.groups, NewGroups(p, gridDim, dim));
    EnqueuedArguments(p, NewGroups(p, gridDim, dim), Kernel(argc, known, Mul(gridDim.x, gridDim.y), 0),
                      Enqueued(p, gridDim, dim, argc, known));
  }

  // -------------------- a budget that keeps addresses low --------------------

  // The block that a waiting group is going to ask for
  function Need(g: Group, kernels: seq<Kernel>, alignment: nat): nat
    requires alignment > 0
  {
    if g.status == Initialized && g.kernel.Some? && g.kernel.value < |kernels|
    then M.RoundUp(ArgvBytes(kernels[g.kernel.value]), alignment)
    else 0
  }

  function Demand(groups: seq<Group>, kernels: seq<Kernel>, alignment: nat): nat
    requires alignment > 0
  {
    if groups == [] then 0
    else Need(groups[|groups| - 1], kernels, alignment) + Demand(groups[..|groups| - 1], kernels, alignment)
  }

  /** From `w` on the heap is untouched, and the arguments of all waiting groups and `more` bytes fit between `w` and the
  last 32-bit address. */
  ghost predicate Budget(p: PodState, w: nat, more: nat) {
    && MemoryInv(p) && p.heap.alignment > 0 && M.Tail(p.heap, w)
    && w + Demand(p.groups, p.kernels, p.heap.alignment) + more <= NO_ADDRESS
  }

  // Argument blocks are in order, and there is a budget for those to come and for `more` bytes.
  ghost predicate Funded(p: PodState, more: nat) { exists w: nat :: Budget(p, w, more) }

  lemma {:induction false} FundedIsLow(p: PodState, more: nat)
    requires Funded(p, more)
    ensures MemoryInv(p) && LowStarts(p.heap)
  {
    hide M.Valid, LowStarts, M.Tail;
  }

  lemma {:induction false} DemandUpdate(groups: seq<Group>, kernels: seq<Kernel>, al: nat, i: nat, g: Group)
    requires al > 0 && i < |groups|
    ensures Demand(groups[i := g], kernels, al) + Need(groups[i], kernels, al) == Demand(groups, kernels, al) + Need(g, kernels, al)
  {
    hide Need;
    var n := |groups| - 1;
    if i < n {
      DemandUpdate(groups[..n], kernels, al, i, g);
      assert groups[i := g][..n] == groups[..n][i := g];
    } else {
      assert groups[i := g][..n] == groups[..n];
    }
  }

  lemma {:induction false} DemandCovers(groups: seq<Group>, kernels: seq<Kernel>, al: nat, i: nat)
    requires al > 0 && i < |groups|
    ensures Need(groups[i], kernels, al) <= Demand(groups, kernels, al)
  {
    hide Need;
    if i == |groups| - 1 {
    } else {
      DemandCovers(groups[..|groups| - 1], kernels, al, i);
    }
  }

  // Kernels of waiting groups ask for no more than before.
  lemma {:induction false} DemandMonotone(groups: seq<Group>, ks: seq<Kernel>, ks': seq<Kernel>, al: nat)
    requires al > 0
    requires forall i :: 0 <= i < |groups| ==> Need(groups[i], ks', al) <= Need(groups[i], ks, al)
    ensures Demand(groups, ks', al) <= Demand(groups, ks, al)
  {
    hide Need;
    if groups == [] {
    } else {
      forall i | 0 <= i < |groups| - 1 ensures groups[..|groups| - 1][i] == groups[i] {
      }
      DemandMonotone(groups[..|groups| - 1], ks, ks', al);
    }
  }

  lemma {:induction false} DemandAppend(groups: seq<Group>, more: seq<Group>, kernels: seq<Kernel>, al: nat, n: nat)
    requires al > 0 && forall i :: 0 <= i < |more| ==> Need(more[i], kernels, al) == n
    ensures Demand(groups + more, kernels, al) == Demand(groups, kernels, al) + Mul(|more|, n)
  {
    hide Need;
    if more == [] {
      assert groups + more == groups;
    } else {
      var m := |more| - 1;
      DemandAppend(groups, more[..m], kernels, al, n);
      assert (groups + more)[..|groups| + m] == groups + more[..m];
    }
  }

  lemma {:induction false} LaunchBudget(p: PodState, i: nat, o: Coord, w: nat, more: nat)
    requires Inv(p) && WellFormed(p) && i < |p.groups| && p.groups[i].status == Initialized
    requires FreePlacement(p.mesh, p.groups[i].dim, o) && Budget(p, w, more)
    ensures WellFormed(Placed(p, i, o))
    ensures var q := WithLaunch(Placed(p, i, o), i).0;
            Budget(q, w + M.RoundUp(BytesFor(p, i), p.heap.alignment), more) && SameOthers(p, q)
  {
    hide Inv, Painted, WithLaunch, FreePlacement, M.RoundUp, M.Tail, MemoryInv, LowStarts, OtherAllocations, Demand, HasBlock,
         PodMalloc, NextStart, Busy, Tally, Shaped;
    LaunchMemory(p, i, o);
    LaunchStep(p, i, o);
    AllocGrows(p.heap, BytesFor(p, i));
    var q := WithLaunch(Placed(p, i, o), i).0;
    var al := p.heap.alignment;
    assert Need(q.groups[i], p.kernels, al) == 0;
    assert q.groups == p.groups[i := q.groups[i]];
    DemandUpdate(p.groups, p.kernels, al, i, q.groups[i]);
    DemandCovers(p.groups, p.kernels, al, i);
    BudgetedPod(p, BytesFor(p, i), w);
  }

  lemma {:induction false} BudgetedPod(p: PodState, size: nat, w: nat)
    requires MemoryInv(p) && p.heap.alignment > 0 && M.Tail(p.heap, w) && size < WORD32
    requires w + M.RoundUp(size, p.heap.alignment) <= NO_ADDRESS
    ensures M.Tail(PodMalloc(p.heap, size).0, w + M.RoundUp(size, p.heap.alignment))
    ensures NextStart(p.heap, size).Some? ==> NextStart(p.heap, size).value < NO_ADDRESS
  {
    hide M.RoundUp, M.Tail, NextStart, ArgvInv;
    BudgetedStart(p.heap, p.groups, size, w);
  }

  lemma {:induction false} BudgetedStart(h: M.Heap, groups: seq<Group>, size: nat, w: nat)
    requires ArgvInv(h, groups) && h.alignment > 0 && M.Tail(h, w) && size < WORD32
    requires w + M.RoundUp(size, h.alignment) <= NO_ADDRESS
    ensures M.Tail(PodMalloc(h, size).0, w + M.RoundUp(size, h.alignment))
    ensures NextStart(h, size).Some? ==> NextStart(h, size).value < NO_ADDRESS
  {
    hide M.RoundUp, M.Valid, M.Tail, M.Alloc, NextStart, LowStarts, HandsOut;
    RequestFits(size, h.alignment);
    M.AllocTail(h, size, w);
    PodMallocExact(h, size);
    if NextStart(h, size).Some? { StartNotNull(h, size); }
  }

  lemma {:induction false} StartNotNull(h: M.Heap, size: nat)
    requires M.Valid(h) && h.alignment > 0 && NextStart(h, size).Some?
    ensures NextStart(h, size).value != M.NULL
  {
    hide M.Valid, M.Padded;
    M.StartIsNotNull(h, M.FirstFit(h.free, M.Padded(size, h.alignment)));
  }

  lemma {:induction false} StepBudget(p: PodState, i: nat, lastFailed: Coord, skip: bool, more: nat)
    requires Inv(p) && WellFormed(p) && i < |p.groups| && Funded(p, more)
    ensures var s := Step(p, i, lastFailed, skip); Funded(s.pod, more) && SameOthers(p, s.pod)
  {
    hide Inv, FirstFit, FreePlacement, WithLaunch, WellFormed, Budget, OtherAllocations;
    var w: nat :| Budget(p, w, more);
    var g := p.groups[i];
    FirstFitComplete(p.mesh, g.dim);
    if g.status == Initialized && !(skip && lastFailed == g.dim) && FirstFit(p.mesh, g.dim).Some? {
      LaunchBudget(p, i, FirstFit(p.mesh, g.dim).value, w, more);
    }
  }

  /** Within its budget a pod stays within its budget: a launch pass hands out low addresses only. */
  lemma {:induction false} PassBudget(p: PodState, i: nat, lastFailed: Coord, skip: bool, more: nat)
    requires Inv(p) && WellFormed(p) && i <= |p.groups| && Funded(p, more)
    ensures Funded(Pass(p, i, lastFailed, skip).0, more) && SameOthers(p, Pass(p, i, lastFailed, skip).0)
    decreases |p.groups| - i
  {
    hide Inv, Step, WellFormed, Funded, OtherAllocations;
    if i == |p.groups| {
    } else {
      var s := Step(p, i, lastFailed, skip);
      StepKeeps(p, i, lastFailed, skip);
      StepBudget(p, i, lastFailed, skip, more);
      if s.error.None? {
        PassBudget(s.pod, i + 1, s.lastFailed, skip, more);
      }
    }
  }

  lemma {:induction false} CompletedBudget(p: PodState, i: nat, more: nat)
    requires Inv(p) && i < |p.groups| && Active(p.groups[i]) && Funded(p, more)
    ensures WellFormed(p) && p.kernels[p.groups[i].kernel.value].refcount > 0
    ensures Funded(Completed(p, i), more) && SameOthers(p, Completed(p, i))
  {
    hide Inv, WellFormed, M.Tail, MemoryInv, OtherAllocations, Demand, M.Free, Painted, Dropped, KernelsKnown;
    var w: nat :| Budget(p, w, more);
    CompletedMemory(p, i);
    CompletedDemand(p, i);
    FreeKeepsFrame(p.heap, p.groups[i].argv);
    MemoryValid(p);
    M.FreeTail(p.heap, p.groups[i].argv, w);
    assert Budget(Completed(p, i), w, more);
  }

  lemma {:induction false} MemoryValid(p: PodState)
    requires MemoryInv(p)
    ensures M.Valid(p.heap)
  {
    hide M.Valid, LowStarts, M.Allocations;
  }

  // A cleaned up kernel asks for no more than before.
  lemma {:induction false} RoundUpGrows(a: nat, b: nat, m: nat)
    requires m > 0 && (a == 0 || a == b)
    ensures M.RoundUp(a, m) <= M.RoundUp(b, m)
  {
    M.RoundUpAligned(b, m);
  }

  // What the groups of a grid are going to ask for
  function GridDemand(gridDim: Coord, argc: nat, alignment: nat): nat
    requires alignment > 0
  {
    Mul(Mul(gridDim.x, gridDim.y), M.RoundUp(Wrap(4 * argc), alignment))
  }

  /** Enqueuing a grid keeps the budget if its arguments fit too. */
  lemma {:induction false} EnqueuedBudget(p: PodState, gridDim: Coord, dim: Coord, argc: nat, known: bool, more: nat)
    requires Inv(p) && Funded(p, GridDemand(gridDim, argc, p.heap.alignment) + more)
    ensures Funded(Enqueued(p, gridDim, dim, argc, known), more)
    ensures SameOthers(p, Enqueued(p, gridDim, dim, argc, known))
  {
    hide Inv, M.Tail, MemoryInv, Demand, NewGroups, GridDemand, OtherAllocations, KernelsKnown;
    var w: nat :| Budget(p, w, GridDemand(gridDim, argc, p.heap.alignment) + more);
    EnqueuedMemory(p, gridDim, dim, argc, known);
    EnqueuedDemand(p, gridDim, dim, argc, known);
    assert Budget(Enqueued(p, gridDim, dim, argc, known), w, more);
  }

  // -------------------- a stock that keeps launches from failing --------------------

  predicate KernelsKnown(groups: seq<Group>, kernels: seq<Kernel>) {
    forall i :: 0 <= i < |groups| && groups[i].status == Initialized ==> NamesKnown(groups[i].kernel, kernels)
  }

  predicate NamesKnown(k: Option<nat>, kernels: seq<Kernel>) {
    k.Some? && k.value < |kernels| ==> kernels[k.value].known
  }

  /** The program knows the kernels of all waiting groups. From `w` on the heap is untouched, and the arguments of all
  waiting groups and `more` bytes fit behind, whether or not 32 bits can address them. */
  ghost predicate Stock(p: PodState, w: nat, more: nat) {
    && M.Valid(p.heap) && p.heap.alignment % 4 == 0 && p.heap.alignment <= WORD32 && M.Tail(p.heap, w)
    && w + Demand(p.groups, p.kernels, p.heap.alignment) + more <= p.heap.start + p.heap.size
    && KernelsKnown(p.groups, p.kernels)
  }

  ghost predicate Stocked(p: PodState, more: nat) { exists w: nat :: Stock(p, w, more) }

  // Blocks are aligned, so the arguments can be copied wherever there is room.
  lemma {:induction false} BlocksCopyable(h: M.Heap, size: nat)
    requires M.Valid(h) && h.alignment % 4 == 0 && NextStart(h, size).Some?
    ensures NextStart(h, size).value % 4 == 0
  {
    hide M.Tiles, M.Total, M.Padded, Mod;
    var a := NextStart(h, size).value;
    DivMod(a, h.alignment);
    MulIsTimes(Div(a, h.alignment), h.alignment);
    FourDivides(Div(a, h.alignment), h.alignment);
  }

  lemma {:induction false} FourDivides(q: nat, m: nat)
    requires m % 4 == 0
    ensures (q * m) % 4 == 0
  {
    var n := m / 4;
    assert q * m == 4 * (q * n);
  }

  predicate SomeRoom(h: M.Heap, size: nat) { exists j :: 0 <= j < |h.free| && h.free[j].size >= size }

  /** On a valid heap with word alignment, a group launches if and only if the program knows its kernel and, unless it has
  no arguments, some free block has room for them. */
  lemma {:induction false} LaunchableExact(p: PodState, i: nat, o: Coord)
    requires Inv(p) && WellFormed(p) && i < |p.groups| && p.groups[i].status == Initialized
    requires FreePlacement(p.mesh, p.groups[i].dim, o)
    requires M.Valid(p.heap) && p.heap.alignment % 4 == 0
    ensures WellFormed(Placed(p, i, o))
    ensures var k := p.kernels[p.groups[i].kernel.value];
            var n := (4 * k.argc) % 0x1_0000_0000;
            WithLaunch(Placed(p, i, o), i).1.None? <==>
              && k.known
              && (n == 0 || SomeRoom(p.heap, M.Padded(n, p.heap.alignment)))
  {
    hide Inv, FreePlacement, Painted, WithLaunch, M.Valid, M.Padded, Shaped, Busy, Tally, PodMalloc;
    LaunchStep(p, i, o);
    if NextStart(p.heap, BytesFor(p, i)).Some? {
      BlocksCopyable(p.heap, BytesFor(p, i));
    }
  }

  lemma {:induction false} StockedLaunch(p: PodState, i: nat, o: Coord, w: nat, more: nat)
    requires Inv(p) && WellFormed(p) && i < |p.groups| && p.groups[i].status == Initialized
    requires FreePlacement(p.mesh, p.groups[i].dim, o) && Stock(p, w, more)
    ensures WellFormed(Placed(p, i, o))
    ensures var (q, e) := WithLaunch(Placed(p, i, o), i);
            e.None? && Stock(q, w + M.RoundUp(BytesFor(p, i), p.heap.alignment), more)
  {
    hide Inv, Painted, WithLaunch, FreePlacement, M.RoundUp, M.Padded, M.Carve, M.Tail, M.Valid, Demand, Busy, Tally, Shaped;
    LaunchStep(p, i, o);
    AllocGrows(p.heap, BytesFor(p, i));
    var q := WithLaunch(Placed(p, i, o), i).0;
    var n, al := BytesFor(p, i), p.heap.alignment;
    assert Need(q.groups[i], p.kernels, al) == 0;
    assert q.groups == p.groups[i := q.groups[i]];
    DemandUpdate(p.groups, p.kernels, al, i, q.groups[i]);
    DemandCovers(p.groups, p.kernels, al, i);
    M.TailHasRoom(p.heap, n, w);
    M.AllocEffect(p.heap, n);
    M.AllocTail(p.heap, n, w);
    BlocksCopyable(p.heap, n);
  }

  lemma {:induction false} StockedStep(p: PodState, i: nat, lastFailed: Coord, skip: bool, more: nat)
    requires Inv(p) && WellFormed(p) && i < |p.groups| && Stocked(p, more)
    ensures var s := Step(p, i, lastFailed, skip); s.error.None? && Stocked(s.pod, more)
  {
    hide Inv, FirstFit, FreePlacement, WithLaunch, WellFormed, Stock;
    var w: nat :| Stock(p, w, more);
    var g := p.groups[i];
    FirstFitComplete(p.mesh, g.dim);
    if g.status == Initialized && !(skip && lastFailed == g.dim) && FirstFit(p.mesh, g.dim).Some? {
      StockedLaunch(p, i, FirstFit(p.mesh, g.dim).value, w, more);
    }
  }

  /** With a stock no launch of a pass fails, and the stock remains. */
  lemma {:induction false} StockedPass(p: PodState, i: nat, lastFailed: Coord, skip: bool, more: nat)
    requires Inv(p) && WellFormed(p) && i <= |p.groups| && Stocked(p, more)
    ensures var (q, e) := Pass(p, i, lastFailed, skip); e.None? && Stocked(q, more)
    decreases |p.groups| - i
  {
    hide Inv, Step, WellFormed, Stocked;
    if i == |p.groups| {
    } else {
      var s := Step(p, i, lastFailed, skip);
      StepKeeps(p, i, lastFailed, skip);
      StockedStep(p, i, lastFailed, skip, more);
      StockedPass(s.pod, i + 1, s.lastFailed, skip, more);
    }
  }

  lemma {:induction false} CompletedDemand(p: PodState, i: nat)
    requires Inv(p) && i < |p.groups| && Active(p.groups[i])
    ensures WellFormed(p) && p.kernels[p.groups[i].kernel.value].refcount > 0
    ensures var q, al := Completed(p, i), p.heap.alignment;
            && Demand(q.groups, q.kernels, al) <= Demand(p.groups, p.kernels, al)
            && (KernelsKnown(p.groups, p.kernels) ==> KernelsKnown(q.groups, q.kernels))
  {
    CompletedKeeps(p, i);
    var q, al := Completed(p, i), p.heap.alignment;
    var k := p.groups[i].kernel.value;
    assert Need(p.groups[i], p.kernels, al) == 0 && Need(q.groups[i], p.kernels, al) == 0;
    forall j | 0 <= j < |q.groups|
      ensures Need(q.groups[j], q.kernels, al) <= Need(q.groups[j], p.kernels, al)
    {
      RoundUpGrows(ArgvBytes(Dropped(p.kernels[k])), ArgvBytes(p.kernels[k]), al);
    }
    hide Inv, WellFormed, Need, Demand, M.Free, Painted;
    DemandUpdate(p.groups, p.kernels, al, i, q.groups[i]);
    DemandMonotone(q.groups, p.kernels, q.kernels, al);
  }

  lemma {:induction false} StockedCompletion(p: PodState, i: nat, more: nat)
    requires Inv(p) && i < |p.groups| && Active(p.groups[i]) && Stocked(p, more)
    ensures WellFormed(p) && p.kernels[p.groups[i].kernel.value].refcount > 0
    ensures Stocked(Completed(p, i), more)
  {
    hide Inv, WellFormed, M.Tail, M.Valid, Demand, M.Free, Painted, Dropped, KernelsKnown;
    var w: nat :| Stock(p, w, more);
    CompletedDemand(p, i);
    FreeKeepsFrame(p.heap, p.groups[i].argv);
    M.FreeEffect(p.heap, p.groups[i].argv);
    M.FreeTail(p.heap, p.groups[i].argv, w);
    assert Stock(Completed(p, i), w, more);
  }

  lemma {:induction false} EnqueuedDemand(p: PodState, gridDim: Coord, dim: Coord, argc: nat, known: bool)
    requires Inv(p)
    ensures var q, al := Enqueued(p, gridDim, dim, argc, known), p.heap.alignment;
            && Demand(q.groups, q.kernels, al) <= Demand(p.groups, p.kernels, al) + GridDemand(gridDim, argc, al)
            && (known && KernelsKnown(p.groups, p.kernels) ==> KernelsKnown(q.groups, q.kernels))
  {
    var q, al := Enqueued(p, gridDim, dim, argc, known), p.heap.alignment;
    var gs, n := NewGroups(p, gridDim, dim), M.RoundUp(Wrap(4 * argc), al);
    NewGroupsFresh(p, gridDim, dim);
    InvWellFormed(p);
    forall i | 0 <= i < |p.groups|
      ensures Need(p.groups[i], q.kernels, al) <= Need(p.groups[i], p.kernels, al)
    {
    }
    forall i | 0 <= i < |gs| ensures Need(gs[i], q.kernels, al) == n {
    }
    hide Inv, Need, Demand, NewGroups, M.RoundUp, Mul;
    DemandMonotone(p.groups, p.kernels, q.kernels, al);
    DemandAppend(p.groups, gs, q.kernels, al, n);
  }

  lemma {:induction false} StockedGrid(p: PodState, gridDim: Coord, dim: Coord, argc: nat, more: nat)
    requires Inv(p) && Stocked(p, GridDemand(gridDim, argc, p.heap.alignment) + more)
    ensures Stocked(Enqueued(p, gridDim, dim, argc, true), more)
  {
    assert p.heap.alignment > 0;
    hide Inv, M.Tail, M.Valid, Demand, KernelsKnown, GridDemand, NewGroups;
    var w: nat :| Stock(p, w, GridDemand(gridDim, argc, p.heap.alignment) + more);
    EnqueuedDemand(p, gridDim, dim, argc, true);
    assert Stock(Enqueued(p, gridDim, dim, argc, true), w, more);
  }

  // A pod that has only been set up, with a fresh heap
  lemma {:induction false} NewIsFunded(p: PodState, start: nat, size: nat, alignment: nat)
    requires p.groups == [] && p.heap == M.Fresh(start, size, alignment) && M.Valid(p.heap)
    requires alignment <= WORD32 && start <= NO_ADDRESS
    ensures Budget(p, start, NO_ADDRESS - start)
    ensures alignment % 4 == 0 ==> Stock(p, start, size)
  {
    hide M.Valid, M.Tail;
    HeapAlignment(p.heap);
    M.FreshTail(start, size, alignment);
  }

  /** The heap of the shipped 4x4-pod machine: all of DRAM behind a program that ends below the last block of the address
  space. It reaches beyond 2^32, and a new pod with it has the whole rest of the address space as its budget, and all of
  the heap as its stock. */
  lemma {:induction false} ShippedHeap(memsys: Memsys, p: PodState, start: nat)
    requires memsys.bankSize == 0x40_0000
    requires 0x8000_0000 < start < NO_ADDRESS && Mod(start, BlockSize(BigBlade(memsys))) == 0
    requires p.groups == [] && p.heap == M.Fresh(start, DramSize(BigBlade(memsys)), BlockSize(BigBlade(memsys)))
    ensures DramSize(BigBlade(memsys)) == 0x8000_0000 && p.heap.start + p.heap.size > WORD32
    ensures Budget(p, start, NO_ADDRESS - start) && Stock(p, start, 0x8000_0000)
  {
    var cfg := BigBlade(memsys);
    MulIsTimes(4, 4);
    MulIsTimes(16, 16);
    MulIsTimes(256, 2);
    MulIsTimes(0x40_0000, 512);
    hide Mul;
    assert BlockSize(cfg) == 128;
    DivModOf(WORD64 / 128, 128, 0);
    MulIsTimes(WORD64 / 128, 128);
    M.RunValid(start, DramSize(cfg), 128, []);
    NewIsFunded(p, start, DramSize(cfg), 128);
  }
}
