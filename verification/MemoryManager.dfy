/** First-fit device memory allocator with lazy coalescing: libraries/bsg_manycore_memory_manager.cpp */
module MemoryManagement {
  import opened Bits

  datatype Block = Block(start: nat, size: nat) {
    function End(): nat { start + size }
    predicate Has(a: int) { start <= a < start + size }
  }

  const NULL: nat := 0xffff_ffff_ffff_ffff
  const COALESCE_THRESHOLD: nat := 4

  // -------------------- the lists as values --------------------

  // How many blocks hold address `a`
  function Count(bs: seq<Block>, a: int): nat {
    if bs == [] then 0 else (if bs[0].Has(a) then 1 else 0) + Count(bs[1..], a)
  }

  function Total(bs: seq<Block>): nat {
    if bs == [] then 0 else bs[0].size + Total(bs[1..])
  }

  // The first block with room for `size`, or `|bs|`
  function FirstFit(bs: seq<Block>, size: nat): (i: nat)
    ensures i <= |bs|
    ensures i < |bs| ==> bs[i].size >= size
    ensures forall j :: 0 <= j < i ==> bs[j].size < size
  {
    if bs == [] then 0 else if bs[0].size >= size then 0 else 1 + FirstFit(bs[1..], size)
  }

  // The first block that starts at `buf`, or `|bs|`
  function Find(bs: seq<Block>, buf: nat): (i: nat)
    ensures i <= |bs|
    ensures i < |bs| ==> bs[i].start == buf
    ensures forall j :: 0 <= j < i ==> bs[j].start != buf
  {
    if bs == [] then 0 else if bs[0].start == buf then 0 else 1 + Find(bs[1..], buf)
  }

  function Remove(bs: seq<Block>, i: nat): seq<Block>
    requires i < |bs|
  {
    bs[..i] + bs[i + 1..]
  }

  // `size` bytes off the front of block `i`; an exact match leaves the list.
  function Carve(bs: seq<Block>, i: nat, size: nat): seq<Block>
    requires i < |bs| && bs[i].size >= size
  {
    if bs[i].size > size then bs[i := Block(bs[i].start + size, bs[i].size - size)] else Remove(bs, i)
  }

  // The order of pairs
  predicate LessEq(b: Block, c: Block) { b.start < c.start || (b.start == c.start && b.size <= c.size) }

  function Insert(b: Block, bs: seq<Block>): seq<Block> {
    if bs == [] || LessEq(b, bs[0]) then [b] + bs else [bs[0]] + Insert(b, bs[1..])
  }

  function Sort(bs: seq<Block>): seq<Block> {
    if bs == [] then [] else Insert(bs[0], Sort(bs[1..]))
  }

  // Joins each block with the next one while they touch
  function Merge(bs: seq<Block>): seq<Block>
    decreases |bs|
  {
    if |bs| <= 1 then bs
    else if bs[0].End() != bs[1].start then [bs[0]] + Merge(bs[1..])
    else Merge([Block(bs[0].start, bs[0].size + bs[1].size)] + bs[2..])
  }

  datatype Heap = Heap(
    start: nat,
    size: nat,
    alignment: nat,
    free: seq<Block>,
    busy: seq<Block>,
    freeSize: nat)

  function Fresh(start: nat, size: nat, alignment: nat): Heap {
    Heap(start, size, alignment, [Block(start, size)], [], size)
  }

  // The request rounded up, before and after it is stored in 64 bits
  function RoundUp(n: nat, alignment: nat): nat
    requires alignment > 0
  {
    var size := if n == 0 then alignment else n;
    var rest := Mod(size, alignment);
    size + (if rest > 0 then alignment - rest else 0)
  }

  function Padded(n: nat, alignment: nat): nat
    requires alignment > 0
  {
    RoundUp(n, alignment) % WORD64
  }

  function Alloc(h: Heap, n: nat): (Heap, nat)
    requires h.alignment > 0
  {
    var size := Padded(n, h.alignment);
    var i := FirstFit(h.free, size);
    if i == |h.free| then (h, NULL)
    else
      var result := h.free[i].start;
      (h.(free := Carve(h.free, i, size),
          busy := h.busy + [Block(result, size)],
          freeSize := (h.freeSize - size) % WORD64),
       result)
  }

  function Coalesce(bs: seq<Block>): seq<Block> { Merge(Sort(bs)) }

  function Free(h: Heap, buf: nat): Heap {
    var i := Find(h.busy, buf);
    if i == |h.busy| then h
    else
      var free := h.free + [h.busy[i]];
      h.(free := if |free| > COALESCE_THRESHOLD then Coalesce(free) else free,
         busy := Remove(h.busy, i),
         freeSize := (h.freeSize + h.busy[i].size) % WORD64)
  }

  // -------------------- invariant --------------------

  ghost predicate AlignedBlocks(bs: seq<Block>, alignment: nat)
    requires alignment > 0
  {
    forall i :: 0 <= i < |bs| ==> bs[i].size > 0 && Mod(bs[i].start, alignment) == 0
  }

  // Every address of the heap is in exactly one block, and no other address is in any.
  ghost predicate Tiles(h: Heap) {
    forall a: int :: Count(h.free, a) + Count(h.busy, a) == if h.start <= a < h.start + h.size then 1 else 0
  }

  ghost predicate Valid(h: Heap) {
    && h.alignment > 0 && Mod(WORD64, h.alignment) == 0
    && Mod(h.start, h.alignment) == 0 && h.size > 0 && h.start + h.size < WORD64
    && AlignedBlocks(h.free, h.alignment) && AlignedBlocks(h.busy, h.alignment)
    && (forall i :: 0 <= i < |h.busy| ==> Mod(h.busy[i].size, h.alignment) == 0)
    && Tiles(h)
    && Total(h.free) == h.freeSize
  }

  // The allocations as a map from address to size
  function Allocations(busy: seq<Block>): map<nat, nat> {
    if busy == [] then map[]
    else
      var b := busy[|busy| - 1];
      Allocations(busy[..|busy| - 1])[b.start := b.size]
  }

  // -------------------- counting --------------------

  lemma {:induction false} CountConcat(bs: seq<Block>, cs: seq<Block>, a: int)
    ensures Count(bs + cs, a) == Count(bs, a) + Count(cs, a)
  {
    if bs == [] {
      assert bs + cs == cs;
    } else {
      assert (bs + cs)[1..] == bs[1..] + cs;
      CountConcat(bs[1..], cs, a);
    }
  }

  lemma {:induction false} CountOne(b: Block, a: int)
    ensures Count([b], a) == if b.Has(a) then 1 else 0
  {
  }

  lemma {:induction false} CountSplit(bs: seq<Block>, i: nat, a: int)
    requires i < |bs|
    ensures Count(bs, a) == Count(Remove(bs, i), a) + (if bs[i].Has(a) then 1 else 0)
  {
    assert bs == bs[..i] + ([bs[i]] + bs[i + 1..]);
    CountConcat(bs[..i], [bs[i]] + bs[i + 1..], a);
    CountConcat([bs[i]], bs[i + 1..], a);
    CountConcat(bs[..i], bs[i + 1..], a);
    CountOne(bs[i], a);
  }

  lemma {:induction false} CountPositive(bs: seq<Block>, a: int)
    ensures Count(bs, a) > 0 <==> exists i :: 0 <= i < |bs| && bs[i].Has(a)
  {
    if bs == [] {
    } else {
      CountPositive(bs[1..], a);
      if Count(bs, a) > 0 && !bs[0].Has(a) {
        var i :| 0 <= i < |bs[1..]| && bs[1..][i].Has(a);
        assert bs[i + 1].Has(a);
      }
      if i :| 0 <= i < |bs| && bs[i].Has(a) {
        if i > 0 { assert bs[1..][i - 1].Has(a); }
      }
    }
  }

  lemma {:induction false} CountTwo(bs: seq<Block>, i: nat, j: nat, a: int)
    requires i < j < |bs| && bs[i].Has(a) && bs[j].Has(a)
    ensures Count(bs, a) >= 2
  {
    CountSplit(bs, j, a);
    assert Remove(bs, j)[i] == bs[i];
    CountPositive(Remove(bs, j), a);
  }

  lemma {:induction false} CountReplace(bs: seq<Block>, i: nat, b: Block, a: int)
    requires i < |bs|
    ensures Count(bs[i := b], a) + (if bs[i].Has(a) then 1 else 0) == Count(bs, a) + (if b.Has(a) then 1 else 0)
  {
    CountSplit(bs, i, a);
    CountSplit(bs[i := b], i, a);
    assert Remove(bs[i := b], i) == Remove(bs, i);
  }

  lemma {:induction false} TotalConcat(bs: seq<Block>, cs: seq<Block>)
    ensures Total(bs + cs) == Total(bs) + Total(cs)
  {
    if bs == [] {
      assert bs + cs == cs;
    } else {
      assert (bs + cs)[1..] == bs[1..] + cs;
      TotalConcat(bs[1..], cs);
    }
  }

  lemma {:induction false} TotalSplit(bs: seq<Block>, i: nat)
    requires i < |bs|
    ensures Total(bs) == Total(Remove(bs, i)) + bs[i].size
  {
    assert bs == bs[..i] + ([bs[i]] + bs[i + 1..]);
    TotalConcat(bs[..i], [bs[i]] + bs[i + 1..]);
    TotalConcat([bs[i]], bs[i + 1..]);
    TotalConcat(bs[..i], bs[i + 1..]);
    assert Total([bs[i]]) == bs[i].size;
  }

  lemma {:induction false} TotalReplace(bs: seq<Block>, i: nat, b: Block)
    requires i < |bs|
    ensures Total(bs[i := b]) + bs[i].size == Total(bs) + b.size
  {
    TotalSplit(bs, i);
    TotalSplit(bs[i := b], i);
    assert Remove(bs[i := b], i) == Remove(bs, i);
  }

  /** What `Tiles` says in terms of blocks: any two blocks, free or busy, are disjoint and inside the heap. */
  lemma {:induction false} TilesMeansDisjoint(h: Heap, i: nat, j: nat)
    requires Valid(h)
    requires i < j < |h.free + h.busy|
    ensures var b, c := (h.free + h.busy)[i], (h.free + h.busy)[j];
            && (b.End() <= c.start || c.End() <= b.start)
            && h.start <= b.start && b.End() <= h.start + h.size
            && h.start <= c.start && c.End() <= h.start + h.size
  {
    var all := h.free + h.busy;
    forall k: nat, a: int | k < |all| && all[k].Has(a)
      ensures h.start <= a < h.start + h.size
    {
      CountPositive(all, a);
      CountConcat(h.free, h.busy, a);
    }
    var b, c := all[i], all[j];
    var a := if b.start < c.start then c.start else b.start;
    if b.Has(a) && c.Has(a) {
      CountTwo(all, i, j, a);
      CountConcat(h.free, h.busy, a);
      assert false;
    }
    assert b.Has(b.start) && b.Has(b.End() - 1) && c.Has(c.start) && c.Has(c.End() - 1);
  }

  // -------------------- rounding --------------------

  lemma {:induction false} ModAdd(a: nat, b: nat, m: nat)
    requires m > 0 && Mod(a, m) == 0
    ensures Mod(a + b, m) == Mod(b, m)
  {
    if a < m {
    } else {
      ModAdd(a - m, b, m);
    }
  }

  lemma {:induction false} RoundUpAligned(n: nat, m: nat)
    requires m > 0
    ensures RoundUp(n, m) >= n && RoundUp(n, m) > 0 && Mod(RoundUp(n, m), m) == 0
    ensures if n == 0 then RoundUp(n, m) == m else RoundUp(n, m) < n + m
  {
    var size := if n == 0 then m else n;
    RoundUpStep(size, m);
  }

  lemma {:induction false} RoundUpStep(size: nat, m: nat)
    requires m > 0
    ensures Mod(size + (if Mod(size, m) > 0 then m - Mod(size, m) else 0), m) == 0
  {
    if size < m {
    } else {
      RoundUpStep(size - m, m);
    }
  }

  // A request that does not fit 64 bits after rounding wraps to exactly zero.
  lemma {:induction false} PaddedWraps(n: nat, m: nat)
    requires m > 0 && n < WORD64 && Mod(WORD64, m) == 0
    ensures RoundUp(n, m) < WORD64 ==> Padded(n, m) == RoundUp(n, m) > 0 && Padded(n, m) >= n
    ensures RoundUp(n, m) >= WORD64 ==> Padded(n, m) == 0
  {
    RoundUpAligned(n, m);
    var r := RoundUp(n, m);
    if r >= WORD64 {
      ModAdd(WORD64, r - WORD64, m);
      // the excess is a multiple of the alignment below the alignment
      if n > 0 { assert r - WORD64 < m; }
      SmallMultiple(r - WORD64, m);
    }
  }

  lemma {:induction false} SmallMultiple(a: nat, m: nat)
    requires m > 0 && a < m && Mod(a, m) == 0
    ensures a == 0
  {
  }

  // -------------------- alloc --------------------

  lemma {:induction false} CarveCount(bs: seq<Block>, i: nat, size: nat, a: int)
    requires i < |bs| && bs[i].size >= size
    ensures Count(Carve(bs, i, size), a) + (if Block(bs[i].start, size).Has(a) then 1 else 0) == Count(bs, a)
    ensures Total(Carve(bs, i, size)) + size == Total(bs)
  {
    if bs[i].size > size {
      var rest := Block(bs[i].start + size, bs[i].size - size);
      CountReplace(bs, i, rest, a);
      TotalReplace(bs, i, rest);
    } else {
      CountSplit(bs, i, a);
      TotalSplit(bs, i);
    }
  }

  lemma {:induction false} CarveAligned(bs: seq<Block>, i: nat, size: nat, m: nat)
    requires m > 0 && i < |bs| && bs[i].size >= size && AlignedBlocks(bs, m) && Mod(size, m) == 0
    ensures AlignedBlocks(Carve(bs, i, size), m)
  {
    hide Mod;
    ModAdd(bs[i].start, size, m);
    var r := Carve(bs, i, size);
    forall k | 0 <= k < |r|
      ensures r[k].size > 0 && Mod(r[k].start, m) == 0
    {
      if bs[i].size == size {
        assert r[k] == if k < i then bs[k] else bs[k + 1];
      }
    }
  }

  lemma {:induction false} BlocksInside(h: Heap, i: nat)
    requires Valid(h) && i < |h.free|
    ensures h.start <= h.free[i].start && h.free[i].End() <= h.start + h.size && h.free[i].size <= h.freeSize
  {
    var b := h.free[i];
    CountPositive(h.free, b.start);
    CountPositive(h.free, b.End() - 1);
    assert b.Has(b.start) && b.Has(b.End() - 1);
    TotalSplit(h.free, i);
  }

  // Moving block `b` from the free list to the end of the busy list keeps the tiling.
  lemma {:induction false} CarveTiles(h: Heap, i: nat, size: nat)
    requires Tiles(h) && i < |h.free| && h.free[i].size >= size
    ensures var b := Block(h.free[i].start, size);
            && Tiles(h.(free := Carve(h.free, i, size), busy := h.busy + [b]))
            && (forall a: int :: b.Has(a) ==> Count(h.free, a) == 1 && Count(h.busy, a) == 0)
  {
    hide Carve;
    var b := Block(h.free[i].start, size);
    forall a: int
      ensures Count(Carve(h.free, i, size), a) + Count(h.busy + [b], a) == Count(h.free, a) + Count(h.busy, a)
      ensures b.Has(a) ==> Count(h.free, a) == 1 && Count(h.busy, a) == 0
    {
      CarveCount(h.free, i, size, a);
      CountConcat(h.busy, [b], a);
      CountOne(b, a);
    }
  }

  lemma {:induction false} FreshAllocation(busy: seq<Block>, b: Block)
    requires b.size > 0 && Count(busy, b.start) == 0
    requires forall i :: 0 <= i < |busy| ==> busy[i].size > 0
    ensures b.start !in Allocations(busy)
    ensures Allocations(busy + [b]) == Allocations(busy)[b.start := b.size]
  {
    assert (busy + [b])[..|busy|] == busy;
    CountPositive(busy, b.start);
    if b.start in Allocations(busy) {
      var j := AllocationBlock(busy, b.start);
      assert false;
    }
  }

  /** What one allocation does: it takes the rounded size from the front of the first block that has room, so the
  result is aligned, inside the heap, entirely free before, and a new key of the allocation map. */
  lemma {:induction false} AllocEffect(h: Heap, n: nat)
    requires Valid(h) && n < WORD64 && RoundUp(n, h.alignment) < WORD64
    ensures var (h', r) := Alloc(h, n);
            && Valid(h')
            && (r == NULL ==> h' == h)
            && (r != NULL ==>
                  && Mod(r, h.alignment) == 0 && h.start <= r && r + RoundUp(n, h.alignment) <= h.start + h.size
                  && (forall a: int :: Block(r, RoundUp(n, h.alignment)).Has(a) ==> Count(h.free, a) == 1)
                  && r !in Allocations(h.busy)
                  && Allocations(h'.busy) == Allocations(h.busy)[r := RoundUp(n, h.alignment)])
  {
    PaddedWraps(n, h.alignment);
    RoundUpAligned(n, h.alignment);
    hide Mod, RoundUp, Padded, Carve, Count, Allocations, Tiles, AlignedBlocks;
    var size := Padded(n, h.alignment);
    var i := FirstFit(h.free, size);
    if i < |h.free| {
      BlocksInside(h, i);
      AllocValid(h, i, size);
      CarveTiles(h, i, size);
      var b := Block(h.free[i].start, size);
      assert b.Has(b.start);
      FreshAllocation(h.busy, b);
    }
  }

  lemma {:induction false} AllocValid(h: Heap, i: nat, size: nat)
    requires Valid(h) && i < |h.free| && h.free[i].size >= size > 0 && Mod(size, h.alignment) == 0
    ensures Mod(h.free[i].start, h.alignment) == 0
    ensures forall k :: 0 <= k < |h.busy| ==> h.busy[k].size > 0
    ensures Valid(h.(free := Carve(h.free, i, size),
                     busy := h.busy + [Block(h.free[i].start, size)],
                     freeSize := (h.freeSize - size) % WORD64))
  {
    hide Mod, Carve, Count;
    Conservation(h);
    BlocksInside(h, i);
    CarveTiles(h, i, size);
    CarveAligned(h.free, i, size, h.alignment);
    CarveCount(h.free, i, size, 0);
  }

  lemma {:induction false} AllocationBlock(busy: seq<Block>, r: nat) returns (j: nat)
    requires r in Allocations(busy)
    ensures j < |busy| && busy[j] == Block(r, Allocations(busy)[r])
  {
    var n := |busy| - 1;
    if busy[n].start == r {
      j := n;
    } else {
      j := AllocationBlock(busy[..n], r);
    }
  }

  /** Allocation keeps the invariant exactly when the rounded request fits 64 bits or nothing is free: otherwise the
  request wraps to zero and a block of no bytes enters the busy list. */
  lemma {:induction false} AllocKeepsValid(h: Heap, n: nat)
    requires Valid(h) && n < WORD64
    ensures Valid(Alloc(h, n).0) <==> RoundUp(n, h.alignment) < WORD64 || h.free == []
  {
    if RoundUp(n, h.alignment) < WORD64 {
      AllocEffect(h, n);
    } else {
      PaddedWraps(n, h.alignment);
      if h.free != [] {
        var h' := Alloc(h, n).0;
        assert FirstFit(h.free, 0) == 0;
        assert h'.busy[|h.busy|].size == 0;
      }
    }
  }

  // -------------------- sorting and merging --------------------

  lemma {:induction false} InsertCount(b: Block, bs: seq<Block>, a: int)
    ensures Count(Insert(b, bs), a) == (if b.Has(a) then 1 else 0) + Count(bs, a)
    ensures Total(Insert(b, bs)) == b.size + Total(bs)
  {
    if bs == [] || LessEq(b, bs[0]) {
      assert ([b] + bs)[1..] == bs;
    } else {
      InsertCount(b, bs[1..], a);
      assert ([bs[0]] + Insert(b, bs[1..]))[1..] == Insert(b, bs[1..]);
    }
  }

  lemma {:induction false} SortCount(bs: seq<Block>, a: int)
    ensures Count(Sort(bs), a) == Count(bs, a) && Total(Sort(bs)) == Total(bs)
  {
    if bs == [] {
    } else {
      SortCount(bs[1..], a);
      InsertCount(bs[0], Sort(bs[1..]), a);
    }
  }

  ghost predicate Sorted(bs: seq<Block>) {
    forall i, j :: 0 <= i < j < |bs| ==> LessEq(bs[i], bs[j])
  }

  lemma {:induction false} InsertSorted(b: Block, bs: seq<Block>)
    requires Sorted(bs)
    ensures Sorted(Insert(b, bs))
    ensures multiset(Insert(b, bs)) == multiset{b} + multiset(bs)
  {
    if bs == [] || LessEq(b, bs[0]) {
    } else {
      InsertSorted(b, bs[1..]);
      var r := Insert(b, bs[1..]);
      assert bs == [bs[0]] + bs[1..];
      hide Insert;
      forall j | 0 <= j < |r|
        ensures LessEq(bs[0], r[j])
      {
        assert r[j] in multiset(r);
      }
    }
  }

  // The specification of `std::list::sort`: a sorted permutation
  lemma {:induction false} SortSorts(bs: seq<Block>)
    ensures Sorted(Sort(bs)) && multiset(Sort(bs)) == multiset(bs)
  {
    if bs == [] {
    } else {
      SortSorts(bs[1..]);
      InsertSorted(bs[0], Sort(bs[1..]));
      assert bs == [bs[0]] + bs[1..];
    }
  }

  lemma {:induction false} MergeCount(bs: seq<Block>, a: int)
    ensures Count(Merge(bs), a) == Count(bs, a) && Total(Merge(bs)) == Total(bs)
    decreases |bs|
  {
    if |bs| <= 1 {
    } else {
      if bs[0].End() != bs[1].start {
        MergeCount(bs[1..], a);
        assert ([bs[0]] + Merge(bs[1..]))[1..] == Merge(bs[1..]);
      } else {
        var joined := [Block(bs[0].start, bs[0].size + bs[1].size)] + bs[2..];
        MergeCount(joined, a);
        assert joined[1..] == bs[2..] && bs[1..][1..] == bs[2..];
      }
    }
  }

  // Blocks in order, none overlapping the next
  predicate Ordered(bs: seq<Block>) {
    forall i :: 0 <= i < |bs| - 1 ==> bs[i].End() <= bs[i + 1].start
  }

  // Blocks in order with a gap after each: what coalescing is for
  ghost predicate Separated(bs: seq<Block>) {
    forall i, j :: 0 <= i < j < |bs| ==> bs[i].End() < bs[j].start
  }

  predicate Gaps(bs: seq<Block>) {
    forall i :: 0 <= i < |bs| - 1 ==> bs[i].End() < bs[i + 1].start
  }

  lemma {:induction false} MergeGaps(bs: seq<Block>)
    requires Ordered(bs)
    ensures Gaps(Merge(bs)) && (bs != [] ==> Merge(bs) != [] && Merge(bs)[0].start == bs[0].start)
    decreases |bs|
  {
    if |bs| <= 1 {
    } else {
      if bs[0].End() != bs[1].start {
        MergeGaps(bs[1..]);
        assert bs[0].End() <= bs[0 + 1].start;
      } else {
        var joined := [Block(bs[0].start, bs[0].size + bs[1].size)] + bs[2..];
        forall i | 0 <= i < |joined| - 1
          ensures joined[i].End() <= joined[i + 1].start
        {
          assert bs[i + 1].End() <= bs[i + 1 + 1].start;
        }
        MergeGaps(joined);
      }
    }
  }

  lemma {:induction false} GapsSeparate(bs: seq<Block>)
    requires Gaps(bs)
    ensures Separated(bs)
  {
    if |bs| <= 1 {
    } else {
      var t := bs[1..];
      forall i | 0 <= i < |t| - 1
        ensures t[i].End() < t[i + 1].start
      {
        assert bs[i + 1].End() < bs[i + 1 + 1].start;
      }
      GapsSeparate(t);
      assert bs[0].End() < bs[0 + 1].start;
      forall j | 1 <= j < |bs|
        ensures bs[0].End() < bs[j].start
      {
        if j > 1 { assert t[0].End() < t[j - 1].start; }
      }
      forall i, j | 0 <= i < j < |bs|
        ensures bs[i].End() < bs[j].start
      {
        if i > 0 { assert t[i - 1].End() < t[j - 1].start; }
      }
    }
  }

  lemma {:induction false} MergeAligned(bs: seq<Block>, m: nat)
    requires m > 0 && AlignedBlocks(bs, m)
    ensures AlignedBlocks(Merge(bs), m)
    decreases |bs|
  {
    if |bs| <= 1 {
    } else {
      if bs[0].End() != bs[1].start {
        MergeAligned(bs[1..], m);
      } else {
        MergeAligned([Block(bs[0].start, bs[0].size + bs[1].size)] + bs[2..], m);
      }
    }
  }

  lemma {:induction false} SortAligned(bs: seq<Block>, m: nat)
    requires m > 0 && AlignedBlocks(bs, m)
    ensures AlignedBlocks(Sort(bs), m)
  {
    SortSorts(bs);
    forall i | 0 <= i < |Sort(bs)|
      ensures Sort(bs)[i].size > 0 && Mod(Sort(bs)[i].start, m) == 0
    {
      assert Sort(bs)[i] in multiset(bs);
    }
  }

  // Free blocks that hold no address twice and are sorted do not overlap.
  lemma {:induction false} SortedOrdered(bs: seq<Block>, m: nat)
    requires m > 0 && AlignedBlocks(bs, m) && Sorted(bs)
    requires forall a: int :: Count(bs, a) <= 1
    ensures Ordered(bs)
  {
    forall i | 0 <= i < |bs| - 1
      ensures bs[i].End() <= bs[i + 1].start
    {
      assert LessEq(bs[i], bs[i + 1]);
      var a := bs[i + 1].start;
      if bs[i].Has(a) {
        CountTwo(bs, i, i + 1, a);
        assert false;
      }
    }
  }

  /** Coalescing keeps the set of free addresses and leaves a sorted list in which no two blocks touch. */
  lemma {:induction false} CoalesceEffect(bs: seq<Block>, m: nat)
    requires m > 0 && AlignedBlocks(bs, m)
    requires forall a: int :: Count(bs, a) <= 1
    ensures forall a: int :: Count(Coalesce(bs), a) == Count(bs, a)
    ensures Total(Coalesce(bs)) == Total(bs)
    ensures AlignedBlocks(Coalesce(bs), m)
    ensures Separated(Coalesce(bs))
  {
    forall a: int
      ensures Count(Sort(bs), a) == Count(bs, a) && Count(Coalesce(bs), a) == Count(bs, a)
    {
      SortCount(bs, a);
      MergeCount(Sort(bs), a);
    }
    SortCount(bs, 0);
    MergeCount(Sort(bs), 0);
    SortSorts(bs);
    SortAligned(bs, m);
    SortedOrdered(Sort(bs), m);
    MergeAligned(Sort(bs), m);
    MergeGaps(Sort(bs));
    GapsSeparate(Coalesce(bs));
  }

  // -------------------- free --------------------

  lemma {:induction false} AllocationsRemove(busy: seq<Block>, i: nat)
    requires i < |busy|
    requires forall j, k :: 0 <= j < k < |busy| ==> busy[j].start != busy[k].start
    ensures Allocations(Remove(busy, i)) == Allocations(busy) - {busy[i].start}
  {
    var n := |busy| - 1;
    var b := busy[n];
    if i == n {
      assert Remove(busy, i) == busy[..n];
      if b.start in Allocations(busy[..n]) {
        var j := AllocationBlock(busy[..n], b.start);
        assert false;
      }
    } else {
      AllocationsRemove(busy[..n], i);
      assert Remove(busy, i)[..n - 1] == Remove(busy[..n], i);
      assert Remove(busy, i)[n - 1] == b;
      assert busy[i].start != b.start;
    }
  }

  lemma {:induction false} BusyStartsUnique(h: Heap, j: nat, k: nat)
    requires Valid(h) && j < k < |h.busy|
    ensures h.busy[j].start != h.busy[k].start
  {
    if h.busy[j].start == h.busy[k].start {
      CountTwo(h.busy, j, k, h.busy[j].start);
      assert false;
    }
  }

  lemma {:induction false} AllocationsHas(busy: seq<Block>, i: nat)
    requires i < |busy|
    ensures busy[i].start in Allocations(busy)
  {
    if i == |busy| - 1 {
    } else {
      AllocationsHas(busy[..|busy| - 1], i);
    }
  }

  // Moving busy block `i` to the free list keeps the tiling.
  lemma {:induction false} ReleaseTiles(h: Heap, i: nat)
    requires Tiles(h) && i < |h.busy|
    ensures var free := h.free + [h.busy[i]];
            && Tiles(h.(free := free, busy := Remove(h.busy, i)))
            && (forall a: int :: Count(free, a) <= 1)
            && Total(free) == Total(h.free) + h.busy[i].size
  {
    hide Remove;
    var b := h.busy[i];
    var free := h.free + [b];
    forall a: int
      ensures Count(free, a) + Count(Remove(h.busy, i), a) == Count(h.free, a) + Count(h.busy, a)
      ensures Count(free, a) <= 1
    {
      CountConcat(h.free, [b], a);
      CountOne(b, a);
      CountSplit(h.busy, i, a);
    }
    TotalConcat(h.free, [b]);
    assert Total([b]) == b.size;
  }

  /** Freeing keeps the invariant, removes exactly the given allocation, and ignores an address that is none. */
  lemma {:induction false} FreeEffect(h: Heap, buf: nat)
    requires Valid(h)
    ensures Valid(Free(h, buf))
    ensures Allocations(Free(h, buf).busy) == Allocations(h.busy) - {buf}
  {
    hide Mod, Count, Total, Coalesce, Remove, Allocations;
    var i := Find(h.busy, buf);
    if i == |h.busy| {
      if buf in Allocations(h.busy) {
        var j := AllocationBlock(h.busy, buf);
        assert false;
      }
    } else {
      forall j, k | 0 <= j < k < |h.busy|
        ensures h.busy[j].start != h.busy[k].start
      {
        BusyStartsUnique(h, j, k);
      }
      AllocationsRemove(h.busy, i);
      ReleaseValid(h, i);
    }
  }

  lemma {:induction false} ReleaseValid(h: Heap, i: nat)
    requires Valid(h) && i < |h.busy|
    ensures var free := h.free + [h.busy[i]];
            var total := (h.freeSize + h.busy[i].size) % WORD64;
            && Valid(h.(free := free, busy := Remove(h.busy, i), freeSize := total))
            && Valid(h.(free := Coalesce(free), busy := Remove(h.busy, i), freeSize := total))
  {
    hide Mod, Count, Total, Coalesce, Remove;
    ReleaseTiles(h, i);
    CoalesceEffect(h.free + [h.busy[i]], h.alignment);
    CoalesceTiles(h.(free := h.free + [h.busy[i]], busy := Remove(h.busy, i)));
    RemoveAligned(h.busy, i, h.alignment);
    Conservation(h);
    TotalSplit(h.busy, i);
  }

  lemma {:induction false} CoalesceTiles(h: Heap)
    requires Tiles(h) && forall a: int :: Count(Coalesce(h.free), a) == Count(h.free, a)
    ensures Tiles(h.(free := Coalesce(h.free)))
  {
  }

  lemma {:induction false} RemoveAligned(busy: seq<Block>, i: nat, m: nat)
    requires m > 0 && i < |busy| && AlignedBlocks(busy, m)
    requires forall k :: 0 <= k < |busy| ==> Mod(busy[k].size, m) == 0
    ensures AlignedBlocks(Remove(busy, i), m)
    ensures forall k :: 0 <= k < |Remove(busy, i)| ==> Mod(Remove(busy, i)[k].size, m) == 0
  {
    hide Mod;
    var r := Remove(busy, i);
    forall k | 0 <= k < |r|
      ensures r[k].size > 0 && Mod(r[k].start, m) == 0 && Mod(r[k].size, m) == 0
    {
      assert r[k] == busy[if k < i then k else k + 1];
    }
  }

  // -------------------- conservation --------------------

  // Addresses of `[lo, lo + n)` counted with multiplicity
  function Sum(bs: seq<Block>, lo: nat, n: nat): nat {
    if n == 0 then 0 else Sum(bs, lo, n - 1) + Count(bs, lo + n - 1)
  }

  lemma {:induction false} SumCons(b: Block, bs: seq<Block>, lo: nat, n: nat)
    requires lo <= b.start
    ensures Sum([b] + bs, lo, n) ==
            Sum(bs, lo, n) + (if lo + n <= b.start then 0 else if lo + n <= b.End() then lo + n - b.start else b.size)
  {
    if n == 0 {
    } else {
      SumCons(b, bs, lo, n - 1);
      assert ([b] + bs)[1..] == bs;
    }
  }

  lemma {:induction false} SumIsTotal(bs: seq<Block>, lo: nat, n: nat)
    requires forall i :: 0 <= i < |bs| ==> lo <= bs[i].start && bs[i].End() <= lo + n
    ensures Sum(bs, lo, n) == Total(bs)
  {
    if bs == [] {
      SumOfNone(lo, n);
    } else {
      SumIsTotal(bs[1..], lo, n);
      SumCons(bs[0], bs[1..], lo, n);
      assert bs == [bs[0]] + bs[1..];
    }
  }

  lemma {:induction false} SumOfNone(lo: nat, n: nat)
    ensures Sum([], lo, n) == 0
  {
    if n == 0 {
    } else {
      SumOfNone(lo, n - 1);
    }
  }

  lemma {:induction false} SumOfTiles(h: Heap, n: nat)
    requires Tiles(h) && n <= h.size
    ensures Sum(h.free, h.start, n) + Sum(h.busy, h.start, n) == n
  {
    if n == 0 {
    } else {
      SumOfTiles(h, n - 1);
    }
  }

  /** Free and allocated bytes always add up to the size of the heap. */
  lemma {:induction false} Conservation(h: Heap)
    requires Valid(h)
    ensures h.freeSize + Total(h.busy) == h.size
  {
    hide Mod;
    ListInside(h, h.free);
    ListInside(h, h.busy);
    SumOfTiles(h, h.size);
    SumIsTotal(h.free, h.start, h.size);
    SumIsTotal(h.busy, h.start, h.size);
  }

  lemma {:induction false} ListInside(h: Heap, bs: seq<Block>)
    requires Valid(h) && (bs == h.free || bs == h.busy)
    ensures forall i :: 0 <= i < |bs| ==> h.start <= bs[i].start && bs[i].End() <= h.start + h.size
  {
    hide Mod;
    forall i | 0 <= i < |bs|
      ensures h.start <= bs[i].start && bs[i].End() <= h.start + h.size
    {
      assert bs[i].Has(bs[i].start) && bs[i].Has(bs[i].End() - 1);
      CountPositive(bs, bs[i].start);
      CountPositive(bs, bs[i].End() - 1);
    }
  }

  // -------------------- what coalescing buys --------------------

  // `[a, a + n)` is free.
  ghost predicate FreeRun(h: Heap, a: nat, n: nat) {
    forall k: int :: a <= k < a + n ==> Count(h.free, k) > 0
  }

  lemma {:induction false} RunInOneBlock(bs: seq<Block>, a: nat, n: nat)
    requires Separated(bs) && n > 0
    requires forall k: int :: a <= k < a + n ==> Count(bs, k) > 0
    ensures exists i :: 0 <= i < |bs| && bs[i].start <= a && a + n <= bs[i].End()
  {
    CountPositive(bs, a);
    var i :| 0 <= i < |bs| && bs[i].Has(a);
    var e := bs[i].End();
    CountPositive(bs, e);
    assert forall j :: 0 <= j < |bs| ==> !bs[j].Has(e);
  }

  lemma {:induction false} BlockIsRun(h: Heap, i: nat)
    requires i < |h.free|
    ensures FreeRun(h, h.free[i].start, h.free[i].size)
  {
    forall k: int | h.free[i].start <= k < h.free[i].End()
      ensures Count(h.free, k) > 0
    {
      assert h.free[i].Has(k);
      CountPositive(h.free, k);
    }
  }

  /** On a coalesced free list an allocation fails exactly when no run of free bytes is long enough. */
  lemma {:induction false} AllocComplete(h: Heap, n: nat)
    requires Valid(h) && n < WORD64 && RoundUp(n, h.alignment) < WORD64
    requires Separated(h.free)
    ensures Alloc(h, n).1 == NULL <==> !exists a: nat :: FreeRun(h, a, RoundUp(n, h.alignment))
  {
    PaddedWraps(n, h.alignment);
    hide Mod, RoundUp, Padded, Separated;
    var size := RoundUp(n, h.alignment);
    var i := FirstFit(h.free, size);
    if i < |h.free| {
      BlocksInside(h, i);
      BlockIsRun(h, i);
      assert FreeRun(h, h.free[i].start, size);
    } else if a: nat :| FreeRun(h, a, size) {
      RunInOneBlock(h.free, a, size);
      assert false;
    }
  }

  // Without allocations a single free block is the whole heap, and several blocks are each smaller.
  lemma {:induction false} OneBlockHeap(h: Heap)
    requires Valid(h) && h.busy == []
    ensures |h.free| == 1 ==> h.free == [Block(h.start, h.size)]
    ensures |h.free| > 1 ==> forall i :: 0 <= i < |h.free| ==> h.free[i].size < h.size
    ensures h.free != []
  {
    hide Mod;
    ListInside(h, h.free);
    assert Count(h.busy, h.start) == 0;
    CountPositive(h.free, h.start);
    if |h.free| == 1 {
      CountPositive(h.free, h.start + h.size - 1);
    } else {
      forall i | 0 <= i < |h.free|
        ensures h.free[i].size < h.size
      {
        OtherBlockSmaller(h, i);
      }
    }
  }

  lemma {:induction false} OtherBlockSmaller(h: Heap, i: nat)
    requires Valid(h) && i < |h.free| && |h.free| > 1
    ensures h.free[i].size < h.size
  {
    hide Mod, Count, Total;
    var j := if i == 0 then 1 else 0;
    ListInside(h, h.free);
    TilesMeansDisjoint(h, if i < j then i else j, if i < j then j else i);
    assert (h.free + h.busy)[i] == h.free[i] && (h.free + h.busy)[j] == h.free[j];
  }

  /** A coalesced heap without allocations is one block. */
  lemma {:induction false} CoalescedWhole(h: Heap)
    requires Valid(h) && h.busy == [] && Separated(h.free)
    ensures h.free == [Block(h.start, h.size)]
  {
    hide Mod;
    forall k: int | h.start <= k < h.start + h.size
      ensures Count(h.free, k) > 0
    {
      assert Count(h.busy, k) == 0;
    }
    RunInOneBlock(h.free, h.start, h.size);
    var i :| 0 <= i < |h.free| && h.free[i].start <= h.start && h.start + h.size <= h.free[i].End();
    OneBlockHeap(h);
    assert h.free[i].size >= h.size;
  }

  /** A heap without allocations satisfies a request for all of it if and only if its free list is a single block, and
  its size is a multiple of the alignment. */
  lemma {:induction false} WholeHeapRequest(h: Heap)
    requires Valid(h) && h.busy == [] && RoundUp(h.size, h.alignment) < WORD64
    ensures Alloc(h, h.size).1 != NULL <==> |h.free| == 1 && Mod(h.size, h.alignment) == 0
  {
    OneBlockHeap(h);
    PaddedWraps(h.size, h.alignment);
    RoundUpAligned(h.size, h.alignment);
    assert Mod(h.size, h.alignment) == 0 ==> RoundUp(h.size, h.alignment) == h.size;
    assert RoundUp(h.size, h.alignment) == h.size ==> Mod(h.size, h.alignment) == 0;
    hide Mod, RoundUp, Padded, Valid;
    var i := FirstFit(h.free, Padded(h.size, h.alignment));
    if i < |h.free| {
      StartIsNotNull(h, i);
    }
  }

  lemma {:induction false} StartIsNotNull(h: Heap, i: nat)
    requires Valid(h) && i < |h.free|
    ensures h.free[i].start != NULL
  {
    hide Mod;
    BlocksInside(h, i);
  }

  /** Below the coalescing threshold the list stays split: the heap is entirely free, yet a request for all of it
  fails. */
  lemma {:induction false} UncoalescedFails()
    ensures var h0 := Fresh(0, 64, 32);
            var h1 := Alloc(h0, 32).0;
            var h2 := Alloc(h1, 32).0;
            var h := Free(Free(h2, 0), 32);
            h.busy == [] && h.freeSize == 64 && Alloc(h, 64).1 == NULL
  {
    assert Mod(32, 32) == Mod(0, 32) == 0;
    assert Mod(64, 32) == Mod(32, 32);
    var h0 := Fresh(0, 64, 32);
    var h1 := Alloc(h0, 32).0;
    assert h1 == Heap(0, 64, 32, [Block(32, 32)], [Block(0, 32)], 32);
    var h2 := Alloc(h1, 32).0;
    assert h2 == Heap(0, 64, 32, [], [Block(0, 32), Block(32, 32)], 0);
    var h3 := Free(h2, 0);
    assert h3 == Heap(0, 64, 32, [Block(0, 32)], [Block(32, 32)], 32);
    var h := Free(h3, 32);
    assert h == Heap(0, 64, 32, [Block(0, 32), Block(32, 32)], [], 64);
  }

  /** Freeing appends the block to the free list; from five free blocks on the list is left coalesced. */
  lemma {:induction false} FreeCoalesces(h: Heap, buf: nat)
    requires Valid(h) && buf in Allocations(h.busy)
    ensures if |h.free| + 1 > 4 then Separated(Free(h, buf).free)
            else Free(h, buf).free == h.free + [Block(buf, Allocations(h.busy)[buf])]
  {
    hide Mod, Count, Total, Separated, Coalesce;
    var j := AllocationBlock(h.busy, buf);
    var i := Find(h.busy, buf);
    ReleaseTiles(h, i);
    if |h.free| < 4 {
      if i != j { BusyStartsUnique(h, if i < j then i else j, if i < j then j else i); }
    } else {
      CoalesceEffect(h.free + [h.busy[i]], h.alignment);
    }
  }

  // -------------------- how high allocations reach --------------------

  // From address `w` on, the heap is the end of one free block.
  ghost predicate Tail(h: Heap, w: nat) {
    w >= h.start + h.size || exists i :: IsTail(h, i, w)
  }

  predicate IsTail(h: Heap, i: int, w: nat) {
    0 <= i < |h.free| && h.free[i].start <= w && h.free[i].End() == h.start + h.size
  }

  lemma {:induction false} FreshTail(start: nat, size: nat, alignment: nat)
    ensures Tail(Fresh(start, size, alignment), start)
  {
    assert IsTail(Fresh(start, size, alignment), 0, start);
  }

  /** First fit never reaches beyond the total of the requests so far: an allocation starts at or below the tail and
  moves it by its own size at most. */
  lemma {:induction false} AllocTail(h: Heap, n: nat, w: nat)
    requires Valid(h) && n < WORD64 && RoundUp(n, h.alignment) < WORD64 && Tail(h, w)
    ensures var (h', r) := Alloc(h, n);
            Tail(h', w + RoundUp(n, h.alignment)) && (r != NULL ==> r <= w)
  {
    PaddedWraps(n, h.alignment);
    hide Mod, RoundUp, Padded, Count, Total;
    var size := RoundUp(n, h.alignment);
    var i := FirstFit(h.free, size);
    var h' := Alloc(h, n).0;
    if i < |h.free| {
      BlocksInside(h, i);
    }
    if w < h.start + h.size {
      var t :| IsTail(h, t, w);
      if i == |h.free| {
        assert IsTail(h', t, w + size);
      } else if i == t {
        if h.free[i].size > size { assert IsTail(h', i, w + size); }
      } else {
        TilesMeansDisjoint(h, if i < t then i else t, if i < t then t else i);
        assert (h.free + h.busy)[i] == h.free[i] && (h.free + h.busy)[t] == h.free[t];
        BlocksInside(h, t);
        assert h.free[i].size > 0;
        assert IsTail(h', if h.free[i].size > size || t < i then t else t - 1, w + size);
      }
    }
  }

  /** There is room for a request that fits behind the tail. */
  lemma {:induction false} TailHasRoom(h: Heap, n: nat, w: nat)
    requires Valid(h) && Tail(h, w) && w + RoundUp(n, h.alignment) <= h.start + h.size
    ensures n < WORD64 && RoundUp(n, h.alignment) < WORD64
    ensures FirstFit(h.free, Padded(n, h.alignment)) < |h.free|
  {
    RoundUpAligned(n, h.alignment);
    PaddedWraps(n, h.alignment);
    hide Mod, RoundUp, Padded, Count, Total;
    var t :| IsTail(h, t, w);
    assert h.free[t].size >= RoundUp(n, h.alignment);
  }

  /** Freeing never moves the tail up. */
  lemma {:induction false} FreeTail(h: Heap, buf: nat, w: nat)
    requires Valid(h) && Tail(h, w)
    ensures Tail(Free(h, buf), w)
  {
    hide Mod, Count, Total, Coalesce, Valid;
    var i := Find(h.busy, buf);
    if i < |h.busy| && w < h.start + h.size {
      var t :| IsTail(h, t, w);
      var free := h.free + [h.busy[i]];
      assert free[t] == h.free[t];
      if |free| > COALESCE_THRESHOLD {
        CoalescedTail(h, i, t, w);
        var c := Coalesce(free);
        var j :| 0 <= j < |c| && c[j].start <= w && c[j].End() == h.start + h.size;
        assert IsTail(Free(h, buf), j, w);
      } else {
        assert IsTail(Free(h, buf), t, w);
      }
    }
  }

  lemma {:induction false} CoalescedTail(h: Heap, i: nat, t: nat, w: nat)
    requires Valid(h) && i < |h.busy| && IsTail(h, t, w) && w < h.start + h.size
    ensures var free := Coalesce(h.free + [h.busy[i]]);
            exists j :: 0 <= j < |free| && free[j].start <= w && free[j].End() == h.start + h.size
  {
    hide Mod, Coalesce, Separated;
    var free := h.free + [h.busy[i]];
    ReleaseTiles(h, i);
    assert AlignedBlocks(free, h.alignment);
    CoalesceEffect(free, h.alignment);
    forall k: int | w <= k < h.start + h.size
      ensures Count(Coalesce(free), k) > 0
    {
      assert free[t] == h.free[t] && free[t].Has(k);
      CountPositive(free, k);
    }
    RunInOneBlock(Coalesce(free), w, h.start + h.size - w);
    var j :| 0 <= j < |Coalesce(free)| && Coalesce(free)[j].start <= w && h.start + h.size <= Coalesce(free)[j].End();
    CoalescedInside(h, i, j);
  }

  lemma {:induction false} CoalescedInside(h: Heap, i: nat, j: nat)
    requires Valid(h) && i < |h.busy| && j < |Coalesce(h.free + [h.busy[i]])|
    ensures Coalesce(h.free + [h.busy[i]])[j].End() <= h.start + h.size
  {
    hide Mod, Coalesce, Separated;
    var free := h.free + [h.busy[i]];
    ReleaseTiles(h, i);
    CoalesceEffect(free, h.alignment);
    var b := Coalesce(free)[j];
    assert b.Has(b.End() - 1);
    CountPositive(Coalesce(free), b.End() - 1);
    assert Count(free, b.End() - 1) > 0;
    CountConcat(h.free, [h.busy[i]], b.End() - 1);
    CountOne(h.busy[i], b.End() - 1);
    if h.busy[i].Has(b.End() - 1) { CountPositive(h.busy, b.End() - 1); }
  }

  // -------------------- every history --------------------

  datatype Operation = Request(n: nat) | Release(buf: nat)

  function Run(h: Heap, ops: seq<Operation>): Heap
    requires h.alignment > 0
    decreases |ops|
  {
    if ops == [] then h
    else match ops[0]
      case Request(n) => Run(Alloc(h, n).0, ops[1..])
      case Release(buf) => Run(Free(h, buf), ops[1..])
  }

  /** After any sequence of allocations and frees from a fresh heap the invariant holds. */
  lemma {:induction false} RunValid(start: nat, size: nat, alignment: nat, ops: seq<Operation>)
    requires alignment > 0 && Mod(WORD64, alignment) == 0 && Mod(start, alignment) == 0
    requires size > 0 && start + size < WORD64
    requires forall op :: op in ops && op.Request? ==> op.n < WORD64 && RoundUp(op.n, alignment) < WORD64
    ensures Valid(Run(Fresh(start, size, alignment), ops))
  {
    var h := Fresh(start, size, alignment);
    assert Total([Block(start, size)]) == size;
    FreshTiles(start, size, alignment);
    RunKeepsValid(h, ops);
  }

  lemma {:induction false} FreshTiles(start: nat, size: nat, alignment: nat)
    ensures Tiles(Fresh(start, size, alignment))
  {
    forall a: int
      ensures Count([Block(start, size)], a) + Count([], a) == if start <= a < start + size then 1 else 0
    {
      CountOne(Block(start, size), a);
    }
  }

  lemma {:induction false} RunKeepsValid(h: Heap, ops: seq<Operation>)
    requires Valid(h)
    requires forall op :: op in ops && op.Request? ==> op.n < WORD64 && RoundUp(op.n, h.alignment) < WORD64
    ensures Valid(Run(h, ops))
    decreases |ops|
  {
    hide Mod, RoundUp, AlignedBlocks, Tiles, Total, Count;
    if ops == [] {
    } else {
      var op, rest := ops[0], ops[1..];
      assert op in ops;
      assert forall op :: op in rest ==> op in ops;
      match op
      case Request(n) =>
        AllocEffect(h, n);
        RunKeepsValid(Alloc(h, n).0, rest);
      case Release(buf) =>
        FreeEffect(h, buf);
        RunKeepsValid(Free(h, buf), rest);
    }
  }

  // -------------------- the allocator --------------------

  class MemoryManager {
    const size: nat
    const start: nat
    const alignment: nat
    var free: seq<Block>
    var busy: seq<Block>
    var freeSize: nat

    ghost function State(): Heap
      reads this
    {
      Heap(start, size, alignment, free, busy, freeSize)
    }

    constructor (size: nat, start: nat, alignment: nat)
      requires alignment > 0 && Mod(start, alignment) == 0
      ensures State() == Fresh(start, size, alignment)
    {
      this.size, this.start, this.alignment := size, start, alignment;
      free := [Block(start, size)];
      busy := [];
      freeSize := size;
    }

    // The request rounded up to whole alignment units, in 64 bits
    method PaddedSize(n: nat) returns (size: nat)
      requires alignment > 0
      ensures size == Padded(n, alignment)
    {
      hide Mod;
      size := if n == 0 then alignment else n;
      var rest := Mod(size, alignment);
      if rest > 0 {
        size := size + (alignment - rest);
      }
      size := size % WORD64;
    }

    method Allocate(n: nat) returns (result: nat)
      requires alignment > 0
      modifies this
      ensures (State(), result) == Alloc(old(State()), n)
    {
      hide Mod, Padded, Total, Count;
      var req := PaddedSize(n);
      result := NULL;
      var i := 0;
      while i < |free|
        invariant 0 <= i <= |free|
        invariant forall j :: 0 <= j < i ==> free[j].size < req
        invariant State() == old(State()) && result == NULL
      {
        if free[i].size >= req {
          FirstFitIs(free, req, i);
          result := free[i].start;
          if free[i].size > req {
            free := free[i := Block(free[i].start + req, free[i].size - req)];
          } else {
            free := free[..i] + free[i + 1..];
          }
          busy := busy + [Block(result, req)];
          freeSize := (freeSize - req) % WORD64;
          return;
        }
        i := i + 1;
      }
      FirstFitIs(free, req, i);
    }

    // Position in the busy list, `|busy|` when there is none
    method FindBusy(buf: nat) returns (i: nat)
      ensures i == Find(busy, buf)
    {
      i := 0;
      while i < |busy| && busy[i].start != buf
        invariant 0 <= i <= |busy|
        invariant forall j :: 0 <= j < i ==> busy[j].start != buf
      {
        i := i + 1;
      }
      FindIs(busy, buf, i);
    }

    method Release(buf: nat)
      modifies this
      ensures State() == Free(old(State()), buf)
    {
      var i := FindBusy(buf);
      if i == |busy| {
        return;
      }
      freeSize := (freeSize + busy[i].size) % WORD64;
      free := free + [busy[i]];
      busy := busy[..i] + busy[i + 1..];
      if |free| > COALESCE_THRESHOLD {
        CoalesceFree();
      }
    }

    // In-place pass over the sorted list; `next` is always `curr + 1`.
    method CoalesceFree()
      requires |free| > 0
      modifies this`free
      ensures free == Coalesce(old(free))
    {
      free := Sort(free);
      ghost var sorted := free;
      SortKeepsLength(old(free));
      hide Merge, Sort;
      var curr := 0;
      while curr + 1 < |free|
        invariant 0 <= curr < |free|
        invariant Merge(sorted) == free[..curr] + Merge(free[curr..])
        decreases |free| - curr
      {
        var next := curr + 1;
        MergeStep(free, curr);
        if free[curr].start + free[curr].size != free[next].start {
          curr := next;
        } else {
          free := free[curr := Block(free[curr].start, free[curr].size + free[next].size)];
          free := free[..next] + free[next + 1..];
        }
      }
      MergeOne(free[curr..]);
    }

    method Lookup(buf: nat) returns (b: Block)
      ensures b == if Find(busy, buf) < |busy| then busy[Find(busy, buf)] else Block(NULL, NULL)
    {
      var i := FindBusy(buf);
      if i != |busy| {
        return busy[i];
      }
      return Block(NULL, NULL);
    }
  }

  lemma {:induction false} FirstFitIs(bs: seq<Block>, size: nat, i: nat)
    requires i <= |bs| && (i < |bs| ==> bs[i].size >= size)
    requires forall j :: 0 <= j < i ==> bs[j].size < size
    ensures FirstFit(bs, size) == i
  {
  }

  lemma {:induction false} FindIs(bs: seq<Block>, buf: nat, i: nat)
    requires i <= |bs| && (i < |bs| ==> bs[i].start == buf)
    requires forall j :: 0 <= j < i ==> bs[j].start != buf
    ensures Find(bs, buf) == i
  {
  }

  lemma {:induction false} SortKeepsLength(bs: seq<Block>)
    ensures |Sort(bs)| == |bs|
  {
    SortSorts(bs);
    assert |multiset(Sort(bs))| == |multiset(bs)|;
  }

  lemma {:induction false} MergeOne(bs: seq<Block>)
    requires |bs| == 1
    ensures Merge(bs) == bs
  {
  }

  lemma {:induction false} MergeStep(bs: seq<Block>, i: nat)
    requires i + 1 < |bs|
    ensures bs[i].End() != bs[i + 1].start ==>
              bs[..i] + Merge(bs[i..]) == bs[..i + 1] + Merge(bs[i + 1..])
    ensures bs[i].End() == bs[i + 1].start ==>
              var joined := bs[i := Block(bs[i].start, bs[i].size + bs[i + 1].size)];
              var bs' := joined[..i + 1] + joined[i + 2..];
              bs[..i] + Merge(bs[i..]) == bs'[..i] + Merge(bs'[i..])
  {
    var t := bs[i..];
    assert t[1..] == bs[i + 1..] && t[2..] == bs[i + 2..];
    if bs[i].End() != bs[i + 1].start {
      assert bs[..i] + ([bs[i]] + Merge(bs[i + 1..])) == bs[..i + 1] + Merge(bs[i + 1..]);
    } else {
      var joined := bs[i := Block(bs[i].start, bs[i].size + bs[i + 1].size)];
      var bs' := joined[..i + 1] + joined[i + 2..];
      assert bs'[..i] == bs[..i];
      assert bs'[i..] == [Block(bs[i].start, bs[i].size + bs[i + 1].size)] + bs[i + 2..];
    }
  }
}
