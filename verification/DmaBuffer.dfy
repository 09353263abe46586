/** DMA in terms of the physical memories: one copy into a memory buffer is one copy into the bytes behind a cache.

libraries/features/dma/simulation/bsg_manycore_dma.cpp (hb_mc_dma_write, hb_mc_dma_read)
*/
module DmaBuffer {
  import opened Bits
  import opened Wrappers
  import opened Geometry
  import opened Eva
  import opened DmaMap
  import opened VCache

  type Memories = Physical -> Byte

  /** A memory layout: which table was built and what it says about each cache, the size of a memory, and the address
  bits of a channel */
  datatype Layout = Layout(table: Table, memoryId: seq<nat>, bankId: seq<nat>, memorySize: nat, bits: nat)

  // Some caches share each channel, so a memory has banks.
  predicate HasBanks(cfg: Config) { cfg.memsys.channels > 0 && CachesPerChannel(cfg) > 0 }

  // Bytes of a memory behind one cache
  function BankBytes(cfg: Config, lay: Layout): nat
    requires HasBanks(cfg)
  {
    BankSize(cfg, lay.memorySize)
  }

  ghost predicate GoodLayout(cfg: Config, lay: Layout) {
    var slot := Slots(cfg, lay.table);
    && HasBanks(cfg)
    && |lay.memoryId| == |lay.bankId|
    && SlotsInjective(cfg, slot) && SlotsFit(cfg, slot) && TableHolds(cfg, lay.memoryId, lay.bankId, slot)
    && lay.memorySize <= Pow2(lay.bits)
    // stripes are whole in every bank, and their bits pass through the permutation, which keeps all address bits
    && Low(BankBytes(cfg, lay), StripeLog(cfg)) == 0
    && (cfg.memsys.id.DramSim3? || cfg.memsys.id.Hbm2? ==>
          CoversBits(cfg.memsys, lay.bits) && LowBitsPass(cfg.memsys, StripeLog(cfg)))
  }

  // A byte behind a cache of an existing pod
  ghost predicate IsByte(cfg: Config, lay: Layout, npa: Npa) {
    && HasBanks(cfg) && npa.epa < BankBytes(cfg, lay)
    && exists pod :: PodExists(cfg, pod) && IsBankOf(cfg, pod, Xy(npa))
  }

  ghost function Buffer(cfg: Config, lay: Layout, npa: Npa): Physical
    requires GoodLayout(cfg, lay) && IsByte(cfg, lay, npa)
  {
    HasEntry(cfg, lay, npa);
    NpaToBuffer(cfg, lay.memoryId, lay.bankId, lay.memorySize, npa)
  }

  lemma {:induction false} HasEntry(cfg: Config, lay: Layout, npa: Npa)
    requires GoodLayout(cfg, lay) && IsByte(cfg, lay, npa)
    ensures DramId(cfg, Xy(npa)) < |lay.memoryId|
  {
    hide SlotsInjective, SlotsFit, CachesPerChannel, BankSize, DramId, IsBankOf, CoversBits, LowBitsPass, Low, Pow2, StripeLog;
    var pod :| PodExists(cfg, pod) && IsBankOf(cfg, pod, Xy(npa));
    assert HasSlot(cfg, lay.memoryId, lay.bankId, Xy(npa), Slots(cfg, lay.table)(pod, Xy(npa)));
  }

  // `memcpy` into a memory
  function Memcpy(mems: Memories, at: Physical, data: seq<Byte>): Memories {
    (n: Physical) =>
      if n.memory == at.memory && at.address <= n.address < at.address + |data| then data[n.address - at.address]
      else mems(n)
  }

  // The same copy in terms of banks
  function Copied(d: DramBytes, npa: Npa, data: seq<Byte>): DramBytes {
    (b: Coord, epa: nat) =>
      if b == Xy(npa) && npa.epa <= epa < npa.epa + |data| then data[epa - npa.epa] else d(b, epa)
  }

  // A chunk that the range loops hand to DMA: inside one stripe and inside the bank
  ghost predicate IsChunk(cfg: Config, lay: Layout, npa: Npa, len: nat) {
    && IsByte(cfg, lay, npa) && npa.epa + len <= BankBytes(cfg, lay)
    && Low(npa.epa, StripeLog(cfg)) + len <= Pow2(StripeLog(cfg))
  }

  lemma {:induction false} LowOfMultiple(b: nat, m: nat, e: nat, s: nat)
    requires Low(m, s) == 0
    ensures Low(Mul(b, m) + e, s) == Low(e, s)
  {
    hide Low, Pow2, Shl, Shr;
    if b == 0 {
    } else {
      LowOfMultiple(b - 1, m, e, s);
      Split(m, s);
      LowPlusMultiple(Mul(b - 1, m) + e, Shr(m, s), s);
    }
  }

  // The bytes of a chunk follow each other in the buffer.
  lemma {:induction false} ChunkInBuffer(cfg: Config, lay: Layout, npa: Npa, len: nat, k: nat)
    requires GoodLayout(cfg, lay) && IsChunk(cfg, lay, npa, len) && k < len
    ensures IsByte(cfg, lay, Advance(npa, k))
    ensures var at := Buffer(cfg, lay, npa);
            Buffer(cfg, lay, Advance(npa, k)) == Physical(at.memory, at.address + k)
  {
    hide SlotsInjective, SlotsFit, CachesPerChannel, BankSize, DramId, IsBankOf, CoversBits, Low, Pow2, StripeLog, TableHolds,
         LowBitsPass, MapDramSim3, Mul;
    var pod :| PodExists(cfg, pod) && IsBankOf(cfg, pod, Xy(npa));
    assert Xy(Advance(npa, k)) == Xy(npa);
    HasEntry(cfg, lay, npa);
    var size, s := BankSize(cfg, lay.memorySize), StripeLog(cfg);
    var bank := lay.bankId[DramId(cfg, Xy(npa))];
    LowOfMultiple(bank, size, npa.epa, s);
    if cfg.memsys.id.DramSim3? || cfg.memsys.id.Hbm2? {
      ChunkContiguous(cfg.memsys, s, Mul(bank, size) + npa.epa, k);
    }
  }

  lemma {:induction false} BuffersDiffer(cfg: Config, lay: Layout, m: Npa, n: Npa)
    requires GoodLayout(cfg, lay) && IsByte(cfg, lay, m) && IsByte(cfg, lay, n)
    requires Buffer(cfg, lay, m) == Buffer(cfg, lay, n)
    ensures m == n
  {
    hide SlotsInjective, SlotsFit, CachesPerChannel, BankSize, DramId, IsBankOf, CoversBits, Low, Pow2, StripeLog, TableHolds,
         LowBitsPass, MapPhysical, Mul, PhysicalOf;
    HasEntry(cfg, lay, m);
    HasEntry(cfg, lay, n);
    var p :| PodExists(cfg, p) && IsBankOf(cfg, p, Xy(m));
    var q :| PodExists(cfg, q) && IsBankOf(cfg, q, Xy(n));
    NoAliasing(cfg, Slots(cfg, lay.table), lay.memoryId, lay.bankId, lay.memorySize, lay.bits, p, m, q, n);
  }

  // The memories hold the bytes behind the caches.
  ghost predicate Holds(cfg: Config, lay: Layout, mems: Memories, dram: DramBytes)
    requires GoodLayout(cfg, lay)
  {
    forall n: Npa :: IsByte(cfg, lay, n) ==> mems(Buffer(cfg, lay, n)) == dram(Xy(n), n.epa)
  }

  /** Copying a chunk into the buffer of its NPA changes exactly the bytes of the chunk behind its cache, and no byte
  behind any other cache. */
  lemma {:induction false} WriteRefines(cfg: Config, lay: Layout, mems: Memories,
                                        dram: DramBytes, npa: Npa, data: seq<Byte>)
    requires GoodLayout(cfg, lay) && IsChunk(cfg, lay, npa, |data|)
    requires Holds(cfg, lay, mems, dram)
    ensures Holds(cfg, lay, Memcpy(mems, Buffer(cfg, lay, npa), data), Copied(dram, npa, data))
  {
    hide GoodLayout, IsChunk, IsByte, Buffer;
    ChunkIsByte(cfg, lay, npa, |data|);
    var at := Buffer(cfg, lay, npa);
    var mems', dram' := Memcpy(mems, at, data), Copied(dram, npa, data);
    forall k | 0 <= k < |data|
      ensures IsByte(cfg, lay, Advance(npa, k))
      ensures Buffer(cfg, lay, Advance(npa, k)) == Physical(at.memory, at.address + k)
    {
      ChunkInBuffer(cfg, lay, npa, |data|, k);
    }
    forall n: Npa | IsByte(cfg, lay, n)
      ensures mems'(Buffer(cfg, lay, n)) == dram'(Xy(n), n.epa)
    {
      var b := Buffer(cfg, lay, n);
      if Xy(n) == Xy(npa) && npa.epa <= n.epa < npa.epa + |data| {
        assert n == Advance(npa, n.epa - npa.epa);
      } else if b.memory == at.memory && at.address <= b.address < at.address + |data| {
        BuffersDiffer(cfg, lay, n, Advance(npa, b.address - at.address));
        assert false;
      }
    }
  }

  lemma {:induction false} ChunkIsByte(cfg: Config, lay: Layout, npa: Npa, len: nat)
    requires IsChunk(cfg, lay, npa, len)
    ensures IsByte(cfg, lay, npa)
  {
    hide IsByte;
  }

  ghost predicate HasOwner(cfg: Config, lay: Layout, m: Physical)
    requires GoodLayout(cfg, lay)
  {
    exists n: Npa :: IsByte(cfg, lay, n) && Buffer(cfg, lay, n) == m
  }

  // The byte behind a cache that lies at `m`
  ghost function Owner(cfg: Config, lay: Layout, m: Physical): (n: Npa)
    requires GoodLayout(cfg, lay) && HasOwner(cfg, lay, m)
    ensures IsByte(cfg, lay, n) && Buffer(cfg, lay, n) == m
  {
    var n: Npa :| IsByte(cfg, lay, n) && Buffer(cfg, lay, n) == m;
    n
  }

  // The memories after the caches have brought DRAM to `dram`
  ghost function WrittenBack(cfg: Config, lay: Layout, mems: Memories, dram: DramBytes): Memories
    requires GoodLayout(cfg, lay)
  {
    (m: Physical) =>
      if HasOwner(cfg, lay, m) then dram(Xy(Owner(cfg, lay, m)), Owner(cfg, lay, m).epa) else mems(m)
  }

  lemma {:induction false} WrittenBackHolds(cfg: Config, lay: Layout, mems: Memories, dram: DramBytes)
    requires GoodLayout(cfg, lay)
    ensures Holds(cfg, lay, WrittenBack(cfg, lay, mems, dram), dram)
  {
    hide GoodLayout, IsByte, Buffer, Owner;
    var after := WrittenBack(cfg, lay, mems, dram);
    forall n: Npa | IsByte(cfg, lay, n)
      ensures after(Buffer(cfg, lay, n)) == dram(Xy(n), n.epa)
    {
      var m := Buffer(cfg, lay, n);
      assert HasOwner(cfg, lay, m);
      BuffersDiffer(cfg, lay, Owner(cfg, lay, m), n);
    }
  }

  /** Reading a chunk from the buffer of its NPA gives the bytes behind its cache. */
  lemma {:induction false} ReadRefines(cfg: Config, lay: Layout, mems: Memories,
                                       dram: DramBytes, npa: Npa, len: nat, k: nat)
    requires GoodLayout(cfg, lay) && IsChunk(cfg, lay, npa, len) && k < len
    requires Holds(cfg, lay, mems, dram)
    ensures IsByte(cfg, lay, npa)
    ensures var at := Buffer(cfg, lay, npa);
            mems(Physical(at.memory, at.address + k)) == dram(Xy(npa), npa.epa + k)
  {
    hide GoodLayout, IsChunk, IsByte, Buffer;
    ChunkIsByte(cfg, lay, npa, len);
    ChunkInBuffer(cfg, lay, npa, len, k);
    assert IsByte(cfg, lay, Advance(npa, k));
  }

  /** The pieces into which the range loops cut a DRAM range are chunks if and only if they start below the bank size. */
  lemma {:induction false} SegmentIsChunk(cfg: Config, lay: Layout, pod: Coord, src: Coord, eva: nat, len: nat)
    requires GoodConfig(cfg) && PodExists(cfg, pod) && BelongsTo(cfg, pod, src)
    requires IsEva(eva) && IsDramEva(eva) && EvaToNpaDram(cfg, src, eva).Ok?
    requires HasBanks(cfg) && Low(BankBytes(cfg, lay), StripeLog(cfg)) == 0
    requires len <= EvaToNpaDram(cfg, src, eva).value.sz
    ensures var npa := EvaToNpaDram(cfg, src, eva).value.npa;
            IsChunk(cfg, lay, npa, len) <==> npa.epa < BankBytes(cfg, lay)
  {
    hide GoodPods, EvaToNpaDram, CachesPerChannel, BankSize, Low, Pow2, Shl, Shr, CLog2, Compose, Decompose, IsDramEva,
         IsBankOf, IsCoreOf, VcoreOrigin;
    DramTranslation(cfg, pod, src, eva);
    var s, size := StripeLog(cfg), BankBytes(cfg, lay);
    var f := Decompose(s, XLog(cfg), eva);
    BankIsDram(cfg, pod, src, f);
    Join(f.top, s, f.off);
    WholeStripes(f.top, s, f.off, size);
  }

  // A size that is a multiple of the stripe cuts between stripes.
  lemma {:induction false} WholeStripes(top: nat, s: nat, off: nat, size: nat)
    requires off < Pow2(s) && Low(size, s) == 0
    ensures Shl(top, s) + off < size <==> top < Shr(size, s)
    ensures Shl(top, s) + off < size ==> Shl(top, s) + Pow2(s) <= size
  {
    hide Low, Pow2, Shl, Shr;
    Split(size, s);
    if top < Shr(size, s) {
      ShlMonotone(top, Shr(size, s), s);
    } else {
      ShlMonotone(Shr(size, s), top, s);
    }
  }

  /** An EVA reaches at most the EPA that its top bits and stripe bits can name... */
  lemma {:induction false} EpaBound(cfg: Config, pod: Coord, src: Coord, eva: nat)
    requires GoodConfig(cfg) && PodExists(cfg, pod) && BelongsTo(cfg, pod, src)
    requires IsEva(eva) && IsDramEva(eva) && EvaToNpaDram(cfg, src, eva).Ok?
    ensures EvaToNpaDram(cfg, src, eva).value.npa.epa < Pow2(TopBits(cfg) + StripeLog(cfg))
  {
    hide GoodPods, EvaToNpaDram, Low, Pow2, Shl, Shr, CLog2, Compose, Decompose, IsDramEva, BelongsTo, VcoreOrigin;
    DramTranslation(cfg, pod, src, eva);
    var f := Decompose(StripeLog(cfg), XLog(cfg), eva);
    BelowBlock(f.top, TopBits(cfg), StripeLog(cfg), f.off);
  }

  /** ... and it stays inside its bank exactly below an EVA that the bank size and the number of columns determine. */
  lemma {:induction false} EvaInBank(cfg: Config, pod: Coord, src: Coord, eva: nat, size: nat)
    requires GoodConfig(cfg) && PodExists(cfg, pod) && BelongsTo(cfg, pod, src)
    requires IsEva(eva) && IsDramEva(eva) && EvaToNpaDram(cfg, src, eva).Ok? && Low(size, StripeLog(cfg)) == 0
    ensures EvaToNpaDram(cfg, src, eva).value.npa.epa < size <==> eva < DRAM_BASE + Shl(size, XLog(cfg) + 1)
  {
    hide GoodPods, EvaToNpaDram, Low, Pow2, Shl, Shr, CLog2, Decompose, IsDramEva, BelongsTo, VcoreOrigin;
    DramTranslation(cfg, pod, src, eva);
    var s, xl := StripeLog(cfg), XLog(cfg);
    var f := Decompose(s, xl, eva);
    WholeStripes(f.top, s, f.off, size);
    BankInEva(s, xl, f, Shr(size, s));
    Split(size, s);
    ShlAdd(Shr(size, s), s, xl + 1);
    ShlAdd(Shr(size, s), xl + 1, s);
  }

  lemma {:induction false} BankInEva(s: nat, xl: nat, f: Fields, n: nat)
    requires f.south < 2 && f.col < Pow2(xl) && f.off < Pow2(s)
    ensures Compose(s, xl, f) < DRAM_BASE + Shl(Shl(n, xl + 1), s) <==> f.top < n
  {
    hide Low, Pow2, Shl, Shr;
    var q := Shl(2 * f.top + f.south, xl) + f.col;
    ShlAdd(n, 1, xl);
    ShlOfOne(n);
    // as many whole stripes and columns as `n` banks have
    if f.top < n {
      ShlMonotone(2 * f.top + f.south, 2 * n, xl);
      ShlMonotone(q, Shl(2 * n, xl), s);
    } else {
      ShlMonotone(2 * n, 2 * f.top + f.south, xl);
      ShlMonotone(Shl(2 * n, xl), q, s);
    }
  }

  lemma {:induction false} ShlOfOne(n: nat)
    ensures Shl(n, 1) == 2 * n
  {
    assert Shl(n, 0) == n;
  }

  // -------------------- the layouts that are built --------------------

  /** The layout of the tables that `hb_mc_dma_init` builds is good, when the permutation keeps all address bits and
  passes stripes through, and the special tables find the channels they assume. */
  lemma {:induction false} BuiltLayout(cfg: Config, lay: Layout)
    requires GoodPods(cfg) && HasBanks(cfg) && TableFor(cfg) == Some(lay.table)
    requires |lay.memoryId| == |lay.bankId| && TableHolds(cfg, lay.memoryId, lay.bankId, Slots(cfg, lay.table))
    requires lay.table.HbmPods? || lay.table.HbmOnePod? || lay.table.TestPods? ==> CachesPerChannel(cfg) >= 16
    requires lay.table.TestPods? ==> cfg.nocWidth.x == 7 && cfg.memsys.channels >= 32
    requires lay.memorySize <= Pow2(lay.bits) && Low(BankBytes(cfg, lay), StripeLog(cfg)) == 0
    requires cfg.memsys.id.DramSim3? || cfg.memsys.id.Hbm2? ==>
               CoversBits(cfg.memsys, lay.bits) && LowBitsPass(cfg.memsys, StripeLog(cfg))
    ensures GoodLayout(cfg, lay)
  {
    hide GoodPods, CachesPerChannel, SlotsInjective, SlotsFit, TableHolds, Slots, Low, Pow2, StripeLog, CoversBits,
         LowBitsPass, BankSize;
    SelectedTableInjective(cfg, lay.table);
    SelectedTableFits(cfg, lay.table);
  }

  /** The shipped 4x4-pod machine on HBM2, with 32 channels of 1 GiB: its built layout is good, and every EVA of its
  DRAM stays inside its bank. */
  lemma {:induction false} ShippedLayout(lay: Layout, bankSize: nat)
    requires lay.table == HbmPods && lay.memorySize == 0x4000_0000 && lay.bits == 30
    requires |lay.memoryId| == |lay.bankId|
    requires var cfg := BigBlade(Hbm2Memsys(32, bankSize));
             HasBanks(cfg) && TableHolds(cfg, lay.memoryId, lay.bankId, Slots(cfg, HbmPods))
    ensures var cfg := BigBlade(Hbm2Memsys(32, bankSize));
            GoodLayout(cfg, lay) && GoodFields(cfg) && Pow2(TopBits(cfg) + StripeLog(cfg)) == BankBytes(cfg, lay)
  {
    var cfg := BigBlade(Hbm2Memsys(32, bankSize));
    BigBladeIsGood(cfg.memsys);
    Hbm2LayoutPasses(32, bankSize);
    SixteenShare(cfg);
    BigBladeSizes(cfg.memsys);
    hide GoodPods, TableHolds, Slots, LowBitsPass, CoversBits, Pow2, Low, CLog2, Div, Mul;
    Pow2Values();
    DivModOf(0x400_0000, 16, 0);
    MulIsTimes(0x400_0000, 16);
    MultipleOfStripe();
    BuiltLayout(cfg, lay);
  }

  lemma {:induction false} SixteenShare(cfg: Config)
    requires cfg == BigBlade(cfg.memsys) && cfg.memsys.channels == 32
    ensures CachesPerChannel(cfg) == 16
  {
    MulIsTimes(4, 4);
    MulIsTimes(16, 16);
    MulIsTimes(256, 2);
    hide Mul, Div;
    DivModOf(16, 32, 0);
    MulIsTimes(16, 32);
  }

  lemma {:induction false} MultipleOfStripe()
    ensures Pow2(26) == 0x400_0000 && Low(0x400_0000, 7) == 0
  {
    Pow2Values();
    assert Pow2(19) == 0x8_0000 && Pow2(7) == 128;
    hide Pow2, Low, Shl;
    Pow2Add(19, 7);
    Pow2IsShl(26);
    ShlAdd(1, 19, 7);
    Join(Shl(1, 19), 7, 0);
  }
}
