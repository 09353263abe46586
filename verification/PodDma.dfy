/** Pod DMA behind the victim caches.

libraries/bsg_manycore_cuda.cpp (pod DMA jobs), libraries/bsg_manycore_eva.cpp (the DMA range loops) and
libraries/bsg_manycore.cpp (DMA of one contiguous piece)
*/
module PodDma {
  import opened Bits
  import opened Wrappers
  import opened Geometry
  import opened Eva
  import opened DmaMap
  import opened VCache
  import opened DmaBuffer
  import Region

  // -------------------- the DRAM byte behind an EVA of a pod --------------------

  predicate IsDramRange(eva: nat, n: nat) { DRAM_BASE <= eva < WORD32 && eva + n <= WORD32 }

  // Jobs translate from the origin of the pod's mesh.
  function ByteAt(cfg: Config, pod: Coord, e: nat): Option<Npa> {
    match EvaToNpa(cfg, VcoreOrigin(cfg, pod), VcoreOrigin(cfg, pod), e)
    case Ok(seg) => Some(seg.npa)
    case Err(_) => None
  }

  ghost predicate AllMapped(cfg: Config, pod: Coord, eva: nat, n: nat) {
    forall e: nat :: eva <= e < eva + n ==> ByteAt(cfg, pod, e).Some?
  }

  lemma {:induction false} OriginBelongs(cfg: Config, pod: Coord)
    requires GoodPods(cfg) && PodExists(cfg, pod)
    ensures BelongsTo(cfg, pod, VcoreOrigin(cfg, pod))
  {
    hide GoodPods, VcoreOrigin, Corner, SouthRow;
    OriginIsCore(cfg, pod);
  }

  // A byte of a pod lies behind one of its own caches, ...
  lemma {:induction false} ByteInPod(cfg: Config, pod: Coord, e: nat)
    requires GoodConfig(cfg) && PodExists(cfg, pod) && IsDramRange(e, 1) && ByteAt(cfg, pod, e).Some?
    ensures var xy := Xy(ByteAt(cfg, pod, e).value); IsBankOf(cfg, pod, xy) && IsDram(cfg, xy)
  {
    hide GoodPods, GoodFields, EvaToNpaDram, IsDram, IsBankOf, IsCoreOf, BelongsTo;
    OriginBelongs(cfg, pod);
    DramTranslation(cfg, pod, VcoreOrigin(cfg, pod), e);
    var f := Decompose(StripeLog(cfg), XLog(cfg), e);
    BankIsDram(cfg, pod, VcoreOrigin(cfg, pod), f);
    PodMember(cfg, pod, Xy(DramNpa(cfg, pod, f)));
  }

  lemma {:induction false} PodMember(cfg: Config, pod: Coord, c: Coord)
    requires GoodConfig(cfg) && PodExists(cfg, pod) && IsBankOf(cfg, pod, c)
    ensures IsDram(cfg, c)
  {
    hide IsBankOf, IsDram, GoodPods, GoodFields, IsCoreOf;
    PodOfMember(cfg, pod, c);
  }

  // ... no other EVA of the pod reaches it, ...
  lemma {:induction false} BytesDiffer(cfg: Config, pod: Coord, e1: nat, e2: nat)
    requires GoodConfig(cfg) && PodExists(cfg, pod) && IsDramRange(e1, 1) && IsDramRange(e2, 1)
    requires ByteAt(cfg, pod, e1).Some? && ByteAt(cfg, pod, e1) == ByteAt(cfg, pod, e2)
    ensures e1 == e2
  {
    hide GoodPods, GoodFields, EvaToNpaDram, BelongsTo;
    OriginBelongs(cfg, pod);
    var og := VcoreOrigin(cfg, pod);
    DramEvaInjective(cfg, pod, og, og, e1, e2);
  }

  // ... and the bytes of a segment are contiguous.
  lemma {:induction false} SegmentBytes(cfg: Config, pod: Coord, eva: nat)
    requires GoodConfig(cfg) && PodExists(cfg, pod) && IsDramRange(eva, 1) && ByteAt(cfg, pod, eva).Some?
    ensures var og := VcoreOrigin(cfg, pod);
            var seg := EvaToNpa(cfg, og, og, eva).value;
            && seg.sz > 0
            && forall e :: eva <= e < eva + seg.sz ==>
                 IsEva(e) && ByteAt(cfg, pod, e) == Some(Advance(seg.npa, e - eva))
  {
    hide GoodPods, GoodFields, EvaToNpaDram, BelongsTo;
    OriginBelongs(cfg, pod);
    var og := VcoreOrigin(cfg, pod);
    var seg := EvaToNpa(cfg, og, og, eva).value;
    PositiveSegment(cfg, pod, eva);
    forall e | eva <= e < eva + seg.sz
      ensures IsEva(e) && ByteAt(cfg, pod, e) == Some(Advance(seg.npa, e - eva))
    {
      Region.DramStep(cfg, pod, og, eva, e - eva);
    }
  }

  lemma {:induction false} PositiveSegment(cfg: Config, pod: Coord, eva: nat)
    requires GoodConfig(cfg) && PodExists(cfg, pod) && IsDramRange(eva, 1) && ByteAt(cfg, pod, eva).Some?
    ensures var og := VcoreOrigin(cfg, pod); EvaToNpa(cfg, og, og, eva).value.sz > 0
  {
    hide GoodPods, GoodFields, EvaToNpaDram, BelongsTo, Low, Pow2, Shl, Shr, CLog2, Decompose, Compose, DramNpa, DramEpa;
    OriginBelongs(cfg, pod);
    DramTranslation(cfg, pod, VcoreOrigin(cfg, pod), eva);
  }

  // -------------------- writing a range --------------------

  // `data` lies at `eva`, and the bytes behind other EVAs, if any, are as before.
  ghost predicate Stored(cfg: Config, pod: Coord, d0: DramBytes, d1: DramBytes, eva: nat, data: seq<Byte>) {
    && AllMapped(cfg, pod, eva, |data|)
    && (forall e: nat :: eva <= e < eva + |data| ==>
          var n := ByteAt(cfg, pod, e).value; d1(Xy(n), n.epa) == data[e - eva])
    && (forall b, epa: nat :: d1(b, epa) == d0(b, epa) || InRange(cfg, pod, eva, |data|, b, epa))
  }

  ghost predicate InRange(cfg: Config, pod: Coord, eva: nat, n: nat, b: Coord, epa: nat) {
    exists e: nat :: eva <= e < eva + n && ByteAt(cfg, pod, e) == Some(Npa(b.x, b.y, epa))
  }

  lemma {:induction false} ChunkStored(cfg: Config, pod: Coord, d0: DramBytes, d1: DramBytes, eva: nat, data: seq<Byte>,
                                       pos: nat, len: nat)
    requires GoodConfig(cfg) && PodExists(cfg, pod) && IsDramRange(eva, |data|)
    requires 0 < len && pos + len <= |data| && Stored(cfg, pod, d0, d1, eva, data[..pos])
    requires ByteAt(cfg, pod, eva + pos).Some?
    requires var og := VcoreOrigin(cfg, pod); len <= EvaToNpa(cfg, og, og, eva + pos).value.sz
    ensures Stored(cfg, pod, d0, Copied(d1, ByteAt(cfg, pod, eva + pos).value, data[pos..pos + len]), eva, data[..pos + len])
  {
    hide EvaToNpa, ByteAt, GoodPods, GoodFields;
    SegmentOf(cfg, pod, eva + pos, len);
    var start := ByteAt(cfg, pod, eva + pos).value;
    var d2 := Copied(d1, start, data[pos..pos + len]);
    forall e: nat | eva <= e < eva + pos + len
      ensures var n := ByteAt(cfg, pod, e).value; d2(Xy(n), n.epa) == data[e - eva]
    {
      var n := ByteAt(cfg, pod, e).value;
      if e < eva + pos && Xy(n) == Xy(start) && start.epa <= n.epa < start.epa + len {
        var e' := eva + pos + (n.epa - start.epa);
        assert ByteAt(cfg, pod, e') == Some(n);
        BytesDiffer(cfg, pod, e, e');
        assert false;
      }
    }
    forall b, epa: nat
      ensures d2(b, epa) == d0(b, epa) || InRange(cfg, pod, eva, pos + len, b, epa)
    {
      if b == Xy(start) && start.epa <= epa < start.epa + len {
        assert ByteAt(cfg, pod, eva + pos + (epa - start.epa)) == Some(Npa(b.x, b.y, epa));
      }
    }
  }

  // `SegmentBytes` in terms of `ByteAt`
  lemma {:induction false} SegmentOf(cfg: Config, pod: Coord, eva: nat, len: nat)
    requires GoodConfig(cfg) && PodExists(cfg, pod) && IsDramRange(eva, 1) && ByteAt(cfg, pod, eva).Some?
    requires var og := VcoreOrigin(cfg, pod); len <= EvaToNpa(cfg, og, og, eva).value.sz
    ensures forall e :: eva <= e < eva + len ==>
              IsEva(e) && ByteAt(cfg, pod, e) == Some(Advance(ByteAt(cfg, pod, eva).value, e - eva))
  {
    hide EvaToNpa, GoodPods, GoodFields;
    SegmentBytes(cfg, pod, eva);
  }

  // -------------------- ranges and banks --------------------

  // The bytes of the range lie inside the banks of their caches: the runtime does not check it.
  ghost predicate InBanks(cfg: Config, lay: Layout, pod: Coord, eva: nat, n: nat) {
    && HasBanks(cfg)
    && forall e: nat :: eva <= e < eva + n && ByteAt(cfg, pod, e).Some? ==> ByteAt(cfg, pod, e).value.epa < BankBytes(cfg, lay)
  }

  /** A range is inside the banks if and only if it translates to nothing or ends where the banks end, as EVAs see them. */
  lemma {:induction false} RangeInBanks(cfg: Config, lay: Layout, pod: Coord, eva: nat, n: nat)
    requires GoodConfig(cfg) && PodExists(cfg, pod) && IsDramRange(eva, n) && AllMapped(cfg, pod, eva, n) && n > 0
    requires HasBanks(cfg) && Low(BankBytes(cfg, lay), StripeLog(cfg)) == 0
    ensures InBanks(cfg, lay, pod, eva, n) <==> eva + n <= DRAM_BASE + Shl(BankBytes(cfg, lay), XLog(cfg) + 1)
  {
    hide GoodPods, GoodFields, EvaToNpaDram, BelongsTo, Low, Shl, CLog2, CachesPerChannel, BankSize, VcoreOrigin;
    OriginBelongs(cfg, pod);
    forall e: nat | eva <= e < eva + n
      ensures ByteAt(cfg, pod, e).value.epa < BankBytes(cfg, lay) <==> e < DRAM_BASE + Shl(BankBytes(cfg, lay), XLog(cfg) + 1)
    {
      assert ByteAt(cfg, pod, e).Some?;
      EvaInBank(cfg, pod, VcoreOrigin(cfg, pod), e, BankBytes(cfg, lay));
    }
    assert ByteAt(cfg, pod, eva + n - 1).Some?;
  }

  /** On a machine whose banks hold every EPA that an EVA can name, as on the shipped one, every range is. */
  lemma {:induction false} AlwaysInBanks(cfg: Config, lay: Layout, pod: Coord, eva: nat, n: nat)
    requires GoodConfig(cfg) && PodExists(cfg, pod) && IsDramRange(eva, n)
    requires HasBanks(cfg) && Pow2(TopBits(cfg) + StripeLog(cfg)) <= BankBytes(cfg, lay)
    ensures InBanks(cfg, lay, pod, eva, n)
  {
    hide GoodPods, GoodFields, EvaToNpaDram, BelongsTo, Pow2, CLog2, CachesPerChannel, BankSize, VcoreOrigin;
    OriginBelongs(cfg, pod);
    forall e: nat | eva <= e < eva + n && ByteAt(cfg, pod, e).Some?
      ensures ByteAt(cfg, pod, e).value.epa < BankBytes(cfg, lay)
    {
      EpaBound(cfg, pod, VcoreOrigin(cfg, pod), e);
    }
  }

  // The memories hold what DRAM holds, on a layout that the runtime builds.
  ghost predicate Backed(cfg: Config, lay: Layout, mems: Memories, dram: DramBytes) {
    GoodLayout(cfg, lay) ==> Holds(cfg, lay, mems, dram)
  }

  // One `memcpy` into the buffer of an NPA, if the tables have an entry for its cache
  function CopyAt(cfg: Config, lay: Layout, mems: Memories, npa: Npa, data: seq<Byte>): Memories {
    if HasBanks(cfg) && DramId(cfg, Xy(npa)) < |lay.memoryId| == |lay.bankId|
    then Memcpy(mems, NpaToBuffer(cfg, lay.memoryId, lay.bankId, lay.memorySize, npa), data)
    else mems
  }

  // A range of EVAs copied piece by piece: translate, cut at the end of the segment, copy
  function CopyRange(cfg: Config, lay: Layout, pod: Coord, mems: Memories, eva: nat, data: seq<Byte>): Memories
    decreases |data|
  {
    if data == [] then mems
    else
      match EvaToNpa(cfg, VcoreOrigin(cfg, pod), VcoreOrigin(cfg, pod), eva)
      case Err(_) => mems
      case Ok(seg) =>
        var len := Region.Min(|data|, seg.sz);
        if len == 0 then mems
        else CopyRange(cfg, lay, pod, CopyAt(cfg, lay, mems, seg.npa, data[..len]), Wrap(eva + len), data[len..])
  }

  lemma {:induction false} CopyStep(cfg: Config, lay: Layout, pod: Coord, mems: Memories, eva: nat, data: seq<Byte>, pos: nat)
    requires pos < |data|
    requires var seg := EvaToNpa(cfg, VcoreOrigin(cfg, pod), VcoreOrigin(cfg, pod), eva); seg.Ok? && seg.value.sz > 0
    ensures var seg := EvaToNpa(cfg, VcoreOrigin(cfg, pod), VcoreOrigin(cfg, pod), eva).value;
            var len := Region.Min(|data| - pos, seg.sz);
            && 0 < len && pos + len <= |data|
            && CopyRange(cfg, lay, pod, mems, eva, data[pos..])
               == CopyRange(cfg, lay, pod, CopyAt(cfg, lay, mems, seg.npa, data[pos..pos + len]), Wrap(eva + len), data[pos + len..])
  {
    hide EvaToNpa, CopyAt, Wrap;
    var len := Region.Min(|data| - pos, EvaToNpa(cfg, VcoreOrigin(cfg, pod), VcoreOrigin(cfg, pod), eva).value.sz);
    assert data[pos..][..len] == data[pos..pos + len] && data[pos..][len..] == data[pos + len..];
  }

  // In a good layout every chunk has its buffer.
  lemma {:induction false} CopyOfChunk(cfg: Config, lay: Layout, mems: Memories, npa: Npa, data: seq<Byte>)
    requires GoodLayout(cfg, lay) && IsByte(cfg, lay, npa)
    ensures CopyAt(cfg, lay, mems, npa, data) == Memcpy(mems, Buffer(cfg, lay, npa), data)
  {
    HasEntry(cfg, lay, npa);
    hide SlotsInjective, SlotsFit, TableHolds, Slots, NpaToBuffer, IsByte, CoversBits, LowBitsPass, DramId, Memcpy;
  }

  /** `hb_mc_manycore_dma_write_no_cache_ainv`: one `memcpy` into the buffer of the NPA is one copy behind the cache. */
  method DmaWrite(sys: CacheSystem, lay: Layout, npa: Npa, data: seq<Byte>, ghost mems: Memories)
    returns (r: Result<()>, ghost after: Memories)
    requires HasBanks(sys.cfg)
    requires IsDram(sys.cfg, Xy(npa)) ==> npa.epa + |data| <= BankBytes(sys.cfg, lay)
    modifies sys`dram
    ensures r.Ok? <==> sys.dmaWrite && sys.cfg.dramEnabled && IsDram(sys.cfg, Xy(npa))
    ensures r.Ok? ==> sys.dram == Copied(old(sys.dram), npa, data)
    ensures r.Err? ==> sys.dram == old(sys.dram) && after == mems
    ensures r.Ok? ==> after == CopyAt(sys.cfg, lay, mems, npa, data)
    ensures r.Ok? && GoodLayout(sys.cfg, lay) && IsChunk(sys.cfg, lay, npa, |data|) ==>
              && after == Memcpy(mems, Buffer(sys.cfg, lay, npa), data)
              && (Holds(sys.cfg, lay, mems, old(sys.dram)) ==> Holds(sys.cfg, lay, after, sys.dram))
  {
    after := mems;
    if !sys.dmaWrite { return Err(NotSupported), after; }
    if !sys.cfg.dramEnabled { return Err(Failure), after; }
    if !IsDram(sys.cfg, Xy(npa)) { return Err(InvalidAddress), after; }
    hide GoodLayout, IsChunk, IsDram, Holds, Memcpy, Copied, Buffer, IsByte, BankBytes, HasBanks, CopyAt;
    after := CopyAt(sys.cfg, lay, mems, npa, data);
    if GoodLayout(sys.cfg, lay) && IsChunk(sys.cfg, lay, npa, |data|) {
      ChunkIsByte(sys.cfg, lay, npa, |data|);
      CopyOfChunk(sys.cfg, lay, mems, npa, data);
      if Holds(sys.cfg, lay, mems, sys.dram) {
        WriteRefines(sys.cfg, lay, mems, sys.dram, npa, data);
      }
    }
    sys.dram := Copied(sys.dram, npa, data);
    return Ok(()), after;
  }

  /** `hb_mc_manycore_dma_read_no_cache_afl` */
  method DmaRead(sys: CacheSystem, lay: Layout, npa: Npa, sz: nat) returns (r: Result<seq<Byte>>)
    requires HasBanks(sys.cfg)
    requires IsDram(sys.cfg, Xy(npa)) ==> npa.epa + sz <= BankBytes(sys.cfg, lay)
    ensures r.Ok? <==> sys.dmaRead && sys.cfg.dramEnabled && IsDram(sys.cfg, Xy(npa))
    ensures r.Ok? ==> |r.value| == sz && forall k :: 0 <= k < sz ==> r.value[k] == sys.dram(Xy(npa), npa.epa + k)
  {
    if !sys.dmaRead { return Err(NotSupported); }
    if !sys.cfg.dramEnabled { return Err(Failure); }
    if !IsDram(sys.cfg, Xy(npa)) { return Err(InvalidAddress); }
    var d := sys.dram;
    return Ok(seq(sz, k requires k >= 0 => d(Xy(npa), npa.epa + k)));
  }

  // A range can be transferred: it is empty, or the platform can do it and every byte is mapped.
  ghost predicate CanTransfer(sys: CacheSystem, support: bool, pod: Coord, eva: nat, n: nat) {
    n == 0 || (support && sys.cfg.dramEnabled && AllMapped(sys.cfg, pod, eva, n))
  }

  lemma {:induction false} StoredNone(cfg: Config, pod: Coord, d: DramBytes, eva: nat)
    ensures Stored(cfg, pod, d, d, eva, [])
  {
  }

  lemma {:induction false} StoredMapped(cfg: Config, pod: Coord, d0: DramBytes, d1: DramBytes, eva: nat, data: seq<Byte>)
    requires Stored(cfg, pod, d0, d1, eva, data)
    ensures AllMapped(cfg, pod, eva, |data|)
  {
  }

  lemma {:induction false} Translates(cfg: Config, pod: Coord, e: nat)
    ensures var seg := EvaToNpa(cfg, VcoreOrigin(cfg, pod), VcoreOrigin(cfg, pod), e);
            && (ByteAt(cfg, pod, e).Some? <==> seg.Ok?)
            && (seg.Ok? ==> ByteAt(cfg, pod, e) == Some(seg.value.npa))
  {
  }

  // The copies into the memories, taken together: only bytes of the range have changed.
  ghost predicate OnlyRange(cfg: Config, lay: Layout, pod: Coord, mems: Memories, after: Memories, eva: nat, n: nat)
    requires GoodLayout(cfg, lay)
  {
    forall m: Physical :: after(m) == mems(m)
      || exists e: nat :: && eva <= e < eva + n && ByteAt(cfg, pod, e).Some?
                          && IsByte(cfg, lay, ByteAt(cfg, pod, e).value)
                          && Buffer(cfg, lay, ByteAt(cfg, pod, e).value) == m
  }

  lemma {:induction false} OneMoreCopy(cfg: Config, lay: Layout, pod: Coord, m0: Memories, m1: Memories, eva: nat, pos: nat,
                                       data: seq<Byte>)
    requires GoodConfig(cfg) && PodExists(cfg, pod) && GoodLayout(cfg, lay) && IsDramRange(eva, pos + |data|) && |data| > 0
    requires ByteAt(cfg, pod, eva + pos).Some? && IsChunk(cfg, lay, ByteAt(cfg, pod, eva + pos).value, |data|)
    requires var og := VcoreOrigin(cfg, pod); |data| <= EvaToNpa(cfg, og, og, eva + pos).value.sz
    requires OnlyRange(cfg, lay, pod, m0, m1, eva, pos)
    ensures IsByte(cfg, lay, ByteAt(cfg, pod, eva + pos).value)
    ensures OnlyRange(cfg, lay, pod, m0, Memcpy(m1, Buffer(cfg, lay, ByteAt(cfg, pod, eva + pos).value), data), eva, pos + |data|)
  {
    hide GoodPods, GoodFields, EvaToNpa, ByteAt, GoodLayout, IsByte, Buffer, IsChunk;
    var npa := ByteAt(cfg, pod, eva + pos).value;
    ChunkIsByte(cfg, lay, npa, |data|);
    SegmentOf(cfg, pod, eva + pos, |data|);
    var at := Buffer(cfg, lay, npa);
    var m2 := Memcpy(m1, at, data);
    forall m: Physical | m2(m) != m0(m)
      ensures exists e: nat :: && eva <= e < eva + pos + |data| && ByteAt(cfg, pod, e).Some?
                               && IsByte(cfg, lay, ByteAt(cfg, pod, e).value)
                               && Buffer(cfg, lay, ByteAt(cfg, pod, e).value) == m
    {
      if m.memory == at.memory && at.address <= m.address < at.address + |data| {
        var k := m.address - at.address;
        ChunkInBuffer(cfg, lay, npa, |data|, k);
        assert ByteAt(cfg, pod, eva + pos + k) == Some(Advance(npa, k));
      } else {
        assert m1(m) != m0(m);
      }
    }
  }

  lemma {:induction false} PieceIsChunk(cfg: Config, lay: Layout, pod: Coord, eva: nat, len: nat)
    requires GoodConfig(cfg) && PodExists(cfg, pod) && IsDramRange(eva, 1) && ByteAt(cfg, pod, eva).Some?
    requires HasBanks(cfg) && ByteAt(cfg, pod, eva).value.epa < BankBytes(cfg, lay)
    requires var og := VcoreOrigin(cfg, pod); len <= EvaToNpa(cfg, og, og, eva).value.sz
    ensures GoodLayout(cfg, lay) ==> IsChunk(cfg, lay, ByteAt(cfg, pod, eva).value, len)
  {
    hide GoodPods, GoodFields, EvaToNpaDram, BelongsTo, CachesPerChannel, BankSize, IsChunk, SlotsInjective, SlotsFit, Slots,
         TableHolds, Low, Pow2, CLog2;
    OriginBelongs(cfg, pod);
    if GoodLayout(cfg, lay) {
      SegmentIsChunk(cfg, lay, pod, VcoreOrigin(cfg, pod), eva, len);
    }
  }

  // A piece of a range ends inside the bank where its last byte lies.
  lemma {:induction false} PieceInBank(cfg: Config, lay: Layout, pod: Coord, eva: nat, n: nat, pos: nat, len: nat)
    requires GoodConfig(cfg) && PodExists(cfg, pod) && IsDramRange(eva, n) && InBanks(cfg, lay, pod, eva, n)
    requires 0 < len && pos + len <= n && ByteAt(cfg, pod, eva + pos).Some?
    requires var og := VcoreOrigin(cfg, pod); len <= EvaToNpa(cfg, og, og, eva + pos).value.sz
    ensures ByteAt(cfg, pod, eva + pos).value.epa + len <= BankBytes(cfg, lay)
  {
    hide GoodPods, GoodFields, EvaToNpa, ByteAt, CachesPerChannel, BankSize;
    SegmentOf(cfg, pod, eva + pos, len);
    assert ByteAt(cfg, pod, eva + pos + (len - 1)).Some?;
  }

  lemma {:induction false} RangeNone(cfg: Config, lay: Layout, pod: Coord, mems: Memories, eva: nat)
    requires GoodLayout(cfg, lay)
    ensures OnlyRange(cfg, lay, pod, mems, mems, eva, 0)
  {
    hide GoodLayout, ByteAt, IsByte, Buffer;
  }

  /** `hb_mc_manycore_eva_write_dma`: the loop cuts the range into chunks and copies each into its memory buffer. Behind
  the caches that stores the range; in the memories nothing but the bytes of the range changes. */
  method EvaWriteDma(sys: CacheSystem, lay: Layout, pod: Coord, eva: nat, data: seq<Byte>, ghost mems: Memories)
    returns (r: Result<()>, ghost after: Memories)
    requires GoodConfig(sys.cfg) && PodExists(sys.cfg, pod) && IsDramRange(eva, |data|)
    requires InBanks(sys.cfg, lay, pod, eva, |data|)
    modifies sys`dram
    ensures r.Ok? <==> CanTransfer(sys, sys.dmaWrite, pod, eva, |data|)
    ensures r.Ok? ==> Stored(sys.cfg, pod, old(sys.dram), sys.dram, eva, data)
    ensures r.Ok? ==> after == CopyRange(sys.cfg, lay, pod, mems, eva, data)
    ensures Backed(sys.cfg, lay, mems, old(sys.dram)) ==> Backed(sys.cfg, lay, after, sys.dram)
    ensures GoodLayout(sys.cfg, lay) ==> OnlyRange(sys.cfg, lay, pod, mems, after, eva, |data|)
  {
    hide EvaToNpa, ByteAt, GoodPods, GoodFields, IsDram, IsBankOf, Copied, Stored, GoodLayout, IsChunk, IsByte, Buffer, Holds,
         OnlyRange, Memcpy, BankBytes, HasBanks, CopyAt, CopyRange, Wrap;
    var og := VcoreOrigin(sys.cfg, pod);
    var pos, cur := 0, eva;
    after := mems;
    StoredNone(sys.cfg, pod, sys.dram, eva);
    if GoodLayout(sys.cfg, lay) { RangeNone(sys.cfg, lay, pod, mems, eva); }
    assert data[..0] == [] && data[0..] == data;
    while pos < |data|
      invariant 0 <= pos <= |data| && (pos < |data| ==> cur == eva + pos)
      invariant CopyRange(sys.cfg, lay, pod, mems, eva, data) == CopyRange(sys.cfg, lay, pod, after, cur, data[pos..])
      invariant pos > 0 ==> sys.dmaWrite && sys.cfg.dramEnabled
      invariant Stored(sys.cfg, pod, old(sys.dram), sys.dram, eva, data[..pos])
      invariant Backed(sys.cfg, lay, mems, old(sys.dram)) ==> Backed(sys.cfg, lay, after, sys.dram)
      invariant GoodLayout(sys.cfg, lay) ==> OnlyRange(sys.cfg, lay, pod, mems, after, eva, pos)
      decreases |data| - pos
    {
      if GoodLayout(sys.cfg, lay) { RangeGrows(sys.cfg, lay, pod, mems, after, eva, pos, |data|); }
      Translates(sys.cfg, pod, cur);
      var seg := EvaToNpa(sys.cfg, og, og, cur);
      if seg.Err? {
        assert ByteAt(sys.cfg, pod, eva + pos).None?;
        return Err(seg.error), after;
      }
      SegmentBytes(sys.cfg, pod, cur);
      ByteInPod(sys.cfg, pod, cur);
      CopyStep(sys.cfg, lay, pod, after, cur, data, pos);
      var len := Region.Min(|data| - pos, seg.value.sz);
      PieceInBank(sys.cfg, lay, pod, eva, |data|, pos, len);
      PieceIsChunk(sys.cfg, lay, pod, cur, len);
      ghost var before, copy := sys.dram, after;
      r, after := DmaWrite(sys, lay, seg.value.npa, data[pos..pos + len], copy);
      if r.Err? {
        return r, after;
      }
      ChunkStored(sys.cfg, pod, old(sys.dram), before, eva, data, pos, len);
      if GoodLayout(sys.cfg, lay) { OneMoreCopy(sys.cfg, lay, pod, mems, copy, eva, pos, data[pos..pos + len]); }
      pos := pos + len;
      if pos < |data| { NoWrap(cur + len); }
      cur := Wrap(cur + len);
    }
    assert data[..pos] == data && data[pos..] == [];
    NothingLeft(sys.cfg, lay, pod, after, cur);
    StoredMapped(sys.cfg, pod, old(sys.dram), sys.dram, eva, data);
    return Ok(()), after;
  }

  // After its first piece, the rest of a stored range is stored over the copy of that piece.
  lemma {:induction false} StoredRest(cfg: Config, pod: Coord, d0: DramBytes, d1: DramBytes, eva: nat, data: seq<Byte>, len: nat)
    requires GoodConfig(cfg) && PodExists(cfg, pod) && IsDramRange(eva, |data|) && 0 < len <= |data|
    requires Stored(cfg, pod, d0, d1, eva, data) && ByteAt(cfg, pod, eva).Some?
    requires var og := VcoreOrigin(cfg, pod); len <= EvaToNpa(cfg, og, og, eva).value.sz
    ensures Stored(cfg, pod, Copied(d0, ByteAt(cfg, pod, eva).value, data[..len]), d1, eva + len, data[len..])
  {
    hide EvaToNpa, ByteAt, GoodPods, GoodFields;
    SegmentOf(cfg, pod, eva, len);
    var start := ByteAt(cfg, pod, eva).value;
    var d := Copied(d0, start, data[..len]);
    forall b, epa: nat
      ensures d1(b, epa) == d(b, epa) || InRange(cfg, pod, eva + len, |data| - len, b, epa)
    {
      if b == Xy(start) && start.epa <= epa < start.epa + len {
        var e := eva + (epa - start.epa);
        assert ByteAt(cfg, pod, e) == Some(Npa(b.x, b.y, epa));
      } else if d1(b, epa) != d0(b, epa) {
        var e: nat :| eva <= e < eva + |data| && ByteAt(cfg, pod, e) == Some(Npa(b.x, b.y, epa));
        assert e >= eva + len;
      }
    }
  }

  /** The copies refine the range: if the memories hold what DRAM holds, and the range is then stored in DRAM, the memories
  after the copies hold it too. */
  lemma {:induction false} RangeRefines(cfg: Config, lay: Layout, pod: Coord, mems: Memories, d0: DramBytes, d1: DramBytes,
                                        eva: nat, data: seq<Byte>)
    requires GoodConfig(cfg) && PodExists(cfg, pod) && GoodLayout(cfg, lay)
    requires data != [] ==> IsDramRange(eva, |data|) && InBanks(cfg, lay, pod, eva, |data|)
    requires Stored(cfg, pod, d0, d1, eva, data) && Holds(cfg, lay, mems, d0)
    ensures Holds(cfg, lay, CopyRange(cfg, lay, pod, mems, eva, data), d1)
    decreases |data|
  {
    hide EvaToNpa, ByteAt, GoodPods, GoodFields, IsDram, IsBankOf, Copied, GoodLayout, IsChunk, IsByte, Buffer, Memcpy,
         BankBytes, HasBanks, CopyAt, CopyRange, Wrap;
    if data == [] {
      NothingLeft(cfg, lay, pod, mems, eva);
      SameBytes(cfg, lay, pod, mems, d0, d1, eva);
    } else {
      var og := VcoreOrigin(cfg, pod);
      assert ByteAt(cfg, pod, eva).Some?;
      Translates(cfg, pod, eva);
      SegmentBytes(cfg, pod, eva);
      var npa := ByteAt(cfg, pod, eva).value;
      var len := Region.Min(|data|, EvaToNpa(cfg, og, og, eva).value.sz);
      assert data[0..] == data && data[0..0 + len] == data[..len];
      CopyStep(cfg, lay, pod, mems, eva, data, 0);
      PieceInBank(cfg, lay, pod, eva, |data|, 0, len);
      PieceIsChunk(cfg, lay, pod, eva, len);
      ChunkIsByte(cfg, lay, npa, len);
      CopyOfChunk(cfg, lay, mems, npa, data[..len]);
      WriteRefines(cfg, lay, mems, d0, npa, data[..len]);
      StoredRest(cfg, pod, d0, d1, eva, data, len);
      var d, m := Copied(d0, npa, data[..len]), CopyAt(cfg, lay, mems, npa, data[..len]);
      if len < |data| {
        NoWrap(eva + len);
      } else {
        StoredAnywhere(cfg, pod, d, d1, eva + len, Wrap(eva + len));
      }
      RangeRefines(cfg, lay, pod, m, d, d1, Wrap(eva + len), data[len..]);
    }
  }

  lemma {:induction false} StoredAnywhere(cfg: Config, pod: Coord, d0: DramBytes, d1: DramBytes, e: nat, e': nat)
    requires Stored(cfg, pod, d0, d1, e, [])
    ensures Stored(cfg, pod, d0, d1, e', [])
  {
    hide ByteAt;
  }

  lemma {:induction false} SameBytes(cfg: Config, lay: Layout, pod: Coord, mems: Memories, d0: DramBytes, d1: DramBytes, eva: nat)
    requires GoodLayout(cfg, lay) && Stored(cfg, pod, d0, d1, eva, []) && Holds(cfg, lay, mems, d0)
    ensures Holds(cfg, lay, mems, d1)
  {
    hide ByteAt, GoodLayout, IsByte, Buffer;
  }

  lemma {:induction false} NoWrap(a: nat)
    requires a < WORD32
    ensures Wrap(a) == a
  {
  }

  lemma {:induction false} NothingLeft(cfg: Config, lay: Layout, pod: Coord, mems: Memories, eva: nat)
    ensures CopyRange(cfg, lay, pod, mems, eva, []) == mems
  {
  }

  lemma {:induction false} RangeGrows(cfg: Config, lay: Layout, pod: Coord, mems: Memories, after: Memories, eva: nat, m: nat, n: nat)
    requires GoodLayout(cfg, lay) && m <= n && OnlyRange(cfg, lay, pod, mems, after, eva, m)
    ensures OnlyRange(cfg, lay, pod, mems, after, eva, n)
  {
    hide GoodLayout, ByteAt, IsByte, Buffer;
  }

  // The bytes at `eva`
  ghost predicate Fetched(cfg: Config, pod: Coord, d: DramBytes, eva: nat, data: seq<Byte>) {
    && AllMapped(cfg, pod, eva, |data|)
    && forall e: nat :: eva <= e < eva + |data| ==>
         var n := ByteAt(cfg, pod, e).value; data[e - eva] == d(Xy(n), n.epa)
  }

  lemma {:induction false} ChunkFetched(cfg: Config, pod: Coord, d: DramBytes, eva: nat, data: seq<Byte>, chunk: seq<Byte>)
    requires GoodConfig(cfg) && PodExists(cfg, pod) && IsDramRange(eva, |data| + |chunk|) && 0 < |chunk|
    requires Fetched(cfg, pod, d, eva, data) && ByteAt(cfg, pod, eva + |data|).Some?
    requires var og := VcoreOrigin(cfg, pod); |chunk| <= EvaToNpa(cfg, og, og, eva + |data|).value.sz
    requires var n := ByteAt(cfg, pod, eva + |data|).value;
             forall k :: 0 <= k < |chunk| ==> chunk[k] == d(Xy(n), n.epa + k)
    ensures Fetched(cfg, pod, d, eva, data + chunk)
  {
    hide EvaToNpa, ByteAt, GoodPods, GoodFields;
    SegmentOf(cfg, pod, eva + |data|, |chunk|);
  }

  lemma {:induction false} FetchedNone(cfg: Config, pod: Coord, d: DramBytes, eva: nat)
    ensures Fetched(cfg, pod, d, eva, [])
  {
  }

  lemma {:induction false} FetchedMapped(cfg: Config, pod: Coord, d: DramBytes, eva: nat, data: seq<Byte>)
    requires Fetched(cfg, pod, d, eva, data)
    ensures AllMapped(cfg, pod, eva, |data|)
  {
  }

  /** `hb_mc_manycore_eva_read_dma` */
  method EvaReadDma(sys: CacheSystem, lay: Layout, pod: Coord, eva: nat, sz: nat) returns (r: Result<seq<Byte>>)
    requires GoodConfig(sys.cfg) && PodExists(sys.cfg, pod) && IsDramRange(eva, sz)
    requires InBanks(sys.cfg, lay, pod, eva, sz)
    ensures r.Ok? <==> CanTransfer(sys, sys.dmaRead, pod, eva, sz)
    ensures r.Ok? ==> |r.value| == sz && Fetched(sys.cfg, pod, sys.dram, eva, r.value)
  {
    hide EvaToNpa, ByteAt, GoodPods, GoodFields, IsDram, IsBankOf, Fetched, BankBytes, HasBanks;
    var og := VcoreOrigin(sys.cfg, pod);
    var data: seq<Byte>, cur := [], eva;
    FetchedNone(sys.cfg, pod, sys.dram, eva);
    while |data| < sz
      invariant |data| <= sz && cur == if |data| < sz then eva + |data| else Wrap(eva + |data|)
      invariant |data| > 0 ==> sys.dmaRead && sys.cfg.dramEnabled
      invariant Fetched(sys.cfg, pod, sys.dram, eva, data)
      decreases sz - |data|
    {
      Translates(sys.cfg, pod, cur);
      var seg := EvaToNpa(sys.cfg, og, og, cur);
      if seg.Err? {
        assert ByteAt(sys.cfg, pod, eva + |data|).None?;
        return Err(seg.error);
      }
      SegmentBytes(sys.cfg, pod, cur);
      ByteInPod(sys.cfg, pod, cur);
      var len := Region.Min(sz - |data|, seg.value.sz);
      PieceInBank(sys.cfg, lay, pod, eva, sz, |data|, len);
      var chunk := DmaRead(sys, lay, seg.value.npa, len);
      if chunk.Err? {
        return Err(chunk.error);
      }
      ChunkFetched(sys.cfg, pod, sys.dram, eva, data, chunk.value);
      data := data + chunk.value;
      cur := Wrap(cur + |chunk.value|);
    }
    FetchedMapped(sys.cfg, pod, sys.dram, eva, data);
    return Ok(data);
  }

  /** What a range read returns is what the memories hold at the buffers of its bytes. */
  lemma {:induction false} FetchedFromMemories(cfg: Config, lay: Layout, pod: Coord, mems: Memories, dram: DramBytes, eva: nat,
                                               data: seq<Byte>, e: nat)
    requires GoodConfig(cfg) && PodExists(cfg, pod) && IsDramRange(eva, |data|) && InBanks(cfg, lay, pod, eva, |data|)
    requires GoodLayout(cfg, lay) && Holds(cfg, lay, mems, dram) && Fetched(cfg, pod, dram, eva, data)
    requires eva <= e < eva + |data|
    ensures ByteAt(cfg, pod, e).Some? && IsByte(cfg, lay, ByteAt(cfg, pod, e).value)
    ensures data[e - eva] == mems(Buffer(cfg, lay, ByteAt(cfg, pod, e).value))
  {
    hide GoodPods, GoodFields, EvaToNpa, ByteAt, GoodLayout, Buffer, IsBankOf, BankBytes, IsDram;
    ByteInPod(cfg, pod, e);
  }

  // -------------------- jobs --------------------

  datatype WriteJob = WriteJob(eva: nat, data: seq<Byte>)
  datatype ReadJob = ReadJob(eva: nat, size: nat)

  // What the EVA `e` holds after the jobs, run in order, over `initial`: the byte of the last job that covers it
  function LastByte(jobs: seq<WriteJob>, e: nat, initial: Byte): Byte {
    if jobs == [] then initial
    else
      var j := jobs[|jobs| - 1];
      if j.eva <= e < j.eva + |j.data| then j.data[e - j.eva] else LastByte(jobs[..|jobs| - 1], e, initial)
  }

  ghost predicate Reachable(cfg: Config, pod: Coord, b: Coord, epa: nat) {
    exists e: nat :: IsDramRange(e, 1) && ByteAt(cfg, pod, e) == Some(Npa(b.x, b.y, epa))
  }

  // `after` is `before` overwritten by the jobs in order; bytes that no DRAM EVA of the pod reaches are as before.
  ghost predicate Overwritten(cfg: Config, pod: Coord, before: DramBytes, after: DramBytes, jobs: seq<WriteJob>) {
    && (forall e: nat :: IsDramRange(e, 1) && ByteAt(cfg, pod, e).Some? ==>
          var n := ByteAt(cfg, pod, e).value;
          after(Xy(n), n.epa) == LastByte(jobs, e, before(Xy(n), n.epa)))
    && (forall b, epa: nat :: after(b, epa) == before(b, epa) || Reachable(cfg, pod, b, epa))
  }

  lemma {:induction false} NoJobs(cfg: Config, pod: Coord, d: DramBytes)
    ensures Overwritten(cfg, pod, d, d, [])
  {
    hide ByteAt;
  }

  lemma {:induction false} OneMoreJob(cfg: Config, pod: Coord, d0: DramBytes, d1: DramBytes, d2: DramBytes,
                                      jobs: seq<WriteJob>, j: WriteJob)
    requires GoodConfig(cfg) && PodExists(cfg, pod) && IsDramRange(j.eva, |j.data|)
    requires Overwritten(cfg, pod, d0, d1, jobs) && Stored(cfg, pod, d1, d2, j.eva, j.data)
    ensures Overwritten(cfg, pod, d0, d2, jobs + [j])
  {
    hide ByteAt, GoodPods, GoodFields;
    var all := jobs + [j];
    assert all[..|all| - 1] == jobs;
    forall e: nat | IsDramRange(e, 1) && ByteAt(cfg, pod, e).Some?
      ensures var n := ByteAt(cfg, pod, e).value; d2(Xy(n), n.epa) == LastByte(all, e, d0(Xy(n), n.epa))
    {
      var n := ByteAt(cfg, pod, e).value;
      if !(j.eva <= e < j.eva + |j.data|) && d2(Xy(n), n.epa) != d1(Xy(n), n.epa) {
        assert InRange(cfg, pod, j.eva, |j.data|, Xy(n), n.epa);
        var e': nat :| j.eva <= e' < j.eva + |j.data| && ByteAt(cfg, pod, e') == Some(Npa(n.x, n.y, n.epa));
        BytesDiffer(cfg, pod, e, e');
        assert false;
      }
    }
    forall b, epa: nat
      ensures d2(b, epa) == d0(b, epa) || Reachable(cfg, pod, b, epa)
    {
      if InRange(cfg, pod, j.eva, |j.data|, b, epa) {
        var e: nat :| j.eva <= e < j.eva + |j.data| && ByteAt(cfg, pod, e) == Some(Npa(b.x, b.y, epa));
      }
    }
  }

  // What loads return, as a byte memory
  ghost function Views(cfg: Config, lines: Lines, dram: DramBytes): DramBytes {
    (b: Coord, epa: nat) => View(cfg, lines, dram, b, epa)
  }

  // DRAM behind the clean caches of a pod is rewritten while stale lines remain; dropping them makes it visible.
  lemma {:induction false} RewriteBehindCaches(cfg: Config, pod: Coord, l0: Lines, d0: DramBytes, l1: Lines, d1: DramBytes,
                                               d2: DramBytes, jobs: seq<WriteJob>)
    requires GoodConfig(cfg) && PodExists(cfg, pod)
    requires KeepsViews(cfg, l0, d0, l1, d1) && (forall b :: Coherent(cfg, l0, d0, b)) && AllClean(cfg, l1, pod)
    requires Overwritten(cfg, pod, d1, d2, jobs)
    ensures forall b :: NoDuplicates(cfg, l1, b)
    ensures forall b :: !IsBankOf(cfg, pod, b) ==> Coherent(cfg, l1, d2, b)
    ensures forall b, epa: nat :: !IsBankOf(cfg, pod, b) ==> View(cfg, l1, d2, b, epa) == View(cfg, l0, d0, b, epa)
    ensures forall b, epa: nat :: IsBankOf(cfg, pod, b) ==> d1(b, epa) == View(cfg, l0, d0, b, epa)
  {
    hide View, GoodPods, GoodFields, IsBankOf, ByteAt, NoDuplicates, AllClean, KeepsViews;
    KeepsCoherence(cfg, l0, d0, l1, d1);
    forall b ensures NoDuplicates(cfg, l1, b) {
      assert Coherent(cfg, l1, d1, b);
    }
    hide Coherent;
    forall b, epa: nat | IsBankOf(cfg, pod, b)
      ensures d1(b, epa) == View(cfg, l0, d0, b, epa)
    {
      CleanMeansDram(cfg, l1, d1, pod, b, epa);
    }
    forall b | !IsBankOf(cfg, pod, b)
      ensures Coherent(cfg, l1, d2, b)
      ensures forall epa: nat :: View(cfg, l1, d2, b, epa) == View(cfg, l1, d1, b, epa)
    {
      OtherBankKept(cfg, pod, d1, d2, jobs, b);
      VCache.SameBank(cfg, l1, d1, l1, d2, b);
    }
  }

  lemma {:induction false} OtherBankKept(cfg: Config, pod: Coord, d1: DramBytes, d2: DramBytes, jobs: seq<WriteJob>, b: Coord)
    requires GoodConfig(cfg) && PodExists(cfg, pod) && Overwritten(cfg, pod, d1, d2, jobs) && !IsBankOf(cfg, pod, b)
    ensures forall epa: nat :: d2(b, epa) == d1(b, epa)
  {
    hide GoodPods, GoodFields, IsBankOf, ByteAt;
    forall epa: nat
      ensures !Reachable(cfg, pod, b, epa)
    {
      if e: nat :| IsDramRange(e, 1) && ByteAt(cfg, pod, e) == Some(Npa(b.x, b.y, epa)) {
        ByteInPod(cfg, pod, e);
        assert false;
      }
    }
  }

  lemma {:induction false} ViewsOverwritten(cfg: Config, pod: Coord, l0: Lines, d0: DramBytes, l2: Lines, d1: DramBytes,
                                            d2: DramBytes, jobs: seq<WriteJob>)
    requires GoodConfig(cfg) && PodExists(cfg, pod) && Overwritten(cfg, pod, d1, d2, jobs)
    requires forall b, epa: nat :: IsBankOf(cfg, pod, b) ==>
               d1(b, epa) == View(cfg, l0, d0, b, epa) && View(cfg, l2, d2, b, epa) == d2(b, epa)
    requires forall b, epa: nat :: !IsBankOf(cfg, pod, b) ==> View(cfg, l2, d2, b, epa) == View(cfg, l0, d0, b, epa)
    ensures Overwritten(cfg, pod, Views(cfg, l0, d0), Views(cfg, l2, d2), jobs)
  {
    hide View, GoodPods, GoodFields, IsBankOf, ByteAt, LastByte;
    var v0, v2 := Views(cfg, l0, d0), Views(cfg, l2, d2);
    forall e: nat | IsDramRange(e, 1) && ByteAt(cfg, pod, e).Some?
      ensures var n := ByteAt(cfg, pod, e).value; v2(Xy(n), n.epa) == LastByte(jobs, e, v0(Xy(n), n.epa))
    {
      ByteInPod(cfg, pod, e);
    }
    forall b, epa: nat
      ensures v2(b, epa) == v0(b, epa) || Reachable(cfg, pod, b, epa)
    {
    }
  }

  lemma {:induction false} PodOfId(cfg: Config, podId: nat)
    requires GoodPods(cfg) && GoodPodId(cfg, podId)
    ensures PodExists(cfg, FromIndex(podId, cfg.pods))
  {
    IndexBijectionBack(podId, cfg.pods);
  }

  predicate GoodPodId(cfg: Config, podId: nat) { podId < Mul(cfg.pods.x, cfg.pods.y) }

  // The jobs' ranges copied one after the other
  function CopyJobs(cfg: Config, lay: Layout, pod: Coord, mems: Memories, jobs: seq<WriteJob>): Memories {
    if jobs == [] then mems
    else
      var j := jobs[|jobs| - 1];
      CopyRange(cfg, lay, pod, CopyJobs(cfg, lay, pod, mems, jobs[..|jobs| - 1]), j.eva, j.data)
  }

  // At the buffers of the pod's bytes the memories hold what `view` says.
  ghost predicate Shows(cfg: Config, lay: Layout, pod: Coord, mems: Memories, view: DramBytes)
    requires GoodLayout(cfg, lay)
  {
    forall n: Npa :: IsByte(cfg, lay, n) && IsBankOf(cfg, pod, Xy(n)) ==> mems(Buffer(cfg, lay, n)) == view(Xy(n), n.epa)
  }

  // Memory that belongs to no cache is as before.
  ghost predicate OwnerlessKept(cfg: Config, lay: Layout, mems: Memories, after: Memories)
    requires GoodLayout(cfg, lay)
  {
    forall m: Physical :: !HasOwner(cfg, lay, m) ==> after(m) == mems(m)
  }

  lemma {:induction false} HoldsShows(cfg: Config, lay: Layout, pod: Coord, mems: Memories, dram: DramBytes, view: DramBytes)
    requires GoodLayout(cfg, lay) && Holds(cfg, lay, mems, dram)
    requires forall b, epa: nat :: IsBankOf(cfg, pod, b) ==> dram(b, epa) == view(b, epa)
    ensures Shows(cfg, lay, pod, mems, view)
  {
    hide GoodLayout, IsByte, Buffer, IsBankOf;
  }

  /** `hb_mc_device_pod_dma_to_device`: what loads return afterwards is what they returned before, overwritten by the
  jobs in order. No dirty line is lost and no stale line survives. In the memories, `flushed` is the content that the flush
  leaves, which is what loads from the pod returned; then there are exactly the copies of the jobs, and the memories
  again hold what loads from the pod return. */
  method DmaToDevice(sys: CacheSystem, lay: Layout, podId: nat, jobs: seq<WriteJob>, ghost mems: Memories)
    returns (r: Result<()>, ghost flushed: Memories, ghost after: Memories)
    requires sys.Valid()
    requires forall j :: j in jobs ==> IsDramRange(j.eva, |j.data|)
    requires GoodPodId(sys.cfg, podId) ==>
               PodsPositive(sys.cfg) && forall j :: j in jobs ==> InBanks(sys.cfg, lay, FromIndex(podId, sys.cfg.pods), j.eva, |j.data|)
    modifies sys
    ensures r.Ok? <==> && GoodPodId(sys.cfg, podId) && sys.dmaRead
                       && forall j :: j in jobs ==>
                            CanTransfer(sys, sys.dmaWrite, FromIndex(podId, sys.cfg.pods), j.eva, |j.data|)
    ensures r.Ok? ==> sys.Valid()
    ensures r.Ok? ==> Overwritten(sys.cfg, FromIndex(podId, sys.cfg.pods), Views(sys.cfg, old(sys.lines), old(sys.dram)),
                                  Views(sys.cfg, sys.lines, sys.dram), jobs)
    ensures r.Ok? ==> after == CopyJobs(sys.cfg, lay, FromIndex(podId, sys.cfg.pods), flushed, jobs)
    ensures r.Ok? && GoodLayout(sys.cfg, lay) ==>
              var pod := FromIndex(podId, sys.cfg.pods);
              && OwnerlessKept(sys.cfg, lay, mems, flushed)
              && Shows(sys.cfg, lay, pod, flushed, Views(sys.cfg, old(sys.lines), old(sys.dram)))
              && Holds(sys.cfg, lay, after, sys.dram)
              && Shows(sys.cfg, lay, pod, after, Views(sys.cfg, sys.lines, sys.dram))
  {
    hide View, GoodPods, GoodFields, IsBankOf, Coherent, NoDuplicates, ByteAt, AllMapped, Overwritten, Stored, KeepsViews,
         AllClean, NoLines, FromIndex, InBanks, OnlyRange, GoodLayout, WrittenBack, CopyRange, Holds, Shows, OwnerlessKept;
    flushed, after := mems, mems;
    if podId >= Mul(sys.cfg.pods.x, sys.cfg.pods.y) { return Err(InvalidAddress), flushed, after; }
    if !sys.dmaRead { return Err(NotSupported), flushed, after; }
    PodOfId(sys.cfg, podId);
    var pod := FromIndex(podId, sys.cfg.pods);
    ghost var l0, d0 := sys.lines, sys.dram;
    sys.FlushPod(pod);
    ghost var l1, d1 := sys.lines, sys.dram;
    if GoodLayout(sys.cfg, lay) { flushed := WrittenBack(sys.cfg, lay, mems, sys.dram); }
    WrittenBackBacks(sys.cfg, lay, mems, sys.dram, flushed);
    after := flushed;
    NoJobs(sys.cfg, pod, sys.dram);
    assert jobs[..0] == [];
    var i := 0;
    while i < |jobs|
      invariant 0 <= i <= |jobs|
      invariant sys.lines == l1
      invariant forall j :: j in jobs[..i] ==> CanTransfer(sys, sys.dmaWrite, pod, j.eva, |j.data|)
      invariant Overwritten(sys.cfg, pod, d1, sys.dram, jobs[..i])
      invariant Backed(sys.cfg, lay, after, sys.dram)
      invariant after == CopyJobs(sys.cfg, lay, pod, flushed, jobs[..i])
    {
      ghost var d := sys.dram;
      var j := jobs[i];
      r, after := EvaWriteDma(sys, lay, pod, j.eva, j.data, after);
      if r.Err? {
        return r, flushed, after;
      }
      OneMoreJob(sys.cfg, pod, d1, d, sys.dram, jobs[..i], j);
      assert jobs[..i + 1] == jobs[..i] + [j] && jobs[..i + 1][..i] == jobs[..i];
      i := i + 1;
    }
    assert jobs[..i] == jobs;
    ghost var d2 := sys.dram;
    RewriteBehindCaches(sys.cfg, pod, l0, d0, l1, d1, d2, jobs);
    sys.InvalidatePod(pod);
    ViewsOverwritten(sys.cfg, pod, l0, d0, sys.lines, d1, d2, jobs);
    if GoodLayout(sys.cfg, lay) {
      HoldsShows(sys.cfg, lay, pod, flushed, d1, Views(sys.cfg, l0, d0));
      HoldsShows(sys.cfg, lay, pod, after, sys.dram, Views(sys.cfg, sys.lines, sys.dram));
    }
    return Ok(()), flushed, after;
  }

  lemma {:induction false} WrittenBackBacks(cfg: Config, lay: Layout, mems: Memories, dram: DramBytes, after: Memories)
    requires GoodLayout(cfg, lay) ==> after == WrittenBack(cfg, lay, mems, dram)
    ensures Backed(cfg, lay, after, dram)
    ensures GoodLayout(cfg, lay) ==> OwnerlessKept(cfg, lay, mems, after)
  {
    hide GoodLayout, Holds, HasOwner, Owner;
    if GoodLayout(cfg, lay) {
      WrittenBackHolds(cfg, lay, mems, dram);
    }
  }

  predicate PodsPositive(cfg: Config) { cfg.pods.y > 0 }

  /** `hb_mc_device_pod_dma_to_host`: returns what loads return, although it reads behind the caches. */
  method DmaToHost(sys: CacheSystem, lay: Layout, podId: nat, jobs: seq<ReadJob>) returns (r: Result<seq<seq<Byte>>>)
    requires sys.Valid()
    requires forall j :: j in jobs ==> IsDramRange(j.eva, j.size)
    requires GoodPodId(sys.cfg, podId) ==>
               PodsPositive(sys.cfg) && forall j :: j in jobs ==> InBanks(sys.cfg, lay, FromIndex(podId, sys.cfg.pods), j.eva, j.size)
    modifies sys
    ensures r.Ok? <==> && GoodPodId(sys.cfg, podId) && sys.dmaRead
                       && forall j :: j in jobs ==>
                            CanTransfer(sys, sys.dmaRead, FromIndex(podId, sys.cfg.pods), j.eva, j.size)
    ensures sys.Valid()
    ensures forall b, epa: nat :: View(sys.cfg, sys.lines, sys.dram, b, epa) == View(sys.cfg, old(sys.lines), old(sys.dram), b, epa)
    ensures r.Ok? ==> && |r.value| == |jobs|
                      && forall i :: 0 <= i < |jobs| ==>
                           && |r.value[i]| == jobs[i].size
                           && Fetched(sys.cfg, FromIndex(podId, sys.cfg.pods), Views(sys.cfg, old(sys.lines), old(sys.dram)),
                                      jobs[i].eva, r.value[i])
  {
    hide View, GoodPods, GoodFields, IsBankOf, Coherent, ByteAt, AllMapped, Fetched, KeepsViews, AllClean, NoLines, FromIndex,
         InBanks;
    if podId >= Mul(sys.cfg.pods.x, sys.cfg.pods.y) { return Err(InvalidAddress); }
    if !sys.dmaRead { return Err(NotSupported); }
    PodOfId(sys.cfg, podId);
    var pod := FromIndex(podId, sys.cfg.pods);
    ghost var l0, d0 := sys.lines, sys.dram;
    sys.FlushPod(pod);
    KeepsCoherence(sys.cfg, l0, d0, sys.lines, sys.dram);
    ghost var l1, d1 := sys.lines, sys.dram;
    var datas: seq<seq<Byte>> := [];
    for i := 0 to |jobs|
      invariant |datas| == i && sys.lines == l1 && sys.dram == d1
      invariant forall j :: j in jobs[..i] ==> CanTransfer(sys, sys.dmaRead, pod, j.eva, j.size)
      invariant forall k :: 0 <= k < i ==>
                  |datas[k]| == jobs[k].size && Fetched(sys.cfg, pod, Views(sys.cfg, l0, d0), jobs[k].eva, datas[k])
    {
      var j := jobs[i];
      var data := EvaReadDma(sys, lay, pod, j.eva, j.size);
      if data.Err? {
        return Err(data.error);
      }
      FetchedViews(sys.cfg, pod, l0, d0, l1, d1, j.eva, data.value);
      datas := datas + [data.value];
      assert jobs[..i + 1] == jobs[..i] + [j];
    }
    assert jobs[..|jobs|] == jobs;
    return Ok(datas);
  }

  lemma {:induction false} FetchedViews(cfg: Config, pod: Coord, l0: Lines, d0: DramBytes, l1: Lines, d1: DramBytes,
                                        eva: nat, data: seq<Byte>)
    requires GoodConfig(cfg) && PodExists(cfg, pod) && IsDramRange(eva, |data|)
    requires (forall b :: Coherent(cfg, l1, d1, b)) && AllClean(cfg, l1, pod)
    requires forall b, epa: nat :: View(cfg, l1, d1, b, epa) == View(cfg, l0, d0, b, epa)
    requires Fetched(cfg, pod, d1, eva, data)
    ensures Fetched(cfg, pod, Views(cfg, l0, d0), eva, data)
  {
    hide View, GoodPods, GoodFields, IsBankOf, Coherent, ByteAt, AllClean;
    forall e: nat | eva <= e < eva + |data|
      ensures var n := ByteAt(cfg, pod, e).value; data[e - eva] == Views(cfg, l0, d0)(Xy(n), n.epa)
    {
      ByteInPod(cfg, pod, e);
      var n := ByteAt(cfg, pod, e).value;
      CleanMeansDram(cfg, l1, d1, pod, Xy(n), n.epa);
    }
  }
}
