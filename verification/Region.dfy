/** Contiguous EVA ranges: what a segment promises, and the loops that write, read and set a range.

libraries/bsg_manycore_eva.cpp (segments and region loops) and libraries/bsg_manycore.cpp (write_mem, read_mem, memset)
*/
module Region {
  import opened Bits
  import opened Geometry
  import opened Eva
  import opened Wrappers
  import RemoteLoad

  // -------------------- segments --------------------

  // An EVA that reaches a control register rather than the data memory of a tile
  predicate IsCsrEva(eva: nat) {
    !IsDramEva(eva) && !IsGlobalEva(eva) && IsCsr(eva % LOCAL_SIZE)
  }

  // The `sz` bytes of a translation really are contiguous: each of their EVAs translates to the next EPA.
  ghost predicate Honest(cfg: Config, origin: Coord, src: Coord, eva: nat, seg: Segment) {
    forall a :: eva <= a < eva + seg.sz ==>
      && IsEva(a)
      && EvaToNpa(cfg, origin, src, a) == Ok(Segment(Advance(seg.npa, a - eva), seg.sz - (a - eva)))
  }

  lemma {:induction false} DramStep(cfg: Config, pod: Coord, src: Coord, eva: nat, k: nat)
    requires GoodConfig(cfg) && PodExists(cfg, pod) && BelongsTo(cfg, pod, src)
    requires IsEva(eva) && IsDramEva(eva) && EvaToNpaDram(cfg, src, eva).Ok?
    requires k < EvaToNpaDram(cfg, src, eva).value.sz
    ensures IsEva(eva + k) && IsDramEva(eva + k)
    ensures var seg := EvaToNpaDram(cfg, src, eva).value;
            EvaToNpaDram(cfg, src, eva + k) == Ok(Segment(Advance(seg.npa, k), seg.sz - k))
  {
    hide GoodPods, EvaToNpaDram, Low, Shr, Shl, Pow2, CLog2;
    var s, xl := StripeLog(cfg), XLog(cfg);
    DramTranslation(cfg, pod, src, eva);
    var f := Decompose(s, xl, eva);
    var g := f.(off := f.off + k);
    DecomposeCompose(s, xl, g);
    assert Compose(s, xl, g) == eva + k;
    DramTranslation(cfg, pod, src, eva + k);
    // the bank size is a multiple of the stripe size
    StripeInBank(f.top, s, f.off, g.off, DramBits(cfg));
  }

  lemma {:induction false} StripeInBank(top: nat, s: nat, off: nat, off': nat, bits: nat)
    requires s <= bits && off < Pow2(s) && off' < Pow2(s)
    requires Shl(top, s) + off < Pow2(bits)
    ensures Shl(top, s) + off' < Pow2(bits)
  {
    hide Low, Shr, Shl, Pow2;
    Join(top, s, off);
    ShrBound(Shl(top, s) + off, bits - s, s);
    ShlBound(top, bits - s, s);
  }

  // Below the DRAM bit a translation depends on the 4096-byte page of the EVA; `e` is a page number.
  predicate GlobalPage(e: nat) { (e / 0x4_0000) % 2 == 1 }
  predicate GroupPage(e: nat) { (e / 0x2_0000) % 2 == 1 }

  // The tile that a page reaches, if any
  function PageTile(cfg: Config, origin: Coord, src: Coord, e: nat): Option<Coord> {
    if GlobalPage(e) then Some(Coord((e / 16) % 128, (e / 0x800) % 128))
    else if GroupPage(e) then
      var x, y := Wrap((e / 64) % 64 + origin.x), Wrap((e / 0x1000) % 32 + origin.y);
      if cfg.podShape.x + 16 < x || cfg.podShape.y + 8 < y then None else Some(Coord(x, y))
    else if e / 64 == 0 then Some(src)
    else None
  }

  // The page inside the tile
  function PageInTile(e: nat): nat { if GlobalPage(e) then e % 16 else e % 64 }

  function TileSegment(c: Coord, page: nat, off: nat): Result<Segment>
    requires off < DMEM_SIZE
  {
    if page == 0 then Ok(Segment(Npa(c.x, c.y, off), DMEM_SIZE - off))
    else if page == 32 && (off == 0 || off == 4 || off == 8) then Ok(Segment(Npa(c.x, c.y, CSR_FREEZE + off), 4))
    else Err(Failure)
  }

  lemma {:induction false} PageParts(e: nat, off: nat)
    requires off < DMEM_SIZE
    ensures (e * DMEM_SIZE + off) / GLOBAL_BASE == e / 0x4_0000
    ensures (e * DMEM_SIZE + off) / GROUP_BASE == e / 0x2_0000
    ensures (e * DMEM_SIZE + off) / LOCAL_SIZE == e / 64
    ensures (e * DMEM_SIZE + off) / GLOBAL_SIZE == e / 16
    ensures (e * DMEM_SIZE + off) / 0x100_0000 == e / 0x1000
    ensures (e * DMEM_SIZE + off) / 0x80_0000 == e / 0x800
    ensures (e * DMEM_SIZE + off) / DRAM_BASE == e / 0x8_0000
  {
  }

  lemma {:induction false} PageRest(e: nat, off: nat)
    requires off < DMEM_SIZE
    ensures (e * DMEM_SIZE + off) % LOCAL_SIZE == (e % 64) * DMEM_SIZE + off
    ensures (e * DMEM_SIZE + off) % GLOBAL_SIZE == (e % 16) * DMEM_SIZE + off
  {
    LocalRest(e / 64, (e % 64) * DMEM_SIZE + off);
    GlobalRest(e / 16, (e % 16) * DMEM_SIZE + off);
  }

  lemma {:induction false} LocalRest(q: nat, r: nat)
    requires r < LOCAL_SIZE
    ensures (q * LOCAL_SIZE + r) % LOCAL_SIZE == r
  {
  }

  lemma {:induction false} GlobalRest(q: nat, r: nat)
    requires r < GLOBAL_SIZE
    ensures (q * GLOBAL_SIZE + r) % GLOBAL_SIZE == r
  {
  }

  lemma {:induction false} TileForm(cfg: Config, origin: Coord, src: Coord, e: nat, off: nat)
    requires e < 0x8_0000 && off < DMEM_SIZE
    ensures var eva := e * DMEM_SIZE + off;
            && IsEva(eva) && !IsDramEva(eva)
            && (IsCsrEva(eva) <==> !GlobalPage(e) && PageInTile(e) == 32 && (off == 0 || off == 4 || off == 8))
            && match PageTile(cfg, origin, src, e)
               case None => EvaToNpa(cfg, origin, src, eva).Err?
               case Some(c) => EvaToNpa(cfg, origin, src, eva) == TileSegment(c, PageInTile(e), off)
  {
    PageParts(e, off);
    PageRest(e, off);
    var eva := e * DMEM_SIZE + off;
    assert e % 16 < 16 && e % 64 < 64;
  }

  lemma {:induction false} TileStep(cfg: Config, origin: Coord, src: Coord, eva: nat, k: nat)
    requires IsEva(eva) && !IsDramEva(eva) && EvaToNpa(cfg, origin, src, eva).Ok?
    ensures var seg := EvaToNpa(cfg, origin, src, eva).value;
            && seg.sz > 0 && seg.npa.epa % 4 == eva % 4 && (eva % 4 == 0 ==> seg.sz % 4 == 0)
            && (IsCsrEva(eva) ==> seg.sz == 4 && EvaToNpa(cfg, origin, src, eva + 1).Err?)
            && (!IsCsrEva(eva) && k < seg.sz ==>
                  IsEva(eva + k) && EvaToNpa(cfg, origin, src, eva + k) == Ok(Segment(Advance(seg.npa, k), seg.sz - k)))
  {
    hide EvaToNpa, PageTile, GlobalPage, IsCsrEva;
    var e, off := eva / DMEM_SIZE, eva % DMEM_SIZE;
    TileForm(cfg, origin, src, e, off);
    if IsCsrEva(eva) {
      TileForm(cfg, origin, src, e, off + 1);
    } else if off + k < DMEM_SIZE {
      TileForm(cfg, origin, src, e, off + k);
    }
  }

  /** A translation reports at least one byte, and its bytes are contiguous exactly when the EVA reaches memory: for
  a control register it reports four bytes of which only the first has an EVA that translates. */
  lemma {:induction false} SegmentHonesty(cfg: Config, pod: Coord, origin: Coord, src: Coord, eva: nat)
    requires GoodConfig(cfg) && PodExists(cfg, pod) && BelongsTo(cfg, pod, src)
    requires IsEva(eva) && EvaToNpa(cfg, origin, src, eva).Ok?
    ensures var seg := EvaToNpa(cfg, origin, src, eva).value;
            seg.sz > 0 && (Honest(cfg, origin, src, eva, seg) <==> !IsCsrEva(eva))
  {
    hide GoodPods, EvaToNpaDram, EvaToNpaGlobal, EvaToNpaGroup, EvaToNpaLocal, IsDramEva, IsCsr, Pow2, Low;
    var seg := EvaToNpa(cfg, origin, src, eva).value;
    if IsDramEva(eva) {
      DramTranslation(cfg, pod, src, eva);
      assert !IsCsrEva(eva);
      forall a | eva <= a < eva + seg.sz
        ensures IsEva(a)
        ensures EvaToNpa(cfg, origin, src, a) == Ok(Segment(Advance(seg.npa, a - eva), seg.sz - (a - eva)))
      {
        DramStep(cfg, pod, src, eva, a - eva);
      }
    } else {
      TileStep(cfg, origin, src, eva, 0);
      forall a | eva <= a < eva + seg.sz && !IsCsrEva(eva)
        ensures IsEva(a)
        ensures EvaToNpa(cfg, origin, src, a) == Ok(Segment(Advance(seg.npa, a - eva), seg.sz - (a - eva)))
      {
        TileStep(cfg, origin, src, eva, a - eva);
      }
      if IsCsrEva(eva) {
        assert EvaToNpa(cfg, origin, src, eva + 1).Err?;
      }
    }
  }

  // -------------------- the physical byte behind an EVA --------------------

  function WordOf(eva: nat): nat { eva - eva % 4 }

  // Transfers move aligned words, so a byte lives where its word lives. The EVA of a range wraps: `a` may lie past the
  // last one.
  function ByteNpa(cfg: Config, origin: Coord, src: Coord, a: nat): Option<Npa> {
    var eva := Wrap(a);
    match EvaToNpa(cfg, origin, src, WordOf(eva))
    case Ok(seg) => Some(Advance(seg.npa, eva - WordOf(eva)))
    case Err(_) => None
  }

  lemma {:induction false} WrapStep(a: nat, k: nat)
    requires Wrap(a) + k < WORD32
    ensures Wrap(a + k) == Wrap(a) + k
  {
    var q := a / WORD32;
    assert a == q * WORD32 + Wrap(a);
    WrapRest(q, Wrap(a) + k);
  }

  lemma {:induction false} WrapSum(a: nat, k: nat)
    ensures Wrap(Wrap(a) + k) == Wrap(a + k)
  {
  }

  lemma {:induction false} WrapWords(a: nat)
    ensures IsEva(Wrap(a)) && Wrap(a) % 4 == a % 4
    ensures IsEva(a) ==> Wrap(a) == a
  {
  }

  lemma {:induction false} WordFacts(eva: nat, k: nat)
    ensures WordOf(eva) <= eva <= WordOf(eva) + 3 && WordOf(eva) % 4 == 0
    ensures eva % 4 == 0 ==> WordOf(eva + k) == eva + WordOf(k)
    ensures IsDramEva(WordOf(eva)) == IsDramEva(eva)
  {
  }

  lemma {:induction false} StripeIsWords(cfg: Config)
    requires GoodFields(cfg)
    ensures StripeLog(cfg) >= 2
  {
    assert StripeSize(cfg) >= 4;
    assert StripeSize(cfg) == Pow2(StripeLog(cfg));
  }

  lemma {:induction false} LowModFour(a: nat, n: nat)
    requires n >= 2
    ensures Low(a, n) % 4 == a % 4 && Pow2(n) % 4 == 0 && Shl(a, n) % 4 == 0
  {
    var b0, b1, q := a % 2, a / 2 % 2, a / 2 / 2;
    assert a == 4 * q + (2 * b1 + b0);
    assert Low(a, n) == b0 + 2 * Low(a / 2, n - 1);
    assert Low(a / 2, n - 1) == b1 + 2 * Low(q, n - 2);
    assert Pow2(n) == 2 * Pow2(n - 1) == 4 * Pow2(n - 2);
    assert Shl(a, n) == 2 * Shl(a, n - 1) == 4 * Shl(a, n - 2);
    hide Low, Pow2, Shl;
    RestOfFour(q, 2 * b1 + b0);
    RestOfFour(Low(q, n - 2), 2 * b1 + b0);
    RestOfFour(Pow2(n - 2), 0);
    RestOfFour(Shl(a, n - 2), 0);
  }

  lemma {:induction false} RestOfFour(q: nat, r: nat)
    requires r < 4
    ensures (4 * q + r) % 4 == r
  {
  }

  lemma {:induction false} FoursCancel(a: nat, b: nat)
    ensures a % 4 == 0 ==> (a + b) % 4 == b % 4
    ensures a % 4 == 0 && b % 4 == 0 && b <= a ==> (a - b) % 4 == 0
  {
  }

  lemma {:induction false} SegmentWords(cfg: Config, pod: Coord, origin: Coord, src: Coord, eva: nat)
    requires GoodConfig(cfg) && PodExists(cfg, pod) && BelongsTo(cfg, pod, src)
    requires IsEva(eva) && EvaToNpa(cfg, origin, src, eva).Ok?
    ensures var seg := EvaToNpa(cfg, origin, src, eva).value;
            seg.sz > 0 && seg.npa.epa % 4 == eva % 4 && (eva % 4 == 0 ==> seg.sz % 4 == 0)
  {
    hide GoodPods, EvaToNpaDram, EvaToNpaGlobal, EvaToNpaGroup, EvaToNpaLocal, Low, Pow2, CLog2, Shl, Shr;
    if IsDramEva(eva) {
      DramTranslation(cfg, pod, src, eva);
      StripeIsWords(cfg);
      var s, f := StripeLog(cfg), Decompose(StripeLog(cfg), XLog(cfg), eva);
      LowModFour(eva, s);
      LowModFour(f.top, s);
      FoursCancel(Shl(f.top, s), f.off);
      FoursCancel(Pow2(s), f.off);
    } else {
      TileStep(cfg, origin, src, eva, 0);
    }
  }

  /** Word for word every segment is honest, control registers included: the bytes from an aligned EVA on lie where
  the segment says. */
  lemma {:induction false} SegmentBytes(cfg: Config, pod: Coord, origin: Coord, src: Coord, eva: nat, k: nat)
    requires GoodConfig(cfg) && PodExists(cfg, pod) && BelongsTo(cfg, pod, src)
    requires IsEva(eva) && eva % 4 == 0 && EvaToNpa(cfg, origin, src, eva).Ok?
    requires k < EvaToNpa(cfg, origin, src, eva).value.sz
    ensures IsEva(eva + k)
    ensures ByteNpa(cfg, origin, src, eva + k) == Some(Advance(EvaToNpa(cfg, origin, src, eva).value.npa, k))
  {
    hide GoodPods, GoodFields, BelongsTo, EvaToNpa, EvaToNpaDram, IsDramEva, IsCsrEva, WordOf, ByteNpa;
    var seg := EvaToNpa(cfg, origin, src, eva).value;
    WordFacts(k, 0);
    var w := WordOf(k);
    if IsDramEva(eva) {
      DramByDram(cfg, origin, src, eva);
      DramStep(cfg, pod, src, eva, w);
      DramByDram(cfg, origin, src, eva + w);
    } else {
      TileStep(cfg, origin, src, eva, w);
    }
    assert eva + w + (k - w) == eva + k && Advance(Advance(seg.npa, w), k - w) == Advance(seg.npa, k);
    ByteInWord(cfg, origin, src, eva + w, k - w, Segment(Advance(seg.npa, w), seg.sz - w));
  }

  lemma {:induction false} ByteInWord(cfg: Config, origin: Coord, src: Coord, w: nat, r: nat, seg: Segment)
    requires w % 4 == 0 && IsEva(w) && r < 4 && EvaToNpa(cfg, origin, src, w) == Ok(seg)
    ensures IsEva(w + r) && ByteNpa(cfg, origin, src, w + r) == Some(Advance(seg.npa, r))
  {
    hide EvaToNpa, IsDramEva, Wrap;
    WordFacts(w, r);
    EndsWithWord(w, r);
    WrapWords(w + r);
  }

  lemma {:induction false} EndsWithWord(a: nat, r: nat)
    requires a % 4 == 0 && a < WORD32 && r < 4
    ensures a + r < WORD32
  {
  }

  lemma {:induction false} DramByDram(cfg: Config, origin: Coord, src: Coord, eva: nat)
    requires IsDramEva(eva)
    ensures EvaToNpa(cfg, origin, src, eva) == EvaToNpaDram(cfg, src, eva)
  {
  }

  // -------------------- no two bytes of a mapped range share a physical byte --------------------

  ghost predicate Mapped(cfg: Config, origin: Coord, src: Coord, eva: nat, n: nat) {
    forall a :: eva <= a < eva + n ==> ByteNpa(cfg, origin, src, a).Some?
  }

  lemma {:induction false} ByteOfDram(cfg: Config, pod: Coord, origin: Coord, src: Coord, eva: nat)
    requires GoodConfig(cfg) && PodExists(cfg, pod) && BelongsTo(cfg, pod, src)
    requires IsEva(eva) && IsDramEva(eva) && ByteNpa(cfg, origin, src, eva).Some?
    ensures EvaToNpaDram(cfg, src, eva).Ok?
    ensures ByteNpa(cfg, origin, src, eva) == Some(EvaToNpaDram(cfg, src, eva).value.npa)
  {
    hide GoodPods, GoodFields, BelongsTo, EvaToNpaDram, EvaToNpaGlobal, EvaToNpaGroup, EvaToNpaLocal, IsDramEva, WordOf;
    var base := WordOf(eva);
    WordFacts(eva, 0);
    SegmentWords(cfg, pod, origin, src, base);
    DramStep(cfg, pod, src, base, eva - base);
  }

  /** Distinct DRAM EVAs of one source lie at distinct physical bytes. */
  lemma {:induction false} DramBytesDistinct(cfg: Config, pod: Coord, origin: Coord, src: Coord, e1: nat, e2: nat)
    requires GoodConfig(cfg) && PodExists(cfg, pod) && BelongsTo(cfg, pod, src)
    requires IsEva(e1) && IsEva(e2) && IsDramEva(e1) && IsDramEva(e2) && e1 != e2
    requires ByteNpa(cfg, origin, src, e1).Some?
    ensures ByteNpa(cfg, origin, src, e1) != ByteNpa(cfg, origin, src, e2)
  {
    hide GoodPods, EvaToNpaDram, ByteNpa, IsDramEva;
    if ByteNpa(cfg, origin, src, e2).Some? {
      ByteOfDram(cfg, pod, origin, src, e1);
      ByteOfDram(cfg, pod, origin, src, e2);
      if ByteNpa(cfg, origin, src, e1) == ByteNpa(cfg, origin, src, e2) {
        DramEvaInjective(cfg, pod, src, src, e1, e2);
      }
    }
  }

  lemma {:induction false} ByteOfTile(cfg: Config, origin: Coord, src: Coord, e: nat, off: nat)
    requires e < 0x8_0000 && off < DMEM_SIZE
    ensures ByteNpa(cfg, origin, src, e * DMEM_SIZE + off) ==
            match PageTile(cfg, origin, src, e)
            case None => None
            case Some(c) => if PageInTile(e) == 0 || (PageInTile(e) == 32 && off < 12)
                            then Some(Npa(c.x, c.y, PageInTile(e) * DMEM_SIZE + off)) else None
  {
    hide EvaToNpa, PageTile, GlobalPage, WordOf;
    WordFacts(e * DMEM_SIZE, off);
    WordFacts(off, 0);
    TileForm(cfg, origin, src, e, WordOf(off));
  }

  // After the data memory or the registers of a tile comes a page that does not translate.
  lemma {:induction false} TilePageEnds(cfg: Config, origin: Coord, src: Coord, e: nat, off: nat)
    requires e < 0x8_0000 && off < DMEM_SIZE
    requires ByteNpa(cfg, origin, src, e * DMEM_SIZE + off).Some?
    ensures ByteNpa(cfg, origin, src, (e + 1) * DMEM_SIZE).None?
  {
    hide ByteNpa, PageTile;
    ByteOfTile(cfg, origin, src, e, off);
    assert e + 1 < 0x8_0000;
    ByteOfTile(cfg, origin, src, e + 1, 0);
  }

  lemma {:induction false} TileRangeDistinct(cfg: Config, origin: Coord, src: Coord, eva: nat, n: nat, e1: nat, e2: nat)
    requires Mapped(cfg, origin, src, eva, n) && eva <= e1 < e2 < eva + n <= WORD32 && !IsDramEva(e1)
    ensures ByteNpa(cfg, origin, src, e1) != ByteNpa(cfg, origin, src, e2)
  {
    hide ByteNpa, PageTile, PageInTile;
    var e, off := e1 / DMEM_SIZE, e1 % DMEM_SIZE;
    assert e1 == e * DMEM_SIZE + off && e < 0x8_0000;
    TilePageEnds(cfg, origin, src, e, off);
    var next := (e + 1) * DMEM_SIZE;
    assert e2 < next;
    ByteOfTile(cfg, origin, src, e, off);
    ByteOfTile(cfg, origin, src, e, e2 - e * DMEM_SIZE);
  }

  // The page below DRAM does not translate, nor does the page after the data memory of the source.
  lemma {:induction false} GapBelow(cfg: Config, origin: Coord, src: Coord, off: nat)
    requires off < DMEM_SIZE
    ensures ByteNpa(cfg, origin, src, 0x7FFF_F000 + off).None?
  {
    assert GlobalPage(0x7_FFFF);
    hide ByteNpa, GlobalPage, GroupPage;
    ByteOfTile(cfg, origin, src, 0x7_FFFF, off);
  }

  lemma {:induction false} GapAfter(cfg: Config, origin: Coord, src: Coord)
    ensures ByteNpa(cfg, origin, src, WORD32 + DMEM_SIZE).None?
  {
    assert !GlobalPage(1) && !GroupPage(1);
    WrapSmaller(DMEM_SIZE);
    hide ByteNpa, GlobalPage, GroupPage, Wrap;
    ByteOfTile(cfg, origin, src, 1, 0);
    ByteOfPosition(cfg, origin, src, WORD32 + DMEM_SIZE);
  }

  // Past the last EVA comes the source's own memory.
  lemma {:induction false} OwnMemory(cfg: Config, origin: Coord, src: Coord, off: nat)
    requires off < DMEM_SIZE
    ensures ByteNpa(cfg, origin, src, WORD32 + off) == Some(Npa(src.x, src.y, off))
  {
    assert !GlobalPage(0) && !GroupPage(0);
    WrapSmaller(off);
    hide ByteNpa, GlobalPage, GroupPage, Wrap;
    ByteOfTile(cfg, origin, src, 0, off);
    ByteOfPosition(cfg, origin, src, WORD32 + off);
  }

  lemma {:induction false} WrapSmaller(a: nat)
    requires a < WORD32
    ensures Wrap(WORD32 + a) == a
  {
  }

  // A mapped range that wraps is the end of DRAM and the start of the source's own memory.
  lemma {:induction false} WrappedRange(cfg: Config, origin: Coord, src: Coord, eva: nat, n: nat)
    requires IsEva(eva) && Mapped(cfg, origin, src, eva, n) && eva + n > WORD32
    ensures DRAM_BASE <= eva && eva + n <= WORD32 + DMEM_SIZE
  {
    hide ByteNpa;
    GapBelow(cfg, origin, src, 0);
    GapAfter(cfg, origin, src);
    if 0x7FFF_F000 <= eva < DRAM_BASE {
      GapBelow(cfg, origin, src, eva - 0x7FFF_F000);
      assert false;
    }
  }

  lemma {:induction false} BankIsNoCore(cfg: Config, pod: Coord, c: Coord)
    requires GoodPods(cfg) && PodExists(cfg, pod) && IsBankOf(cfg, pod, c)
    ensures !IsCoreOf(cfg, pod, c)
  {
    OriginValue(cfg, pod);
  }

  lemma {:induction false} DramByteAtBank(cfg: Config, pod: Coord, origin: Coord, tile: Coord, a: nat)
    requires GoodConfig(cfg) && PodExists(cfg, pod) && IsCoreOf(cfg, pod, tile)
    requires IsEva(a) && IsDramEva(a) && ByteNpa(cfg, origin, tile, a).Some?
    ensures !IsCoreOf(cfg, pod, Xy(ByteNpa(cfg, origin, tile, a).value))
  {
    hide GoodPods, GoodFields, EvaToNpaDram, IsDramEva, ByteNpa, IsCoreOf, IsBankOf, Decompose, Compose;
    ByteOfDram(cfg, pod, origin, tile, a);
    DramTranslation(cfg, pod, tile, a);
    var f := Decompose(StripeLog(cfg), XLog(cfg), a);
    BankIsDram(cfg, pod, tile, f);
    BankIsNoCore(cfg, pod, Xy(DramNpa(cfg, pod, f)));
  }

  // A range that wraps reaches the memory of its source, so the source must not be a bank.
  predicate Apart(cfg: Config, pod: Coord, src: Coord, eva: nat, n: nat) { eva + n <= WORD32 || IsCoreOf(cfg, pod, src) }

  /** Distinct bytes of a mapped range lie at distinct physical bytes, whatever region the range is in, and even if it
  wraps. */
  lemma {:induction false} RangeBytesDistinct(cfg: Config, pod: Coord, origin: Coord, src: Coord, eva: nat, n: nat, e1: nat, e2: nat)
    requires GoodConfig(cfg) && PodExists(cfg, pod) && BelongsTo(cfg, pod, src)
    requires IsEva(eva) && Apart(cfg, pod, src, eva, n) && Mapped(cfg, origin, src, eva, n) && eva <= e1 < e2 < eva + n
    ensures ByteNpa(cfg, origin, src, e1) != ByteNpa(cfg, origin, src, e2)
  {
    hide GoodPods, GoodFields, ByteNpa, BelongsTo, IsCoreOf;
    if e2 < WORD32 {
      if IsDramEva(e1) {
        DramBytesDistinct(cfg, pod, origin, src, e1, e2);
      } else {
        TileRangeDistinct(cfg, origin, src, eva, Min(n, WORD32 - eva), e1, e2);
      }
    } else {
      WrappedRange(cfg, origin, src, eva, n);
      OwnMemory(cfg, origin, src, e2 - WORD32);
      if e1 < WORD32 {
        DramByteAtBank(cfg, pod, origin, src, e1);
      } else {
        OwnMemory(cfg, origin, src, e1 - WORD32);
      }
    }
  }

  // -------------------- transfers --------------------

  datatype Word = Word(b0: Byte, b1: Byte, b2: Byte, b3: Byte)
  type Memory = Npa -> Byte

  function LoadWord(mem: Memory, npa: Npa): Word {
    Word(mem(npa), mem(Advance(npa, 1)), mem(Advance(npa, 2)), mem(Advance(npa, 3)))
  }

  // The bytes of a sequence of words, as they lie in memory
  function Bytes(words: seq<Word>): (data: seq<Byte>)
    ensures |data| == 4 * |words|
    ensures forall k :: 0 <= k < |words| ==>
              data[4 * k] == words[k].b0 && data[4 * k + 1] == words[k].b1
              && data[4 * k + 2] == words[k].b2 && data[4 * k + 3] == words[k].b3
  {
    if words == [] then []
    else
      var w := words[|words| - 1];
      Bytes(words[..|words| - 1]) + [w.b0, w.b1, w.b2, w.b3]
  }

  lemma {:induction false} BytesLoaded(words: seq<Word>, mem: Memory, npa: Npa)
    requires forall i :: 0 <= i < |words| ==> words[i] == LoadWord(mem, Advance(npa, 4 * i))
    ensures forall k :: 0 <= k < |Bytes(words)| ==> Bytes(words)[k] == mem(Advance(npa, k))
  {
    var data := Bytes(words);
    forall k | 0 <= k < |data|
      ensures data[k] == mem(Advance(npa, k))
    {
      var i, j := k / 4, k % 4;
      assert words[i] == LoadWord(mem, Advance(npa, 4 * i));
      assert Advance(Advance(npa, 4 * i), j) == Advance(npa, k);
    }
  }

  predicate ValidDestination(cfg: Config, npa: Npa) {
    npa.x < Pow2(cfg.nocWidth.x) && npa.y < Pow2(cfg.nocWidth.y)
  }

  // What a word can be written to or read from
  predicate Accepts(cfg: Config, npa: Npa) {
    npa.x < Pow2(cfg.nocWidth.x) && npa.y < Pow2(cfg.nocWidth.y) && npa.epa % 4 == 0
  }

  predicate Within(n: Npa, start: Npa, len: nat) {
    n.x == start.x && n.y == start.y && start.epa <= n.epa < start.epa + len
  }

  // `after` is `before` with `data` written from `start` on.
  ghost predicate Wrote(before: Memory, after: Memory, start: Npa, data: seq<Byte>) {
    forall n: Npa :: after(n) == if Within(n, start, |data|) then data[n.epa - start.epa] else before(n)
  }

  // A transfer of `n` bytes at an EVA succeeds: whole aligned words, all of them mapped to valid destinations.
  ghost predicate Transferable(cfg: Config, origin: Coord, src: Coord, eva: nat, n: nat) {
    n > 0 ==>
      && eva % 4 == 0 && n % 4 == 0
      && forall a :: eva <= a < eva + n ==>
           && ByteNpa(cfg, origin, src, a).Some?
           && ByteNpa(cfg, origin, src, a).value.x < Pow2(cfg.nocWidth.x)
           && ByteNpa(cfg, origin, src, a).value.y < Pow2(cfg.nocWidth.y)
  }

  // The range holds `data`, and every byte outside the range is as `before`.
  ghost predicate RangeWritten(cfg: Config, origin: Coord, src: Coord, before: Memory, after: Memory, eva: nat, data: seq<Byte>) {
    && (forall a :: eva <= a < eva + |data| ==>
          ByteNpa(cfg, origin, src, a).Some? && after(ByteNpa(cfg, origin, src, a).value) == data[a - eva])
    && OutsideKept(cfg, origin, src, before, after, eva, |data|)
  }

  ghost predicate RangeHolds(cfg: Config, origin: Coord, src: Coord, mem: Memory, eva: nat, data: seq<Byte>) {
    forall a :: eva <= a < eva + |data| ==>
      ByteNpa(cfg, origin, src, a).Some? && data[a - eva] == mem(ByteNpa(cfg, origin, src, a).value)
  }

  ghost predicate OutsideKept(cfg: Config, origin: Coord, src: Coord, before: Memory, after: Memory, eva: nat, len: nat) {
    forall n: Npa :: after(n) == before(n) || exists a :: eva <= a < eva + len && ByteNpa(cfg, origin, src, a) == Some(n)
  }

  // No later byte of the range lies where byte `a` lies.
  ghost predicate IsLast(cfg: Config, origin: Coord, src: Coord, eva: nat, n: nat, a: nat) {
    forall b :: a < b < eva + n ==> ByteNpa(cfg, origin, src, b) != ByteNpa(cfg, origin, src, a)
  }

  /** The range is written front to back: where it meets itself, the last byte stays. */
  ghost predicate LastWritten(cfg: Config, origin: Coord, src: Coord, before: Memory, after: Memory, eva: nat, data: seq<Byte>) {
    && (forall a :: eva <= a < eva + |data| ==>
          && ByteNpa(cfg, origin, src, a).Some?
          && (IsLast(cfg, origin, src, eva, |data|, a) ==> after(ByteNpa(cfg, origin, src, a).value) == data[a - eva]))
    && OutsideKept(cfg, origin, src, before, after, eva, |data|)
  }

  /** Unless it wraps and its source is a bank, a range does not meet itself. */
  lemma {:induction false} LastIsOnly(cfg: Config, pod: Coord, origin: Coord, src: Coord, before: Memory, after: Memory,
                                      eva: nat, data: seq<Byte>)
    requires GoodConfig(cfg) && PodExists(cfg, pod) && BelongsTo(cfg, pod, src)
    requires IsEva(eva) && Apart(cfg, pod, src, eva, |data|) && LastWritten(cfg, origin, src, before, after, eva, data)
    ensures RangeWritten(cfg, origin, src, before, after, eva, data)
  {
    hide ByteNpa, GoodPods, GoodFields, BelongsTo, IsCoreOf, Apart, OutsideKept;
    assert Mapped(cfg, origin, src, eva, |data|);
    forall a | eva <= a < eva + |data|
      ensures after(ByteNpa(cfg, origin, src, a).value) == data[a - eva]
    {
      forall b | a < b < eva + |data| ensures ByteNpa(cfg, origin, src, b) != ByteNpa(cfg, origin, src, a) {
        RangeBytesDistinct(cfg, pod, origin, src, eva, |data|, a, b);
      }
    }
  }

  lemma {:induction false} InChunk(cfg: Config, pod: Coord, origin: Coord, src: Coord, p: nat, n: Npa, len: nat)
    requires GoodConfig(cfg) && PodExists(cfg, pod) && BelongsTo(cfg, pod, src)
    requires p % 4 == 0 && EvaToNpa(cfg, origin, src, Wrap(p)).Ok?
    requires len <= EvaToNpa(cfg, origin, src, Wrap(p)).value.sz
    requires Within(n, EvaToNpa(cfg, origin, src, Wrap(p)).value.npa, len)
    ensures ByteNpa(cfg, origin, src, p + (n.epa - EvaToNpa(cfg, origin, src, Wrap(p)).value.npa.epa)) == Some(n)
  {
    hide EvaToNpa, ByteNpa, GoodPods, GoodFields, BelongsTo, Wrap;
    SegmentByteRange(cfg, pod, origin, src, p);
  }

  lemma {:induction false} ChunkWritten(cfg: Config, pod: Coord, origin: Coord, src: Coord, m0: Memory, m1: Memory, m2: Memory,
                                        eva: nat, data: seq<Byte>, pos: nat, len: nat)
    requires GoodConfig(cfg) && PodExists(cfg, pod) && BelongsTo(cfg, pod, src)
    requires pos + len <= |data| && (eva + pos) % 4 == 0
    requires LastWritten(cfg, origin, src, m0, m1, eva, data[..pos])
    requires EvaToNpa(cfg, origin, src, Wrap(eva + pos)).Ok?
    requires len <= EvaToNpa(cfg, origin, src, Wrap(eva + pos)).value.sz
    requires Wrote(m1, m2, EvaToNpa(cfg, origin, src, Wrap(eva + pos)).value.npa, data[pos..pos + len])
    ensures LastWritten(cfg, origin, src, m0, m2, eva, data[..pos + len])
  {
    hide EvaToNpa, ByteNpa, GoodPods, GoodFields, BelongsTo, Wrap;
    var start := EvaToNpa(cfg, origin, src, Wrap(eva + pos)).value.npa;
    SegmentByteRange(cfg, pod, origin, src, eva + pos);
    forall a | eva <= a < eva + pos + len && IsLast(cfg, origin, src, eva, pos + len, a)
      ensures m2(ByteNpa(cfg, origin, src, a).value) == data[a - eva]
    {
      var n := ByteNpa(cfg, origin, src, a).value;
      if a < eva + pos {
        assert IsLast(cfg, origin, src, eva, pos, a);
        if Within(n, start, len) {
          InChunk(cfg, pod, origin, src, eva + pos, n, len);
          assert false;
        }
      }
    }
    forall n: Npa | m2(n) != m0(n)
      ensures exists a :: eva <= a < eva + pos + len && ByteNpa(cfg, origin, src, a) == Some(n)
    {
      if Within(n, start, len) {
        InChunk(cfg, pod, origin, src, eva + pos, n, len);
      } else {
        assert m1(n) != m0(n);
      }
    }
  }

  lemma {:induction false} WordAppended(m0: Memory, m1: Memory, m2: Memory, npa: Npa, data: seq<Byte>, i: nat)
    requires i + 4 <= |data|
    requires Wrote(m0, m1, npa, data[..i])
    requires Wrote(m1, m2, Advance(npa, i), [data[i], data[i + 1], data[i + 2], data[i + 3]])
    ensures Wrote(m0, m2, npa, data[..i + 4])
  {
    assert data[..i + 4] == data[..i] + [data[i], data[i + 1], data[i + 2], data[i + 3]];
  }

  lemma {:induction false} AcceptsAll(cfg: Config, npa: Npa)
    ensures forall i: nat :: Accepts(cfg, Advance(npa, 4 * i)) == Accepts(cfg, npa)
  {
  }

  function Min(x: nat, y: nat): nat { if x < y then x else y }

  // A chunk that is accepted extends a transferable range; ...
  lemma {:induction false} ChunkExtends(cfg: Config, pod: Coord, origin: Coord, src: Coord, eva: nat, pos: nat, len: nat)
    requires GoodConfig(cfg) && PodExists(cfg, pod) && BelongsTo(cfg, pod, src)
    requires EvaToNpa(cfg, origin, src, Wrap(eva + pos)).Ok?
    requires Transferable(cfg, origin, src, eva, pos)
    requires len % 4 == 0 && len <= EvaToNpa(cfg, origin, src, Wrap(eva + pos)).value.sz
    requires Accepts(cfg, EvaToNpa(cfg, origin, src, Wrap(eva + pos)).value.npa)
    ensures (eva + pos) % 4 == 0
    ensures Transferable(cfg, origin, src, eva, pos + len)
  {
    hide EvaToNpa, ByteNpa, GoodPods, GoodFields, BelongsTo, Wrap;
    WrapWords(eva + pos);
    SegmentWords(cfg, pod, origin, src, Wrap(eva + pos));
    SegmentByteRange(cfg, pod, origin, src, eva + pos);
  }

  // ... and every chunk of a transferable range is accepted.
  lemma {:induction false} ChunkAccepted(cfg: Config, pod: Coord, origin: Coord, src: Coord, eva: nat, n: nat, pos: nat)
    requires GoodConfig(cfg) && PodExists(cfg, pod) && BelongsTo(cfg, pod, src)
    requires pos < n
    requires Transferable(cfg, origin, src, eva, pos) && Transferable(cfg, origin, src, eva, n)
    ensures EvaToNpa(cfg, origin, src, Wrap(eva + pos)).Ok?
    ensures var seg := EvaToNpa(cfg, origin, src, Wrap(eva + pos)).value;
            Min(n - pos, seg.sz) % 4 == 0 && Accepts(cfg, seg.npa)
  {
    hide EvaToNpa, ByteNpa, GoodPods, GoodFields, BelongsTo, ValidDestination, Wrap;
    assert (eva + pos) % 4 == 0 && (n - pos) % 4 == 0;
    WrapWords(eva + pos);
    WordByte(cfg, origin, src, eva + pos);
    assert ByteNpa(cfg, origin, src, eva + pos).Some?;
    SegmentWords(cfg, pod, origin, src, Wrap(eva + pos));
  }

  lemma {:induction false} SegmentByteRange(cfg: Config, pod: Coord, origin: Coord, src: Coord, p: nat)
    requires GoodConfig(cfg) && PodExists(cfg, pod) && BelongsTo(cfg, pod, src)
    requires p % 4 == 0 && EvaToNpa(cfg, origin, src, Wrap(p)).Ok?
    ensures var seg := EvaToNpa(cfg, origin, src, Wrap(p)).value;
            && seg.sz <= WORD32
            && forall a :: p <= a < p + seg.sz ==> ByteNpa(cfg, origin, src, a) == Some(Advance(seg.npa, a - p))
  {
    hide EvaToNpa, ByteNpa, GoodPods, GoodFields, BelongsTo, Wrap;
    WrapWords(p);
    var seg := EvaToNpa(cfg, origin, src, Wrap(p)).value;
    forall a | p <= a < p + seg.sz
      ensures ByteNpa(cfg, origin, src, a) == Some(Advance(seg.npa, a - p))
    {
      SegmentBytes(cfg, pod, origin, src, Wrap(p), a - p);
      WrapStep(p, a - p);
      WrapWords(a);
      ByteOfPosition(cfg, origin, src, a);
    }
    if seg.sz > 0 { SegmentBytes(cfg, pod, origin, src, Wrap(p), seg.sz - 1); }
  }

  lemma {:induction false} ByteOfPosition(cfg: Config, origin: Coord, src: Coord, a: nat)
    ensures ByteNpa(cfg, origin, src, a) == ByteNpa(cfg, origin, src, Wrap(a))
  {
    hide WordOf, EvaToNpa, Wrap;
    WrapWords(Wrap(a));
    WrapWords(a);
  }

  lemma {:induction false} EmptyTransfer(cfg: Config, origin: Coord, src: Coord, mem: Memory, eva: nat)
    ensures Transferable(cfg, origin, src, eva, 0)
    ensures RangeWritten(cfg, origin, src, mem, mem, eva, []) && LastWritten(cfg, origin, src, mem, mem, eva, [])
    ensures RangeHolds(cfg, origin, src, mem, eva, [])
  {
  }

  lemma {:induction false} ChunkRead(cfg: Config, pod: Coord, origin: Coord, src: Coord, mem: Memory,
                                     eva: nat, data: seq<Byte>, chunk: seq<Byte>)
    requires GoodConfig(cfg) && PodExists(cfg, pod) && BelongsTo(cfg, pod, src)
    requires (eva + |data|) % 4 == 0 && EvaToNpa(cfg, origin, src, Wrap(eva + |data|)).Ok?
    requires RangeHolds(cfg, origin, src, mem, eva, data)
    requires |chunk| <= EvaToNpa(cfg, origin, src, Wrap(eva + |data|)).value.sz
    requires forall k :: 0 <= k < |chunk| ==>
               chunk[k] == mem(Advance(EvaToNpa(cfg, origin, src, Wrap(eva + |data|)).value.npa, k))
    ensures RangeHolds(cfg, origin, src, mem, eva, data + chunk)
  {
    hide EvaToNpa, ByteNpa, GoodPods, GoodFields, BelongsTo, Wrap;
    SegmentByteRange(cfg, pod, origin, src, eva + |data|);
  }

  lemma {:induction false} KeptPrefix(cfg: Config, origin: Coord, src: Coord, before: Memory, after: Memory, eva: nat,
                                      data: seq<Byte>, pos: nat)
    requires pos <= |data| && LastWritten(cfg, origin, src, before, after, eva, data[..pos])
    ensures OutsideKept(cfg, origin, src, before, after, eva, |data|)
  {
    hide ByteNpa;
  }

  lemma {:induction false} WordByte(cfg: Config, origin: Coord, src: Coord, eva: nat)
    requires eva % 4 == 0
    ensures EvaToNpa(cfg, origin, src, Wrap(eva)).Err? ==> ByteNpa(cfg, origin, src, eva).None?
    ensures EvaToNpa(cfg, origin, src, Wrap(eva)).Ok? ==>
              ByteNpa(cfg, origin, src, eva) == Some(EvaToNpa(cfg, origin, src, Wrap(eva)).value.npa)
  {
    hide EvaToNpa, Wrap;
    WrapWords(eva);
  }

  /** The host's view of the endpoints: one byte memory behind the network. */
  class Device {
    const cfg: Config
    const loadCap: nat
    var mem: Memory

    constructor (cfg: Config, loadCap: nat, mem: Memory)
      ensures this.cfg == cfg && this.loadCap == loadCap && this.mem == mem
    {
      this.cfg, this.loadCap, this.mem := cfg, loadCap, mem;
    }

    // `hb_mc_manycore_write` of one word
    method WriteWord(npa: Npa, w: Word) returns (r: Result<()>)
      modifies this
      ensures r.Ok? <==> Accepts(cfg, npa)
      ensures r.Ok? ==> Wrote(old(mem), mem, npa, [w.b0, w.b1, w.b2, w.b3])
      ensures r.Err? ==> mem == old(mem)
    {
      if !ValidDestination(cfg, npa) {
        return Err(InvalidAddress);
      }
      if npa.epa % 4 != 0 {
        return Err(Unaligned);
      }
      var before := mem;
      mem := n =>
        if Within(n, npa, 4) then [w.b0, w.b1, w.b2, w.b3][n.epa - npa.epa] else before(n);
      return Ok(());
    }

    // `hb_mc_manycore_write_mem`
    method WriteMem(npa: Npa, data: seq<Byte>) returns (r: Result<()>)
      modifies this
      ensures r.Ok? <==> |data| % 4 == 0 && (|data| > 0 ==> Accepts(cfg, npa))
      ensures r.Ok? ==> Wrote(old(mem), mem, npa, data)
      ensures r.Err? ==> mem == old(mem)
    {
      if |data| % 4 != 0 {
        return Err(NotSupported);
      }
      var addr := npa;
      var i := 0;
      while i < |data|
        invariant 0 <= i <= |data| && i % 4 == 0
        invariant addr == Advance(npa, i)
        invariant i > 0 ==> Accepts(cfg, npa)
        invariant i == 0 ==> mem == old(mem)
        invariant Wrote(old(mem), mem, npa, data[..i])
      {
        ghost var before := mem;
        r := WriteWord(addr, Word(data[i], data[i + 1], data[i + 2], data[i + 3]));
        if r.Err? {
          return;
        }
        WordAppended(old(mem), before, mem, npa, data, i);
        addr := Advance(addr, 4);
        i := i + 4;
      }
      assert data[..i] == data;
      return Ok(());
    }

    // `hb_mc_manycore_memset`
    method MemSet(npa: Npa, val: Byte, sz: nat) returns (r: Result<()>)
      modifies this
      ensures r.Ok? <==> sz % 4 == 0 && (sz > 0 ==> Accepts(cfg, npa))
      ensures r.Ok? ==> Wrote(old(mem), mem, npa, seq(sz, _ => val))
      ensures r.Err? ==> mem == old(mem)
    {
      if sz % 4 != 0 {
        return Err(NotSupported);
      }
      ghost var data := seq(sz, _ => val);
      var word := Word(val, val, val, val);
      var addr := npa;
      var i := 0;
      while i < sz
        invariant 0 <= i <= sz && i % 4 == 0
        invariant addr == Advance(npa, i)
        invariant i > 0 ==> Accepts(cfg, npa)
        invariant i == 0 ==> mem == old(mem)
        invariant Wrote(old(mem), mem, npa, data[..i])
      {
        ghost var before := mem;
        r := WriteWord(addr, word);
        if r.Err? {
          return;
        }
        WordAppended(old(mem), before, mem, npa, data, i);
        addr := Advance(addr, 4);
        i := i + 4;
      }
      assert data[..i] == data;
      return Ok(());
    }

    // `hb_mc_manycore_read_mem`: the words come from the out-of-order load engine.
    method ReadMem(npa: Npa, sz: nat) returns (r: Result<seq<Byte>>)
      requires loadCap >= 1
      ensures r.Ok? <==> sz % 4 == 0 && (sz > 0 ==> Accepts(cfg, npa))
      ensures r.Ok? ==> |r.value| == sz
      ensures r.Ok? && sz <= 4 * WORD32 ==> forall k :: 0 <= k < sz ==> r.value[k] == mem(Advance(npa, k))
    {
      hide LoadWord, Accepts, RemoteLoad.Delivered, RemoteLoad.HighKept;
      if sz % 4 != 0 {
        return Err(NotSupported);
      }
      var m, c := mem, cfg;
      var net := new RemoteLoad.Network<Word>(n => LoadWord(m, n), true);
      var words := new Word[sz / 4];
      var of := (i: nat) => Advance(npa, 4 * i);
      AcceptsAll(cfg, npa);
      var err := RemoteLoad.ReadMemInternal(net, of, n => Accepts(c, n), loadCap, words);
      if err.Err? {
        return Err(err.error);
      }
      if sz > 0 { assert Accepts(c, of(0)); }
      if sz <= 4 * WORD32 { BytesLoaded(words[..], m, npa); }
      return Ok(Bytes(words[..]));
    }

    /** `hb_mc_manycore_eva_write`: writes chunk by chunk. It succeeds exactly on ranges of whole aligned words that
    are mapped; then the range holds `data` and nothing else changed. On failure nothing outside the range changed. The
    EVA wraps after the last one. */
    method EvaWrite(ghost pod: Coord, origin: Coord, src: Coord, eva: nat, data: seq<Byte>) returns (r: Result<()>)
      requires GoodConfig(cfg) && PodExists(cfg, pod) && BelongsTo(cfg, pod, src)
      requires IsEva(eva)
      modifies this
      ensures r.Ok? <==> Transferable(cfg, origin, src, eva, |data|)
      ensures r.Ok? ==> LastWritten(cfg, origin, src, old(mem), mem, eva, data)
      ensures r.Ok? && Apart(cfg, pod, src, eva, |data|) ==> RangeWritten(cfg, origin, src, old(mem), mem, eva, data)
      ensures OutsideKept(cfg, origin, src, old(mem), mem, eva, |data|)
    {
      hide EvaToNpa, ByteNpa, GoodConfig, BelongsTo, Transferable, RangeWritten, LastWritten, OutsideKept, Accepts, Wrap, Apart;
      var pos, cur := 0, eva;
      WrapWords(eva);
      EmptyTransfer(cfg, origin, src, mem, eva);
      while pos < |data|
        invariant 0 <= pos <= |data| && cur == Wrap(eva + pos)
        invariant Transferable(cfg, origin, src, eva, pos)
        invariant LastWritten(cfg, origin, src, old(mem), mem, eva, data[..pos])
        decreases |data| - pos
      {
        KeptPrefix(cfg, origin, src, old(mem), mem, eva, data, pos);
        WrapWords(eva + pos);
        if Transferable(cfg, origin, src, eva, |data|) {
          ChunkAccepted(cfg, pod, origin, src, eva, |data|, pos);
        }
        var seg := EvaToNpa(cfg, origin, src, cur);
        if seg.Err? {
          return Err(seg.error);
        }
        var len := Min(|data| - pos, seg.value.sz);
        ghost var before := mem;
        r := WriteMem(seg.value.npa, data[pos..pos + len]);
        if r.Err? {
          return;
        }
        SegmentWords(cfg, pod, origin, src, cur);
        ChunkExtends(cfg, pod, origin, src, eva, pos, len);
        ChunkWritten(cfg, pod, origin, src, old(mem), before, mem, eva, data, pos, len);
        WrapSum(eva + pos, len);
        pos := pos + len;
        cur := Wrap(cur + len);
      }
      assert data[..pos] == data;
      KeptPrefix(cfg, origin, src, old(mem), mem, eva, data, pos);
      if Apart(cfg, pod, src, eva, |data|) { LastIsOnly(cfg, pod, origin, src, old(mem), mem, eva, data); }
      return Ok(());
    }

    /** `hb_mc_manycore_eva_memset` */
    method EvaMemset(ghost pod: Coord, origin: Coord, src: Coord, eva: nat, val: Byte, sz: nat) returns (r: Result<()>)
      requires GoodConfig(cfg) && PodExists(cfg, pod) && BelongsTo(cfg, pod, src)
      requires IsEva(eva)
      modifies this
      ensures r.Ok? <==> Transferable(cfg, origin, src, eva, sz)
      ensures r.Ok? ==> LastWritten(cfg, origin, src, old(mem), mem, eva, seq(sz, _ => val))
      ensures r.Ok? && Apart(cfg, pod, src, eva, sz) ==> RangeWritten(cfg, origin, src, old(mem), mem, eva, seq(sz, _ => val))
      ensures OutsideKept(cfg, origin, src, old(mem), mem, eva, sz)
    {
      hide EvaToNpa, ByteNpa, GoodConfig, BelongsTo, Transferable, RangeWritten, LastWritten, OutsideKept, Accepts, Wrap, Apart;
      ghost var data: seq<Byte> := seq(sz, _ => val);
      var rem, cur := sz, eva;
      WrapWords(eva);
      EmptyTransfer(cfg, origin, src, mem, eva);
      while rem > 0
        invariant 0 <= rem <= sz && cur == Wrap(eva + (sz - rem))
        invariant Transferable(cfg, origin, src, eva, sz - rem)
        invariant LastWritten(cfg, origin, src, old(mem), mem, eva, data[..sz - rem])
        decreases rem
      {
        ghost var pos := sz - rem;
        KeptPrefix(cfg, origin, src, old(mem), mem, eva, data, pos);
        WrapWords(eva + pos);
        if Transferable(cfg, origin, src, eva, sz) {
          ChunkAccepted(cfg, pod, origin, src, eva, sz, pos);
        }
        var seg := EvaToNpa(cfg, origin, src, cur);
        if seg.Err? {
          return Err(seg.error);
        }
        var len := Min(rem, seg.value.sz);
        ghost var before := mem;
        r := MemSet(seg.value.npa, val, len);
        if r.Err? {
          return;
        }
        SegmentWords(cfg, pod, origin, src, cur);
        ChunkExtends(cfg, pod, origin, src, eva, pos, len);
        assert seq(len, _ => val) == data[pos..pos + len];
        ChunkWritten(cfg, pod, origin, src, old(mem), before, mem, eva, data, pos, len);
        WrapSum(eva + pos, len);
        rem := rem - len;
        cur := Wrap(cur + len);
      }
      assert data[..sz] == data;
      KeptPrefix(cfg, origin, src, old(mem), mem, eva, data, sz);
      if Apart(cfg, pod, src, eva, sz) { LastIsOnly(cfg, pod, origin, src, old(mem), mem, eva, data); }
      return Ok(());
    }

    /** `hb_mc_manycore_eva_read` */
    method EvaRead(ghost pod: Coord, origin: Coord, src: Coord, eva: nat, sz: nat) returns (r: Result<seq<Byte>>)
      requires loadCap >= 1
      requires GoodConfig(cfg) && PodExists(cfg, pod) && BelongsTo(cfg, pod, src)
      requires IsEva(eva)
      ensures r.Ok? <==> Transferable(cfg, origin, src, eva, sz)
      ensures r.Ok? ==> |r.value| == sz && RangeHolds(cfg, origin, src, mem, eva, r.value)
    {
      hide EvaToNpa, ByteNpa, GoodConfig, BelongsTo, Transferable, RangeHolds, Accepts, RangeWritten, LastWritten, Wrap;
      var data: seq<Byte>, cur := [], eva;
      WrapWords(eva);
      EmptyTransfer(cfg, origin, src, mem, eva);
      while |data| < sz
        invariant |data| <= sz && cur == Wrap(eva + |data|)
        invariant Transferable(cfg, origin, src, eva, |data|)
        invariant RangeHolds(cfg, origin, src, mem, eva, data)
        decreases sz - |data|
      {
        WrapWords(eva + |data|);
        if Transferable(cfg, origin, src, eva, sz) {
          ChunkAccepted(cfg, pod, origin, src, eva, sz, |data|);
        }
        var seg := EvaToNpa(cfg, origin, src, cur);
        if seg.Err? {
          return Err(seg.error);
        }
        var len := Min(sz - |data|, seg.value.sz);
        var chunk := ReadMem(seg.value.npa, len);
        if chunk.Err? {
          return Err(chunk.error);
        }
        SegmentWords(cfg, pod, origin, src, cur);
        ChunkExtends(cfg, pod, origin, src, eva, |data|, len);
        SegmentByteRange(cfg, pod, origin, src, eva + |data|);
        ChunkRead(cfg, pod, origin, src, mem, eva, data, chunk.value);
        WrapSum(eva + |data|, len);
        data := data + chunk.value;
        cur := Wrap(cur + len);
      }
      return Ok(data);
    }
  }

  // -------------------- refinement of a flat byte memory --------------------

  /** Reading back a written range returns what was written. */
  lemma {:induction false} WriteThenRead(cfg: Config, origin: Coord, src: Coord, before: Memory, after: Memory,
                                         eva: nat, data: seq<Byte>, back: seq<Byte>)
    requires RangeWritten(cfg, origin, src, before, after, eva, data)
    requires |back| == |data| && RangeHolds(cfg, origin, src, after, eva, back)
    ensures back == data
  {
    forall k | 0 <= k < |data|
      ensures back[k] == data[k]
    {
      assert ByteNpa(cfg, origin, src, eva + k).Some?;
    }
  }

  /** What any EVA `e` reads after a write: a byte of `data` if `e` shares its physical byte with the range, and what
  it read before otherwise. */
  lemma {:induction false} ViewAfterWrite(cfg: Config, origin: Coord, src: Coord, before: Memory, after: Memory,
                                          eva: nat, data: seq<Byte>, e: nat)
    requires RangeWritten(cfg, origin, src, before, after, eva, data)
    requires ByteNpa(cfg, origin, src, e).Some?
    ensures var n := ByteNpa(cfg, origin, src, e).value;
            if exists a :: eva <= a < eva + |data| && ByteNpa(cfg, origin, src, a) == Some(n)
            then exists a :: eva <= a < eva + |data| && ByteNpa(cfg, origin, src, a) == Some(n) && after(n) == data[a - eva]
            else after(n) == before(n)
  {
    hide ByteNpa;
    var n := ByteNpa(cfg, origin, src, e).value;
    if a :| eva <= a < eva + |data| && ByteNpa(cfg, origin, src, a) == Some(n) {
      assert after(n) == data[a - eva];
    }
  }

  /** A write to a DRAM range leaves every DRAM EVA outside the range unchanged. */
  lemma {:induction false} OtherDramKept(cfg: Config, pod: Coord, origin: Coord, src: Coord, before: Memory, after: Memory,
                                         eva: nat, data: seq<Byte>, e: nat)
    requires GoodConfig(cfg) && PodExists(cfg, pod) && BelongsTo(cfg, pod, src)
    requires eva + |data| <= WORD32 && DRAM_BASE <= eva
    requires RangeWritten(cfg, origin, src, before, after, eva, data)
    requires DRAM_BASE <= e < WORD32 && !(eva <= e < eva + |data|) && ByteNpa(cfg, origin, src, e).Some?
    ensures after(ByteNpa(cfg, origin, src, e).value) == before(ByteNpa(cfg, origin, src, e).value)
  {
    hide ByteNpa, GoodPods, GoodFields, BelongsTo;
    forall a | eva <= a < eva + |data|
      ensures ByteNpa(cfg, origin, src, a) != ByteNpa(cfg, origin, src, e)
    {
      DramBytesDistinct(cfg, pod, origin, src, a, e);
    }
  }

  /** Outside DRAM a byte has several EVAs of one source: each byte of a tile's own memory is also reached by a global
  EVA, so a write to a local range does change other EVAs. */
  lemma {:induction false} LocalByteIsGlobalByte(cfg: Config, origin: Coord, src: Coord, off: nat)
    requires src.x < 128 && src.y < 128 && off < DMEM_SIZE
    ensures ByteNpa(cfg, origin, src, GLOBAL_BASE + src.y * 0x80_0000 + src.x * 0x1_0000 + off)
            == ByteNpa(cfg, origin, src, off) == Some(Npa(src.x, src.y, off))
  {
    hide ByteNpa;
    var e := 0x4_0000 + src.y * 0x800 + src.x * 16;
    ByteOfTile(cfg, origin, src, 0, off);
    ByteOfTile(cfg, origin, src, e, off);
    assert (e / 16) % 128 == src.x;
    assert (e / 0x800) % 128 == src.y;
    assert e % 16 == 0;
    assert e / 0x4_0000 == 1;
  }

  // A byte lies in the tile memory that the EVA of its word names.
  lemma {:induction false} ByteBehind(cfg: Config, origin: Coord, src: Coord, base: nat, off: nat, x: nat, y: nat)
    requires base % 4 == 0 && off < 4096 && base + 4096 <= WORD32
    requires EvaToNpa(cfg, origin, src, base + (off - off % 4)) == Ok(Segment(Npa(x, y, off - off % 4), 4096 - (off - off % 4)))
    ensures ByteNpa(cfg, origin, src, base + off) == Some(Npa(x, y, off))
  {
    hide EvaToNpa, ByteNpa;
    var w := off - off % 4;
    assert base + off == base + w + off % 4;
    ByteInWord(cfg, origin, src, base + w, off % 4, Segment(Npa(x, y, w), 4096 - w));
  }

  /** A global EVA reaches the data memory of the tile whose row and column it holds, from every tile. */
  lemma {:induction false} GlobalByte(cfg: Config, origin: Coord, src: Coord, x: nat, y: nat, off: nat)
    requires x < 128 && y < 128 && off < 4096
    ensures ByteNpa(cfg, origin, src, 0x4000_0000 + y * 0x80_0000 + x * 0x1_0000 + off) == Some(Npa(x, y, off))
  {
    hide EvaToNpa, ByteNpa;
    GlobalNames(cfg, origin, src, x, y, off - off % 4);
    ByteBehind(cfg, origin, src, 0x4000_0000 + y * 0x80_0000 + x * 0x1_0000, off, x, y);
  }

  /** A group EVA reaches the data memory of the tile `(dx, dy)` of the group, from every tile, unless that tile lies
  behind the first pod's cores. */
  lemma {:induction false} GroupByte(cfg: Config, origin: Coord, src: Coord, dx: nat, dy: nat, off: nat)
    requires dx < 64 && dy < 32 && off < 4096
    ensures var x, y := (origin.x + dx) % 0x1_0000_0000, (origin.y + dy) % 0x1_0000_0000;
            ByteNpa(cfg, origin, src, 0x2000_0000 + dy * 0x100_0000 + dx * 0x4_0000 + off)
            == if x > cfg.podShape.x + 16 || y > cfg.podShape.y + 8 then None else Some(Npa(x, y, off))
  {
    hide EvaToNpa, ByteNpa;
    var x, y := (origin.x + dx) % 0x1_0000_0000, (origin.y + dy) % 0x1_0000_0000;
    var base, w := 0x2000_0000 + dy * 0x100_0000 + dx * 0x4_0000, off - off % 4;
    GroupNames(cfg, origin, src, dx, dy, w);
    if x > cfg.podShape.x + 16 || y > cfg.podShape.y + 8 {
      NoByte(cfg, origin, src, base, off);
    } else {
      ByteBehind(cfg, origin, src, base, off, x, y);
    }
  }

  lemma {:induction false} NoByte(cfg: Config, origin: Coord, src: Coord, base: nat, off: nat)
    requires base % 4 == 0 && off < 4096 && base + 4096 <= WORD32
    requires EvaToNpa(cfg, origin, src, base + (off - off % 4)).Err?
    ensures ByteNpa(cfg, origin, src, base + off) == None
  {
    hide EvaToNpa;
    WordFacts(base, off);
    WrapWords(base + off);
  }

  /** On the shipped machine: EVA 0x2004_0000 is byte 0 of the second tile of the first row of a group at (16, 8). */
  lemma {:induction false} SecondTileOfGroup(memsys: Memsys, src: Coord)
    ensures ByteNpa(BigBlade(memsys), Coord(16, 8), src, 0x2004_0000) == Some(Npa(17, 8, 0))
  {
    hide ByteNpa;
    GroupByte(BigBlade(memsys), Coord(16, 8), src, 1, 0, 0);
  }
}
