/** Translation between endpoint virtual addresses (EVA) and network physical addresses (NPA).

libraries/bsg_manycore_eva.cpp. An EVA is a 32-bit byte address seen by one tile; an NPA names an endpoint of the
network and a byte address (EPA) inside it.
*/
module Eva {
  import opened Bits
  import opened Geometry
  import opened Wrappers

  datatype Npa = Npa(x: nat, y: nat, epa: nat)

  // A physical address and the number of contiguous bytes from it on
  datatype Segment = Segment(npa: Npa, sz: nat)

  function Xy(npa: Npa): Coord { Coord(npa.x, npa.y) }
  function Advance(npa: Npa, k: nat): Npa { npa.(epa := npa.epa + k) }

  const LOCAL_SIZE: nat := 0x4_0000      // 18 bits: a tile address in local and group EVAs
  const GLOBAL_SIZE: nat := 0x1_0000     // 16 bits: a tile address in global EVAs
  const GROUP_BASE: nat := 0x2000_0000   // bit 29
  const GLOBAL_BASE: nat := 0x4000_0000  // bit 30
  const DRAM_BASE: nat := 0x8000_0000    // bit 31
  const DMEM_SIZE: nat := 4096
  const CSR_FREEZE: nat := 0x2_0000
  const CSR_ORIGIN_X: nat := 0x2_0004
  const CSR_ORIGIN_Y: nat := 0x2_0008

  predicate IsCsr(epa: nat) { epa == CSR_FREEZE || epa == CSR_ORIGIN_X || epa == CSR_ORIGIN_Y }

  predicate IsEva(eva: nat) { eva < WORD32 }
  predicate IsDramEva(eva: nat) { (eva / DRAM_BASE) % 2 == 1 }
  predicate IsGlobalEva(eva: nat) { (eva / GLOBAL_BASE) % 2 == 1 }
  predicate IsGroupEva(eva: nat) { (eva / GROUP_BASE) % 2 == 1 }
  predicate IsLocalEva(eva: nat) { eva / LOCAL_SIZE == 0 }

  // -------------------- EVA to NPA --------------------

  // `size` is one more than the EPA mask.
  function EvaToEpaTile(eva: nat, size: nat): Result<(nat, nat)>
    requires size > 0
  {
    var masked := eva % size;
    if masked < DMEM_SIZE then Ok((masked, DMEM_SIZE - masked))
    else if IsCsr(masked) then Ok((masked, 4))
    else Err(Failure)
  }

  function AtTile(x: nat, y: nat, r: Result<(nat, nat)>): Result<Segment> {
    match r
    case Ok((epa, sz)) => Ok(Segment(Npa(x, y, epa), sz))
    case Err(e) => Err(e)
  }

  function EvaToNpaLocal(src: Coord, eva: nat): Result<Segment> {
    AtTile(src.x, src.y, EvaToEpaTile(eva, LOCAL_SIZE))
  }

  function EvaToNpaGroup(cfg: Config, origin: Coord, eva: nat): Result<Segment> {
    var x := Wrap((eva / LOCAL_SIZE) % 64 + origin.x);
    var y := Wrap((eva / 0x100_0000) % 32 + origin.y);
    if cfg.podShape.x + 16 < x || cfg.podShape.y + 8 < y then Err(Failure)
    else AtTile(x, y, EvaToEpaTile(eva, LOCAL_SIZE))
  }

  function EvaToNpaGlobal(eva: nat): Result<Segment> {
    AtTile((eva / GLOBAL_SIZE) % 128, (eva / 0x80_0000) % 128, EvaToEpaTile(eva, GLOBAL_SIZE))
  }

  function DramMinX(cfg: Config, tgt: Coord): nat { VcoreOrigin(cfg, Pod(cfg, tgt)).x }
  function DramMaxX(cfg: Config, tgt: Coord): nat { Sub32(DramMinX(cfg, tgt) + cfg.podShape.x, 1) }

  function EvaToNpaDram(cfg: Config, src: Coord, eva: nat): Result<Segment> {
    var s, xl := StripeLog(cfg), XLog(cfg);
    var pod := Pod(cfg, src);
    var x := Wrap(Low(Shr(eva, s), xl) + VcoreOrigin(cfg, pod).x);
    if x > DramMaxX(cfg, src) || x < DramMinX(cfg, src) then Err(InvalidAddress)
    else
      var y := if Shr(eva, s + xl) % 2 == 1 then SouthY(cfg, pod) else NorthY(cfg, pod);
      var epa := Or(Low(eva, s), Shl(Shr(eva % DRAM_BASE, s + xl + 1), s));
      if epa >= Pow2(DramBits(cfg)) then Err(InvalidAddress)
      else Ok(Segment(Npa(x, y, epa), Pow2(s) - Low(eva, s)))
  }

  function EvaToNpa(cfg: Config, origin: Coord, src: Coord, eva: nat): Result<Segment> {
    if IsDramEva(eva) then EvaToNpaDram(cfg, src, eva)
    else if IsGlobalEva(eva) then EvaToNpaGlobal(eva)
    else if IsGroupEva(eva) then EvaToNpaGroup(cfg, origin, eva)
    else if IsLocalEva(eva) then EvaToNpaLocal(src, eva)
    else Err(Failure)
  }

  // -------------------- NPA to EVA --------------------

  predicate DramEpaIsValid(cfg: Config, epa: nat) {
    epa < if cfg.dramEnabled then DramSize(cfg) else VcacheSize(cfg)
  }

  predicate LocalEpaIsValid(epa: nat) { epa < DMEM_SIZE }

  predicate NpaIsDram(cfg: Config, npa: Npa, tgt: Coord) {
    var og := VcoreOrigin(cfg, Pod(cfg, tgt));
    IsDram(cfg, Xy(npa)) && DramEpaIsValid(cfg, npa.epa) && DramMinX(cfg, og) <= npa.x <= DramMaxX(cfg, og)
  }

  function NpaToEvaDram(cfg: Config, tgt: Coord, npa: Npa): nat {
    var s, xl := StripeLog(cfg), XLog(cfg);
    var og := VcoreOrigin(cfg, Pod(cfg, tgt));
    var south := if IsDramSouth(cfg, Xy(npa)) then 1 else 0;
    var a := Low(npa.epa, s);
    var a := Or(a, Shl32(Sub32(npa.x, DramMinX(cfg, og)), s));
    var a := Or(a, Shl32(south, s + xl));
    var a := Or(a, Shl32(Shr(npa.epa, s), s + xl + 1));
    Or(a, DRAM_BASE)
  }

  // Host, local and global NPAs all become global EVAs.
  function NpaToEvaGlobalRemote(npa: Npa): nat {
    Or(Or(Or(npa.epa, Shl32(npa.x, 16)), Shl32(npa.y, 23)), GLOBAL_BASE)
  }

  function NpaToEva(cfg: Config, tgt: Coord, npa: Npa): Result<nat> {
    if NpaIsDram(cfg, npa, tgt) then Ok(NpaToEvaDram(cfg, tgt, npa))
    else if IsHost(cfg, Xy(npa)) then Ok(NpaToEvaGlobalRemote(npa))
    else if Xy(npa) == tgt && LocalEpaIsValid(npa.epa) then Ok(NpaToEvaGlobalRemote(npa))
    else if IsVanillaCore(cfg, Xy(npa)) && LocalEpaIsValid(npa.epa) then Ok(NpaToEvaGlobalRemote(npa))
    else Err(Failure)
  }

  // -------------------- the fields of a DRAM EVA --------------------

  datatype Fields = Fields(top: nat, south: nat, col: nat, off: nat)

  // Bits of `top` in an EVA
  function TopBits(cfg: Config): nat
    requires GoodFields(cfg)
  {
    31 - (StripeLog(cfg) + XLog(cfg) + 1)
  }

  predicate FieldsFit(cfg: Config, f: Fields)
    requires GoodFields(cfg)
  {
    f.top < Pow2(TopBits(cfg)) && f.south < 2 && f.col < Pow2(XLog(cfg)) && f.off < Pow2(StripeLog(cfg))
  }

  function Compose(s: nat, xl: nat, f: Fields): nat {
    DRAM_BASE + Shl(Shl(2 * f.top + f.south, xl) + f.col, s) + f.off
  }

  function Decompose(s: nat, xl: nat, eva: nat): Fields {
    Fields(Shr(eva % DRAM_BASE, s + xl + 1), Shr(eva, s + xl) % 2, Low(Shr(eva, s), xl), Low(eva, s))
  }

  // The DRAM bit lies above the other fields.
  lemma {:induction false} ClearDramBit(s: nat, xl: nat, r: nat)
    requires s + xl + 1 <= 31 && r < DRAM_BASE
    ensures Low(r + DRAM_BASE, s) == Low(r, s)
    ensures Low(Shr(r + DRAM_BASE, s), xl) == Low(Shr(r, s), xl)
    ensures Shr(r + DRAM_BASE, s + xl) % 2 == Shr(r, s + xl) % 2
  {
    hide Low, Shr, Shl, Pow2;
    var b := 31 - s - xl;
    Pow2Double(b - 1);
    Pow2Add(b, s + xl);
    ShlAdd(Pow2(b), xl, s);
    Pow2Values();
    LowPlusMultiple(r, Pow2(b), s + xl);
    LowPlusMultiple(r, Shl(Pow2(b), xl), s);
    LowPlusMultiple(Shr(r, s), Pow2(b), xl);
  }

  lemma {:induction false} ComposeDecompose(s: nat, xl: nat, eva: nat)
    requires s + xl + 1 <= 31 && DRAM_BASE <= eva < WORD32
    ensures var f := Decompose(s, xl, eva);
            Compose(s, xl, f) == eva && f.top < Pow2(31 - (s + xl + 1))
  {
    hide Low, Shr, Shl, Pow2;
    var r := eva % DRAM_BASE;
    assert eva == r + DRAM_BASE;
    ClearDramBit(s, xl, r);
    Split(r, s);
    Split(Shr(r, s), xl);
    ShrAdd(r, s, xl);
    HalfOfShr(r, s + xl);
    Pow2Values();
    ShrBound(r, 31 - (s + xl + 1), s + xl + 1);
  }

  lemma {:induction false} HalfOfShr(r: nat, n: nat)
    ensures Shr(r, n) == 2 * Shr(r, n + 1) + Shr(r, n) % 2
  {
    ShrAdd(r, n, 1);
    assert Shr(Shr(r, n), 1) == Shr(r, n) / 2;
  }

  lemma {:induction false} DecomposeCompose(s: nat, xl: nat, f: Fields)
    requires s + xl + 1 <= 31
    requires f.top < Pow2(31 - (s + xl + 1)) && f.south < 2 && f.col < Pow2(xl) && f.off < Pow2(s)
    ensures var eva := Compose(s, xl, f);
            DRAM_BASE <= eva < WORD32 && Decompose(s, xl, eva) == f
  {
    hide Low, Shr, Shl, Pow2;
    var q2 := 2 * f.top + f.south;
    var q := Shl(q2, xl) + f.col;
    var r := Shl(q, s) + f.off;
    Join(q, s, f.off);
    Join(q2, xl, f.col);
    ShrAdd(r, s, xl);
    HalfOfShr(r, s + xl);
    var t := 31 - (s + xl + 1);
    Pow2Double(t);
    ShrBound(r, t + 1, s + xl);
    Pow2Values();
    ClearDramBit(s, xl, r);
  }

  // What the stored bits mean: `EvaToNpaDram` in terms of the fields, for a source in pod `pod`
  lemma {:induction false} DramTranslation(cfg: Config, pod: Coord, src: Coord, eva: nat)
    requires GoodConfig(cfg) && PodExists(cfg, pod) && BelongsTo(cfg, pod, src)
    requires IsEva(eva) && IsDramEva(eva)
    ensures var f := Decompose(StripeLog(cfg), XLog(cfg), eva);
            && FieldsFit(cfg, f) && eva == Compose(StripeLog(cfg), XLog(cfg), f)
            && EvaToNpaDram(cfg, src, eva) ==
                 (if f.col < cfg.podShape.x && DramEpa(cfg, f) < Pow2(DramBits(cfg))
                  then Ok(Segment(DramNpa(cfg, pod, f), Pow2(StripeLog(cfg)) - f.off))
                  else Err(InvalidAddress))
  {
    hide Low, Shr, Shl, Pow2, Or, CLog2, GoodPods, Pod, VcoreOrigin, BelongsTo, NorthY, SouthY, Compose, Wrap,
         DramMinX, DramMaxX, DramBits;
    var s, xl := StripeLog(cfg), XLog(cfg);
    var f := Decompose(s, xl, eva);
    ComposeDecompose(s, xl, eva);
    OrDisjoint(f.top, s, f.off);
    DramColumn(cfg, pod, src, f.col);
  }

  // The column field is checked against the columns of the source's pod.
  lemma {:induction false} DramColumn(cfg: Config, pod: Coord, src: Coord, col: nat)
    requires GoodPods(cfg) && PodExists(cfg, pod) && BelongsTo(cfg, pod, src)
    requires XLog(cfg) <= 31 && col < Pow2(XLog(cfg))
    ensures Pod(cfg, src) == pod
    ensures var x := Wrap(col + VcoreOrigin(cfg, pod).x);
            && (DramMinX(cfg, src) <= x <= DramMaxX(cfg, src) <==> col < cfg.podShape.x)
            && (col < cfg.podShape.x ==> x == VcoreOrigin(cfg, pod).x + col)
  {
    hide Shl, Pow2, CLog2, GoodPods, Pod, VcoreOrigin, BelongsTo, NorthY, SouthY, IsVanillaCore, IsDram, IsCoreOf, IsBankOf,
         IsDramNorth, IsDramSouth, TileInPod, Corner, SouthRow;
    PodOfMember(cfg, pod, src);
    OriginValue(cfg, pod);
    TileWidthValue(cfg);
    ShapeBound(cfg);
    Pow2Monotone(XLog(cfg), 31);
    Pow2Values();
  }

  lemma {:induction false} ShapeBound(cfg: Config)
    requires GoodPods(cfg)
    ensures 1 <= cfg.podShape.x <= Pow2(TileWidth(cfg).x) && cfg.podShape.x <= Pow2(XLog(cfg))
  {
  }

  function DramEpa(cfg: Config, f: Fields): nat { Shl(f.top, StripeLog(cfg)) + f.off }

  function DramNpa(cfg: Config, pod: Coord, f: Fields): Npa {
    Npa(VcoreOrigin(cfg, pod).x + f.col,
        if f.south == 1 then SouthY(cfg, pod) else NorthY(cfg, pod),
        DramEpa(cfg, f))
  }

  // `NpaToEvaDram` in terms of the fields: the top field keeps only the bits that fit below the DRAM bit.
  lemma {:induction false} DramTranslationBack(cfg: Config, pod: Coord, tgt: Coord, npa: Npa)
    requires GoodConfig(cfg) && PodExists(cfg, pod) && BelongsTo(cfg, pod, tgt)
    requires NpaIsDram(cfg, npa, tgt)
    ensures DramMinX(cfg, tgt) == VcoreOrigin(cfg, pod).x
    ensures VcoreOrigin(cfg, pod).x <= npa.x < VcoreOrigin(cfg, pod).x + cfg.podShape.x
    ensures var s, t := StripeLog(cfg), TopBits(cfg);
            var f := Fields(Low(Shr(npa.epa, s), t),
                            if IsDramSouth(cfg, Xy(npa)) then 1 else 0,
                            npa.x - VcoreOrigin(cfg, pod).x,
                            Low(npa.epa, s));
            FieldsFit(cfg, f) && NpaToEvaDram(cfg, tgt, npa) == Compose(s, XLog(cfg), f)
  {
    hide Low, Shr, Shl, Pow2, Or, CLog2, GoodPods, Pod, VcoreOrigin, IsDram, IsDramSouth, IsVanillaCore, IsCoreOf, IsBankOf,
         DramEpaIsValid, Compose;
    var s, xl := StripeLog(cfg), XLog(cfg);
    var og := VcoreOrigin(cfg, pod);
    PodOfMember(cfg, pod, tgt);
    OriginValue(cfg, pod);
    TileWidthValue(cfg);
    ShapeBound(cfg);
    OriginIsCore(cfg, pod);
    PodOfMember(cfg, pod, og);
    var south := if IsDramSouth(cfg, Xy(npa)) then 1 else 0;
    OrFields(s, xl, Low(npa.epa, s), npa.x - og.x, south, Shr(npa.epa, s));
  }

  lemma {:induction false} OriginIsCore(cfg: Config, pod: Coord)
    requires GoodPods(cfg) && PodExists(cfg, pod)
    ensures IsCoreOf(cfg, pod, VcoreOrigin(cfg, pod))
  {
    OriginValue(cfg, pod);
    ShapeBound(cfg);
    TileWidthValue(cfg);
    hide VcoreOrigin, Corner;
  }

  // The chain of `|=` that assembles a DRAM EVA
  lemma {:induction false} OrFields(s: nat, xl: nat, off: nat, col: nat, south: nat, top: nat)
    requires s + xl + 1 <= 31
    requires off < Pow2(s) && col < Pow2(xl) && south < 2
    ensures var f := Fields(Low(top, 31 - (s + xl + 1)), south, col, off);
            Or(Or(Or(Or(off, Shl32(col, s)), Shl32(south, s + xl)), Shl32(top, s + xl + 1)), DRAM_BASE)
            == Compose(s, xl, f)
  {
    hide Low, Shr, Shl, Shl32, Pow2, Or, Compose;
    var n := s + xl + 1;
    Pow2Monotone(s + xl, 31);
    Pow2Monotone(n, 31);
    Pow2Values();
    assert south < Pow2(1) by { SmallPow2(); }
    OrField(col, xl, s, off);
    OrField(south, 1, s + xl, Shl(col, s) + off);
    var low2 := Shl(south, s + xl) + (Shl(col, s) + off);
    OrTopField(top, n, low2);
    HornerForm(s, xl, Low(top, 31 - n), south, col, off);
  }

  // A field above lower bits
  lemma {:induction false} OrField(a: nat, w: nat, n: nat, low: nat)
    requires a < Pow2(w) && low < Pow2(n) && Pow2(w + n) < WORD32
    ensures Or(low, Shl32(a, n)) == Shl(a, n) + low < Pow2(w + n)
  {
    hide Shl, Pow2, Or;
    ShlBound(a, w, n);
    OrDisjoint(a, n, low);
    Join(a, n, low);
    FieldBound(a, w, n, low);
  }

  lemma {:induction false} FieldBound(a: nat, w: nat, n: nat, low: nat)
    requires a < Pow2(w) && low < Pow2(n)
    ensures Shl(a, n) + low < Pow2(w + n)
  {
    if n == 0 {
    } else {
      FieldBound(a, w, n - 1, low / 2);
      Pow2Double(n - 1);
      Pow2Double(w + n - 1);
    }
  }

  // The top field loses the bits from bit 31 on, where the DRAM bit is set.
  lemma {:induction false} OrTopField(top: nat, n: nat, low: nat)
    requires n <= 31 && low < Pow2(n)
    ensures Or(Or(low, Shl32(top, n)), DRAM_BASE) == DRAM_BASE + Shl(Low(top, 31 - n), n) + low
  {
    hide Low, Shr, Shl, Pow2, Or;
    var t := Low(top, 32 - n);
    Pow2Values();
    LowShl(top, 32 - n, n);
    WrapIsLow(Shl(top, n));
    OrDisjoint(t, n, low);
    FieldBound(t, 32 - n, n, low);
    OrBit(Shl(t, n) + low, 31);
    LowOfTop(top, n, low);
  }

  lemma {:induction false} HornerForm(s: nat, xl: nat, top: nat, south: nat, col: nat, off: nat)
    ensures DRAM_BASE + Shl(top, s + xl + 1) + (Shl(south, s + xl) + (Shl(col, s) + off))
            == Compose(s, xl, Fields(top, south, col, off))
  {
    hide Shl;
    ShlPlus(Shl(2 * top + south, xl), col, s);
    ShlAdd(2 * top + south, xl, s);
    ShlPlus(2 * top, south, s + xl);
    ShlOfDouble(top, s + xl);
  }

  lemma {:induction false} ShlOfDouble(a: nat, n: nat)
    ensures Shl(2 * a, n) == Shl(a, n + 1)
  {
    ShlAdd(a, 1, n);
    assert Shl(a, 1) == 2 * a;
  }

  lemma {:induction false} LowOfTop(top: nat, n: nat, low: nat)
    requires n <= 31 && low < Pow2(n)
    ensures Low(Shl(Low(top, 32 - n), n) + low, 31) == Shl(Low(top, 31 - n), n) + low
  {
    hide Low, Shr, Shl, Pow2;
    var t := Low(top, 32 - n);
    Join(t, n, low);
    LowSplit(Shl(t, n) + low, 31 - n, n);
    LowOfLow(top, 31 - n, 32 - n);
  }

  lemma {:induction false} HalfOfLow(a: nat, n: nat)
    requires n > 0
    ensures Low(a, n) / 2 == Low(a / 2, n - 1) && Low(a, n) % 2 == a % 2
  {
  }

  lemma {:induction false} LowOfLow(a: nat, m: nat, n: nat)
    requires m <= n
    ensures Low(Low(a, n), m) == Low(a, m)
  {
    if m == 0 {
    } else {
      hide Pow2, Low;
      LowOfLow(a / 2, m - 1, n - 1);
      HalfOfLow(a, n);
      LowUnfold(Low(a, n), m);
      LowUnfold(a, m);
    }
  }

  // -------------------- the translations are inverse to each other --------------------

  // Every bank of the pod whose EPA fits has a DRAM EVA, and the only one.
  lemma {:induction false} DramNpaInjective(cfg: Config, pod: Coord, f: Fields, g: Fields)
    requires GoodConfig(cfg) && PodExists(cfg, pod)
    requires FieldsFit(cfg, f) && FieldsFit(cfg, g)
    requires DramNpa(cfg, pod, f) == DramNpa(cfg, pod, g)
    ensures f == g
  {
    hide Low, Shr, Shl, Pow2, CLog2;
    OriginValue(cfg, pod);
    Join(f.top, StripeLog(cfg), f.off);
    Join(g.top, StripeLog(cfg), g.off);
    TileWidthValue(cfg);
    ShapeBound(cfg);
  }

  /** Two DRAM EVAs of sources in one pod that reach the same NPA are equal. */
  lemma {:induction false} DramEvaInjective(cfg: Config, pod: Coord, src1: Coord, src2: Coord, e1: nat, e2: nat)
    requires GoodConfig(cfg) && PodExists(cfg, pod)
    requires BelongsTo(cfg, pod, src1) && BelongsTo(cfg, pod, src2)
    requires IsEva(e1) && IsEva(e2) && IsDramEva(e1) && IsDramEva(e2)
    requires EvaToNpaDram(cfg, src1, e1).Ok? && EvaToNpaDram(cfg, src2, e2).Ok?
    requires EvaToNpaDram(cfg, src1, e1).value.npa == EvaToNpaDram(cfg, src2, e2).value.npa
    ensures e1 == e2
  {
    hide GoodPods, EvaToNpaDram;
    DramTranslation(cfg, pod, src1, e1);
    DramTranslation(cfg, pod, src2, e2);
    var s, xl := StripeLog(cfg), XLog(cfg);
    DramNpaInjective(cfg, pod, Decompose(s, xl, e1), Decompose(s, xl, e2));
  }

  /** DRAM results depend on the source only through its pod. */
  lemma {:induction false} DramSourceIndependent(cfg: Config, pod: Coord, o1: Coord, o2: Coord, src1: Coord, src2: Coord, eva: nat)
    requires GoodConfig(cfg) && PodExists(cfg, pod)
    requires BelongsTo(cfg, pod, src1) && BelongsTo(cfg, pod, src2)
    requires IsEva(eva) && IsDramEva(eva)
    ensures EvaToNpa(cfg, o1, src1, eva) == EvaToNpa(cfg, o2, src2, eva)
  {
    hide GoodPods, EvaToNpaDram;
    DramTranslation(cfg, pod, src1, eva);
    DramTranslation(cfg, pod, src2, eva);
  }

  /** EVA to NPA to EVA is the identity on exactly those accepted DRAM EVAs whose EPA also passes the size check of
  the way back; the two checks bound the EPA by different sizes. */
  lemma {:induction false} EvaRoundTrip(cfg: Config, pod: Coord, origin: Coord, src: Coord, tgt: Coord, eva: nat)
    requires GoodConfig(cfg) && PodExists(cfg, pod)
    requires BelongsTo(cfg, pod, src) && BelongsTo(cfg, pod, tgt)
    requires IsEva(eva) && IsDramEva(eva) && EvaToNpa(cfg, origin, src, eva).Ok?
    ensures var npa := EvaToNpa(cfg, origin, src, eva).value.npa;
            NpaToEva(cfg, tgt, npa) == Ok(eva) <==> DramEpaIsValid(cfg, npa.epa)
  {
    hide Low, Shr, Shl, Pow2, CLog2, GoodPods, EvaToNpaDram, NpaToEvaDram, DramEpaIsValid, IsDramNorth, IsDramSouth;
    var s, xl := StripeLog(cfg), XLog(cfg);
    var npa := EvaToNpa(cfg, origin, src, eva).value.npa;
    DramTranslation(cfg, pod, src, eva);
    var f := Decompose(s, xl, eva);
    assert npa == DramNpa(cfg, pod, f);
    BankIsDram(cfg, pod, tgt, f);
    if DramEpaIsValid(cfg, npa.epa) {
      DramTranslationBack(cfg, pod, tgt, npa);
      Join(f.top, s, f.off);
      LowSmall(f.top, TopBits(cfg));
    } else {
      Pow2Monotone(DramBits(cfg), 30);
      Pow2Values();
      GlobalIsNotDram(cfg, npa);
    }
  }

  // A bank address of the pod is DRAM for every tile of the pod, up to the check of its EPA.
  lemma {:induction false} BankIsDram(cfg: Config, pod: Coord, tgt: Coord, f: Fields)
    requires GoodConfig(cfg) && PodExists(cfg, pod) && BelongsTo(cfg, pod, tgt)
    requires FieldsFit(cfg, f) && f.col < cfg.podShape.x
    ensures var npa := DramNpa(cfg, pod, f);
            && IsBankOf(cfg, pod, Xy(npa)) && npa.x < 256 && npa.y < 256
            && (IsDramSouth(cfg, Xy(npa)) <==> f.south == 1)
            && (NpaIsDram(cfg, npa, tgt) <==> DramEpaIsValid(cfg, npa.epa))
  {
    hide Low, Shr, Shl, Pow2, CLog2, DramEpaIsValid, Npod, TileInPod, GoodPods;
    var npa := DramNpa(cfg, pod, f);
    OriginValue(cfg, pod);
    TileWidthValue(cfg);
    ShapeBound(cfg);
    OriginIsCore(cfg, pod);
    PodOfMember(cfg, pod, VcoreOrigin(cfg, pod));
    PodOfMember(cfg, pod, tgt);
    PodOfMember(cfg, pod, Xy(npa));
  }

  // What the fall-through branches return is no DRAM EVA.
  lemma {:induction false} GlobalIsNotDram(cfg: Config, npa: Npa)
    requires npa.x < 256 && npa.y < 256 && npa.epa < DRAM_BASE
    ensures NpaToEvaGlobalRemote(npa) < DRAM_BASE
  {
    hide Pow2, Or, Shl, Mul;
    ShlIsMul(npa.x, 16);
    ShlIsMul(npa.y, 23);
    MulIsTimes(npa.x, Pow2(16));
    MulIsTimes(npa.y, Pow2(23));
    Pow2Values();
    OrBound(npa.epa, Shl32(npa.x, 16), 31);
    OrBound(Or(npa.epa, Shl32(npa.x, 16)), Shl32(npa.y, 23), 31);
    OrBound(Or(Or(npa.epa, Shl32(npa.x, 16)), Shl32(npa.y, 23)), GLOBAL_BASE, 31);
  }

  /** NPA to EVA to NPA is the identity on an NPA that the target's DRAM check accepts if and only if the NPA lies on
  a bank row of the target's own pod, its EPA bits above the stripe fit below the DRAM bit, and the EPA is within the
  range that the way back accepts. */
  lemma {:induction false} NpaRoundTrip(cfg: Config, pod: Coord, origin: Coord, src: Coord, tgt: Coord, npa: Npa)
    requires GoodConfig(cfg) && PodExists(cfg, pod)
    requires BelongsTo(cfg, pod, src) && BelongsTo(cfg, pod, tgt)
    requires NpaIsDram(cfg, npa, tgt)
    ensures NpaToEva(cfg, tgt, npa).Ok?
    ensures var back := EvaToNpa(cfg, origin, src, NpaToEva(cfg, tgt, npa).value);
            (back.Ok? && back.value.npa == npa)
            <==>
            && (npa.y == NorthY(cfg, pod) || npa.y == SouthY(cfg, pod))
            && Shr(npa.epa, StripeLog(cfg)) < Pow2(TopBits(cfg))
            && npa.epa < Pow2(DramBits(cfg))
  {
    hide Low, Shr, Shl, Pow2, CLog2, GoodPods, EvaToNpaDram, NpaToEvaDram, NpaIsDram, IsDramNorth, IsDramSouth, VcoreOrigin,
         Corner, SouthRow, NorthY, SouthY, IsCoreOf, IsBankOf;
    var s, xl := StripeLog(cfg), XLog(cfg);
    var og := VcoreOrigin(cfg, pod);
    DramTranslationBack(cfg, pod, tgt, npa);
    var f := Fields(Low(Shr(npa.epa, s), TopBits(cfg)),
                    if IsDramSouth(cfg, Xy(npa)) then 1 else 0, npa.x - og.x, Low(npa.epa, s));
    var eva := NpaToEvaDram(cfg, tgt, npa);
    DecomposeCompose(s, xl, f);
    DramTranslation(cfg, pod, src, eva);
    assert Decompose(s, xl, eva) == f;
    Split(npa.epa, s);
    if Shr(npa.epa, s) < Pow2(TopBits(cfg)) {
      LowSmall(Shr(npa.epa, s), TopBits(cfg));
    }
    if DramEpa(cfg, f) == npa.epa {
      Join(f.top, s, f.off);
    }
    if npa.y == NorthY(cfg, pod) || npa.y == SouthY(cfg, pod) {
      RowIsBank(cfg, pod, Xy(npa));
      PodOfMember(cfg, pod, Xy(npa));
    }
  }

  lemma {:induction false} RowIsBank(cfg: Config, pod: Coord, c: Coord)
    requires GoodPods(cfg) && PodExists(cfg, pod)
    requires VcoreOrigin(cfg, pod).x <= c.x < VcoreOrigin(cfg, pod).x + cfg.podShape.x
    requires c.y == NorthY(cfg, pod) || c.y == SouthY(cfg, pod)
    ensures IsBankOf(cfg, pod, c)
  {
    hide GoodPods, VcoreOrigin, Corner, SouthRow, NorthY, SouthY;
    OriginValue(cfg, pod);
    ShapePositive(cfg);
  }

  // -------------------- which tile the other EVAs name --------------------

  /** A global EVA is bit 30, seven bits of row, seven bits of column and a 16-bit offset, of which only the data
  memory translates: the control registers lie above it. */
  lemma {:induction false} GlobalNames(cfg: Config, origin: Coord, src: Coord, x: nat, y: nat, a: nat)
    requires x < 128 && y < 128 && a < 0x1_0000
    ensures EvaToNpa(cfg, origin, src, 0x4000_0000 + y * 0x80_0000 + x * 0x1_0000 + a)
            == if a < 4096 then Ok(Segment(Npa(x, y, a), 4096 - a)) else Err(Failure)
  {
    hide EvaToNpaDram, EvaToNpaGroup, EvaToNpaLocal;
    var eva := 0x4000_0000 + y * 0x80_0000 + x * 0x1_0000 + a;
    GlobalParts(x, y, a);
    assert IsGlobalEva(eva) && !IsDramEva(eva);
  }

  lemma {:induction false} GlobalParts(x: nat, y: nat, a: nat)
    requires x < 128 && y < 128 && a < 0x1_0000
    ensures var eva := 0x4000_0000 + y * 0x80_0000 + x * 0x1_0000 + a;
            && eva / DRAM_BASE == 0 && eva / GLOBAL_BASE == 1
            && eva % 0x1_0000 == a && (eva / 0x1_0000) % 128 == x && (eva / 0x80_0000) % 128 == y
  {
    var eva := 0x4000_0000 + y * 0x80_0000 + x * 0x1_0000 + a;
    assert eva / 0x80_0000 == 128 + y;
    assert eva / 0x1_0000 == 128 * (128 + y) + x;
  }

  /** A group EVA is bit 29, five bits of row and six bits of column relative to the origin of the group, and an 18-bit
  offset: the data memory or one of three control registers. The sums wrap at 32 bits before they are checked. */
  lemma {:induction false} GroupNames(cfg: Config, origin: Coord, src: Coord, dx: nat, dy: nat, a: nat)
    requires dx < 64 && dy < 32 && a < 0x4_0000
    ensures var x, y := (origin.x + dx) % 0x1_0000_0000, (origin.y + dy) % 0x1_0000_0000;
            EvaToNpa(cfg, origin, src, 0x2000_0000 + dy * 0x100_0000 + dx * 0x4_0000 + a)
            == if x > cfg.podShape.x + 16 || y > cfg.podShape.y + 8 then Err(Failure)
               else if a < 4096 then Ok(Segment(Npa(x, y, a), 4096 - a))
               else if a == 0x2_0000 || a == 0x2_0004 || a == 0x2_0008 then Ok(Segment(Npa(x, y, a), 4))
               else Err(Failure)
  {
    hide EvaToNpaDram, EvaToNpaGlobal, EvaToNpaLocal;
    var eva := 0x2000_0000 + dy * 0x100_0000 + dx * 0x4_0000 + a;
    GroupParts(dx, dy, a);
    assert IsGroupEva(eva) && !IsGlobalEva(eva) && !IsDramEva(eva);
  }

  lemma {:induction false} GroupParts(dx: nat, dy: nat, a: nat)
    requires dx < 64 && dy < 32 && a < 0x4_0000
    ensures var eva := 0x2000_0000 + dy * 0x100_0000 + dx * 0x4_0000 + a;
            && eva / DRAM_BASE == 0 && eva / GLOBAL_BASE == 0 && eva / GROUP_BASE == 1
            && eva % 0x4_0000 == a && (eva / 0x4_0000) % 64 == dx && (eva / 0x100_0000) % 32 == dy
  {
    var eva := 0x2000_0000 + dy * 0x100_0000 + dx * 0x4_0000 + a;
    assert eva / 0x100_0000 == 32 + dy;
    assert eva / 0x4_0000 == 64 * (32 + dy) + dx;
  }

  /** An EVA below the group bit names the tile it is used from, or nothing. */
  lemma {:induction false} LocalNames(cfg: Config, origin: Coord, src: Coord, a: nat)
    requires a < 0x2000_0000
    ensures EvaToNpa(cfg, origin, src, a)
            == if a < 4096 then Ok(Segment(Npa(src.x, src.y, a), 4096 - a))
               else if a == 0x2_0000 || a == 0x2_0004 || a == 0x2_0008 then Ok(Segment(Npa(src.x, src.y, a), 4))
               else Err(Failure)
  {
    hide EvaToNpaDram, EvaToNpaGlobal, EvaToNpaGroup;
  }

  // -------------------- host and core NPAs --------------------

  /** The global EVA of an NPA whose fields fit: the layout that `GlobalNames` decodes. */
  lemma {:induction false} GlobalRemoteValue(npa: Npa)
    requires npa.x < 128 && npa.y < 128 && npa.epa < 0x1_0000
    ensures NpaToEvaGlobalRemote(npa) == 0x4000_0000 + npa.y * 0x80_0000 + npa.x * 0x1_0000 + npa.epa
  {
    hide Pow2, Or, Shl, Shl32, Mul;
    Pow2Values();
    assert Pow2(7) == 128 by { Pow2Of7(); }
    OrField(npa.x, 7, 16, npa.epa);
    OrField(npa.y, 7, 23, Shl(npa.x, 16) + npa.epa);
    OrDisjoint(1, 30, Shl(npa.y, 23) + (Shl(npa.x, 16) + npa.epa));
    Pow2IsShl(30);
    ShlIsMul(npa.x, 16);
    ShlIsMul(npa.y, 23);
    MulIsTimes(npa.x, Pow2(16));
    MulIsTimes(npa.y, Pow2(23));
  }

  lemma {:induction false} Pow2Of7()
    ensures Pow2(7) == 128
  {
  }

  lemma {:induction false} OrAtLeast(a: nat, b: nat)
    ensures Or(a, b) >= b
    decreases a + b
  {
    if a == 0 || b == 0 {
    } else {
      OrAtLeast(a / 2, b / 2);
    }
  }

  // A global EVA names no coordinate from 128 on, and no offset behind the data memory.
  lemma {:induction false} GlobalRange(cfg: Config, origin: Coord, src: Coord, eva: nat)
    requires 0x4000_0000 <= eva < 0x8000_0000 && EvaToNpa(cfg, origin, src, eva).Ok?
    ensures var npa := EvaToNpa(cfg, origin, src, eva).value.npa; npa.x < 128 && npa.y < 128 && npa.epa < 4096
  {
    hide EvaToNpaDram, EvaToNpaGroup, EvaToNpaLocal;
    assert IsGlobalEva(eva) && !IsDramEva(eva);
    assert eva % GLOBAL_SIZE < CSR_FREEZE;
  }

  // No translation of a DRAM EVA reaches a coordinate or an EPA that would set the DRAM bit of a global EVA.
  lemma {:induction false} DramRange(cfg: Config, pod: Coord, origin: Coord, src: Coord, eva: nat)
    requires GoodConfig(cfg) && PodExists(cfg, pod) && BelongsTo(cfg, pod, src)
    requires IsEva(eva) && IsDramEva(eva) && EvaToNpa(cfg, origin, src, eva).Ok?
    ensures var npa := EvaToNpa(cfg, origin, src, eva).value.npa; npa.x < 256 && npa.y < 256 && npa.epa < DRAM_BASE
  {
    hide Low, Shr, Shl, Pow2, CLog2, GoodPods, EvaToNpaDram, DramEpaIsValid, IsDramNorth, IsDramSouth;
    DramTranslation(cfg, pod, src, eva);
    BankIsDram(cfg, pod, src, Decompose(StripeLog(cfg), XLog(cfg), eva));
    Pow2Monotone(DramBits(cfg), 30);
    Pow2Values();
  }

  lemma {:induction false} GlobalRemoteIsEva(npa: Npa)
    requires npa.epa < WORD32
    ensures GLOBAL_BASE <= NpaToEvaGlobalRemote(npa) < WORD32
  {
    hide Pow2, Or, Shl;
    Pow2Values();
    var a := Or(npa.epa, Shl32(npa.x, 16));
    OrBound(npa.epa, Shl32(npa.x, 16), 32);
    OrBound(a, Shl32(npa.y, 23), 32);
    OrBound(Or(a, Shl32(npa.y, 23)), GLOBAL_BASE, 32);
    OrAtLeast(Or(a, Shl32(npa.y, 23)), GLOBAL_BASE);
  }

  /** NPA to EVA to NPA off DRAM: an NPA of the host or of a core comes back if and only if both its coordinates fit
  seven bits and its EPA lies in the data memory. */
  lemma {:induction false} RemoteRoundTrip(cfg: Config, pod: Coord, origin: Coord, src: Coord, tgt: Coord, npa: Npa)
    requires GoodConfig(cfg) && PodExists(cfg, pod) && BelongsTo(cfg, pod, src)
    requires npa.epa < WORD32
    requires !NpaIsDram(cfg, npa, tgt) && NpaToEva(cfg, tgt, npa).Ok?
    ensures var back := EvaToNpa(cfg, origin, src, NpaToEva(cfg, tgt, npa).value);
            (back.Ok? && back.value.npa == npa) <==> npa.x < 128 && npa.y < 128 && npa.epa < 4096
  {
    hide GoodConfig, BelongsTo, NpaIsDram, EvaToNpa, NpaToEvaGlobalRemote, IsHost, IsVanillaCore;
    var eva := NpaToEvaGlobalRemote(npa);
    assert NpaToEva(cfg, tgt, npa) == Ok(eva);
    GlobalRemoteIsEva(npa);
    if npa.x < 128 && npa.y < 128 && npa.epa < 4096 {
      GlobalRemoteValue(npa);
      GlobalNames(cfg, origin, src, npa.x, npa.y, npa.epa);
    } else if EvaToNpa(cfg, origin, src, eva).Ok? && EvaToNpa(cfg, origin, src, eva).value.npa == npa {
      if eva < DRAM_BASE {
        GlobalRange(cfg, origin, src, eva);
      } else {
        DramRange(cfg, pod, origin, src, eva);
        GlobalIsNotDram(cfg, npa);
      }
      assert false;
    }
  }

  lemma {:induction false} HostEva(cfg: Config, tgt: Coord, epa: nat)
    requires !IsDram(cfg, cfg.host)
    ensures NpaToEva(cfg, tgt, Npa(cfg.host.x, cfg.host.y, epa))
            == Ok(NpaToEvaGlobalRemote(Npa(cfg.host.x, cfg.host.y, epa)))
  {
    hide IsDram, DramEpaIsValid, VcoreOrigin, Pod, NpaToEvaGlobalRemote;
  }

  /** An EVA handed to a tile keeps the host's EPA, column and row apart if and only if the EPA fits 16 bits: from
  0x1_0000 on the EPA runs into the column. */
  lemma {:induction false} HostFields(cfg: Config, tgt: Coord, epa: nat)
    requires cfg.host.x < 128 && cfg.host.y < 128 && epa < WORD32
    requires !IsDram(cfg, cfg.host)
    ensures var r := NpaToEva(cfg, tgt, Npa(cfg.host.x, cfg.host.y, epa));
            r.Ok? &&
            ((r.value % 0x1_0000 == epa && r.value / 0x1_0000 % 128 == cfg.host.x
              && r.value / 0x80_0000 % 128 == cfg.host.y && r.value / 0x4000_0000 == 1)
             <==> epa < 0x1_0000)
  {
    var npa := Npa(cfg.host.x, cfg.host.y, epa);
    hide NpaToEvaGlobalRemote, IsDram, NpaToEva;
    HostEva(cfg, tgt, epa);
    if epa < 0x1_0000 {
      GlobalRemoteValue(npa);
      GlobalParts(npa.x, npa.y, epa);
    }
  }

  /** Which NPAs have an EVA at all for a tile. */
  lemma {:induction false} EvaExists(cfg: Config, tgt: Coord, npa: Npa)
    ensures NpaToEva(cfg, tgt, npa).Ok? <==>
      || NpaIsDram(cfg, npa, tgt) || Xy(npa) == cfg.host
      || (npa.epa < 4096 && (Xy(npa) == tgt || IsVanillaCore(cfg, Xy(npa))))
  {
  }

  // -------------------- the shipped machine --------------------

  lemma {:induction false} BigBladeSizes(memsys: Memsys)
    ensures var cfg := BigBlade(memsys);
            && GoodConfig(cfg)
            && StripeLog(cfg) == 7 && XLog(cfg) == 4 && TopBits(cfg) == 19 && DramBits(cfg) == 29
  {
    BigBladeIsGood(memsys);
    SmallPow2();
    Pow2Of7();
    hide Pow2, CLog2, GoodPods;
    LogOfPow2(4);
    LogOfPow2(7);
  }

  lemma {:induction false} BigBladeOrigin(memsys: Memsys, pod: Coord)
    requires PodExists(BigBlade(memsys), pod)
    ensures var cfg := BigBlade(memsys);
            && VcoreOrigin(cfg, pod) == Coord(16 * pod.x + 16, 16 * pod.y + 8)
            && NorthY(cfg, pod) == 16 * pod.y + 7 && SouthY(cfg, pod) == 16 * pod.y + 16
  {
    var cfg := BigBlade(memsys);
    BigBladeIsGood(memsys);
    SmallPow2();
    hide Pow2, Shl, GoodPods, VcoreOrigin, NorthY;
    OriginValue(cfg, pod);
    ShlIsMul(pod.x + 1, 4);
    ShlIsMul(2 * pod.y + 1, 3);
    MulIsTimes(pod.x + 1, 16);
    MulIsTimes(2 * pod.y + 1, 8);
  }

  lemma {:induction false} ComposeValue(f: Fields)
    requires f.col < 16 && f.south < 2 && f.off < 128
    ensures Compose(7, 4, f) == 0x8000_0000 + f.top * 0x1000 + f.south * 0x800 + f.col * 0x80 + f.off
  {
    SmallPow2();
    Pow2Of7();
    hide Pow2, Shl;
    var q := 2 * f.top + f.south;
    ShlIsMul(q, 4);
    MulIsTimes(q, 16);
    ShlIsMul(Shl(q, 4) + f.col, 7);
    MulIsTimes(Shl(q, 4) + f.col, 128);
  }

  // Every DRAM EVA translates when the fields of an EVA cannot name an EPA past the bank.
  lemma {:induction false} FieldsTranslate(cfg: Config, pod: Coord, origin: Coord, src: Coord, f: Fields)
    requires GoodConfig(cfg) && PodExists(cfg, pod) && BelongsTo(cfg, pod, src)
    requires FieldsFit(cfg, f) && f.col < cfg.podShape.x && TopBits(cfg) + StripeLog(cfg) <= DramBits(cfg)
    ensures EvaToNpa(cfg, origin, src, Compose(StripeLog(cfg), XLog(cfg), f))
            == Ok(Segment(DramNpa(cfg, pod, f), Pow2(StripeLog(cfg)) - f.off))
  {
    hide Pow2, Shl, Shr, Low, Compose, Decompose, GoodPods, BelongsTo, EvaToNpaDram, CLog2, DramNpa;
    var s := StripeLog(cfg);
    DecomposeCompose(s, XLog(cfg), f);
    DramTranslation(cfg, pod, src, Compose(s, XLog(cfg), f));
    FieldBound(f.top, TopBits(cfg), s, f.off);
    Pow2Monotone(TopBits(cfg) + s, DramBits(cfg));
  }

  /** On that machine every DRAM EVA translates: from bit 0 on seven bits of byte, four of column, one for the south
  banks and nineteen of line, and bit 31. */
  lemma {:induction false} BigBladeDram(memsys: Memsys, pod: Coord, origin: Coord, src: Coord,
                                        line: nat, south: nat, col: nat, off: nat)
    requires PodExists(BigBlade(memsys), pod) && BelongsTo(BigBlade(memsys), pod, src)
    requires line < 0x8_0000 && south < 2 && col < 16 && off < 128
    ensures EvaToNpa(BigBlade(memsys), origin, src,
                     0x8000_0000 + line * 0x1000 + south * 0x800 + col * 0x80 + off)
            == Ok(Segment(Npa(16 * pod.x + 16 + col, if south == 1 then 16 * pod.y + 16 else 16 * pod.y + 7,
                              line * 128 + off),
                          128 - off))
  {
    hide *;
    var f := Fields(line, south, col, off);
    BigBladeFits(memsys, f);
    ComposeValue(f);
    BigBladeNpa(memsys, pod, f);
    FieldsTranslate(BigBlade(memsys), pod, origin, src, f);
  }

  lemma {:induction false} BigBladeFits(memsys: Memsys, f: Fields)
    requires f.top < 0x8_0000 && f.south < 2 && f.col < 16 && f.off < 128
    ensures var cfg := BigBlade(memsys);
            && GoodConfig(cfg) && FieldsFit(cfg, f) && f.col < cfg.podShape.x
            && StripeLog(cfg) == 7 && XLog(cfg) == 4 && Pow2(StripeLog(cfg)) == 128
            && TopBits(cfg) + StripeLog(cfg) <= DramBits(cfg)
  {
    hide Pow2, GoodPods, GoodFields, StripeLog, XLog, DramBits;
    BigBladeSizes(memsys);
    BigBladePowers();
  }

  lemma {:induction false} BigBladeNpa(memsys: Memsys, pod: Coord, f: Fields)
    requires PodExists(BigBlade(memsys), pod)
    ensures DramNpa(BigBlade(memsys), pod, f)
            == Npa(16 * pod.x + 16 + f.col, if f.south == 1 then 16 * pod.y + 16 else 16 * pod.y + 7, f.top * 128 + f.off)
  {
    BigBladeSizes(memsys);
    BigBladeOrigin(memsys, pod);
    BigBladePowers();
    hide Pow2, Shl, Mul, VcoreOrigin, NorthY, SouthY, BigBlade, GoodConfig, StripeLog, TopBits, DramBits;
    ShlIsMul(f.top, 7);
    MulIsTimes(f.top, 128);
  }

  lemma {:induction false} BigBladePowers()
    ensures Pow2(4) == 16 && Pow2(7) == 128 && Pow2(19) == 0x8_0000 && Pow2(29) == 0x2000_0000
  {
    Pow2Values();
    Pow2Double(16);
    Pow2Double(17);
    Pow2Double(18);
  }
}
