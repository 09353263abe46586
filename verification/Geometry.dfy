/** Coordinates, the device configuration and the pod geometry.

libraries/bsg_manycore_coordinate.h, libraries/bsg_manycore_config.h and libraries/bsg_manycore_config_pod.h
*/
module Geometry {
  import opened Bits

  datatype Coord = Coord(x: nat, y: nat)

  // -------------------- rectangles and their scan order --------------------

  // `foreach_coordinate` runs over `InRect(_, origin, dim)`, column by column.
  predicate Stop(now: Coord, origin: Coord, dim: Coord) {
    now.x >= origin.x + dim.x || now.y >= origin.y + dim.y
  }

  function Next(now: Coord, origin: Coord, dim: Coord): Coord {
    if now.y + 1 >= origin.y + dim.y then Coord(now.x + 1, origin.y) else Coord(now.x, now.y + 1)
  }

  predicate InRect(c: Coord, origin: Coord, dim: Coord) {
    origin.x <= c.x < origin.x + dim.x && origin.y <= c.y < origin.y + dim.y
  }

  // The scan order
  predicate Before(c: Coord, d: Coord) {
    c.x < d.x || (c.x == d.x && c.y < d.y)
  }

  // Where a scan can stand: on a cell of the rectangle, or stopped behind all of them
  ghost predicate ScanAt(now: Coord, origin: Coord, dim: Coord) {
    || InRect(now, origin, dim)
    || (Stop(now, origin, dim) && forall c :: InRect(c, origin, dim) ==> Before(c, now))
  }

  lemma {:induction false} ScanStart(origin: Coord, dim: Coord)
    ensures ScanAt(origin, origin, dim)
    ensures forall c :: InRect(c, origin, dim) ==> !Before(c, origin)
  {
  }

  /** One step of the scan passes exactly the cell it stands on. */
  lemma {:induction false} ScanStep(now: Coord, origin: Coord, dim: Coord)
    requires InRect(now, origin, dim)
    ensures var n := Next(now, origin, dim);
            ScanAt(n, origin, dim)
            && (forall c :: InRect(c, origin, dim) ==> (Before(c, n) <==> Before(c, now) || c == now))
  {
  }

  function ToIndex(c: Coord, dim: Coord): nat { Mul(c.x, dim.y) + c.y }

  function FromIndex(i: nat, dim: Coord): Coord
    requires dim.y > 0
  {
    Coord(Div(i, dim.y), Mod(i, dim.y))
  }

  lemma {:induction false} IndexBijection(c: Coord, dim: Coord)
    requires c.x < dim.x && c.y < dim.y
    ensures ToIndex(c, dim) < Mul(dim.x, dim.y)
    ensures FromIndex(ToIndex(c, dim), dim) == c
  {
    DivModOf(c.x, dim.y, c.y);
    MulMonotone(c.x, dim.x, dim.y);
  }

  lemma {:induction false} IndexBijectionBack(i: nat, dim: Coord)
    requires dim.y > 0 && i < Mul(dim.x, dim.y)
    ensures var c := FromIndex(i, dim); c.x < dim.x && c.y < dim.y && ToIndex(c, dim) == i
  {
    DivMod(i, dim.y);
    DivBound(i, dim.y, dim.x);
  }

  // -------------------- configuration --------------------

  datatype BitField = BitField(bits: nat, bitidx: nat)

  datatype MemsysId = NoMemsys | Axi4 | InfMem | DramSim3 | TestMem | Hbm2

  datatype Memsys = Memsys(
    id: MemsysId,
    channels: nat,
    bankSize: nat,
    ro: BitField, bg: BitField, ba: BitField, co: BitField, byteOffset: BitField)

  datatype Config = Config(
    pods: Coord,
    podShape: Coord,
    nocWidth: Coord,
    host: Coord,
    addrBits: nat,
    ways: nat,
    sets: nat,
    blockWords: nat,
    stripeWords: nat,
    dramEnabled: bool,
    memsys: Memsys)

  const POD_WIDTH: Coord := Coord(3, 4)

  function TileWidth(cfg: Config): Coord {
    Coord(Sub32(cfg.nocWidth.x, POD_WIDTH.x), Sub32(cfg.nocWidth.y, POD_WIDTH.y))
  }

  function TileMask(cfg: Config): Coord {
    var w := TileWidth(cfg);
    Coord(Mask(w.x), Mask(w.y))
  }

  function PodMask(cfg: Config): Coord {
    var tm := TileMask(cfg);
    Coord(Not32(tm.x), Not32(tm.y))
  }

  function VcoreOrigin(cfg: Config, pod: Coord): Coord {
    var w := TileWidth(cfg);
    Coord(Wrap(Pow2(w.x) + Shl(pod.x, w.x)), Wrap(Pow2(w.y) + Shl(pod.y * 2, w.y)))
  }

  function NorthY(cfg: Config, pod: Coord): nat { Sub32(VcoreOrigin(cfg, pod).y, 1) }
  function SouthY(cfg: Config, pod: Coord): nat { VcoreOrigin(cfg, pod).y + cfg.podShape.y }

  function BlockSize(cfg: Config): nat { cfg.blockWords * 4 }
  function StripeSize(cfg: Config): nat { cfg.stripeWords * 4 }
  function StripeLog(cfg: Config): nat { CLog2(StripeSize(cfg)) }
  function XLog(cfg: Config): nat { CLog2(cfg.podShape.x) }
  function VcacheSize(cfg: Config): nat { Mul(Mul(BlockSize(cfg), cfg.sets), cfg.ways) }
  function NumDrams(cfg: Config): nat { Mul(Mul(Mul(cfg.pods.x, cfg.pods.y), cfg.podShape.x), 2) }
  function DramSize(cfg: Config): nat { Mul(cfg.memsys.bankSize, NumDrams(cfg)) }

  // Bits of a bank address: `default_get_dram_bitwidth`
  function DramBits(cfg: Config): nat {
    if cfg.dramEnabled then cfg.addrBits + 1 else CLog2(VcacheSize(cfg))
  }

  predicate PodExists(cfg: Config, pod: Coord) { pod.x < cfg.pods.x && pod.y < cfg.pods.y }

  // The first core of a pod and the bank row south of it: pods occupy every other pod field from 1 on.
  function Corner(cfg: Config, pod: Coord): Coord
    requires cfg.nocWidth.x >= POD_WIDTH.x && cfg.nocWidth.y >= POD_WIDTH.y
  {
    Coord(Shl(pod.x + 1, cfg.nocWidth.x - POD_WIDTH.x), Shl(2 * pod.y + 1, cfg.nocWidth.y - POD_WIDTH.y))
  }

  function SouthRow(cfg: Config, pod: Coord): nat
    requires cfg.nocWidth.y >= POD_WIDTH.y
  {
    Shl(2 * pod.y + 2, cfg.nocWidth.y - POD_WIDTH.y)
  }

  /** What the runtime relies on without checking it, about the layout of the pods... */
  ghost predicate GoodPods(cfg: Config) {
    // the pod and tile fields of a coordinate fit an 8-bit packet field
    && 3 <= cfg.nocWidth.x <= 8 && 5 <= cfg.nocWidth.y <= 8
    && cfg.podShape.y == Pow2(cfg.nocWidth.y - POD_WIDTH.y)
    && 1 <= cfg.podShape.x <= Pow2(cfg.nocWidth.x - POD_WIDTH.x)
    && 1 <= cfg.pods.x <= 7 && 1 <= cfg.pods.y <= 7
    // the host sits on no row of DRAM banks south of a pod
    && (forall pod :: PodExists(cfg, pod) ==> cfg.host.y != SouthRow(cfg, pod))
  }

  /** ... and about the address fields of DRAM and caches. */
  predicate GoodFields(cfg: Config) {
    // stripes are powers of two; stripe, column and north/south fields end below the DRAM bit
    && cfg.stripeWords >= 1 && IsPow2(StripeSize(cfg))
    && StripeLog(cfg) + XLog(cfg) + 1 <= 31
    // a bank holds whole stripes
    && StripeLog(cfg) <= DramBits(cfg) <= 30
    // a set number and a way number fit below the tag bit of a cache address
    && cfg.blockWords >= 1 && IsPow2(BlockSize(cfg))
    && cfg.sets >= 1 && IsPow2(cfg.sets)
    && cfg.ways >= 1 && IsPow2(cfg.ways)
    && CLog2(BlockSize(cfg)) + CLog2(cfg.sets) + CLog2(cfg.ways) <= 29
  }

  ghost predicate GoodConfig(cfg: Config) { GoodPods(cfg) && GoodFields(cfg) }

  // The machine with 4x4 pods of 16x8 tiles on HBM2; `memsys` is what its ROM says about the memory system.
  function BigBlade(memsys: Memsys): Config {
    Config(Coord(4, 4), Coord(16, 8), Coord(7, 7), Coord(16, 0), 28, 8, 64, 32, 32, true, memsys)
  }

  /** That machine meets everything the runtime relies on. */
  lemma {:induction false} BigBladeIsGood(memsys: Memsys)
    ensures GoodConfig(BigBlade(memsys))
  {
    var cfg := BigBlade(memsys);
    SmallPow2();
    assert Pow2(6) == 64 && Pow2(7) == 128;
    hide CLog2, Pow2, Shl;
    LogOfPow2(3);
    LogOfPow2(4);
    LogOfPow2(6);
    LogOfPow2(7);
    forall pod | PodExists(cfg, pod)
      ensures cfg.host.y != SouthRow(cfg, pod)
    {
      ShlMonotone(1, 2 * pod.y + 2, 3);
      Pow2IsShl(3);
    }
  }

  // -------------------- classification of a coordinate --------------------

  function Npod(cfg: Config, co: Coord): Coord {
    var pm, w := PodMask(cfg), TileWidth(cfg);
    Coord(Shr(And(pm.x, co.x), w.x), Shr(And(pm.y, co.y), w.y))
  }

  function TileInPod(cfg: Config, co: Coord): Coord {
    var tm := TileMask(cfg);
    Coord(And(tm.x, co.x), And(tm.y, co.y))
  }

  predicate IsDramNorth(cfg: Config, co: Coord) {
    TileInPod(cfg, co).y == TileMask(cfg).y && Npod(cfg, co).y % 2 == 0
  }

  predicate IsDramSouth(cfg: Config, co: Coord) {
    TileInPod(cfg, co).y == 0 && Npod(cfg, co).y % 2 == 0 && co.y != cfg.host.y
  }

  predicate IsDram(cfg: Config, co: Coord) { IsDramNorth(cfg, co) || IsDramSouth(cfg, co) }
  predicate IsVanillaCore(cfg: Config, co: Coord) { Npod(cfg, co).y % 2 == 1 }
  predicate IsHost(cfg: Config, co: Coord) { co == cfg.host }

  // The pod that a core or a DRAM bank belongs to
  function Pod(cfg: Config, co: Coord): Coord {
    var npod := Npod(cfg, co);
    if IsVanillaCore(cfg, co) then Coord(Sub32(npod.x, 1), npod.y / 2)
    else if IsDramSouth(cfg, co) then Coord(Sub32(npod.x, 1), Sub32(npod.y / 2, 1))
    else if IsDramNorth(cfg, co) then Coord(Sub32(npod.x, 1), npod.y / 2)
    else Coord(0, 0)
  }

  // `hb_mc_config_pod_dram_id` has no result for a coordinate that is no DRAM bank; the model gives 0.
  function PodDramId(cfg: Config, co: Coord): nat {
    if IsDramNorth(cfg, co) then TileInPod(cfg, co).x
    else if IsDramSouth(cfg, co) then TileInPod(cfg, co).x + cfg.podShape.x
    else 0
  }

  function DramId(cfg: Config, co: Coord): nat {
    Mul(ToIndex(Pod(cfg, co), cfg.pods), cfg.podShape.x * 2) + PodDramId(cfg, co)
  }

  function PodDram(cfg: Config, pod: Coord, podDramId: nat): Coord
    requires cfg.podShape.x > 0
  {
    var og := VcoreOrigin(cfg, pod);
    Coord(og.x + Mod(podDramId, cfg.podShape.x),
          if Div(podDramId, cfg.podShape.x) != 0 then og.y + cfg.podShape.y else Sub32(og.y, 1))
  }

  function Dram(cfg: Config, dramId: nat): Coord
    requires cfg.podShape.x > 0 && cfg.pods.y > 0
  {
    var n := cfg.podShape.x * 2;
    PodDram(cfg, FromIndex(Div(dramId, n), cfg.pods), Mod(dramId, n))
  }

  // -------------------- iteration over the banks of a pod --------------------

  function DramStart(cfg: Config, pod: Coord): Coord {
    var og := VcoreOrigin(cfg, pod);
    Coord(og.x, Sub32(og.y, 1))
  }

  predicate DramStop(cfg: Config, pod: Coord, pos: Coord) {
    var og := VcoreOrigin(cfg, pod);
    pos.x >= og.x + cfg.podShape.x || pos.y >= og.y + cfg.podShape.y + 1
  }

  function DramNext(cfg: Config, pod: Coord, pos: Coord): Coord {
    var og := VcoreOrigin(cfg, pod);
    if pos.x + 1 >= og.x + cfg.podShape.x && pos.y == Sub32(og.y, 1)
    then Coord(og.x, og.y + cfg.podShape.y)
    else Coord(pos.x + 1, pos.y)
  }

  // -------------------- where pods lie --------------------

  predicate IsCoreOf(cfg: Config, pod: Coord, c: Coord) {
    cfg.nocWidth.x >= POD_WIDTH.x && cfg.nocWidth.y >= POD_WIDTH.y && InRect(c, Corner(cfg, pod), cfg.podShape)
  }

  predicate IsBankOf(cfg: Config, pod: Coord, c: Coord) {
    && cfg.nocWidth.x >= POD_WIDTH.x && cfg.nocWidth.y >= POD_WIDTH.y
    && var og := Corner(cfg, pod);
       og.x <= c.x < og.x + cfg.podShape.x && (c.y + 1 == og.y || c.y == SouthRow(cfg, pod))
  }

  predicate BelongsTo(cfg: Config, pod: Coord, c: Coord) {
    IsCoreOf(cfg, pod, c) || IsBankOf(cfg, pod, c)
  }

  lemma {:induction false} TileWidthValue(cfg: Config)
    requires GoodPods(cfg)
    ensures TileWidth(cfg) == Coord(cfg.nocWidth.x - 3, cfg.nocWidth.y - 4)
    ensures 1 <= Pow2(TileWidth(cfg).x) <= 32 && 2 <= Pow2(TileWidth(cfg).y) <= 16
  {
    SmallPow2();
    Pow2Monotone(TileWidth(cfg).x, 5);
    Pow2Monotone(TileWidth(cfg).y, 4);
    Pow2Monotone(1, TileWidth(cfg).y);
  }

  lemma {:induction false} PodNumbers(cfg: Config, pod: Coord)
    requires GoodPods(cfg) && PodExists(cfg, pod)
    ensures pod.x < 7 && pod.y < 7 && cfg.podShape.y == Pow2(TileWidth(cfg).y)
    ensures cfg.nocWidth.x >= POD_WIDTH.x && cfg.nocWidth.y >= POD_WIDTH.y
  {
  }

  lemma {:induction false} OriginValue(cfg: Config, pod: Coord)
    requires GoodPods(cfg) && PodExists(cfg, pod)
    ensures var w, og := TileWidth(cfg), VcoreOrigin(cfg, pod);
            && og == Coord(Shl(pod.x + 1, w.x), Shl(2 * pod.y + 1, w.y))
            && og.x + Pow2(w.x) <= 256 && 2 <= og.y && og.y + 2 * Pow2(w.y) <= 256
            && NorthY(cfg, pod) == og.y - 1
            && SouthY(cfg, pod) == SouthRow(cfg, pod)
            && og == Corner(cfg, pod)
            && og.y + cfg.podShape.y == SouthRow(cfg, pod)
  {
    hide Shl, Pow2, GoodPods;
    TileWidthValue(cfg);
    PodNumbers(cfg, pod);
    var w := TileWidth(cfg);
    ShlPlus(2 * pod.y + 1, 1, w.y);
    Pow2IsShl(w.y);
    OriginOfField(pod.x, 7, w.x);
    OriginOfField(pod.y * 2, 14, w.y);
    OriginOfField(pod.y * 2 + 1, 14, w.y);
  }

  // One more than a field value, shifted to its place
  lemma {:induction false} OriginOfField(a: nat, n: nat, w: nat)
    requires a < n <= 14 && Pow2(w) * (n + 2) <= 512
    ensures Pow2(w) + Shl(a, w) == Shl(a + 1, w) <= n * Pow2(w)
    ensures Shl(a + 1, w) >= Pow2(w)
  {
    hide Shl, Pow2;
    ShlPlus(a, 1, w);
    Pow2IsShl(w);
    ShlIsMul(a + 1, w);
    MulMonotone(a + 1, n, Pow2(w));
    MulIsTimes(n, Pow2(w));
  }

  // The masks pick the pod field and the tile field of a network coordinate.
  lemma {:induction false} FieldsOf(cfg: Config, c: Coord)
    requires GoodPods(cfg) && c.x < WORD32 && c.y < WORD32
    ensures var w := TileWidth(cfg);
            && Npod(cfg, c) == Coord(Shr(c.x, w.x), Shr(c.y, w.y))
            && TileInPod(cfg, c) == Coord(Low(c.x, w.x), Low(c.y, w.y))
  {
    TileWidthValue(cfg);
    var w := TileWidth(cfg);
    hide And;
    HighField(c.x, w.x);
    HighField(c.y, w.y);
    AndMask(c.x, w.x);
    AndMask(c.y, w.y);
  }

  lemma {:induction false} FieldsAt(q: nat, n: nat, r: nat, a: nat)
    requires r < Pow2(n) && a == Shl(q, n) + r
    ensures Shr(a, n) == q && Low(a, n) == r
  {
    Join(q, n, r);
  }

  /** The pod of a coordinate inverts `hb_mc_config_pod_vcore_origin`, for cores and for banks. */
  lemma {:induction false} PodOfMember(cfg: Config, pod: Coord, c: Coord)
    requires GoodPods(cfg) && PodExists(cfg, pod) && BelongsTo(cfg, pod, c)
    ensures Pod(cfg, c) == pod
    ensures IsCoreOf(cfg, pod, c) <==> IsVanillaCore(cfg, c)
    ensures IsBankOf(cfg, pod, c) <==> IsDram(cfg, c)
    ensures IsBankOf(cfg, pod, c) ==>
      && (IsDramNorth(cfg, c) <==> c.y == NorthY(cfg, pod))
      && (IsDramSouth(cfg, c) <==> c.y == SouthY(cfg, pod))
      && TileInPod(cfg, c).x == c.x - VcoreOrigin(cfg, pod).x
      && NorthY(cfg, pod) != SouthY(cfg, pod)
    ensures c.x < 256 && c.y < 256
  {
    hide Shl, Pow2, Shr, Low, And;
    TileWidthValue(cfg);
    OriginValue(cfg, pod);
    var w, og := TileWidth(cfg), VcoreOrigin(cfg, pod);
    FieldsOf(cfg, c);
    FieldsAt(pod.x + 1, w.x, c.x - og.x, c.x);
    if IsCoreOf(cfg, pod, c) {
      FieldsAt(2 * pod.y + 1, w.y, c.y - og.y, c.y);
    } else if c.y == NorthY(cfg, pod) {
      ShlPlus(2 * pod.y, 1, w.y);
      Pow2IsShl(w.y);
      FieldsAt(2 * pod.y, w.y, Pow2(w.y) - 1, c.y);
    } else {
      FieldsAt(2 * pod.y + 2, w.y, 0, c.y);
      assert SouthY(cfg, pod) != cfg.host.y;
    }
  }

  // Every core and every bank has a coordinate that fits the network.
  lemma {:induction false} MemberInMesh(cfg: Config, pod: Coord, c: Coord)
    requires GoodPods(cfg) && PodExists(cfg, pod) && BelongsTo(cfg, pod, c)
    ensures c.x < Pow2(cfg.nocWidth.x) && c.y < Pow2(cfg.nocWidth.y)
  {
    hide Shl, Pow2, GoodPods, NorthY, SouthY;
    SmallPow2();
    TileWidthValue(cfg);
    PodNumbers(cfg, pod);
    OriginValue(cfg, pod);
    ShapeFits(cfg);
    var w, og := TileWidth(cfg), VcoreOrigin(cfg, pod);
    BelowBlock(pod.x + 1, 3, w.x, c.x - og.x);
    if c.y >= og.y {
      if c.y < SouthRow(cfg, pod) {
        BelowBlock(2 * pod.y + 1, 4, w.y, c.y - og.y);
      } else {
        BelowBlock(2 * pod.y + 2, 4, w.y, 0);
      }
    } else {
      BelowBlock(2 * pod.y + 1, 4, w.y, 0);
    }
  }

  lemma {:induction false} ShapeFits(cfg: Config)
    requires GoodPods(cfg)
    ensures 1 <= cfg.podShape.x <= Pow2(TileWidth(cfg).x) && cfg.podShape.y == Pow2(TileWidth(cfg).y)
    ensures TileWidth(cfg).x + 3 == cfg.nocWidth.x && TileWidth(cfg).y + 4 == cfg.nocWidth.y
  {
    hide Pow2;
  }

  // -------------------- DRAM bank numbers --------------------

  lemma {:induction false} PodDramInverse(cfg: Config, pod: Coord, k: nat)
    requires GoodPods(cfg) && PodExists(cfg, pod) && k < 2 * cfg.podShape.x
    ensures var c := PodDram(cfg, pod, k);
            && IsBankOf(cfg, pod, c) && PodDramId(cfg, c) == k
            && c == Coord(VcoreOrigin(cfg, pod).x + (if k < cfg.podShape.x then k else k - cfg.podShape.x),
                          if k < cfg.podShape.x then NorthY(cfg, pod) else SouthY(cfg, pod))
  {
    hide GoodPods, VcoreOrigin, Corner, SouthRow, Shl, Pow2, IsDramNorth, IsDramSouth, Div, Mod, TileInPod;
    OriginValue(cfg, pod);
    ShapePositive(cfg);
    var w := cfg.podShape.x;
    DivModOf(if k < w then 0 else 1, w, if k < w then k else k - w);
    PodOfMember(cfg, pod, PodDram(cfg, pod, k));
  }

  lemma {:induction false} PodDramOfBank(cfg: Config, pod: Coord, c: Coord)
    requires GoodPods(cfg) && PodExists(cfg, pod) && IsBankOf(cfg, pod, c)
    ensures PodDramId(cfg, c) < 2 * cfg.podShape.x
    ensures PodDram(cfg, pod, PodDramId(cfg, c)) == c
  {
    hide GoodPods, VcoreOrigin, Corner, SouthRow, NorthY, SouthY, Shl, Pow2, IsDramNorth, IsDramSouth, TileInPod, PodDram;
    OriginValue(cfg, pod);
    PodOfMember(cfg, pod, c);
    PodDramInverse(cfg, pod, PodDramId(cfg, c));
  }

  lemma {:induction false} ShapePositive(cfg: Config)
    requires GoodPods(cfg)
    ensures cfg.podShape.x > 0 && cfg.pods.x > 0 && cfg.pods.y > 0
    ensures cfg.nocWidth.x >= POD_WIDTH.x && cfg.nocWidth.y >= POD_WIDTH.y
  {
  }

  /** `hb_mc_config_dram_id` is defined on the banks of the existing pods and numbers them within the range... */
  lemma {:induction false} DramOfDramId(cfg: Config, pod: Coord, c: Coord)
    requires GoodPods(cfg) && PodExists(cfg, pod) && IsBankOf(cfg, pod, c)
    ensures DramId(cfg, c) < NumDrams(cfg)
    ensures Dram(cfg, DramId(cfg, c)) == c
  {
    hide GoodPods, IsCoreOf, VcoreOrigin, IsBankOf, Pod, PodDram, PodDramId, FromIndex, ToIndex, Mul, Div, Mod;
    ShapePositive(cfg);
    var n := cfg.podShape.x * 2;
    PodOfMember(cfg, pod, c);
    PodDramOfBank(cfg, pod, c);
    IndexBijection(pod, cfg.pods);
    DivModOf(ToIndex(pod, cfg.pods), n, PodDramId(cfg, c));
    var pods := Mul(cfg.pods.x, cfg.pods.y);
    MulMonotone(ToIndex(pod, cfg.pods), pods, n);
    MulTwice(pods, cfg.podShape.x);
  }

  /** ... and `hb_mc_config_dram` is its inverse on the whole range. */
  lemma {:induction false} DramIdOfDram(cfg: Config, i: nat)
    requires GoodPods(cfg) && i < NumDrams(cfg)
    ensures exists pod :: PodExists(cfg, pod) && IsBankOf(cfg, pod, Dram(cfg, i))
    ensures DramId(cfg, Dram(cfg, i)) == i
  {
    var n := cfg.podShape.x * 2;
    var pods := Mul(cfg.pods.x, cfg.pods.y);
    MulTwice(pods, cfg.podShape.x);
    DivMod(i, n);
    DivBound(i, n, pods);
    IndexBijectionBack(Div(i, n), cfg.pods);
    var pod := FromIndex(Div(i, n), cfg.pods);
    PodDramInverse(cfg, pod, Mod(i, n));
    PodOfMember(cfg, pod, Dram(cfg, i));
  }

  /** The bank iterator stands on bank `k` of the pod after `k` steps, and stops after the last one. */
  lemma {:induction false} DramIteration(cfg: Config, pod: Coord, k: nat)
    requires GoodPods(cfg) && PodExists(cfg, pod) && k < 2 * cfg.podShape.x
    ensures DramStart(cfg, pod) == PodDram(cfg, pod, 0)
    ensures !DramStop(cfg, pod, PodDram(cfg, pod, k))
    ensures k + 1 < 2 * cfg.podShape.x ==> DramNext(cfg, pod, PodDram(cfg, pod, k)) == PodDram(cfg, pod, k + 1)
    ensures k + 1 == 2 * cfg.podShape.x ==> DramStop(cfg, pod, DramNext(cfg, pod, PodDram(cfg, pod, k)))
  {
    OriginValue(cfg, pod);
    PodDramInverse(cfg, pod, 0);
    PodDramInverse(cfg, pod, k);
    if k + 1 < 2 * cfg.podShape.x { PodDramInverse(cfg, pod, k + 1); }
  }

  // Caches of different banks have different numbers.
  lemma {:induction false} DramIdsDiffer(cfg: Config, p: Coord, c: Coord)
    requires GoodPods(cfg) && PodExists(cfg, p) && IsBankOf(cfg, p, c)
    ensures DramId(cfg, c) < NumDrams(cfg)
    ensures forall q, d :: PodExists(cfg, q) && IsBankOf(cfg, q, d) && DramId(cfg, d) == DramId(cfg, c) ==> d == c && q == p
  {
    hide GoodPods, DramId, IsBankOf, IsCoreOf, NumDrams, Dram, Pod;
    DramOfDramId(cfg, p, c);
    PodOfMember(cfg, p, c);
    forall q, d | PodExists(cfg, q) && IsBankOf(cfg, q, d) && DramId(cfg, d) == DramId(cfg, c)
      ensures d == c && q == p
    {
      DramOfDramId(cfg, q, d);
      PodOfMember(cfg, q, d);
    }
  }

  // Banks numbered below `k + 1` are those below `k` and bank `k`.
  lemma {:induction false} OneMoreBank(cfg: Config, p: Coord, k: nat)
    requires GoodPods(cfg) && PodExists(cfg, p) && k < 2 * cfg.podShape.x
    ensures IsBankOf(cfg, p, PodDram(cfg, p, k)) && PodDramId(cfg, PodDram(cfg, p, k)) == k
    ensures forall c :: IsBankOf(cfg, p, c) && PodDramId(cfg, c) == k ==> c == PodDram(cfg, p, k)
  {
    hide GoodPods, IsBankOf, PodDram, PodDramId;
    PodDramInverse(cfg, p, k);
    forall c | IsBankOf(cfg, p, c) && PodDramId(cfg, c) == k
      ensures c == PodDram(cfg, p, k)
    {
      PodDramOfBank(cfg, p, c);
    }
  }

  lemma {:induction false} BankNumbers(cfg: Config, p: Coord)
    requires GoodPods(cfg) && PodExists(cfg, p)
    ensures forall c :: IsBankOf(cfg, p, c) ==> PodDramId(cfg, c) < 2 * cfg.podShape.x
  {
    hide GoodPods, IsBankOf, PodDram, PodDramId;
    forall c | IsBankOf(cfg, p, c)
      ensures PodDramId(cfg, c) < 2 * cfg.podShape.x
    {
      PodDramOfBank(cfg, p, c);
    }
  }

  // -------------------- sizes and numbers as products --------------------

  /** The sizes that the configuration derives, in bytes. */
  lemma {:induction false} SizesValue(cfg: Config)
    ensures VcacheSize(cfg) == cfg.blockWords * 4 * cfg.sets * cfg.ways
    ensures NumDrams(cfg) == cfg.pods.x * cfg.pods.y * cfg.podShape.x * 2
    ensures DramSize(cfg) == cfg.memsys.bankSize * NumDrams(cfg)
  {
    hide Mul;
    var block, pods := cfg.blockWords * 4, cfg.pods.x * cfg.pods.y;
    MulIsTimes(block, cfg.sets);
    MulIsTimes(block * cfg.sets, cfg.ways);
    MulIsTimes(cfg.pods.x, cfg.pods.y);
    MulIsTimes(pods, cfg.podShape.x);
    MulIsTimes(pods * cfg.podShape.x, 2);
    MulIsTimes(cfg.memsys.bankSize, NumDrams(cfg));
  }

  /** A bank address has one bit more than the configured address width, or, without DRAM, names the bytes of a cache. */
  lemma {:induction false} DramBitsValue(cfg: Config)
    requires GoodFields(cfg)
    ensures cfg.dramEnabled ==> DramBits(cfg) == cfg.addrBits + 1
    ensures !cfg.dramEnabled ==> Pow2(DramBits(cfg)) == cfg.blockWords * 4 * cfg.sets * cfg.ways
  {
    var b, s, w := CLog2(BlockSize(cfg)), CLog2(cfg.sets), CLog2(cfg.ways);
    SizesValue(cfg);
    hide Mul, Pow2, Shl, CLog2;
    ProductOfPowers(b, s);
    ProductOfPowers(b + s, w);
    LogOfPow2(b + s + w);
  }

  lemma {:induction false} ProductOfPowers(m: nat, n: nat)
    ensures Mul(Pow2(m), Pow2(n)) == Pow2(m + n)
  {
    Pow2Add(m, n);
    ShlIsMul(Pow2(m), n);
  }

  /** Banks are numbered pod by pod, the pods column by column, and in a pod the north row before the south row. */
  lemma {:induction false} DramIdValue(cfg: Config, pod: Coord, c: Coord)
    requires GoodPods(cfg) && PodExists(cfg, pod) && IsBankOf(cfg, pod, c)
    ensures DramId(cfg, c) == (pod.x * cfg.pods.y + pod.y) * (cfg.podShape.x * 2)
                              + (if c.y == SouthRow(cfg, pod) then cfg.podShape.x else 0)
                              + (c.x - Corner(cfg, pod).x)
  {
    hide GoodPods, VcoreOrigin, IsDramNorth, IsDramSouth, TileInPod, Shl, Mul, Pod;
    PodOfMember(cfg, pod, c);
    OriginValue(cfg, pod);
    MulIsTimes(pod.x, cfg.pods.y);
    MulIsTimes(pod.x * cfg.pods.y + pod.y, cfg.podShape.x * 2);
  }

  /** A grid, mesh or pod coordinate is numbered column by column. */
  lemma {:induction false} IndexValue(c: Coord, dim: Coord)
    ensures ToIndex(c, dim) == c.x * dim.y + c.y
  {
    MulIsTimes(c.x, dim.y);
  }
}
