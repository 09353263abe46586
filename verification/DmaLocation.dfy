/** Where a byte of DRAM lies in the simulated memories, as numbers: the tables and the permutation of `DmaMap` worked out.

libraries/features/dma/simulation/bsg_manycore_dma.cpp and libraries/bsg_manycore_memsys.c
*/
module DmaLocation {
  import opened Bits
  import opened Quotients
  import opened Geometry
  import opened Eva
  import opened DmaMap
  import opened Wrappers

  // -------------------- which table, and what it says --------------------

  /** The machines of 16x8 pods have tables of their own; every other machine has the default one. */
  lemma {:induction false} SelectedTable(cfg: Config)
    ensures cfg.podShape != Coord(16, 8) || (cfg.memsys.id != Hbm2 && cfg.memsys.id != TestMem)
            <==> TableFor(cfg) == Some(DefaultTable)
    ensures cfg.podShape == Coord(16, 8) && cfg.memsys.id == Hbm2 && cfg.pods == Coord(4, 4)
            <==> TableFor(cfg) == Some(HbmPods)
    ensures cfg.podShape == Coord(16, 8) && cfg.memsys.id == Hbm2 && cfg.pods == Coord(1, 1)
            <==> TableFor(cfg) == Some(HbmOnePod)
    ensures cfg.podShape == Coord(16, 8) && cfg.memsys.id == TestMem && cfg.pods == Coord(4, 4)
            <==> TableFor(cfg) == Some(TestPods)
  {
  }

  lemma {:induction false} PerChannel(cfg: Config)
    requires cfg.memsys.channels > 0
    ensures CachesPerChannel(cfg) == cfg.pods.x * cfg.pods.y * cfg.podShape.x * 2 / cfg.memsys.channels
  {
    hide Mul, Div, NumDrams;
    SizesValue(cfg);
    DivIsQuotient(NumDrams(cfg), cfg.memsys.channels);
  }

  /** The default table deals caches out to the channels in blocks of equal size. */
  lemma {:induction false} DefaultSlot(cfg: Config, cache: nat)
    requires cfg.memsys.channels > 0 && CachesPerChannel(cfg) > 0
    ensures var n := cfg.pods.x * cfg.pods.y * cfg.podShape.x * 2 / cfg.memsys.channels;
            n > 0 && SlotDefault(cfg, cache) == Slot(cache / n, cache % n)
  {
    hide CachesPerChannel, Div, Mod;
    PerChannel(cfg);
    DivIsQuotient(cache, CachesPerChannel(cfg));
  }

  // Bank `col` of the south or the north row of a pod
  predicate IsBank(cfg: Config, pod: Coord, south: nat, col: nat, bank: Coord) {
    PodExists(cfg, pod) && IsBankOf(cfg, pod, bank)
    && bank.x == Corner(cfg, pod).x + col && (south == 1 <==> bank.y == SouthRow(cfg, pod)) && south < 2
  }

  lemma {:induction false} BankIs(cfg: Config, pod: Coord, south: nat, col: nat, bank: Coord)
    requires GoodPods(cfg) && IsBank(cfg, pod, south, col, bank)
    ensures IsDramNorth(cfg, bank) == (south == 0) && IsDramSouth(cfg, bank) == (south == 1)
    ensures bank.x == VcoreOrigin(cfg, pod).x + col && col < cfg.podShape.x
    ensures DramId(cfg, bank) == (pod.x * cfg.pods.y + pod.y) * (cfg.podShape.x * 2) + south * cfg.podShape.x + col
  {
    hide GoodPods, IsDramNorth, IsDramSouth, DramId, TileInPod, Pod, VcoreOrigin, Corner;
    PodOfMember(cfg, pod, bank);
    OriginValue(cfg, pod);
    DramIdValue(cfg, pod, bank);
  }

  /** 4x4 pods on HBM2: each quarter of the device has eight memories, two for each pod, one for each row of banks; the
  bank is the cache number modulo the caches of a channel. */
  lemma {:induction false} HbmPodsSlot(cfg: Config, pod: Coord, south: nat, col: nat, bank: Coord, n: nat)
    requires GoodPods(cfg) && IsX4Y4X16(cfg) && IsBank(cfg, pod, south, col, bank)
    requires cfg.memsys.channels > 0 && CachesPerChannel(cfg) > 0 && n == 512 / cfg.memsys.channels
    ensures SlotX4Y4Hbm(cfg, pod, bank).memory
            == pod.x / 2 * 16 + pod.y / 2 * 8 + pod.y % 2 * 4 + pod.x % 2 * 2 + south
    ensures n > 0 && SlotX4Y4Hbm(cfg, pod, bank).bank == (pod.x * 128 + pod.y * 32 + south * 16 + col) % n
  {
    hide GoodPods, IsBankOf, DramId, IsDramNorth, HbmMemory, Mod, CachesPerChannel, Div, VcoreOrigin, Corner, SouthRow;
    PerChannel(cfg);
    HbmMemoryForm(pod, south == 0);
    BankIs(cfg, pod, south, col, bank);
    DivIsQuotient(DramId(cfg, bank), n);
  }

  /** One pod on HBM2: the west half in memory 0, the east half in memory 1, the south row behind the north row. */
  lemma {:induction false} HbmOnePodSlot(cfg: Config, pod: Coord, south: nat, col: nat, bank: Coord)
    requires GoodPods(cfg) && cfg.podShape == Coord(16, 8) && IsBank(cfg, pod, south, col, bank)
    ensures SlotX1Y1Hbm(cfg, pod, bank) == Slot(col / 8, south * 8 + col % 8)
  {
    hide GoodPods, IsBankOf, IsDramNorth, VcoreOrigin, DramId, Corner, SouthRow, SlotX1Y1Hbm;
    BankIs(cfg, pod, south, col, bank);
    OnePodForm(cfg, pod, bank);
  }

  /** 4x4 pods on test memories: even and odd columns of each row of banks in a memory of their own. */
  lemma {:induction false} TestPodsSlot(cfg: Config, pod: Coord, south: nat, col: nat, bank: Coord)
    requires GoodPods(cfg) && IsX4Y4X16(cfg) && cfg.nocWidth.x == 7 && IsBank(cfg, pod, south, col, bank)
    ensures SlotX4Y4Test(cfg, pod, bank).memory
            == (if pod.x >= 2 then cfg.memsys.channels / 2 else 0) + pod.y * 4 + south * 2 + col % 2
    ensures SlotX4Y4Test(cfg, pod, bank).bank == pod.x % 2 * 8 + col / 2
  {
    hide GoodPods, IsBankOf, SlotX4Y4Test, IsDramNorth, VcoreOrigin, DramId, Corner, SouthRow;
    TestSlotForm(cfg, pod, bank);
    BankIs(cfg, pod, south, col, bank);
  }

  // -------------------- the address inside the memory --------------------

  /** A bank starts at its number times the size of a channel divided by its caches. */
  lemma {:induction false} PhysicalValue(cfg: Config, slot: Slot, memorySize: nat, epa: nat, n: nat, a: nat)
    requires cfg.memsys.channels > 0 && CachesPerChannel(cfg) > 0
    requires n == cfg.pods.x * cfg.pods.y * cfg.podShape.x * 2 / cfg.memsys.channels
    requires n > 0 && a == slot.bank * (memorySize / n) + epa
    ensures PhysicalOf(cfg, slot, memorySize, epa)
            == Physical(slot.memory,
                        if cfg.memsys.id == DramSim3 || cfg.memsys.id == Hbm2 then MapDramSim3(cfg.memsys, a) else a)
  {
    hide CachesPerChannel, Div, Mul, MapDramSim3;
    PerChannel(cfg);
    DivIsQuotient(memorySize, CachesPerChannel(cfg));
    MulIsTimes(slot.bank, BankSize(cfg, memorySize));
  }

  lemma {:induction false} FieldValue(f: BitField, a: nat)
    ensures FieldGet(f, a) == a / Pow2(f.bitidx) % Pow2(f.bits)
  {
    hide Shr, Low, Pow2;
    ShrIsQuotient(a, f.bitidx);
    ShrIsQuotient(Shr(a, f.bitidx), f.bits);
  }

  lemma {:induction false} AppendValue(v: nat, f: BitField, a: nat)
    ensures Or(Shl(v, f.bits), FieldGet(f, a)) == v * Pow2(f.bits) + a / Pow2(f.bitidx) % Pow2(f.bits)
  {
    hide Shl, Or, FieldGet, Pow2, Mul;
    FieldValue(f, a);
    AppendField(v, f, a);
    ShlIsMul(v, f.bits);
    MulIsTimes(v, Pow2(f.bits));
  }

  lemma {:induction false} HbmPowers()
    ensures Pow2(0) == 1 && Pow2(2) == 4 && Pow2(5) == 32 && Pow2(6) == 64 && Pow2(11) == 0x800 && Pow2(15) == 0x8000
    ensures Pow2(26) == 0x400_0000 && Pow2(28) == 0x1000_0000
  {
    SmallPow2();
    assert Pow2(6) == 64;
    assert Pow2(11) == 0x800;
    assert Pow2(15) == 0x8000;
    Pow2Values();
    Pow2Double(25);
    Pow2Double(24);
    Pow2Double(23);
    Pow2Double(26);
    Pow2Double(27);
  }

  /** The permutation of the shipped HBM2 layout: the low eleven bits stay, the bank moves from bit 28 to 11, the bank
  group from bit 26 to 13 and the row from bit 11 to 15. */
  lemma {:induction false} HbmAddress(channels: nat, bankSize: nat, a: nat)
    ensures MapDramSim3(Hbm2Memsys(channels, bankSize), a)
            == a / 0x800 % 0x8000 * 0x8000 + a / 0x400_0000 % 4 * 0x2000 + a / 0x1000_0000 % 4 * 0x800 + a % 0x800
  {
    var ms := Hbm2Memsys(channels, bankSize);
    var a0 := Or(0, FieldGet(ms.ro, a));
    assert a0 == FieldGet(ms.ro, a);
    HbmPowers();
    hide Or, Shl, FieldGet, Pow2;
    var ro, bg, ba, co, off := a / 0x800 % 0x8000, a / 0x400_0000 % 4, a / 0x1000_0000 % 4, a / 32 % 64, a % 32;
    FieldValue(ms.ro, a);
    AppendValue(a0, ms.bg, a);
    var a1 := Or(Shl(a0, ms.bg.bits), FieldGet(ms.bg, a));
    assert a1 == ro * 4 + bg;
    AppendValue(a1, ms.ba, a);
    var a2 := Or(Shl(a1, ms.ba.bits), FieldGet(ms.ba, a));
    assert a2 == a1 * 4 + ba;
    AppendValue(a2, ms.co, a);
    var a3 := Or(Shl(a2, ms.co.bits), FieldGet(ms.co, a));
    assert a3 == a2 * 64 + co;
    AppendValue(a3, ms.byteOffset, a);
    assert MapDramSim3(ms, a) == a3 * 32 + off;
    LowEleven(a);
  }

  lemma {:induction false} LowEleven(a: nat)
    ensures a % 0x800 == a / 32 % 64 * 32 + a % 32
  {
  }

  // -------------------- the shipped machine --------------------

  function Shipped(bankSize: nat): Config { BigBlade(Hbm2Memsys(32, bankSize)) }

  lemma {:induction false} ShippedBank(bankSize: nat, pod: Coord, south: nat, col: nat)
    requires pod.x < 4 && pod.y < 4 && south < 2 && col < 16
    ensures GoodPods(Shipped(bankSize)) && CachesPerChannel(Shipped(bankSize)) == 16
    ensures IsBank(Shipped(bankSize), pod, south, col,
                   Coord(16 * pod.x + 16 + col, if south == 1 then 16 * pod.y + 16 else 16 * pod.y + 7))
  {
    var cfg := Shipped(bankSize);
    BigBladeIsGood(cfg.memsys);
    BigBladeOrigin(cfg.memsys, pod);
    PerChannel(cfg);
    hide GoodPods, CachesPerChannel, VcoreOrigin, Corner, SouthRow;
    OriginValue(cfg, pod);
  }

  // What the tables say about a bank of that machine
  lemma {:induction false} ShippedSlot(bankSize: nat, memoryId: seq<nat>, bankId: seq<nat>,
                                       pod: Coord, south: nat, col: nat, bank: Coord)
    requires pod.x < 4 && pod.y < 4 && south < 2 && col < 16
    requires bank == Coord(16 * pod.x + 16 + col, if south == 1 then 16 * pod.y + 16 else 16 * pod.y + 7)
    requires TableHolds(Shipped(bankSize), memoryId, bankId, Slots(Shipped(bankSize), HbmPods))
    ensures var id := DramId(Shipped(bankSize), bank);
            && id < |memoryId| && id < |bankId| && bankId[id] == col
            && memoryId[id] == pod.x / 2 * 16 + pod.y / 2 * 8 + pod.y % 2 * 4 + pod.x % 2 * 2 + south
  {
    var cfg := Shipped(bankSize);
    ShippedBank(bankSize, pod, south, col);
    assert IsX4Y4X16(cfg) && cfg.memsys.channels == 32;
    hide GoodPods, IsBankOf, CachesPerChannel, SlotX4Y4Hbm, DramId, Corner, SouthRow, Shipped;
    HbmPodsSlot(cfg, pod, south, col, bank, 16);
    assert HasSlot(cfg, memoryId, bankId, bank, Slots(cfg, HbmPods)(pod, bank));
    ColumnIsRest(pod, south, col);
  }

  lemma {:induction false} ColumnIsRest(pod: Coord, south: nat, col: nat)
    requires col < 16
    ensures (pod.x * 128 + pod.y * 32 + south * 16 + col) % 16 == col
  {
  }

  /** On the 4x4-pod machine with 32 channels of 1 GiB, byte `e` behind bank `col` of a row lies in the memory of that
  row, with the row of the DRAM in the upper bits, and bank group and bank given by the column of the cache. */
  lemma {:induction false} ShippedByte(bankSize: nat, memoryId: seq<nat>, bankId: seq<nat>,
                                       pod: Coord, south: nat, col: nat, e: nat)
    requires pod.x < 4 && pod.y < 4 && south < 2 && col < 16 && e < 0x400_0000
    requires |memoryId| == |bankId| && TableHolds(Shipped(bankSize), memoryId, bankId, Slots(Shipped(bankSize), HbmPods))
    ensures var npa := Npa(16 * pod.x + 16 + col, if south == 1 then 16 * pod.y + 16 else 16 * pod.y + 7, e);
            && CachesPerChannel(Shipped(bankSize)) > 0 && DramId(Shipped(bankSize), Xy(npa)) < |memoryId|
            && var at := NpaToBuffer(Shipped(bankSize), memoryId, bankId, 0x4000_0000, npa);
               && at.memory == pod.x / 2 * 16 + pod.y / 2 * 8 + pod.y % 2 * 4 + pod.x % 2 * 2 + south
               && at.address == e / 0x800 * 0x8000 + col % 4 * 0x2000 + col / 4 * 0x800 + e % 0x800
  {
    var cfg := Shipped(bankSize);
    var npa := Npa(16 * pod.x + 16 + col, if south == 1 then 16 * pod.y + 16 else 16 * pod.y + 7, e);
    ShippedBank(bankSize, pod, south, col);
    ShippedSlot(bankSize, memoryId, bankId, pod, south, col, Xy(npa));
    hide GoodPods, IsBank, CachesPerChannel, DramId, MapDramSim3, PhysicalOf, TableHolds, Slots;
    var slot := Slot(memoryId[DramId(cfg, Xy(npa))], col);
    var a := col * 0x400_0000 + e;
    PhysicalValue(cfg, slot, 0x4000_0000, e, 16, a);
    HbmAddress(32, bankSize, a);
    AddressParts(col, e);
  }

  lemma {:induction false} AddressParts(col: nat, e: nat)
    requires col < 16 && e < 0x400_0000
    ensures var a := col * 0x400_0000 + e;
            a / 0x800 % 0x8000 == e / 0x800 && a / 0x400_0000 % 4 == col % 4 && a / 0x1000_0000 % 4 == col / 4
            && a % 0x800 == e % 0x800
  {
    var a := col * 0x400_0000 + e;
    assert a / 0x400_0000 == col;
    assert a / 0x800 == col * 0x8000 + e / 0x800;
    assert a / 0x1000_0000 == col / 4;
  }

  /** From the EVA of a tile down to the memory: bits 0-6 are the byte in a stripe, 7-10 the column, 11 the row of
  banks, and 12-30 the stripe. */
  lemma {:induction false} ShippedEva(bankSize: nat, memoryId: seq<nat>, bankId: seq<nat>, origin: Coord, src: Coord,
                                      pod: Coord, stripe: nat, south: nat, col: nat, off: nat)
    requires pod.x < 4 && pod.y < 4 && stripe < 0x8_0000 && south < 2 && col < 16 && off < 128
    requires BelongsTo(Shipped(bankSize), pod, src)
    requires |memoryId| == |bankId| && TableHolds(Shipped(bankSize), memoryId, bankId, Slots(Shipped(bankSize), HbmPods))
    ensures var cfg := Shipped(bankSize);
            var r := EvaToNpa(cfg, origin, src, 0x8000_0000 + stripe * 0x1000 + south * 0x800 + col * 0x80 + off);
            && r.Ok? && r.value.sz == 128 - off
            && CachesPerChannel(cfg) > 0 && DramId(cfg, Xy(r.value.npa)) < |memoryId|
            && var at := NpaToBuffer(cfg, memoryId, bankId, 0x4000_0000, r.value.npa);
               && at.memory == pod.x / 2 * 16 + pod.y / 2 * 8 + pod.y % 2 * 4 + pod.x % 2 * 2 + south
               && at.address == stripe / 16 * 0x8000 + col % 4 * 0x2000 + col / 4 * 0x800 + stripe % 16 * 128 + off
  {
    var cfg := Shipped(bankSize);
    hide BelongsTo, EvaToNpa, TableHolds, CachesPerChannel, DramId, NpaToBuffer, Slots;
    BigBladeDram(cfg.memsys, pod, origin, src, stripe, south, col, off);
    ShippedByte(bankSize, memoryId, bankId, pod, south, col, stripe * 128 + off);
    assert (stripe * 128 + off) / 0x800 == stripe / 16;
    assert (stripe * 128 + off) % 0x800 == stripe % 16 * 128 + off;
  }
}
