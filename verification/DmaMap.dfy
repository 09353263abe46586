/** From a cache and an EPA to a physical DRAM address.

libraries/features/dma/simulation/bsg_manycore_dma.cpp, libraries/bsg_manycore_memsys.c and
libraries/bsg_manycore_memsys.h
*/
module DmaMap {
  import opened Bits
  import opened Geometry
  import opened Eva
  import opened Wrappers

  // -------------------- DRAMSim3 address permutation --------------------

  function FieldGet(f: BitField, address: nat): nat { Low(Shr(address, f.bitidx), f.bits) }

  function MapDramSim3(ms: Memsys, address: nat): nat {
    var a := Or(0, FieldGet(ms.ro, address));
    var a := Or(Shl(a, ms.bg.bits), FieldGet(ms.bg, address));
    var a := Or(Shl(a, ms.ba.bits), FieldGet(ms.ba, address));
    var a := Or(Shl(a, ms.co.bits), FieldGet(ms.co, address));
    Or(Shl(a, ms.byteOffset.bits), FieldGet(ms.byteOffset, address))
  }

  function MapPhysical(ms: Memsys, address: nat): nat {
    if ms.id.DramSim3? || ms.id.Hbm2? then MapDramSim3(ms, address) else address
  }

  predicate FieldCovers(f: BitField, i: nat) { f.bitidx <= i < f.bitidx + f.bits }

  predicate Covered(ms: Memsys, i: nat) {
    FieldCovers(ms.ro, i) || FieldCovers(ms.bg, i) || FieldCovers(ms.ba, i) || FieldCovers(ms.co, i)
    || FieldCovers(ms.byteOffset, i)
  }

  ghost predicate CoversBits(ms: Memsys, n: nat) { forall i: nat :: i < n ==> Covered(ms, i) }

  // One step of the composition can be undone.
  lemma {:induction false} AppendField(a: nat, f: BitField, address: nat)
    ensures var v := FieldGet(f, address);
            Or(Shl(a, f.bits), v) == Shl(a, f.bits) + v
            && Shr(Or(Shl(a, f.bits), v), f.bits) == a && Low(Or(Shl(a, f.bits), v), f.bits) == v
  {
    hide Or, Shl, Shr, Low;
    OrDisjoint(a, f.bits, FieldGet(f, address));
    Join(a, f.bits, FieldGet(f, address));
  }

  lemma {:induction false} MapDeterminesFields(ms: Memsys, a: nat, b: nat)
    requires MapDramSim3(ms, a) == MapDramSim3(ms, b)
    ensures FieldGet(ms.ro, a) == FieldGet(ms.ro, b) && FieldGet(ms.bg, a) == FieldGet(ms.bg, b)
    ensures FieldGet(ms.ba, a) == FieldGet(ms.ba, b) && FieldGet(ms.co, a) == FieldGet(ms.co, b)
    ensures FieldGet(ms.byteOffset, a) == FieldGet(ms.byteOffset, b)
  {
    var a0, b0 := Or(0, FieldGet(ms.ro, a)), Or(0, FieldGet(ms.ro, b));
    assert a0 == FieldGet(ms.ro, a) && b0 == FieldGet(ms.ro, b);
    hide FieldGet, Or, Shl;
    var a1, b1 := Or(Shl(a0, ms.bg.bits), FieldGet(ms.bg, a)), Or(Shl(b0, ms.bg.bits), FieldGet(ms.bg, b));
    var a2, b2 := Or(Shl(a1, ms.ba.bits), FieldGet(ms.ba, a)), Or(Shl(b1, ms.ba.bits), FieldGet(ms.ba, b));
    var a3, b3 := Or(Shl(a2, ms.co.bits), FieldGet(ms.co, a)), Or(Shl(b2, ms.co.bits), FieldGet(ms.co, b));
    AppendField(a3, ms.byteOffset, a);
    AppendField(b3, ms.byteOffset, b);
    AppendField(a2, ms.co, a);
    AppendField(b2, ms.co, b);
    AppendField(a1, ms.ba, a);
    AppendField(b1, ms.ba, b);
    AppendField(a0, ms.bg, a);
    AppendField(b0, ms.bg, b);
  }

  lemma {:induction false} FieldBits(f: BitField, a: nat, b: nat, i: nat)
    requires FieldGet(f, a) == FieldGet(f, b) && FieldCovers(f, i)
    ensures Bit(a, i) == Bit(b, i)
  {
    hide Bit, Low, Shr;
    FieldBit(f, a, i - f.bitidx);
    FieldBit(f, b, i - f.bitidx);
  }

  lemma {:induction false} FieldBit(f: BitField, a: nat, k: nat)
    ensures Bit(FieldGet(f, a), k) == if k < f.bits then Bit(a, f.bitidx + k) else 0
  {
    hide Bit, Low, Shr;
    BitOfLow(Shr(a, f.bitidx), f.bits, k);
    BitOfShr(a, f.bitidx, k);
  }

  // The bits of a value and a field shifted in below it
  lemma {:induction false} AppendedBits(v: nat, f: BitField, a: nat, k: nat)
    ensures var r := Or(Shl(v, f.bits), FieldGet(f, a));
            && Bit(r, f.bits + k) == Bit(v, k)
            && (k < f.bits ==> Bit(r, k) == Bit(a, f.bitidx + k))
  {
    hide Bit, Low, Shr, Shl, Or, FieldGet;
    var r := Or(Shl(v, f.bits), FieldGet(f, a));
    AppendField(v, f, a);
    BitOfShr(r, f.bits, k);
    BitOfLow(r, f.bits, k);
    FieldBit(f, a, k);
  }

  lemma {:induction false} AppendedBound(v: nat, n: nat, f: BitField, a: nat)
    requires v < Pow2(n)
    ensures Or(Shl(v, f.bits), FieldGet(f, a)) < Pow2(f.bits + n)
  {
    hide Shl, Or, Pow2, Low;
    AppendField(v, f, a);
    BelowBlock(v, n, f.bits, FieldGet(f, a));
  }

  // Bit `i` of a value after a second field is shifted in below it
  lemma {:induction false} BitsAbove(v: nat, f: BitField, g: BitField, a: nat, i: nat)
    ensures Bit(Or(Shl(Or(Shl(v, f.bits), FieldGet(f, a)), g.bits), FieldGet(g, a)), g.bits + f.bits + i) == Bit(v, i)
  {
    hide Bit, Or, Shl, FieldGet;
    AppendedBits(v, f, a, i);
    AppendedBits(Or(Shl(v, f.bits), FieldGet(f, a)), g, a, f.bits + i);
  }

  /** The permutation bit by bit: from bit 0 on the byte offset, then the column, the bank, the bank group and the row,
  each taken from its own place in the address, ... */
  lemma {:induction false} PermutationBits(ms: Memsys, a: nat, k: nat)
    ensures k < ms.byteOffset.bits ==> Bit(MapDramSim3(ms, a), k) == Bit(a, ms.byteOffset.bitidx + k)
    ensures k < ms.co.bits ==> Bit(MapDramSim3(ms, a), ms.byteOffset.bits + k) == Bit(a, ms.co.bitidx + k)
    ensures k < ms.ba.bits ==>
              Bit(MapDramSim3(ms, a), ms.byteOffset.bits + ms.co.bits + k) == Bit(a, ms.ba.bitidx + k)
    ensures k < ms.bg.bits ==>
              Bit(MapDramSim3(ms, a), ms.byteOffset.bits + ms.co.bits + ms.ba.bits + k) == Bit(a, ms.bg.bitidx + k)
    ensures k < ms.ro.bits ==>
              Bit(MapDramSim3(ms, a), ms.byteOffset.bits + ms.co.bits + ms.ba.bits + ms.bg.bits + k)
              == Bit(a, ms.ro.bitidx + k)
  {
    var a0 := Or(0, FieldGet(ms.ro, a));
    assert a0 == FieldGet(ms.ro, a);
    hide Bit, Or, Shl, FieldGet;
    var a1 := Or(Shl(a0, ms.bg.bits), FieldGet(ms.bg, a));
    var a2 := Or(Shl(a1, ms.ba.bits), FieldGet(ms.ba, a));
    var a3 := Or(Shl(a2, ms.co.bits), FieldGet(ms.co, a));
    AppendedBits(a3, ms.byteOffset, a, k);
    AppendedBits(a3, ms.byteOffset, a, ms.co.bits + k);
    AppendedBits(a2, ms.co, a, k);
    UpperBits(ms, a, a0, k);
    assert k < ms.ro.bits ==> Bit(a0, k) == Bit(a, ms.ro.bitidx + k) by { FieldBit(ms.ro, a, k); }
  }

  // The fields above the column
  lemma {:induction false} UpperBits(ms: Memsys, a: nat, a0: nat, k: nat)
    ensures var a1 := Or(Shl(a0, ms.bg.bits), FieldGet(ms.bg, a));
            var a2 := Or(Shl(a1, ms.ba.bits), FieldGet(ms.ba, a));
            var a3 := Or(Shl(a2, ms.co.bits), FieldGet(ms.co, a));
            var r := Or(Shl(a3, ms.byteOffset.bits), FieldGet(ms.byteOffset, a));
            var n := ms.byteOffset.bits + ms.co.bits;
            && (k < ms.ba.bits ==> Bit(r, n + k) == Bit(a, ms.ba.bitidx + k))
            && (k < ms.bg.bits ==> Bit(r, n + ms.ba.bits + k) == Bit(a, ms.bg.bitidx + k))
            && Bit(r, n + ms.ba.bits + ms.bg.bits + k) == Bit(a0, k)
  {
    hide Bit, Or, Shl, FieldGet;
    var a1 := Or(Shl(a0, ms.bg.bits), FieldGet(ms.bg, a));
    var a2 := Or(Shl(a1, ms.ba.bits), FieldGet(ms.ba, a));
    BitsAbove(a2, ms.co, ms.byteOffset, a, k);
    BitsAbove(a2, ms.co, ms.byteOffset, a, ms.ba.bits + k);
    BitsAbove(a2, ms.co, ms.byteOffset, a, ms.ba.bits + ms.bg.bits + k);
    AppendedBits(a1, ms.ba, a, k);
    AppendedBits(a0, ms.bg, a, k);
    AppendedBits(a1, ms.ba, a, ms.bg.bits + k);
    BitsAbove(a0, ms.bg, ms.ba, a, k);
  }

  /** ... and nothing above. */
  lemma {:induction false} PermutationBound(ms: Memsys, a: nat)
    ensures MapDramSim3(ms, a) < Pow2(ms.byteOffset.bits + ms.co.bits + ms.ba.bits + ms.bg.bits + ms.ro.bits)
  {
    var a0 := Or(0, FieldGet(ms.ro, a));
    assert a0 == FieldGet(ms.ro, a) < Pow2(ms.ro.bits);
    hide Or, Shl, FieldGet, Pow2;
    var a1 := Or(Shl(a0, ms.bg.bits), FieldGet(ms.bg, a));
    var a2 := Or(Shl(a1, ms.ba.bits), FieldGet(ms.ba, a));
    var a3 := Or(Shl(a2, ms.co.bits), FieldGet(ms.co, a));
    var n1 := ms.bg.bits + ms.ro.bits;
    var n2 := ms.ba.bits + n1;
    var n3 := ms.co.bits + n2;
    AppendedBound(a0, ms.ro.bits, ms.bg, a);
    AppendedBound(a1, n1, ms.ba, a);
    AppendedBound(a2, n2, ms.co, a);
    AppendedBound(a3, n3, ms.byteOffset, a);
    assert ms.byteOffset.bits + n3 == ms.byteOffset.bits + ms.co.bits + ms.ba.bits + ms.bg.bits + ms.ro.bits;
  }

  lemma {:induction false} UncoveredFieldIsZero(f: BitField, i: nat)
    requires !FieldCovers(f, i)
    ensures FieldGet(f, Pow2(i)) == FieldGet(f, 0) == 0
  {
    hide Bit;
    forall a, k: nat | (a == 0 || a == Pow2(i)) && k < f.bits
      ensures Bit(FieldGet(f, a), k) == Bit(0, k)
    {
      FieldBit(f, a, k);
      BitOfZero(k);
      BitOfZero(f.bitidx + k);
      BitOfPow2(i, f.bitidx + k);
    }
    EqualBits(FieldGet(f, 0), 0, f.bits);
    EqualBits(FieldGet(f, Pow2(i)), 0, f.bits);
  }

  /** The permutation sends no two `n`-bit addresses to one if and only if its fields cover all `n` bits. */
  lemma {:induction false} PermutationInjective(ms: Memsys, n: nat)
    ensures (forall a: nat, b: nat :: a < Pow2(n) && b < Pow2(n) && MapDramSim3(ms, a) == MapDramSim3(ms, b) ==> a == b)
            <==> CoversBits(ms, n)
  {
    if CoversBits(ms, n) {
      forall a: nat, b: nat | a < Pow2(n) && b < Pow2(n) && MapDramSim3(ms, a) == MapDramSim3(ms, b)
        ensures a == b
      {
        CoveredInjective(ms, n, a, b);
      }
    } else {
      var i: nat :| i < n && !Covered(ms, i);
      hide MapDramSim3;
      Collision(ms, i);
      Pow2Monotone(i, n);
      assert MapDramSim3(ms, 0) == MapDramSim3(ms, Pow2(i));
    }
  }

  lemma {:induction false} CoveredInjective(ms: Memsys, n: nat, a: nat, b: nat)
    requires CoversBits(ms, n) && a < Pow2(n) && b < Pow2(n) && MapDramSim3(ms, a) == MapDramSim3(ms, b)
    ensures a == b
  {
    hide MapDramSim3, FieldGet, Bit, Pow2;
    MapDeterminesFields(ms, a, b);
    forall i: nat | i < n
      ensures Bit(a, i) == Bit(b, i)
    {
      assert Covered(ms, i);
      if FieldCovers(ms.ro, i) { FieldBits(ms.ro, a, b, i); }
      else if FieldCovers(ms.bg, i) { FieldBits(ms.bg, a, b, i); }
      else if FieldCovers(ms.ba, i) { FieldBits(ms.ba, a, b, i); }
      else if FieldCovers(ms.co, i) { FieldBits(ms.co, a, b, i); }
      else { FieldBits(ms.byteOffset, a, b, i); }
    }
    EqualBits(a, b, n);
  }

  // A bit in no field is lost.
  lemma {:induction false} Collision(ms: Memsys, i: nat)
    requires !Covered(ms, i)
    ensures MapDramSim3(ms, 0) == MapDramSim3(ms, Pow2(i))
  {
    hide FieldGet, Pow2, Or, Shl;
    UncoveredFieldIsZero(ms.ro, i);
    UncoveredFieldIsZero(ms.bg, i);
    UncoveredFieldIsZero(ms.ba, i);
    UncoveredFieldIsZero(ms.co, i);
    UncoveredFieldIsZero(ms.byteOffset, i);
  }

  // The column field lies directly above the byte offset, in the address and in memory.
  predicate ColumnAboveBytes(ms: Memsys) { ms.byteOffset.bitidx == 0 && ms.co.bitidx == ms.byteOffset.bits }

  // The `s` low address bits are low bits of the byte offset, or of the column above the byte offset, and belong to no
  // other field.
  predicate LowBitsPass(ms: Memsys, s: nat) {
    && ms.byteOffset.bitidx == 0
    && (|| (s <= ms.byteOffset.bits && s <= ms.co.bitidx)
        || (ColumnAboveBytes(ms) && s <= ms.byteOffset.bits + ms.co.bits))
    && s <= ms.ro.bitidx && s <= ms.bg.bitidx && s <= ms.ba.bitidx
  }

  lemma {:induction false} UpperField(f: BitField, a: nat, k: nat, s: nat)
    requires s <= f.bitidx && Low(a, s) + k < Pow2(s)
    ensures FieldGet(f, a + k) == FieldGet(f, a)
  {
    hide Low, Shr, Pow2;
    AddWithin(a, k, s);
    ShrAdd(a, s, f.bitidx - s);
    ShrAdd(a + k, s, f.bitidx - s);
  }

  // The fields above the column
  function UpperPart(ms: Memsys, a: nat): nat {
    Or(Shl(Or(Shl(Or(0, FieldGet(ms.ro, a)), ms.bg.bits), FieldGet(ms.bg, a)), ms.ba.bits), FieldGet(ms.ba, a))
  }

  lemma {:induction false} UpperPartKept(ms: Memsys, s: nat, a: nat, k: nat)
    requires LowBitsPass(ms, s) && Low(a, s) + k < Pow2(s)
    ensures UpperPart(ms, a + k) == UpperPart(ms, a)
  {
    hide Or, Shl, Pow2, Low, FieldGet;
    UpperField(ms.ro, a, k, s);
    UpperField(ms.bg, a, k, s);
    UpperField(ms.ba, a, k, s);
  }

  lemma {:induction false} MapInParts(ms: Memsys, a: nat)
    ensures MapDramSim3(ms, a)
            == Shl(Shl(UpperPart(ms, a), ms.co.bits) + FieldGet(ms.co, a), ms.byteOffset.bits) + FieldGet(ms.byteOffset, a)
  {
    hide Or, Shl, Low, FieldGet;
    AppendField(UpperPart(ms, a), ms.co, a);
    AppendField(Or(Shl(UpperPart(ms, a), ms.co.bits), FieldGet(ms.co, a)), ms.byteOffset, a);
  }

  // Column and byte offset together are the low bits of the address.
  lemma {:induction false} ColumnAndBytes(ms: Memsys, a: nat)
    requires ColumnAboveBytes(ms)
    ensures MapDramSim3(ms, a)
            == Shl(Shl(UpperPart(ms, a), ms.co.bits), ms.byteOffset.bits) + Low(a, ms.co.bits + ms.byteOffset.bits)
  {
    MapInParts(ms, a);
    assert Shr(a, 0) == a;
    hide MapDramSim3, UpperPart, Shl, Low, Shr;
    ShlPlus(Shl(UpperPart(ms, a), ms.co.bits), FieldGet(ms.co, a), ms.byteOffset.bits);
    LowSplit(a, ms.co.bits, ms.byteOffset.bits);
  }

  /** A chunk that stays inside an aligned block of `2^s` bytes is contiguous in physical memory when the `s` low bits
  pass through unchanged. */
  lemma {:induction false} ChunkContiguous(ms: Memsys, s: nat, a: nat, k: nat)
    requires LowBitsPass(ms, s) && Low(a, s) + k < Pow2(s)
    ensures MapPhysical(ms, a + k) == MapPhysical(ms, a) + k
  {
    hide MapDramSim3, UpperPart, Shl, Pow2, Low, Shr, FieldGet;
    if ColumnAboveBytes(ms) && s <= ms.byteOffset.bits + ms.co.bits {
      ContiguousInColumn(ms, s, a, k);
    } else {
      ContiguousInBytes(ms, s, a, k);
    }
  }

  lemma {:induction false} ContiguousInColumn(ms: Memsys, s: nat, a: nat, k: nat)
    requires LowBitsPass(ms, s) && ColumnAboveBytes(ms) && s <= ms.byteOffset.bits + ms.co.bits
    requires Low(a, s) + k < Pow2(s)
    ensures MapDramSim3(ms, a + k) == MapDramSim3(ms, a) + k
  {
    hide MapDramSim3, UpperPart, Shl, Pow2, Low, Shr, FieldGet;
    UpperPartKept(ms, s, a, k);
    ColumnAndBytes(ms, a);
    ColumnAndBytes(ms, a + k);
    LowerBits(ms.co.bits + ms.byteOffset.bits, a, k, s);
  }

  lemma {:induction false} ContiguousInBytes(ms: Memsys, s: nat, a: nat, k: nat)
    requires LowBitsPass(ms, s) && s <= ms.byteOffset.bits && s <= ms.co.bitidx
    requires Low(a, s) + k < Pow2(s)
    ensures MapDramSim3(ms, a + k) == MapDramSim3(ms, a) + k
  {
    hide MapDramSim3, UpperPart, Shl, Pow2, Low, Shr, FieldGet;
    UpperPartKept(ms, s, a, k);
    MapInParts(ms, a);
    MapInParts(ms, a + k);
    UpperField(ms.co, a, k, s);
    LowerField(ms.byteOffset, a, k, s);
  }

  lemma {:induction false} LowerBits(n: nat, a: nat, k: nat, s: nat)
    requires s <= n && Low(a, s) + k < Pow2(s)
    ensures Low(a + k, n) == Low(a, n) + k
  {
    hide Low, Shl, Pow2, Shr;
    var d := n - s;
    LowSplit(a, d, s);
    ShlBound(Low(Shr(a, s), d), d, s);
    BelowBlock(Low(Shr(a, s), d), d, s, Low(a, s) + k);
    AddWithin(a, k, n);
  }

  lemma {:induction false} LowerField(f: BitField, a: nat, k: nat, s: nat)
    requires f.bitidx == 0 && s <= f.bits && Low(a, s) + k < Pow2(s)
    ensures FieldGet(f, a + k) == FieldGet(f, a) + k
  {
    assert Shr(a, 0) == a && Shr(a + k, 0) == a + k;
    hide Low, Pow2, Shr;
    LowerBits(f.bits, a, k, s);
  }

  /** What the shipped HBM2 machines say about their memory */
  function Hbm2Memsys(channels: nat, bankSize: nat): Memsys {
    Memsys(Hbm2, channels, bankSize, BitField(15, 11), BitField(2, 26), BitField(2, 28), BitField(6, 5), BitField(5, 0))
  }

  /** The shipped HBM2 layout keeps all 30 address bits of a channel and passes stripes of up to 2 KiB through, in
  particular those of 128 bytes. */
  lemma {:induction false} Hbm2LayoutPasses(channels: nat, bankSize: nat)
    ensures CoversBits(Hbm2Memsys(channels, bankSize), 30)
    ensures forall s: nat :: LowBitsPass(Hbm2Memsys(channels, bankSize), s) <==> s <= 11
  {
    var ms := Hbm2Memsys(channels, bankSize);
    forall i: nat | i < 30
      ensures Covered(ms, i)
    {
      assert FieldCovers(ms.byteOffset, i) || FieldCovers(ms.co, i) || FieldCovers(ms.ro, i) || FieldCovers(ms.bg, i)
             || FieldCovers(ms.ba, i);
    }
  }

  // -------------------- which memory and bank a cache owns --------------------

  datatype Slot = Slot(memory: nat, bank: nat)

  function CachesPerChannel(cfg: Config): nat
    requires cfg.memsys.channels > 0
  {
    Div(NumDrams(cfg), cfg.memsys.channels)
  }

  // BigBlade: 4x4 pods of 16x8 on HBM2
  function HbmMemory(pod: Coord, north: bool): nat {
    var quadBase := (pod.x / 2) * 16 + (pod.y / 2) * 8;
    var podInQuad := if pod.y % 2 == 0 then (if pod.x % 2 == 0 then 0 else 2) else (if pod.x % 2 == 0 then 4 else 6);
    quadBase + podInQuad + if north then 0 else 1
  }

  function SlotX4Y4Hbm(cfg: Config, pod: Coord, bank: Coord): Slot
    requires cfg.memsys.channels > 0 && CachesPerChannel(cfg) > 0
  {
    Slot(HbmMemory(pod, IsDramNorth(cfg, bank)), Mod(DramId(cfg, bank), CachesPerChannel(cfg)))
  }

  // One pod of 16x8 on HBM2: a west and an east memory
  function SlotX1Y1Hbm(cfg: Config, pod: Coord, bank: Coord): Slot {
    var x := Sub32(bank.x, VcoreOrigin(cfg, pod).x);
    var half := cfg.podShape.x / 2;
    var north := IsDramNorth(cfg, bank);
    if x >= half then Slot(1, if north then Sub32(x, half) else x)
    else Slot(0, if north then x else x + half)
  }

  // BigBlade with wormhole test memories; `width` is the number of columns of a pod.
  function SlotX4Y4Test(cfg: Config, pod: Coord, bank: Coord): Slot {
    var east := pod.x >= cfg.pods.x / 2;
    var bx := 16 + if east then Mul(cfg.podShape.x, cfg.pods.x) / 2 else 0;
    var perRow := 2 * (cfg.pods.x / 2);
    var south := IsDramSouth(cfg, bank);
    Slot((if east then cfg.memsys.channels / 2 else 0) + Mul(pod.y, perRow) + (if south then perRow / 2 else 0) + bank.x % 2,
         Sub32(bank.x, bx) / 2)
  }

  function SlotDefault(cfg: Config, cache: nat): Slot
    requires cfg.memsys.channels > 0 && CachesPerChannel(cfg) > 0
  {
    Slot(Div(cache, CachesPerChannel(cfg)), Mod(cache, CachesPerChannel(cfg)))
  }

  lemma {:induction false} DefaultInjective(cfg: Config, i: nat, j: nat)
    requires cfg.memsys.channels > 0 && CachesPerChannel(cfg) > 0
    requires SlotDefault(cfg, i) == SlotDefault(cfg, j)
    ensures i == j
  {
    DivMod(i, CachesPerChannel(cfg));
    DivMod(j, CachesPerChannel(cfg));
  }

  // Equal remainders of close numbers
  lemma {:induction false} ModNear(a: nat, b: nat, m: nat)
    requires m > 0 && a <= b < a + m && Mod(a, m) == Mod(b, m)
    ensures a == b
  {
    hide Mul;
    DivMod(a, m);
    DivMod(b, m);
    if Div(a, m) < Div(b, m) {
      MulMonotone(Div(a, m), Div(b, m), m);
    } else {
      MulMonotone(Div(b, m), Div(a, m), m);
    }
  }

  predicate IsX4Y4X16(cfg: Config) { cfg.pods == Coord(4, 4) && cfg.podShape == Coord(16, 8) }

  // Column and row of a bank in its pod, as numbers
  lemma {:induction false} BankParts(cfg: Config, pod: Coord, c: Coord)
    requires GoodPods(cfg) && PodExists(cfg, pod) && IsBankOf(cfg, pod, c)
    ensures Pod(cfg, c) == pod
    ensures IsDramSouth(cfg, c) == !IsDramNorth(cfg, c)
    ensures var x := c.x - VcoreOrigin(cfg, pod).x;
            && 0 <= x < cfg.podShape.x
            && c.y == (if IsDramNorth(cfg, c) then NorthY(cfg, pod) else SouthY(cfg, pod))
            && PodDramId(cfg, c) == x + (if IsDramNorth(cfg, c) then 0 else cfg.podShape.x)
            && c.x < 256
  {
    hide GoodPods, Npod, TileInPod, Pod, VcoreOrigin, Corner, SouthRow;
    OriginValue(cfg, pod);
    PodOfMember(cfg, pod, c);
  }

  // Two banks of a pod with the same column and row are equal.
  lemma {:induction false} SameBank(cfg: Config, p: Coord, c: Coord, d: Coord)
    requires GoodPods(cfg) && PodExists(cfg, p) && IsBankOf(cfg, p, c) && IsBankOf(cfg, p, d)
    requires c.x == d.x && IsDramNorth(cfg, c) == IsDramNorth(cfg, d)
    ensures c == d
  {
    hide GoodPods, VcoreOrigin, NorthY, SouthY, IsDramNorth, IsDramSouth, Pod, PodDramId;
    BankParts(cfg, p, c);
    BankParts(cfg, p, d);
  }

  lemma {:induction false} HbmMemoryInjective(p: Coord, n: bool, q: Coord, m: bool)
    requires p.x < 4 && p.y < 4 && q.x < 4 && q.y < 4 && HbmMemory(p, n) == HbmMemory(q, m)
    ensures p == q && n == m
  {
    hide HbmMemory;
    HbmMemoryForm(p, n);
    HbmMemoryForm(q, m);
    FiveBits(p.x / 2, p.y / 2, p.y % 2, p.x % 2, if n then 0 else 1,
             q.x / 2, q.y / 2, q.y % 2, q.x % 2, if m then 0 else 1);
  }

  lemma {:induction false} FiveBits(a: nat, b: nat, c: nat, d: nat, e: nat, a': nat, b': nat, c': nat, d': nat, e': nat)
    requires a < 2 && b < 2 && c < 2 && d < 2 && e < 2 && a' < 2 && b' < 2 && c' < 2 && d' < 2 && e' < 2
    requires a * 16 + b * 8 + c * 4 + d * 2 + e == a' * 16 + b' * 8 + c' * 4 + d' * 2 + e'
    ensures a == a' && b == b' && c == c' && d == d' && e == e'
  {
  }

  lemma {:induction false} HbmMemoryForm(p: Coord, n: bool)
    requires p.x < 4 && p.y < 4
    ensures p.x == 2 * (p.x / 2) + p.x % 2 && p.y == 2 * (p.y / 2) + p.y % 2 && p.x / 2 < 2 && p.y / 2 < 2
    ensures HbmMemory(p, n) == (p.x / 2) * 16 + (p.y / 2) * 8 + (p.y % 2) * 4 + (p.x % 2) * 2 + (if n then 0 else 1)
  {
  }

  /** The HBM2 table gives every cache its own slot when at least 16 caches share a channel, as they do for every
  channel count that the memory system accepts and that divides the 512 caches. */
  lemma {:induction false} X4Y4HbmInjective(cfg: Config, p: Coord, c: Coord, q: Coord, d: Coord)
    requires GoodPods(cfg) && IsX4Y4X16(cfg)
    requires cfg.memsys.channels > 0 && CachesPerChannel(cfg) >= 16
    requires PodExists(cfg, p) && IsBankOf(cfg, p, c) && PodExists(cfg, q) && IsBankOf(cfg, q, d)
    requires SlotX4Y4Hbm(cfg, p, c) == SlotX4Y4Hbm(cfg, q, d)
    ensures p == q && c == d
  {
    hide GoodPods, VcoreOrigin, NorthY, SouthY, IsDramNorth, IsDramSouth, Pod, PodDramId, CachesPerChannel, Mod, Mul;
    HbmMemoryInjective(p, IsDramNorth(cfg, c), q, IsDramNorth(cfg, d));
    hide HbmMemory;
    BankParts(cfg, p, c);
    BankParts(cfg, q, d);
    var i, j := DramId(cfg, c), DramId(cfg, d);
    if i <= j {
      ModNear(i, j, CachesPerChannel(cfg));
    } else {
      ModNear(j, i, CachesPerChannel(cfg));
    }
    SameBank(cfg, p, c, d);
  }

  // The single-pod table in closed form; `x` is the column of the bank in its pod.
  function OnePodSlot(half: nat, north: bool, x: nat): Slot {
    if x >= half then Slot(1, if north then x - half else x) else Slot(0, if north then x else x + half)
  }

  lemma {:induction false} OnePodForm(cfg: Config, p: Coord, c: Coord)
    requires GoodPods(cfg) && PodExists(cfg, p) && IsBankOf(cfg, p, c)
    ensures var x := c.x - VcoreOrigin(cfg, p).x;
            0 <= x < cfg.podShape.x
            && SlotX1Y1Hbm(cfg, p, c) == OnePodSlot(cfg.podShape.x / 2, IsDramNorth(cfg, c), x)
  {
    hide GoodPods, VcoreOrigin, NorthY, SouthY, IsDramNorth, IsDramSouth, IsBankOf, Pod, PodDramId;
    BankParts(cfg, p, c);
  }

  /** The single-pod HBM2 table gives every cache its own slot. */
  lemma {:induction false} X1Y1HbmInjective(cfg: Config, p: Coord, c: Coord, d: Coord)
    requires GoodPods(cfg) && cfg.podShape.x % 2 == 0
    requires PodExists(cfg, p) && IsBankOf(cfg, p, c) && IsBankOf(cfg, p, d)
    requires SlotX1Y1Hbm(cfg, p, c) == SlotX1Y1Hbm(cfg, p, d)
    ensures c == d
  {
    hide GoodPods, VcoreOrigin, IsDramNorth, IsBankOf, SlotX1Y1Hbm;
    OnePodForm(cfg, p, c);
    OnePodForm(cfg, p, d);
    SameBank(cfg, p, c, d);
  }

  // No slot of the test-memory table is used twice.
  ghost predicate TestTableInjective(cfg: Config) {
    forall p, c, q, d ::
      PodExists(cfg, p) && IsBankOf(cfg, p, c) && PodExists(cfg, q) && IsBankOf(cfg, q, d)
      && SlotX4Y4Test(cfg, p, c) == SlotX4Y4Test(cfg, q, d)
      ==> p == q && c == d
  }

  /** The test-memory table gives every cache its own slot if and only if there are at least 32 memories; with fewer
  the east half reuses memories of the west half. */
  lemma {:induction false} X4Y4TestInjective(cfg: Config)
    requires GoodPods(cfg) && IsX4Y4X16(cfg) && cfg.nocWidth.x == 7
    ensures TestTableInjective(cfg) <==> cfg.memsys.channels >= 32
  {
    hide GoodPods, IsBankOf, SlotX4Y4Test;
    if cfg.memsys.channels >= 32 {
      forall p, c, q, d |
        PodExists(cfg, p) && IsBankOf(cfg, p, c) && PodExists(cfg, q) && IsBankOf(cfg, q, d)
        && SlotX4Y4Test(cfg, p, c) == SlotX4Y4Test(cfg, q, d)
        ensures p == q && c == d
      {
        TestSlotInjective(cfg, p, c, q, d);
      }
    } else {
      TestCollision(cfg);
    }
  }

  // The table entry in closed form; `x` is the column of the bank in its pod.
  function TestSlot(channels: nat, p: Coord, north: bool, x: nat): Slot {
    Slot((if p.x >= 2 then channels / 2 else 0) + 4 * p.y + (if north then 0 else 2) + x % 2, 8 * (p.x % 2) + x / 2)
  }

  lemma {:induction false} TestSlotForm(cfg: Config, p: Coord, c: Coord)
    requires GoodPods(cfg) && IsX4Y4X16(cfg) && cfg.nocWidth.x == 7 && PodExists(cfg, p) && IsBankOf(cfg, p, c)
    ensures var x := c.x - VcoreOrigin(cfg, p).x;
            0 <= x < 16 && SlotX4Y4Test(cfg, p, c) == TestSlot(cfg.memsys.channels, p, IsDramNorth(cfg, c), x)
  {
    hide GoodPods, IsDramNorth, IsDramSouth, Pod, PodDramId, Mul, NorthY, SouthY, VcoreOrigin, IsBankOf, Sub32;
    BankParts(cfg, p, c);
    OriginColumn(cfg, p);
    MulIsTimes(16, 4);
    MulIsTimes(p.y, 4);
    TestColumn(p.x, c.x - VcoreOrigin(cfg, p).x);
  }

  // The bank column relative to the half of the device it is in
  lemma {:induction false} TestColumn(px: nat, x: nat)
    requires px < 4 && x < 16
    ensures (16 * px + 16 + x) % 2 == x % 2
    ensures Sub32(16 * px + 16 + x, 16 + if px >= 2 then 32 else 0) / 2 == 8 * (px % 2) + x / 2
  {
    var half := if px >= 2 then 2 else 0;
    assert px % 2 == px - half;
    assert Sub32(16 * px + 16 + x, 16 + 16 * half) == 16 * (px - half) + x;
  }

  lemma {:induction false} OriginColumn(cfg: Config, p: Coord)
    requires GoodPods(cfg) && cfg.nocWidth.x == 7 && PodExists(cfg, p)
    ensures VcoreOrigin(cfg, p).x == 16 * p.x + 16
  {
    hide GoodPods, VcoreOrigin, Shl, Pow2, Mul;
    OriginValue(cfg, p);
    TileWidthValue(cfg);
    SmallPow2();
    ShlIsMul(p.x + 1, 4);
    MulIsTimes(p.x + 1, 16);
  }

  lemma {:induction false} TestSlotDecodes(channels: nat, p: Coord, n: bool, x: nat, q: Coord, m: bool, y: nat)
    requires channels >= 32 && p.x < 4 && p.y < 4 && q.x < 4 && q.y < 4 && x < 16 && y < 16
    requires TestSlot(channels, p, n, x) == TestSlot(channels, q, m, y)
    ensures p == q && n == m && x == y
  {
    TestSlotParts(channels, p, n, x);
    TestSlotParts(channels, q, m, y);
    assert (p.x >= 2) == (q.x >= 2);
    assert p.x % 2 == q.x % 2 && p.x / 2 == q.x / 2;
    assert x == 2 * (x / 2) + x % 2 && y == 2 * (y / 2) + y % 2;
  }

  lemma {:induction false} TestSlotParts(channels: nat, p: Coord, n: bool, x: nat)
    requires channels >= 32 && p.x < 4 && p.y < 4 && x < 16
    ensures var t := TestSlot(channels, p, n, x);
            var m := t.memory - (if p.x >= 2 then channels / 2 else 0);
            && 0 <= m < 16 && m % 2 == x % 2 && m / 2 % 2 == (if n then 0 else 1) && m / 4 == p.y
            && t.bank / 8 == p.x % 2 && t.bank % 8 == x / 2 && p.x / 2 == (if p.x >= 2 then 1 else 0)
  {
  }

  lemma {:induction false} TestSlotInjective(cfg: Config, p: Coord, c: Coord, q: Coord, d: Coord)
    requires GoodPods(cfg) && IsX4Y4X16(cfg) && cfg.nocWidth.x == 7 && cfg.memsys.channels >= 32
    requires PodExists(cfg, p) && IsBankOf(cfg, p, c) && PodExists(cfg, q) && IsBankOf(cfg, q, d)
    requires SlotX4Y4Test(cfg, p, c) == SlotX4Y4Test(cfg, q, d)
    ensures p == q && c == d
  {
    hide GoodPods, IsDramNorth, IsDramSouth, SlotX4Y4Test, IsBankOf, VcoreOrigin, TestSlot;
    TestSlotForm(cfg, p, c);
    TestSlotForm(cfg, q, d);
    TestSlotDecodes(cfg.memsys.channels, p, IsDramNorth(cfg, c), c.x - VcoreOrigin(cfg, p).x,
                    q, IsDramNorth(cfg, d), d.x - VcoreOrigin(cfg, q).x);
    SameBank(cfg, p, c, d);
  }

  // The first memory of the east half is memory `channels / 2`, which the west half also uses.
  lemma {:induction false} TestCollision(cfg: Config)
    requires GoodPods(cfg) && IsX4Y4X16(cfg) && cfg.nocWidth.x == 7 && cfg.memsys.channels < 32
    ensures !TestTableInjective(cfg)
  {
    hide GoodPods, IsDramNorth, IsDramSouth, SlotX4Y4Test, IsBankOf, VcoreOrigin, TestSlot, PodDram, NorthY, SouthY;
    var m := cfg.memsys.channels / 2;
    var p, q := Coord(0, m / 4), Coord(2, 0);
    var n := m / 2 % 2 == 0;
    var k := (if n then 0 else 16) + m % 2;
    TestCollisionSlots(cfg.memsys.channels);
    var c, d := PodDram(cfg, p, k), PodDram(cfg, q, 0);
    PodDramInverse(cfg, p, k);
    PodDramInverse(cfg, q, 0);
    BankParts(cfg, p, c);
    BankParts(cfg, q, d);
    TestSlotForm(cfg, p, c);
    TestSlotForm(cfg, q, d);
    BankRow(cfg, p, k);
    BankRow(cfg, q, 0);
    assert SlotX4Y4Test(cfg, p, c) == SlotX4Y4Test(cfg, q, d);
  }

  lemma {:induction false} BankRow(cfg: Config, p: Coord, k: nat)
    requires GoodPods(cfg) && PodExists(cfg, p) && k < 2 * cfg.podShape.x
    ensures IsDramNorth(cfg, PodDram(cfg, p, k)) == (k < cfg.podShape.x)
  {
    hide GoodPods, IsDramNorth, IsDramSouth, VcoreOrigin, PodDram;
    PodDramInverse(cfg, p, k);
    PodOfMember(cfg, p, PodDram(cfg, p, k));
  }

  lemma {:induction false} TestCollisionSlots(channels: nat)
    requires channels < 32
    ensures var m := channels / 2;
            TestSlot(channels, Coord(0, m / 4), m / 2 % 2 == 0, m % 2) == TestSlot(channels, Coord(2, 0), true, 0)
  {
  }

  // -------------------- filling the tables --------------------

  predicate HasSlot(cfg: Config, memoryId: seq<nat>, bankId: seq<nat>, c: Coord, slot: Slot) {
    var id := DramId(cfg, c);
    id < |memoryId| && id < |bankId| && memoryId[id] == slot.memory && bankId[id] == slot.bank
  }

  // Every bank of every pod has the slot that `slot` gives it.
  ghost predicate TableHolds(cfg: Config, memoryId: seq<nat>, bankId: seq<nat>, slot: (Coord, Coord) -> Slot) {
    forall p, c :: PodExists(cfg, p) && IsBankOf(cfg, p, c) ==> HasSlot(cfg, memoryId, bankId, c, slot(p, c))
  }

  // The four tables as functions of a pod and one of its banks
  datatype Table = DefaultTable | HbmPods | HbmOnePod | TestPods

  function SlotOf(cfg: Config, t: Table, pod: Coord, bank: Coord): Slot {
    match t
    case HbmOnePod => SlotX1Y1Hbm(cfg, pod, bank)
    case TestPods => SlotX4Y4Test(cfg, pod, bank)
    case _ =>
      // both divide by the number of caches per channel
      if cfg.memsys.channels == 0 || CachesPerChannel(cfg) == 0 then Slot(0, 0)
      else if t.HbmPods? then SlotX4Y4Hbm(cfg, pod, bank)
      else SlotDefault(cfg, DramId(cfg, bank))
  }

  function Slots(cfg: Config, t: Table): (Coord, Coord) -> Slot {
    (pod, bank) => SlotOf(cfg, t, pod, bank)
  }

  // `hb_mc_dma_init`: which table a configuration uses; none when DMA is switched off or the tables stay unset
  function TableFor(cfg: Config): Option<Table> {
    var bigblade := cfg.podShape == Coord(16, 8);
    if cfg.memsys.id.Hbm2? && bigblade then
      if cfg.pods == Coord(4, 4) then Some(HbmPods)
      else if cfg.pods == Coord(1, 1) then Some(HbmOnePod)
      else None
    else if cfg.memsys.id.TestMem? && bigblade then
      if cfg.pods == Coord(4, 4) then Some(TestPods) else None
    else Some(DefaultTable)
  }

  class DmaTables {
    const memoryId: array<nat>
    const bankId: array<nat>

    constructor (caches: nat)
      ensures fresh(memoryId) && fresh(bankId) && memoryId != bankId
      ensures memoryId.Length == bankId.Length == caches
    {
      memoryId := new nat[caches];
      bankId := new nat[caches];
    }

    ghost predicate Sized(cfg: Config) {
      memoryId != bankId && memoryId.Length == bankId.Length == NumDrams(cfg)
    }

    // The loops over pods and their banks that the specialised builders share
    method InitByPod(cfg: Config, slot: (Coord, Coord) -> Slot)
      requires GoodPods(cfg) && Sized(cfg)
      modifies memoryId, bankId
      ensures TableHolds(cfg, memoryId[..], bankId[..], slot)
    {
      hide GoodPods, IsBankOf, PodDram, PodDramId, DramId, NumDrams, DramStart, DramStop, DramNext;
      var zero := Coord(0, 0);
      var pod := zero;
      ScanStart(zero, cfg.pods);
      ShapeBound(cfg);
      while !Stop(pod, zero, cfg.pods)
        invariant ScanAt(pod, zero, cfg.pods)
        invariant forall p, c :: PodExists(cfg, p) && IsBankOf(cfg, p, c) && Before(p, pod) ==>
                    HasSlot(cfg, memoryId[..], bankId[..], c, slot(p, c))
        decreases cfg.pods.x - pod.x, cfg.pods.y - pod.y
      {
        ScanStep(pod, zero, cfg.pods);
        DramIteration(cfg, pod, 0);
        BankNumbers(cfg, pod);
        var dram := DramStart(cfg, pod);
        ghost var k: nat := 0;
        while !DramStop(cfg, pod, dram)
          invariant k <= 2 * cfg.podShape.x
          invariant k < 2 * cfg.podShape.x ==> dram == PodDram(cfg, pod, k)
          invariant DramStop(cfg, pod, dram) <==> k == 2 * cfg.podShape.x
          invariant forall p, c :: PodExists(cfg, p) && IsBankOf(cfg, p, c)
                                   && (Before(p, pod) || (p == pod && PodDramId(cfg, c) < k)) ==>
                      HasSlot(cfg, memoryId[..], bankId[..], c, slot(p, c))
          decreases 2 * cfg.podShape.x - k
        {
          OneMoreBank(cfg, pod, k);
          DramIdsDiffer(cfg, pod, dram);
          DramIteration(cfg, pod, k);
          var id := DramId(cfg, dram);
          var s := slot(pod, dram);
          memoryId[id] := s.memory;
          bankId[id] := s.bank;
          dram := DramNext(cfg, pod, dram);
          k := k + 1;
          if k < 2 * cfg.podShape.x { DramIteration(cfg, pod, k); }
        }
        pod := Next(pod, zero, cfg.pods);
      }
    }

    method InitDefault(cfg: Config)
      requires Sized(cfg) && cfg.memsys.channels > 0 && CachesPerChannel(cfg) > 0
      modifies memoryId, bankId
      ensures forall id :: 0 <= id < NumDrams(cfg) ==>
                Slot(memoryId[id], bankId[id]) == SlotDefault(cfg, id)
    {
      hide NumDrams, CachesPerChannel;
      for id := 0 to memoryId.Length
        invariant forall i :: 0 <= i < id ==> Slot(memoryId[i], bankId[i]) == SlotDefault(cfg, i)
      {
        var perChannel := CachesPerChannel(cfg);
        memoryId[id] := Div(id, perChannel);
        bankId[id] := Mod(id, perChannel);
      }
    }

    /** `hb_mc_dma_init`: every bank of every pod gets the slot of the table that the configuration selects; without such
    a table nothing is filled in. */
    method Init(cfg: Config) returns (t: Option<Table>)
      requires GoodPods(cfg) && Sized(cfg) && cfg.memsys.channels > 0 && CachesPerChannel(cfg) > 0
      modifies memoryId, bankId
      ensures t == TableFor(cfg)
      ensures t.Some? ==> TableHolds(cfg, memoryId[..], bankId[..], Slots(cfg, t.value))
    {
      hide GoodPods, IsBankOf, NumDrams, CachesPerChannel, SlotX4Y4Hbm, SlotX1Y1Hbm, SlotX4Y4Test, SlotDefault, DramId;
      var bigblade := cfg.podShape == Coord(16, 8);
      if cfg.memsys.id.Hbm2? && bigblade && cfg.pods == Coord(4, 4) {
        InitByPod(cfg, (p, c) => SlotOf(cfg, HbmPods, p, c));
        t := Some(HbmPods);
      } else if cfg.memsys.id.Hbm2? && bigblade && cfg.pods == Coord(1, 1) {
        InitByPod(cfg, (p, c) => SlotOf(cfg, HbmOnePod, p, c));
        t := Some(HbmOnePod);
      } else if cfg.memsys.id.Hbm2? && bigblade {
        t := None;
      } else if cfg.memsys.id.TestMem? && bigblade {
        if cfg.pods == Coord(4, 4) {
          InitByPod(cfg, (p, c) => SlotOf(cfg, TestPods, p, c));
          t := Some(TestPods);
        } else {
          t := None;
        }
      } else {
        InitDefault(cfg);
        DefaultHolds(cfg, memoryId[..], bankId[..]);
        t := Some(DefaultTable);
      }
    }
  }

  lemma {:induction false} DefaultHolds(cfg: Config, memoryId: seq<nat>, bankId: seq<nat>)
    requires GoodPods(cfg) && cfg.memsys.channels > 0 && CachesPerChannel(cfg) > 0
    requires |memoryId| == |bankId| == NumDrams(cfg)
    requires forall id :: 0 <= id < NumDrams(cfg) ==> Slot(memoryId[id], bankId[id]) == SlotDefault(cfg, id)
    ensures TableHolds(cfg, memoryId, bankId, Slots(cfg, DefaultTable))
  {
    hide GoodPods, IsBankOf, NumDrams, CachesPerChannel, SlotDefault, DramId;
    forall p, c | PodExists(cfg, p) && IsBankOf(cfg, p, c)
      ensures HasSlot(cfg, memoryId, bankId, c, Slots(cfg, DefaultTable)(p, c))
    {
      DramOfDramId(cfg, p, c);
      assert Slot(memoryId[DramId(cfg, c)], bankId[DramId(cfg, c)]) == SlotDefault(cfg, DramId(cfg, c));
    }
  }

  // The table sends no two banks to one slot.
  ghost predicate SlotsInjective(cfg: Config, slot: (Coord, Coord) -> Slot) {
    forall p, c, q, d ::
      PodExists(cfg, p) && IsBankOf(cfg, p, c) && PodExists(cfg, q) && IsBankOf(cfg, q, d) && slot(p, c) == slot(q, d)
      ==> p == q && c == d
  }

  /** Every table that a configuration can select separates the banks; the test-memory table needs 32 memories. */
  lemma {:induction false} SelectedTableInjective(cfg: Config, t: Table)
    requires GoodPods(cfg) && TableFor(cfg) == Some(t)
    requires cfg.memsys.channels > 0 && CachesPerChannel(cfg) > 0
    requires t.HbmPods? ==> CachesPerChannel(cfg) >= 16
    requires t.TestPods? ==> cfg.nocWidth.x == 7 && cfg.memsys.channels >= 32
    ensures SlotsInjective(cfg, Slots(cfg, t))
  {
    hide GoodPods, IsBankOf, SlotX4Y4Hbm, SlotX1Y1Hbm, SlotX4Y4Test, SlotDefault, CachesPerChannel;
    forall p, c, q, d |
      PodExists(cfg, p) && IsBankOf(cfg, p, c) && PodExists(cfg, q) && IsBankOf(cfg, q, d)
      && Slots(cfg, t)(p, c) == Slots(cfg, t)(q, d)
      ensures p == q && c == d
    {
      match t
      case HbmPods => X4Y4HbmInjective(cfg, p, c, q, d);
      case TestPods => TestSlotInjective(cfg, p, c, q, d);
      case HbmOnePod =>
        assert p == q;
        X1Y1HbmInjective(cfg, p, c, d);
      case DefaultTable =>
        DefaultInjective(cfg, DramId(cfg, c), DramId(cfg, d));
        DramIdsDiffer(cfg, p, c);
    }
  }

  // Every bank number is below the number of caches per channel.
  ghost predicate SlotsFit(cfg: Config, slot: (Coord, Coord) -> Slot)
    requires cfg.memsys.channels > 0
  {
    forall p, c :: PodExists(cfg, p) && IsBankOf(cfg, p, c) ==> slot(p, c).bank < CachesPerChannel(cfg)
  }

  /** The banks of a selected table fit their memory: always for the two tables that divide by the number of caches per
  channel, and for the other two if and only if 16 caches share a channel. */
  lemma {:induction false} SelectedTableFits(cfg: Config, t: Table)
    requires GoodPods(cfg) && TableFor(cfg) == Some(t)
    requires cfg.memsys.channels > 0 && CachesPerChannel(cfg) > 0
    requires t.TestPods? ==> cfg.nocWidth.x == 7
    ensures SlotsFit(cfg, Slots(cfg, t)) <==> (t.HbmOnePod? || t.TestPods? ==> CachesPerChannel(cfg) >= 16)
  {
    hide GoodPods, IsBankOf, SlotX1Y1Hbm, SlotX4Y4Test, CachesPerChannel, HbmMemory, DramId, VcoreOrigin, IsDramNorth;
    if t.HbmOnePod? || t.TestPods? ==> CachesPerChannel(cfg) >= 16 {
      forall p, c | PodExists(cfg, p) && IsBankOf(cfg, p, c)
        ensures Slots(cfg, t)(p, c).bank < CachesPerChannel(cfg)
      {
        match t
        case HbmOnePod => OnePodForm(cfg, p, c);
        case TestPods => TestSlotForm(cfg, p, c);
        case _ =>
      }
    } else {
      var p, k := LastBank(cfg, t);
      assert Slots(cfg, t)(p, PodDram(cfg, p, k)).bank == 15;
    }
  }

  // A bank that the special tables number 15
  lemma {:induction false} LastBank(cfg: Config, t: Table) returns (p: Coord, k: nat)
    requires GoodPods(cfg) && TableFor(cfg) == Some(t) && (t.HbmOnePod? || t.TestPods?)
    requires t.TestPods? ==> cfg.nocWidth.x == 7
    ensures PodExists(cfg, p) && k < 2 * cfg.podShape.x && IsBankOf(cfg, p, PodDram(cfg, p, k))
    ensures Slots(cfg, t)(p, PodDram(cfg, p, k)).bank == 15
  {
    hide GoodPods, IsBankOf, SlotX1Y1Hbm, SlotX4Y4Test, VcoreOrigin, IsDramNorth, PodDram;
    p, k := if t.HbmOnePod? then Coord(0, 0) else Coord(1, 0), if t.HbmOnePod? then 23 else 15;
    PodDramInverse(cfg, p, k);
    BankRow(cfg, p, k);
    match t
    case HbmOnePod => OnePodForm(cfg, p, PodDram(cfg, p, k));
    case TestPods => TestSlotForm(cfg, p, PodDram(cfg, p, k));
  }

  // -------------------- physical addresses --------------------

  datatype Physical = Physical(memory: nat, address: nat)

  // Bytes of a memory that one cache owns
  function BankSize(cfg: Config, memorySize: nat): nat
    requires cfg.memsys.channels > 0 && CachesPerChannel(cfg) > 0
  {
    Div(memorySize, CachesPerChannel(cfg))
  }

  function PhysicalOf(cfg: Config, slot: Slot, memorySize: nat, epa: nat): Physical
    requires cfg.memsys.channels > 0 && CachesPerChannel(cfg) > 0
  {
    Physical(slot.memory, MapPhysical(cfg.memsys, Mul(slot.bank, BankSize(cfg, memorySize)) + epa))
  }

  /** DMA does not compare an EPA with the bank size: past its end a bank continues as the next one. */
  lemma {:induction false} PastTheBank(cfg: Config, slot: Slot, memorySize: nat, k: nat)
    requires cfg.memsys.channels > 0 && CachesPerChannel(cfg) > 0
    ensures PhysicalOf(cfg, slot, memorySize, BankSize(cfg, memorySize) + k)
            == PhysicalOf(cfg, Slot(slot.memory, slot.bank + 1), memorySize, k)
  {
    hide MapPhysical, BankSize, CachesPerChannel;
    var size := BankSize(cfg, memorySize);
    MulPlus(slot.bank, 1, size);
    MulIsTimes(1, size);
  }

  // `hb_mc_dma_npa_to_buffer`
  function NpaToBuffer(cfg: Config, memoryId: seq<nat>, bankId: seq<nat>, memorySize: nat, npa: Npa): Physical
    requires cfg.memsys.channels > 0 && CachesPerChannel(cfg) > 0
    requires DramId(cfg, Xy(npa)) < |memoryId| == |bankId|
  {
    var id := DramId(cfg, Xy(npa));
    PhysicalOf(cfg, Slot(memoryId[id], bankId[id]), memorySize, npa.epa)
  }

  /** No aliasing in the DMA path: with a table that separates the banks and a permutation that covers the address
  bits of a channel, distinct bytes behind the caches lie at distinct physical addresses. */
  lemma {:induction false} NoAliasing(cfg: Config, slot: (Coord, Coord) -> Slot, memoryId: seq<nat>, bankId: seq<nat>,
                                      memorySize: nat, bits: nat, p: Coord, m: Npa, q: Coord, n: Npa)
    requires cfg.memsys.channels > 0 && CachesPerChannel(cfg) > 0
    requires |memoryId| == |bankId|
    requires SlotsInjective(cfg, slot) && TableHolds(cfg, memoryId, bankId, slot)
    requires cfg.memsys.id.DramSim3? || cfg.memsys.id.Hbm2? ==> CoversBits(cfg.memsys, bits)
    requires SlotsFit(cfg, slot) && memorySize <= Pow2(bits)
    requires PodExists(cfg, p) && IsBankOf(cfg, p, Xy(m)) && m.epa < BankSize(cfg, memorySize)
    requires PodExists(cfg, q) && IsBankOf(cfg, q, Xy(n)) && n.epa < BankSize(cfg, memorySize)
    requires NpaToBuffer(cfg, memoryId, bankId, memorySize, m) == NpaToBuffer(cfg, memoryId, bankId, memorySize, n)
    ensures m == n
  {
    hide IsBankOf, DramId, CachesPerChannel, BankSize, Mul, MapDramSim3, Pow2, CoversBits;
    var size := BankSize(cfg, memorySize);
    var s, t := slot(p, Xy(m)), slot(q, Xy(n));
    assert HasSlot(cfg, memoryId, bankId, Xy(m), s) && HasSlot(cfg, memoryId, bankId, Xy(n), t);
    AddressInMemory(cfg, s.bank, memorySize, m.epa);
    AddressInMemory(cfg, t.bank, memorySize, n.epa);
    var a, b := Mul(s.bank, size) + m.epa, Mul(t.bank, size) + n.epa;
    if cfg.memsys.id.DramSim3? || cfg.memsys.id.Hbm2? {
      CoveredInjective(cfg.memsys, bits, a, b);
    }
    assert a == b;
    DivModOf(s.bank, size, m.epa);
    DivModOf(t.bank, size, n.epa);
  }

  lemma {:induction false} AddressInMemory(cfg: Config, bank: nat, memorySize: nat, epa: nat)
    requires cfg.memsys.channels > 0 && CachesPerChannel(cfg) > 0 && bank < CachesPerChannel(cfg)
    requires epa < BankSize(cfg, memorySize)
    ensures Mul(bank, BankSize(cfg, memorySize)) + epa < memorySize
  {
    hide CachesPerChannel, Mul;
    var c, size := CachesPerChannel(cfg), BankSize(cfg, memorySize);
    DivMod(memorySize, c);
    MulMonotone(bank, c, size);
    MulComm(c, size);
  }

  lemma {:induction false} MulComm(a: nat, b: nat)
    ensures Mul(a, b) == Mul(b, a)
  {
    MulIsTimes(a, b);
    MulIsTimes(b, a);
  }
}
