/** Victim caches, their whole-pod sweeps, and DMA behind them.

libraries/bsg_manycore_vcache.h, libraries/bsg_manycore.cpp (flush, invalidate, DMA) and libraries/bsg_manycore_cuda.cpp
(DMA jobs). The caches themselves are hardware; their commands carry the contracts written here.
*/
module VCache {
  import opened Bits
  import opened Quotients
  import opened Geometry
  import opened Eva

  // -------------------- tag addresses --------------------

  const TAG_BASE: nat := 0x2000_0000

  function Popcount(n: nat): nat { if n == 0 then 0 else n % 2 + Popcount(n / 2) }

  function SetShift(cfg: Config): nat { Popcount(Sub32(BlockSize(cfg), 1)) }
  function WayShift(cfg: Config): nat { Popcount(Sub32(cfg.sets, 1)) + SetShift(cfg) }
  function SetOf(cfg: Config, epa: nat): nat { And(Shr(epa, SetShift(cfg)), Sub32(cfg.sets, 1)) }
  function WayOf(cfg: Config, epa: nat): nat { And(Shr(epa, WayShift(cfg)), Sub32(cfg.ways, 1)) }

  function WayAddr(cfg: Config, set_: nat, way: nat): nat {
    Or(Or(TAG_BASE, Shl32(way, WayShift(cfg))), Shl32(set_, SetShift(cfg)))
  }

  function WayNpa(cfg: Config, cache: nat, set_: nat, way: nat): Npa
    requires cfg.podShape.x > 0 && cfg.pods.y > 0
  {
    var xy := Dram(cfg, cache);
    Npa(xy.x, xy.y, WayAddr(cfg, set_, way))
  }

  lemma {:induction false} PopcountOfMask(k: nat)
    ensures Popcount(Pow2(k) - 1) == k
  {
    if k == 0 {
    } else {
      PopcountOfMask(k - 1);
      assert (Pow2(k) - 1) % 2 == 1 && (Pow2(k) - 1) / 2 == Pow2(k - 1) - 1;
    }
  }

  lemma {:induction false} Shifts(cfg: Config)
    requires GoodFields(cfg)
    ensures SetShift(cfg) == CLog2(BlockSize(cfg)) && WayShift(cfg) == CLog2(BlockSize(cfg)) + CLog2(cfg.sets)
    ensures Sub32(cfg.sets, 1) == Mask(CLog2(cfg.sets)) && Sub32(cfg.ways, 1) == Mask(CLog2(cfg.ways))
    ensures cfg.sets == Pow2(CLog2(cfg.sets)) && cfg.ways == Pow2(CLog2(cfg.ways))
    ensures CLog2(BlockSize(cfg)) + CLog2(cfg.sets) + CLog2(cfg.ways) <= 29
  {
    hide Popcount, Pow2, CLog2;
    PopcountOfMask(CLog2(BlockSize(cfg)));
    PopcountOfMask(CLog2(cfg.sets));
    Pow2Monotone(CLog2(BlockSize(cfg)), 29);
    Pow2Monotone(CLog2(cfg.sets), 29);
    Pow2Monotone(CLog2(cfg.ways), 29);
    Pow2Values();
  }

  // A tag address as nested fields: the tag bit, the way, the set, and zero bits for the block
  lemma {:induction false} WayAddrForm(b: nat, s: nat, w: nat, set_: nat, way: nat)
    requires b + s + w <= 29 && set_ < Pow2(s) && way < Pow2(w)
    ensures Or(Or(TAG_BASE, Shl32(way, b + s)), Shl32(set_, b)) == Shl(Shl(Pow2(29 - b - s) + way, s) + set_, b)
  {
    hide Or, Shl, Pow2;
    ShlBound(set_, s, b);
    ShlBound(way, w, b + s);
    Pow2Monotone(b + s, 29);
    Pow2Monotone(b + s + w, 29);
    Pow2Values();
    Pow2Add(29 - b - s, b + s);
    Pow2IsShl(29);
    OrDisjoint(1, 29, Shl(way, b + s));
    ShlPlus(Pow2(29 - b - s), way, b + s);
    OrMiddle(Pow2(29 - b - s) + way, s, set_, b);
  }

  lemma {:induction false} FieldsDecode(b: nat, s: nat, w: nat, n: nat, set_: nat, way: nat)
    requires w <= n && set_ < Pow2(s) && way < Pow2(w)
    ensures var a := Shl(Shl(Pow2(n) + way, s) + set_, b);
            And(Shr(a, b), Mask(s)) == set_ && And(Shr(a, s + b), Mask(w)) == way
  {
    hide And, Shl, Shr, Low, Pow2;
    var hi := Pow2(n) + way;
    var q := Shl(hi, s) + set_;
    Pow2Positive(b);
    Join(q, b, 0);
    Join(hi, s, set_);
    ShrAdd(Shl(q, b), b, s);
    AndMask(q, s);
    AndMask(hi, w);
    Pow2Add(n - w, w);
    LowPlusMultiple(way, Pow2(n - w), w);
    LowSmall(way, w);
  }

  lemma {:induction false} Pow2Positive(b: nat)
    ensures 0 < Pow2(b)
  {
  }

  /** A tag address names the set and the way it was built from. */
  lemma {:induction false} WayAddrDecodes(cfg: Config, set_: nat, way: nat)
    requires GoodFields(cfg) && set_ < cfg.sets && way < cfg.ways
    ensures SetOf(cfg, WayAddr(cfg, set_, way)) == set_
    ensures WayOf(cfg, WayAddr(cfg, set_, way)) == way
  {
    hide And, Or, Shl, Shl32, Shr, Sub32, Pow2, CLog2, GoodFields, IsPow2, BlockSize, Mask, SetShift, WayShift;
    Shifts(cfg);
    var b, s, w := CLog2(BlockSize(cfg)), CLog2(cfg.sets), CLog2(cfg.ways);
    WayAddrForm(b, s, w, set_, way);
    FieldsDecode(b, s, w, 29 - b - s, set_, way);
  }

  // `(hi << (s + b)) | (mid << b)` for `mid` below `2^s`
  lemma {:induction false} OrMiddle(hi: nat, s: nat, mid: nat, b: nat)
    requires mid < Pow2(s)
    ensures Or(Shl(hi, s + b), Shl(mid, b)) == Shl(Shl(hi, s) + mid, b)
  {
    hide Or, Shl, Pow2;
    ShlBound(mid, s, b);
    OrDisjoint(hi, s + b, Shl(mid, b));
    ShlAdd(hi, s, b);
    ShlPlus(Shl(hi, s), mid, b);
  }

  // The sizes of the fields as powers of two
  lemma {:induction false} FieldSizes(cfg: Config)
    requires GoodFields(cfg)
    ensures cfg.sets > 0 && cfg.ways > 0 && BlockSize(cfg) == cfg.blockWords * 4 > 0
    ensures Pow2(SetShift(cfg)) == BlockSize(cfg) && Pow2(WayShift(cfg)) == BlockSize(cfg) * cfg.sets
  {
    Shifts(cfg);
    assert BlockSize(cfg) == Pow2(CLog2(BlockSize(cfg)));
    hide Pow2, CLog2, Shl, Mul, SetShift, WayShift, Sub32, Mask, GoodFields;
    PowerOfSum(CLog2(cfg.sets), CLog2(BlockSize(cfg)));
    Commute(cfg.sets, BlockSize(cfg));
  }

  lemma {:induction false} PowerOfSum(m: nat, n: nat)
    ensures Pow2(m + n) == Pow2(m) * Pow2(n)
  {
    hide Pow2, Shl, Mul;
    Pow2Add(m, n);
    ShlIsMul(Pow2(m), n);
    MulIsTimes(Pow2(m), Pow2(n));
  }

  lemma {:induction false} Commute(a: nat, b: nat)
    ensures a * b == b * a
  {
  }

  lemma {:induction false} WayAddrSum(b: nat, s: nat, set_: nat, way: nat)
    requires b + s <= 29
    ensures Shl(Shl(Pow2(29 - b - s) + way, s) + set_, b) == 0x2000_0000 + way * Pow2(b + s) + set_ * Pow2(b)
  {
    Pow2Values();
    hide Shl, Pow2, Mul;
    var p := Pow2(29 - b - s);
    ShlPlus(Shl(p + way, s), set_, b);
    ShlAdd(p + way, s, b);
    ShlPlus(p, way, s + b);
    Pow2Add(29 - b - s, s + b);
    ShlIsMul(way, s + b);
    MulIsTimes(way, Pow2(s + b));
    ShlIsMul(set_, b);
    MulIsTimes(set_, Pow2(b));
  }

  /** A tag address is bit 29, the way counted in ways and the set counted in blocks. */
  lemma {:induction false} WayAddrValue(cfg: Config, set_: nat, way: nat)
    requires GoodFields(cfg) && set_ < cfg.sets && way < cfg.ways
    ensures WayAddr(cfg, set_, way)
            == 0x2000_0000 + way * (cfg.blockWords * 4 * cfg.sets) + set_ * (cfg.blockWords * 4)
  {
    Shifts(cfg);
    FieldSizes(cfg);
    var b, s, w := CLog2(BlockSize(cfg)), CLog2(cfg.sets), CLog2(cfg.ways);
    hide Or, Shl, Shl32, Pow2, Popcount, CLog2, GoodFields, BlockSize, SetShift, WayShift, Sub32, Mul, Mask;
    WayAddrForm(b, s, w, set_, way);
    WayAddrSum(b, s, set_, way);
    assert Pow2(b) == cfg.blockWords * 4 && Pow2(b + s) == cfg.blockWords * 4 * cfg.sets;
  }

  // -------------------- lines and what a load sees --------------------

  datatype Line = Line(valid: bool, dirty: bool, tag: nat, data: nat -> Byte)

  // Caches are named by the coordinates of their bank.
  type Lines = (Coord, nat, nat) -> Line
  type DramBytes = (Coord, nat) -> Byte

  function TagOf(cfg: Config, epa: nat): nat { Shr(epa, WayShift(cfg)) }
  function OffsetOf(cfg: Config, epa: nat): nat { Low(epa, SetShift(cfg)) }

  // The address with a given tag, set and offset
  function AddressOf(cfg: Config, tag: nat, set_: nat, off: nat): nat {
    Shl(Shl(tag, WayShift(cfg) - SetShift(cfg)) + set_, SetShift(cfg)) + off
  }

  lemma {:induction false} AddressParts(cfg: Config, epa: nat)
    requires GoodFields(cfg)
    ensures AddressOf(cfg, TagOf(cfg, epa), SetOf(cfg, epa), OffsetOf(cfg, epa)) == epa
    ensures SetOf(cfg, epa) < cfg.sets
  {
    hide And, Shl, Shr, Low, Pow2, CLog2, GoodFields, Mask, SetShift, WayShift, Sub32;
    Shifts(cfg);
    var b, s := SetShift(cfg), WayShift(cfg) - SetShift(cfg);
    Split(epa, b);
    Split(Shr(epa, b), s);
    ShrAdd(epa, b, s);
    AndMask(Shr(epa, b), s);
  }

  /** The cache splits an address at the size of a block and at the size of a way. */
  lemma {:induction false} AddressFields(cfg: Config, epa: nat)
    requires GoodFields(cfg)
    ensures OffsetOf(cfg, epa) == epa % (cfg.blockWords * 4)
    ensures SetOf(cfg, epa) == epa / (cfg.blockWords * 4) % cfg.sets
    ensures cfg.blockWords * 4 * cfg.sets > 0 && TagOf(cfg, epa) == epa / (cfg.blockWords * 4 * cfg.sets)
  {
    Shifts(cfg);
    FieldSizes(cfg);
    hide And, Shr, Low, Pow2, CLog2, GoodFields, Mask, SetShift, WayShift, Sub32;
    ShrIsQuotient(epa, SetShift(cfg));
    ShrIsQuotient(epa, WayShift(cfg));
    AndMask(Shr(epa, SetShift(cfg)), CLog2(cfg.sets));
    ShrIsQuotient(Shr(epa, SetShift(cfg)), CLog2(cfg.sets));
  }

  predicate Hit(cfg: Config, lines: Lines, b: Coord, epa: nat, w: nat) {
    var l := lines(b, SetOf(cfg, epa), w);
    w < cfg.ways && l.valid && l.tag == TagOf(cfg, epa)
  }

  // What a load returns: the cached byte if the line is present, the byte in DRAM otherwise
  ghost function View(cfg: Config, lines: Lines, dram: DramBytes, b: Coord, epa: nat): Byte {
    if exists w: nat :: Hit(cfg, lines, b, epa, w) then
      var w: nat :| Hit(cfg, lines, b, epa, w);
      lines(b, SetOf(cfg, epa), w).data(OffsetOf(cfg, epa))
    else dram(b, epa)
  }

  ghost predicate NoDuplicates(cfg: Config, lines: Lines, b: Coord) {
    forall s: nat, v: nat, w: nat ::
      v < cfg.ways && w < cfg.ways && lines(b, s, v).valid && lines(b, s, w).valid
      && lines(b, s, v).tag == lines(b, s, w).tag
      ==> v == w
  }

  // The cache at bank `b` holds no line twice, and its clean lines agree with DRAM.
  ghost predicate Coherent(cfg: Config, lines: Lines, dram: DramBytes, b: Coord) {
    && NoDuplicates(cfg, lines, b)
    && (forall epa: nat, w: nat :: Hit(cfg, lines, b, epa, w) && !lines(b, SetOf(cfg, epa), w).dirty ==>
          lines(b, SetOf(cfg, epa), w).data(OffsetOf(cfg, epa)) == dram(b, epa))
  }

  lemma {:induction false} ViewOfHit(cfg: Config, lines: Lines, dram: DramBytes, b: Coord, epa: nat, w: nat)
    requires Coherent(cfg, lines, dram, b) && Hit(cfg, lines, b, epa, w)
    ensures View(cfg, lines, dram, b, epa) == lines(b, SetOf(cfg, epa), w).data(OffsetOf(cfg, epa))
  {
    hide SetOf, TagOf, OffsetOf;
    var v: nat :| Hit(cfg, lines, b, epa, v)
                  && View(cfg, lines, dram, b, epa) == lines(b, SetOf(cfg, epa), v).data(OffsetOf(cfg, epa));
  }

  // -------------------- cache commands --------------------

  function SetLine(lines: Lines, b: Coord, s: nat, w: nat, l: Line): Lines {
    (b': Coord, s': nat, w': nat) => if b' == b && s' == s && w' == w then l else lines(b', s', w')
  }

  // DRAM after writing line `l` of set `s` back
  function WriteBackByte(cfg: Config, dram: DramBytes, b: Coord, s: nat, l: Line, b': Coord, epa: nat): Byte {
    if b' == b && SetOf(cfg, epa) == s && TagOf(cfg, epa) == l.tag then l.data(OffsetOf(cfg, epa)) else dram(b', epa)
  }

  function WriteBack(cfg: Config, dram: DramBytes, b: Coord, s: nat, l: Line): DramBytes {
    (b': Coord, epa: nat) => WriteBackByte(cfg, dram, b, s, l, b', epa)
  }

  function FlushedDram(cfg: Config, lines: Lines, dram: DramBytes, b: Coord, s: nat, w: nat): DramBytes {
    var l := lines(b, s, w);
    if l.valid && l.dirty then WriteBack(cfg, dram, b, s, l) else dram
  }

  // A flushed line stays valid and becomes clean.
  function FlushedLine(l: Line): Line { if l.valid then l.(dirty := false) else l }

  // Storing a zero tag drops the line without writing it back.
  function InvalidLine(l: Line): Line { l.(valid := false, dirty := false, tag := 0) }

  lemma {:induction false} FlushKeepsView(cfg: Config, lines: Lines, dram: DramBytes, b: Coord, s: nat, w: nat, c: Coord)
    requires w < cfg.ways && Coherent(cfg, lines, dram, c)
    ensures var lines' := SetLine(lines, b, s, w, FlushedLine(lines(b, s, w)));
            var dram' := FlushedDram(cfg, lines, dram, b, s, w);
            && Coherent(cfg, lines', dram', c)
            && forall epa: nat :: View(cfg, lines', dram', c, epa) == View(cfg, lines, dram, c, epa)
  {
    hide SetOf, TagOf, OffsetOf, View;
    var lines' := SetLine(lines, b, s, w, FlushedLine(lines(b, s, w)));
    var dram' := FlushedDram(cfg, lines, dram, b, s, w);
    forall epa: nat, v: nat | Hit(cfg, lines', c, epa, v)
      ensures Hit(cfg, lines, c, epa, v)
      ensures !lines'(c, SetOf(cfg, epa), v).dirty ==>
                lines'(c, SetOf(cfg, epa), v).data(OffsetOf(cfg, epa)) == dram'(c, epa)
    {
    }
    assert Coherent(cfg, lines', dram', c);
    forall epa: nat
      ensures View(cfg, lines', dram', c, epa) == View(cfg, lines, dram, c, epa)
    {
      if v: nat :| Hit(cfg, lines, c, epa, v) {
        ViewOfHit(cfg, lines, dram, c, epa, v);
        assert Hit(cfg, lines', c, epa, v);
        ViewOfHit(cfg, lines', dram', c, epa, v);
      } else {
        assert !Hit(cfg, lines, c, epa, w);
        ViewOfMiss(cfg, lines, dram, c, epa);
        ViewOfMiss(cfg, lines', dram', c, epa);
      }
    }
  }

  lemma {:induction false} ViewOfMiss(cfg: Config, lines: Lines, dram: DramBytes, b: Coord, epa: nat)
    requires forall w: nat :: !Hit(cfg, lines, b, epa, w)
    ensures View(cfg, lines, dram, b, epa) == dram(b, epa)
  {
  }

  // The line that a miss brings in
  function FilledLine(cfg: Config, dram: DramBytes, b: Coord, epa: nat): Line {
    Line(true, false, TagOf(cfg, epa), (off: nat) => dram(b, AddressOf(cfg, TagOf(cfg, epa), SetOf(cfg, epa), off)))
  }

  lemma {:induction false} FillKeepsView(cfg: Config, lines: Lines, dram: DramBytes, b: Coord, epa: nat, w: nat, c: Coord)
    requires GoodFields(cfg) && w < cfg.ways && Coherent(cfg, lines, dram, c)
    requires forall v: nat :: !Hit(cfg, lines, b, epa, v)
    requires lines(b, SetOf(cfg, epa), w).valid ==> !lines(b, SetOf(cfg, epa), w).dirty
    ensures var lines' := SetLine(lines, b, SetOf(cfg, epa), w, FilledLine(cfg, dram, b, epa));
            && Coherent(cfg, lines', dram, c)
            && forall e: nat :: View(cfg, lines', dram, c, e) == View(cfg, lines, dram, c, e)
  {
    hide SetOf, TagOf, OffsetOf, View, AddressOf, GoodFields;
    var s := SetOf(cfg, epa);
    var lines' := SetLine(lines, b, s, w, FilledLine(cfg, dram, b, epa));
    forall e: nat | SetOf(cfg, e) == s && TagOf(cfg, e) == TagOf(cfg, epa)
      ensures FilledLine(cfg, dram, b, epa).data(OffsetOf(cfg, e)) == dram(b, e)
    {
      AddressParts(cfg, e);
    }
    FillKeepsUnique(cfg, lines, dram, b, epa, w, c);
    assert Coherent(cfg, lines', dram, c);
    forall e: nat
      ensures View(cfg, lines', dram, c, e) == View(cfg, lines, dram, c, e)
    {
      if v: nat :| Hit(cfg, lines', c, e, v) {
        ViewOfHit(cfg, lines', dram, c, e, v);
        if c == b && SetOf(cfg, e) == s && v == w {
          assert forall u: nat :: Hit(cfg, lines, c, e, u) <==> Hit(cfg, lines, b, epa, u);
          ViewOfMiss(cfg, lines, dram, c, e);
        } else {
          assert Hit(cfg, lines, c, e, v);
          ViewOfHit(cfg, lines, dram, c, e, v);
        }
      } else {
        ViewOfMiss(cfg, lines', dram, c, e);
        if v: nat :| Hit(cfg, lines, c, e, v) {
          // only the replaced line, which was clean
          assert !Hit(cfg, lines', c, e, v);
          ViewOfHit(cfg, lines, dram, c, e, v);
        } else {
          ViewOfMiss(cfg, lines, dram, c, e);
        }
      }
    }
  }

  lemma {:induction false} FillKeepsUnique(cfg: Config, lines: Lines, dram: DramBytes, b: Coord, epa: nat, w: nat, c: Coord)
    requires w < cfg.ways && Coherent(cfg, lines, dram, c)
    requires forall v: nat :: !Hit(cfg, lines, b, epa, v)
    ensures var lines' := SetLine(lines, b, SetOf(cfg, epa), w, FilledLine(cfg, dram, b, epa));
            NoDuplicates(cfg, lines', c)
  {
    hide SetOf, TagOf, OffsetOf, View, AddressOf;
    assert forall v: nat :: v < cfg.ways && lines(b, SetOf(cfg, epa), v).valid ==>
        lines(b, SetOf(cfg, epa), v).tag != TagOf(cfg, epa) by {
      forall v: nat | v < cfg.ways && lines(b, SetOf(cfg, epa), v).valid
        ensures lines(b, SetOf(cfg, epa), v).tag != TagOf(cfg, epa)
      {
        assert !Hit(cfg, lines, b, epa, v);
      }
    }
  }

  // -------------------- whole-pod sweeps --------------------

  datatype Command = FlushTag | InvalidateTag

  function Applied(op: Command, l: Line): Line { if op.FlushTag? then FlushedLine(l) else InvalidLine(l) }

  // What the sweep has passed when it stands at way `w`, set `s` and bank `k` of the pod
  ghost predicate Passed(cfg: Config, pod: Coord, w: nat, s: nat, k: nat, b: Coord, s': nat, w': nat) {
    && IsBankOf(cfg, pod, b) && s' < cfg.sets && w' < cfg.ways
    && (w' < w || (w' == w && (s' < s || (s' == s && PodDramId(cfg, b) < k))))
  }

  ghost predicate InPod(cfg: Config, pod: Coord, b: Coord, s: nat, w: nat) {
    IsBankOf(cfg, pod, b) && s < cfg.sets && w < cfg.ways
  }

  // No line of the pod is dirty.
  ghost predicate AllClean(cfg: Config, lines: Lines, pod: Coord) {
    forall b, s: nat, w: nat :: InPod(cfg, pod, b, s, w) && lines(b, s, w).valid ==> !lines(b, s, w).dirty
  }

  // Behind clean coherent caches DRAM itself holds what loads return.
  lemma {:induction false} CleanMeansDram(cfg: Config, lines: Lines, dram: DramBytes, pod: Coord, b: Coord, epa: nat)
    requires GoodFields(cfg) && IsBankOf(cfg, pod, b)
    requires Coherent(cfg, lines, dram, b) && AllClean(cfg, lines, pod)
    ensures View(cfg, lines, dram, b, epa) == dram(b, epa)
  {
    hide GoodFields, SetOf, TagOf, OffsetOf, View, IsBankOf;
    AddressParts(cfg, epa);
    if w: nat :| Hit(cfg, lines, b, epa, w) {
      ViewOfHit(cfg, lines, dram, b, epa, w);
      assert InPod(cfg, pod, b, SetOf(cfg, epa), w);
    } else {
      ViewOfMiss(cfg, lines, dram, b, epa);
    }
  }

  // A cache without valid lines shows DRAM.
  lemma {:induction false} EmptyMeansDram(cfg: Config, lines: Lines, dram: DramBytes, b: Coord)
    requires GoodFields(cfg)
    requires forall s: nat, w: nat :: s < cfg.sets && w < cfg.ways ==> !lines(b, s, w).valid
    ensures forall epa: nat :: View(cfg, lines, dram, b, epa) == dram(b, epa)
  {
    hide GoodFields, SetOf, TagOf, OffsetOf, View;
    forall epa: nat
      ensures View(cfg, lines, dram, b, epa) == dram(b, epa)
    {
      AddressParts(cfg, epa);
      ViewOfMiss(cfg, lines, dram, b, epa);
    }
  }

  ghost predicate Swept(cfg: Config, op: Command, l0: Lines, l1: Lines, t0: (Coord, nat, nat) -> nat,
                        t1: (Coord, nat, nat) -> nat, pod: Coord, w: nat, s: nat, k: nat) {
    forall b, s': nat, w': nat ::
      && l1(b, s', w') == (if Passed(cfg, pod, w, s, k, b, s', w') then Applied(op, l0(b, s', w')) else l0(b, s', w'))
      && t1(b, s', w') == t0(b, s', w') + (if Passed(cfg, pod, w, s, k, b, s', w') then 1 else 0)
  }

  // One command reached exactly the tag `(b, s, w)`.
  ghost predicate Reached(op: Command, l0: Lines, l1: Lines, t0: (Coord, nat, nat) -> nat, t1: (Coord, nat, nat) -> nat,
                          b: Coord, s: nat, w: nat) {
    forall b', s': nat, w': nat ::
      && l1(b', s', w') == (if (b', s', w') == (b, s, w) then Applied(op, l0(b', s', w')) else l0(b', s', w'))
      && t1(b', s', w') == t0(b', s', w') + (if (b', s', w') == (b, s, w) then 1 else 0)
  }

  lemma {:induction false} SweptStep(cfg: Config, op: Command, l0: Lines, l1: Lines, l2: Lines, t0: (Coord, nat, nat) -> nat,
                                     t1: (Coord, nat, nat) -> nat, t2: (Coord, nat, nat) -> nat,
                                     pod: Coord, w: nat, s: nat, k: nat)
    requires GoodPods(cfg) && PodExists(cfg, pod) && k < 2 * cfg.podShape.x && s < cfg.sets && w < cfg.ways
    requires Swept(cfg, op, l0, l1, t0, t1, pod, w, s, k)
    requires Reached(op, l1, l2, t1, t2, PodDram(cfg, pod, k), s, w)
    ensures Swept(cfg, op, l0, l2, t0, t2, pod, w, s, k + 1)
  {
    hide GoodPods, IsBankOf, PodDram, PodDramId, Applied;
    OneMoreBank(cfg, pod, k);
  }

  lemma {:induction false} SweptCarry(cfg: Config, op: Command, l0: Lines, l1: Lines, t0: (Coord, nat, nat) -> nat,
                                      t1: (Coord, nat, nat) -> nat, pod: Coord, w: nat, s: nat, k: nat)
    requires GoodPods(cfg) && PodExists(cfg, pod)
    requires Swept(cfg, op, l0, l1, t0, t1, pod, w, s, k)
    ensures k == 2 * cfg.podShape.x ==> Swept(cfg, op, l0, l1, t0, t1, pod, w, s + 1, 0)
    ensures k == 0 && s >= cfg.sets ==> Swept(cfg, op, l0, l1, t0, t1, pod, w + 1, 0, 0)
  {
    hide GoodPods, IsBankOf, PodDramId, Applied;
    BankNumbers(cfg, pod);
  }

  lemma {:induction false} ViewsTransitive(cfg: Config, l0: Lines, d0: DramBytes, l1: Lines, d1: DramBytes, l2: Lines, d2: DramBytes)
    requires KeepsViews(cfg, l0, d0, l1, d1) && KeepsViews(cfg, l1, d1, l2, d2)
    ensures KeepsViews(cfg, l0, d0, l2, d2)
  {
    hide View, Coherent;
  }

  lemma {:induction false} SweptNone(cfg: Config, op: Command, l: Lines, t: (Coord, nat, nat) -> nat, pod: Coord)
    ensures Swept(cfg, op, l, l, t, t, pod, 0, 0, 0)
  {
  }

  lemma {:induction false} SweptAll(cfg: Config, op: Command, l0: Lines, l1: Lines, t0: (Coord, nat, nat) -> nat,
                                    t1: (Coord, nat, nat) -> nat, pod: Coord)
    requires Swept(cfg, op, l0, l1, t0, t1, pod, cfg.ways, 0, 0)
    ensures PodReached(cfg, op, l0, l1, t0, t1, pod)
  {
    hide IsBankOf, Applied;
  }

  // A sweep reached every tag of the pod exactly once and no other tag.
  ghost predicate PodReached(cfg: Config, op: Command, l0: Lines, l1: Lines, t0: (Coord, nat, nat) -> nat,
                             t1: (Coord, nat, nat) -> nat, pod: Coord) {
    forall b, s: nat, w: nat ::
      && l1(b, s, w) == (if InPod(cfg, pod, b, s, w) then Applied(op, l0(b, s, w)) else l0(b, s, w))
      && t1(b, s, w) == t0(b, s, w) + (if InPod(cfg, pod, b, s, w) then 1 else 0)
  }

  lemma {:induction false} KeepsViewsRefl(cfg: Config, l: Lines, d: DramBytes)
    ensures KeepsViews(cfg, l, d, l, d)
  {
  }

  // Coherence and views survive, bank by bank.
  ghost predicate KeepsViews(cfg: Config, l0: Lines, d0: DramBytes, l1: Lines, d1: DramBytes) {
    forall c :: Coherent(cfg, l0, d0, c) ==>
      Coherent(cfg, l1, d1, c) && forall epa: nat :: View(cfg, l1, d1, c, epa) == View(cfg, l0, d0, c, epa)
  }

  /** The victim caches of a device and the DRAM behind them. */
  class CacheSystem {
    const cfg: Config
    const hasCache: bool
    const dmaRead: bool
    const dmaWrite: bool
    var lines: Lines
    var dram: DramBytes
    // how often each tag was the target of a command
    ghost var touched: (Coord, nat, nat) -> nat

    ghost predicate Valid()
      reads this
    {
      && GoodConfig(cfg)
      && (forall b :: Coherent(cfg, lines, dram, b))
      && (!hasCache ==> NoLines(lines))
    }

    // Out of reset the caches hold nothing.
    constructor (cfg: Config, hasCache: bool, dmaRead: bool, dmaWrite: bool, dram: DramBytes)
      requires GoodConfig(cfg)
      ensures this.cfg == cfg && this.hasCache == hasCache && this.dmaRead == dmaRead && this.dmaWrite == dmaWrite
      ensures Valid() && this.dram == dram
    {
      this.cfg, this.hasCache, this.dmaRead, this.dmaWrite := cfg, hasCache, dmaRead, dmaWrite;
      this.dram := dram;
      lines := (_, _, _) => Line(false, false, 0, _ => 0);
      touched := (_, _, _) => 0;
    }

    // A tag command: the cache decodes set and way from the address.
    method Send(op: Command, npa: Npa)
      requires WayOf(cfg, npa.epa) < cfg.ways
      modifies this
      ensures Reached(op, old(lines), lines, old(touched), touched, Xy(npa), SetOf(cfg, npa.epa), WayOf(cfg, npa.epa))
      ensures op.InvalidateTag? ==> dram == old(dram)
      ensures op.FlushTag? ==> KeepsViews(cfg, old(lines), old(dram), lines, dram)
    {
      hide View, SetOf, TagOf, OffsetOf, Coherent;
      var b, s, w := Xy(npa), SetOf(cfg, npa.epa), WayOf(cfg, npa.epa);
      if op.FlushTag? {
        forall c | Coherent(cfg, lines, dram, c) {
          FlushKeepsView(cfg, lines, dram, b, s, w, c);
        }
        dram := FlushedDram(cfg, lines, dram, b, s, w);
      }
      lines := SetLine(lines, b, s, w, Applied(op, lines(b, s, w)));
      ghost var t := touched;
      touched := (b', s': nat, w': nat) => t(b', s', w') + (if (b', s', w') == (b, s, w) then 1 else 0);
    }

    /** `hb_mc_manycore_pod_apply_to_vcache`: the command reaches every tag of the pod exactly once and no other. A
    sweep of flushes changes no view. */
    method ApplyToPod(op: Command, pod: Coord)
      requires GoodConfig(cfg) && PodExists(cfg, pod)
      modifies this
      ensures !hasCache ==> lines == old(lines) && dram == old(dram) && touched == old(touched)
      ensures hasCache ==> PodReached(cfg, op, old(lines), lines, old(touched), touched, pod)
      ensures op.InvalidateTag? ==> dram == old(dram)
      ensures op.FlushTag? ==> KeepsViews(cfg, old(lines), old(dram), lines, dram)
    {
      hide View, SetOf, WayOf, WayAddr, GoodPods, GoodFields, IsBankOf, PodDramId, PodDram, Dram, DramId, DramStart,
           DramNext, DramStop, Swept, KeepsViews, Reached;
      if !hasCache {
        KeepsViewsRefl(cfg, lines, dram);
        return;
      }
      ghost var l0, t0, d0 := lines, touched, dram;
      ShapeBound(cfg);
      DramIteration(cfg, pod, 0);
      KeepsViewsRefl(cfg, lines, dram);
      SweptNone(cfg, op, lines, touched, pod);
      var way := 0;
      while way < cfg.ways
        invariant 0 <= way <= cfg.ways
        invariant Swept(cfg, op, l0, lines, t0, touched, pod, way, 0, 0)
        invariant op.InvalidateTag? ==> dram == d0
        invariant op.FlushTag? ==> KeepsViews(cfg, l0, d0, lines, dram)
      {
        var set_ := 0;
        while set_ < cfg.sets
          invariant 0 <= set_ <= cfg.sets
          invariant Swept(cfg, op, l0, lines, t0, touched, pod, way, set_, 0)
          invariant op.InvalidateTag? ==> dram == d0
          invariant op.FlushTag? ==> KeepsViews(cfg, l0, d0, lines, dram)
        {
          var bank := DramStart(cfg, pod);
          ghost var k: nat := 0;
          while !DramStop(cfg, pod, bank)
            invariant k <= 2 * cfg.podShape.x
            invariant k < 2 * cfg.podShape.x ==> bank == PodDram(cfg, pod, k)
            invariant DramStop(cfg, pod, bank) <==> k == 2 * cfg.podShape.x
            invariant Swept(cfg, op, l0, lines, t0, touched, pod, way, set_, k)
            invariant op.InvalidateTag? ==> dram == d0
            invariant op.FlushTag? ==> KeepsViews(cfg, l0, d0, lines, dram)
            decreases 2 * cfg.podShape.x - k
          {
            ghost var l1, t1, d1 := lines, touched, dram;
            OneMoreBank(cfg, pod, k);
            DramOfDramId(cfg, pod, bank);
            DramIteration(cfg, pod, k);
            WayAddrDecodes(cfg, set_, way);
            Send(op, WayNpa(cfg, DramId(cfg, bank), set_, way));
            SweptStep(cfg, op, l0, l1, lines, t0, t1, touched, pod, way, set_, k);
            if op.FlushTag? {
              ViewsTransitive(cfg, l0, d0, l1, d1, lines, dram);
            }
            bank := DramNext(cfg, pod, bank);
            k := k + 1;
            if k < 2 * cfg.podShape.x { DramIteration(cfg, pod, k); }
          }
          SweptCarry(cfg, op, l0, lines, t0, touched, pod, way, set_, k);
          set_ := set_ + 1;
        }
        SweptCarry(cfg, op, l0, lines, t0, touched, pod, way, set_, 0);
        way := way + 1;
      }
      SweptAll(cfg, op, l0, lines, t0, touched, pod);
    }

    /** A load from the bank: a miss writes the victim back if it is dirty and brings the line in clean. No view
    changes, and a pod without dirty lines has none afterwards. */
    method Load(b: Coord, epa: nat) returns (v: Byte)
      requires GoodConfig(cfg) && Coherent(cfg, lines, dram, b)
      modifies `lines, `dram
      ensures v == View(cfg, old(lines), old(dram), b, epa)
      ensures KeepsViews(cfg, old(lines), old(dram), lines, dram)
      ensures forall pod :: AllClean(cfg, old(lines), pod) ==> AllClean(cfg, lines, pod)
    {
      hide View, SetOf, TagOf, OffsetOf, Coherent, GoodPods, GoodFields, IsBankOf, KeepsViews;
      var s := SetOf(cfg, epa);
      var w := 0;
      while w < cfg.ways && !Hit(cfg, lines, b, epa, w)
        invariant 0 <= w <= cfg.ways
        invariant forall u: nat :: u < w ==> !Hit(cfg, lines, b, epa, u)
      {
        w := w + 1;
      }
      if w < cfg.ways {
        ViewOfHit(cfg, lines, dram, b, epa, w);
        KeepsViewsRefl(cfg, lines, dram);
        return lines(b, s, w).data(OffsetOf(cfg, epa));
      }
      ViewOfMiss(cfg, lines, dram, b, epa);
      v := dram(b, epa);
      AtLeastOneWay(cfg);
      var victim: nat :| victim < cfg.ways;
      var l0, d0 := lines, dram;
      dram := FlushedDram(cfg, l0, d0, b, s, victim);
      lines := SetLine(l0, b, s, victim, FlushedLine(l0(b, s, victim)));
      var l1, d1 := lines, dram;
      FlushStep(cfg, l0, d0, l1, d1, b, s, victim);
      lines := SetLine(l1, b, s, victim, FilledLine(cfg, d1, b, epa));
      FillStep(cfg, l0, l1, d1, lines, b, epa, victim);
      ViewsTransitive(cfg, l0, d0, l1, d1, lines, dram);
    }

    /** `hb_mc_manycore_pod_flush_vcache`: afterwards no line of the pod is dirty, and no load anywhere returns
    anything else than before; the dummy loads that follow the sweep bring lines in, but clean ones. */
    method FlushPod(pod: Coord)
      requires Valid() && PodExists(cfg, pod)
      modifies this
      ensures Valid() && AllClean(cfg, lines, pod)
      ensures KeepsViews(cfg, old(lines), old(dram), lines, dram)
      ensures !hasCache ==> lines == old(lines) && dram == old(dram)
    {
      hide View, SetOf, WayOf, WayAddr, GoodPods, GoodFields, IsBankOf, PodDramId, PodDram, Dram, DramId, DramStart,
           DramNext, DramStop, KeepsViews, Coherent;
      if !hasCache {
        KeepsViewsRefl(cfg, lines, dram);
        return;
      }
      ghost var l0, d0 := lines, dram;
      ApplyToPod(FlushTag, pod);
      KeepsCoherence(cfg, l0, d0, lines, dram);
      ShapeBound(cfg);
      DramIteration(cfg, pod, 0);
      var bank := DramStart(cfg, pod);
      ghost var k: nat := 0;
      while !DramStop(cfg, pod, bank)
        invariant k <= 2 * cfg.podShape.x
        invariant k < 2 * cfg.podShape.x ==> bank == PodDram(cfg, pod, k)
        invariant DramStop(cfg, pod, bank) <==> k == 2 * cfg.podShape.x
        invariant AllClean(cfg, lines, pod) && KeepsViews(cfg, l0, d0, lines, dram)
        invariant forall b :: Coherent(cfg, lines, dram, b)
        decreases 2 * cfg.podShape.x - k
      {
        ghost var l1, d1 := lines, dram;
        OneMoreBank(cfg, pod, k);
        DramOfDramId(cfg, pod, bank);
        DramIteration(cfg, pod, k);
        var npa := WayNpa(cfg, DramId(cfg, bank), 0, 0).(epa := 0);
        var _ := Load(Xy(npa), npa.epa);
        ViewsTransitive(cfg, l0, d0, l1, d1, lines, dram);
        KeepsCoherence(cfg, l1, d1, lines, dram);
        bank := DramNext(cfg, pod, bank);
        k := k + 1;
        if k < 2 * cfg.podShape.x { DramIteration(cfg, pod, k); }
      }
    }

    /** `hb_mc_manycore_pod_invalidate_vcache`: loads from the pod's banks return what DRAM holds, however stale the
    lines were, and loads from other banks return what they did. */
    method InvalidatePod(pod: Coord)
      requires GoodConfig(cfg) && PodExists(cfg, pod) && (!hasCache ==> NoLines(lines))
      requires forall b :: NoDuplicates(cfg, lines, b)
      requires forall b :: !IsBankOf(cfg, pod, b) ==> Coherent(cfg, lines, dram, b)
      modifies this
      ensures Valid() && dram == old(dram)
      ensures forall b, epa: nat :: View(cfg, lines, dram, b, epa)
                == if IsBankOf(cfg, pod, b) then dram(b, epa) else View(cfg, old(lines), dram, b, epa)
    {
      hide View, GoodPods, GoodFields, IsBankOf, Coherent, NoDuplicates, PodReached, NoLines;
      ghost var l0, t0 := lines, touched;
      ApplyToPod(InvalidateTag, pod);
      if hasCache {
        forall b
          ensures Coherent(cfg, lines, dram, b)
          ensures forall epa: nat :: View(cfg, lines, dram, b, epa)
                    == if IsBankOf(cfg, pod, b) then dram(b, epa) else View(cfg, l0, dram, b, epa)
        {
          InvalidatedBank(cfg, l0, lines, t0, touched, dram, pod, b);
        }
      } else {
        forall b ensures Coherent(cfg, lines, dram, b) {
          EmptyCache(cfg, lines, dram, b);
        }
        forall b, epa: nat ensures View(cfg, lines, dram, b, epa) == dram(b, epa) {
          EmptyCache(cfg, lines, dram, b);
        }
        assert lines == l0;
      }
    }
  }

  ghost predicate NoLines(lines: Lines) {
    forall b, s: nat, w: nat :: !lines(b, s, w).valid
  }

  lemma {:induction false} AtLeastOneWay(cfg: Config)
    requires GoodFields(cfg)
    ensures cfg.ways >= 1
  {
  }

  lemma {:induction false} KeepsCoherence(cfg: Config, l0: Lines, d0: DramBytes, l1: Lines, d1: DramBytes)
    requires KeepsViews(cfg, l0, d0, l1, d1) && forall b :: Coherent(cfg, l0, d0, b)
    ensures forall b :: Coherent(cfg, l1, d1, b)
    ensures forall b, epa: nat :: View(cfg, l1, d1, b, epa) == View(cfg, l0, d0, b, epa)
  {
    hide Coherent, View;
    forall b, epa: nat
      ensures View(cfg, l1, d1, b, epa) == View(cfg, l0, d0, b, epa)
    {
      assert Coherent(cfg, l0, d0, b);
    }
  }

  lemma {:induction false} FlushStep(cfg: Config, l0: Lines, d0: DramBytes, l1: Lines, d1: DramBytes, b: Coord, s: nat, w: nat)
    requires w < cfg.ways
    requires l1 == SetLine(l0, b, s, w, FlushedLine(l0(b, s, w))) && d1 == FlushedDram(cfg, l0, d0, b, s, w)
    ensures KeepsViews(cfg, l0, d0, l1, d1)
  {
    hide Coherent, View, FlushedDram, SetLine, FlushedLine;
    forall c | Coherent(cfg, l0, d0, c) {
      FlushKeepsView(cfg, l0, d0, b, s, w, c);
    }
  }

  // Bringing a missing line in at the place of a victim that has just been written back
  lemma {:induction false} FillStep(cfg: Config, l0: Lines, l1: Lines, d: DramBytes, l2: Lines, b: Coord, epa: nat, w: nat)
    requires GoodFields(cfg) && w < cfg.ways
    requires forall v: nat :: !Hit(cfg, l0, b, epa, v)
    requires l1 == SetLine(l0, b, SetOf(cfg, epa), w, FlushedLine(l0(b, SetOf(cfg, epa), w)))
    requires l2 == SetLine(l1, b, SetOf(cfg, epa), w, FilledLine(cfg, d, b, epa))
    ensures KeepsViews(cfg, l1, d, l2, d)
    ensures forall pod :: AllClean(cfg, l0, pod) ==> AllClean(cfg, l2, pod)
  {
    hide SetOf, TagOf, OffsetOf, View, AddressOf, GoodFields, Coherent, IsBankOf;
    forall v: nat
      ensures !Hit(cfg, l1, b, epa, v)
    {
      assert !Hit(cfg, l0, b, epa, v);
    }
    forall c | Coherent(cfg, l1, d, c) {
      FillKeepsView(cfg, l1, d, b, epa, w, c);
    }
  }

  // After an invalidating sweep
  lemma {:induction false} InvalidatedBank(cfg: Config, l0: Lines, l1: Lines, t0: (Coord, nat, nat) -> nat,
                                           t1: (Coord, nat, nat) -> nat, dram: DramBytes, pod: Coord, b: Coord)
    requires GoodFields(cfg) && PodReached(cfg, InvalidateTag, l0, l1, t0, t1, pod)
    requires NoDuplicates(cfg, l0, b)
    requires !IsBankOf(cfg, pod, b) ==> Coherent(cfg, l0, dram, b)
    ensures Coherent(cfg, l1, dram, b)
    ensures forall epa: nat :: View(cfg, l1, dram, b, epa)
              == if IsBankOf(cfg, pod, b) then dram(b, epa) else View(cfg, l0, dram, b, epa)
  {
    hide SetOf, TagOf, OffsetOf, View, GoodFields, IsBankOf;
    if IsBankOf(cfg, pod, b) {
      EmptyMeansDram(cfg, l1, dram, b);
      forall epa: nat, w: nat
        ensures !Hit(cfg, l1, b, epa, w)
      {
        AddressParts(cfg, epa);
      }
    } else {
      SameBank(cfg, l0, dram, l1, dram, b);
    }
  }

  // Coherence and views of a bank depend on its own lines and bytes only.
  lemma {:induction false} SameBank(cfg: Config, l0: Lines, d0: DramBytes, l1: Lines, d1: DramBytes, b: Coord)
    requires Coherent(cfg, l0, d0, b)
    requires forall s: nat, w: nat :: l1(b, s, w) == l0(b, s, w)
    requires forall epa: nat :: d1(b, epa) == d0(b, epa)
    ensures Coherent(cfg, l1, d1, b)
    ensures forall epa: nat :: View(cfg, l1, d1, b, epa) == View(cfg, l0, d0, b, epa)
  {
    hide SetOf, TagOf, OffsetOf, View;
    forall epa: nat, w: nat
      ensures Hit(cfg, l1, b, epa, w) <==> Hit(cfg, l0, b, epa, w)
    {
    }
    assert Coherent(cfg, l1, d1, b);
    forall epa: nat
      ensures View(cfg, l1, d1, b, epa) == View(cfg, l0, d0, b, epa)
    {
      if w: nat :| Hit(cfg, l0, b, epa, w) {
        ViewOfHit(cfg, l0, d0, b, epa, w);
        ViewOfHit(cfg, l1, d1, b, epa, w);
      } else {
        ViewOfMiss(cfg, l0, d0, b, epa);
        ViewOfMiss(cfg, l1, d1, b, epa);
      }
    }
  }

  lemma {:induction false} EmptyCache(cfg: Config, lines: Lines, dram: DramBytes, b: Coord)
    requires NoLines(lines)
    ensures Coherent(cfg, lines, dram, b)
    ensures forall epa: nat :: View(cfg, lines, dram, b, epa) == dram(b, epa)
  {
    hide SetOf, TagOf, OffsetOf, View;
    forall epa: nat
      ensures View(cfg, lines, dram, b, epa) == dram(b, epa)
    {
      ViewOfMiss(cfg, lines, dram, b, epa);
    }
  }
}
