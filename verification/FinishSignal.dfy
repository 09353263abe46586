/** Where the finish packet of a tile group goes: the EVA that its tiles are given for the host.

libraries/bsg_manycore_cuda.cpp (finish addresses) and libraries/bsg_manycore_eva.cpp (their translation)
*/
module FinishSignal {
  import opened Bits
  import opened Wrappers
  import opened Geometry
  import opened Eva
  import opened TileGroups

  // The EVA that a tile at `tgt` gets for the finish address of group `id`
  function SignalEva(cfg: Config, tgt: Coord, id: Coord, gridDim: Coord): Result<nat> {
    NpaToEva(cfg, tgt, Npa(cfg.host.x, cfg.host.y, FinishEpa(id, gridDim)))
  }

  /** Every tile gets an EVA, and it names the host and the finish address if and only if fewer than 1024 groups come
  before the group in its grid: the address of a later group runs into the column of the host. */
  lemma {:induction false} SignalReachesHost(cfg: Config, tgt: Coord, id: Coord, gridDim: Coord)
    requires cfg.host.x < 128 && cfg.host.y < 128 && !IsDram(cfg, cfg.host)
    requires 0xF000 + 4 * (id.y * gridDim.x + id.x) < 0x1_0000_0000
    ensures var r, n := SignalEva(cfg, tgt, id, gridDim), id.y * gridDim.x + id.x;
            r.Ok? &&
            ((r.value % 0x1_0000 == 0xF000 + 4 * n && r.value / 0x1_0000 % 128 == cfg.host.x
              && r.value / 0x80_0000 % 128 == cfg.host.y && r.value / 0x4000_0000 == 1)
             <==> n < 1024)
  {
    hide IsDram, NpaToEva, FinishEpa;
    FinishEpaValue(id, gridDim);
    HostFields(cfg, tgt, FinishEpa(id, gridDim));
  }

  /** On the shipped machine group 0 signals at EVA 0x4010_F000 ... */
  lemma {:induction false} FirstSignal(memsys: Memsys, tgt: Coord, gridDim: Coord)
    ensures SignalEva(BigBlade(memsys), tgt, Coord(0, 0), gridDim) == Ok(0x4010_F000)
  {
    var cfg := BigBlade(memsys);
    HostIsNoBank(memsys);
    FirstRow(0, gridDim);
    assert cfg.host == Coord(16, 0);
    hide IsDram, NpaToEva, NpaToEvaGlobalRemote, FinishEpa, BigBlade;
    HostEva(cfg, tgt, 0xF000);
    GlobalRemoteValue(Npa(16, 0, 0xF000));
  }

  /** ... and group 1024 of a grid of one row at 0x4011_0000, which is address 0 of column 17. */
  lemma {:induction false} LateSignal(memsys: Memsys, tgt: Coord, gridDim: Coord)
    ensures SignalEva(BigBlade(memsys), tgt, Coord(1024, 0), gridDim) == Ok(0x4011_0000)
  {
    var cfg := BigBlade(memsys);
    HostIsNoBank(memsys);
    FirstRow(1024, gridDim);
    assert cfg.host == Coord(16, 0);
    hide IsDram, NpaToEva, NpaToEvaGlobalRemote, FinishEpa, BigBlade;
    HostEva(cfg, tgt, 0x1_0000);
    LateFields();
  }

  lemma {:induction false} LateFields()
    ensures NpaToEvaGlobalRemote(Npa(16, 0, 0x1_0000)) == 0x4011_0000
  {
    Pow2Values();
    ShlOfZero(23);
    hide Or, Shl, Pow2, Mul;
    Pow2IsShl(30);
    Pow2IsShl(20);
    Pow2IsShl(4);
    ShlAdd(1, 4, 16);
    RowPowers();
    OrDisjoint(1, 20, 0x1_0000);
    OrDisjoint(1, 30, 0x11_0000);
    OrZero(0x11_0000);
  }

  lemma {:induction false} RowPowers()
    ensures Pow2(4) == 16 && Pow2(20) == 0x10_0000
  {
    Pow2Values();
    Pow2Double(16);
    Pow2Double(17);
    Pow2Double(18);
    Pow2Double(19);
  }

  lemma {:induction false} FirstRow(x: nat, gridDim: Coord)
    requires x <= 1024
    ensures FinishEpa(Coord(x, 0), gridDim) == 0xF000 + 4 * x
  {
    hide FinishEpa;
    FinishEpaValue(Coord(x, 0), gridDim);
    assert 0 * gridDim.x == 0;
  }

  lemma {:induction false} OrZero(a: nat)
    ensures Or(a, 0) == a
  {
  }

  lemma {:induction false} HostIsNoBank(memsys: Memsys)
    ensures !IsDram(BigBlade(memsys), BigBlade(memsys).host)
  {
    var cfg := BigBlade(memsys);
    BigBladeIsGood(memsys);
    SmallPow2();
    hide GoodPods, And, Shr, Low, Pow2;
    TileWidthValue(cfg);
    FieldsOf(cfg, cfg.host);
    assert TileMask(cfg).y == 7;
  }
}
