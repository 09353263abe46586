/** The ELF segment loader: which bytes of the device a program occupies after a successful load.

libraries/bsg_manycore_loader.cpp
*/
module Loader {
  import opened Bits
  import opened Wrappers
  import opened Geometry
  import opened Eva
  import opened Region

  // A program header: `load` is the type PT_LOAD, `exec` the flag PF_X.
  datatype Header = Header(load: bool, exec: bool, paddr: nat, filesz: nat, memsz: nat, offset: nat)

  // A program file with the header table that lies at `phoff`
  datatype Binary = Binary(data: seq<Byte>, phoff: nat, headers: seq<Header>)

  const HEADER_SIZE: nat := 32
  const ICACHE_SIZE: nat := 4096
  const ICACHE_EPA: nat := 0x100_0000

  // -------------------- segments --------------------

  predicate LoadOnce(h: Header) { IsDramEva(h.paddr) }

  function Capacity(cfg: Config, h: Header): nat { if IsDramEva(h.paddr) then DramSize(cfg) else DMEM_SIZE }

  // `hb_mc_loader_get_segment`
  function GetSegment(bin: Binary, i: nat): Result<seq<Byte>>
    requires i < |bin.headers|
  {
    var h := bin.headers[i];
    if |bin.data| < bin.phoff + HEADER_SIZE * |bin.headers| then Err(InvalidAddress)
    else if |bin.data| < h.offset + h.filesz then Err(InvalidAddress)
    else Ok(bin.data[h.offset..h.offset + h.filesz])
  }

  function Zeros(n: nat): (r: seq<Byte>)
    ensures |r| == n && forall k :: 0 <= k < n ==> r[k] == 0
  {
    seq(n, _ => 0)
  }

  // What a segment looks like in memory (System V ABI, chapter 5, "Program Header"): the bytes of the file, then zeros
  function Image(bin: Binary, i: nat): (r: seq<Byte>)
    requires i < |bin.headers| && GetSegment(bin, i).Ok? && bin.headers[i].filesz <= bin.headers[i].memsz
    ensures |r| == bin.headers[i].memsz
  {
    GetSegment(bin, i).value + Zeros(bin.headers[i].memsz - bin.headers[i].filesz)
  }

  // The file part of a loadable segment is no longer than the segment, which ends inside the address space.
  predicate GoodHeader(h: Header) {
    h.load ==> h.filesz <= h.memsz && IsEva(h.paddr) && h.paddr + h.memsz <= WORD32
  }

  // -------------------- where segments lie --------------------

  // Below DRAM the EPA of a byte is its place in the page and the page in the tile.
  lemma {:induction false} TileByte(cfg: Config, origin: Coord, tile: Coord, a: nat)
    requires a < DRAM_BASE && ByteNpa(cfg, origin, tile, a).Some?
    ensures ByteNpa(cfg, origin, tile, a).value.epa == PageInTile(a / DMEM_SIZE) * DMEM_SIZE + a % DMEM_SIZE < LOCAL_SIZE
  {
    hide ByteNpa, PageTile;
    ByteOfTile(cfg, origin, tile, a / DMEM_SIZE, a % DMEM_SIZE);
  }

  // A local byte lies in the tile itself, at the same address.
  lemma {:induction false} LocalByte(cfg: Config, origin: Coord, tile: Coord, a: nat)
    requires a < LOCAL_SIZE && ByteNpa(cfg, origin, tile, a).Some?
    ensures ByteNpa(cfg, origin, tile, a) == Some(Npa(tile.x, tile.y, a))
  {
    hide ByteNpa;
    var e, off := a / DMEM_SIZE, a % DMEM_SIZE;
    ByteOfTile(cfg, origin, tile, e, off);
  }

  // A mapped range below DRAM lies in one page.
  lemma {:induction false} OnePage(cfg: Config, origin: Coord, tile: Coord, eva: nat, n: nat, a: nat)
    requires eva < DRAM_BASE && Mapped(cfg, origin, tile, eva, n) && eva <= a < eva + n
    ensures a / DMEM_SIZE == eva / DMEM_SIZE && a < DRAM_BASE
  {
    hide ByteNpa;
    var e := eva / DMEM_SIZE;
    TilePageEnds(cfg, origin, tile, e, eva % DMEM_SIZE);
    assert a < (e + 1) * DMEM_SIZE;
  }

  /** Loaded for one tile after the other, a segment below DRAM can only meet itself at the same byte. */
  lemma {:induction false} SameSegmentByte(cfg: Config, origin: Coord, t: Coord, u: Coord, eva: nat, n: nat, a: nat, b: nat)
    requires eva < DRAM_BASE && Mapped(cfg, origin, t, eva, n) && Mapped(cfg, origin, u, eva, n)
    requires eva <= a < eva + n && eva <= b < eva + n
    requires ByteNpa(cfg, origin, t, a) == ByteNpa(cfg, origin, u, b)
    ensures a == b
  {
    hide ByteNpa, PageInTile;
    assert ByteNpa(cfg, origin, t, a).Some?;
    OnePage(cfg, origin, t, eva, n, a);
    OnePage(cfg, origin, u, eva, n, b);
    TileByte(cfg, origin, t, a);
    TileByte(cfg, origin, u, b);
  }

  // A DRAM byte lies at a bank of the pod, the same for every tile.
  lemma {:induction false} DramByte(cfg: Config, pod: Coord, origin: Coord, tile: Coord, tile': Coord, a: nat)
    requires GoodConfig(cfg) && PodExists(cfg, pod) && IsCoreOf(cfg, pod, tile) && IsCoreOf(cfg, pod, tile')
    requires IsEva(a) && IsDramEva(a)
    ensures ByteNpa(cfg, origin, tile, a) == ByteNpa(cfg, origin, tile', a)
  {
    hide GoodPods, GoodFields, EvaToNpa, IsDramEva, WordOf;
    WordFacts(a, 0);
    DramSourceIndependent(cfg, pod, origin, origin, tile, tile', WordOf(a));
  }

  // No byte of one segment lies where a byte of the other does, whatever tiles of the list they are loaded through.
  ghost predicate Disjoint(cfg: Config, origin: Coord, tiles: seq<Coord>, h: Header, g: Header) {
    forall t, u, a, b ::
      && t in tiles && u in tiles && h.paddr <= a < h.paddr + h.memsz && g.paddr <= b < g.paddr + g.memsz
      && ByteNpa(cfg, origin, t, a).Some?
      ==> ByteNpa(cfg, origin, t, a) != ByteNpa(cfg, origin, u, b)
  }

  predicate GoodHeaders(bin: Binary) { forall i :: 0 <= i < |bin.headers| ==> GoodHeader(bin.headers[i]) }

  // No segment is loaded over an earlier one.
  ghost predicate SegmentsApart(cfg: Config, origin: Coord, tiles: seq<Coord>, bin: Binary) {
    forall i, j :: 0 <= i < j < |bin.headers| && bin.headers[i].load && bin.headers[j].load ==>
      Disjoint(cfg, origin, tiles, bin.headers[i], bin.headers[j])
  }

  // As programs usually are, a segment in DRAM or in the local memory of a tile
  predicate UsualHeader(h: Header) {
    GoodHeader(h) && (!IsDramEva(h.paddr) ==> h.paddr + h.memsz <= LOCAL_SIZE)
  }

  predicate NoOverlap(h: Header, g: Header) { h.paddr + h.memsz <= g.paddr || g.paddr + g.memsz <= h.paddr }

  /** Of usual segments it suffices that their address ranges do not overlap. */
  lemma {:induction false} UsualDisjoint(cfg: Config, pod: Coord, origin: Coord, tiles: seq<Coord>, h: Header, g: Header)
    requires GoodConfig(cfg) && PodExists(cfg, pod) && TilesOf(cfg, pod, tiles)
    requires h.load && g.load && UsualHeader(h) && UsualHeader(g) && NoOverlap(h, g)
    ensures Disjoint(cfg, origin, tiles, h, g)
  {
    hide GoodPods, GoodFields, ByteNpa, IsCoreOf;
    forall t, u, a, b |
      && t in tiles && u in tiles && h.paddr <= a < h.paddr + h.memsz && g.paddr <= b < g.paddr + g.memsz
      && ByteNpa(cfg, origin, t, a).Some?
      ensures ByteNpa(cfg, origin, t, a) != ByteNpa(cfg, origin, u, b)
    {
      BytesApart(cfg, pod, origin, t, a, u, b);
    }
  }

  // Different bytes in DRAM or local memory are different for any tiles.
  lemma {:induction false} BytesApart(cfg: Config, pod: Coord, origin: Coord, t: Coord, a: nat, u: Coord, b: nat)
    requires GoodConfig(cfg) && PodExists(cfg, pod) && IsCoreOf(cfg, pod, t) && IsCoreOf(cfg, pod, u)
    requires IsEva(a) && IsEva(b) && (IsDramEva(a) || a < LOCAL_SIZE) && (IsDramEva(b) || b < LOCAL_SIZE) && a != b
    requires ByteNpa(cfg, origin, t, a).Some?
    ensures ByteNpa(cfg, origin, t, a) != ByteNpa(cfg, origin, u, b)
  {
    hide GoodPods, GoodFields, ByteNpa, IsCoreOf;
    if ByteNpa(cfg, origin, u, b).Some? {
      if IsDramEva(a) {
        DramByteAtBank(cfg, pod, origin, t, a);
        if IsDramEva(b) {
          DramByte(cfg, pod, origin, t, u, b);
          DramBytesDistinct(cfg, pod, origin, t, a, b);
        } else {
          LocalByte(cfg, origin, u, b);
        }
      } else {
        LocalByte(cfg, origin, t, a);
        if IsDramEva(b) {
          DramByteAtBank(cfg, pod, origin, u, b);
        } else {
          LocalByte(cfg, origin, u, b);
        }
      }
    }
  }

  // -------------------- what stays loaded --------------------

  // Only bytes of segment `h`, for tiles of the list, have changed.
  ghost predicate ChangedWithin(cfg: Config, origin: Coord, tiles: seq<Coord>, before: Memory, after: Memory, h: Header) {
    forall n: Npa :: after(n) == before(n) || InSegment(cfg, origin, tiles, h, n)
  }

  ghost predicate InSegment(cfg: Config, origin: Coord, tiles: seq<Coord>, h: Header, n: Npa) {
    exists u, b :: u in tiles && h.paddr <= b < h.paddr + h.memsz && ByteNpa(cfg, origin, u, b) == Some(n)
  }

  predicate TilesOf(cfg: Config, pod: Coord, tiles: seq<Coord>) { forall t :: t in tiles ==> IsCoreOf(cfg, pod, t) }

  // A range that holds its data keeps it while a segment that is disjoint from it is written, ...
  lemma {:induction false} StaysLoaded(cfg: Config, origin: Coord, before: Memory, after: Memory,
                                       h: Header, t: Coord, data: seq<Byte>, g: Header, tiles: seq<Coord>)
    requires t in tiles && |data| == h.memsz && Disjoint(cfg, origin, tiles, h, g)
    requires RangeHolds(cfg, origin, t, before, h.paddr, data)
    requires ChangedWithin(cfg, origin, tiles, before, after, g)
    ensures RangeHolds(cfg, origin, t, after, h.paddr, data)
  {
    hide ByteNpa;
    forall a | h.paddr <= a < h.paddr + |data|
      ensures data[a - h.paddr] == after(ByteNpa(cfg, origin, t, a).value)
    {
      var n := ByteNpa(cfg, origin, t, a).value;
      assert ByteNpa(cfg, origin, t, a) == Some(n);
      assert !InSegment(cfg, origin, tiles, g, n);
    }
  }

  // ... and while the same segment is written through another tile.
  lemma {:induction false} SameImage(cfg: Config, origin: Coord, before: Memory, after: Memory, eva: nat, t: Coord, u: Coord,
                                     data: seq<Byte>)
    requires eva < DRAM_BASE && RangeHolds(cfg, origin, t, before, eva, data)
    requires RangeWritten(cfg, origin, u, before, after, eva, data)
    ensures RangeHolds(cfg, origin, t, after, eva, data)
  {
    hide ByteNpa;
    assert Mapped(cfg, origin, t, eva, |data|) && Mapped(cfg, origin, u, eva, |data|);
    forall a | eva <= a < eva + |data|
      ensures data[a - eva] == after(ByteNpa(cfg, origin, t, a).value)
    {
      var n := ByteNpa(cfg, origin, t, a).value;
      if after(n) != before(n) {
        var b :| eva <= b < eva + |data| && ByteNpa(cfg, origin, u, b) == Some(n);
        SameSegmentByte(cfg, origin, t, u, eva, |data|, a, b);
      }
    }
  }

  // Two adjacent writes are one.
  lemma {:induction false} Joined(cfg: Config, pod: Coord, origin: Coord, src: Coord, m0: Memory, m1: Memory, m2: Memory,
                                  eva: nat, d1: seq<Byte>, d2: seq<Byte>)
    requires GoodConfig(cfg) && PodExists(cfg, pod) && BelongsTo(cfg, pod, src)
    requires eva + |d1| + |d2| <= WORD32
    requires RangeWritten(cfg, origin, src, m0, m1, eva, d1)
    requires RangeWritten(cfg, origin, src, m1, m2, eva + |d1|, d2)
    ensures RangeWritten(cfg, origin, src, m0, m2, eva, d1 + d2)
  {
    hide GoodPods, GoodFields, ByteNpa, BelongsTo;
    var n := |d1| + |d2|;
    assert Mapped(cfg, origin, src, eva, n);
    forall a | eva <= a < eva + n
      ensures m2(ByteNpa(cfg, origin, src, a).value) == (d1 + d2)[a - eva]
    {
      var npa := ByteNpa(cfg, origin, src, a).value;
      if a < eva + |d1| && m2(npa) != m1(npa) {
        var b :| eva + |d1| <= b < eva + n && ByteNpa(cfg, origin, src, b) == Some(npa);
        RangeBytesDistinct(cfg, pod, origin, src, eva, n, a, b);
        assert false;
      }
    }
    forall p: Npa
      ensures m2(p) == m0(p) || exists a :: eva <= a < eva + n && ByteNpa(cfg, origin, src, a) == Some(p)
    {
      if m2(p) != m0(p) && m1(p) != m0(p) {
        var a :| eva <= a < eva + |d1| && ByteNpa(cfg, origin, src, a) == Some(p);
      }
    }
  }

  lemma {:induction false} SameWrite(cfg: Config, origin: Coord, src: Coord, m0: Memory, m1: Memory, e1: nat, e2: nat, data: seq<Byte>)
    requires e1 == e2 || data == []
    requires RangeWritten(cfg, origin, src, m0, m1, e1, data)
    ensures RangeWritten(cfg, origin, src, m0, m1, e2, data)
  {
    hide ByteNpa;
  }

  lemma {:induction false} CapacityValue(cfg: Config, h: Header)
    requires IsEva(h.paddr)
    ensures Capacity(cfg, h) == if h.paddr >= 0x8000_0000 then DramSize(cfg) else 4096
    ensures LoadOnce(h) <==> h.paddr >= 0x8000_0000
  {
  }

  // The segment fits, and both its file bytes and its zeros can be transferred through `tile`.
  ghost predicate TileLoadable(cfg: Config, origin: Coord, tile: Coord, h: Header) {
    && h.filesz <= h.memsz <= (if h.paddr >= 0x8000_0000 then DramSize(cfg) else 4096)
    && Transferable(cfg, origin, tile, h.paddr, h.filesz)
    && Transferable(cfg, origin, tile, h.paddr + h.filesz, h.memsz - h.filesz)
  }

  /** `hb_mc_loader_load_tile_segment`: the file bytes, then zeros, at the segment's address as `tile` sees it. */
  method LoadTileSegment(dev: Device, ghost pod: Coord, origin: Coord, h: Header, file: seq<Byte>, tile: Coord)
    returns (r: Result<()>)
    requires GoodConfig(dev.cfg) && PodExists(dev.cfg, pod) && IsCoreOf(dev.cfg, pod, tile)
    requires h.load && GoodHeader(h) && |file| == h.filesz
    modifies dev
    ensures r.Ok? <==> TileLoadable(dev.cfg, origin, tile, h)
    ensures r.Ok? ==> RangeWritten(dev.cfg, origin, tile, old(dev.mem), dev.mem, h.paddr,
                                   file + Zeros(h.memsz - h.filesz))
  {
    hide GoodPods, GoodFields, IsCoreOf, IsBankOf, RangeWritten, Transferable, OutsideKept;
    if Capacity(dev.cfg, h) < h.memsz {
      return Err(Failure);
    }
    r := dev.EvaWrite(pod, origin, tile, h.paddr, file);
    if r.Err? {
      return;
    }
    ghost var m1 := dev.mem;
    var zeros := h.memsz - h.filesz;
    var eva := Wrap(h.paddr + h.filesz);
    EmptyTransfer(dev.cfg, origin, tile, dev.mem, eva);
    EmptyTransfer(dev.cfg, origin, tile, dev.mem, h.paddr + h.filesz);
    r := dev.EvaMemset(pod, origin, tile, eva, 0, zeros);
    if r.Ok? {
      assert seq(zeros, _ => 0) == Zeros(zeros);
      SameWrite(dev.cfg, origin, tile, m1, dev.mem, eva, h.paddr + h.filesz, Zeros(zeros));
      Joined(dev.cfg, pod, origin, tile, old(dev.mem), m1, dev.mem, h.paddr, file, Zeros(zeros));
    }
  }

  // What one write means for the list of tiles
  lemma {:induction false} WrittenAndKept(cfg: Config, origin: Coord, t: Coord, tiles: seq<Coord>, before: Memory, after: Memory,
                                          h: Header, data: seq<Byte>)
    requires RangeWritten(cfg, origin, t, before, after, h.paddr, data) && |data| == h.memsz && t in tiles
    ensures RangeHolds(cfg, origin, t, after, h.paddr, data)
    ensures ChangedWithin(cfg, origin, tiles, before, after, h)
  {
    hide ByteNpa;
    forall n: Npa
      ensures after(n) == before(n) || InSegment(cfg, origin, tiles, h, n)
    {
      if after(n) != before(n) {
        var a :| h.paddr <= a < h.paddr + |data| && ByteNpa(cfg, origin, t, a) == Some(n);
      }
    }
  }

  lemma {:induction false} ChangedRefl(cfg: Config, origin: Coord, tiles: seq<Coord>, m: Memory, h: Header)
    ensures ChangedWithin(cfg, origin, tiles, m, m, h)
  {
  }

  lemma {:induction false} ChangedTransitive(cfg: Config, origin: Coord, tiles: seq<Coord>, m0: Memory, m1: Memory, m2: Memory, h: Header)
    requires ChangedWithin(cfg, origin, tiles, m0, m1, h) && ChangedWithin(cfg, origin, tiles, m1, m2, h)
    ensures ChangedWithin(cfg, origin, tiles, m0, m2, h)
  {
    hide InSegment;
  }

  // Every tile of the list sees `data`.
  ghost predicate AllHold(cfg: Config, origin: Coord, tiles: seq<Coord>, mem: Memory, eva: nat, data: seq<Byte>) {
    forall t :: t in tiles ==> RangeHolds(cfg, origin, t, mem, eva, data)
  }

  ghost predicate AllLoadable(cfg: Config, origin: Coord, tiles: seq<Coord>, h: Header) {
    forall t :: t in tiles ==> TileLoadable(cfg, origin, t, h)
  }

  lemma {:induction false} LoadableOne(cfg: Config, origin: Coord, tiles: seq<Coord>, i: nat, h: Header)
    requires i < |tiles|
    ensures AllLoadable(cfg, origin, tiles, h) ==> TileLoadable(cfg, origin, tiles[i], h)
    ensures AllLoadable(cfg, origin, tiles[..i], h) && TileLoadable(cfg, origin, tiles[i], h) ==>
              AllLoadable(cfg, origin, tiles[..i] + [tiles[i]], h)
  {
    hide TileLoadable;
  }

  lemma {:induction false} OneMoreTile(cfg: Config, origin: Coord, before: Memory, after: Memory, eva: nat, tiles: seq<Coord>,
                                       tile: Coord, data: seq<Byte>)
    requires eva < DRAM_BASE && AllHold(cfg, origin, tiles, before, eva, data)
    requires RangeWritten(cfg, origin, tile, before, after, eva, data) && RangeHolds(cfg, origin, tile, after, eva, data)
    ensures AllHold(cfg, origin, tiles + [tile], after, eva, data)
  {
    hide RangeHolds, RangeWritten;
    forall t | t in tiles + [tile]
      ensures RangeHolds(cfg, origin, t, after, eva, data)
    {
      if t in tiles {
        SameImage(cfg, origin, before, after, eva, t, tile, data);
      }
    }
  }

  lemma {:induction false} NoTiles(cfg: Config, origin: Coord, mem: Memory, h: Header, data: seq<Byte>)
    ensures AllLoadable(cfg, origin, [], h) && AllHold(cfg, origin, [], mem, h.paddr, data)
  {
  }

  lemma {:induction false} ImageFacts(h: Header, file: seq<Byte>)
    requires h.load && GoodHeader(h) && |file| == h.filesz
    ensures h.filesz <= h.memsz && |file + Zeros(h.memsz - h.filesz)| == h.memsz
    ensures !LoadOnce(h) ==> h.paddr < DRAM_BASE
  {
  }

  /** `hb_mc_loader_load_tiles_segment`: every tile of the list sees the segment, and nothing else changed. */
  method LoadTilesSegment(dev: Device, ghost pod: Coord, origin: Coord, h: Header, file: seq<Byte>, tiles: seq<Coord>)
    returns (r: Result<()>)
    requires GoodConfig(dev.cfg) && PodExists(dev.cfg, pod) && TilesOf(dev.cfg, pod, tiles)
    requires h.load && !LoadOnce(h) && GoodHeader(h) && |file| == h.filesz
    modifies dev
    ensures r.Ok? <==> AllLoadable(dev.cfg, origin, tiles, h)
    ensures r.Ok? ==> && ChangedWithin(dev.cfg, origin, tiles, old(dev.mem), dev.mem, h)
                      && AllHold(dev.cfg, origin, tiles, dev.mem, h.paddr, file + Zeros(h.memsz - h.filesz))
  {
    hide GoodPods, GoodFields, IsCoreOf, RangeWritten, RangeHolds, TileLoadable, IsDramEva, ChangedWithin, Capacity, GoodHeader,
         AllHold, AllLoadable, Zeros, LoadOnce;
    ImageFacts(h, file);
    ghost var image: seq<Byte> := file + Zeros(h.memsz - h.filesz);
    NoTiles(dev.cfg, origin, dev.mem, h, image);
    assert tiles[..0] == [];
    ChangedRefl(dev.cfg, origin, tiles, dev.mem, h);
    for i := 0 to |tiles|
      invariant AllLoadable(dev.cfg, origin, tiles[..i], h)
      invariant ChangedWithin(dev.cfg, origin, tiles, old(dev.mem), dev.mem, h)
      invariant AllHold(dev.cfg, origin, tiles[..i], dev.mem, h.paddr, image)
    {
      ghost var m := dev.mem;
      assert tiles[i] in tiles;
      LoadableOne(dev.cfg, origin, tiles, i, h);
      r := LoadTileSegment(dev, pod, origin, h, file, tiles[i]);
      if r.Err? {
        return;
      }
      WrittenAndKept(dev.cfg, origin, tiles[i], tiles, m, dev.mem, h, image);
      ChangedTransitive(dev.cfg, origin, tiles, old(dev.mem), m, dev.mem, h);
      OneMoreTile(dev.cfg, origin, m, dev.mem, h.paddr, tiles[..i], tiles[i], image);
      assert tiles[..i + 1] == tiles[..i] + [tiles[i]];
    }
    assert tiles[..|tiles|] == tiles;
    return Ok(());
  }

  // A DRAM segment is loaded through one tile and seen by all tiles of the pod.
  lemma {:induction false} SeenByAll(cfg: Config, pod: Coord, origin: Coord, tiles: seq<Coord>, t: Coord, mem: Memory,
                                     h: Header, data: seq<Byte>)
    requires GoodConfig(cfg) && PodExists(cfg, pod) && TilesOf(cfg, pod, tiles) && IsCoreOf(cfg, pod, t)
    requires h.load && LoadOnce(h) && GoodHeader(h) && |data| == h.memsz
    requires RangeHolds(cfg, origin, t, mem, h.paddr, data)
    ensures AllHold(cfg, origin, tiles, mem, h.paddr, data)
  {
    hide GoodPods, GoodFields, IsCoreOf, ByteNpa;
    forall u, a | u in tiles && h.paddr <= a < h.paddr + h.memsz
      ensures ByteNpa(cfg, origin, u, a) == ByteNpa(cfg, origin, t, a)
    {
      DramByte(cfg, pod, origin, t, u, a);
    }
  }

  // As every tile sees it, a loadable segment is its part of the file, then zeros.
  ghost predicate Loaded(cfg: Config, origin: Coord, tiles: seq<Coord>, mem: Memory, bin: Binary, i: nat)
    requires i < |bin.headers|
  {
    var h := bin.headers[i];
    h.load ==>
      && h.offset + h.filesz <= |bin.data| && h.filesz <= h.memsz
      && forall t, a :: t in tiles && h.paddr <= a < h.paddr + h.memsz ==>
           && ByteNpa(cfg, origin, t, a).Some?
           && mem(ByteNpa(cfg, origin, t, a).value)
              == if a - h.paddr < h.filesz then bin.data[h.offset + (a - h.paddr)] else 0
  }

  // The header table and the segment lie inside the file.
  predicate InFile(bin: Binary, i: nat)
    requires i < |bin.headers|
  {
    bin.phoff + 32 * |bin.headers| <= |bin.data| && bin.headers[i].offset + bin.headers[i].filesz <= |bin.data|
  }

  // What `hb_mc_loader_get_segment` finds there
  lemma {:induction false} SegmentOfFile(bin: Binary, i: nat)
    requires i < |bin.headers|
    ensures GetSegment(bin, i).Ok? <==> InFile(bin, i)
    ensures InFile(bin, i) ==>
              GetSegment(bin, i).value == bin.data[bin.headers[i].offset..bin.headers[i].offset + bin.headers[i].filesz]
  {
  }

  lemma {:induction false} LoadedIsImage(cfg: Config, origin: Coord, tiles: seq<Coord>, mem: Memory, bin: Binary, i: nat)
    requires i < |bin.headers| && GetSegment(bin, i).Ok? && GoodHeader(bin.headers[i]) && bin.headers[i].load
    ensures Loaded(cfg, origin, tiles, mem, bin, i) <==> AllHold(cfg, origin, tiles, mem, bin.headers[i].paddr, Image(bin, i))
  {
    hide ByteNpa;
    var h, image := bin.headers[i], Image(bin, i);
    forall k | 0 <= k < h.memsz
      ensures image[k] == if k < h.filesz then bin.data[h.offset + k] else 0
    {
    }
    if Loaded(cfg, origin, tiles, mem, bin, i) {
      forall t, a | t in tiles && h.paddr <= a < h.paddr + |image|
        ensures ByteNpa(cfg, origin, t, a).Some? && image[a - h.paddr] == mem(ByteNpa(cfg, origin, t, a).value)
      {
      }
    }
    if AllHold(cfg, origin, tiles, mem, h.paddr, image) {
      forall t, a | t in tiles && h.paddr <= a < h.paddr + h.memsz
        ensures ByteNpa(cfg, origin, t, a).Some? && image[a - h.paddr] == mem(ByteNpa(cfg, origin, t, a).value)
      {
        assert RangeHolds(cfg, origin, t, mem, h.paddr, image);
      }
    }
  }

  // A segment lies inside the file, and can be loaded through the first tile or, outside DRAM, through every tile.
  ghost predicate Loadable(cfg: Config, origin: Coord, bin: Binary, i: nat, tiles: seq<Coord>)
    requires i < |bin.headers|
  {
    var h := bin.headers[i];
    && InFile(bin, i)
    && (h.load ==> if h.paddr >= 0x8000_0000 && |tiles| > 0 then TileLoadable(cfg, origin, tiles[0], h)
                   else AllLoadable(cfg, origin, tiles, h))
  }

  /** One segment, loaded never, once or for each tile */
  method LoadSegment(dev: Device, ghost pod: Coord, origin: Coord, bin: Binary, i: nat, tiles: seq<Coord>) returns (r: Result<()>)
    requires GoodConfig(dev.cfg) && PodExists(dev.cfg, pod) && TilesOf(dev.cfg, pod, tiles) && |tiles| > 0
    requires i < |bin.headers| && GoodHeader(bin.headers[i])
    modifies dev
    ensures r.Ok? <==> Loadable(dev.cfg, origin, bin, i, tiles)
    ensures r.Ok? ==> InFile(bin, i) && Loaded(dev.cfg, origin, tiles, dev.mem, bin, i)
    ensures r.Ok? && bin.headers[i].load ==> ChangedWithin(dev.cfg, origin, tiles, old(dev.mem), dev.mem, bin.headers[i])
    ensures !bin.headers[i].load ==> dev.mem == old(dev.mem)
  {
    var h := bin.headers[i];
    if h.load { CapacityValue(dev.cfg, h); }
    hide GoodPods, GoodFields, IsCoreOf, RangeWritten, TileLoadable, IsDramEva, ChangedWithin, GetSegment, Loaded, ByteNpa, AllHold, InFile,
         GoodHeader, AllLoadable, LoadOnce;
    SegmentOfFile(bin, i);
    var file := GetSegment(bin, i);
    if file.Err? {
      return Err(file.error);
    }
    FileLength(bin, i);
    if !h.load {
      NotLoaded(dev.cfg, origin, tiles, dev.mem, bin, i);
      return Ok(());
    }
    ImageFacts(h, file.value);
    ghost var m := dev.mem;
    if LoadOnce(h) {
      assert tiles[0] in tiles;
      r := LoadTileSegment(dev, pod, origin, h, file.value, tiles[0]);
      if r.Ok? {
        WrittenAndKept(dev.cfg, origin, tiles[0], tiles, m, dev.mem, h, Image(bin, i));
        SeenByAll(dev.cfg, pod, origin, tiles, tiles[0], dev.mem, h, Image(bin, i));
      }
    } else {
      r := LoadTilesSegment(dev, pod, origin, h, file.value, tiles);
    }
    LoadedIsImage(dev.cfg, origin, tiles, dev.mem, bin, i);
  }

  lemma {:induction false} NotLoaded(cfg: Config, origin: Coord, tiles: seq<Coord>, mem: Memory, bin: Binary, i: nat)
    requires i < |bin.headers| && !bin.headers[i].load
    ensures Loaded(cfg, origin, tiles, mem, bin, i)
  {
  }

  lemma {:induction false} FileLength(bin: Binary, i: nat)
    requires i < |bin.headers| && GetSegment(bin, i).Ok?
    ensures |GetSegment(bin, i).value| == bin.headers[i].filesz
  {
  }

  // -------------------- instruction caches --------------------

  // The first bytes of the program text lie in the instruction cache of the tile.
  ghost predicate CacheHolds(mem: Memory, tile: Coord, text: seq<Byte>) {
    forall k :: 0 <= k < |text| && k < ICACHE_SIZE ==> mem(Npa(tile.x, tile.y, ICACHE_EPA + k)) == text[k]
  }

  // Only bytes of instruction caches changed.
  ghost predicate ChangedCaches(cfg: Config, pod: Coord, before: Memory, after: Memory) {
    forall n: Npa :: after(n) == before(n) || (IsCoreOf(cfg, pod, Xy(n)) && 0x100_0000 <= n.epa < 0x100_1000)
  }

  lemma {:induction false} CachesRefl(cfg: Config, pod: Coord, m: Memory)
    ensures ChangedCaches(cfg, pod, m, m)
  {
  }

  lemma {:induction false} CacheWritten(cfg: Config, pod: Coord, m0: Memory, m1: Memory, m2: Memory, tile: Coord, text: seq<Byte>)
    requires IsCoreOf(cfg, pod, tile) && ChangedCaches(cfg, pod, m0, m1)
    requires Wrote(m1, m2, Npa(tile.x, tile.y, ICACHE_EPA), text[..Min(|text|, ICACHE_SIZE)])
    ensures ChangedCaches(cfg, pod, m0, m2) && CacheHolds(m2, tile, text)
    ensures forall t :: CacheHolds(m1, t, text) ==> CacheHolds(m2, t, text)
  {
    hide IsCoreOf;
    forall t, k | CacheHolds(m1, t, text) && 0 <= k < |text| && k < ICACHE_SIZE
      ensures m2(Npa(t.x, t.y, ICACHE_EPA + k)) == text[k]
    {
      assert m1(Npa(t.x, t.y, ICACHE_EPA + k)) == text[k];
    }
  }

  predicate Reached(cfg: Config, tiles: seq<Coord>) {
    forall t :: t in tiles ==> ValidDestination(cfg, Npa(t.x, t.y, ICACHE_EPA))
  }

  // The tag-bit check looks at the last address of the text, so it refuses a text without bytes.
  predicate CachesLoadable(cfg: Config, size: nat, tiles: seq<Coord>) {
    tiles == [] || (size > 0 && (size >= 4096 || size % 4 == 0) && Reached(cfg, tiles))
  }

  /** `hb_mc_loader_load_tiles_icache` */
  method LoadCaches(dev: Device, ghost pod: Coord, text: seq<Byte>, tiles: seq<Coord>) returns (r: Result<()>)
    requires TilesOf(dev.cfg, pod, tiles)
    modifies dev
    ensures r.Ok? <==> CachesLoadable(dev.cfg, |text|, tiles)
    ensures r.Ok? ==> && ChangedCaches(dev.cfg, pod, old(dev.mem), dev.mem)
                      && forall t :: t in tiles ==> CacheHolds(dev.mem, t, text)
  {
    hide IsCoreOf, CacheHolds, ChangedCaches;
    CachesRefl(dev.cfg, pod, dev.mem);
    var sz := Min(|text|, ICACHE_SIZE);
    for i := 0 to |tiles|
      invariant CachesLoadable(dev.cfg, |text|, tiles[..i])
      invariant ChangedCaches(dev.cfg, pod, old(dev.mem), dev.mem)
      invariant forall t :: t in tiles[..i] ==> CacheHolds(dev.mem, t, text)
    {
      assert tiles[i] in tiles;
      var npa := Npa(tiles[i].x, tiles[i].y, ICACHE_EPA);
      // bits 12 to 23 of the last address are tag bits
      if (npa.epa + sz - 1) / 4096 % 4096 != 0 {
        return Err(Failure);
      }
      ghost var m := dev.mem;
      r := dev.WriteMem(npa, text[..sz]);
      if r.Err? {
        return;
      }
      CacheWritten(dev.cfg, pod, old(dev.mem), m, dev.mem, tiles[i], text);
      assert tiles[..i + 1] == tiles[..i] + [tiles[i]];
    }
    assert tiles[..|tiles|] == tiles;
    return Ok(());
  }

  lemma {:induction false} CachesApart(cfg: Config, pod: Coord, origin: Coord, tiles: seq<Coord>, before: Memory, after: Memory,
                                       h: Header, t: Coord, data: seq<Byte>)
    requires GoodConfig(cfg) && PodExists(cfg, pod) && TilesOf(cfg, pod, tiles) && t in tiles
    requires h.load && GoodHeader(h) && |data| == h.memsz
    requires RangeHolds(cfg, origin, t, before, h.paddr, data) && ChangedCaches(cfg, pod, before, after)
    ensures RangeHolds(cfg, origin, t, after, h.paddr, data)
  {
    hide GoodPods, GoodFields, ByteNpa, IsCoreOf;
    forall a | h.paddr <= a < h.paddr + |data|
      ensures data[a - h.paddr] == after(ByteNpa(cfg, origin, t, a).value)
    {
      if IsDramEva(a) {
        DramByteAtBank(cfg, pod, origin, t, a);
      } else {
        TileByte(cfg, origin, t, a);
      }
    }
  }

  // The last loadable executable segment below `n`
  predicate IsText(bin: Binary, n: nat, i: int) {
    && 0 <= i < n <= |bin.headers| && bin.headers[i].load && bin.headers[i].exec
    && forall j :: i < j < n ==> !(bin.headers[j].load && bin.headers[j].exec)
  }

  predicate NoText(bin: Binary, n: nat) {
    n <= |bin.headers| && forall j :: 0 <= j < n ==> !(bin.headers[j].load && bin.headers[j].exec)
  }

  // Every segment can be loaded, there is a text, and it can be loaded into the instruction caches.
  ghost predicate BinaryLoadable(cfg: Config, origin: Coord, bin: Binary, tiles: seq<Coord>) {
    && (forall i :: 0 <= i < |bin.headers| ==> Loadable(cfg, origin, bin, i, tiles))
    && exists i :: IsText(bin, |bin.headers|, i) && CachesLoadable(cfg, bin.headers[i].filesz, tiles)
  }

  lemma {:induction false} OneText(bin: Binary, i: int, j: int)
    requires IsText(bin, |bin.headers|, i) && IsText(bin, |bin.headers|, j)
    ensures i == j
  {
    assert i < j || j < i || i == j;
  }

  lemma {:induction false} CoresReached(cfg: Config, pod: Coord, tiles: seq<Coord>)
    requires GoodPods(cfg) && PodExists(cfg, pod) && TilesOf(cfg, pod, tiles)
    ensures Reached(cfg, tiles)
  {
    forall t | t in tiles
      ensures ValidDestination(cfg, Npa(t.x, t.y, ICACHE_EPA))
    {
      MemberInMesh(cfg, pod, t);
    }
  }

  /** When every segment can be loaded, the load succeeds if and only if the text has file bytes. */
  lemma {:induction false} TextDecides(cfg: Config, pod: Coord, origin: Coord, bin: Binary, tiles: seq<Coord>, i: nat)
    requires GoodConfig(cfg) && PodExists(cfg, pod) && TilesOf(cfg, pod, tiles) && |tiles| > 0
    requires GoodHeaders(bin) && IsText(bin, |bin.headers|, i)
    requires forall j :: 0 <= j < |bin.headers| ==> Loadable(cfg, origin, bin, j, tiles)
    ensures BinaryLoadable(cfg, origin, bin, tiles) <==> bin.headers[i].filesz > 0
  {
    hide GoodPods, GoodFields, IsCoreOf, IsDramEva, Reached;
    CoresReached(cfg, pod, tiles);
    assert Loadable(cfg, origin, bin, i, tiles);
    FileLength(bin, i);
    forall j | IsText(bin, |bin.headers|, j)
      ensures j == i
    {
      OneText(bin, i, j);
    }
    assert tiles[0] in tiles;
    assert TileLoadable(cfg, origin, tiles[0], bin.headers[i]);
  }

  /** Such a program: its only segment is executable, has no file bytes and can be loaded, but the load fails. */
  lemma {:induction false} BareTextFails(cfg: Config, pod: Coord, origin: Coord, tile: Coord, file: seq<Byte>)
    requires GoodConfig(cfg) && PodExists(cfg, pod) && IsCoreOf(cfg, pod, tile) && |file| == 32
    ensures var bin := Binary(file, 0, [Header(true, true, DRAM_BASE, 0, 0, 0)]);
            && GoodHeaders(bin) && SegmentsApart(cfg, origin, [tile], bin) && Loadable(cfg, origin, bin, 0, [tile])
            && !BinaryLoadable(cfg, origin, bin, [tile])
  {
    hide GoodPods, GoodFields, IsCoreOf, ByteNpa;
    var bin := Binary(file, 0, [Header(true, true, DRAM_BASE, 0, 0, 0)]);
    TextDecides(cfg, pod, origin, bin, [tile], 0);
  }

  /** `hb_mc_loader_load_segments`: after a successful load every tile of the list sees the image of every loadable
  segment, and the start of the last executable one in its instruction cache. */
  method LoadSegments(dev: Device, ghost pod: Coord, origin: Coord, bin: Binary, tiles: seq<Coord>) returns (r: Result<()>)
    requires GoodConfig(dev.cfg) && PodExists(dev.cfg, pod) && TilesOf(dev.cfg, pod, tiles) && |tiles| > 0
    requires GoodHeaders(bin)
    modifies dev
    ensures r.Ok? <==> BinaryLoadable(dev.cfg, origin, bin, tiles)
    ensures r.Ok? ==> forall i :: 0 <= i < |bin.headers| ==> bin.headers[i].offset + bin.headers[i].filesz <= |bin.data|
    ensures r.Ok? && SegmentsApart(dev.cfg, origin, tiles, bin) ==>
              forall i, t, a :: 0 <= i < |bin.headers| && bin.headers[i].load && t in tiles
                                && bin.headers[i].paddr <= a < bin.headers[i].paddr + bin.headers[i].memsz ==>
                var h, n := bin.headers[i], ByteNpa(dev.cfg, origin, t, a);
                n.Some? && dev.mem(n.value) == if a - h.paddr < h.filesz then bin.data[h.offset + (a - h.paddr)] else 0
    ensures r.Ok? ==> exists i :: 0 <= i < |bin.headers| && bin.headers[i].load && bin.headers[i].exec
    ensures r.Ok? ==>
              forall i, t, e :: && 0 <= i < |bin.headers| && bin.headers[i].load && bin.headers[i].exec
                                && (forall j :: i < j < |bin.headers| ==> !(bin.headers[j].load && bin.headers[j].exec))
                                && t in tiles && 0x100_0000 <= e < 0x100_1000 && e - 0x100_0000 < bin.headers[i].filesz ==>
                dev.mem(Npa(t.x, t.y, e)) == bin.data[bin.headers[i].offset + (e - 0x100_0000)]
    ensures r.Ok? ==> forall n: Npa :: || dev.mem(n) == old(dev.mem)(n)
                                       || InSomeSegment(dev.cfg, origin, tiles, bin, |bin.headers|, n)
                                       || (IsCoreOf(dev.cfg, pod, Xy(n)) && 0x100_0000 <= n.epa < 0x100_1000)
  {
    hide GoodPods, GoodFields, IsCoreOf, RangeHolds, Loaded, ChangedWithin, GetSegment, ChangedCaches, CacheHolds, GoodHeaders, SegmentsApart,
         GoodHeader, InSomeSegment, Loadable, CachesLoadable, InFile, ByteNpa;
    var text := -1;
    for i := 0 to |bin.headers|
      invariant forall j :: 0 <= j < i ==> InFile(bin, j)
      invariant SegmentsApart(dev.cfg, origin, tiles, bin) ==>
                  forall j :: 0 <= j < i ==> Loaded(dev.cfg, origin, tiles, dev.mem, bin, j)
      invariant if text == -1 then NoText(bin, i) else IsText(bin, i, text)
      invariant forall j :: 0 <= j < i ==> Loadable(dev.cfg, origin, bin, j, tiles)
      invariant forall n: Npa :: dev.mem(n) == old(dev.mem)(n) || InSomeSegment(dev.cfg, origin, tiles, bin, i, n)
    {
      ghost var m := dev.mem;
      SegmentsGood(bin, i);
      r := LoadSegment(dev, pod, origin, bin, i, tiles);
      if r.Err? {
        return;
      }
      forall j | 0 <= j < i && SegmentsApart(dev.cfg, origin, tiles, bin)
        ensures Loaded(dev.cfg, origin, tiles, dev.mem, bin, j)
      {
        if bin.headers[i].load {
          OtherLoaded(dev.cfg, pod, origin, tiles, m, dev.mem, bin, i, j);
        }
      }
      SegmentChanges(dev.cfg, origin, tiles, old(dev.mem), m, dev.mem, bin, i);
      if bin.headers[i].load && bin.headers[i].exec {
        text := i;
      }
    }
    if text == -1 {
      return Err(InvalidAddress);
    }
    forall j | IsText(bin, |bin.headers|, j)
      ensures j == text
    {
      OneText(bin, text, j);
    }
    SegmentOfFile(bin, text);
    FileLength(bin, text);
    var data := GetSegment(bin, text);
    ghost var m := dev.mem;
    r := LoadCaches(dev, pod, data.value, tiles);
    if r.Ok? {
      forall j | 0 <= j < |bin.headers| && SegmentsApart(dev.cfg, origin, tiles, bin)
        ensures Loaded(dev.cfg, origin, tiles, dev.mem, bin, j)
      {
        StillLoaded(dev.cfg, pod, origin, tiles, m, dev.mem, bin, j);
      }
      CacheChanges(dev.cfg, pod, m, dev.mem);
      EveryByte(dev.cfg, origin, tiles, dev.mem, bin);
      TextInCaches(bin, text, tiles, dev.mem);
    }
    assert r.Ok? ==> IsText(bin, |bin.headers|, text);
  }

  // The bytes of all segments
  lemma {:induction false} EveryByte(cfg: Config, origin: Coord, tiles: seq<Coord>, mem: Memory, bin: Binary)
    requires forall i :: 0 <= i < |bin.headers| ==> InFile(bin, i)
    ensures forall i :: 0 <= i < |bin.headers| ==> bin.headers[i].offset + bin.headers[i].filesz <= |bin.data|
    ensures (forall i :: 0 <= i < |bin.headers| ==> Loaded(cfg, origin, tiles, mem, bin, i)) ==>
              forall i, t, a :: 0 <= i < |bin.headers| && bin.headers[i].load && t in tiles
                                && bin.headers[i].paddr <= a < bin.headers[i].paddr + bin.headers[i].memsz ==>
                var h, n := bin.headers[i], ByteNpa(cfg, origin, t, a);
                n.Some? && mem(n.value) == if a - h.paddr < h.filesz then bin.data[h.offset + (a - h.paddr)] else 0
  {
    hide ByteNpa;
    forall i | 0 <= i < |bin.headers|
      ensures bin.headers[i].offset + bin.headers[i].filesz <= |bin.data|
    {
      assert InFile(bin, i);
    }
    forall i, t, a |
      && (forall i :: 0 <= i < |bin.headers| ==> Loaded(cfg, origin, tiles, mem, bin, i))
      && 0 <= i < |bin.headers| && bin.headers[i].load && t in tiles
      && bin.headers[i].paddr <= a < bin.headers[i].paddr + bin.headers[i].memsz
      ensures var h, n := bin.headers[i], ByteNpa(cfg, origin, t, a);
              n.Some? && mem(n.value) == if a - h.paddr < h.filesz then bin.data[h.offset + (a - h.paddr)] else 0
    {
      assert Loaded(cfg, origin, tiles, mem, bin, i);
    }
  }

  lemma {:induction false} TextInCaches(bin: Binary, text: nat, tiles: seq<Coord>, mem: Memory)
    requires IsText(bin, |bin.headers|, text) && InFile(bin, text)
    requires forall t :: t in tiles ==> CacheHolds(mem, t, GetSegment(bin, text).value)
    ensures forall i, t, e :: && 0 <= i < |bin.headers| && bin.headers[i].load && bin.headers[i].exec
                              && (forall j :: i < j < |bin.headers| ==> !(bin.headers[j].load && bin.headers[j].exec))
                              && t in tiles && 0x100_0000 <= e < 0x100_1000 && e - 0x100_0000 < bin.headers[i].filesz ==>
              i == text && mem(Npa(t.x, t.y, e)) == bin.data[bin.headers[i].offset + (e - 0x100_0000)]
  {
    hide CacheHolds;
    forall i, t, e |
      && 0 <= i < |bin.headers| && bin.headers[i].load && bin.headers[i].exec
      && (forall j :: i < j < |bin.headers| ==> !(bin.headers[j].load && bin.headers[j].exec))
      && t in tiles && 0x100_0000 <= e < 0x100_1000 && e - 0x100_0000 < bin.headers[i].filesz
      ensures i == text && mem(Npa(t.x, t.y, e)) == bin.data[bin.headers[i].offset + (e - 0x100_0000)]
    {
      assert IsText(bin, |bin.headers|, i);
      OneText(bin, i, text);
      CacheByte(mem, t, GetSegment(bin, text).value, e - 0x100_0000);
    }
  }

  lemma {:induction false} CacheByte(mem: Memory, tile: Coord, text: seq<Byte>, k: nat)
    requires CacheHolds(mem, tile, text) && k < |text| && k < 4096
    ensures mem(Npa(tile.x, tile.y, 0x100_0000 + k)) == text[k]
  {
    assert 0x100_0000 + k == ICACHE_EPA + k;
  }

  ghost predicate InSomeSegment(cfg: Config, origin: Coord, tiles: seq<Coord>, bin: Binary, n: nat, npa: Npa)
    requires n <= |bin.headers|
  {
    exists j :: 0 <= j < n && bin.headers[j].load && InSegment(cfg, origin, tiles, bin.headers[j], npa)
  }

  lemma {:induction false} SegmentChanges(cfg: Config, origin: Coord, tiles: seq<Coord>, m0: Memory, m1: Memory, m2: Memory,
                                          bin: Binary, i: nat)
    requires i < |bin.headers|
    requires forall n: Npa :: m1(n) == m0(n) || InSomeSegment(cfg, origin, tiles, bin, i, n)
    requires if bin.headers[i].load then ChangedWithin(cfg, origin, tiles, m1, m2, bin.headers[i]) else m2 == m1
    ensures forall n: Npa :: m2(n) == m0(n) || InSomeSegment(cfg, origin, tiles, bin, i + 1, n)
  {
    hide InSegment;
    forall n: Npa
      ensures m2(n) == m0(n) || InSomeSegment(cfg, origin, tiles, bin, i + 1, n)
    {
      if InSomeSegment(cfg, origin, tiles, bin, i, n) {
        var j :| 0 <= j < i && bin.headers[j].load && InSegment(cfg, origin, tiles, bin.headers[j], n);
      }
    }
  }

  lemma {:induction false} CacheChanges(cfg: Config, pod: Coord, m1: Memory, m2: Memory)
    requires ChangedCaches(cfg, pod, m1, m2)
    ensures forall n: Npa :: m2(n) == m1(n) || (IsCoreOf(cfg, pod, Xy(n)) && 0x100_0000 <= n.epa < 0x100_1000)
  {
  }

  lemma {:induction false} ApartSegments(cfg: Config, origin: Coord, tiles: seq<Coord>, bin: Binary, i: nat, j: nat)
    requires SegmentsApart(cfg, origin, tiles, bin) && i < j < |bin.headers| && bin.headers[i].load && bin.headers[j].load
    ensures Disjoint(cfg, origin, tiles, bin.headers[i], bin.headers[j])
  {
    hide Disjoint;
  }

  lemma {:induction false} SegmentsGood(bin: Binary, i: nat)
    requires GoodHeaders(bin) && i < |bin.headers|
    ensures GoodHeader(bin.headers[i])
  {
  }

  lemma {:induction false} OtherLoaded(cfg: Config, pod: Coord, origin: Coord, tiles: seq<Coord>, before: Memory, after: Memory,
                                       bin: Binary, i: nat, j: nat)
    requires GoodConfig(cfg) && PodExists(cfg, pod) && TilesOf(cfg, pod, tiles)
    requires GoodHeaders(bin) && SegmentsApart(cfg, origin, tiles, bin) && j < i < |bin.headers| && bin.headers[i].load
    requires InFile(bin, j) && Loaded(cfg, origin, tiles, before, bin, j)
    requires ChangedWithin(cfg, origin, tiles, before, after, bin.headers[i])
    ensures Loaded(cfg, origin, tiles, after, bin, j)
  {
    hide GoodPods, GoodFields, IsCoreOf, RangeHolds, ChangedWithin, GetSegment, Loaded, GoodHeader, ChangedCaches, InFile,
         SegmentsApart, Disjoint;
    if bin.headers[j].load {
      SegmentsGood(bin, j);
      SegmentOfFile(bin, j);
      LoadedIsImage(cfg, origin, tiles, before, bin, j);
      forall t | t in tiles
        ensures RangeHolds(cfg, origin, t, after, bin.headers[j].paddr, Image(bin, j))
      {
        ApartSegments(cfg, origin, tiles, bin, j, i);
        StaysLoaded(cfg, origin, before, after, bin.headers[j], t, Image(bin, j), bin.headers[i], tiles);
      }
      LoadedIsImage(cfg, origin, tiles, after, bin, j);
    } else {
      NotLoaded(cfg, origin, tiles, after, bin, j);
    }
  }

  lemma {:induction false} StillLoaded(cfg: Config, pod: Coord, origin: Coord, tiles: seq<Coord>, before: Memory, after: Memory,
                                       bin: Binary, j: nat)
    requires GoodConfig(cfg) && PodExists(cfg, pod) && TilesOf(cfg, pod, tiles)
    requires GoodHeaders(bin) && j < |bin.headers|
    requires InFile(bin, j) && Loaded(cfg, origin, tiles, before, bin, j) && ChangedCaches(cfg, pod, before, after)
    ensures Loaded(cfg, origin, tiles, after, bin, j)
  {
    hide GoodPods, GoodFields, IsCoreOf, RangeHolds, ChangedWithin, GetSegment, Loaded, GoodHeader, ChangedCaches, InFile,
         SegmentsApart, Disjoint;
    if bin.headers[j].load {
      SegmentsGood(bin, j);
      SegmentOfFile(bin, j);
      LoadedIsImage(cfg, origin, tiles, before, bin, j);
      forall t | t in tiles
        ensures RangeHolds(cfg, origin, t, after, bin.headers[j].paddr, Image(bin, j))
      {
        CachesApart(cfg, pod, origin, tiles, before, after, bin.headers[j], t, Image(bin, j));
      }
      LoadedIsImage(cfg, origin, tiles, after, bin, j);
    } else {
      NotLoaded(cfg, origin, tiles, after, bin, j);
    }
  }
}
