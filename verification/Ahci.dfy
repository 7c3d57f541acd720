/** The byte layer of the AHCI driver and the commands under it
    (src/drivers/pci_drivers/ahci.c:302-314, 583-715, src/drivers/pci_drivers/ahci.h:37-59), against a
    device that decodes them as ATA and section 4.2.3.3 of the AHCI 1.3.1 specification say. */
module Ahci {
  import opened Common
  import opened Bytes

  const PIECE: nat := 0x400000
  const TWO32: nat := 0x1_0000_0000

  // Physical region descriptors.

  datatype Prdt = Prdt(base: nat, upper: nat, byteCount: nat)

  /** AHCI_GET_PRDT_BYTES: rounded up to even, less one, in 22 bits. */
  function PrdtBytes(n: nat): nat {
    ((n + 1) / 2 * 2 - 1) % PIECE
  }

  /** The field holds "length minus one" exactly for even lengths. */
  lemma PrdtExact(n: nat)
    requires 1 <= n <= PIECE
    ensures PrdtBytes(n) + 1 == n <==> n % 2 == 0
  {
  }

  /** ahci_fill_prdt together with the length. */
  function Describe(wide: bool, address: nat, n: nat): Prdt {
    Prdt(address % TWO32, if wide then address / TWO32 else 0, PrdtBytes(n))
  }

  /** A stretch of memory. */
  datatype Piece = Piece(at: nat, len: nat)

  /** What the device makes of a descriptor. */
  function PieceOf(e: Prdt): Piece {
    Piece(e.base + e.upper * TWO32, e.byteCount + 1)
  }

  function Pieces(prdt: seq<Prdt>): (r: seq<Piece>)
    ensures |r| == |prdt|
  {
    seq(|prdt|, i requires 0 <= i < |prdt| => PieceOf(prdt[i]))
  }

  /** The driver's addresses fit the controller. */
  predicate Reachable(wide: bool, p: nat, n: nat) {
    if wide then p + n <= TWO64 else p + n <= TWO32 - 1
  }

  lemma DescribeExact(wide: bool, address: nat, n: nat)
    requires 1 <= n <= PIECE && n % 2 == 0 && Reachable(wide, address, n)
    ensures PieceOf(Describe(wide, address, n)) == Piece(address, n)
  {
    PrdtExact(n);
    assert address == address / TWO32 * TWO32 + address % TWO32;
  }

  /** The pieces follow one another from `p` for `n` bytes, with no gap or overlap, each of at most
      4 MiB. */
  ghost predicate Tiled(ps: seq<Piece>, p: nat, n: nat)
    decreases |ps|
  {
    if ps == [] then n == 0
    else
      var last := ps[|ps| - 1];
      1 <= last.len <= PIECE && last.len <= n && last.at == p + n - last.len && Tiled(ps[..|ps| - 1], p, n - last.len)
  }

  function Total(ps: seq<Piece>): nat {
    if ps == [] then 0 else Total(ps[..|ps| - 1]) + ps[|ps| - 1].len
  }

  predicate InRam(ps: seq<Piece>, size: nat) {
    forall i :: 0 <= i < |ps| ==> ps[i].at + ps[i].len <= size
  }

  /** The bytes of the pieces, in order. */
  function Gather(ram: Data, ps: seq<Piece>): (r: Data)
    requires InRam(ps, |ram|)
    ensures |r| == Total(ps)
  {
    if ps == [] then []
    else
      var last := ps[|ps| - 1];
      Gather(ram, ps[..|ps| - 1]) + ram[last.at..last.at + last.len]
  }

  function Scatter(ram: Data, ps: seq<Piece>, x: Data): (r: Data)
    requires InRam(ps, |ram|) && |x| == Total(ps)
    ensures |r| == |ram|
    decreases |ps|
  {
    if ps == [] then ram
    else
      var last := ps[|ps| - 1];
      var k := |x| - last.len;
      Patched(Scatter(ram, ps[..|ps| - 1], x[..k]), last.at, x[k..])
  }

  /** A tiling stays inside its buffer and has its length. */
  lemma {:induction false} TiledFits(ps: seq<Piece>, p: nat, n: nat, size: nat)
    requires Tiled(ps, p, n) && p + n <= size
    ensures InRam(ps, size) && Total(ps) == n
    decreases |ps|
  {
    if ps != [] {
      var last, init := ps[|ps| - 1], ps[..|ps| - 1];
      TiledFits(init, p, n - last.len, size);
      assert forall i :: 0 <= i < |init| ==> ps[i] == init[i];
    }
  }

  /** A tiling is as good as one buffer. */
  lemma {:induction false} TiledGathers(ram: Data, ps: seq<Piece>, p: nat, n: nat)
    requires Tiled(ps, p, n) && p + n <= |ram|
    ensures InRam(ps, |ram|) && Total(ps) == n && Gather(ram, ps) == ram[p..p + n]
    decreases |ps|
  {
    TiledFits(ps, p, n, |ram|);
    if ps != [] {
      var last, init := ps[|ps| - 1], ps[..|ps| - 1];
      var at, len := last.at, last.len;
      TiledGathers(ram, init, p, n - len);
      hide Gather, InRam, Total, Tiled;
      assert at + len == p + n && p <= at;
      assert Gather(ram, init) == ram[p..at];
      assert Gather(ram, ps) == Gather(ram, init) + ram[at..p + n] by { GatherLast(ram, ps); }
      Adjacent(ram, p, at, p + n);
    }
  }

  lemma GatherLast(ram: Data, ps: seq<Piece>)
    requires ps != [] && InRam(ps, |ram|)
    ensures var last, init := ps[|ps| - 1], ps[..|ps| - 1];
            InRam(init, |ram|) && Gather(ram, ps) == Gather(ram, init) + ram[last.at..last.at + last.len]
  {
  }

  lemma Adjacent(d: Data, a: nat, b: nat, c: nat)
    requires a <= b <= c <= |d|
    ensures d[a..c] == d[a..b] + d[b..c]
  {
  }

  lemma {:induction false} TiledScatters(ram: Data, ps: seq<Piece>, p: nat, x: Data)
    requires Tiled(ps, p, |x|) && p + |x| <= |ram|
    ensures InRam(ps, |ram|) && Total(ps) == |x| && Scatter(ram, ps, x) == Patched(ram, p, x)
    decreases |ps|
  {
    hide Gather, Patched;
    TiledGathers(ram, ps, p, |x|);
    if ps == [] {
      assert x == [];
      NoPatch(ram, p);
    } else {
      var last, init := ps[|ps| - 1], ps[..|ps| - 1];
      var k := |x| - last.len;
      TiledScatters(ram, init, p, x[..k]);
      PatchTwice(ram, p, x, k);
    }
  }

  lemma NoPatch(d: Data, p: nat)
    requires p <= |d|
    ensures Patched(d, p, []) == d
  {
  }

  lemma PatchTwice(d: Data, p: nat, x: Data, k: nat)
    requires p + |x| <= |d| && k <= |x|
    ensures Patched(Patched(d, p, x[..k]), p + k, x[k..]) == Patched(d, p, x)
  {
    var a, b := Patched(Patched(d, p, x[..k]), p + k, x[k..]), Patched(d, p, x);
    assert forall i :: 0 <= i < |d| ==> a[i] == b[i];
  }

  // Commands.

  datatype Command = Command(write: bool, ext: bool, lba: seq<Byte>, count: seq<Byte>, prdt: seq<Prdt>)

  /** The registers of the command: three address bytes, or six in the extended form; the count, with
      0xffff sent as zero. */
  function Build(ext: bool, write: bool, offset: nat, count: nat, prdt: seq<Prdt>): Command {
    Command(write, ext, Encode(offset, if ext then 6 else 3), Encode(if count == 0xffff then 0 else count, 2), prdt)
  }

  /** How many sectors the device moves: a zero count means the largest. */
  function SectorsOf(cmd: Command): nat {
    var n := if cmd.ext then Decode(cmd.count) else if cmd.count == [] then 0 else cmd.count[0];
    if n == 0 then if cmd.ext then 0x10000 else 0x100 else n
  }

  function LbaOf(cmd: Command): nat {
    Decode(cmd.lba)
  }

  /** What a caller can ask for. */
  predicate Addressable(ext: bool, count: nat, offset: int) {
    if ext then 1 <= count <= 0xfffe && offset < 0x1_0000_0000_0000 else 1 <= count <= 0x100 && offset < 0x100_0000
  }

  /** The device understands the command as it was meant exactly if the request is addressable. */
  lemma CommandExact(ext: bool, write: bool, offset: nat, count: nat, prdt: seq<Prdt>)
    requires count <= 0xffff
    ensures var cmd := Build(ext, write, offset, count, prdt);
            SectorsOf(cmd) == count && LbaOf(cmd) == offset <==> Addressable(ext, count, offset)
  {
    hide Encode, Decode, Power;
    var sent := if count == 0xffff then 0 else count;
    Powers();
    DecodeEncode(offset, if ext then 6 else 3);
    DecodeEncode(sent, 2);
    LowByte(sent);
  }

  /** A full count of 0xffff sectors is sent as zero, which asks for one sector more. */
  lemma FullCountExample()
    ensures SectorsOf(Build(true, false, 0, 0xffff, [])) == 0x10000
  {
    Powers();
    DecodeEncode(0, 2);
  }

  lemma LowByte(n: nat)
    ensures Encode(n, 2)[0] == n % 256
  {
  }

  /** The device: it moves its sectors between the disk and the pieces, provided the pieces hold exactly
      that much. */
  function Transfer(disk: Data, ram: Data, size: nat, cmd: Command): (r: Option<(Data, Data)>)
    ensures r.Some? ==> |r.value.0| == |disk| && |r.value.1| == |ram|
  {
    var ps, n, pos := Pieces(cmd.prdt), SectorsOf(cmd) * size, LbaOf(cmd) * size;
    if pos + n > |disk| || !InRam(ps, |ram|) || Total(ps) != n then None
    else if cmd.write then Some((Patched(disk, pos, Gather(ram, ps)), ram))
    else Some((disk, Scatter(ram, ps, disk[pos..pos + n])))
  }

  /** Addressable sectors move as one block between the disk and the buffer. */
  lemma TransferExact(disk: Data, ram: Data, size: nat, cmd: Command, p: nat, n: nat, pos: nat)
    requires SectorsOf(cmd) * size == n && LbaOf(cmd) * size == pos && Tiled(Pieces(cmd.prdt), p, n)
    requires p + n <= |ram| && pos + n <= |disk|
    ensures Transfer(disk, ram, size, cmd) ==
            Some(if cmd.write then (Patched(disk, pos, ram[p..p + n]), ram)
                else (disk, Patched(ram, p, disk[pos..pos + n])))
  {
    hide SectorsOf, LbaOf, Tiled, Gather, Scatter, Total, Patched, Pieces;
    var ps := Pieces(cmd.prdt);
    TiledGathers(ram, ps, p, n);
    TiledScatters(ram, ps, p, disk[pos..pos + n]);
  }

  /** A command past the end of the disk is refused. */
  lemma TransferRefused(disk: Data, ram: Data, size: nat, cmd: Command, n: nat, pos: nat)
    requires SectorsOf(cmd) * size == n && LbaOf(cmd) * size == pos && pos + n > |disk|
    ensures Transfer(disk, ram, size, cmd) == None
  {
    hide SectorsOf, LbaOf, Gather, Scatter, Total, Patched, Pieces;
  }

  lemma TiledNext(prdt: seq<Prdt>, e: Prdt, p: nat, n: nat, len: nat)
    requires Tiled(Pieces(prdt), p, n) && PieceOf(e) == Piece(p + n, len) && 1 <= len <= PIECE
    ensures Tiled(Pieces(prdt + [e]), p, n + len)
  {
    var ps := Pieces(prdt + [e]);
    assert ps[..|ps| - 1] == Pieces(prdt);
  }

  class Port {
    const size: nat
    const ext: bool
    const wide: bool
    var disk: Data
    var ram: Data

    constructor (size: nat, ext: bool, wide: bool, disk: Data, ram: Data)
      ensures this.size == size && this.ext == ext && this.wide == wide && this.disk == disk && this.ram == ram
    {
      this.size, this.ext, this.wide, this.disk, this.ram := size, ext, wide, disk, ram;
    }

    /** The descriptor loop: the pieces tile the buffer. */
    method FillPrdts(p: nat, n: nat) returns (prdt: seq<Prdt>)
      requires n % 2 == 0 && Reachable(wide, p, n)
      ensures Tiled(Pieces(prdt), p, n) && |prdt| == (n + 0x3fffff) / 0x400000
    {
      hide Pieces, Describe, PieceOf;
      var total, left, i := (n + PIECE - 1) / PIECE, n, 0;
      prdt := [];
      assert Tiled(Pieces(prdt), p, 0) by { NoPieces(); }
      while i < total
        invariant i <= total && |prdt| == i && left <= n && Tiled(Pieces(prdt), p, n - left)
        invariant left == if n >= i * PIECE then n - i * PIECE else 0
      {
        var len := if left >= PIECE then PIECE else left;
        DescribeExact(wide, p + i * PIECE, len);
        var e := Describe(wide, p + i * PIECE, len);
        TiledNext(prdt, e, p, n - left, len);
        prdt := prdt + [e];
        left := left - len;
        i := i + 1;
      }
    }

    /** ahci_io_sata_sectors. `fault` is the error of the slot search or the device, zero if none; a
        command the device refuses reads as error 2. `n` and `pos` are the bytes to move and where they
        lie on the disk. */
    method IoSectors(p: nat, count: nat, offset: nat, write: bool, fault: nat, ghost n: nat,
                     ghost pos: nat) returns (err: nat)
      requires count <= 0xffff && n == count * size && pos == offset * size && n % 2 == 0 && Reachable(wide, p, n)
      modifies this
      ensures |disk| == old(|disk|) && |ram| == old(|ram|) && (write ==> ram == old(ram))
      ensures (!write ==> disk == old(disk))
      ensures err != 0 ==> disk == old(disk) && ram == old(ram)
      ensures if fault != 0 then err == fault else err == 0 || err == 2
      ensures fault == 0 && Addressable(ext, count, offset) && pos + n > |disk| ==> err == 2
      ensures fault == 0 && Addressable(ext, count, offset) && p + n <= |ram| && pos + n <= |disk| ==>
                && err == 0 && (write ==> disk == Patched(old(disk), pos, old(ram)[p..p + n]))
                && (!write ==> ram == Patched(old(ram), p, old(disk)[pos..pos + n]))
    {
      hide Tiled, Transfer, Patched, Build, Addressable;
      if fault != 0 {
        return fault;
      }
      var prdt := FillPrdts(p, count * size);
      var cmd := Build(ext, write, offset, count, prdt);
      assert cmd.prdt == prdt && cmd.write == write by { BuildKeeps(ext, write, offset, count, prdt); }
      CommandExact(ext, write, offset, count, prdt);
      if Addressable(ext, count, offset) && pos + n > |disk| {
        TransferRefused(disk, ram, size, cmd, n, pos);
      } else if Addressable(ext, count, offset) && p + n <= |ram| {
        TransferExact(disk, ram, size, cmd, p, n, pos);
      }
      TransferFrame(disk, ram, size, cmd);
      var r := Transfer(disk, ram, size, cmd);
      if r.None? {
        return 2;
      }
      disk, ram := r.value.0, r.value.1;
      return 0;
    }

    /** The range is on the disk, which has `sectors` sectors, and its sectors are addressable. */
    ghost predicate Ready(seek: nat, count: nat, sectors: nat)
      reads this
    {
      && size > 0 && |disk| == sectors * size && seek + count <= |disk|
      && Addressable(ext, SectorCount(size, seek, count), Sector(size, seek))
    }

    /** The buffer at `p` that the frame allocator gave for the sectors of the range. */
    ghost predicate Allocated(p: nat, seek: nat, count: nat)
      requires size > 0
      reads this
    {
      0 < SectorCount(size, seek, count) <= 0xffff ==>
        p + SectorCount(size, seek, count) * size <= |ram| && Reachable(wide, p, SectorCount(size, seek, count) * size)
    }

    /** ahci_read_sata_bytes: exactly the bytes asked for. Error 5 is a range of too many sectors, 6 a
        range of none. */
    method ReadBytes(p: nat, count: nat, seek: nat, fault: nat, ghost sectors: nat) returns (err: nat, out: Data)
      requires size > 0 && size % 2 == 0 && Allocated(p, seek, count)
      modifies this
      ensures disk == old(disk)
      ensures SectorCount(size, seek, count) > 0xffff ==> err == 5
      ensures SectorCount(size, seek, count) == 0 ==> err == 6
      ensures fault == 0 && old(Ready(seek, count, sectors)) ==> err == 0 && out == disk[seek..seek + count]
      ensures fault != 0 && 0 < SectorCount(size, seek, count) <= 0xffff ==> err == fault
      ensures if err == 0 then fault == 0 && |out| == count else out == []
    {
      hide Patched, SectorCount, Sector, Within;
      var n: nat, lo: nat, off: nat := SectorCount(size, seek, count), Sector(size, seek), Within(size, seek);
      if n > 0xffff {
        return 5, [];
      } else if n == 0 {
        return 6, [];
      }
      RangeSectors(size, seek, count, sectors);
      ghost var d, r, m: nat, o: nat := disk, ram, n * size, lo * size;
      assert m % 2 == 0 by { EvenProduct(n, size); }
      ghost var ready := fault == 0 && Ready(seek, count, sectors);
      err := IoSectors(p, n, lo, false, fault, m, o);
      if err != 0 {
        return err, [];
      }
      out := ram[p + off..p + off + count];
      if ready {
        CutSectors(r, p, d, o, m, off, count);
      }
    }

    /** ahci_write_sata_bytes: exactly the bytes of the range change. The first and last sector are read
        so that what lies around the range in them is written back as it was; for that the last sector
        must be addressable too. */
    method WriteBytes(p: nat, x: Data, seek: nat, faults: (nat, nat, nat), ghost sectors: nat) returns (err: nat)
      requires size > 0 && size % 2 == 0 && Allocated(p, seek, |x|)
      modifies this
      ensures |disk| == old(|disk|)
      ensures SectorCount(size, seek, |x|) > 0xffff ==> err == 5 && disk == old(disk)
      ensures SectorCount(size, seek, |x|) == 0 ==> err == 6 && disk == old(disk)
      ensures old(Ready(seek, |x|, sectors)) && Addressable(ext, 1, LastOf(size, seek, |x|)) ==>
                (err == 0 <==> faults == (0, 0, 0)) && (err == 0 ==> Overwritten(old(disk), disk, seek, x))
      ensures err != 0 ==> disk == old(disk)
      ensures err == 0 ==> faults == (0, 0, 0)
      ensures 0 < SectorCount(size, seek, |x|) <= 0xffff && faults.0 != 0 ==> err == faults.0
      ensures old(Ready(seek, |x|, sectors)) && faults.0 == 0 && faults.1 != 0 ==> err == faults.1
      ensures old(Ready(seek, |x|, sectors)) && Addressable(ext, 1, LastOf(size, seek, |x|)) ==>
                faults.0 == 0 && faults.1 == 0 && faults.2 != 0 ==> err == faults.2
    {
      hide Patched, SectorCount, Reachable, Span, Ready, Addressable, Sector, Within, Overwritten;
      ghost var ready := Ready(seek, |x|, sectors);
      if ready {
        ReadyFits(seek, |x|, sectors);
      }
      var n: nat, lo: nat, off: nat := SectorCount(size, seek, |x|), Sector(size, seek), Within(size, seek);
      if n > 0xffff {
        return 5;
      } else if n == 0 {
        return 6;
      }
      ghost var m, o, e := SpanOf(size, seek, |x|, n, lo, off);
      err := Rewrite(p, n, lo, off, x, faults, m, o, e);
    }

    lemma ReadyFits(seek: nat, count: nat, sectors: nat)
      requires Ready(seek, count, sectors)
      ensures Sector(size, seek) * size + SectorCount(size, seek, count) * size <= |disk|
      ensures Addressable(ext, SectorCount(size, seek, count), Sector(size, seek))
      ensures SectorCount(size, seek, count) <= 0xffff && SectorCount(size, seek, count) > 0
      ensures Addressable(ext, 1, Sector(size, seek))
    {
      RangeSectors(size, seek, count, sectors);
    }

    /** Read the outer sectors, patch, write all sectors: `m` bytes from `o` on, the last sector `e` bytes
        in. */
    method Rewrite(p: nat, n: nat, lo: nat, off: nat, x: Data, faults: (nat, nat, nat), ghost m: nat, ghost o: nat,
                   ghost e: nat)
      returns (err: nat)
      requires 0 < n <= 0xffff && Span(size, n, lo, m, o, e) && size % 2 == 0 && m % 2 == 0
      requires off < size && off + |x| <= m < off + |x| + size && p + m <= |ram| && Reachable(wide, p, m)
      modifies this
      ensures |disk| == old(|disk|)
      ensures err != 0 ==> disk == old(disk)
      ensures err == 0 ==> faults == (0, 0, 0)
      ensures faults == (0, 0, 0) && o + m <= |disk| && Addressable(ext, n, lo) && Addressable(ext, 1, lo + n - 1) ==>
                err == 0 && Overwritten(old(disk), disk, o + off, x)
      ensures faults.0 != 0 ==> err == faults.0
      ensures faults.0 == 0 && Addressable(ext, 1, lo) && o + m <= |disk| && faults.1 != 0 ==> err == faults.1
      ensures o + m <= |disk| && Addressable(ext, 1, lo) && Addressable(ext, 1, lo + n - 1) ==>
                faults.0 == 0 && faults.1 == 0 && faults.2 != 0 ==> err == faults.2
    {
      hide Patched, Reachable, Overwritten;
      ghost var d, r := disk, ram;
      PartReachable(wide, p, m, 0, size);
      PartReachable(wide, p, m, e, size);
      err := IoSectors(p, 1, lo, false, faults.0, size, o);
      if err != 0 {
        return err;
      }
      ghost var r1 := ram;
      err := IoSectors(p + (n - 1) * size, 1, lo + n - 1, false, faults.1, size, o + e);
      if err != 0 {
        return err;
      }
      ghost var r2 := ram;
      ram := Patched(ram, p + off, x);
      err := IoSectors(p, n, lo, true, faults.2, m, o);
      if faults == (0, 0, 0) && o + m <= |d| && Addressable(ext, n, lo) && Addressable(ext, 1, lo + n - 1) {
        Rewritten(r, r1, r2, p, d, size, o, m, e, off, x);
        PatchOverwrites(d, o + off, x);
      }
    }
  }

  /** The sector of a byte, and how far in it lies. */
  function Sector(size: nat, seek: nat): nat
    requires size > 0
  {
    seek / size
  }

  function Within(size: nat, seek: nat): nat
    requires size > 0
  {
    seek % size
  }

  /** The sectors a byte range touches. */
  function SectorCount(size: nat, seek: nat, count: nat): (n: nat)
    requires size > 0
  {
    RangeWhole(size, seek, count);
    (seek + count + size - 1) / size - seek / size
  }

  /** The last of them, or the one before the first if there is none. */
  function LastOf(size: nat, seek: nat, count: nat): int
    requires size > 0
  {
    Sector(size, seek) + SectorCount(size, seek, count) - 1
  }

  lemma RangeWhole(size: nat, seek: nat, count: nat)
    requires size > 0
    ensures (seek + count + size - 1) / size >= seek / size
  {
    var lo, a := DivMod(seek, size);
    var hi, r := DivMod(seek + count + size - 1, size);
    RangeArith(size, lo, a, hi, r, count, 0);
  }

  /** The sectors cover the range and less than a sector more, and lie on the disk if the range does. */
  lemma RangeSectors(size: nat, seek: nat, count: nat, sectors: nat)
    requires size > 0
    ensures var lo, n, off := Sector(size, seek), SectorCount(size, seek, count), Within(size, seek);
            && lo * size + off == seek && off < size && off + count <= n * size < off + count + size
            && (seek + count <= sectors * size ==> lo * size + n * size <= sectors * size)
  {
    hide SectorCount;
    var lo, a := DivMod(seek, size);
    var hi, r := DivMod(seek + count + size - 1, size);
    RangeArith(size, lo, a, hi, r, count, sectors);
    assert SectorCount(size, seek, count) == hi - lo by { SectorCountIs(size, seek, count, lo, hi); }
    assert lo * size + (hi - lo) * size == hi * size;
    if seek + count <= sectors * size {
      Ordered(hi, sectors, size);
    }
  }

  lemma SectorCountIs(size: nat, seek: nat, count: nat, lo: nat, hi: nat)
    requires size > 0 && lo == seek / size && hi == (seek + count + size - 1) / size
    ensures SectorCount(size, seek, count) == hi - lo
  {
  }

  lemma Ordered(a: nat, b: nat, size: nat)
    requires a <= b
    ensures a * size <= b * size
  {
    MulAtLeast(b - a, size);
    assert (b - a) * size == b * size - a * size;
  }

  lemma EvenProduct(n: nat, size: nat)
    requires size % 2 == 0
    ensures (n * size) % 2 == 0
  {
    assert n * size == 2 * (n * (size / 2));
  }

  /** `n` sectors from sector `lo` on are `m` bytes from byte `o` on, the last of them `e` bytes in. */
  ghost predicate Span(size: nat, n: nat, lo: nat, m: nat, o: nat, e: nat) {
    n > 0 && m == n * size && o == lo * size && e == (n - 1) * size && e + size == m && o + e == (lo + n - 1) * size &&
    1 * size == size
  }

  lemma SpanOf(size: nat, seek: nat, count: nat, n: nat, lo: nat, off: nat) returns (m: nat, o: nat, e: nat)
    requires size > 0 && size % 2 == 0 && n == SectorCount(size, seek, count) && n > 0 && lo == Sector(size, seek)
    requires off == Within(size, seek)
    ensures Span(size, n, lo, m, o, e) && m == n * size && o == lo * size && m % 2 == 0
    ensures o + off == seek && off < size && off + count <= m < off + count + size
  {
    hide SectorCount, Sector, Within;
    m, o, e := n * size, lo * size, (n - 1) * size;
    assert Span(size, n, lo, m, o, e) by { LastSector(size, n, lo); }
    assert m % 2 == 0 by { EvenProduct(n, size); }
    RangeSectors(size, seek, count, 0);
  }

  lemma LastSector(size: nat, n: nat, lo: nat)
    requires n > 0
    ensures (n - 1) * size + size == n * size && lo * size + (n - 1) * size == (lo + n - 1) * size && 1 * size == size
  {
  }

  lemma PartReachable(wide: bool, p: nat, n: nat, o: nat, k: nat)
    requires Reachable(wide, p, n) && o + k <= n
    ensures Reachable(wide, p + o, k)
  {
  }

  lemma CutSectors(ram: Data, p: nat, disk: Data, pos: nat, n: nat, off: nat, count: nat)
    requires p + n <= |ram| && pos + n <= |disk| && off + count <= n
    ensures Patched(ram, p, disk[pos..pos + n])[p + off..p + off + count] == disk[pos + off..pos + off + count]
  {
    var a := Patched(ram, p, disk[pos..pos + n])[p + off..p + off + count];
    var b := disk[pos + off..pos + off + count];
    assert forall i :: 0 <= i < count ==> a[i] == b[i];
  }

  /** Reading the outer sectors, patching and writing all of them back changes the range alone. */
  lemma Rewritten(ram: Data, r1: Data, r2: Data, p: nat, disk: Data, size: nat, o: nat, m: nat, e: nat, off: nat,
                  x: Data)
    requires p + m <= |ram| && o + m <= |disk| && e + size == m
    requires off < size && off + |x| <= m < off + |x| + size
    requires r1 == Patched(ram, p, disk[o..o + size]) && r2 == Patched(r1, p + e, disk[o + e..o + m])
    ensures Patched(disk, o, Patched(r2, p + off, x)[p..p + m]) == Patched(disk, o + off, x)
  {
    hide Patched;
    var r3 := Patched(r2, p + off, x);
    var back := r3[p..p + m];
    forall i | 0 <= i < m ensures back[i] == if off <= i < off + |x| then x[i - off] else disk[o + i] {
      PatchedAt(ram, p, disk[o..o + size], p + i);
      PatchedAt(r1, p + e, disk[o + e..o + m], p + i);
      PatchedAt(r2, p + off, x, p + i);
    }
    var a, b := Patched(disk, o, back), Patched(disk, o + off, x);
    forall i | 0 <= i < |disk| ensures a[i] == b[i] {
      PatchedAt(disk, o, back, i);
      PatchedAt(disk, o + off, x, i);
    }
  }

  lemma NoPieces()
    ensures Pieces([]) == []
  {
  }

  lemma BuildKeeps(ext: bool, write: bool, offset: nat, count: nat, prdt: seq<Prdt>)
    ensures Build(ext, write, offset, count, prdt).prdt == prdt && Build(ext, write, offset, count, prdt).write == write
  {
  }

  lemma TransferFrame(disk: Data, ram: Data, size: nat, cmd: Command)
    ensures var r := Transfer(disk, ram, size, cmd);
            r.Some? ==> if cmd.write then r.value.1 == ram else r.value.0 == disk
  {
  }
}
