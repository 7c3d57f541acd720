/** The echfs driver (src/fs/filesystems/echfs.c): block cache, allocation table, chains and byte
    ranges, on a volume whose blocks are cached. */
module Echfs {
  import opened Common
  import opened Bytes
  import opened EchfsChains
  import opened EchfsDisk

  /** Every cached block is the block on disk. */
  ghost predicate Coherent(g: Geometry, d: Data, cache: map<nat, Data>)
    requires DiskOk(g, d)
  {
    forall b :: b in cache ==> b < g.blocks && cache[b] == Block(g, d, b)
  }

  ghost predicate DirUncached(g: Geometry, cache: map<nat, Data>)
    requires g.size > 0
  {
    forall b :: b in cache ==> b < g.DirBlock() || b >= g.DataBlock()
  }

  /** Only a file's blocks and the table are ever read through the cache. */
  predicate Cacheable(g: Geometry, b: nat)
    requires g.size > 0
  {
    b < g.blocks && (b < g.DirBlock() || b >= g.DataBlock())
  }

  function DirEntryAt(g: Geometry, e: nat): nat
    requires g.size > 0
  {
    g.DirBlock() * g.size + 256 * e
  }

  /** Directory entries stay inside the main directory. */
  lemma DirEntryFits(g: Geometry, e: nat)
    requires g.Ok() && 256 * e + 256 <= g.dirBlocks * g.size
    ensures DirEntryAt(g, e) + 256 <= g.DataBlock() * g.size <= g.blocks * g.size
  {
    assert (g.DirBlock() + g.dirBlocks) * g.size == g.DirBlock() * g.size + g.dirBlocks * g.size;
    MulAtLeast(g.blocks - g.DataBlock(), g.size);
    assert (g.blocks - g.DataBlock()) * g.size == g.blocks * g.size - g.DataBlock() * g.size;
  }

  function WithDirEntry(g: Geometry, d: Data, e: nat, x: Data): (r: Data)
    requires DiskOk(g, d) && 256 * e + 256 <= g.dirBlocks * g.size && |x| == 256
    ensures DiskOk(g, r)
  {
    DirEntryFits(g, e);
    Patched(d, DirEntryAt(g, e), x)
  }

  /** The 256 bytes of entry `e`, as read_dir_entry finds them. */
  ghost function DirEntry(g: Geometry, d: Data, e: nat): Data
    requires DiskOk(g, d) && 256 * e + 256 <= g.dirBlocks * g.size
  {
    DirEntryFits(g, e);
    d[DirEntryAt(g, e)..DirEntryAt(g, e) + 256]
  }

  /** Writing an entry sets its 256 bytes, counted from the start of the main directory, and no others. */
  lemma DirEntryWritten(g: Geometry, d: Data, e: nat, x: Data)
    requires DiskOk(g, d) && 256 * e + 256 <= g.dirBlocks * g.size && |x| == 256
    ensures Overwritten(d, WithDirEntry(g, d, e, x), (16 + (8 * g.blocks + g.size - 1) / g.size) * g.size + 256 * e, x)
    ensures DirEntry(g, WithDirEntry(g, d, e, x), e) == x
    ensures forall k: nat :: k != e && 256 * k + 256 <= g.dirBlocks * g.size ==>
              DirEntry(g, WithDirEntry(g, d, e, x), k) == DirEntry(g, d, k)
  {
    hide Patched, Overwritten, WithDirEntry, DirEntryAt;
    var o := DirStart(g, d, e, x);
    PatchOverwrites(d, o + 256 * e, x);
    PatchedSlice(d, o + 256 * e, x, o + 256 * e, o + 256 * e + 256);
    forall k: nat | k != e && 256 * k + 256 <= g.dirBlocks * g.size
      ensures DirEntry(g, WithDirEntry(g, d, e, x), k) == DirEntry(g, d, k)
    {
      DirEntryFits(g, k);
      PatchedSlice(d, o + 256 * e, x, o + 256 * k, o + 256 * k + 256);
    }
  }

  lemma DirStart(g: Geometry, d: Data, e: nat, x: Data) returns (o: nat)
    requires DiskOk(g, d) && 256 * e + 256 <= g.dirBlocks * g.size && |x| == 256
    ensures o == (16 + (8 * g.blocks + g.size - 1) / g.size) * g.size && o + 256 * e + 256 <= |d|
    ensures WithDirEntry(g, d, e, x) == Patched(d, o + 256 * e, x)
    ensures forall k: nat :: DirEntryAt(g, k) == o + 256 * k
  {
    hide Patched;
    o := g.DirBlock() * g.size;
    DirEntryFits(g, e);
  }

  /** A directory entry changes blocks of the main directory only. */
  lemma DirEntryElsewhere(g: Geometry, d: Data, e: nat, x: Data, b: nat)
    requires DiskOk(g, d) && 256 * e + 256 <= g.dirBlocks * g.size && |x| == 256 && Cacheable(g, b)
    ensures Block(g, WithDirEntry(g, d, e, x), b) == Block(g, d, b)
  {
    hide Patched;
    DirEntryFits(g, e);
    BlocksApart(g.size, b, g.blocks);
    if b < g.DirBlock() {
      BlocksApart(g.size, b, g.DirBlock());
    } else if b > g.DataBlock() {
      BlocksApart(g.size, g.DataBlock(), b);
    }
    PatchedSlice(d, DirEntryAt(g, e), x, b * g.size, b * g.size + g.size);
  }

  // Byte ranges.

  /** What a ranged call comes to: a panic of the kernel, a refusal, or an answer. */
  datatype Answer<T> = Panicked | Refused | Answered(value: T)

  /** The blocks a byte range touches, the first and one past the last: the rounding of the code. */
  function FirstBlock(size: nat, start: nat): nat
    requires size > 0
  {
    (start / size * size) / size
  }

  function BlockCount(size: nat, start: nat, count: nat): int
    requires size > 0
  {
    ((start + count + size - 1) / size * size - start / size * size) / size
  }

  /** The rounding covers the range and no block more, and the range lies inside `n` blocks exactly if
      its blocks do. */
  lemma RangeFits(size: nat, start: nat, count: nat, n: nat)
    requires size > 0
    ensures var lo, k := FirstBlock(size, start), BlockCount(size, start, count);
            && k >= 0 && (count > 0 ==> k > 0) && lo * size + start % size == start
            && start % size + count <= k * size < start % size + count + size
            && (lo + k <= n <==> start + count <= n * size)
  {
    hide FirstBlock, BlockCount;
    var lo, a := DivMod(start, size);
    var hi, r := DivMod(start + count + size - 1, size);
    RangeArith(size, lo, a, hi, r, count, n);
    FirstBlockIs(size, start, lo);
    BlockCountIs(size, start, count, lo, hi);
  }

  lemma FirstBlockIs(size: nat, start: nat, lo: nat)
    requires size > 0 && lo == start / size
    ensures FirstBlock(size, start) == lo
  {
    DivUnique(lo * size, size, lo, 0);
  }

  lemma BlockCountIs(size: nat, start: nat, count: nat, lo: nat, hi: nat)
    requires size > 0 && lo == start / size && hi == (start + count + size - 1) / size && lo <= hi
    ensures BlockCount(size, start, count) == hi - lo
  {
    assert hi * size - lo * size == (hi - lo) * size;
    DivUnique((hi - lo) * size, size, hi - lo, 0);
  }

  /** The block buffer is empty exactly for an empty range at a block boundary; kfree panics on it. */
  lemma EmptyBuffer(size: nat, start: nat, count: nat)
    requires size > 0
    ensures BlockCount(size, start, count) == 0 <==> count == 0 && start % size == 0
  {
    RangeFits(size, start, count, 0);
    var k := BlockCount(size, start, count);
    MulAtLeast(k, size);
  }

  /** A run of blocks holds that run of the contents. */
  lemma ContentsSplit(g: Geometry, d: Data, c: seq<nat>, lo: nat, k: nat)
    requires DiskOk(g, d) && OnDisk(g, c) && lo + k <= |c|
    ensures var a, m, z := c[..lo], c[lo..lo + k], c[lo + k..];
            OnDisk(g, a) && OnDisk(g, m) && OnDisk(g, z) &&
            Contents(g, d, c) == Contents(g, d, a) + Contents(g, d, m) + Contents(g, d, z)
  {
    hide Contents, Block;
    var a, m, z := c[..lo], c[lo..lo + k], c[lo + k..];
    ContentsAppend(g, d, a, m);
    ContentsAppend(g, d, a + m, z);
    assert a + m + z == c;
  }

  /** What read_for_range cuts out of its blocks is the range of the file. */
  lemma BlocksRead(g: Geometry, d: Data, c: seq<nat>, lo: nat, k: nat, off: nat, start: nat, count: nat)
    requires DiskOk(g, d) && OnDisk(g, c) && lo + k <= |c| && lo * g.size + off == start && off + count <= k * g.size
    requires start + count <= |c| * g.size
    ensures Contents(g, d, c[lo..lo + k])[off..off + count] == Contents(g, d, c)[start..start + count]
  {
    hide Contents, Block;
    ContentsSplit(g, d, c, lo, k);
    var a, m, z := Contents(g, d, c[..lo]), Contents(g, d, c[lo..lo + k]), Contents(g, d, c[lo + k..]);
    assert |a| == lo * g.size && |m| == k * g.size;
    CutOut(a, m, z, a + m + z, off, count, start);
  }

  lemma CutOut(a: Data, m: Data, z: Data, all: Data, off: nat, count: nat, start: nat)
    requires off + count <= |m| && all == a + m + z && start == |a| + off
    ensures start + count <= |all| && m[off..off + count] == all[start..start + count]
  {
    var x, y := all[start..start + count], m[off..off + count];
    assert forall i :: 0 <= i < count ==> x[i] == y[i];
  }

  /** What write_for_range stores changes the range of the file and nothing else of it. */
  lemma RangeWritten(g: Geometry, d: Data, c: seq<nat>, start: nat, x: Data)
    requires DiskOk(g, d) && OnDisk(g, c) && start + |x| <= |c| * g.size
    requires forall i, j :: 0 <= i < j < |c| ==> c[i] != c[j]
    ensures var lo, k, off := FirstBlock(g.size, start), BlockCount(g.size, start, |x|), start % g.size;
            && 0 <= k && lo + k <= |c| && off + |x| <= k * g.size
            && var d' := Stored(g, d, c[lo..lo + k], Patched(Contents(g, d, c[lo..lo + k]), off, x));
               Contents(g, d', c) == Patched(Contents(g, d, c), start, x)
  {
    hide Contents, Block, FirstBlock, BlockCount, Stored, Patched;
    RangeFits(g.size, start, |x|, |c|);
    var lo, k, off := FirstBlock(g.size, start), BlockCount(g.size, start, |x|), start % g.size;
    var a, m, z := c[..lo], c[lo..lo + k], c[lo + k..];
    ContentsSplit(g, d, c, lo, k);
    var buf := Patched(Contents(g, d, m), off, x);
    var d' := Stored(g, d, m, buf);
    ContentsSplit(g, d', c, lo, k);
    StoredContents(g, d, m, buf);
    StoredElsewhere(g, d, m, buf);
    assert forall i :: 0 <= i < |a| ==> a[i] !in m;
    assert forall i :: 0 <= i < |z| ==> z[i] !in m;
    ContentsSame(g, d, d', a);
    ContentsSame(g, d, d', z);
    PatchMiddle(Contents(g, d, a), Contents(g, d, m), Contents(g, d, z), off, x);
    assert |Contents(g, d, a)| == lo * g.size;
  }

  lemma PatchMiddle(a: Data, m: Data, z: Data, off: nat, x: Data)
    requires off + |x| <= |m|
    ensures Patched(a + m + z, |a| + off, x) == a + Patched(m, off, x) + z
  {
    var p, q := Patched(a + m + z, |a| + off, x), a + Patched(m, off, x) + z;
    assert forall i :: 0 <= i < |p| ==> p[i] == q[i];
  }

  /** Writing a block, and the cached copy of it if there is one, keeps the cache coherent. */
  lemma WriteCoherent(g: Geometry, d: Data, cache: map<nat, Data>, b: nat, x: Data)
    requires DiskOk(g, d) && Coherent(g, d, cache) && b < g.blocks && |x| == g.size
    ensures Coherent(g, WithBlock(g, d, b, x), if b in cache then cache[b := x] else cache)
  {
    hide Block, WithBlock;
    forall c | c in cache ensures Block(g, WithBlock(g, d, b, x), c) == if c == b then x else cache[c] {
      BlockWritten(g, d, b, x, c);
    }
    BlockWritten(g, d, b, x, b);
  }

  /** The entry `x` repeats every byte that it puts into block `b`: what a caller can see before the
      write. */
  ghost predicate Repeats(g: Geometry, d: Data, b: nat, e: nat, x: Data)
    requires DiskOk(g, d) && DirEntryAt(g, e) + 256 <= |d| && |x| == 256
  {
    forall i: nat :: i < 256 && b * g.size <= DirEntryAt(g, e) + i < b * g.size + g.size ==>
        x[i] == d[DirEntryAt(g, e) + i]
  }

  /** A directory entry is written past the cache: the cache stays coherent exactly if the entry repeats
      the cached bytes it is written over, and so always when the main directory is not cached. */
  lemma DirWriteCoherent(g: Geometry, d: Data, cache: map<nat, Data>, e: nat, x: Data)
    requires DiskOk(g, d) && Coherent(g, d, cache) && 256 * e + 256 <= g.dirBlocks * g.size && |x| == 256
    ensures DirEntryAt(g, e) + 256 <= |d|
    ensures Coherent(g, WithDirEntry(g, d, e, x), cache) <==> forall b :: b in cache ==> Repeats(g, d, b, e, x)
    ensures DirUncached(g, cache) ==> Coherent(g, WithDirEntry(g, d, e, x), cache)
  {
    hide Block, WithDirEntry, DirEntryAt, Repeats;
    DirEntryFits(g, e);
    forall b | b in cache
      ensures Block(g, WithDirEntry(g, d, e, x), b) == Block(g, d, b) <==> Repeats(g, d, b, e, x)
      ensures Cacheable(g, b) ==> Block(g, WithDirEntry(g, d, e, x), b) == Block(g, d, b)
    {
      RepeatKeeps(g, d, e, x, b);
      if Cacheable(g, b) {
        DirEntryElsewhere(g, d, e, x, b);
      }
    }
  }

  lemma RepeatKeeps(g: Geometry, d: Data, e: nat, x: Data, b: nat)
    requires DiskOk(g, d) && 256 * e + 256 <= g.dirBlocks * g.size && |x| == 256 && DirEntryAt(g, e) + 256 <= |d|
    requires b < g.blocks
    ensures Block(g, WithDirEntry(g, d, e, x), b) == Block(g, d, b) <==> Repeats(g, d, b, e, x)
  {
    hide Patched, DirEntryAt;
    BlocksApart(g.size, b, g.blocks);
    PatchedSame(d, DirEntryAt(g, e), x, b * g.size, g.size);
  }

  /** A volume of 18 blocks whose directory block is cached: after an entry is written, a read through
      the cache still gets the old block. */
  lemma StaleDirectoryExample()
    ensures var g, d, x := Geometry(256, 18, 1), seq(4608, _ => 0 as Byte), seq(256, _ => 1 as Byte);
            var cache := map[17 := seq(256, _ => 0 as Byte)];
            && DiskOk(g, d) && Coherent(g, d, cache) && !Coherent(g, WithDirEntry(g, d, 0, x), cache)
            && cache[17] != Block(g, WithDirEntry(g, d, 0, x), 17)
  {
    var g, d, x := Geometry(256, 18, 1), seq(4608, _ => 0 as Byte), seq(256, _ => 1 as Byte);
    var cache := map[17 := seq(256, _ => 0 as Byte)];
    assert g.TableBlocks() == 1 && DirEntryAt(g, 0) == 4352;
    assert Block(g, d, 17) == cache[17];
    PatchedAt(d, 4352, x, 4352);
    assert Block(g, WithDirEntry(g, d, 0, x), 17)[0] == 1;
  }

  /** A chain of a file: it stays behind the main directory. */
  ghost predicate FileChain(g: Geometry, d: Data, c: seq<nat>)
    requires DiskOk(g, d)
  {
    IsChain(TableOf(g, d), c) && InData(c, g.DataBlock())
  }

  lemma FileChainFacts(g: Geometry, d: Data, c: seq<nat>)
    requires DiskOk(g, d) && FileChain(g, d, c)
    ensures OnDisk(g, c) && c != [] && (forall i, j :: 0 <= i < j < |c| ==> c[i] != c[j])
    ensures forall i :: 0 <= i < |c| ==>
            Cacheable(g, c[i]) && TableOf(g, d)[c[i]] == if i < |c| - 1 then c[i + 1] else END
    ensures InData(c, g.DirBlock())
  {
    hide TableOf;
    forall i, j | 0 <= i < j < |c| ensures c[i] != c[j] {
      ChainAcyclic(TableOf(g, d), c, i, j);
    }
  }

  /** Everything outside the table is as it was. */
  ghost predicate SameBlocks(g: Geometry, d: Data, d': Data)
    requires DiskOk(g, d) && DiskOk(g, d')
  {
    forall b: nat :: b < g.blocks && (b < 16 || b >= g.DirBlock()) ==> Block(g, d', b) == Block(g, d, b)
  }

  lemma SameBlocksReflexive(g: Geometry, d: Data)
    requires DiskOk(g, d)
    ensures SameBlocks(g, d, d)
  {
  }

  lemma SameBlocksTransitive(g: Geometry, d: Data, d1: Data, d2: Data)
    requires DiskOk(g, d) && DiskOk(g, d1) && DiskOk(g, d2) && SameBlocks(g, d, d1) && SameBlocks(g, d1, d2)
    ensures SameBlocks(g, d, d2)
  {
    hide Block;
  }

  lemma ExtendedUnfold(t: Table, last: nat, n: nat)
    requires last < |t| && n > 0
    ensures FindFree(t) < |t| && Extended(t, last, n) == Extended(Linked(t, last, FindFree(t)), FindFree(t), n - 1)
  {
  }

  lemma ExtendedDone(t: Table, last: nat)
    requires last < |t|
    ensures Extended(t, last, 0) == t
  {
  }

  lemma ContentsNone(g: Geometry, d: Data, c: seq<nat>, lo: nat)
    requires DiskOk(g, d) && OnDisk(g, c) && lo <= |c|
    ensures c[lo..lo] == [] && Contents(g, d, c[lo..lo]) == []
  {
  }

  lemma ContentsNext(g: Geometry, d: Data, c: seq<nat>, lo: nat, i: nat)
    requires DiskOk(g, d) && OnDisk(g, c) && lo + i < |c|
    ensures Contents(g, d, c[lo..lo + i + 1]) == Contents(g, d, c[lo..lo + i]) + Block(g, d, c[lo + i])
  {
    hide Block;
    var next := c[lo..lo + i + 1];
    assert next[..i] == c[lo..lo + i] && next[i] == c[lo + i];
  }

  lemma StoredNone(g: Geometry, d: Data, c: seq<nat>, lo: nat, x: Data)
    requires DiskOk(g, d) && lo <= |c|
    ensures c[lo..lo] == [] && x[..0 * g.size] == [] && Stored(g, d, c[lo..lo], x[..0 * g.size]) == d
  {
  }

  lemma PieceFits(size: nat, i: nat, k: nat)
    requires i < k
    ensures i * size + size == (i + 1) * size <= k * size
  {
    MulAtLeast(k - i, size);
    assert (k - i) * size == k * size - i * size;
  }

  lemma StoredNext(g: Geometry, d: Data, c: seq<nat>, lo: nat, i: nat, x: Data)
    requires DiskOk(g, d) && OnDisk(g, c) && lo + i < |c| && i * g.size + g.size == (i + 1) * g.size <= |x|
    ensures var k := i * g.size;
            Stored(g, d, c[lo..lo + i + 1], x[..(i + 1) * g.size]) ==
            WithBlock(g, Stored(g, d, c[lo..lo + i], x[..k]), c[lo + i], x[k..k + g.size])
  {
    hide WithBlock;
    var next, k, y := c[lo..lo + i + 1], i * g.size, x[..(i + 1) * g.size];
    assert next[..i] == c[lo..lo + i] && next[i] == c[lo + i];
    assert y[..k] == x[..k] && y[k..] == x[k..k + g.size];
  }

  /** Writing a block of a file leaves its chain alone. */
  lemma ChainKept(g: Geometry, d: Data, c: seq<nat>, i: nat, x: Data)
    requires DiskOk(g, d) && FileChain(g, d, c) && i < |c| && |x| == g.size && c[i] < g.blocks
    ensures FileChain(g, WithBlock(g, d, c[i], x), c)
  {
    hide TableOf, WithBlock;
    TableKept(g, d, c[i], x);
  }

  /** Writing over a run of a file's blocks leaves its chain, the table and all other blocks alone. */
  lemma StoredRun(g: Geometry, d: Data, c: seq<nat>, lo: nat, k: nat, x: Data)
    requires DiskOk(g, d) && FileChain(g, d, c) && OnDisk(g, c) && lo + k <= |c| && |x| == k * g.size
    ensures var d' := Stored(g, d, c[lo..lo + k], x);
            && TableOf(g, d') == TableOf(g, d) && FileChain(g, d', c)
            && forall b: nat :: b < g.blocks && b !in c ==> Block(g, d', b) == Block(g, d, b)
  {
    hide Block, TableOf, Stored;
    FileChainFacts(g, d, c);
    var m := c[lo..lo + k];
    StoredElsewhere(g, d, m, x);
    assert forall b :: b !in c ==> b !in m;
  }

  datatype Op = ReadOp(b: nat) | WriteOp(b: nat, x: Data) | SetOp(b: nat, v: nat) | DirOp(e: nat, x: Data)

  /** Reads stay outside the main directory, so its blocks are never cached. */
  predicate OpOk(g: Geometry, op: Op)
    requires g.size > 0
  {
    match op
    case ReadOp(b) => Cacheable(g, b)
    case WriteOp(b, x) => b < g.blocks && |x| == g.size
    case SetOp(b, _) => b < g.blocks
    case DirOp(e, x) => 256 * e + 256 <= g.dirBlocks * g.size && |x| == 256
  }

  /** The same operations on a disk without a cache. */
  function PlainStep(g: Geometry, d: Data, op: Op): (r: Data)
    requires DiskOk(g, d) && OpOk(g, op)
    ensures DiskOk(g, r)
  {
    match op
    case ReadOp(_) => d
    case WriteOp(b, x) => WithBlock(g, d, b, x)
    case SetOp(b, v) => WithEntry(g, d, b, v)
    case DirOp(e, x) => WithDirEntry(g, d, e, x)
  }

  function PlainRun(g: Geometry, d: Data, ops: seq<Op>): (r: Data)
    requires DiskOk(g, d) && forall i :: 0 <= i < |ops| ==> OpOk(g, ops[i])
    ensures DiskOk(g, r)
  {
    if ops == [] then d else PlainStep(g, PlainRun(g, d, ops[..|ops| - 1]), ops[|ops| - 1])
  }

  function PlainReads(g: Geometry, d: Data, ops: seq<Op>): seq<Data>
    requires DiskOk(g, d) && forall i :: 0 <= i < |ops| ==> OpOk(g, ops[i])
  {
    if ops == [] then []
    else
      var init, op := ops[..|ops| - 1], ops[|ops| - 1];
      assert OpOk(g, op);
      PlainReads(g, d, init) + if op.ReadOp? then [Block(g, PlainRun(g, d, init), op.b)] else []
  }

  lemma PlainNone(g: Geometry, d: Data, ops: seq<Op>)
    requires DiskOk(g, d) && forall i :: 0 <= i < |ops| ==> OpOk(g, ops[i])
    ensures PlainRun(g, d, ops[..0]) == d && PlainReads(g, d, ops[..0]) == []
  {
  }

  lemma PlainNext(g: Geometry, d: Data, ops: seq<Op>, i: nat)
    requires DiskOk(g, d) && i < |ops| && forall i :: 0 <= i < |ops| ==> OpOk(g, ops[i])
    ensures PlainRun(g, d, ops[..i + 1]) == PlainStep(g, PlainRun(g, d, ops[..i]), ops[i])
    ensures PlainReads(g, d, ops[..i + 1]) ==
            PlainReads(g, d, ops[..i]) + if ops[i].ReadOp? then [Block(g, PlainRun(g, d, ops[..i]), ops[i].b)] else []
  {
    hide PlainStep, Block;
    var next := ops[..i + 1];
    assert next[..i] == ops[..i] && next[i] == ops[i];
  }

  class Volume {
    const g: Geometry
    var disk: Data
    var cache: map<nat, Data>

    ghost predicate Valid()
      reads this
    {
      DiskOk(g, disk) && Coherent(g, disk, cache) && DirUncached(g, cache)
    }

    constructor (g: Geometry, disk: Data)
      requires DiskOk(g, disk)
      ensures Valid() && this.g == g && this.disk == disk
    {
      this.g, this.disk, this.cache := g, disk, map[];
    }

    method Fetch(b: nat) returns (x: Data)
      requires DiskOk(g, disk) && b < g.blocks
      ensures x == Block(g, disk, b)
    {
      BlocksApart(g.size, b, g.blocks);
      x := disk[b * g.size..b * g.size + g.size];
    }

    /** echfs_read_block: what the cache answers is what the disk would. */
    method ReadBlock(b: nat) returns (x: Data)
      requires Valid() && Cacheable(g, b)
      modifies this`cache
      ensures Valid() && x == Block(g, disk, b)
      ensures |x| == g.size && Excerpt(disk, b * g.size, x)
    {
      hide Block, Excerpt;
      BlockExcerpt(g, disk, b);
      if b in cache {
        return cache[b];
      }
      x := Fetch(b);
      cache := cache[b := x];
    }

    /** echfs_write_block. */
    method WriteBlock(b: nat, x: Data)
      requires Valid() && b < g.blocks && |x| == g.size
      modifies this
      ensures Valid() && disk == WithBlock(g, old(disk), b, x)
      ensures Overwritten(old(disk), disk, b * g.size, x)
    {
      hide Block, WithBlock, Overwritten, Patched;
      WithBlockIs(g, disk, b, x, b * g.size);
      PatchOverwrites(disk, b * g.size, x);
      WriteCoherent(g, disk, cache, b, x);
      disk := WithBlock(g, disk, b, x);
      if b in cache {
        cache := cache[b := x];
      }
    }

    /** echfs_write_dir_entry. */
    method WriteDirEntry(e: nat, x: Data)
      requires Valid() && 256 * e + 256 <= g.dirBlocks * g.size && |x| == 256
      modifies this`disk
      ensures Valid() && disk == WithDirEntry(g, old(disk), e, x)
      ensures var o := (16 + (8 * g.blocks + g.size - 1) / g.size) * g.size + 256 * e;
              && |disk| == |old(disk)| && o + 256 <= |disk|
              && forall i :: 0 <= i < |disk| ==> disk[i] == if o <= i < o + 256 then x[i - o] else old(disk)[i]
      ensures forall k: nat :: k != e && 256 * k + 256 <= g.dirBlocks * g.size ==>
                DirEntry(g, disk, k) == DirEntry(g, old(disk), k)
    {
      hide Block, WithDirEntry, DirEntry;
      DirEntryWritten(g, disk, e, x);
      DirWriteCoherent(g, disk, cache, e, x);
      disk := WithDirEntry(g, disk, e, x);
    }

    /** echfs_get_entry_for_block. */
    method GetEntry(b: nat) returns (v: nat)
      requires Valid() && b < g.blocks
      modifies this`cache
      ensures Valid() && v == TableOf(g, disk)[b]
      ensures 16 * g.size + 8 * b + 8 <= |disk| && v == Decode(disk[16 * g.size + 8 * b..16 * g.size + 8 * b + 8])
    {
      TableFits(g);
      hide Block, TableOf, EntryBlock, EntryIndex, Decode, Coherent, DirUncached;
      EntryAddress(g, b);
      EntryInBlock(g, disk, b);
      var x := ReadBlock(EntryBlock(g, b));
      var k := 8 * EntryIndex(g, b);
      v := Decode(x[k..k + 8]);
    }

    /** echfs_set_entry_for_block. */
    method SetEntry(b: nat, v: nat)
      requires Valid() && b < g.blocks
      modifies this
      ensures Valid() && disk == WithEntry(g, old(disk), b, v)
      ensures Overwritten(old(disk), disk, 16 * g.size + 8 * b, Encode(v, 8))
    {
      EntryOverwrites(g, disk, b, v);
      hide Block, EntryBlock, EntryIndex, Encode, Coherent, DirUncached, WithBlock, WithEntry, Patched;
      hide Overwritten, Excerpt;
      EntryAddress(g, b);
      EntryThroughBlock(g, disk, b, v);
      var tb, k := EntryBlock(g, b), 8 * EntryIndex(g, b);
      var x := ReadBlock(tb);
      WriteBlock(tb, Patched(x, k, Encode(v, 8)));
    }

    /** find_free_block. */
    method FindFreeBlock() returns (b: nat)
      requires Valid()
      modifies this`cache
      ensures Valid() && b == FindFree(TableOf(g, disk))
      ensures var t := TableOf(g, disk);
              if exists c: nat :: c < g.blocks && t[c] == 0
              then b < g.blocks && t[b] == 0 && forall c: nat :: c < b ==> t[c] != 0 else b == 0
    {
      hide Valid, TableOf, FirstFree;
      assert g.blocks > 0 && DiskOk(g, disk) by { Geometric(); }
      ghost var t := TableOf(g, disk);
      b := 0;
      while b < g.blocks
        invariant Valid() && b <= g.blocks && forall c :: 0 <= c < b ==> t[c] != 0
      {
        var v := GetEntry(b);
        if v == 0 {
          return;
        }
        b := b + 1;
      }
      return 0;
    }

    /** One entry set: the table changes there, no block outside the table changes. */
    method Link(b: nat, v: nat)
      requires Valid() && b < g.blocks && v < TWO64
      modifies this
      ensures Valid() && TableOf(g, disk) == TableOf(g, old(disk))[b := v] && SameBlocks(g, old(disk), disk)
    {
      hide Coherent, DirUncached, TableOf, Block, WithEntry;
      EntryWritten(g, disk, b, v);
      forall c: nat | c < g.blocks && (c < 16 || c >= g.DirBlock()) {
        EntryElsewhere(g, disk, b, v, c);
      }
      SetEntry(b, v);
    }

    /** The loop that counts a chain and finds its last block. */
    method ChainEnd(first: nat, ghost c: seq<nat>) returns (count: nat, last: nat)
      requires Valid() && IsChain(TableOf(g, disk), c) && c[0] == first
      modifies this`cache
      ensures Valid() && count == |c| && last == c[|c| - 1]
      ensures last < g.blocks && TableOf(g, disk)[last] == 0xFFFF_FFFF_FFFF_FFFF
    {
      hide Valid, TableOf;
      assert DiskOk(g, disk) by { Geometric(); }
      count, last := 0, first;
      while true
        invariant Valid() && count < |c| && last == c[count]
        decreases |c| - count
      {
        count := count + 1;
        assert count < |c| ==> TableOf(g, disk)[c[count - 1]] == c[count];
        var v := GetEntry(last);
        if v == END {
          return;
        }
        last := GetEntry(last);
      }
    }

    /** One round of the allocation loop. */
    method Grow(last: nat) returns (f: nat)
      requires Valid() && last < g.blocks
      modifies this
      ensures Valid() && f < g.blocks && f == FindFree(TableOf(g, old(disk)))
      ensures TableOf(g, disk) == Linked(TableOf(g, old(disk)), last, f) && SameBlocks(g, old(disk), disk)
    {
      hide Valid, TableOf, Block, FirstFree, SameBlocks;
      assert DiskOk(g, disk) && 0 < g.blocks <= END by { Geometric(); }
      f := FindFreeBlock();
      Link(last, f);
      assert DiskOk(g, disk) by { Geometric(); }
      ghost var d1 := disk;
      Link(f, END);
      assert DiskOk(g, disk) by { Geometric(); }
      SameBlocksTransitive(g, old(disk), d1, disk);
    }

    /** allocate_blocks_for_file, on a file whose chain is `c`. */
    method AllocateBlocks(first: nat, total: nat, ghost c: seq<nat>)
      requires Valid() && IsChain(TableOf(g, disk), c) && c[0] == first && total < TWO64
      modifies this
      ensures Valid() && SameBlocks(g, old(disk), disk)
      ensures TableOf(g, disk) == Extended(TableOf(g, old(disk)), c[|c| - 1], Rounds(total, |c|))
    {
      hide Valid, TableOf, Block, FindFree, Extended, SameBlocks, Linked;
      assert DiskOk(g, disk) by { Geometric(); }
      ghost var t := TableOf(g, disk);
      var count: nat, cur: nat := ChainEnd(first, c);
      var n: nat, i: nat := (total - count) % TWO64, 0;
      SameBlocksReflexive(g, disk);
      while i < n
        invariant i <= n && Valid() && DiskOk(g, disk) && cur < g.blocks && SameBlocks(g, old(disk), disk)
        invariant Extended(TableOf(g, disk), cur, n - i) == Extended(t, c[|c| - 1], n)
      {
        ghost var d1 := disk;
        ExtendedUnfold(TableOf(g, disk), cur, n - i);
        cur := Grow(cur);
        assert DiskOk(g, disk) by { Geometric(); }
        SameBlocksTransitive(g, old(disk), d1, disk);
        i := i + 1;
      }
      ExtendedDone(TableOf(g, disk), cur);
    }

    /** The same on a file system in order: `c` is the chain the file has afterwards. It has the length
        asked for, out of its old chain and free blocks only, exactly if the target is no smaller than the
        old chain and enough blocks are free; then all chains stay terminated, apart and behind the main
        directory. */
    method ExtendFile(total: nat, first: nat, ghost files: seq<seq<nat>>, ghost k: nat) returns (ghost c: seq<nat>)
      requires Valid() && FsOk(TableOf(g, disk), g.DataBlock(), files) && k < |files| && files[k] != []
      requires files[k][0] == first
      requires total < TWO64
      modifies this
      ensures Valid() && SameBlocks(g, old(disk), disk)
      ensures IsChain(TableOf(g, disk), c) && c[0] == first && files[k] <= c
      ensures InData(c, g.DataBlock()) && |c| == total <==>
              |files[k]| <= total <= |files[k]| + |FreeBlocks(TableOf(g, old(disk)))|
      ensures |files[k]| <= total <= |files[k]| + |FreeBlocks(TableOf(g, old(disk)))| ==>
                && FsOk(TableOf(g, disk), g.DataBlock(), files[k := c])
                && forall i :: |files[k]| <= i < |c| ==> c[i] in FreeBlocks(TableOf(g, old(disk)))
    {
      hide Valid, TableOf, FsOk, Extended, NewBlocks, SameBlocks, FreeBlocks, IsChain, InData;
      assert DiskOk(g, disk) by { Geometric(); }
      ghost var t, was := TableOf(g, disk), files[k];
      ChainOf(t, g.DataBlock(), files, k);
      GrownIsChain(t, g.DataBlock(), files, k, Rounds(total, |was|));
      c := GrownChain(t, was, Rounds(total, |was|));
      AllocateLength(t, g.DataBlock(), files, k, total);
      AllocateBlocks(first, total, was);
      if |was| <= total <= |was| + |FreeBlocks(t)| {
        AllocateExtends(t, g.DataBlock(), files, k, total - |was|);
      }
    }

    /** One step along a chain. */
    method NextBlock(cur: nat, ghost c: seq<nat>, ghost i: nat) returns (v: nat)
      requires Valid() && FileChain(g, disk, c) && i < |c| && cur == c[i]
      modifies this`cache
      ensures Valid() && if i + 1 < |c| then v == c[i + 1] && v != END else v == END
    {
      hide Valid, TableOf;
      assert DiskOk(g, disk) by { Geometric(); }
      assert i + 1 < |c| ==> TableOf(g, disk)[c[i]] == c[i + 1];
      v := GetEntry(cur);
    }

    /** The walk to block `n` of a chain; past its end it answers END. */
    method SeekBlock(first: nat, n: nat, ghost c: seq<nat>) returns (cur: nat)
      requires Valid() && FileChain(g, disk, c) && c[0] == first
      modifies this`cache
      ensures Valid() && if n < |c| then cur == c[n] && cur != END else cur == END
    {
      hide Valid, FileChain;
      assert DiskOk(g, disk) && g.blocks <= END by { Geometric(); }
      assert OnDisk(g, c) && c != [] by { FileChainFacts(g, disk, c); }
      cur := first;
      var i := 0;
      while i < n
        invariant i <= n && i < |c| && cur == c[i] && Valid()
      {
        cur := NextBlock(cur, c, i);
        if cur == END {
          return;
        }
        i := i + 1;
      }
    }

    /** read_blocks_for_range: the whole blocks around the range, unless the chain is too short. Giving up
        frees the buffer, which panics if it is empty. */
    method ReadBlocksForRange(first: nat, start: nat, count: nat, ghost c: seq<nat>) returns (r: Answer<Data>)
      requires Valid() && FileChain(g, disk, c) && c[0] == first
      modifies this`cache
      ensures Valid() && OnDisk(g, c)
      ensures var lo, k := FirstBlock(g.size, start), BlockCount(g.size, start, count);
              && k >= 0 && (r.Answered? <==> lo < |c| && lo + k <= |c|)
              && (r.Panicked? ==> k == 0) && (r.Refused? ==> k > 0)
              && (r.Answered? ==> r.value == Contents(g, disk, c[lo..lo + k]))
    {
      hide Valid, FileChain, FirstBlock, BlockCount, Contents, Block;
      assert DiskOk(g, disk) by { Geometric(); }
      assert OnDisk(g, c) by { FileChainFacts(g, disk, c); }
      assert BlockCount(g.size, start, count) >= 0 by { RangeFits(g.size, start, count, |c|); }
      var lo: nat, k: nat := FirstBlock(g.size, start), BlockCount(g.size, start, count);
      var cur := SeekBlock(first, lo, c);
      if cur == END {
        return if k == 0 then Panicked else Refused;
      }
      var buf: Data, i := [], 0;
      ContentsNone(g, disk, c, lo);
      while i < k
        invariant 0 <= i <= k && lo + i <= |c| && Valid() && buf == Contents(g, disk, c[lo..lo + i])
        invariant i < k ==> lo + i < |c| && cur == c[lo + i]
      {
        assert Cacheable(g, cur) by { FileChainFacts(g, disk, c); }
        var x := ReadBlock(cur);
        ContentsNext(g, disk, c, lo, i);
        buf := buf + x;
        i := i + 1;
        if i == k {
          break;
        }
        cur := NextBlock(cur, c, lo + i - 1);
        if cur == END {
          return Refused;
        }
      }
      return Answered(buf);
    }

    /** read_for_range: exactly the bytes of the range, if the chain holds them. An empty range at a block
        boundary panics in the kfree of its empty buffer. */
    method ReadForRange(first: nat, start: nat, count: nat, ghost c: seq<nat>) returns (r: Answer<Data>)
      requires Valid() && FileChain(g, disk, c) && c[0] == first
      modifies this`cache
      ensures Valid() && OnDisk(g, c)
      ensures r.Panicked? <==> count == 0 && start % g.size == 0
      ensures r.Answered? ==> start + count <= |c| * g.size && r.value == Contents(g, disk, c)[start..start + count]
      ensures r.Refused? ==> start + count > |c| * g.size
    {
      hide Valid, TableOf, IsChain, InData, FirstBlock, BlockCount, Contents, Block, FileChain;
      assert DiskOk(g, disk) by { Geometric(); }
      RangeFits(g.size, start, count, |c|);
      EmptyBuffer(g.size, start, count);
      var buf := ReadBlocksForRange(first, start, count, c);
      if !buf.Answered? {
        return buf;
      }
      BlocksRead(g, disk, c, FirstBlock(g.size, start), BlockCount(g.size, start, count), start % g.size, start, count);
      var x := buf.value[start % g.size..start % g.size + count];
      return if buf.value == [] then Panicked else Answered(x);
    }

    /** write_blocks_for_range: whole blocks, one after another along the chain. When the chain is too
        short, its blocks from the start block on have been written. */
    method WriteBlocksForRange(first: nat, start: nat, count: nat, x: Data, ghost c: seq<nat>) returns (ok: bool)
      requires Valid() && FileChain(g, disk, c) && c[0] == first && |x| == BlockCount(g.size, start, count) * g.size
      modifies this
      ensures Valid() && OnDisk(g, c)
      ensures var lo, k := FirstBlock(g.size, start), BlockCount(g.size, start, count);
              && k >= 0 && (ok <==> lo < |c| && lo + k <= |c|)
              && (ok ==> disk == Stored(g, old(disk), c[lo..lo + k], x))
              && (!ok && lo >= |c| ==> disk == old(disk))
              && (!ok && lo < |c| ==>
                    var n := (|c| - lo) * g.size;
                    0 <= n <= |x| && disk == Stored(g, old(disk), c[lo..], x[..n]))
    {
      hide Valid, FileChain, FirstBlock, BlockCount, Stored, Block, WithBlock;
      assert DiskOk(g, disk) by { Geometric(); }
      assert OnDisk(g, c) by { FileChainFacts(g, disk, c); }
      assert BlockCount(g.size, start, count) >= 0 by { RangeFits(g.size, start, count, |c|); }
      var lo: nat, k: nat := FirstBlock(g.size, start), BlockCount(g.size, start, count);
      var cur := SeekBlock(first, lo, c);
      if cur == END {
        return false;
      }
      var i := 0;
      StoredNone(g, disk, c, lo, x);
      while i < k
        invariant 0 <= i <= k && lo + i <= |c| && Valid() && DiskOk(g, disk) && FileChain(g, disk, c)
        invariant i * g.size <= |x| && disk == Stored(g, old(disk), c[lo..lo + i], x[..i * g.size])
        invariant i < k ==> lo + i < |c| && cur == c[lo + i]
      {
        PieceFits(g.size, i, k);
        StoredNext(g, old(disk), c, lo, i, x);
        ghost var before := disk;
        WriteBlock(cur, x[i * g.size..i * g.size + g.size]);
        assert DiskOk(g, disk) by { Geometric(); }
        ChainKept(g, before, c, lo + i, x[i * g.size..i * g.size + g.size]);
        i := i + 1;
        if i == k {
          break;
        }
        cur := NextBlock(cur, c, lo + i - 1);
        if cur == END {
          assert lo + i == |c| && c[lo..lo + i] == c[lo..];
          return false;
        }
      }
      assert x[..k * g.size] == x;
      return true;
    }

    /** write_for_range: the range of the file becomes `x`; the rest of the file, every block outside
        its chain and the allocation table stay as they were. A chain too short is refused before
        anything is written; an empty range at a block boundary panics, with nothing written. */
    method WriteForRange(first: nat, start: nat, x: Data, ghost c: seq<nat>) returns (r: Answer<()>)
      requires Valid() && FileChain(g, disk, c) && c[0] == first
      modifies this
      ensures Valid() && FileChain(g, disk, c) && OnDisk(g, c)
      ensures r.Panicked? <==> x == [] && start % g.size == 0
      ensures !r.Panicked? ==> (r.Answered? <==> start + |x| <= |c| * g.size)
      ensures !r.Answered? ==> disk == old(disk)
      ensures r.Answered? ==> Contents(g, disk, c) == Patched(Contents(g, old(disk), c), start, x)
      ensures forall b: nat :: b < g.blocks && b !in c ==> Block(g, disk, b) == Block(g, old(disk), b)
      ensures TableOf(g, disk) == TableOf(g, old(disk))
    {
      hide Valid, FirstBlock, BlockCount, Contents, Block, FileChain, Stored, TableOf, Patched, OnDisk;
      assert DiskOk(g, disk) by { Geometric(); }
      RangeFits(g.size, start, |x|, |c|);
      EmptyBuffer(g.size, start, |x|);
      var buf := ReadBlocksForRange(first, start, |x|, c);
      if !buf.Answered? {
        return if buf.Panicked? then Panicked else Refused;
      }
      ghost var d, lo: nat, k: nat := disk, FirstBlock(g.size, start), BlockCount(g.size, start, |x|);
      var patched := Patched(buf.value, start % g.size, x);
      var ok := WriteBlocksForRange(first, start, |x|, patched, c);
      assert DiskOk(g, disk) by { Geometric(); }
      StoredRun(g, d, c, lo, k, patched);
      assert OnDisk(g, c) && forall i, j :: 0 <= i < j < |c| ==> c[i] != c[j] by { FileChainFacts(g, d, c); }
      if !ok {
        return Refused;
      }
      RangeWritten(g, d, c, start, x);
      if patched == [] {
        StoredNone(g, d, c, lo, patched);
        return Panicked;
      }
      return Answered(());
    }

    /** What was written is what is read. */
    method WriteThenRead(first: nat, start: nat, x: Data, ghost c: seq<nat>) returns (r: Answer<Data>)
      requires Valid() && FileChain(g, disk, c) && c[0] == first
      modifies this
      ensures Valid()
      ensures r == if x == [] && start % g.size == 0 then Panicked
              else if start + |x| <= |c| * g.size then Answered(x) else Refused
    {
      hide Valid, Contents, Block, FileChain, TableOf, Patched, OnDisk;
      assert DiskOk(g, disk) by { Geometric(); }
      ghost var d := disk;
      var w := WriteForRange(first, start, x, c);
      assert DiskOk(g, disk) by { Geometric(); }
      if !w.Answered? {
        return if w.Panicked? then Panicked else Refused;
      }
      r := ReadForRange(first, start, |x|, c);
      assert OnDisk(g, c) && |Contents(g, d, c)| == |c| * g.size by { FileChainFacts(g, d, c); }
      PatchedSlice(Contents(g, d, c), start, x, start, start + |x|);
    }

    /** Any run of block reads, block writes, table updates and directory-entry writes: the cached
        volume answers and ends up like a plain disk. */
    method Serve(ops: seq<Op>) returns (outs: seq<Data>)
      requires Valid() && forall i :: 0 <= i < |ops| ==> OpOk(g, ops[i])
      modifies this
      ensures Valid() && disk == PlainRun(g, old(disk), ops) && outs == PlainReads(g, old(disk), ops)
    {
      hide Valid, PlainRun, PlainReads, Block, WithBlock, WithEntry, WithDirEntry;
      assert DiskOk(g, disk) by { Geometric(); }
      outs := [];
      var i := 0;
      PlainNone(g, disk, ops);
      while i < |ops|
        invariant i <= |ops| && Valid() && DiskOk(g, old(disk)) && disk == PlainRun(g, old(disk), ops[..i])
        invariant outs == PlainReads(g, old(disk), ops[..i])
      {
        assert DiskOk(g, disk) by { Geometric(); }
        PlainNext(g, old(disk), ops, i);
        match ops[i] {
          case ReadOp(b) =>
            var x := ReadBlock(b);
            outs := outs + [x];
          case WriteOp(b, x) => WriteBlock(b, x);
          case SetOp(b, v) => SetEntry(b, v);
          case DirOp(e, x) => WriteDirEntry(e, x);
        }
        i := i + 1;
      }
      assert ops[..i] == ops;
    }

    lemma Geometric()
      requires Valid()
      ensures DiskOk(g, disk) && 0 < g.blocks <= END && g.size > 0
    {
    }
  }
}
