/** An echfs volume as bytes: blocks, the allocation table inside them, and the contents of a chain
    (src/fs/filesystems/echfs.c:62-70, 191-210). */
module EchfsDisk {
  import opened Common
  import opened Bytes
  import opened EchfsChains

  datatype Geometry = Geometry(size: nat, blocks: nat, dirBlocks: nat) {
    function TableBlocks(): nat
      requires size > 0
    {
      (8 * blocks + size - 1) / size
    }

    function DirBlock(): nat
      requires size > 0
    {
      16 + TableBlocks()
    }

    function DataBlock(): nat
      requires size > 0
    {
      DirBlock() + dirBlocks
    }

    /** Blocks hold whole table entries, and table and main directory fit. */
    predicate Ok() {
      size > 0 && size % 8 == 0 && DataBlock() <= blocks <= END
    }
  }

  predicate DiskOk(g: Geometry, d: Data) {
    g.Ok() && |d| == g.blocks * g.size
  }

  lemma BlocksApart(size: nat, b: nat, c: nat)
    requires b < c
    ensures b * size + size <= c * size
  {
    MulAtLeast(c - b, size);
    assert (c - b) * size == c * size - b * size;
  }

  function Block(g: Geometry, d: Data, b: nat): (r: Data)
    requires DiskOk(g, d) && b < g.blocks
    ensures |r| == g.size
  {
    BlocksApart(g.size, b, g.blocks);
    d[b * g.size..b * g.size + g.size]
  }

  function WithBlock(g: Geometry, d: Data, b: nat, x: Data): (r: Data)
    requires DiskOk(g, d) && b < g.blocks && |x| == g.size
    ensures DiskOk(g, r)
  {
    BlocksApart(g.size, b, g.blocks);
    Patched(d, b * g.size, x)
  }

  /** A block is a stretch of the disk. */
  lemma BlockIs(g: Geometry, d: Data, b: nat, o: nat)
    requires DiskOk(g, d) && b < g.blocks && o == b * g.size
    ensures o + g.size <= |d| && Block(g, d, b) == d[o..o + g.size]
  {
    BlocksApart(g.size, b, g.blocks);
  }

  lemma BlockExcerpt(g: Geometry, d: Data, b: nat)
    requires DiskOk(g, d) && b < g.blocks
    ensures Excerpt(d, b * g.size, Block(g, d, b))
  {
    hide Block, DiskOk;
    var o := b * g.size;
    BlockIs(g, d, b, o);
  }

  lemma WithBlockIs(g: Geometry, d: Data, b: nat, x: Data, o: nat)
    requires DiskOk(g, d) && b < g.blocks && |x| == g.size && o == b * g.size
    ensures o + g.size <= |d| && WithBlock(g, d, b, x) == Patched(d, o, x)
  {
    hide Patched;
    BlocksApart(g.size, b, g.blocks);
  }

  /** Writing a block changes that block and no other. */
  lemma BlockWritten(g: Geometry, d: Data, b: nat, x: Data, c: nat)
    requires DiskOk(g, d) && b < g.blocks && c < g.blocks && |x| == g.size
    ensures Block(g, WithBlock(g, d, b, x), c) == if c == b then x else Block(g, d, c)
  {
    hide Patched, Block, WithBlock, DiskOk;
    var o, p := BlockStarts(g, b, c);
    WithBlockIs(g, d, b, x, o);
    BlockIs(g, d, c, p);
    BlockIs(g, WithBlock(g, d, b, x), c, p);
    PatchedSlice(d, o, x, p, p + g.size);
  }

  /** Where two blocks begin: at one place, or a block apart. */
  lemma BlockStarts(g: Geometry, b: nat, c: nat) returns (o: nat, p: nat)
    ensures o == b * g.size && p == c * g.size
    ensures b == c ==> o == p
    ensures b < c ==> o + g.size <= p
    ensures c < b ==> p + g.size <= o
  {
    o, p := b * g.size, c * g.size;
    if b < c {
      BlocksApart(g.size, b, c);
    } else if c < b {
      BlocksApart(g.size, c, b);
    }
  }

  // The allocation table.

  /** Where entry `b` lies: in which block, and at which index there. */
  function EntryBlock(g: Geometry, b: nat): nat
    requires g.size > 0
  {
    (b * 8) / g.size + 16
  }

  function EntryIndex(g: Geometry, b: nat): nat
    requires g.size >= 8
  {
    b % (g.size / 8)
  }

  lemma EightDivides(g: Geometry)
    requires g.Ok()
    ensures g.size == 8 * (g.size / 8) && g.size >= 8
  {
  }

  /** The table is one flat array of 8-byte entries behind the first 16 blocks. */
  lemma EntryAddress(g: Geometry, b: nat)
    requires g.Ok() && b < g.blocks
    ensures g.size >= 8 && 8 * EntryIndex(g, b) + 8 <= g.size
    ensures EntryBlock(g, b) * g.size + 8 * EntryIndex(g, b) == 16 * g.size + 8 * b
    ensures EntryBlock(g, b) < g.DirBlock() && EntryBlock(g, b) < g.blocks
  {
    EightDivides(g);
    var e := g.size / 8;
    var q, r := b / e, b % e;
    assert b == q * e + r;
    assert (b * 8) / g.size == q by {
      assert b * 8 == q * (8 * e) + 8 * r;
      DivUnique(b * 8, 8 * e, q, 8 * r);
    }
    assert (q + 16) * g.size == q * (8 * e) + 16 * g.size;
    assert q * (8 * e) == 8 * (q * e);
    TableBlocksCover(g, q, r, b);
  }

  lemma TableBlocksCover(g: Geometry, q: nat, r: nat, b: nat)
    requires g.Ok() && b < g.blocks && 8 * b == q * g.size + 8 * r
    ensures q < g.TableBlocks()
  {
    var n := g.TableBlocks();
    var m := (8 * g.blocks + g.size - 1) % g.size;
    assert 8 * g.blocks + g.size - 1 == n * g.size + m;
    MulAtLeast(n - q, g.size);
    assert (n - q) * g.size == n * g.size - q * g.size >= 8;
  }

  /** The table ends before the main directory. */
  lemma TableFits(g: Geometry)
    requires g.Ok()
    ensures 16 * g.size + 8 * g.blocks <= g.DirBlock() * g.size <= g.blocks * g.size
  {
    var n := g.TableBlocks();
    var m := (8 * g.blocks + g.size - 1) % g.size;
    assert 8 * g.blocks + g.size - 1 == n * g.size + m;
    assert (16 + n) * g.size == 16 * g.size + n * g.size;
    MulAtLeast(g.blocks - g.DirBlock(), g.size);
    assert (g.blocks - g.DirBlock()) * g.size == g.blocks * g.size - g.DirBlock() * g.size;
  }

  function Entry(g: Geometry, d: Data, b: nat): nat
    requires DiskOk(g, d) && b < g.blocks
  {
    TableFits(g);
    Decode(d[16 * g.size + 8 * b..16 * g.size + 8 * b + 8])
  }

  function TableOf(g: Geometry, d: Data): (t: Table)
    requires DiskOk(g, d)
    ensures |t| == g.blocks
  {
    seq(g.blocks, b requires 0 <= b < g.blocks => Entry(g, d, b))
  }

  /** Reading an entry through its block reads the flat array. */
  lemma EntryInBlock(g: Geometry, d: Data, b: nat)
    requires DiskOk(g, d) && b < g.blocks
    ensures EntryBlock(g, b) < g.blocks && g.size >= 8 && 8 * EntryIndex(g, b) + 8 <= g.size
    ensures var k := 8 * EntryIndex(g, b); Decode(Block(g, d, EntryBlock(g, b))[k..k + 8]) == TableOf(g, d)[b]
  {
    hide EntryBlock, EntryIndex, Decode;
    EntryAddress(g, b);
    TableFits(g);
    var o, k := EntryBlock(g, b) * g.size, 8 * EntryIndex(g, b);
    BlocksApart(g.size, EntryBlock(g, b), g.blocks);
    SliceOfSlice(d, o, g.size, k, 8);
    assert Block(g, d, EntryBlock(g, b)) == d[o..o + g.size];
    assert o + k == 16 * g.size + 8 * b;
  }

  /** Writing an entry through its block is a patch of the flat array ... */
  function WithEntry(g: Geometry, d: Data, b: nat, v: nat): (r: Data)
    requires DiskOk(g, d) && b < g.blocks
    ensures DiskOk(g, r)
  {
    TableFits(g);
    Patched(d, 16 * g.size + 8 * b, Encode(v, 8))
  }

  lemma EntryOverwrites(g: Geometry, d: Data, b: nat, v: nat)
    requires DiskOk(g, d) && b < g.blocks
    ensures Overwritten(d, WithEntry(g, d, b, v), 16 * g.size + 8 * b, Encode(v, 8))
  {
    hide Patched, Overwritten, Encode;
    TableFits(g);
    PatchOverwrites(d, 16 * g.size + 8 * b, Encode(v, 8));
  }

  lemma EntryThroughBlock(g: Geometry, d: Data, b: nat, v: nat)
    requires DiskOk(g, d) && b < g.blocks
    ensures EntryBlock(g, b) < g.blocks && g.size >= 8 && 8 * EntryIndex(g, b) + 8 <= g.size
    ensures var tb, k := EntryBlock(g, b), 8 * EntryIndex(g, b);
            WithBlock(g, d, tb, Patched(Block(g, d, tb), k, Encode(v, 8))) == WithEntry(g, d, b, v)
  {
    hide EntryBlock, EntryIndex, Encode;
    EntryAddress(g, b);
    BlocksApart(g.size, EntryBlock(g, b), g.blocks);
    PatchNested(d, EntryBlock(g, b) * g.size, g.size, 8 * EntryIndex(g, b), Encode(v, 8));
  }

  /** ... that sets one entry and leaves all other entries ... */
  lemma EntryWritten(g: Geometry, d: Data, b: nat, v: nat)
    requires DiskOk(g, d) && b < g.blocks && v < TWO64
    ensures TableOf(g, WithEntry(g, d, b, v)) == TableOf(g, d)[b := v]
  {
    hide Encode, Decode, Patched;
    TableFits(g);
    var o, x := 16 * g.size + 8 * b, Encode(v, 8);
    WordRoundTrip(v);
    forall c | 0 <= c < g.blocks ensures Entry(g, WithEntry(g, d, b, v), c) == if c == b then v else Entry(g, d, c) {
      PatchedSlice(d, o, x, 16 * g.size + 8 * c, 16 * g.size + 8 * c + 8);
    }
  }

  /** ... and all blocks outside the table alone. */
  lemma EntryElsewhere(g: Geometry, d: Data, b: nat, v: nat, c: nat)
    requires DiskOk(g, d) && b < g.blocks && c < g.blocks && (c < 16 || c >= g.DirBlock())
    ensures Block(g, WithEntry(g, d, b, v), c) == Block(g, d, c)
  {
    hide Encode, Patched;
    TableFits(g);
    OutsideTable(g, c);
    BlocksApart(g.size, c, g.blocks);
    PatchedSlice(d, 16 * g.size + 8 * b, Encode(v, 8), c * g.size, c * g.size + g.size);
  }

  lemma OutsideTable(g: Geometry, c: nat)
    requires g.Ok() && (c < 16 || c >= g.DirBlock())
    ensures c * g.size + g.size <= 16 * g.size || c * g.size >= 16 * g.size + 8 * g.blocks
  {
    TableFits(g);
    if c < 16 {
      BlocksApart(g.size, c, 16);
    } else if c > g.DirBlock() {
      BlocksApart(g.size, g.DirBlock(), c);
    }
  }

  /** Writing a block outside the table leaves the table alone. */
  lemma TableKept(g: Geometry, d: Data, b: nat, x: Data)
    requires DiskOk(g, d) && g.DirBlock() <= b < g.blocks && |x| == g.size
    ensures TableOf(g, WithBlock(g, d, b, x)) == TableOf(g, d)
  {
    hide Decode, Patched;
    TableFits(g);
    OutsideTable(g, b);
    BlocksApart(g.size, b, g.blocks);
    if g.DirBlock() < b {
      BlocksApart(g.size, g.DirBlock(), b);
    }
    forall c | 0 <= c < g.blocks ensures Entry(g, WithBlock(g, d, b, x), c) == Entry(g, d, c) {
      PatchedSlice(d, b * g.size, x, 16 * g.size + 8 * c, 16 * g.size + 8 * c + 8);
    }
  }

  // The contents of chains.

  ghost predicate OnDisk(g: Geometry, c: seq<nat>) {
    forall i :: 0 <= i < |c| ==> c[i] < g.blocks
  }

  /** The bytes of blocks `c`, one after another. */
  function Contents(g: Geometry, d: Data, c: seq<nat>): (r: Data)
    requires DiskOk(g, d) && (forall i :: 0 <= i < |c| ==> c[i] < g.blocks)
    ensures |r| == |c| * g.size
  {
    if c == [] then [] else Contents(g, d, c[..|c| - 1]) + Block(g, d, c[|c| - 1])
  }

  lemma {:induction false} ContentsAppend(g: Geometry, d: Data, a: seq<nat>, b: seq<nat>)
    requires DiskOk(g, d) && OnDisk(g, a) && OnDisk(g, b)
    ensures OnDisk(g, a + b) && Contents(g, d, a + b) == Contents(g, d, a) + Contents(g, d, b)
    decreases |b|
  {
    if b == [] {
      assert a + b == a;
    } else {
      var b0 := b[..|b| - 1];
      ContentsAppend(g, d, a, b0);
      assert (a + b)[..|a + b| - 1] == a + b0;
    }
  }

  /** Block `i` of the list gives the contents from `i` blocks on, straight off the disk. */
  lemma ContentsAt(g: Geometry, d: Data, c: seq<nat>, i: nat, x: Data)
    requires DiskOk(g, d) && OnDisk(g, c) && i < |c| && |x| == g.size && Excerpt(d, c[i] * g.size, x)
    ensures Excerpt(Contents(g, d, c), i * g.size, x)
  {
    hide Contents, Block;
    var o := c[i] * g.size;
    BlockIs(g, d, c[i], o);
    var a, z := c[..i], c[i + 1..];
    ContentsOne(g, d, c[i]);
    ContentsAppend(g, d, a, [c[i]]);
    ContentsAppend(g, d, a + [c[i]], z);
    assert a + [c[i]] + z == c;
    MiddleExcerpt(Contents(g, d, a), x, Contents(g, d, z), i * g.size);
  }

  lemma ContentsOne(g: Geometry, d: Data, b: nat)
    requires DiskOk(g, d) && b < g.blocks
    ensures Contents(g, d, [b]) == Block(g, d, b)
  {
    hide Block;
    assert [b][..0] == [];
  }

  lemma MiddleExcerpt(a: Data, x: Data, z: Data, at: nat)
    requires at == |a|
    ensures Excerpt(a + x + z, at, x)
  {
    var all := a + x + z;
    assert all[at..at + |x|] == x;
  }

  /** Blocks that agree have the same contents. */
  lemma {:induction false} ContentsSame(g: Geometry, d: Data, d': Data, c: seq<nat>)
    requires DiskOk(g, d) && DiskOk(g, d') && OnDisk(g, c)
    requires forall i :: 0 <= i < |c| ==> Block(g, d', c[i]) == Block(g, d, c[i])
    ensures Contents(g, d', c) == Contents(g, d, c)
    decreases |c|
  {
    if c != [] {
      ContentsSame(g, d, d', c[..|c| - 1]);
    }
  }

  lemma Doubling(n: nat, size: nat)
    requires n > 0
    ensures n * size == (n - 1) * size + size
  {
  }

  /** Writing buffer `x` over blocks `c`, one after another. */
  function Stored(g: Geometry, d: Data, c: seq<nat>, x: Data): (r: Data)
    requires DiskOk(g, d) && (forall i :: 0 <= i < |c| ==> c[i] < g.blocks) && |x| == |c| * g.size
    ensures DiskOk(g, r)
    decreases |c|
  {
    if c == [] then d
    else
      Doubling(|c|, g.size);
      var k := (|c| - 1) * g.size;
      WithBlock(g, Stored(g, d, c[..|c| - 1], x[..k]), c[|c| - 1], x[k..])
  }

  /** Every block outside the list keeps its bytes; so does the table if the list stays behind it. */
  lemma {:induction false} StoredElsewhere(g: Geometry, d: Data, c: seq<nat>, x: Data)
    requires DiskOk(g, d) && OnDisk(g, c) && |x| == |c| * g.size
    ensures forall b: nat :: b < g.blocks && b !in c ==> Block(g, Stored(g, d, c, x), b) == Block(g, d, b)
    ensures InData(c, g.DirBlock()) ==> TableOf(g, Stored(g, d, c, x)) == TableOf(g, d)
    decreases |c|
  {
    hide Block, WithBlock, TableOf;
    if c != [] {
      Doubling(|c|, g.size);
      var k := (|c| - 1) * g.size;
      var d1, last := Stored(g, d, c[..|c| - 1], x[..k]), c[|c| - 1];
      StoredElsewhere(g, d, c[..|c| - 1], x[..k]);
      assert c == c[..|c| - 1] + [last];
      forall b: nat | b < g.blocks && b !in c ensures Block(g, Stored(g, d, c, x), b) == Block(g, d, b) {
        BlockWritten(g, d1, last, x[k..], b);
      }
      if InData(c, g.DirBlock()) {
        TableKept(g, d1, last, x[k..]);
      }
    }
  }

  /** A list without repetition then holds exactly the buffer. */
  lemma {:induction false} StoredContents(g: Geometry, d: Data, c: seq<nat>, x: Data)
    requires DiskOk(g, d) && OnDisk(g, c) && |x| == |c| * g.size
    requires forall i, j :: 0 <= i < j < |c| ==> c[i] != c[j]
    ensures Contents(g, Stored(g, d, c, x), c) == x
    decreases |c|
  {
    hide Block, WithBlock;
    if c != [] {
      Doubling(|c|, g.size);
      var k := (|c| - 1) * g.size;
      var init, last := c[..|c| - 1], c[|c| - 1];
      var d1 := Stored(g, d, init, x[..k]);
      var d2 := WithBlock(g, d1, last, x[k..]);
      StoredContents(g, d, init, x[..k]);
      forall i | 0 <= i < |init| ensures Block(g, d2, init[i]) == Block(g, d1, init[i]) {
        BlockWritten(g, d1, last, x[k..], init[i]);
      }
      ContentsSame(g, d1, d2, init);
      BlockWritten(g, d1, last, x[k..], last);
      assert x == x[..k] + x[k..];
    }
  }
}
