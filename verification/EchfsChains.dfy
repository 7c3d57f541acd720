/** Block chains in the allocation table (src/fs/filesystems/echfs.c:212-220, 369-387), on the table
    as one flat array. */
module EchfsChains {
  const END: nat := 0xFFFF_FFFF_FFFF_FFFF

  type Table = seq<nat>

  /** Following the table from `c[0]` visits exactly the blocks of `c` and ends. */
  predicate IsChain(t: Table, c: seq<nat>) {
    && c != [] && |t| <= END && (forall i :: 0 <= i < |c| ==> c[i] < |t|)
    && (forall i :: 0 <= i < |c| - 1 ==> t[c[i]] == c[i + 1]) && t[c[|c| - 1]] == END
  }

  /** A chain that ends has no cycle. */
  lemma {:induction false} ChainAcyclic(t: Table, c: seq<nat>, i: nat, j: nat)
    requires IsChain(t, c) && i < j < |c|
    ensures c[i] != c[j]
    decreases |c| - j
  {
    assert t[c[i]] == c[i + 1] && c[i + 1] < |t|;
    if j < |c| - 1 {
      ChainAcyclic(t, c, i + 1, j + 1);
      assert t[c[j]] == c[j + 1];
    }
  }

  /** A start has one chain. */
  lemma {:induction false} ChainUnique(t: Table, a: seq<nat>, b: seq<nat>)
    requires IsChain(t, a) && IsChain(t, b) && a[0] == b[0]
    ensures a == b
    decreases |a|
  {
    assert |a| > 1 ==> t[a[0]] == a[1];
    assert |b| > 1 ==> t[b[0]] == b[1];
    if |a| > 1 && |b| > 1 {
      ChainUnique(t, a[1..], b[1..]);
      assert a == [a[0]] + a[1..] && b == [b[0]] + b[1..];
    }
  }

  /** The first free block, or the table's length. */
  function FirstFree(t: Table): (f: nat)
    ensures f <= |t| && (forall b :: 0 <= b < f ==> t[b] != 0) && (f < |t| ==> t[f] == 0)
  {
    if t == [] || t[0] == 0 then 0 else 1 + FirstFree(t[1..])
  }

  /** find_free_block: zero stands for "none". */
  function FindFree(t: Table): nat {
    if FirstFree(t) < |t| then FirstFree(t) else 0
  }

  function FreeBlocks(t: Table): set<nat> {
    set b | 0 <= b < |t| && t[b] == 0
  }

  /** One round of the loop: the chain's last block points to `f`, and `f` ends it. */
  function Linked(t: Table, last: nat, f: nat): (r: Table)
    requires last < |t| && f < |t|
    ensures |r| == |t|
  {
    t[last := f][f := END]
  }

  /** allocate_blocks_for_file after it has found the last block: `n` rounds. */
  function Extended(t: Table, last: nat, n: nat): (r: Table)
    requires last < |t|
    ensures |r| == |t|
    decreases n
  {
    if n == 0 then t else Extended(Linked(t, last, FindFree(t)), FindFree(t), n - 1)
  }

  /** The blocks it takes. */
  function NewBlocks(t: Table, last: nat, n: nat): (r: seq<nat>)
    requires last < |t|
    ensures |r| == n
    decreases n
  {
    if n == 0 then [] else [FindFree(t)] + NewBlocks(Linked(t, last, FindFree(t)), FindFree(t), n - 1)
  }

  /** The first `d` blocks are reserved; every file has its chain among the others, and no block is in
      two files. */
  ghost predicate FsOk(t: Table, d: nat, files: seq<seq<nat>>) {
    && 0 < d <= |t| && (forall b :: 0 <= b < d ==> t[b] != 0)
    && (forall k :: 0 <= k < |files| ==> IsChain(t, files[k]) && InData(files[k], d))
    && (forall k, l :: 0 <= k < l < |files| ==> Apart(files[k], files[l]))
  }

  predicate InData(c: seq<nat>, d: nat) {
    forall i :: 0 <= i < |c| ==> c[i] >= d
  }

  predicate Apart(a: seq<nat>, b: seq<nat>) {
    forall i, j :: 0 <= i < |a| && 0 <= j < |b| ==> a[i] != b[j]
  }

  /** A block outside the chain extends it. */
  lemma LinkExtends(t: Table, c: seq<nat>, f: nat)
    requires IsChain(t, c) && f < |t| && f !in c
    ensures IsChain(Linked(t, c[|c| - 1], f), c + [f])
  {
    var t', c' := Linked(t, c[|c| - 1], f), c + [f];
    forall i | 0 <= i < |c'| - 1 ensures t'[c'[i]] == c'[i + 1] {
      assert c[i] in c;
      if i < |c| - 1 {
        ChainAcyclic(t, c, i, |c| - 1);
      }
    }
  }

  /** Chains that use neither block are untouched. */
  lemma LinkKeeps(t: Table, last: nat, f: nat, c: seq<nat>)
    requires IsChain(t, c) && last < |t| && f < |t| && last !in c && f !in c
    ensures IsChain(Linked(t, last, f), c)
  {
    assert forall i :: 0 <= i < |c| ==> c[i] in c;
  }

  /** A free block is in no file. */
  lemma FreeNotInChain(t: Table, d: nat, c: seq<nat>, f: nat)
    requires IsChain(t, c) && InData(c, d) && d > 0 && f < |t| && t[f] == 0
    ensures f !in c
  {
    forall i | 0 <= i < |c| ensures c[i] != f {
      assert i < |c| - 1 ==> c[i + 1] >= d;
    }
  }

  lemma LinkFreeBlocks(t: Table, last: nat, f: nat)
    requires last < |t| && f < |t| && t[last] != 0 && t[f] == 0 && f > 0
    ensures FreeBlocks(Linked(t, last, f)) == FreeBlocks(t) - {f} && f in FreeBlocks(t)
  {
  }

  /** One round keeps the file system in order. */
  lemma RoundKeeps(t: Table, d: nat, files: seq<seq<nat>>, k: nat)
    requires FsOk(t, d, files) && k < |files| && FreeBlocks(t) != {}
    ensures var c, f := files[k], FindFree(t); var t' := Linked(t, c[|c| - 1], f);
            && FsOk(t', d, files[k := c + [f]]) && f >= d && t[f] == 0
            && |FreeBlocks(t')| == |FreeBlocks(t)| - 1
  {
    var c, f := files[k], FindFree(t);
    assert f < |t| && t[f] == 0 by {
      var b :| b in FreeBlocks(t);
    }
    var last := c[|c| - 1];
    var t', files' := Linked(t, last, f), files[k := c + [f]];
    FreeNotInChain(t, d, c, f);
    LinkExtends(t, c, f);
    LinkFreeBlocks(t, last, f);
    forall l | 0 <= l < |files| && l != k ensures IsChain(t', files[l]) && f !in files[l] {
      FreeNotInChain(t, d, files[l], f);
      assert last !in files[l] by { assert if l < k then Apart(files[l], c) else Apart(c, files[l]); }
      LinkKeeps(t, last, f, files[l]);
    }
    forall l, m | 0 <= l < m < |files'| ensures Apart(files'[l], files'[m]) {
      assert Apart(files[l], files[m]);
      assert forall l :: 0 <= l < |files| && l != k ==> f !in files[l];
    }
  }

  /** With enough free blocks the chain grows to the length asked for, with the old chain in front and
      only free blocks behind; every other file keeps its chain. */
  lemma {:induction false} AllocateExtends(t: Table, d: nat, files: seq<seq<nat>>, k: nat, n: nat)
    requires FsOk(t, d, files) && k < |files| && n <= |FreeBlocks(t)|
    ensures var c := files[k]; var last := c[|c| - 1];
            && FsOk(Extended(t, last, n), d, files[k := c + NewBlocks(t, last, n)])
            && (forall i :: 0 <= i < n ==> NewBlocks(t, last, n)[i] in FreeBlocks(t))
            && |FreeBlocks(Extended(t, last, n))| == |FreeBlocks(t)| - n
    decreases n
  {
    hide FsOk, Linked;
    var c := files[k];
    ChainsNonEmpty(t, d, files);
    var last := c[|c| - 1];
    if n == 0 {
      assert c + [] == c && files[k := c] == files;
    } else {
      var f := FindFree(t);
      RoundKeeps(t, d, files, k);
      var t', files' := Linked(t, last, f), files[k := c + [f]];
      AllocateExtends(t', d, files', k, n - 1);
      var more := NewBlocks(t', f, n - 1);
      assert (c + [f])[|c + [f]| - 1] == f;
      assert c + [f] + more == c + ([f] + more);
      assert files'[k := c + [f] + more] == files[k := c + NewBlocks(t, last, n)];
      assert forall i :: 0 <= i < n - 1 ==> more[i] in FreeBlocks(t) by { FreeShrinks(t, d, files, k); }
    }
  }

  lemma ChainsNonEmpty(t: Table, d: nat, files: seq<seq<nat>>)
    requires FsOk(t, d, files)
    ensures forall k :: 0 <= k < |files| ==> files[k] != [] && files[k][|files[k]| - 1] < |t|
  {
  }

  lemma ChainOf(t: Table, d: nat, files: seq<seq<nat>>, k: nat)
    requires FsOk(t, d, files) && k < |files|
    ensures IsChain(t, files[k]) && InData(files[k], d) && d > 0
  {
  }

  lemma FreeShrinks(t: Table, d: nat, files: seq<seq<nat>>, k: nat)
    requires FsOk(t, d, files) && k < |files| && files[k] != [] && files[k][|files[k]| - 1] < |t| && FreeBlocks(t) != {}
    ensures FreeBlocks(Linked(t, files[k][|files[k]| - 1], FindFree(t))) <= FreeBlocks(t)
    ensures FindFree(t) in FreeBlocks(t)
  {
    var b :| b in FreeBlocks(t);
    assert IsChain(t, files[k]);
  }

  lemma {:induction false} ExtendedTwice(t: Table, last: nat, m: nat, n: nat)
    requires last < |t|
    ensures var at := if m == 0 then last else NewBlocks(t, last, m)[m - 1];
            at < |t| && Extended(t, last, m + n) == Extended(Extended(t, last, m), at, n)
    decreases m
  {
    hide Linked;
    if m > 0 {
      var f := FindFree(t);
      assert f < |t|;
      ExtendedTwice(Linked(t, last, f), f, m - 1, n);
    }
  }

  /** A full table has no free block to find. */
  lemma NoneFound(t: Table)
    requires FreeBlocks(t) == {}
    ensures FirstFree(t) == |t| && forall b :: 0 <= b < |t| ==> t[b] != 0
  {
    forall b | 0 <= b < |t| ensures t[b] != 0 {
      assert b !in FreeBlocks(t);
    }
  }

  /** Out of free blocks, a round links the chain to block 0. Pointing to 0 makes the last block look
      free, so the round after finds it and ends the chain there again. */
  lemma TwoRounds(t: Table, c: seq<nat>)
    requires IsChain(t, c) && FreeBlocks(t) == {} && 0 !in c
    ensures var last := c[|c| - 1]; var t1 := Linked(t, last, 0); var t2 := Linked(t1, 0, last);
            && FindFree(t) == 0 && IsChain(t1, c + [0]) && FindFree(t1) == last
            && IsChain(t2, c) && FreeBlocks(t2) == {}
  {
    hide FreeBlocks;
    var last := c[|c| - 1];
    var t1 := Linked(t, last, 0);
    var t2 := Linked(t1, 0, last);
    NoneFound(t);
    LinkExtends(t, c, 0);
    assert last in c && last != 0;
    assert FirstFree(t1) == last by {
      assert t1[last] == 0 && forall b :: 0 <= b < |t1| && b != last ==> t1[b] != 0;
    }
    assert t2 == t[0 := last];
    assert forall i :: 0 <= i < |c| ==> c[i] in c;
    assert IsChain(t2, c);
    FullTable(t2);
  }

  lemma FullTable(t: Table)
    requires forall b :: 0 <= b < |t| ==> t[b] != 0
    ensures FreeBlocks(t) == {}
  {
  }

  lemma ChainLast(t: Table, c: seq<nat>)
    requires IsChain(t, c)
    ensures c != [] && c[|c| - 1] < |t| && 0 < |t|
  {
  }

  lemma {:induction false} Alternates(t: Table, c: seq<nat>, n: nat)
    requires IsChain(t, c) && FreeBlocks(t) == {} && 0 !in c
    ensures IsChain(Extended(t, c[|c| - 1], n), if n % 2 == 0 then c else c + [0])
    decreases n
  {
    hide FindFree, FreeBlocks, Linked, IsChain;
    ChainLast(t, c);
    if n > 0 {
      var last := c[|c| - 1];
      TwoRounds(t, c);
      var t1 := Linked(t, last, 0);
      if n > 1 {
        var t2 := Linked(t1, 0, last);
        Alternates(t2, c, n - 2);
        assert Extended(t, last, n) == Extended(t1, 0, n - 1) == Extended(t2, last, n - 2);
      }
    }
  }

  /** Asked for more blocks than are free, the code takes all of them and then adds and removes block 0
      in turn. */
  lemma AllocateOverruns(t: Table, d: nat, files: seq<seq<nat>>, k: nat, n: nat)
    requires FsOk(t, d, files) && k < |files| && n > |FreeBlocks(t)|
    ensures var c := files[k]; var last, m := c[|c| - 1], |FreeBlocks(t)|;
            IsChain(Extended(t, last, n), c + NewBlocks(t, last, m) + if (n - m) % 2 == 0 then [] else [0])
  {
    hide Linked, Extended, NewBlocks, FsOk, IsChain;
    ChainsNonEmpty(t, d, files);
    var c, m := files[k], |FreeBlocks(t)|;
    var last := c[|c| - 1];
    AllocateExtends(t, d, files, k, m);
    ExtendedTwice(t, last, m, n - m);
    var t1, c1 := Extended(t, last, m), c + NewBlocks(t, last, m);
    assert c1[|c1| - 1] == if m == 0 then last else NewBlocks(t, last, m)[m - 1];
    var files1 := files[k := c1];
    ChainOf(t1, d, files1, k);
    assert 0 !in c1;
    Alternates(t1, c1, n - m);
    assert c1 + [] == c1;
  }

  /** Allocation does what is asked exactly if there are enough free blocks: only then does the file's
      chain reach the length wanted without a reserved block. */
  lemma AllocateExact(t: Table, d: nat, files: seq<seq<nat>>, k: nat, n: nat, c': seq<nat>)
    requires FsOk(t, d, files) && k < |files|
    requires c' != [] && files[k] != [] && c'[0] == files[k][0] && files[k][|files[k]| - 1] < |t|
    requires IsChain(Extended(t, files[k][|files[k]| - 1], n), c')
    ensures InData(c', d) && |c'| == |files[k]| + n <==> n <= |FreeBlocks(t)|
  {
    hide Extended, NewBlocks, IsChain;
    var c, m := files[k], |FreeBlocks(t)|;
    var last := c[|c| - 1];
    var t' := Extended(t, last, n);
    if n <= m {
      AllocateExtends(t, d, files, k, n);
      var c1, files1 := c + NewBlocks(t, last, n), files[k := c + NewBlocks(t, last, n)];
      ChainOf(t', d, files1, k);
      ChainUnique(t', c', c1);
    } else {
      AllocateOverruns(t, d, files, k, n);
      var c1 := c + NewBlocks(t, last, m) + if (n - m) % 2 == 0 then [] else [0];
      assert c1[0] == c[0];
      ChainUnique(t', c', c1);
      assert (n - m) % 2 != 0 ==> c1[|c1| - 1] == 0;
    }
  }

  /** The rounds the code runs for a target of `total` blocks: an unsigned difference. */
  function Rounds(total: nat, length: nat): nat {
    (total - length) % 0x1_0000_0000_0000_0000
  }

  /** The chain the file has after allocation. */
  function GrownChain(t: Table, c: seq<nat>, n: nat): seq<nat>
    requires c != [] && c[|c| - 1] < |t|
  {
    var m := |FreeBlocks(t)|;
    if n <= m then c + NewBlocks(t, c[|c| - 1], n)
    else c + NewBlocks(t, c[|c| - 1], m) + if (n - m) % 2 == 0 then [] else [0]
  }

  lemma GrownIsChain(t: Table, d: nat, files: seq<seq<nat>>, k: nat, n: nat)
    requires FsOk(t, d, files) && k < |files|
    ensures files[k] != [] && files[k][|files[k]| - 1] < |t|
    ensures IsChain(Extended(t, files[k][|files[k]| - 1], n), GrownChain(t, files[k], n))
  {
    hide Extended, NewBlocks, IsChain, FsOk, FreeBlocks;
    ChainsNonEmpty(t, d, files);
    if n <= |FreeBlocks(t)| {
      AllocateExtends(t, d, files, k, n);
      var files1 := files[k := GrownChain(t, files[k], n)];
      ChainOf(Extended(t, files[k][|files[k]| - 1], n), d, files1, k);
    } else {
      AllocateOverruns(t, d, files, k, n);
    }
  }

  /** Asked for `total` blocks, the file ends up with a chain of `total` blocks and none of them reserved
      exactly if the target is no smaller than the chain was and enough blocks are free. A smaller target
      wraps to a huge number of rounds and the chain gets longer instead. */
  lemma AllocateLength(t: Table, d: nat, files: seq<seq<nat>>, k: nat, total: nat)
    requires FsOk(t, d, files) && k < |files| && total < 0x1_0000_0000_0000_0000
    ensures var c := files[k];
            && c != [] && c[|c| - 1] < |t|
            && var c' := GrownChain(t, c, Rounds(total, |c|));
               InData(c', d) && |c'| == total <==> |c| <= total <= |c| + |FreeBlocks(t)|
  {
    hide Extended, NewBlocks, IsChain, FsOk, FreeBlocks;
    ChainsNonEmpty(t, d, files);
    var c := files[k];
    var n := Rounds(total, |c|);
    GrownIsChain(t, d, files, k, n);
    var c' := GrownChain(t, c, n);
    assert c'[0] == c[0] && |c'| >= |c|;
    if total >= |c| {
      assert n == total - |c|;
      AllocateExact(t, d, files, k, n, c');
    }
  }

  /** A full volume with one file of two blocks: asked for three, the file gets the reserved block 0;
      asked for one, it gets it too. */
  lemma OverrunExample()
    ensures var t, c := [7, 2, END], [1, 2];
            FsOk(t, 1, [c]) && GrownChain(t, c, Rounds(3, 2)) == GrownChain(t, c, Rounds(1, 2)) == [1, 2, 0]
  {
    var t: Table := [7, 2, END];
    FullTable(t);
  }
}
