/** kmalloc and kfree (src/klibc/stdlib.c): each block is a run of frames whose first and last
    pages are taken out of the direct map, so that running off either end faults. */
module Heap {
  import opened Common
  import opened Pmm
  import opened PageTables
  import opened VirtualPages
  import opened Vmm

  /** The direct map puts frame `p` at virtual page `LOWER + p`, present and writable. */
  const DIRECT: nat := 0xFFFF_8000_0000_0000
  const SIGNATURE: nat := 0xf100f333f100f333

  /** A 64-bit value as a word of memory. */
  function ToWord(v: nat): Word {
    Word(v / 0x1000, v % 0x1000)
  }

  function Value(w: Word): (v: nat)
    ensures ToWord(v) == w
  {
    w.hi * 0x1000 + w.lo
  }

  lemma ValueOfWord(v: nat)
    ensures Value(ToWord(v)) == v
  {
  }

  function DirectAddress(p: nat): nat {
    DIRECT + p * 0x1000
  }

  lemma DirectPage(p: nat)
    requires LOWER + p < VPAGES
    ensures PageNo(DirectAddress(p)) == LOWER + p && DirectAddress(p) % 0x1000 == 0
  {
    assert DirectAddress(p) / 0x1000 == 0xFFFF_8000_0000_0 + p;
    assert 0xFFFF_8000_0000_0 == 0xFFFF * VPAGES + LOWER;
  }

  /** Pages of a block: the header page, the payload and the last page. */
  function BlockPages(size: nat): (n: nat)
    ensures n >= 2 && (n == 2 <==> size == 0)
  {
    Pages(size + 0x2000)
  }

  function Last(b: nat, size: nat): nat {
    b + BlockPages(size) - 1
  }

  predicate InBlock(b: nat, size: nat, p: nat) {
    b <= p < b + BlockPages(size)
  }

  /** Live blocks: first frame to requested size. */
  type Blocks = map<nat, nat>

  /** The pages kept out of the direct map. */
  ghost function Guards(live: Blocks): set<nat> {
    live.Keys + (set b | b in live :: Last(b, live[b]))
  }

  /** Frame `p` of the first `count` is mapped at its direct address unless `p` is in `out`. */
  ghost predicate DirectView(ram: Ram, root: nat, count: nat, out: set<nat>) {
    forall u :: LOWER <= u < LOWER + count ==>
      Lookup(ram, root, u) == if u - LOWER in out then None else Some(Leaf(u - LOWER, 3))
  }

  /** A block's header: its size with both guards, and the signature. */
  ghost predicate HeaderOk(ram: Ram, b: nat, size: nat) {
    Slot(ram, b, 0) == ToWord(size + 0x2000) && Slot(ram, b, 1) == ToWord(SIGNATURE)
  }

  ghost predicate BlocksOk(ram: Ram, own: Owners, taken: set<nat>, count: nat, live: Blocks) {
    && (forall b :: b in live ==> 0 < b && b + BlockPages(live[b]) <= count && HeaderOk(ram, b, live[b]))
    && (forall b, p :: b in live && InBlock(b, live[b], p) ==> p in taken && p !in own)
    && (forall b, c :: b in live && c in live && b < c ==> b + BlockPages(live[b]) <= c)
  }

  ghost predicate HeapOk(ram: Ram, own: Owners, taken: set<nat>, root: nat, count: nat, live: Blocks) {
    && count <= |ram| && count <= LOWER && (forall p :: count <= p < |ram| ==> p in taken)
    && IsRoot(own, root) && TablesReady(ram, root, LOWER, count)
    && DirectView(ram, root, count, Guards(live))
    && BlocksOk(ram, own, taken, count, live)
  }

  /** What a change to the direct map leaves alone: every frame that holds no table, every page
      outside the direct map, and the lower half of every other address space. */
  ghost predicate OnlyDirect(ram: Ram, ram': Ram, own: Owners, root: nat, count: nat) {
    && |ram'| == |ram|
    && (forall f: nat, i: nat :: f !in own ==> Slot(ram', f, i) == Slot(ram, f, i))
    && (forall u :: 0 <= u < VPAGES && !(LOWER <= u < LOWER + count) ==> Lookup(ram', root, u) == Lookup(ram, root, u))
    && OthersKept(ram, ram', own, root)
  }

  lemma OnlyDirectTransitive(ram: Ram, ram1: Ram, ram2: Ram, own: Owners, root: nat, count: nat)
    requires OnlyDirect(ram, ram1, own, root, count) && OnlyDirect(ram1, ram2, own, root, count)
    ensures OnlyDirect(ram, ram2, own, root, count)
  {
    hide Slot, Lookup;
  }

  /** Taking one page out of the direct map, or putting it back. */
  lemma DirectRun(ram: Ram, own: Owners, ram': Ram, root: nat, op: PageOp, p: nat, count: nat, out: set<nat>)
    requires RunState(ram, own, ram', own, root, op, LOWER + p, 1) && p < count <= LOWER
    requires DirectView(ram, root, count, out) && TablesReady(ram, root, LOWER, count) && IsRoot(own, root)
    requires op == Unmap || op == Map(p, 3)
    ensures DirectView(ram', root, count, if op == Unmap then out + {p} else out - {p})
    ensures TablesReady(ram', root, LOWER, count) && OnlyDirect(ram, ram', own, root, count)
  {
    hide TreeOk, TablesAdded, RootSlotsKept, HugeFreeKept, Lookup, Slot, OffsOf, TableAt, OthersKept;
    SameFrames(ram, ram', own);
  }

  lemma SameFrames(ram: Ram, ram': Ram, own: Owners)
    requires |ram'| == |ram| && forall f :: 0 <= f < |ram| && ram'[f] != ram[f] ==> f in own
    ensures forall f: nat, i: nat :: f !in own ==> Slot(ram', f, i) == Slot(ram, f, i)
  {
  }

  /** A new block keeps the heap in order. */
  lemma BlockAdded(ram: Ram, own: Owners, taken: set<nat>, root: nat, count: nat, live: Blocks, b: nat, size: nat,
                   ram': Ram)
    requires HeapOk(ram, own, taken, root, count, live) && own.Keys <= taken && 0 < b && |ram'| == |ram|
    requires FreeRun(taken, |ram|, b, BlockPages(size))
    requires DirectView(ram', root, count, Guards(live) + {Last(b, size)} + {b})
    requires TablesReady(ram', root, LOWER, count)
    requires HeaderOk(ram', b, size) && HeapStep(ram, ram', own, root, count, b)
    ensures HeapOk(ram', own, taken + Range(b, BlockPages(size)), root, count, live[b := size])
    ensures b !in live
  {
    hide DirectView, TablesReady, Slot, ToWord, Pages, IsRoot, Guards, Range, LowestRun, HeaderOk;
    forall c | c in live ensures c != b && HeaderOk(ram', c, live[c]) {
      FreeRunApart(ram, own, taken, count, live, b, size, c);
      HeaderStays(ram, ram', own, root, count, b, c, live[c]);
    }
    GuardsAdd(live, b, size);
    assert b + BlockPages(size) <= count by { assert Last(b, size) !in taken; }
    BlocksAdded(ram, own, taken, count, live, b, size, ram');
  }

  lemma HeaderStays(ram: Ram, ram': Ram, own: Owners, root: nat, count: nat, b: nat, c: nat, size: nat)
    requires HeapStep(ram, ram', own, root, count, b) && HeaderOk(ram, c, size) && c != b && c !in own && c < |ram|
    ensures HeaderOk(ram', c, size)
  {
  }

  lemma BlocksAdded(ram: Ram, own: Owners, taken: set<nat>, count: nat, live: Blocks, b: nat, size: nat, ram': Ram)
    requires BlocksOk(ram, own, taken, count, live) && own.Keys <= taken && 0 < b && b !in live
    requires FreeRun(taken, |ram|, b, BlockPages(size)) && b + BlockPages(size) <= count
    requires HeaderOk(ram', b, size) && forall c :: c in live ==> HeaderOk(ram', c, live[c])
    ensures BlocksOk(ram', own, taken + Range(b, BlockPages(size)), count, live[b := size])
  {
    hide HeaderOk, Pages, Range;
    forall c | c in live ensures (c < b ==> c + BlockPages(live[c]) <= b) && (b < c ==> b + BlockPages(size) <= c) {
      FreeRunApart(ram, own, taken, count, live, b, size, c);
    }
  }

  /** A free run lies clear of every live block. */
  lemma FreeRunApart(ram: Ram, own: Owners, taken: set<nat>, count: nat, live: Blocks, b: nat, size: nat, c: nat)
    requires BlocksOk(ram, own, taken, count, live) && FreeRun(taken, |ram|, b, BlockPages(size)) && c in live
    ensures c != b && c !in own
    ensures (c < b ==> c + BlockPages(live[c]) <= b) && (b < c ==> b + BlockPages(size) <= c)
  {
    hide HeaderOk, Pages;
    assert InBlock(c, live[c], c);
    assert b !in taken;
    assert InBlock(c, live[c], b) ==> b in taken;
  }

  lemma GuardsAdd(live: Blocks, b: nat, size: nat)
    requires b !in live
    ensures Guards(live[b := size]) == Guards(live) + {Last(b, size)} + {b}
  {
    hide Last;
    var live' := live[b := size];
    forall p | p in Guards(live) ensures p in Guards(live') {
      if p in live {
      } else {
        var c :| c in live && p == Last(c, live[c]);
        assert c in live' && p == Last(c, live'[c]);
      }
    }
    assert b in live' && live'[b] == size;
  }

  /** Removing a block takes exactly its two guards with it: guards of different blocks differ. */
  lemma GuardsRemove(ram: Ram, own: Owners, taken: set<nat>, count: nat, live: Blocks, b: nat)
    requires BlocksOk(ram, own, taken, count, live) && b in live
    ensures Guards(live - {b}) == Guards(live) - {b} - {Last(b, live[b])}
  {
    hide HeaderOk, BlockPages;
    var live' := live - {b};
    forall c | c in live'
      ensures c in live && c !in {b, Last(b, live[b])} && Last(c, live[c]) !in {b, Last(b, live[b])}
    {
    }
    forall p | p in Guards(live) && p != b && p != Last(b, live[b]) ensures p in Guards(live') {
      if p !in live {
        var c :| c in live && p == Last(c, live[c]);
        assert c in live' && p == Last(c, live'[c]);
      }
    }
    forall p | p in Guards(live') ensures p in Guards(live) && p != b && p != Last(b, live[b]) {
      if p !in live' {
        var c :| c in live' && p == Last(c, live'[c]);
      }
    }
  }

  lemma BlockRemoved(ram: Ram, own: Owners, taken: set<nat>, root: nat, count: nat, live: Blocks, b: nat, ram': Ram)
    requires HeapOk(ram, own, taken, root, count, live) && b in live && OnlyDirect(ram, ram', own, root, count)
    requires DirectView(ram', root, count, Guards(live) - {b} - {Last(b, live[b])})
    requires TablesReady(ram', root, LOWER, count)
    ensures HeapOk(ram', own, taken - Range(b, BlockPages(live[b])), root, count, live - {b})
  {
    hide DirectView, TablesReady, Slot, ToWord, BlockPages, IsRoot, Guards, Range, Lookup, OthersKept;
    GuardsRemove(ram, own, taken, count, live, b);
    forall c | c in live ensures HeaderOk(ram', c, live[c]) {
      assert InBlock(c, live[c], c);
    }
  }

  /** Writing a word of a frame that holds no table is seen in that word only. */
  lemma WordWrite(ram: Ram, own: Owners, f: nat, i: nat, w: Word, root: nat, count: nat, out: set<nat>)
    requires TreeOk(ram, own) && f < |ram| && f !in own && i < 512 && IsRoot(own, root) && count <= LOWER
    requires DirectView(ram, root, count, out) && TablesReady(ram, root, LOWER, count)
    ensures i < |ram[f]|
    ensures var ram' := WriteSlot(ram, f, i, w);
            && TreeOk(ram', own) && SameWalks(ram, ram', own)
            && DirectView(ram', root, count, out) && TablesReady(ram', root, LOWER, count)
            && forall g: nat, j: nat :: Slot(ram', g, j) == if g == f && j == i then w else Slot(ram, g, j)
  {
    hide Slot, OffsOf, TableAt, Walk, Typed, Linked;
    SlotAfterWrite(ram, f, i, w);
    SameTablesSameTree(ram, WriteSlot(ram, f, i, w), own);
    forall u: nat | LOWER <= u < LOWER + count
      ensures Lookup(WriteSlot(ram, f, i, w), root, u) == Lookup(ram, root, u)
    {
      PageOfOffsOf(u);
    }
  }

  lemma SameWalksTransitive(ram: Ram, ram1: Ram, ram2: Ram, own: Owners)
    requires SameWalks(ram, ram1, own) && SameWalks(ram1, ram2, own)
    ensures SameWalks(ram, ram2, own)
  {
    hide Walk;
  }

  lemma SameWalksSameLookups(ram: Ram, ram': Ram, own: Owners, root: nat)
    requires SameWalks(ram, ram', own) && IsRoot(own, root)
    ensures forall u :: 0 <= u < VPAGES ==> Lookup(ram', root, u) == Lookup(ram, root, u)
    ensures OthersKept(ram, ram', own, root)
  {
    hide OffsOf, Walk;
    forall r, u | IsRoot(own, r) && 0 <= u < VPAGES ensures Lookup(ram', r, u) == Lookup(ram, r, u) {
      PageOfOffsOf(u);
    }
  }

  /** What a heap operation on block `b` leaves alone: frames that are neither tables nor `b`'s
      header, pages outside the direct map, and the lower halves of other address spaces. */
  ghost predicate HeapStep(ram: Ram, ram': Ram, own: Owners, root: nat, count: nat, b: nat) {
    && |ram'| == |ram|
    && (forall f: nat, i: nat :: f !in own && f != b ==> Slot(ram', f, i) == Slot(ram, f, i))
    && (forall u :: 0 <= u < VPAGES && !(LOWER <= u < LOWER + count) ==> Lookup(ram', root, u) == Lookup(ram, root, u))
    && OthersKept(ram, ram', own, root)
  }

  lemma DirectAt(ram: Ram, root: nat, count: nat, out: set<nat>, p: nat)
    requires DirectView(ram, root, count, out) && p < count
    ensures Lookup(ram, root, LOWER + p) == if p in out then None else Some(Leaf(p, 3))
  {
    hide Lookup;
  }

  lemma HeapFacts(ram: Ram, own: Owners, taken: set<nat>, root: nat, count: nat, live: Blocks)
    requires HeapOk(ram, own, taken, root, count, live)
    ensures count <= |ram| && count <= LOWER && IsRoot(own, root) && TablesReady(ram, root, LOWER, count)
    ensures DirectView(ram, root, count, Guards(live)) && Guards(live) <= taken
  {
    hide DirectView, TablesReady, HeaderOk;
    forall b | b in live ensures b in taken && Last(b, live[b]) in taken {
      assert InBlock(b, live[b], b) && InBlock(b, live[b], Last(b, live[b]));
    }
  }

  /** The frames of a new block are none of the heap's guards, tables or unmapped pages. */
  lemma FreshBlock(ram: Ram, own: Owners, taken: set<nat>, root: nat, count: nat, live: Blocks, b: nat, size: nat)
    requires HeapOk(ram, own, taken, root, count, live) && LowestRun(taken, |ram|, b, BlockPages(size))
    requires own.Keys <= taken
    ensures b !in own && Last(b, size) < count && b < Last(b, size) && b !in Guards(live)
    ensures FreeRun(taken, |ram|, b, BlockPages(size))
  {
    hide DirectView, TablesReady, BlocksOk, IsRoot, Guards;
    HeapFacts(ram, own, taken, root, count, live);
    assert b !in taken && Last(b, size) !in taken;
  }

  lemma HeapStepDone(ram0: Ram, ram1: Ram, ram2: Ram, ram3: Ram, own: Owners, root: nat, count: nat, b: nat)
    requires OnlyDirect(ram0, ram1, own, root, count) && OnlyDirect(ram2, ram3, own, root, count)
    requires |ram1| == |ram2| && SameWalks(ram1, ram2, own) && IsRoot(own, root)
    requires forall g: nat, j: nat :: g != b ==> Slot(ram2, g, j) == Slot(ram1, g, j)
    ensures HeapStep(ram0, ram3, own, root, count, b)
  {
    hide Slot, Lookup, SameWalks;
    SameWalksSameLookups(ram1, ram2, own, root);
  }

  lemma HeaderKept(ram: Ram, ram': Ram, own: Owners, root: nat, count: nat, b: nat, size: nat)
    requires OnlyDirect(ram, ram', own, root, count) && b !in own && HeaderOk(ram, b, size)
    ensures HeaderOk(ram', b, size)
  {
    hide Slot, Lookup;
  }

  /** Where a live block's pages lie, and which of them are mapped. */
  lemma LiveBlock(ram: Ram, own: Owners, taken: set<nat>, root: nat, count: nat, live: Blocks, b: nat)
    requires HeapOk(ram, own, taken, root, count, live) && b in live
    ensures 0 < b < Last(b, live[b]) < count && b !in own && HeaderOk(ram, b, live[b])
    ensures b in Guards(live) && Last(b, live[b]) in Guards(live)
    ensures forall p :: b < p < Last(b, live[b]) ==> p !in Guards(live) && p !in own && p in taken
    ensures Range(b, BlockPages(live[b])) <= taken && Range(b, BlockPages(live[b])) !! own.Keys
  {
    hide DirectView, TablesReady, HeaderOk, Range, Pages, IsRoot, Guards, InBlock, BlockPages, Last;
    BlockBounds(b, live[b]);
    forall p | b <= p < b + BlockPages(live[b]) ensures p in taken && p !in own {
      assert InBlock(b, live[b], p);
    }
    forall p | b < p < Last(b, live[b]) ensures p !in Guards(live) {
      InsideNotGuard(ram, own, taken, count, live, b, p);
    }
    GuardsHave(live, b);
  }

  lemma BlockBounds(b: nat, size: nat)
    ensures b < Last(b, size) && Last(b, size) + 1 == b + BlockPages(size)
    ensures forall p: nat :: b <= p < b + BlockPages(size) <==> InBlock(b, size, p)
  {
  }

  lemma GuardsHave(live: Blocks, b: nat)
    requires b in live
    ensures b in Guards(live) && Last(b, live[b]) in Guards(live)
  {
  }

  lemma InsideNotGuard(ram: Ram, own: Owners, taken: set<nat>, count: nat, live: Blocks, b: nat, p: nat)
    requires BlocksOk(ram, own, taken, count, live) && b in live && b < p < Last(b, live[b])
    ensures p !in Guards(live)
  {
    hide HeaderOk, Pages;
    forall c | c in live ensures p != c && p != Last(c, live[c]) {
    }
  }

  /** Between the header and the last page, `addr` is what kmalloc returned for block `b`. */
  function Payload(b: nat): nat {
    DirectAddress(b + 1)
  }

  datatype FreeOutcome = Freed | Panicked

  /** The page arithmetic of kfree lands on the block's last page. */
  lemma LastPageFound(b: nat, size: nat)
    ensures Payload(b) + ((size + 0x2000 - 0x1000 + 0x1000 - 1) / 0x1000 - 1) * 0x1000 == DirectAddress(Last(b, size))
    ensures Pages(size + 0x2000) == BlockPages(size)
  {
    assert (size + 0x2000 + 0x1000 - 1) / 0x1000 == (size + 0x2000 - 0x1000 + 0x1000 - 1) / 0x1000 + 1;
  }

  /** A direct-map page is translated by the kernel as by the hardware. */
  lemma DirectTranslation(ram: Ram, own: Owners, root: nat, count: nat, out: set<nat>, p: nat)
    requires TreeOk(ram, own) && IsRoot(own, root) && p < count <= LOWER
    requires DirectView(ram, root, count, out) && TablesReady(ram, root, LOWER, count)
    ensures VirtToPhys(ram, root, DirectAddress(p)) == if p in out then None else Some(p * 0x1000)
  {
    hide TreeOk, VirtToPhys, VirtToOffs, OffsOf, Slot, TableAt, Walk;
    DirectPage(p);
    VirtToPhysExact(ram, own, root, DirectAddress(p));
    RunOffsets(DirectAddress(p), 0);
    assert VirtToOffs(DirectAddress(p)) == OffsOf(LOWER + p);
    assert Lookup(ram, root, LOWER + p) == if p in out then None else Some(Leaf(p, 3));
    TabledNotStray(ram, root, OffsOf(LOWER + p));
  }

  lemma TabledNotStray(ram: Ram, root: nat, o: Offs)
    requires TableAt(ram, root, P1(o.p4, o.p3, o.p2)).Some?
    ensures !StrayHuge(ram, root, o)
  {
  }

  /** The kernel heap over the page tables of `root`, whose direct map covers `count` frames. */
  class KernelHeap {
    const m: PageMapper
    const root: nat
    const count: nat
    ghost var live: Blocks

    ghost predicate Valid()
      reads this, m, m.pmm, m.pmm.bitmap
    {
      m.Valid() && HeapOk(m.ram, m.own, m.pmm.taken, root, count, live)
    }

    constructor (m: PageMapper, root: nat, count: nat)
      requires m.Valid() && HeapOk(m.ram, m.own, m.pmm.taken, root, count, map[])
      ensures Valid() && live == map[] && this.m == m && this.root == root && this.count == count
    {
      this.m, this.root, this.count, live := m, root, count, map[];
    }

    /** vmm_unmap of one direct-map page. */
    method UnmapDirect(p: nat, ghost out: set<nat>)
      requires m.Valid() && IsRoot(m.own, root) && p < count <= LOWER
      requires DirectView(m.ram, root, count, out) && TablesReady(m.ram, root, LOWER, count)
      modifies m, m.pmm, m.pmm.bitmap
      ensures m.Valid() && m.own == old(m.own) && m.pmm.taken == old(m.pmm.taken) && m.pmm.Drift() == old(m.pmm.Drift())
      ensures DirectView(m.ram, root, count, out + {p}) && TablesReady(m.ram, root, LOWER, count)
      ensures OnlyDirect(old(m.ram), m.ram, m.own, root, count)
    {
      hide PageMapper.Valid, FrameAllocator.Drift, DirectView, TablesReady, RunState, OnlyDirect;
      DirectPage(p);
      TablesReadyAt(m.ram, root, p, count);
      var ret := m.UnmapPages(DirectAddress(p), root, 1);
      DirectRun(old(m.ram), m.own, m.ram, root, Unmap, p, count, out);
    }

    /** vmm_map of one direct-map page to its own frame. */
    method MapDirect(p: nat, ghost out: set<nat>)
      requires m.Valid() && IsRoot(m.own, root) && p < count <= LOWER
      requires DirectView(m.ram, root, count, out) && TablesReady(m.ram, root, LOWER, count)
      modifies m, m.pmm, m.pmm.bitmap
      ensures m.Valid() && m.own == old(m.own) && m.pmm.taken == old(m.pmm.taken) && m.pmm.Drift() == old(m.pmm.Drift())
      ensures DirectView(m.ram, root, count, out - {p}) && TablesReady(m.ram, root, LOWER, count)
      ensures OnlyDirect(old(m.ram), m.ram, m.own, root, count)
    {
      hide PageMapper.Valid, FrameAllocator.Drift, DirectView, TablesReady, RunState, OnlyDirect;
      DirectPage(p);
      TablesReadyAt(m.ram, root, p, count);
      var ret := m.MapPages(p * 0x1000, DirectAddress(p), root, 1, 3);
      DirectRun(old(m.ram), m.own, m.ram, root, Map(p, 3), p, count, out);
    }

    /** A kernel store of one word through the direct map. */
    method StoreDirect(p: nat, i: nat, w: Word, ghost out: set<nat>)
      requires m.Valid() && IsRoot(m.own, root) && p < count <= LOWER && count <= |m.ram| && p !in m.own && i < 512
      requires DirectView(m.ram, root, count, out) && TablesReady(m.ram, root, LOWER, count)
      requires p !in out
      modifies m
      ensures m.Valid() && m.own == old(m.own)
      ensures DirectView(m.ram, root, count, out) && TablesReady(m.ram, root, LOWER, count)
      ensures |m.ram| == |old(m.ram)|
      ensures forall g: nat, j: nat :: Slot(m.ram, g, j) == if g == p && j == i then w else Slot(old(m.ram), g, j)
      ensures SameWalks(old(m.ram), m.ram, m.own)
    {
      hide FrameAllocator.Valid, TreeOk, DirectView, TablesReady, Slot, WriteSlot, SameWalks;
      var at := Lookup(m.ram, root, LOWER + p);
      assert at == Some(Leaf(p, 3)) by { DirectAt(m.ram, root, count, out, p); }
      WordWrite(m.ram, m.own, p, i, w, root, count, out);
      m.ram := WriteSlot(m.ram, at.value.frame, i, w);
    }

    /** kmalloc: the address just past the header page; `None` when the allocator halts. */
    method Kmalloc(size: nat) returns (addr: Option<nat>, ghost b: nat)
      requires Valid()
      modifies this, m, m.pmm, m.pmm.bitmap
      ensures Valid() && m.own == old(m.own) && m.pmm.Drift() == old(m.pmm.Drift())
      ensures addr.None? ==> live == old(live) && m.ram == old(m.ram) && m.pmm.taken == old(m.pmm.taken)
      ensures addr.None? ==> forall p :: 0 <= p ==> !FreeRun(m.pmm.taken, m.pmm.MaxPage(), p, BlockPages(size))
      ensures addr.Some? ==> addr.value == Payload(b) && b !in old(live) && live == old(live)[b := size]
      ensures addr.Some? ==> addr.value == 0xFFFF_8000_0000_0000 + (b + 1) * 0x1000
      ensures addr.Some? ==> LowestRun(old(m.pmm.taken), m.pmm.MaxPage(), b, BlockPages(size))
      ensures addr.Some? ==> m.pmm.taken == old(m.pmm.taken) + Range(b, BlockPages(size))
      ensures addr.Some? ==> HeapStep(old(m.ram), m.ram, m.own, root, count, b)
    {
      hide FrameAllocator.Valid, FrameAllocator.Drift, TreeOk, HeapOk, DirectView, TablesReady, Slot, SameWalks;
      hide OnlyDirect, HeapStep, Guards, Range, IsRoot, BlockPages, FreeRun;
      HeapFacts(m.ram, m.own, m.pmm.taken, root, count, live);
      b := 0;
      var phys := m.pmm.Alloc(size + 0x2000);
      LastPageFound(b, size);
      if phys.None? {
        return None, 0;
      }
      b := phys.value / 0x1000;
      var page := phys.value / 0x1000;
      var last := page + Pages(size + 0x2000) - 1;
      FreshBlock(m.ram, m.own, old(m.pmm.taken), root, count, live, b, size);
      ghost var out := Guards(live);
      UnmapDirect(last, out);
      ghost var ram1 := m.ram;
      StoreDirect(page, 0, ToWord(size + 0x2000), out + {last});
      ghost var mid := m.ram;
      StoreDirect(page, 1, ToWord(SIGNATURE), out + {last});
      SameWalksTransitive(ram1, mid, m.ram, m.own);
      ghost var ram2 := m.ram;
      UnmapDirect(page, out + {last});
      HeapStepDone(old(m.ram), ram1, ram2, m.ram, m.own, root, count, b);
      HeaderKept(ram2, m.ram, m.own, root, count, b, size);
      BlockAdded(old(m.ram), m.own, old(m.pmm.taken), root, count, live, b, size, m.ram);
      live := live[b := size];
      addr := Some(DirectAddress(page) + 0x1000);
    }

    /** kfree. The caller passes back what kmalloc returned for the live block `b`; an address that
        is not page aligned is also answered. */
    method Kfree(addr: nat, ghost b: nat) returns (outcome: FreeOutcome)
      requires Valid()
      requires addr % 0x1000 == 0 ==> b in live && addr == Payload(b)
      modifies this, m, m.pmm, m.pmm.bitmap
      ensures Valid() && m.own == old(m.own)
      ensures outcome == Panicked <==> addr % 0x1000 != 0 || old(live)[b] == 0
      ensures outcome == Panicked ==> live == old(live) && m.ram == old(m.ram) && m.pmm.taken == old(m.pmm.taken)
      ensures outcome == Freed ==> live == old(live) - {b} && m.pmm.Drift() == old(m.pmm.Drift())
      ensures outcome == Freed ==> m.pmm.taken == old(m.pmm.taken) - Range(b, BlockPages(old(live)[b]))
      ensures outcome == Freed ==> OnlyDirect(old(m.ram), m.ram, m.own, root, count)
    {
      hide FrameAllocator.Valid, FrameAllocator.Drift, TreeOk, HeapOk, DirectView, TablesReady, Slot, OnlyDirect;
      hide Guards, Range, IsRoot, BlockPages;
      if addr % 0x1000 != 0 {
        return Panicked;
      }
      HeapFacts(m.ram, m.own, m.pmm.taken, root, count, live);
      ghost var size := live[b];
      LiveBlock(m.ram, m.own, m.pmm.taken, root, count, live, b);
      ghost var out := Guards(live);
      DirectTranslation(m.ram, m.own, root, count, out, b + 1);
      if VirtToPhys(m.ram, root, addr) == None {
        return Panicked;
      }
      var page := (addr - 0x1000 - DIRECT) / 0x1000;
      assert page == b;
      MapDirect(page, out);
      ghost var ram1 := m.ram;
      HeaderKept(old(m.ram), m.ram, m.own, root, count, b, size);
      var sizeData := Value(Slot(m.ram, page, 0));
      ValueOfWord(size + 0x2000);
      var lastPage := addr + ((sizeData - 0x1000 + 0x1000 - 1) / 0x1000 - 1) * 0x1000;
      LastPageFound(b, size);
      var last := (lastPage - DIRECT) / 0x1000;
      assert last == Last(b, size);
      MapDirect(last, out - {page});
      OnlyDirectTransitive(old(m.ram), ram1, m.ram, m.own, root, count);
      HeaderKept(old(m.ram), m.ram, m.own, root, count, b, size);
      ValueOfWord(SIGNATURE);
      assert Value(Slot(m.ram, page, 1)) == SIGNATURE;
      DirectTranslation(m.ram, m.own, root, count, out - {page} - {last}, page);
      var phys := VirtToPhys(m.ram, root, addr - 0x1000);
      assert phys == Some(page * 0x1000);
      assert phys.value / 0x1000 == b && Pages(sizeData) == BlockPages(size);
      var ok := m.pmm.Unalloc(phys.value, sizeData);
      BlockRemoved(old(m.ram), m.own, old(m.pmm.taken), root, count, live, b, m.ram);
      live := live - {b};
      outcome := Freed;
    }

    /** The owner of block `b` writes a word of its payload. */
    method Poke(b: nat, p: nat, i: nat, w: Word)
      requires Valid() && b in live && b < p < Last(b, live[b]) && i < 512
      modifies m
      ensures Valid() && m.own == old(m.own)
      ensures forall g: nat, j: nat :: Slot(m.ram, g, j) == if g == p && j == i then w else Slot(old(m.ram), g, j)
    {
      hide FrameAllocator.Valid, TreeOk, HeapOk, DirectView, TablesReady, Slot, SameWalks, Guards, Range, IsRoot;
      hide BlockPages;
      HeapFacts(m.ram, m.own, m.pmm.taken, root, count, live);
      LiveBlock(m.ram, m.own, m.pmm.taken, root, count, live, b);
      StoreDirect(p, i, w, Guards(live));
      PayloadWritten(old(m.ram), m.own, m.pmm.taken, root, count, live, b, p, m.ram);
    }
  }

  lemma PayloadWritten(ram: Ram, own: Owners, taken: set<nat>, root: nat, count: nat, live: Blocks, b: nat, p: nat,
                       ram': Ram)
    requires HeapOk(ram, own, taken, root, count, live) && b in live && b < p < Last(b, live[b]) && |ram'| == |ram|
    requires DirectView(ram', root, count, Guards(live)) && TablesReady(ram', root, LOWER, count)
    requires forall g: nat, j: nat :: g != p ==> Slot(ram', g, j) == Slot(ram, g, j)
    ensures HeapOk(ram', own, taken, root, count, live)
  {
    hide DirectView, TablesReady, Slot, ToWord, Guards, IsRoot, Pages;
    forall c | c in live ensures HeaderOk(ram', c, live[c]) {
      assert c != p;
    }
  }

  /** What every reachable heap guarantees: payload pages are mapped to their own frames, the page
      before and the page after each payload are unmapped, blocks are apart, and a free frame is
      always reachable through the direct map. */
  lemma HeapGuarantees(ram: Ram, own: Owners, taken: set<nat>, root: nat, count: nat, live: Blocks)
    requires HeapOk(ram, own, taken, root, count, live)
    ensures forall b, p :: b in live && b < p < Last(b, live[b]) ==> Lookup(ram, root, LOWER + p) == Some(Leaf(p, 3))
    ensures forall b :: b in live ==>
            Lookup(ram, root, LOWER + b) == None && Lookup(ram, root, LOWER + Last(b, live[b])) == None
    ensures forall b, c :: b in live && c in live && b < c ==> Last(b, live[b]) < c
    ensures forall b :: b in live ==>
            Value(Slot(ram, b, 0)) == live[b] + 0x2000 && Value(Slot(ram, b, 1)) == 0xf100_f333_f100_f333
    ensures forall p :: 0 <= p < |ram| && p !in taken ==> Lookup(ram, root, LOWER + p) == Some(Leaf(p, 3))
  {
    hide Lookup, TablesReady, Slot, IsRoot, Guards, Range, Pages;
    HeapFacts(ram, own, taken, root, count, live);
    forall b | b in live
      ensures Lookup(ram, root, LOWER + b) == None && Lookup(ram, root, LOWER + Last(b, live[b])) == None
      ensures forall p :: b < p < Last(b, live[b]) ==> Lookup(ram, root, LOWER + p) == Some(Leaf(p, 3))
    {
      LiveBlock(ram, own, taken, root, count, live, b);
    }
    forall b | b in live
      ensures Value(Slot(ram, b, 0)) == live[b] + 0x2000 && Value(Slot(ram, b, 1)) == 0xf100_f333_f100_f333
    {
      assert HeaderOk(ram, b, live[b]);
      ValueOfWord(live[b] + 0x2000);
      ValueOfWord(SIGNATURE);
    }
  }

  /** One byte of the direct map. */
  lemma DirectByte(ram: Ram, own: Owners, root: nat, p: nat, r: nat)
    requires TreeOk(ram, own) && IsRoot(own, root) && LOWER + p < VPAGES && r < 0x1000
    ensures match Lookup(ram, root, LOWER + p)
            case None => MmuAddress(ram, root, 0xFFFF_8000_0000_0000 + p * 0x1000 + r) == None
            case Some(leaf) =>
              && MmuAddress(ram, root, 0xFFFF_8000_0000_0000 + p * 0x1000 + r) == Some(leaf.frame * 0x1000 + r)
              && Granted(ram, root, VirtToOffs(0xFFFF_8000_0000_0000 + p * 0x1000 + r)) == Some(AccessBits(leaf.flags))
  {
    hide TreeOk, IsRoot, VirtToOffs, OffsOf, Walk, Granted, AccessBits, PageNo;
    var v := DirectAddress(p) + r;
    DirectPage(p);
    assert PageNo(v) == LOWER + p by { SamePage(DirectAddress(p), r); }
    InPageOffsets(v, 0);
    RunOffsets(v, 0);
    PageOfOffsOf(LOWER + p);
    GrantedByLeaf(ram, own, root, OffsOf(LOWER + p));
    assert v % 0x1000 == r;
  }

  lemma SamePage(addr: nat, r: nat)
    requires addr % 0x1000 == 0 && r < 0x1000
    ensures PageNo(addr + r) == PageNo(addr)
  {
    assert (addr + r) / 0x1000 == addr / 0x1000;
  }

  /** Where the pages of a block end. */
  lemma BlockEnd(b: nat, size: nat)
    ensures Last(b, size) == b + 1 + (size + 0xfff) / 0x1000
  {
  }

  /** Every byte asked for is backed by its own byte of memory, writable and for the kernel alone, and
      the pages before the first and after the last are not there. `x` is the physical address. */
  lemma BlockByte(ram: Ram, own: Owners, taken: set<nat>, root: nat, count: nat, live: Blocks, b: nat, x: nat)
    requires TreeOk(ram, own) && HeapOk(ram, own, taken, root, count, live) && b in live
    ensures (b + 1) * 0x1000 <= x < (b + 1) * 0x1000 + live[b] ==>
              && MmuAddress(ram, root, 0xFFFF_8000_0000_0000 + x) == Some(x)
              && Granted(ram, root, VirtToOffs(0xFFFF_8000_0000_0000 + x)) == Some(Access(true, false))
    ensures b * 0x1000 <= x < (b + 1) * 0x1000 ==> MmuAddress(ram, root, 0xFFFF_8000_0000_0000 + x) == None
    ensures var end := (b + 1 + (live[b] + 0xfff) / 0x1000) * 0x1000;
            end <= x < end + 0x1000 ==> MmuAddress(ram, root, 0xFFFF_8000_0000_0000 + x) == None
  {
    hide TreeOk, HeapOk, Lookup, MmuAddress, Granted, VirtToOffs, IsRoot, BlockPages, Last;
    HeapGuarantees(ram, own, taken, root, count, live);
    LiveFits(ram, own, taken, root, count, live, b);
    BlockEnd(b, live[b]);
    var q, r := DivMod(x, 0x1000);
    if b <= q <= Last(b, live[b]) {
      DirectByte(ram, own, root, q, r);
      if b < q < Last(b, live[b]) {
        assert Lookup(ram, root, LOWER + q) == Some(Leaf(q, 3));
      }
    }
  }

  lemma LiveFits(ram: Ram, own: Owners, taken: set<nat>, root: nat, count: nat, live: Blocks, b: nat)
    requires HeapOk(ram, own, taken, root, count, live) && b in live
    ensures IsRoot(own, root) && Last(b, live[b]) < LOWER
  {
    hide DirectView, TablesReady, Guards, BlockPages, HeaderOk;
  }

  /** A block freed right after it was handed out leaves the allocator's bytes and counters, and
      every translation of the address space, as they were. */
  method KmallocThenKfree(h: KernelHeap, size: nat) returns (outcome: Option<FreeOutcome>)
    requires h.Valid()
    modifies h, h.m, h.m.pmm, h.m.pmm.bitmap
    ensures h.Valid()
    ensures outcome.Some? ==> (outcome.value == Freed <==> size > 0)
    ensures outcome == Some(Freed) ==> h.live == old(h.live) && h.m.pmm.bitmap[..] == old(h.m.pmm.bitmap[..])
    ensures outcome == Some(Freed) ==> h.m.pmm.used == old(h.m.pmm.used) && h.m.pmm.available == old(h.m.pmm.available)
    ensures outcome == Some(Freed) ==> forall u :: 0 <= u < VPAGES ==>
            Lookup(h.m.ram, h.root, u) == Lookup(old(h.m.ram), h.root, u)
  {
    hide TreeOk, HeapOk, HeapStep, OnlyDirect, TakenPages, LowestRun, FreeRun, Range, BlockPages, Lookup;
    var addr, b := h.Kmalloc(size);
    if addr.None? {
      return None;
    }
    DirectAligned(b);
    ghost var mid := h.m.ram;
    var res := h.Kfree(addr.value, b);
    outcome := Some(res);
    if res == Freed {
      assert old(h.m.pmm.taken) !! Range(b, BlockPages(size)) by {
        RunIsFree(old(h.m.pmm.taken), h.m.pmm.MaxPage(), b, BlockPages(size));
      }
      assert h.live == old(h.live);
      TakenPagesDetermineBitmap(h.m.pmm.bitmap[..], old(h.m.pmm.bitmap[..]));
      SameViewAgain(old(h.m.ram), mid, h.m.ram, h.m.own, old(h.m.pmm.taken), h.root, h.count, h.live, b);
    }
  }

  lemma DirectAligned(b: nat)
    ensures Payload(b) % 0x1000 == 0
  {
  }

  lemma RunIsFree(taken: set<nat>, max: nat, b: nat, n: nat)
    requires LowestRun(taken, max, b, n)
    ensures taken !! Range(b, n)
  {
  }

  lemma SameViewAgain(ram0: Ram, ram1: Ram, ram2: Ram, own: Owners, taken: set<nat>, root: nat, count: nat,
                      live: Blocks, b: nat)
    requires HeapStep(ram0, ram1, own, root, count, b) && OnlyDirect(ram1, ram2, own, root, count)
    requires HeapOk(ram0, own, taken, root, count, live) && HeapOk(ram2, own, taken, root, count, live)
    ensures forall u :: 0 <= u < VPAGES ==> Lookup(ram2, root, u) == Lookup(ram0, root, u)
  {
    hide Lookup, TablesReady, BlocksOk, Slot, OthersKept, IsRoot, Guards;
  }

  datatype Request = Get(size: nat) | Put(base: nat) | Write(base: nat, page: nat, index: nat, word: Word)

  /** Any run of allocations, frees of blocks held and writes to their payloads keeps the heap in
      order, and no page is freed twice. `held` is what the run still holds. */
  method Serve(h: KernelHeap, requests: seq<Request>) returns (done: bool, held: Blocks)
    requires h.Valid() && h.live == map[]
    modifies h, h.m, h.m.pmm, h.m.pmm.bitmap
    ensures h.Valid() && h.live == held && h.m.own == old(h.m.own) && h.m.pmm.Drift() == old(h.m.pmm.Drift())
  {
    hide KernelHeap.Valid, FrameAllocator.Drift, LowestRun, FreeRun, Range, BlockPages, HeapStep, OnlyDirect, Slot;
    held := map[];
    for k := 0 to |requests|
      invariant h.Valid() && h.live == held && h.m.own == old(h.m.own) && h.m.pmm.Drift() == old(h.m.pmm.Drift())
    {
      match requests[k] {
        case Get(size) =>
          var addr, b := h.Kmalloc(size);
          if addr.None? {
            return false, held;
          }
          var base := (addr.value - DIRECT) / 0x1000 - 1;
          assert base == b;
          held := held[base := size];
        case Put(base) =>
          if base in held && held[base] > 0 {
            DirectAligned(base);
            var outcome := h.Kfree(Payload(base), base);
            held := held - {base};
          }
        case Write(base, page, index, word) =>
          if base in held && base < page < Last(base, held[base]) && index < 512 {
            h.Poke(base, page, index, word);
          }
      }
    }
    done := true;
  }

  /** A page that translates through 4 KiB entries has its P1 table. */
  lemma MappedHasTable(ram: Ram, own: Owners, root: nat, u: nat)
    requires TreeOk(ram, own) && IsRoot(own, root) && u < VPAGES && Lookup(ram, root, u).Some?
    requires NoHugeIn(ram, own, Space(root, OffsOf(u).p4))
    ensures TableAt(ram, root, P1(OffsOf(u).p4, OffsOf(u).p3, OffsOf(u).p2)).Some?
  {
    hide OffsOf, Slot, LeafOf;
    PageOfOffsOf(u);
    var o := OffsOf(u);
    PresentChild(ram, own, root, o.p4);
    var p3 := Slot(ram, root, o.p4).hi;
    PresentChild(ram, own, p3, o.p3);
    var p2 := Slot(ram, p3, o.p3).hi;
    assert !Huge(Slot(ram, p2, o.p2));
  }

  /** The end of pmm_memory_setup: a blank root, then the direct map of `count` frames. */
  method Boot(m: PageMapper, count: nat) returns (root: Option<nat>)
    requires m.Valid() && m.own == map[] && count <= |m.ram| && count <= LOWER
    requires forall p :: count <= p < |m.ram| ==> p in m.pmm.taken
    modifies m, m.pmm, m.pmm.bitmap
    ensures m.Valid()
    ensures if root.Some? then HeapOk(m.ram, m.own, m.pmm.taken, root.value, count, map[]) else m.Exhausted()
  {
    hide FrameAllocator.Valid, TreeOk, RunState, Lookup, Slot, HeapOk, NoHugeIn, ZeroPage, PageNo, DirectAddress;
    root := m.NewFrame();
    if root.None? {
      return;
    }
    AddRoot(m.ram, m.own, root.value, ZeroPage());
    m.ram := m.ram[root.value := ZeroPage()];
    m.own := m.own[root.value := Tag(root.value, P4)];
    DirectPage(0);
    assert forall i: nat :: i < 512 ==> Slot(m.ram, root.value, i) == ZeroPage()[i];
    BlankRoot(m.ram, m.own, root.value);
    hide IsRoot;
    label built:
    var ret := m.MapPages(0, DirectAddress(0), root.value, count, 3);
    if ret.None? {
      return None;
    }
    assert PageNo(DirectAddress(0)) == LOWER;
    assert Map(0 / 0x1000, 3) == Map(0, 3);
    assert RunState(old@built(m.ram), old@built(m.own), m.ram, m.own, root.value, Map(0, 3),
        PageNo(DirectAddress(0)), count);
    BootView(old@built(m.ram), old@built(m.own), m.ram, m.own, m.pmm.taken, root.value, count);
  }

  lemma BlankRoot(ram: Ram, own: Owners, root: nat)
    requires own == map[root := Tag(root, P4)] && forall i: nat :: i < 512 ==> Slot(ram, root, i) == ZERO
    ensures NoHugeIn(ram, own, 0)
    ensures forall u :: 0 <= u < VPAGES ==> Lookup(ram, root, u) == None
  {
    hide OffsOf, Slot;
    forall u: nat | u < VPAGES ensures Lookup(ram, root, u) == None {
      PageOfOffsOf(u);
    }
  }

  lemma BootView(ram0: Ram, own0: Owners, ram: Ram, own: Owners, taken: set<nat>, root: nat, count: nat)
    requires RunState(ram0, own0, ram, own, root, Map(0, 3), LOWER, count) && count <= LOWER
    requires NoHugeIn(ram0, own0, 0) && forall u :: 0 <= u < VPAGES ==> Lookup(ram0, root, u) == None
    requires count <= |ram| && forall p :: count <= p < |ram| ==> p in taken
    ensures HeapOk(ram, own, taken, root, count, map[])
  {
    hide TreeOk, Lookup, OffsOf, Slot, TableAt, TablesAdded, TablesKept, OnlyTablesOf, RootSlotsKept, OthersKept;
    forall u: nat | LOWER <= u < LOWER + count
      ensures Lookup(ram, root, u) == Some(Leaf(u - LOWER, 3))
      ensures TableAt(ram, root, P1(OffsOf(u).p4, OffsOf(u).p3, OffsOf(u).p2)).Some?
    {
      PageOfOffsOf(u);
      MappedHasTable(ram, own, root, u);
    }
  }

  lemma TablesReadyAt(ram: Ram, root: nat, p: nat, count: nat)
    requires TablesReady(ram, root, LOWER, count) && p < count
    ensures TablesReady(ram, root, LOWER + p, 1)
  {
  }
}
