/** The kernel's page-table operations on physical memory and the frame allocator
    (src/mm/vmm.c). Where the kernel halts for want of a free frame the methods report it. */
module Vmm {
  import opened Common
  import opened Pmm
  import opened PageTables
  import opened VirtualPages

  /** Tables are only ever added, each to the half of the address space it serves. */
  ghost predicate TablesAdded(own: Owners, own': Owners, s: nat) {
    && (forall f :: f in own ==> f in own' && own'[f] == own[f])
    && (forall f :: f in own' && f !in own ==> own'[f].space == s && !own'[f].node.P4?)
  }

  /** The frames taken are exactly the new tables, and each was free. */
  ghost predicate TookTables(taken: set<nat>, own: Owners, taken': set<nat>, own': Owners) {
    && own.Keys <= own'.Keys && (own'.Keys - own.Keys) !! taken
    && taken' == taken + (own'.Keys - own.Keys)
  }

  /** Only tables of `root`, or of the half `s` being changed, are written. */
  ghost predicate OnlyTablesOf(ram: Ram, ram': Ram, own: Owners, root: nat, s: nat) {
    |ram'| == |ram| &&
    forall f :: 0 <= f < |ram| && ram'[f] != ram[f] ==> f in own && (own[f].space == root || own[f].space == s)
  }

  /** In the root itself, present slots and all slots of the other half stay as they are. */
  ghost predicate RootSlotsKept(ram: Ram, ram': Ram, root: nat, s: nat) {
    forall i: nat :: Present(Slot(ram, root, i)) || Space(root, i) != s ==> Slot(ram', root, i) == Slot(ram, root, i)
  }

  /** The half `s` of the tables holds no 2 MiB entry. */
  ghost predicate NoHugeIn(ram: Ram, own: Owners, s: nat) {
    forall f, i :: f in own && own[f].space == s && own[f].node.P2? && 0 <= i < 512 ==> !Huge(Slot(ram, f, i))
  }

  /** No half acquires a 2 MiB entry. */
  ghost predicate HugeFreeKept(ram: Ram, own: Owners, ram': Ram, own': Owners) {
    forall s :: NoHugeIn(ram, own, s) ==> NoHugeIn(ram', own', s)
  }

  /** Tables may have appeared but nothing translates differently. */
  ghost predicate Grown(ram: Ram, own: Owners, ram': Ram, own': Owners, root: nat, s: nat) {
    && TablesAdded(own, own', s) && OnlyTablesOf(ram, ram', own', root, s)
    && SameWalks(ram, ram', own) && TablesKept(ram, ram', own) && RootSlotsKept(ram, ram', root, s)
    && HugeFreeKept(ram, own, ram', own')
  }

  lemma TableFacts(ram: Ram, own: Owners, f: nat)
    requires TreeOk(ram, own) && f in own
    ensures RamOk(ram) && 0 < f < |ram| && |ZeroPage()| == 512
  {
  }

  /** Above the last level, a present entry that is not a 2 MiB entry leads to the table tagged
      for it; only a P2 holds 2 MiB entries. */
  lemma PresentChild(ram: Ram, own: Owners, f: nat, i: nat)
    requires TreeOk(ram, own) && f in own && !own[f].node.P1? && i < 512 && Present(Slot(ram, f, i))
    requires own[f].node.P2? ==> !Huge(Slot(ram, f, i))
    ensures Child(ram, Some(f), i) == Some(Slot(ram, f, i).hi)
    ensures Slot(ram, f, i).hi in own && own[Slot(ram, f, i).hi] == ChildTag(own[f], i)
  {
    assert SlotOk(Slot(ram, f, i), own, own[f], i);
  }

  lemma GrownKeepsTable(ram: Ram, own: Owners, ram': Ram, own': Owners, root: nat, s: nat, n: Node)
    requires Grown(ram, own, ram', own', root, s) && IsRoot(own, root) && TableAt(ram, root, n).Some?
    ensures TableAt(ram', root, n) == TableAt(ram, root, n)
  {
  }

  lemma TreeFacts(ram: Ram, own: Owners)
    requires TreeOk(ram, own)
    ensures RamOk(ram) && Typed(ram, own)
  {
  }

  lemma TableStays(own0: Owners, own: Owners, ram0: Ram, ram: Ram, f: nat, root: nat)
    requires f in own0 && IsRoot(own0, root) && Grown(ram0, own0, ram, own, root, own0[f].space)
    ensures f in own && own[f] == own0[f] && IsRoot(own, root)
  {
  }

  lemma GrownReflexive(ram: Ram, own: Owners, root: nat, s: nat)
    ensures Grown(ram, own, ram, own, root, s)
  {
  }

  lemma GrownTransitive(ram: Ram, own: Owners, ram1: Ram, own1: Owners, ram2: Ram, own2: Owners, root: nat, s: nat)
    requires Grown(ram, own, ram1, own1, root, s) && Grown(ram1, own1, ram2, own2, root, s)
    ensures Grown(ram, own, ram2, own2, root, s)
  {
    hide Walk, TableAt;
    forall f | 0 <= f < |ram| && ram2[f] != ram[f] ensures f in own2 && (own2[f].space == root || own2[f].space == s) {
      if ram1[f] != ram[f] { assert f in own1; }
    }
  }

  /** Hanging a fresh table that repeats what its slot said is growth. */
  lemma HangIsGrown(ram: Ram, own: Owners, f: nat, i: nat, g: nat, p: Page, root: nat)
    requires TreeOk(ram, own) && f in own && !own[f].node.P1? && i < 512
    requires 0 < g < |ram| && g !in own
    requires if Present(Slot(ram, f, i))
             then Huge(Slot(ram, f, i)) && own[f].node.P2? && p == SplitPage(Slot(ram, f, i))
             else p == ZeroPage()
    requires own[f].space == root || own[f].space == ChildTag(own[f], i).space
    requires IsRoot(own, root)
    ensures own[f].node.P2? ==> ChildTag(own[f], i).space == own[f].space
    ensures var ram', own' := Hang(ram, f, i, g, p), own[g := ChildTag(own[f], i)];
            TreeOk(ram', own') && Grown(ram, own, ram', own', root, ChildTag(own[f], i).space)
    ensures Slot(Hang(ram, f, i, g, p), f, i) == TableEntry(g)
    ensures forall k: nat :: k < 512 ==> Slot(Hang(ram, f, i, g, p), g, k) == p[k]
  {
    hide Walk, TableAt, Slot, Hang, TablesKept, SameWalks, TreeOk;
    TableFacts(ram, own, f);
    HangKeepsTree(ram, own, f, i, g, p);
    SlotAfterHang(ram, f, i, g, p);
    HangTouches(ram, f, i, g, p);
    if Present(Slot(ram, f, i)) {
      SplitTable(ram, own, f, i, g);
    } else {
      InstallTable(ram, own, f, i, g);
    }
  }

  lemma HangTouches(ram: Ram, f: nat, i: nat, g: nat, p: Page)
    requires RamOk(ram) && f < |ram| && g < |ram| && i < 512 && |p| == 512 && f != g
    ensures forall h :: 0 <= h < |ram| && h != f && h != g ==> Hang(ram, f, i, g, p)[h] == ram[h]
  {
  }

  /** The half of the address space that page `v` of `root` lies in. */
  function HalfOf(root: nat, v: nat): nat {
    if v < LOWER then root else 0
  }

  /** A run of pages within one canonical half. */
  predicate InOneHalf(v: nat, count: nat) {
    v + count <= LOWER || (LOWER <= v && v + count <= VPAGES)
  }

  /** The page number of an address, as far as the tables look at it. */
  function PageNo(virt: nat): nat {
    virt / 0x1000 % VPAGES
  }

  /** The offsets of page `n` of a run that stays in one half. */
  lemma RunOffsets(virt: nat, n: nat)
    requires PageNo(virt) + n < VPAGES
    ensures VirtToOffs(virt - virt % 0x1000 + n * 0x1000) == OffsOf(PageNo(virt) + n)
  {
    var cur := virt - virt % 0x1000 + n * 0x1000;
    VirtToOffsIsOffsOf(cur);
    assert cur / 0x1000 == virt / 0x1000 + n;
    var q := virt / 0x1000 / VPAGES;
    assert cur / 0x1000 == q * VPAGES + (PageNo(virt) + n);
    OffsOfWraps(PageNo(virt) + n, q);
  }

  lemma OffsOfWraps(v: nat, q: nat)
    ensures OffsOf(q * 0x10_0000_0000 + v) == OffsOf(v)
  {
    FieldWraps(v, q, 0x800_0000, 512);
    FieldWraps(v, q * 512, 0x4_0000, 512);
    FieldWraps(v, q * 0x4_0000, 512, 512);
    FieldWraps(v, q * 0x800_0000, 1, 512);
  }

  /** How far a page operation on `[v, ...)` of `root` has got after `n` pages. */
  ghost predicate RunState(ram0: Ram, own0: Owners, ram: Ram, own: Owners, root: nat, op: PageOp, v: nat, n: nat) {
    && TreeOk(ram, own) && IsRoot(own, root)
    && TablesAdded(own0, own, HalfOf(root, v))
    && OnlyTablesOf(ram0, ram, own, root, HalfOf(root, v))
    && TablesKept(ram0, ram, own0) && RootSlotsKept(ram0, ram, root, HalfOf(root, v))
    && HugeFreeKept(ram0, own0, ram, own)
    && Updated(ram0, ram, root, op, v, n)
    && OthersKept(ram0, ram, own0, root)
  }

  lemma RunStarts(ram: Ram, own: Owners, root: nat, op: PageOp, v: nat)
    requires TreeOk(ram, own) && IsRoot(own, root)
    ensures RunState(ram, own, ram, own, root, op, v, 0)
  {
  }

  /** Making the tables for the next page leaves the run where it was. */
  lemma RunGrows(ram0: Ram, own0: Owners, ram: Ram, own: Owners, ram1: Ram, own1: Owners, root: nat, op: PageOp,
                 v: nat, n: nat)
    requires RunState(ram0, own0, ram, own, root, op, v, n)
    requires TreeOk(ram1, own1) && Grown(ram, own, ram1, own1, root, HalfOf(root, v))
    ensures RunState(ram0, own0, ram1, own1, root, op, v, n) && own0.Keys <= own.Keys <= own1.Keys
  {
    hide Walk, TableAt, TreeOk, Wanted;
    assert OnlyTablesOf(ram0, ram1, own1, root, HalfOf(root, v)) by {
      forall f | 0 <= f < |ram0| && ram1[f] != ram0[f]
        ensures f in own1 && (own1[f].space == root || own1[f].space == HalfOf(root, v))
      {
        if ram[f] != ram0[f] { assert f in own; }
      }
    }
    forall u | 0 <= u < VPAGES ensures Lookup(ram1, root, u) == Lookup(ram, root, u) {
      PageOfOffsOf(u);
    }
    forall r, u | IsRoot(own0, r) && 0 <= u < LOWER ensures Lookup(ram1, r, u) == Lookup(ram, r, u) {
      PageOfOffsOf(u);
    }
  }

  /** Writing the P1 slot of the next page takes the run one page further. */
  lemma RunWrites(ram0: Ram, own0: Owners, ram: Ram, own: Owners, root: nat, op: PageOp, v: nat, n: nat, p1: nat)
    requires RunState(ram0, own0, ram, own, root, op, v, n)
    requires v + n < VPAGES && InOneHalf(v, n + 1)
    requires var o := OffsOf(v + n); TableAt(ram, root, P1(o.p4, o.p3, o.p2)) == Some(p1)
    ensures p1 < |ram| && OffsOf(v + n).p1 < |ram[p1]|
    ensures var o := OffsOf(v + n);
            var ram1 := WriteSlot(ram, p1, o.p1, NewEntry(op, n, Slot(ram, p1, o.p1)));
            RunState(ram0, own0, ram1, own, root, op, v, n + 1)
    ensures LeafOf(Slot(ram, p1, OffsOf(v + n).p1)) == Lookup(ram0, root, v + n)
  {
    hide Walk, TableAt, TreeOk, Wanted, LeafOf, Updated, OthersKept, OffsOf, Slot, WriteSlot;
    PageOfOffsOf(v + n);
    var o := OffsOf(v + n);
    PageStep(ram0, ram, own0, own, root, op, v, n, p1);
    var e := NewEntry(op, n, Slot(ram, p1, o.p1));
    LeafWrite(ram, own, p1, o.p1, e);
    WriteTouchesOne(ram, p1, o.p1, e);
    TreeFacts(ram, own);
    SlotAfterWrite(ram, p1, o.p1, e);
  }

  lemma WriteSame(ram: Ram, f: nat, i: nat)
    requires f < |ram| && i < |ram[f]|
    ensures WriteSlot(ram, f, i, Slot(ram, f, i)) == ram
  {
    assert ram[f][i := ram[f][i]] == ram[f];
  }

  lemma WriteTouchesOne(ram: Ram, f: nat, i: nat, e: Word)
    requires f < |ram| && i < |ram[f]|
    ensures forall g :: 0 <= g < |ram| && g != f ==> WriteSlot(ram, f, i, e)[g] == ram[g]
  {
  }

  lemma RunFacts(ram0: Ram, own0: Owners, ram: Ram, own: Owners, root: nat, op: PageOp, v: nat, n: nat)
    requires RunState(ram0, own0, ram, own, root, op, v, n)
    ensures TreeOk(ram, own) && IsRoot(own, root) && TablesKept(ram0, ram, own0)
  {
  }

  /** What a finished run promises, page by page. */
  lemma RunDoes(ram0: Ram, own0: Owners, ram: Ram, own: Owners, root: nat, op: PageOp, v: nat, n: nat)
    requires RunState(ram0, own0, ram, own, root, op, v, n) && v + n <= VPAGES
    ensures forall u :: v <= u < v + n ==> Does(op, u - v, Lookup(ram0, root, u), Lookup(ram, root, u))
    ensures forall u :: 0 <= u < VPAGES && !(v <= u < v + n) ==> Lookup(ram, root, u) == Lookup(ram0, root, u)
  {
    hide TreeOk, TablesAdded, OnlyTablesOf, TablesKept, RootSlotsKept, HugeFreeKept, OthersKept, Lookup, Wanted, Does;
    forall u | v <= u < v + n ensures Does(op, u - v, Lookup(ram0, root, u), Lookup(ram, root, u)) {
      WantedDoes(op, u - v, Lookup(ram0, root, u));
    }
  }

  /** Some page of the run translates. */
  ghost predicate AnyMapped(ram: Ram, root: nat, v: nat, n: nat) {
    exists u :: v <= u < v + n && Lookup(ram, root, u).Some?
  }

  ghost predicate AllMapped(ram: Ram, root: nat, v: nat, n: nat) {
    forall u :: v <= u < v + n ==> Lookup(ram, root, u).Some?
  }

  lemma InPageOffsets(virt: nat, n: nat)
    ensures VirtToOffs(virt + n * 0x1000) == VirtToOffs(virt - virt % 0x1000 + n * 0x1000)
  {
    hide VirtToOffs, OffsOf;
    VirtToOffsIsOffsOf(virt + n * 0x1000);
    VirtToOffsIsOffsOf(virt - virt % 0x1000 + n * 0x1000);
    assert (virt + n * 0x1000) / 0x1000 == (virt - virt % 0x1000 + n * 0x1000) / 0x1000;
  }

  /** Every page of the run already has its P1 table. */
  ghost predicate TablesReady(ram: Ram, root: nat, v: nat, n: nat) {
    forall u :: v <= u < v + n ==> TableAt(ram, root, P1(OffsOf(u).p4, OffsOf(u).p3, OffsOf(u).p2)).Some?
  }

  class PageMapper {
    const pmm: FrameAllocator
    var ram: Ram
    ghost var own: Owners

    ghost predicate Valid()
      reads this, pmm, pmm.bitmap
    {
      && pmm.Valid() && |ram| == pmm.MaxPage()
      && TreeOk(ram, own) && own.Keys <= pmm.taken
    }

    /** Boot: no address space yet. */
    constructor (pmm: FrameAllocator, ram: Ram)
      requires pmm.Valid() && |ram| == pmm.MaxPage() && RamOk(ram)
      ensures Valid() && this.pmm == pmm && this.ram == ram && own == map[]
    {
      this.pmm := pmm;
      this.ram := ram;
      own := map[];
    }

    /** No frame is free, which is when the kernel halts. */
    ghost predicate Exhausted()
      reads this, pmm, pmm.bitmap
    {
      forall p :: 0 <= p < pmm.MaxPage() ==> p in pmm.taken
    }

    /** A frame for a table or a page; `None` when the allocator halts. */
    method NewFrame() returns (g: Option<nat>)
      requires Valid()
      modifies pmm, pmm.bitmap
      ensures Valid() && pmm.Drift() == old(pmm.Drift())
      ensures g.Some? ==> 0 < g.value < |ram| && g.value !in old(pmm.taken) && pmm.taken == old(pmm.taken) + {g.value}
      ensures g.None? ==> Exhausted() && pmm.taken == old(pmm.taken)
    {
      hide TakenPages, TreeOk;
      var addr := pmm.Alloc(0x1000);
      if addr.None? {
        assert Pages(0x1000) == 1;
        forall p | 0 <= p < pmm.MaxPage() ensures p in pmm.taken {
          assert !FreeRun(pmm.taken, pmm.MaxPage(), p, 1);
        }
        return None;
      }
      g := Some(addr.value / 0x1000);
      assert Range(g.value, 1) == {g.value};
    }

    /** vmm_ensure_table */
    method EnsureTable(table: nat, offset: nat, ghost root: nat) returns (ok: bool)
      requires Valid() && table in own && !own[table].node.P1? && offset < 512
      requires IsRoot(own, root)
      requires own[table].space == root || own[table].space == ChildTag(own[table], offset).space
      modifies this, pmm, pmm.bitmap
      ensures Valid() && pmm.Drift() == old(pmm.Drift())
      ensures Grown(old(ram), old(own), ram, own, root, old(ChildTag(own[table], offset).space))
      ensures TookTables(old(pmm.taken), old(own), pmm.taken, own)
      ensures ok ==> Present(Slot(ram, table, offset))
      ensures ok && !old(Present(Slot(ram, table, offset))) ==>
              && Slot(ram, table, offset).lo == 7 && !Huge(Slot(ram, table, offset))
              && own == old(own)[Slot(ram, table, offset).hi := ChildTag(old(own[table]), offset)]
      ensures !ok ==> Exhausted()
      ensures old(Present(Slot(ram, table, offset))) ==> ok && ram == old(ram) && own == old(own)
    {
      hide FrameAllocator.Valid, FrameAllocator.Drift, Grown, TreeOk, RamOk, Slot, Hang, ZeroPage, ChildTag;
      GrownReflexive(ram, own, root, ChildTag(own[table], offset).space);
      TableFacts(ram, own, table);
      if !Present(Slot(ram, table, offset)) {
        var g := NewFrame();
        if g.None? {
          return false;
        }
        HangIsGrown(ram, own, table, offset, g.value, ZeroPage(), root);
        ram := Hang(ram, table, offset, g.value, ZeroPage());
        own := own[g.value := ChildTag(own[table], offset)];
      }
      ok := true;
    }

    /** vmm_remap_to_4k: a 2 MiB entry becomes a table of 4 KiB entries. */
    method RemapTo4K(p2: nat, offset: nat, ghost root: nat) returns (ok: bool)
      requires Valid() && p2 in own && own[p2].node.P2? && offset < 512
      requires IsRoot(own, root) && Present(Slot(ram, p2, offset)) && Huge(Slot(ram, p2, offset))
      modifies this, pmm, pmm.bitmap
      ensures Valid() && pmm.Drift() == old(pmm.Drift())
      ensures Grown(old(ram), old(own), ram, own, root, old(own[p2].space))
      ensures TookTables(old(pmm.taken), old(own), pmm.taken, own)
      ensures if ok then Slot(ram, p2, offset).lo == 7 && !Huge(Slot(ram, p2, offset)) else Exhausted()
      ensures ok ==> var e := old(Slot(ram, p2, offset));
                forall k: nat :: k < 512 ==> Slot(ram, Slot(ram, p2, offset).hi, k) == Word(e.hi + k, e.lo)
    {
      hide FrameAllocator.Valid, FrameAllocator.Drift, Grown, TreeOk, RamOk, Slot, Hang, ZeroPage;
      var e := Slot(ram, p2, offset);
      GrownReflexive(ram, own, root, own[p2].space);
      TableFacts(ram, own, p2);
      var g := NewFrame();
      if g.None? {
        return false;
      }
      var page := ZeroPage();
      for i := 0 to 512
        invariant |page| == 512
        invariant forall k :: 0 <= k < i ==> page[k] == Word(e.hi + k, e.lo)
      {
        page := page[i := Word(e.hi + i, e.lo)];
      }
      assert page == SplitPage(e);
      HangIsGrown(ram, own, p2, offset, g.value, page, root);
      ram := Hang(ram, p2, offset, g.value, page);
      own := own[g.value := ChildTag(own[p2], offset)];
      ok := true;
    }

    /** The upper two levels of vmm_get_table. */
    method GetP2(o: Offs, root: nat) returns (p2: Option<nat>)
      requires Valid() && IsRoot(own, root) && OffsOk(o)
      modifies this, pmm, pmm.bitmap
      ensures Valid() && pmm.Drift() == old(pmm.Drift())
      ensures Grown(old(ram), old(own), ram, own, root, Space(root, o.p4))
      ensures TookTables(old(pmm.taken), old(own), pmm.taken, own)
      ensures if p2.Some? then TableAt(ram, root, P2(o.p4, o.p3)) == p2 else Exhausted()
      ensures old(TableAt(ram, root, P2(o.p4, o.p3)).Some?) ==> p2.Some? && ram == old(ram) && own == old(own)
    {
      hide FrameAllocator.Valid, FrameAllocator.Drift, OnlyTablesOf, SameWalks, TablesKept, RootSlotsKept;
      hide HugeFreeKept, TreeOk, RamOk, Slot, Typed;
      var ok := EnsureTable(root, o.p4, root);
      if !ok {
        return None;
      }
      label upper:
      var p3 := Slot(ram, root, o.p4).hi;
      PresentChild(ram, own, root, o.p4);
      ok := EnsureTable(p3, o.p3, root);
      GrownTransitive(old(ram), old(own), old@upper(ram), old@upper(own), ram, own, root, Space(root, o.p4));
      if !ok {
        return None;
      }
      PresentChild(ram, own, p3, o.p3);
      p2 := Some(Slot(ram, p3, o.p3).hi);
      GrownKeepsTable(old@upper(ram), old@upper(own), ram, own, root, Space(root, o.p4), P3(o.p4));
    }

    /** The last level of vmm_get_table: the table under slot `i` of the P2 table, split out of a 2 MiB
        entry or made if need be. */
    method GetP1(p2: nat, i: nat, root: nat) returns (p1: Option<nat>)
      requires Valid() && IsRoot(own, root) && p2 in own && own[p2].node.P2? && i < 512
      modifies this, pmm, pmm.bitmap
      ensures Valid() && pmm.Drift() == old(pmm.Drift())
      ensures Grown(old(ram), old(own), ram, own, root, old(own[p2].space))
      ensures TookTables(old(pmm.taken), old(own), pmm.taken, own)
      ensures if p1.Some? then Present(Slot(ram, p2, i)) && !Huge(Slot(ram, p2, i)) && p1.value == Slot(ram, p2, i).hi
              else Exhausted()
      ensures old(Present(Slot(ram, p2, i)) && !Huge(Slot(ram, p2, i))) ==>
              p1.Some? && ram == old(ram) && own == old(own)
    {
      hide FrameAllocator.Valid, FrameAllocator.Drift, Grown, TreeOk, RamOk, Slot;
      GrownReflexive(ram, own, root, own[p2].space);
      var e := Slot(ram, p2, i);
      if !Huge(e) && Present(e) {
        return Some(e.hi);
      }
      if Huge(e) && Present(e) {
        var split := RemapTo4K(p2, i, root);
        if !split {
          return None;
        }
        TableStays(old(own), own, old(ram), ram, p2, root);
      }
      var ok := EnsureTable(p2, i, root);
      if !ok {
        return None;
      }
      p1 := Some(Slot(ram, p2, i).hi);
    }

    /** vmm_get_table: the P1 table of a page, made if need be. `None` when the kernel halts. */
    method GetTable(o: Offs, root: nat) returns (p1: Option<nat>)
      requires Valid() && IsRoot(own, root) && OffsOk(o)
      modifies this, pmm, pmm.bitmap
      ensures Valid() && pmm.Drift() == old(pmm.Drift())
      ensures Grown(old(ram), old(own), ram, own, root, Space(root, o.p4))
      ensures TookTables(old(pmm.taken), old(own), pmm.taken, own)
      ensures if p1.Some? then TableAt(ram, root, P1(o.p4, o.p3, o.p2)) == p1 else Exhausted()
      ensures old(TableAt(ram, root, P1(o.p4, o.p3, o.p2)).Some?) ==> p1.Some? && ram == old(ram) && own == old(own)
    {
      hide FrameAllocator.Valid, FrameAllocator.Drift, OnlyTablesOf, SameWalks, TablesKept, RootSlotsKept, HugeFreeKept;
      hide TreeOk, RamOk, Slot, Typed;
      var top := GetP2(o, root);
      if top.None? {
        return None;
      }
      label upper:
      TreeFacts(ram, own);
      TableTag(ram, own, root, P2(o.p4, o.p3));
      p1 := GetP1(top.value, o.p2, root);
      GrownTransitive(old(ram), old(own), old@upper(ram), old@upper(own), ram, own, root, Space(root, o.p4));
      if p1.Some? {
        GrownKeepsTable(old@upper(ram), old@upper(own), ram, own, root, Space(root, o.p4), P2(o.p4, o.p3));
      }
    }

    /** vmm_map_pages: pages already present stay and make the result 1. */
    method MapPages(phys: nat, virt: nat, root: nat, count: nat, perms: Bits12) returns (ret: Option<nat>)
      requires Valid() && IsRoot(own, root) && InOneHalf(PageNo(virt), count)
      modifies this, pmm, pmm.bitmap
      ensures Valid() && pmm.Drift() == old(pmm.Drift())
      ensures IsRoot(own, root)
      ensures TookTables(old(pmm.taken), old(own), pmm.taken, own)
      ensures ret.Some? ==> RunState(old(ram), old(own), ram, own, root, Map(phys / 0x1000, perms), PageNo(virt), count)
      ensures ret.Some? ==> forall u :: PageNo(virt) <= u < PageNo(virt) + count ==>
                Lookup(ram, root, u) ==
                  if old(Lookup(ram, root, u)).Some? then old(Lookup(ram, root, u))
                  else if perms % 2 == 1 then Some(Leaf(phys / 0x1000 + (u - PageNo(virt)), perms)) else None
      ensures ret.Some? ==> ret.value == if AnyMapped(old(ram), root, PageNo(virt), count) then 1 else 0
      ensures ret.None? ==> Exhausted()
      ensures old(TablesReady(ram, root, PageNo(virt), count)) ==> ret.Some? && own == old(own)
    {
      hide FrameAllocator.Valid, FrameAllocator.Drift, TreeOk, RunState, Grown, Slot, WriteSlot, TableAt, VirtToOffs;
      hide OffsOf, IsRoot;
      ghost var op, v := Map(phys / 0x1000, perms), PageNo(virt);
      ghost var ready := TablesReady(ram, root, v, count);
      var curVirt := virt - virt % 0x1000;
      var curPhys := phys / 0x1000;
      var r := 0;
      RunStarts(ram, own, root, op, v);
      for page := 0 to count
        invariant Valid() && pmm.Drift() == old(pmm.Drift())
        invariant TookTables(old(pmm.taken), old(own), pmm.taken, own)
        invariant RunState(old(ram), old(own), ram, own, root, op, v, page)
        invariant r == if AnyMapped(old(ram), root, v, page) then 1 else 0
        invariant curVirt == virt - virt % 0x1000 + page * 0x1000 && curPhys == phys / 0x1000 + page
        invariant ready ==> own == old(own)
      {
        var offs := VirtToOffs(curVirt);
        RunOffsets(virt, page);
        PageOfOffsOf(v + page);
        RunFacts(old(ram), old(own), ram, own, root, op, v, page);
        label before:
        var p1 := GetTable(offs, root);
        RunGrows(old(ram), old(own), old@before(ram), old@before(own), ram, own, root, op, v, page);
        if p1.None? {
          RunFacts(old(ram), old(own), ram, own, root, op, v, page);
          return None;
        }
        RunWrites(old(ram), old(own), ram, own, root, op, v, page, p1.value);
        var e := Slot(ram, p1.value, offs.p1);
        if !Present(e) {
          ram := WriteSlot(ram, p1.value, offs.p1, Word(curPhys, perms));
        } else {
          WriteSame(ram, p1.value, offs.p1);
          r := 1;
        }
        RunFacts(old(ram), old(own), ram, own, root, op, v, page + 1);
        curPhys := curPhys + 1;
        curVirt := curVirt + 0x1000;
      }
      RunFacts(old(ram), old(own), ram, own, root, op, v, count);
      RunDoes(old(ram), old(own), ram, own, root, op, v, count);
      ret := Some(r);
    }

    /** vmm_remap_pages: every page of the run is replaced; the result is always 0. */
    method RemapPages(phys: nat, virt: nat, root: nat, count: nat, perms: Bits12) returns (ret: Option<nat>)
      requires Valid() && IsRoot(own, root) && InOneHalf(PageNo(virt), count)
      modifies this, pmm, pmm.bitmap
      ensures Valid() && pmm.Drift() == old(pmm.Drift())
      ensures IsRoot(own, root)
      ensures TookTables(old(pmm.taken), old(own), pmm.taken, own)
      ensures ret.Some? ==>
              RunState(old(ram), old(own), ram, own, root, Remap(phys / 0x1000, perms), PageNo(virt), count)
      ensures ret.Some? ==> forall u :: PageNo(virt) <= u < PageNo(virt) + count ==>
                && Lookup(ram, root, u).Some?
                && Lookup(ram, root, u).value.frame == phys / 0x1000 + (u - PageNo(virt))
                && Lookup(ram, root, u).value.flags % 2 == 1 && Lookup(ram, root, u).value.flags / 2 == perms / 2
      ensures if ret.Some? then ret.value == 0 else Exhausted()
      ensures old(TablesReady(ram, root, PageNo(virt), count)) ==> ret.Some? && own == old(own)
    {
      hide FrameAllocator.Valid, FrameAllocator.Drift, TreeOk, RunState, Grown, Slot, WriteSlot, TableAt, VirtToOffs;
      hide OffsOf, IsRoot;
      ghost var op, v := Remap(phys / 0x1000, perms), PageNo(virt);
      ghost var ready := TablesReady(ram, root, v, count);
      var curVirt := virt - virt % 0x1000;
      var curPhys := phys / 0x1000;
      RunStarts(ram, own, root, op, v);
      for page := 0 to count
        invariant Valid() && pmm.Drift() == old(pmm.Drift())
        invariant TookTables(old(pmm.taken), old(own), pmm.taken, own)
        invariant RunState(old(ram), old(own), ram, own, root, op, v, page)
        invariant curVirt == virt - virt % 0x1000 + page * 0x1000 && curPhys == phys / 0x1000 + page
        invariant ready ==> own == old(own)
      {
        var offs := VirtToOffs(curVirt);
        RunOffsets(virt, page);
        PageOfOffsOf(v + page);
        RunFacts(old(ram), old(own), ram, own, root, op, v, page);
        label before:
        var p1 := GetTable(offs, root);
        RunGrows(old(ram), old(own), old@before(ram), old@before(own), ram, own, root, op, v, page);
        if p1.None? {
          RunFacts(old(ram), old(own), ram, own, root, op, v, page);
          return None;
        }
        RunWrites(old(ram), old(own), ram, own, root, op, v, page, p1.value);
        ram := WriteSlot(ram, p1.value, offs.p1, Word(curPhys, WithPresent(perms)));
        RunFacts(old(ram), old(own), ram, own, root, op, v, page + 1);
        curPhys := curPhys + 1;
        curVirt := curVirt + 0x1000;
      }
      RunFacts(old(ram), old(own), ram, own, root, op, v, count);
      RunDoes(old(ram), old(own), ram, own, root, op, v, count);
      ret := Some(0);
    }

    /** vmm_unmap_pages: the result is 1 when some page of the run was not present. */
    method UnmapPages(virt: nat, root: nat, count: nat) returns (ret: Option<nat>)
      requires Valid() && IsRoot(own, root) && InOneHalf(PageNo(virt), count)
      modifies this, pmm, pmm.bitmap
      ensures Valid() && pmm.Drift() == old(pmm.Drift())
      ensures IsRoot(own, root)
      ensures TookTables(old(pmm.taken), old(own), pmm.taken, own)
      ensures ret.Some? ==> RunState(old(ram), old(own), ram, own, root, Unmap, PageNo(virt), count)
      ensures ret.Some? ==> forall u :: PageNo(virt) <= u < PageNo(virt) + count ==> Lookup(ram, root, u).None?
      ensures ret.Some? ==> ret.value == if AllMapped(old(ram), root, PageNo(virt), count) then 0 else 1
      ensures ret.None? ==> Exhausted()
      ensures old(TablesReady(ram, root, PageNo(virt), count)) ==> ret.Some? && own == old(own)
    {
      hide FrameAllocator.Valid, FrameAllocator.Drift, TreeOk, RunState, Grown, Slot, WriteSlot, TableAt, VirtToOffs;
      hide OffsOf, IsRoot;
      ghost var v := PageNo(virt);
      ghost var ready := TablesReady(ram, root, v, count);
      var curVirt := virt;
      var r := 0;
      RunStarts(ram, own, root, Unmap, v);
      for page := 0 to count
        invariant Valid() && pmm.Drift() == old(pmm.Drift())
        invariant TookTables(old(pmm.taken), old(own), pmm.taken, own)
        invariant RunState(old(ram), old(own), ram, own, root, Unmap, v, page)
        invariant r == if AllMapped(old(ram), root, v, page) then 0 else 1
        invariant curVirt == virt + page * 0x1000
        invariant ready ==> own == old(own)
      {
        var offs := VirtToOffs(curVirt);
        RunOffsets(virt, page);
        InPageOffsets(virt, page);
        PageOfOffsOf(v + page);
        RunFacts(old(ram), old(own), ram, own, root, Unmap, v, page);
        label before:
        var p1 := GetTable(offs, root);
        RunGrows(old(ram), old(own), old@before(ram), old@before(own), ram, own, root, Unmap, v, page);
        if p1.None? {
          RunFacts(old(ram), old(own), ram, own, root, Unmap, v, page);
          return None;
        }
        RunWrites(old(ram), old(own), ram, own, root, Unmap, v, page, p1.value);
        if Present(Slot(ram, p1.value, offs.p1)) {
          ram := WriteSlot(ram, p1.value, offs.p1, ZERO);
        } else {
          WriteSame(ram, p1.value, offs.p1);
          r := 1;
        }
        RunFacts(old(ram), old(own), ram, own, root, Unmap, v, page + 1);
        curVirt := curVirt + 0x1000;
      }
      RunFacts(old(ram), old(own), ram, own, root, Unmap, v, count);
      RunDoes(old(ram), old(own), ram, own, root, Unmap, v, count);
      ret := Some(r);
    }
  }

  lemma MapperTree(m: PageMapper)
    requires m.Valid()
    ensures TreeOk(m.ram, m.own)
  {
  }
}
