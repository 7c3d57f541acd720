/** Copying an address space (src/mm/vmm.c, vmm_fork_higher_half and vmm_fork): the child shares
    the upper half and gets its own copy of every lower-half page. */
module VmmFork {
  import opened Common
  import opened Pmm
  import opened PageTables
  import opened VirtualPages
  import opened Vmm

  /** Memory, its tables and the taken frames at one moment. */
  datatype Mem = Mem(ram: Ram, own: Owners, taken: set<nat>)

  ghost function Now(m: PageMapper): Mem
    reads m, m.pmm
  {
    Mem(m.ram, m.own, m.pmm.taken)
  }

  function Contents(ram: Ram, f: nat): Page {
    if f < |ram| then ram[f] else []
  }

  /** The lower half holds 4 KiB pages only, each in a frame that is taken. */
  ghost predicate Forkable(ram: Ram, own: Owners, root: nat, taken: set<nat>) {
    && (forall u :: 0 <= u < LOWER && Lookup(ram, root, u).Some? ==> Lookup(ram, root, u).value.frame in taken)
    && NoHugeIn(ram, own, root)
  }

  /** Page `u` of the child is a private copy of page `u` of the parent: the same flags, equal
      contents, in a frame that serves this page alone. */
  ghost predicate Copied(ram0: Ram, parent: nat, ram: Ram, child: nat, copies: map<nat, nat>, u: nat) {
    match Lookup(ram0, parent, u)
    case None => Lookup(ram, child, u) == None
    case Some(leaf) =>
      var l := Lookup(ram, child, u);
      && l.Some? && l.value.flags == leaf.flags
      && l.value.frame in copies && copies[l.value.frame] == u
      && Contents(ram, l.value.frame) == Contents(ram0, leaf.frame)
  }

  /** What the copying has taken so far and what it has left alone. */
  ghost predicate Apart(m0: Mem, m: Mem, child: nat, copies: map<nat, nat>) {
    && |m.ram| == |m0.ram| && TreeOk(m.ram, m.own) && IsRoot(m.own, child) && child !in m0.taken
    && m0.own.Keys <= m0.taken
    && (forall f :: f in m0.own ==> f in m.own && m.own[f] == m0.own[f])
    && (forall f :: f in m.own && f !in m0.own ==> m.own[f].space == child && f !in m0.taken)
    && (forall f :: f in m0.taken ==> Contents(m.ram, f) == Contents(m0.ram, f))
    && m.taken == m0.taken + (m.own.Keys - m0.own.Keys) + copies.Keys
    && copies.Keys !! m.own.Keys && copies.Keys !! m0.taken
    && NoHugeIn(m.ram, m.own, child)
  }

  /** Pages below `pos` are copied, those from `pos` on are not there yet, every copy is in use,
      and the upper half is shared. */
  ghost predicate CopiedUpTo(m0: Mem, m: Mem, parent: nat, child: nat, copies: map<nat, nat>, pos: nat) {
    && (forall u :: 0 <= u < LOWER ==>
          if u < pos then Copied(m0.ram, parent, m.ram, child, copies, u) else Lookup(m.ram, child, u) == None)
    && (forall f :: f in copies ==>
          copies[f] < LOWER && Lookup(m.ram, child, copies[f]).Some? &&
          Lookup(m.ram, child, copies[f]).value.frame == f)
    && (forall i :: 256 <= i < 512 ==> Slot(m.ram, child, i) == Slot(m0.ram, parent, i))
  }

  ghost predicate ForkState(m0: Mem, m: Mem, parent: nat, child: nat, copies: map<nat, nat>, pos: nat) {
    Apart(m0, m, child, copies) && CopiedUpTo(m0, m, parent, child, copies, pos)
  }

  /** Pages the parent does not map need no copying. */
  lemma SkipUnmapped(m0: Mem, m: Mem, parent: nat, child: nat, copies: map<nat, nat>, lo: nat, hi: nat)
    requires ForkState(m0, m, parent, child, copies, lo) && lo <= hi <= LOWER
    requires forall u :: lo <= u < hi ==> Lookup(m0.ram, parent, u) == None
    ensures ForkState(m0, m, parent, child, copies, hi)
  {
    hide Lookup, Apart;
  }

  /** The parent's tables and pages read the same throughout. */
  lemma ParentKept(m0: Mem, m: Mem, parent: nat, child: nat, copies: map<nat, nat>)
    requires Apart(m0, m, child, copies) && TreeOk(m0.ram, m0.own) && IsRoot(m0.own, parent)
    ensures forall f: nat, i: nat :: f in m0.own ==> Slot(m.ram, f, i) == Slot(m0.ram, f, i)
    ensures IsRoot(m.own, parent)
    ensures SameWalks(m0.ram, m.ram, m0.own) && TablesKept(m0.ram, m.ram, m0.own)
  {
    hide Walk, TableAt, Typed, Linked;
    forall f: nat, i: nat | f in m0.own ensures Slot(m.ram, f, i) == Slot(m0.ram, f, i) {
      assert f in m0.taken;
      assert Contents(m.ram, f) == Contents(m0.ram, f);
    }
    SameTablesSameTree(m0.ram, m.ram, m0.own);
  }

  /** What copying one page starts from and ends with: the fresh frame `g` is filled from the
      parent's page `u`, then mapped at page `u` of the child. */
  ghost predicate PageCopied(m0: Mem, m: Mem, parent: nat, child: nat, u: nat, g: nat, ram2: Ram, own2: Owners) {
    && TreeOk(m0.ram, m0.own) && IsRoot(m0.own, parent) && u < LOWER
    && Lookup(m0.ram, parent, u).Some? && Lookup(m0.ram, parent, u).value.frame in m0.taken
    && 0 < g < |m.ram| && g !in m.taken && m.own.Keys <= m.taken
    && g !in own2 && (forall f :: f in own2 && f !in m.own ==> f !in m.taken)
    && var leaf := Lookup(m0.ram, parent, u).value;
    && leaf.frame < |m.ram| && Present(Word(leaf.frame, leaf.flags))
    && RunState(m.ram[g := m.ram[leaf.frame]], m.own, ram2, own2, child, Map(g, leaf.flags), u, 1)
  }

  lemma CopyKeepsApart(m0: Mem, m: Mem, parent: nat, child: nat, copies: map<nat, nat>, u: nat, g: nat, ram2: Ram,
                       own2: Owners)
    requires Apart(m0, m, child, copies) && PageCopied(m0, m, parent, child, u, g, ram2, own2)
    ensures Apart(m0, Mem(ram2, own2, m.taken + {g} + (own2.Keys - m.own.Keys)), child, copies[g := u])
    ensures forall f :: f in m0.taken || f in copies ==> Contents(ram2, f) == Contents(m.ram, f)
    ensures Contents(ram2, g) == Contents(m0.ram, Lookup(m0.ram, parent, u).value.frame)
  {
    hide TreeOk, Updated, OthersKept, TablesKept, RootSlotsKept, Lookup, NoHugeIn;
    var leaf := Lookup(m0.ram, parent, u).value;
    var ram1 := m.ram[g := m.ram[leaf.frame]];
    assert child > 0 by { TableFacts(m.ram, m.own, child); }
    DataKeepsNoHuge(m.ram, m.own, g, m.ram[leaf.frame], child);
    forall f: nat | f !in own2 ensures Contents(ram2, f) == Contents(ram1, f) {
    }
    forall f: nat | f in m0.taken || f in copies ensures Contents(ram2, f) == Contents(m.ram, f) {
      assert f != g;
      assert Contents(ram1, f) == Contents(m.ram, f);
      if f in own2 {
        assert f in m0.own && own2[f] == m0.own[f];
        SpaceNotChild(m0.ram, m0.own, child, f);
      }
    }
  }

  /** No table that was there before the fork is tagged for the child. */
  lemma SpaceNotChild(ram: Ram, own: Owners, child: nat, f: nat)
    requires TreeOk(ram, own) && f in own && child > 0 && child !in own
    ensures own[f].space != child
  {
    hide Linked, SlotOk, TableAt;
  }

  lemma DataKeepsNoHuge(ram: Ram, own: Owners, g: nat, p: Page, s: nat)
    requires g < |ram| && g !in own && NoHugeIn(ram, own, s)
    ensures NoHugeIn(ram[g := p], own, s)
  {
    var ram' := ram[g := p];
    forall f: nat, i: nat | f in own ensures Slot(ram', f, i) == Slot(ram, f, i) {
    }
  }

  lemma CopyMovesOn(m0: Mem, m: Mem, parent: nat, child: nat, copies: map<nat, nat>, u: nat, g: nat, ram2: Ram,
                    own2: Owners)
    requires ForkState(m0, m, parent, child, copies, u) && PageCopied(m0, m, parent, child, u, g, ram2, own2)
    requires forall f :: f in m0.taken || f in copies ==> Contents(ram2, f) == Contents(m.ram, f)
    requires Contents(ram2, g) == Contents(m0.ram, Lookup(m0.ram, parent, u).value.frame)
    ensures var m2 := Mem(ram2, own2, m.taken + {g} + (own2.Keys - m.own.Keys));
            CopiedUpTo(m0, m2, parent, child, copies[g := u], u + 1)
  {
    hide TreeOk, OthersKept, TablesKept, OnlyTablesOf, TablesAdded, Walk, Contents, OffsOf;
    var leaf := Lookup(m0.ram, parent, u).value;
    var ram1 := m.ram[g := m.ram[leaf.frame]];
    TableFacts(m.ram, m.own, child);
    DataWrite(m.ram, m.own, g, m.ram[leaf.frame]);
    forall v: nat | v < LOWER
      ensures Lookup(ram2, child, v) == if v == u then Some(Leaf(g, leaf.flags)) else Lookup(m.ram, child, v)
    {
      PageOfOffsOf(v);
      assert Lookup(ram1, child, v) == Lookup(m.ram, child, v);
      assert Lookup(ram2, child, v) == if v == u then Wanted(Map(g, leaf.flags), v - u, Lookup(ram1, child, v))
          else Lookup(ram1, child, v);
      assert v == u ==> Lookup(m.ram, child, v) == None;
    }
  }

  /** The copied page takes the fork one page further. */
  lemma CopyStep(m0: Mem, m: Mem, parent: nat, child: nat, copies: map<nat, nat>, u: nat, g: nat, ram2: Ram,
                 own2: Owners)
    requires ForkState(m0, m, parent, child, copies, u) && PageCopied(m0, m, parent, child, u, g, ram2, own2)
    ensures var m2 := Mem(ram2, own2, m.taken + {g} + (own2.Keys - m.own.Keys));
            ForkState(m0, m2, parent, child, copies[g := u], u + 1)
  {
    hide PageCopied, Apart, CopiedUpTo, Contents, Lookup;
    CopyKeepsApart(m0, m, parent, child, copies, u, g, ram2, own2);
    CopyMovesOn(m0, m, parent, child, copies, u, g, ram2, own2);
  }

  /** Pages under a place of the tree have its indices. */
  lemma PagesUnder(u: nat, w: nat, z: nat, y: nat)
    requires w < 512 && z < 512 && y < 512
    ensures PageOf(Offs(w, z, y, 0)) <= u < PageOf(Offs(w, z, y + 1, 0)) ==>
              OffsOf(u).p4 == w && OffsOf(u).p3 == z && OffsOf(u).p2 == y
    ensures PageOf(Offs(w, z, 0, 0)) <= u < PageOf(Offs(w, z + 1, 0, 0)) ==> OffsOf(u).p4 == w && OffsOf(u).p3 == z
    ensures PageOf(Offs(w, 0, 0, 0)) <= u < PageOf(Offs(w + 1, 0, 0, 0)) ==> OffsOf(u).p4 == w
  {
    hide OffsOf;
    if PageOf(Offs(w, z, y, 0)) <= u < PageOf(Offs(w, z, y + 1, 0)) {
      Digits(u, w, z, y, u - PageOf(Offs(w, z, y, 0)));
    }
    if PageOf(Offs(w, z, 0, 0)) <= u < PageOf(Offs(w, z + 1, 0, 0)) {
      var r := u - PageOf(Offs(w, z, 0, 0));
      Digits(u, w, z, r / 512, r % 512);
    }
    if PageOf(Offs(w, 0, 0, 0)) <= u < PageOf(Offs(w + 1, 0, 0, 0)) {
      var r := u - PageOf(Offs(w, 0, 0, 0));
      Digits(u, w, r / 512 / 512, r / 512 % 512, r % 512);
    }
  }

  /** An absent entry leaves every page under it unmapped. */
  lemma AbsentSubtree(ram: Ram, root: nat, w: nat, z: nat, y: nat, u: nat)
    requires w < 512 && z < 512 && y < 512
    ensures !Present(Slot(ram, root, w)) && PageOf(Offs(w, 0, 0, 0)) <= u < PageOf(Offs(w + 1, 0, 0, 0)) ==>
              Lookup(ram, root, u) == None
    ensures var t := TableAt(ram, root, P3(w));
            t.Some? && !Present(Slot(ram, t.value, z)) &&
            PageOf(Offs(w, z, 0, 0)) <= u < PageOf(Offs(w, z + 1, 0, 0)) ==>
              Lookup(ram, root, u) == None
    ensures var t := TableAt(ram, root, P2(w, z));
            t.Some? && !Present(Slot(ram, t.value, y)) &&
            PageOf(Offs(w, z, y, 0)) <= u < PageOf(Offs(w, z, y + 1, 0)) ==>
              Lookup(ram, root, u) == None
  {
    hide PageOf, OffsOf, Slot, LeafOf;
    PagesUnder(u, w, z, y);
  }

  lemma LookupInP1(ram: Ram, root: nat, o: Offs)
    requires OffsOk(o) && TableAt(ram, root, P1(o.p4, o.p3, o.p2)).Some?
    ensures Lookup(ram, root, PageOf(o)) == LeafOf(Slot(ram, TableAt(ram, root, P1(o.p4, o.p3, o.p2)).value, o.p1))
  {
    hide PageOf, OffsOf;
    OffsOfPageOf(o);
  }

  /** A mapped 4 KiB page gives the kernel's translation routine no occasion to stray. */
  lemma MappedTranslation(ram: Ram, own: Owners, root: nat, o: Offs)
    requires TreeOk(ram, own) && IsRoot(own, root) && OffsOk(o) && Lookup(ram, root, PageOf(o)).Some?
    ensures VirtToPhys(ram, root, OffsToVirt(o)) == Some(Lookup(ram, root, PageOf(o)).value.frame * 0x1000)
    ensures PageNo(OffsToVirt(o)) == PageOf(o)
  {
    hide Slot, TreeOk, OffsOf, VirtToOffs, VirtToPhys, Walk, OffsToVirt, PageOf, PageNo, StrayHuge;
    OffsetsRoundTrip(o, 0);
    OffsOfPageOf(o);
    PageAddress(o);
    WalkedNotStray(ram, root, o);
    VirtToPhysExact(ram, own, root, OffsToVirt(o));
  }

  lemma PageAddress(o: Offs)
    requires OffsOk(o)
    ensures OffsToVirt(o) % 0x1000 == 0 && PageNo(OffsToVirt(o)) == PageOf(o)
  {
    hide OffsOf;
    OffsOfPageOf(o);
    assert OffsToVirt(o) == PageOf(o) * 0x1000;
    hide OffsToVirt, PageOf;
    assert OffsToVirt(o) / 0x1000 == PageOf(o);
  }

  lemma WalkedNotStray(ram: Ram, root: nat, o: Offs)
    ensures Walk(ram, root, o).Some? ==> !StrayHuge(ram, root, o)
  {
  }

  ghost predicate ForkReady(m0: Mem, parent: nat) {
    && TreeOk(m0.ram, m0.own) && IsRoot(m0.own, parent) && Forkable(m0.ram, m0.own, parent, m0.taken)
    && forall f :: f in m0.taken ==> f < |m0.ram|
  }

  /** The innermost body of vmm_fork: copy one page of the parent into a new frame and map it. */
  method CopyPage(m: PageMapper, parent: nat, child: nat, o: Offs, flags: Bits12, ghost m0: Mem,
                  ghost copies: map<nat, nat>)
    returns (ok: bool, ghost copies': map<nat, nat>)
    requires m.Valid() && ForkReady(m0, parent) && OffsOk(o) && o.p4 < 256
    requires ForkState(m0, Now(m), parent, child, copies, PageOf(o))
    requires Lookup(m0.ram, parent, PageOf(o)).Some? && Lookup(m0.ram, parent, PageOf(o)).value.flags == flags
    modifies m, m.pmm, m.pmm.bitmap
    ensures m.Valid() && m.pmm.Drift() == old(m.pmm.Drift())
    ensures if ok then ForkState(m0, Now(m), parent, child, copies', PageOf(o) + 1) else m.Exhausted()
  {
    hide FrameAllocator.Valid, FrameAllocator.Drift, TreeOk, ForkState, Lookup, RunState, VirtToPhys, OffsToVirt;
    hide PageOf, PageNo, IsRoot, Forkable;
    copies' := copies;
    OffsOfPageOf(o);
    ForkFacts(m0, Now(m), parent, child, copies, PageOf(o));
    ForkLookup(m0, Now(m), parent, child, copies, PageOf(o), PageOf(o));
    TreeFacts(m.ram, m.own);
    MappedTranslation(m.ram, m.own, parent, o);
    var virt := OffsToVirt(o);
    var phys := VirtToPhys(m.ram, parent, virt);
    label start:
    ghost var before := Now(m);
    var g := m.NewFrame();
    if g.None? {
      return false, copies;
    }
    var data := m.ram[phys.value / 0x1000];
    DataWrite(m.ram, m.own, g.value, data);
    m.ram := m.ram[g.value := data];
    var ret := m.MapPages(g.value * 0x1000, virt, child, 1, flags);
    if ret.None? {
      return false, copies;
    }
    CopyStep(m0, before, parent, child, copies, PageOf(o), g.value, m.ram, m.own);
    ok := true;
    copies' := copies[g.value := PageOf(o)];
  }

  lemma ForkFacts(m0: Mem, m: Mem, parent: nat, child: nat, copies: map<nat, nat>, pos: nat)
    requires ForkState(m0, m, parent, child, copies, pos) && ForkReady(m0, parent)
    ensures IsRoot(m.own, child) && IsRoot(m.own, parent) && |m.ram| == |m0.ram|
    ensures TreeOk(m.ram, m.own)
  {
    hide CopiedUpTo, TreeOk;
  }

  lemma ForkLookup(m0: Mem, m: Mem, parent: nat, child: nat, copies: map<nat, nat>, pos: nat, u: nat)
    requires ForkState(m0, m, parent, child, copies, pos) && ForkReady(m0, parent) && u < LOWER
    ensures Lookup(m.ram, parent, u) == Lookup(m0.ram, parent, u)
    ensures Lookup(m0.ram, parent, u).Some? ==>
              var leaf := Lookup(m0.ram, parent, u).value;
              leaf.frame in m0.taken && leaf.frame < |m.ram| && Present(Word(leaf.frame, leaf.flags))
  {
    hide CopiedUpTo, TreeOk, NoHugeIn;
    ParentKept(m0, m, parent, child, copies);
    PageOfOffsOf(u);
  }

  /** Tables of the parent are read in the middle of the fork as they were at its start. */
  lemma ForkSlots(m0: Mem, m: Mem, parent: nat, child: nat, copies: map<nat, nat>, pos: nat, n: Node)
    requires ForkState(m0, m, parent, child, copies, pos) && ForkReady(m0, parent)
    requires TableAt(m0.ram, parent, n).Some?
    ensures var t := TableAt(m0.ram, parent, n).value; forall i: nat :: Slot(m.ram, t, i) == Slot(m0.ram, t, i)
  {
    hide CopiedUpTo, TreeOk, Forkable, TableAt, Slot;
    ParentKept(m0, m, parent, child, copies);
    TreeFacts(m0.ram, m0.own);
    TableTag(m0.ram, m0.own, parent, n);
  }

  /** Positions carry over from one index to the next. */
  lemma Carry(w: nat, z: nat, y: nat, x: nat)
    ensures PageOf(Offs(w, z, y, x + 1)) == PageOf(Offs(w, z, y, x)) + 1
    ensures PageOf(Offs(w, z, y, 512)) == PageOf(Offs(w, z, y + 1, 0))
    ensures PageOf(Offs(w, z, 512, 0)) == PageOf(Offs(w, z + 1, 0, 0))
    ensures PageOf(Offs(w, 512, 0, 0)) == PageOf(Offs(w + 1, 0, 0, 0))
    ensures PageOf(Offs(0, 0, 0, 0)) == 0 && PageOf(Offs(256, 0, 0, 0)) == LOWER
  {
  }

  lemma SkipPage(m0: Mem, m: Mem, parent: nat, child: nat, copies: map<nat, nat>, u: nat)
    requires ForkState(m0, m, parent, child, copies, u) && u < LOWER && Lookup(m0.ram, parent, u) == None
    ensures ForkState(m0, m, parent, child, copies, u + 1)
  {
    hide ForkState, Lookup;
    SkipUnmapped(m0, m, parent, child, copies, u, u + 1);
  }

  lemma SkipAbsentP1(m0: Mem, m: Mem, parent: nat, child: nat, copies: map<nat, nat>, w: nat, z: nat, y: nat)
    requires ForkState(m0, m, parent, child, copies, PageOf(Offs(w, z, y, 0))) && w < 256 && z < 512 && y < 512
    requires TableAt(m0.ram, parent, P2(w, z)).Some?
    requires !Present(Slot(m0.ram, TableAt(m0.ram, parent, P2(w, z)).value, y))
    ensures ForkState(m0, m, parent, child, copies, PageOf(Offs(w, z, y + 1, 0)))
  {
    hide ForkState, Lookup, Slot, TableAt;
    forall u: nat | PageOf(Offs(w, z, y, 0)) <= u < PageOf(Offs(w, z, y + 1, 0))
      ensures Lookup(m0.ram, parent, u) == None
    {
      AbsentSubtree(m0.ram, parent, w, z, y, u);
    }
    SkipUnmapped(m0, m, parent, child, copies, PageOf(Offs(w, z, y, 0)), PageOf(Offs(w, z, y + 1, 0)));
  }

  lemma SkipAbsentP2(m0: Mem, m: Mem, parent: nat, child: nat, copies: map<nat, nat>, w: nat, z: nat)
    requires ForkState(m0, m, parent, child, copies, PageOf(Offs(w, z, 0, 0))) && w < 256 && z < 512
    requires TableAt(m0.ram, parent, P3(w)).Some? && !Present(Slot(m0.ram, TableAt(m0.ram, parent, P3(w)).value, z))
    ensures ForkState(m0, m, parent, child, copies, PageOf(Offs(w, z + 1, 0, 0)))
  {
    hide ForkState, Lookup, Slot, TableAt;
    forall u: nat | PageOf(Offs(w, z, 0, 0)) <= u < PageOf(Offs(w, z + 1, 0, 0))
      ensures Lookup(m0.ram, parent, u) == None
    {
      AbsentSubtree(m0.ram, parent, w, z, 0, u);
    }
    SkipUnmapped(m0, m, parent, child, copies, PageOf(Offs(w, z, 0, 0)), PageOf(Offs(w, z + 1, 0, 0)));
  }

  lemma SkipAbsentP3(m0: Mem, m: Mem, parent: nat, child: nat, copies: map<nat, nat>, w: nat)
    requires ForkState(m0, m, parent, child, copies, PageOf(Offs(w, 0, 0, 0))) && w < 256
    requires !Present(Slot(m0.ram, parent, w))
    ensures ForkState(m0, m, parent, child, copies, PageOf(Offs(w + 1, 0, 0, 0)))
  {
    hide ForkState, Lookup, Slot;
    forall u: nat | PageOf(Offs(w, 0, 0, 0)) <= u < PageOf(Offs(w + 1, 0, 0, 0))
      ensures Lookup(m0.ram, parent, u) == None
    {
      AbsentSubtree(m0.ram, parent, w, 0, 0, u);
    }
    SkipUnmapped(m0, m, parent, child, copies, PageOf(Offs(w, 0, 0, 0)), PageOf(Offs(w + 1, 0, 0, 0)));
  }

  /** The x loop of vmm_fork: one P1 table. */
  method ForkP1(m: PageMapper, parent: nat, child: nat, w: nat, z: nat, y: nat, table: nat, ghost m0: Mem,
                ghost copies: map<nat, nat>)
    returns (ok: bool, ghost copies': map<nat, nat>)
    requires m.Valid() && ForkReady(m0, parent) && w < 256 && z < 512 && y < 512
    requires TableAt(m0.ram, parent, P1(w, z, y)) == Some(table)
    requires ForkState(m0, Now(m), parent, child, copies, PageOf(Offs(w, z, y, 0)))
    modifies m, m.pmm, m.pmm.bitmap
    ensures m.Valid() && m.pmm.Drift() == old(m.pmm.Drift())
    ensures if ok then ForkState(m0, Now(m), parent, child, copies', PageOf(Offs(w, z, y + 1, 0))) else m.Exhausted()
  {
    hide PageMapper.Valid, PageMapper.Exhausted, FrameAllocator.Drift, ForkReady, ForkState, TableAt, Lookup, LeafOf;
    hide PageOf;
    copies' := copies;
    Carry(w, z, y, 0);
    for x := 0 to 512
      invariant m.Valid() && m.pmm.Drift() == old(m.pmm.Drift())
      invariant ForkState(m0, Now(m), parent, child, copies', PageOf(Offs(w, z, y, x)))
    {
      ghost var o := Offs(w, z, y, x);
      ForkSlots(m0, Now(m), parent, child, copies', PageOf(o), P1(w, z, y));
      LookupInP1(m0.ram, parent, o);
      OffsOfPageOf(o);
      Carry(w, z, y, x);
      var e := Slot(m.ram, table, x);
      LeafOfIs(e);
      if Present(e) {
        ok, copies' := CopyPage(m, parent, child, Offs(w, z, y, x), e.lo, m0, copies');
        if !ok {
          return;
        }
      } else {
        SkipPage(m0, Now(m), parent, child, copies', PageOf(o));
      }
    }
    ok := true;
  }

  lemma LeafOfIs(e: Word)
    ensures LeafOf(e) == if Present(e) then Some(Leaf(e.hi, e.lo)) else None
  {
  }

  /** The y loop: one P2 table. */
  method ForkP2(m: PageMapper, parent: nat, child: nat, w: nat, z: nat, table: nat, ghost m0: Mem,
                ghost copies: map<nat, nat>)
    returns (ok: bool, ghost copies': map<nat, nat>)
    requires m.Valid() && ForkReady(m0, parent) && w < 256 && z < 512
    requires TableAt(m0.ram, parent, P2(w, z)) == Some(table)
    requires ForkState(m0, Now(m), parent, child, copies, PageOf(Offs(w, z, 0, 0)))
    modifies m, m.pmm, m.pmm.bitmap
    ensures m.Valid() && m.pmm.Drift() == old(m.pmm.Drift())
    ensures if ok then ForkState(m0, Now(m), parent, child, copies', PageOf(Offs(w, z + 1, 0, 0))) else m.Exhausted()
  {
    hide PageMapper.Valid, PageMapper.Exhausted, FrameAllocator.Drift, ForkReady, ForkState, Lookup, PageOf;
    copies' := copies;
    Carry(w, z, 0, 0);
    for y := 0 to 512
      invariant m.Valid() && m.pmm.Drift() == old(m.pmm.Drift())
      invariant ForkState(m0, Now(m), parent, child, copies', PageOf(Offs(w, z, y, 0)))
    {
      ForkSlots(m0, Now(m), parent, child, copies', PageOf(Offs(w, z, y, 0)), P2(w, z));
      var e := Slot(m.ram, table, y);
      if Present(e) {
        ForkNoHuge(m0, parent, w, z, y);
        ok, copies' := ForkP1(m, parent, child, w, z, y, e.hi, m0, copies');
        if !ok {
          return;
        }
      } else {
        SkipAbsentP1(m0, Now(m), parent, child, copies', w, z, y);
      }
    }
    ok := true;
  }

  lemma ForkNoHuge(m0: Mem, parent: nat, w: nat, z: nat, y: nat)
    requires ForkReady(m0, parent) && w < 256 && z < 512 && y < 512 && TableAt(m0.ram, parent, P2(w, z)).Some?
    ensures !Huge(Slot(m0.ram, TableAt(m0.ram, parent, P2(w, z)).value, y))
  {
    hide TreeOk, TableAt, Lookup, Slot;
    TreeFacts(m0.ram, m0.own);
    TableTag(m0.ram, m0.own, parent, P2(w, z));
  }

  /** The z loop: one P3 table. */
  method ForkP3(m: PageMapper, parent: nat, child: nat, w: nat, table: nat, ghost m0: Mem, ghost copies: map<nat, nat>)
    returns (ok: bool, ghost copies': map<nat, nat>)
    requires m.Valid() && ForkReady(m0, parent) && w < 256
    requires TableAt(m0.ram, parent, P3(w)) == Some(table)
    requires ForkState(m0, Now(m), parent, child, copies, PageOf(Offs(w, 0, 0, 0)))
    modifies m, m.pmm, m.pmm.bitmap
    ensures m.Valid() && m.pmm.Drift() == old(m.pmm.Drift())
    ensures if ok then ForkState(m0, Now(m), parent, child, copies', PageOf(Offs(w + 1, 0, 0, 0))) else m.Exhausted()
  {
    hide PageMapper.Valid, PageMapper.Exhausted, FrameAllocator.Drift, ForkReady, ForkState, Lookup, PageOf;
    copies' := copies;
    Carry(w, 0, 0, 0);
    for z := 0 to 512
      invariant m.Valid() && m.pmm.Drift() == old(m.pmm.Drift())
      invariant ForkState(m0, Now(m), parent, child, copies', PageOf(Offs(w, z, 0, 0)))
    {
      ForkSlots(m0, Now(m), parent, child, copies', PageOf(Offs(w, z, 0, 0)), P3(w));
      var e := Slot(m.ram, table, z);
      if Present(e) {
        ForkTableBelow(m0, parent, P3(w), z);
        ok, copies' := ForkP2(m, parent, child, w, z, e.hi, m0, copies');
        if !ok {
          return;
        }
      } else {
        SkipAbsentP2(m0, Now(m), parent, child, copies', w, z);
      }
    }
    ok := true;
  }

  lemma ForkTableBelow(m0: Mem, parent: nat, n: Node, i: nat)
    requires ForkReady(m0, parent) && (n.P4? || n.P3?) && i < 512 && TableAt(m0.ram, parent, n).Some?
    requires Present(Slot(m0.ram, TableAt(m0.ram, parent, n).value, i))
    ensures !Huge(Slot(m0.ram, TableAt(m0.ram, parent, n).value, i))
  {
    hide TreeOk, TableAt, Slot, Huge, Forkable;
    TreeFacts(m0.ram, m0.own);
    TableTag(m0.ram, m0.own, parent, n);
    PresentChild(m0.ram, m0.own, TableAt(m0.ram, parent, n).value, i);
  }

  /** vmm_fork_higher_half: a new root that shares the upper 256 slots. */
  method ForkHigherHalf(m: PageMapper, parent: nat) returns (child: Option<nat>)
    requires m.Valid() && IsRoot(m.own, parent)
    modifies m, m.pmm, m.pmm.bitmap
    ensures m.Valid() && m.pmm.Drift() == old(m.pmm.Drift())
    ensures child.None? ==> m.Exhausted()
    ensures child.Some? ==>
              && child.value !in old(m.pmm.taken) && m.pmm.taken == old(m.pmm.taken) + {child.value}
              && m.own == old(m.own)[child.value := Tag(child.value, P4)] && IsRoot(m.own, child.value)
              && child.value < |old(m.ram)| && m.ram == old(m.ram)[child.value := m.ram[child.value]]
              && (forall i: nat :: i < 256 ==> Slot(m.ram, child.value, i) == ZERO)
              && (forall i: nat :: 256 <= i < 512 ==> Slot(m.ram, child.value, i) == Slot(old(m.ram), parent, i))
  {
    hide FrameAllocator.Valid, FrameAllocator.Drift, TreeOk, Slot, ZeroPage;
    var g := m.NewFrame();
    if g.None? {
      return None;
    }
    var page := ZeroPage();
    for i := 256 to 512
      invariant |page| == 512 && forall k :: 0 <= k < 256 ==> page[k] == ZERO
      invariant forall k :: 256 <= k < i ==> page[k] == Slot(m.ram, parent, k)
    {
      page := page[i := Slot(m.ram, parent, i)];
    }
    RootCopyOk(m.ram, m.own, parent, page);
    AddRoot(m.ram, m.own, g.value, page);
    assert forall i: nat :: 256 <= i < 512 ==> page[i] == Slot(old(m.ram), parent, i);
    m.ram := m.ram[g.value := page];
    m.own := m.own[g.value := Tag(g.value, P4)];
    child := g;
    forall i: nat | i < 512 ensures Slot(m.ram, g.value, i) == if i < 256 then ZERO else Slot(old(m.ram), parent, i) {
      assert Slot(m.ram, g.value, i) == page[i];
    }
  }

  lemma RootCopyOk(ram: Ram, own: Owners, parent: nat, page: Page)
    requires TreeOk(ram, own) && IsRoot(own, parent) && |page| == 512
    requires forall k :: 0 <= k < 256 ==> page[k] == ZERO
    requires forall k :: 256 <= k < 512 ==> page[k] == Slot(ram, parent, k)
    ensures RootPageOk(page, own)
  {
    hide Slot, Linked, RamOk;
    forall k | 256 <= k < 512
      ensures page[k] == ZERO ||
              (Present(page[k]) && !Huge(page[k]) && page[k].hi in own && own[page[k].hi] == Tag(0, P3(k)))
    {
      assert SlotOk(Slot(ram, parent, k), own, own[parent], k);
    }
  }

  /** The child as a user of the machine sees it. Its lower half has the parent's pages, with the
      parent's flags and contents, in frames that were free and that no two pages share; its upper
      half is the parent's; and nothing that existed before has changed. */
  ghost predicate IsFork(m0: Mem, m: Mem, parent: nat, child: nat) {
    && (forall u :: 0 <= u < LOWER ==>
          (Lookup(m.ram, child, u).Some? <==> Lookup(m0.ram, parent, u).Some?))
    && (forall u :: 0 <= u < LOWER && Lookup(m.ram, child, u).Some? ==>
          && Lookup(m.ram, child, u).value.flags == Lookup(m0.ram, parent, u).value.flags
          && Lookup(m.ram, child, u).value.frame !in m0.taken
          && Contents(m.ram, Lookup(m.ram, child, u).value.frame) ==
             Contents(m0.ram, Lookup(m0.ram, parent, u).value.frame))
    && (forall u, v :: 0 <= u < v < LOWER && Lookup(m.ram, child, u).Some? && Lookup(m.ram, child, v).Some? ==>
          Lookup(m.ram, child, u).value.frame != Lookup(m.ram, child, v).value.frame)
    && (forall i :: 256 <= i < 512 ==> Slot(m.ram, child, i) == Slot(m0.ram, parent, i))
    && (forall u :: LOWER <= u < VPAGES ==> Lookup(m.ram, child, u) == Lookup(m0.ram, parent, u))
    && (forall r, u :: IsRoot(m0.own, r) && 0 <= u < VPAGES ==> Lookup(m.ram, r, u) == Lookup(m0.ram, r, u))
    && (forall f :: f in m0.taken ==> Contents(m.ram, f) == Contents(m0.ram, f))
  }

  /** A finished fork is one. */
  lemma ForkStateIsFork(m0: Mem, m: Mem, parent: nat, child: nat, copies: map<nat, nat>)
    requires ForkState(m0, m, parent, child, copies, LOWER) && ForkReady(m0, parent)
    ensures IsFork(m0, m, parent, child)
  {
    hide Walk, TreeOk, Forkable, TableAt, Slot, Contents, OffsOf;
    ParentKept(m0, m, parent, child, copies);
    forall r, u | IsRoot(m0.own, r) && 0 <= u < VPAGES ensures Lookup(m.ram, r, u) == Lookup(m0.ram, r, u) {
      PageOfOffsOf(u);
    }
    forall u: nat | LOWER <= u < VPAGES ensures Lookup(m.ram, child, u) == Lookup(m0.ram, parent, u) {
      PageOfOffsOf(u);
      SharedSlot(m.ram, child, parent, OffsOf(u));
    }
    assert forall u :: 0 <= u < LOWER ==> Copied(m0.ram, parent, m.ram, child, copies, u);
  }

  /** Two roots with one slot in common translate everything under it alike. */
  lemma SharedSlot(ram: Ram, r: nat, q: nat, o: Offs)
    requires Slot(ram, r, o.p4) == Slot(ram, q, o.p4)
    ensures Walk(ram, r, o) == Walk(ram, q, o)
  {
  }

  lemma IsForkReady(m: PageMapper, parent: nat)
    requires m.Valid() && IsRoot(m.own, parent) && Forkable(m.ram, m.own, parent, m.pmm.taken)
    ensures ForkReady(Now(m), parent) && m.own.Keys <= m.pmm.taken
  {
    hide TreeOk, Forkable;
  }

  /** A fresh root with a blank lower half is where the copying starts. */
  lemma ForkStarts(m0: Mem, m: Mem, parent: nat, child: nat)
    requires ForkReady(m0, parent) && m0.own.Keys <= m0.taken && child < |m0.ram| && child !in m0.taken
    requires TreeOk(m.ram, m.own) && m.own == m0.own[child := Tag(child, P4)] && m.taken == m0.taken + {child}
    requires |m.ram| == |m0.ram| && m.ram == m0.ram[child := m.ram[child]]
    requires forall i: nat :: i < 256 ==> Slot(m.ram, child, i) == ZERO
    requires forall i: nat :: 256 <= i < 512 ==> Slot(m.ram, child, i) == Slot(m0.ram, parent, i)
    ensures ForkState(m0, m, parent, child, map[], 0)
  {
    hide TreeOk, Forkable, Slot, OffsOf;
    TableFacts(m.ram, m.own, child);
    forall f | f in m0.own ensures m0.own[f].space != child {
      SpaceNotChild(m0.ram, m0.own, child, f);
    }
    forall u: nat | u < LOWER ensures Lookup(m.ram, child, u) == None {
      PageOfOffsOf(u);
    }
  }

  /** vmm_fork */
  method Fork(m: PageMapper, parent: nat) returns (child: Option<nat>, ghost copies: map<nat, nat>)
    requires m.Valid() && IsRoot(m.own, parent) && Forkable(m.ram, m.own, parent, m.pmm.taken)
    modifies m, m.pmm, m.pmm.bitmap
    ensures m.Valid() && m.pmm.Drift() == old(m.pmm.Drift())
    ensures child.None? ==> m.Exhausted()
    ensures child.Some? ==> ForkState(old(Now(m)), Now(m), parent, child.value, copies, LOWER)
    ensures child.Some? ==> IsFork(old(Now(m)), Now(m), parent, child.value)
  {
    hide PageMapper.Valid, PageMapper.Exhausted, FrameAllocator.Drift, ForkState, ForkReady, Forkable, Lookup, IsFork;
    hide IsRoot, PageOf, TreeOk, Slot;
    copies := map[];
    Carry(0, 0, 0, 0);
    ghost var m0 := Now(m);
    IsForkReady(m, parent);
    child := ForkHigherHalf(m, parent);
    if child.None? {
      return;
    }
    MapperTree(m);
    ForkStarts(m0, Now(m), parent, child.value);
    var ok := true;
    for w := 0 to 256
      invariant m.Valid() && m.pmm.Drift() == old(m.pmm.Drift())
      invariant ForkState(m0, Now(m), parent, child.value, copies, PageOf(Offs(w, 0, 0, 0)))
    {
      ForkSlots(m0, Now(m), parent, child.value, copies, PageOf(Offs(w, 0, 0, 0)), P4);
      var e := Slot(m.ram, parent, w);
      if Present(e) {
        ForkTableBelow(m0, parent, P4, w);
        ok, copies := ForkP3(m, parent, child.value, w, e.hi, m0, copies);
        if !ok {
          return None, copies;
        }
      } else {
        SkipAbsentP3(m0, Now(m), parent, child.value, copies, w);
      }
    }
    ForkStateIsFork(m0, Now(m), parent, child.value, copies);
  }
}
