/** Taking an address space down (src/mm/vmm.c, vmm_deconstruct_address_space): every lower-half
    page, every lower-half table and the root go back to the allocator, each exactly once. */
module VmmTeardown {
  import opened Common
  import opened Pmm
  import opened PageTables
  import opened VirtualPages
  import opened Vmm
  import opened VmmFork

  /** `data` names the one lower-half page each frame serves. */
  ghost predicate Private(ram: Ram, root: nat, data: map<nat, nat>) {
    && (forall u :: 0 <= u < LOWER && Lookup(ram, root, u).Some? ==>
          var f := Lookup(ram, root, u).value.frame; f in data && data[f] == u)
    && (forall f :: f in data ==>
          data[f] < LOWER && Lookup(ram, root, data[f]).Some? && Lookup(ram, root, data[f]).value.frame == f)
  }

  ghost predicate TearReady(ram: Ram, own: Owners, root: nat, data: map<nat, nat>) {
    && TreeOk(ram, own) && IsRoot(own, root) && NoHugeIn(ram, own, root)
    && Private(ram, root, data) && data.Keys !! own.Keys && 0 !in data
  }

  function Level(n: Node): nat {
    match n case P1(_, _, _) => 1 case P2(_, _) => 2 case P3(_) => 3 case P4 => 4
  }

  /** The first page a table serves. */
  function Start(n: Node): nat {
    match n
    case P4 => 0
    case P3(w) => PageOf(Offs(w, 0, 0, 0))
    case P2(w, z) => PageOf(Offs(w, z, 0, 0))
    case P1(w, z, y) => PageOf(Offs(w, z, y, 0))
  }

  /** The page frames of `[lo, hi)` and the tables up to `level` that start there. */
  ghost function Holdings(own: Owners, root: nat, data: map<nat, nat>, lo: nat, hi: nat, level: nat): set<nat> {
    (set f | f in data && lo <= data[f] < hi) +
    (set f | f in own && own[f].space == root && Level(own[f].node) <= level && lo <= Start(own[f].node) < hi)
  }

  lemma HoldingsSplit(own: Owners, root: nat, data: map<nat, nat>, lo: nat, mid: nat, hi: nat, level: nat)
    requires lo <= mid <= hi && data.Keys !! own.Keys
    ensures Holdings(own, root, data, lo, hi, level) ==
            Holdings(own, root, data, lo, mid, level) + Holdings(own, root, data, mid, hi, level)
    ensures Holdings(own, root, data, lo, mid, level) !! Holdings(own, root, data, mid, hi, level)
  {
    hide Start, Level;
  }

  /** Lower-half tables have indices in range. */
  lemma TableIndices(ram: Ram, own: Owners, root: nat, f: nat)
    requires TreeOk(ram, own) && IsRoot(own, root) && f in own && own[f].space == root
    ensures TableAt(ram, root, own[f].node) == Some(f)
    ensures match own[f].node
            case P4 => f == root
            case P3(w) => w < 256
            case P2(w, z) => w < 256 && z < 512
            case P1(w, z, y) => w < 256 && z < 512 && y < 512
  {
    hide Slot, Walk;
    TreeFacts(ram, own);
    var n := own[f].node;
    assert TableAt(ram, root, n) == Some(f);
    TableTag(ram, own, root, n);
    match n
    case P4 =>
    case P3(w) =>
    case P2(w, z) =>
      TableTag(ram, own, root, P3(w));
      ChildTagged(ram, own, TableAt(ram, root, P3(w)).value, z);
    case P1(w, z, y) =>
      TableTag(ram, own, root, P3(w));
      ChildTagged(ram, own, TableAt(ram, root, P3(w)).value, z);
      TableTag(ram, own, root, P2(w, z));
      ChildTagged(ram, own, TableAt(ram, root, P2(w, z)).value, y);
  }

  /** Tables that start inside the pages of a place lie at or under that place. */
  lemma StartUnder(n: Node, w: nat, z: nat, y: nat)
    requires w < 256 && z < 512 && y < 512
    requires match n
             case P4 => false
             case P3(w') => w' < 256
             case P2(w', z') => w' < 256 && z' < 512
             case P1(w', z', y') => w' < 256 && z' < 512 && y' < 512
    ensures PageOf(Offs(w, z, y, 0)) <= Start(n) < PageOf(Offs(w, z, y + 1, 0)) && n.P1? ==> n == P1(w, z, y)
    ensures PageOf(Offs(w, z, 0, 0)) <= Start(n) < PageOf(Offs(w, z + 1, 0, 0)) && (n.P1? || n.P2?) ==>
            n.w == w && n.z == z
    ensures PageOf(Offs(w, 0, 0, 0)) <= Start(n) < PageOf(Offs(w + 1, 0, 0, 0)) ==> n.w == w
  {
    hide PageOf, OffsOf;
    PagesUnder(Start(n), w, z, y);
    match n
    case P3(w') => OffsOfPageOf(Offs(w', 0, 0, 0));
    case P2(w', z') => OffsOfPageOf(Offs(w', z', 0, 0));
    case P1(w', z', y') => OffsOfPageOf(Offs(w', z', y', 0));
  }

  /** Nothing hangs under an absent entry. */
  lemma NothingUnderAbsentP1(ram: Ram, own: Owners, root: nat, data: map<nat, nat>, w: nat, z: nat, y: nat)
    requires TearReady(ram, own, root, data) && w < 256 && z < 512 && y < 512
    requires TableAt(ram, root, P2(w, z)).Some? && !Present(Slot(ram, TableAt(ram, root, P2(w, z)).value, y))
    ensures Holdings(own, root, data, PageOf(Offs(w, z, y, 0)), PageOf(Offs(w, z, y + 1, 0)), 1) == {}
  {
    hide Slot, Lookup, Start, PageOf, NoHugeIn, TreeOk;
    forall f | f in data && PageOf(Offs(w, z, y, 0)) <= data[f] < PageOf(Offs(w, z, y + 1, 0)) ensures false {
      AbsentSubtree(ram, root, w, z, y, data[f]);
    }
    forall f | f in own && own[f].space == root && own[f].node.P1? &&
               PageOf(Offs(w, z, y, 0)) <= Start(own[f].node) < PageOf(Offs(w, z, y + 1, 0))
      ensures false
    {
      TableIndices(ram, own, root, f);
      StartUnder(own[f].node, w, z, y);
    }
  }

  lemma NothingUnderAbsentP2(ram: Ram, own: Owners, root: nat, data: map<nat, nat>, w: nat, z: nat)
    requires TearReady(ram, own, root, data) && w < 256 && z < 512
    requires TableAt(ram, root, P3(w)).Some? && !Present(Slot(ram, TableAt(ram, root, P3(w)).value, z))
    ensures Holdings(own, root, data, PageOf(Offs(w, z, 0, 0)), PageOf(Offs(w, z + 1, 0, 0)), 2) == {}
  {
    hide Slot, Lookup, Start, PageOf, NoHugeIn, TreeOk;
    forall f | f in data && PageOf(Offs(w, z, 0, 0)) <= data[f] < PageOf(Offs(w, z + 1, 0, 0)) ensures false {
      AbsentSubtree(ram, root, w, z, 0, data[f]);
    }
    forall f | f in own && own[f].space == root && Level(own[f].node) <= 2 &&
               PageOf(Offs(w, z, 0, 0)) <= Start(own[f].node) < PageOf(Offs(w, z + 1, 0, 0))
      ensures false
    {
      TableIndices(ram, own, root, f);
      StartUnder(own[f].node, w, z, 0);
    }
  }

  lemma NothingUnderAbsentP3(ram: Ram, own: Owners, root: nat, data: map<nat, nat>, w: nat)
    requires TearReady(ram, own, root, data) && w < 256
    requires !Present(Slot(ram, root, w))
    ensures Holdings(own, root, data, PageOf(Offs(w, 0, 0, 0)), PageOf(Offs(w + 1, 0, 0, 0)), 3) == {}
  {
    hide Slot, Lookup, Start, PageOf, NoHugeIn, TreeOk;
    forall f | f in data && PageOf(Offs(w, 0, 0, 0)) <= data[f] < PageOf(Offs(w + 1, 0, 0, 0)) ensures false {
      AbsentSubtree(ram, root, w, 0, 0, data[f]);
    }
    forall f | f in own && own[f].space == root && Level(own[f].node) <= 3 &&
               PageOf(Offs(w, 0, 0, 0)) <= Start(own[f].node) < PageOf(Offs(w + 1, 0, 0, 0))
      ensures false
    {
      TableIndices(ram, own, root, f);
      StartUnder(own[f].node, w, 0, 0);
    }
  }

  /** The pages of a place end where the next place starts. */
  function End(n: Node): nat
    requires !n.P4?
  {
    match n
    case P3(w) => PageOf(Offs(w + 1, 0, 0, 0))
    case P2(w, z) => PageOf(Offs(w, z + 1, 0, 0))
    case P1(w, z, y) => PageOf(Offs(w, z, y + 1, 0))
  }

  ghost predicate NodeOk(n: Node) {
    match n
    case P4 => false
    case P3(w) => w < 256
    case P2(w, z) => w < 256 && z < 512
    case P1(w, z, y) => w < 256 && z < 512 && y < 512
  }

  /** A place's holdings are those of the places under it and its own table. */
  lemma HoldingsClose(ram: Ram, own: Owners, root: nat, data: map<nat, nat>, n: Node)
    requires TearReady(ram, own, root, data) && NodeOk(n) && TableAt(ram, root, n).Some?
    ensures Holdings(own, root, data, Start(n), End(n), Level(n)) ==
            Holdings(own, root, data, Start(n), End(n), Level(n) - 1) + {TableAt(ram, root, n).value}
    ensures TableAt(ram, root, n).value in own && TableAt(ram, root, n).value > 0
    ensures TableAt(ram, root, n).value !in Holdings(own, root, data, Start(n), End(n), Level(n) - 1)
  {
    hide Slot, Lookup, Start, End, PageOf, NoHugeIn, TreeOk, TableAt;
    var t := TableAt(ram, root, n).value;
    TreeFacts(ram, own);
    TableTag(ram, own, root, n);
    FrameInRam(ram, own, t);
    StartBelowEnd(n);
    forall f | f in own && own[f].space == root && Level(own[f].node) == Level(n) &&
               Start(n) <= Start(own[f].node) < End(n)
      ensures f == t
    {
      TableIndices(ram, own, root, f);
      SameLevelSameNode(own[f].node, n);
    }
  }

  lemma StartBelowEnd(n: Node)
    requires NodeOk(n)
    ensures Start(n) < End(n)
  {
  }

  lemma SameLevelSameNode(k: Node, n: Node)
    requires NodeOk(k) && NodeOk(n) && Level(k) == Level(n) && Start(n) <= Start(k) < End(n)
    ensures k == n
  {
    hide PageOf;
    match n
    case P3(w) => StartUnder(k, w, 0, 0);
    case P2(w, z) => StartUnder(k, w, z, 0);
    case P1(w, z, y) => StartUnder(k, w, z, y);
  }

  /** Freeing the holdings of `[pos, next)` after those of `[lo, pos)` frees those of `[lo, next)`. */
  lemma Peel(own: Owners, root: nat, data: map<nat, nat>, lo: nat, pos: nat, next: nat, hi: nat, level: nat,
             before: set<nat>, taken: set<nat>)
    requires lo <= pos <= next <= hi && data.Keys !! own.Keys
    requires Holdings(own, root, data, lo, hi, level) <= before
    requires taken == before - Holdings(own, root, data, lo, pos, level)
    ensures Holdings(own, root, data, pos, next, level) <= taken
    ensures taken - Holdings(own, root, data, pos, next, level) == before - Holdings(own, root, data, lo, next, level)
  {
    hide Holdings;
    HoldingsSplit(own, root, data, lo, pos, next, level);
    HoldingsSplit(own, root, data, lo, next, hi, level);
  }

  lemma NoHoldings(own: Owners, root: nat, data: map<nat, nat>, lo: nat, level: nat)
    ensures Holdings(own, root, data, lo, lo, level) == {}
  {
  }

  /** The holding of one mapped page is its frame. */
  lemma PageHolding(ram: Ram, own: Owners, root: nat, data: map<nat, nat>, u: nat)
    requires TearReady(ram, own, root, data) && u < LOWER
    ensures Holdings(own, root, data, u, u + 1, 0) ==
            if Lookup(ram, root, u).Some? then {Lookup(ram, root, u).value.frame} else {}
    ensures Lookup(ram, root, u).Some? ==> Lookup(ram, root, u).value.frame > 0
  {
    hide TreeOk, Lookup, Start, NoHugeIn;
  }

  lemma TearFacts(ram: Ram, own: Owners, root: nat, data: map<nat, nat>)
    requires TearReady(ram, own, root, data)
    ensures data.Keys !! own.Keys && IsRoot(own, root)
  {
  }

  lemma HoldingsMonotone(own: Owners, root: nat, data: map<nat, nat>, lo: nat, hi: nat, level: nat)
    ensures Holdings(own, root, data, lo, hi, level) <= Holdings(own, root, data, lo, hi, level + 1)
  {
    hide Start, Level;
  }

  /** One pmm_unalloc of a page that is taken. */
  method FreeFrame(pmm: FrameAllocator, f: nat)
    requires pmm.Valid() && f > 0 && f in pmm.taken
    modifies pmm, pmm.bitmap
    ensures pmm.Valid() && pmm.Drift() == old(pmm.Drift())
    ensures pmm.taken == old(pmm.taken) - {f}
  {
    assert (f * 0x1000) / 0x1000 == f && Pages(0x1000) == 1;
    assert Range(f, 1) == {f};
    assert f < pmm.MaxPage();
    hide FrameAllocator.Valid, FrameAllocator.Drift;
    var ok := pmm.Unalloc(f * 0x1000, 0x1000);
  }

  /** The x loop: the pages of one P1 table, then the table. */
  method TearP1(m: PageMapper, root: nat, w: nat, z: nat, y: nat, table: nat, ghost data: map<nat, nat>)
    requires m.pmm.Valid() && TearReady(m.ram, m.own, root, data) && w < 256 && z < 512 && y < 512
    requires TableAt(m.ram, root, P1(w, z, y)) == Some(table)
    requires Holdings(m.own, root, data, Start(P1(w, z, y)), End(P1(w, z, y)), 1) <= m.pmm.taken
    modifies m.pmm, m.pmm.bitmap
    ensures m.pmm.Valid() && m.pmm.Drift() == old(m.pmm.Drift())
    ensures m.pmm.taken == old(m.pmm.taken) - Holdings(m.own, root, data, Start(P1(w, z, y)), End(P1(w, z, y)), 1)
  {
    hide FrameAllocator.Valid, FrameAllocator.Drift, TearReady, Holdings, TableAt, PageOf, Lookup, LeafOf, Slot;
    ghost var n := P1(w, z, y);
    ghost var lo, hi := Start(n), End(n);
    HoldingsClose(m.ram, m.own, root, data, n);
    HoldingsMonotone(m.own, root, data, lo, hi, 0);
    NoHoldings(m.own, root, data, lo, 0);
    TearFacts(m.ram, m.own, root, data);
    Carry(w, z, y, 0);
    for x := 0 to 512
      invariant m.pmm.Valid() && m.pmm.Drift() == old(m.pmm.Drift())
      invariant m.pmm.taken == old(m.pmm.taken) - Holdings(m.own, root, data, lo, PageOf(Offs(w, z, y, x)), 0)
      invariant lo <= PageOf(Offs(w, z, y, x))
    {
      ghost var o := Offs(w, z, y, x);
      Carry(w, z, y, x);
      OffsOfPageOf(o);
      PageInside(w, z, y, x);
      LookupInP1(m.ram, root, o);
      PageHolding(m.ram, m.own, root, data, PageOf(o));
      Peel(m.own, root, data, lo, PageOf(o), PageOf(o) + 1, hi, 0, old(m.pmm.taken), m.pmm.taken);
      var e := Slot(m.ram, table, x);
      LeafOfIs(e);
      if Present(e) {
        FreeFrame(m.pmm, e.hi);
      }
    }
    FreeFrame(m.pmm, table);
  }

  lemma PageInside(w: nat, z: nat, y: nat, x: nat)
    requires x < 512
    ensures Start(P1(w, z, y)) <= PageOf(Offs(w, z, y, x)) < End(P1(w, z, y))
  {
  }

  /** The y loop: the P1 tables under one P2 table, then the table. */
  method TearP2(m: PageMapper, root: nat, w: nat, z: nat, table: nat, ghost data: map<nat, nat>)
    requires m.pmm.Valid() && TearReady(m.ram, m.own, root, data) && w < 256 && z < 512
    requires TableAt(m.ram, root, P2(w, z)) == Some(table)
    requires Holdings(m.own, root, data, Start(P2(w, z)), End(P2(w, z)), 2) <= m.pmm.taken
    modifies m.pmm, m.pmm.bitmap
    ensures m.pmm.Valid() && m.pmm.Drift() == old(m.pmm.Drift())
    ensures m.pmm.taken == old(m.pmm.taken) - Holdings(m.own, root, data, Start(P2(w, z)), End(P2(w, z)), 2)
  {
    hide FrameAllocator.Valid, FrameAllocator.Drift, TearReady, Holdings, PageOf, Slot;
    ghost var lo, hi := Start(P2(w, z)), End(P2(w, z));
    HoldingsClose(m.ram, m.own, root, data, P2(w, z));
    HoldingsMonotone(m.own, root, data, lo, hi, 1);
    NoHoldings(m.own, root, data, lo, 1);
    TearFacts(m.ram, m.own, root, data);
    Carry(w, z, 0, 0);
    for y := 0 to 512
      invariant m.pmm.Valid() && m.pmm.Drift() == old(m.pmm.Drift())
      invariant m.pmm.taken == old(m.pmm.taken) - Holdings(m.own, root, data, lo, PageOf(Offs(w, z, y, 0)), 1)
    {
      Inside(w, z, y);
      Peel(m.own, root, data, lo, PageOf(Offs(w, z, y, 0)), PageOf(Offs(w, z, y + 1, 0)), hi, 1, old(m.pmm.taken),
          m.pmm.taken);
      var e := Slot(m.ram, table, y);
      if Present(e) {
        TearNoHuge(m.ram, m.own, root, data, w, z, y);
        TearP1(m, root, w, z, y, e.hi, data);
      } else {
        NothingUnderAbsentP1(m.ram, m.own, root, data, w, z, y);
      }
    }
    FreeFrame(m.pmm, table);
  }

  /** The z loop: the P2 tables under one P3 table, then the table. */
  method TearP3(m: PageMapper, root: nat, w: nat, table: nat, ghost data: map<nat, nat>)
    requires m.pmm.Valid() && TearReady(m.ram, m.own, root, data) && w < 256
    requires TableAt(m.ram, root, P3(w)) == Some(table)
    requires Holdings(m.own, root, data, Start(P3(w)), End(P3(w)), 3) <= m.pmm.taken
    modifies m.pmm, m.pmm.bitmap
    ensures m.pmm.Valid() && m.pmm.Drift() == old(m.pmm.Drift())
    ensures m.pmm.taken == old(m.pmm.taken) - Holdings(m.own, root, data, Start(P3(w)), End(P3(w)), 3)
  {
    hide FrameAllocator.Valid, FrameAllocator.Drift, TearReady, Holdings, PageOf, Slot;
    ghost var lo, hi := Start(P3(w)), End(P3(w));
    HoldingsClose(m.ram, m.own, root, data, P3(w));
    HoldingsMonotone(m.own, root, data, lo, hi, 2);
    NoHoldings(m.own, root, data, lo, 2);
    TearFacts(m.ram, m.own, root, data);
    Carry(w, 0, 0, 0);
    for z := 0 to 512
      invariant m.pmm.Valid() && m.pmm.Drift() == old(m.pmm.Drift())
      invariant m.pmm.taken == old(m.pmm.taken) - Holdings(m.own, root, data, lo, PageOf(Offs(w, z, 0, 0)), 2)
    {
      Inside(w, z, 0);
      Peel(m.own, root, data, lo, PageOf(Offs(w, z, 0, 0)), PageOf(Offs(w, z + 1, 0, 0)), hi, 2, old(m.pmm.taken),
          m.pmm.taken);
      var e := Slot(m.ram, table, z);
      if Present(e) {
        TearTableBelow(m.ram, m.own, root, data, P3(w), z);
        TearP2(m, root, w, z, e.hi, data);
      } else {
        NothingUnderAbsentP2(m.ram, m.own, root, data, w, z);
      }
    }
    FreeFrame(m.pmm, table);
  }

  lemma Inside(w: nat, z: nat, y: nat)
    requires z < 512 && y < 512
    ensures PageOf(Offs(w, z, 0, 0)) <= PageOf(Offs(w, z, y, 0)) <= PageOf(Offs(w, z, y + 1, 0))
    ensures PageOf(Offs(w, z, y + 1, 0)) <= PageOf(Offs(w, z + 1, 0, 0))
    ensures PageOf(Offs(w, 0, 0, 0)) <= PageOf(Offs(w, z, 0, 0)) <= PageOf(Offs(w, z + 1, 0, 0))
    ensures PageOf(Offs(w, z + 1, 0, 0)) <= PageOf(Offs(w + 1, 0, 0, 0))
    ensures w < 256 ==> PageOf(Offs(w, 0, 0, 0)) <= PageOf(Offs(w + 1, 0, 0, 0)) <= LOWER
  {
  }

  lemma TearNoHuge(ram: Ram, own: Owners, root: nat, data: map<nat, nat>, w: nat, z: nat, y: nat)
    requires TearReady(ram, own, root, data) && w < 256 && z < 512 && y < 512 && TableAt(ram, root, P2(w, z)).Some?
    ensures !Huge(Slot(ram, TableAt(ram, root, P2(w, z)).value, y))
  {
    hide TreeOk, TableAt, Lookup, Slot, Private;
    TreeFacts(ram, own);
    TableTag(ram, own, root, P2(w, z));
  }

  lemma TearTableBelow(ram: Ram, own: Owners, root: nat, data: map<nat, nat>, n: Node, i: nat)
    requires TearReady(ram, own, root, data) && (n.P4? || n.P3?) && i < 512 && TableAt(ram, root, n).Some?
    requires Present(Slot(ram, TableAt(ram, root, n).value, i))
    ensures !Huge(Slot(ram, TableAt(ram, root, n).value, i))
  {
    hide TreeOk, TableAt, Slot, Huge, Private, NoHugeIn;
    TreeFacts(ram, own);
    TableTag(ram, own, root, n);
    PresentChild(ram, own, TableAt(ram, root, n).value, i);
  }

  /** The tables of one address space's lower half, its root among them. */
  ghost function TablesOf(own: Owners, root: nat): set<nat> {
    set f | f in own && own[f].space == root
  }

  /** Dropping an address space leaves the tables of the others well formed. */
  lemma ForgetSpace(ram: Ram, own: Owners, root: nat)
    requires TreeOk(ram, own) && IsRoot(own, root)
    ensures TreeOk(ram, own - TablesOf(own, root))
  {
    hide Slot, RamOk, TableAt;
    var own' := own - TablesOf(own, root);
    forall f, i | f in own' && 0 <= i < 512 ensures SlotOk(Slot(ram, f, i), own', own'[f], i) {
      assert SlotOk(Slot(ram, f, i), own, own[f], i);
      assert own[f].space != root && root > 0;
    }
  }

  /** vmm_deconstruct_address_space */
  method Teardown(m: PageMapper, root: nat, ghost data: map<nat, nat>)
    requires m.Valid() && TearReady(m.ram, m.own, root, data) && data.Keys <= m.pmm.taken
    modifies m, m.pmm, m.pmm.bitmap
    ensures m.Valid() && m.pmm.Drift() == old(m.pmm.Drift())
    ensures m.ram == old(m.ram) && m.own == old(m.own) - TablesOf(old(m.own), root)
    ensures m.pmm.taken == old(m.pmm.taken) - data.Keys - TablesOf(old(m.own), root)
  {
    hide FrameAllocator.Valid, FrameAllocator.Drift, TearReady, Holdings, PageOf, Slot, TreeOk;
    TearFacts(m.ram, m.own, root, data);
    AllHoldings(m.ram, m.own, root, data);
    NoHoldings(m.own, root, data, 0, 3);
    Carry(0, 0, 0, 0);
    for w := 0 to 256
      modifies m.pmm, m.pmm.bitmap
      invariant m.pmm.Valid() && m.pmm.Drift() == old(m.pmm.Drift())
      invariant m.pmm.taken == old(m.pmm.taken) - Holdings(m.own, root, data, 0, PageOf(Offs(w, 0, 0, 0)), 3)
    {
      Inside(w, 0, 0);
      Peel(m.own, root, data, 0, PageOf(Offs(w, 0, 0, 0)), PageOf(Offs(w + 1, 0, 0, 0)), LOWER, 3, old(m.pmm.taken),
          m.pmm.taken);
      var e := Slot(m.ram, root, w);
      if Present(e) {
        TearTableBelow(m.ram, m.own, root, data, P4, w);
        TearP3(m, root, w, e.hi, data);
      } else {
        NothingUnderAbsentP3(m.ram, m.own, root, data, w);
      }
    }
    FreeFrame(m.pmm, root);
    ForgetSpace(m.ram, m.own, root);
    m.own := m.own - TablesOf(m.own, root);
  }

  /** Pages, lower tables and the root are everything an address space holds. */
  lemma AllHoldings(ram: Ram, own: Owners, root: nat, data: map<nat, nat>)
    requires TearReady(ram, own, root, data)
    ensures Holdings(own, root, data, 0, LOWER, 3) + {root} == data.Keys + TablesOf(own, root)
    ensures root !in Holdings(own, root, data, 0, LOWER, 3) && root > 0
  {
    hide Slot, Lookup, TreeOk, NoHugeIn, TableAt;
    forall f | f in TablesOf(own, root) && f != root
      ensures Level(own[f].node) <= 3 && Start(own[f].node) < LOWER
    {
      TableIndices(ram, own, root, f);
    }
    TreeFacts(ram, own);
    FrameInRam(ram, own, root);
  }

  /** A finished fork leaves the child ready to be taken down, its copies being its pages. */
  lemma ForkIsTearReady(m0: Mem, m: Mem, parent: nat, child: nat, copies: map<nat, nat>)
    requires ForkState(m0, m, parent, child, copies, LOWER) && ForkReady(m0, parent) && 0 in m0.taken
    ensures TearReady(m.ram, m.own, child, copies) && copies.Keys <= m.taken
    ensures m.own - TablesOf(m.own, child) == m0.own
    ensures m.taken - copies.Keys - TablesOf(m.own, child) == m0.taken
  {
    hide TreeOk, Forkable, Lookup, Slot, NoHugeIn, Contents;
    assert child > 0 by { TableFacts(m.ram, m.own, child); }
    forall f | f in m0.own ensures m0.own[f].space != child {
      SpaceNotChild(m0.ram, m0.own, child, f);
    }
    assert forall u :: 0 <= u < LOWER ==> Copied(m0.ram, parent, m.ram, child, copies, u);
  }

  /** Forking an address space and taking the child down puts the allocator back: the same bitmap
      bytes and the same counters. */
  method ForkThenTeardown(m: PageMapper, parent: nat) returns (ok: bool)
    requires m.Valid() && IsRoot(m.own, parent) && Forkable(m.ram, m.own, parent, m.pmm.taken)
    modifies m, m.pmm, m.pmm.bitmap
    ensures m.Valid()
    ensures ok ==> m.own == old(m.own) && m.pmm.bitmap[..] == old(m.pmm.bitmap[..])
    ensures ok ==> m.pmm.used == old(m.pmm.used) && m.pmm.available == old(m.pmm.available)
    ensures ok ==> forall f :: f in old(m.pmm.taken) ==> Contents(m.ram, f) == Contents(old(m.ram), f)
    ensures !ok ==> m.Exhausted()
  {
    hide ForkState, Forkable, Contents, IsFork, TearReady, TreeOk, ForkReady, TakenPages;
    IsForkReady(m, parent);
    ghost var m0 := Now(m);
    var child, copies := Fork(m, parent);
    if child.None? {
      return false;
    }
    ForkIsTearReady(m0, Now(m), parent, child.value, copies);
    ForkKeepsContents(m0, Now(m), parent, child.value);
    Teardown(m, child.value, copies);
    TakenPagesDetermineBitmap(m.pmm.bitmap[..], old(m.pmm.bitmap[..]));
    ok := true;
  }

  lemma ForkKeepsContents(m0: Mem, m: Mem, parent: nat, child: nat)
    requires IsFork(m0, m, parent, child)
    ensures forall f :: f in m0.taken ==> Contents(m.ram, f) == Contents(m0.ram, f)
  {
    hide Contents, Lookup, Slot;
  }
}
