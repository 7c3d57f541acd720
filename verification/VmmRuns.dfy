/** Whole sequences of page-table calls on one address space refine updates of a flat map from
    virtual page to frame and flags (src/mm/vmm.c). */
module VmmRuns {
  import opened Common
  import opened Pmm
  import opened PageTables
  import opened VirtualPages
  import opened Vmm

  /** An address space as a flat map. */
  type Flat = imap<nat, Leaf>

  ghost function At(flat: Flat, u: nat): Option<Leaf> {
    if u in flat then Some(flat[u]) else None
  }

  ghost function View(ram: Ram, root: nat): Flat {
    imap u: nat | u < VPAGES && Lookup(ram, root, u).Some? :: Lookup(ram, root, u).value
  }

  /** A call on the pages `[v, v + count)`. */
  datatype Call = Call(op: PageOp, v: nat, count: nat)

  predicate CallOk(c: Call) {
    c.v < VPAGES && InOneHalf(c.v, c.count)
  }

  ghost function AfterCall(flat: Flat, c: Call): Flat {
    imap u: nat | u < VPAGES && NewAt(flat, c, u).Some? :: NewAt(flat, c, u).value
  }

  ghost function NewAt(flat: Flat, c: Call, u: nat): Option<Leaf> {
    if c.v <= u < c.v + c.count then Wanted(c.op, u - c.v, At(flat, u)) else At(flat, u)
  }

  predicate Covers(c: Call, u: nat) {
    c.v <= u < c.v + c.count
  }

  /** Call `i` is the last of `cs` to touch page `u`. */
  ghost predicate LastOn(cs: seq<Call>, i: nat, u: nat) {
    i < |cs| && Covers(cs[i], u) && forall j :: i < j < |cs| ==> !Covers(cs[j], u)
  }

  lemma AfterCallAt(flat: Flat, c: Call, u: nat)
    requires u < VPAGES
    ensures At(AfterCall(flat, c), u) == if Covers(c, u) then Wanted(c.op, u - c.v, At(flat, u)) else At(flat, u)
  {
    hide Wanted;
  }

  lemma LastOfCalls(flat: Flat, cs: seq<Call>)
    requires cs != []
    ensures AfterCalls(flat, cs) == AfterCall(AfterCalls(flat, cs[..|cs| - 1]), cs[|cs| - 1])
  {
  }

  /** A page no call touches is as it was. */
  lemma {:induction false} UntouchedPage(flat: Flat, cs: seq<Call>, u: nat)
    requires u < VPAGES && forall i :: 0 <= i < |cs| ==> !Covers(cs[i], u)
    ensures At(AfterCalls(flat, cs), u) == At(flat, u)
    decreases |cs|
  {
    if cs != [] {
      hide *;
      var n := |cs| - 1;
      LastOfCalls(flat, cs);
      UntouchedPage(flat, cs[..n], u);
      AfterCallAt(AfterCalls(flat, cs[..n]), cs[n], u);
    }
  }

  /** A page is as the last call on it promises. */
  lemma {:induction false} LastCallDecides(flat: Flat, cs: seq<Call>, i: nat, u: nat)
    requires u < VPAGES && LastOn(cs, i, u)
    ensures Does(cs[i].op, u - cs[i].v, At(AfterCalls(flat, cs[..i]), u), At(AfterCalls(flat, cs), u))
    decreases |cs|
  {
    hide AfterCall, AfterCalls, At, Does, Wanted;
    var n := |cs| - 1;
    LastOfCalls(flat, cs);
    AfterCallAt(AfterCalls(flat, cs[..n]), cs[n], u);
    if i == n {
      WantedDoes(cs[n].op, u - cs[n].v, At(AfterCalls(flat, cs[..n]), u));
    } else {
      LastCallDecides(flat, cs[..n], i, u);
      assert cs[..n][..i] == cs[..i];
    }
  }

  /** What the call returns: mapping reports a page already there, unmapping a page missing. */
  ghost predicate Complains(flat: Flat, c: Call) {
    match c.op
    case Map(_, _) => exists u :: c.v <= u < c.v + c.count && u in flat
    case Remap(_, _) => false
    case Unmap => exists u :: c.v <= u < c.v + c.count && u !in flat
  }

  ghost function AfterCalls(flat: Flat, cs: seq<Call>): Flat {
    if cs == [] then flat else AfterCall(AfterCalls(flat, cs[..|cs| - 1]), cs[|cs| - 1])
  }

  lemma AfterCallsSteps(flat: Flat, cs: seq<Call>)
    ensures AfterCalls(flat, cs[..0]) == flat
    ensures forall k :: 0 <= k < |cs| ==> AfterCalls(flat, cs[..k + 1]) == AfterCall(AfterCalls(flat, cs[..k]), cs[k])
  {
    hide AfterCall;
    forall k | 0 <= k < |cs| ensures AfterCalls(flat, cs[..k + 1]) == AfterCall(AfterCalls(flat, cs[..k]), cs[k]) {
      assert cs[..k + 1][..k] == cs[..k];
    }
  }

  /** A finished page operation is one update of the flat view. */
  lemma RunIsCall(ram0: Ram, own0: Owners, ram: Ram, own: Owners, root: nat, c: Call)
    requires RunState(ram0, own0, ram, own, root, c.op, c.v, c.count) && c.v + c.count <= VPAGES
    ensures View(ram, root) == AfterCall(View(ram0, root), c)
  {
    hide TreeOk, TablesAdded, OnlyTablesOf, TablesKept, OthersKept, Lookup, Wanted;
    forall u: nat | u < VPAGES ensures Lookup(ram, root, u) == NewAt(View(ram0, root), c, u) {
      assert At(View(ram0, root), u) == Lookup(ram0, root, u);
    }
  }

  /** What calls on `root` leave alone: the lower halves of the other address spaces, every frame that
      holds no table, frame 0 among them. */
  ghost predicate ElseKept(ram0: Ram, own0: Owners, ram: Ram, own: Owners, root: nat) {
    && OthersKept(ram0, ram, own0, root) && own0.Keys <= own.Keys && (forall r :: IsRoot(own0, r) ==> IsRoot(own, r))
    && 0 !in own && |ram| == |ram0| && (forall f :: 0 <= f < |ram| && f !in own ==> ram[f] == ram0[f])
  }

  lemma RunKeepsElse(ram0: Ram, own0: Owners, ram: Ram, own: Owners, root: nat, op: PageOp, v: nat, n: nat)
    requires RunState(ram0, own0, ram, own, root, op, v, n)
    ensures ElseKept(ram0, own0, ram, own, root)
  {
    hide Lookup, Linked, TablesKept, HugeFreeKept, RootSlotsKept, Updated, Slot;
  }

  lemma ElseKeptTransitive(ram0: Ram, own0: Owners, ram1: Ram, own1: Owners, ram2: Ram, own2: Owners, root: nat)
    requires ElseKept(ram0, own0, ram1, own1, root) && ElseKept(ram1, own1, ram2, own2, root)
    ensures ElseKept(ram0, own0, ram2, own2, root)
  {
    hide Lookup;
  }

  lemma ElseKeptReflexive(ram: Ram, own: Owners, root: nat)
    requires TreeOk(ram, own)
    ensures ElseKept(ram, own, ram, own, root)
  {
    hide Linked, Slot;
  }

  lemma ViewAt(ram: Ram, root: nat)
    ensures forall u: nat :: u < VPAGES ==> At(View(ram, root), u) == Lookup(ram, root, u)
  {
  }

  /** The pages after any calls, and what a program may do with them. */
  lemma PagesAfter(ram0: Ram, ram: Ram, own: Owners, root: nat, cs: seq<Call>)
    requires TreeOk(ram, own) && IsRoot(own, root) && View(ram, root) == AfterCalls(View(ram0, root), cs)
    ensures forall u: nat :: u < VPAGES && (forall i :: 0 <= i < |cs| ==> !Covers(cs[i], u)) ==>
              Lookup(ram, root, u) == Lookup(ram0, root, u)
    ensures forall i: nat, u: nat :: u < VPAGES && LastOn(cs, i, u) ==>
              Does(cs[i].op, u - cs[i].v, At(AfterCalls(View(ram0, root), cs[..i]), u), Lookup(ram, root, u))
    ensures forall u: nat :: u < VPAGES ==>
              Granted(ram, root, OffsOf(u)) == match Lookup(ram, root, u)
                                               case None => None
                                               case Some(leaf) => Some(AccessBits(leaf.flags))
  {
    hide TreeOk, IsRoot, Walk, View, AfterCalls, At, Does, Granted, OffsOf, AccessBits;
    ViewAt(ram0, root);
    ViewAt(ram, root);
    forall u: nat | u < VPAGES && forall i :: 0 <= i < |cs| ==> !Covers(cs[i], u)
      ensures Lookup(ram, root, u) == Lookup(ram0, root, u)
    {
      UntouchedPage(View(ram0, root), cs, u);
    }
    forall i: nat, u: nat | u < VPAGES && LastOn(cs, i, u)
      ensures Does(cs[i].op, u - cs[i].v, At(AfterCalls(View(ram0, root), cs[..i]), u), Lookup(ram, root, u))
    {
      LastCallDecides(View(ram0, root), cs, i, u);
    }
    forall u: nat | u < VPAGES
      ensures Granted(ram, root, OffsOf(u)) == match Lookup(ram, root, u)
                                               case None => None
                                               case Some(leaf) => Some(AccessBits(leaf.flags))
    {
      PageOfOffsOf(u);
      GrantedByLeaf(ram, own, root, OffsOf(u));
    }
  }

  /** The physical address of `virt` by the flat map. */
  ghost function AddressIn(flat: Flat, virt: nat): Option<nat> {
    match At(flat, virt / 0x1000)
    case None => None
    case Some(leaf) => Some(leaf.frame * 0x1000 + virt % 0x1000)
  }

  /** The kernel's own translation reads the flat map at an address exactly if that address is not one of
      those that make it stray into frame 0. */
  lemma ViewTranslates(ram: Ram, own: Owners, root: nat, virt: nat)
    requires TreeOk(ram, own) && IsRoot(own, root) && virt < VPAGES * 0x1000
    ensures VirtToPhys(ram, root, virt) == AddressIn(View(ram, root), virt) <==> !StrayHuge(ram, root, VirtToOffs(virt))
  {
    hide TreeOk, IsRoot, VirtToPhys, StrayHuge, Walk, OffsOf, VirtToOffs;
    VirtToPhysExact(ram, own, root, virt);
    VirtToOffsIsOffsOf(virt);
  }

  /** No word of frame 0 looks like a 2 MiB entry. */
  predicate CleanFrame0(ram: Ram) {
    forall i :: 0 <= i < 512 ==> !Huge(Slot(ram, 0, i))
  }

  /** Over any calls: with a clean frame 0 the kernel translates every address as the flat map does. */
  lemma CleanTranslates(ram0: Ram, own0: Owners, ram: Ram, own: Owners, root: nat, virt: nat)
    requires TreeOk(ram, own) && IsRoot(own, root) && virt < VPAGES * 0x1000
    requires ElseKept(ram0, own0, ram, own, root) && CleanFrame0(ram0)
    ensures VirtToPhys(ram, root, virt) == AddressIn(View(ram, root), virt)
  {
    hide TreeOk, IsRoot, VirtToPhys, View, AddressIn, OthersKept;
    ViewTranslates(ram, own, root, virt);
    assert Slot(ram, 0, VirtToOffs(virt).p2) == Slot(ram0, 0, VirtToOffs(virt).p2);
  }

  /** One call. */
  method Perform(m: PageMapper, root: nat, c: Call) returns (ret: Option<nat>)
    requires m.Valid() && IsRoot(m.own, root) && CallOk(c)
    modifies m, m.pmm, m.pmm.bitmap
    ensures m.Valid() && IsRoot(m.own, root) && m.pmm.Drift() == old(m.pmm.Drift())
    ensures TookTables(old(m.pmm.taken), old(m.own), m.pmm.taken, m.own)
    ensures ret.None? ==> m.Exhausted()
    ensures ret.Some? ==> View(m.ram, root) == AfterCall(old(View(m.ram, root)), c)
    ensures ret.Some? ==> ElseKept(old(m.ram), old(m.own), m.ram, m.own, root)
    ensures ret.Some? ==> ret.value == if Complains(old(View(m.ram, root)), c) then 1 else 0
  {
    hide View, AfterCall, PageMapper.Valid, PageMapper.Exhausted, FrameAllocator.Drift, IsRoot, RunState, Lookup;
    assert PageNo(c.v * 0x1000) == c.v;
    match c.op {
      case Map(frame, perms) => ret := m.MapPages(frame * 0x1000, c.v * 0x1000, root, c.count, perms);
      case Remap(frame, perms) => ret := m.RemapPages(frame * 0x1000, c.v * 0x1000, root, c.count, perms);
      case Unmap => ret := m.UnmapPages(c.v * 0x1000, root, c.count);
    }
    if ret.Some? {
      RunIsCall(old(m.ram), old(m.own), m.ram, m.own, root, c);
      RunKeepsElse(old(m.ram), old(m.own), m.ram, m.own, root, c.op, c.v, c.count);
      ViewHas(old(m.ram), root);
    }
  }

  lemma ViewHas(ram: Ram, root: nat)
    ensures forall u: nat :: u < VPAGES ==> (u in View(ram, root) <==> Lookup(ram, root, u).Some?)
  {
  }

  /** Any sequence of map, remap and unmap calls leaves the address space translating as the flat
      map updated call by call, and each call returns what the flat map says it should. The kernel's own
      translation agrees with that map at an address exactly if it does not stray into frame 0 there, and
      so everywhere if frame 0 was clean before the first call. Other address spaces keep their lower
      halves, and the frames taken meanwhile are exactly the new tables. */
  method PerformAll(m: PageMapper, root: nat, cs: seq<Call>) returns (rets: Option<seq<nat>>)
    requires m.Valid() && IsRoot(m.own, root)
    requires forall i :: 0 <= i < |cs| ==> CallOk(cs[i])
    modifies m, m.pmm, m.pmm.bitmap
    ensures m.Valid() && IsRoot(m.own, root) && m.pmm.Drift() == old(m.pmm.Drift())
    ensures TookTables(old(m.pmm.taken), old(m.own), m.pmm.taken, m.own)
    ensures rets.None? ==> m.Exhausted()
    ensures rets.Some? ==> View(m.ram, root) == AfterCalls(old(View(m.ram, root)), cs)
    ensures rets.Some? ==> forall u: nat :: u < VPAGES && (forall i :: 0 <= i < |cs| ==> !Covers(cs[i], u)) ==>
              Lookup(m.ram, root, u) == old(Lookup(m.ram, root, u))
    ensures rets.Some? ==> forall i: nat, u: nat :: u < VPAGES && LastOn(cs, i, u) ==>
              Does(cs[i].op, u - cs[i].v, At(AfterCalls(old(View(m.ram, root)), cs[..i]), u), Lookup(m.ram, root, u))
    ensures rets.Some? ==> forall u: nat :: u < VPAGES ==>
              Granted(m.ram, root, OffsOf(u)) == match Lookup(m.ram, root, u)
                                                 case None => None
                                                 case Some(leaf) => Some(AccessBits(leaf.flags))
    ensures rets.Some? ==> ElseKept(old(m.ram), old(m.own), m.ram, m.own, root)
    ensures rets.Some? ==> forall virt: nat :: virt < VPAGES * 0x1000 ==>
              (VirtToPhys(m.ram, root, virt) == AddressIn(AfterCalls(old(View(m.ram, root)), cs), virt) <==>
               !StrayHuge(m.ram, root, VirtToOffs(virt)))
    ensures rets.Some? && old(CleanFrame0(m.ram)) ==> forall virt: nat :: virt < VPAGES * 0x1000 ==>
              VirtToPhys(m.ram, root, virt) == AddressIn(AfterCalls(old(View(m.ram, root)), cs), virt)
    ensures rets.Some? ==> |rets.value| == |cs| && forall i :: 0 <= i < |cs| ==>
              rets.value[i] == if Complains(AfterCalls(old(View(m.ram, root)), cs[..i]), cs[i]) then 1 else 0
  {
    hide View, AfterCall, AfterCalls, Complains, PageMapper.Valid, PageMapper.Exhausted, FrameAllocator.Drift, IsRoot;
    hide ElseKept, VirtToPhys, AddressIn, StrayHuge, VirtToOffs, CleanFrame0, TreeOk;
    hide Lookup, Granted, AccessBits, Does, At, OffsOf;
    MapperTree(m);
    ElseKeptReflexive(m.ram, m.own, root);
    AfterCallsSteps(View(m.ram, root), cs);
    ghost var flat := View(m.ram, root);
    var done: seq<nat> := [];
    for k := 0 to |cs|
      invariant m.Valid() && IsRoot(m.own, root) && m.pmm.Drift() == old(m.pmm.Drift())
      invariant TookTables(old(m.pmm.taken), old(m.own), m.pmm.taken, m.own)
      invariant View(m.ram, root) == AfterCalls(flat, cs[..k]) && ElseKept(old(m.ram), old(m.own), m.ram, m.own, root)
      invariant |done| == k && forall i :: 0 <= i < k ==>
                  done[i] == if Complains(AfterCalls(flat, cs[..i]), cs[i]) then 1 else 0
    {
      ghost var ram1, own1 := m.ram, m.own;
      var ret := Perform(m, root, cs[k]);
      if ret.None? {
        return None;
      }
      ElseKeptTransitive(old(m.ram), old(m.own), ram1, own1, m.ram, m.own, root);
      done := done + [ret.value];
    }
    assert cs[..|cs|] == cs;
    rets := Some(done);
    MapperTree(m);
    PagesAfter(old(m.ram), m.ram, m.own, root, cs);
    forall virt: nat | virt < VPAGES * 0x1000
      ensures VirtToPhys(m.ram, root, virt) == AddressIn(View(m.ram, root), virt) <==>
              !StrayHuge(m.ram, root, VirtToOffs(virt))
      ensures CleanFrame0(old(m.ram)) ==> VirtToPhys(m.ram, root, virt) == AddressIn(View(m.ram, root), virt)
    {
      ViewTranslates(m.ram, m.own, root, virt);
      if CleanFrame0(old(m.ram)) {
        CleanTranslates(old(m.ram), old(m.own), m.ram, m.own, root, virt);
      }
    }
  }
}
