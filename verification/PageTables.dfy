/** Four-level page tables in physical memory, as values: the hardware walk, the shape every
    table keeps, and the three writes the kernel makes to a table (src/mm/vmm.c). */
module PageTables {
  import opened Common

  /** The flag bits of an entry. */
  type Bits12 = n: nat | n < 0x1000

  /** A 64-bit word of physical memory split at bit 12, where VMM_4K_PERM_MASK splits it:
      its value is `hi * 0x1000 + lo`. */
  datatype Word = Word(hi: nat, lo: Bits12)

  const ZERO := Word(0, 0)

  type Page = seq<Word>
  type Ram = seq<Page>

  predicate Present(e: Word) {
    e.lo % 2 == 1
  }

  predicate Huge(e: Word) {
    (e.lo / 0x80) % 2 == 1
  }

  /** The entry lets writes and user accesses through: bits 1 and 2 are set. */
  predicate Open(e: Word) {
    e.lo / 2 % 4 == 3
  }

  /** Every frame of physical memory is a page of 512 words. */
  ghost predicate RamOk(ram: Ram) {
    forall f :: 0 <= f < |ram| ==> |ram[f]| == 512
  }

  /** Word `i` of frame `f`; frames beyond memory read as zero. */
  function Slot(ram: Ram, f: nat, i: nat): Word {
    if f < |ram| && i < |ram[f]| then ram[f][i] else ZERO
  }

  function WriteSlot(ram: Ram, f: nat, i: nat, e: Word): (r: Ram)
    requires f < |ram| && i < |ram[f]|
    ensures |r| == |ram|
  {
    ram[f := ram[f][i := e]]
  }

  datatype Offs = Offs(p4: nat, p3: nat, p2: nat, p1: nat)

  predicate OffsOk(o: Offs) {
    o.p4 < 512 && o.p3 < 512 && o.p2 < 512 && o.p1 < 512
  }

  /** What a virtual page translates to: a frame and the low twelve bits of its entry. */
  datatype Leaf = Leaf(frame: nat, flags: Bits12)

  function LeafOf(e: Word): Option<Leaf> {
    if Present(e) then Some(Leaf(e.hi, e.lo)) else None
  }

  /** The processor's 4-level walk (section 4.5 of Intel SDM volume 3A), without 1 GiB pages. */
  function Walk(ram: Ram, root: nat, o: Offs): Option<Leaf> {
    var e4 := Slot(ram, root, o.p4);
    if !Present(e4) then None else
    var e3 := Slot(ram, e4.hi, o.p3);
    if !Present(e3) then None else
    var e2 := Slot(ram, e3.hi, o.p2);
    if !Present(e2) then None else
    if Huge(e2) then Some(Leaf(e2.hi + o.p1, e2.lo)) else
    LeafOf(Slot(ram, e2.hi, o.p1))
  }

  /** What the processor lets a program do with a page. */
  datatype Access = Access(write: bool, user: bool)

  function Both(a: Access, b: Access): Access {
    Access(a.write && b.write, a.user && b.user)
  }

  /** The write and user bits of an entry's low twelve. */
  function AccessBits(lo: Bits12): Access {
    Access(lo / 2 % 2 == 1, lo / 4 % 2 == 1)
  }

  /** What the processor grants: a write or a user access needs its bit in every entry the walk passes
      (section 4.6 of Intel SDM volume 3A). */
  function Granted(ram: Ram, root: nat, o: Offs): Option<Access> {
    var e4 := Slot(ram, root, o.p4);
    if !Present(e4) then None else
    var e3 := Slot(ram, e4.hi, o.p3);
    if !Present(e3) then None else
    var e2 := Slot(ram, e3.hi, o.p2);
    if !Present(e2) then None else
    var upper := Both(AccessBits(e4.lo), Both(AccessBits(e3.lo), AccessBits(e2.lo)));
    if Huge(e2) then Some(upper) else
    var e1 := Slot(ram, e2.hi, o.p1);
    if !Present(e1) then None else Some(Both(upper, AccessBits(e1.lo)))
  }

  /** A table's place in an address space, by the indices that lead to it. */
  datatype Node = P4 | P3(w: nat) | P2(w: nat, z: nat) | P1(w: nat, z: nat, y: nat)

  /** `space` is the root frame for the lower half and 0 for the upper half, whose tables
      several address spaces share. */
  datatype Tag = Tag(space: nat, node: Node)

  type Owners = map<nat, Tag>

  function Space(root: nat, w: nat): nat {
    if w < 256 then root else 0
  }

  function ChildTag(t: Tag, i: nat): Tag
    requires !t.node.P1?
  {
    match t.node
    case P4 => Tag(Space(t.space, i), P3(i))
    case P3(w) => Tag(t.space, P2(w, i))
    case P2(w, z) => Tag(t.space, P1(w, z, i))
  }

  /** A slot above the last level is zero, or points to the table tagged for that slot and lets every
      access through, or is a 2 MiB entry in a P2. */
  ghost predicate SlotOk(e: Word, own: Owners, t: Tag, i: nat) {
    t.node.P1? || e == ZERO ||
    (Present(e) && if Huge(e) then t.node.P2? else Open(e) && e.hi in own && own[e.hi] == ChildTag(t, i))
  }

  /** Every table is a real frame other than frame 0 whose slots respect the tags. A frame has one
      tag, so two places of one address space never share a table. */
  ghost predicate Typed(ram: Ram, own: Owners) {
    && (forall f :: f in own ==> 0 < f < |ram| && (own[f].node.P4? ==> own[f].space == f))
    && (forall f :: f in own && own[f].space != 0 ==> IsRoot(own, own[f].space))
    && (forall f, i :: f in own && 0 <= i < 512 ==> SlotOk(Slot(ram, f, i), own, own[f], i))
  }

  ghost predicate IsRoot(own: Owners, r: nat) {
    r in own && own[r] == Tag(r, P4)
  }

  function Child(ram: Ram, t: Option<nat>, i: nat): Option<nat> {
    if t.Some? && Present(Slot(ram, t.value, i)) && !Huge(Slot(ram, t.value, i))
    then Some(Slot(ram, t.value, i).hi) else None
  }

  /** The table a root reaches at a place. */
  function TableAt(ram: Ram, root: nat, n: Node): Option<nat> {
    match n
    case P4 => Some(root)
    case P3(w) => Child(ram, Some(root), w)
    case P2(w, z) => Child(ram, Child(ram, Some(root), w), z)
    case P1(w, z, y) => Child(ram, Child(ram, Child(ram, Some(root), w), z), y)
  }

  /** Lower-half tables are reachable from their root, so a walk of the tree meets all of them. */
  ghost predicate Linked(ram: Ram, own: Owners) {
    forall f :: f in own && own[f].space != 0 ==>
      TableAt(ram, own[f].space, own[f].node) == Some(f)
  }

  ghost predicate TreeOk(ram: Ram, own: Owners) {
    RamOk(ram) && Typed(ram, own) && Linked(ram, own)
  }

  /** Every root of `own` translates every page alike in both memories. */
  ghost predicate SameWalks(ram: Ram, ram': Ram, own: Owners) {
    forall r, o :: IsRoot(own, r) && OffsOk(o) ==> Walk(ram', r, o) == Walk(ram, r, o)
  }

  /** Every table reachable before is still where it was. */
  ghost predicate TablesKept(ram: Ram, ram': Ram, own: Owners) {
    forall r, n :: IsRoot(own, r) && TableAt(ram, r, n).Some? ==> TableAt(ram', r, n) == TableAt(ram, r, n)
  }

  lemma ChildTagged(ram: Ram, own: Owners, f: nat, i: nat)
    requires RamOk(ram) && Typed(ram, own) && f in own && !own[f].node.P1?
    requires Child(ram, Some(f), i).Some?
    ensures i < 512 && Child(ram, Some(f), i).value in own
    ensures own[Child(ram, Some(f), i).value] == ChildTag(own[f], i)
  {
    assert i < 512;
    assert SlotOk(Slot(ram, f, i), own, own[f], i);
  }

  /** A well-formed tree gives each reachable place the table with that place's tag. */
  lemma TableTag(ram: Ram, own: Owners, r: nat, n: Node)
    requires RamOk(ram) && Typed(ram, own) && IsRoot(own, r)
    requires TableAt(ram, r, n).Some?
    ensures TableAt(ram, r, n).value in own
    ensures own[TableAt(ram, r, n).value] == Tag(if n.P4? then r else Space(r, n.w), n)
    decreases match n case P4 => 0 case P3(_) => 1 case P2(_, _) => 2 case P1(_, _, _) => 3
  {
    hide Slot, Present, Huge, Typed;
    match n
    case P4 =>
    case P3(w) => ChildTagged(ram, own, r, w);
    case P2(w, z) =>
      TableTag(ram, own, r, P3(w));
      ChildTagged(ram, own, TableAt(ram, r, P3(w)).value, z);
    case P1(w, z, y) =>
      TableTag(ram, own, r, P2(w, z));
      ChildTagged(ram, own, TableAt(ram, r, P2(w, z)).value, y);
  }

  lemma OpenGrantsAll(e: Word)
    requires Open(e)
    ensures AccessBits(e.lo) == Access(true, true)
  {
  }

  /** The tables never narrow what a page's own entry allows. */
  lemma GrantedByLeaf(ram: Ram, own: Owners, root: nat, o: Offs)
    requires TreeOk(ram, own) && IsRoot(own, root) && OffsOk(o)
    ensures Granted(ram, root, o) == match Walk(ram, root, o)
                                     case None => None
                                     case Some(leaf) => Some(AccessBits(leaf.flags))
  {
    hide Slot, RamOk, Linked, AccessBits, Open;
    var e4 := Slot(ram, root, o.p4);
    assert SlotOk(e4, own, own[root], o.p4);
    if Present(e4) {
      OpenGrantsAll(e4);
      var e3 := Slot(ram, e4.hi, o.p3);
      assert SlotOk(e3, own, own[e4.hi], o.p3);
      if Present(e3) {
        OpenGrantsAll(e3);
        var e2 := Slot(ram, e3.hi, o.p2);
        assert SlotOk(e2, own, own[e3.hi], o.p2);
        if Present(e2) && !Huge(e2) { OpenGrantsAll(e2); }
      }
    }
  }

  /** Writing one slot of one frame is seen at that slot only. */
  lemma SlotAfterWrite(ram: Ram, f: nat, i: nat, e: Word)
    requires RamOk(ram) && f < |ram| && i < 512
    ensures RamOk(WriteSlot(ram, f, i, e)) && |WriteSlot(ram, f, i, e)| == |ram|
    ensures forall g: nat, j: nat ::
              Slot(WriteSlot(ram, f, i, e), g, j) == if g == f && j == i then e else Slot(ram, g, j)
  {
  }

  lemma WalkAfterLeafWrite(ram: Ram, own: Owners, f: nat, i: nat, e: Word, r: nat, o: Offs)
    requires RamOk(ram) && Typed(ram, own) && f in own && own[f].node.P1? && i < 512
    requires IsRoot(own, r) && OffsOk(o)
    ensures Walk(WriteSlot(ram, f, i, e), r, o) ==
              if TableAt(ram, r, P1(o.p4, o.p3, o.p2)) == Some(f) && o.p1 == i then LeafOf(e) else Walk(ram, r, o)
  {
    hide Slot, WriteSlot, LeafOf, RamOk;
    SlotAfterWrite(ram, f, i, e);
  }

  lemma TableAfterLeafWrite(ram: Ram, own: Owners, f: nat, i: nat, e: Word, r: nat, n: Node)
    requires RamOk(ram) && Typed(ram, own) && f in own && own[f].node.P1? && i < 512
    requires IsRoot(own, r) && TableAt(ram, r, n).Some?
    ensures TableAt(WriteSlot(ram, f, i, e), r, n) == TableAt(ram, r, n)
    decreases match n case P4 => 0 case P3(_) => 1 case P2(_, _) => 2 case P1(_, _, _) => 3
  {
    hide Slot, WriteSlot, RamOk, Typed;
    FrameInRam(ram, own, f);
    SlotAfterWrite(ram, f, i, e);
    match n
    case P4 =>
    case P3(w) =>
    case P2(w, z) =>
      TableTag(ram, own, r, P3(w));
      TableAfterLeafWrite(ram, own, f, i, e, r, P3(w));
    case P1(w, z, y) =>
      TableTag(ram, own, r, P2(w, z));
      TableAfterLeafWrite(ram, own, f, i, e, r, P2(w, z));
  }

  /** Writing a P1 slot changes the one page it stands for, in the address spaces that reach the
      table, and leaves the tree well formed. */
  lemma LeafWrite(ram: Ram, own: Owners, f: nat, i: nat, e: Word)
    requires TreeOk(ram, own) && f in own && own[f].node.P1? && i < 512
    ensures var ram' := WriteSlot(ram, f, i, e);
            && TreeOk(ram', own) && TablesKept(ram, ram', own)
            && forall r, o :: IsRoot(own, r) && OffsOk(o) ==>
                 Walk(ram', r, o) ==
                   if TableAt(ram, r, P1(o.p4, o.p3, o.p2)) == Some(f) && o.p1 == i then LeafOf(e) else Walk(ram, r, o)
  {
    hide Slot, WriteSlot, Walk, TableAt, LeafOf;
    var ram' := WriteSlot(ram, f, i, e);
    SlotAfterWrite(ram, f, i, e);
    forall r, n | IsRoot(own, r) && TableAt(ram, r, n).Some? ensures TableAt(ram', r, n) == TableAt(ram, r, n) {
      TableAfterLeafWrite(ram, own, f, i, e, r, n);
    }
    forall g, j | g in own && 0 <= j < 512 ensures SlotOk(Slot(ram', g, j), own, own[g], j) {
      assert SlotOk(Slot(ram, g, j), own, own[g], j);
    }
    forall r, o | IsRoot(own, r) && OffsOk(o)
      ensures Walk(ram', r, o) ==
                if TableAt(ram, r, P1(o.p4, o.p3, o.p2)) == Some(f) && o.p1 == i then LeafOf(e) else Walk(ram, r, o)
    {
      WalkAfterLeafWrite(ram, own, f, i, e, r, o);
    }
  }

  /** The entry vmm_ensure_table and vmm_remap_to_4k write for a new table: present, writable
      and user. */
  function TableEntry(g: nat): Word {
    Word(g, 7)
  }

  function ZeroPage(): (p: Page)
    ensures |p| == 512 && forall k :: 0 <= k < 512 ==> p[k] == ZERO
  {
    seq(512, _ => ZERO)
  }

  /** The 512 4 KiB entries that stand for one 2 MiB entry. */
  function SplitPage(e: Word): (p: Page)
    ensures |p| == 512 && forall k :: 0 <= k < 512 ==> p[k] == Word(e.hi + k, e.lo)
  {
    seq(512, (k: nat) => Word(e.hi + k, e.lo))
  }

  /** Hang the frame `g`, holding `p`, under slot `i` of table `f`. */
  function Hang(ram: Ram, f: nat, i: nat, g: nat, p: Page): (r: Ram)
    requires RamOk(ram) && f < |ram| && g < |ram| && i < 512 && |p| == 512
    ensures |r| == |ram|
  {
    WriteSlot(ram[g := p], f, i, TableEntry(g))
  }

  lemma SlotAfterHang(ram: Ram, f: nat, i: nat, g: nat, p: Page)
    requires RamOk(ram) && f < |ram| && g < |ram| && i < 512 && |p| == 512 && f != g
    ensures RamOk(Hang(ram, f, i, g, p)) && |Hang(ram, f, i, g, p)| == |ram|
    ensures forall h: nat, j: nat :: Slot(Hang(ram, f, i, g, p), h, j) ==
              if h == f && j == i then TableEntry(g)
              else if h == g then (if j < 512 then p[j] else ZERO)
              else Slot(ram, h, j)
  {
    SlotAfterWrite(ram[g := p], f, i, TableEntry(g));
  }

  lemma LinkAfterHang(ram: Ram, own: Owners, f: nat, i: nat, g: nat, p: Page, r: nat, n: Node)
    requires RamOk(ram) && Typed(ram, own) && f in own && !own[f].node.P1? && i < 512 && |p| == 512
    requires !Present(Slot(ram, f, i)) || Huge(Slot(ram, f, i))
    requires 0 < g < |ram| && g !in own
    requires IsRoot(own, r) && TableAt(ram, r, n).Some?
    ensures TableAt(Hang(ram, f, i, g, p), r, n) == TableAt(ram, r, n)
    decreases match n case P4 => 0 case P3(_) => 1 case P2(_, _) => 2 case P1(_, _, _) => 3
  {
    hide Slot, Hang, RamOk, Typed, TableEntry;
    FrameInRam(ram, own, f);
    SlotAfterHang(ram, f, i, g, p);
    match n
    case P4 =>
    case P3(w) =>
    case P2(w, z) =>
      TableTag(ram, own, r, P3(w));
      LinkAfterHang(ram, own, f, i, g, p, r, P3(w));
    case P1(w, z, y) =>
      TableTag(ram, own, r, P2(w, z));
      LinkAfterHang(ram, own, f, i, g, p, r, P2(w, z));
  }

  lemma FrameInRam(ram: Ram, own: Owners, f: nat)
    requires Typed(ram, own) && f in own
    ensures 0 < f < |ram|
  {
  }

  /** Hanging a fresh table under a slot that held none keeps the tree well formed, when the page
      is blank or is itself of the last level. */
  lemma HangKeepsTree(ram: Ram, own: Owners, f: nat, i: nat, g: nat, p: Page)
    requires TreeOk(ram, own) && f in own && !own[f].node.P1? && i < 512 && |p| == 512
    requires !Present(Slot(ram, f, i)) || Huge(Slot(ram, f, i))
    requires 0 < g < |ram| && g !in own
    requires own[f].node.P2? || p == ZeroPage()
    ensures TreeOk(Hang(ram, f, i, g, p), own[g := ChildTag(own[f], i)])
    ensures TablesKept(ram, Hang(ram, f, i, g, p), own)
  {
    hide Slot, Hang, TableAt;
    SlotAfterHang(ram, f, i, g, p);
    var ram', own' := Hang(ram, f, i, g, p), own[g := ChildTag(own[f], i)];
    forall h, j | h in own' && 0 <= j < 512 ensures SlotOk(Slot(ram', h, j), own', own'[h], j) {
      if h in own { assert SlotOk(Slot(ram, h, j), own, own[h], j); }
    }
    forall r, n | IsRoot(own, r) && TableAt(ram, r, n).Some? ensures TableAt(ram', r, n) == TableAt(ram, r, n) {
      LinkAfterHang(ram, own, f, i, g, p, r, n);
    }
    if own'[g].space != 0 {
      HungTableLinked(ram', f, i, g, own[f]);
    }
  }

  /** A table hung under a linked table is linked. */
  lemma HungTableLinked(ram: Ram, f: nat, i: nat, g: nat, t: Tag)
    requires !t.node.P1? && Slot(ram, f, i) == TableEntry(g)
    requires TableAt(ram, t.space, t.node) == Some(f)
    requires ChildTag(t, i).space != 0
    ensures TableAt(ram, ChildTag(t, i).space, ChildTag(t, i).node) == Some(g)
  {
  }

  lemma WalkAfterInstall(ram: Ram, own: Owners, f: nat, i: nat, g: nat, r: nat, o: Offs)
    requires RamOk(ram) && Typed(ram, own) && f in own && !own[f].node.P1? && i < 512
    requires !Present(Slot(ram, f, i)) && 0 < g < |ram| && g !in own
    requires IsRoot(own, r) && OffsOk(o)
    ensures Walk(Hang(ram, f, i, g, ZeroPage()), r, o) == Walk(ram, r, o)
  {
    hide Slot, Hang, LeafOf, RamOk;
    SlotAfterHang(ram, f, i, g, ZeroPage());
    LeafOfZero();
  }

  lemma LeafOfZero()
    ensures LeafOf(ZERO) == None
  {
  }

  /** A zeroed table hung under an absent slot changes no translation of any address space. */
  lemma InstallTable(ram: Ram, own: Owners, f: nat, i: nat, g: nat)
    requires TreeOk(ram, own) && f in own && !own[f].node.P1? && i < 512
    requires !Present(Slot(ram, f, i)) && 0 < g < |ram| && g !in own
    ensures SameWalks(ram, Hang(ram, f, i, g, ZeroPage()), own)
  {
    hide Walk, Slot, Hang, ZeroPage;
    forall r, o | IsRoot(own, r) && OffsOk(o)
      ensures Walk(Hang(ram, f, i, g, ZeroPage()), r, o) == Walk(ram, r, o)
    {
      WalkAfterInstall(ram, own, f, i, g, r, o);
    }
  }

  lemma WalkAfterSplit(ram: Ram, own: Owners, f: nat, i: nat, g: nat, r: nat, o: Offs)
    requires RamOk(ram) && Typed(ram, own) && f in own && own[f].node.P2? && i < 512
    requires Present(Slot(ram, f, i)) && Huge(Slot(ram, f, i)) && 0 < g < |ram| && g !in own
    requires IsRoot(own, r) && OffsOk(o)
    ensures Walk(Hang(ram, f, i, g, SplitPage(Slot(ram, f, i))), r, o) == Walk(ram, r, o)
  {
    hide Slot, Hang, RamOk, SplitPage;
    SlotAfterHang(ram, f, i, g, SplitPage(Slot(ram, f, i)));
  }

  /** Splitting a 2 MiB entry into 512 4 KiB entries changes no translation. */
  lemma SplitTable(ram: Ram, own: Owners, f: nat, i: nat, g: nat)
    requires TreeOk(ram, own) && f in own && own[f].node.P2? && i < 512
    requires Present(Slot(ram, f, i)) && Huge(Slot(ram, f, i)) && 0 < g < |ram| && g !in own
    ensures SameWalks(ram, Hang(ram, f, i, g, SplitPage(Slot(ram, f, i))), own)
  {
    hide Walk, Slot, Hang, SplitPage;
    forall r, o | IsRoot(own, r) && OffsOk(o)
      ensures Walk(Hang(ram, f, i, g, SplitPage(Slot(ram, f, i))), r, o) == Walk(ram, r, o)
    {
      WalkAfterSplit(ram, own, f, i, g, r, o);
    }
  }

  /** Overwriting a frame that holds no table is invisible to every address space. */
  lemma DataWrite(ram: Ram, own: Owners, g: nat, p: Page)
    requires TreeOk(ram, own) && g < |ram| && g !in own && |p| == 512
    ensures TreeOk(ram[g := p], own) && SameWalks(ram, ram[g := p], own) && TablesKept(ram, ram[g := p], own)
  {
    var ram' := ram[g := p];
    assert forall f, i :: f in own ==> Slot(ram', f, i) == Slot(ram, f, i);
    SameTablesSameTree(ram, ram', own);
  }

  /** Memories that agree on every table agree on every walk. */
  lemma SameTablesSameTree(ram: Ram, ram': Ram, own: Owners)
    requires TreeOk(ram, own) && RamOk(ram') && |ram'| == |ram|
    requires forall f: nat, i: nat :: f in own ==> Slot(ram', f, i) == Slot(ram, f, i)
    ensures TreeOk(ram', own) && SameWalks(ram, ram', own) && TablesKept(ram, ram', own)
  {
    hide Slot, RamOk, Walk, TableAt;
    forall r, n | IsRoot(own, r) && TableAt(ram, r, n).Some? ensures TableAt(ram', r, n) == TableAt(ram, r, n) {
      SameTablesSameTable(ram, ram', own, r, n);
    }
    forall f, i | f in own && 0 <= i < 512 ensures SlotOk(Slot(ram', f, i), own, own[f], i) {
      assert SlotOk(Slot(ram, f, i), own, own[f], i);
    }
    forall r, o | IsRoot(own, r) && OffsOk(o) ensures Walk(ram', r, o) == Walk(ram, r, o) {
      SameTablesSameWalk(ram, ram', own, r, o);
    }
  }

  lemma SameTablesSameWalk(ram: Ram, ram': Ram, own: Owners, r: nat, o: Offs)
    requires Typed(ram, own) && IsRoot(own, r) && OffsOk(o)
    requires forall f: nat, i: nat :: f in own ==> Slot(ram', f, i) == Slot(ram, f, i)
    ensures Walk(ram', r, o) == Walk(ram, r, o)
  {
    hide Slot, LeafOf;
  }

  lemma SameTablesSameTable(ram: Ram, ram': Ram, own: Owners, r: nat, n: Node)
    requires RamOk(ram) && Typed(ram, own) && IsRoot(own, r) && TableAt(ram, r, n).Some?
    requires forall f: nat, i: nat :: f in own ==> Slot(ram', f, i) == Slot(ram, f, i)
    ensures TableAt(ram', r, n) == TableAt(ram, r, n)
    decreases match n case P4 => 0 case P3(_) => 1 case P2(_, _) => 2 case P1(_, _, _) => 3
  {
    hide Slot, Typed, RamOk;
    match n
    case P4 =>
    case P3(w) =>
    case P2(w, z) =>
      TableTag(ram, own, r, P3(w));
      SameTablesSameTable(ram, ram', own, r, P3(w));
    case P1(w, z, y) =>
      TableTag(ram, own, r, P2(w, z));
      SameTablesSameTable(ram, ram', own, r, P2(w, z));
  }

  /** A root page: blank below, and above either blank or naming tables of the shared half. */
  ghost predicate RootPageOk(p: Page, own: Owners) {
    && |p| == 512
    && (forall i :: 0 <= i < 256 ==> p[i] == ZERO)
    && (forall i :: 256 <= i < 512 ==>
          p[i] == ZERO ||
          (Present(p[i]) && !Huge(p[i]) && Open(p[i]) && p[i].hi in own && own[p[i].hi] == Tag(0, P3(i))))
  }

  /** A fresh frame filled with such a page is a new address space; the others do not notice. */
  lemma AddRoot(ram: Ram, own: Owners, g: nat, p: Page)
    requires TreeOk(ram, own) && 0 < g < |ram| && g !in own && RootPageOk(p, own)
    ensures TreeOk(ram[g := p], own[g := Tag(g, P4)]) && IsRoot(own[g := Tag(g, P4)], g)
    ensures SameWalks(ram, ram[g := p], own) && TablesKept(ram, ram[g := p], own)
    ensures forall i: nat :: i < 512 ==> Slot(ram[g := p], g, i) == p[i]
  {
    hide Walk, TableAt;
    DataWrite(ram, own, g, p);
    var ram', own' := ram[g := p], own[g := Tag(g, P4)];
    forall h, j | h in own' && 0 <= j < 512 ensures SlotOk(Slot(ram', h, j), own', own'[h], j) {
      if h in own { assert SlotOk(Slot(ram', h, j), own, own[h], j); }
    }
    assert TableAt(ram', g, P4) == Some(g) by { RootTable(ram', g); }
  }

  lemma RootTable(ram: Ram, g: nat)
    ensures TableAt(ram, g, P4) == Some(g)
  {
  }
}
