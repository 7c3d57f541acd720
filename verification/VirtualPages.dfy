/** Virtual page numbers, the kernel's own translation routine, and what one page operation does
    to the flat view of an address space (src/mm/vmm.c). */
module VirtualPages {
  import opened Common
  import opened PageTables

  /** Pages a 48-bit virtual address can name; the lower half is the first 2^35. */
  const VPAGES: nat := 0x10_0000_0000
  const LOWER: nat := 0x8_0000_0000

  /** The table indices of virtual page `v` (an address shifted right by 12). */
  function OffsOf(v: nat): Offs {
    Offs(v / 0x800_0000 % 512, v / 0x4_0000 % 512, v / 512 % 512, v % 512)
  }

  function PageOf(o: Offs): nat {
    o.p4 * 0x800_0000 + o.p3 * 0x4_0000 + o.p2 * 512 + o.p1
  }

  /** Shifting by 18 and 27 is shifting by 9 again and again. */
  lemma ShiftAgain(v: nat)
    ensures v / 0x4_0000 == v / 512 / 512 && v / 0x800_0000 == v / 512 / 512 / 512
  {
    var a := v / 512;
    var b := a / 512;
    var c := b / 512;
    DivUnique(v, 0x4_0000, b, 512 * (a % 512) + v % 512);
    DivUnique(v, 0x800_0000, c, 0x4_0000 * (b % 512) + 512 * (a % 512) + v % 512);
  }

  /** The digits of a page number in base 512. */
  lemma Digits(v: nat, c: nat, z: nat, y: nat, x: nat)
    requires z < 512 && y < 512 && x < 512 && v == 512 * (512 * (512 * c + z) + y) + x
    ensures OffsOf(v) == Offs(c % 512, z, y, x)
  {
    ShiftAgain(v);
    DivUnique(v, 512, 512 * (512 * c + z) + y, x);
    DivUnique(512 * (512 * c + z) + y, 512, 512 * c + z, y);
    DivUnique(512 * c + z, 512, c, z);
  }

  lemma OffsOfPageOf(o: Offs)
    requires OffsOk(o)
    ensures OffsOf(PageOf(o)) == o && PageOf(o) < VPAGES
    ensures o.p4 < 256 <==> PageOf(o) < LOWER
  {
    hide OffsOf;
    Digits(PageOf(o), o.p4, o.p3, o.p2, o.p1);
  }

  lemma PageOfOffsOf(v: nat)
    requires v < VPAGES
    ensures PageOf(OffsOf(v)) == v && OffsOk(OffsOf(v))
    ensures OffsOf(v).p4 < 256 <==> v < LOWER
  {
    hide OffsOf;
    var a := v / 512;
    var b := a / 512;
    Digits(v, b / 512, b % 512, a % 512, v % 512);
  }

  /** vmm_virt_to_offs: four nine-bit fields of the address. */
  function VirtToOffs(virt: nat): Offs {
    Offs(virt / 0x80_0000_0000 % 512, virt / 0x4000_0000 % 512, virt / 0x20_0000 % 512, virt / 0x1000 % 512)
  }

  /** vmm_offs_to_virt: the four fields put back in place. */
  function OffsToVirt(o: Offs): nat {
    o.p4 * 0x80_0000_0000 + o.p3 * 0x4000_0000 + o.p2 * 0x20_0000 + o.p1 * 0x1000
  }

  lemma VirtToOffsIsOffsOf(virt: nat)
    ensures VirtToOffs(virt) == OffsOf(virt / 0x1000)
  {
    var v, r := virt / 0x1000, virt % 0x1000;
    DivUnique(virt, 0x20_0000, v / 512, 0x1000 * (v % 512) + r);
    DivUnique(virt, 0x4000_0000, v / 0x4_0000, 0x1000 * (v % 0x4_0000) + r);
    DivUnique(virt, 0x80_0000_0000, v / 0x800_0000, 0x1000 * (v % 0x800_0000) + r);
  }

  /** The two conversions undo each other on 48-bit page addresses. */
  lemma OffsetsRoundTrip(o: Offs, virt: nat)
    ensures OffsOk(o) ==> VirtToOffs(OffsToVirt(o)) == o
    ensures virt < 0x1_0000_0000_0000 ==> OffsToVirt(VirtToOffs(virt)) == virt - virt % 0x1000
  {
    hide OffsOf, VirtToOffs;
    if OffsOk(o) {
      OffsOfPageOf(o);
      assert OffsToVirt(o) == PageOf(o) * 0x1000;
      VirtToOffsIsOffsOf(PageOf(o) * 0x1000);
      DivUnique(PageOf(o) * 0x1000, 0x1000, PageOf(o), 0);
    }
    if virt < 0x1_0000_0000_0000 {
      VirtToOffsIsOffsOf(virt);
      PageOfOffsOf(virt / 0x1000);
      assert OffsToVirt(VirtToOffs(virt)) == PageOf(OffsOf(virt / 0x1000)) * 0x1000;
    }
  }

  /** Which index counts what: the next page, 2 MiB, 1 GiB and 512 GiB move the first, second, third and
      fourth index on by one. */
  lemma OffsetSteps(virt: nat)
    ensures VirtToOffs(0) == Offs(0, 0, 0, 0)
    ensures var o := VirtToOffs(virt);
            && (o.p1 < 511 ==> VirtToOffs(virt + 0x1000) == o.(p1 := o.p1 + 1))
            && (o.p2 < 511 ==> VirtToOffs(virt + 0x20_0000) == o.(p2 := o.p2 + 1))
            && (o.p3 < 511 ==> VirtToOffs(virt + 0x4000_0000) == o.(p3 := o.p3 + 1))
            && (o.p4 < 511 ==> VirtToOffs(virt + 0x80_0000_0000) == o.(p4 := o.p4 + 1))
  {
    hide VirtToOffs, OffsOf;
    VirtToOffsIsOffsOf(0);
    Digits(0, 0, 0, 0, 0);
    VirtToOffsIsOffsOf(virt);
    var v := virt / 0x1000;
    var a := v / 512;
    var b := a / 512;
    var c, z, y, x := b / 512, b % 512, a % 512, v % 512;
    Digits(v, c, z, y, x);
    PagesOn(virt, 1);
    PagesOn(virt, 512);
    PagesOn(virt, 0x4_0000);
    PagesOn(virt, 0x800_0000);
    if x < 511 { Digits(v + 1, c, z, y, x + 1); }
    if y < 511 { Digits(v + 512, c, z, y + 1, x); }
    if z < 511 { Digits(v + 0x4_0000, c, z + 1, y, x); }
    if c % 512 < 511 {
      Digits(v + 0x800_0000, c + 1, z, y, x);
      assert (c + 1) % 512 == c % 512 + 1;
    }
  }

  lemma PagesOn(virt: nat, n: nat)
    ensures VirtToOffs(virt + 0x1000 * n) == OffsOf(virt / 0x1000 + n)
  {
    hide VirtToOffs, OffsOf;
    VirtToOffsIsOffsOf(virt + 0x1000 * n);
    DivUnique(virt + 0x1000 * n, 0x1000, virt / 0x1000 + n, virt % 0x1000);
  }

  /** virt_to_phys: `None` is the all-ones result. An absent slot reads as frame 0, and the P2 entry
      is looked at before the P2 frame is checked. */
  function VirtToPhys(ram: Ram, root: nat, virt: nat): Option<nat> {
    var o := VirtToOffs(virt);
    var p3 := Slot(ram, root, o.p4).hi;
    if p3 > 0 then
      var p2 := Slot(ram, p3, o.p3).hi;
      var e2 := Slot(ram, p2, o.p2);
      if Huge(e2) then Some(e2.hi * 0x1000 + virt % 0x20_0000)
      else if p2 > 0 && e2.hi > 0 && Present(Slot(ram, e2.hi, o.p1)) then
        Some(Slot(ram, e2.hi, o.p1).hi * 0x1000 + virt % 0x1000)
      else None
    else None
  }

  /** The address the hardware would use. */
  function MmuAddress(ram: Ram, root: nat, virt: nat): Option<nat> {
    match Walk(ram, root, VirtToOffs(virt))
    case None => None
    case Some(leaf) => Some(leaf.frame * 0x1000 + virt % 0x1000)
  }

  /** The P3 slot is absent and the word of frame 0 read in its stead has the 2 MiB bit. */
  predicate StrayHuge(ram: Ram, root: nat, o: Offs) {
    var e4 := Slot(ram, root, o.p4);
    Present(e4) && !Present(Slot(ram, e4.hi, o.p3)) && Huge(Slot(ram, 0, o.p2))
  }

  /** The kernel's translation agrees with the hardware's at every address except those whose
      missing P2 makes it read a stray 2 MiB bit out of frame 0. */
  lemma VirtToPhysExact(ram: Ram, own: Owners, root: nat, virt: nat)
    requires TreeOk(ram, own) && IsRoot(own, root)
    ensures VirtToPhys(ram, root, virt) == MmuAddress(ram, root, virt) <==>
            !StrayHuge(ram, root, VirtToOffs(virt))
  {
    var o := VirtToOffs(virt);
    assert virt % 0x20_0000 == o.p1 * 0x1000 + virt % 0x1000 by {
      assert virt / 0x1000 / 512 == virt / 0x20_0000;
    }
    var e4 := Slot(ram, root, o.p4);
    assert SlotOk(e4, own, own[root], o.p4);
    if Present(e4) {
      var e3 := Slot(ram, e4.hi, o.p3);
      assert SlotOk(e3, own, own[e4.hi], o.p3);
      if Present(e3) {
        assert SlotOk(Slot(ram, e3.hi, o.p2), own, own[e3.hi], o.p2);
      }
    }
  }

  /** A memory in which frame 0 holds such a word: an unmapped address is given a translation. */
  lemma StrayHugeExample()
    ensures var ram := [ZeroPage()[0 := Word(5, 0x80)], ZeroPage()[0 := TableEntry(2)], ZeroPage()];
            && TreeOk(ram, map[1 := Tag(1, P4), 2 := Tag(1, P3(0))])
            && MmuAddress(ram, 1, 0x10) == None
            && VirtToPhys(ram, 1, 0x10) == Some(0x5010)
  {
    var ram := [ZeroPage()[0 := Word(5, 0x80)], ZeroPage()[0 := TableEntry(2)], ZeroPage()];
    var own := map[1 := Tag(1, P4), 2 := Tag(1, P3(0))];
    assert Slot(ram, 1, 0) == TableEntry(2);
    assert forall i :: 0 < i < 512 ==> Slot(ram, 1, i) == ZERO;
    assert forall i :: 0 <= i < 512 ==> Slot(ram, 2, i) == ZERO;
    assert Slot(ram, 0, 0) == Word(5, 0x80);
  }

  /** The flat view: what virtual page `v` translates to. */
  function Lookup(ram: Ram, root: nat, v: nat): Option<Leaf> {
    Walk(ram, root, OffsOf(v))
  }

  /** What the kernel asks of one run of pages; `frame` is the frame of the first page. */
  datatype PageOp = Map(frame: nat, perms: Bits12) | Remap(frame: nat, perms: Bits12) | Unmap

  function WithPresent(perms: Bits12): Bits12 {
    if perms % 2 == 1 then perms else perms + 1
  }

  /** What page `k` of the run should translate to afterwards. */
  function Wanted(op: PageOp, k: nat, before: Option<Leaf>): Option<Leaf> {
    match op
    case Map(frame, perms) => if before.Some? then before else LeafOf(Word(frame + k, perms))
    case Remap(frame, perms) => Some(Leaf(frame + k, WithPresent(perms)))
    case Unmap => None
  }

  /** What the three calls promise of page `k` of the run: a page already there keeps its frame and flags
      when mapping, a remapped page gets its frame and the permissions with the present bit added, and an
      unmapped page is gone. */
  ghost predicate Does(op: PageOp, k: nat, before: Option<Leaf>, after: Option<Leaf>) {
    match op
    case Map(frame, perms) =>
      after == if before.Some? then before else if perms % 2 == 1 then Some(Leaf(frame + k, perms)) else None
    case Remap(frame, perms) =>
      && after.Some? && after.value.frame == frame + k
      && after.value.flags % 2 == 1 && after.value.flags / 2 == perms / 2
    case Unmap => after.None?
  }

  lemma WantedDoes(op: PageOp, k: nat, before: Option<Leaf>)
    ensures Does(op, k, before, Wanted(op, k, before))
  {
  }

  /** The P1 entry the loops leave for page `k` of the run. */
  function NewEntry(op: PageOp, k: nat, e: Word): (e': Word)
    ensures LeafOf(e') == Wanted(op, k, LeafOf(e))
  {
    match op
    case Map(frame, perms) => if Present(e) then e else Word(frame + k, perms)
    case Remap(frame, perms) => Word(frame + k, WithPresent(perms))
    case Unmap => if Present(e) then ZERO else e
  }

  /** Pages `[v, v + n)` of `root` are as `op` wants them and every other page is as before. */
  ghost predicate Updated(ram: Ram, ram': Ram, root: nat, op: PageOp, v: nat, n: nat) {
    forall u :: 0 <= u < VPAGES ==>
      Lookup(ram', root, u) ==
        if v <= u < v + n then Wanted(op, u - v, Lookup(ram, root, u)) else Lookup(ram, root, u)
  }

  /** No other address space sees a change in its lower half. */
  ghost predicate OthersKept(ram: Ram, ram': Ram, own: Owners, root: nat) {
    forall r, u :: IsRoot(own, r) && r != root && 0 <= u < LOWER ==> Lookup(ram', r, u) == Lookup(ram, r, u)
  }

  /** Rewriting the P1 slot of page `v` of `root` changes that page of `root`, no other page of it,
      and no lower-half page of another address space. */
  lemma PageWrite(ram: Ram, own: Owners, root: nat, v: nat, p1: nat, e: Word)
    requires TreeOk(ram, own) && IsRoot(own, root) && v < VPAGES
    requires var o := OffsOf(v); TableAt(ram, root, P1(o.p4, o.p3, o.p2)) == Some(p1)
    ensures p1 in own && own[p1].node.P1? && own[p1].space == Space(root, OffsOf(v).p4)
    ensures p1 < |ram| && OffsOf(v).p1 < |ram[p1]|
    ensures var ram' := WriteSlot(ram, p1, OffsOf(v).p1, e);
            && TreeOk(ram', own)
            && (forall u :: 0 <= u < VPAGES ==>
                  Lookup(ram', root, u) == if u == v then LeafOf(e) else Lookup(ram, root, u))
            && OthersKept(ram, ram', own, root)
    ensures Lookup(ram, root, v) == LeafOf(Slot(ram, p1, OffsOf(v).p1))
  {
    var o := OffsOf(v);
    PageOfOffsOf(v);
    TableTag(ram, own, root, P1(o.p4, o.p3, o.p2));
    LeafWrite(ram, own, p1, o.p1, e);
    var ram' := WriteSlot(ram, p1, o.p1, e);
    assert Walk(ram, root, o) == LeafOf(Slot(ram, p1, o.p1));
    hide OffsOf, WriteSlot, Slot, Walk, TreeOk, TableAt, LeafOf;
    forall u | 0 <= u < VPAGES
      ensures Lookup(ram', root, u) == if u == v then LeafOf(e) else Lookup(ram, root, u)
    {
      PageOfOffsOf(u);
      if u != v {
        TableAway(ram, own, root, OffsOf(u), p1, o);
      }
    }
    forall r, u | IsRoot(own, r) && r != root && 0 <= u < LOWER
      ensures Lookup(ram', r, u) == Lookup(ram, r, u)
    {
      PageOfOffsOf(u);
      TableAway(ram, own, r, OffsOf(u), p1, o);
    }
  }

  /** A table tagged for another place is not the P1 table of page `o`. */
  lemma TableAway(ram: Ram, own: Owners, r: nat, o: Offs, p1: nat, o1: Offs)
    requires TreeOk(ram, own) && IsRoot(own, r) && OffsOk(o)
    requires p1 in own && own[p1].node == P1(o1.p4, o1.p3, o1.p2)
    requires o.p4 != o1.p4 || o.p3 != o1.p3 || o.p2 != o1.p2 || o.p1 != o1.p1 || own[p1].space != Space(r, o.p4)
    ensures TableAt(ram, r, P1(o.p4, o.p3, o.p2)) != Some(p1) || o.p1 != o1.p1
  {
    var n := P1(o.p4, o.p3, o.p2);
    if TableAt(ram, r, n) == Some(p1) {
      TableTag(ram, own, r, n);
    }
  }

  /** One more page of a run: after its P1 slot is rewritten, the run is one page longer. */
  lemma PageStep(ram0: Ram, ram: Ram, own0: Owners, own: Owners, root: nat, op: PageOp, v: nat, n: nat, p1: nat)
    requires TreeOk(ram, own) && IsRoot(own, root) && v + n < VPAGES
    requires forall r :: IsRoot(own0, r) ==> IsRoot(own, r)
    requires Updated(ram0, ram, root, op, v, n) && OthersKept(ram0, ram, own0, root)
    requires var o := OffsOf(v + n); TableAt(ram, root, P1(o.p4, o.p3, o.p2)) == Some(p1)
    ensures p1 in own && own[p1].node.P1? && own[p1].space == Space(root, OffsOf(v + n).p4)
    ensures p1 < |ram| && OffsOf(v + n).p1 < |ram[p1]|
    ensures var o := OffsOf(v + n);
            var ram' := WriteSlot(ram, p1, o.p1, NewEntry(op, n, Slot(ram, p1, o.p1)));
            && TreeOk(ram', own)
            && Updated(ram0, ram', root, op, v, n + 1)
            && OthersKept(ram0, ram', own0, root)
    ensures LeafOf(Slot(ram, p1, OffsOf(v + n).p1)) == Lookup(ram0, root, v + n)
  {
    hide OffsOf, WriteSlot, Slot, TreeOk, TableAt, LeafOf, Wanted, Lookup;
    PageWrite(ram, own, root, v + n, p1, NewEntry(op, n, Slot(ram, p1, OffsOf(v + n).p1)));
  }
}
