/** The physical frame allocator: a first-fit scan over a byte bitmap with byte counters
    (src/mm/pmm.c). A set bit marks a page as taken. */
module Pmm {
  import opened Common

  /** `1 << i` for one byte of the bitmap. */
  function Mask(i: nat): bv8
    requires i < 8
  {
    if i == 0 then 1 else if i == 1 then 2 else if i == 2 then 4 else if i == 3 then 8
    else if i == 4 then 16 else if i == 5 then 32 else if i == 6 then 64 else 128
  }

  /** The masks are the shifts of the code. */
  lemma MaskShifts(i: nat)
    requires i < 8
    ensures Mask(i) == 1 << i
  {
    assert i == 0 || i == 1 || i == 2 || i == 3 || i == 4 || i == 5 || i == 6 || i == 7;
  }

  predicate Bit(b: bv8, i: nat)
    requires i < 8
  {
    b & Mask(i) != 0
  }

  lemma MaskBits(b: bv8, m: bv8, n: bv8)
    ensures m & n == 0 ==> (b | m) & n == b & n && (b & !m) & n == b & n
    ensures (b | m) & m == m && (b & !m) & m == 0
  {
  }

  lemma MasksDisjoint(i: nat, j: nat)
    requires i < 8 && j < 8
    ensures i == j ==> Mask(i) == Mask(j) && Mask(i) != 0
    ensures i != j ==> Mask(i) & Mask(j) == 0
  {
  }

  /** Setting or clearing bit `i` of a byte changes how bit `i` reads and no other bit. */
  lemma BitUpdates(b: bv8, i: nat, j: nat)
    requires i < 8 && j < 8
    ensures Bit(b | Mask(i), j) <==> i == j || Bit(b, j)
    ensures Bit(b & !Mask(i), j) <==> i != j && Bit(b, j)
  {
    hide Mask;
    var m, n := Mask(i), Mask(j);
    MasksDisjoint(i, j);
    if i == j {
      MaskBits(b, m, m);
    } else {
      MaskBits(b, m, n);
    }
  }

  /** A byte is determined by its eight bits. */
  lemma ByteIsItsBits(b: bv8, c: bv8)
    requires forall i :: 0 <= i < 8 ==> (Bit(b, i) <==> Bit(c, i))
    ensures b == c
  {
    assert Bit(b, 0) <==> Bit(c, 0);
    assert Bit(b, 1) <==> Bit(c, 1);
    assert Bit(b, 2) <==> Bit(c, 2);
    assert Bit(b, 3) <==> Bit(c, 3);
    assert Bit(b, 4) <==> Bit(c, 4);
    assert Bit(b, 5) <==> Bit(c, 5);
    assert Bit(b, 6) <==> Bit(c, 6);
    assert Bit(b, 7) <==> Bit(c, 7);
  }

  /** Pages needed to hold `size` bytes. */
  function Pages(size: nat): nat {
    (size + 0x1000 - 1) / 0x1000
  }

  /** They hold the bytes, and one page fewer does not. */
  lemma FewestPages(size: nat, n: nat)
    ensures Pages(size) <= n <==> size <= n * 0x1000
  {
  }

  /** The pages whose bit is set. */
  ghost function TakenPages(bitmap: seq<bv8>): set<nat> {
    set p | 0 <= p < 8 * |bitmap| && Bit(bitmap[p / 8], p % 8)
  }

  /** `[p, p + n)` lies below `max` and no page of it is taken. */
  ghost predicate FreeRun(taken: set<nat>, max: nat, p: nat, n: nat) {
    p + n <= max && forall q :: p <= q < p + n ==> q !in taken
  }

  /** `p` starts the lowest free run of `n` pages. */
  ghost predicate LowestRun(taken: set<nat>, max: nat, p: nat, n: nat) {
    FreeRun(taken, max, p, n) && forall q :: 0 <= q < p ==> !FreeRun(taken, max, q, n)
  }

  /** The scan's `first_page == 0` test cannot tell "no run yet" from "run at page 0": the run is
      reported one page late exactly when pages `[0, n)` are free and `n` is at least 2. */
  ghost predicate SentinelTrap(taken: set<nat>, max: nat, n: nat) {
    n >= 2 && FreeRun(taken, max, 0, n)
  }

  /** A taken page ends every run that would cross it. */
  lemma RunBroken(taken: set<nat>, max: nat, start: nat, i: nat, n: nat)
    requires n > 0 ==> start <= i < start + n && i in taken && forall p :: 0 <= p < start ==> !FreeRun(taken, max, p, n)
    ensures n > 0 ==> forall p :: 0 <= p < i + 1 ==> !FreeRun(taken, max, p, n)
  {
  }

  lemma TakenInRange(bitmap: seq<bv8>)
    ensures forall p :: p in TakenPages(bitmap) ==> 0 <= p < 8 * |bitmap|
  {
  }

  /** The scan stops at a free run; nothing before it is one. */
  lemma RunComplete(taken: set<nat>, max: nat, start: nat, found: nat, n: nat)
    requires found == n && start + found <= max && forall q :: start <= q < start + found ==> q !in taken
    ensures FreeRun(taken, max, start, n)
    ensures start > 0 && start - 1 in taken && n > 0 ==> !FreeRun(taken, max, start - 1, n)
  {
  }

  /** Fewer pages are left than asked for. */
  lemma RunMissing(taken: set<nat>, max: nat, start: nat, n: nat)
    requires n > 0 ==> max < start + n && forall p :: 0 <= p < start ==> !FreeRun(taken, max, p, n)
    ensures n > 0 ==> forall p :: 0 <= p ==> !FreeRun(taken, max, p, n)
  {
  }

  /** In the trap the scan's answer, page 1, is never the lowest run: page 0 starts it. */
  lemma SentinelMisses(taken: set<nat>, max: nat, n: nat)
    requires SentinelTrap(taken, max, n)
    ensures LowestRun(taken, max, 0, n) && !LowestRun(taken, max, 1, n)
  {
    assert FreeRun(taken, max, 0, n);
  }

  /** Two bitmaps of one length with the same taken pages hold the same bytes. */
  lemma TakenPagesDetermineBitmap(a: seq<bv8>, b: seq<bv8>)
    requires |a| == |b| && TakenPages(a) == TakenPages(b)
    ensures a == b
  {
    forall k | 0 <= k < |a| ensures a[k] == b[k] {
      forall i | 0 <= i < 8 ensures Bit(a[k], i) <==> Bit(b[k], i) {
        var p := 8 * k + i;
        assert p / 8 == k && p % 8 == i;
        assert p in TakenPages(a) <==> p in TakenPages(b);
      }
      ByteIsItsBits(a[k], b[k]);
    }
  }

  /** Writing bit `p` moves page `p` into or out of the taken set and nothing else. */
  lemma BitmapUpdates(bitmap: seq<bv8>, p: nat)
    requires p < 8 * |bitmap|
    ensures TakenPages(bitmap[p / 8 := bitmap[p / 8] | Mask(p % 8)]) == TakenPages(bitmap) + {p}
    ensures TakenPages(bitmap[p / 8 := bitmap[p / 8] & !Mask(p % 8)]) == TakenPages(bitmap) - {p}
  {
    hide Mask;
    var on := bitmap[p / 8 := bitmap[p / 8] | Mask(p % 8)];
    var off := bitmap[p / 8 := bitmap[p / 8] & !Mask(p % 8)];
    forall q | 0 <= q < 8 * |bitmap|
      ensures q in TakenPages(on) <==> q in TakenPages(bitmap) || q == p
      ensures q in TakenPages(off) <==> q in TakenPages(bitmap) && q != p
    {
      if q / 8 == p / 8 {
        BitUpdates(bitmap[p / 8], p % 8, q % 8);
      }
    }
  }

  /** One entry of the firmware memory map. */
  datatype Region = Region(addr: nat, len: nat, usable: bool)

  function RoundUp(n: nat): nat {
    (n + 0x1000 - 1) / 0x1000 * 0x1000
  }

  /** Page `p` starts in the region, which is usable and begins at 1 MiB or above. */
  ghost predicate InRegion(r: Region, p: nat) {
    r.usable && r.addr >= 0x10_0000 && r.addr <= p * 0x1000 < r.addr + r.len
  }

  ghost predicate IsUsable(regions: seq<Region>, p: nat) {
    exists i :: 0 <= i < |regions| && InRegion(regions[i], p)
  }

  ghost function RegionPages(r: Region): set<nat> {
    set p | 0 <= p < r.addr + r.len && InRegion(r, p)
  }

  /** The pages of all regions, counted region by region. */
  ghost function PageSum(regions: seq<Region>): nat {
    if regions == [] then 0 else PageSum(regions[..|regions| - 1]) + |RegionPages(regions[|regions| - 1])|
  }

  /** The bytes pmm_memory_setup adds up. */
  function UsableBytes(regions: seq<Region>): int {
    if regions == [] then 0
    else UsableBytes(regions[..|regions| - 1]) +
         var r := regions[|regions| - 1];
         if r.usable && r.addr >= 0x10_0000 then RoundUp(r.addr + r.len) - RoundUp(r.addr) else 0
  }

  lemma RoundUpPage(n: nat, p: nat)
    ensures RoundUp(n) / 0x1000 <= p <==> n <= p * 0x1000
  {
  }

  /** The pages between the rounded ends of a region are those that start in it. */
  lemma RegionRange(r: Region)
    requires r.usable && r.addr >= 0x10_0000
    ensures RoundUp(r.addr) <= RoundUp(r.addr + r.len)
    ensures var start, len := RoundUp(r.addr), RoundUp(r.addr + r.len) - RoundUp(r.addr);
            && Range(start / 0x1000, len / 0x1000) == RegionPages(r) && len == 0x1000 * |RegionPages(r)|
            && (forall p: nat :: p in RegionPages(r) <==> InRegion(r, p))
  {
    hide RoundUp;
    RoundUpMonotone(r.addr, r.len);
    var start, end := RoundUp(r.addr) / 0x1000, RoundUp(r.addr + r.len) / 0x1000;
    forall p: nat ensures start <= p < end <==> InRegion(r, p) {
      RoundUpPage(r.addr, p);
      RoundUpPage(r.addr + r.len, p);
    }
    forall p: nat ensures p in RegionPages(r) <==> InRegion(r, p) {
    }
    assert Range(start, end - start) == RegionPages(r);
  }

  lemma NoRegion(r: Region)
    requires !r.usable || r.addr < 0x10_0000
    ensures RegionPages(r) == {} && forall p :: !InRegion(r, p)
  {
  }

  ghost predicate RegionsFit(regions: seq<Region>, pages: nat) {
    forall i :: 0 <= i < |regions| ==> regions[i].addr + regions[i].len <= pages * 0x1000
  }

  lemma RoundUpMonotone(addr: nat, len: nat)
    ensures RoundUp(addr) <= RoundUp(addr + len) && RoundUp(addr) % 0x1000 == 0 && RoundUp(addr + len) % 0x1000 == 0
  {
  }

  lemma UsableStart(regions: seq<Region>)
    ensures UsableBytes(regions[..0]) == 0 && PageSum(regions[..0]) == 0 && forall p :: !IsUsable(regions[..0], p)
  {
  }

  lemma UsableStep(regions: seq<Region>, i: nat)
    requires i < |regions|
    ensures forall p :: IsUsable(regions[..i + 1], p) <==> IsUsable(regions[..i], p) || InRegion(regions[i], p)
    ensures PageSum(regions[..i + 1]) == PageSum(regions[..i]) + |RegionPages(regions[i])|
  {
    hide InRegion, RegionPages;
    assert regions[..i + 1][..i] == regions[..i];
    forall p ensures IsUsable(regions[..i + 1], p) <==> IsUsable(regions[..i], p) || InRegion(regions[i], p) {
      assert regions[..i + 1][i] == regions[i];
      if IsUsable(regions[..i], p) {
        var k :| 0 <= k < i && InRegion(regions[..i][k], p);
        assert regions[..i + 1][k] == regions[..i][k];
      }
    }
  }

  /** The bytes added up are those of the pages. */
  lemma {:induction false} UsableBytesCounted(regions: seq<Region>)
    ensures UsableBytes(regions) == 0x1000 * PageSum(regions)
    decreases |regions|
  {
    hide RoundUp, RegionPages;
    if regions != [] {
      var r := regions[|regions| - 1];
      UsableBytesCounted(regions[..|regions| - 1]);
      if r.usable && r.addr >= 0x10_0000 {
        RegionRange(r);
      } else {
        NoRegion(r);
      }
    }
  }

  /** When no two regions share a page, the sum is the number of usable pages. */
  lemma {:induction false} PageSumCounts(regions: seq<Region>, pages: nat)
    requires RegionsFit(regions, pages)
    requires forall i, j, p: nat :: 0 <= i < j < |regions| && InRegion(regions[i], p) ==> !InRegion(regions[j], p)
    ensures PageSum(regions) == |set p | 0 <= p < pages && IsUsable(regions, p)|
    decreases |regions|
  {
    hide RoundUp, InRegion;
    var all := set p | 0 <= p < pages && IsUsable(regions, p);
    if regions == [] {
      assert all == {};
    } else {
      var n := |regions| - 1;
      var r := regions[n];
      var init := set p | 0 <= p < pages && IsUsable(regions[..n], p);
      PageSumCounts(regions[..n], pages);
      UsableStep(regions, n);
      assert regions[..n + 1] == regions;
      RegionPagesFit(r, pages);
      assert all == init + RegionPages(r);
      assert init !! RegionPages(r);
    }
  }

  lemma RegionPagesFit(r: Region, pages: nat)
    requires r.addr + r.len <= pages * 0x1000
    ensures forall p: nat :: p in RegionPages(r) <==> InRegion(r, p)
    ensures forall p: nat :: InRegion(r, p) ==> p < pages
  {
  }

  /** No usable region reaches page 0. */
  lemma LowPageReserved(regions: seq<Region>)
    ensures !IsUsable(regions, 0)
  {
  }

  lemma AllOnes(bitmap: seq<bv8>)
    requires forall k :: 0 <= k < |bitmap| ==> bitmap[k] == 0xFF
    ensures TakenPages(bitmap) == Range(0, 8 * |bitmap|)
  {
    forall p | 0 <= p < 8 * |bitmap| ensures Bit(bitmap[p / 8], p % 8) {
      OnesBits(p % 8);
    }
  }

  lemma OnesBits(i: nat)
    requires i < 8
    ensures Bit(0xFF, i)
  {
  }

  class FrameAllocator {
    const bitmap: array<bv8>
    var available: int
    var used: int
    const total: int
    /** The pages whose bit is set, as callers see them. */
    ghost var taken: set<nat>

    ghost function Taken(): set<nat>
      reads bitmap
    {
      TakenPages(bitmap[..])
    }

    /** bitmap_max_page */
    function MaxPage(): nat {
      8 * bitmap.Length
    }

    /** Page 0 is never offered, and the counters split the total. */
    ghost predicate Valid()
      reads this, bitmap
    {
      taken == Taken() && 0 in taken && available + used == total
    }

    /** How far the byte counter is from the bitmap. It stays put as long as only taken pages
        are freed, so a run that keeps it frees no page twice. */
    ghost function Drift(): int
      reads this
    {
      used - 0x1000 * |taken|
    }

    /** pmm_memory_setup: everything starts taken, the usable regions above 1 MiB are freed, and the
        pages of the kernel image and of the bitmap itself are taken back. */
    constructor (regions: seq<Region>, bytes: nat, kernelPage: nat, kernelPages: nat)
      requires RegionsFit(regions, 8 * bytes) && kernelPage + kernelPages <= 8 * bytes && 0 < bytes
      ensures Valid() && fresh(bitmap) && bitmap.Length == bytes && used == 0 && total == 0x1000 * PageSum(regions)
      ensures forall p :: 0 <= p < MaxPage() ==>
                (p in taken <==> !IsUsable(regions, p) || kernelPage <= p < kernelPage + kernelPages)
    {
      hide TakenPages, Range, IsUsable, UsableBytes, PageSum;
      bitmap := new bv8[bytes](_ => 0xFF);
      available, used, total := 0, 0, UsableBytes(regions);
      new;
      UsableBytesCounted(regions);
      AllOnes(bitmap[..]);
      Setup(regions, kernelPage, kernelPages);
    }

    method Setup(regions: seq<Region>, kernelPage: nat, kernelPages: nat)
      requires RegionsFit(regions, MaxPage()) && kernelPage + kernelPages <= MaxPage() && 0 < MaxPage()
      requires available == 0 && used == 0 && total == 0x1000 * PageSum(regions) && Taken() == Range(0, MaxPage())
      modifies `available, `taken, bitmap
      ensures Valid()
      ensures forall p :: 0 <= p < MaxPage() ==>
                (p in taken <==> !IsUsable(regions, p) || kernelPage <= p < kernelPage + kernelPages)
    {
      hide TakenPages, Range, IsUsable, PageSum;
      FreeRegions(regions);
      SetRange(kernelPage, kernelPages);
      taken := Taken();
      LowPageReserved(regions);
    }

    /** The loop of pmm_memory_setup over the memory map. */
    method FreeRegions(regions: seq<Region>)
      requires RegionsFit(regions, MaxPage()) && available == 0 && Taken() == Range(0, MaxPage())
      modifies `available, bitmap
      ensures forall p :: p in Taken() <==> 0 <= p < MaxPage() && !IsUsable(regions, p)
      ensures available == 0x1000 * PageSum(regions)
    {
      hide TakenPages, Range, IsUsable, RoundUp, PageSum, RegionPages, InRegion;
      UsableStart(regions);
      for i := 0 to |regions|
        invariant forall p: nat :: p in Taken() <==> p < MaxPage() && !IsUsable(regions[..i], p)
        invariant available == 0x1000 * PageSum(regions[..i])
      {
        UsableStep(regions, i);
        RoundUpMonotone(regions[i].addr, regions[i].len);
        var start := RoundUp(regions[i].addr);
        var len := RoundUp(regions[i].addr + regions[i].len) - start;
        ghost var before := Taken();
        if regions[i].usable && regions[i].addr >= 0x10_0000 {
          RegionRange(regions[i]);
          RoundUpPage(regions[i].addr + regions[i].len, MaxPage());
          ClearRange(start / 0x1000, len / 0x1000);
          available := available + len;
        } else {
          NoRegion(regions[i]);
        }
        forall p: nat ensures p in Taken() <==> p < MaxPage() && !IsUsable(regions[..i + 1], p) {
          assert p in before <==> p < MaxPage() && !IsUsable(regions[..i], p);
        }
      }
      assert regions[..|regions|] == regions;
    }

    method SetBit(page: nat)
      requires page < MaxPage()
      modifies bitmap
      ensures Taken() == old(Taken()) + {page}
    {
      hide TakenPages, Mask;
      BitmapUpdates(bitmap[..], page);
      bitmap[page / 8] := bitmap[page / 8] | Mask(page % 8);
      assert bitmap[..] == old(bitmap[..])[page / 8 := old(bitmap[page / 8]) | Mask(page % 8)];
    }

    method ClearBit(page: nat)
      requires page < MaxPage()
      modifies bitmap
      ensures Taken() == old(Taken()) - {page}
    {
      hide TakenPages, Mask;
      BitmapUpdates(bitmap[..], page);
      bitmap[page / 8] := bitmap[page / 8] & !Mask(page % 8);
      assert bitmap[..] == old(bitmap[..])[page / 8 := old(bitmap[page / 8]) & !Mask(page % 8)];
    }

    method GetBit(page: nat) returns (taken: bool)
      requires page < MaxPage()
      ensures taken <==> page in Taken()
    {
      taken := bitmap[page / 8] & Mask(page % 8) != 0;
    }

    /** `None` is the halt at the end of the scan. */
    method FindFreePage(pages: nat) returns (r: Option<nat>)
      ensures pages > 0 && r.Some? && !SentinelTrap(Taken(), MaxPage(), pages) ==>
                LowestRun(Taken(), MaxPage(), r.value, pages)
      ensures SentinelTrap(Taken(), MaxPage(), pages) ==> r == Some(1)
      ensures pages > 0 ==> (r.None? <==> forall p :: 0 <= p ==> !FreeRun(Taken(), MaxPage(), p, pages))
      ensures pages == 0 && 0 in Taken() ==> r == Some(0)
    {
      hide TakenPages, FreeRun;
      var found, first := 0, 0;
      ghost var start, busy, max := 0, Taken(), MaxPage();
      TakenInRange(bitmap[..]);
      for i := 0 to MaxPage()
        invariant start + found == i
        invariant forall q :: start <= q < i ==> q !in busy
        invariant start > 0 ==> start - 1 in busy
        invariant pages > 0 ==> found < pages
        invariant pages > 0 ==> forall p :: 0 <= p < start ==> !FreeRun(busy, max, p, pages)
        invariant pages == 0 && i > 0 ==> 0 !in busy
        invariant first == if found == 0 then 0 else if start == 0 && found >= 2 then 1 else start
      {
        var taken := GetBit(i);
        if !taken {
          found := found + 1;
          if first == 0 {
            first := i;
          }
        } else {
          RunBroken(busy, max, start, i, pages);
          found := 0;
          first := 0;
          start := i + 1;
        }
        if found == pages {
          RunComplete(busy, max, start, found, pages);
          return Some(first);
        }
      }
      RunMissing(busy, max, start, pages);
      r := None;
    }

    method SetRange(page: nat, pages: nat)
      requires page + pages <= MaxPage()
      modifies bitmap
      ensures Taken() == old(Taken()) + Range(page, pages)
    {
      hide TakenPages;
      for i := 0 to pages
        invariant Taken() == old(Taken()) + Range(page, i)
      {
        SetBit(page + i);
      }
    }

    method ClearRange(page: nat, pages: nat)
      requires page + pages <= MaxPage()
      modifies bitmap
      ensures Taken() == old(Taken()) - Range(page, pages)
    {
      hide TakenPages;
      for i := 0 to pages
        invariant Taken() == old(Taken()) - Range(page, i)
      {
        ClearBit(page + i);
      }
    }

    /** The locked part of pmm_alloc, in pages. */
    method Claim(pages: nat) returns (page: Option<nat>)
      requires Valid()
      modifies `available, `used, `taken, bitmap
      ensures Valid() && Drift() == old(Drift())
      ensures page.None? ==> pages > 0 && taken == old(taken) && used == old(used)
      ensures page.None? ==> forall p :: 0 <= p ==> !FreeRun(taken, MaxPage(), p, pages)
      ensures page.Some? && pages > 0 ==> page.value > 0 && LowestRun(old(taken), MaxPage(), page.value, pages)
      ensures pages == 0 ==> page == Some(0)
      ensures page.Some? ==> taken == old(taken) + Range(page.value, pages) && used == old(used) + 0x1000 * pages
    {
      hide TakenPages, Range;
      page := FindFreePage(pages);
      if page.None? {
        return;
      }
      SetRange(page.value, pages);
      available := available - pages * 0x1000;
      used := used + pages * 0x1000;
      taken := taken + Range(page.value, pages);
      assert old(taken) !! Range(page.value, pages);
      assert |old(taken) + Range(page.value, pages)| == |old(taken)| + pages;
    }

    /** pmm_alloc: `None` when the scan halts. */
    method Alloc(size: nat) returns (addr: Option<nat>)
      requires Valid()
      modifies `available, `used, `taken, bitmap
      ensures Valid() && Drift() == old(Drift())
      ensures addr.None? ==> size > 0 && taken == old(taken) && used == old(used)
      ensures addr.None? ==> forall p :: 0 <= p ==> !FreeRun(taken, MaxPage(), p, Pages(size))
      ensures addr.Some? ==> addr.value % 0x1000 == 0 && (addr.value == 0 <==> size == 0)
      ensures addr.Some? && size > 0 ==> LowestRun(old(taken), MaxPage(), addr.value / 0x1000, Pages(size))
      ensures addr.Some? ==> taken == old(taken) + Range(addr.value / 0x1000, Pages(size))
      ensures addr.Some? ==> used == old(used) + 0x1000 * Pages(size)
    {
      hide FreeRun, LowestRun, Valid, Drift;
      var page := Claim(Pages(size));
      if page.None? {
        return None;
      }
      addr := Some(page.value * 0x1000);
    }

    /** pmm_unalloc: `false` when the range check halts the machine. Nothing checks that the
        pages were taken. */
    method Unalloc(addr: nat, size: nat) returns (ok: bool)
      requires Valid()
      modifies `available, `used, `taken, bitmap
      ensures available + used == total
      ensures addr / 0x1000 > 0 || size == 0 ==> Valid()
      ensures ok <==> addr / 0x1000 + Pages(size) <= MaxPage()
      ensures ok ==> taken == old(taken) - Range(addr / 0x1000, Pages(size)) && used == old(used) - 0x1000 * Pages(size)
      ensures !ok ==> taken == old(taken) && used == old(used)
      ensures Range(addr / 0x1000, Pages(size)) <= old(taken) ==> Drift() == old(Drift())
    {
      hide TakenPages, Range;
      var page := addr / 0x1000;
      var pages := Pages(size);
      if page + pages > MaxPage() {
        return false;
      }
      ClearRange(page, pages);
      available := available + pages * 0x1000;
      used := used - pages * 0x1000;
      taken := taken - Range(page, pages);
      if Range(page, pages) <= old(taken) {
        assert |old(taken) - Range(page, pages)| == |old(taken)| - pages;
      }
      ok := true;
    }
  }

  /** Frames held by the caller of the allocator: first page to number of pages. */
  type Held = map<nat, nat>

  ghost function Covered(held: Held): set<nat> {
    set b, p | b in held && p in Range(b, held[b]) :: p
  }

  /** The taken pages are the reserved ones and, apart from them and from each other, the blocks
      held; the byte counter has grown by exactly the blocks. */
  ghost predicate Accounts(reserved: set<nat>, taken: set<nat>, held: Held, growth: int) {
    && taken == reserved + Covered(held) && reserved !! Covered(held) && Spaced(held)
    && growth == 0x1000 * |Covered(held)|
  }

  /** Blocks are not empty and follow one another. */
  ghost predicate Spaced(held: Held) {
    && (forall b, c :: b in held && c in held && b < c ==> b + held[b] <= c)
    && (forall b :: b in held ==> held[b] > 0)
  }

  lemma SpacedRest(held: Held, p: nat)
    requires Spaced(held) && p in held
    ensures Spaced(held - {p}) && held[p] > 0
    ensures forall b :: b in held - {p} ==> b + held[b] <= p || p + held[p] <= b
  {
    var rest := held - {p};
    assert forall b :: b in rest ==> b in held && b != p && rest[b] == held[b];
  }

  lemma CoveredSplit(held: Held, p: nat)
    requires p in held
    ensures Covered(held) == Covered(held - {p}) + Range(p, held[p])
  {
    hide Range;
    var rest := held - {p};
    forall x | x in Covered(held) ensures x in Covered(rest) || x in Range(p, held[p]) {
      var b :| b in held && x in Range(b, held[b]);
      if b != p {
        assert b in rest && x in Range(b, rest[b]);
      }
    }
    forall x | x in Covered(rest) ensures x in Covered(held) {
      var b :| b in rest && x in Range(b, rest[b]);
      assert b in held && x in Range(b, held[b]);
    }
  }

  /** Blocks in order of position do not overlap the rest. */
  lemma CoveredApart(held: Held, p: nat, n: nat)
    requires forall b :: b in held ==> b + held[b] <= p || p + n <= b
    ensures Covered(held) !! Range(p, n)
  {
    hide Range;
  }

  lemma AccountsGet(reserved: set<nat>, taken: set<nat>, held: Held, growth: int, p: nat, n: nat, max: nat)
    requires Accounts(reserved, taken, held, growth) && n > 0 && FreeRun(taken, max, p, n)
    ensures Accounts(reserved, taken + Range(p, n), held[p := n], growth + 0x1000 * n)
    ensures p !in held
  {
    hide Range, Covered;
    forall b | b in held ensures b != p && (b + held[b] <= p || p + n <= b) {
      HeldTaken(reserved, taken, held, growth, b, b);
      if b < p < b + held[b] { HeldTaken(reserved, taken, held, growth, b, p); }
    }
    CoveredApart(held, p, n);
    CoveredSplit(held[p := n], p);
    assert held[p := n] - {p} == held;
    assert reserved !! Range(p, n);
  }

  lemma HeldTaken(reserved: set<nat>, taken: set<nat>, held: Held, growth: int, b: nat, x: nat)
    requires Accounts(reserved, taken, held, growth) && b in held && b <= x < b + held[b]
    ensures x in taken
  {
    hide Range;
    assert x in Range(b, held[b]) && x in Covered(held);
  }

  lemma AccountsPut(reserved: set<nat>, taken: set<nat>, held: Held, growth: int, p: nat)
    requires Accounts(reserved, taken, held, growth) && p in held
    ensures Accounts(reserved, taken - Range(p, held[p]), held - {p}, growth - 0x1000 * held[p])
    ensures Range(p, held[p]) <= taken && held[p] > 0
  {
    hide Range, Covered, Spaced;
    var rest, block := held - {p}, Range(p, held[p]);
    assert Covered(held) == Covered(rest) + block by { CoveredSplit(held, p); }
    SpacedRest(held, p);
    assert Covered(rest) !! block by { CoveredApart(rest, p, held[p]); }
    BlockLeaves(reserved, taken, Covered(rest), block, growth, held[p]);
  }

  /** The sets and the counter when one block is taken away. */
  lemma BlockLeaves(reserved: set<nat>, taken: set<nat>, rest: set<nat>, block: set<nat>, growth: int, n: nat)
    requires taken == reserved + (rest + block) && reserved !! rest + block && rest !! block
    requires |block| == n && growth == 0x1000 * |rest + block|
    ensures taken - block == reserved + rest && reserved !! rest && block <= taken
    ensures growth - 0x1000 * n == 0x1000 * |rest|
  {
    TakeAway(reserved, rest, block);
  }

  lemma TakeAway(a: set<nat>, b: set<nat>, c: set<nat>)
    requires a !! b + c && b !! c
    ensures a + (b + c) - c == a + b && a !! b && c <= a + (b + c) && |b + c| == |b| + |c|
  {
  }

  lemma NoneHeld(taken: set<nat>)
    ensures Accounts(taken, taken, map[], 0)
  {
  }

  lemma LowestIsFree(taken: set<nat>, max: nat, p: nat, n: nat)
    requires LowestRun(taken, max, p, n)
    ensures FreeRun(taken, max, p, n)
  {
  }

  lemma HeldFits(pmm: FrameAllocator, held: Held, page: nat)
    requires pmm.Valid() && page in held && held[page] > 0 && Range(page, held[page]) <= pmm.taken
    ensures page + held[page] <= pmm.MaxPage()
  {
    assert page + held[page] - 1 in Range(page, held[page]);
  }

  datatype FrameRequest = Take(size: nat) | Give(page: nat)

  /** Any run of allocations and of frees that match live blocks keeps the accounts. */
  method ServeFrames(pmm: FrameAllocator, requests: seq<FrameRequest>) returns (done: bool, held: Held)
    requires pmm.Valid()
    modifies pmm, pmm.bitmap
    ensures pmm.Valid() && 0 !in held
    ensures Accounts(old(pmm.taken), pmm.taken, held, pmm.used - old(pmm.used))
  {
    hide TakenPages, Range, Accounts, FrameAllocator.Drift, LowestRun, FreeRun;
    held := map[];
    NoneHeld(pmm.taken);
    for k := 0 to |requests|
      invariant pmm.Valid() && 0 !in held
      invariant Accounts(old(pmm.taken), pmm.taken, held, pmm.used - old(pmm.used))
    {
      match requests[k] {
        case Take(size) =>
          ghost var before, growth := pmm.taken, pmm.used - old(pmm.used);
          var addr := pmm.Alloc(size);
          if addr.None? {
            return false, held;
          }
          if size > 0 {
            var page, pages := addr.value / 0x1000, Pages(size);
            LowestIsFree(before, pmm.MaxPage(), page, pages);
            AccountsGet(old(pmm.taken), before, held, growth, page, pages, pmm.MaxPage());
            held := held[page := pages];
          } else {
            assert Range(0, Pages(0)) == {};
          }
        case Give(page) =>
          if page in held {
            AccountsPut(old(pmm.taken), pmm.taken, held, pmm.used - old(pmm.used), page);
            assert page * 0x1000 / 0x1000 == page && Pages(held[page] * 0x1000) == held[page];
            assert page + held[page] <= pmm.MaxPage() by { HeldFits(pmm, held, page); }
            var ok := pmm.Unalloc(page * 0x1000, held[page] * 0x1000);
            held := held - {page};
          }
      }
    }
    done := true;
  }
}
