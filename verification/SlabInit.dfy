// slab_init: one boot slab for each size class.
module SlabInit {
  import opened Common
  import opened Words
  import opened Pages
  import opened Geometry
  import opened SlabModel
  import opened Slabs
  import opened MemoryInit

  /** A boot slab: empty, its structure and map in the memory behind the kernel image. */
  ghost predicate BootSlab(s: SlabView, i: int) {
    && 0 <= i < CLASSES && s.cls == i && s.boot && s.using == 0 && s.free == Count(s) && BlankMap(s.bits, Count(s))
  }

  /** The caches as slab_init leaves them, with the slab of class i on page first + i. */
  ghost predicate Booted(h: HeapView, first: nat) {
    && (forall p <- h.slabs :: BootSlab(h.slabs[p], p - first))
    && |h.caches| == CLASSES
    && (forall i :: 0 <= i < CLASSES ==>
          first + i in h.slabs && h.caches[i] == CacheView(0, Capacity(i, true), [first + i]))
    && h.live == {} && h.meta == map[]
  }

  /** Structures and maps of the boot slabs lie behind the image, where slab_init puts them. */
  ghost predicate Placed(h: HeapView, first: nat, end: nat) {
    forall i :: 0 <= i < CLASSES ==>
      && first + i in h.slabs && h.slabs[first + i].address == BootEnd(end, i)
      && h.slabs[first + i].mapAddress == BootMap(end, i)
  }

  lemma BootRings(h: HeapView, first: nat)
    requires Booted(h, first)
    ensures Rings(h)
  {
    forall i | 0 <= i < CLASSES ensures RingOk(h, i) {
      assert h.caches[i].ring == [first + i];
      assert BootSlab(h.slabs[first + i], first + i - first);
    }
    forall p <- h.slabs ensures h.slabs[p].cls < CLASSES && p in h.caches[h.slabs[p].cls].ring {
      assert BootSlab(h.slabs[p], p - first);
      assert h.caches[p - first].ring == [first + (p - first)];
    }
  }

  lemma BootCounted(h: HeapView, first: nat)
    requires Booted(h, first)
    ensures SlabModel.Slabs(h)
  {
    forall p <- h.slabs ensures Shape(p, h.slabs[p]) && Counted(h.slabs[p]) {
      var s := h.slabs[p];
      assert BootSlab(h.slabs[p], p - first);
      ClearAll(s.bits, 0, Count(s));
    }
  }

  lemma BootBlocks(h: HeapView, first: nat)
    requires Booted(h, first) && SlabModel.Slabs(h)
    ensures Blocks(h) && Metadata(h)
  {
    forall p <- h.slabs ensures !IsLarge(h.slabs[p]) && BootSlab(h.slabs[p], p - first) {}
  }

  lemma BootValid(h: HeapView, first: nat)
    requires Booted(h, first)
    ensures Valid(h)
  {
    hide Booted, SlabModel.Slabs, Rings, Totals, Blocks, Metadata;
    BootCounted(h, first);
    BootRings(h, first);
    BootTotals(h, first);
    BootBlocks(h, first);
  }

  lemma BootTotals(h: HeapView, first: nat)
    requires Booted(h, first)
    ensures Totals(h)
  {
    forall i | 0 <= i < CLASSES
      ensures h.caches[i].free == SumFree(h.slabs, h.caches[i].ring)
      ensures h.caches[i].using == SumUsing(h.slabs, h.caches[i].ring)
    {
      var ring := h.caches[i].ring;
      assert BootSlab(h.slabs[first + i], first + i - first);
      assert ring[..|ring| - 1] == [];
    }
  }

  /** Where the structures of the first i classes end. */
  function BootEnd(end: nat, i: nat): (r: nat)
    requires i <= CLASSES
    ensures r >= end
    decreases i, 0
  {
    if i == 0 then end
    else LongAlign(BootMap(end, i - 1) + 8 * MapWords(Capacity(i - 1, true)) + LONG * 10)
  }

  lemma BootStart(end: nat)
    ensures BootEnd(end, 0) == end
  {}

  /** Where the map of class i lies, behind its structure. */
  function BootMap(end: nat, i: nat): nat
    requires i < CLASSES
    decreases i, 1
  {
    BootEnd(end, i) + SLAB_STRUCT + LONG * 10
  }

  /** The structures and maps of the boot slabs lie one behind the other, up to the end of them all. */
  lemma {:induction false} BootLayout(end: nat, i: nat, j: nat)
    requires i < j <= CLASSES
    ensures end <= BootEnd(end, i) && BootEnd(end, i) + SLAB_STRUCT <= BootMap(end, i)
    ensures BootMap(end, i) + 8 * MapWords(Capacity(i, true)) <= BootEnd(end, j)
    decreases j
  {
    if i < j - 1 { BootLayout(end, i, j - 1); }
  }

  /** One boot slab, and where the next one's structure goes. */
  method BootSlabAt(ghost end: nat, first: nat, i: nat, position: nat) returns (slab: Slab, next: nat)
    requires i < CLASSES && position == BootEnd(end, i)
    ensures fresh(slab) && fresh(slab.colorMap) && BootObject(slab, first, i)
    ensures slab.address == BootEnd(end, i) && slab.mapAddress == BootMap(end, i) && next == BootEnd(end, i + 1)
  {
    hide BlankMap, Flat, LongAlign;
    var color := position + SLAB_STRUCT + LONG * 10;
    var count := PAGE_2M / Size(i);
    var colorMap := BlankWords(count);
    slab := new Slab(position, color, first + i, count, colorMap, i, true);
    next := LongAlign(color + slab.colorLength + LONG * 10);
  }

  /** The structures of slab_init: slab and map of class i, laid out one after the other from `end`. */
  method BootSlabs(end: nat, first: nat) returns (slabs: array<Slab>)
    ensures fresh(slabs) && slabs.Length == CLASSES
    ensures forall i :: 0 <= i < CLASSES ==>
              BootObject(slabs[i], first, i) && fresh(slabs[i]) && fresh(slabs[i].colorMap)
    ensures forall i, j :: 0 <= i < j < CLASSES ==> slabs[i].colorMap != slabs[j].colorMap
    ensures forall i :: 0 <= i < CLASSES ==>
               slabs[i].address == BootEnd(end, i) && slabs[i].mapAddress == BootMap(end, i)
  {
    hide BlankMap, Flat, LongAlign, BootObject, BootMap, BootEnd;
    BootStart(end);
    var list: seq<Slab> := [];
    var i, position := 0, end;
    while i < CLASSES
      invariant 0 <= i <= CLASSES && |list| == i && position == BootEnd(end, i)
      invariant forall k :: 0 <= k < i ==>
        && BootObject(list[k], first, k) && fresh(list[k]) && fresh(list[k].colorMap)
        && list[k].address == BootEnd(end, k) && list[k].mapAddress == BootMap(end, k)
      invariant forall k, l :: 0 <= k < l < i ==> list[k].colorMap != list[l].colorMap
    {
      var slab;
      slab, position := BootSlabAt(end, first, i, position);
      list := list + [slab];
      i := i + 1;
    }
    slabs := new Slab[CLASSES](k requires 0 <= k < |list| => list[k]);
  }

  ghost predicate BootObject(s: Slab, first: nat, i: int)
    reads s, s.colorMap
  {
    0 <= i && Sited(s, first + i) && BootSlab(s.View(), i)
  }

  /** A free page of zone 0. */
  ghost predicate Free0(st: State, p: nat) {
    p < |st.pages| && p < |st.bits| && !st.bits[p] && st.pages[p].zone == 0 && |st.zones| > 0 && InZone(st.zones[0], p)
  }

  /** A page of zone 0 that is marked as taken and referenced once. */
  ghost predicate Held(st: State, p: nat) {
    p < |st.pages| && p < |st.bits| && st.bits[p] && |st.zones| > 0 && InZone(st.zones[0], p) && st.pages[p].refs == 1
    && {0, 1, 3} <= st.pages[p].attribute
  }

  lemma TakenFree(st: State, after: State, p: nat)
    requires Taken(st, after, 0, p)
    ensures FreePages(after) == FreePages(st) - 1
  {}

  lemma TakenHolds(st: State, after: State, p: nat, q: nat)
    requires Taken(st, after, 0, p) && {0, 1, 3} <= after.pages[p].attribute
    ensures Held(after, p)
    ensures Held(st, q) ==> Held(after, q)
    ensures Free0(st, q) && q != p ==> Free0(after, q)
  {}

  /** Claim the free pages [lo, hi) of zone 0 for the kernel. */
  method ClaimRange(pm: PageAllocator, lo: nat, hi: nat, ghost end: nat)
    requires pm.Valid() && Sound(pm.Now()) && lo <= hi <= end
    requires forall p: nat :: lo <= p < end ==> Free0(pm.Now(), p)
    modifies pm.words, pm.pages, pm.zones
    ensures pm.Valid() && Sound(pm.Now())
    ensures forall p: nat :: lo <= p < hi ==> Held(pm.Now(), p)
    ensures forall p: nat :: hi <= p < end ==> Free0(pm.Now(), p)
    ensures FreePages(pm.Now()) == old(FreePages(pm.Now())) - (hi - lo)
  {
    hide WellFormed, Sound, Free0, Held;
    var j := lo;
    while j < hi
      invariant lo <= j <= hi && pm.Valid() && Sound(pm.Now())
      invariant forall p: nat :: lo <= p < j ==> Held(pm.Now(), p)
      invariant forall p: nat :: j <= p < end ==> Free0(pm.Now(), p)
      invariant FreePages(pm.Now()) == old(FreePages(pm.Now())) - (j - lo)
    {
      ClaimOne(pm, j, lo, end);
      j := j + 1;
    }
  }

  method ClaimOne(pm: PageAllocator, j: nat, ghost lo: nat, ghost end: nat)
    requires pm.Valid() && Sound(pm.Now()) && lo <= j < end
    requires forall p: nat :: lo <= p < j ==> Held(pm.Now(), p)
    requires forall p: nat :: j <= p < end ==> Free0(pm.Now(), p)
    modifies pm.words, pm.pages, pm.zones
    ensures pm.Valid() && Sound(pm.Now())
    ensures forall p: nat :: lo <= p <= j ==> Held(pm.Now(), p)
    ensures forall p: nat :: j < p < end ==> Free0(pm.Now(), p)
    ensures FreePages(pm.Now()) == old(FreePages(pm.Now())) - 1
  {
    hide Accounted, FreeUnreferenced, Taken, Held;
    ghost var was := pm.Now();
    assert Free0(was, j) && was.pages[j] == pm.pages[j];
    pm.Claim(j, {PG_PTABLE_MAPED, PG_KERNEL_INIT, PG_KERNEL});
    TakenFree(was, pm.Now(), j);
    forall p: nat
      ensures Held(pm.Now(), j) && (Held(was, p) ==> Held(pm.Now(), p))
      ensures Free0(was, p) && p != j ==> Free0(pm.Now(), p)
    {
      TakenHolds(was, pm.Now(), j, p);
    }
  }

  /** The caches array around the boot slabs. */
  method BootCaches(slabs: array<Slab>, first: nat) returns (caches: array<SlabCache>, ghost home: map<nat, Slab>)
    requires slabs.Length == CLASSES
    ensures fresh(caches) && caches.Length == CLASSES
    ensures forall i :: 0 <= i < CLASSES ==> caches[i] == SlabCache(Size(i), 0, slabs[i].colorCount, [slabs[i]])
    ensures forall p :: p in home <==> first <= p < first + CLASSES
    ensures forall p <- home :: home[p] == slabs[p - first]
  {
    var list: seq<SlabCache> := [];
    home := map[];
    var i := 0;
    while i < CLASSES
      invariant 0 <= i <= CLASSES && |list| == i
      invariant forall k :: 0 <= k < i ==> list[k] == SlabCache(Size(k), 0, slabs[k].colorCount, [slabs[k]])
      invariant forall p :: p in home <==> first <= p < first + i
      invariant forall p <- home :: home[p] == slabs[p - first]
    {
      list := list + [SlabCache(Size(i), 0, slabs[i].colorCount, [slabs[i]])];
      home := home[first + i := slabs[i]];
      i := i + 1;
    }
    caches := new SlabCache[CLASSES](k requires 0 <= k < |list| => list[k]);
  }

  lemma BootedView(heap: KernelHeap, slabs: array<Slab>, first: nat)
    requires slabs.Length == CLASSES && heap.caches.Length == CLASSES
    requires forall i :: 0 <= i < CLASSES ==> BootObject(slabs[i], first, i)
    requires forall i :: 0 <= i < CLASSES ==> heap.caches[i] == SlabCache(Size(i), 0, slabs[i].colorCount, [slabs[i]])
    requires forall p :: p in heap.home <==> first <= p < first + CLASSES
    requires forall p <- heap.home :: heap.home[p] == slabs[p - first]
    requires heap.live == {} && heap.meta == map[]
    ensures Booted(heap.Now(), first)
  {
    hide Size, Capacity, BlankMap, Flat, Base;
    forall p <- heap.Now().slabs ensures BootSlab(heap.Now().slabs[p], p - first) {
      assert BootObject(slabs[p - first], first, p - first);
    }
    forall i | 0 <= i < CLASSES
      ensures first + i in heap.Now().slabs && heap.Now().caches[i] == CacheView(0, Capacity(i, true), [first + i])
    {
      assert BootObject(slabs[i], first, i);
      assert first + i in heap.home;
    }
  }

  lemma BootedPlaces(heap: KernelHeap, slabs: array<Slab>, first: nat, end: nat)
    requires slabs.Length == CLASSES
    requires forall i :: 0 <= i < CLASSES ==>
               slabs[i].address == BootEnd(end, i) && slabs[i].mapAddress == BootMap(end, i)
    requires forall p :: p in heap.home <==> first <= p < first + CLASSES
    requires forall p <- heap.home :: heap.home[p] == slabs[p - first]
    ensures Placed(heap.Now(), first, end)
  {
    hide BootEnd, BootMap;
    forall i | 0 <= i < CLASSES
      ensures first + i in heap.Now().slabs
      ensures heap.Now().slabs[first + i].address == BootEnd(end, i)
                && heap.Now().slabs[first + i].mapAddress == BootMap(end, i)
    {
      assert first + i in heap.home && heap.home[first + i] == slabs[first + i - first];
    }
  }

  lemma BootWired(home: map<nat, Slab>, cs: seq<SlabCache>, slabs: seq<Slab>, w: array<Word>, first: nat)
    requires |slabs| == CLASSES == |cs|
    requires forall i :: 0 <= i < CLASSES ==> Sited(slabs[i], first + i) && slabs[i].colorMap != w
    requires forall i, j :: 0 <= i < j < CLASSES ==> slabs[i].colorMap != slabs[j].colorMap
    requires forall i :: 0 <= i < CLASSES ==> cs[i] == SlabCache(Size(i), 0, slabs[i].colorCount, [slabs[i]])
    requires forall p :: p in home <==> first <= p < first + CLASSES
    requires forall p <- home :: home[p] == slabs[p - first]
    ensures Wired(home, cs, w)
  {
    hide Capacity, Base;
    forall i, k | 0 <= i < CLASSES && 0 <= k < |cs[i].ring|
      ensures cs[i].ring[k].page in home && home[cs[i].ring[k].page] == cs[i].ring[k]
    {
      assert cs[i].ring == [slabs[i]] && slabs[i].page == first + i;
    }
    forall p <- home ensures Sited(home[p], p) && home[p].colorMap != w {
      assert Sited(slabs[p - first], first + (p - first));
    }
    forall p, q | p in home && q in home && p < q ensures home[p].colorMap != home[q].colorMap {
      assert slabs[p - first].colorMap != slabs[q - first].colorMap;
    }
  }

  lemma SitedSlabs(slabs: array<Slab>, first: nat)
    requires slabs.Length == CLASSES && forall i :: 0 <= i < CLASSES ==> BootObject(slabs[i], first, i)
    ensures forall i :: 0 <= i < CLASSES ==> Sited(slabs[i], first + i)
  {
    forall i | 0 <= i < CLASSES ensures Sited(slabs[i], first + i) { assert BootObject(slabs[i], first, i); }
  }

  lemma BootOwned(h: HeapView, st: State, first: nat)
    requires Booted(h, first) && Sound(st) && forall p: nat :: first <= p < first + CLASSES ==> Held(st, p)
    ensures Consistent(h, st)
  {
    hide Sound, Valid;
    BootValid(h, first);
    forall p <- h.slabs ensures Held(st, p) { assert BootSlab(h.slabs[p], p - first); }
  }

  /** The first page behind the image. */
  function AfterImage(end: nat): nat
    requires PAGE_OFFSET <= end
  {
    (end - PAGE_OFFSET + PAGE_2M - 1) / PAGE_2M
  }

  /** The page in which the structures of the boot slabs end. */
  function BootLast(end: nat): nat
    requires PAGE_OFFSET <= end
  {
    (BootEnd(end, CLASSES) - PAGE_OFFSET) / PAGE_2M
  }

  /** The page of the first boot slab. */
  function BootFirst(end: nat): nat
    requires PAGE_OFFSET <= end
  {
    (BootEnd(end, CLASSES) - PAGE_OFFSET + PAGE_2M - 1) / PAGE_2M
  }

  /** What the structures and maps of the first i classes take. */
  function BootBytes(i: nat): nat
    requires i <= CLASSES
  {
    if i == 0 then 0 else BootBytes(i - 1) + SLAB_STRUCT + 8 * MapWords(Capacity(i - 1, true)) + LONG * 20
  }

  lemma {:induction false} BootEndIs(end: nat, i: nat)
    requires i <= CLASSES && end % LONG == 0
    ensures BootEnd(end, i) == end + BootBytes(i) && BootBytes(i) % LONG == 0
  {
    hide MapWords, Capacity, LongAlign;
    if i > 0 {
      BootEndIs(end, i - 1);
      Eights(end, BootBytes(i - 1), MapWords(Capacity(i - 1, true)));
    }
  }

  lemma Eights(a: nat, b: nat, m: nat)
    requires a % LONG == 0 && b % LONG == 0
    ensures LongAlign(a + b + SLAB_STRUCT + LONG * 10 + 8 * m + LONG * 10) == a + b + SLAB_STRUCT + 8 * m + LONG * 20
    ensures (b + SLAB_STRUCT + 8 * m + LONG * 20) % LONG == 0
  {
    assert b + SLAB_STRUCT + 8 * m + LONG * 20 == LONG * (b / LONG + m + 29);
    assert a + b + SLAB_STRUCT + 8 * m + LONG * 20 == LONG * (a / LONG + b / LONG + m + 29);
  }

  lemma BootStep(i: nat, words: nat)
    requires i < CLASSES && words == MapWords(Capacity(i, true))
    ensures BootBytes(i + 1) == BootBytes(i) + SLAB_STRUCT + 8 * words + LONG * 20
  {}

  lemma BootQuarter()
    ensures BootBytes(4) == 8 * 1920 + 4 * 232
  {
    assert BootBytes(0) == 0;
    hide BootBytes;
    BootStep(0, 1024); BootStep(1, 512); BootStep(2, 256); BootStep(3, 128);
  }

  lemma BootHalf()
    ensures BootBytes(8) == 8 * 2040 + 8 * 232
  {
    hide BootBytes;
    BootQuarter();
    BootStep(4, 64); BootStep(5, 32); BootStep(6, 16); BootStep(7, 8);
  }

  lemma BootTotal()
    ensures BootBytes(CLASSES) == 20128
  {
    hide BootBytes;
    BootHalf();
    BootStep(8, 4); BootStep(9, 2); BootStep(10, 1); BootStep(11, 1);
    BootStep(12, 1); BootStep(13, 1); BootStep(14, 1); BootStep(15, 1);
  }

  /** Neither the tables of init_memory nor the structures of slab_init behind them end on a page boundary. */
  predicate OffBoundary(end: nat)
    requires PAGE_OFFSET <= end
  {
    (end - PAGE_OFFSET) % PAGE_2M != 0 && (BootEnd(end, CLASSES) - PAGE_OFFSET) % PAGE_2M != 0
  }

  /** With at most 32 zones no end that init_memory computes is a multiple of 4 KB, nor where slab_init moves it. */
  lemma NeverOnBoundary(end: nat, zones: nat)
    requires PAGE_OFFSET <= end && 1 <= zones <= 32 && BehindZones(end, zones)
    ensures OffBoundary(end)
  {
    hide BootEnd, BootBytes, BehindZones;
    var k := Multiple4K(end, zones);
    BootEndIs(end, CLASSES);
    BootTotal();
    NoMultiple(zones);
    Offset4K(k, 80 * zones + 256);
    Offset4K(k, 80 * zones + 256 + 20128);
  }

  lemma Multiple4K(end: nat, zones: nat) returns (k: nat)
    requires BehindZones(end, zones)
    ensures end == PAGE_4K * k + (80 * zones + 256) && end % LONG == 0
  {
    k := (end - (80 * zones + 256)) / PAGE_4K;
    assert end == LONG * (512 * k + 10 * zones + 32);
  }

  lemma NoMultiple(zones: nat)
    requires 1 <= zones <= 32
    ensures (80 * zones + 256) % PAGE_4K != 0 && (80 * zones + 256 + 20128) % PAGE_4K != 0
  {}

  /** What lies on a 2 MB boundary is a multiple of 4 KB. */
  lemma Offset4K(k: nat, d: nat)
    requires PAGE_4K * k + d >= PAGE_OFFSET
    ensures (PAGE_4K * k + d - PAGE_OFFSET) % PAGE_2M == 0 ==> d % PAGE_4K == 0
  {
    var x := PAGE_4K * k + d - PAGE_OFFSET;
    if x % PAGE_2M == 0 {
      assert d == PAGE_4K * (512 * (x / PAGE_2M) + PAGE_OFFSET / PAGE_4K - k);
    }
  }

  /** The pages lo up to hi, in order. */
  function Upward(lo: nat, hi: nat): (r: seq<nat>)
    ensures |r| == if lo <= hi then hi - lo else 0
    ensures forall i :: 0 <= i < |r| ==> r[i] == lo + i
  {
    seq(if lo <= hi then hi - lo else 0, i => lo + i)
  }

  /** The pages that init_memory and the two loops of slab_init claim, one after the other. */
  function Claims(end: nat): seq<nat>
    requires PAGE_OFFSET <= end
  {
    Upward(1, (end - PAGE_OFFSET) / PAGE_2M + 1) + Upward(AfterImage(end), BootLast(end) + 1)
    + Upward(BootFirst(end), BootFirst(end) + CLASSES)
  }

  lemma BootPages(end: nat)
    requires PAGE_OFFSET <= end && OffBoundary(end)
    ensures AfterImage(end) == (end - PAGE_OFFSET) / PAGE_2M + 1 <= BootLast(end) + 1 == BootFirst(end)
    ensures BootEnd(end, CLASSES) <= Base(BootFirst(end))
  {
    hide BootEnd;
    DivMono(end - PAGE_OFFSET, BootEnd(end, CLASSES) - PAGE_OFFSET);
  }

  /**
   For any image, any number of pages and of zones: from page 1 on each page up to the last boot slab's is claimed,
   in order and once, and the structures end below the blocks of the first boot slab.
   */
  lemma NoPageClaimedTwice(startBrk: nat, n: nat, zones: nat)
    requires PAGE_OFFSET <= startBrk && 1 <= zones <= 32
    ensures PAGE_OFFSET <= StructEnd(startBrk, n, zones)
    ensures var end := StructEnd(startBrk, n, zones);
      && Claims(end) == Upward(1, BootFirst(end) + CLASSES)
      && BootEnd(end, CLASSES) <= Base(BootFirst(end))
  {
    hide StructEnd, OffBoundary, BootEnd, AfterImage, BootLast, BootFirst;
    var end := StructEnd(startBrk, n, zones);
    EndBehindZones(startBrk, n, zones);
    NeverOnBoundary(end, zones);
    BootPages(end);
  }

  /**
   slab_init behind the structures of init_memory, which end at `end`. The pages behind the image are taken to be
   free pages of zone 0.
   */
  method BootHeap(pm: PageAllocator, end: nat, ghost zones: nat) returns (heap: KernelHeap)
    requires pm.Valid() && Sound(pm.Now()) && pm.zoneDma == 0 && pm.zoneNormal == 0 && pm.pages.Length <= 0x400_0000
    requires PAGE_OFFSET <= end && 1 <= zones <= 32 && BehindZones(end, zones)
    requires forall p: nat :: AfterImage(end) <= p < BootFirst(end) + CLASSES ==> Free0(pm.Now(), p)
    modifies pm.words, pm.pages, pm.zones
    ensures fresh(heap) && heap.pm == pm && heap.Valid() && heap.live == {} && heap.meta == map[]
    ensures Booted(heap.Now(), BootFirst(end)) && Placed(heap.Now(), BootFirst(end), end)
    ensures AfterImage(end) <= BootFirst(end)
    ensures FreePages(pm.Now()) == old(FreePages(pm.Now())) - (BootFirst(end) + CLASSES - AfterImage(end))
    ensures fresh(heap.repr - pm.Arrays())
  {
    hide WellFormed, Sound, Free0, Held, BootEnd, Placed, Booted, OffBoundary, BehindZones;
    NeverOnBoundary(end, zones);
    BootPages(end);
    var lo, last, first := AfterImage(end), BootLast(end), BootFirst(end);
    ClaimRange(pm, lo, last + 1, first + CLASSES);
    ClaimRange(pm, first, first + CLASSES, first + CLASSES);
    heap := AssembleHeap(pm, end, first);
  }

  method AssembleHeap(pm: PageAllocator, end: nat, first: nat) returns (heap: KernelHeap)
    requires pm.Valid() && Sound(pm.Now()) && pm.zoneDma == 0 && pm.zoneNormal == 0 && pm.pages.Length <= 0x400_0000
    requires forall p: nat :: first <= p < first + CLASSES ==> Held(pm.Now(), p)
    ensures fresh(heap) && heap.pm == pm && heap.Valid() && heap.live == {} && heap.meta == map[]
    ensures Booted(heap.Now(), first) && Placed(heap.Now(), first, end) && pm.Now() == old(pm.Now())
    ensures fresh(heap.repr - pm.Arrays())
  {
    hide WellFormed, Sound, Held, SlabModel.Consistent, Booted, Placed, BootObject, BootEnd, BootMap, Wired, BootSlab,
         Sited, Size;
    ghost var st := pm.Now();
    var slabs := BootSlabs(end, first);
    var caches, home := BootCaches(slabs, first);
    heap := new KernelHeap(pm, caches, home);
    assert pm.Now() == st;
    BootReady(heap, slabs, first, end);
  }

  lemma BootReady(heap: KernelHeap, slabs: array<Slab>, first: nat, end: nat)
    requires slabs.Length == CLASSES && heap.caches.Length == CLASSES
    requires forall i :: 0 <= i < CLASSES ==> BootObject(slabs[i], first, i) && slabs[i].colorMap != heap.pm.words
    requires forall i, j :: 0 <= i < j < CLASSES ==> slabs[i].colorMap != slabs[j].colorMap
    requires forall i :: 0 <= i < CLASSES ==>
               slabs[i].address == BootEnd(end, i) && slabs[i].mapAddress == BootMap(end, i)
    requires forall i :: 0 <= i < CLASSES ==> heap.caches[i] == SlabCache(Size(i), 0, slabs[i].colorCount, [slabs[i]])
    requires forall p :: p in heap.home <==> first <= p < first + CLASSES
    requires forall p <- heap.home :: heap.home[p] == slabs[p - first]
    requires heap.live == {} && heap.meta == map[]
    requires Sound(heap.pm.Now()) && forall p: nat :: first <= p < first + CLASSES ==> Held(heap.pm.Now(), p)
    ensures Wired(heap.home, heap.caches[..], heap.pm.words)
    ensures Booted(heap.Now(), first) && Placed(heap.Now(), first, end)
              && SlabModel.Consistent(heap.Now(), heap.pm.Now())
  {
    hide WellFormed, Sound, Held, SlabModel.Consistent, Booted, Placed, BootObject, BootEnd, BootMap, Wired,
         BootSlab, Sited, Size;
    SitedSlabs(slabs, first);
    BootWired(heap.home, heap.caches[..], slabs[..], heap.pm.words, first);
    BootedView(heap, slabs, first);
    BootedPlaces(heap, slabs, first, end);
    BootOwned(heap.Now(), heap.pm.Now(), first);
  }
}
