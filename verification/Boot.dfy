// From the memory map to a running heap, and what holds after any sequence of requests.
module Boot {
  import opened Words
  import opened Common
  import opened Pages
  import opened Geometry
  import opened SlabModel
  import opened Slabs
  import opened MemoryInit
  import opened SlabInit

  /** The pages that init_memory makes structures for. */
  function PageCount(e820: seq<E820>): nat
    requires e820 != []
  {
    LastPage(e820[|e820| - 1])
  }

  /** Where init_memory leaves the end of its structures, for a kernel image that ends at startBrk. */
  function EndOf(e820: seq<E820>, startBrk: nat): nat
    requires e820 != []
  {
    StructEnd(startBrk, PageCount(e820), |ZonesOf(e820)|)
  }

  /** The first zone starts at page 1, holds image, tables and boot slabs, and page 0 is in none. */
  ghost predicate RoomFor(e820: seq<E820>, startBrk: nat) {
    && 0 < |e820| <= 32 && Tidy(e820) && PageCount(e820) <= 0x400_0000
    && ZonesOf(e820) != [] && ZonesOf(e820)[0].first == 1
    && PAGE_OFFSET <= startBrk <= EndOf(e820, startBrk)
    && BootFirst(EndOf(e820, startBrk)) + CLASSES <= ZonesOf(e820)[0].last
  }

  /** Pages lo up to hi of the first zone, which is zs[0] and starts at page 1, are free. */
  ghost predicate Untouched(st: State, zs: seq<Zone>, lo: nat, hi: nat) {
    && zs != [] && |st.zones| == |zs| && st.zones[0].first == 1 && hi <= st.zones[0].last == zs[0].last
    && hi <= |st.pages| && hi <= |st.bits| && forall i :: lo <= i < hi ==> !st.bits[i]
  }

  lemma ZoneZeroApart(e820: seq<E820>, z: nat)
    requires Tidy(e820) && z < |ZonesOf(e820)| && ZonesOf(e820)[0].first == 1
    ensures !InZone(ZonesOf(e820)[z], 0)
  {}

  lemma {:induction false} NoReferences(pages: seq<Page>, lo: nat, hi: nat)
    requires hi <= |pages| && forall i :: lo <= i < hi ==> pages[i].refs == 0
    ensures References(pages, lo, hi) == 0
    decreases hi
  {
    if lo < hi { NoReferences(pages, lo, hi - 1); }
  }

  /** The one reference there is belongs to page 0, which is in no zone. */
  lemma NoLinksYet(e820: seq<E820>, st: State)
    requires WellFormed(st) && st.zones == ZonesOf(e820)
    requires forall z: nat :: z < |st.zones| ==> !InZone(st.zones[z], 0)
    requires forall i :: 0 < i < |st.pages| ==> st.pages[i].refs == 0
    ensures LinksMatch(st)
  {
    forall z | 0 <= z < |st.zones|
      ensures st.zones[z].links == References(st.pages, st.zones[z].first, st.zones[z].last)
    {
      FreshCounters(e820, z);
      NoReferences(st.pages, st.zones[z].first, st.zones[z].last);
    }
  }

  lemma InitialPages(e820: seq<E820>, st: State)
    requires e820 != [] && Tidy(e820) && ZonesOf(e820) != [] && ZonesOf(e820)[0].first == 1
    requires WellFormed(st) && Accounted(st) && st.zones == ZonesOf(e820)
    requires forall i :: 0 <= i < |st.pages| ==> (!st.bits[i] <==> Covered(st.zones, i))
    requires forall i :: 0 < i < |st.pages| ==> st.pages[i].refs == 0
    ensures Sound(st) && Untouched(st, ZonesOf(e820), 1, st.zones[0].last) && FreePages(st) == st.zones[0].last - 1
  {
    hide LinksMatch;
    forall z: nat | z < |st.zones| ensures !InZone(st.zones[z], 0) { ZoneZeroApart(e820, z); }
    assert !Covered(st.zones, 0);
    NoLinksYet(e820, st);
    forall i | 1 <= i < st.zones[0].last ensures !st.bits[i] { assert InZone(st.zones[0], i); }
    ClearAll(st.bits, 1, st.zones[0].last);
  }

  lemma UntouchedRange(st: State, zs: seq<Zone>, lo: nat, hi: nat, end: nat)
    requires Sound(st) && Untouched(st, zs, lo, hi) && 1 <= lo && end <= hi
    ensures FreeRange(st, lo, end) && forall p: nat :: lo <= p < end ==> Free0(st, p)
  {
    forall p: nat | lo <= p < end ensures FreePage(st, p) && Free0(st, p) { assert InZone(st.zones[0], p); }
  }

  lemma AfterKernel(st: State, after: State, zs: seq<Zone>, last: nat, hi: nat)
    requires Sound(st) && Sound(after) && SameBounds(st.zones, after.zones) && Untouched(st, zs, 1, hi)
    requires hi == st.zones[0].last && last < hi && after.bits == SetRange(st.bits, 1, last, true)
    requires |after.pages| == |st.pages|
    ensures Untouched(after, zs, last + 1, hi) && FreePages(after) == FreePages(st) - last
  {
    ClearRange(st.bits, 1, last, true, 1, hi);
  }

  /** init_memory, for an image that ends at startBrk. */
  method BootPages(e820: seq<E820>, tail: Word, startBrk: nat) returns (pm: PageAllocator, end: nat)
    requires RoomFor(e820, startBrk)
    ensures fresh(pm) && fresh(pm.words) && fresh(pm.pages) && fresh(pm.zones) && end == EndOf(e820, startBrk)
    ensures pm.Valid() && Sound(pm.Now()) && pm.zoneDma == 0 && pm.zoneNormal == 0 && pm.pages.Length <= 0x400_0000
    ensures Untouched(pm.Now(), ZonesOf(e820), AfterImage(end), ZonesOf(e820)[0].last)
    ensures FreePages(pm.Now()) == ZonesOf(e820)[0].last - AfterImage(end)
  {
    hide WellFormed, Accounted, Covered, BootEnd, ZonesOf, FreeRange, Untouched, FreeUnreferenced, StructEnd, Tidy;
    pm := InitMemory(e820, tail);
    end := EndOf(e820, startBrk);
    EndOffBoundary(e820, startBrk);
    var last := (end - PAGE_OFFSET) / PAGE_2M;
    ghost var st, hi := pm.Now(), ZonesOf(e820)[0].last;
    InitialPages(e820, st);
    UntouchedRange(st, ZonesOf(e820), 1, hi, last + 1);
    BelowLast(st, ZonesOf(e820), 1, hi);
    ClaimKernel(pm, last);
    AfterKernel(st, pm.Now(), ZonesOf(e820), last, hi);
  }

  lemma EndOffBoundary(e820: seq<E820>, startBrk: nat)
    requires RoomFor(e820, startBrk)
    ensures var end := EndOf(e820, startBrk);
      && BehindZones(end, |ZonesOf(e820)|) && 1 <= |ZonesOf(e820)| <= 32
      && AfterImage(end) == (end - PAGE_OFFSET) / PAGE_2M + 1 <= BootFirst(end)
  {
    hide BootEnd, BootLast, StructEnd, BehindZones;
    EndBehindZones(startBrk, PageCount(e820), |ZonesOf(e820)|);
    NeverOnBoundary(EndOf(e820, startBrk), |ZonesOf(e820)|);
    SlabInit.BootPages(EndOf(e820, startBrk));
  }

  lemma BelowLast(st: State, zs: seq<Zone>, lo: nat, hi: nat)
    requires Untouched(st, zs, lo, hi)
    ensures hi <= |st.pages|
  {}

  /** The heap as slab_init leaves it behind `end`, with the rest of the first zone free. */
  ghost predicate Started(h: HeapView, st: State, zs: seq<Zone>, end: nat) {
    && PAGE_OFFSET <= end && zs != []
    && Booted(h, BootFirst(end)) && Placed(h, BootFirst(end), end)
    && FreePages(st) == zs[0].last - (BootFirst(end) + CLASSES)
  }

  /** init_memory and slab_init: a running heap as slab_init leaves it, with the rest of the first zone free. */
  method BootMemory(e820: seq<E820>, tail: Word, startBrk: nat) returns (heap: KernelHeap, end: nat)
    requires RoomFor(e820, startBrk)
    ensures fresh(heap) && fresh(heap.repr) && heap.Valid() && heap.live == {}
    ensures end == EndOf(e820, startBrk) && Started(heap.Now(), heap.pm.Now(), ZonesOf(e820), end)
  {
    hide WellFormed, Sound, BootEnd, ZonesOf, Untouched, SlabModel.Consistent, Booted, Placed, Free0, StructEnd,
         BehindZones;
    var pm;
    pm, end := BootPages(e820, tail, startBrk);
    EndOffBoundary(e820, startBrk);
    UntouchedRange(pm.Now(), ZonesOf(e820), AfterImage(end), ZonesOf(e820)[0].last, BootFirst(end) + CLASSES);
    heap := BootHeap(pm, end, |ZonesOf(e820)|);
  }

  // ---- runs of requests

  /** kmalloc, or kfree of what an earlier request was given. */
  datatype Request = Allocate(size: nat) | Release(k: nat)

  datatype Answer = Handed(address: nat) | Refused | TakenBack(address: nat) | Ignored

  /** The blocks held after one more answer. */
  function HeldAfter(held: set<nat>, answer: Answer): set<nat> {
    match answer
    case Handed(a) => held + {a}
    case TakenBack(a) => held - {a}
    case other => held
  }

  /** The blocks handed out and not taken back. */
  function Holding(answers: seq<Answer>): set<nat> {
    if answers == [] then {} else HeldAfter(Holding(answers[..|answers| - 1]), answers[|answers| - 1])
  }

  /** No block is handed out while it is held. */
  ghost predicate NoneTwice(answers: seq<Answer>) {
    forall i :: 0 <= i < |answers| && answers[i].Handed? ==> answers[i].address !in Holding(answers[..i])
  }

  lemma OneMore(answers: seq<Answer>, answer: Answer)
    requires NoneTwice(answers) && (answer.Handed? ==> answer.address !in Holding(answers))
    ensures NoneTwice(answers + [answer]) && Holding(answers + [answer]) == HeldAfter(Holding(answers), answer)
  {
    assert (answers + [answer])[..|answers|] == answers;
    forall i | 0 <= i < |answers| ensures (answers + [answer])[..i] == answers[..i] {}
  }

  /** Blocks callers hold are aligned, each on the page of its slab, and no two share a byte. */
  ghost predicate LaidOut(h: HeapView) {
    && SlabModel.Slabs(h)
    && (forall a <- h.live ::
          && Housed(h, a) && a % BlockSize(h, a) == 0
          && Base(PageOf(a)) <= a && a + BlockSize(h, a) <= Base(PageOf(a)) + PAGE_2M)
    && (forall a, b :: a in h.live && b in h.live && a != b ==> a + BlockSize(h, a) <= b || b + BlockSize(h, b) <= a)
  }

  lemma ValidLaysOut(h: HeapView)
    requires Valid(h)
    ensures LaidOut(h)
  {
    hide Housed, Blocks, Rings, Totals, Metadata, Shape, Counted;
    forall a <- h.live
      ensures Housed(h, a) && a % BlockSize(h, a) == 0
      ensures Base(PageOf(a)) <= a && a + BlockSize(h, a) <= Base(PageOf(a)) + PAGE_2M
    {
      BlockOnPage(h, a);
    }
    forall a, b | a in h.live && b in h.live && a != b
      ensures a + BlockSize(h, a) <= b || b + BlockSize(h, b) <= a
    {
      BlocksDisjoint(h, a, b);
    }
  }

  predicate Allocations(requests: seq<Request>) {
    forall i :: 0 <= i < |requests| ==> requests[i].Allocate?
  }

  /** What kmalloc(size) leaves of a stock, or where it faults. */
  ghost function Drained(k: Stock, size: nat): (d: Drawn)
    requires |k.free| == CLASSES
    ensures !d.Nothing? && (d.Got? ==> |d.left.free| == CLASSES)
  {
    if size > Size(CLASSES - 1) then Got(k)
    else
      match Draw(k, ClassOf(size))
      case Nothing => Got(k)
      case other => other
  }

  /** One kmalloc after the other. */
  ghost function Drain(k: Stock, requests: seq<Request>): (d: Drawn)
    requires |k.free| == CLASSES && Allocations(requests)
    ensures !d.Nothing? && (d.Got? ==> |d.left.free| == CLASSES)
  {
    if requests == [] then Got(k)
    else
      var d := Drain(k, requests[..|requests| - 1]);
      if d.Got? then Drained(d.left, requests[|requests| - 1].size) else d
  }

  lemma {:induction false} BrokeStays(k: Stock, requests: seq<Request>, n: nat)
    requires |k.free| == CLASSES && Allocations(requests) && n <= |requests| && Drain(k, requests[..n]).Broke?
    ensures Drain(k, requests).Broke?
  {
    if n < |requests| {
      assert requests[..|requests| - 1][..n] == requests[..n];
      BrokeStays(k, requests[..|requests| - 1], n);
    } else {
      assert requests[..n] == requests;
    }
  }

  lemma DrainOn(k: Stock, requests: seq<Request>, n: nat, size: nat)
    requires |k.free| == CLASSES && Allocations(requests) && n < |requests| && requests[n] == Allocate(size)
    requires Drain(k, requests[..n]).Got?
    ensures Drain(k, requests[..n + 1]) == Drained(Drain(k, requests[..n]).left, size)
  {
    assert requests[..n + 1][..n] == requests[..n];
  }

  /** One request of the run. */
  method ServeOne(heap: KernelHeap, request: Request, answers: seq<Answer>) returns (answer: Answer, faulted: bool)
    requires heap.Valid() && heap.live == Holding(answers)
    modifies heap.repr
    ensures heap.Valid() && fresh(heap.repr - old(heap.repr))
    ensures faulted ==> request.Allocate?
    ensures !faulted ==> heap.live == HeldAfter(old(heap.live), answer)
    ensures answer.Handed? ==> answer.address !in old(heap.live)
    ensures request.Allocate? ==>
              var d := Drained(old(heap.Supply()), request.size);
              (faulted <==> d.Broke?) && (!faulted ==> d == Got(heap.Supply()))
  {
    hide SlabModel.Consistent, Draw, Price, Surplus, Housed, Kept, Extends, BlocksKept, Holding, StockOf;
    answer, faulted := Ignored, false;
    match request {
      case Allocate(size) =>
        var r := heap.Kmalloc(size);
        answer, faulted := if r.Block? then Handed(r.address) else Refused, r.Fault?;
      case Release(k) =>
        if k < |answers| && answers[k].Handed? && answers[k].address in Holding(answers) {
          var r := heap.Kfree(answers[k].address);
          answer := TakenBack(answers[k].address);
        }
    }
  }

  /**
   Any sequence of requests to a heap that has handed out nothing. Unless kmalloc faults on the way, all are
   answered; the blocks held are those handed out and not taken back, no block is handed out while it is held,
   and they are laid out as promised. Whether a run of allocations faults can be told from the stock beforehand.
   */
  method Serve(heap: KernelHeap, requests: seq<Request>) returns (answers: seq<Answer>, faulted: bool)
    requires heap.Valid() && heap.live == {}
    modifies heap.repr
    ensures heap.Valid() && fresh(heap.repr - old(heap.repr)) && NoneTwice(answers)
    ensures if faulted then |answers| < |requests| && requests[|answers|].Allocate? else |answers| == |requests|
    ensures !faulted ==> heap.live == Holding(answers) && LaidOut(heap.Now())
    ensures Allocations(requests) ==> (faulted <==> Drain(old(heap.Supply()), requests).Broke?)
    ensures Allocations(requests) && !faulted ==> Drain(old(heap.Supply()), requests) == Got(heap.Supply())
    ensures Allocations(requests) && faulted ==>
              Drain(old(heap.Supply()), requests[..|answers|]).Got?
                   && Drain(old(heap.Supply()), requests[..|answers| + 1]).Broke?
  {
    hide SlabModel.Consistent, LaidOut, NoneTwice, Drain, Drained, StockOf;
    ghost var k := heap.Supply();
    answers, faulted := [], false;
    NoneYet();
    DrainNothing(k, requests);
    while |answers| < |requests|
      invariant heap.Valid() && fresh(heap.repr - old(heap.repr)) && |answers| <= |requests|
      invariant heap.live == Holding(answers) && NoneTwice(answers) && !faulted
      invariant Allocations(requests) ==> Drain(k, requests[..|answers|]) == Got(heap.Supply())
    {
      var answer;
      if Allocations(requests) { DrainOn(k, requests, |answers|, requests[|answers|].size); }
      answer, faulted := ServeOne(heap, requests[|answers|], answers);
      if faulted {
        if Allocations(requests) { BrokeStays(k, requests, |answers| + 1); }
        return;
      }
      OneMore(answers, answer);
      answers := answers + [answer];
    }
    assert requests[..|answers|] == requests;
    HeapLaysOut(heap.Now(), heap.pm.Now());
  }

  lemma DrainNothing(k: Stock, requests: seq<Request>)
    requires |k.free| == CLASSES
    ensures Drain(k, requests[..0]) == Got(k)
  {}

  lemma NoneYet()
    ensures NoneTwice([])
  {}

  lemma HeapLaysOut(h: HeapView, st: State)
    requires Consistent(h, st)
    ensures LaidOut(h)
  {
    ValidLaysOut(h);
  }

  // ---- a run that faults

  function Times(n: nat, size: nat): (r: seq<Request>)
    ensures |r| == n && Allocations(r)
  {
    seq(n, i => Allocate(size))
  }

  /** Blocks at hand are given out one by one. */
  lemma {:induction false} DrainTimes(k: Stock, requests: seq<Request>, n: nat, size: nat)
    requires |k.free| == CLASSES && Allocations(requests) && Drain(k, requests).Got? && size <= Size(CLASSES - 1)
    requires n <= Drain(k, requests).left.free[ClassOf(size)]
    ensures Drain(k, requests + Times(n, size)) == Got(More(Drain(k, requests).left, ClassOf(size), -(n as int)))
  {
    var left := Drain(k, requests).left;
    if n == 0 {
      assert requests + Times(0, size) == requests && More(left, ClassOf(size), 0) == left;
    } else {
      var all := requests + Times(n, size);
      DrainTimes(k, requests, n - 1, size);
      assert all[..|all| - 1] == requests + Times(n - 1, size) && all[..|all|] == all;
      hide Drain;
      DrainOn(k, all, |all| - 1, size);
      OneLess(left, ClassOf(size), n);
    }
  }

  lemma OneLess(k: Stock, cls: nat, n: nat)
    requires |k.free| == CLASSES && cls < CLASSES && 0 < n <= k.free[cls]
    ensures Draw(More(k, cls, -(n - 1)), cls) == Got(More(k, cls, -(n as int)))
  {
    assert More(More(k, cls, -(n - 1)), cls, -1) == More(k, cls, -(n as int));
  }

  /** The free blocks of a heap that slab_init has left. */
  lemma StartedStock(h: HeapView, st: State, zs: seq<Zone>, end: nat)
    requires Started(h, st, zs, end)
    ensures AsBooted(StockOf(h, st), zs[0].last - (BootFirst(end) + CLASSES))
  {
    hide Placed, BootEnd, BootFirst;
  }

  /** All blocks of the boot slabs, and so many pages. */
  ghost predicate AsBooted(k: Stock, pages: int) {
    |k.free| == CLASSES && k.pages == pages && forall i :: 0 <= i < CLASSES ==> k.free[i] == Capacity(i, true)
  }

  /** All blocks of 256 bytes and of 1024 that slab_init provides, and one of 1024 more. */
  function FaultingRun(): (r: seq<Request>)
    ensures |r| == 10241 && Allocations(r)
  {
    Times(8192, 256) + Times(2048, 1024) + [Allocate(1024)]
  }

  /**
   A stock as slab_init leaves it, with one page of zone 0: the last request takes the page for its slab, and
   kmalloc stores through the NULL it gets for the map.
   */
  lemma BootRunFaults(k: Stock)
    requires AsBooted(k, 1)
    ensures Drain(k, FaultingRun()[..10240]).Got? && Drain(k, FaultingRun()).Broke?
  {
    PickedClasses();
    var left := DrawnDown(k);
    var all := FaultingRun();
    assert all[..10240] == Times(8192, 256) + Times(2048, 1024) && all[..10241] == all;
    hide Drain, Times, FaultingRun;
    DrainOn(k, all, 10240, 1024);
    DrawExactly(left, 5);
    hide Draw;
  }

  lemma PickedClasses()
    ensures ClassOf(256) == 3 && ClassOf(1024) == 5 && StructClass() == 2 && MapClass(5) == 3
  {
    SizesBy(3, 256);
    SizesBy(5, 1024);
    SizesBy(2, SLAB_STRUCT);
    assert MapBytes(5) == 256;
  }

  lemma SizesBy(cls: nat, size: nat)
    requires 0 < cls < CLASSES && Size(cls - 1) < size <= Size(cls)
    ensures ClassOf(size) == cls
  {
    var i := ClassOf(size);
    SizesGrow(i, cls - 1);
    SizesGrow(cls, if i > 0 then i - 1 else 0);
  }

  lemma DrawnDown(k: Stock) returns (left: Stock)
    requires AsBooted(k, 1)
    ensures |left.free| == CLASSES && Drain(k, Times(8192, 256) + Times(2048, 1024)) == Got(left)
    ensures left == More(More(k, 3, -8192), 5, -2048)
    ensures left.free[3] == 0 && left.free[5] == 0 && left.free[2] > 0 && left.pages == 1
  {
    hide Drain, Times, Capacity;
    BootCapacities();
    PickedClasses();
    left := More(More(k, 3, -8192), 5, -2048);
    DrainNothing(k, []);
    assert [][..0] + Times(8192, 256) == Times(8192, 256);
    DrainTimes(k, [][..0], 8192, 256);
    DrainTimes(k, Times(8192, 256), 2048, 1024);
  }

  lemma BootCapacities()
    ensures Capacity(3, true) == 8192 && Capacity(5, true) == 2048 && Capacity(2, true) == 16384
              && Capacity(7, true) == 512
  {}
}
