// A machine with 36 MB of memory, on which what the other modules find can be reached from the start.
module SmallMachine {
  import opened Common
  import opened Words
  import opened Pages
  import opened Geometry
  import opened SlabModel
  import opened PageTables
  import opened MemoryInit
  import opened SlabInit
  import opened Boot
  import Brk
  import Heap = Slabs

  const IMAGE_END := 0xffff_8000_0018_0000

  /** Memory from 1 MB on. */
  function MemoryMap(): seq<E820> {
    [E820(0x10_0000, 0x230_0000, 1)]
  }

  lemma OneZone()
    ensures |MemoryMap()| == 1 && ZonesOf(MemoryMap()) == [Zone(1, 18, 0, 17, 0)]
    ensures Tidy(MemoryMap()) && PageCount(MemoryMap()) == 18
  {
    var m := MemoryMap();
    assert m[..0] == [] && ZonesOf(m[..0]) == [];
  }

  lemma ImageTables()
    ensures StructEnd(IMAGE_END, 18, 1) == IMAGE_END + 0x2150
  {
    assert Align4K(IMAGE_END) == IMAGE_END && PagesStruct(IMAGE_END, 18) == IMAGE_END + 0x1000;
    assert ZonesStruct(IMAGE_END, 18) == IMAGE_END + 0x2000;
  }

  lemma FirstBootPage(end: nat)
    requires end == IMAGE_END + 0x2150
    ensures BootFirst(end) == 1
  {
    hide BootEnd, BootBytes;
    BootEndIs(end, CLASSES);
    BootTotal();
  }

  /** The image and its tables lie in page 0, and slab_init leaves one page of the seventeen. */
  lemma MapHasRoom()
    ensures RoomFor(MemoryMap(), IMAGE_END) && ZonesOf(MemoryMap()) == [Zone(1, 18, 0, 17, 0)]
    ensures EndOf(MemoryMap(), IMAGE_END) == IMAGE_END + 0x2150 && BootFirst(IMAGE_END + 0x2150) == 1
  {
    hide StructEnd, ZonesOf, BootEnd, Tidy, BootFirst, MemoryMap;
    OneZone();
    ImageTables();
    FirstBootPage(IMAGE_END + 0x2150);
  }

  /** Any heap that this machine starts with. */
  lemma StockAtStart(h: HeapView, st: State)
    requires Started(h, st, ZonesOf(MemoryMap()), IMAGE_END + 0x2150)
    ensures AsBooted(StockOf(h, st), 1)
  {
    hide ZonesOf, StructEnd, BootFirst, Tidy, Booted, Placed;
    MapHasRoom();
    StartedStock(h, st, ZonesOf(MemoryMap()), IMAGE_END + 0x2150);
  }

  method Start(tail: Word) returns (heap: Heap.KernelHeap)
    ensures fresh(heap) && fresh(heap.repr) && heap.Valid() && heap.live == {} && AsBooted(heap.Supply(), 1)
  {
    hide SlabModel.Consistent, ZonesOf, StructEnd, BootFirst, Tidy, StockOf, Started;
    MapHasRoom();
    var end;
    heap, end := BootMemory(MemoryMap(), tail, IMAGE_END);
    StockAtStart(heap.Now(), heap.pm.Now());
  }

  /** The requests are answered but for the last, at which kmalloc stores through NULL. */
  method Faults(tail: Word) returns (answers: seq<Answer>, faulted: bool)
    ensures faulted && |answers| == 10240
  {
    hide SlabModel.Consistent, Drain, FaultingRun, StockOf, AsBooted;
    var heap := Start(tail);
    ghost var k := heap.Supply();
    AsBootedSize(k);
    BootRunFaults(k);
    answers, faulted := Serve(heap, FaultingRun());
    if |answers| < 10240 {
      assert FaultingRun()[..10240][..|answers| + 1] == FaultingRun()[..|answers| + 1];
      BrokeStays(k, FaultingRun()[..10240], |answers| + 1);
    }
  }

  lemma AsBootedSize(k: Stock)
    requires AsBooted(k, 1)
    ensures |k.free| == CLASSES
  {}

  /** A user half without tables, and whatever the kernel half holds. */
  predicate EmptyTop(top: seq<Entry>) {
    |top| == ENTRIES && forall i :: 0 <= i < USER_ENTRIES ==> top[i] == 0
  }

  /** A process of this machine, with one page of memory left and blocks for tables. */
  method StartProcess(tail: Word, top: seq<Entry>) returns (p: Brk.AddressSpace)
    requires EmptyTop(top)
    ensures fresh(p) && fresh(p.heap.repr) && p.Valid() && p.Ended() && p.startBrk == p.endBrk == Brk.BRK_START
    ensures Plain(p.Now()) == map[] && p.heap.Supply().pages == 1 && p.heap.Supply().free[Brk.TABLE_CLASS] == 511
  {
    hide SlabModel.Consistent, StockOf, Housed, AsBooted, Brk.Backed, Tree, Plain;
    var heap := Start(tail);
    var root := RootTable(heap);
    label rooted:
    p := new Brk.AddressSpace(heap, root, top);
    heap.Still@rooted();
  }

  method RootTable(heap: Heap.KernelHeap) returns (root: nat)
    requires heap.Valid() && AsBooted(heap.Supply(), 1)
    modifies heap.repr
    ensures heap.Valid() && fresh(heap.repr - old(heap.repr)) && root in heap.live
    ensures Housed(heap.Now(), root) && heap.Now().slabs[PageOf(root)].cls == Brk.TABLE_CLASS
    ensures heap.Supply().pages == 1 && heap.Supply().free[Brk.TABLE_CLASS] == 511
  {
    hide SlabModel.Consistent, StockOf, Allocated, Draw, Price, AsBooted;
    TablesAtStart(heap.Supply());
    ghost var h, st := heap.Now(), heap.pm.Now();
    var r := heap.Kmalloc(PAGE_4K);
    root := r.address;
    RootHoused(h, st, heap.Now(), heap.pm.Now(), root);
  }

  lemma RootHoused(h: HeapView, st: State, g: HeapView, after: State, a: nat)
    requires Allocated(h, st, g, after, Brk.TABLE_CLASS, a)
    ensures a in g.live && Housed(g, a) && g.slabs[PageOf(a)].cls == Brk.TABLE_CLASS
  {}

  lemma TablesAtStart(k: Stock)
    requires AsBooted(k, 1)
    ensures |k.free| == CLASSES && k.free[Brk.TABLE_CLASS] == 512 && k.pages == 1
    ensures PAGE_4K <= Size(CLASSES - 1) && ClassOf(PAGE_4K) == Brk.TABLE_CLASS
    ensures Draw(k, Brk.TABLE_CLASS) == Got(More(k, Brk.TABLE_CLASS, -1))
  {
    BootCapacities();
    Brk.TableClass();
  }

  /** Its first byte of heap takes that page. */
  method TakeLastPage(p: Brk.AddressSpace) returns (o: Brk.Outcome)
    requires p.Valid() && p.Ended() && p.endBrk == Brk.BRK_START && Plain(p.Now()) == map[]
    requires p.heap.Supply().pages == 1 && p.heap.Supply().free[Brk.TABLE_CLASS] == 511
    modifies p, p.heap.repr
    ensures o == Brk.Break(0xe0_0000) && p.Valid() && p.Ended() && p.endBrk == Brk.BRK_START + PAGE_2M
    ensures fresh(p.heap.repr - old(p.heap.repr)) && 7 !in Plain(p.Now())
    ensures p.heap.Supply().pages == 0 && p.heap.Supply().free[Brk.TABLE_CLASS] >= 509
  {
    hide SlabModel.Consistent, StockOf, Brk.Answered, Plain, Tree, Brk.Backed;
    ghost var s, k, start := p.Now(), p.heap.Supply(), p.startBrk;
    o := p.SysBrk(Brk.BRK_START + 1);
    Brk.OnePageMore(s, Brk.BRK_START, k, start, Brk.BRK_START + 1, o, p.Now(), p.endBrk, p.heap.Supply());
  }

  /** It is given that page for its heap; the next byte is one too many, and then it is answered 0 for what it holds. */
  method RunsOutOfMemory(tail: Word, top: seq<Entry>)
    returns (first: Brk.Outcome, second: Brk.Outcome, third: Brk.Outcome)
    requires EmptyTop(top)
    ensures first == Brk.Break(0xe0_0000) && second == Brk.NoMemory && third == Brk.Break(0)
  {
    hide SlabModel.Consistent, StockOf, Brk.Answered, Plain, Tree, Brk.Backed;
    var p := StartProcess(tail, top);
    first := TakeLastPage(p);
    var end := Brk.BRK_START + PAGE_2M;
    ghost var s, k, start := p.Now(), p.heap.Supply(), p.startBrk;
    second := p.SysBrk(end + 1);
    Brk.OnePageMore(s, end, k, start, end + 1, second, p.Now(), p.endBrk, p.heap.Supply());
    var again := p.SysBrkAgain([Brk.BRK_START + 1]);
    third := again[0];
  }
}
