// do_brk and sys_brk: growing the heap of a process, with tables from kmalloc and frames from alloc_pages.
module Brk {
  import opened Common
  import opened Pages
  import opened Geometry
  import opened SlabModel
  import opened PageTables
  import Heap = Slabs

  const ENOMEM := 12
  const WORD := 0x1_0000_0000_0000_0000
  const TABLE_CLASS := 7           // kmalloc(PAGE_4K_SIZE, 0)
  const BRK_START := 0xc0_0000

  // ---- what the tables of a process rest on

  /** A table is a block that kmalloc has handed out, known by its physical address. */
  ghost predicate TableBlock(h: HeapView, t: nat) {
    t + PAGE_OFFSET in h.live
  }

  /** A frame is a whole 2 MB page that is taken and no slab's. */
  ghost predicate Frame(h: HeapView, st: State, f: nat) {
    f % PAGE_2M == 0 && var p := f / PAGE_2M; p < |st.bits| && p < |st.pages| && st.bits[p] && p !in h.slabs
  }

  /** A frame that alloc_pages can still hand out. */
  ghost predicate FreeFrame(st: State, f: nat) {
    && f % PAGE_2M == 0 && var p := f / PAGE_2M;
    && p < |st.bits| && p < |st.pages| && |st.zones| > 0 && InZone(st.zones[0], p) && !st.bits[p]
  }

  ghost predicate Injective(m: map<nat, nat>) {
    forall a, b :: a in m && b in m && m[a] == m[b] ==> a == b
  }

  ghost predicate Frames(h: HeapView, st: State, m: map<nat, nat>) {
    forall n <- m :: Frame(h, st, m[n])
  }

  ghost predicate TableBlocks(s: Space, h: HeapView) {
    forall t <- s.tables :: TableBlock(h, t)
  }

  /** The tables form a tree of blocks open to user mode, and different pages are mapped to different frames. */
  ghost predicate Backed(s: Space, h: HeapView, st: State) {
    Tree(s) && Marked(s) && TableBlocks(s, h) && Frames(h, st, Plain(s)) && Injective(Plain(s))
  }

  /** No page of a process overlaps memory that kmalloc has handed out, the tables of processes among it. */
  lemma FramesApart(s: Space, h: HeapView, st: State, n: nat, b: nat)
    requires Backed(s, h, st) && Valid(h) && n in Plain(s) && IsBlock(h, b)
    ensures Housed(h, b)
    ensures var f := PAGE_OFFSET + Plain(s)[n]; b + BlockSize(h, b) <= f || f + PAGE_2M <= b
  {
    BlockOnPage(h, b);
    assert Frame(h, st, Plain(s)[n]);
    PagesApart(Plain(s)[n] / PAGE_2M, PageOf(b));
  }

  lemma PagesApart(p: nat, q: nat)
    requires p != q
    ensures Base(p) + PAGE_2M <= Base(q) || Base(q) + PAGE_2M <= Base(p)
    ensures Base(p) == PAGE_OFFSET + p * PAGE_2M
  {}

  /** Slabs, pages and blocks in use all stay. */
  ghost predicate Calm(h: HeapView, st: State, g: HeapView, after: State) {
    Extends(h, g) && Kept(h, st, g, after) && h.live <= g.live
  }

  lemma CalmTrans(h: HeapView, st: State, g: HeapView, mid: State, f: HeapView, after: State)
    requires Calm(h, st, g, mid) && Calm(g, mid, f, after)
    ensures Calm(h, st, f, after)
  {
    KeptTrans(h, st, g, mid, f, after);
    ExtendsTrans(h, g, f);
  }

  /** What kmalloc and alloc_pages do for one process leaves every process as it is. */
  lemma BackedKept(s: Space, h: HeapView, st: State, g: HeapView, after: State)
    requires Backed(s, h, st) && Calm(h, st, g, after)
    ensures Backed(s, g, after)
  {}

  /** A page that is free later was free before. */
  lemma FreeBefore(h: HeapView, st: State, g: HeapView, after: State, f: nat)
    requires Calm(h, st, g, after) && Consistent(g, after) && FreeFrame(after, f)
    ensures FreeFrame(st, f)
  {
    var p := f / PAGE_2M;
    assert p in h.slabs ==> p in g.slabs;
  }

  lemma TableClass()
    ensures ClassOf(PAGE_4K) == TABLE_CLASS
  {
    assert Size(TABLE_CLASS) == PAGE_4K && Size(TABLE_CLASS - 1) == 2048;
    var i := ClassOf(PAGE_4K);
    SizesGrow(i, TABLE_CLASS - 1);
    SizesGrow(TABLE_CLASS, if i > 0 then i - 1 else 0);
  }

  /** A block that kmalloc(4096) has just handed out is an aligned table that is not in use. */
  lemma BlockIsTable(s: Space, h: HeapView, st: State, g: HeapView, after: State, a: nat)
    requires Backed(s, h, st) && Valid(g) && Allocated(h, st, g, after, TABLE_CLASS, a)
    ensures a >= PAGE_OFFSET && FreshTable(s, a - PAGE_OFFSET) && TableBlock(g, a - PAGE_OFFSET)
    ensures Calm(h, st, g, after) && Backed(s, g, after)
  {
    BackedKept(s, h, st, g, after);
    assert forall t <- s.tables :: IsBlock(h, t + PAGE_OFFSET);
    hide Backed, Plain, Tree, Frames, TableBlocks, Injective, Kept, Valid;
    BlockPlace(g, a);
  }

  lemma BlockPlace(g: HeapView, a: nat)
    requires Valid(g) && a in g.live && Housed(g, a) && g.slabs[PageOf(a)].cls == TABLE_CLASS
    ensures a >= PAGE_OFFSET && (a - PAGE_OFFSET) % PAGE_4K == 0
  {
    hide Valid, SlabModel.Slabs, Housed;
    assert IsBlock(g, a);
    BlockOnPage(g, a);
    var size := BlockSize(g, a);
    assert size == Size(TABLE_CLASS) == PAGE_4K;
    PhysicalAligned(a, PageOf(a));
  }

  lemma PhysicalAligned(a: nat, p: nat)
    requires a % PAGE_4K == 0 && Base(p) <= a
    ensures a >= PAGE_OFFSET && (a - PAGE_OFFSET) % PAGE_4K == 0
  {}

  /** The space after a table has been hung up. */
  lemma AddBacked(s: Space, h: HeapView, st: State, t: nat, i: nat, p: nat)
    requires Backed(s, h, st) && Inner(s, t, i) && s.tables[t][i] == 0 && FreshTable(s, p) && TableBlock(h, p)
    ensures Backed(AddTable(s, t, i, p), h, st)
  {
    hide Marked;
    AddKeepsPlain(s, t, i, p);
    AddKeepsMarked(s, t, i, p);
  }

  /** The page alloc_pages has just handed out is nobody's frame. */
  lemma GrantIsFrame(s: Space, h: HeapView, st: State, after: State, p: nat)
    requires Backed(s, h, st) && Granted(st, after, 0, p) && Kept(h, st, h, after) && p !in h.slabs
    ensures FreeFrame(st, p * PAGE_2M) && Frame(h, after, p * PAGE_2M)
    ensures Calm(h, st, h, after) && Backed(s, h, after)
    ensures forall n <- Plain(s) :: Plain(s)[n] != p * PAGE_2M
  {
    BackedKept(s, h, st, h, after);
    forall n <- Plain(s) ensures Plain(s)[n] != p * PAGE_2M { assert Frame(h, st, Plain(s)[n]); }
  }

  lemma LeafBacked(s: Space, h: HeapView, st: State, n: nat, f: nat)
    requires Backed(s, h, st) && n < USER_PAGES && Walk2(s, n).Some? && n !in Plain(s)
    requires Frame(h, st, f) && forall m <- Plain(s) :: Plain(s)[m] != f
    ensures var a := SetLeaf(s, Walk2(s, n).value, Index2(n), f);
            Backed(a, h, st) && Plain(a) == Plain(s)[n := f]
  {
    hide Frames, Injective, Frame, Plain, Tree, Marked, Walk2;
    FrameAligned(h, st, f);
    LeafExtendsPlain(s, n, f);
    LastEntry(s, n, Walk2(s, n).value);
    LeafKeepsMarked(s, Walk2(s, n).value, Index2(n), f);
    OneFrameMore(h, st, Plain(s), n, f);
  }

  lemma FrameAligned(h: HeapView, st: State, f: nat)
    requires Frame(h, st, f)
    ensures f % PAGE_4K == 0 && f % PAGE_2M == 0
  {}

  lemma OneFrameMore(h: HeapView, st: State, m: map<nat, nat>, n: nat, f: nat)
    requires Frames(h, st, m) && Injective(m) && n !in m && Frame(h, st, f) && forall k <- m :: m[k] != f
    ensures Frames(h, st, m[n := f]) && Injective(m[n := f])
  {}

  // ---- what it costs

  // ---- there are more user pages than frames

  lemma {:induction false} Pigeons(keys: set<nat>, f: map<nat, nat>, values: set<nat>)
    requires forall n <- keys :: n in f && f[n] in values
    requires forall m, n :: m in keys && n in keys && f[m] == f[n] ==> m == n
    ensures |keys| <= |values|
    decreases |keys|
  {
    if keys != {} {
      var n :| n in keys;
      Pigeons(keys - {n}, f, values - {f[n]});
    }
  }

  ghost function Span(lo: nat, hi: nat): (r: set<nat>)
    ensures forall n :: n in r <==> lo <= n < hi
    ensures |r| == if lo <= hi then hi - lo else 0
    decreases hi
  {
    if lo < hi then Span(lo, hi - 1) + {hi - 1} else {}
  }

  /** The pages of the slabs of the first i classes. */
  ghost function SlabPages(h: HeapView, i: nat): set<nat> {
    set p | p in h.slabs && h.slabs[p].cls < i
  }

  lemma {:induction false} SlabPagesSize(h: HeapView, i: nat)
    requires Rings(h) && i <= CLASSES
    ensures |SlabPages(h, i)| >= i
  {
    if i > 0 {
      SlabPagesSize(h, i - 1);
      assert RingOk(h, i - 1);
      var p := h.caches[i - 1].ring[0];
      var more := SlabPages(h, i - 1) + {p};
      assert more <= SlabPages(h, i);
      Pigeons(more, map n | n in more :: n, SlabPages(h, i));
    }
  }

  lemma RingsHold(h: HeapView, st: State)
    requires Consistent(h, st)
    ensures Rings(h)
  {}

  /** A process has no more pages mapped than memory has beside the sixteen boot slabs. */
  lemma MappedAtMost(s: Space, h: HeapView, st: State, keys: set<nat>)
    requires Backed(s, h, st) && Consistent(h, st) && forall n <- keys :: n in Plain(s)
    ensures |keys| <= |st.pages| - CLASSES
  {
    hide SlabModel.Consistent, Tree, TableBlocks, Plain, Frames, Injective, SlabPages;
    RingsHold(h, st);
    var pages, slabs := Span(0, |st.pages|), SlabPages(h, CLASSES);
    var f := map n | n in keys :: Plain(s)[n] / PAGE_2M;
    SlabPagesSize(h, CLASSES);
    FramePages(s, h, st, f, keys);
    Pigeons(keys, f, pages - slabs);
    assert |pages - slabs| == |pages| - |slabs|;
  }

  /** So not all pages from the start of the heap to 2^47 can be mapped: the boot slabs take more than lie below it. */
  lemma SomeUnmapped(s: Space, h: HeapView, st: State)
    requires Backed(s, h, st) && Consistent(h, st) && |st.pages| <= USER_PAGES
    ensures exists n: nat :: BRK_START / PAGE_2M <= n < USER_PAGES && n !in Plain(s)
  {
    hide SlabModel.Consistent, Tree, TableBlocks, Plain, Frames, Injective;
    if forall n: nat :: BRK_START / PAGE_2M <= n < USER_PAGES ==> n in Plain(s) {
      MappedAtMost(s, h, st, Span(BRK_START / PAGE_2M, USER_PAGES));
      assert false;
    }
  }

  /** Frames as page numbers. */
  lemma FramePages(s: Space, h: HeapView, st: State, f: map<nat, nat>, keys: set<nat>)
    requires Backed(s, h, st) && Consistent(h, st)
    requires forall n <- keys :: n in Plain(s) && n in f && f[n] == Plain(s)[n] / PAGE_2M
    ensures forall n <- keys :: f[n] in Span(0, |st.pages|) - SlabPages(h, CLASSES)
    ensures forall m, n :: m in keys && n in keys && f[m] == f[n] ==> m == n
    ensures SlabPages(h, CLASSES) <= Span(0, |st.pages|)
  {
    hide Tree, TableBlocks, Plain, Sound;
    forall n <- keys ensures Frame(h, st, Plain(s)[n]) {}
    forall m, n | m in keys && n in keys && f[m] == f[n] ensures m == n {
      assert Plain(s)[m] == PAGE_2M * f[m] && Plain(s)[n] == PAGE_2M * f[n];
    }
  }

  /** How do_brk fares: served with some stock left, -ENOMEM, or the store through NULL. */
  datatype Bill = Served(left: Stock) | Short(left: Stock) | Ruined

  /** m tables. */
  ghost function DrawTables(k: Stock, m: nat): (b: Bill)
    requires |k.free| == CLASSES
    ensures b.Served? ==> |b.left.free| == CLASSES
    ensures !b.Short?
    decreases m
  {
    if m == 0 then Served(k)
    else
      var d := Draw(k, TABLE_CLASS);
      if d.Got? then DrawTables(d.left, m - 1) else Ruined
  }

  lemma DrawNone(k: Stock)
    requires |k.free| == CLASSES
    ensures DrawTables(k, 0) == Served(k)
  {}

  lemma DrawTwo(k: Stock)
    requires |k.free| == CLASSES
    ensures DrawTables(k, 2) == var b := DrawTables(k, 1); if b.Served? then DrawTables(b.left, 1) else Ruined
  {}

  /** One page that lacks m tables. */
  ghost function PayPage(k: Stock, m: nat, mapped: bool): (b: Bill)
    requires |k.free| == CLASSES
    ensures !b.Ruined? ==> |b.left.free| == CLASSES
  {
    match DrawTables(k, m)
    case Served(left) =>
      if mapped then Served(left)
      else if left.pages == 0 then Short(left)
      else Served(left.(pages := left.pages - 1))
    case other => other
  }

  /** What one page of a run asks for: the tables still lacking on its walk, and a frame unless it is mapped. */
  datatype Demand = Demand(tables: nat, mapped: bool)

  /** What the pages of a run ask for, one after the other, given the tables s before the call. */
  ghost function Demands(s: Space, first: nat, count: nat): (ds: seq<Demand>)
    requires Tree(s) && first + count <= USER_PAGES
    ensures |ds| == count
  {
    seq(count, j requires 0 <= j < count => Demand(Lacking(s, first, j), first + j in Plain(s)))
  }

  ghost function Pay(ds: seq<Demand>, k: Stock): (b: Bill)
    requires |k.free| == CLASSES
    ensures !b.Ruined? ==> |b.left.free| == CLASSES
  {
    if ds == [] then Served(k)
    else
      match Pay(ds[..|ds| - 1], k)
      case Served(left) => PayPage(left, ds[|ds| - 1].tables, ds[|ds| - 1].mapped)
      case other => other
  }

  /** A run that has failed stays failed. */
  lemma {:induction false} FailedStays(ds: seq<Demand>, count: nat, k: Stock)
    requires count <= |ds| && |k.free| == CLASSES && !Pay(ds[..count], k).Served?
    ensures Pay(ds, k) == Pay(ds[..count], k)
  {
    if count < |ds| {
      assert ds[..|ds| - 1][..count] == ds[..count];
      FailedStays(ds[..|ds| - 1], count, k);
    } else {
      assert ds[..count] == ds;
    }
  }

  /** The tables a run lacks. */
  ghost function Tables(ds: seq<Demand>): nat {
    if ds == [] then 0 else Tables(ds[..|ds| - 1]) + ds[|ds| - 1].tables
  }

  /** The pages of a run that are not mapped. */
  ghost function Unmapped(ds: seq<Demand>): nat {
    if ds == [] then 0 else Unmapped(ds[..|ds| - 1]) + (if ds[|ds| - 1].mapped then 0 else 1)
  }

  /** t blocks of tables and u pages less. */
  ghost function Less(k: Stock, t: int, u: int): (l: Stock)
    requires |k.free| == CLASSES
    ensures |l.free| == CLASSES
  {
    Stock(k.free[TABLE_CLASS := k.free[TABLE_CLASS] - t], k.pages - u)
  }

  lemma {:induction false} TablesAtHand(k: Stock, m: nat)
    requires |k.free| == CLASSES && m <= k.free[TABLE_CLASS]
    ensures DrawTables(k, m) == Served(Less(k, m, 0))
    decreases m
  {
    if m > 0 {
      assert Draw(k, TABLE_CLASS) == Got(Less(k, 1, 0));
      TablesAtHand(Less(k, 1, 0), m - 1);
      assert Less(Less(k, 1, 0), m - 1, 0) == Less(k, m, 0);
    } else {
      assert Less(k, 0, 0) == k;
    }
  }

  /** A page whose tables are at hand. */
  lemma PageAtHand(k: Stock, m: nat, mapped: bool)
    requires |k.free| == CLASSES && m <= k.free[TABLE_CLASS]
    ensures PayPage(k, m, mapped) ==
            if mapped then Served(Less(k, m, 0))
            else if k.pages == 0 then Short(Less(k, m, 0))
            else Served(Less(k, m, 1))
  {
    TablesAtHand(k, m);
  }

  lemma LessTwice(k: Stock, t: int, u: int, m: int, v: int)
    requires |k.free| == CLASSES
    ensures Less(Less(k, t, u), m, v) == Less(k, t + m, u + v)
  {}

  /**
   With a block at hand for every table the run lacks there is no fault, and memory runs out if and only
   if more pages are unmapped than free. What is used up is one block a table and one page a page.
   */
  lemma {:induction false} RunOutIff(ds: seq<Demand>, k: Stock)
    requires |k.free| == CLASSES && k.pages >= 0 && Tables(ds) <= k.free[TABLE_CLASS]
    ensures !Pay(ds, k).Ruined?
    ensures Pay(ds, k).Short? <==> Unmapped(ds) > k.pages
    ensures Unmapped(ds) <= k.pages ==> Pay(ds, k) == Served(Less(k, Tables(ds), Unmapped(ds)))
  {
    if ds == [] {
      assert Less(k, 0, 0) == k;
    } else {
      var front, last := ds[..|ds| - 1], ds[|ds| - 1];
      RunOutIff(front, k);
      if Pay(front, k).Served? {
        hide PayPage, Less;
        PageAtHand(Less(k, Tables(front), Unmapped(front)), last.tables, last.mapped);
        LessTwice(k, Tables(front), Unmapped(front), last.tables, 0);
        LessTwice(k, Tables(front), Unmapped(front), last.tables, 1);
      }
    }
  }

  /** Up to two tables fail exactly when the blocks at hand do not do and zone 0 lacks the pages for a slab of them. */
  lemma {:induction false} TablesFault(k: Stock, m: nat)
    requires |k.free| == CLASSES && k.pages >= 0 && m <= 2 && k.free[TABLE_CLASS] >= 0
    ensures DrawTables(k, m).Ruined? <==> m > k.free[TABLE_CLASS] && k.pages < Price(k, TABLE_CLASS)
    decreases m
  {
    if m > 0 {
      DrawExactly(k, TABLE_CLASS);
      var d := Draw(k, TABLE_CLASS);
      if d.Got? {
        TableDraw(k);
        hide Draw;
        TablesFault(d.left, m - 1);
      }
    }
  }

  /** What a table leaves: the other classes matter only for the slab that it may take. */
  lemma {:induction false} TableDraw(k: Stock)
    requires |k.free| == CLASSES && Draw(k, TABLE_CLASS).Got? && k.pages >= 0
    ensures var l := Draw(k, TABLE_CLASS).left;
      && (k.free[TABLE_CLASS] != 0 ==> l == More(k, TABLE_CLASS, -1) && Price(l, TABLE_CLASS) == Price(k, TABLE_CLASS))
      && (k.free[TABLE_CLASS] == 0 ==> l.free[TABLE_CLASS] == 511)
      && l.pages >= 0
  {
    DrawExactly(k, TABLE_CLASS);
    assert Capacity(TABLE_CLASS, false) == 512;
    if k.free[TABLE_CLASS] == 0 { DrawMetadataExactly(k.(pages := k.pages - 1), TABLE_CLASS); }
  }

  /**
   The first step at which the run lacks more tables than there are blocks at hand faults if and only if
   fewer pages are left by then than a slab of tables and its metadata take.
   */
  lemma RunFaultsIff(ds: seq<Demand>, d: Demand, k: Stock)
    requires |k.free| == CLASSES && d.tables <= 2 && Tables(ds) <= k.free[TABLE_CLASS] < Tables(ds + [d])
    requires Unmapped(ds) <= k.pages
    ensures Pay(ds + [d], k).Ruined? <==> k.pages - Unmapped(ds) < Price(k, TABLE_CLASS)
  {
    assert (ds + [d])[..|ds|] == ds;
    RunOutIff(ds, k);
    var l := Less(k, Tables(ds), Unmapped(ds));
    TablesFault(l, d.tables);
    assert Price(l, TABLE_CLASS) == Price(k, TABLE_CLASS);
  }

  // ---- do_brk

  /** `Break` carries the value returned; `Fault` is the store through the NULL that kmalloc returned. */
  datatype Outcome = Break(end: nat) | NoMemory | Fault

  /** Every page that was mapped still is, to the same frame. */
  ghost predicate Grown(m: map<nat, nat>, r: map<nat, nat>) {
    forall n <- m :: n in r && r[n] == m[n]
  }

  /** r maps the k pages from `first` on and what m maps, the new ones to frames that were free in st. */
  ghost predicate Filled(m: map<nat, nat>, r: map<nat, nat>, first: nat, k: nat, st: State) {
    && Grown(m, r)
    && (forall n :: n in r <==> n in m || first <= n < first + k)
    && (forall n <- r :: n !in m ==> FreeFrame(st, r[n]))
  }

  lemma FilledNext(m: map<nat, nat>, r: map<nat, nat>, first: nat, k: nat, st: State, f: nat)
    requires Filled(m, r, first, k, st)
    ensures first + k in r ==> Filled(m, r, first, k + 1, st)
    ensures first + k !in r && FreeFrame(st, f) ==> Filled(m, r[first + k := f], first, k + 1, st)
  {}

  lemma FilledMore(m: map<nat, nat>, r: map<nat, nat>, first: nat, k: nat, h: HeapView, st: State, g: HeapView,
      mid: State,
                   f: nat, t: map<nat, nat>)
    requires Filled(m, r, first, k, st) && Calm(h, st, g, mid) && Consistent(g, mid)
    requires first + k in r ==> t == r
    requires first + k !in r ==> FreeFrame(mid, f) && t == r[first + k := f]
    ensures Filled(m, t, first, k + 1, st)
  {
    if first + k !in r { FreeBefore(h, st, g, mid, f); }
    hide Consistent, Calm, FreeFrame, Filled;
    FilledNext(m, r, first, k, st, f);
  }

  lemma NextMapped(m: map<nat, nat>, r: map<nat, nat>, first: nat, k: nat, st: State)
    requires Filled(m, r, first, k, st)
    ensures first + k in r <==> first + k in m
  {}

  lemma PayNext(s: Space, first: nat, count: nat, k: Stock)
    requires Tree(s) && first + count < USER_PAGES && |k.free| == CLASSES && Pay(Demands(s, first, count), k).Served?
    ensures Pay(Demands(s, first, count + 1), k)
            == PayPage(Pay(Demands(s, first, count), k).left, Lacking(s, first, count), first + count in Plain(s))
  {
    hide Lacking, Plain, Tree, PayPage;
    var ds := Demands(s, first, count + 1);
    assert ds[..count] == Demands(s, first, count);
    assert ds[count] == Demand(Lacking(s, first, count), first + count in Plain(s));
  }

  /** One more page is paid for. */
  lemma PayOn(s: Space, first: nat, count: nat, k: Stock, left: Stock, o: Outcome, supply: Stock)
    requires Tree(s) && first + count < USER_PAGES && |k.free| == CLASSES && |left.free| == CLASSES
    requires Pay(Demands(s, first, count), k) == Served(left)
    requires PayPage(left, Lacking(s, first, count), first + count in Plain(s)) == Billed(o, supply)
    ensures Pay(Demands(s, first, count + 1), k) == Billed(o, supply)
  {
    PayNext(s, first, count, k);
  }

  /** Or is not, and that decides the run. */
  lemma PayStops(s: Space, first: nat, count: nat, all: nat, k: Stock, o: Outcome, supply: Stock)
    requires Tree(s) && count <= all && first + all <= USER_PAGES && |k.free| == CLASSES && !o.Break?
    requires Pay(Demands(s, first, count), k) == Billed(o, supply)
    ensures Pay(Demands(s, first, all), k) == Billed(o, supply)
  {
    hide Lacking, Plain, Tree, Pay;
    assert Demands(s, first, all)[..count] == Demands(s, first, count);
    FailedStays(Demands(s, first, all), count, k);
  }

  lemma RunStarts(s: Space, h: HeapView, st: State, first: nat)
    requires Tree(s) && first <= USER_PAGES && |h.caches| == CLASSES
    ensures Halfway(s, h, st, StockOf(h, st), first, 0, s, h, st)
  {
    forall m: nat | m < USER_PAGES ensures WalkedAt(s, s, first, 0, m) {}
  }

  /** count pages of the run have been served: from tables s, heap h, pages st and stock k to r, g and mid. */
  ghost predicate Halfway(s: Space, h: HeapView, st: State, k: Stock, first: nat, count: nat,
                          r: Space, g: HeapView, mid: State) {
    && Tree(s) && Tree(r) && first + count <= USER_PAGES && |k.free| == CLASSES == |g.caches|
    && Calm(h, st, g, mid) && Walked(s, r, first, count) && Filled(Plain(s), Plain(r), first, count, st)
    && Pay(Demands(s, first, count), k) == Served(StockOf(g, mid))
  }

  /** What one iteration does for page n. */
  ghost predicate Stepped(r: Space, g: HeapView, mid: State, n: nat, o: Outcome, f: nat,
                          t: Space, e: HeapView, after: State)
  {
    && Tree(r) && Tree(t) && n < USER_PAGES && |g.caches| == CLASSES == |e.caches|
    && PayPage(StockOf(g, mid), Missing(r, n), n in Plain(r)) == Billed(o, StockOf(e, after))
    && (!o.Fault? ==> Calm(g, mid, e, after) && Walked(r, t, n, 1))
    && (!o.Break? || n in Plain(r) ==> Plain(t) == Plain(r))
    && (o.Break? && n !in Plain(r) ==> FreeFrame(mid, f) && Plain(t) == Plain(r)[n := f])
    && (!o.Break? ==> n !in Plain(t))
  }

  lemma HalfwayMeans(s: Space, h: HeapView, st: State, k: Stock, first: nat, count: nat, r: Space, g: HeapView,
      mid: State)
    requires Halfway(s, h, st, k, first, count, r, g, mid)
    ensures Tree(s) && Tree(r) && first + count <= USER_PAGES && |k.free| == CLASSES
    ensures Calm(h, st, g, mid) && Filled(Plain(s), Plain(r), first, count, st)
    ensures Pay(Demands(s, first, count), k) == Served(StockOf(g, mid))
  {}

  lemma Onward(s: Space, h: HeapView, st: State, k: Stock, first: nat, count: nat, r: Space, g: HeapView, mid: State,
               o: Outcome, f: nat, t: Space, e: HeapView, after: State)
    requires Halfway(s, h, st, k, first, count, r, g, mid) && first + count < USER_PAGES
    requires Consistent(g, mid) && Stepped(r, g, mid, first + count, o, f, t, e, after)
    ensures o.Break? ==> Halfway(s, h, st, k, first, count + 1, t, e, after)
    ensures !o.Break? ==> Filled(Plain(s), Plain(t), first, count, st)
    ensures !o.Fault? ==> Calm(h, st, e, after)
    ensures Pay(Demands(s, first, count + 1), k) == Billed(o, StockOf(e, after))
  {
    hide Consistent, Plain, Tree, Walked, Calm, Lacking, Missing, Filled, FreeFrame, Pay, PayPage, Demands, StockOf;
    LackingIsMissing(s, r, first, count);
    NextMapped(Plain(s), Plain(r), first, count, st);
    PayOn(s, first, count, k, StockOf(g, mid), o, StockOf(e, after));
    if !o.Fault? { CalmTrans(h, st, g, mid, e, after); }
    if o.Break? {
      WalkedNext(s, r, t, first, count);
      FilledMore(Plain(s), Plain(r), first, count, h, st, g, mid, f, Plain(t));
    }
  }

  /** `PAGE_2M_ALIGN`, which wraps around at the width of a word. */
  function PageAlign(addr: nat): (r: nat)
    ensures r % 0x20_0000 == 0 && r < 0x1_0000_0000_0000_0000
    ensures if addr <= 0xffff_ffff_ffe0_0000 then addr <= r < addr + 0x20_0000
            else addr < 0x1_0000_0000_0000_0000 ==> r == 0
  {
    var up := (addr + PAGE_2M - 1) % WORD;
    up - up % PAGE_2M
  }

  /** The number of steps of 2 MB from the start of a range of len bytes. */
  function Steps(len: nat): nat { (len + PAGE_2M - 1) / PAGE_2M }

  /**
   The pages do_brk visits cover the bytes of the range exactly when the offset of its first byte
   and that of its last do not carry; a range that starts on a page boundary is always covered.
   */
  lemma VisitsCoverRange(addr: nat, len: nat)
    ensures (forall b :: addr <= b < addr + len ==> addr / PAGE_2M <= b / PAGE_2M < addr / PAGE_2M + Steps(len))
            <==> len == 0 || addr % PAGE_2M + (len - 1) % PAGE_2M < PAGE_2M
    ensures addr % PAGE_2M == 0 ==>
              forall b :: addr <= b < addr + len ==> addr / PAGE_2M <= b / PAGE_2M < addr / PAGE_2M + Steps(len)
  {
    if len > 0 {
      var last := addr + len - 1;
      assert Steps(len) == (len - 1) / PAGE_2M + 1;
      assert last == PAGE_2M * (addr / PAGE_2M + (len - 1) / PAGE_2M) + (addr % PAGE_2M + (len - 1) % PAGE_2M);
      assert last / PAGE_2M < addr / PAGE_2M + Steps(len) <==> addr % PAGE_2M + (len - 1) % PAGE_2M < PAGE_2M;
      forall b | addr <= b < addr + len ensures addr / PAGE_2M <= b / PAGE_2M <= last / PAGE_2M {}
    }
  }

  /** Two bytes across a page boundary: only the first is covered. */
  lemma CrossingIsMissed()
    ensures var addr := PAGE_2M - 1;
      Steps(2) == 1 && (addr + 1) / PAGE_2M == addr / PAGE_2M + Steps(2)
  {}

  /** -ENOMEM as the unsigned number that sys_brk stores. */
  const FAILED := WORD - ENOMEM

  lemma BelowFailed(brk: nat)
    ensures PageAlign(brk) < FAILED && PageAlign(brk) % PAGE_2M == 0
  {}

  /** sys_brk goes on to do_brk. */
  ghost predicate Grows(end: nat, brk: nat) {
    PageAlign(brk) != 0 && end <= PageAlign(brk) && end != FAILED
  }

  /** The end is where the mapped pages of the heap end, until a call fails for want of memory. */
  ghost predicate EndsAt(s: Space, end: nat) {
    (end % PAGE_2M == 0 && Solid(s, end / PAGE_2M)) || end == FAILED
  }

  /** A run from the end of the heap is the answer to the request that it serves. */
  lemma RanAnswers(s: Space, h: HeapView, st: State, k: Stock, end: nat, start: nat, brk: nat, o: Outcome, served: nat,
      r: Space, left: Stock)
    requires Tree(s) && Tree(r) && k == StockOf(h, st) && |h.caches| == CLASSES && Consistent(h, st)
    requires EndsAt(s, end) && Grows(end, brk)
    requires Ran(s, st, k, end, PageAlign(brk) - end, o, served, r, left)
    ensures var after := if o.Break? then o.end else if o.NoMemory? then FAILED else end;
      Answered(s, end, k, start, brk, o, r, after, left) && (!o.Fault? ==> EndsAt(r, after))
  {
    hide SlabModel.Consistent, Plain, Tree, Pay, Demands, Steps, PageAlign, Tables, Unmapped, StockOf;
    AlignedSteps(brk, end);
    GrowthFails(s, end, brk, h, st);
  }

  lemma StartIsEnd(s: Space, h: HeapView, st: State)
    requires Backed(s, h, st)
    ensures EndsAt(s, BRK_START)
  {}

  /** What the pages between the end and the request ask for. */
  ghost function Growth(s: Space, end: nat, brk: nat): seq<Demand>
    requires Tree(s) && end % PAGE_2M == 0 && end <= USER_PAGES * PAGE_2M && end <= PageAlign(brk)
  {
    Demands(s, end / PAGE_2M, UserSteps(end, PageAlign(brk) - end))
  }

  /** With tables at hand the growth fails if and only if more of its pages are unmapped than free. */
  lemma GrowthFails(s: Space, end: nat, brk: nat, h: HeapView, st: State)
    requires Tree(s) && end % PAGE_2M == 0 && end <= USER_PAGES * PAGE_2M && end <= PageAlign(brk) && Consistent(h, st)
    requires |h.caches| == CLASSES
    ensures var ds, k := Growth(s, end, brk), StockOf(h, st);
      Tables(ds) <= k.free[TABLE_CLASS] ==>
        !Pay(ds, k).Ruined? && (Pay(ds, k).Short? <==> Unmapped(ds) > k.pages)
  {
    hide Growth, Tree, Pay;
    StockPages(h, st);
    var ds, k := Growth(s, end, brk), StockOf(h, st);
    if Tables(ds) <= k.free[TABLE_CLASS] { RunOutIff(ds, k); }
  }

  /**
   What sys_brk(brk) makes of tables s, an end and a supply k: the answer o, tables r, the end `after` and what is left.
   The end only grows on success, by exactly the pages that are mapped then; with tables at hand memory runs out if and
   only if more pages of the run are unmapped than free, and the error value becomes the end.
   */
  ghost predicate Answered(s: Space, end: nat, k: Stock, start: nat, brk: nat, o: Outcome, r: Space, after: nat,
      left: Stock)
    requires Tree(s) && Tree(r) && EndsAt(s, end) && |k.free| == CLASSES
  {
    && Grown(Plain(s), Plain(r))
    && (!Grows(end, brk) ==>
          r == s && after == end && left == k && o == Break(if PageAlign(brk) == 0 then start else 0))
    && (Grows(end, brk) ==>
          var ds := Growth(s, end, brk);
          && Pay(ds, k) == Billed(o, left)
          && (Tables(ds) <= k.free[TABLE_CLASS] ==> !o.Fault? && (o.NoMemory? <==> Unmapped(ds) > k.pages))
          && (o.NoMemory? ==> after == FAILED)
          && (o.Break? ==>
                && o.end == PageAlign(brk) == after <= USER_PAGES * PAGE_2M
                && forall n: nat :: n in Plain(r) <==> n in Plain(s) || end <= n * PAGE_2M < after))
  }

  /** A heap that asks for one page more, and has tables at hand, gets it if and only if there is one. */
  lemma OnePageMore(s: Space, end: nat, k: Stock, start: nat, brk: nat, o: Outcome, r: Space, after: nat, left: Stock)
    requires Tree(s) && Tree(r) && |k.free| == CLASSES == |left.free| && k.pages >= 0 && k.free[TABLE_CLASS] >= 2
    requires end != FAILED && EndsAt(s, end) && PageAlign(brk) == end + PAGE_2M <= USER_PAGES * PAGE_2M
    requires end / PAGE_2M !in Plain(s) && Answered(s, end, k, start, brk, o, r, after, left)
    ensures k.pages > 0 ==>
              && o == Break(end + PAGE_2M) && after == end + PAGE_2M
              && left.pages == k.pages - 1 && left.free[TABLE_CLASS] >= k.free[TABLE_CLASS] - 2
              && forall n: nat :: n in Plain(r) <==> n in Plain(s) || n == end / PAGE_2M
    ensures k.pages == 0 ==> o == NoMemory && after == 0xffff_ffff_ffff_fff4
  {
    hide Tree, Plain, Pay, Grown;
    var ds := Growth(s, end, brk);
    assert Steps(PAGE_2M) == 1;
    assert ds == [Demand(Lacking(s, end / PAGE_2M, 0), false)];
    assert ds[..0] == [];
    assert Tables(ds) == ds[0].tables <= 2;
    assert Unmapped(ds) == 1;
    RunOutIff(ds, k);
  }

  /** All pages from the start of the heap to page `first` are mapped. */
  ghost predicate Solid(s: Space, first: nat) {
    Tree(s) && first <= USER_PAGES && forall n: nat :: BRK_START / PAGE_2M <= n < first ==> n in Plain(s)
  }

  /** The run stays below 2^47, or follows a heap without a gap. */
  ghost predicate InReach(s: Space, addr: nat, len: nat) {
    addr / PAGE_2M + Steps(len) <= USER_PAGES || Solid(s, addr / PAGE_2M)
  }

  /** The steps of a run that lie below 2^47. */
  function UserSteps(addr: nat, len: nat): (n: nat)
    ensures addr / PAGE_2M <= USER_PAGES ==> addr / PAGE_2M + n <= USER_PAGES
  {
    var first := addr / PAGE_2M;
    if first + Steps(len) <= USER_PAGES then Steps(len) else if first <= USER_PAGES then USER_PAGES - first else 0
  }

  /**
   A run of do_brk from tables s, pages st and a supply k: the first `served` pages are mapped afterwards, those that
   were not to frames that were free, and the bill says which of the three outcomes o it is.
   */
  ghost predicate Ran(s: Space, st: State, k: Stock, addr: nat, len: nat, o: Outcome, served: nat, r: Space,
      left: Stock)
    requires Tree(s) && Tree(r) && |k.free| == CLASSES && addr / PAGE_2M <= USER_PAGES
  {
    var first := addr / PAGE_2M;
    && Pay(Demands(s, first, UserSteps(addr, len)), k) == Billed(o, left)
    && Filled(Plain(s), Plain(r), first, served, st)
    && (o.Break? ==> served == Steps(len) == UserSteps(addr, len) && o.end == addr + Steps(len) * PAGE_2M)
    && (!o.Break? ==> served < UserSteps(addr, len) && first + served !in Plain(r))
  }

  lemma RunEnds(s: Space, h: HeapView, st: State, k: Stock, addr: nat, len: nat, r: Space, g: HeapView, mid: State)
    requires Halfway(s, h, st, k, addr / PAGE_2M, Steps(len), r, g, mid)
    ensures Tree(s) && Tree(r) && |k.free| == CLASSES && addr / PAGE_2M <= USER_PAGES && Calm(h, st, g, mid)
    ensures Ran(s, st, k, addr, len, Break(addr + Steps(len) * PAGE_2M), Steps(len), r, StockOf(g, mid))
  {
    hide Walked, Plain, Tree, Filled, Calm, Demands, Steps;
  }

  lemma ReachStarts(s: Space, addr: nat, len: nat)
    requires InReach(s, addr, len)
    ensures addr / PAGE_2M <= USER_PAGES
  {}

  /** All pages of a run that succeeds are mapped. */
  lemma RunCovers(s: Space, st: State, k: Stock, addr: nat, len: nat, o: Outcome, served: nat, r: Space, left: Stock)
    requires Tree(s) && Tree(r) && |k.free| == CLASSES && addr / PAGE_2M <= USER_PAGES && o.Break?
    requires Ran(s, st, k, addr, len, o, served, r, left)
    ensures forall n: nat :: addr / PAGE_2M <= n < addr / PAGE_2M + Steps(len) ==> n in Plain(r)
  {
    hide Tree, Plain, Pay, Demands, FreeFrame;
  }

  lemma BackedIsWritten(s: Space, h: HeapView, st: State)
    requires Backed(s, h, st)
    ensures WritesGoTo(s, Plain(s))
  {
    PlainIsWritten(s);
  }

  /** A run has failed before it gets to 2^47. */
  lemma StaysBelow(s: Space, h: HeapView, st: State, k: Stock, addr: nat, len: nat, count: nat,
                   r: Space, g: HeapView, mid: State)
    requires InReach(s, addr, len) && count < Steps(len)
    requires Halfway(s, h, st, k, addr / PAGE_2M, count, r, g, mid)
    requires Backed(r, g, mid) && Consistent(g, mid) && |mid.pages| <= USER_PAGES
    ensures addr / PAGE_2M + count < USER_PAGES && count < UserSteps(addr, len)
  {
    hide SlabModel.Consistent, Tree, TableBlocks, Plain, Frames, Injective, Steps, Calm, Walked, Pay, Demands, Grown;
    SomeUnmapped(r, g, mid);
  }

  /** The k-th step of the loop, and when there is no other. */
  lemma StepAt(addr: nat, len: nat, k: nat)
    ensures (addr + k * PAGE_2M) / PAGE_2M == addr / PAGE_2M + k
    ensures addr + k * PAGE_2M < addr + len <==> k < Steps(len)
    ensures addr + (k + 1) * PAGE_2M < addr + len <==> k + 1 < Steps(len)
  {}

  lemma AlignedSteps(brk: nat, end: nat)
    requires end <= PageAlign(brk)
    ensures end / PAGE_2M + Steps(PageAlign(brk) - end) == PageAlign(brk) / PAGE_2M
    ensures PageAlign(brk) == PageAlign(brk) / PAGE_2M * PAGE_2M
    ensures end % PAGE_2M == 0 ==>
              end + Steps(PageAlign(brk) - end) * PAGE_2M == PageAlign(brk) && end == end / PAGE_2M * PAGE_2M
  {
    assert PageAlign(brk) % PAGE_2M == 0;
    var q, o := end / PAGE_2M, end % PAGE_2M;
    assert PageAlign(brk) - end == PAGE_2M * (PageAlign(brk) / PAGE_2M - q) - o;
  }

  /** What the outcome of a step or a run says of its bill. */
  ghost function Billed(o: Outcome, k: Stock): Bill {
    match o
    case Break(_) => Served(k)
    case NoMemory => Short(k)
    case Fault => Ruined
  }

  lemma LastEntry(s: Space, n: nat, t: nat)
    requires Tree(s) && n < USER_PAGES && Walk2(s, n) == Some(t)
    ensures t in s.tables && t in s.level && s.level[t] == 2 && Index2(n) < |s.tables[t]| == ENTRIES
    ensures s.tables[t][Index2(n)] != 0 <==> n in Plain(s)
  {}

  /** A top table alone, with an empty user half. */
  lemma EmptyHalf(s: Space)
    requires s.tables.Keys == {s.pgd} && s.level == map[s.pgd := 4] && s.pgd % PAGE_4K == 0
    requires |s.tables[s.pgd]| == ENTRIES && forall i :: 0 <= i < USER_ENTRIES ==> s.tables[s.pgd][i] == 0
    ensures Tree(s) && Marked(s) && Plain(s) == map[]
  {
    forall n: nat | n < USER_PAGES ensures Translate(s, n) == None { assert Inner(s, s.pgd, Index4(n)); }
  }

  lemma RootPlace(h: HeapView, st: State, root: nat)
    requires Consistent(h, st) && root in h.live && Housed(h, root) && h.slabs[PageOf(root)].cls == TABLE_CLASS
    ensures root >= PAGE_OFFSET && (root - PAGE_OFFSET) % PAGE_4K == 0
  {
    BlockPlace(h, root);
  }

  lemma RootAlone(s: Space, h: HeapView, st: State)
    requires s.tables.Keys == {s.pgd} && s.level == map[s.pgd := 4] && s.pgd % PAGE_4K == 0 && TableBlock(h, s.pgd)
    requires |s.tables[s.pgd]| == ENTRIES && forall i :: 0 <= i < USER_ENTRIES ==> s.tables[s.pgd][i] == 0
    ensures Backed(s, h, st) && Plain(s) == map[]
  {
    EmptyHalf(s);
  }

  class AddressSpace {
    const heap: Heap.KernelHeap
    var pgd: nat
    var tables: map<nat, seq<Entry>>
    ghost var level: map<nat, nat>
    var startBrk: nat
    var endBrk: nat

    /** A program starts with an empty user half: root is a block of kmalloc(4096) with the entries `top`. */
    constructor (heap: Heap.KernelHeap, root: nat, top: seq<Entry>)
      requires heap.Valid() && root in heap.live
      requires |top| == ENTRIES && forall i :: 0 <= i < USER_ENTRIES ==> top[i] == 0
      requires Housed(heap.Now(), root) && heap.Now().slabs[PageOf(root)].cls == TABLE_CLASS
      ensures Valid() && this.heap == heap && Plain(Now()) == map[]
      ensures startBrk == endBrk == BRK_START && Ended()
    {
      hide Backed, Plain, SlabModel.Consistent, Housed, Tree;
      RootPlace(heap.Now(), heap.pm.Now(), root);
      this.heap, pgd := heap, root - PAGE_OFFSET;
      tables, level := map[root - PAGE_OFFSET := top], map[root - PAGE_OFFSET := 4];
      startBrk, endBrk := BRK_START, BRK_START;
      new;
      heap.Still();
      RootAlone(Now(), heap.Now(), heap.pm.Now());
      StartIsEnd(Now(), heap.Now(), heap.pm.Now());
    }

    ghost function Now(): Space reads this { Space(pgd, tables, level) }

    ghost predicate Valid()
      reads this, heap, heap.caches, heap.home.Values, heap.Maps(), heap.pm.words, heap.pm.pages, heap.pm.zones
    {
      heap.Valid() && this !in heap.repr && Backed(Now(), heap.Now(), heap.pm.Now())
    }

    /** A table p on entry i of table t. */
    method HangUp(t: nat, i: nat, p: nat)
      requires Valid() && Inner(Now(), t, i) && tables[t][i] == 0 && FreshTable(Now(), p) && TableBlock(heap.Now(), p)
      modifies this`tables, this`level
      ensures Valid() && heap.Now() == old(heap.Now()) && heap.pm.Now() == old(heap.pm.Now())
      ensures Now() == AddTable(old(Now()), t, i, p)
    {
      hide SlabModel.Consistent, Plain, Tree;
      label start:
      AddBacked(Now(), heap.Now(), heap.pm.Now(), t, i, p);
      tables, level := tables[t := Put(tables[t], i, Linked(p, PAGE_USER_TABLE))][p := EmptyTable()],
                       level[p := level[t] - 1];
      heap.Still@start();
    }

    /** kmalloc(4096) for a table. */
    method NewTable() returns (table: Option<nat>)
      requires Valid()
      modifies heap.repr
      ensures heap.Valid() && fresh(heap.repr - old(heap.repr)) && Now() == old(Now())
      ensures table.Some? ==> Valid() && Calm(old(heap.Now()), old(heap.pm.Now()), heap.Now(), heap.pm.Now())
      ensures table.Some? ==> FreshTable(Now(), table.value) && TableBlock(heap.Now(), table.value)
      ensures table.Some? <==> Draw(old(heap.Supply()), TABLE_CLASS).Got?
      ensures table.Some? ==> heap.Supply() == Draw(old(heap.Supply()), TABLE_CLASS).left
    {
      hide Plain, Tree, Draw, Allocated, Backed, Calm, Owned, SlabModel.Valid, Price, StockOf, FreshTable, TableBlock,
           Lowest;
      ghost var h, st := heap.Now(), heap.pm.Now();
      TableClass();
      var r := heap.Kmalloc(PAGE_4K);
      if !r.Block? { return None; }
      BlockIsTable(Now(), h, st, heap.Now(), heap.pm.Now(), r.address);
      table := Some(r.address - PAGE_OFFSET);
    }

    /** One level of the walk: the table below entry i of t, which is made if the entry is empty. */
    method Descend(t: nat, i: nat) returns (below: Option<nat>, ghost p: nat)
      requires Valid() && Inner(Now(), t, i)
      modifies this`tables, this`level, heap.repr
      ensures heap.Valid() && fresh(heap.repr - old(heap.repr))
      ensures below.None? ==> Now() == old(Now())
      ensures below.Some? ==> Valid() && Calm(old(heap.Now()), old(heap.pm.Now()), heap.Now(), heap.pm.Now())
      ensures below.Some? ==> Hangable(old(Now()), t, i, p) && Now() == Reached(old(Now()), t, i, p)
      ensures below.Some? ==> t in tables && i < |tables[t]| && below.value == Target(tables[t][i])
      ensures DrawTables(old(heap.Supply()), if old(tables[t][i]) == 0 then 1 else 0)
              == if below.Some? then Served(heap.Supply()) else Ruined
    {
      hide SlabModel.Consistent, Plain, Draw;
      p := 0;
      if tables[t][i] == 0 {
        var table := NewTable();
        if table == None { return None, 0; }
        HangUp(t, i, table.value);
        p := table.value;
      }
      below := Some(Target(tables[t][i]));
    }

    /** Down the walk of page n to its level 2 table. */
    method GoDown(n: nat) returns (t: Option<nat>)
      requires Valid() && n < USER_PAGES
      modifies this`tables, this`level, heap.repr
      ensures heap.Valid() && fresh(heap.repr - old(heap.repr)) && Tree(Now()) && Plain(Now()) == old(Plain(Now()))
      ensures DrawTables(old(heap.Supply()), Missing(old(Now()), n))
              == if t.Some? then Served(heap.Supply()) else Ruined
      ensures t.Some? ==> Valid() && Calm(old(heap.Now()), old(heap.pm.Now()), heap.Now(), heap.pm.Now())
      ensures t.Some? ==> Walked(old(Now()), Now(), n, 1) && Walk2(Now(), n) == t
    {
      hide SlabModel.Consistent, Plain, Draw, DrawTables, Walked, Calm, Reached, Missing, Walk3, Walk2, Tree, Inner;
      ghost var s, h, st, k := Now(), heap.Now(), heap.pm.Now(), heap.Supply();
      TopMissing(s, n);
      DrawNone(k);
      var t3, p := Descend(pgd, Index4(n));
      if t3 == None {
        DrawTwo(k);
        return None;
      }
      ghost var h1, st1, mid := heap.Now(), heap.pm.Now(), heap.Supply();
      MissingOnWay(s, n, p);
      DrawNone(mid);
      var t2, q := Descend(t3.value, Index3(n));
      DrawTwo(k);
      if t2.Some? {
        CalmTrans(h, st, h1, st1, heap.Now(), heap.pm.Now());
        Descent(s, n, p, t3.value, q);
      }
      t := t2;
    }

    /** The leaf of page n, below its level 2 table t. */
    method SetEntry(n: nat, t: nat, f: nat)
      requires Valid() && n < USER_PAGES && Walk2(Now(), n) == Some(t) && n !in Plain(Now())
      requires Frame(heap.Now(), heap.pm.Now(), f) && forall m <- Plain(Now()) :: Plain(Now())[m] != f
      modifies this`tables
      ensures Valid() && heap.Now() == old(heap.Now()) && heap.pm.Now() == old(heap.pm.Now())
      ensures Plain(Now()) == old(Plain(Now()))[n := f]
      ensures forall s :: Tree(s) && old(Walked(s, Now(), n, 1)) ==> Walked(s, Now(), n, 1)
    {
      hide SlabModel.Consistent, Plain, Tree, Walked;
      label start:
      ghost var s := Now();
      LastEntry(s, n, t);
      LeafBacked(s, heap.Now(), heap.pm.Now(), n, f);
      tables := tables[t := Put(tables[t], Index2(n), Linked(f, PAGE_USER_PAGE))];
      heap.Still@start();
      forall r | Tree(r) && Walked(r, s, n, 1) ensures Walked(r, Now(), n, 1) { WalkedLeaf(r, s, n, f); }
    }

    /** One iteration: user page n, with a new frame f unless it is mapped. */
    method MapPage(n: nat) returns (o: Outcome, ghost f: nat)
      requires Valid() && n < USER_PAGES
      modifies this`tables, this`level, heap.repr
      ensures heap.Valid() && fresh(heap.repr - old(heap.repr)) && Tree(Now())
      ensures PayPage(old(heap.Supply()), Missing(old(Now()), n), n in old(Plain(Now()))) == Billed(o, heap.Supply())
      ensures !o.Fault? ==> Valid() && Calm(old(heap.Now()), old(heap.pm.Now()), heap.Now(), heap.pm.Now())
      ensures !o.Fault? ==> Walked(old(Now()), Now(), n, 1)
      ensures !o.Break? || n in old(Plain(Now())) ==> Plain(Now()) == old(Plain(Now()))
      ensures o.Break? && n !in old(Plain(Now())) ==>
                FreeFrame(old(heap.pm.Now()), f) && Plain(Now()) == old(Plain(Now()))[n := f]
      ensures o.Break? ==> o.end == 0
      ensures !o.Break? ==> n !in Plain(Now())
    {
      hide SlabModel.Consistent, Plain, Tree, Walked, Calm, Missing, Walk2, DrawTables, FreeFrame, Frame, Granted,
           Kept, StockOf;
      f := 0;
      ghost var s, h, st, k := Now(), heap.Now(), heap.pm.Now(), heap.Supply();
      var t := GoDown(n);
      if t == None {
        DrawNone(k);
        NothingBehind(s, n);
        return Fault, 0;
      }
      ghost var g, mid := heap.Now(), heap.pm.Now();
      LastEntry(Now(), n, t.value);
      o := Break(0);
      if tables[t.value][Index2(n)] == 0 {
        label grant:
        var page := heap.GrantUserPage();
        if page == None { return NoMemory, 0; }
        GrantIsFrame(Now(), g, mid, heap.pm.Now(), page.value);
        FreeBefore(h, st, g, mid, page.value * PAGE_2M);
        CalmTrans(h, st, g, mid, g, heap.pm.Now());
        f := page.value * PAGE_2M;
        SetEntry(n, t.value, heap.pm.pages[page.value].phys);
      }
    }

    /** The iteration after `count` others of the run that starts at page `first`. */
    method ServePage(n: nat, ghost s: Space, ghost h: HeapView, ghost st: State, ghost k: Stock, ghost first: nat,
        ghost count: nat)
        returns (o: Outcome)
      requires Valid() && n == first + count < USER_PAGES
      requires Halfway(s, h, st, k, first, count, Now(), heap.Now(), heap.pm.Now())
      modifies this`tables, this`level, heap.repr
      ensures heap.Valid() && fresh(heap.repr - old(heap.repr)) && Tree(Now())
      ensures Tree(s) && |k.free| == CLASSES && Pay(Demands(s, first, count + 1), k) == Billed(o, heap.Supply())
      ensures !o.Fault? ==> Valid() && Calm(h, st, heap.Now(), heap.pm.Now())
      ensures o.Break? ==> o.end == 0 && Halfway(s, h, st, k, first, count + 1, Now(), heap.Now(), heap.pm.Now())
      ensures !o.Break? ==> Filled(Plain(s), Plain(Now()), first, count, st) && n !in Plain(Now())
    {
      hide SlabModel.Consistent, Plain, Tree, Walked, Calm, Missing, Filled, FreeFrame, Pay, PayPage, Demands, StockOf;
      hide Injective, Frames, TableBlocks, Halfway;
      ghost var f;
      ghost var r, g, mid := Now(), heap.Now(), heap.pm.Now();
      HalfwayMeans(s, h, st, k, first, count, r, g, mid);
      o, f := MapPage(n);
      Onward(s, h, st, k, first, count, r, g, mid, o, f, Now(), heap.Now(), heap.pm.Now());
    }

    /** The iteration at address i, and what it decides for the whole run if it fails. */
    method ServeNext(i: nat, ghost s: Space, ghost h: HeapView, ghost st: State, ghost k: Stock, ghost addr: nat,
        ghost len: nat, ghost count: nat)
        returns (o: Outcome)
      requires Valid() && i == addr + count * PAGE_2M && count < Steps(len) && InReach(s, addr, len)
      requires Halfway(s, h, st, k, addr / PAGE_2M, count, Now(), heap.Now(), heap.pm.Now())
      modifies this`tables, this`level, heap.repr
      ensures heap.Valid() && fresh(heap.repr - old(heap.repr)) && Tree(Now())
      ensures !o.Fault? ==> Valid() && Calm(h, st, heap.Now(), heap.pm.Now())
      ensures o.Break? ==>
                o == Break(0) && Halfway(s, h, st, k, addr / PAGE_2M, count + 1, Now(), heap.Now(), heap.pm.Now())
      ensures addr / PAGE_2M <= USER_PAGES && Tree(s) && |k.free| == CLASSES
      ensures !o.Break? ==> Ran(s, st, k, addr, len, o, count, Now(), heap.Supply())
    {
      hide SlabModel.Consistent, Plain, Tree, Walked, Calm, Missing, Filled, FreeFrame, Pay, PayPage, Demands, Steps;
      hide StockOf, Injective, Frames, TableBlocks, Halfway, Grown, InReach, Solid, UserSteps;
      ReachStarts(s, addr, len);
      StepAt(addr, len, count);
      StaysBelow(s, h, st, k, addr, len, count, Now(), heap.Now(), heap.pm.Now());
      o := ServePage(i / PAGE_2M, s, h, st, k, addr / PAGE_2M, count);
      if !o.Break? {
        PayStops(s, addr / PAGE_2M, count + 1, UserSteps(addr, len), k, o, heap.Supply());
      }
    }

    /** The loop of do_brk. */
    method FillRun(addr: nat, len: nat) returns (o: Outcome, ghost served: nat)
      requires Valid() && InReach(Now(), addr, len)
      modifies this`tables, this`level, heap.repr
      ensures heap.Valid() && fresh(heap.repr - old(heap.repr)) && Tree(Now())
      ensures addr / PAGE_2M <= USER_PAGES
      ensures Ran(old(Now()), old(heap.pm.Now()), old(heap.Supply()), addr, len, o, served, Now(), heap.Supply())
      ensures !o.Fault? ==> Valid() && Calm(old(heap.Now()), old(heap.pm.Now()), heap.Now(), heap.pm.Now())
    {
      hide SlabModel.Consistent, Plain, Tree, Walked, Calm, Missing, Filled, FreeFrame, Pay, PayPage, Demands, Steps;
      hide StockOf, Injective, Frames, TableBlocks, Halfway, Missing, Grown, InReach, Solid, Ran, UserSteps;
      ghost var s, h, st, k, first := Now(), heap.Now(), heap.pm.Now(), heap.Supply(), addr / PAGE_2M;
      ReachStarts(s, addr, len);
      var i := addr;
      served := 0;
      RunStarts(s, h, st, first);
      StepAt(addr, len, 0);
      while i < addr + len
        invariant i == addr + served * PAGE_2M && served <= Steps(len) && (i >= addr + len ==> served == Steps(len))
        invariant Valid() && fresh(heap.repr - old(heap.repr))
        invariant Halfway(s, h, st, k, first, served, Now(), heap.Now(), heap.pm.Now())
        decreases addr + len - i
      {
        StepAt(addr, len, served);
        o := ServeNext(i, s, h, st, k, addr, len, served);
        if o != Break(0) { return; }
        i := i + PAGE_2M;
        served := served + 1;
      }
      StepAt(addr, len, served);
      o := Break(i);
      RunEnds(s, h, st, k, addr, len, Now(), heap.Now(), heap.pm.Now());
    }

    /**
     do_brk. The first `served` pages of the run are mapped afterwards, those that were not to distinct frames
     that alloc_pages had free. The bill says which of the three outcomes it is, for every supply.
     */
    method DoBrk(addr: nat, len: nat) returns (o: Outcome, ghost served: nat)
      requires Valid() && InReach(Now(), addr, len)
      modifies this`tables, this`level, this`endBrk, heap.repr
      ensures heap.Valid() && fresh(heap.repr - old(heap.repr)) && Tree(Now())
      ensures addr / PAGE_2M <= USER_PAGES
      ensures Ran(old(Now()), old(heap.pm.Now()), old(heap.Supply()), addr, len, o, served, Now(), heap.Supply())
      ensures !o.Fault? ==> Valid() && Calm(old(heap.Now()), old(heap.pm.Now()), heap.Now(), heap.pm.Now())
      ensures !o.Fault? ==> Injective(Plain(Now())) && WritesGoTo(Now(), Plain(Now()))
      ensures o.Break? ==>
                forall n: nat :: addr / PAGE_2M <= n < addr / PAGE_2M + Steps(len) ==> n in Plain(Now())
      ensures endBrk == if o.Break? then o.end else old(endBrk)
    {
      hide SlabModel.Consistent, Plain, Tree, Marked, Calm, Filled, Pay, Demands, Steps, StockOf, Frames, TableBlocks,
           WritesGoTo;
      ghost var s, st, k := Now(), heap.pm.Now(), heap.Supply();
      o, served := FillRun(addr, len);
      if !o.Fault? { BackedIsWritten(Now(), heap.Now(), heap.pm.Now()); }
      if o.Break? {
        RunCovers(s, st, k, addr, len, o, served, Now(), heap.Supply());
        label done:
        endBrk := o.end;
        heap.Still@done();
      }
    }

    ghost predicate Ended()
      reads this
    {
      EndsAt(Now(), endBrk)
    }

    /**
     sys_brk, for any request. It grows the heap unless the aligned request is 0 or below the end; one beyond 2^47
     never succeeds. `NoMemory` leaves the error value in endBrk, where it stands for an address near 2^64.
     */
    method SysBrk(brk: nat) returns (o: Outcome)
      requires Valid() && Ended()
      modifies this`tables, this`level, this`endBrk, heap.repr
      ensures heap.Valid() && fresh(heap.repr - old(heap.repr)) && Tree(Now())
      ensures !o.Fault? ==> Valid() && Ended() && WritesGoTo(Now(), Plain(Now()))
      ensures Answered(old(Now()), old(endBrk), old(heap.Supply()), startBrk, brk, o, Now(), endBrk, heap.Supply())
    {
      hide SlabModel.Consistent, Plain, Tree, Calm, Pay, Demands, Steps, StockOf, Frames, TableBlocks, PageAlign,
           Injective, Ran, Tables, Unmapped, Marked, WritesGoTo;
      var newBrk := PageAlign(brk);
      BelowFailed(brk);
      BackedIsWritten(Now(), heap.Now(), heap.pm.Now());
      if newBrk == 0 { return Break(startBrk); }
      if newBrk < endBrk { return Break(0); }
      ghost var s, h, st, end, served := Now(), heap.Now(), heap.pm.Now(), endBrk, 0;
      o, served := DoBrk(endBrk, newBrk - endBrk);
      RanAnswers(s, h, st, StockOf(h, st), end, startBrk, brk, o, served, Now(), heap.Supply());
      label done:
      if o.Break? { endBrk := o.end; }
      if o.NoMemory? { endBrk := FAILED; }
      heap.Still@done();
    }

    /** After a failure for want of memory every request is answered 0, but for those that align to 0. */
    method SysBrkAgain(brks: seq<nat>) returns (answers: seq<Outcome>)
      requires Valid() && endBrk == FAILED
      modifies this`tables, this`level, this`endBrk, heap.repr
      ensures Valid() && endBrk == FAILED && Now() == old(Now()) && |answers| == |brks|
      ensures forall i :: 0 <= i < |brks| ==> answers[i] == Break(if PageAlign(brks[i]) == 0 then startBrk else 0)
    {
      hide Plain, SlabModel.Consistent, Tree, Backed, Pay, Growth, Tables, Unmapped, Grown, PageAlign, StockOf;
      answers := [];
      while |answers| < |brks|
        invariant Valid() && endBrk == FAILED && Now() == old(Now()) && |answers| <= |brks|
        invariant fresh(heap.repr - old(heap.repr))
        invariant forall i :: 0 <= i < |answers| ==>
                    answers[i] == Break(if PageAlign(brks[i]) == 0 then startBrk else 0)
      {
        BelowFailed(brks[|answers|]);
        var o := SysBrk(brks[|answers|]);
        answers := answers + [o];
      }
    }
  }
}
