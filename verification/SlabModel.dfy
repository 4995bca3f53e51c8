// The state of the kmalloc caches as a value, what must always agree in it, and the steps
// kmalloc and kfree are made of.
module SlabModel {
  import opened Common
  import opened Pages
  import opened Geometry

  /** A slab; it is known by the index of its 2 MB page. */
  datatype SlabView = SlabView(
    cls: nat,             // the size class it serves
    boot: bool,           // set up by slab_init
    address: nat,         // where the slab structure lies
    mapAddress: nat,      // color_map
    bits: seq<bool>,      // the colour map
    using: int,
    free: int)

  /** A size class: its totals and the pages of its slabs in ring order, cache_pool first. */
  datatype CacheView = CacheView(using: int, free: int, ring: seq<nat>)

  datatype HeapView = HeapView(
    slabs: map<nat, SlabView>,
    caches: seq<CacheView>,
    live: set<nat>,       // addresses of the blocks callers hold
    meta: map<nat, nat>)  // addresses of the blocks with slab structures and maps, and the page of their slab

  ghost function Count(s: SlabView): nat
    requires s.cls < CLASSES
  {
    Capacity(s.cls, s.boot)
  }

  ghost predicate Shape(page: nat, s: SlabView) {
    && s.cls < CLASSES
    && |s.bits| == 64 * MapWords(Count(s))
    && (!s.boot && s.cls < FIRST_LARGE ==>
          s.address == Base(page) + Room(s.cls, s.boot) && s.mapAddress == s.address + SLAB_STRUCT)
  }

  /** The counters agree with the colour map, whose bits from color_count on are set. */
  ghost predicate Counted(s: SlabView)
    requires s.cls < CLASSES && |s.bits| == 64 * MapWords(Count(s))
  {
    && s.free == Clear(s.bits, 0, Count(s))
    && s.using + s.free == Count(s)
    && forall i :: Count(s) <= i < |s.bits| ==> s.bits[i]
  }

  ghost predicate Slabs(h: HeapView) {
    forall p <- h.slabs :: Shape(p, h.slabs[p]) && Counted(h.slabs[p])
  }

  ghost predicate RingOk(h: HeapView, i: nat)
    requires i < |h.caches|
  {
    var ring := h.caches[i].ring;
    && ring != []
    && (forall k :: 0 <= k < |ring| ==>
          ring[k] in h.slabs && h.slabs[ring[k]].cls == i && (h.slabs[ring[k]].boot <==> k == 0))
    && (forall k, l :: 0 <= k < l < |ring| ==> ring[k] != ring[l])
  }

  ghost predicate Rings(h: HeapView) {
    && |h.caches| == CLASSES
    && (forall i :: 0 <= i < CLASSES ==> RingOk(h, i))
    && (forall p <- h.slabs :: h.slabs[p].cls < CLASSES && p in h.caches[h.slabs[p].cls].ring)
  }

  ghost function SumFree(slabs: map<nat, SlabView>, ring: seq<nat>): int {
    if ring == [] then 0
    else SumFree(slabs, ring[..|ring| - 1]) + (var p := ring[|ring| - 1]; if p in slabs then slabs[p].free else 0)
  }

  ghost function SumUsing(slabs: map<nat, SlabView>, ring: seq<nat>): int {
    if ring == [] then 0
    else SumUsing(slabs, ring[..|ring| - 1]) + (var p := ring[|ring| - 1]; if p in slabs then slabs[p].using else 0)
  }

  /** The totals of a class are the sums over its ring. */
  ghost predicate Totals(h: HeapView) {
    forall i :: 0 <= i < |h.caches| ==>
      && h.caches[i].free == SumFree(h.slabs, h.caches[i].ring)
      && h.caches[i].using == SumUsing(h.slabs, h.caches[i].ring)
  }

  ghost predicate IsBlock(h: HeapView, a: nat) {
    a in h.live || a in h.meta
  }

  /** Block j of the slab of page p. */
  ghost function At(h: HeapView, p: nat, j: nat): nat
    requires p in h.slabs && h.slabs[p].cls < CLASSES
  {
    Address(p, h.slabs[p].cls, j)
  }

  /** An address that some slab hands out: page and index can be computed from it. */
  ghost predicate Housed(h: HeapView, a: nat) {
    var p := PageOf(a);
    && p in h.slabs && h.slabs[p].cls < CLASSES
    && var j := IndexOf(a, h.slabs[p].cls);
       j < Count(h.slabs[p]) && a == At(h, p, j)
  }

  /** The set bits of the colour maps are exactly the blocks in use. */
  ghost predicate Blocks(h: HeapView)
    requires Slabs(h)
  {
    && (forall p, j :: p in h.slabs && 0 <= j < Count(h.slabs[p]) ==>
          (h.slabs[p].bits[j] <==> IsBlock(h, At(h, p, j))))
    && (forall a :: IsBlock(h, a) ==> Housed(h, a))
  }

  ghost predicate IsLarge(s: SlabView) {
    !s.boot && s.cls >= FIRST_LARGE
  }

  /** Metadata blocks are not the callers', and belong to classes up to 512. */
  ghost predicate MetaSmall(h: HeapView) {
    forall a <- h.meta :: a !in h.live && Housed(h, a) && h.slabs[PageOf(a)].cls < FIRST_LARGE
  }

  /** Each metadata block is the structure or the map of the slab it is recorded for. */
  ghost predicate MetaOwned(h: HeapView) {
    forall a <- h.meta ::
      h.meta[a] in h.slabs && IsLarge(h.slabs[h.meta[a]]) &&
      (a == h.slabs[h.meta[a]].address || a == h.slabs[h.meta[a]].mapAddress)
  }

  /** Each slab from 1024 on has its structure and its map in blocks of their own. */
  ghost predicate MetaComplete(h: HeapView) {
    forall p <- h.slabs :: IsLarge(h.slabs[p]) ==>
      && h.slabs[p].address in h.meta && h.meta[h.slabs[p].address] == p
      && h.slabs[p].mapAddress in h.meta && h.meta[h.slabs[p].mapAddress] == p
      && h.slabs[p].address != h.slabs[p].mapAddress
  }

  /** The block at a is of a class with at least n bytes. */
  ghost predicate BlockHolds(h: HeapView, a: nat, n: nat) {
    PageOf(a) in h.slabs && h.slabs[PageOf(a)].cls < CLASSES && n <= Size(h.slabs[PageOf(a)].cls)
  }

  /** The two blocks of a large slab are long enough for its structure and for a word for every 64 of its blocks. */
  ghost predicate MetaRoom(h: HeapView) {
    forall p <- h.slabs :: IsLarge(h.slabs[p]) && h.slabs[p].cls < CLASSES ==>
      BlockHolds(h, h.slabs[p].address, 72) && BlockHolds(h, h.slabs[p].mapAddress, (Count(h.slabs[p]) + 63) / 64 * 8)
  }

  ghost predicate Metadata(h: HeapView) {
    MetaSmall(h) && MetaOwned(h) && MetaComplete(h) && MetaRoom(h)
  }

  ghost predicate Valid(h: HeapView) {
    Slabs(h) && Rings(h) && Totals(h) && Blocks(h) && Metadata(h)
  }

  /** The pages of the slabs belong to zone 0, are marked as taken and referenced once. */
  ghost predicate Owned(h: HeapView, st: State) {
    && Sound(st)
    && forall p <- h.slabs :: p < |st.pages| && InZone(st.zones[0], p) && st.bits[p] && st.pages[p].refs == 1
  }

  ghost predicate Consistent(h: HeapView, st: State) {
    Valid(h) && Owned(h, st)
  }

  // ---- a block changes hands

  /** Bit j of the colour map turns to v. */
  ghost function Moved(s: SlabView, j: nat, v: bool): SlabView
    requires j < |s.bits|
  {
    var d := if v then 1 else -1;
    s.(bits := s.bits[j := v], using := s.using + d, free := s.free - d)
  }

  /** Block j of page p is taken (v) or released (!v). */
  ghost function SlotEffect(h: HeapView, p: nat, j: nat, v: bool): HeapView
    requires p in h.slabs && h.slabs[p].cls < |h.caches| && h.slabs[p].cls < CLASSES && j < |h.slabs[p].bits|
  {
    var s, d := h.slabs[p], if v then 1 else -1;
    var c := h.caches[s.cls];
    HeapView(h.slabs[p := Moved(s, j, v)],
         h.caches[s.cls := c.(using := c.using + d, free := c.free - d)],
         if v then h.live + {At(h, p, j)} else h.live - {At(h, p, j)},
         h.meta)
  }

  lemma {:induction false} SumSame(a: map<nat, SlabView>, b: map<nat, SlabView>, ring: seq<nat>)
    requires forall k :: 0 <= k < |ring| ==>
      (ring[k] in a <==> ring[k] in b) &&
      (ring[k] in a ==> a[ring[k]].free == b[ring[k]].free && a[ring[k]].using == b[ring[k]].using)
    ensures SumFree(a, ring) == SumFree(b, ring) && SumUsing(a, ring) == SumUsing(b, ring)
  {
    if ring != [] { SumSame(a, b, ring[..|ring| - 1]); }
  }

  lemma {:induction false} SumOne(a: map<nat, SlabView>, ring: seq<nat>, k: nat, s: SlabView)
    requires k < |ring| && ring[k] in a
    requires forall l, m :: 0 <= l < m < |ring| ==> ring[l] != ring[m]
    ensures SumFree(a[ring[k] := s], ring) == SumFree(a, ring) - a[ring[k]].free + s.free
    ensures SumUsing(a[ring[k] := s], ring) == SumUsing(a, ring) - a[ring[k]].using + s.using
  {
    var n := |ring| - 1;
    if k == n {
      SumSame(a, a[ring[k] := s], ring[..n]);
    } else {
      SumOne(a, ring[..n], k, s);
    }
  }

  /** The same slabs on the same pages; only bits and counters may differ. */
  ghost predicate SameSlabs(h: HeapView, g: HeapView) {
    && h.slabs.Keys == g.slabs.Keys
    && forall p <- h.slabs ::
         g.slabs[p] == h.slabs[p].(bits := g.slabs[p].bits, using := g.slabs[p].using, free := g.slabs[p].free)
  }

  lemma SameSlabsRings(h: HeapView, g: HeapView)
    requires Rings(h) && SameSlabs(h, g) && |g.caches| == |h.caches|
    requires forall i :: 0 <= i < |h.caches| ==> g.caches[i].ring == h.caches[i].ring
    ensures Rings(g)
  {
    forall i | 0 <= i < CLASSES ensures RingOk(g, i) { assert RingOk(h, i); }
  }

  lemma SameSlabsRoom(h: HeapView, g: HeapView)
    requires MetaRoom(h) && SameSlabs(h, g)
    ensures MetaRoom(g)
  {
    hide Size, PageOf;
  }

  lemma SameSlabsMeta(h: HeapView, g: HeapView)
    requires Metadata(h) && SameSlabs(h, g) && g.meta == h.meta
    requires forall a <- g.meta :: a !in g.live
    ensures Metadata(g)
  {
    SameSlabsRoom(h, g);
    hide MetaRoom;
    forall a <- g.meta ensures Housed(g, a) && g.slabs[PageOf(a)].cls < FIRST_LARGE { assert Housed(h, a); }
  }

  lemma SlotCounts(h: HeapView, p: nat, j: nat, v: bool)
    requires Slabs(h) && p in h.slabs && j < Count(h.slabs[p]) && h.slabs[p].bits[j] == !v
    requires h.slabs[p].cls < |h.caches|
    ensures Slabs(SlotEffect(h, p, j, v))
  {
    ClearUpdate(h.slabs[p].bits, j, v, 0, Count(h.slabs[p]));
  }

  lemma SlotTotals(h: HeapView, p: nat, j: nat, v: bool)
    requires Valid(h) && p in h.slabs && j < Count(h.slabs[p]) && h.slabs[p].bits[j] == !v
    ensures Totals(SlotEffect(h, p, j, v))
  {
    var after := SlotEffect(h, p, j, v);
    forall i | 0 <= i < CLASSES
      ensures after.caches[i].free == SumFree(after.slabs, after.caches[i].ring)
      ensures after.caches[i].using == SumUsing(after.slabs, after.caches[i].ring)
    {
      var ring := h.caches[i].ring;
      assert RingOk(h, i);
      if i == h.slabs[p].cls {
        var k :| 0 <= k < |ring| && ring[k] == p;
        SumOne(h.slabs, ring, k, after.slabs[p]);
      } else {
        SumSame(h.slabs, after.slabs, ring);
      }
    }
  }

  lemma AtUnique(h: HeapView, p: nat, j: nat)
    requires p in h.slabs && h.slabs[p].cls < CLASSES && j < Count(h.slabs[p])
    ensures PageOf(At(h, p, j)) == p && IndexOf(At(h, p, j), h.slabs[p].cls) == j
  {
    AddressUnique(p, h.slabs[p].cls, h.slabs[p].boot, j);
  }

  lemma SlotBlocks(h: HeapView, p: nat, j: nat, v: bool)
    requires Slabs(h) && Blocks(h) && p in h.slabs && j < Count(h.slabs[p]) && h.slabs[p].bits[j] == !v
    requires h.slabs[p].cls < |h.caches|
    requires At(h, p, j) !in h.meta
    requires Slabs(SlotEffect(h, p, j, v))
    ensures Blocks(SlotEffect(h, p, j, v))
  {
    hide Counted;
    var after := SlotEffect(h, p, j, v);
    AtUnique(h, p, j);
    forall q, l | q in after.slabs && 0 <= l < Count(after.slabs[q])
      ensures after.slabs[q].bits[l] <==> IsBlock(after, At(after, q, l))
    {
      AtUnique(h, q, l);
      assert h.slabs[q].bits[l] <==> IsBlock(h, At(h, q, l));
    }
    forall a | IsBlock(after, a) ensures Housed(after, a) {
      assert a == At(h, p, j) || Housed(h, a);
    }
  }

  lemma BlockBit(h: HeapView, p: nat, j: nat)
    requires Slabs(h) && Blocks(h) && p in h.slabs && j < Count(h.slabs[p])
    ensures h.slabs[p].bits[j] <==> IsBlock(h, At(h, p, j))
  {}

  lemma SlotRings(h: HeapView, p: nat, j: nat, v: bool)
    requires Rings(h) && p in h.slabs && j < |h.slabs[p].bits|
    ensures Rings(SlotEffect(h, p, j, v))
  {
    SameSlabsRings(h, SlotEffect(h, p, j, v));
  }

  lemma SlotMeta(h: HeapView, p: nat, j: nat, v: bool)
    requires Metadata(h) && p in h.slabs && j < |h.slabs[p].bits|
    requires h.slabs[p].cls < |h.caches| && h.slabs[p].cls < CLASSES && At(h, p, j) !in h.meta
    ensures Metadata(SlotEffect(h, p, j, v))
  {
    SameSlabsMeta(h, SlotEffect(h, p, j, v));
  }

  /** Taking a free block, and releasing a block its caller holds, keep everything in step. */
  lemma SlotKeepsValid(h: HeapView, p: nat, j: nat, v: bool)
    requires Valid(h) && p in h.slabs && j < Count(h.slabs[p]) && h.slabs[p].bits[j] == !v
    requires !v ==> At(h, p, j) in h.live
    ensures Valid(SlotEffect(h, p, j, v))
  {
    BlockBit(h, p, j);
    SlotCounts(h, p, j, v);
    SlotRings(h, p, j, v);
    SlotTotals(h, p, j, v);
    SlotBlocks(h, p, j, v);
    SlotMeta(h, p, j, v);
  }

  // ---- a slab joins or leaves its ring

  /** A new slab on page p: it joins the end of its ring, and its metadata blocks change owner. */
  ghost function LinkEffect(h: HeapView, p: nat, s: SlabView): HeapView
    requires s.cls < |h.caches| && s.cls < CLASSES
  {
    var c := h.caches[s.cls];
    HeapView(h.slabs[p := s],
         h.caches[s.cls := c.(free := c.free + Count(s), ring := c.ring + [p])],
         if IsLarge(s) then h.live - {s.address, s.mapAddress} else h.live,
         if IsLarge(s) then h.meta[s.address := p][s.mapAddress := p] else h.meta)
  }

  /** A block that is in use in a class up to 512. */
  ghost predicate SmallBlock(h: HeapView, a: nat) {
    a in h.live && Housed(h, a) && h.slabs[PageOf(a)].cls < FIRST_LARGE
  }

  /** A slab as kmalloc_create returns it. */
  ghost predicate NewSlab(h: HeapView, p: nat, s: SlabView) {
    && p !in h.slabs && Shape(p, s) && Counted(s) && s.using == 0 && !s.boot
    && (IsLarge(s) ==> SmallBlock(h, s.address) && SmallBlock(h, s.mapAddress) && s.address != s.mapAddress)
    && (IsLarge(s) ==> BlockHolds(h, s.address, 72) && BlockHolds(h, s.mapAddress, (Count(s) + 63) / 64 * 8))
  }

  lemma {:induction false} AllClear(bits: seq<bool>, n: nat)
    requires n <= |bits| && Clear(bits, 0, n) == n
    ensures forall i :: 0 <= i < n ==> !bits[i]
  {
    if n > 0 {
      ClearBounds(bits, 0, n - 1);
      AllClear(bits, n - 1);
    }
  }

  lemma LinkRings(h: HeapView, p: nat, s: SlabView)
    requires Rings(h) && NewSlab(h, p, s)
    ensures Rings(LinkEffect(h, p, s))
  {
    var after := LinkEffect(h, p, s);
    forall i | 0 <= i < CLASSES ensures RingOk(after, i) { assert RingOk(h, i); }
    forall q <- after.slabs ensures q in after.caches[after.slabs[q].cls].ring {
      if q != p { assert q in h.caches[h.slabs[q].cls].ring; }
    }
  }

  lemma LinkTotals(h: HeapView, p: nat, s: SlabView)
    requires Rings(h) && Totals(h) && NewSlab(h, p, s)
    ensures Totals(LinkEffect(h, p, s))
  {
    var after := LinkEffect(h, p, s);
    forall i | 0 <= i < CLASSES
      ensures after.caches[i].free == SumFree(after.slabs, after.caches[i].ring)
      ensures after.caches[i].using == SumUsing(after.slabs, after.caches[i].ring)
    {
      var ring := h.caches[i].ring;
      assert RingOk(h, i);
      SumSame(h.slabs, after.slabs, ring);
      if i == s.cls { assert (ring + [p])[..|ring|] == ring; }
    }
  }

  lemma LinkBlocks(h: HeapView, p: nat, s: SlabView)
    requires Slabs(h) && Rings(h) && Blocks(h) && NewSlab(h, p, s)
    ensures Slabs(LinkEffect(h, p, s)) && Blocks(LinkEffect(h, p, s))
  {
    var after := LinkEffect(h, p, s);
    AllClear(s.bits, Count(s));
    forall a ensures IsBlock(after, a) <==> IsBlock(h, a) {}
    forall q, j | q in after.slabs && 0 <= j < Count(after.slabs[q])
      ensures after.slabs[q].bits[j] <==> IsBlock(after, At(after, q, j))
    {
      if q == p {
        AtUnique(after, p, j);
        assert IsBlock(h, At(after, q, j)) ==> Housed(h, At(after, q, j));
      } else {
        BlockBit(h, q, j);
      }
    }
    forall a | IsBlock(after, a) ensures Housed(after, a) { assert Housed(h, a); }
  }

  lemma LinkMetaSmall(h: HeapView, p: nat, s: SlabView)
    requires MetaSmall(h) && NewSlab(h, p, s) && |h.caches| == CLASSES
    ensures MetaSmall(LinkEffect(h, p, s))
  {
    var after := LinkEffect(h, p, s);
    forall a <- after.meta
      ensures a !in after.live && Housed(after, a) && after.slabs[PageOf(a)].cls < FIRST_LARGE
    {
      assert Housed(h, a);
    }
  }

  lemma LinkMetaOwned(h: HeapView, p: nat, s: SlabView)
    requires MetaSmall(h) && MetaOwned(h) && NewSlab(h, p, s) && |h.caches| == CLASSES
    ensures MetaOwned(LinkEffect(h, p, s))
  {}

  lemma LinkMetaComplete(h: HeapView, p: nat, s: SlabView)
    requires MetaSmall(h) && MetaComplete(h) && NewSlab(h, p, s) && |h.caches| == CLASSES
    ensures MetaComplete(LinkEffect(h, p, s))
  {}

  lemma LinkMetaRoom(h: HeapView, p: nat, s: SlabView)
    requires MetaRoom(h) && NewSlab(h, p, s) && |h.caches| == CLASSES
    ensures MetaRoom(LinkEffect(h, p, s))
  {
    hide Size, Count, Shape, Counted, SmallBlock, PageOf;
  }

  lemma LinkMeta(h: HeapView, p: nat, s: SlabView)
    requires Rings(h) && Metadata(h) && NewSlab(h, p, s)
    ensures Metadata(LinkEffect(h, p, s))
  {
    LinkMetaSmall(h, p, s);
    LinkMetaOwned(h, p, s);
    LinkMetaComplete(h, p, s);
    LinkMetaRoom(h, p, s);
  }

  /** Linking a new slab into its ring keeps everything in step. */
  lemma LinkKeepsValid(h: HeapView, p: nat, s: SlabView)
    requires Valid(h) && NewSlab(h, p, s)
    ensures Valid(LinkEffect(h, p, s))
  {
    LinkRings(h, p, s);
    LinkTotals(h, p, s);
    LinkBlocks(h, p, s);
    LinkMeta(h, p, s);
  }

  ghost function Without(ring: seq<nat>, k: nat): seq<nat>
    requires k < |ring|
  {
    ring[..k] + ring[k + 1..]
  }

  /** Slab k of class i leaves its ring; its metadata blocks go back to the caller. */
  ghost function UnlinkEffect(h: HeapView, i: nat, k: nat): HeapView
    requires i < |h.caches| && k < |h.caches[i].ring| && h.caches[i].ring[k] in h.slabs
    requires h.slabs[h.caches[i].ring[k]].cls < CLASSES
  {
    var c := h.caches[i];
    var p := c.ring[k];
    var s := h.slabs[p];
    HeapView(h.slabs - {p},
         h.caches[i := c.(free := c.free - Count(s), ring := Without(c.ring, k))],
         if IsLarge(s) then h.live + {s.address, s.mapAddress} else h.live,
         if IsLarge(s) then h.meta - {s.address, s.mapAddress} else h.meta)
  }

  lemma {:induction false} SumWithout(slabs: map<nat, SlabView>, ring: seq<nat>, k: nat)
    requires k < |ring| && ring[k] in slabs
    ensures SumFree(slabs, Without(ring, k)) == SumFree(slabs, ring) - slabs[ring[k]].free
    ensures SumUsing(slabs, Without(ring, k)) == SumUsing(slabs, ring) - slabs[ring[k]].using
  {
    var n := |ring| - 1;
    if k == n {
      assert Without(ring, k) == ring[..n];
    } else {
      SumWithout(slabs, ring[..n], k);
      assert Without(ring, k)[..n - 1] == Without(ring[..n], k);
    }
  }

  /** Slab k of class i can be reclaimed: it is empty and not the boot slab. */
  ghost predicate Empty(h: HeapView, i: nat, k: nat) {
    i < CLASSES && i < |h.caches| && 0 < k < |h.caches[i].ring| &&
    h.caches[i].ring[k] in h.slabs && h.slabs[h.caches[i].ring[k]].using == 0
  }

  lemma UnlinkRing(h: HeapView, i: nat, k: nat, l: nat)
    requires Rings(h) && Empty(h, i, k) && l < CLASSES
    requires h.slabs[h.caches[i].ring[k]].cls < CLASSES
    ensures RingOk(UnlinkEffect(h, i, k), l)
  {
    assert RingOk(h, i) && RingOk(h, l);
  }

  lemma UnlinkRings(h: HeapView, i: nat, k: nat)
    requires Rings(h) && Empty(h, i, k)
    ensures RingOk(h, i)
    ensures Rings(UnlinkEffect(h, i, k))
  {
    assert RingOk(h, i);
    var ring := h.caches[i].ring;
    var after := UnlinkEffect(h, i, k);
    forall l | 0 <= l < CLASSES ensures RingOk(after, l) { UnlinkRing(h, i, k, l); }
    hide RingOk;
    forall q <- after.slabs ensures q in after.caches[after.slabs[q].cls].ring {
      var l := h.slabs[q].cls;
      var n :| 0 <= n < |h.caches[l].ring| && h.caches[l].ring[n] == q;
      if l == i {
        assert q == Without(ring, k)[if n < k then n else n - 1];
      }
    }
  }

  lemma UnlinkTotal(h: HeapView, i: nat, k: nat, l: nat)
    requires Rings(h) && Totals(h) && Empty(h, i, k) && l < CLASSES
    requires var s := h.slabs[h.caches[i].ring[k]]; s.cls < CLASSES && s.free == Count(s)
    requires Rings(UnlinkEffect(h, i, k))
    ensures var after := UnlinkEffect(h, i, k);
            && after.caches[l].free == SumFree(after.slabs, after.caches[l].ring)
            && after.caches[l].using == SumUsing(after.slabs, after.caches[l].ring)
  {
    var p := h.caches[i].ring[k];
    var after := UnlinkEffect(h, i, k);
    assert RingOk(h, l) && RingOk(after, l);
    if l == i { SumWithout(h.slabs, h.caches[i].ring, k); }
    SumSame(h.slabs, after.slabs, after.caches[l].ring);
  }

  lemma UnlinkTotals(h: HeapView, i: nat, k: nat)
    requires Slabs(h) && Rings(h) && Totals(h) && Empty(h, i, k)
    requires Rings(UnlinkEffect(h, i, k))
    ensures Totals(UnlinkEffect(h, i, k))
  {
    forall l | 0 <= l < |UnlinkEffect(h, i, k).caches|
      ensures var after := UnlinkEffect(h, i, k);
              && after.caches[l].free == SumFree(after.slabs, after.caches[l].ring)
              && after.caches[l].using == SumUsing(after.slabs, after.caches[l].ring)
    {
      UnlinkTotal(h, i, k, l);
    }
  }

  /** No block in use lies on the page of an empty slab. */
  lemma EmptyPage(h: HeapView, p: nat, a: nat)
    requires Slabs(h) && Blocks(h) && p in h.slabs && h.slabs[p].using == 0 && IsBlock(h, a)
    ensures Housed(h, a) && PageOf(a) != p
  {
    var q := PageOf(a);
    assert Housed(h, a);
    AllClear(h.slabs[p].bits, Count(h.slabs[p]));
    BlockBit(h, q, IndexOf(a, h.slabs[q].cls));
  }

  lemma UnlinkSameBlocks(h: HeapView, i: nat, k: nat)
    requires MetaComplete(h) && Empty(h, i, k) && h.slabs[h.caches[i].ring[k]].cls < CLASSES
    ensures forall a :: IsBlock(UnlinkEffect(h, i, k), a) <==> IsBlock(h, a)
  {}

  lemma UnlinkBlocks(h: HeapView, i: nat, k: nat)
    requires Slabs(h) && Blocks(h) && MetaComplete(h) && Empty(h, i, k)
    ensures Slabs(UnlinkEffect(h, i, k)) && Blocks(UnlinkEffect(h, i, k))
  {
    var p := h.caches[i].ring[k];
    var after := UnlinkEffect(h, i, k);
    UnlinkSameBlocks(h, i, k);
    forall q, j | q in after.slabs && 0 <= j < Count(after.slabs[q])
      ensures after.slabs[q].bits[j] <==> IsBlock(after, At(after, q, j))
    {
      BlockBit(h, q, j);
    }
    forall a | IsBlock(after, a) ensures Housed(after, a) { EmptyPage(h, p, a); }
  }

  lemma UnlinkMetaSmall(h: HeapView, i: nat, k: nat)
    requires Slabs(h) && Blocks(h) && MetaSmall(h) && Empty(h, i, k)
    ensures MetaSmall(UnlinkEffect(h, i, k))
  {
    var after := UnlinkEffect(h, i, k);
    forall a <- after.meta
      ensures a !in after.live && Housed(after, a) && after.slabs[PageOf(a)].cls < FIRST_LARGE
    {
      EmptyPage(h, h.caches[i].ring[k], a);
    }
  }

  lemma UnlinkMetaOwned(h: HeapView, i: nat, k: nat)
    requires MetaOwned(h) && MetaComplete(h) && Empty(h, i, k)
    requires h.slabs[h.caches[i].ring[k]].cls < CLASSES && !h.slabs[h.caches[i].ring[k]].boot
    requires h.slabs[h.caches[i].ring[k]].cls == i
    ensures MetaOwned(UnlinkEffect(h, i, k)) && MetaComplete(UnlinkEffect(h, i, k))
  {}

  lemma UnlinkMetaRoom(h: HeapView, i: nat, k: nat)
    requires MetaRoom(h) && Empty(h, i, k) && h.slabs[h.caches[i].ring[k]].cls < CLASSES
    requires MetaSmall(UnlinkEffect(h, i, k)) && MetaComplete(UnlinkEffect(h, i, k))
    ensures MetaRoom(UnlinkEffect(h, i, k))
  {
    var after := UnlinkEffect(h, i, k);
    forall p <- after.slabs | IsLarge(after.slabs[p]) && after.slabs[p].cls < CLASSES
      ensures BlockHolds(after, after.slabs[p].address, 72)
      ensures BlockHolds(after, after.slabs[p].mapAddress, (Count(after.slabs[p]) + 63) / 64 * 8)
    {
      assert Housed(after, after.slabs[p].address) && Housed(after, after.slabs[p].mapAddress);
    }
  }

  /** Unlinking an empty slab keeps everything in step; its metadata become the caller's to free. */
  lemma UnlinkKeepsValid(h: HeapView, i: nat, k: nat)
    requires Valid(h) && Empty(h, i, k)
    ensures RingOk(h, i)
    ensures Valid(UnlinkEffect(h, i, k))
    ensures var s := h.slabs[h.caches[i].ring[k]];
            IsLarge(s) ==> var after := UnlinkEffect(h, i, k);
              SmallBlock(after, s.address) && SmallBlock(after, s.mapAddress) && s.address != s.mapAddress
  {
    UnlinkRings(h, i, k);
    UnlinkTotals(h, i, k);
    UnlinkBlocks(h, i, k);
    UnlinkMetaSmall(h, i, k);
    UnlinkMetaOwned(h, i, k);
    UnlinkMetaRoom(h, i, k);
    UnlinkedMetadata(h, i, k);
  }

  lemma UnlinkedMetadata(h: HeapView, i: nat, k: nat)
    requires Slabs(h) && Blocks(h) && MetaSmall(h) && MetaComplete(h) && Empty(h, i, k)
    ensures var s := h.slabs[h.caches[i].ring[k]];
            IsLarge(s) ==> var after := UnlinkEffect(h, i, k);
              SmallBlock(after, s.address) && SmallBlock(after, s.mapAddress) && s.address != s.mapAddress
  {
    hide Blocks, Counted, Shape;
    var p := h.caches[i].ring[k];
    var s := h.slabs[p];
    if IsLarge(s) {
      EmptyPage(h, p, s.address);
      EmptyPage(h, p, s.mapAddress);
    }
  }

  // ---- what the layout promises

  /** The class size of a block in use. */
  ghost function BlockSize(h: HeapView, a: nat): nat
    requires Slabs(h) && Housed(h, a)
  {
    Size(h.slabs[PageOf(a)].cls)
  }

  /** The last byte of a block lies in the same 2 MB page as the first, before any in-page header. */
  lemma BlockInside(h: HeapView, a: nat)
    requires Valid(h) && IsBlock(h, a)
    ensures Housed(h, a) && var s := h.slabs[PageOf(a)];
            && Base(PageOf(a)) <= a
            && a + BlockSize(h, a) <= Base(PageOf(a)) + Room(s.cls, s.boot) <= Base(PageOf(a)) + PAGE_2M
            && (!s.boot && s.cls < FIRST_LARGE ==>
                  && a + BlockSize(h, a) <= s.address
                  && s.address + SLAB_STRUCT == s.mapAddress
                  && s.mapAddress + |s.bits| / 8 <= Base(PageOf(a)) + PAGE_2M)
  {
    var p := PageOf(a);
    var s := h.slabs[p];
    BlockFits(s.cls, s.boot, IndexOf(a, s.cls));
  }

  /** In short: first and last byte of a block are on the page of its slab. */
  lemma BlockOnPage(h: HeapView, a: nat)
    requires Valid(h) && IsBlock(h, a)
    ensures Slabs(h) && Housed(h, a) && PageOf(a) in h.slabs && h.slabs[PageOf(a)].cls < CLASSES
    ensures Base(PageOf(a)) <= a && a + BlockSize(h, a) <= Base(PageOf(a)) + PAGE_2M
    ensures a % BlockSize(h, a) == 0
  {
    BlockInside(h, a);
    BlocksAligned(h, a);
  }

  lemma Separate(size: nat, i: nat, j: nat)
    requires i < j
    ensures size * i + size <= size * j
  {
    Monotone(size, i + 1, j);
    assert size * (i + 1) == size * i + size;
  }

  /** Two blocks in use never share a byte, whichever classes they come from. */
  lemma BlocksDisjoint(h: HeapView, a: nat, b: nat)
    requires Valid(h) && IsBlock(h, a) && IsBlock(h, b) && a != b
    ensures Housed(h, a) && Housed(h, b)
    ensures a + BlockSize(h, a) <= b || b + BlockSize(h, b) <= a
  {
    BlockInside(h, a);
    BlockInside(h, b);
    var p, q := PageOf(a), PageOf(b);
    if p == q {
      var size := Size(h.slabs[p].cls);
      var i, j := IndexOf(a, h.slabs[p].cls), IndexOf(b, h.slabs[p].cls);
      if i < j { Separate(size, i, j); } else { Separate(size, j, i); }
    } else if p < q {
      assert Base(p) + PAGE_2M <= Base(q);
    } else {
      assert Base(q) + PAGE_2M <= Base(p);
    }
  }

  /** Every block in use is aligned to its class size. */
  lemma BlocksAligned(h: HeapView, a: nat)
    requires Valid(h) && IsBlock(h, a)
    ensures Housed(h, a) && a % BlockSize(h, a) == 0
  {
    var p := PageOf(a);
    BlockAligned(p, h.slabs[p].cls, IndexOf(a, h.slabs[p].cls));
  }

  const STACK_SIZE := 32768

  lemma MaskAligned(a: nat, rsp: nat)
    requires a % STACK_SIZE == 0 && a < rsp < a + STACK_SIZE
    ensures rsp - rsp % STACK_SIZE == a
  {}

  /** get_current: masking any stack pointer strictly inside a 32 KB task block gives its base. */
  lemma CurrentFromStack(h: HeapView, a: nat, rsp: nat)
    requires Valid(h) && IsBlock(h, a) && Housed(h, a) && BlockSize(h, a) == STACK_SIZE
    requires a < rsp < a + STACK_SIZE
    ensures rsp - rsp % STACK_SIZE == a
  {
    BlocksAligned(h, a);
    MaskAligned(a, rsp);
  }

  // ---- finding a free block

  lemma RingSlab(h: HeapView, i: nat, k: nat)
    requires Slabs(h) && Rings(h) && i < CLASSES && k < |h.caches[i].ring|
    ensures var p := h.caches[i].ring[k];
            && p in h.slabs && h.slabs[p].cls == i && Shape(p, h.slabs[p]) && Counted(h.slabs[p])
            && (h.slabs[p].boot <==> k == 0)
  {
    assert RingOk(h, i);
  }

  lemma {:induction false} SumOfZeros(slabs: map<nat, SlabView>, ring: seq<nat>)
    requires forall k :: 0 <= k < |ring| && ring[k] in slabs ==> slabs[ring[k]].free == 0
    ensures SumFree(slabs, ring) == 0
  {
    if ring != [] { SumOfZeros(slabs, ring[..|ring| - 1]); }
  }

  /** A class whose total is not zero has a slab with a free block. */
  lemma SomeFree(h: HeapView, i: nat)
    requires Rings(h) && Totals(h) && i < CLASSES && h.caches[i].free != 0
    ensures RingOk(h, i)
    ensures exists k :: 0 <= k < |h.caches[i].ring| && h.slabs[h.caches[i].ring[k]].free != 0
  {
    assert RingOk(h, i);
    if forall k :: 0 <= k < |h.caches[i].ring| ==> h.slabs[h.caches[i].ring[k]].free == 0 {
      SumOfZeros(h.slabs, h.caches[i].ring);
    }
  }

  /** No slab before place k of the ring of class i has a free block. */
  ghost predicate FullBefore(h: HeapView, i: nat, k: nat) {
    && i < |h.caches| && k < |h.caches[i].ring|
    && forall l :: 0 <= l < k ==> h.caches[i].ring[l] in h.slabs && h.slabs[h.caches[i].ring[l]].free == 0
  }

  /** The block a is in the slab at place k, and so is none before it in that slab. */
  ghost predicate FirstAt(h: HeapView, i: nat, k: nat, a: nat) {
    && FullBefore(h, i, k) && h.caches[i].ring[k] == PageOf(a) && Housed(h, a)
    && forall j: nat :: j < IndexOf(a, h.slabs[PageOf(a)].cls) ==> IsBlock(h, At(h, PageOf(a), j))
  }

  /** Of the blocks of class i, in the order of the ring and in a slab by address, all before a are in use. */
  ghost predicate Lowest(h: HeapView, i: nat, a: nat) {
    exists k: nat :: FirstAt(h, i, k, a)
  }

  lemma {:induction false} ZeroSum(slabs: map<nat, SlabView>, ring: seq<nat>)
    requires forall k :: 0 <= k < |ring| ==> ring[k] in slabs && slabs[ring[k]].free >= 0
    ensures SumFree(slabs, ring) >= 0
    ensures SumFree(slabs, ring) == 0 ==> forall k :: 0 <= k < |ring| ==> slabs[ring[k]].free == 0
  {
    if ring != [] { ZeroSum(slabs, ring[..|ring| - 1]); }
  }

  lemma NoneFreeOnRing(h: HeapView, i: nat)
    requires Slabs(h) && Rings(h) && Totals(h) && i < CLASSES && h.caches[i].free == 0
    ensures forall k :: 0 <= k < |h.caches[i].ring| ==>
              h.caches[i].ring[k] in h.slabs && h.slabs[h.caches[i].ring[k]].free == 0
  {
    var ring := h.caches[i].ring;
    forall k | 0 <= k < |ring| ensures ring[k] in h.slabs && h.slabs[ring[k]].free >= 0 { RingSlab(h, i, k); }
    ZeroSum(h.slabs, ring);
  }

  /** A new slab on a ring without a free block is the first that has one. */
  lemma LinkedFirst(was: HeapView, before: State, h: HeapView, st: State, p: nat, s: SlabView)
    requires Consistent(h, st) && Made(was, before, h, st, p, s) && h.caches[s.cls].free == 0
    ensures FullBefore(LinkEffect(h, p, s), s.cls, |h.caches[s.cls].ring|)
  {
    NoneFreeOnRing(h, s.cls);
  }

  /** The lowest clear bit of the first slab that has one. */
  lemma TakenLowest(h: HeapView, st: State, i: nat, k: nat, j: nat)
    requires Consistent(h, st) && i < CLASSES && FullBefore(h, i, k)
    requires var p := h.caches[i].ring[k];
      p in h.slabs && h.slabs[p].cls == i && j < Count(h.slabs[p]) <= |h.slabs[p].bits|
      && forall l :: 0 <= l < j ==> h.slabs[p].bits[l]
    ensures Lowest(SlotEffect(h, h.caches[i].ring[k], j, true), i, At(h, h.caches[i].ring[k], j))
  {
    var p := h.caches[i].ring[k];
    var a, after := At(h, p, j), SlotEffect(h, p, j, true);
    AtUnique(h, p, j);
    assert RingOk(h, i);
    forall l: nat | l < j ensures IsBlock(after, At(after, p, l)) { assert IsBlock(h, At(h, p, l)); }
    assert FirstAt(after, i, k, a);
  }

  // ---- pages

  /** Pages in use elsewhere stay as they are, and become no slab's page. */
  ghost predicate Kept(h: HeapView, st: State, g: HeapView, after: State) {
    && |after.bits| == |st.bits| && |after.pages| == |st.pages| && SameBounds(st.zones, after.zones)
    && forall p :: 0 <= p < |st.bits| && p < |st.pages| && st.bits[p] && p !in h.slabs ==>
         p !in g.slabs && after.bits[p] && after.pages[p] == st.pages[p]
  }

  /** Every slab is still there and serves the same class. */
  ghost predicate Extends(h: HeapView, g: HeapView) {
    forall p <- h.slabs :: p in g.slabs && g.slabs[p].cls == h.slabs[p].cls && g.slabs[p].boot == h.slabs[p].boot
  }

  // ---- sizes and classes

  /** The class kmalloc picks: the first whose size is large enough. */
  function ClassFrom(i: nat, size: nat): (cls: nat)
    requires i < CLASSES && size <= Size(CLASSES - 1)
    ensures i <= cls < CLASSES && size <= Size(cls)
    ensures cls > i ==> Size(cls - 1) < size
    decreases CLASSES - i
  {
    if size <= Size(i) then i else ClassFrom(i + 1, size)
  }

  function ClassOf(size: nat): (cls: nat)
    requires size <= Size(CLASSES - 1)
    ensures cls < CLASSES && size <= Size(cls) && (cls > 0 ==> Size(cls - 1) < size)
  {
    ClassFrom(0, size)
  }

  lemma SizesGrow(i: nat, j: nat)
    requires i < CLASSES && j < CLASSES
    ensures i <= j ==> Size(i) <= Size(j)
  {}

  lemma PickedClass(i: nat, size: nat)
    requires size <= Size(CLASSES - 1) && i <= ClassOf(size) && size <= Size(i)
    ensures i == ClassOf(size)
  {
    if i < ClassOf(size) { SizesGrow(i, ClassOf(size) - 1); }
  }

  lemma SmallRequest(size: nat)
    requires size <= 512
    ensures ClassOf(size) < FIRST_LARGE
  {
    assert Size(4) == 512;
    var i := ClassOf(size);
    if i > 0 { SizesGrow(4, i - 1); }
  }

  /** How deep kmalloc can recurse for a request. */
  ghost function Depth(size: nat): nat {
    if size <= 512 then 0 else 1
  }

  /** Only requests beyond 512 bytes are of classes that ask for metadata, and that is of at most 512 bytes. */
  lemma DepthOfClass(size: nat)
    requires size <= Size(CLASSES - 1)
    ensures Depth(size) == 0 <==> ClassOf(size) < FIRST_LARGE
    ensures ClassOf(size) >= FIRST_LARGE ==> Depth(SLAB_STRUCT) == 0 && Depth(MapBytes(ClassOf(size))) == 0
  {
    assert Size(4) == 512;
    if size <= 512 {
      SmallRequest(size);
    } else {
      SizesGrow(ClassOf(size), 4);
    }
  }

  /** The length in bytes of the colour map of a slab from 1024 on. */
  function MapBytes(cls: nat): (n: nat)
    requires FIRST_LARGE <= cls < CLASSES
    ensures 0 < n <= 256
  {
    assert PAGE_2M / Size(cls) <= 2048;
    8 * MapWords(Capacity(cls, false))
  }

  /** Slab structures come from a class up to 512, whose slabs keep theirs in the page. */
  ghost function StructClass(): (cls: nat)
    ensures cls < FIRST_LARGE
  {
    SmallRequest(SLAB_STRUCT);
    ClassOf(SLAB_STRUCT)
  }

  /** So do colour maps: the recursion of kmalloc stops after one level. */
  ghost function MapClass(cls: nat): (c: nat)
    requires FIRST_LARGE <= cls < CLASSES
    ensures c < FIRST_LARGE
  {
    SmallRequest(MapBytes(cls));
    ClassOf(MapBytes(cls))
  }

  // ---- composing steps

  lemma KeptTrans(h: HeapView, st: State, g: HeapView, mid: State, f: HeapView, after: State)
    requires Kept(h, st, g, mid) && Kept(g, mid, f, after)
    ensures Kept(h, st, f, after)
  {}

  /** A step that moves blocks but neither slabs nor pages. */
  lemma SlotKept(h: HeapView, p: nat, j: nat, v: bool, st: State)
    requires p in h.slabs && h.slabs[p].cls < |h.caches| && h.slabs[p].cls < CLASSES && j < |h.slabs[p].bits|
    ensures Kept(h, st, SlotEffect(h, p, j, v), st) && Extends(h, SlotEffect(h, p, j, v))
    ensures Owned(h, st) ==> Owned(SlotEffect(h, p, j, v), st)
  {}

  /** The page of a new slab is taken, and not yet any slab's. */
  ghost predicate PageReady(h: HeapView, st: State, p: nat) {
    && p !in h.slabs && p < |st.bits| && p < |st.pages| && |st.zones| > 0 && InZone(st.zones[0], p)
    && st.bits[p] && st.pages[p].refs == 1
  }

  lemma LinkOwned(h: HeapView, st: State, p: nat, s: SlabView)
    requires Owned(h, st) && PageReady(h, st, p) && s.cls < |h.caches| && s.cls < CLASSES
    ensures Owned(LinkEffect(h, p, s), st) && Extends(h, LinkEffect(h, p, s))
  {}

  lemma UnlinkOwned(h: HeapView, st: State, i: nat, k: nat)
    requires Owned(h, st) && Empty(h, i, k) && h.slabs[h.caches[i].ring[k]].cls < CLASSES
    ensures Owned(UnlinkEffect(h, i, k), st) && PageReady(UnlinkEffect(h, i, k), st, h.caches[i].ring[k])
  {}

  lemma ReadyKept(h: HeapView, st: State, g: HeapView, after: State, p: nat)
    requires PageReady(h, st, p) && Kept(h, st, g, after)
    ensures PageReady(g, after, p)
  {}

  lemma TakenReady(h: HeapView, st: State, after: State, p: nat)
    requires Owned(h, st) && Sound(after) && Taken(st, after, 0, p)
    ensures Owned(h, after) && PageReady(h, after, p) && Kept(h, st, h, after)
  {}

  /** The page just granted to somebody else is no slab's, and the slabs keep theirs. */
  lemma GrantedKept(h: HeapView, st: State, after: State, p: nat)
    requires Consistent(h, st) && Sound(after) && Granted(st, after, 0, p)
    ensures Consistent(h, after) && Kept(h, st, h, after) && p !in h.slabs
  {}

  lemma SmallBlockKept(h: HeapView, g: HeapView, a: nat)
    requires SmallBlock(h, a) && Extends(h, g) && a in g.live && Slabs(g) && Blocks(g)
    ensures SmallBlock(g, a)
  {
    assert IsBlock(g, a);
  }

  ghost predicate BlocksKept(h: HeapView, g: HeapView) {
    forall a :: IsBlock(h, a) ==> IsBlock(g, a)
  }

  /** Slabs may have joined the rings, each behind those that stood there. */
  ghost predicate RingsGrow(h: HeapView, g: HeapView) {
    |g.caches| == |h.caches| && forall i :: 0 <= i < |h.caches| ==> h.caches[i].ring <= g.caches[i].ring
  }

  /** kmalloc has handed out block a of class cls: new to the caller, everything else still in place. */
  ghost predicate Allocated(h: HeapView, st: State, g: HeapView, after: State, cls: nat, a: nat) {
    && Extends(h, g) && Kept(h, st, g, after) && BlocksKept(h, g)
    && !IsBlock(h, a) && g.live == h.live + {a} && RingsGrow(h, g)
    && Housed(g, a) && g.slabs[PageOf(a)].cls == cls
  }

  /** Pages and slabs may have been added, but no block has changed hands. */
  ghost predicate Prepared(h: HeapView, st: State, g: HeapView, after: State) {
    Extends(h, g) && Kept(h, st, g, after) && BlocksKept(h, g) && g.live == h.live && RingsGrow(h, g)
  }

  /** kmalloc_create has made slab s on page p, with the metadata blocks still in the caller's hands. */
  ghost predicate Made(h: HeapView, st: State, g: HeapView, after: State, p: nat, s: SlabView) {
    && NewSlab(g, p, s) && PageReady(g, after, p) && p < |st.bits| && !st.bits[p]
    && Extends(h, g) && Kept(h, st, g, after) && BlocksKept(h, g)
    && g.live == (if IsLarge(s) then h.live + {s.address, s.mapAddress} else h.live) && RingsGrow(h, g)
    && (IsLarge(s) ==> !IsBlock(h, s.address) && !IsBlock(h, s.mapAddress))
  }

  /** What taking block j of page p amounts to for a caller. */
  lemma TakeStep(h: HeapView, st: State, p: nat, j: nat)
    requires Consistent(h, st) && p in h.slabs && j < Count(h.slabs[p]) && !h.slabs[p].bits[j]
    ensures Consistent(SlotEffect(h, p, j, true), st)
    ensures Allocated(h, st, SlotEffect(h, p, j, true), st, h.slabs[p].cls, At(h, p, j))
  {
    SlotKeepsValid(h, p, j, true);
    SlotKept(h, p, j, true, st);
    BlockBit(h, p, j);
    AtUnique(h, p, j);
  }

  lemma TakeAfter(h: HeapView, st: State, g: HeapView, mid: State, f: HeapView, cls: nat, a: nat)
    requires Prepared(h, st, g, mid) && Allocated(g, mid, f, mid, cls, a)
    ensures Allocated(h, st, f, mid, cls, a)
  {
    KeptTrans(h, st, g, mid, f, mid);
  }

  lemma NothingYet(h: HeapView, st: State)
    ensures Prepared(h, st, h, st)
  {}

  lemma LinkPrepared(h: HeapView, st: State, g: HeapView, after: State, p: nat, s: SlabView)
    requires Made(h, st, g, after, p, s) && |g.caches| == CLASSES
    ensures Prepared(h, st, LinkEffect(g, p, s), after)
  {
    assert Extends(h, LinkEffect(g, p, s));
    assert Kept(h, st, LinkEffect(g, p, s), after);
  }

  /** Linking the slab kmalloc_create returned completes its preparation. */
  lemma GrowStep(h: HeapView, st: State, g: HeapView, after: State, p: nat, s: SlabView)
    requires Consistent(g, after) && Made(h, st, g, after, p, s)
    ensures |g.caches| == CLASSES && Consistent(LinkEffect(g, p, s), after)
    ensures Prepared(h, st, LinkEffect(g, p, s), after)
  {
    LinkKeepsValid(g, p, s);
    LinkOwned(g, after, p, s);
    LinkPrepared(h, st, g, after, p, s);
  }

  /** A colour map as kmalloc_create sets it up. */
  ghost predicate BlankMap(bits: seq<bool>, count: nat) {
    |bits| == 64 * MapWords(count) && forall i :: 0 <= i < |bits| ==> bits[i] == (i >= count)
  }

  ghost predicate Blank(s: SlabView, cls: nat) {
    && s.cls == cls < CLASSES && !s.boot && s.using == 0 && s.free == Count(s) && BlankMap(s.bits, Count(s))
  }

  lemma BlankCounted(s: SlabView, cls: nat)
    requires Blank(s, cls)
    ensures Counted(s)
  {
    ClearAll(s.bits, 0, Count(s));
  }

  lemma MadeSmall(h: HeapView, st: State, after: State, p: nat, s: SlabView, cls: nat)
    requires Consistent(h, st) && Sound(after) && Taken(st, after, 0, p) && Blank(s, cls) && cls < FIRST_LARGE
    requires s.address == Base(p) + Room(cls, false) && s.mapAddress == s.address + SLAB_STRUCT
    ensures Consistent(h, after) && Made(h, st, h, after, p, s)
  {
    BlankCounted(s, cls);
    TakenReady(h, st, after, p);
  }

  /** The structure block is still in place once the map block has been allocated. */
  lemma StillSmall(h: HeapView, st: State, g: HeapView, mid: State, f: HeapView, after: State,
                   c1: nat, a1: nat, c2: nat, a2: nat)
    requires Allocated(h, st, g, mid, c1, a1) && c1 < FIRST_LARGE
    requires Allocated(g, mid, f, after, c2, a2) && Consistent(f, after)
    ensures SmallBlock(f, a1)
  {
    SmallBlockKept(g, f, a1);
  }

  /** Page p has just been taken for a slab. */
  ghost predicate PageTaken(h: HeapView, st: State, after: State, p: nat) {
    PageReady(h, after, p) && Kept(h, st, h, after) && p < |st.bits| && !st.bits[p]
  }

  lemma TakenKept(h: HeapView, st: State, after: State, p: nat)
    requires Consistent(h, st) && Sound(after) && Taken(st, after, 0, p)
    ensures Consistent(h, after) && PageTaken(h, st, after, p)
  {
    TakenReady(h, st, after, p);
  }

  lemma TakenPageFresh(h: HeapView, st: State, after: State, p: nat)
    requires PageTaken(h, st, after, p)
    ensures p !in h.slabs
  {}

  lemma PagesSound(h: HeapView, st: State)
    requires Consistent(h, st)
    ensures WellFormed(st) && Sound(st)
  {}

  lemma LargeReady(h: HeapView, st: State, st1: State, p: nat, g: HeapView, mid: State, f: HeapView, after: State,
                   a1: nat, cls: nat, a2: nat)
    requires PageTaken(h, st, st1, p) && FIRST_LARGE <= cls < CLASSES && Consistent(f, after)
    requires Allocated(h, st1, g, mid, StructClass(), a1) && Allocated(g, mid, f, after, MapClass(cls), a2)
    ensures SmallBlock(f, a1) && PageReady(f, after, p) && p !in f.slabs
  {
    StillSmall(h, st1, g, mid, f, after, StructClass(), a1, MapClass(cls), a2);
    ReadyKept(h, st1, g, mid, p);
    ReadyKept(g, mid, f, after, p);
  }

  lemma MetadataFit(cls: nat)
    requires FIRST_LARGE <= cls < CLASSES
    ensures Size(StructClass()) >= 72 && Size(MapClass(cls)) >= (Capacity(cls, false) + 63) / 64 * 8
  {}

  /** The page, then the block for the structure, then the block for the map. */
  lemma MadeLarge(h: HeapView, st: State, st1: State, p: nat, g: HeapView, mid: State, f: HeapView, after: State,
                  s: SlabView, cls: nat)
    requires PageTaken(h, st, st1, p) && FIRST_LARGE <= cls < CLASSES && Blank(s, cls)
    requires Allocated(h, st1, g, mid, StructClass(), s.address) && SmallBlock(f, s.address)
    requires Allocated(g, mid, f, after, MapClass(cls), s.mapAddress) && PageReady(f, after, p)
    ensures Made(h, st, f, after, p, s)
  {
    MetadataFit(cls);
    BlankCounted(s, cls);
    hide StructClass, MapClass, Size;
    KeptTrans(h, st, h, st1, g, mid);
    KeptTrans(h, st, g, mid, f, after);
  }

  /** The free pages of zone 0, the only zone kmalloc draws on. */
  ghost function FreePages(st: State): int {
    if |st.zones| > 0 then st.zones[0].free else 0
  }

  // ---- what an allocation costs

  /** The free blocks of each class and the free pages of zone 0. */
  datatype Stock = Stock(free: seq<int>, pages: int)

  /** What a stock answers to a request: a block, NULL, or a slab that lacks its metadata. */
  datatype Drawn = Got(left: Stock) | Nothing | Broke(left: Stock)

  ghost function StockOf(h: HeapView, st: State): (k: Stock)
    ensures |k.free| == |h.caches|
  {
    Stock(seq(|h.caches|, i requires 0 <= i < |h.caches| => h.caches[i].free), FreePages(st))
  }

  ghost function More(k: Stock, cls: nat, d: int): (r: Stock)
    requires cls < |k.free|
    ensures |r.free| == |k.free|
  {
    k.(free := k.free[cls := k.free[cls] + d])
  }

  /** A block of class cls. */
  ghost function Draw(k: Stock, cls: nat): (d: Drawn)
    requires |k.free| == CLASSES && cls < CLASSES
    ensures d.Got? ==> |d.left.free| == CLASSES
    decreases cls, 3
  {
    if k.free[cls] != 0 then Got(More(k, cls, -1))
    else
      match Provision(k, cls)
      case Got(left) => Got(More(left, cls, Capacity(cls, false) - 1))
      case other => other
  }

  /** The page of a new slab of class cls, and its metadata. */
  ghost function Provision(k: Stock, cls: nat): (d: Drawn)
    requires |k.free| == CLASSES && cls < CLASSES
    ensures d.Got? ==> |d.left.free| == CLASSES
    decreases cls, 2
  {
    if k.pages == 0 then Nothing
    else if cls < FIRST_LARGE then Got(k.(pages := k.pages - 1))
    else DrawMetadata(k.(pages := k.pages - 1), cls)
  }

  /** The blocks for structure and map of a slab from 1024 on. */
  ghost function DrawMetadata(k: Stock, cls: nat): (d: Drawn)
    requires |k.free| == CLASSES && FIRST_LARGE <= cls < CLASSES
    ensures d.Got? ==> |d.left.free| == CLASSES
    ensures !d.Nothing?
    decreases cls, 1
  {
    match Draw(k, StructClass())
    case Got(left) => DrawMap(left, cls)
    case other => Broke(k)
  }

  ghost function DrawMap(k: Stock, cls: nat): (d: Drawn)
    requires |k.free| == CLASSES && FIRST_LARGE <= cls < CLASSES
    ensures d.Got? ==> |d.left.free| == CLASSES
    ensures !d.Nothing?
    decreases cls, 0
  {
    match Draw(k, MapClass(cls))
    case Got(left) => Got(left)
    case other => Broke(k)
  }

  /** The answer given and the stock left are those of d. */
  ghost predicate Answers(none: bool, fault: bool, d: Drawn, after: Stock) {
    match d
    case Got(left) => !none && !fault && after == left
    case Nothing => none && !fault
    case Broke(left) => !none && fault && after == left
  }

  /** The same before the block is marked: class cls has a free block, the one d has given out. */
  ghost predicate Drawable(none: bool, fault: bool, d: Drawn, after: Stock, cls: nat) {
    match d
    case Got(left) => !none && !fault && cls < |after.free| && left == More(after, cls, -1)
    case Nothing => none && !fault
    case Broke(left) => !none && fault && after == left
  }

  /** A class without free blocks: what Provision answers decides, and the new slab's blocks join the stock. */
  lemma MoreTwice(k: Stock, cls: nat, d: int)
    requires cls < |k.free|
    ensures More(More(k, cls, d), cls, -1) == More(k, cls, d - 1)
  {}

  lemma GrowDraw(k: Stock, cls: nat, none: bool, fault: bool, mid: Stock)
    requires |k.free| == CLASSES && cls < CLASSES && k.free[cls] == 0
    requires Answers(none, fault, Provision(k, cls), mid)
    ensures none || fault ==> Drawable(none, fault, Draw(k, cls), mid, cls)
    ensures !none && !fault ==>
              |mid.free| == CLASSES && Drawable(false, false, Draw(k, cls), More(mid, cls, Capacity(cls, false)), cls)
  {
    hide Provision, Capacity;
    if !none && !fault { MoreTwice(mid, cls, Capacity(cls, false)); }
  }

  /** A slab is made without a block of its own class. */
  lemma ProvisionElsewhere(k: Stock, cls: nat, after: Stock)
    requires |k.free| == CLASSES && cls < CLASSES && k.pages >= 0 && Answers(false, false, Provision(k, cls), after)
    ensures |after.free| == CLASSES && after.free[cls] == k.free[cls]
  {
    if cls >= FIRST_LARGE && k.pages > 0 { DrawMetadataExactly(k.(pages := k.pages - 1), cls); }
  }

  /** The pages the metadata of a new slab from 1024 on take. */
  ghost function Need(k: Stock, cls: nat): nat
    requires |k.free| == CLASSES && FIRST_LARGE <= cls < CLASSES
  {
    (if k.free[StructClass()] == 0 then 1 else 0) +
    (if k.free[MapClass(cls)] == (if MapClass(cls) == StructClass() then 1 else 0) then 1 else 0)
  }

  /** The pages an allocation without a free block in its class takes. */
  ghost function Price(k: Stock, cls: nat): nat
    requires |k.free| == CLASSES && cls < CLASSES
  {
    if cls < FIRST_LARGE then 1 else 1 + Need(k, cls)
  }

  /** Classes up to 512 take one page at most, and then have blocks left. */
  lemma {:induction false} DrawSmall(k: Stock, cls: nat)
    requires |k.free| == CLASSES && cls < FIRST_LARGE
    ensures Draw(k, cls) ==
            if k.free[cls] != 0 then Got(More(k, cls, -1))
            else if k.pages == 0 then Nothing
            else Got(More(k.(pages := k.pages - 1), cls, Capacity(cls, false) - 1))
    ensures Capacity(cls, false) > 1
  {
    SizeCases(cls);
  }

  lemma {:induction false} DrawMetadataExactly(k: Stock, cls: nat)
    requires |k.free| == CLASSES && FIRST_LARGE <= cls < CLASSES && k.pages >= 0
    ensures DrawMetadata(k, cls).Broke? <==> k.pages < Need(k, cls)
    ensures DrawMetadata(k, cls).Broke? ==> DrawMetadata(k, cls).left.pages == 0
    ensures DrawMetadata(k, cls).Got? ==> DrawMetadata(k, cls).left.pages == k.pages - Need(k, cls)
    ensures DrawMetadata(k, cls).Got? ==> DrawMetadata(k, cls).left.free[cls] == k.free[cls]
  {
    DrawSmall(k, StructClass());
    if Draw(k, StructClass()).Got? {
      hide Draw;
      DrawSmall(Draw(k, StructClass()).left, MapClass(cls));
    }
  }

  /**
   When the class has no free block and zone 0 has some pages but fewer than the new slab and its metadata
   take, kmalloc faults, with the last page gone. It returns NULL only when there is no page at all.
   */
  lemma {:induction false} DrawExactly(k: Stock, cls: nat)
    requires |k.free| == CLASSES && cls < CLASSES && k.pages >= 0
    ensures Draw(k, cls).Nothing? <==> k.free[cls] == 0 && k.pages == 0
    ensures Draw(k, cls).Broke? <==> k.free[cls] == 0 && 0 < k.pages < Price(k, cls)
    ensures Draw(k, cls).Broke? ==> Draw(k, cls).left.pages == 0
    ensures Draw(k, cls).Got? ==> Draw(k, cls).left.pages == k.pages - (if k.free[cls] != 0 then 0 else Price(k, cls))
  {
    if cls < FIRST_LARGE {
      DrawSmall(k, cls);
    } else if k.pages > 0 {
      DrawMetadataExactly(k.(pages := k.pages - 1), cls);
    }
  }

  lemma StockGranted(h: HeapView, st: State, after: State, p: nat)
    requires Granted(st, after, 0, p)
    ensures StockOf(h, after) == StockOf(h, st).(pages := StockOf(h, st).pages - 1)
  {}

  lemma StockSlot(h: HeapView, st: State, p: nat, j: nat)
    requires p in h.slabs && h.slabs[p].cls < |h.caches| && h.slabs[p].cls < CLASSES && j < |h.slabs[p].bits|
    ensures StockOf(SlotEffect(h, p, j, true), st) == More(StockOf(h, st), h.slabs[p].cls, -1)
  {}

  lemma StockLink(h: HeapView, st: State, p: nat, s: SlabView)
    requires s.cls < |h.caches| && s.cls < CLASSES
    ensures StockOf(LinkEffect(h, p, s), st) == More(StockOf(h, st), s.cls, Count(s))
  {}

  lemma StockPages(h: HeapView, st: State)
    requires Consistent(h, st)
    ensures StockOf(h, st).pages >= 0 && |StockOf(h, st).free| == CLASSES
  {}

  lemma CapacityPositive(cls: nat)
    requires cls < CLASSES
    ensures Capacity(cls, false) > 0
  {
    SizeCases(cls);
  }

  // ---- kfree

  /** What kfree does to the slab whose block j it is given: the bit is inverted, whatever it was. */
  ghost function Toggled(s: SlabView, j: nat): SlabView
    requires j < |s.bits|
  {
    s.(bits := s.bits[j := !s.bits[j]], using := s.using - 1, free := s.free + 1)
  }

  /** Counters and map agree afterwards if and only if the block was in use: a second kfree of it breaks them. */
  lemma ToggleKeepsCountIff(s: SlabView, j: nat)
    requires s.cls < CLASSES && |s.bits| == 64 * MapWords(Count(s)) && Counted(s) && j < Count(s)
    ensures Counted(Toggled(s, j)) <==> s.bits[j]
    ensures s.bits[j] ==> Toggled(s, j) == Moved(s, j, false)
  {
    ClearUpdate(s.bits, j, !s.bits[j], 0, Count(s));
  }

  /** An address whose page no slab has: kfree finds nothing and reports failure. */
  ghost predicate Foreign(h: HeapView, a: nat) {
    forall p <- h.slabs :: Base(p) != PageBase(a)
  }

  /** kfree has taken back block a; slabs may be gone, nothing else has changed. */
  ghost predicate Freed(h: HeapView, st: State, g: HeapView, after: State, a: nat) {
    && Extends(g, h) && Kept(h, st, g, after) && FreePages(after) >= FreePages(st)
    && g.live == h.live - {a}
  }

  /** Like Kept, except for page x. */
  ghost predicate KeptBut(h: HeapView, st: State, g: HeapView, after: State, x: nat) {
    && |after.bits| == |st.bits| && |after.pages| == |st.pages| && SameBounds(st.zones, after.zones)
    && forall p :: 0 <= p < |st.bits| && p < |st.pages| && st.bits[p] && p !in h.slabs && p != x ==>
         p !in g.slabs && after.bits[p] && after.pages[p] == st.pages[p]
  }

  /** Page p is free again, all else as before. */
  ghost predicate PageBack(h: HeapView, st: State, after: State, p: nat) {
    KeptBut(h, st, h, after, p) && FreePages(after) == FreePages(st) + 1 && p < |after.bits| && !after.bits[p]
  }

  lemma GivenBack(h: HeapView, st: State, after: State, p: nat)
    requires Consistent(h, st) && Sound(after) && Given(st, after, 0, p) && p !in h.slabs
    ensures Consistent(h, after) && PageBack(h, st, after, p)
  {}

  /** Before anything is reclaimed. */
  lemma ReleaseStep(h: HeapView, st: State, p: nat, j: nat)
    requires Consistent(h, st) && p in h.slabs && j < Count(h.slabs[p]) && At(h, p, j) in h.live
    ensures h.slabs[p].bits[j] && Consistent(SlotEffect(h, p, j, false), st)
    ensures Freed(h, st, SlotEffect(h, p, j, false), st, At(h, p, j))
    ensures ClassReleased(h, SlotEffect(h, p, j, false), h.slabs[p].cls)
  {
    hide ClassReleased;
    BlockBit(h, p, j);
    SlotKeepsValid(h, p, j, false);
    SlotKept(h, p, j, false, st);
    SlotReleases(h, p, j);
  }

  lemma SlotReleases(h: HeapView, p: nat, j: nat)
    requires p in h.slabs && h.slabs[p].cls < |h.caches| && h.slabs[p].cls < CLASSES && j < |h.slabs[p].bits|
    ensures ClassReleased(h, SlotEffect(h, p, j, false), h.slabs[p].cls)
  {}

  /** kfree locates the block it is given. */
  lemma LiveBlock(h: HeapView, st: State, a: nat)
    requires Consistent(h, st) && a in h.live
    ensures Housed(h, a) && PageBase(a) == Base(PageOf(a))
    ensures var p := PageOf(a);
            && p in h.slabs && h.slabs[p].cls < CLASSES
            && var j := IndexOf(a, h.slabs[p].cls); j < Count(h.slabs[p]) && a == At(h, p, j)
  {
    assert IsBlock(h, a);
    var p := PageOf(a);
    AddressUnique(p, h.slabs[p].cls, h.slabs[p].boot, IndexOf(a, h.slabs[p].cls));
  }

  /** 1 when freeing a can free two metadata blocks in turn. */
  ghost function FreeDepth(h: HeapView, a: nat): nat {
    if PageOf(a) in h.slabs && h.slabs[PageOf(a)].cls >= FIRST_LARGE then 1 else 0
  }

  lemma SmallDepth(h: HeapView, a: nat)
    requires SmallBlock(h, a)
    ensures FreeDepth(h, a) == 0 && a in h.live
  {}

  /** An empty slab that leaves its ring. */
  lemma UnlinkStepModel(h: HeapView, st: State, i: nat, k: nat)
    requires Consistent(h, st) && Empty(h, i, k)
    ensures RingOk(h, i)
    ensures var p := h.caches[i].ring[k]; var s, g := h.slabs[p], UnlinkEffect(h, i, k);
            && Consistent(g, st) && PageReady(g, st, p) && p in h.slabs && p !in g.slabs
            && Extends(g, h) && Kept(h, st, g, st) && s.cls == i && !s.boot && ClassShrunk(h, g, i, k)
            && (IsLarge(s) ==>
                  && SmallBlock(g, s.address) && SmallBlock(g, s.mapAddress) && s.address != s.mapAddress
                  && s.address !in h.live && s.mapAddress !in h.live
                  && g.live == h.live + {s.address, s.mapAddress})
            && (!IsLarge(s) ==> g.live == h.live)
  {
    UnlinkKeepsValid(h, i, k);
    UnlinkOwned(h, st, i, k);
  }

  lemma ExtendsTrans(h: HeapView, g: HeapView, f: HeapView)
    requires Extends(h, g) && Extends(g, f)
    ensures Extends(h, f)
  {}

  /** A small block outlives the freeing of another block. */
  lemma SmallOutlives(h: HeapView, st: State, g: HeapView, after: State, a: nat, b: nat)
    requires Consistent(g, after) && SmallBlock(h, a) && Freed(h, st, g, after, b) && a != b
    ensures SmallBlock(g, a)
  {
    hide Consistent;
    LiveBlock(g, after, a);
  }

  /** A slab has been reclaimed: its page is free, no block has changed hands. */
  ghost predicate Reclaimed(h: HeapView, st: State, g: HeapView, after: State, p: nat) {
    && Extends(g, h) && Kept(h, st, g, after) && FreePages(after) > FreePages(st) && g.live == h.live
    && p !in g.slabs
  }

  lemma ReclaimedGone(h: HeapView, st: State, g: HeapView, after: State, p: nat)
    requires Reclaimed(h, st, g, after, p)
    ensures p !in g.slabs
  {}

  lemma FreedReady(h: HeapView, st: State, g: HeapView, after: State, a: nat, p: nat)
    requires PageReady(h, st, p) && Freed(h, st, g, after, a)
    ensures PageReady(g, after, p)
  {
    ReadyKept(h, st, g, after, p);
  }

  /** The page of an unlinked slab goes back. */
  lemma ReclaimSmall(h: HeapView, st: State, g: HeapView, after: State, p: nat)
    requires p in h.slabs && p !in g.slabs && Extends(g, h) && Kept(h, st, g, st)
    requires PageBack(g, st, after, p) && g.live == h.live
    ensures Reclaimed(h, st, g, after, p)
  {}

  /** Map, page, structure: the three steps after an unlinked slab from 1024 on. */
  lemma ReclaimLarge(h: HeapView, st: State, g: HeapView, f: HeapView, st2: State, st3: State, e: HeapView, st4: State,
                     p: nat, m: nat, s: nat)
    requires p in h.slabs && p !in g.slabs && Extends(g, h) && Kept(h, st, g, st)
    requires m != s && s !in h.live && m !in h.live && g.live == h.live + {s, m}
    requires Freed(g, st, f, st2, m)
    requires PageBack(f, st2, st3, p)
    requires Freed(f, st3, e, st4, s)
    ensures Reclaimed(h, st, e, st4, p)
  {
    ExtendsTrans(e, f, g);
    ExtendsTrans(e, g, h);
    forall q | 0 <= q < |st.bits| && q < |st.pages| && st.bits[q] && q !in h.slabs
      ensures q !in e.slabs && st4.bits[q] && st4.pages[q] == st.pages[q]
    {
      assert q !in g.slabs;
      assert q !in f.slabs && st2.bits[q] && st2.pages[q] == st.pages[q];
      assert st3.bits[q] && st3.pages[q] == st2.pages[q];
    }
  }

  /** kfree reclaims the slab of page p: it empties, it is no boot slab, and the class keeps enough. */
  ghost predicate Surplus(h: HeapView, p: nat)
    requires p in h.slabs && h.slabs[p].cls < |h.caches| && h.slabs[p].cls < CLASSES
  {
    var s := h.slabs[p];
    s.using == 1 && !s.boot && h.caches[s.cls].free + 1 >= Count(s) * 3 / 2
  }

  /** The free blocks of class i on all slabs but that of page p. */
  ghost function FreeBeside(h: HeapView, i: nat, p: nat): int
    requires i < |h.caches|
  {
    SumFree(h.slabs - {p}, h.caches[i].ring)
  }

  lemma {:induction false} SumBeside(slabs: map<nat, SlabView>, ring: seq<nat>, k: nat)
    requires k < |ring| && ring[k] in slabs
    requires forall l, m :: 0 <= l < m < |ring| ==> ring[l] != ring[m]
    ensures SumFree(slabs - {ring[k]}, ring) == SumFree(slabs, ring) - slabs[ring[k]].free
  {
    var n := |ring| - 1;
    if k == n {
      SumSame(slabs, slabs - {ring[k]}, ring[..n]);
    } else {
      SumBeside(slabs, ring[..n], k);
    }
  }

  /** No block but a is in use on the slab of page p. */
  ghost predicate LastBlock(h: HeapView, p: nat, a: nat) {
    forall b :: IsBlock(h, b) && PageOf(b) == p ==> b == a
  }

  /** A slab has one block in use if and only if a is the only one on its page. */
  lemma OneLeft(h: HeapView, st: State, a: nat)
    requires Consistent(h, st) && a in h.live
    ensures PageOf(a) in h.slabs && (h.slabs[PageOf(a)].using == 1 <==> LastBlock(h, PageOf(a), a))
  {
    LiveBlock(h, st, a);
    var p := PageOf(a);
    var s, j := h.slabs[p], IndexOf(a, h.slabs[p].cls);
    BlockBit(h, p, j);
    ClearUpdate(s.bits, j, false, 0, Count(s));
    if s.using == 1 {
      var bits := s.bits[j := false];
      AllClear(bits, Count(s));
      forall b | IsBlock(h, b) && PageOf(b) == p ensures b == a {
        assert Housed(h, b) && !bits[IndexOf(b, s.cls)];
        BlockBit(h, p, IndexOf(b, s.cls));
      }
    }
    if LastBlock(h, p, a) {
      var bits := s.bits[j := false];
      forall i | 0 <= i < Count(s) ensures !bits[i] {
        BlockBit(h, p, i);
        AtUnique(h, p, i);
      }
      ClearAll(bits, 0, Count(s));
    }
  }

  /** Surplus, without the counters of the slab: the rest of the class has half a slab's blocks free. */
  lemma SurplusIff(h: HeapView, st: State, a: nat)
    requires Consistent(h, st) && a in h.live
    ensures PageOf(a) in h.slabs && h.slabs[PageOf(a)].cls < CLASSES == |h.caches|
    ensures var p := PageOf(a); var i := h.slabs[p].cls;
      && h.caches[i].ring != []
      && (Surplus(h, p) <==>
            LastBlock(h, p, a) && p != h.caches[i].ring[0] && FreeBeside(h, i, p) >= Count(h.slabs[p]) / 2)
      && FreeBeside(h, i, p) == h.caches[i].free - h.slabs[p].free
      && (Surplus(h, p) ==> h.slabs[p].free + 1 == Count(h.slabs[p]))
      && forall l, m :: 0 <= l < m < |h.caches[i].ring| ==> h.caches[i].ring[l] != h.caches[i].ring[m]
  {
    OneLeft(h, st, a);
    LiveBlock(h, st, a);
    var p := PageOf(a);
    var i := h.slabs[p].cls;
    assert RingOk(h, i);
    var k :| 0 <= k < |h.caches[i].ring| && h.caches[i].ring[k] == p;
    SumBeside(h.slabs, h.caches[i].ring, k);
    hide LastBlock;
  }

  /** The other classes have stayed; only slabs from 1024 on have blocks of classes up to 512 as metadata. */
  ghost predicate OthersAs(h: HeapView, g: HeapView, i: nat) {
    && |g.caches| == |h.caches|
    && forall c :: 0 <= c < |h.caches| && c != i && (i < FIRST_LARGE || c >= FIRST_LARGE) ==> g.caches[c] == h.caches[c]
  }

  /** The classes from 1024 on have stayed. */
  ghost predicate LargeAs(h: HeapView, g: HeapView) {
    |g.caches| == |h.caches| && forall c :: FIRST_LARGE <= c < |h.caches| ==> g.caches[c] == h.caches[c]
  }

  /** Giving a metadata block back leaves them alone. */
  lemma SettledSmall(h: HeapView, g: HeapView, a: nat)
    requires SmallBlock(h, a) && PageOf(a) in h.slabs && h.slabs[PageOf(a)].cls < CLASSES == |h.caches|
    requires Settled(h, g, a)
    ensures LargeAs(h, g)
  {}

  lemma LargeTrans(h: HeapView, f: HeapView, g: HeapView)
    requires LargeAs(h, f) && LargeAs(f, g)
    ensures LargeAs(h, g)
  {}

  lemma ShrunkStays(h: HeapView, mid: HeapView, g: HeapView, i: nat, k: nat)
    requires ClassShrunk(h, mid, i, k) && LargeAs(mid, g) && i >= FIRST_LARGE
    ensures ClassShrunk(h, g, i, k)
  {}

  /** Slab k of class i has left its ring, with all its blocks free. */
  ghost predicate ClassShrunk(h: HeapView, g: HeapView, i: nat, k: nat) {
    && i < CLASSES == |h.caches| && k < |h.caches[i].ring| && h.caches[i].ring[k] in h.slabs
    && h.slabs[h.caches[i].ring[k]].cls == i && OthersAs(h, g, i)
    && g.caches[i] == h.caches[i].(free := h.caches[i].free - Count(h.slabs[h.caches[i].ring[k]]),
                                   ring := Without(h.caches[i].ring, k))
  }

  /** p has left the ring, and the others stand as they stood. */
  ghost predicate TakenOff(ring: seq<nat>, p: nat, left: seq<nat>) {
    exists k :: 0 <= k < |ring| && ring[k] == p && left == ring[..k] + ring[k + 1..]
  }

  /**
   What kfree(a) makes of the class of a. The slab goes if and only if a was its last block, it is not the one that
   slab_init made, and the other slabs of the class have half its number of blocks free; these are what is left then.
   */
  ghost predicate Settled(h: HeapView, g: HeapView, a: nat)
    requires PageOf(a) in h.slabs && h.slabs[PageOf(a)].cls < CLASSES == |h.caches|
  {
    var p := PageOf(a);
    var i := h.slabs[p].cls;
    var others := FreeBeside(h, i, p);
    && h.caches[i].ring != [] && OthersAs(h, g, i)
    && (p !in g.slabs <==> LastBlock(h, p, a) && p != h.caches[i].ring[0] && others >= Count(h.slabs[p]) / 2)
    && g.caches[i].using == h.caches[i].using - 1
    && g.caches[i].free == (if p in g.slabs then h.caches[i].free + 1 else others)
    && if p in g.slabs then g.caches[i].ring == h.caches[i].ring else TakenOff(h.caches[i].ring, p, g.caches[i].ring)
  }

  /** A block of class i has been released, and its slab is still there. */
  ghost predicate ClassReleased(h: HeapView, g: HeapView, i: nat) {
    && i < |h.caches| && g.slabs.Keys == h.slabs.Keys && Extends(g, h)
    && g.caches == h.caches[i := h.caches[i].(using := h.caches[i].using - 1, free := h.caches[i].free + 1)]
  }

  /** mid is h with block a released, and g is that, or that without the slab if it was to spare. */
  lemma Settles(h: HeapView, st: State, a: nat, i: nat, k: nat, mid: HeapView, g: HeapView)
    requires Consistent(h, st) && a in h.live && PageOf(a) in h.slabs && h.slabs[PageOf(a)].cls == i < CLASSES
    requires |h.caches| == CLASSES && k < |h.caches[i].ring| && h.caches[i].ring[k] == PageOf(a)
    requires ClassReleased(h, mid, i)
    requires if Surplus(h, PageOf(a)) then ClassShrunk(mid, g, i, k) && PageOf(a) !in g.slabs else g == mid
    ensures Settled(h, g, a)
  {
    hide Consistent, LastBlock, FreeBeside, Surplus, Count;
    SurplusIff(h, st, a);
    SameCount(h, mid, PageOf(a));
  }

  lemma SameCount(h: HeapView, g: HeapView, p: nat)
    requires Extends(g, h) && p in g.slabs && g.slabs[p].cls < CLASSES
    ensures p in h.slabs && h.slabs[p].cls < CLASSES && Count(g.slabs[p]) == Count(h.slabs[p])
  {}

  /** Releasing the block and reclaiming its slab together. */
  lemma FreedAfter(h: HeapView, st: State, g: HeapView, f: HeapView, after: State, a: nat, p: nat)
    requires Freed(h, st, g, st, a) && Reclaimed(g, st, f, after, p)
    ensures Freed(h, st, f, after, a)
  {
    ExtendsTrans(f, g, h);
    KeptTrans(h, st, g, st, f, after);
  }
}
