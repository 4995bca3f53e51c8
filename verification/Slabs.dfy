// kmalloc and kfree: sixteen rings of slabs on top of the page allocator.
module Slabs {
  import opened Common
  import opened Words
  import opened Pages
  import opened Geometry
  import opened SlabModel

  class Slab {
    const address: nat           // where the slab structure itself lies
    const mapAddress: nat        // color_map, as an address
    const page: nat              // the index of its page structure
    const vaddress: nat
    const colorCount: nat
    const colorLength: nat
    const colorMap: array<Word>
    var usingCount: int
    var freeCount: int
    ghost const cls: nat         // the size class it serves
    ghost const boot: bool       // set up by slab_init, never reclaimed

    constructor (address: nat, mapAddress: nat, page: nat, count: nat, colorMap: array<Word>,
                 ghost cls: nat, ghost boot: bool)
      ensures this.address == address && this.mapAddress == mapAddress && this.page == page
      ensures vaddress == Base(page) && colorCount == count && colorLength == 8 * MapWords(count)
      ensures this.colorMap == colorMap && usingCount == 0 && freeCount == count
      ensures this.cls == cls && this.boot == boot
    {
      this.address, this.mapAddress, this.page := address, mapAddress, page;
      this.vaddress := Base(page);
      this.colorCount, this.colorLength, this.colorMap := count, 8 * MapWords(count), colorMap;
      this.usingCount, this.freeCount := 0, count;
      this.cls, this.boot := cls, boot;
    }

    ghost function View(): SlabView
      reads this, colorMap
    {
      SlabView(cls, boot, address, mapAddress, Flat(colorMap[..]), usingCount, freeCount)
    }

    /** `|= 1UL << j`, one block more in use. */
    method Take(j: nat)
      requires j < 64 * colorMap.Length
      modifies this, colorMap
      ensures View() == Moved(old(View()), j, true)
    {
      SetBit(colorMap, j);
      usingCount := usingCount + 1;
      freeCount := freeCount - 1;
    }

    /** The search for a clear bit at the end of kmalloc, full words skipped. */
    method FindClear() returns (j: nat)
      requires colorCount <= 64 * colorMap.Length
      requires freeCount == Clear(Flat(colorMap[..]), 0, colorCount) && freeCount != 0
      ensures j < colorCount && !Flat(colorMap[..])[j]
      ensures forall l :: 0 <= l < j ==> Flat(colorMap[..])[l]
    {
      ghost var bits := Flat(colorMap[..]);
      j := 0;
      while j < colorCount
        invariant forall l :: 0 <= l < j && l < colorCount ==> bits[l]
        invariant j % 64 != 0 && j < colorCount ==> colorMap[j / 64] != ONES
      {
        if colorMap[j / 64] == ONES {
          assert forall l :: j <= l < j + 64 && l < colorCount ==> l / 64 == j / 64;
          j := j + 64;
        } else {
          if !colorMap[j / 64][j % 64] {
            return;
          }
          j := j + 1;
        }
      }
      ClearBounds(bits, 0, colorCount);
    }

    /** `^= 1UL << j`, one block less in use. */
    method Release(j: nat)
      requires j < 64 * colorMap.Length && Flat(colorMap[..])[j]
      modifies this, colorMap
      ensures View() == Moved(old(View()), j, false)
    {
      FlipBit(colorMap, j);
      freeCount := freeCount + 1;
      usingCount := usingCount - 1;
    }
  }

  /** struct Slab_cache; the ring starts with cache_pool and goes on in list order. */
  datatype SlabCache = SlabCache(size: nat, totalUsing: int, totalFree: int, ring: seq<Slab>)

  ghost function PagesOf(ring: seq<Slab>): seq<nat> {
    seq(|ring|, k requires 0 <= k < |ring| => ring[k].page)
  }

  ghost function ViewOf(c: SlabCache): CacheView {
    CacheView(c.totalUsing, c.totalFree, PagesOf(c.ring))
  }

  /** One block more or less in use. */
  ghost function Used(c: SlabCache, d: int): SlabCache {
    c.(totalUsing := c.totalUsing + d, totalFree := c.totalFree - d)
  }

  ghost function Views(cs: seq<SlabCache>): seq<CacheView> {
    seq(|cs|, i requires 0 <= i < |cs| => ViewOf(cs[i]))
  }

  /** The colour map of a new slab: all bits set, then those of its blocks toggled. */
  method BlankWords(count: nat) returns (words: array<Word>)
    ensures fresh(words) && words.Length == MapWords(count)
    ensures BlankMap(Flat(words[..]), count)
  {
    words := new Word[MapWords(count)](i => ONES);
    var i := 0;
    while i < count
      invariant 0 <= i <= count
      invariant forall l :: 0 <= l < 64 * words.Length ==> Flat(words[..])[l] == (l >= i)
    {
      FlipBit(words, i);
      i := i + 1;
    }
  }

  /** The objects behind the view: one slab object per page, one colour map per slab. */
  ghost predicate Wired(home: map<nat, Slab>, cs: seq<SlabCache>, pageMap: array<Word>) {
    && |cs| == CLASSES
    && (forall i :: 0 <= i < CLASSES ==> cs[i].size == Size(i))
    && (forall p <- home :: Sited(home[p], p) && home[p].colorMap != pageMap)
    && (forall p, q :: p in home && q in home && p != q ==> home[p].colorMap != home[q].colorMap)
    && (forall i, k :: 0 <= i < CLASSES && 0 <= k < |cs[i].ring| ==>
          cs[i].ring[k].page in home && home[cs[i].ring[k].page] == cs[i].ring[k])
  }

  /** The fixed fields of the slab of page p. */
  ghost predicate Sited(s: Slab, p: nat) {
    s.page == p && s.vaddress == Base(p) && s.cls < CLASSES && s.colorCount == Capacity(s.cls, s.boot)
  }

  lemma WiredTotals(home: map<nat, Slab>, cs: seq<SlabCache>, pageMap: array<Word>, i: nat, c: SlabCache)
    requires Wired(home, cs, pageMap) && i < CLASSES && c.size == cs[i].size && c.ring == cs[i].ring
    ensures Wired(home, cs[i := c], pageMap)
    ensures Views(cs[i := c]) == Views(cs)[i := ViewOf(c)]
  {}

  lemma SlotStep(home: map<nat, Slab>, cs: seq<SlabCache>, w: array<Word>, h: HeapView, p: nat, j: nat, v: bool)
    requires Wired(home, cs, w) && h.caches == Views(cs) && p in h.slabs
    requires h.slabs[p].cls < CLASSES && j < |h.slabs[p].bits|
    ensures var i, d := h.slabs[p].cls, if v then 1 else -1;
            && Wired(home, cs[i := Used(cs[i], d)], w)
            && SlotEffect(h, p, j, v) == HeapView(h.slabs[p := Moved(h.slabs[p], j, v)], Views(cs[i := Used(cs[i], d)]),
                 if v then h.live + {At(h, p, j)} else h.live - {At(h, p, j)}, h.meta)
  {
    var i, d := h.slabs[p].cls, if v then 1 else -1;
    WiredTotals(home, cs, w, i, Used(cs[i], d));
  }

  ghost function Grown(c: SlabCache, slab: Slab): SlabCache {
    c.(totalFree := c.totalFree + slab.colorCount, ring := c.ring + [slab])
  }

  ghost function Shrunk(c: SlabCache, k: nat): SlabCache
    requires k < |c.ring|
  {
    c.(totalFree := c.totalFree - c.ring[k].colorCount, ring := c.ring[..k] + c.ring[k + 1..])
  }

  /** The slab at place k of class i is on no other place of any ring. */
  ghost predicate Once(cs: seq<SlabCache>, i: nat, k: nat)
    requires i < |cs| && k < |cs[i].ring|
  {
    forall l, m :: 0 <= l < |cs| && 0 <= m < |cs[l].ring| && (l != i || m != k) ==> cs[l].ring[m] != cs[i].ring[k]
  }

  lemma ViewsUpdate(cs: seq<SlabCache>, i: nat, c: SlabCache)
    requires i < |cs|
    ensures Views(cs[i := c]) == Views(cs)[i := ViewOf(c)]
  {}

  lemma LinkStep(home: map<nat, Slab>, cs: seq<SlabCache>, w: array<Word>, h: HeapView, slab: Slab, s: SlabView)
    requires Wired(home, cs, w) && h.caches == Views(cs)
    requires slab.page !in home && Sited(slab, slab.page) && slab.colorMap != w
    requires forall p <- home :: home[p].colorMap != slab.colorMap
    requires s.cls == slab.cls && s.boot == slab.boot
    ensures var i, p := slab.cls, slab.page;
            && Wired(home[p := slab], cs[i := Grown(cs[i], slab)], w)
            && LinkEffect(h, p, s) == HeapView(h.slabs[p := s], Views(cs[i := Grown(cs[i], slab)]),
                 if IsLarge(s) then h.live - {s.address, s.mapAddress} else h.live,
                 if IsLarge(s) then h.meta[s.address := p][s.mapAddress := p] else h.meta)
  {
    var i := slab.cls;
    ViewsUpdate(cs, i, Grown(cs[i], slab));
    assert PagesOf(cs[i].ring + [slab]) == PagesOf(cs[i].ring) + [slab.page];
  }

  lemma UnlinkViews(cs: seq<SlabCache>, h: HeapView, i: nat, k: nat)
    requires h.caches == Views(cs) && i < |cs| && k < |cs[i].ring| && Once(cs, i, k)
    requires cs[i].ring[k].page in h.slabs && h.slabs[cs[i].ring[k].page].cls < CLASSES
    requires cs[i].ring[k].colorCount == Count(h.slabs[cs[i].ring[k].page])
    ensures var p := cs[i].ring[k].page; var s := h.slabs[p];
            && i < |h.caches| && k < |h.caches[i].ring| && h.caches[i].ring[k] == p
            && UnlinkEffect(h, i, k) == HeapView(h.slabs - {p}, Views(cs[i := Shrunk(cs[i], k)]),
                 if IsLarge(s) then h.live + {s.address, s.mapAddress} else h.live,
                 if IsLarge(s) then h.meta - {s.address, s.mapAddress} else h.meta)
  {
    ViewsUpdate(cs, i, Shrunk(cs[i], k));
    assert PagesOf(Shrunk(cs[i], k).ring) == Without(PagesOf(cs[i].ring), k);
  }

  lemma UnlinkStep(home: map<nat, Slab>, cs: seq<SlabCache>, w: array<Word>, h: HeapView, i: nat, k: nat)
    requires Wired(home, cs, w) && h.caches == Views(cs) && i < CLASSES && k < |cs[i].ring| && Once(cs, i, k)
    requires h.slabs.Keys == home.Keys
    requires forall p <- home :: h.slabs[p].cls == home[p].cls && h.slabs[p].boot == home[p].boot
    ensures var p := cs[i].ring[k].page; var s := h.slabs[p];
            && h.caches[i].ring[k] == p
            && Wired(home - {p}, cs[i := Shrunk(cs[i], k)], w)
            && UnlinkEffect(h, i, k) == HeapView(h.slabs - {p}, Views(cs[i := Shrunk(cs[i], k)]),
                 if IsLarge(s) then h.live + {s.address, s.mapAddress} else h.live,
                 if IsLarge(s) then h.meta - {s.address, s.mapAddress} else h.meta)
  {
    RingWired(home, cs, w, i, k);
    ShrunkWired(home, cs, w, i, k);
    hide Wired, UnlinkEffect, Shrunk, Views;
    UnlinkViews(cs, h, i, k);
  }

  lemma RingWired(home: map<nat, Slab>, cs: seq<SlabCache>, w: array<Word>, i: nat, k: nat)
    requires Wired(home, cs, w) && i < CLASSES && k < |cs[i].ring|
    ensures |cs| == CLASSES && cs[i].ring[k].page in home && home[cs[i].ring[k].page] == cs[i].ring[k]
    ensures Sited(cs[i].ring[k], cs[i].ring[k].page)
  {}

  lemma ShrunkWired(home: map<nat, Slab>, cs: seq<SlabCache>, w: array<Word>, i: nat, k: nat)
    requires Wired(home, cs, w) && i < CLASSES && k < |cs[i].ring| && Once(cs, i, k)
    ensures Wired(home - {cs[i].ring[k].page}, cs[i := Shrunk(cs[i], k)], w)
  {
    var after := cs[i := Shrunk(cs[i], k)];
    forall l, m | 0 <= l < CLASSES && 0 <= m < |after[l].ring|
      ensures after[l].ring[m].page != cs[i].ring[k].page
      ensures after[l].ring[m].page in home && home[after[l].ring[m].page] == after[l].ring[m]
    {
      var n := if l == i && m >= k then m + 1 else m;
      assert after[l].ring[m] == cs[l].ring[n] && cs[l].ring[n] != cs[i].ring[k];
    }
  }

  class KernelHeap {
    const pm: PageAllocator
    const caches: array<SlabCache>        // kmalloc_cache_size
    ghost var home: map<nat, Slab>        // the slab of each slab page
    ghost var live: set<nat>              // addresses of the blocks callers hold
    ghost var repr: set<object>           // everything kmalloc and kfree may write
    ghost var meta: map<nat, nat>         // addresses of the metadata blocks, and the page of their slab

    constructor (pm: PageAllocator, caches: array<SlabCache>, ghost home: map<nat, Slab>)
      ensures this.pm == pm && this.caches == caches && this.home == home && live == {} && meta == map[]
      ensures repr == {this, caches, pm.words, pm.pages, pm.zones} + (set p | p in home :: home[p] as object)
                      + (set p | p in home :: home[p].colorMap as object)
    {
      this.pm, this.caches, this.home, live, meta := pm, caches, home, {}, map[];
      repr := {this, caches, pm.words, pm.pages, pm.zones} + (set p | p in home :: home[p] as object)
              + (set p | p in home :: home[p].colorMap as object);
    }

    ghost function Maps(): set<array<Word>>
      reads this
    {
      set p | p in home :: home[p].colorMap
    }

    ghost predicate Linked()
      reads this, caches
    {
      && Wired(home, caches[..], pm.words)
      && {this, caches, pm.words, pm.pages, pm.zones} <= repr
      && (forall p <- home :: home[p] in repr && home[p].colorMap in repr)
      && pm.pages.Length <= 0x400_0000 && pm.zoneDma == 0 && pm.zoneNormal == 0
      && pm.zoneUnmapped < pm.zones.Length
    }

    ghost function SlabMap(): map<nat, SlabView>
      reads this, home.Values, Maps()
    {
      map p | p in home :: home[p].View()
    }

    ghost function Now(): HeapView
      reads this, caches, home.Values, Maps()
    {
      HeapView(SlabMap(), Views(caches[..]), live, meta)
    }

    /** The free blocks of each class and the free pages of zone 0. */
    ghost function Supply(): (k: Stock)
      requires Linked()
      reads this, caches, home.Values, Maps(), pm.words, pm.pages, pm.zones
      ensures |k.free| == CLASSES
    {
      StockOf(Now(), pm.Now())
    }

    twostate lemma OneSlab(p: nat)
      requires old(Linked()) && home == old(home) && p in home
      requires forall q :: q in home && q != p ==> unchanged(home[q]) && unchanged(home[q].colorMap)
      ensures SlabMap() == old(SlabMap())[p := home[p].View()]
    {}

    ghost predicate Valid()
      reads this, caches, home.Values, Maps(), pm.words, pm.pages, pm.zones
    {
      Linked() && Consistent(Now(), pm.Now())
    }

    /** Nothing changes for the view while nothing it reads is written. */
    twostate lemma Still()
      requires unchanged(this) && unchanged(caches) && unchanged(pm.words) && unchanged(pm.pages) && unchanged(pm.zones)
      requires forall p <- home :: unchanged(home[p]) && unchanged(home[p].colorMap)
      ensures Now() == old(Now()) && pm.Now() == old(pm.Now()) && Linked() == old(Linked())
    {
      assert SlabMap() == old(SlabMap());
    }

    twostate lemma SlabsStill()
      requires unchanged(this) && unchanged(caches)
      requires forall p <- home :: unchanged(home[p]) && unchanged(home[p].colorMap)
      ensures Now() == old(Now()) && Linked() == old(Linked())
    {
      assert SlabMap() == old(SlabMap());
    }

    twostate lemma PagesStill()
      requires unchanged(pm.words) && unchanged(pm.pages) && unchanged(pm.zones)
      ensures pm.Now() == old(pm.Now())
    {}

    /** The statements at the end of kmalloc for block j of slab k of class i, the slab of page p. */
    method SetSlot(i: nat, k: nat, j: nat, ghost p: nat) returns (a: nat)
      requires Linked() && i < CLASSES && k < |caches[i].ring| && p == caches[i].ring[k].page
      requires p in home && home[p] == caches[i].ring[k] && j < 64 * home[p].colorMap.Length
      modifies this`live, caches, caches[i].ring[k], caches[i].ring[k].colorMap
      ensures home == old(home) && meta == old(meta) && a == Address(p, i, j)
      ensures SlabMap() == old(SlabMap())[p := Moved(old(SlabMap())[p], j, true)]
      ensures caches[..] == old(caches[..])[i := Used(old(caches[i]), 1)]
      ensures live == old(live) + {a}
    {
      var slab := caches[i].ring[k];
      slab.Take(j);
      caches[i] := caches[i].(totalFree := caches[i].totalFree - 1, totalUsing := caches[i].totalUsing + 1);
      a := BlockAddress(slab.vaddress, caches[i].size, j);
      live := live + {a};
      OneSlab(p);
    }

    /** The end of kmalloc. */
    method TakeSlot(i: nat, k: nat, j: nat, ghost p: nat) returns (a: nat)
      requires Linked() && i < CLASSES && k < |caches[i].ring| && p == caches[i].ring[k].page
      requires p in home && home[p] == caches[i].ring[k] && home[p].cls == i && j < 64 * home[p].colorMap.Length
      modifies this`live, caches, caches[i].ring[k], caches[i].ring[k].colorMap
      ensures Linked() && home == old(home) && a == Address(p, i, j)
      ensures Now() == SlotEffect(old(Now()), p, j, true)
    {
      hide Sited, Size, Capacity, Room, Views;
      SlotStep(home, caches[..], pm.words, Now(), p, j, true);
      a := SetSlot(i, k, j, p);
    }

    /** The statements at the start of kfree for block j of slab k of class i, the slab of page p. */
    method UnsetSlot(i: nat, k: nat, j: nat, ghost p: nat)
      requires Linked() && i < CLASSES && k < |caches[i].ring| && p == caches[i].ring[k].page
      requires p in home && home[p] == caches[i].ring[k] && j < 64 * home[p].colorMap.Length
      requires Flat(home[p].colorMap[..])[j]
      modifies this`live, caches, caches[i].ring[k], caches[i].ring[k].colorMap
      ensures home == old(home) && meta == old(meta)
      ensures SlabMap() == old(SlabMap())[p := Moved(old(SlabMap())[p], j, false)]
      ensures caches[..] == old(caches[..])[i := Used(old(caches[i]), -1)]
      ensures live == old(live) - {Address(p, i, j)}
    {
      var slab := caches[i].ring[k];
      slab.Release(j);
      caches[i] := caches[i].(totalFree := caches[i].totalFree + 1, totalUsing := caches[i].totalUsing - 1);
      live := live - {Address(p, i, j)};
      OneSlab(p);
    }

    /** The start of kfree. */
    method ReleaseSlot(i: nat, k: nat, j: nat, ghost p: nat)
      requires Linked() && i < CLASSES && k < |caches[i].ring| && p == caches[i].ring[k].page
      requires p in home && home[p] == caches[i].ring[k] && home[p].cls == i && j < 64 * home[p].colorMap.Length
      requires Flat(home[p].colorMap[..])[j]
      modifies this`live, caches, caches[i].ring[k], caches[i].ring[k].colorMap
      ensures Linked() && home == old(home)
      ensures caches[..] == old(caches[..])[i := Used(old(caches[i]), -1)]
      ensures SlabMap()[p].using == old(home[p].usingCount) - 1
      ensures Now() == SlotEffect(old(Now()), p, j, false)
    {
      hide Sited, Size, Capacity, Room, Views;
      SlotStep(home, caches[..], pm.words, Now(), p, j, false);
      UnsetSlot(i, k, j, p);
    }

    /** `total_free += slab->color_count` and list_add_to_before the cache_pool. */
    method AppendSlab(i: nat, slab: Slab)
      requires i < caches.Length && slab.page !in home
      modifies this`home, this`live, this`meta, this`repr, caches
      ensures home == old(home)[slab.page := slab] && repr == old(repr) + {slab, slab.colorMap}
      ensures SlabMap() == old(SlabMap())[slab.page := slab.View()]
      ensures caches[..] == old(caches[..])[i := Grown(old(caches[i]), slab)]
      ensures live == if IsLarge(slab.View()) then old(live) - {slab.address, slab.mapAddress} else old(live)
      ensures meta == if IsLarge(slab.View()) then old(meta)[slab.address := slab.page][slab.mapAddress := slab.page]
                      else old(meta)
    {
      caches[i] := caches[i].(totalFree := caches[i].totalFree + slab.colorCount, ring := caches[i].ring + [slab]);
      home := home[slab.page := slab];
      repr := repr + {slab, slab.colorMap};
      if IsLarge(slab.View()) {
        live := live - {slab.address, slab.mapAddress};
        meta := meta[slab.address := slab.page][slab.mapAddress := slab.page];
      }
    }

    method LinkSlab(i: nat, slab: Slab)
      requires Linked() && i < CLASSES && slab.cls == i && slab.page !in home && Sited(slab, slab.page)
      requires slab.colorMap !in repr
      modifies this`home, this`live, this`meta, this`repr, caches
      ensures Linked() && home == old(home)[slab.page := slab] && repr == old(repr) + {slab, slab.colorMap}
      ensures caches[..] == old(caches[..])[i := Grown(old(caches[i]), slab)]
      ensures Now() == LinkEffect(old(Now()), slab.page, slab.View()) && pm.Now() == old(pm.Now())
    {
      LinkStep(home, caches[..], pm.words, Now(), slab, slab.View());
      AppendSlab(i, slab);
      PagesStill();
    }

    /** list_del and `total_free -= slab->color_count`. */
    method RemoveSlab(i: nat, k: nat)
      requires i < caches.Length && k < |caches[i].ring|
      modifies this`home, this`live, this`meta, caches
      ensures var slab := old(caches[i].ring)[k];
              && home == old(home) - {slab.page}
              && SlabMap() == old(SlabMap()) - {slab.page}
              && live == (if IsLarge(slab.View()) then old(live) + {slab.address, slab.mapAddress} else old(live))
              && meta == (if IsLarge(slab.View()) then old(meta) - {slab.address, slab.mapAddress} else old(meta))
      ensures caches[..] == old(caches[..])[i := Shrunk(old(caches[i]), k)]
    {
      var slab := caches[i].ring[k];
      caches[i] := caches[i].(totalFree := caches[i].totalFree - slab.colorCount,
                              ring := caches[i].ring[..k] + caches[i].ring[k + 1..]);
      home := home - {slab.page};
      if IsLarge(slab.View()) {
        live := live + {slab.address, slab.mapAddress};
        meta := meta - {slab.address, slab.mapAddress};
      }
    }

    method UnlinkSlab(i: nat, k: nat)
      requires Linked() && i < CLASSES && k < |caches[i].ring| && caches[i].ring[k].cls == i
      requires Once(caches[..], i, k)
      modifies this`home, this`live, this`meta, caches
      ensures Linked() && home == old(home) - {old(caches[i].ring)[k].page}
      ensures caches[..] == old(caches[..])[i := Shrunk(old(caches[i]), k)]
      ensures old(Now()).caches[i].ring[k] in old(Now()).slabs
      ensures Now() == UnlinkEffect(old(Now()), i, k) && pm.Now() == old(pm.Now())
    {
      UnlinkStep(home, caches[..], pm.words, Now(), i, k);
      assert SlabMap()[caches[i].ring[k].page] == caches[i].ring[k].View();
      RemoveSlab(i, k);
      PagesStill();
    }

    /** What the view says about slab k of class i is what its object holds. */
    lemma Lookup(i: nat, k: nat)
      requires Linked() && i < CLASSES && k < |caches[i].ring|
      ensures var slab := caches[i].ring[k]; var p := slab.page;
              && p in home && home[p] == slab
              && Now().caches[i].ring[k] == p
              && p in Now().slabs && Now().slabs[p] == slab.View()
      ensures |Now().caches[i].ring| == |caches[i].ring| && |Now().caches| == CLASSES
      ensures Now().caches[i].free == caches[i].totalFree
    {}

    /** Slab k of class i is where its page says, and its counters agree with its map. */
    ghost predicate Ready(i: nat, k: nat)
      requires i < caches.Length && k < |caches[i].ring|
      reads this, caches, caches[i].ring[k], caches[i].ring[k].colorMap
    {
      var slab := caches[i].ring[k];
      && slab.page in home && home[slab.page] == slab && slab.cls == i && (slab.boot <==> k == 0)
      && Sited(slab, slab.page)
      && slab.colorCount <= 64 * slab.colorMap.Length
      && slab.freeCount == Clear(Flat(slab.colorMap[..]), 0, slab.colorCount)
      && slab.usingCount + slab.freeCount == slab.colorCount
    }

    lemma LookupSlab(i: nat, k: nat)
      requires Valid() && i < CLASSES && k < |caches[i].ring|
      ensures Ready(i, k)
    {
      Lookup(i, k);
      RingSlab(Now(), i, k);
    }

    lemma Round(k: nat, n: nat)
      requires k < n
      ensures (k + 1) % n == if k + 1 < n then k + 1 else 0
    {}

    /** The walk round the ring in kmalloc, to a slab with a free block; there is one at place l. */
    method FindSlab(i: nat, ghost l: nat) returns (k: nat)
      requires i < caches.Length && l < |caches[i].ring| && caches[i].ring[l].freeCount != 0
      ensures k < |caches[i].ring| && caches[i].ring[k].freeCount != 0
      ensures forall n :: 0 <= n < k ==> caches[i].ring[n].freeCount == 0
    {
      k := 0;
      while caches[i].ring[k].freeCount == 0
        invariant 0 <= k <= l
        invariant forall n :: 0 <= n < k ==> caches[i].ring[n].freeCount == 0
        decreases |caches[i].ring| - k
      {
        Round(k, |caches[i].ring|);
        k := (k + 1) % |caches[i].ring|;
        if k == 0 {
          break;
        }
      }
    }

    lemma ClassTotal(i: nat)
      requires Linked() && i < CLASSES
      ensures |Now().caches| == CLASSES && Supply().free[i] == Now().caches[i].free == caches[i].totalFree
    {}

    lemma PassedAreFull(i: nat, k: nat)
      requires Valid() && i < CLASSES && k < |caches[i].ring|
      requires forall n :: 0 <= n < k ==> caches[i].ring[n].freeCount == 0
      ensures FullBefore(Now(), i, k)
    {
      Lookup(i, k);
      forall n | 0 <= n < k
        ensures Now().caches[i].ring[n] in Now().slabs && Now().slabs[Now().caches[i].ring[n]].free == 0
      { Lookup(i, n); }
    }

    lemma SomeFreeSlab(i: nat) returns (k: nat)
      requires Valid() && i < CLASSES && caches[i].totalFree != 0
      ensures k < |caches[i].ring| && caches[i].ring[k].freeCount != 0
    {
      assert RingOk(Now(), i);
      Lookup(i, 0);
      SomeFree(Now(), i);
      k :| 0 <= k < |Now().caches[i].ring| && Now().slabs[Now().caches[i].ring[k]].free != 0;
      Lookup(i, k);
    }

    /** The last part of kmalloc: a clear bit of slab k, which has a free block. */
    method TakeFrom(i: nat, k: nat) returns (a: nat, ghost j: nat)
      requires Linked() && i < CLASSES && k < |caches[i].ring| && Ready(i, k) && caches[i].ring[k].freeCount != 0
      modifies this`live, caches, caches[i].ring[k], caches[i].ring[k].colorMap
      ensures Linked() && home == old(home)
      ensures pm.Now() == old(pm.Now())
      ensures var h, p := old(Now()), old(caches[i].ring)[k].page;
              && p in h.slabs && h.slabs[p].cls == i && |h.caches| == CLASSES
              && j < Count(h.slabs[p]) <= |h.slabs[p].bits| && !h.slabs[p].bits[j]
              && a == At(h, p, j) && Now() == SlotEffect(h, p, j, true)
              && forall l :: 0 <= l < j ==> h.slabs[p].bits[l]
    {
      ghost var p := caches[i].ring[k].page;
      Lookup(i, k);
      label search:
      var free := caches[i].ring[k].FindClear();
      j := free;
      Still@search();
      a := TakeSlot(i, k, free, p);
      PagesStill();
    }

    /** kmalloc: Block on success, Null when it returns NULL, Fault when it would write through NULL. */
    method Kmalloc(size: nat) returns (r: Outcome)
      requires Valid()
      modifies repr
      ensures Valid() && fresh(repr - old(repr))
      ensures r.Null? ==> Now() == old(Now()) && pm.Now() == old(pm.Now())
      ensures r.Block? ==> (size <= Size(CLASSES - 1) &&
                            Allocated(old(Now()), old(pm.Now()), Now(), pm.Now(), ClassOf(size), r.address))
      ensures size > Size(CLASSES - 1) ==> r.Null?
      ensures r.Block? ==> Lowest(Now(), ClassOf(size), r.address)
      ensures size <= Size(CLASSES - 1) ==>
                Answers(r.Null?, r.Fault?, Draw(old(Supply()), ClassOf(size)), Supply())
      ensures size <= Size(CLASSES - 1) ==>
                (r.Null? <==> old(caches[ClassOf(size)].totalFree) == 0 && old(Supply()).pages == 0)
      ensures size <= Size(CLASSES - 1) ==>
                (r.Fault? <==> old(caches[ClassOf(size)].totalFree) == 0
                               && 0 < old(Supply()).pages < Price(old(Supply()), ClassOf(size)))
      ensures size <= Size(CLASSES - 1) && old(caches[ClassOf(size)].totalFree) != 0 ==>
                home == old(home) && pm.Now() == old(pm.Now())
      decreases Depth(size), 4
    {
      hide SlabModel.Consistent, SlabModel.Allocated, SlabModel.Prepared, SlabModel.Made, SlabModel.PageTaken,
           SlabModel.FullBefore, SlabModel.Lowest;
      if size > 1048576 {
        return Null;
      }
      label start:
      var i := PickClass(size);
      Still@start();
      DepthOfClass(size);
      StockPages(Now(), pm.Now());
      DrawExactly(Supply(), i);
      r := ServeClass(i);
    }

    method PickClass(size: nat) returns (i: nat)
      requires Linked() && size <= Size(CLASSES - 1)
      ensures i == ClassOf(size)
    {
      i := 0;
      while i < 16 && caches[i].size < size
        invariant 0 <= i <= ClassOf(size)
      {
        SizesGrow(ClassOf(size), i);
        i := i + 1;
      }
      PickedClass(i, size);
    }

    /** kmalloc once the class is known. */
    method ServeClass(i: nat) returns (r: Outcome)
      requires Valid() && i < CLASSES
      modifies repr
      ensures Valid() && fresh(repr - old(repr))
      ensures r.Null? ==> Now() == old(Now()) && pm.Now() == old(pm.Now())
      ensures r.Block? ==> Allocated(old(Now()), old(pm.Now()), Now(), pm.Now(), i, r.address)
      ensures r.Block? ==> Lowest(Now(), i, r.address)
      ensures Answers(r.Null?, r.Fault?, Draw(old(Supply()), i), Supply())
      ensures old(caches[i].totalFree) != 0 ==> home == old(home) && pm.Now() == old(pm.Now())
      decreases if i < FIRST_LARGE then 0 else 1, 3
    {
      hide SlabModel.Consistent, SlabModel.Allocated, SlabModel.Prepared, SlabModel.Made, SlabModel.PageTaken,
           SlabModel.FullBefore, SlabModel.Lowest;
      ghost var h, st := Now(), pm.Now();
      var place := FindOrGrow(i);
      match place
      case NoPlace => return Null;
      case Broken => return Fault;
      case Place(k) =>
        ghost var g, mid, p := Now(), pm.Now(), caches[i].ring[k].page;
        LookupSlab(i, k);
        var a, j := TakeFrom(i, k);
        TakeStep(g, mid, p, j);
        TakenLowest(g, mid, i, k, j);
        TakeAfter(h, st, g, mid, Now(), i, a);
        StockSlot(g, mid, p, j);
        return Block(a);
    }

    /** The middle of kmalloc: a slab of class i with a free block, found in the ring or made. */
    method FindOrGrow(i: nat) returns (r: Search)
      requires Valid() && i < CLASSES
      modifies repr
      ensures Valid() && fresh(repr - old(repr))
      ensures r.NoPlace? ==> Now() == old(Now()) && pm.Now() == old(pm.Now())
      ensures r.Place? ==> r.k < |caches[i].ring| && caches[i].ring[r.k].freeCount != 0
      ensures r.Place? ==> FullBefore(Now(), i, r.k)
      ensures r.Place? ==> Prepared(old(Now()), old(pm.Now()), Now(), pm.Now())
      ensures Drawable(r.NoPlace?, r.Broken?, Draw(old(Supply()), i), Supply(), i)
      ensures old(caches[i].totalFree) != 0 ==> home == old(home) && pm.Now() == old(pm.Now())
      decreases if i < FIRST_LARGE then 0 else 1, 2
    {
      hide SlabModel.Consistent, SlabModel.Allocated, SlabModel.Prepared, SlabModel.Made, SlabModel.PageTaken,
           SlabModel.FullBefore, SlabModel.Lowest;
      if caches[i].totalFree != 0 {
        ghost var l := SomeFreeSlab(i);
        NothingYet(Now(), pm.Now());
        label walk:
        var k := FindSlab(i, l);
        Still@walk();
        PassedAreFull(i, k);
        return Place(k);
      }
      r := Grow(i);
    }

    /** kmalloc for a class without a free block: make a slab and link it. */
    method Grow(i: nat) returns (r: Search)
      requires Valid() && i < CLASSES && caches[i].totalFree == 0
      modifies repr
      ensures Valid() && fresh(repr - old(repr))
      ensures r.NoPlace? ==> Now() == old(Now()) && pm.Now() == old(pm.Now())
      ensures r.Place? ==> r.k < |caches[i].ring| && caches[i].ring[r.k].freeCount != 0
      ensures r.Place? ==> FullBefore(Now(), i, r.k)
      ensures r.Place? ==> Prepared(old(Now()), old(pm.Now()), Now(), pm.Now())
      ensures Drawable(r.NoPlace?, r.Broken?, Draw(old(Supply()), i), Supply(), i)
      decreases if i < FIRST_LARGE then 0 else 1, 1
    {
      hide SlabModel.Consistent, SlabModel.Allocated, SlabModel.Prepared, SlabModel.Made, SlabModel.PageTaken,
           SlabModel.FullBefore, SlabModel.Lowest;
      hide Draw, Provision, Drawable, Answers, More;
      ClassTotal(i);
      StockPages(Now(), pm.Now());
      ghost var h, st, stock := Now(), pm.Now(), Supply();
      var c := KmallocCreate(i);
      ClassTotal(i);
      GrowDraw(stock, i, c.NoPage?, c.Crash?, Supply());
      if !c.Created? {
        return if c.NoPage? then NoPlace else Broken;
      }
      ProvisionElsewhere(stock, i, Supply());
      var k := LinkMade(i, c.slab, h, st);
      return Place(k);
    }

    method LinkMade(i: nat, slab: Slab, ghost h: HeapView, ghost st: State) returns (k: nat)
      requires Valid() && i < CLASSES && NewObject(slab, i)
      requires Made(h, st, Now(), pm.Now(), slab.page, slab.View()) && caches[i].totalFree == 0
      modifies this`home, this`live, this`meta, this`repr, caches
      ensures Valid() && repr == old(repr) + {slab, slab.colorMap}
      ensures k < |caches[i].ring| && caches[i].ring[k].freeCount != 0 && FullBefore(Now(), i, k)
      ensures Prepared(h, st, Now(), pm.Now()) && pm.Now() == old(pm.Now())
      ensures Supply() == More(old(Supply()), i, Capacity(i, false))
    {
      hide SlabModel.Consistent, SlabModel.Allocated, SlabModel.Prepared, SlabModel.Made, SlabModel.PageTaken,
           SlabModel.FullBefore, SlabModel.Lowest;
      StockLink(Now(), pm.Now(), slab.page, slab.View());
      GrowStep(h, st, Now(), pm.Now(), slab.page, slab.View());
      ClassTotal(i);
      LinkedFirst(h, st, Now(), pm.Now(), slab.page, slab.View());
      k := |caches[i].ring|;
      LinkSlab(i, slab);
    }

    /** kmalloc_create for class cls. */
    method KmallocCreate(cls: nat) returns (c: Creation)
      requires Valid() && cls < CLASSES
      modifies repr
      ensures Valid() && fresh(repr - old(repr))
      ensures c.NoPage? ==> Now() == old(Now()) && pm.Now() == old(pm.Now())
      ensures Answers(c.NoPage?, c.Crash?, Provision(old(Supply()), cls), Supply())
      ensures c.Created? ==> NewObject(c.slab, cls) && fresh(c.slab) && fresh(c.slab.colorMap)
      ensures c.Created? ==> Made(old(Now()), old(pm.Now()), Now(), pm.Now(), c.slab.page, c.slab.View())
      decreases if cls < FIRST_LARGE then 0 else 1, 0
    {
      hide SlabModel.Consistent, SlabModel.Allocated, SlabModel.Prepared, SlabModel.Made, SlabModel.PageTaken,
           SlabModel.FullBefore, SlabModel.Lowest;
      hide Draw, DrawMetadata, StockOf, Taken, Sound, Blank;
      ghost var h, st := Now(), pm.Now();
      var page := NewPage();
      if page == None {
        return NoPage;
      }
      TakenPageFresh(Now(), st, pm.Now(), page.value);
      if cls < FIRST_LARGE {
        var header := Base(page.value) + Room(cls, false);
        var slab := MakeSlab(cls, page.value, header, header + SLAB_STRUCT);
        MadeSmall(Now(), st, pm.Now(), page.value, slab.View(), cls);
        return Created(slab);
      }
      c := CreateLarge(cls, page.value, st);
    }

    /** kmalloc of at most 512 bytes, which does not recurse. */
    method SmallKmalloc(size: nat) returns (r: Option<nat>)
      requires Valid() && size <= 512
      modifies repr
      ensures Valid() && fresh(repr - old(repr))
      ensures r.None? <==> Draw(old(Supply()), ClassOf(size)).Nothing?
      ensures Answers(r.None?, false, Draw(old(Supply()), ClassOf(size)), Supply())
      ensures r.None? ==> Supply() == old(Supply())
      ensures r.Some? ==> Allocated(old(Now()), old(pm.Now()), Now(), pm.Now(), ClassOf(size), r.value)
      decreases 0, 5
    {
      hide SlabModel.Consistent, SlabModel.Allocated, SlabModel.Prepared, SlabModel.Made, SlabModel.PageTaken,
           SlabModel.FullBefore, SlabModel.Lowest;
      SmallRequest(size);
      DrawSmall(Supply(), ClassOf(size));
      var answer := Kmalloc(size);
      return if answer.Block? then Some(answer.address) else None;
    }

    /** kmalloc_create from 1024 bytes on: first a block for the structure. */
    method CreateLarge(cls: nat, p: nat, ghost st: State) returns (c: Creation)
      requires Valid() && FIRST_LARGE <= cls < CLASSES && PageTaken(Now(), st, pm.Now(), p)
      modifies repr
      ensures Valid() && fresh(repr - old(repr))
      ensures Answers(c.NoPage?, c.Crash?, DrawMetadata(old(Supply()), cls), Supply())
      ensures c.Created? ==> NewObject(c.slab, cls) && fresh(c.slab) && fresh(c.slab.colorMap)
      ensures c.Created? ==> Made(old(Now()), st, Now(), pm.Now(), c.slab.page, c.slab.View())
      decreases 0, 7
    {
      hide SlabModel.Consistent, SlabModel.Allocated, SlabModel.Prepared, SlabModel.Made, SlabModel.PageTaken,
           SlabModel.FullBefore, SlabModel.Lowest;
      ghost var h, st1 := Now(), pm.Now();
      var structure := SmallKmalloc(SLAB_STRUCT);
      if structure == None {
        return Crash;
      }
      c := AddMap(cls, p, structure.value, h, st, st1);
    }

    /** Then a block for the colour map, and the fields. */
    method AddMap(cls: nat, p: nat, address: nat, ghost h: HeapView, ghost st: State, ghost st1: State)
      returns (c: Creation)
      requires Valid() && FIRST_LARGE <= cls < CLASSES && PageTaken(h, st, st1, p)
      requires Allocated(h, st1, Now(), pm.Now(), StructClass(), address)
      modifies repr
      ensures Valid() && fresh(repr - old(repr))
      ensures Answers(c.NoPage?, c.Crash?, DrawMap(old(Supply()), cls), Supply())
      ensures c.Created? ==> NewObject(c.slab, cls) && fresh(c.slab) && fresh(c.slab.colorMap)
      ensures c.Created? ==> Made(h, st, Now(), pm.Now(), c.slab.page, c.slab.View())
      decreases 0, 6
    {
      hide SlabModel.Consistent, SlabModel.Allocated, SlabModel.Prepared, SlabModel.Made, SlabModel.PageTaken,
           SlabModel.FullBefore, SlabModel.Lowest;
      ghost var g, mid := Now(), pm.Now();
      var colors := SmallKmalloc(MapBytes(cls));
      if colors == None {
        return Crash;
      }
      LargeReady(h, st, st1, p, g, mid, Now(), pm.Now(), address, cls, colors.value);
      var slab := MakeSlab(cls, p, address, colors.value);
      MadeLarge(h, st, st1, p, g, mid, Now(), pm.Now(), slab.View(), cls);
      return Created(slab);
    }

    /** alloc_pages(ZONE_NORMAL, 1) and page_init, with the slabs looking on. */
    method NewPage() returns (page: Option<nat>)
      requires Valid()
      modifies pm.words, pm.pages, pm.zones
      ensures Valid() && Now() == old(Now()) && Sound(pm.Now())
      ensures page == None <==> old(Supply()).pages == 0
      ensures page == None ==> pm.Now() == old(pm.Now())
      ensures page.Some? ==> Taken(old(pm.Now()), pm.Now(), 0, page.value)
      ensures page.Some? ==> PageTaken(Now(), old(pm.Now()), pm.Now(), page.value)
      ensures page.Some? ==> Supply() == old(Supply()).(pages := old(Supply()).pages - 1)
    {
      hide SlabModel.Consistent, SlabModel.Allocated, SlabModel.Prepared, SlabModel.Made, SlabModel.PageTaken,
           SlabModel.FullBefore, SlabModel.Lowest;
      label start:
      ghost var h, st := Now(), pm.Now();
      PagesSound(h, st);
      page := pm.TakePage();
      SlabsStill@start();
      if page.Some? {
        TakenKept(h, st, pm.Now(), page.value);
        StockGranted(h, st, pm.Now(), page.value);
      }
    }

    /** alloc_pages(ZONE_NORMAL, 1) for a user page, with the slabs looking on. */
    method GrantUserPage() returns (page: Option<nat>)
      requires Valid()
      modifies pm.words, pm.pages, pm.zones
      ensures Valid() && Now() == old(Now())
      ensures page == None <==> old(Supply()).pages == 0
      ensures page == None ==> pm.Now() == old(pm.Now())
      ensures page.Some? ==> Granted(old(pm.Now()), pm.Now(), 0, page.value) && page.value !in Now().slabs
      ensures page.Some? ==> Kept(Now(), old(pm.Now()), Now(), pm.Now())
      ensures page.Some? ==> Supply() == old(Supply()).(pages := old(Supply()).pages - 1)
      ensures page.Some? ==> page.value < pm.pages.Length && pm.pages[page.value].phys == page.value * PAGE_2M
    {
      hide SlabModel.Consistent, Kept;
      label start:
      ghost var h, st := Now(), pm.Now();
      PagesSound(h, st);
      page := pm.GrantPage();
      SlabsStill@start();
      if page.Some? {
        GrantedKept(h, st, pm.Now(), page.value);
        StockGranted(h, st, pm.Now(), page.value);
      }
    }

    /** A slab object that is on no ring yet. */
    ghost predicate NewObject(slab: Slab, cls: nat)
      reads this, slab
    {
      && slab.cls == cls && !slab.boot && slab.page !in home && Sited(slab, slab.page) && slab.freeCount > 0
      && slab !in repr && slab.colorMap !in repr
    }

    /** The fields kmalloc_create fills in. */
    method FillSlab(cls: nat, p: nat, address: nat, mapAddress: nat) returns (slab: Slab)
      requires cls < CLASSES
      ensures fresh(slab) && fresh(slab.colorMap) && slab.page == p && slab.cls == cls && Sited(slab, p)
      ensures slab.address == address && slab.mapAddress == mapAddress && Blank(slab.View(), cls)
    {
      var count := Capacity(cls, false);
      var colorMap := BlankWords(count);
      slab := new Slab(address, mapAddress, p, count, colorMap, cls, false);
    }

    /** The new slab object beside the unchanged slabs. */
    method MakeSlab(cls: nat, p: nat, address: nat, mapAddress: nat) returns (slab: Slab)
      requires Linked() && cls < CLASSES && p !in home
      ensures fresh(slab) && fresh(slab.colorMap) && slab.page == p && NewObject(slab, cls)
      ensures slab.address == address && slab.mapAddress == mapAddress && Blank(slab.View(), cls)
      ensures Linked() && Now() == old(Now()) && pm.Now() == old(pm.Now())
    {
      label start:
      slab := FillSlab(cls, p, address, mapAddress);
      Still@start();
      CapacityPositive(cls);
    }

    /** The two loops of kfree: the slab, of any class, whose page starts at the given address. */
    method FindOwner(base: nat) returns (found: bool, i: nat, k: nat)
      requires caches.Length == CLASSES && forall c :: 0 <= c < CLASSES ==> caches[c].ring != []
      ensures found ==> i < CLASSES && k < |caches[i].ring| && caches[i].ring[k].vaddress == base
      ensures !found ==> forall c, n :: 0 <= c < CLASSES && 0 <= n < |caches[c].ring| ==>
                caches[c].ring[n].vaddress != base
    {
      found, i, k := false, 0, 0;
      while i < 16
        invariant 0 <= i <= 16
        invariant forall c, n :: 0 <= c < i && 0 <= n < |caches[c].ring| ==> caches[c].ring[n].vaddress != base
      {
        k := 0;
        while true
          invariant 0 <= k < |caches[i].ring|
          invariant forall n :: 0 <= n < k ==> caches[i].ring[n].vaddress != base
          decreases |caches[i].ring| - k
        {
          if caches[i].ring[k].vaddress == base {
            found := true;
            return;
          }
          k := k + 1;
          if k == |caches[i].ring| {
            break;
          }
        }
        i := i + 1;
      }
    }

    lemma RingsNonempty()
      requires Valid()
      ensures forall c :: 0 <= c < CLASSES ==> caches[c].ring != []
    {
      forall c | 0 <= c < CLASSES ensures caches[c].ring != [] {
        assert RingOk(Now(), c);
        assert |Now().caches[c].ring| == |caches[c].ring|;
      }
    }

    /** A live block has its slab on the ring of its class. */
    lemma OwnerOnRing(a: nat) returns (i: nat, k: nat)
      requires Valid() && a in live
      ensures i < CLASSES && k < |caches[i].ring| && caches[i].ring[k].vaddress == PageBase(a)
    {
      LiveBlock(Now(), pm.Now(), a);
      var p := PageOf(a);
      i := Now().slabs[p].cls;
      assert RingOk(Now(), i);
      k :| 0 <= k < |Now().caches[i].ring| && Now().caches[i].ring[k] == p;
      Lookup(i, k);
    }

    lemma ForeignNowhere(a: nat)
      requires Valid() && Foreign(Now(), a)
      ensures forall i, k :: 0 <= i < CLASSES && 0 <= k < |caches[i].ring| ==> caches[i].ring[k].vaddress != PageBase(a)
    {
      forall i, k | 0 <= i < CLASSES && 0 <= k < |caches[i].ring|
        ensures caches[i].ring[k].vaddress != PageBase(a)
      {
        Lookup(i, k);
        assert caches[i].ring[k].page in Now().slabs;
      }
    }

    /** The slab found for a live block is the one that holds it, at the index kfree computes. */
    lemma OwnerFound(a: nat, i: nat, k: nat)
      requires Valid() && a in live && i < CLASSES && k < |caches[i].ring| && caches[i].ring[k].vaddress == PageBase(a)
      ensures Ready(i, k) && caches[i].size > 0
      ensures var slab := caches[i].ring[k]; var j := IndexOf(a, i);
              && slab.page == PageOf(a) && slab.page in Now().slabs && Now().slabs[slab.page] == slab.View()
              && j < slab.colorCount == Count(slab.View())
              && a == At(Now(), slab.page, j) == slab.vaddress + caches[i].size * j
              && j == (a - slab.vaddress) / caches[i].size
      ensures Housed(Now(), a) && |Now().caches| == CLASSES
      ensures FreeDepth(Now(), a) == if i >= FIRST_LARGE then 1 else 0
    {
      LookupSlab(i, k);
      Lookup(i, k);
      LiveBlock(Now(), pm.Now(), a);
    }

    /**
     kfree. It returns 0 and does nothing when no slab has the page of the address. It reclaims the slab exactly
     when that has no other block, is not the boot slab, and the others of its class have half as many free.
     */
    method Kfree(a: nat) returns (r: nat)
      requires Valid() && (a in live || Foreign(Now(), a))
      modifies repr
      ensures Valid() && fresh(repr - old(repr))
      ensures old(a in live) ==> r == 1 && Freed(old(Now()), old(pm.Now()), Now(), pm.Now(), a)
      ensures old(a in live) ==> Housed(old(Now()), a) && |old(Now()).caches| == CLASSES
      ensures old(a in live) ==> Settled(old(Now()), Now(), a)
      ensures !old(a in live) ==> r == 0 && Now() == old(Now()) && pm.Now() == old(pm.Now())
      decreases FreeDepth(Now(), a), 4
    {
      hide SlabModel.Consistent, SlabModel.Freed, SlabModel.Settled;
      var base := PageBase(a);
      RingsNonempty();
      label search:
      var found, i, k := FindOwner(base);
      Still@search();
      if !found {
        if a in live { var c, n := OwnerOnRing(a); }
        return 0;
      }
      if a !in live { ForeignNowhere(a); }
      r := FreeBlock(a, i, k);
    }

    /** kfree once the slab is found. */
    method FreeBlock(a: nat, i: nat, k: nat) returns (r: nat)
      requires Valid() && a in live && i < CLASSES && k < |caches[i].ring| && caches[i].ring[k].vaddress == PageBase(a)
      modifies repr
      ensures Valid() && fresh(repr - old(repr)) && r == 1
      ensures Freed(old(Now()), old(pm.Now()), Now(), pm.Now(), a)
      ensures Housed(old(Now()), a) && |old(Now()).caches| == CLASSES
      ensures Settled(old(Now()), Now(), a)
      decreases FreeDepth(Now(), a), 3
    {
      hide SlabModel.Consistent, SlabModel.Freed, SlabModel.Surplus, Ready, Sited, At, Flat, Clear, SlabModel.Settled,
           ClassReleased, ClassShrunk;
      ghost var h, st := Now(), pm.Now();
      OwnerFound(a, i, k);
      Lookup(i, k);
      SpareIsSurplus(i, k);
      var surplus := ReleaseFound(a, i, k);
      ghost var mid := Now();
      if surplus { FinishFree(a, i, k, h, st); }
      Settles(h, st, a, i, k, mid, Now());
      return 1;
    }

    /** Surplus, read off the objects. */
    ghost predicate ToSpare(i: nat, k: nat)
      requires i < caches.Length && k < |caches[i].ring|
      reads this, caches, caches[i].ring[k]
    {
      var slab := caches[i].ring[k];
      slab.usingCount == 1 && caches[i].totalFree + 1 >= slab.colorCount * 3 / 2 && k != 0
    }

    lemma SpareIsSurplus(i: nat, k: nat)
      requires Valid() && i < CLASSES && k < |caches[i].ring|
      ensures caches[i].ring[k].page in Now().slabs && Now().slabs[caches[i].ring[k].page].cls < CLASSES
      ensures |Now().caches| == CLASSES && (ToSpare(i, k) <==> Surplus(Now(), caches[i].ring[k].page))
    {
      Lookup(i, k);
      LookupSlab(i, k);
    }

    /** The bit and the counters, and the condition for reclaiming the slab. */
    method ReleaseFound(a: nat, i: nat, k: nat) returns (surplus: bool)
      requires Valid() && a in live && i < CLASSES && k < |caches[i].ring| && caches[i].ring[k].vaddress == PageBase(a)
      modifies this`live, caches, caches[i].ring[k], caches[i].ring[k].colorMap
      ensures Valid() && home == old(home) && pm.Now() == old(pm.Now()) && caches[i].ring == old(caches[i].ring)
      ensures Freed(old(Now()), pm.Now(), Now(), pm.Now(), a) && ClassReleased(old(Now()), Now(), i)
      ensures surplus <==> old(ToSpare(i, k))
      ensures surplus ==> k != 0 && caches[i].ring[k].usingCount == 0
    {
      hide SlabModel.Consistent, SlabModel.Freed, Flat, Clear, SlabModel.Housed, Wired;
      OwnerFound(a, i, k);
      var slab := caches[i].ring[k];
      var index := (a - slab.vaddress) / caches[i].size;
      ReleaseLive(a, i, k, index);
      surplus := slab.usingCount == 0 && caches[i].totalFree >= slab.colorCount * 3 / 2 && k != 0;
    }

    method FinishFree(a: nat, i: nat, k: nat, ghost h: HeapView, ghost st: State)
      requires Valid() && i < CLASSES && 0 < k < |caches[i].ring| && caches[i].ring[k].usingCount == 0
      requires Freed(h, st, Now(), pm.Now(), a) && st == pm.Now()
      modifies repr
      ensures Valid() && fresh(repr - old(repr))
      ensures Freed(h, st, Now(), pm.Now(), a) && old(caches[i].ring)[k].page !in Now().slabs
      ensures ClassShrunk(old(Now()), Now(), i, k)
      decreases if i >= FIRST_LARGE then 1 else 0, 2
    {
      hide SlabModel.Consistent, SlabModel.Freed, SlabModel.Reclaimed;
      ghost var g, p := Now(), caches[i].ring[k].page;
      Reclaim(i, k);
      ReclaimedGone(g, st, Now(), pm.Now(), p);
      FreedAfter(h, st, g, Now(), pm.Now(), a, p);
    }

    /** The first statements of kfree on a live block. */
    method ReleaseLive(a: nat, i: nat, k: nat, j: nat)
      requires Valid() && a in live && i < CLASSES && k < |caches[i].ring| && Ready(i, k)
      requires caches[i].ring[k].page == PageOf(a) && j < caches[i].ring[k].colorCount
      requires PageOf(a) in Now().slabs && Now().slabs[PageOf(a)].cls == i && a == At(Now(), PageOf(a), j)
      modifies this`live, caches, caches[i].ring[k], caches[i].ring[k].colorMap
      ensures Valid() && home == old(home) && pm.Now() == old(pm.Now())
      ensures Freed(old(Now()), pm.Now(), Now(), pm.Now(), a)
      ensures ClassReleased(old(Now()), Now(), i)
      ensures caches[..] == old(caches[..])[i := Used(old(caches[i]), -1)]
      ensures caches[i].ring[k].usingCount == old(caches[i].ring[k].usingCount) - 1
    {
      hide SlabModel.Consistent, SlabModel.Freed, ClassReleased;
      ReleaseStep(Now(), pm.Now(), PageOf(a), j);
      ReleaseSlot(i, k, j, PageOf(a));
      PagesStill();
      assert SlabMap()[PageOf(a)] == home[PageOf(a)].View();
    }

    /** The page of an unlinked slab goes back: page_clean and free_pages. */
    method ReturnPage(p: nat)
      requires Valid() && PageReady(Now(), pm.Now(), p)
      modifies pm.words, pm.pages, pm.zones
      ensures Valid() && Now() == old(Now()) && PageBack(Now(), old(pm.Now()), pm.Now(), p)
    {
      hide SlabModel.Consistent;
      label start:
      ghost var h, st := Now(), pm.Now();
      PagesSound(h, st);
      pm.GivePage(p);
      SlabsStill@start();
      GivenBack(h, st, pm.Now(), p);
    }

    /** The end of kfree: an empty slab other than the boot slab gives its page back. */
    method Reclaim(i: nat, k: nat)
      requires Valid() && i < CLASSES && 0 < k < |caches[i].ring| && caches[i].ring[k].usingCount == 0
      modifies repr
      ensures Valid() && fresh(repr - old(repr))
      ensures Reclaimed(old(Now()), old(pm.Now()), Now(), pm.Now(), old(caches[i].ring)[k].page)
      ensures ClassShrunk(old(Now()), Now(), i, k)
      decreases if i >= FIRST_LARGE then 1 else 0, 1
    {
      hide SlabModel.Consistent, SlabModel.PageBack, SlabModel.Reclaimed, SlabModel.Kept, Wired;
      hide SlabModel.PageReady, SlabModel.Extends, SlabModel.SmallBlock, ClassShrunk, LargeAs;
      ghost var h, st := Now(), pm.Now();
      var slab := TakeOff(i, k);
      if i < FIRST_LARGE {
        ReturnPage(slab.page);
        ReclaimSmall(h, st, Now(), pm.Now(), slab.page);
        return;
      }
      ghost var mid := Now();
      FreeMetadata(i, slab.page, slab.address, slab.mapAddress, h, st);
      ShrunkStays(h, mid, Now(), i, k);
    }

    /** list_del of an empty slab. */
    method TakeOff(i: nat, k: nat) returns (slab: Slab)
      requires Valid() && i < CLASSES && 0 < k < |caches[i].ring| && caches[i].ring[k].usingCount == 0
      modifies this`home, this`live, this`meta, caches
      ensures Valid() && slab == old(caches[i].ring)[k] && pm.Now() == old(pm.Now())
      ensures PageReady(Now(), pm.Now(), slab.page)
      ensures slab.page in old(Now()).slabs && slab.page !in Now().slabs
      ensures Extends(Now(), old(Now())) && Kept(old(Now()), pm.Now(), Now(), pm.Now())
      ensures ClassShrunk(old(Now()), Now(), i, k)
      ensures i < FIRST_LARGE ==> live == old(live)
      ensures FIRST_LARGE <= i ==>
                && SmallBlock(Now(), slab.address) && SmallBlock(Now(), slab.mapAddress)
                && slab.address != slab.mapAddress
                && slab.address !in old(live) && slab.mapAddress !in old(live)
                && live == old(live) + {slab.address, slab.mapAddress}
    {
      hide SlabModel.Consistent, SlabModel.PageReady, SlabModel.Kept, SlabModel.Extends, SlabModel.SmallBlock,
           ClassShrunk;
      slab := caches[i].ring[k];
      LookupSlab(i, k);
      Lookup(i, k);
      SlabOnce(i, k);
      UnlinkStepModel(Now(), pm.Now(), i, k);
      UnlinkSlab(i, k);
    }

    /** kfree of the colour map, the page, kfree of the structure. */
    method FreeMetadata(i: nat, p: nat, address: nat, mapAddress: nat, ghost h: HeapView, ghost st: State)
      requires Valid() && FIRST_LARGE <= i && PageReady(Now(), pm.Now(), p) && pm.Now() == st
      requires p in h.slabs && p !in Now().slabs && Extends(Now(), h) && Kept(h, st, Now(), st)
      requires SmallBlock(Now(), address) && SmallBlock(Now(), mapAddress) && address != mapAddress
      requires address !in h.live && mapAddress !in h.live && live == h.live + {address, mapAddress}
      modifies repr
      ensures Valid() && fresh(repr - old(repr))
      ensures Reclaimed(h, st, Now(), pm.Now(), p) && LargeAs(old(Now()), Now())
      decreases 1, 0
    {
      hide SlabModel.Consistent, SlabModel.PageBack, SlabModel.Reclaimed, SlabModel.Freed, SlabModel.Kept,
           SlabModel.Extends;
      hide SlabModel.SmallBlock, SlabModel.PageReady, SlabModel.FreeDepth, SlabModel.Settled, LargeAs, Wired;
      ghost var g := Now();
      SmallDepth(g, mapAddress);
      var r := Kfree(mapAddress);
      ghost var f, st2 := Now(), pm.Now();
      SettledSmall(g, f, mapAddress);
      FreedReady(g, st, f, st2, mapAddress, p);
      SmallOutlives(g, st, f, st2, address, mapAddress);
      ReturnPage(p);
      ghost var st3 := pm.Now();
      SmallDepth(f, address);
      r := Kfree(address);
      SettledSmall(f, Now(), address);
      LargeTrans(g, f, Now());
      ReclaimLarge(h, st, g, f, st2, st3, Now(), pm.Now(), p, mapAddress, address);
    }

    lemma SlabOnce(i: nat, k: nat)
      requires Valid() && i < CLASSES && k < |caches[i].ring|
      ensures Once(caches[..], i, k)
    {
      forall l, m | 0 <= l < CLASSES && 0 <= m < |caches[l].ring| && (l != i || m != k)
        ensures caches[l].ring[m] != caches[i].ring[k]
      {
        LookupSlab(i, k);
        LookupSlab(l, m);
        assert RingOk(Now(), i);
        Lookup(i, k);
        Lookup(l, m);
      }
    }
  }

  datatype Search = Place(k: nat) | NoPlace | Broken

  datatype Outcome = Block(address: nat) | Null | Fault

  datatype Creation = Created(slab: Slab) | NoPage | Crash
}
