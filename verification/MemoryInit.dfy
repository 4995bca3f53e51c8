// The bitmap, page and zone part of init_memory.
module MemoryInit {
  import opened Common
  import opened Words
  import opened Pages

  /** An entry of the BIOS memory map; kind 1 is RAM. */
  datatype E820 = E820(address: nat, length: nat, kind: nat)

  /** The stand-in for the null zone pointer of a page outside all zones. */
  const NO_ZONE := 32

  function FirstPage(e: E820): nat {
    (e.address + PAGE_2M - 1) / PAGE_2M
  }

  function LastPage(e: E820): nat {
    (e.address + e.length) / PAGE_2M
  }

  /** RAM that holds at least one whole 2 MB page. */
  predicate Usable(e: E820) {
    e.kind == 1 && FirstPage(e) < LastPage(e)
  }

  function ZoneOf(e: E820): Zone {
    Zone(FirstPage(e), LastPage(e), 0, LastPage(e) - FirstPage(e), 0)
  }

  /** One zone for every usable entry, in the order of the map. */
  function ZonesOf(e820: seq<E820>): (zs: seq<Zone>)
    ensures |zs| <= |e820|
  {
    if e820 == [] then []
    else
      var rest := ZonesOf(e820[..|e820| - 1]);
      if Usable(e820[|e820| - 1]) then rest + [ZoneOf(e820[|e820| - 1])] else rest
  }

  /** Two ranges have no address in common. */
  predicate Disjoint(e: E820, f: E820) {
    e.address + e.length <= f.address || f.address + f.length <= e.address
  }

  /** The entries of the map overlap nowhere, none ends behind the last, and only the first zone may hold page 0. */
  ghost predicate Tidy(e820: seq<E820>) {
    && (forall a :: 0 < a < |ZonesOf(e820)| ==> ZonesOf(e820)[a].first > 0)
    && (forall i, j :: 0 <= i < j < |e820| ==> Disjoint(e820[i], e820[j]))
    && forall i :: 0 <= i < |e820| ==>
         e820[i].address + e820[i].length <= e820[|e820| - 1].address + e820[|e820| - 1].length
  }

  lemma DivMono(a: nat, b: nat)
    requires a <= b
    ensures a / PAGE_2M <= b / PAGE_2M
  {}

  /** Two zones have no page in common. */
  predicate ZonesDisjoint(y: Zone, z: Zone) {
    y.last <= z.first || z.last <= y.first
  }

  lemma DisjointZones(e: E820, f: E820)
    requires Disjoint(e, f)
    ensures ZonesDisjoint(ZoneOf(e), ZoneOf(f))
  {
    if e.address + e.length <= f.address {
      DivMono(e.address + e.length, f.address + PAGE_2M - 1);
    } else {
      DivMono(f.address + f.length, e.address + PAGE_2M - 1);
    }
  }

  /** Every zone is that of an entry of the map. */
  lemma {:induction false} ZoneFrom(e820: seq<E820>, a: nat) returns (i: nat)
    requires a < |ZonesOf(e820)|
    ensures i < |e820| && Usable(e820[i]) && ZonesOf(e820)[a] == ZoneOf(e820[i])
  {
    var n := |e820| - 1;
    if a < |ZonesOf(e820[..n])| { i := ZoneFrom(e820[..n], a); } else { i := n; }
  }

  /** Zones of ranges that do not overlap have no page in common, and none is empty. */
  lemma {:induction false} ZonesApart(e820: seq<E820>, limit: nat)
    requires forall i, j :: 0 <= i < j < |e820| ==> Disjoint(e820[i], e820[j])
    requires forall i :: 0 <= i < |e820| ==> e820[i].address + e820[i].length <= limit
    ensures forall a :: 0 <= a < |ZonesOf(e820)| ==>
              ZonesOf(e820)[a].first < ZonesOf(e820)[a].last <= limit / PAGE_2M
    ensures forall a, b :: 0 <= a < b < |ZonesOf(e820)| ==> ZonesDisjoint(ZonesOf(e820)[a], ZonesOf(e820)[b])
  {
    if e820 != [] {
      var n := |e820| - 1;
      var front := e820[..n];
      ZonesApart(front, limit);
      DivMono(e820[n].address + e820[n].length, limit);
      forall a | 0 <= a < |ZonesOf(front)| ensures ZonesDisjoint(ZonesOf(front)[a], ZoneOf(e820[n])) {
        var i := ZoneFrom(front, a);
        DisjointZones(e820[i], e820[n]);
      }
    }
  }

  /** Index i lies in one of the zones. */
  ghost predicate Covered(zs: seq<Zone>, i: int) {
    exists z :: 0 <= z < |zs| && InZone(zs[z], i)
  }

  /** Address a is usable memory of this range. */
  predicate Holds(e: E820, a: nat) {
    e.kind == 1 && e.address <= a < e.address + e.length
  }

  /** Page i is usable memory from its first byte to its last, all in one range of the map. */
  ghost predicate RamPage(e820: seq<E820>, i: nat) {
    exists k :: 0 <= k < |e820| && HoldsPage(e820[k], i)
  }

  ghost predicate HoldsPage(e: E820, i: nat) {
    forall a: nat :: i * PAGE_2M <= a < (i + 1) * PAGE_2M ==> Holds(e, a)
  }

  lemma ZoneIsPages(e: E820, i: nat)
    ensures e.kind == 1 && FirstPage(e) <= i < LastPage(e) <==> HoldsPage(e, i)
  {
    assert HoldsPage(e, i) ==> Holds(e, i * PAGE_2M) && Holds(e, (i + 1) * PAGE_2M - 1);
  }

  /** The zones are made of the whole pages of usable memory in the map, and of no others. */
  lemma {:induction false} CoveredIsRam(e820: seq<E820>, i: nat)
    ensures Covered(ZonesOf(e820), i) <==> RamPage(e820, i)
  {
    if e820 != [] {
      var n := |e820| - 1;
      CoveredIsRam(e820[..n], i);
      ZoneIsPages(e820[n], i);
      CoveredMore(ZonesOf(e820[..n]), ZoneOf(e820[n]), i);
      RamPageMore(e820, i);
    }
  }

  lemma RamPageMore(e820: seq<E820>, i: nat)
    requires e820 != []
    ensures RamPage(e820, i) <==> RamPage(e820[..|e820| - 1], i) || HoldsPage(e820[|e820| - 1], i)
  {
    hide HoldsPage;
    var front := e820[..|e820| - 1];
    if RamPage(front, i) {
      var k :| 0 <= k < |front| && HoldsPage(front[k], i);
      assert HoldsPage(e820[k], i);
    }
    if k :| 0 <= k < |front| && HoldsPage(e820[k], i) { assert HoldsPage(front[k], i); }
  }

  /** The bitmap and the page structures describe exactly the zones zs. */
  ghost predicate Describes(zs: seq<Zone>, bits: seq<bool>, pages: seq<Page>) {
    && |bits| == Ceil64(|pages|) + 64
    && (forall i :: 0 <= i < Ceil64(|pages|) ==> (!bits[i] <==> i < |pages| && Covered(zs, i)))
    && (forall z, i :: 0 <= z < |zs| && InZone(zs[z], i) && 0 <= i < |pages| ==>
          pages[i] == Page(z, i * PAGE_2M, {}, 0))
  }

  ghost predicate Unreferenced(pages: seq<Page>) {
    forall i :: 0 <= i < |pages| ==> pages[i].refs == 0
  }

  /** No page of the zone z has been given to an earlier zone. */
  ghost predicate Apart(zs: seq<Zone>, z: Zone) {
    forall k :: 0 <= k < |zs| ==> ZonesDisjoint(zs[k], z)
  }

  /** The page loop for one zone: describe each page and toggle its bit. */
  method AddZone(words: array<Word>, pages: array<Page>, ghost zs: seq<Zone>, index: nat, z: Zone)
    requires index == |zs| && z.first < z.last <= pages.Length && Apart(zs, z)
    requires Describes(zs, Flat(words[..]), pages[..])
    modifies words, pages
    ensures Describes(zs + [z], Flat(words[..]), pages[..])
    ensures forall i :: Ceil64(pages.Length) <= i < 64 * words.Length ==> Flat(words[..])[i] == old(Flat(words[..]))[i]
    ensures old(Unreferenced(pages[..])) ==> Unreferenced(pages[..])
  {
    ghost var bits0, pages0 := Flat(words[..]), pages[..];
    var j := 0;
    while j < z.last - z.first
      invariant 0 <= j <= z.last - z.first
      invariant Flat(words[..]) == SetRange(bits0, z.first, j, false)
      invariant forall i :: 0 <= i < pages.Length ==>
        pages[i] == if z.first <= i < z.first + j then Page(index, i * PAGE_2M, {}, 0) else pages0[i]
    {
      var p := z.first + j;
      assert bits0[p] by { NotCovered(zs, z, p); }
      pages[p] := Page(index, p * PAGE_2M, {}, 0);
      FlipBit(words, pages[p].phys / PAGE_2M);
      RangeStep(bits0, z.first, j, false);
      j := j + 1;
    }
    ZoneAdded(zs, z, bits0, pages0, pages[..]);
  }

  lemma NotCovered(zs: seq<Zone>, z: Zone, i: int)
    requires Apart(zs, z) && InZone(z, i)
    ensures !Covered(zs, i)
  {}

  lemma CoveredMore(zs: seq<Zone>, z: Zone, i: int)
    ensures Covered(zs + [z], i) <==> Covered(zs, i) || InZone(z, i)
  {
    if Covered(zs, i) {
      var k :| 0 <= k < |zs| && InZone(zs[k], i);
      assert InZone((zs + [z])[k], i);
    }
    if InZone(z, i) { assert InZone((zs + [z])[|zs|], i); }
  }

  lemma ZoneAdded(zs: seq<Zone>, z: Zone, bits: seq<bool>, before: seq<Page>, pages: seq<Page>)
    requires z.first < z.last <= |pages| == |before| && Apart(zs, z) && Describes(zs, bits, before)
    requires forall i :: 0 <= i < |pages| ==>
      pages[i] == if InZone(z, i) then Page(|zs|, i * PAGE_2M, {}, 0) else before[i]
    ensures Describes(zs + [z], SetRange(bits, z.first, z.last - z.first, false), pages)
  {
    var zs1, bits1 := zs + [z], SetRange(bits, z.first, z.last - z.first, false);
    forall i | 0 <= i < Ceil64(|pages|) ensures !bits1[i] <==> i < |pages| && Covered(zs1, i) {
      CoveredMore(zs, z, i);
    }
    forall k, i | 0 <= k < |zs1| && InZone(zs1[k], i) && 0 <= i < |pages|
      ensures pages[i] == Page(k, i * PAGE_2M, {}, 0)
    {
      if k < |zs| { assert InZone(zs[k], i); }
    }
  }

  lemma PrefixApart(e820: seq<E820>, i: nat)
    requires i < |e820| && Tidy(e820)
    ensures Apart(ZonesOf(e820[..i]), ZoneOf(e820[i]))
    ensures LastPage(e820[i]) <= LastPage(e820[|e820| - 1])
  {
    forall a | 0 <= a < |ZonesOf(e820[..i])| ensures ZonesDisjoint(ZonesOf(e820[..i])[a], ZoneOf(e820[i])) {
      var k := ZoneFrom(e820[..i], a);
      DisjointZones(e820[k], e820[i]);
    }
    DivMono(e820[i].address + e820[i].length, e820[|e820| - 1].address + e820[|e820| - 1].length);
  }

  /** The bitmap with all bits set, the word behind it, and the zeroed page structures. */
  method BlankTables(n: nat, tail: Word) returns (words: array<Word>, pages: array<Page>)
    ensures fresh(words) && fresh(pages) && pages.Length == n
    ensures Describes([], Flat(words[..]), pages[..])
    ensures n % 64 == 0 ==> Flat(words[..])[n] == tail[0]
    ensures forall i :: 0 <= i < n ==> pages[i] == Page(NO_ZONE, 0, {}, 0)
  {
    var full := Ceil64(n) / 64;
    words := new Word[full + 1](i => if i == full then tail else ONES);
    pages := new Page[n](i => Page(NO_ZONE, 0, {}, 0));
    forall i | 0 <= i < Ceil64(n) ensures Flat(words[..])[i] {
      assert words[i / 64] == ONES;
    }
  }

  lemma {:induction false} FreshCounters(e820: seq<E820>, z: nat)
    requires z < |ZonesOf(e820)|
    ensures var zone := ZonesOf(e820)[z]; zone.using == 0 && zone.free == zone.last - zone.first && zone.links == 0
  {
    var n := |e820| - 1;
    if z < |ZonesOf(e820[..n])| { FreshCounters(e820[..n], z); }
  }

  /** Once every zone is described and page 0 claimed for the kernel, the layout is complete. */
  lemma {:induction false} Described(e820: seq<E820>, st: State, pages: seq<Page>)
    requires Tidy(e820) && st.zones == ZonesOf(e820) && 0 < |st.zones|
    requires forall i :: 0 <= i < |e820| ==> e820[i].address + e820[i].length <= |pages| * PAGE_2M + PAGE_2M - 1
    requires |pages| > 0 && Describes(st.zones, st.bits, pages)
    requires st.pages == pages[0 := Page(0, 0, {PG_PTABLE_MAPED, PG_KERNEL_INIT, PG_KERNEL}, 1)]
    ensures WellFormed(st) && Accounted(st)
  {
    ZonesApart(e820, |pages| * PAGE_2M + PAGE_2M - 1);
    forall z, i | 0 <= z < |st.zones| && InZone(st.zones[z], i)
      ensures st.pages[i].zone == z && st.pages[i].phys == i * PAGE_2M
    {
      assert pages[i] == Page(z, i * PAGE_2M, {}, 0);
    }
    forall i | 0 <= i < Ceil64(|st.pages|) && !st.bits[i]
      ensures i < |st.pages| && st.pages[i].zone < |st.zones| && InZone(st.zones[st.pages[i].zone], i)
    {
      var z :| 0 <= z < |st.zones| && InZone(st.zones[z], i);
    }
    forall z | 0 <= z < |st.zones|
      ensures st.zones[z].free == Clear(st.bits, st.zones[z].first, st.zones[z].last)
      ensures st.zones[z].using + st.zones[z].free == st.zones[z].last - st.zones[z].first
    {
      FreshCounters(e820, z);
      ZoneClear(st.zones, z, st.bits, pages);
    }
  }

  lemma ZoneClear(zs: seq<Zone>, z: nat, bits: seq<bool>, pages: seq<Page>)
    requires z < |zs| && Describes(zs, bits, pages) && zs[z].first <= zs[z].last <= |pages|
    ensures Clear(bits, zs[z].first, zs[z].last) == zs[z].last - zs[z].first
  {
    forall i | zs[z].first <= i < zs[z].last ensures !bits[i] { assert InZone(zs[z], i); }
    ClearAll(bits, zs[z].first, zs[z].last);
  }

  /** The last page of the map is no usable memory, or the bit behind it is set. */
  ghost predicate BehindLast(e820: seq<E820>, tail: Word)
    requires e820 != []
  {
    var n := LastPage(e820[|e820| - 1]);
    n % 64 != 0 || tail[0] || !Covered(ZonesOf(e820), n - 1)
  }

  lemma {:induction false} FenceStands(e820: seq<E820>, tail: Word, st: State)
    requires e820 != [] && WellFormed(st) && |st.pages| == LastPage(e820[|e820| - 1])
    requires |st.pages| % 64 == 0 ==> st.bits[|st.pages|] == tail[0]
    requires forall i :: 0 <= i < |st.pages| ==> (!st.bits[i] <==> Covered(ZonesOf(e820), i))
    ensures Fenced(st) <==> BehindLast(e820, tail)
  {
    if |st.pages| % 64 != 0 { assert st.bits[|st.pages|]; }
  }

  /** The end of the map. */
  function Top(e820: seq<E820>): nat
    requires e820 != []
  {
    e820[|e820| - 1].address + e820[|e820| - 1].length
  }

  lemma RamInside(e820: seq<E820>, zs: seq<Zone>, n: nat)
    requires e820 != [] && Tidy(e820) && zs == ZonesOf(e820) && n == Top(e820) / PAGE_2M
    ensures forall i: nat :: RamPage(e820, i) <==> i < n && Covered(zs, i)
  {
    ZonesApart(e820, Top(e820));
    forall i: nat ensures RamPage(e820, i) <==> i < n && Covered(zs, i) { CoveredIsRam(e820, i); }
  }

  /** k is the first zone behind zone 0 that starts at 4 GB or above; 0 if there is none. */
  ghost predicate UnmappedFrom(zs: seq<Zone>, k: nat) {
    && k < |zs| && (forall z :: 0 < z < k ==> zs[z].first * PAGE_2M < 0x1_0000_0000)
    && if k > 0 then zs[k].first * PAGE_2M >= 0x1_0000_0000
       else forall z :: 0 < z < |zs| ==> zs[z].first * PAGE_2M < 0x1_0000_0000
  }

  /** The loops of init_memory: the bitmap has a clear bit for each page of each zone. */
  method InitMemory(e820: seq<E820>, tail: Word) returns (pm: PageAllocator)
    requires 0 < |e820| <= 32 && Tidy(e820) && ZonesOf(e820) != []
    ensures fresh(pm) && fresh(pm.words) && fresh(pm.pages) && fresh(pm.zones)
    ensures pm.Valid() && Accounted(pm.Now())
    ensures pm.zones[..] == ZonesOf(e820) && pm.pages.Length == LastPage(e820[|e820| - 1])
    ensures forall i :: 0 <= i < pm.pages.Length ==> (!pm.Now().bits[i] <==> Covered(pm.zones[..], i))
    ensures forall i: nat :: RamPage(e820, i) <==> i < pm.pages.Length && !pm.Now().bits[i]
    ensures pm.pages.Length * PAGE_2M <= Top(e820) < (pm.pages.Length + 1) * PAGE_2M
    ensures UnmappedFrom(pm.zones[..], pm.zoneUnmapped)
    ensures forall i :: 0 < i < pm.pages.Length ==> pm.pages[i].refs == 0
    ensures pm.pages.Length > 0 && pm.pages[0] == Page(0, 0, {0, 1, 3}, 1)
    ensures Fenced(pm.Now()) <==> BehindLast(e820, tail)
    ensures pm.zoneDma == 0 && pm.zoneNormal == 0
  {
    hide BehindLast, Fenced, WellFormed, RamPage, UnmappedFrom, Covered, Tidy, Describes;
    var words, pages, zs := FillTables(e820, tail);
    DescribesMeans(zs, Flat(words[..]), pages[..]);
    pm := Assemble(e820, words, pages, zs);
    RamInside(e820, zs, pages.Length);
    FenceStands(e820, tail, pm.Now());
  }

  lemma DescribesMeans(zs: seq<Zone>, bits: seq<bool>, pages: seq<Page>)
    requires Describes(zs, bits, pages)
    ensures |bits| == Ceil64(|pages|) + 64
    ensures forall i :: 0 <= i < |pages| ==> (!bits[i] <==> Covered(zs, i))
  {}

  /** The loop over the map. */
  method FillTables(e820: seq<E820>, tail: Word) returns (words: array<Word>, pages: array<Page>, zs: seq<Zone>)
    requires 0 < |e820| && Tidy(e820)
    ensures fresh(words) && fresh(pages) && pages.Length == Top(e820) / PAGE_2M && zs == ZonesOf(e820)
    ensures Describes(zs, Flat(words[..]), pages[..]) && Unreferenced(pages[..])
    ensures pages.Length % 64 == 0 ==>
              pages.Length < |Flat(words[..])| && Flat(words[..])[pages.Length] == tail[0]
  {
    hide Flat;
    var n := Top(e820) / PAGE_2M;
    ZonesApart(e820, Top(e820));
    words, pages := BlankTables(n, tail);
    zs := [];
    var i := 0;
    while i < |e820|
      invariant 0 <= i <= |e820|
      invariant zs == ZonesOf(e820[..i])
      invariant Describes(zs, Flat(words[..]), pages[..])
      invariant n % 64 == 0 ==> Flat(words[..])[n] == tail[0]
      invariant Unreferenced(pages[..])
    {
      assert e820[..i + 1][..i] == e820[..i];
      var e := e820[i];
      if e.kind == 1 && FirstPage(e) < LastPage(e) {
        PrefixApart(e820, i);
        AddZone(words, pages, zs, |zs|, ZoneOf(e));
        zs := zs + [ZoneOf(e)];
      }
      i := i + 1;
    }
    assert e820[..|e820|] == e820;
  }

  /** The zone array, the zone indices and page 0. */
  method Assemble(ghost e820: seq<E820>, words: array<Word>, pages: array<Page>, zs: seq<Zone>)
    returns (pm: PageAllocator)
    requires e820 != [] && Tidy(e820) && zs == ZonesOf(e820) && zs != []
    requires pages.Length == LastPage(e820[|e820| - 1]) && Describes(zs, Flat(words[..]), pages[..])
    modifies pages
    ensures fresh(pm) && fresh(pm.zones) && pm.words == words && pm.pages == pages && pm.zones[..] == zs
    ensures pm.Valid() && Accounted(pm.Now())
    ensures words[..] == old(words[..]) && pages.Length > 0
    ensures pages[..] == old(pages[..])[0 := Page(0, 0, {PG_PTABLE_MAPED, PG_KERNEL_INIT, PG_KERNEL}, 1)]
    ensures pm.zoneDma == 0 && pm.zoneNormal == 0 && UnmappedFrom(zs, pm.zoneUnmapped)
  {
    var zones := new Zone[|zs|](k requires 0 <= k < |zs| => zs[k]);
    var unmapped := 0;
    for k := 0 to |zs|
      invariant unmapped < |zs| && (unmapped > 0 ==> unmapped < k && zs[unmapped].first * PAGE_2M >= 0x1_0000_0000)
      invariant forall z :: 0 < z < (if unmapped > 0 then unmapped else k) ==> zs[z].first * PAGE_2M < 0x1_0000_0000
    {
      if zones[k].first * PAGE_2M >= 0x1_0000_0000 && unmapped == 0 {
        unmapped := k;
      }
    }
    ZonesApart(e820, e820[|e820| - 1].address + e820[|e820| - 1].length);
    assert zs[0].first < zs[0].last <= pages.Length;
    ghost var described := pages[..];
    pages[0] := Page(0, 0, {PG_PTABLE_MAPED, PG_KERNEL_INIT, PG_KERNEL}, 1);
    pm := new PageAllocator(words, pages, zones, 0, 0, unmapped);
    Described(e820, pm.Now(), described);
  }

  // ---- where the tables lie

  const LONG := 8
  const PAGE_STRUCT := 40      // sizeof(struct Page)
  const ZONE_STRUCT := 80      // sizeof(struct Zone)

  /** `& ~(sizeof(long) - 1)` */
  function LongAlign(a: nat): nat {
    a - a % LONG
  }

  /** `(a + PAGE_4K_SIZE - 1) & PAGE_4K_MASK` */
  function Align4K(a: nat): (r: nat)
    ensures a <= r < a + PAGE_4K && r % PAGE_4K == 0
  {
    (a + PAGE_4K - 1) / PAGE_4K * PAGE_4K
  }

  function BitsLength(n: nat): nat { LongAlign((n + 8 * LONG - 1) / 8) }

  function PagesLength(n: nat): nat { LongAlign(n * PAGE_STRUCT + LONG - 1) }

  function ZonesLength(zones: nat): nat { LongAlign(zones * ZONE_STRUCT + LONG - 1) }

  function PagesStruct(startBrk: nat, n: nat): nat { Align4K(Align4K(startBrk) + BitsLength(n)) }

  function ZonesStruct(startBrk: nat, n: nat): nat { Align4K(PagesStruct(startBrk, n) + PagesLength(n)) }

  /** end_of_struct as init_memory leaves it, for n pages, behind a kernel image that ends at startBrk. */
  function StructEnd(startBrk: nat, n: nat, zones: nat): nat {
    LongAlign(ZonesStruct(startBrk, n) + ZonesLength(zones) + LONG * 32)
  }

  /** Bitmap, page structures and zone structures lie behind the image one after the other, each long enough. */
  lemma TablesApart(startBrk: nat, n: nat, zones: nat)
    ensures 8 * BitsLength(n) == Ceil64(n) && PagesLength(n) >= n * 40
              && ZonesLength(zones) >= zones * 80
    ensures startBrk <= Align4K(startBrk) && Align4K(startBrk) + BitsLength(n) <= PagesStruct(startBrk, n)
    ensures PagesStruct(startBrk, n) + PagesLength(n) <= ZonesStruct(startBrk, n)
              && ZonesStruct(startBrk, n) % PAGE_4K == 0
    ensures ZonesStruct(startBrk, n) + ZonesLength(zones) < StructEnd(startBrk, n, zones)
  {
    BitsExactly(n);
    AlignUp(n * PAGE_STRUCT);
    AlignUp(zones * ZONE_STRUCT);
    AlignUp(ZonesStruct(startBrk, n) + ZonesLength(zones) + LONG * 32 - LONG + 1);
    hide Align4K, LongAlign, BitsLength, Ceil64;
  }

  lemma BitsExactly(n: nat)
    ensures 8 * BitsLength(n) == Ceil64(n)
  {
    var q := (n + 63) / 64;
    assert (n + 63) / 8 == 8 * q + (n + 63) % 64 / 8;
    assert (n + 63) / 8 % 8 == (n + 63) % 64 / 8;
  }

  lemma AlignUp(a: nat)
    ensures a <= LongAlign(a + LONG - 1) < a + LONG
  {}

  /** The end lies as far behind a multiple of 4 KB as the zones and a gap are long. */
  ghost predicate BehindZones(end: nat, zones: nat) {
    end >= ZONE_STRUCT * zones + LONG * 32 && (end - (ZONE_STRUCT * zones + LONG * 32)) % PAGE_4K == 0
  }

  lemma EndBehindZones(startBrk: nat, n: nat, zones: nat)
    ensures BehindZones(StructEnd(startBrk, n, zones), zones) && startBrk <= StructEnd(startBrk, n, zones)
    ensures StructEnd(startBrk, n, zones) == ZonesStruct(startBrk, n) + ZONE_STRUCT * zones + LONG * 32
  {
    TablesApart(startBrk, n, zones);
    hide PagesStruct, PagesLength, ZonesStruct, BitsLength, Align4K, LongAlign;
    ZonesAligned(ZonesStruct(startBrk, n), zones);
  }

  lemma ZonesAligned(a: nat, zones: nat)
    requires a % PAGE_4K == 0
    ensures LongAlign(zones * ZONE_STRUCT + LONG - 1) == ZONE_STRUCT * zones
    ensures LongAlign(a + ZONE_STRUCT * zones + LONG * 32) == a + ZONE_STRUCT * zones + LONG * 32
  {
    assert zones * ZONE_STRUCT + LONG - 1 == LONG * (10 * zones) + 7;
    assert a + ZONE_STRUCT * zones + LONG * 32 == LONG * (512 * (a / PAGE_4K) + 10 * zones + 32);
  }

  // ---- the pages of the kernel

  /** j is a free page of some zone. */
  ghost predicate FreePage(st: State, j: int) {
    && 0 <= j < |st.pages| && j < |st.bits| && !st.bits[j]
    && st.pages[j].zone < |st.zones| && InZone(st.zones[st.pages[j].zone], j)
  }

  ghost predicate FreeRange(st: State, lo: nat, hi: nat) {
    forall j :: lo <= j < hi ==> FreePage(st, j)
  }

  lemma TakenLeaves(st: State, after: State, z: nat, p: nat, hi: nat)
    requires Taken(st, after, z, p) && FreeRange(st, p, hi)
    ensures FreeRange(after, p + 1, hi)
  {
    forall j | p + 1 <= j < hi ensures FreePage(after, j) {
      assert FreePage(st, j);
      assert after.pages[j] == st.pages[j];
      assert after.zones[st.pages[j].zone].first == st.zones[st.pages[j].zone].first;
    }
  }

  method ClaimNext(pm: PageAllocator, j: nat, hi: nat)
    requires pm.Valid() && Sound(pm.Now()) && j < hi && FreeRange(pm.Now(), j, hi)
    modifies pm.words, pm.pages, pm.zones
    ensures pm.Valid() && Sound(pm.Now()) && FreeRange(pm.Now(), j + 1, hi)
    ensures j < |old(pm.Now().bits)| && pm.Now().bits == old(pm.Now().bits)[j := true]
    ensures SameBounds(old(pm.Now().zones), pm.Now().zones)
    ensures old(ForKernel(pm.Now(), 1, j)) && 1 <= j ==> ForKernel(pm.Now(), 1, j + 1)
  {
    ghost var was := pm.Now();
    assert FreePage(was, j) && was.pages[j] == pm.pages[j];
    pm.Claim(j, {PG_PTABLE_MAPED, PG_KERNEL_INIT, PG_KERNEL});
    TakenLeaves(was, pm.Now(), was.pages[j].zone, j, hi);
  }

  /** Pages lo .. hi - 1 are referenced once, by the kernel: mapped, since the start. */
  ghost predicate ForKernel(st: State, lo: nat, hi: nat) {
    forall p :: lo <= p < hi ==> p < |st.pages| && st.pages[p].refs == 1 && {0, 1, 3} <= st.pages[p].attribute
  }

  /**
   The last loop of init_memory: pages 1 .. last hold the kernel and its tables. The source takes
   it for granted that they are free pages of a zone.
   */
  method ClaimKernel(pm: PageAllocator, last: nat)
    requires pm.Valid() && Sound(pm.Now()) && last < pm.pages.Length
    requires FreeRange(pm.Now(), 1, last + 1)
    modifies pm.words, pm.pages, pm.zones
    ensures pm.Valid() && Sound(pm.Now())
    ensures pm.Now().bits == SetRange(old(pm.Now().bits), 1, last, true)
    ensures SameBounds(old(pm.Now().zones), pm.Now().zones) && ForKernel(pm.Now(), 1, last + 1)
  {
    ghost var bits := pm.Now().bits;
    assert SetRange(bits, 1, 0, true) == bits;
    var j := 1;
    while j <= last
      invariant 1 <= j <= last + 1
      invariant pm.Valid() && Sound(pm.Now())
      invariant pm.Now().bits == SetRange(bits, 1, j - 1, true)
      invariant SameBounds(old(pm.Now().zones), pm.Now().zones)
      invariant FreeRange(pm.Now(), j, last + 1) && ForKernel(pm.Now(), 1, j)
    {
      RangeStep(bits, 1, j - 1, true);
      ClaimNext(pm, j, last + 1);
      j := j + 1;
    }
  }
}
