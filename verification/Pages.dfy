// The 2 MB page allocator of memory.c: one bit per page, one counter pair per zone.
module Pages {
  import opened Common
  import opened Words

  const ZONE_DMA := 1
  const ZONE_NORMAL := 2
  const ZONE_UNMAPED := 4

  // Bit numbers inside a page attribute. The source gives PG_Kernel the bit of PG_Dirty
  // and PG_Shared the bit of PG_Active.
  const PG_PTABLE_MAPED := 0
  const PG_KERNEL_INIT := 1
  const PG_KERNEL := 3
  const PG_SHARED := 4

  datatype Page = Page(zone: nat, phys: nat, attribute: set<nat>, refs: nat)

  /** A zone covers the pages [first, last) of the physical address space. */
  datatype Zone = Zone(first: nat, last: nat, using: int, free: int, links: int)

  // ---- the state as a value

  datatype State = State(bits: seq<bool>, zones: seq<Zone>, pages: seq<Page>)

  ghost function SetRange(bits: seq<bool>, p: nat, n: nat, v: bool): (r: seq<bool>)
    requires p + n <= |bits|
    ensures |r| == |bits|
  {
    seq(|bits|, i requires 0 <= i < |bits| => if p <= i < p + n then v else bits[i])
  }

  /** The number of clear bits in [lo, hi). */
  ghost function Clear(bits: seq<bool>, lo: nat, hi: nat): nat
    requires hi <= |bits|
    decreases hi
  {
    if lo >= hi then 0 else Clear(bits, lo, hi - 1) + (if bits[hi - 1] then 0 else 1)
  }

  lemma {:induction false} ClearBounds(bits: seq<bool>, lo: nat, hi: nat)
    requires lo <= hi <= |bits|
    ensures Clear(bits, lo, hi) <= hi - lo
    ensures Clear(bits, lo, hi) > 0 <==> exists i :: lo <= i < hi && !bits[i]
  {
    if lo < hi {
      ClearBounds(bits, lo, hi - 1);
      if Clear(bits, lo, hi) > 0 && bits[hi - 1] {
        var i :| lo <= i < hi - 1 && !bits[i];
      }
    }
  }

  lemma {:induction false} ClearAll(bits: seq<bool>, lo: nat, hi: nat)
    requires lo <= hi <= |bits| && forall i :: lo <= i < hi ==> !bits[i]
    ensures Clear(bits, lo, hi) == hi - lo
  {
    if lo < hi { ClearAll(bits, lo, hi - 1); }
  }

  lemma {:induction false} ClearSame(a: seq<bool>, b: seq<bool>, lo: nat, hi: nat)
    requires hi <= |a| && hi <= |b|
    requires forall i :: lo <= i < hi ==> a[i] == b[i]
    ensures Clear(a, lo, hi) == Clear(b, lo, hi)
    decreases hi
  {
    if lo < hi { ClearSame(a, b, lo, hi - 1); }
  }

  lemma {:induction false} ClearUpdate(bits: seq<bool>, i: nat, v: bool, lo: nat, hi: nat)
    requires lo <= hi <= |bits| && i < |bits|
    ensures Clear(bits[i := v], lo, hi) == Clear(bits, lo, hi)
            + (if lo <= i < hi then (if bits[i] then 1 else 0) - (if v then 1 else 0) else 0)
  {
    if lo < hi { ClearUpdate(bits, i, v, lo, hi - 1); }
  }

  lemma {:induction false} RangeStep(bits: seq<bool>, p: nat, n: nat, v: bool)
    requires p + n < |bits|
    ensures SetRange(bits, p, n, v)[p + n := v] == SetRange(bits, p, n + 1, v)
  {}

  /** Setting a run changes the number of clear bits by the length of the run. */
  lemma {:induction false} ClearRange(bits: seq<bool>, p: nat, n: nat, v: bool, lo: nat, hi: nat)
    requires p + n <= |bits| && lo <= p && p + n <= hi <= |bits|
    requires forall i :: p <= i < p + n ==> bits[i] == !v
    ensures Clear(SetRange(bits, p, n, v), lo, hi) == Clear(bits, lo, hi) + (if v then -(n as int) else n)
    decreases n
  {
    if n == 0 {
      assert SetRange(bits, p, 0, v) == bits;
    } else {
      ClearRange(bits, p, n - 1, v, lo, hi);
      RangeStep(bits, p, n - 1, v);
      ClearUpdate(SetRange(bits, p, n - 1, v), p + n - 1, v, lo, hi);
    }
  }

  /** The first multiple of 64 that is not below i. */
  function Ceil64(i: nat): (r: nat)
    ensures i <= r < i + 64 && r % 64 == 0
  {
    (i + 63) / 64 * 64
  }

  ghost predicate InZone(zone: Zone, i: int) {
    zone.first <= i < zone.last
  }

  /**
   The layout init_memory builds: disjoint zones, every page of a zone described by its own
   page structure, and a set bit for whatever lies outside the zones. The bitmap is followed by
   one word of unrelated memory, which the two-word window may read.
   */
  ghost predicate WellFormed(st: State) {
    && |st.bits| == Ceil64(|st.pages|) + 64
    && 0 < |st.zones|
    && (forall z :: 0 <= z < |st.zones| ==> st.zones[z].first < st.zones[z].last <= |st.pages|)
    && (forall z, i :: 0 <= z < |st.zones| && InZone(st.zones[z], i) ==>
          st.pages[i].zone == z && st.pages[i].phys == i * PAGE_2M)
    && (forall i :: 0 <= i < Ceil64(|st.pages|) && !st.bits[i] ==>
          i < |st.pages| && st.pages[i].zone < |st.zones| && InZone(st.zones[st.pages[i].zone], i))
  }

  /**
   The last page is taken, or the bit behind it is set. That bit lies in the word of unrelated
   memory when the number of pages is a multiple of 64.
   */
  ghost predicate Fenced(st: State)
    requires WellFormed(st)
  {
    |st.pages| == 0 || st.bits[|st.pages| - 1] || st.bits[|st.pages|]
  }

  /** The zone counters agree with the bitmap. */
  ghost predicate Accounted(st: State)
    requires WellFormed(st)
  {
    forall z :: 0 <= z < |st.zones| ==>
      st.zones[z].free == Clear(st.bits, st.zones[z].first, st.zones[z].last) &&
      st.zones[z].using + st.zones[z].free == st.zones[z].last - st.zones[z].first
  }

  ghost function ScanEnd(zone: Zone): (r: nat)
    ensures zone.last <= r < zone.last + 64
  {
    Ceil64(zone.last)
  }

  lemma ScanFits(st: State, z: nat)
    requires WellFormed(st) && z < |st.zones|
    ensures ScanEnd(st.zones[z]) + 64 <= |st.bits|
  {}

  /** No n clear bits in a row start in [from, below). */
  ghost predicate NoRun(bits: seq<bool>, from: nat, below: nat, n: nat)
    requires n < 64 && below + 64 <= |bits|
  {
    forall q :: from <= q < below ==> !ClearRun(bits, q, n)
  }

  /** alloc_pages passes over zone z: its free count is too small or the scan finds no run. */
  ghost predicate Skipped(st: State, z: nat, n: nat)
    requires WellFormed(st) && z < |st.zones| && n < 64
  {
    ScanFits(st, z);
    st.zones[z].free < n || NoRun(st.bits, st.zones[z].first, ScanEnd(st.zones[z]), n)
  }

  /** p is where the scan of zone z stops: the lowest start of n clear bits. */
  ghost predicate FirstRun(st: State, z: nat, n: nat, p: nat)
    requires WellFormed(st) && z < |st.zones| && n < 64
  {
    ScanFits(st, z);
    && n <= st.zones[z].free
    && st.zones[z].first <= p < ScanEnd(st.zones[z])
    && ClearRun(st.bits, p, n)
    && NoRun(st.bits, st.zones[z].first, p, n)
  }

  lemma FirstRunStops(st: State, z: nat, n: nat, p: nat)
    requires WellFormed(st) && z < |st.zones| && n < 64 && FirstRun(st, z, n, p)
    ensures !Skipped(st, z, n)
  {
    ScanFits(st, z);
  }

  ghost function WordStart(j: nat): (r: nat)
    ensures r + j % 64 == j
  {
    j / 64 * 64
  }

  lemma WordEnd(last: nat, j: nat)
    requires j < last
    ensures WordStart(j) + 64 <= Ceil64(last)
  {}

  lemma NoneYet(bits: seq<bool>, from: nat, n: nat)
    requires n < 64 && from + 64 <= |bits|
    ensures NoRun(bits, from, from, n)
  {}

  lemma NextWord(start: nat, end: nat, j: nat)
    requires start <= j < end && (j == start || j % 64 == 0)
    ensures j + (if j % 64 != 0 then 64 - start % 64 else 64) == WordStart(j) + 64
    ensures (WordStart(j) + 64) % 64 == 0 && j < WordStart(j) + 64
    ensures WordStart(j) + 64 < end || WordStart(j) + 64 == Ceil64(end)
  {}

  lemma WordIndex(j: nat, k: nat)
    requires k < 64
    ensures j + k - j % 64 == WordStart(j) + k
    ensures (WordStart(j) + k) / 64 == j / 64 && (WordStart(j) + k) % 64 == k
  {}

  /** A run of clear bits that starts in the page array stays inside it: a single page always, others if fenced. */
  lemma {:induction false} RunHasPages(st: State, p: nat, n: nat)
    requires WellFormed(st) && 0 < n < 64 && p < Ceil64(|st.pages|) && ClearRun(st.bits, p, n)
    requires n > 1 ==> Fenced(st)
    ensures p + n <= |st.pages|
    ensures forall i :: p <= i < p + n ==>
      st.pages[i].zone < |st.zones| && InZone(st.zones[st.pages[i].zone], i) && st.pages[i].phys == i * PAGE_2M
  {
    assert !st.bits[p];
  }

  /** All clear runs stay inside the page array if and only if the fence stands. */
  lemma {:induction false} FenceHolds(st: State)
    requires WellFormed(st)
    ensures Fenced(st) <==> forall p: nat, n: nat :: 0 < n < 64 && p < |st.pages| && ClearRun(st.bits, p, n) ==>
              p + n <= |st.pages|
  {
    if Fenced(st) {
      forall p: nat, n: nat | 0 < n < 64 && p < |st.pages| && ClearRun(st.bits, p, n) ensures p + n <= |st.pages| {
        RunHasPages(st, p, n);
      }
    } else {
      assert ClearRun(st.bits, |st.pages| - 1, 2);
    }
  }

  /** A page outside all zones at the end of the array is a fence that stands for good. */
  lemma LastOutsideFences(st: State)
    requires WellFormed(st) && forall z :: 0 <= z < |st.zones| ==> st.zones[z].last < |st.pages|
    ensures Fenced(st)
  {}

  /** One zone of 64 pages, of which the first and the last are free, before a word that starts with a clear bit. */
  ghost function Unfenced(): State {
    State(seq(128, i => i != 0 && i != 63 && i != 64), [Zone(0, 64, 62, 2, 0)],
          seq(64, i requires 0 <= i < 64 => Page(0, i * PAGE_2M, {}, 0)))
  }

  lemma UnfencedIsSound()
    ensures WellFormed(Unfenced()) && Accounted(Unfenced())
  {
    var bits := Unfenced().bits;
    assert forall i :: 1 <= i < 63 ==> bits[i];
    ClearBounds(bits, 1, 63);
    ClearSplit(bits, 0, 1, 63);
    assert Clear(bits, 0, 1) == 1 && Clear(bits, 0, 64) == Clear(bits, 0, 63) + 1;
  }

  lemma {:induction false} ClearSplit(bits: seq<bool>, lo: nat, mid: nat, hi: nat)
    requires lo <= mid <= hi <= |bits|
    ensures Clear(bits, lo, hi) == Clear(bits, lo, mid) + Clear(bits, mid, hi)
    decreases hi
  {
    if mid < hi { ClearSplit(bits, lo, mid, hi - 1); }
  }

  /** Two pages asked of it are the last page and one behind the page array. */
  lemma RunLeavesPages()
    ensures var st := Unfenced();
      WellFormed(st) && Accounted(st) && !Fenced(st) && FirstRun(st, 0, 2, 63) && 63 + 2 > |st.pages|
  {
    UnfencedIsSound();
    hide WellFormed, Accounted;
    var bits := Unfenced().bits;
    forall q | 0 <= q < 63 ensures !ClearRun(bits, q, 2) { assert bits[if q == 0 then 1 else q]; }
  }

  ghost function MarkPages(pages: seq<Page>, p: nat, n: nat, attribute: set<nat>): (r: seq<Page>)
    requires p + n <= |pages|
    ensures |r| == |pages|
  {
    seq(|pages|, i requires 0 <= i < |pages| =>
      if p <= i < p + n then pages[i].(attribute := attribute) else pages[i])
  }

  ghost function Charge(zone: Zone, n: int): Zone {
    zone.(using := zone.using + n, free := zone.free - n)
  }

  /** The state after pages p .. p + n have been handed out and charged to zone z. */
  ghost function AllocEffect(st: State, z: nat, p: nat, n: nat, attribute: set<nat>): State
    requires z < |st.zones| && p + n <= |st.bits| && p + n <= |st.pages|
  {
    State(SetRange(st.bits, p, n, true),
          st.zones[z := Charge(st.zones[z], n)],
          MarkPages(st.pages, p, n, attribute))
  }

  /** Every page taken back is credited to the zone its page structure names. */
  ghost function CreditZones(zones: seq<Zone>, pages: seq<Page>, p: nat, n: nat): (r: seq<Zone>)
    requires p + n <= |pages|
    requires forall i :: p <= i < p + n ==> pages[i].zone < |zones|
    ensures |r| == |zones|
  {
    if n == 0 then zones
    else
      var zs := CreditZones(zones, pages, p, n - 1);
      var z := pages[p + n - 1].zone;
      zs[z := Charge(zs[z], -1)]
  }

  /** The state after pages p .. p + n have been taken back. */
  ghost function FreeEffect(st: State, p: nat, n: nat): State
    requires p + n <= |st.bits| && p + n <= |st.pages|
    requires forall i :: p <= i < p + n ==> st.pages[i].zone < |st.zones|
  {
    State(SetRange(st.bits, p, n, false),
          CreditZones(st.zones, st.pages, p, n),
          MarkPages(st.pages, p, n, {}))
  }

  lemma {:induction false} CreditOneZone(zones: seq<Zone>, pages: seq<Page>, p: nat, n: nat, z: nat)
    requires p + n <= |pages| && z < |zones|
    requires forall i :: p <= i < p + n ==> pages[i].zone == z
    ensures CreditZones(zones, pages, p, n) == zones[z := Charge(zones[z], -(n as int))]
  {
    if n > 0 { CreditOneZone(zones, pages, p, n - 1, z); }
  }

  lemma {:induction false} FreeStep(st: State, p: nat, n: nat)
    requires p + n < |st.bits| && p + n < |st.pages|
    requires forall i :: p <= i <= p + n ==> st.pages[i].zone < |st.zones|
    ensures FreeEffect(st, p, n + 1) == State(
        FreeEffect(st, p, n).bits[p + n := false],
        var z := st.pages[p + n].zone; FreeEffect(st, p, n).zones[z := Charge(FreeEffect(st, p, n).zones[z], -1)],
        FreeEffect(st, p, n).pages[p + n := st.pages[p + n].(attribute := {})])
  {
    assert SetRange(st.bits, p, n + 1, false) == SetRange(st.bits, p, n, false)[p + n := false];
    assert MarkPages(st.pages, p, n + 1, {})
        == MarkPages(st.pages, p, n, {})[p + n := st.pages[p + n].(attribute := {})];
  }

  // ---- what the search promises

  /** A run that the scan finds lies in its zone exactly when the zone holds a clear run at all. */
  lemma FoundInside(st: State, z: nat, n: nat, p: nat)
    requires WellFormed(st) && z < |st.zones| && 0 < n < 64 && FirstRun(st, z, n, p)
    ensures p + n <= st.zones[z].last <==>
            exists q :: st.zones[z].first <= q && q + n <= st.zones[z].last && ClearRun(st.bits, q, n)
  {
    var zone := st.zones[z];
    if q :| zone.first <= q && q + n <= zone.last && ClearRun(st.bits, q, n) {
      assert !(q < p);
    }
  }

  /** Two zones, of pages 0 to 2 and of pages 3 and 4, with only page 1 in use. */
  ghost function Straddling(): State {
    State(seq(128, i => i == 1 || i >= 5), [Zone(0, 3, 1, 2, 0), Zone(3, 5, 0, 2, 0)],
          seq(5, i requires 0 <= i < 5 => Page(if i < 3 then 0 else 1, i * PAGE_2M, {}, 0)))
  }

  lemma StraddlingIsSound()
    ensures WellFormed(Straddling()) && Accounted(Straddling())
  {
    var st := Straddling();
    assert Clear(st.bits, 0, 3) == 2 by { assert Clear(st.bits, 0, 2) == 1; assert Clear(st.bits, 0, 1) == 1; }
    assert Clear(st.bits, 3, 5) == 2 by { assert Clear(st.bits, 3, 4) == 1; }
  }

  /** Two pages asked of the first zone are pages 2 and 3: one is of the next zone, whose counters are then wrong. */
  lemma RunLeavesZone()
    ensures var st := Straddling();
      && WellFormed(st) && Accounted(st) && FirstRun(st, 0, 2, 2) && 2 + 2 > st.zones[0].last
      && var after := AllocEffect(st, 0, 2, 2, {});
         after.zones[1].free == 2 && Clear(after.bits, 3, 5) == 1
  {
    StraddlingIsSound();
    hide WellFormed, Accounted;
    var st := Straddling();
    var after := AllocEffect(st, 0, 2, 2, {});
    assert Clear(after.bits, 3, 5) == 1 by { assert Clear(after.bits, 3, 4) == 0; }
    assert st.bits[1] && !ClearRun(st.bits, 0, 2) && !ClearRun(st.bits, 1, 2);
  }

  /** With consistent counters a single page always comes from the zone that is charged for it. */
  lemma OnePageInside(st: State, z: nat, p: nat)
    requires WellFormed(st) && Accounted(st) && z < |st.zones| && FirstRun(st, z, 1, p)
    ensures InZone(st.zones[z], p)
  {
    var zone := st.zones[z];
    ClearBounds(st.bits, zone.first, zone.last);
    var q :| zone.first <= q < zone.last && !st.bits[q];
    assert ClearRun(st.bits, q, 1);
    FoundInside(st, z, 1, p);
  }

  /** A set bit right after the zone keeps longer runs inside it too. */
  lemma GuardedInside(st: State, z: nat, n: nat, p: nat)
    requires WellFormed(st) && z < |st.zones| && 0 < n < 64 && FirstRun(st, z, n, p)
    requires forall i :: st.zones[z].last <= i < ScanEnd(st.zones[z]) ==> st.bits[i]
    requires st.bits[st.zones[z].last]
    ensures p + n <= st.zones[z].last
  {
    assert !st.bits[p];
  }

  lemma {:induction false} RunIsClear(bits: seq<bool>, q: nat, n: nat, lo: nat, hi: nat)
    requires lo <= q && q + n <= hi <= |bits| && ClearRun(bits, q, n)
    ensures Clear(bits, lo, hi) >= n
    decreases hi
  {
    if n > 0 {
      if q + n < hi {
        RunIsClear(bits, q, n, lo, hi - 1);
      } else {
        RunIsClear(bits, q, n - 1, lo, hi - 1);
      }
    }
  }

  /** With consistent counters a zone is passed over only if it holds no clear run of that length. */
  lemma SkippedHasNone(st: State, z: nat, n: nat)
    requires WellFormed(st) && Accounted(st) && z < |st.zones| && 0 < n < 64 && Skipped(st, z, n)
    ensures !exists q :: st.zones[z].first <= q && q + n <= st.zones[z].last && ClearRun(st.bits, q, n)
  {
    var zone := st.zones[z];
    if q :| zone.first <= q && q + n <= zone.last && ClearRun(st.bits, q, n) {
      RunIsClear(st.bits, q, n, zone.first, zone.last);
    }
  }

  // ---- accounting

  ghost predicate SameBounds(a: seq<Zone>, b: seq<Zone>) {
    |a| == |b| && forall z :: 0 <= z < |a| ==> a[z].first == b[z].first && a[z].last == b[z].last
  }

  lemma AllocKeepsShape(st: State, z: nat, p: nat, n: nat, attribute: set<nat>)
    requires WellFormed(st) && z < |st.zones| && p + n <= |st.pages| && ClearRun(st.bits, p, n)
    ensures WellFormed(AllocEffect(st, z, p, n, attribute))
  {
    var after := AllocEffect(st, z, p, n, attribute);
    assert SameBounds(st.zones, after.zones);
  }

  /** Handing out clear pages of one zone keeps the counters in step with the bitmap. */
  lemma AllocKeepsAccounts(st: State, z: nat, p: nat, n: nat, attribute: set<nat>)
    requires WellFormed(st) && Accounted(st) && z < |st.zones|
    requires st.zones[z].first <= p && p + n <= st.zones[z].last && ClearRun(st.bits, p, n)
    ensures WellFormed(AllocEffect(st, z, p, n, attribute)) && Accounted(AllocEffect(st, z, p, n, attribute))
  {
    var after := AllocEffect(st, z, p, n, attribute);
    AllocKeepsShape(st, z, p, n, attribute);
    forall k | p <= k < p + n ensures st.pages[k].zone == z { assert InZone(st.zones[z], k); }
    forall i | 0 <= i < |st.zones|
      ensures after.zones[i].free == Clear(after.bits, after.zones[i].first, after.zones[i].last)
    {
      var zone := st.zones[i];
      if i == z {
        ClearRange(st.bits, p, n, true, zone.first, zone.last);
      } else {
        forall k | zone.first <= k < zone.last ensures after.bits[k] == st.bits[k] {
          assert InZone(zone, k);
        }
        ClearSame(st.bits, after.bits, zone.first, zone.last);
      }
    }
  }

  lemma FreeKeepsShape(st: State, z: nat, p: nat, n: nat)
    requires WellFormed(st) && z < |st.zones|
    requires st.zones[z].first <= p && p + n <= st.zones[z].last
    ensures forall i :: p <= i < p + n ==> st.pages[i].zone == z
    ensures WellFormed(FreeEffect(st, p, n))
  {
    forall i | p <= i < p + n ensures st.pages[i].zone == z { assert InZone(st.zones[z], i); }
    CreditOneZone(st.zones, st.pages, p, n, z);
    var after := FreeEffect(st, p, n);
    forall i | 0 <= i < |st.zones|
      ensures after.zones[i].first == st.zones[i].first && after.zones[i].last == st.zones[i].last {}
    forall i | 0 <= i < Ceil64(|st.pages|) && !after.bits[i]
      ensures i < |st.pages| && st.pages[i].zone < |st.zones| && InZone(after.zones[st.pages[i].zone], i)
    {
      if p <= i < p + n { assert InZone(st.zones[z], i); }
    }
  }

  /** Taking back owned pages of one zone keeps the counters in step with the bitmap. */
  lemma FreeKeepsAccounts(st: State, z: nat, p: nat, n: nat)
    requires WellFormed(st) && Accounted(st) && z < |st.zones|
    requires st.zones[z].first <= p && p + n <= st.zones[z].last
    requires forall i :: p <= i < p + n ==> st.bits[i]
    ensures forall i :: p <= i < p + n ==> st.pages[i].zone == z
    ensures WellFormed(FreeEffect(st, p, n)) && Accounted(FreeEffect(st, p, n))
  {
    FreeKeepsShape(st, z, p, n);
    CreditOneZone(st.zones, st.pages, p, n, z);
    var after := FreeEffect(st, p, n);
    forall i | 0 <= i < |st.zones|
      ensures after.zones[i].free == Clear(after.bits, after.zones[i].first, after.zones[i].last)
    {
      var zone := st.zones[i];
      if i == z {
        ClearRange(st.bits, p, n, false, zone.first, zone.last);
      } else {
        forall k | zone.first <= k < zone.last ensures after.bits[k] == st.bits[k] {
          assert InZone(zone, k);
        }
        ClearSame(st.bits, after.bits, zone.first, zone.last);
      }
    }
  }

  /** free_pages undoes alloc_pages on the bitmap, the counters and everything but the attributes. */
  lemma FreeUndoesAlloc(st: State, z: nat, p: nat, n: nat, attribute: set<nat>)
    requires WellFormed(st) && z < |st.zones| && 0 < n < 64 && FirstRun(st, z, n, p)
    requires p + n <= st.zones[z].last
    ensures forall i :: p <= i < p + n ==> AllocEffect(st, z, p, n, attribute).pages[i].zone < |st.zones|
    ensures FreeEffect(AllocEffect(st, z, p, n, attribute), p, n) == st.(pages := MarkPages(st.pages, p, n, {}))
  {
    var mid := AllocEffect(st, z, p, n, attribute);
    forall i | p <= i < p + n ensures mid.pages[i].zone == z { assert InZone(st.zones[z], i); }
    CreditOneZone(mid.zones, mid.pages, p, n, z);
    assert SetRange(mid.bits, p, n, false) == st.bits;
    assert MarkPages(mid.pages, p, n, {}) == MarkPages(st.pages, p, n, {});
  }

  /** No free page carries a reference count. */
  ghost predicate FreeUnreferenced(st: State) {
    forall i :: 0 <= i < |st.pages| && i < |st.bits| && !st.bits[i] ==> st.pages[i].refs == 0
  }

  // ---- the search

  /** The word-by-word search of one zone, pages [start, end): the two inner loops of alloc_pages. */
  method ScanZone(words: array<Word>, start: nat, end: nat, n: nat) returns (hit: bool, p: nat)
    requires start < end && 0 < n < 64 && Ceil64(end) + 64 <= 64 * words.Length
    ensures hit ==> start <= p < Ceil64(end)
    ensures hit ==> ClearRun(Flat(words[..]), p, n) && NoRun(Flat(words[..]), start, p, n)
    ensures !hit ==> NoRun(Flat(words[..]), start, Ceil64(end), n)
  {
    hide ClearRun, NoRun, Flat, WordStart, Ceil64;
    hit, p := false, 0;
    ghost var bits := Flat(words[..]);
    NoneYet(bits, start, n);
    var tmp := 64 - start % 64;
    var j := start;
    while j < end
      invariant start <= j <= Ceil64(end) && (j < end || j == Ceil64(end))
      invariant j == start || j % 64 == 0
      invariant NoRun(bits, start, j, n)
    {
      WordEnd(end, j);
      NextWord(start, end, j);
      hit, p := ScanWord(words, start, j, n);
      if hit {
        return;
      }
      j := j + (if j % 64 != 0 then tmp else 64);
    }
  }

  /** Every start from index j to the end of its word. */
  method ScanWord(words: array<Word>, start: nat, j: nat, n: nat) returns (hit: bool, p: nat)
    requires start <= j && 0 < n < 64 && WordStart(j) + 128 <= 64 * words.Length
    requires NoRun(Flat(words[..]), start, j, n)
    ensures hit ==> j <= p < WordStart(j) + 64
    ensures hit ==> ClearRun(Flat(words[..]), p, n) && NoRun(Flat(words[..]), start, p, n)
    ensures !hit ==> NoRun(Flat(words[..]), start, WordStart(j) + 64, n)
  {
    hit, p := false, 0;
    ghost var bits := Flat(words[..]);
    var k, shift := j % 64, j % 64;
    while k < 64
      invariant shift <= k <= 64
      invariant NoRun(bits, start, WordStart(j) + k, n)
    {
      var clear := Probe(words, j, k, n);
      if clear {
        hit, p := true, j + k - shift;
        return;
      }
      k := k + 1;
    }
  }

  /** The window test at bit k of the word that holds index j. */
  method Probe(words: array<Word>, j: nat, k: nat, n: nat) returns (clear: bool)
    requires 0 < n < 64 && k < 64 && WordStart(j) + 128 <= 64 * words.Length
    ensures clear <==> ClearRun(Flat(words[..]), WordStart(j) + k, n)
  {
    hide Window, And, Low, IsZero;
    var w := j / 64;
    WordIndex(j, k);
    WindowIsRun(words[..], WordStart(j) + k, n);
    clear := WindowTest(words[w], words[w + 1], k, n);
  }

  // ---- the allocator

  /** page_init: new flags, and a first (or shared) reference counted for page and zone. */
  ghost function InitEffect(st: State, p: nat, flags: set<nat>): State
    requires p < |st.pages| && st.pages[p].zone < |st.zones|
  {
    var page := st.pages[p].(attribute := st.pages[p].attribute + flags);
    if page.refs == 0 || PG_SHARED in page.attribute then
      var z := page.zone;
      st.(pages := st.pages[p := page.(refs := page.refs + 1)],
          zones := st.zones[z := st.zones[z].(links := st.zones[z].links + 1)])
    else
      st.(pages := st.pages[p := page])
  }

  /** page_clean: one reference less; an unreferenced page keeps only PG_PTable_Maped. */
  ghost function CleanEffect(st: State, p: nat): State
    requires p < |st.pages| && st.pages[p].zone < |st.zones| && st.pages[p].refs > 0
  {
    var page := st.pages[p].(refs := st.pages[p].refs - 1);
    var z := page.zone;
    st.(pages := st.pages[p := if page.refs == 0 then page.(attribute := page.attribute * {PG_PTABLE_MAPED}) else page],
        zones := st.zones[z := st.zones[z].(links := st.zones[z].links - 1)])
  }

  /** The references to the pages of [lo, hi). */
  ghost function References(pages: seq<Page>, lo: nat, hi: nat): nat
    requires hi <= |pages|
    decreases hi
  {
    if lo >= hi then 0 else References(pages, lo, hi - 1) + pages[hi - 1].refs
  }

  lemma {:induction false} ReferencesUpdate(pages: seq<Page>, p: nat, page: Page, lo: nat, hi: nat)
    requires p < |pages| && hi <= |pages|
    ensures References(pages[p := page], lo, hi)
            == References(pages, lo, hi) + (if lo <= p < hi then page.refs - pages[p].refs else 0)
    decreases hi
  {
    if lo < hi { ReferencesUpdate(pages, p, page, lo, hi - 1); }
  }

  lemma {:induction false} ReferencesSame(a: seq<Page>, b: seq<Page>, lo: nat, hi: nat)
    requires hi <= |a| && hi <= |b| && forall i :: lo <= i < hi ==> a[i].refs == b[i].refs
    ensures References(a, lo, hi) == References(b, lo, hi)
    decreases hi
  {
    if lo < hi { ReferencesSame(a, b, lo, hi - 1); }
  }

  /** total_pages_link of every zone counts the references to its pages. */
  ghost predicate LinksMatch(st: State)
    requires WellFormed(st)
  {
    forall z :: 0 <= z < |st.zones| ==> st.zones[z].links == References(st.pages, st.zones[z].first, st.zones[z].last)
  }

  /** A new reference count of one page, and its zone's links with it. */
  lemma LinksMove(st: State, after: State, p: nat)
    requires WellFormed(st) && WellFormed(after) && LinksMatch(st) && SameBounds(st.zones, after.zones)
    requires p < |st.pages| && st.pages[p].zone < |st.zones| && InZone(st.zones[st.pages[p].zone], p)
    requires |after.pages| == |st.pages|
    requires forall i :: 0 <= i < |st.pages| && i != p ==> after.pages[i].refs == st.pages[i].refs
    requires forall z :: 0 <= z < |st.zones| ==>
               after.zones[z].links
               == st.zones[z].links + (if z == st.pages[p].zone then after.pages[p].refs - st.pages[p].refs else 0)
    ensures LinksMatch(after)
  {
    forall z | 0 <= z < |st.zones|
      ensures after.zones[z].links == References(after.pages, after.zones[z].first, after.zones[z].last)
    {
      ReferencesUpdate(st.pages, p, after.pages[p], st.zones[z].first, st.zones[z].last);
      ReferencesSame(st.pages[p := after.pages[p]], after.pages, st.zones[z].first, st.zones[z].last);
      if InZone(st.zones[z], p) { assert z == st.pages[p].zone; }
    }
  }

  /** page_init counts a reference to a page that has one already if and only if the page is shared. */
  lemma InitCounts(st: State, p: nat, flags: set<nat>)
    requires p < |st.pages| && st.pages[p].zone < |st.zones|
    ensures var page := InitEffect(st, p, flags).pages[p];
      && page.attribute == st.pages[p].attribute + flags
      && (page.refs == st.pages[p].refs + 1 <==> st.pages[p].refs == 0 || 4 in page.attribute)
      && (page.refs != st.pages[p].refs + 1 ==> InitEffect(st, p, flags).zones == st.zones)
      && (page.refs != st.pages[p].refs + 1 ==> page.refs == st.pages[p].refs)
  {}

  /** page_clean leaves the flags alone until the last reference is gone; then only the mapping is left of them. */
  lemma CleanStrips(st: State, p: nat)
    requires p < |st.pages| && st.pages[p].zone < |st.zones| && st.pages[p].refs > 0
    ensures var page := CleanEffect(st, p).pages[p];
      && page.refs == st.pages[p].refs - 1
      && (page.refs > 0 ==> page.attribute == st.pages[p].attribute)
      && (page.refs == 0 ==> page.attribute <= {0} && (0 in page.attribute <==> 0 in st.pages[p].attribute))
  {}

  /** page_init leaves the shape and the accounts alone. */
  lemma InitKeeps(st: State, p: nat, flags: set<nat>)
    requires WellFormed(st) && p < |st.pages| && st.pages[p].zone < |st.zones|
    ensures WellFormed(InitEffect(st, p, flags)) && SameBounds(st.zones, InitEffect(st, p, flags).zones)
    ensures Accounted(st) ==> Accounted(InitEffect(st, p, flags))
  {
    var after := InitEffect(st, p, flags);
    assert SameBounds(st.zones, after.zones);
    forall i | 0 <= i < |st.pages|
      ensures after.pages[i].zone == st.pages[i].zone && after.pages[i].phys == st.pages[i].phys
    {}
  }

  lemma CleanKeeps(st: State, p: nat)
    requires WellFormed(st) && p < |st.pages| && st.pages[p].zone < |st.zones| && st.pages[p].refs > 0
    ensures WellFormed(CleanEffect(st, p)) && SameBounds(st.zones, CleanEffect(st, p).zones)
    ensures Accounted(st) ==> Accounted(CleanEffect(st, p))
  {
    var after := CleanEffect(st, p);
    assert SameBounds(st.zones, after.zones);
    forall i | 0 <= i < |st.pages|
      ensures after.pages[i].zone == st.pages[i].zone && after.pages[i].phys == st.pages[i].phys
    {}
  }

  /** Page p, clear before, is marked and charged to its zone z. */
  ghost predicate Granted(st: State, after: State, z: nat, p: nat) {
    && z < |st.zones| && InZone(st.zones[z], p) && p < |st.bits| && p < |st.pages| == |after.pages|
    && !st.bits[p] && after.bits == st.bits[p := true]
    && SameBounds(st.zones, after.zones)
    && after.zones[z].free == st.zones[z].free - 1
    && (forall i :: 0 <= i < |st.zones| && i != z ==> after.zones[i] == st.zones[i])
    && (forall i :: 0 <= i < |st.pages| && i != p ==> after.pages[i] == st.pages[i])
  }

  /** And it is referenced once. */
  ghost predicate Taken(st: State, after: State, z: nat, p: nat) {
    Granted(st, after, z, p) && after.pages[p].refs == 1
  }

  /** The accounts are right and free pages are unreferenced. */
  ghost predicate Sound(st: State) {
    WellFormed(st) && Accounted(st) && FreeUnreferenced(st) && LinksMatch(st)
  }

  lemma TakeKeepsSound(st: State, z: nat, p: nat, attribute: set<nat>, flags: set<nat>)
    requires Sound(st) && z < |st.zones| && InZone(st.zones[z], p) && !st.bits[p]
    ensures Sound(InitEffect(AllocEffect(st, z, p, 1, attribute), p, flags))
    ensures Taken(st, InitEffect(AllocEffect(st, z, p, 1, attribute), p, flags), z, p)
  {
    var mid := AllocEffect(st, z, p, 1, attribute);
    AllocKeepsAccounts(st, z, p, 1, attribute);
    InitKeeps(mid, p, flags);
    assert SetRange(st.bits, p, 1, true) == st.bits[p := true];
    assert MarkPages(st.pages, p, 1, attribute) == st.pages[p := st.pages[p].(attribute := attribute)];
    LinksMove(st, InitEffect(mid, p, flags), p);
  }

  lemma GrantKeepsSound(st: State, z: nat, p: nat, attribute: set<nat>)
    requires Sound(st) && z < |st.zones| && InZone(st.zones[z], p) && !st.bits[p]
    ensures Sound(AllocEffect(st, z, p, 1, attribute))
    ensures Granted(st, AllocEffect(st, z, p, 1, attribute), z, p)
  {
    AllocKeepsAccounts(st, z, p, 1, attribute);
    assert SetRange(st.bits, p, 1, true) == st.bits[p := true];
    assert MarkPages(st.pages, p, 1, attribute) == st.pages[p := st.pages[p].(attribute := attribute)];
    LinksMove(st, AllocEffect(st, z, p, 1, attribute), p);
  }

  lemma MarkOne(st: State, z: nat, p: nat)
    requires WellFormed(st) && z < |st.zones| && InZone(st.zones[z], p)
    ensures AllocEffect(st, z, p, 1, st.pages[p].attribute)
            == State(st.bits[p := true], st.zones[z := Charge(st.zones[z], 1)], st.pages)
  {
    assert SetRange(st.bits, p, 1, true) == st.bits[p := true];
    assert MarkPages(st.pages, p, 1, st.pages[p].attribute) == st.pages;
  }

  lemma GiveKeepsSound(st: State, z: nat, p: nat)
    requires Sound(st) && z < |st.zones| && InZone(st.zones[z], p) && st.bits[p] && st.pages[p].refs == 1
    ensures FreeUnreferenced(st) && CleanEffect(st, p).pages[p].zone < |CleanEffect(st, p).zones|
    ensures Sound(FreeEffect(CleanEffect(st, p), p, 1))
    ensures Given(st, FreeEffect(CleanEffect(st, p), p, 1), z, p)
  {
    CleanKeeps(st, p);
    hide LinksMatch, Accounted;
    var mid := CleanEffect(st, p);
    FreeKeepsAccounts(mid, z, p, 1);
    GiveChanges(st, z, p);
    LinksMove(st, FreeEffect(mid, p, 1), p);
  }

  lemma GiveChanges(st: State, z: nat, p: nat)
    requires WellFormed(st) && z < |st.zones| && InZone(st.zones[z], p) && st.bits[p] && st.pages[p].refs == 1
    ensures CleanEffect(st, p).pages[p].zone < |CleanEffect(st, p).zones|
    ensures var mid := CleanEffect(st, p);
      var after := FreeEffect(mid, p, 1);
      && Given(st, after, z, p) && (forall i :: 0 <= i < |st.zones| ==> after.zones[i].links == mid.zones[i].links)
      && after.pages == mid.pages[p := mid.pages[p].(attribute := {})]
  {
    var mid := CleanEffect(st, p);
    CreditOneZone(mid.zones, mid.pages, p, 1, z);
    assert SetRange(st.bits, p, 1, false) == st.bits[p := false];
    assert MarkPages(mid.pages, p, 1, {}) == mid.pages[p := mid.pages[p].(attribute := {})];
  }

  /** Page p, taken and referenced once, goes back to its zone z. */
  ghost predicate Given(st: State, after: State, z: nat, p: nat) {
    && z < |st.zones| && InZone(st.zones[z], p) && p < |st.bits| && p < |st.pages| == |after.pages|
    && st.bits[p] && after.bits == st.bits[p := false]
    && SameBounds(st.zones, after.zones)
    && after.zones[z].free == st.zones[z].free + 1
    && (forall i :: 0 <= i < |st.zones| && i != z ==> after.zones[i] == st.zones[i])
    && (forall i :: 0 <= i < |st.pages| && i != p ==> after.pages[i] == st.pages[i])
  }

  /** The zones alloc_pages searches, first and last, with the attribute it gives to pages. */
  datatype Selection = Invalid | Zones(from: nat, to: int, attribute: set<nat>)

  class PageAllocator {
    const words: array<Word>   // bits_map and the word of memory behind it
    const pages: array<Page>   // pages_struct
    const zones: array<Zone>   // zones_struct
    const zoneDma: nat         // ZONE_DMA_INDEX
    const zoneNormal: nat      // ZONE_NORMAL_INDEX
    const zoneUnmapped: nat    // ZONE_UNMAPED_INDEX

    constructor (words: array<Word>, pages: array<Page>, zones: array<Zone>,
                 zoneDma: nat, zoneNormal: nat, zoneUnmapped: nat)
      ensures this.words == words && this.pages == pages && this.zones == zones
      ensures this.zoneDma == zoneDma && this.zoneNormal == zoneNormal && this.zoneUnmapped == zoneUnmapped
    {
      this.words, this.pages, this.zones := words, pages, zones;
      this.zoneDma, this.zoneNormal, this.zoneUnmapped := zoneDma, zoneNormal, zoneUnmapped;
    }

    ghost function Arrays(): set<object> { {words as object, pages as object, zones as object} }

    ghost function Now(): State
      reads words, pages, zones
    {
      State(Flat(words[..]), zones[..], pages[..])
    }

    ghost predicate Valid()
      reads words, pages, zones
    {
      && WellFormed(Now())
      && zoneDma < zones.Length && zoneNormal < zones.Length && zoneUnmapped < zones.Length
    }

    function Select(zoneSelect: int): Selection
    {
      if zoneSelect == ZONE_DMA then Zones(0, zoneDma, {PG_PTABLE_MAPED})
      else if zoneSelect == ZONE_NORMAL then Zones(zoneDma, zoneNormal, {PG_PTABLE_MAPED})
      else if zoneSelect == ZONE_UNMAPED then Zones(zoneUnmapped, zones.Length - 1, {})
      else Invalid
    }

    /**
     The zones that may serve a request: 1 asks for memory that DMA can reach, 2 for memory that the kernel has mapped
     beside that, 4 for memory it has not.
     */
    ghost predicate Searched(zoneSelect: int, z: nat) {
      && z < zones.Length
      && (zoneSelect == 1 ==> z <= zoneDma)
      && (zoneSelect == 2 ==> zoneDma <= z <= zoneNormal)
      && (zoneSelect == 4 ==> zoneUnmapped <= z)
    }

    lemma SelectSearches(zoneSelect: int)
      requires Valid()
      ensures Select(zoneSelect) == Invalid <==> zoneSelect !in {1, 2, 4}
      ensures var s := Select(zoneSelect);
        s != Invalid ==>
          && s.to < zones.Length && s.attribute == (if zoneSelect == 4 then {} else {0})
          && forall z: nat :: Searched(zoneSelect, z) <==> s.from <= z <= s.to
    {}

    /**
     alloc_pages. Fails exactly when the request is invalid or every selected zone is passed
     over; otherwise takes the lowest run of the first zone that is not, and charges that zone.
     */
    method AllocPages(zoneSelect: int, number: int) returns (page: Option<nat>, ghost zone: nat)
      requires Valid() && (1 < number < 64 ==> Fenced(Now()))
      modifies words, pages, zones
      ensures Valid()
      ensures page == None ==> Now() == old(Now())
      ensures page == None <==>
              || !(0 < number < 64)
              || zoneSelect !in {1, 2, 4}
              || forall z: nat :: Searched(zoneSelect, z) ==> Skipped(old(Now()), z, number)
      ensures page.Some? ==>
              && Searched(zoneSelect, zone)
              && (forall z: nat :: Searched(zoneSelect, z) && z < zone ==> Skipped(old(Now()), z, number))
              && FirstRun(old(Now()), zone, number, page.value)
              && page.value + number <= pages.Length
              && Now() == AllocEffect(old(Now()), zone, page.value, number, if zoneSelect == 4 then {} else {0})
    {
      hide Select, Searched, ClearRun, NoRun;
      page, zone := None, 0;
      if number >= 64 || number <= 0 {
        return;
      }
      var selection := Select(zoneSelect);
      SelectSearches(zoneSelect);
      if selection == Invalid {
        return;
      }
      var n: nat := number;
      ghost var was := Now();
      var i: nat := selection.from;
      while i <= selection.to
        invariant Now() == was
        invariant selection.from <= i && (i <= selection.to + 1 || i == selection.from)
        invariant forall z :: selection.from <= z < i ==> Skipped(was, z, n)
      {
        if zones[i].free >= n {
          ScanFits(was, i);
          var hit, p := ScanZone(words, zones[i].first, zones[i].last, n);
          if hit {
            RunHasPages(was, p, n);
            FirstRunStops(was, i, n, p);
            MarkRun(i, p, n, selection.attribute);
            AllocKeepsShape(was, i, p, n, selection.attribute);
            page, zone := Some(p), i;
            return;
          }
        }
        i := i + 1;
      }
    }

    /** The marking loop of alloc_pages. */
    method MarkRun(z: nat, p: nat, n: nat, attribute: set<nat>)
      requires Valid() && z < zones.Length && p + n <= pages.Length && 0 < n
      requires forall i :: p <= i < p + n ==> pages[i].phys == i * PAGE_2M
      modifies words, pages, zones
      ensures Now() == AllocEffect(old(Now()), z, p, n, attribute)
    {
      ghost var was := Now();
      var l := 0;
      while l < n
        invariant 0 <= l <= n
        invariant l == 0 ==> Now() == was
        invariant l > 0 ==> Now() == AllocEffect(was, z, p, l, attribute)
      {
        assert Now().pages[p + l] == was.pages[p + l];
        SetBit(words, pages[p + l].phys / PAGE_2M);
        zones[z] := zones[z].(using := zones[z].using + 1, free := zones[z].free - 1);
        pages[p + l] := pages[p + l].(attribute := attribute);
        l := l + 1;
      }
    }

    /** free_pages. Nothing happens on a null page or an invalid number. */
    method FreePages(page: Option<nat>, number: int)
      requires Valid()
      requires page.Some? && 0 < number < 64 ==> page.value + number <= pages.Length
      requires page.Some? && 0 < number < 64 ==> forall i :: page.value <= i < page.value + number ==>
                 pages[i].zone < zones.Length && InZone(zones[pages[i].zone], i)
      modifies words, pages, zones
      ensures Now() == if page.Some? && 0 < number < 64
                       then FreeEffect(old(Now()), page.value, number)
                       else old(Now())
    {
      if page == None || number >= 64 || number <= 0 {
        return;
      }
      ReleaseRun(page.value, number);
    }

    /** The loop of free_pages. */
    method ReleaseRun(p: nat, n: nat)
      requires p + n <= pages.Length && p + n <= 64 * words.Length
      requires forall i :: p <= i < p + n ==> pages[i].zone < zones.Length && pages[i].phys == i * PAGE_2M
      modifies words, pages, zones
      ensures Now() == FreeEffect(old(Now()), p, n)
    {
      ghost var was := Now();
      assert SetRange(was.bits, p, 0, false) == was.bits;
      assert MarkPages(was.pages, p, 0, {}) == was.pages;
      var i := 0;
      while i < n
        invariant 0 <= i <= n
        invariant Now() == FreeEffect(was, p, i)
      {
        assert Now().pages[p + i] == was.pages[p + i];
        ClearBit(words, pages[p + i].phys / PAGE_2M);
        var z := pages[p + i].zone;
        zones[z] := zones[z].(using := zones[z].using - 1, free := zones[z].free + 1);
        pages[p + i] := pages[p + i].(attribute := {});
        FreeStep(was, p, i);
        i := i + 1;
      }
    }

    /** page_init */
    method PageInit(p: nat, flags: set<nat>)
      requires p < pages.Length && pages[p].zone < zones.Length
      modifies pages, zones
      ensures Now() == InitEffect(old(Now()), p, flags)
    {
      pages[p] := pages[p].(attribute := pages[p].attribute + flags);
      if pages[p].refs == 0 || PG_SHARED in pages[p].attribute {
        pages[p] := pages[p].(refs := pages[p].refs + 1);
        var z := pages[p].zone;
        zones[z] := zones[z].(links := zones[z].links + 1);
      }
    }

    /** page_clean */
    method PageClean(p: nat)
      requires p < pages.Length && pages[p].zone < zones.Length && pages[p].refs > 0
      modifies pages, zones
      ensures Now() == CleanEffect(old(Now()), p)
    {
      pages[p] := pages[p].(refs := pages[p].refs - 1);
      var z := pages[p].zone;
      zones[z] := zones[z].(links := zones[z].links - 1);
      if pages[p].refs == 0 {
        pages[p] := pages[p].(attribute := pages[p].attribute * {PG_PTABLE_MAPED});
      }
    }

    method ChargePage(z: nat, p: nat)
      requires z < zones.Length && p < pages.Length && p < 64 * words.Length && pages[p].phys == p * PAGE_2M
      modifies words, zones
      ensures Now() == State(old(Now()).bits[p := true],
                             old(Now()).zones[z := Charge(old(Now()).zones[z], 1)],
                             old(Now()).pages)
    {
      SetBit(words, pages[p].phys / PAGE_2M);
      zones[z] := zones[z].(using := zones[z].using + 1, free := zones[z].free - 1);
    }

    /**
     Mark a free page as taken, charge its zone and initialise it, as init_memory and slab_init
     do for the pages of the kernel image and of the boot slabs.
     */
    method Claim(p: nat, flags: set<nat>)
      requires Valid() && Sound(Now())
      requires p < pages.Length && pages[p].zone < zones.Length && InZone(zones[pages[p].zone], p) && !Now().bits[p]
      modifies words, pages, zones
      ensures Valid() && Sound(Now())
      ensures Taken(old(Now()), Now(), old(pages[p].zone), p) && pages[p].attribute == old(pages[p].attribute) + flags
    {
      ghost var was := Now();
      var z := pages[p].zone;
      ChargePage(z, p);
      MarkOne(was, z, p);
      TakeKeepsSound(was, z, p, was.pages[p].attribute, flags);
      PageInit(p, flags);
    }

    /** alloc_pages(ZONE_NORMAL, 1): a page of zone 0, as long as it has one. */
    method GrantPage() returns (page: Option<nat>)
      requires Valid() && Sound(Now()) && zoneDma == 0 && zoneNormal == 0
      modifies words, pages, zones
      ensures Valid() && Sound(Now())
      ensures page == None <==> old(zones[0].free) == 0
      ensures page == None ==> Now() == old(Now())
      ensures page.Some? ==> Granted(old(Now()), Now(), 0, page.value)
      ensures page.Some? ==> page.value < pages.Length && pages[page.value].phys == page.value * PAGE_2M
      ensures page.Some? ==> Now() == AllocEffect(old(Now()), 0, page.value, 1, {0})
    {
      ghost var was := Now();
      ghost var zone;
      page, zone := AllocPages(ZONE_NORMAL, 1);
      if page == None {
        assert Skipped(was, 0, 1);
        SkippedHasNone(was, 0, 1);
        NoneFree(was, 0);
        return;
      }
      OnePageInside(was, 0, page.value);
      GrantKeepsSound(was, 0, page.value, {PG_PTABLE_MAPED});
    }

    /** Where kmalloc_create starts: such a page, initialised for the kernel. */
    method TakePage() returns (page: Option<nat>)
      requires Valid() && Sound(Now()) && zoneDma == 0 && zoneNormal == 0
      modifies words, pages, zones
      ensures Valid() && Sound(Now())
      ensures page == None <==> old(zones[0].free) == 0
      ensures page == None ==> Now() == old(Now())
      ensures page.Some? ==> Taken(old(Now()), Now(), 0, page.value) && pages[page.value].attribute == {0, 3}
    {
      ghost var was := Now();
      page := GrantPage();
      if page == None {
        return;
      }
      TakeKeepsSound(was, 0, page.value, {PG_PTABLE_MAPED}, {PG_KERNEL});
      PageInit(page.value, {PG_KERNEL});
    }

    /** Where a slab's page goes back: page_clean and free_pages. */
    method GivePage(p: nat)
      requires Valid() && Sound(Now())
      requires 0 < zones.Length && p < pages.Length && InZone(zones[0], p) && Now().bits[p] && pages[p].refs == 1
      modifies words, pages, zones
      ensures Valid() && Sound(Now())
      ensures Given(old(Now()), Now(), 0, p)
    {
      ghost var was := Now();
      GiveKeepsSound(was, 0, p);
      CleanKeeps(was, p);
      PageClean(p);
      FreePages(Some(p), 1);
    }
  }

  lemma NoneFree(st: State, z: nat)
    requires WellFormed(st) && Accounted(st) && z < |st.zones|
    requires !exists q :: st.zones[z].first <= q && q + 1 <= st.zones[z].last && ClearRun(st.bits, q, 1)
    ensures st.zones[z].free == 0
  {
    ClearBounds(st.bits, st.zones[z].first, st.zones[z].last);
    forall q | st.zones[z].first <= q < st.zones[z].last ensures st.bits[q] <==> !ClearRun(st.bits, q, 1) {}
  }
}
