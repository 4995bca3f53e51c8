// The three-level page tables of a process, and the plain map from pages to frames they stand for.
module PageTables {
  import opened Common

  const ENTRIES := 512
  const USER_ENTRIES := 256          // entries 256 and up of the top table map the kernel
  const USER_PAGES := 0x400_0000     // 2 MB pages below 2^47
  const PAGE_USER_TABLE := 0x7       // PAGE_USER_GDT and PAGE_USER_Dir
  const PAGE_USER_PAGE := 0x87

  type Entry = nat

  // ---- page tables as values

  /**
   The tables of one address space by physical address. The level of a table is 4 for the top
   table, then 3 and 2; an entry of a table of level 2 maps a 2 MB page.
   */
  datatype Space = Space(pgd: nat, tables: map<nat, seq<Entry>>, level: map<nat, nat>)

  /** `entry & ~0xfffUL` */
  function Target(entry: nat): nat {
    entry - entry % PAGE_4K
  }

  /** `addr | attr` for an address with twelve low zero bits. */
  function Linked(addr: nat, attr: nat): Entry {
    addr + attr
  }

  function EmptyTable(): (r: seq<Entry>)
    ensures |r| == ENTRIES && forall k :: 0 <= k < ENTRIES ==> r[k] == 0
  {
    seq(ENTRIES, k => 0)
  }

  function Put(table: seq<Entry>, i: nat, e: Entry): (r: seq<Entry>)
    requires i < |table|
    ensures |r| == |table|
  {
    table[i := e]
  }

  // The three nine-bit indices of a 2 MB page number.
  function Index4(n: nat): nat { n / 0x4_0000 % ENTRIES }
  function Index3(n: nat): nat { n / 0x200 % ENTRIES }
  function Index2(n: nat): nat { n % ENTRIES }

  lemma Recompose(n: nat)
    requires n < USER_PAGES
    ensures Index4(n) < USER_ENTRIES && n == 0x4_0000 * Index4(n) + 0x200 * Index3(n) + Index2(n)
  {
    var q := n / 0x200;
    assert n == 0x200 * q + Index2(n);
    assert q == 0x200 * (q / 0x200) + Index3(n);
    assert n / 0x4_0000 == q / 0x200;
  }

  /** The index split is injective on user pages. */
  lemma SplitUnique(m: nat, n: nat)
    requires m < USER_PAGES && n < USER_PAGES
    ensures Index4(m) < USER_ENTRIES
    ensures Index4(m) == Index4(n) && Index3(m) == Index3(n) && Index2(m) == Index2(n) ==> m == n
  {
    Recompose(m);
    Recompose(n);
  }

  /** Entry i of table t is one that user translations go through. */
  ghost predicate Inner(s: Space, t: nat, i: int) {
    && t in s.tables && t in s.level && 0 <= i < ENTRIES && i < |s.tables[t]|
    && (s.level[t] == 3 || (s.level[t] == 4 && i < USER_ENTRIES))
  }

  /** The user half is a tree: every table but the top one hangs on exactly one entry. */
  ghost predicate Tree(s: Space) {
    && s.pgd in s.tables && s.level.Keys == s.tables.Keys
    && (forall t <- s.tables :: |s.tables[t]| == ENTRIES && t % PAGE_4K == 0 && 2 <= s.level[t] <= 4)
    && (forall t <- s.tables :: s.level[t] == 4 <==> t == s.pgd)
    && (forall t, i :: Inner(s, t, i) && s.tables[t][i] != 0 ==>
          Target(s.tables[t][i]) in s.tables && s.level[Target(s.tables[t][i])] == s.level[t] - 1)
    && (forall t, i, u, j :: Inner(s, t, i) && Inner(s, u, j) && s.tables[t][i] != 0 && s.tables[u][j] != 0 ==>
          (Target(s.tables[t][i]) == Target(s.tables[u][j]) ==> t == u && i == j))
  }

  /** What an entry leads to; zero is the empty entry. */
  function Followed(e: Entry): Option<nat> {
    if e == 0 then None else Some(Target(e))
  }

  /** The level 3 table that page n goes through, if there is one. */
  ghost function Walk3(s: Space, n: nat): Option<nat>
    requires Tree(s) && n < USER_PAGES
    ensures Walk3(s, n).Some? ==> Inner(s, Walk3(s, n).value, Index3(n)) && s.level[Walk3(s, n).value] == 3
  {
    SplitUnique(n, n);
    assert Inner(s, s.pgd, Index4(n));
    Followed(s.tables[s.pgd][Index4(n)])
  }

  /** The level 2 table that page n goes through, if there is one. */
  ghost function Walk2(s: Space, n: nat): Option<nat>
    requires Tree(s) && n < USER_PAGES
    ensures Walk2(s, n).Some? ==> Walk2(s, n).value in s.tables && s.level[Walk2(s, n).value] == 2
  {
    var t := Walk3(s, n);
    if t.None? then None else Followed(s.tables[t.value][Index3(n)])
  }

  /** What the processor's walk finds for user page n. */
  ghost function Translate(s: Space, n: nat): Option<nat>
    requires Tree(s) && n < USER_PAGES
  {
    var t := Walk2(s, n);
    if t.None? then None else Followed(s.tables[t.value][Index2(n)])
  }

  // ---- what the processor makes of the entries ("4-Level Paging" in the Intel SDM, volume 3A)

  predicate Present(e: Entry) { e % 2 == 1 }
  predicate Writable(e: Entry) { e / 2 % 2 == 1 }
  predicate UserMode(e: Entry) { e / 4 % 2 == 1 }
  predicate PageSize(e: Entry) { e / 0x80 % 2 == 1 }

  /** A user-mode write goes through this entry. */
  predicate Opens(e: Entry) { Present(e) && Writable(e) && UserMode(e) }

  ghost function Stored(s: Space, t: nat, i: nat): Entry {
    if t in s.tables && i < |s.tables[t]| then s.tables[t][i] else 0
  }

  /** The table that a user-mode write goes to from entry i of table t. */
  ghost function Below(s: Space, t: nat, i: nat): Option<nat> {
    var e := Stored(s, t, i);
    if Opens(e) && !PageSize(e) then Some(Target(e)) else None
  }

  /** The physical address that a user-mode write to address a reaches; without one it faults. */
  ghost function UserWrite(s: Space, a: nat): Option<nat> {
    var t3 := Below(s, s.pgd, a / 0x80_0000_0000 % ENTRIES);
    var t2 := if t3.None? then None else Below(s, t3.value, a / 0x4000_0000 % ENTRIES);
    var e := if t2.None? then 0 else Stored(s, t2.value, a / 0x20_0000 % ENTRIES);
    if Opens(e) && PageSize(e) then Some(e - e % PAGE_2M + a % PAGE_2M) else None
  }

  ghost predicate Last(s: Space, t: nat, i: int) {
    t in s.tables && t in s.level && s.level[t] == 2 && 0 <= i < |s.tables[t]|
  }

  /**
   An entry is empty, or user-mode writes go through it: to a table, or in a table of level 2 to a 2 MB page. It asks
   the processor for nothing else.
   */
  ghost predicate Marked(s: Space) {
    && (forall t, i :: Inner(s, t, i) && s.tables[t][i] != 0 ==>
          Opens(s.tables[t][i]) && !PageSize(s.tables[t][i]) && s.tables[t][i] % PAGE_4K == 0x7)
    && (forall t, i :: Last(s, t, i) && s.tables[t][i] != 0 ==>
          Opens(s.tables[t][i]) && PageSize(s.tables[t][i]) && s.tables[t][i] % PAGE_2M == 0x87)
  }

  lemma IndicesOf(a: nat)
    requires a < USER_PAGES * PAGE_2M
    ensures a / PAGE_2M < USER_PAGES && a / 0x20_0000 % ENTRIES == Index2(a / PAGE_2M)
    ensures a / 0x80_0000_0000 % ENTRIES == Index4(a / PAGE_2M) && a / 0x4000_0000 % ENTRIES == Index3(a / PAGE_2M)
  {
    assert a / PAGE_2M / 0x200 == a / 0x4000_0000 && a / PAGE_2M / 0x4_0000 == a / 0x80_0000_0000;
  }

  /** User-mode writes go where Translate says, and fault where it finds nothing. */
  lemma UserWriteIs(s: Space, a: nat)
    requires Tree(s) && Marked(s) && a < USER_PAGES * PAGE_2M
    ensures a / PAGE_2M < USER_PAGES
    ensures var f := Translate(s, a / PAGE_2M); UserWrite(s, a) == if f.Some? then Some(f.value + a % PAGE_2M) else None
  {
    var n := a / PAGE_2M;
    IndicesOf(a);
    SplitUnique(n, n);
    assert Inner(s, s.pgd, Index4(n));
    var t2 := Walk2(s, n);
    if t2.Some? {
      assert Last(s, t2.value, Index2(n));
      WholePage(s.tables[t2.value][Index2(n)]);
    }
  }

  lemma WholePage(e: Entry)
    ensures e % PAGE_2M < PAGE_4K ==> e - e % PAGE_2M == Target(e)
  {}

  // ---- the two ways do_brk changes the tables

  /** A new empty table p is hung on entry i of table t. */
  ghost function AddTable(s: Space, t: nat, i: nat, p: nat): Space
    requires t in s.tables && t in s.level && i < |s.tables[t]| && s.level[t] > 0
  {
    Space(s.pgd, s.tables[t := Put(s.tables[t], i, Linked(p, PAGE_USER_TABLE))][p := EmptyTable()],
          s.level[p := s.level[t] - 1])
  }

  ghost predicate FreshTable(s: Space, p: nat) {
    p !in s.tables && p % PAGE_4K == 0
  }

  lemma TableEntry(p: nat)
    requires p % PAGE_4K == 0
    ensures Target(Linked(p, PAGE_USER_TABLE)) == p && Target(Linked(p, PAGE_USER_PAGE)) == p
  {}

  /** The attributes do_brk gives to a table and to a page. */
  lemma AttributesOpen(p: nat)
    requires p % PAGE_4K == 0
    ensures var e := Linked(p, PAGE_USER_TABLE); Opens(e) && !PageSize(e) && e % PAGE_4K == 0x7
    ensures var e := Linked(p, PAGE_USER_PAGE); Opens(e) && PageSize(e) && (p % PAGE_2M == 0 ==> e % PAGE_2M == 0x87)
  {
    LowBits(p / PAGE_4K, PAGE_USER_TABLE);
    LowBits(p / PAGE_4K, PAGE_USER_PAGE);
  }

  /** The bits of an entry that the processor looks at are those of its attributes. */
  lemma LowBits(k: nat, attr: nat)
    requires attr < 0x100
    ensures var e := PAGE_4K * k + attr;
      e % 2 == attr % 2 && e / 2 % 2 == attr / 2 % 2 && e / 4 % 2 == attr / 4 % 2 && e / 0x80 % 2 == attr / 0x80 % 2
  {
    LowBit(k, attr, 1);
    LowBit(k, attr, 2);
    LowBit(k, attr, 4);
    LowBit(k, attr, 0x80);
  }

  lemma LowBit(k: nat, attr: nat, d: nat)
    requires d in {1, 2, 4, 0x80}
    ensures (PAGE_4K * k + attr) / d % 2 == attr / d % 2
  {
    var m := if d == 1 then 2048 else if d == 2 then 1024 else if d == 4 then 512 else 16;
    assert m * d * 2 == PAGE_4K;
    assert (PAGE_4K * k + attr) / d == 2 * (m * k) + attr / d;
  }

  lemma AddKeepsMarked(s: Space, t: nat, i: nat, p: nat)
    requires Tree(s) && Marked(s) && Inner(s, t, i) && s.tables[t][i] == 0 && FreshTable(s, p)
    ensures Marked(AddTable(s, t, i, p))
  {
    AttributesOpen(p);
    hide Opens, PageSize;
    var a := AddTable(s, t, i, p);
    assert a.tables[p] == EmptyTable();
    forall u, j | Inner(a, u, j) && a.tables[u][j] != 0
      ensures (u == t && j == i) || (Inner(s, u, j) && a.tables[u][j] == s.tables[u][j]) {}
    forall u, j | Last(a, u, j) && a.tables[u][j] != 0 ensures Last(s, u, j) && a.tables[u][j] == s.tables[u][j] {}
  }

  lemma AddKeepsTree(s: Space, t: nat, i: nat, p: nat)
    requires Tree(s) && Inner(s, t, i) && s.tables[t][i] == 0 && FreshTable(s, p)
    ensures Tree(AddTable(s, t, i, p))
  {
    var a := AddTable(s, t, i, p);
    TableEntry(p);
    assert a.tables[p] == EmptyTable();
    forall u, j | Inner(a, u, j) && a.tables[u][j] != 0
      ensures (u == t && j == i && Target(a.tables[u][j]) == p) ||
              (Inner(s, u, j) && a.tables[u][j] == s.tables[u][j] && Target(a.tables[u][j]) in s.tables)
    {}
  }

  /** Hanging up an empty table changes no translation. */
  lemma AddTranslatesSame(s: Space, t: nat, i: nat, p: nat, n: nat)
    requires Tree(s) && Inner(s, t, i) && s.tables[t][i] == 0 && FreshTable(s, p) && n < USER_PAGES
    requires Tree(AddTable(s, t, i, p))
    ensures Translate(AddTable(s, t, i, p), n) == Translate(s, n)
  {
    TableEntry(p);
  }

  /** Entry i of the level 2 table t maps page f. */
  ghost function SetLeaf(s: Space, t: nat, i: nat, f: nat): Space
    requires t in s.tables && i < |s.tables[t]|
  {
    Space(s.pgd, s.tables[t := Put(s.tables[t], i, Linked(f, PAGE_USER_PAGE))], s.level)
  }

  lemma LeafKeepsTree(s: Space, t: nat, i: nat, f: nat)
    requires Tree(s) && t in s.tables && s.level[t] == 2 && i < ENTRIES
    ensures Tree(SetLeaf(s, t, i, f))
  {
    var a := SetLeaf(s, t, i, f);
    forall u, j | Inner(a, u, j) ensures Inner(s, u, j) && a.tables[u][j] == s.tables[u][j] {}
  }

  lemma LeafKeepsMarked(s: Space, t: nat, i: nat, f: nat)
    requires Tree(s) && Marked(s) && t in s.tables && s.level[t] == 2 && i < ENTRIES && f % PAGE_2M == 0
    ensures Marked(SetLeaf(s, t, i, f))
  {
    assert f % PAGE_4K == 0;
    AttributesOpen(f);
    hide Opens, PageSize;
    var a := SetLeaf(s, t, i, f);
    forall u, j | Inner(a, u, j) ensures Inner(s, u, j) && a.tables[u][j] == s.tables[u][j] {}
    forall u, j | Last(a, u, j) ensures Last(s, u, j) && ((u == t && j == i) || a.tables[u][j] == s.tables[u][j]) {}
  }

  /** Two pages that share a level 3 or level 2 table agree in the indices above it. */
  lemma SharedWalk(s: Space, m: nat, n: nat)
    requires Tree(s) && m < USER_PAGES && n < USER_PAGES
    ensures Walk3(s, m).Some? && Walk3(s, m) == Walk3(s, n) ==> Index4(m) == Index4(n)
    ensures Walk2(s, m).Some? && Walk2(s, m) == Walk2(s, n) ==> Index4(m) == Index4(n) && Index3(m) == Index3(n)
  {
    SplitUnique(m, n);
    SplitUnique(n, m);
    assert Inner(s, s.pgd, Index4(m)) && Inner(s, s.pgd, Index4(n));
  }

  /** Setting the leaf of page n changes the translation of n and of no other page. */
  lemma LeafTranslates(s: Space, n: nat, f: nat, m: nat)
    requires Tree(s) && n < USER_PAGES && m < USER_PAGES && f % PAGE_4K == 0 && Walk2(s, n).Some?
    requires Tree(SetLeaf(s, Walk2(s, n).value, Index2(n), f))
    ensures Translate(SetLeaf(s, Walk2(s, n).value, Index2(n), f), m) == if m == n then Some(f) else Translate(s, m)
  {
    var t := Walk2(s, n).value;
    var a := SetLeaf(s, t, Index2(n), f);
    TableEntry(f);
    SharedWalk(s, m, n);
    SplitUnique(m, n);
    assert Walk3(a, m) == Walk3(s, m);
    assert Walk2(a, m) == Walk2(s, m);
  }

  // ---- the tables as a plain map from pages to frames

  ghost function Plain(s: Space): map<nat, nat>
    requires Tree(s)
  {
    map n: nat | 0 <= n < USER_PAGES && Translate(s, n).Some? :: Translate(s, n).value
  }

  /** A user-mode write goes to the frame of its page, and faults on a page that has none. */
  ghost predicate WritesGoTo(s: Space, m: map<nat, nat>) {
    forall a: nat :: a < USER_PAGES * PAGE_2M ==>
      UserWrite(s, a) == if a / PAGE_2M in m then Some(m[a / PAGE_2M] + a % PAGE_2M) else None
  }

  lemma PlainIsWritten(s: Space)
    requires Tree(s) && Marked(s)
    ensures WritesGoTo(s, Plain(s))
  {
    hide Tree, Marked, UserWrite, Translate;
    forall a: nat | a < USER_PAGES * PAGE_2M
      ensures UserWrite(s, a) == if a / PAGE_2M in Plain(s) then Some(Plain(s)[a / PAGE_2M] + a % PAGE_2M) else None
    {
      UserWriteIs(s, a);
    }
  }

  lemma AddKeepsPlain(s: Space, t: nat, i: nat, p: nat)
    requires Tree(s) && Inner(s, t, i) && s.tables[t][i] == 0 && FreshTable(s, p)
    ensures Tree(AddTable(s, t, i, p)) && Plain(AddTable(s, t, i, p)) == Plain(s)
  {
    AddKeepsTree(s, t, i, p);
    forall n: nat | n < USER_PAGES ensures Translate(AddTable(s, t, i, p), n) == Translate(s, n) {
      AddTranslatesSame(s, t, i, p, n);
    }
  }

  lemma LeafExtendsPlain(s: Space, n: nat, f: nat)
    requires Tree(s) && n < USER_PAGES && f % PAGE_4K == 0 && Walk2(s, n).Some?
    ensures var a := SetLeaf(s, Walk2(s, n).value, Index2(n), f);
            Tree(a) && Plain(a) == Plain(s)[n := f]
  {
    var a := SetLeaf(s, Walk2(s, n).value, Index2(n), f);
    LeafKeepsTree(s, Walk2(s, n).value, Index2(n), f);
    forall m: nat | m < USER_PAGES ensures Translate(a, m) == if m == n then Some(f) else Translate(s, m) {
      LeafTranslates(s, n, f, m);
    }
  }

  /** The tables after one level of the walk: p is hung on the entry if that was empty. */
  ghost function Reached(s: Space, t: nat, i: nat, p: nat): Space
    requires t in s.tables && t in s.level && i < |s.tables[t]| && s.level[t] > 0
  {
    if s.tables[t][i] != 0 then s else AddTable(s, t, i, p)
  }

  ghost predicate Hangable(s: Space, t: nat, i: nat, p: nat) {
    Tree(s) && Inner(s, t, i) && (s.tables[t][i] == 0 ==> FreshTable(s, p))
  }

  lemma ReachedKeeps(s: Space, t: nat, i: nat, p: nat)
    requires Hangable(s, t, i, p)
    ensures var a := Reached(s, t, i, p);
      && Tree(a) && Plain(a) == Plain(s) && t in a.tables && i < |a.tables[t]| && a.tables[t][i] != 0
      && (forall q :: FreshTable(s, q) && q != p ==> FreshTable(a, q))
      && (s.tables[t][i] != 0 ==> a == s)
  {
    if s.tables[t][i] == 0 {
      hide Plain, Tree;
      AddKeepsPlain(s, t, i, p);
    }
  }

  /** The first level of the walk for page n. */
  lemma ReachedThree(s: Space, n: nat, p: nat)
    requires n < USER_PAGES && Hangable(s, s.pgd, Index4(n), p)
    ensures var a := Reached(s, s.pgd, Index4(n), p);
      && Tree(a) && a.pgd == s.pgd && a.pgd in a.tables && Index4(n) < |a.tables[a.pgd]|
      && Walk3(a, n) == Some(Target(a.tables[a.pgd][Index4(n)]))
      && (s.tables[s.pgd][Index4(n)] == 0 ==> Missing(s, n) == 2 && Missing(a, n) == 1)
  {
    ReachedKeeps(s, s.pgd, Index4(n), p);
    if s.tables[s.pgd][Index4(n)] == 0 {
      TableEntry(p);
      assert AddTable(s, s.pgd, Index4(n), p).tables[p] == EmptyTable();
    }
  }

  /** The second. */
  lemma ReachedTwo(s: Space, n: nat, t: nat, p: nat)
    requires Tree(s) && n < USER_PAGES && Walk3(s, n) == Some(t) && Hangable(s, t, Index3(n), p)
    ensures var a := Reached(s, t, Index3(n), p);
      && Tree(a) && t in a.tables && Index3(n) < |a.tables[t]|
      && Walk3(a, n) == Some(t) && Walk2(a, n) == Some(Target(a.tables[t][Index3(n)]))
      && (s.tables[t][Index3(n)] == 0 <==> Missing(s, n) == 1) && Missing(s, n) <= 1
  {
    ReachedKeeps(s, t, Index3(n), p);
    assert Inner(s, s.pgd, Index4(n));
  }

  // ---- which tables there are

  /** The missing tables on the walk of page n. */
  ghost function Missing(s: Space, n: nat): nat
    requires Tree(s) && n < USER_PAGES
  {
    if Walk3(s, n).None? then 2 else if Walk2(s, n).None? then 1 else 0
  }

  lemma NothingBehind(s: Space, n: nat)
    requires Tree(s) && n < USER_PAGES
    ensures Missing(s, n) > 0 ==> n !in Plain(s)
  {}

  const PAGES_512G := 0x4_0000   // the pages behind one entry of the top table
  const PAGES_1G := 0x200        // the pages behind one entry of a table of level 3

  /** A new table on the top entry of page n leads on the walks of the pages behind that entry. */
  lemma AddedTop(s: Space, n: nat, p: nat, m: nat)
    requires Tree(s) && n < USER_PAGES && m < USER_PAGES && FreshTable(s, p)
    requires Inner(s, s.pgd, Index4(n)) && s.tables[s.pgd][Index4(n)] == 0
    requires Tree(AddTable(s, s.pgd, Index4(n), p))
    ensures var a := AddTable(s, s.pgd, Index4(n), p);
      && (Walk3(a, m).Some? <==> Walk3(s, m).Some? || m / PAGES_512G == n / PAGES_512G)
      && Walk2(a, m) == Walk2(s, m)
  {
    TableEntry(p);
    Recompose(m);
    Recompose(n);
    assert Inner(s, s.pgd, Index4(m));
  }

  /** A new table below the level 3 table of page n leads on the walks of the pages behind that entry. */
  lemma AddedMiddle(s: Space, n: nat, t: nat, p: nat, m: nat)
    requires Tree(s) && n < USER_PAGES && m < USER_PAGES && FreshTable(s, p)
    requires Walk3(s, n) == Some(t) && s.tables[t][Index3(n)] == 0
    requires Tree(AddTable(s, t, Index3(n), p))
    ensures var a := AddTable(s, t, Index3(n), p);
      && (Walk2(a, m).Some? <==> Walk2(s, m).Some? || m / PAGES_1G == n / PAGES_1G)
      && Walk3(a, m) == Walk3(s, m)
  {
    TableEntry(p);
    SharedWalk(s, m, n);
    Recompose(m);
    Recompose(n);
    assert Inner(s, s.pgd, Index4(m)) && Inner(s, s.pgd, Index4(n));
  }

  /** Setting a leaf leaves the walks alone. */
  lemma LeafWalks(s: Space, n: nat, f: nat, m: nat)
    requires Tree(s) && n < USER_PAGES && m < USER_PAGES && Walk2(s, n).Some?
    requires Tree(SetLeaf(s, Walk2(s, n).value, Index2(n), f))
    ensures var a := SetLeaf(s, Walk2(s, n).value, Index2(n), f);
      Walk3(a, m) == Walk3(s, m) && Walk2(a, m) == Walk2(s, m)
  {
    var t := Walk2(s, n).value;
    var a := SetLeaf(s, t, Index2(n), f);
    assert Inner(s, s.pgd, Index4(m)) && Inner(a, a.pgd, Index4(m));
  }

  // ---- a run of pages gets its tables

  /** The entry that page n goes through, in the top table or in those of level 3. */
  function Behind(top: bool, n: nat): nat {
    if top then n / PAGES_512G else n / PAGES_1G
  }

  /** Page n is the first behind its entry. */
  predicate Leads(top: bool, n: nat) {
    if top then n % PAGES_512G == 0 else n % PAGES_1G == 0
  }

  /** One of the k pages from `first` on shares its entry with page n. */
  ghost predicate Shares(first: nat, k: nat, top: bool, n: nat) {
    k > 0 && Behind(top, first) <= Behind(top, n) <= Behind(top, first + k - 1)
  }

  /** Page m has the tables in r that it has in s and those it shares with the k pages from `first` on. */
  ghost predicate WalkedAt(s: Space, r: Space, first: nat, k: nat, m: nat)
    requires Tree(s) && Tree(r) && m < USER_PAGES
  {
    && (Walk3(r, m).Some? <==> Walk3(s, m).Some? || Shares(first, k, true, m))
    && (Walk2(r, m).Some? <==> Walk2(s, m).Some? || Shares(first, k, false, m))
  }

  /** The tables r are those of s and the ones that the walks of the k pages from `first` on go through. */
  ghost predicate Walked(s: Space, r: Space, first: nat, k: nat)
    requires Tree(s) && Tree(r)
  {
    forall m: nat :: m < USER_PAGES ==> WalkedAt(s, r, first, k, m)
  }

  /** The tables that page `first + k` still lacks when the pages before it have theirs. */
  ghost function Lacking(s: Space, first: nat, k: nat): nat
    requires Tree(s) && first + k < USER_PAGES
  {
    var n := first + k;
    (if Walk3(s, n).None? && (k == 0 || Leads(true, n)) then 1 else 0) +
    (if Walk2(s, n).None? && (k == 0 || Leads(false, n)) then 1 else 0)
  }

  lemma SharesNext(first: nat, k: nat, top: bool)
    ensures Shares(first, k, top, first + k) <==> k > 0 && !Leads(top, first + k)
    ensures forall m: nat :: Shares(first, k + 1, top, m) <==>
              Shares(first, k, top, m) || Behind(top, m) == Behind(top, first + k)
  {}

  lemma SameBehind(m: nat, n: nat)
    requires m < USER_PAGES && n < USER_PAGES
    ensures Behind(true, m) == Behind(true, n) ==> Index4(m) == Index4(n)
    ensures Behind(false, m) == Behind(false, n) ==> Index4(m) == Index4(n) && Index3(m) == Index3(n)
  {
    assert m / PAGES_512G == m / PAGES_1G / ENTRIES && n / PAGES_512G == n / PAGES_1G / ENTRIES;
  }

  lemma ReachedThreeWalks(s: Space, n: nat, p: nat, m: nat)
    requires n < USER_PAGES && m < USER_PAGES && Hangable(s, s.pgd, Index4(n), p)
    requires Tree(Reached(s, s.pgd, Index4(n), p))
    ensures var a := Reached(s, s.pgd, Index4(n), p);
      && (Walk3(a, m).Some? <==> Walk3(s, m).Some? || Behind(true, m) == Behind(true, n))
      && Walk2(a, m) == Walk2(s, m)
  {
    if s.tables[s.pgd][Index4(n)] == 0 {
      AddedTop(s, n, p, m);
    } else {
      SameBehind(m, n);
    }
  }

  lemma ReachedTwoWalks(s: Space, n: nat, t: nat, p: nat, m: nat)
    requires Tree(s) && n < USER_PAGES && m < USER_PAGES && Walk3(s, n) == Some(t) && Hangable(s, t, Index3(n), p)
    requires Tree(Reached(s, t, Index3(n), p))
    ensures var a := Reached(s, t, Index3(n), p);
      && (Walk2(a, m).Some? <==> Walk2(s, m).Some? || Behind(false, m) == Behind(false, n))
      && Walk3(a, m) == Walk3(s, m)
  {
    if s.tables[t][Index3(n)] == 0 {
      AddedMiddle(s, n, t, p, m);
    } else {
      SameBehind(m, n);
    }
  }

  /** Two levels of the walk of page n can be gone down, with p and q as new tables where one is missing. */
  ghost predicate TwoLevels(s: Space, n: nat, p: nat, t: nat, q: nat) {
    && n < USER_PAGES && Hangable(s, s.pgd, Index4(n), p)
    && var a := Reached(s, s.pgd, Index4(n), p);
       Tree(a) && Walk3(a, n) == Some(t) && Hangable(a, t, Index3(n), q) && Tree(Reached(a, t, Index3(n), q))
  }

  ghost function Down(s: Space, n: nat, p: nat, t: nat, q: nat): (r: Space)
    requires TwoLevels(s, n, p, t, q)
    ensures Tree(r)
  {
    Reached(Reached(s, s.pgd, Index4(n), p), t, Index3(n), q)
  }

  lemma WalkedDown(s: Space, n: nat, p: nat, t: nat, q: nat, m: nat)
    requires Tree(s) && TwoLevels(s, n, p, t, q) && m < USER_PAGES
    ensures WalkedAt(s, Down(s, n, p, t, q), n, 1, m)
  {
    ReachedThreeWalks(s, n, p, m);
    ReachedTwoWalks(Reached(s, s.pgd, Index4(n), p), n, t, q, m);
  }

  /** Its tables, and no others, have been added. */
  lemma WalkedPage(s: Space, n: nat, p: nat, t: nat, q: nat)
    requires Tree(s) && TwoLevels(s, n, p, t, q)
    ensures Walked(s, Down(s, n, p, t, q), n, 1)
  {
    hide TwoLevels, WalkedAt;
    forall m: nat | m < USER_PAGES ensures WalkedAt(s, Down(s, n, p, t, q), n, 1, m) {
      WalkedDown(s, n, p, t, q, m);
    }
  }

  /** The two steps down change no translation, and page n has its tables afterwards. */
  lemma Descent(s: Space, n: nat, p: nat, t: nat, q: nat)
    requires Tree(s) && TwoLevels(s, n, p, t, q)
    ensures var b := Down(s, n, p, t, q);
      && Plain(b) == Plain(s) && Walked(s, b, n, 1)
      && t in b.tables && Index3(n) < |b.tables[t]| && Walk2(b, n) == Some(Target(b.tables[t][Index3(n)]))
  {
    ReachedKeeps(s, s.pgd, Index4(n), p);
    ReachedKeeps(Reached(s, s.pgd, Index4(n), p), t, Index3(n), q);
    ReachedTwo(Reached(s, s.pgd, Index4(n), p), n, t, q);
    WalkedPage(s, n, p, t, q);
  }

  /** What is missing on a walk can be read off the entries met on the way down. */
  lemma MissingOnWay(s: Space, n: nat, p: nat)
    requires n < USER_PAGES && Hangable(s, s.pgd, Index4(n), p)
    ensures var a := Reached(s, s.pgd, Index4(n), p);
      && Tree(a) && a.pgd in a.tables && Index4(n) < |a.tables[a.pgd]|
      && var t := Target(a.tables[a.pgd][Index4(n)]);
      && Walk3(a, n) == Some(t) && Inner(a, t, Index3(n)) && Plain(a) == Plain(s)
      && (s.tables[s.pgd][Index4(n)] == 0 ==> Missing(s, n) == 2 && a.tables[t][Index3(n)] == 0)
      && (s.tables[s.pgd][Index4(n)] != 0 ==> Missing(s, n) == if a.tables[t][Index3(n)] == 0 then 1 else 0)
  {
    ReachedThree(s, n, p);
    ReachedKeeps(s, s.pgd, Index4(n), p);
  }

  lemma TopMissing(s: Space, n: nat)
    requires Tree(s) && n < USER_PAGES
    ensures Inner(s, s.pgd, Index4(n)) && (s.tables[s.pgd][Index4(n)] == 0 ==> Missing(s, n) == 2)
  {
    SplitUnique(n, n);
  }

  lemma WalkedLeaf(s: Space, r: Space, n: nat, f: nat)
    requires Tree(s) && Tree(r) && n < USER_PAGES && Walked(s, r, n, 1) && Walk2(r, n).Some?
    requires Tree(SetLeaf(r, Walk2(r, n).value, Index2(n), f))
    ensures Walked(s, SetLeaf(r, Walk2(r, n).value, Index2(n), f), n, 1)
  {
    var a := SetLeaf(r, Walk2(r, n).value, Index2(n), f);
    forall m: nat | m < USER_PAGES ensures WalkedAt(s, a, n, 1, m) {
      assert WalkedAt(s, r, n, 1, m);
      LeafWalks(r, n, f, m);
    }
  }

  lemma LackingIsMissing(s: Space, r: Space, first: nat, k: nat)
    requires Tree(s) && Tree(r) && first + k < USER_PAGES && Walked(s, r, first, k)
    ensures Missing(r, first + k) == Lacking(s, first, k)
  {
    assert WalkedAt(s, r, first, k, first + k);
    SharesNext(first, k, true);
    SharesNext(first, k, false);
  }

  lemma WalkedNext(s: Space, r: Space, t: Space, first: nat, k: nat)
    requires Tree(s) && Tree(r) && Tree(t) && first + k < USER_PAGES && Walked(s, r, first, k)
    requires Walked(r, t, first + k, 1)
    ensures Walked(s, t, first, k + 1)
  {
    SharesNext(first, k, true);
    SharesNext(first, k, false);
    var next := k + 1;
    forall m: nat | m < USER_PAGES ensures WalkedAt(s, t, first, next, m) {
      assert WalkedAt(s, r, first, k, m) && WalkedAt(r, t, first + k, 1, m);
    }
  }
}
