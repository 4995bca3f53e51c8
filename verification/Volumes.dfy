// The layout of a mounted FAT32 volume: mirrored tables, clusters, directory slots, and what the
// stores of the file system do to each of them.
module Volumes {
  import opened Sectors
  import Chains

  const PER_SECTOR := 128    // table entries in a sector

  /** FAT32_sb_info, in sectors. The number of clusters is what the medium holds; the kernel does not keep it. */
  datatype Info = Info(fat: nat, fatSectors: nat, copies: nat, data: nat, perCluster: nat, ghost clusters: nat)

  type Disk = seq<Sector>

  function ClusterBytes(g: Info): (r: nat)
    ensures r % SECTOR == 0 && r / SECTOR == g.perCluster
  {
    SECTOR * g.perCluster
  }

  ghost predicate Mounted(g: Info, disk: Disk) {
    && g.copies > 0 && g.perCluster > 0 && g.fatSectors > 0 && g.clusters > 0
    && At(g, g.copies, 0) <= g.data && Base(g, g.clusters + 2) <= |disk|
    && g.clusters + 2 <= PER_SECTOR * g.fatSectors <= Chains.END
  }

  lemma {:induction false} Rows(width: nat, a: nat, b: nat)
    requires a < b
    ensures width * a + width <= width * b
  {
    if a + 1 < b { Rows(width, a, b - 1); }
  }

  // ---- the tables

  /** Sector q of table copy c. */
  function At(g: Info, c: nat, q: nat): nat { g.fat + g.fatSectors * c + q }

  lemma AtApart(g: Info, c: nat, q: nat, d: nat, p: nat)
    requires q < g.fatSectors && p < g.fatSectors
    ensures At(g, c, q) == At(g, d, p) <==> c == d && q == p
  {
    if c < d { Rows(g.fatSectors, c, d); }
    if d < c { Rows(g.fatSectors, d, c); }
  }

  lemma AtBounds(g: Info, disk: Disk, c: nat, q: nat)
    requires Mounted(g, disk) && c < g.copies && q < g.fatSectors
    ensures g.fat <= At(g, c, q) < g.data <= |disk| && At(g, 0, q) == g.fat + q
  {
    Rows(g.fatSectors, c, g.copies);
  }

  lemma TableFits(g: Info, disk: Disk)
    requires Mounted(g, disk)
    ensures g.fat + g.fatSectors <= g.data <= |disk|
  {
    AtBounds(g, disk, 0, g.fatSectors - 1);
  }

  /** The first copy of the table. */
  function Table(g: Info, disk: Disk): (r: seq<nat>)
    requires g.fat + g.fatSectors <= |disk|
    ensures |r| == PER_SECTOR * g.fatSectors
  {
    seq(PER_SECTOR * g.fatSectors, e requires 0 <= e < PER_SECTOR * g.fatSectors =>
      Word(disk[g.fat + e / PER_SECTOR], 4 * (e % PER_SECTOR)))
  }

  /** Entry j of sector i. */
  lemma TableAt(g: Info, disk: Disk, i: nat, j: nat)
    requires g.fat + g.fatSectors <= |disk| && i < g.fatSectors && j < PER_SECTOR
    ensures Table(g, disk)[PER_SECTOR * i + j] == Word(disk[g.fat + i], 4 * j)
  {
    assert (PER_SECTOR * i + j) / PER_SECTOR == i && (PER_SECTOR * i + j) % PER_SECTOR == j;
  }

  ghost predicate CopiesEqual(g: Info, disk: Disk)
    requires Mounted(g, disk)
  {
    forall c: nat, q: nat :: c < g.copies && q < g.fatSectors ==> Same(g, disk, c, q)
  }

  ghost predicate Same(g: Info, disk: Disk, c: nat, q: nat) {
    At(g, c, q) < |disk| && At(g, 0, q) < |disk| && disk[At(g, c, q)] == disk[At(g, 0, q)]
  }

  /** Sector s written as sector q of the first n copies. */
  ghost function Mirror(g: Info, disk: Disk, q: nat, s: Sector, n: nat): (r: Disk)
    requires Mounted(g, disk) && n <= g.copies && q < g.fatSectors
    ensures |r| == |disk|
  {
    if n == 0 then disk
    else
      AtBounds(g, disk, n - 1, q);
      Mirror(g, disk, q, s, n - 1)[At(g, n - 1, q) := s]
  }

  lemma {:induction false} MirrorMeans(g: Info, disk: Disk, q: nat, s: Sector, n: nat)
    requires Mounted(g, disk) && n <= g.copies && q < g.fatSectors
    ensures forall c: nat :: c < n ==> At(g, c, q) < |disk| && Mirror(g, disk, q, s, n)[At(g, c, q)] == s
    ensures forall i :: 0 <= i < |disk| && (forall c: nat :: c < n ==> i != At(g, c, q)) ==>
              Mirror(g, disk, q, s, n)[i] == disk[i]
    ensures forall i :: 0 <= i < |disk| && !(g.fat <= i < g.data) ==> Mirror(g, disk, q, s, n)[i] == disk[i]
  {
    if n > 0 {
      MirrorMeans(g, disk, q, s, n - 1);
      AtBounds(g, disk, n - 1, q);
    }
  }

  /** DISK1_FAT32_write_FAT_Entry. */
  ghost function SetEntry(g: Info, disk: Disk, e: nat, v: nat): (r: Disk)
    requires Mounted(g, disk) && e < PER_SECTOR * g.fatSectors
    ensures |r| == |disk|
  {
    AtBounds(g, disk, 0, e / PER_SECTOR);
    Mirror(g, disk, e / PER_SECTOR, Merged(disk[g.fat + e / PER_SECTOR], e % PER_SECTOR, v), g.copies)
  }

  function Merged(s: Sector, k: nat, v: nat): (r: Sector)
    requires k < PER_SECTOR
  {
    PutWord(s, 4 * k, Chains.Merge(Word(s, 4 * k), v))
  }

  lemma MergedWords(s: Sector, k: nat, v: nat, j: nat)
    requires k < PER_SECTOR && j < PER_SECTOR
    ensures Word(Merged(s, k, v), 4 * j) == if j == k then Chains.Merge(Word(s, 4 * k), v) else Word(s, 4 * j)
  {
    hide Word, PutWord, Chains.Merge;
    var w := Chains.Merge(Word(s, 4 * k), v);
    WordPut(s, 4 * k, w);
    Chains.MergeLinks(Word(s, 4 * k), v);
    if j != k { SameBytes(Merged(s, k, v), s, 4 * j); }
  }

  /** The store changes one entry of the table and nothing outside the tables. */
  lemma SetEntrySets(g: Info, disk: Disk, e: nat, v: nat)
    requires Mounted(g, disk) && e < PER_SECTOR * g.fatSectors
    ensures g.fat + g.fatSectors <= |disk| && Mounted(g, SetEntry(g, disk, e, v))
    ensures Table(g, SetEntry(g, disk, e, v)) == Chains.Put(Table(g, disk), e, v)
    ensures forall i :: 0 <= i < |disk| && !(g.fat <= i < g.data) ==> SetEntry(g, disk, e, v)[i] == disk[i]
  {
    var q := e / PER_SECTOR;
    AtBounds(g, disk, 0, g.fatSectors - 1);
    var s, r := Merged(disk[g.fat + q], e % PER_SECTOR, v), SetEntry(g, disk, e, v);
    MirrorMeans(g, disk, q, s, g.copies);
    forall x | 0 <= x < |Table(g, disk)| ensures Table(g, r)[x] == Chains.Put(Table(g, disk), e, v)[x] {
      var p := x / PER_SECTOR;
      assert x == PER_SECTOR * p + x % PER_SECTOR && e == PER_SECTOR * q + e % PER_SECTOR;
      AtBounds(g, disk, 0, p);
      AtBounds(g, disk, 0, q);
      if p == q {
        assert r[At(g, 0, q)] == s;
        MergedWords(disk[g.fat + q], e % PER_SECTOR, v, x % PER_SECTOR);
      } else {
        forall c: nat | c < g.copies ensures g.fat + p != At(g, c, q) { AtApart(g, 0, p, c, q); }
      }
    }
  }

  /** All copies stay equal if they were. */
  lemma SetEntryKeepsCopies(g: Info, disk: Disk, e: nat, v: nat)
    requires Mounted(g, disk) && e < PER_SECTOR * g.fatSectors && CopiesEqual(g, disk)
    ensures Mounted(g, SetEntry(g, disk, e, v)) && CopiesEqual(g, SetEntry(g, disk, e, v))
  {
    var q := e / PER_SECTOR;
    AtBounds(g, disk, 0, 0);
    AtBounds(g, disk, 0, q);
    var s, r := Merged(disk[g.fat + q], e % PER_SECTOR, v), SetEntry(g, disk, e, v);
    MirrorMeans(g, disk, q, s, g.copies);
    forall c: nat, p: nat | c < g.copies && p < g.fatSectors ensures Same(g, r, c, p) {
      AtBounds(g, disk, c, p);
      AtBounds(g, disk, 0, p);
      assert Same(g, disk, c, p);
      if p == q {
        assert r[At(g, c, q)] == s && r[At(g, 0, q)] == s;
      } else {
        forall d: nat | d < g.copies ensures At(g, c, p) != At(g, d, q) && At(g, 0, p) != At(g, d, q) {
          AtApart(g, c, p, d, q);
          AtApart(g, 0, p, d, q);
        }
      }
    }
  }

  /** Stores outside the tables leave them alone. */
  lemma TablesApart(g: Info, disk: Disk, other: Disk)
    requires Mounted(g, disk) && |other| == |disk| && forall i :: g.fat <= i < g.data ==> other[i] == disk[i]
    ensures g.fat + g.fatSectors <= |disk| && Mounted(g, other)
    ensures Table(g, other) == Table(g, disk) && (CopiesEqual(g, disk) ==> CopiesEqual(g, other))
  {
    AtBounds(g, disk, 0, g.fatSectors - 1);
    forall c: nat, q: nat | c < g.copies && q < g.fatSectors && Same(g, disk, c, q) ensures Same(g, other, c, q) {
      AtBounds(g, disk, c, q);
      AtBounds(g, disk, 0, q);
    }
  }

  // ---- clusters

  /** The first sector of a cluster. */
  function Base(g: Info, c: nat): nat
    requires c >= 2
  {
    g.data + g.perCluster * (c - 2)
  }

  ghost predicate Real(g: Info, c: nat) { 2 <= c < g.clusters + 2 }

  lemma BaseBounds(g: Info, disk: Disk, c: nat)
    requires Mounted(g, disk) && Real(g, c)
    ensures g.data <= Base(g, c) && Base(g, c) + g.perCluster <= |disk|
  {
    Rows(g.perCluster, c - 2, g.clusters);
  }

  /** Different clusters share no sector. */
  lemma BaseApart(g: Info, c: nat, d: nat)
    requires 2 <= c < d
    ensures Base(g, c) + g.perCluster <= Base(g, d)
  {
    Rows(g.perCluster, c - 2, d - 2);
  }

  /** Cluster 2 begins where the data area does, and every other one where the one before it ends. */
  lemma BaseFollows(g: Info, c: nat)
    requires c >= 2
    ensures Base(g, 2) == g.data && Base(g, c + 1) == Base(g, c) + g.perCluster
  {}

  ghost predicate Owns(g: Info, c: nat, i: nat) {
    Real(g, c) && Base(g, c) <= i < Base(g, c) + g.perCluster
  }

  /** Every sector of the data area belongs to exactly one cluster. */
  lemma {:induction false} OneOwner(g: Info, i: nat)
    requires g.perCluster > 0 && g.data <= i < g.data + g.perCluster * g.clusters
    ensures exists c: nat :: Owns(g, c, i)
    ensures forall c: nat, d: nat :: Owns(g, c, i) && Owns(g, d, i) ==> c == d
  {
    var k := (i - g.data) / g.perCluster;
    assert i - g.data == g.perCluster * k + (i - g.data) % g.perCluster;
    if k >= g.clusters { Rows(g.perCluster, g.clusters - 1, k); }
    assert Owns(g, k + 2, i);
    forall c: nat, d: nat | Owns(g, c, i) && Owns(g, d, i) ensures c == d {
      if c < d { BaseApart(g, c, d); }
      if d < c { BaseApart(g, d, c); }
    }
  }

  ghost function Content(g: Info, disk: Disk, c: nat): (r: seq<Byte>)
    requires Mounted(g, disk) && Real(g, c)
    ensures |r| == ClusterBytes(g)
  {
    BaseBounds(g, disk, c);
    Load(disk, Base(g, c), g.perCluster)
  }

  /** The bytes of a file: its clusters one after the other. */
  ghost function FileBytes(g: Info, disk: Disk, chain: seq<nat>): (r: seq<Byte>)
    requires Mounted(g, disk) && forall k :: 0 <= k < |chain| ==> Real(g, chain[k])
    ensures |r| == ClusterBytes(g) * |chain|
  {
    if chain == [] then []
    else
      var n := |chain| - 1;
      assert ClusterBytes(g) * n + ClusterBytes(g) == ClusterBytes(g) * |chain|;
      FileBytes(g, disk, chain[..n]) + Content(g, disk, chain[n])
  }

  /** Byte o of cluster k of a file is byte k * ClusterBytes + o of the file. */
  lemma {:induction false} FileSlice(g: Info, disk: Disk, chain: seq<nat>, k: nat, o: nat, n: nat)
    requires Mounted(g, disk) && forall k :: 0 <= k < |chain| ==> Real(g, chain[k])
    requires k < |chain| && o + n <= ClusterBytes(g)
    ensures ClusterBytes(g) * k + o + n <= |FileBytes(g, disk, chain)|
    ensures FileBytes(g, disk, chain)[ClusterBytes(g) * k + o..ClusterBytes(g) * k + o + n]
              == Content(g, disk, chain[k])[o..o + n]
  {
    hide ClusterBytes, Mounted, Content;
    var b, m := ClusterBytes(g), |chain| - 1;
    Rows(b, m, |chain|);
    var front, last := FileBytes(g, disk, chain[..m]), Content(g, disk, chain[m]);
    assert FileBytes(g, disk, chain) == front + last;
    SliceOfSum(front, last, b * k + o, n);
    if k < m {
      Rows(b, k, m);
      FileSlice(g, disk, chain[..m], k, o, n);
    }
  }

  lemma SliceOfSum(s: seq<Byte>, t: seq<Byte>, i: nat, n: nat)
    ensures i + n <= |s| ==> (s + t)[i..i + n] == s[i..i + n]
    ensures |s| <= i && i + n <= |s + t| ==> (s + t)[i..i + n] == t[i - |s|..i - |s| + n]
  {}

  /** Byte o of cluster c is on the medium behind the clusters before c, and behind the sectors before it in c. */
  function SectorAt(g: Info, c: nat, o: nat): nat
    requires c >= 2
  {
    g.data + (c - 2) * g.perCluster + o / SECTOR
  }

  lemma ClusterByte(g: Info, disk: Disk, c: nat, o: nat)
    requires Mounted(g, disk) && Real(g, c) && o < ClusterBytes(g)
    ensures SectorAt(g, c, o) < |disk| && Content(g, disk, c)[o] == disk[SectorAt(g, c, o)][o % SECTOR]
  {
    BaseBounds(g, disk, c);
  }

  /** A file on the medium, byte by byte. */
  lemma FileByte(g: Info, disk: Disk, chain: seq<nat>, k: nat, o: nat)
    requires Mounted(g, disk) && (forall k :: 0 <= k < |chain| ==> Real(g, chain[k]))
    requires k < |chain| && o < ClusterBytes(g)
    ensures ClusterBytes(g) * k + o < |FileBytes(g, disk, chain)| && SectorAt(g, chain[k], o) < |disk|
    ensures FileBytes(g, disk, chain)[ClusterBytes(g) * k + o] == disk[SectorAt(g, chain[k], o)][o % SECTOR]
  {
    hide Mounted, ClusterBytes, FileBytes, Content, SectorAt;
    var b, c, bytes := ClusterBytes(g), chain[k], FileBytes(g, disk, chain);
    FileSlice(g, disk, chain, k, o, 1);
    assert bytes[b * k + o] == bytes[b * k + o..b * k + o + 1][0] == Content(g, disk, c)[o..o + 1][0];
    ClusterByte(g, disk, c, o);
  }

  /** A file has the same bytes on two disks that agree on its clusters. */
  lemma {:induction false} FileApart(g: Info, disk: Disk, other: Disk, chain: seq<nat>)
    requires Mounted(g, disk) && Mounted(g, other) && forall k :: 0 <= k < |chain| ==> Real(g, chain[k])
    requires forall k :: 0 <= k < |chain| ==> Content(g, other, chain[k]) == Content(g, disk, chain[k])
    ensures FileBytes(g, other, chain) == FileBytes(g, disk, chain)
  {
    if chain != [] { FileApart(g, disk, other, chain[..|chain| - 1]); }
  }

  /** A cluster keeps its content when none of its sectors changes. */
  lemma ContentApart(g: Info, disk: Disk, other: Disk, c: nat)
    requires Mounted(g, disk) && Real(g, c) && |other| == |disk|
    requires forall i :: Base(g, c) <= i < Base(g, c) + g.perCluster && i < |disk| ==> other[i] == disk[i]
    ensures Mounted(g, other) && Content(g, other, c) == Content(g, disk, c)
  {
    BaseBounds(g, disk, c);
    LoadApart(disk, other, Base(g, c), g.perCluster);
  }

  /** A store of a whole cluster, and what the other clusters and the tables see of it. */
  lemma ClusterStored(g: Info, disk: Disk, c: nat, b: seq<Byte>)
    requires Mounted(g, disk) && Real(g, c) && |b| == ClusterBytes(g)
    ensures |b| % SECTOR == 0 && |b| / SECTOR == g.perCluster && Base(g, c) + g.perCluster <= |disk|
    ensures var r := Store(disk, Base(g, c), b);
      && Mounted(g, r) && Content(g, r, c) == b
      && (forall i :: 0 <= i < g.data ==> r[i] == disk[i])
      && (forall d :: Real(g, d) && d != c ==> Content(g, r, d) == Content(g, disk, d))
  {
    BaseBounds(g, disk, c);
    var r := Store(disk, Base(g, c), b);
    LoadStored(disk, Base(g, c), b);
    forall d | Real(g, d) && d != c ensures Content(g, r, d) == Content(g, disk, d) {
      if c < d { BaseApart(g, c, d); } else { BaseApart(g, d, c); }
      ContentApart(g, disk, r, d);
    }
  }
}
