// FAT32 files: reading along a cluster chain, writing, and the directory entry of a file.
module Fat {
  import opened Common
  import opened Sectors
  import opened Volumes
  import Chains

  // ---- the directory entry

  /** What a file object and its inode hold; slot `slot` of cluster `dir` is the directory entry, cluster 0 the root. */
  datatype File = File(first: nat, size: nat, position: nat, dir: nat, slot: nat)

  /** DIR_FstClusHI, DIR_FstClusLO and DIR_FileSize of the entry at `at`. */
  function PutInode(b: seq<Byte>, at: nat, first: nat, size: nat): (r: seq<Byte>)
    requires at + SLOT <= |b|
    ensures |r| == |b|
  {
    var high := Half(b, at + 20);
    PutHalf(PutHalf(PutWord(b, at + 28, size), at + 26, first % 0x1_0000), at + 20,
         high - high % 0x1000 + first / 0x1_0000)
  }

  /** The first cluster as FAT32_lookup reads it. */
  function FirstOf(b: seq<Byte>, at: nat): nat
    requires at + SLOT <= |b|
  {
    (Half(b, at + 20) * 0x1_0000 + Half(b, at + 26)) % Chains.LINK
  }

  function SizeOf(b: seq<Byte>, at: nat): nat
    requires at + SLOT <= |b|
  {
    Word(b, at + 28)
  }

  /** Looking the entry up again gives back what was written; only the three fields changed. */
  lemma InodeReadsBack(b: seq<Byte>, at: nat, first: nat, size: nat)
    requires at + SLOT <= |b| && first < Chains.LINK
    ensures var r := PutInode(b, at, first, size);
      && FirstOf(r, at) == first && SizeOf(r, at) == size % LIMIT32
      && Half(r, at + 20) / 0x1000 == Half(b, at + 20) / 0x1000
      && forall i :: 0 <= i < |b| && !(at + 20 <= i < at + 22) && !(at + 26 <= i < at + 32) ==> r[i] == b[i]
  {
    hide PutHalf, PutWord, Half, Word;
    var high := Half(b, at + 20);
    var b1 := PutWord(b, at + 28, size);
    var b2 := PutHalf(b1, at + 26, first % 0x1_0000);
    WordPut(b, at + 28, size);
    HalfPut(b1, at + 26, first % 0x1_0000);
    HalfPut(b2, at + 20, high - high % 0x1000 + first / 0x1_0000);
    HighMerges(high, first);
    var r := PutInode(b, at, first, size);
    SameBytes(b, b2, at + 20);
    SameBytes(b2, r, at + 26);
    SameBytes(b1, r, at + 28);
  }

  lemma HighMerges(high: nat, first: nat)
    requires high < 0x1_0000 && first < Chains.LINK
    ensures var h := high - high % 0x1000 + first / 0x1_0000;
      h < 0x1_0000 && h / 0x1000 == high / 0x1000 && (h * 0x1_0000 + first % 0x1_0000) % Chains.LINK == first
  {
    var h := high - high % 0x1000 + first / 0x1_0000;
    assert h * 0x1_0000 + first % 0x1_0000 == Chains.LINK * (high / 0x1000) + first;
  }

  ghost predicate InodeFits(g: Info, f: File) {
    f.dir == 0 || (Real(g, f.dir) && SLOT * f.slot + SLOT <= ClusterBytes(g))
  }

  /** The new directory cluster. */
  ghost function NewSlot(g: Info, disk: Disk, f: File): (r: seq<Byte>)
    requires Mounted(g, disk) && InodeFits(g, f) && f.dir != 0
    ensures |r| == ClusterBytes(g)
  {
    PutInode(Content(g, disk, f.dir), SLOT * f.slot, f.first, f.size)
  }

  /** fat32_write_inode; the root directory has no entry to write. */
  ghost function WriteInode(g: Info, disk: Disk, f: File): (r: Disk)
    requires Mounted(g, disk) && InodeFits(g, f)
    ensures |r| == |disk|
  {
    if f.dir == 0 then disk
    else
      BaseBounds(g, disk, f.dir);
      Store(disk, Base(g, f.dir), NewSlot(g, disk, f))
  }

  lemma InodeWritten(g: Info, disk: Disk, f: File)
    requires Mounted(g, disk) && InodeFits(g, f)
    ensures Mounted(g, WriteInode(g, disk, f))
    ensures forall i :: 0 <= i < |disk| && i < g.data ==> WriteInode(g, disk, f)[i] == disk[i]
    ensures forall c :: Real(g, c) && c != f.dir ==> Content(g, WriteInode(g, disk, f), c) == Content(g, disk, c)
    ensures f.dir != 0 ==> Content(g, WriteInode(g, disk, f), f.dir) == NewSlot(g, disk, f)
  {
    TableFits(g, disk);
    if f.dir != 0 {
      ClusterStored(g, disk, f.dir, NewSlot(g, disk, f));
    }
  }

  // ---- what FAT32_write does, one piece of at most a cluster at a time

  function Overlay(b: seq<Byte>, at: nat, piece: seq<Byte>): (r: seq<Byte>)
    requires at + |piece| <= |b|
    ensures |r| == |b| && r[at..at + |piece|] == piece
  {
    b[..at] + piece + b[at + |piece|..]
  }

  /** The variables of the loop; `flags` is set once a cluster has been allocated. */
  datatype Cursor = Cursor(disk: Disk, cluster: nat, sector: nat, flags: bool, buffer: seq<Byte>, offset: nat)

  /** `added` lists the clusters the loop allocates; `full` tells that it found none. */
  datatype Written = Written(disk: Disk, count: nat, added: seq<nat>, full: bool)

  ghost predicate Steady(g: Info, w: Cursor) {
    && Mounted(g, w.disk) && |w.buffer| == ClusterBytes(g) && w.offset < ClusterBytes(g)
    && w.cluster < PER_SECTOR * g.fatSectors
    && if w.flags then w.sector + g.perCluster <= |w.disk| else Real(g, w.cluster)
  }

  /** The sector a piece goes to: once a cluster has been allocated it is not computed again. */
  function Place(g: Info, w: Cursor): nat
    requires w.flags || w.cluster >= 2
  {
    if w.flags then w.sector else Base(g, w.cluster)
  }

  function Room(g: Info, w: Cursor): nat
    requires w.offset < ClusterBytes(g)
  {
    ClusterBytes(g) - w.offset
  }

  function Piece(g: Info, w: Cursor, data: seq<Byte>): (r: seq<Byte>)
    requires w.offset < ClusterBytes(g)
    ensures |r| <= |data| && |r| <= Room(g, w) && r == data[..|r|] && (|r| == |data| || |r| == Room(g, w))
  {
    if |data| <= Room(g, w) then data else data[..Room(g, w)]
  }

  /** What the piece is laid over: the cluster as it is on the disk, or what the buffer still holds. */
  ghost function Under(g: Info, w: Cursor): (r: seq<Byte>)
    requires Steady(g, w)
    ensures |r| == ClusterBytes(g)
  {
    if w.flags then w.buffer else Content(g, w.disk, w.cluster)
  }

  lemma PlaceFits(g: Info, w: Cursor)
    requires Steady(g, w)
    ensures Place(g, w) + g.perCluster <= |w.disk|
  {
    if !w.flags { BaseBounds(g, w.disk, w.cluster); }
  }

  /** The variables after a piece has been stored, before the next cluster is looked for. */
  ghost function Stored(g: Info, w: Cursor, data: seq<Byte>): (r: Cursor)
    requires Steady(g, w)
    ensures Steady(g, r) && |r.disk| == |w.disk| && r.sector + g.perCluster <= |r.disk|
    ensures r.cluster == w.cluster && r.flags == w.flags && r.sector == Place(g, w) == Place(g, r) && r.offset == 0
  {
    PlaceFits(g, w);
    var buffer := Overlay(Under(g, w), w.offset, Piece(g, w, data));
    Cursor(Store(w.disk, Place(g, w), buffer), w.cluster, Place(g, w), w.flags, buffer, 0)
  }

  /** A cluster is linked to the end of the chain; the sector stays where it was. */
  ghost function Linked(g: Info, w: Cursor, f: nat): (r: Cursor)
    requires Steady(g, w) && f < PER_SECTOR * g.fatSectors && w.sector + g.perCluster <= |w.disk|
    ensures Steady(g, r) && |r.disk| == |w.disk| && Place(g, r) == w.sector
    ensures r == Cursor(r.disk, f, w.sector, true, w.buffer, w.offset)
  {
    Cursor(SetEntry(g, SetEntry(g, w.disk, w.cluster, f), f, Chains.END), f, w.sector, true, w.buffer, w.offset)
  }

  /** The link of the current cluster. */
  function Next(g: Info, w: Cursor): nat
    requires g.fat + g.fatSectors <= |w.disk| && w.cluster < PER_SECTOR * g.fatSectors
  {
    Chains.Link(Table(g, w.disk)[w.cluster])
  }

  /** The loop of FAT32_write. */
  ghost function WriteRun(g: Info, w: Cursor, data: seq<Byte>): (r: Written)
    requires Steady(g, w)
    ensures |r.disk| == |w.disk|
    decreases |data|
  {
    var n := |Piece(g, w, data)|;
    var s := Stored(g, w, data);
    TableFits(g, s.disk);
    if n == |data| then Written(s.disk, n, [], false)
    else if Next(g, s) < Chains.END then
      var r := WriteRun(g, s, data[n..]);
      Written(r.disk, n + r.count, r.added, r.full)
    else
      var f := Chains.FirstFree(Table(g, s.disk), 0);
      Chains.FirstFreeMeans(Table(g, s.disk), 0);
      if f == 0 then Written(s.disk, n, [], true)
      else
        var r := WriteRun(g, Linked(g, s, f), data[n..]);
        Written(r.disk, n + r.count, [f] + r.added, r.full)
  }

  // ---- what the loop leaves alone

  ghost predicate InPlace(g: Info, w: Cursor, i: int)
    requires Steady(g, w)
  {
    Place(g, w) <= i < Place(g, w) + g.perCluster
  }

  lemma StoredTouches(g: Info, w: Cursor, data: seq<Byte>)
    requires Steady(g, w)
    ensures forall i :: 0 <= i < |w.disk| && !InPlace(g, w, i) ==> Stored(g, w, data).disk[i] == w.disk[i]
  {
    PlaceFits(g, w);
  }

  lemma LinkedTouches(g: Info, w: Cursor, f: nat)
    requires Steady(g, w) && f < PER_SECTOR * g.fatSectors && w.sector + g.perCluster <= |w.disk|
    ensures forall i :: 0 <= i < |w.disk| && !(g.fat <= i < g.data) ==> Linked(g, w, f).disk[i] == w.disk[i]
  {
    SetEntrySets(g, w.disk, w.cluster, f);
    SetEntrySets(g, SetEntry(g, w.disk, w.cluster, f), f, Chains.END);
  }

  /** Whatever the length, the loop writes no sector but those of one cluster and the tables. */
  lemma {:induction false} RunTouches(g: Info, w: Cursor, data: seq<Byte>)
    requires Steady(g, w)
    ensures forall i :: 0 <= i < |w.disk| && !InPlace(g, w, i) && !(g.fat <= i < g.data) ==>
              WriteRun(g, w, data).disk[i] == w.disk[i]
    decreases |data|
  {
    hide Stored, Linked, Place;
    var n := |Piece(g, w, data)|;
    var s := Stored(g, w, data);
    TableFits(g, s.disk);
    StoredTouches(g, w, data);
    if n < |data| {
      if Next(g, s) < Chains.END {
        RunTouches(g, s, data[n..]);
      } else {
        var f := Chains.FirstFree(Table(g, s.disk), 0);
        Chains.FirstFreeMeans(Table(g, s.disk), 0);
        if f != 0 {
          LinkedTouches(g, s, f);
          RunTouches(g, Linked(g, s, f), data[n..]);
        }
      }
    }
  }

  // ---- the table through the loop

  /** The place a piece is stored at is no part of the tables. */
  ghost predicate Separate(g: Info, w: Cursor) {
    w.flags ==> w.sector + g.perCluster <= g.fat || g.data <= w.sector
  }

  /** The current cluster is in chain a, at its end once a cluster has been allocated. */
  ghost predicate On(cs: seq<seq<nat>>, a: nat, w: Cursor) {
    a < |cs| && |cs[a]| > 0 && w.cluster in cs[a] && (w.flags ==> w.cluster == cs[a][|cs[a]| - 1])
  }

  ghost predicate Kept(g: Info, disk: Disk, r: Disk)
    requires Mounted(g, disk) && Mounted(g, r)
  {
    TableFits(g, disk);
    TableFits(g, r);
    Chains.NibblesKept(Table(g, disk), Table(g, r)) && (CopiesEqual(g, disk) ==> CopiesEqual(g, r))
  }

  lemma KeptTwice(g: Info, disk: Disk, mid: Disk, r: Disk)
    requires Mounted(g, disk) && Mounted(g, mid) && Mounted(g, r) && Kept(g, disk, mid) && Kept(g, mid, r)
    ensures Kept(g, disk, r)
  {}

  lemma StoredKeepsTable(g: Info, w: Cursor, data: seq<Byte>)
    requires Steady(g, w) && Separate(g, w)
    ensures g.fat + g.fatSectors <= |w.disk|
    ensures Table(g, Stored(g, w, data).disk) == Table(g, w.disk) && Kept(g, w.disk, Stored(g, w, data).disk)
    ensures Separate(g, Stored(g, w, data)) && Next(g, Stored(g, w, data)) == Next(g, w)
    ensures Stored(g, w, data).sector + g.perCluster <= g.fat || g.data <= Stored(g, w, data).sector
  {
    StoredTouches(g, w, data);
    if !w.flags { BaseBounds(g, w.disk, w.cluster); }
    TableFits(g, w.disk);
    TablesApart(g, w.disk, Stored(g, w, data).disk);
  }

  lemma LinkedTable(g: Info, w: Cursor, f: nat)
    requires Steady(g, w) && f < PER_SECTOR * g.fatSectors && w.sector + g.perCluster <= |w.disk|
    ensures g.fat + g.fatSectors <= |w.disk|
    ensures Table(g, Linked(g, w, f).disk) == Chains.Appended(Table(g, w.disk), w.cluster, f)
    ensures Kept(g, w.disk, Linked(g, w, f).disk)
    ensures Next(g, Linked(g, w, f)) == Chains.END
    ensures w.sector + g.perCluster <= g.fat || g.data <= w.sector ==> Separate(g, Linked(g, w, f))
  {
    TableFits(g, w.disk);
    Chains.MergeLinks(Chains.Put(Table(g, w.disk), w.cluster, f)[f], Chains.END);
    var mid := SetEntry(g, w.disk, w.cluster, f);
    SetEntrySets(g, w.disk, w.cluster, f);
    SetEntrySets(g, mid, f, Chains.END);
    Chains.PutKeepsNibbles(Table(g, w.disk), w.cluster, f);
    Chains.PutKeepsNibbles(Table(g, mid), f, Chains.END);
    if CopiesEqual(g, w.disk) {
      SetEntryKeepsCopies(g, w.disk, w.cluster, f);
      SetEntryKeepsCopies(g, mid, f, Chains.END);
    }
  }

  /** What the loop does to the table: the clusters it adds were free, and end up at the end of chain a. */
  ghost predicate Extended(g: Info, disk: Disk, cs: seq<seq<nat>>, a: nat, r: Written)
    requires Mounted(g, disk) && Mounted(g, r.disk) && a < |cs|
  {
    TableFits(g, disk);
    TableFits(g, r.disk);
    var t, u := Table(g, disk), Table(g, r.disk);
    && Chains.Files(u, cs[a := cs[a] + r.added]) && Kept(g, disk, r.disk) && Chains.Reserved(u)
    && (forall f :: f in r.added ==> 2 <= f < |t| && Chains.Link(t[f]) == 0)
    && (forall e :: 0 <= e < |t| && e !in cs[a] && e !in r.added ==> u[e] == t[e])
    && (r.full ==> forall e :: 0 <= e < |u| ==> Chains.Link(u[e]) != 0)
  }

  /** Linking a free cluster: what holds before and after. */
  lemma LinkExtends(g: Info, w: Cursor, f: nat, cs: seq<seq<nat>>, a: nat)
    requires Steady(g, w) && On(cs, a, w)
    requires w.sector + g.perCluster <= g.fat || (g.data <= w.sector && w.sector + g.perCluster <= |w.disk|)
    requires g.fat + g.fatSectors <= |w.disk| && Chains.Files(Table(g, w.disk), cs) && Chains.Reserved(Table(g, w.disk))
    requires 0 < f < |Table(g, w.disk)| && Chains.Link(Table(g, w.disk)[f]) == 0 && Next(g, w) >= Chains.END
    ensures w.sector + g.perCluster <= |w.disk| && |Linked(g, w, f).disk| == |w.disk|
    ensures var l, ds := Linked(g, w, f), cs[a := cs[a] + [f]];
      Separate(g, l) && On(ds, a, l) && Kept(g, w.disk, l.disk)
    ensures Chains.Files(Table(g, Linked(g, w, f).disk), cs[a := cs[a] + [f]])
    ensures Chains.Reserved(Table(g, Linked(g, w, f).disk))
    ensures Chains.Changed(Table(g, w.disk), Table(g, Linked(g, w, f).disk), cs[a], f)
  {
    hide Linked, Kept, Table, Chains.Files, Chains.Chain, Chains.Appended;
    TableFits(g, w.disk);
    var t := Table(g, w.disk);
    var i :| 0 <= i < |cs[a]| && cs[a][i] == w.cluster;
    Chains.EndIsLast(t, cs, a, i);
    Chains.AppendsCluster(t, cs, a, f);
    Chains.AppendChanges(t, cs, a, f);
    LinkedTable(g, w, f);
  }

  /** One cluster first, the rest after it. */
  lemma ExtendedThen(g: Info, disk: Disk, mid: Disk, cs: seq<seq<nat>>, a: nat, f: nat, r: Written, n: nat)
    requires Mounted(g, disk) && Mounted(g, mid) && Mounted(g, r.disk) && a < |cs| && Kept(g, disk, mid)
    requires g.fat + g.fatSectors <= |disk| == |mid|
    requires Chains.Changed(Table(g, disk), Table(g, mid), cs[a], f)
    requires Extended(g, mid, cs[a := cs[a] + [f]], a, r)
    ensures Extended(g, disk, cs, a, Written(r.disk, n, [f] + r.added, r.full))
  {
    hide Kept, Chains.Files, Table;
    var ds := cs[a := cs[a] + [f]];
    assert ds[a] + r.added == cs[a] + ([f] + r.added);
    assert ds[a := ds[a] + r.added] == cs[a := cs[a] + ([f] + r.added)];
    KeptTwice(g, disk, mid, r.disk);
    TableFits(g, r.disk);
  }

  lemma ExtendedAfter(g: Info, disk: Disk, mid: Disk, cs: seq<seq<nat>>, a: nat, r: Written, n: nat)
    requires Mounted(g, disk) && Mounted(g, mid) && Mounted(g, r.disk) && a < |cs| && Kept(g, disk, mid)
    requires g.fat + g.fatSectors <= |disk| == |mid| && Table(g, mid) == Table(g, disk)
    requires Extended(g, mid, cs, a, r)
    ensures Extended(g, disk, cs, a, Written(r.disk, n, r.added, r.full))
  {
    KeptTwice(g, disk, mid, r.disk);
  }

  lemma {:induction false} RunExtends(g: Info, w: Cursor, data: seq<Byte>, cs: seq<seq<nat>>, a: nat)
    requires Steady(g, w) && Separate(g, w) && On(cs, a, w)
    requires g.fat + g.fatSectors <= |w.disk| && Chains.Files(Table(g, w.disk), cs) && Chains.Reserved(Table(g, w.disk))
    ensures Extended(g, w.disk, cs, a, WriteRun(g, w, data))
    decreases |data|
  {
    hide Stored, Linked, Chains.Chain, Chains.Files, Kept, Place, Extended, Table, Piece, Chains.Link, Next,
         Chains.FirstFree, Chains.Changed, Chains.Reserved, Separate;
    var n := |Piece(g, w, data)|;
    var s := Stored(g, w, data);
    StoredKeepsTable(g, w, data);
    TableFits(g, s.disk);
    var t := Table(g, s.disk);
    if n == |data| {
      ExtendedByNothing(g, w.disk, cs, a, WriteRun(g, w, data));
    } else if Next(g, s) < Chains.END {
      RunExtends(g, s, data[n..], cs, a);
      ExtendedAfter(g, w.disk, s.disk, cs, a, WriteRun(g, s, data[n..]), WriteRun(g, w, data).count);
    } else {
      var f := Chains.FirstFree(t, 0);
      Chains.FirstFreeMeans(t, 0);
      if f == 0 {
        Chains.FindsFreeCluster(t, 0);
        ExtendedByNothing(g, w.disk, cs, a, WriteRun(g, w, data));
      } else {
        LinkExtends(g, s, f, cs, a);
        var l, ds := Linked(g, s, f), cs[a := cs[a] + [f]];
        RunExtends(g, l, data[n..], ds, a);
        var r := WriteRun(g, l, data[n..]);
        KeptTwice(g, w.disk, s.disk, l.disk);
        ExtendedThen(g, w.disk, l.disk, cs, a, f, r, n + r.count);
      }
    }
  }

  lemma ExtendedByNothing(g: Info, disk: Disk, cs: seq<seq<nat>>, a: nat, r: Written)
    requires Mounted(g, disk) && Mounted(g, r.disk) && a < |cs| && Kept(g, disk, r.disk) && r.added == []
    requires g.fat + g.fatSectors <= |disk| == |r.disk| && Table(g, r.disk) == Table(g, disk)
    requires Chains.Files(Table(g, disk), cs) && Chains.Reserved(Table(g, disk))
    requires r.full ==> forall e :: 0 <= e < |Table(g, disk)| ==> Chains.Link(Table(g, disk)[e]) != 0
    ensures Extended(g, disk, cs, a, r)
  {
    assert cs[a] + [] == cs[a] && cs[a := cs[a] + []] == cs;
  }
}
