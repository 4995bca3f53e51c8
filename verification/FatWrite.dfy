// FAT32_write as a whole: what it keeps of the volume, and what it stores.
module FatWrite {
  import opened Common
  import opened Sectors
  import opened Volumes
  import opened Fat
  import Chains

  datatype Outcome = Count(n: nat) | NoSpace

  datatype After = After(disk: Disk, file: File, outcome: Outcome, added: seq<nat>)

  function Skip(g: Info, f: File): nat
    requires g.perCluster > 0
  {
    f.position / ClusterBytes(g)
  }

  function Offset(g: Info, f: File): (r: nat)
    requires g.perCluster > 0
    ensures r < ClusterBytes(g) && f.position == ClusterBytes(g) * Skip(g, f) + r
  {
    f.position % ClusterBytes(g)
  }

  /** The chain of the file reaches its position. */
  ghost predicate Covered(g: Info, disk: Disk, f: File, chain: seq<nat>) {
    && Mounted(g, disk) && g.fat + g.fatSectors <= |disk|
    && Chains.Chain(Table(g, disk), chain) && f.first == chain[0] && Skip(g, f) < |chain|
    && forall k :: 0 <= k < |chain| ==> Real(g, chain[k])
  }

  /** What the function works on: a file with no cluster yet, or one whose chain reaches the position. */
  ghost predicate Writable(g: Info, disk: Disk, f: File) {
    && Mounted(g, disk) && InodeFits(g, f)
    && (f.first != 0 ==> exists chain :: Covered(g, disk, f, chain))
  }

  /** The cluster the write starts in; 0 if a first one is needed and none is free. */
  ghost function StartCluster(g: Info, disk: Disk, f: File): (r: nat)
    requires Writable(g, disk, f)
    ensures f.first != 0 ==> Real(g, r)
    ensures r < PER_SECTOR * g.fatSectors
  {
    TableFits(g, disk);
    if f.first == 0 then
      Chains.FirstFreeMeans(Table(g, disk), 0);
      Chains.FirstFree(Table(g, disk), 0)
    else
      var chain :| Covered(g, disk, f, chain);
      Chains.WalkChain(Table(g, disk), chain, Skip(g, f));
      Chains.Walk(Table(g, disk), f.first, Skip(g, f))
  }

  /** The first cluster of a file is entered in its directory entry and in the table. */
  ghost function Begun(g: Info, disk: Disk, f: File, c: nat): (r: Disk)
    requires Mounted(g, disk) && InodeFits(g, f) && c < PER_SECTOR * g.fatSectors
    ensures |r| == |disk|
  {
    SetEntry(g, WriteInode(g, disk, f.(first := c)), c, Chains.END)
  }

  ghost function Entry(g: Info, disk: Disk, f: File, garbage: seq<Byte>): (r: Cursor)
    requires Writable(g, disk, f) && |garbage| == ClusterBytes(g)
    ensures Steady(g, r) && |r.disk| == |disk|
  {
    var c := StartCluster(g, disk, f);
    TableFits(g, disk);
    BaseBounds(g, disk, 2);
    Cursor(if f.first == 0 then Begun(g, disk, f, c) else disk, c, 0, f.first == 0, garbage, Offset(g, f))
  }

  /** The file n bytes on, with its size left alone or raised to the new position. */
  function Moved(f: File, n: nat): File { File(f.first, f.size, f.position + n, f.dir, f.slot) }

  function Grown(f: File): (r: File)
    ensures r.dir == f.dir && r.slot == f.slot && r.first == f.first && r.position == f.position
  {
    File(f.first, f.position, f.position, f.dir, f.slot)
  }

  /** The position moves; a grown size goes to the directory entry, unless the write stopped for want of space. */
  ghost function Finish(g: Info, f: File, r: Written): (a: After)
    requires Mounted(g, r.disk) && InodeFits(g, f)
    ensures |a.disk| == |r.disk|
  {
    var moved := Moved(f, r.count);
    if r.full then After(r.disk, moved, NoSpace, r.added)
    else if moved.position <= f.size then After(r.disk, moved, Count(r.count), r.added)
    else After(WriteInode(g, r.disk, Grown(moved)), Grown(moved), Count(r.count), r.added)
  }

  /** FAT32_write. */
  ghost function WriteFile(g: Info, disk: Disk, f: File, data: seq<Byte>, garbage: seq<Byte>): (a: After)
    requires Writable(g, disk, f) && |garbage| == ClusterBytes(g)
    ensures |a.disk| == |disk|
  {
    var c := StartCluster(g, disk, f);
    if c == 0 then After(disk, f, NoSpace, [])
    else
      var r := WriteRun(g, Entry(g, disk, f, garbage), data);
      Finish(g, if f.first == 0 then f.(first := c) else f, r)
  }

  /** The last step writes no sector below the data area and no cluster but that of the directory entry. */
  lemma FinishKeeps(g: Info, f: File, r: Written)
    requires Mounted(g, r.disk) && InodeFits(g, f)
    ensures var a := Finish(g, f, r).disk;
      && Mounted(g, a) && (forall i :: 0 <= i < |a| && i < g.data ==> a[i] == r.disk[i])
      && (forall c :: Real(g, c) && c != f.dir ==> Content(g, a, c) == Content(g, r.disk, c))
    ensures g.fat + g.fatSectors <= |r.disk| && Table(g, Finish(g, f, r).disk) == Table(g, r.disk)
    ensures Kept(g, r.disk, Finish(g, f, r).disk)
  {
    hide WriteInode, CopiesEqual, Table, Content, Kept;
    TableFits(g, r.disk);
    KeptItself(g, r.disk);
    if !r.full && f.position + r.count > f.size {
      InodeWritten(g, r.disk, Grown(Moved(f, r.count)));
    }
    TablesKept(g, r.disk, Finish(g, f, r).disk);
  }

  // ---- a position behind the last cluster

  /** The chain of the file ends where its position is, as after a write that has filled the last cluster. */
  ghost predicate Behind(g: Info, disk: Disk, f: File, chain: seq<nat>) {
    && Mounted(g, disk) && g.fat + g.fatSectors <= |disk|
    && Chains.Chain(Table(g, disk), chain) && f.first == chain[0] && Skip(g, f) == |chain|
    && forall k :: 0 <= k < |chain| ==> Real(g, chain[k])
  }

  /** The walk to the position then meets the end mark, whose sectors lie behind the medium. */
  ghost predicate Appending(g: Info, disk: Disk, f: File) {
    && Mounted(g, disk) && InodeFits(g, f) && f.first != 0 && |disk| <= Base(g, Chains.END)
    && exists chain :: Behind(g, disk, f, chain)
  }

  /** FAT32_write of n bytes from such a position, as far as one cluster goes: the device takes none of them. */
  ghost function AppendFile(g: Info, disk: Disk, f: File, n: nat): After
    requires Mounted(g, disk) && InodeFits(g, f)
  {
    Finish(g, f, Written(disk, n, [], false))
  }

  /**
   Nothing is allocated and nothing stored, but n is returned and the size grows past the bytes the file has.
   No cluster changes but that of the directory entry.
   */
  lemma AppendStoresNothing(g: Info, disk: Disk, f: File, n: nat, chain: seq<nat>)
    requires Appending(g, disk, f) && Behind(g, disk, f, chain) && f.dir !in chain && f.size <= f.position && 0 < n
    ensures var r := AppendFile(g, disk, f, n);
      && r.outcome == Count(n) && r.file == f.(position := f.position + n, size := f.position + n)
      && g.fat + g.fatSectors <= |r.disk| && Mounted(g, r.disk) && Table(g, r.disk) == Table(g, disk)
      && (forall c :: Real(g, c) && c != f.dir ==> Content(g, r.disk, c) == Content(g, disk, c))
      && FileBytes(g, r.disk, chain) == FileBytes(g, disk, chain) && r.file.size > |FileBytes(g, r.disk, chain)|
  {
    hide Table, Content, WriteInode, FileBytes, ClusterBytes;
    FinishKeeps(g, f, Written(disk, n, [], false));
    FileApart(g, disk, AppendFile(g, disk, f, n).disk, chain);
    assert f.position >= ClusterBytes(g) * |chain| by {
      assert f.position == ClusterBytes(g) * Skip(g, f) + Offset(g, f);
    }
  }

  lemma TablesKept(g: Info, disk: Disk, other: Disk)
    requires Mounted(g, disk) && |other| == |disk|
    requires forall i :: 0 <= i < |disk| && i < g.data ==> other[i] == disk[i]
    ensures g.fat + g.fatSectors <= |disk| && Mounted(g, other) && Table(g, other) == Table(g, disk)
              && Kept(g, disk, other)
  {
    TableFits(g, disk);
    TablesApart(g, disk, other);
  }

  // ---- the table

  /**
   Starting inside a chain, a write of any length appends to that chain, one after the other, clusters
   that were free, and does nothing else to the table; it runs out of space only when no entry is free.
   */
  lemma WriteExtendsChain(g: Info, disk: Disk, f: File, data: seq<Byte>, garbage: seq<Byte>, cs: seq<seq<nat>>, a: nat)
    requires Writable(g, disk, f) && |garbage| == ClusterBytes(g) && f.first != 0
    requires g.fat + g.fatSectors <= |disk| && Chains.Files(Table(g, disk), cs) && Chains.Reserved(Table(g, disk))
    requires a < |cs| && cs[a] != [] && cs[a][0] == f.first
    ensures var r := WriteFile(g, disk, f, data, garbage);
      && Mounted(g, r.disk) && Extended(g, disk, cs, a, Written(r.disk, |data|, r.added, r.outcome == NoSpace))
      && r.file.first == f.first
  {
    hide Table, Extended, Kept, Chains.Files, Chains.Chain;
    var w := Entry(g, disk, f, garbage);
    StartInChain(g, disk, f, cs, a);
    RunExtends(g, w, data, cs, a);
    var r := WriteRun(g, w, data);
    FinishKeeps(g, f, r);
    ExtendedThenKept(g, disk, cs, a, r, WriteFile(g, disk, f, data, garbage).disk, |data|);
  }

  lemma ExtendedThenKept(g: Info, disk: Disk, cs: seq<seq<nat>>, a: nat, r: Written, after: Disk, n: nat)
    requires Mounted(g, disk) && Mounted(g, r.disk) && Mounted(g, after) && a < |cs| && Extended(g, disk, cs, a, r)
    requires g.fat + g.fatSectors <= |after| == |r.disk| && Table(g, after) == Table(g, r.disk)
    requires Kept(g, r.disk, after)
    ensures Extended(g, disk, cs, a, Written(after, n, r.added, r.full))
  {
    hide Chains.Files, Table;
    KeptTwice(g, disk, r.disk, after);
  }

  /** The start cluster of a file is the one its chain has at the position. */
  lemma StartIs(g: Info, disk: Disk, f: File, chain: seq<nat>)
    requires Writable(g, disk, f) && f.first != 0 && g.fat + g.fatSectors <= |disk|
    requires Chains.Chain(Table(g, disk), chain) && chain[0] == f.first
    ensures Covered(g, disk, f, chain) && StartCluster(g, disk, f) == chain[Skip(g, f)]
  {
    var c :| Covered(g, disk, f, c);
    Chains.HeadDetermines(Table(g, disk), c, chain);
    Chains.WalkChain(Table(g, disk), chain, Skip(g, f));
  }

  /** The chain that leads to the position, or ends there. */
  lemma StartChain(g: Info, disk: Disk, f: File) returns (chain: seq<nat>)
    requires f.first != 0 && (Writable(g, disk, f) || Appending(g, disk, f))
    ensures Mounted(g, disk) && g.fat + g.fatSectors <= |disk|
    ensures Chains.Chain(Table(g, disk), chain) && chain[0] == f.first && Skip(g, f) <= |chain|
    ensures Writable(g, disk, f) ==> Skip(g, f) < |chain| && StartCluster(g, disk, f) == chain[Skip(g, f)]
    ensures Appending(g, disk, f) ==> Skip(g, f) == |chain|
  {
    if Appending(g, disk, f) {
      chain :| Behind(g, disk, f, chain);
      if Writable(g, disk, f) { StartIs(g, disk, f, chain); }
    } else {
      chain :| Covered(g, disk, f, chain);
      StartIs(g, disk, f, chain);
    }
  }

  lemma StartInChain(g: Info, disk: Disk, f: File, cs: seq<seq<nat>>, a: nat)
    requires Writable(g, disk, f) && f.first != 0 && g.fat + g.fatSectors <= |disk|
    requires Chains.Files(Table(g, disk), cs) && a < |cs| && cs[a] != [] && cs[a][0] == f.first
    ensures Covered(g, disk, f, cs[a]) && StartCluster(g, disk, f) == cs[a][Skip(g, f)]
              && StartCluster(g, disk, f) in cs[a]
  {
    assert Chains.Chain(Table(g, disk), cs[a]);
    StartIs(g, disk, f, cs[a]);
  }

  /**
   The first write to an empty file gives it a chain of its own. The first pieces go to the sectors
   from 0 on, so the tables survive only if a cluster fits below them.
   */
  lemma WriteStartsChain(g: Info, disk: Disk, f: File, data: seq<Byte>, garbage: seq<Byte>, cs: seq<seq<nat>>)
    requires Writable(g, disk, f) && |garbage| == ClusterBytes(g) && f.first == 0 && g.perCluster <= g.fat
    requires g.fat + g.fatSectors <= |disk| && Chains.Files(Table(g, disk), cs) && Chains.Reserved(Table(g, disk))
    ensures var r := WriteFile(g, disk, f, data, garbage);
      && Mounted(g, r.disk) && Kept(g, disk, r.disk)
      && (r.file.first == 0 ==> r == After(disk, f, NoSpace, []))
      && (r.file.first != 0 ==>
            && 2 <= r.file.first < |Table(g, disk)| && Chains.Link(Table(g, disk)[r.file.first]) == 0
            && Chains.Files(Table(g, r.disk), cs + [[r.file.first] + r.added]))
  {
    hide Table, Extended, Kept, Chains.Files, Chains.Chain;
    var c := StartCluster(g, disk, f);
    if c == 0 {
      KeptItself(g, disk);
    } else {
      BeginsChain(g, disk, f, cs);
      var w, ds := Entry(g, disk, f, garbage), cs + [[c]];
      RunExtends(g, w, data, ds, |cs|);
      var r := WriteRun(g, w, data);
      FinishKeeps(g, f.(first := c), r);
      var after := WriteFile(g, disk, f, data, garbage).disk;
      ExtendedMeans(g, w.disk, ds, |cs|, r);
      KeptTwice(g, disk, w.disk, r.disk);
      KeptTwice(g, disk, r.disk, after);
      assert ds[|cs| := ds[|cs|] + r.added] == cs + [[c] + r.added];
    }
  }

  lemma KeptItself(g: Info, disk: Disk)
    requires Mounted(g, disk)
    ensures Kept(g, disk, disk)
  {}

  lemma ExtendedMeans(g: Info, disk: Disk, cs: seq<seq<nat>>, a: nat, r: Written)
    requires Mounted(g, disk) && Mounted(g, r.disk) && a < |cs| && Extended(g, disk, cs, a, r)
    ensures g.fat + g.fatSectors <= |r.disk|
    ensures Kept(g, disk, r.disk) && Chains.Files(Table(g, r.disk), cs[a := cs[a] + r.added])
  {
    TableFits(g, r.disk);
  }

  lemma BeginsChain(g: Info, disk: Disk, f: File, cs: seq<seq<nat>>)
    requires Writable(g, disk, f) && f.first == 0 && StartCluster(g, disk, f) != 0
    requires g.fat + g.fatSectors <= |disk| && Chains.Files(Table(g, disk), cs) && Chains.Reserved(Table(g, disk))
    ensures var c := StartCluster(g, disk, f);
      var d := Begun(g, disk, f, c);
      && 2 <= c < |Table(g, disk)| && Chains.Link(Table(g, disk)[c]) == 0
      && Mounted(g, d) && Kept(g, disk, d) && Chains.Files(Table(g, d), cs + [[c]]) && Chains.Reserved(Table(g, d))
  {
    hide Chains.Files;
    var c := StartCluster(g, disk, f);
    var t := Table(g, disk);
    Chains.FirstFreeMeans(t, 0);
    Chains.FindsFreeCluster(t, 0);
    var named := WriteInode(g, disk, f.(first := c));
    InodeWritten(g, disk, f.(first := c));
    TableFits(g, disk);
    TablesApart(g, disk, named);
    SetEntrySets(g, named, c, Chains.END);
    Chains.PutKeepsNibbles(t, c, Chains.END);
    Chains.StartsChain(t, cs, c);
    if CopiesEqual(g, disk) { SetEntryKeepsCopies(g, named, c, Chains.END); }
  }

  // ---- how far the loop gets

  /**
   A write that starts in the last cluster of a chain allocates exactly the clusters its length calls
   for; one that starts in an earlier cluster allocates none.
   */
  lemma {:induction false} RunAllocates(g: Info, w: Cursor, data: seq<Byte>)
    requires Steady(g, w) && Separate(g, w) && g.fat + g.fatSectors <= |w.disk|
    ensures var r := WriteRun(g, w, data);
      && r.count <= |data| && (r.full <==> r.count < |data|)
      && (Next(g, w) < Chains.END ==> r.added == [] && !r.full)
      && (Next(g, w) >= Chains.END ==>
            && (r.added == [] || ClusterBytes(g) * |r.added| < w.offset + |data|)
            && (!r.full ==> w.offset + |data| <= ClusterBytes(g) * (|r.added| + 1)))
    decreases |data|
  {
    hide Stored, Linked, Table, Kept, ClusterBytes, Place, Separate, Chains.FirstFree, Chains.Appended, Mounted,
         Next, Piece, Chains.Link;
    var n := |Piece(g, w, data)|;
    var s := Stored(g, w, data);
    StoredKeepsTable(g, w, data);
    var r := WriteRun(g, w, data);
    if n == |data| {
      assert r.added == [] && r.count == |data|;
    } else {
      if Next(g, s) < Chains.END {
        RunAllocates(g, s, data[n..]);
      } else {
        var f := Chains.FirstFree(Table(g, s.disk), 0);
        Chains.FirstFreeMeans(Table(g, s.disk), 0);
        if f != 0 {
          LinkedTable(g, s, f);
          RunAllocates(g, Linked(g, s, f), data[n..]);
          OneMore(ClusterBytes(g), |WriteRun(g, Linked(g, s, f), data[n..]).added|);
        }
      }
    }
  }

  /**
   A write in the last cluster runs out of space if and only if it needs more clusters than there are free
   entries. It has used them all up then, and got to the end of the last.
   */
  lemma {:induction false} RunFull(g: Info, w: Cursor, data: seq<Byte>)
    requires Steady(g, w) && Separate(g, w) && g.fat + g.fatSectors <= |w.disk| && Chains.Reserved(Table(g, w.disk))
    ensures var r, free := WriteRun(g, w, data), Chains.FreeCount(Table(g, w.disk));
      && (r.full <==> Next(g, w) >= Chains.END && w.offset + |data| > ClusterBytes(g) * (free + 1))
      && (r.full ==> |r.added| == free && w.offset + r.count == ClusterBytes(g) * (free + 1))
    decreases |data|
  {
    hide Piece, Stored, Linked, Table, Kept, ClusterBytes, Place, Separate, Chains.FirstFree, Chains.Appended,
         Mounted, Next, Chains.Link, Chains.Reserved;
    var t := Table(g, w.disk);
    var n := |Piece(g, w, data)|;
    var s := Stored(g, w, data);
    StoredKeepsTable(g, w, data);
    Scaled(ClusterBytes(g), Chains.FreeCount(t));
    if n < |data| {
      if Next(g, s) < Chains.END {
        RunAllocates(g, s, data[n..]);
      } else {
        var f := Chains.FirstFree(t, 0);
        Chains.FirstFreeMeans(t, 0);
        Chains.FindsFreeCluster(t, 0);
        Chains.NoneFree(t);
        if f != 0 {
          OneLinked(g, s, f);
          RunFull(g, Linked(g, s, f), data[n..]);
        }
      }
    }
  }

  lemma OneLinked(g: Info, w: Cursor, f: nat)
    requires Steady(g, w) && g.fat + g.fatSectors <= |w.disk| && w.sector + g.perCluster <= |w.disk|
    requires w.sector + g.perCluster <= g.fat || g.data <= w.sector
    requires 0 < f < |Table(g, w.disk)| && Chains.Link(Table(g, w.disk)[f]) == 0 && Next(g, w) >= Chains.END
    requires Chains.Reserved(Table(g, w.disk))
    ensures var l := Linked(g, w, f);
      && g.fat + g.fatSectors <= |l.disk| && Separate(g, l) && Chains.Reserved(Table(g, l.disk))
      && Next(g, l) >= Chains.END
      && Chains.FreeCount(Table(g, l.disk)) == Chains.FreeCount(Table(g, w.disk)) - 1
  {
    TableFits(g, w.disk);
    hide Linked, Table, Mounted, Chains.FreeCount, Chains.Appended, Chains.Reserved, Separate;
    LinkedTable(g, w, f);
    Chains.AppendedCount(Table(g, w.disk), w.cluster, f);
    Chains.AppendedReserved(Table(g, w.disk), w.cluster, f);
  }

  lemma Scaled(b: nat, m: nat)
    ensures b * (m + 1) == b * m + b && b * m >= 0
  {}

  lemma Distributes(b: nat, k: nat, m: nat)
    ensures b * (k + 1 + m) == b * k + b * (m + 1) && b * (k + m) == b * k + b * m
  {}

  lemma OneMore(b: nat, m: nat)
    ensures b * (m + 1) == b * m + b && b * (m + 2) == b * m + b + b
  {}

  // ---- the data

  /** The directory entry of the file lies in another chain. */
  ghost predicate DirElsewhere(f: File, cs: seq<seq<nat>>, a: nat) {
    f.dir != 0 ==> exists b, j :: 0 <= b < |cs| && b != a && 0 <= j < |cs[b]| && cs[b][j] == f.dir
  }

  lemma ChainApart(t: seq<nat>, cs: seq<seq<nat>>, a: nat, f: File)
    requires Chains.Files(t, cs) && a < |cs| && DirElsewhere(f, cs, a)
    ensures forall i, j :: 0 <= i < |cs[a]| && 0 <= j < |cs[a]| && i != j ==> cs[a][i] != cs[a][j]
    ensures f.dir !in cs[a]
  {
    assert Chains.Chain(t, cs[a]);
    assert 0 !in cs[a];
  }

  lemma {:induction false} OneClusterChanged(g: Info, disk: Disk, other: Disk, chain: seq<nat>, k: nat, o: nat,
      data: seq<Byte>)
    requires Mounted(g, disk) && Mounted(g, other) && forall j :: 0 <= j < |chain| ==> Real(g, chain[j])
    requires k < |chain| && o + |data| <= ClusterBytes(g)
    requires Content(g, other, chain[k]) == Overlay(Content(g, disk, chain[k]), o, data)
    requires forall j :: 0 <= j < |chain| && j != k ==> Content(g, other, chain[j]) == Content(g, disk, chain[j])
    ensures ClusterBytes(g) * k + o + |data| <= |FileBytes(g, disk, chain)|
    ensures FileBytes(g, other, chain) == Overlay(FileBytes(g, disk, chain), ClusterBytes(g) * k + o, data)
  {
    hide ClusterBytes, Mounted, Content, Overlay;
    var b, m := ClusterBytes(g), |chain| - 1;
    var front, last := FileBytes(g, disk, chain[..m]), Content(g, disk, chain[m]);
    Rows(b, m, |chain|);
    if k < m {
      Rows(b, k, m);
      OneClusterChanged(g, disk, other, chain[..m], k, o, data);
      OverlayParts(front, last, b * k + o, data);
    } else {
      FileApart(g, disk, other, chain[..m]);
      OverlayParts(front, last, b * m + o, data);
    }
  }

  /** Laying a piece over one of two parts. */
  lemma OverlayParts(p: seq<Byte>, q: seq<Byte>, at: nat, piece: seq<Byte>)
    requires at + |piece| <= |p| + |q|
    ensures at + |piece| <= |p| ==> Overlay(p + q, at, piece) == Overlay(p, at, piece) + q
    ensures |p| <= at ==> Overlay(p + q, at, piece) == p + Overlay(q, at - |p|, piece)
  {}

  /** Whatever its length, a write changes no cluster but the one it starts in and that of the directory entry. */
  lemma WriteLeavesOthers(g: Info, disk: Disk, f: File, data: seq<Byte>, garbage: seq<Byte>, c: nat)
    requires Writable(g, disk, f) && |garbage| == ClusterBytes(g) && f.first != 0
    requires Real(g, c) && c != StartCluster(g, disk, f) && c != f.dir
    ensures Mounted(g, WriteFile(g, disk, f, data, garbage).disk)
    ensures Content(g, WriteFile(g, disk, f, data, garbage).disk, c) == Content(g, disk, c)
  {
    hide Content, Table;
    var w := Entry(g, disk, f, garbage);
    RunTouches(g, w, data);
    var r := WriteRun(g, w, data);
    if c < w.cluster { BaseApart(g, c, w.cluster); } else { BaseApart(g, w.cluster, c); }
    BaseBounds(g, disk, c);
    ContentApart(g, disk, r.disk, c);
    FinishKeeps(g, f, r);
  }

  /** The first write to an empty file stores nothing in the data area but the directory entry. */
  lemma FirstWriteStoresNothing(g: Info, disk: Disk, f: File, data: seq<Byte>, garbage: seq<Byte>, c: nat)
    requires Writable(g, disk, f) && |garbage| == ClusterBytes(g) && f.first == 0 && g.perCluster <= g.fat
    requires Real(g, c) && c != f.dir
    ensures Mounted(g, WriteFile(g, disk, f, data, garbage).disk)
    ensures Content(g, WriteFile(g, disk, f, data, garbage).disk, c) == Content(g, disk, c)
  {
    hide Content, Table;
    var start := StartCluster(g, disk, f);
    if start != 0 {
      var w := Entry(g, disk, f, garbage);
      var named := WriteInode(g, disk, f.(first := start));
      InodeWritten(g, disk, f.(first := start));
      SetEntrySets(g, named, start, Chains.END);
      BaseBounds(g, disk, c);
      ContentApart(g, named, w.disk, c);
      RunTouches(g, w, data);
      var r := WriteRun(g, w, data);
      TableFits(g, disk);
      ContentApart(g, w.disk, r.disk, c);
      FinishKeeps(g, f.(first := start), r);
    }
  }

  /** The directory entry of the file names its first cluster and its size. */
  ghost predicate Recorded(g: Info, disk: Disk, f: File, size: nat)
    requires Mounted(g, disk) && InodeFits(g, f) && f.dir != 0
  {
    && FirstOf(Content(g, disk, f.dir), SLOT * f.slot) == f.first
    && SizeOf(Content(g, disk, f.dir), SLOT * f.slot) == size % LIMIT32
  }

  lemma InodeRecorded(g: Info, disk: Disk, f: File)
    requires Mounted(g, disk) && InodeFits(g, f) && f.dir != 0 && f.first < Chains.LINK
    ensures Mounted(g, WriteInode(g, disk, f)) && Recorded(g, WriteInode(g, disk, f), f, f.size)
  {
    hide Content;
    InodeWritten(g, disk, f);
    InodeReadsBack(Content(g, disk, f.dir), SLOT * f.slot, f.first, f.size);
  }

  /**
   A first write names the first cluster in the directory entry, also if it then runs out of space; the size there is
   the new one if the write grew the file, and otherwise that of before.
   */
  lemma FirstWriteNamed(g: Info, disk: Disk, f: File, data: seq<Byte>, garbage: seq<Byte>)
    requires Writable(g, disk, f) && |garbage| == ClusterBytes(g) && f.first == 0 && g.perCluster <= g.fat
    requires StartCluster(g, disk, f) != 0 && f.dir != 0
    ensures var r := WriteFile(g, disk, f, data, garbage);
      && r.file.first == StartCluster(g, disk, f) && r.file.dir == f.dir && r.file.slot == f.slot
      && Mounted(g, r.disk) && Recorded(g, r.disk, r.file, r.file.size)
      && (r.outcome == NoSpace ==> r.file.size == f.size)
  {
    hide Content, Table, WriteInode, FirstOf, SizeOf;
    var start := StartCluster(g, disk, f);
    var named := WriteInode(g, disk, f.(first := start));
    InodeWritten(g, disk, f.(first := start));
    InodeRecorded(g, disk, f.(first := start));
    SetEntrySets(g, named, start, Chains.END);
    var w := Entry(g, disk, f, garbage);
    BaseBounds(g, disk, f.dir);
    TableFits(g, disk);
    ContentApart(g, named, w.disk, f.dir);
    RunTouches(g, w, data);
    var r := WriteRun(g, w, data);
    ContentApart(g, w.disk, r.disk, f.dir);
    if !r.full && f.position + r.count > f.size {
      InodeRecorded(g, r.disk, Grown(Moved(f.(first := start), r.count)));
    }
  }

  // ---- where the first write goes

  /** n bytes that are all v. */
  function Same(n: nat, v: Byte): (r: seq<Byte>)
    ensures |r| == n
  {
    seq(n, i => v)
  }

  /** The sectors of the first piece hold v throughout. */
  ghost predicate Painted(g: Info, disk: Disk, v: Byte) {
    forall i :: 0 <= i < g.perCluster && i < |disk| ==> disk[i] == Same(SECTOR, v)
  }

  lemma PaintedOnce(g: Info, w: Cursor, data: seq<Byte>, v: Byte)
    requires Steady(g, w) && w.flags && w.sector == 0 && w.buffer == Same(ClusterBytes(g), v) && data == Same(|data|, v)
    ensures var s := Stored(g, w, data); Painted(g, s.disk, v) && s.buffer == w.buffer && s.sector == 0
  {
    var s := Stored(g, w, data);
    assert s.buffer == w.buffer;
    forall i | 0 <= i < g.perCluster && i < |s.disk| ensures s.disk[i] == Same(SECTOR, v) {
      assert s.disk[i] == Cut(s.buffer)[i];
    }
  }

  /** Whatever its length, a write with flags set ends with its buffer in the sectors from 0 on. */
  lemma {:induction false} RunPaints(g: Info, w: Cursor, data: seq<Byte>, v: Byte)
    requires Steady(g, w) && w.flags && w.sector == 0 && w.buffer == Same(ClusterBytes(g), v) && data == Same(|data|, v)
    ensures Painted(g, WriteRun(g, w, data).disk, v)
    decreases |data|
  {
    hide Stored, Linked, Table, Painted, ClusterBytes;
    var n := |Piece(g, w, data)|;
    var s := Stored(g, w, data);
    PaintedOnce(g, w, data, v);
    TableFits(g, s.disk);
    if n < |data| {
      assert data[n..] == Same(|data| - n, v);
      if Next(g, s) < Chains.END {
        RunPaints(g, s, data[n..], v);
      } else {
        var f := Chains.FirstFree(Table(g, s.disk), 0);
        Chains.FirstFreeMeans(Table(g, s.disk), 0);
        if f != 0 { RunPaints(g, Linked(g, s, f), data[n..], v); }
      }
    }
  }

  /** The first write of n bytes v, with v in the buffer too, to a file that gets a cluster. */
  lemma FirstWritePaints(g: Info, disk: Disk, f: File, n: nat, v: Byte)
    requires Writable(g, disk, f) && f.first == 0 && StartCluster(g, disk, f) != 0
    ensures var r := WriteFile(g, disk, f, Same(n, v), Same(ClusterBytes(g), v)).disk;
      Mounted(g, r) && forall i :: 0 <= i < g.perCluster && i < g.data ==> i < |r| && r[i] == Same(SECTOR, v)
  {
    hide Table, Content;
    var garbage := Same(ClusterBytes(g), v);
    var w := Entry(g, disk, f, garbage);
    RunPaints(g, w, Same(n, v), v);
    var r := WriteRun(g, w, Same(n, v));
    RunMounted(g, w, Same(n, v));
    FinishKeeps(g, f.(first := StartCluster(g, disk, f)), r);
    TableFits(g, r.disk);
  }

  lemma RunMounted(g: Info, w: Cursor, data: seq<Byte>)
    requires Steady(g, w)
    ensures Mounted(g, WriteRun(g, w, data).disk)
  {}

  /** A first write changes no entries but those of the clusters it gives the file. */
  ghost predicate TableSpared(g: Info, disk: Disk, f: File, data: seq<Byte>, garbage: seq<Byte>)
    requires Writable(g, disk, f) && |garbage| == ClusterBytes(g)
  {
    var r := WriteFile(g, disk, f, data, garbage);
    && g.fat + g.fatSectors <= |disk|
    && forall e :: 0 <= e < |Table(g, disk)| && e != r.file.first && e !in r.added ==>
         Table(g, r.disk)[e] == Table(g, disk)[e]
  }

  lemma BegunTable(g: Info, disk: Disk, f: File, c: nat)
    requires Mounted(g, disk) && InodeFits(g, f) && c < PER_SECTOR * g.fatSectors
    ensures g.fat + g.fatSectors <= |disk| && Table(g, Begun(g, disk, f, c))
              == Chains.Put(Table(g, disk), c, Chains.END)
  {
    var named := WriteInode(g, disk, f.(first := c));
    InodeWritten(g, disk, f.(first := c));
    TableFits(g, disk);
    TablesApart(g, disk, named);
    SetEntrySets(g, named, c, Chains.END);
  }

  lemma SparedBelow(g: Info, disk: Disk, f: File, data: seq<Byte>, garbage: seq<Byte>)
    requires Writable(g, disk, f) && |garbage| == ClusterBytes(g) && f.first == 0 && StartCluster(g, disk, f) != 0
    requires g.perCluster <= g.fat && g.fat + g.fatSectors <= |disk| && Chains.Reserved(Table(g, disk))
    ensures TableSpared(g, disk, f, data, garbage)
  {
    hide Table, Kept, Chains.Files, Chains.Chain, Begun, WriteInode, Chains.Reserved;
    NoChains(Table(g, disk));
    var c := StartCluster(g, disk, f);
    BeginsChain(g, disk, f, []);
    assert [] + [[c]] == [[c]];
    var w := Entry(g, disk, f, garbage);
    RunExtends(g, w, data, [[c]], 0);
    var r := WriteRun(g, w, data);
    FinishKeeps(g, f.(first := c), r);
    BegunTable(g, disk, f, c);
  }

  lemma NoChains(t: seq<nat>)
    ensures Chains.Files(t, [])
  {}

  lemma {:induction false} AddedNonzero(g: Info, w: Cursor, data: seq<Byte>)
    requires Steady(g, w)
    ensures 0 !in WriteRun(g, w, data).added
    decreases |data|
  {
    hide Stored, Linked, Table;
    var n := |Piece(g, w, data)|;
    var s := Stored(g, w, data);
    TableFits(g, s.disk);
    if n < |data| {
      if Next(g, s) < Chains.END {
        AddedNonzero(g, s, data[n..]);
      } else {
        var f := Chains.FirstFree(Table(g, s.disk), 0);
        Chains.FirstFreeMeans(Table(g, s.disk), 0);
        if f != 0 { AddedNonzero(g, Linked(g, s, f), data[n..]); }
      }
    }
  }

  /** The first entry of the table after a first write of bytes v over a buffer of bytes v. */
  lemma PaintedEntry(g: Info, disk: Disk, f: File, n: nat, v: Byte)
    requires Writable(g, disk, f) && f.first == 0 && StartCluster(g, disk, f) != 0 && g.perCluster > g.fat
    ensures var r := WriteFile(g, disk, f, Same(n, v), Same(ClusterBytes(g), v));
      && g.fat + g.fatSectors <= |disk| == |r.disk| && Table(g, r.disk)[0] == v * 0x101_0101
      && 0 != r.file.first && 0 !in r.added
  {
    hide WriteRun, Begun, StartCluster;
    TableFits(g, disk);
    FirstWritePaints(g, disk, f, n, v);
    AddedNonzero(g, Entry(g, disk, f, Same(ClusterBytes(g), v)), Same(n, v));
    hide Finish;
    PaintedWord(v);
  }

  lemma PaintedWord(v: Byte)
    ensures Word(Same(SECTOR, v), 0) == v * 0x101_0101
  {}

  /**
   The first pieces of a file go to the sectors from 0 on, whatever they hold. The tables survive every first
   write of n bytes if and only if a cluster fits below them.
   */
  lemma FirstWriteSparesTableIff(g: Info, disk: Disk, f: File, n: nat)
    requires Writable(g, disk, f) && f.first == 0 && StartCluster(g, disk, f) != 0
    requires g.fat + g.fatSectors <= |disk| && Chains.Reserved(Table(g, disk))
    ensures (forall data: seq<Byte>, garbage: seq<Byte> :: |data| == n && |garbage| == ClusterBytes(g) ==>
               TableSpared(g, disk, f, data, garbage))
            <==> g.perCluster <= g.fat
  {
    hide ClusterBytes, WriteFile, StartCluster, Writable;
    if g.perCluster <= g.fat {
      forall data: seq<Byte>, garbage: seq<Byte> | |data| == n && |garbage| == ClusterBytes(g)
        ensures TableSpared(g, disk, f, data, garbage)
      {
        SparedBelow(g, disk, f, data, garbage);
      }
    } else {
      PaintedEntry(g, disk, f, n, 0);
      PaintedEntry(g, disk, f, n, 255);
      assert !(TableSpared(g, disk, f, Same(n, 0), Same(ClusterBytes(g), 0))
               && TableSpared(g, disk, f, Same(n, 255), Same(ClusterBytes(g), 255)));
    }
  }

  /** The single piece of a write that fits its cluster. */
  lemma OnePiece(g: Info, disk: Disk, f: File, data: seq<Byte>, garbage: seq<Byte>)
    requires Writable(g, disk, f) && |garbage| == ClusterBytes(g) && f.first != 0
    requires Offset(g, f) + |data| <= ClusterBytes(g)
    ensures var c := StartCluster(g, disk, f);
      var r := WriteRun(g, Entry(g, disk, f, garbage), data);
      && r.count == |data| && r.added == [] && !r.full
      && Mounted(g, r.disk) && Content(g, r.disk, c) == Overlay(Content(g, disk, c), Offset(g, f), data)
      && (forall i :: 0 <= i < |disk| && i < g.data ==> r.disk[i] == disk[i])
      && (forall d :: Real(g, d) && d != c ==> Content(g, r.disk, d) == Content(g, disk, d))
  {
    var c := StartCluster(g, disk, f);
    ClusterStored(g, disk, c, Overlay(Content(g, disk, c), Offset(g, f), data));
  }

  /**
   A write that fits one allocated cluster replaces exactly its range of the file's bytes. The tables
   stay, every other cluster stays but for the directory entry of a file that has grown.
   */
  lemma WriteInPlace(g: Info, disk: Disk, f: File, data: seq<Byte>, garbage: seq<Byte>, cs: seq<seq<nat>>, a: nat)
    requires Writable(g, disk, f) && |garbage| == ClusterBytes(g) && f.first != 0
    requires g.fat + g.fatSectors <= |disk| && Chains.Files(Table(g, disk), cs) && a < |cs| && cs[a] != []
    requires cs[a][0] == f.first
    requires Offset(g, f) + |data| <= ClusterBytes(g) && DirElsewhere(f, cs, a)
    ensures var r := WriteFile(g, disk, f, data, garbage);
      var size := if f.position + |data| > f.size then f.position + |data| else f.size;
      && r.outcome == Count(|data|) && r.added == [] && r.file == f.(position := f.position + |data|, size := size)
      && Mounted(g, r.disk) && Table(g, r.disk) == Table(g, disk) && Kept(g, disk, r.disk)
      && (forall k :: 0 <= k < |cs[a]| ==> Real(g, cs[a][k]))
      && f.position + |data| <= |FileBytes(g, disk, cs[a])|
      && FileBytes(g, r.disk, cs[a]) == Overlay(FileBytes(g, disk, cs[a]), f.position, data)
      && (forall c :: Real(g, c) && c !in cs[a] && c != f.dir ==> Content(g, r.disk, c) == Content(g, disk, c))
      && (f.dir != 0 ==>
            Content(g, r.disk, f.dir) == if size > f.size then NewSlot(g, disk, r.file) else Content(g, disk, f.dir))
  {
    hide Content, Table, FileBytes, ClusterBytes, Kept, Overlay, Chains.Files, Chains.Chain, DirElsewhere,
         StartCluster, Entry, WriteRun;
    var chain := cs[a];
    StartInChain(g, disk, f, cs, a);
    ChainApart(Table(g, disk), cs, a, f);
    OnePiece(g, disk, f, data, garbage);
    var k := Skip(g, f);
    var r := WriteRun(g, Entry(g, disk, f, garbage), data);
    var after := WriteFile(g, disk, f, data, garbage);
    FinishKeeps(g, f, r);
    TablesKept(g, disk, r.disk);
    KeptTwice(g, disk, r.disk, after.disk);
    forall j | 0 <= j < |chain| && j != k ensures Content(g, after.disk, chain[j]) == Content(g, disk, chain[j]) {
      assert chain[j] != chain[k];
    }
    OneClusterChanged(g, disk, after.disk, chain, k, Offset(g, f), data);
    if f.dir != 0 && f.position + |data| > f.size { InodeWritten(g, r.disk, after.file); }
  }

  // ---- when a write stores what it was given

  /**
   A write that starts in the last cluster of its chain leaves a chain just long enough for its last
   byte; one that starts earlier never lengthens the chain and never runs out of space.
   */
  lemma WriteAllocates(g: Info, disk: Disk, f: File, data: seq<Byte>, garbage: seq<Byte>, cs: seq<seq<nat>>, a: nat)
    requires Writable(g, disk, f) && |garbage| == ClusterBytes(g) && f.first != 0
    requires g.fat + g.fatSectors <= |disk| && Chains.Files(Table(g, disk), cs) && a < |cs| && cs[a] != []
    requires cs[a][0] == f.first
    ensures var r := WriteFile(g, disk, f, data, garbage);
      var n := |cs[a]| + |r.added|;
      && Skip(g, f) < |cs[a]|
      && (Skip(g, f) < |cs[a]| - 1 ==> r.added == [] && r.outcome == Count(|data|))
      && (Skip(g, f) == |cs[a]| - 1 && r.outcome != NoSpace ==>
            && r.outcome == Count(|data|) && f.position + |data| <= ClusterBytes(g) * n
            && (r.added != [] ==> ClusterBytes(g) * (n - 1) < f.position + |data|))
      && (r.outcome == NoSpace ==>
            Skip(g, f) == |cs[a]| - 1 && r.file.position < f.position + |data| && r.file.size == f.size)
  {
    hide ClusterBytes, Table, WriteRun, StartCluster, Chains.Files, Writable, WriteInode;
    StartInChain(g, disk, f, cs, a);
    Chains.EndIsLast(Table(g, disk), cs, a, Skip(g, f));
    var w := Entry(g, disk, f, garbage);
    RunAllocates(g, w, data);
    var m := |WriteRun(g, w, data).added|;
    var b, k := ClusterBytes(g), Skip(g, f);
    Distributes(b, k, m);
  }

  /** The bytes of a chain that has been given all free entries. */
  ghost function Reach(g: Info, disk: Disk, chain: seq<nat>): nat
    requires g.fat + g.fatSectors <= |disk|
  {
    ClusterBytes(g) * (|chain| + Chains.FreeCount(Table(g, disk)))
  }

  /**
   A write runs out of space if and only if it starts in the last cluster and its end lies beyond that cluster
   and all free entries. The position is then behind the last cluster that was free, and so beyond the size of
   the file unless that was there already.
   */
  lemma OutOfSpaceIff(g: Info, disk: Disk, f: File, data: seq<Byte>, garbage: seq<Byte>, cs: seq<seq<nat>>, a: nat)
    requires Writable(g, disk, f) && |garbage| == ClusterBytes(g) && f.first != 0
    requires g.fat + g.fatSectors <= |disk| && Chains.Files(Table(g, disk), cs) && Chains.Reserved(Table(g, disk))
    requires a < |cs| && cs[a] != [] && cs[a][0] == f.first
    ensures var r, end := WriteFile(g, disk, f, data, garbage), Reach(g, disk, cs[a]);
      && (r.outcome == NoSpace <==> Skip(g, f) == |cs[a]| - 1 && f.position + |data| > end)
      && (r.outcome == NoSpace ==> r.file == f.(position := end) && ClusterBytes(g) * (|cs[a]| + |r.added|) == end)
      && (r.outcome == NoSpace ==> (r.file.position > r.file.size <==> f.size < end))
  {
    hide ClusterBytes, Table, WriteRun, StartCluster, Chains.Files, Writable, WriteInode, Chains.Reserved,
         Chains.FreeCount;
    StartInChain(g, disk, f, cs, a);
    Chains.EndIsLast(Table(g, disk), cs, a, Skip(g, f));
    var w := Entry(g, disk, f, garbage);
    RunFull(g, w, data);
    Distributes(ClusterBytes(g), Skip(g, f), Chains.FreeCount(Table(g, disk)));
  }

  /** A table sector on which every entry is an end mark. */
  function FullSector(): Sector {
    seq(SECTOR, i => [0xf8, 0xff, 0xff, 0x0f][i % 4])
  }

  /** A full volume of 126 clusters of one sector, each a file of its own. */
  function FullInfo(): Info { Info(1, 1, 1, 2, 1, 126) }
  function FullAt(i: int): Sector { if i == 1 then FullSector() else Zeros() }
  function FullDisk(): Disk { seq<Sector>(128, i => FullAt(i)) }

  lemma FullTable()
    ensures Mounted(FullInfo(), FullDisk()) && Table(FullInfo(), FullDisk()) == seq(128, i => Chains.END)
    ensures Chains.FreeCount(Table(FullInfo(), FullDisk())) == 0 && Chains.Reserved(Table(FullInfo(), FullDisk()))
    ensures Chains.Files(Table(FullInfo(), FullDisk()), [[2]])
  {
    var t := Table(FullInfo(), FullDisk());
    assert FullDisk()[1] == FullSector();
    forall e | 0 <= e < 128 ensures t[e] == Chains.END {
      FullWord(e);
      TableAt(FullInfo(), FullDisk(), 0, e);
    }
    AllEnds(t);
  }

  lemma AllEnds(t: seq<nat>)
    requires t == seq(128, i => Chains.END)
    ensures Chains.FreeCount(t) == 0 && Chains.Reserved(t) && Chains.Files(t, [[2]])
  {
    Chains.NoneFree(t);
    assert Chains.Chain(t, [2]);
  }

  lemma FullWord(e: nat)
    requires e < PER_SECTOR
    ensures Word(FullSector(), 4 * e) == Chains.END
  {
    assert FullSector()[4 * e] == 0xf8 && FullSector()[4 * e + 1] == 0xff;
    assert FullSector()[4 * e + 2] == 0xff && FullSector()[4 * e + 3] == 0x0f;
  }

  /** On it a file of 100 bytes that is to get 600 from its start on is left with position 512. */
  lemma PositionPassesSize(data: seq<Byte>, garbage: seq<Byte>)
    requires |data| == 600 && |garbage| == SECTOR
    ensures Writable(FullInfo(), FullDisk(), File(2, 100, 0, 0, 0)) && ClusterBytes(FullInfo()) == SECTOR
    ensures WriteFile(FullInfo(), FullDisk(), File(2, 100, 0, 0, 0), data, garbage).outcome == NoSpace
    ensures WriteFile(FullInfo(), FullDisk(), File(2, 100, 0, 0, 0), data, garbage).file == File(2, 100, 512, 0, 0)
  {
    FullTable();
    hide FullDisk, Table, WriteFile, Chains.FreeCount;
    var f := File(2, 100, 0, 0, 0);
    assert Covered(FullInfo(), FullDisk(), f, [2]);
    OutOfSpaceIff(FullInfo(), FullDisk(), f, data, garbage, [[2]], 0);
  }

  /** On it a file of exactly one cluster is to get n bytes more: the size grows, and nothing is written anywhere. */
  lemma AppendIsLost(n: nat)
    requires 0 < n <= SECTOR
    ensures Appending(FullInfo(), FullDisk(), File(2, 512, 512, 0, 0)) && ClusterBytes(FullInfo()) == SECTOR
    ensures AppendFile(FullInfo(), FullDisk(), File(2, 512, 512, 0, 0), n)
            == After(FullDisk(), File(2, 512 + n, 512 + n, 0, 0), Count(n), [])
  {
    FullTable();
    hide Table, Chains.FreeCount;
    assert Behind(FullInfo(), FullDisk(), File(2, 512, 512, 0, 0), [2]);
  }

  /** An empty volume of one cluster of two sectors, with its table in sector 1. */
  function ReservedSector(): Sector {
    seq(SECTOR, i => if i < 8 then [0xf8, 0xff, 0xff, 0x0f][i % 4] else 0)
  }

  function WideInfo(): Info { Info(1, 1, 1, 2, 2, 1) }
  function WideAt(i: int): Sector { if i == 1 then ReservedSector() else Zeros() }
  function WideDisk(): Disk { seq<Sector>(4, i => WideAt(i)) }

  lemma ReservedWord(e: nat)
    requires e < PER_SECTOR
    ensures Word(ReservedSector(), 4 * e) == if e < 2 then Chains.END else 0
  {
    var s := ReservedSector();
    assert s[4 * e] == (if e < 2 then 0xf8 else 0) && s[4 * e + 1] == (if e < 2 then 0xff else 0);
    assert s[4 * e + 2] == (if e < 2 then 0xff else 0) && s[4 * e + 3] == (if e < 2 then 0x0f else 0);
  }

  lemma WideTable()
    ensures Mounted(WideInfo(), WideDisk()) && Table(WideInfo(), WideDisk())
              == seq(128, e => if e < 2 then Chains.END else 0)
    ensures Chains.FirstFree(Table(WideInfo(), WideDisk()), 0) == 2
  {
    var t := Table(WideInfo(), WideDisk());
    assert WideDisk()[1] == ReservedSector();
    forall e | 0 <= e < 128 ensures t[e] == if e < 2 then Chains.END else 0 {
      ReservedWord(e);
      TableAt(WideInfo(), WideDisk(), 0, e);
    }
    hide Table;
    assert Chains.FirstFree(t, 2) == 2;
    assert Chains.FirstFree(t, 1) == 2;
  }

  lemma ZeroWord(e: nat)
    requires e < PER_SECTOR
    ensures Word(Same(SECTOR, 0), 4 * e) == 0
  {}

  /** The first write of n zero bytes on it leaves a table in which every entry is free, that of the file among them. */
  lemma FirstWriteWipesTable(n: nat)
    ensures Writable(WideInfo(), WideDisk(), File(0, 0, 0, 0, 0)) && ClusterBytes(WideInfo()) == 1024
    ensures var r := WriteFile(WideInfo(), WideDisk(), File(0, 0, 0, 0, 0), Same(n, 0), Same(1024, 0));
      |r.disk| == 4 && Table(WideInfo(), r.disk) == seq(128, e => 0)
  {
    WideTable();
    hide WideDisk, WriteFile;
    var f := File(0, 0, 0, 0, 0);
    FirstWritePaints(WideInfo(), WideDisk(), f, n, 0);
    var r := WriteFile(WideInfo(), WideDisk(), f, Same(n, 0), Same(1024, 0));
    forall e | 0 <= e < 128 ensures Table(WideInfo(), r.disk)[e] == 0 {
      TableAt(WideInfo(), r.disk, 0, e);
      ZeroWord(e);
    }
  }

  /** The file reads back, from the position on, as the data that was written. */
  ghost predicate Stores(g: Info, f: File, chain: seq<nat>, data: seq<Byte>, r: After) {
    && r.outcome == Count(|data|) && Mounted(g, r.disk)
    && (forall k :: 0 <= k < |chain + r.added| ==> Real(g, (chain + r.added)[k]))
    && f.position + |data| <= |FileBytes(g, r.disk, chain + r.added)|
    && FileBytes(g, r.disk, chain + r.added)[f.position..f.position + |data|] == data
  }

  /** The cluster after the first piece: the next of the chain, or the one that is allocated for it. */
  ghost function SecondCluster(g: Info, disk: Disk, f: File, chain: seq<nat>): nat
    requires g.perCluster > 0 && g.fat + g.fatSectors <= |disk|
  {
    if Skip(g, f) + 1 < |chain| then chain[Skip(g, f) + 1] else Chains.FirstFree(Table(g, disk), 0)
  }

  lemma SecondComes(g: Info, disk: Disk, f: File, data: seq<Byte>, garbage: seq<Byte>, cs: seq<seq<nat>>, a: nat)
    requires Writable(g, disk, f) && |garbage| == ClusterBytes(g) && f.first != 0
    requires g.fat + g.fatSectors <= |disk| && Chains.Files(Table(g, disk), cs) && a < |cs| && cs[a] != []
    requires cs[a][0] == f.first
    requires Offset(g, f) + |data| > ClusterBytes(g) && WriteFile(g, disk, f, data, garbage).outcome != NoSpace
    ensures var after := cs[a] + WriteFile(g, disk, f, data, garbage).added;
      Skip(g, f) + 1 < |after| && after[Skip(g, f) + 1] == SecondCluster(g, disk, f, cs[a])
  {
    hide ClusterBytes, Table, Stored, Linked;
    StartInChain(g, disk, f, cs, a);
    Chains.EndIsLast(Table(g, disk), cs, a, Skip(g, f));
    StoredKeepsTable(g, Entry(g, disk, f, garbage), data);
  }

  /** A write that crosses a cluster boundary leaves the byte beyond it as it was on the disk. */
  lemma CrossingByteStays(g: Info, disk: Disk, f: File, data: seq<Byte>, garbage: seq<Byte>, cs: seq<seq<nat>>, a: nat)
    requires Writable(g, disk, f) && |garbage| == ClusterBytes(g) && f.first != 0 && DirElsewhere(f, cs, a)
    requires g.fat + g.fatSectors <= |disk| && Chains.Files(Table(g, disk), cs) && Chains.Reserved(Table(g, disk))
    requires a < |cs| && cs[a] != [] && cs[a][0] == f.first
    requires Offset(g, f) + |data| > ClusterBytes(g) && Stores(g, f, cs[a], data, WriteFile(g, disk, f, data, garbage))
    ensures var d := SecondCluster(g, disk, f, cs[a]);
      Real(g, d) && data[ClusterBytes(g) - Offset(g, f)] == Content(g, disk, d)[0]
  {
    hide Table, Content, FileBytes, WriteFile, ClusterBytes, Extended, Chains.Chain;
    var r := WriteFile(g, disk, f, data, garbage);
    var chain, k, d := cs[a] + r.added, Skip(g, f), SecondCluster(g, disk, f, cs[a]);
    StartInChain(g, disk, f, cs, a);
    SecondComes(g, disk, f, data, garbage, cs, a);
    WriteExtendsChain(g, disk, f, data, garbage, cs, a);
    ExtendedMeans(g, disk, cs, a, Written(r.disk, |data|, r.added, r.outcome == NoSpace));
    SecondApart(Table(g, r.disk), cs, a, r.added, k, f);
    WriteLeavesOthers(g, disk, f, data, garbage, d);
    FileSlice(g, r.disk, chain, k + 1, 0, 1);
    var b, at := ClusterBytes(g), ClusterBytes(g) - Offset(g, f);
    OneMore(b, k);
    assert FileBytes(g, r.disk, chain)[b * (k + 1)] == Content(g, r.disk, d)[0];
    assert data[at] == FileBytes(g, r.disk, chain)[f.position + at];
  }

  lemma SecondApart(t: seq<nat>, cs: seq<seq<nat>>, a: nat, added: seq<nat>, k: nat, f: File)
    requires a < |cs| && Chains.Files(t, cs[a := cs[a] + added]) && k + 1 < |cs[a] + added| && DirElsewhere(f, cs, a)
    requires 2 <= (cs[a] + added)[k + 1]
    ensures (cs[a] + added)[k + 1] != (cs[a] + added)[k] && (cs[a] + added)[k + 1] != f.dir
  {
    var ds := cs[a := cs[a] + added];
    assert ds[a][k + 1] != ds[a][k];
    if f.dir != 0 {
      var b, j :| 0 <= b < |cs| && b != a && 0 <= j < |cs[b]| && cs[b][j] == f.dir;
      assert ds[b][j] != ds[a][k + 1];
    }
  }

  /** n bytes that are v at one place. */
  function Marked(n: nat, at: nat, v: Byte): (r: seq<Byte>)
    ensures |r| == n && (at < n ==> r[at] == v)
  {
    seq(n, i => if i == at then v else 0)
  }

  /** Of two runs that differ in the first byte beyond the cluster, one is not stored. */
  lemma CrossingLoses(g: Info, disk: Disk, f: File, n: nat, garbage: seq<Byte>, cs: seq<seq<nat>>, a: nat)
    requires Writable(g, disk, f) && |garbage| == ClusterBytes(g) && f.first != 0 && DirElsewhere(f, cs, a)
    requires g.fat + g.fatSectors <= |disk| && Chains.Files(Table(g, disk), cs) && Chains.Reserved(Table(g, disk))
    requires a < |cs| && cs[a] != [] && cs[a][0] == f.first && Offset(g, f) + n > ClusterBytes(g)
    ensures var at := ClusterBytes(g) - Offset(g, f);
      exists v :: v in {0, 1} && !Stores(g, f, cs[a], Marked(n, at, v),
           WriteFile(g, disk, f, Marked(n, at, v), garbage))
  {
    hide Table, Content, FileBytes, WriteFile, ClusterBytes, Chains.Chain, Stores;
    var at := ClusterBytes(g) - Offset(g, f);
    var d := SecondCluster(g, disk, f, cs[a]);
    var v: Byte := if Real(g, d) && Content(g, disk, d)[0] == 0 then 1 else 0;
    if Stores(g, f, cs[a], Marked(n, at, v), WriteFile(g, disk, f, Marked(n, at, v), garbage)) {
      CrossingByteStays(g, disk, f, Marked(n, at, v), garbage, cs, a);
    }
  }

  /**
   FAT32_write stores every run of n bytes it may be given if and only if the run fits the cluster
   the write starts in.
   */
  lemma StoresIffOneCluster(g: Info, disk: Disk, f: File, n: nat, garbage: seq<Byte>, cs: seq<seq<nat>>, a: nat)
    requires Writable(g, disk, f) && |garbage| == ClusterBytes(g) && f.first != 0 && DirElsewhere(f, cs, a)
    requires g.fat + g.fatSectors <= |disk| && Chains.Files(Table(g, disk), cs) && Chains.Reserved(Table(g, disk))
    requires a < |cs| && cs[a] != [] && cs[a][0] == f.first
    ensures (forall data: seq<Byte> :: |data| == n ==> Stores(g, f, cs[a], data, WriteFile(g, disk, f, data, garbage)))
            <==> Offset(g, f) + n <= ClusterBytes(g)
  {
    hide Table, Content, FileBytes, WriteFile, ClusterBytes, Chains.Chain;
    if Offset(g, f) + n <= ClusterBytes(g) {
      forall data: seq<Byte> | |data| == n ensures Stores(g, f, cs[a], data, WriteFile(g, disk, f, data, garbage)) {
        WriteInPlace(g, disk, f, data, garbage, cs, a);
        assert cs[a] + [] == cs[a];
      }
    } else {
      CrossingLoses(g, disk, f, n, garbage, cs, a);
    }
  }
}
