// The file system as it runs: a volume that is read and written by sectors, and the loops over it.
module FatFiles {
  import opened Common
  import opened Sectors
  import opened Volumes
  import opened Fat
  import opened FatWrite
  import Chains

  const EFAULT := 14
  const ENOSPC := 28

  const INT_LIMIT := 0x8000_0000

  /** The value an `unsigned long` has once it is stored in an `int`. */
  function AsInt(n: nat): int {
    if n % LIMIT32 < INT_LIMIT then n % LIMIT32 else n % LIMIT32 - LIMIT32
  }

  /** The length of the first piece, as the loops compute it from the `int index` and the room in the cluster. */
  function FirstLength(n: nat, room: nat): int {
    if AsInt(n) <= room then AsInt(n) else room
  }

  /**
   The `int index` of the loops of FAT32_read and FAT32_write is the count of n bytes if and only if n is below 2^31.
   Otherwise the first length is negative, or what is moved falls short of n by a multiple of 2^32.
   */
  lemma CountFitsIff(n: nat, room: nat)
    ensures AsInt(n) == n <==> n < INT_LIMIT
    ensures FirstLength(n, room) < 0 <==> n % LIMIT32 >= INT_LIMIT
    ensures n >= INT_LIMIT ==> FirstLength(n, room) < 0 || (n - AsInt(n)) % LIMIT32 == 0 < n - AsInt(n)
  {
    if n >= INT_LIMIT && n % LIMIT32 < INT_LIMIT {
      assert n == LIMIT32 * (n / LIMIT32) + n % LIMIT32;
      assert (n - AsInt(n)) == LIMIT32 * (n / LIMIT32);
    }
  }

  class OpenFile {
    var first: nat
    var size: nat
    var position: nat
    const dir: nat
    const slot: nat

    ghost function Now(): File
      reads this
    {
      File(first, size, position, dir, slot)
    }

    constructor (first: nat, size: nat, dir: nat, slot: nat)
      ensures Now() == File(first, size, 0, dir, slot)
    {
      this.first, this.size, this.position, this.dir, this.slot := first, size, 0, dir, slot;
    }
  }

  class Volume {
    const g: Info
    var disk: Disk

    constructor (g: Info, disk: Disk)
      ensures this.g == g && this.disk == disk
    {
      this.g, this.disk := g, disk;
    }

    /** The two transfers of the driver. */
    method ReadSectors(lba: nat, n: nat) returns (b: seq<Byte>)
      requires lba + n <= |disk|
      ensures b == Load(disk, lba, n)
    {
      b := Load(disk, lba, n);
    }

    method WriteSectors(lba: nat, b: seq<Byte>)
      requires |b| % SECTOR == 0 && lba + |b| / SECTOR <= |disk|
      modifies this
      ensures disk == Store(old(disk), lba, b)
    {
      disk := Store(disk, lba, b);
    }

    method ReadFatEntry(e: nat) returns (v: nat)
      requires Mounted(g, disk) && e < PER_SECTOR * g.fatSectors
      ensures g.fat + g.fatSectors <= |disk| && v == Chains.Link(Table(g, disk)[e])
    {
      TableFits(g, disk);
      var b := ReadSectors(g.fat + e / PER_SECTOR, 1);
      OneSector(disk, g.fat + e / PER_SECTOR, Zeros());
      v := Chains.Link(Word(b, 4 * (e % PER_SECTOR)));
    }

    method WriteFatEntry(e: nat, v: nat)
      requires Mounted(g, disk) && e < PER_SECTOR * g.fatSectors
      modifies this
      ensures disk == SetEntry(g, old(disk), e, v)
    {
      hide Merged, Load, Store;
      var q := e / PER_SECTOR;
      AtBounds(g, disk, 0, q);
      var b := ReadSectors(g.fat + q, 1);
      OneSector(disk, g.fat + q, Zeros());
      var s := Merged(b, e % PER_SECTOR, v);
      var i := 0;
      while i < g.copies
        invariant i <= g.copies && disk == Mirror(g, old(disk), q, s, i)
      {
        AtBounds(g, old(disk), i, q);
        OneSector(disk, g.fat + g.fatSectors * i + q, s);
        WriteSectors(g.fat + g.fatSectors * i + q, s);
        i := i + 1;
      }
    }

    method FindAvailableCluster() returns (r: nat)
      requires Mounted(g, disk)
      ensures g.fat + g.fatSectors <= |disk| && r == Chains.FirstFree(Table(g, disk), 0)
    {
      hide Table, Mounted;
      TableFits(g, disk);
      var i := 0;
      while i < g.fatSectors
        invariant i <= g.fatSectors
        invariant Chains.FirstFree(Table(g, disk), 0) == Chains.FirstFree(Table(g, disk), PER_SECTOR * i)
      {
        var b := ReadSectors(g.fat + i, 1);
        OneSector(disk, g.fat + i, Zeros());
        var j := 0;
        while j < PER_SECTOR
          invariant j <= PER_SECTOR
          invariant Chains.FirstFree(Table(g, disk), 0) == Chains.FirstFree(Table(g, disk), PER_SECTOR * i + j)
        {
          TableAt(g, disk, i, j);
          if Chains.Link(Word(b, 4 * j)) == 0 { return PER_SECTOR * i + j; }
          j := j + 1;
        }
        i := i + 1;
      }
      r := 0;
    }

    /** The walk from the first cluster of a file to the one its position is in. */
    method Follow(first: nat, steps: nat, ghost chain: seq<nat>) returns (cluster: nat)
      requires Mounted(g, disk) && g.fat + g.fatSectors <= |disk|
      requires Chains.Chain(Table(g, disk), chain) && chain[0] == first && steps <= |chain|
      ensures cluster >= 2 && if steps < |chain| then cluster == chain[steps] else cluster >= Chains.END
    {
      cluster := first;
      var i := 0;
      while i < steps
        invariant i <= steps && if i < |chain| then cluster == chain[i] else cluster >= Chains.END
      {
        cluster := ReadFatEntry(cluster);
        i := i + 1;
      }
    }

    /** fat32_write_inode. */
    method UpdateInode(f: OpenFile)
      requires Mounted(g, disk) && InodeFits(g, f.Now())
      modifies this
      ensures disk == WriteInode(g, old(disk), f.Now())
    {
      if f.dir == 0 { return; }
      BaseBounds(g, disk, f.dir);
      var b := ReadSectors(Base(g, f.dir), g.perCluster);
      b := PutInode(b, SLOT * f.slot, f.first, f.size);
      WriteSectors(Base(g, f.dir), b);
    }

    /** The transfer of a cluster that may lie beyond the medium: the cleared buffer is then left as it is. */
    method ReadCluster(cluster: nat) returns (b: seq<Byte>)
      requires cluster >= 2
      ensures |b| == ClusterBytes(g)
    {
      if Base(g, cluster) + g.perCluster <= |disk| {
        b := ReadSectors(Base(g, cluster), g.perCluster);
      } else {
        b := seq(ClusterBytes(g), i => 0);
      }
    }

    /** The same for a store: the device takes nothing. */
    method WriteCluster(cluster: nat, b: seq<Byte>)
      requires cluster >= 2 && |b| == ClusterBytes(g)
      modifies this
      ensures Base(g, cluster) + g.perCluster <= |old(disk)| ==> disk == Store(old(disk), Base(g, cluster), b)
      ensures Base(g, cluster) + g.perCluster > |old(disk)| ==> disk == old(disk)
    {
      if Base(g, cluster) + g.perCluster <= |disk| {
        WriteSectors(Base(g, cluster), b);
      }
    }

    /** The one round of the loop if nothing is left to read; at the end of the chain it meets the end mark. */
    method ReadNone(first: nat, steps: nat, offset: nat, buf: array<Byte>, ghost chain: seq<nat>)
      requires Mounted(g, disk) && g.fat + g.fatSectors <= |disk| && Chains.Chain(Table(g, disk), chain)
      requires first == chain[0]
      requires steps <= |chain| && offset < ClusterBytes(g)
      modifies buf
      ensures buf[..] == old(buf[..])
    {
      hide Table, Mounted, ClusterBytes, Chains.Chain;
      var cluster := Follow(first, steps, chain);
      var buffer := ReadCluster(cluster);
      CopyOut(buffer, offset, buf, 0, 0);
    }

    /** The first round of the loop up to a copy of a negative length. */
    method ReadAstray(first: nat, steps: nat, ghost chain: seq<nat>)
      requires Mounted(g, disk) && g.fat + g.fatSectors <= |disk| && Chains.Chain(Table(g, disk), chain)
      requires first == chain[0] && steps <= |chain|
    {
      hide Table, Mounted, Chains.Chain;
      var cluster := Follow(first, steps, chain);
      var buffer := ReadCluster(cluster);
    }

    /**
     FAT32_read. Of the bytes the file has from its position on, as many as were asked for, it delivers those that
     the `int index` counts, and returns the whole number. `stray` is a copy of a negative length, with nothing
     changed before it.
     */
    method Read(f: OpenFile, buf: array<Byte>, count: nat, ghost chain: seq<nat>) returns (r: int, stray: bool)
      requires count <= buf.Length && f.position <= f.size && Mounted(g, disk)
      requires f.first != 0 ==> Backed(g, disk, f.Now(), chain)
      modifies buf, f`position
      ensures f.first == 0 || stray ==> f.position == old(f.position) && buf[..] == old(buf[..])
      ensures f.first == 0 ==> r == -14 && !stray
      ensures f.first != 0 ==>
        var n := if count < f.size - old(f.position) then count else f.size - old(f.position);
        && (stray <==> AsInt(n) < 0)
        && (!stray ==>
              && r == n && f.position == old(f.position) + AsInt(n)
              && Delivered(buf[..], old(buf[..]), FileBytes(g, disk, chain), old(f.position), AsInt(n))
              && FromSectors(g, disk, chain, buf[..], old(f.position), AsInt(n)))
    {
      if f.first == 0 { return -EFAULT, false; }
      hide Table, Content, FileBytes, Mounted, Delivered, FromSectors, Covered, Steps, Within;
      r := if f.position + count > f.size then f.size - f.position else count;
      stray := false;
      var index := AsInt(r);
      CountFitsIff(r, 0);
      assert index <= r;
      BackedSteps(g, disk, f.Now(), chain);
      if index == 0 {
        NothingDelivered(buf[..], FileBytes(g, disk, chain), f.position);
        ReadNone(f.first, Steps(ClusterBytes(g), f.position), Within(ClusterBytes(g), f.position), buf, chain);
        DeliveredFromSectors(g, disk, f.Now(), chain, buf[..], old(buf[..]), 0);
        return;
      }
      if index < 0 {
        ReadAstray(f.first, Steps(ClusterBytes(g), f.position), chain);
        return 0, true;
      }
      BackedCovers(g, disk, f.Now(), chain);
      ReadOn(f, buf, index, chain);
      DeliveredFromSectors(g, disk, old(f.Now()), chain, buf[..], old(buf[..]), index);
    }

    /** The loop of FAT32_read, for as many bytes as the file still has. */
    method ReadOn(f: OpenFile, buf: array<Byte>, total: nat, ghost chain: seq<nat>)
      requires total <= buf.Length && f.position + total <= f.size
      requires Covered(g, disk, f.Now(), chain) && f.size <= ClusterBytes(g) * |chain|
      modifies buf, f`position
      ensures f.position == old(f.position) + total
      ensures Delivered(buf[..], old(buf[..]), FileBytes(g, disk, chain), old(f.position), total)
    {
      assert ClusterBytes(g) > 0;
      hide Table, Content, FileBytes, ClusterBytes, Mounted, Delivered, Chains.Chain, Placed;
      var cluster := Follow(f.first, f.position / ClusterBytes(g), chain);
      NothingDelivered(buf[..], FileBytes(g, disk, chain), f.position);
      PlacedAt(ClusterBytes(g), f.position);
      ReadLoop(f, buf, total, cluster, f.position % ClusterBytes(g), chain, Skip(g, f.Now()));
    }

    /** The loop itself, in cluster number `start` of the chain. */
    method ReadLoop(f: OpenFile, buf: array<Byte>, total: nat, first: nat, within: nat, ghost chain: seq<nat>,
        ghost start: nat)
      requires total <= buf.Length && f.position + total <= f.size && Backed(g, disk, f.Now(), chain)
      requires start < |chain| && first == chain[start]
      requires within < ClusterBytes(g) && Placed(ClusterBytes(g), f.position, start, within)
      modifies buf, f`position
      ensures f.position == old(f.position) + total
      ensures Delivered(buf[..], old(buf[..]), FileBytes(g, disk, chain), old(f.position), total)
    {
      hide Table, Content, FileBytes, ClusterBytes, Mounted, Delivered, Chains.Chain, Placed;
      var cluster, offset, index := first, within, total;
      ghost var k, bytes := start, FileBytes(g, disk, chain);
      NothingDelivered(buf[..], bytes, f.position);
      while true
        invariant 0 <= index <= total && 0 <= offset < ClusterBytes(g) && k < |chain| && cluster == chain[k]
        invariant f.position == old(f.position) + (total - index) && Placed(ClusterBytes(g), f.position, k, offset)
        invariant f.position + index <= f.size <= |bytes|
        invariant Delivered(buf[..], old(buf[..]), bytes, old(f.position), total - index)
        decreases |chain| - k
      {
        var length := if index <= ClusterBytes(g) - offset then index else ClusterBytes(g) - offset;
        ReadPiece(cluster, offset, length, buf, total - index, chain, k, old(buf[..]), old(f.position));
        index := index - length;
        f.position := f.position + length;
        if index == 0 { break; }
        Further(ClusterBytes(g), k, |chain|, f.position - length, offset, f.size);
        offset := 0;
        ChainSteps(g, disk, chain, k);
        cluster := ReadFatEntry(cluster);
        k := k + 1;
      }
    }

    /** The cluster a write starts in; an empty file is given one first. */
    method Begin(f: OpenFile) returns (cluster: nat, flags: bool)
      requires Writable(g, disk, f.Now()) || Appending(g, disk, f.Now())
      modifies this, f`first
      ensures flags == (old(f.first) == 0) && Mounted(g, disk)
      ensures old(Writable(g, disk, f.Now())) ==> cluster == StartCluster(g, old(disk), old(f.Now()))
      ensures old(Appending(g, disk, f.Now())) ==> cluster >= Chains.END
      ensures cluster == 0 || !flags ==> disk == old(disk) && f.Now() == old(f.Now())
      ensures cluster != 0 && flags ==>
                && old(Writable(g, disk, f.Now())) && f.Now() == old(f.Now()).(first := cluster)
                && disk == Begun(g, old(disk), old(f.Now()), cluster)
    {
      hide Table, Content, SetEntry, WriteInode, ClusterBytes, Chains.FirstFree, Chains.Chain;
      flags := f.first == 0;
      if !flags {
        ghost var chain := StartChain(g, disk, f.Now());
        cluster := Follow(f.first, f.position / (SECTOR * g.perCluster), chain);
        return;
      }
      cluster := FindAvailableCluster();
      if cluster == 0 { return; }
      assert cluster == StartCluster(g, disk, f.Now());
      f.first := cluster;
      UpdateInode(f);
      WriteFatEntry(cluster, Chains.END);
    }

    /**
     FAT32_write, with its loop as it stands: `sector` is not computed again once a cluster has been
     allocated. `garbage` is what the buffer holds that kmalloc returns. From a position behind the last
     cluster it is asked for what fits one cluster. It writes the bytes that the `int index` counts, and returns
     the whole count; `stray` is a copy of a negative length, once the file has a cluster.
     */
    method Write(f: OpenFile, buf: array<Byte>, count: nat, garbage: seq<Byte>) returns (r: int, stray: bool)
      requires count <= buf.Length && |garbage| == ClusterBytes(g)
      requires Writable(g, disk, f.Now())
               || (Appending(g, disk, f.Now()) && Offset(g, f.Now()) + AsInt(count) <= ClusterBytes(g))
      modifies this, f`first, f`position, f`size
      ensures (stray <==> AsInt(count) < 0 && r != -28) && (AsInt(count) >= 0 ==> r == count || r == -28)
      ensures old(Writable(g, disk, f.Now())) ==>
                if AsInt(count) < 0 then Started(g, old(disk), old(f.Now()), disk, f.Now(), stray)
                else Wrote(WriteFile(g, old(disk), old(f.Now()), buf[..AsInt(count)], garbage), disk, f.Now(),
                           if r == count then AsInt(count) else r)
      ensures old(Appending(g, disk, f.Now())) ==>
                if AsInt(count) < 0 then stray && disk == old(disk) && f.Now() == old(f.Now())
                else Wrote(AppendFile(g, old(disk), old(f.Now()), AsInt(count)), disk, f.Now(),
                           if r == count then AsInt(count) else r)
    {
      hide Table, Content, StartCluster, Begun, Writable, Mounted, ClusterBytes, WriteFile, AppendFile, Wrote;
      CountFitsIff(count, 0);
      var index := AsInt(count);
      assert index <= count;
      if index >= 0 {
        r := WriteCounted(f, buf, index, garbage);
        if r == index { r := count; }
        return r, false;
      }
      var cluster, flags := Begin(f);
      if cluster == 0 { return -ENOSPC, false; }
      return 0, true;
    }

    /** The same for the bytes that index counts. */
    method WriteCounted(f: OpenFile, buf: array<Byte>, index: nat, garbage: seq<Byte>) returns (r: int)
      requires index <= buf.Length && |garbage| == ClusterBytes(g)
      requires Writable(g, disk, f.Now())
               || (Appending(g, disk, f.Now()) && Offset(g, f.Now()) + index <= ClusterBytes(g))
      modifies this, f`first, f`position, f`size
      ensures r == index || r == -ENOSPC
      ensures old(Writable(g, disk, f.Now())) ==>
                Wrote(WriteFile(g, old(disk), old(f.Now()), buf[..index], garbage), disk, f.Now(), r)
      ensures old(Appending(g, disk, f.Now())) ==>
                Wrote(AppendFile(g, old(disk), old(f.Now()), index), disk, f.Now(), r)
    {
      ghost var before, file, writable := disk, f.Now(), Writable(g, disk, f.Now());
      assert Mounted(g, disk) && InodeFits(g, file) && ClusterBytes(g) > 0;
      if writable { WriteFileSteps(g, disk, file, buf[..index], garbage); }
      assert writable ==> StartCluster(g, disk, file) < Chains.END;
      hide Table, Content, WriteRun, Begun, StartCluster, Writable, Appending, WriteInode, Mounted, ClusterBytes,
           WriteFile, Finish, Wrote;
      var cluster, flags := Begin(f);
      if cluster == 0 { return -ENOSPC; }
      if cluster >= Chains.END {
        r := WriteBehind(f, buf, index, cluster, f.position % ClusterBytes(g));
        return;
      }
      assert Entry(g, before, file, garbage) == Cursor(disk, cluster, 0, flags, garbage, Offset(g, f.Now()));
      hide Entry, InodeFits;
      r := WriteFrom(f, buf, index, cluster, flags, garbage);
    }

    /** The one round of the loop when the walk has met the end mark, and what follows it. */
    method WriteBehind(f: OpenFile, buf: array<Byte>, count: nat, cluster: nat, offset: nat) returns (r: int)
      requires count <= buf.Length && Mounted(g, disk) && InodeFits(g, f.Now()) && |disk| <= Base(g, Chains.END)
      requires Chains.END <= cluster
      requires offset + count <= ClusterBytes(g)
      modifies this, f`position, f`size
      ensures r == count && Wrote(AppendFile(g, old(disk), old(f.Now()), count), disk, f.Now(), r)
    {
      hide Base, Mounted, WriteInode, Wrote, Finish;
      var buffer := ReadCluster(cluster);
      buffer := buffer[..offset] + buf[..count] + buffer[offset + count..];
      NoSuchSector(g, disk, cluster);
      WriteCluster(cluster, buffer);
      f.position := f.position + count;
      FinishSteps(g, old(f.Now()), Written(disk, count, [], false));
      Grow(f);
      r := count;
    }

    /** The loop and what follows it. */
    method WriteFrom(f: OpenFile, buf: array<Byte>, count: nat, cluster: nat, flags: bool, garbage: seq<Byte>)
      returns (r: int)
      requires count <= buf.Length && g.perCluster > 0 && InodeFits(g, f.Now())
      requires Steady(g, Cursor(disk, cluster, 0, flags, garbage, Offset(g, f.Now())))
      modifies this, f`position, f`size
      ensures r == count || r == -ENOSPC
      ensures var w := Cursor(old(disk), cluster, 0, flags, garbage, Offset(g, old(f.Now())));
        var run := WriteRun(g, w, buf[..count]);
        Mounted(g, run.disk) && Wrote(Finish(g, old(f.Now()), run), disk, f.Now(), r)
    {
      hide WriteInode, WriteRun, Table, Content, Wrote, Finish, Place;
      ghost var run := WriteRun(g, Cursor(disk, cluster, 0, flags, garbage, Offset(g, f.Now())), buf[..count]);
      var full := WriteLoop(f, buf, count, cluster, flags, garbage, f.position % ClusterBytes(g));
      assert Mounted(g, run.disk);
      FinishSteps(g, old(f.Now()), run);
      if full { return -ENOSPC; }
      Grow(f);
      r := count;
    }

    /** The end of a write that found its space. */
    method Grow(f: OpenFile)
      requires Mounted(g, disk) && InodeFits(g, f.Now())
      modifies this, f`size
      ensures f.Now() == if f.position > old(f.size) then Grown(old(f.Now())) else old(f.Now())
      ensures disk == if f.position > old(f.size) then WriteInode(g, old(disk), f.Now()) else old(disk)
    {
      if f.position > f.size {
        f.size := f.position;
        UpdateInode(f);
      }
    }

    /** The loop. */
    method WriteLoop(f: OpenFile, buf: array<Byte>, count: nat, start: nat, begun: bool, garbage: seq<Byte>, at: nat)
      returns (full: bool)
      requires count <= buf.Length && Steady(g, Cursor(disk, start, 0, begun, garbage, at))
      modifies this, f`position
      ensures var r := WriteRun(g, Cursor(old(disk), start, 0, begun, garbage, at), buf[..count]);
        && disk == r.disk && f.position == old(f.position) + r.count && full == r.full && (!full ==> r.count == count)
    {
      hide Stored, Linked, Table, Mounted, ClusterBytes, Place, Steady, Piece, WriteRun, SameEnd, Room,
           Chains.FirstFree, Chains.Link;
      var cluster: nat, sector: nat, flags, buffer, offset: nat, index: nat := start, 0, begun, garbage, at, count;
      ghost var data, run := buf[..count], WriteRun(g, Cursor(disk, start, 0, begun, garbage, at), buf[..count]);
      SameItself(run);
      assert data[0..] == data;
      while true
        invariant index <= count && Steady(g, Cursor(disk, cluster, sector, flags, buffer, offset))
        invariant SameEnd(run, WriteRun(g, Cursor(disk, cluster, sector, flags, buffer, offset),
                    data[count - index..]), count - index)
        invariant f.position == old(f.position) + count - index
        decreases index
      {
        ghost var w, rest := Cursor(disk, cluster, sector, flags, buffer, offset), data[count - index..];
        StepOn(g, w, rest, run, count - index);
        PieceIs(g, w, rest);
        var length := if index <= ClusterBytes(g) - offset then index else ClusterBytes(g) - offset;
        Sliced(buf[..], count, count - index, length);
        sector, buffer := StorePiece(cluster, sector, flags, buffer, offset,
             buf[count - index..count - index + length], rest);
        index := index - length;
        offset := 0;
        f.position := f.position + length;
        ghost var s := Cursor(disk, cluster, sector, flags, buffer, offset);
        if index == 0 { return false; }
        assert rest[length..] == data[count - index..];
        var next := ReadFatEntry(cluster);
        if next >= Chains.END {
          next := Extend(cluster, s);
          if next == 0 { return true; }
          cluster, flags := next, true;
        }
      }
    }

    /** A free cluster is linked to the last one of a chain, if there is one. */
    method Extend(cluster: nat, ghost s: Cursor) returns (next: nat)
      requires Steady(g, s) && s.disk == disk && s.cluster == cluster && s.sector + g.perCluster <= |disk|
      modifies this
      ensures g.fat + g.fatSectors <= |old(disk)| && next == Chains.FirstFree(Table(g, old(disk)), 0)
      ensures next < PER_SECTOR * g.fatSectors
      ensures disk == if next == 0 then old(disk) else Linked(g, s, next).disk
    {
      hide Table, SetEntry;
      next := FindAvailableCluster();
      Chains.FirstFreeMeans(Table(g, disk), 0);
      if next == 0 { return; }
      SetEntrySets(g, disk, cluster, next);
      WriteFatEntry(cluster, next);
      WriteFatEntry(next, Chains.END);
    }

    /** One round of the loop up to the store: the cluster is read unless flags is set. */
    method StorePiece(cluster: nat, sector: nat, flags: bool, buffer: seq<Byte>, offset: nat, piece: seq<Byte>,
        ghost rest: seq<Byte>)
      returns (place: nat, filled: seq<Byte>)
      requires Steady(g, Cursor(disk, cluster, sector, flags, buffer, offset))
      requires piece == Piece(g, Cursor(disk, cluster, sector, flags, buffer, offset), rest)
      modifies this
      ensures Cursor(disk, cluster, place, flags, filled, 0) ==
              Stored(g, Cursor(old(disk), cluster, sector, flags, buffer, offset), rest)
    {
      hide Mounted, Overlay;
      ghost var w := Cursor(disk, cluster, sector, flags, buffer, offset);
      PlaceFits(g, w);
      place, filled := sector, buffer;
      if !flags {
        place := Base(g, cluster);
        filled := ReadSectors(place, g.perCluster);
      }
      filled := Overlay(filled, offset, piece);
      WriteSectors(place, filled);
    }

    /** One cluster is read, and a piece of it delivered. */
    method ReadPiece(cluster: nat, offset: nat, length: nat, buf: array<Byte>, at: nat, ghost chain: seq<nat>,
        ghost k: nat,
                     ghost before: seq<Byte>, ghost from: nat)
      requires Mounted(g, disk) && (forall j :: 0 <= j < |chain| ==> Real(g, chain[j])) && k < |chain|
                && cluster == chain[k]
      requires offset + length <= ClusterBytes(g) && at + length <= buf.Length
      requires Placed(ClusterBytes(g), from + at, k, offset)
      requires Delivered(buf[..], before, FileBytes(g, disk, chain), from, at)
      modifies buf
      ensures Delivered(buf[..], before, FileBytes(g, disk, chain), from, at + length)
    {
      hide FileBytes, Mounted, ClusterBytes;
      BaseBounds(g, disk, cluster);
      var buffer := ReadSectors(Base(g, cluster), g.perCluster);
      FileSlice(g, disk, chain, k, offset, length);
      CopyOut(buffer, offset, buf, at, length);
      JoinSlices(buf[..], FileBytes(g, disk, chain), at, length, from);
    }
  }

  /** The chain of a file has room for its size. */
  ghost predicate Backed(g: Info, disk: Disk, f: File, chain: seq<nat>) {
    && Mounted(g, disk) && g.fat + g.fatSectors <= |disk|
    && Chains.Chain(Table(g, disk), chain) && f.first == chain[0] && f.size <= ClusterBytes(g) * |chain|
    && forall k :: 0 <= k < |chain| ==> Real(g, chain[k])
  }

  /** The links to follow to a position, and the place in the cluster they lead to. */
  function Steps(b: nat, position: nat): nat { if b > 0 then position / b else 0 }
  function Within(b: nat, position: nat): nat { if b > 0 then position % b else 0 }

  lemma BackedSteps(g: Info, disk: Disk, f: File, chain: seq<nat>)
    requires Backed(g, disk, f, chain) && f.position <= f.size
    ensures Steps(ClusterBytes(g), f.position) <= |chain| && Within(ClusterBytes(g), f.position) < ClusterBytes(g)
  {
    StepsFit(ClusterBytes(g), f.position, |chain|);
  }

  lemma BackedCovers(g: Info, disk: Disk, f: File, chain: seq<nat>)
    requires Backed(g, disk, f, chain) && f.position < f.size
    ensures Covered(g, disk, f, chain)
  {
    StepsFit(ClusterBytes(g), f.position, |chain|);
  }

  lemma StepsFit(b: nat, position: nat, n: nat)
    requires b > 0 && position <= b * n
    ensures position / b <= n && position == b * (position / b) + position % b
  {
    if position / b > n { Scales(b, n + 1, position / b); }
  }

  lemma ChainSteps(g: Info, disk: Disk, chain: seq<nat>, k: nat)
    requires g.fat + g.fatSectors <= |disk| && Chains.Chain(Table(g, disk), chain) && k + 1 < |chain|
    ensures chain[k] < |Table(g, disk)| && Chains.Link(Table(g, disk)[chain[k]]) == chain[k + 1]
  {}

  /** The first `done` bytes of the buffer are those of the file from `from` on; the rest is as it was. */
  ghost predicate Delivered(buf: seq<Byte>, before: seq<Byte>, bytes: seq<Byte>, from: nat, done: nat) {
    && |buf| == |before| && done <= |buf| && from + done <= |bytes|
    && buf[..done] == bytes[from..from + done] && buf[done..] == before[done..]
  }

  /** Every byte of the file between `from` and `from` + n is in the buffer, out of its sector on the medium. */
  ghost predicate FromSectors(g: Info, disk: Disk, chain: seq<nat>, buf: seq<Byte>, from: nat, n: nat) {
    && n <= |buf| && (forall k :: 0 <= k < |chain| ==> chain[k] >= 2)
    && forall k: nat, o: nat ::
         k < |chain| && o < ClusterBytes(g) && from <= ClusterBytes(g) * k + o < from + n ==>
           && SectorAt(g, chain[k], o) < |disk|
           && buf[ClusterBytes(g) * k + o - from] == disk[SectorAt(g, chain[k], o)][o % SECTOR]
  }

  lemma DeliveredFromSectors(g: Info, disk: Disk, f: File, chain: seq<nat>, buf: seq<Byte>, before: seq<Byte>, n: nat)
    requires Backed(g, disk, f, chain) && Delivered(buf, before, FileBytes(g, disk, chain), f.position, n)
    ensures FromSectors(g, disk, chain, buf, f.position, n)
  {
    var bytes, from := FileBytes(g, disk, chain), f.position;
    hide FileBytes, ClusterBytes, Mounted, Table, SectorAt;
    forall k: nat, o: nat | k < |chain| && o < ClusterBytes(g) && from <= ClusterBytes(g) * k + o < from + n
      ensures SectorAt(g, chain[k], o) < |disk|
      ensures buf[ClusterBytes(g) * k + o - from] == disk[SectorAt(g, chain[k], o)][o % SECTOR]
    {
      FileByte(g, disk, chain, k, o);
      var j := ClusterBytes(g) * k + o - from;
      assert buf[j] == buf[..n][j] == bytes[from..from + n][j] == bytes[from + j];
    }
  }

  lemma NothingDelivered(before: seq<Byte>, bytes: seq<Byte>, from: nat)
    requires from <= |bytes|
    ensures Delivered(before, before, bytes, from, 0)
  {}

  /** A write that goes no further than to see to a first cluster; it fails if there is none. */
  ghost predicate Started(g: Info, disk: Disk, f: File, after: Disk, now: File, some: bool)
    requires Writable(g, disk, f)
  {
    var c := StartCluster(g, disk, f);
    && (some <==> c != 0)
    && (c != 0 && f.first == 0 ==> now == f.(first := c) && after == Begun(g, disk, f, c))
    && (c == 0 || f.first != 0 ==> now == f && after == disk)
  }

  /** The state and the return value that an effect of FAT32_write stands for. */
  ghost predicate Wrote(a: After, disk: Disk, f: File, r: int) {
    disk == a.disk && f == a.file && r == if a.outcome.Count? then a.outcome.n else -ENOSPC
  }

  lemma WriteFileSteps(g: Info, disk: Disk, f: File, data: seq<Byte>, garbage: seq<Byte>)
    requires Writable(g, disk, f) && |garbage| == ClusterBytes(g)
    ensures var c, a := StartCluster(g, disk, f), WriteFile(g, disk, f, data, garbage);
      && (c == 0 ==> Wrote(a, disk, f, -ENOSPC))
      && (c != 0 ==>
            a == Finish(g, if f.first == 0 then f.(first := c) else f, WriteRun(g, Entry(g, disk, f, garbage), data)))
  {}

  lemma FinishSteps(g: Info, f: File, r: Written)
    requires Mounted(g, r.disk) && InodeFits(g, f)
    ensures r.full ==> Wrote(Finish(g, f, r), r.disk, Moved(f, r.count), -ENOSPC)
    ensures !r.full && f.position + r.count <= f.size ==> Wrote(Finish(g, f, r), r.disk, Moved(f, r.count), r.count)
    ensures InodeFits(g, Grown(Moved(f, r.count)))
    ensures !r.full && f.position + r.count > f.size ==>
              Wrote(Finish(g, f, r), WriteInode(g, r.disk, Grown(Moved(f, r.count))), Grown(Moved(f, r.count)), r.count)
  {
    hide WriteInode, Mounted;
  }

  /** The loop ends alike from the start and from where it is, `done` bytes on. */
  ghost predicate SameEnd(run: Written, rest: Written, done: nat) {
    run.disk == rest.disk && run.full == rest.full && run.count == done + rest.count
  }

  lemma PieceIs(g: Info, w: Cursor, rest: seq<Byte>)
    requires Steady(g, w)
    ensures w.offset < ClusterBytes(g)
    ensures var n := if |rest| <= ClusterBytes(g) - w.offset then |rest| else ClusterBytes(g) - w.offset;
      Piece(g, w, rest) == rest[..n]
  {}

  lemma SameItself(run: Written)
    ensures SameEnd(run, run, 0)
  {}

  /** One round of the loop. */
  lemma StepOn(g: Info, w: Cursor, rest: seq<Byte>, run: Written, done: nat)
    requires Steady(g, w) && SameEnd(run, WriteRun(g, w, rest), done)
    ensures var s, n := Stored(g, w, rest), |Piece(g, w, rest)|;
      && g.fat + g.fatSectors <= |s.disk| && Mounted(g, s.disk) && s.cluster < PER_SECTOR * g.fatSectors
      && (n == |rest| ==> run.disk == s.disk && !run.full && run.count == done + n)
      && (n < |rest| && Next(g, s) < Chains.END ==> SameEnd(run, WriteRun(g, s, rest[n..]), done + n))
      && (n < |rest| && Next(g, s) >= Chains.END ==>
            var f := Chains.FirstFree(Table(g, s.disk), 0);
            && (f == 0 ==> run.disk == s.disk && run.full && run.count == done + n)
            && (f != 0 ==>
                  && f < PER_SECTOR * g.fatSectors && s.sector + g.perCluster <= |s.disk|
                  && SameEnd(run, WriteRun(g, Linked(g, s, f), rest[n..]), done + n)))
  {
    hide Stored, Linked, Table;
    TableFits(g, Stored(g, w, rest).disk);
    Chains.FirstFreeMeans(Table(g, Stored(g, w, rest).disk), 0);
  }

  /** memcpy of length bytes of the buffer to buf[at..]. */
  method CopyOut(buffer: seq<Byte>, from: nat, buf: array<Byte>, at: nat, length: nat)
    requires from + length <= |buffer| && at + length <= buf.Length
    modifies buf
    ensures buf[..at] == old(buf[..at]) && buf[at..at + length] == buffer[from..from + length]
    ensures buf[at + length..] == old(buf[at + length..])
  {
    var i := 0;
    while i < length
      invariant i <= length
      invariant forall k :: 0 <= k < buf.Length ==>
                  buf[k] == if at <= k < at + i then buffer[from + (k - at)] else old(buf[k])
    {
      buf[at + i] := buffer[from + i];
      i := i + 1;
    }
  }

  lemma Sliced(b: seq<Byte>, count: nat, from: nat, n: nat)
    requires from + n <= count <= |b|
    ensures b[..count][from..][..n] == b[from..from + n]
  {}

  lemma JoinSlices(buf: seq<Byte>, bytes: seq<Byte>, at: nat, length: nat, from: nat)
    requires at + length <= |buf| && from + at + length <= |bytes|
    requires buf[..at] == bytes[from..from + at] && buf[at..at + length] == bytes[from + at..from + at + length]
    ensures buf[..at + length] == bytes[from..from + at + length]
  {
    assert buf[..at + length] == buf[..at] + buf[at..at + length];
  }

  lemma {:induction false} Scales(b: nat, n: nat, m: nat)
    ensures n <= m ==> b * n <= b * m
  {
    if n < m { Rows(b, n, m); }
  }

  lemma NoSuchSector(g: Info, disk: Disk, cluster: nat)
    requires Mounted(g, disk) && |disk| <= Base(g, Chains.END) && Chains.END <= cluster
    ensures Base(g, cluster) + g.perCluster > |disk|
  {
    Scales(g.perCluster, Chains.END - 2, cluster - 2);
  }

  /** A position as a number of whole clusters of b bytes and an offset in the next. */
  ghost predicate Placed(b: nat, position: nat, k: nat, offset: nat) {
    position == b * k + offset && offset < b
  }

  lemma PlacedAt(b: nat, position: nat)
    requires b > 0
    ensures Placed(b, position, position / b, position % b)
  {}

  /** A file that goes on past a cluster has another one. */
  lemma Further(b: nat, k: nat, n: nat, position: nat, offset: nat, size: nat)
    requires Placed(b, position, k, offset) && position - offset + b < size <= b * n
    ensures k + 1 < n && Placed(b, position - offset + b, k + 1, 0)
  {
    Scales(b, n, k + 1);
    assert b * (k + 1) == b * k + b;
  }
}
