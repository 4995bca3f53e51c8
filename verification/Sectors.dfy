// The disk as the file system and the driver see it: 512-byte sectors, runs of sectors, and the
// little-endian numbers stored in them.
module Sectors {
  import opened Common

  const SECTOR := 512
  const SLOT := 32           // bytes of a directory entry

  type Byte = b: nat | b < 256

  function Zeros(): (r: seq<Byte>)
    ensures |r| == SECTOR
  {
    seq(SECTOR, i => 0)
  }

  type Sector = s: seq<Byte> | |s| == SECTOR ghost witness Zeros()

  // ---- runs of sectors

  function Concat(ss: seq<Sector>): (r: seq<Byte>)
    ensures |r| == SECTOR * |ss|
  {
    seq(SECTOR * |ss|, i requires 0 <= i < SECTOR * |ss| => ss[i / SECTOR][i % SECTOR])
  }

  function Cut(b: seq<Byte>): (r: seq<Sector>)
    requires |b| % SECTOR == 0
    ensures SECTOR * |r| == |b|
  {
    seq(|b| / SECTOR, i requires 0 <= i < |b| / SECTOR => b[SECTOR * i..SECTOR * i + SECTOR])
  }

  /** What a read of n sectors from lba puts in the buffer. */
  function Load(disk: seq<Sector>, lba: nat, n: nat): (r: seq<Byte>)
    requires lba + n <= |disk|
    ensures |r| == SECTOR * n
  {
    Concat(disk[lba..lba + n])
  }

  /** What a write of the buffer b to the sectors from lba leaves on the disk. */
  function Store(disk: seq<Sector>, lba: nat, b: seq<Byte>): (r: seq<Sector>)
    requires |b| % SECTOR == 0 && lba + |b| / SECTOR <= |disk|
    ensures |r| == |disk|
    ensures forall i :: 0 <= i < |r| && !(lba <= i < lba + |b| / SECTOR) ==> r[i] == disk[i]
    ensures forall i :: lba <= i < lba + |b| / SECTOR ==> r[i] == Cut(b)[i - lba]
  {
    disk[..lba] + Cut(b) + disk[lba + |b| / SECTOR..]
  }

  lemma ConcatCut(b: seq<Byte>)
    requires |b| % SECTOR == 0
    ensures Concat(Cut(b)) == b
  {
    forall i | 0 <= i < |b| ensures Concat(Cut(b))[i] == b[i] {
      assert i == SECTOR * (i / SECTOR) + i % SECTOR;
    }
  }

  /** Reading back what was written. */
  lemma LoadStored(disk: seq<Sector>, lba: nat, b: seq<Byte>)
    requires |b| % SECTOR == 0 && lba + |b| / SECTOR <= |disk|
    ensures Load(Store(disk, lba, b), lba, |b| / SECTOR) == b
  {
    assert Store(disk, lba, b)[lba..lba + |b| / SECTOR] == Cut(b);
    ConcatCut(b);
  }

  /** Reading elsewhere. */
  lemma LoadApart(disk: seq<Sector>, other: seq<Sector>, lba: nat, n: nat)
    requires |disk| == |other| && lba + n <= |disk|
    requires forall i :: lba <= i < lba + n ==> disk[i] == other[i]
    ensures Load(disk, lba, n) == Load(other, lba, n)
  {
    assert disk[lba..lba + n] == other[lba..lba + n];
  }

  // ---- numbers in a run of bytes, least significant byte first

  function Half(b: seq<Byte>, at: nat): (r: nat)
    requires at + 2 <= |b|
    ensures r < 0x1_0000
  {
    var b0: nat, b1: nat := b[at], b[at + 1];
    b0 + 0x100 * b1
  }

  function Word(b: seq<Byte>, at: nat): (r: nat)
    requires at + 4 <= |b|
    ensures r < LIMIT32
  {
    Half(b, at) + 0x1_0000 * Half(b, at + 2)
  }

  function PutHalf(b: seq<Byte>, at: nat, v: nat): (r: seq<Byte>)
    requires at + 2 <= |b|
    ensures |r| == |b|
  {
    b[at := v % 0x100][at + 1 := v / 0x100 % 0x100]
  }

  function PutWord(b: seq<Byte>, at: nat, v: nat): (r: seq<Byte>)
    requires at + 4 <= |b|
    ensures |r| == |b|
  {
    PutHalf(PutHalf(b, at, v), at + 2, v / 0x1_0000)
  }

  lemma HalfPut(b: seq<Byte>, at: nat, v: nat)
    requires at + 2 <= |b|
    ensures Half(PutHalf(b, at, v), at) == v % 0x1_0000
    ensures forall i :: 0 <= i < |b| && !(at <= i < at + 2) ==> PutHalf(b, at, v)[i] == b[i]
  {
    assert v % 0x1_0000 == v % 0x100 + 0x100 * (v / 0x100 % 0x100);
  }

  lemma WordPut(b: seq<Byte>, at: nat, v: nat)
    requires at + 4 <= |b|
    ensures Word(PutWord(b, at, v), at) == v % LIMIT32
    ensures forall i :: 0 <= i < |b| && !(at <= i < at + 4) ==> PutWord(b, at, v)[i] == b[i]
  {
    HalfPut(b, at, v);
    HalfPut(PutHalf(b, at, v), at + 2, v / 0x1_0000);
    assert v % LIMIT32 == v % 0x1_0000 + 0x1_0000 * (v / 0x1_0000 % 0x1_0000);
  }

  lemma SameBytes(b: seq<Byte>, c: seq<Byte>, at: nat)
    requires at + 2 <= |b| == |c| && b[at] == c[at] && b[at + 1] == c[at + 1]
    ensures Half(b, at) == Half(c, at)
    ensures at + 4 <= |b| && b[at + 2] == c[at + 2] && b[at + 3] == c[at + 3] ==> Word(b, at) == Word(c, at)
  {}

  /** Transfers of one sector. */
  lemma OneSector(disk: seq<Sector>, lba: nat, b: Sector)
    requires lba < |disk|
    ensures Load(disk, lba, 1) == disk[lba] && Store(disk, lba, b) == disk[lba := b]
  {
    assert disk[lba..lba + 1] == [disk[lba]];
    forall k | 0 <= k < SECTOR ensures Concat([disk[lba]])[k] == disk[lba][k] {}
    assert b[SECTOR * 0..SECTOR * 0 + SECTOR] == b;
    assert Cut(b) == [b];
  }
}
