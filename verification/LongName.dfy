// Long file names in a directory cluster ("FAT Long Directory Entries" in the Microsoft FAT32 File
// System Specification): how FAT32_readdir puts a name together and how FAT32_lookup compares one.
module LongName {
  import opened Sectors

  const LONG_NAME := 0x0f     // ATTR_LONG_NAME
  const UNITS := 13           // characters in an entry
  const LAST := 0x40          // flag of the last entry of a name, which stands first
  const PAD := 0xffff
  const DELETED := 0xe5       // first byte of a slot that is free again

  /** Where unit y of an entry lies: LDIR_Name1, LDIR_Name2 and LDIR_Name3. */
  function UnitAt(y: nat): nat {
    if y < 5 then 1 + 2 * y else if y < 11 then 14 + 2 * (y - 5) else 28 + 2 * (y - 11)
  }

  predicate HasSlot(b: seq<Byte>, e: nat) { SLOT * e + SLOT <= |b| }

  function Unit(b: seq<Byte>, e: nat, y: nat): (r: nat)
    requires HasSlot(b, e) && y < UNITS
    ensures r <= PAD
  {
    Half(b, SLOT * e + UnitAt(y))
  }

  function Ord(b: seq<Byte>, e: nat): nat requires HasSlot(b, e) { b[SLOT * e] }

  predicate IsLong(b: seq<Byte>, e: nat) requires HasSlot(b, e) { b[SLOT * e + 11] == LONG_NAME }

  // ---- the encoding of the standard

  /** The entries that a name of n characters takes. */
  function Entries(n: nat): nat { (n + UNITS - 1) / UNITS }

  predicate Spellable(name: seq<nat>) {
    0 < |name| <= 255 && forall i :: 0 <= i < |name| ==> 0 < name[i] < PAD
  }

  /** Unit i of a name: after the last character comes a zero, if there is room, and then padding. */
  function Coded(name: seq<nat>, i: nat): nat {
    if i < |name| then name[i] else if i == |name| then 0 else PAD
  }

  /** The slots before slot s spell the name, backwards. */
  ghost predicate Spells(b: seq<Byte>, s: nat, name: seq<nat>) {
    var m := Entries(|name|);
    && Spellable(name) && m <= s && HasSlot(b, s)
    && (forall k: nat :: k < m ==> SpellsPart(b, s, name, k))
  }

  /** The slot before the m slots before slot s, if there is one, is no long entry, or a deleted one. */
  ghost predicate Bounded(b: seq<Byte>, s: nat, m: nat) {
    m < s && HasSlot(b, s) ==> !IsLong(b, s - 1 - m) || Ord(b, s - 1 - m) == DELETED
  }

  ghost predicate SpellsPart(b: seq<Byte>, s: nat, name: seq<nat>, k: nat) {
    k < s && EntryOf(b, s - 1 - k, name, k, k == Entries(|name|) - 1)
  }

  ghost predicate EntryOf(b: seq<Byte>, e: nat, name: seq<nat>, k: nat, last: bool) {
    && HasSlot(b, e) && IsLong(b, e) && Ord(b, e) == k + 1 + (if last then LAST else 0)
    && forall y :: 0 <= y < UNITS ==> Unit(b, e, y) == Coded(name, UNITS * k + y)
  }

  // ---- FAT32_readdir

  /** An entry that the loop of FAT32_readdir counts. */
  predicate Counted(b: seq<Byte>, e: nat)
    requires HasSlot(b, e)
  {
    IsLong(b, e) && Ord(b, e) != DELETED && Ord(b, e) != 0x00 && Ord(b, e) != 0x05
  }

  /** How many entries are counted from slot e backwards, up to the last of the name. */
  function Length(b: seq<Byte>, e: int): (r: nat)
    requires e < 0 || HasSlot(b, e)
    ensures r <= if e < 0 then 0 else e + 1
    decreases if e < 0 then 0 else e + 1
  {
    if e < 0 || !Counted(b, e) then 0
    else if Ord(b, e) / LAST % 2 == 1 then 1
    else 1 + Length(b, e - 1)
  }

  /** The characters that units 0 to y - 1 of an entry contribute, each cut to eight bits. */
  function Letters(b: seq<Byte>, e: nat, y: nat): seq<nat>
    requires HasSlot(b, e) && y <= UNITS
  {
    if y == 0 then []
    else
      var u := Unit(b, e, y - 1);
      Letters(b, e, y - 1) + if u != PAD && u != 0 then [u % 0x100] else []
  }

  /** The characters of j entries from slot e backwards. */
  function Name(b: seq<Byte>, e: int, j: nat): seq<nat>
    requires j <= e + 1 && (j == 0 || HasSlot(b, e))
  {
    if j == 0 then [] else Name(b, e, j - 1) + Letters(b, e - (j - 1), UNITS)
  }

  function Low(name: seq<nat>): (r: seq<nat>)
    ensures |r| == |name|
  {
    seq(|name|, i requires 0 <= i < |name| => name[i] % 0x100)
  }

  lemma {:induction false} LettersSpell(b: seq<Byte>, e: nat, name: seq<nat>, k: nat, last: bool, y: nat)
    requires Spellable(name) && EntryOf(b, e, name, k, last) && y <= UNITS && UNITS * k < |name|
    ensures var to := if UNITS * k + y < |name| then UNITS * k + y else |name|;
      Letters(b, e, y) == Low(name[UNITS * k..to])
  {
    if y > 0 {
      LettersSpell(b, e, name, k, last, y - 1);
      assert Unit(b, e, y - 1) == Coded(name, UNITS * k + (y - 1));
    }
  }

  function Least(a: nat, b: nat): nat { if a < b then a else b }

  lemma {:induction false} NameSpells(b: seq<Byte>, s: nat, name: seq<nat>, j: nat)
    requires Spellable(name) && j <= Entries(|name|) <= s && HasSlot(b, s)
    requires forall k: nat :: k < j ==> SpellsPart(b, s, name, k)
    ensures Name(b, s - 1, j) == Low(name[..Least(UNITS * j, |name|)])
  {
    hide Letters, EntryOf, Unit;
    if j > 0 {
      var k := j - 1;
      NameSpells(b, s, name, k);
      assert SpellsPart(b, s, name, k);
      LettersSpell(b, s - 1 - k, name, k, k == Entries(|name|) - 1, UNITS);
      var to := Least(UNITS * j, |name|);
      LowJoins(name, UNITS * k, to);
    }
  }

  lemma LowJoins(name: seq<nat>, at: nat, to: nat)
    requires at <= to <= |name|
    ensures Low(name[..at]) + Low(name[at..to]) == Low(name[..to])
  {}

  /**
   The loop counts every entry of a name of up to five. The fifth of a longer one bears the number
   0x05, which is taken for a deleted entry, so that only four are counted.
   */
  lemma {:induction false} CountsEntries(b: seq<Byte>, s: nat, name: seq<nat>, k: nat)
    requires Spells(b, s, name) && k < Entries(|name|) && k <= 4
    ensures Length(b, s - 1 - k) == if Entries(|name|) <= 5 then Entries(|name|) - k else 4 - k
    decreases 4 - k
  {
    hide Unit, Coded;
    assert SpellsPart(b, s, name, k);
    assert Entries(|name|) <= 20;
    if k < Entries(|name|) - 1 && k < 4 { CountsEntries(b, s, name, k + 1); }
  }

  /** What FAT32_readdir hands on for the file of slot s. */
  function ReadName(b: seq<Byte>, s: nat): seq<nat>
    requires 0 < s && HasSlot(b, s)
  {
    Name(b, s - 1, Length(b, s - 1))
  }

  /**
   FAT32_readdir gives back the name that the entries spell, each character cut to eight bits, if and
   only if the name has at most 65 characters; of a longer one it gives the first 52.
   */
  lemma ReadsBackIffShort(b: seq<Byte>, s: nat, name: seq<nat>)
    requires Spells(b, s, name)
    ensures ReadName(b, s) == Low(name) <==> |name| <= 65
    ensures |name| > 65 ==> ReadName(b, s) == Low(name[..52])
    ensures |name| <= 65 && (forall i :: 0 <= i < |name| ==> name[i] < 0x100) ==> ReadName(b, s) == name
  {
    hide Name, Length;
    CountsEntries(b, s, name, 0);
    NameSpells(b, s, name, Length(b, s - 1));
    assert name[..|name|] == name;
    if forall i :: 0 <= i < |name| ==> name[i] < 0x100 { assert Low(name) == name; }
  }

  /** The name with its entry k marked as deleted, or as one of no file any more, is read as far as that entry. */
  lemma {:induction false} DeletedCuts(b: seq<Byte>, s: nat, name: seq<nat>, k: nat, mark: Byte)
    requires Spells(b, s, name) && k < Entries(|name|) && k <= 4 && mark in {0xe5, 0x00}
    ensures SLOT * (s - 1 - k) < |b|
    ensures ReadName(b[SLOT * (s - 1 - k) := mark], s) == Low(name[..UNITS * k])
  {
    assert SpellsPart(b, s, name, k);
    var d := b[SLOT * (s - 1 - k) := mark];
    DeletedCounts(b, s, name, k, mark, 0);
    forall j: nat | j < k ensures SpellsPart(d, s, name, j) { DeletedOther(b, s, name, k, mark, j); }
    NameSpells(d, s, name, k);
  }

  lemma DeletedOther(b: seq<Byte>, s: nat, name: seq<nat>, k: nat, mark: Byte, j: nat)
    requires Spells(b, s, name) && j < k < Entries(|name|) && SLOT * (s - 1 - k) < |b|
    ensures SpellsPart(b[SLOT * (s - 1 - k) := mark], s, name, j)
  {
    assert SpellsPart(b, s, name, j);
    var d, e := b[SLOT * (s - 1 - k) := mark], s - 1 - j;
    assert SLOT * e >= SLOT * (s - 1 - k) + SLOT;
    forall y | 0 <= y < UNITS ensures Unit(d, e, y) == Coded(name, UNITS * j + y) {
      SameBytes(b, d, SLOT * e + UnitAt(y));
      assert Unit(b, e, y) == Coded(name, UNITS * j + y);
    }
  }

  lemma {:induction false} DeletedCounts(b: seq<Byte>, s: nat, name: seq<nat>, k: nat, mark: Byte, j: nat)
    requires Spells(b, s, name) && j <= k < Entries(|name|) && k <= 4 && SLOT * (s - 1 - k) < |b|
    requires mark in {0xe5, 0x00}
    ensures Length(b[SLOT * (s - 1 - k) := mark], s - 1 - j) == k - j
    decreases k - j
  {
    hide Unit, Coded;
    assert Entries(|name|) <= 20;
    if j < k {
      DeletedOther(b, s, name, k, mark, j);
      DeletedCounts(b, s, name, k, mark, j + 1);
    }
  }

  // ---- FAT32_lookup

  /** The characters of the name that is looked for, with the zero that ends it. */
  function Char(dest: seq<nat>, j: nat): nat
    requires j <= |dest|
  {
    if j < |dest| then dest[j] else 0
  }

  datatype Verdict = Success | Failure | NoMore

  /** One unit is compared: the position in the name after it, or |dest| + 2 if they differ. */
  function Step(u: nat, dest: seq<nat>, j: nat): (r: nat)
    requires j <= |dest| + 1
    ensures r <= |dest| + 2
  {
    if j > |dest| && u == PAD then j
    else if j > |dest| || u != Char(dest, j) then |dest| + 2
    else j + 1
  }

  /** Units 0 to y - 1 of an entry are compared. */
  function Steps(b: seq<Byte>, e: nat, y: nat, dest: seq<nat>, j: nat): (r: nat)
    requires HasSlot(b, e) && y <= UNITS && j <= |dest| + 1
    ensures r <= |dest| + 2
  {
    if y == 0 then j
    else
      var i := Steps(b, e, y - 1, dest, j);
      if i == |dest| + 2 then i else Step(Unit(b, e, y - 1), dest, i)
  }

  /** The comparison from slot e backwards, the first j characters being equal. */
  function Compare(b: seq<Byte>, e: int, dest: seq<nat>, j: nat): Verdict
    requires (e < 0 || HasSlot(b, e)) && j <= |dest| + 1
    decreases if e < 0 then 0 else e + 1
  {
    if e < 0 || !IsLong(b, e) || Ord(b, e) == DELETED then NoMore
    else
      var i := Steps(b, e, UNITS, dest, j);
      if i == |dest| + 2 then Failure
      else if i >= |dest| then Success
      else Compare(b, e - 1, dest, i)
  }

  predicate Ascii(dest: seq<nat>) {
    forall i :: 0 <= i < |dest| ==> 0 < dest[i] < 0x80
  }

  /** Unit i of a name is what the comparison asks for at that place. */
  ghost predicate Fits(name: seq<nat>, dest: seq<nat>, i: nat) {
    Coded(name, i) == if i > |dest| then PAD else Char(dest, i)
  }

  /** The comparison goes through an entry if every unit fits, and then stands after it or after the final zero. */
  lemma {:induction false} StepsFit(b: seq<Byte>, e: nat, name: seq<nat>, k: nat, last: bool, dest: seq<nat>, y: nat)
    requires EntryOf(b, e, name, k, last) && y <= UNITS && UNITS * k <= |dest|
    ensures Steps(b, e, y, dest, UNITS * k) ==
      if forall i: nat :: UNITS * k <= i < UNITS * k + y ==> Fits(name, dest, i)
      then Least(UNITS * k + y, |dest| + 1)
      else |dest| + 2
  {
    if y > 0 {
      StepsFit(b, e, name, k, last, dest, y - 1);
      var i := UNITS * k + (y - 1);
      assert Unit(b, e, y - 1) == Coded(name, i);
      assert (forall j: nat :: UNITS * k <= j < i + 1 ==> Fits(name, dest, j)) <==>
             (forall j: nat :: UNITS * k <= j < i ==> Fits(name, dest, j)) && Fits(name, dest, i);
    }
  }

  /** dest is the name, or stops after a whole number of entries at a point where the name goes on. */
  ghost predicate Matches(name: seq<nat>, dest: seq<nat>) {
    dest == name || (0 < |dest| < |name| && |dest| % UNITS == 0 && dest == name[..|dest|])
  }

  /** dest goes on where the name ends with its last entry. */
  ghost predicate RunsOut(name: seq<nat>, dest: seq<nat>) {
    |name| % UNITS == 0 && |name| < |dest| && dest[..|name|] == name
  }

  /** Where the first units fit, the names agree. */
  lemma FitsAgree(name: seq<nat>, dest: seq<nat>, to: nat)
    requires Spellable(name) && Ascii(dest) && forall i: nat :: i < to ==> Fits(name, dest, i)
    ensures Least(to, |dest|) <= |name| && forall i :: 0 <= i < to && i < |dest| ==> name[i] == dest[i]
    ensures |dest| < to ==> dest == name
  {
    forall i: nat | i < to && i < |dest| ensures i < |name| && name[i] == dest[i] { assert Fits(name, dest, i); }
    if Least(to, |dest|) > 0 { assert Fits(name, dest, Least(to, |dest|) - 1); }
    if |dest| < to { assert Fits(name, dest, |dest|); }
  }

  /** Where a unit does not fit, the names do not match. */
  lemma MisfitDiffers(name: seq<nat>, dest: seq<nat>, k: nat, i: nat)
    requires UNITS * k <= i < UNITS * k + UNITS && !Fits(name, dest, i) && (k > 0 ==> UNITS * k < |dest|)
    ensures !Matches(name, dest) && (UNITS * k < |name| ==> !RunsOut(name, dest))
  {}

  lemma {:induction false} CompareMatches(b: seq<Byte>, s: nat, name: seq<nat>, dest: seq<nat>, k: nat)
    requires Spells(b, s, name) && Ascii(dest) && k <= Entries(|name|) && UNITS * k <= |dest|
              && (k > 0 ==> UNITS * k < |dest|) && Bounded(b, s, Entries(|name|))
    requires forall i: nat :: i < UNITS * k ==> Fits(name, dest, i)
    ensures Compare(b, s - 1 - k, dest, UNITS * k) == Success <==> Matches(name, dest)
    ensures Compare(b, s - 1 - k, dest, UNITS * k) == NoMore <==> RunsOut(name, dest)
    decreases Entries(|name|) - k
  {
    hide Unit, Steps, Fits, Matches, RunsOut;
    FitsAgree(name, dest, UNITS * k);
    var m := Entries(|name|);
    if k == m {
      LongerDiffers(name, dest);
      return;
    }
    assert UNITS * k < |name|;
    var to := UNITS * k + UNITS;
    assert SpellsPart(b, s, name, k);
    StepsFit(b, s - 1 - k, name, k, k == m - 1, dest, UNITS);
    if i: nat :| UNITS * k <= i < to && !Fits(name, dest, i) {
      MisfitDiffers(name, dest, k, i);
    } else {
      FitsAgree(name, dest, to);
      if to < |dest| {
        CompareMatches(b, s, name, dest, k + 1);
      } else {
        FittedMatches(name, dest, k);
      }
    }
  }

  lemma LongerDiffers(name: seq<nat>, dest: seq<nat>)
    ensures |dest| > |name| ==> !Matches(name, dest)
    ensures |dest| >= |name| && |name| % UNITS == 0 && dest[..|name|] == name && dest != name ==> RunsOut(name, dest)
  {}

  lemma FittedMatches(name: seq<nat>, dest: seq<nat>, k: nat)
    requires UNITS * k <= |dest| <= UNITS * k + UNITS && (k > 0 ==> UNITS * k < |dest|)
    requires |dest| < UNITS * k + UNITS ==> dest == name
    requires |dest| == UNITS * k + UNITS ==> |dest| <= |name| && forall i :: 0 <= i < |dest| ==> name[i] == dest[i]
    ensures Matches(name, dest) && !RunsOut(name, dest)
  {}

  /**
   For a name in ASCII the comparison succeeds if and only if the names are equal, or the one looked for has a whole
   number of entries and the one in the directory goes on after it. If it does not, the short name is compared only
   where the one in the directory is the one that has whole entries, and is continued.
   */
  lemma LookupSucceedsIff(b: seq<Byte>, s: nat, name: seq<nat>, dest: seq<nat>)
    requires Spells(b, s, name) && Ascii(dest) && Bounded(b, s, Entries(|name|))
    ensures Compare(b, s - 1, dest, 0) == Success <==> Matches(name, dest)
    ensures Compare(b, s - 1, dest, 0) == NoMore <==> RunsOut(name, dest)
    ensures |dest| % UNITS != 0 ==> (Compare(b, s - 1, dest, 0) == Success <==> dest == name)
  {
    hide Compare, Spells, Bounded;
    assert UNITS * 0 == 0 && s - 1 - 0 == s - 1;
    CompareMatches(b, s, name, dest, 0);
  }

  // ---- directories that spell a name

  function NameByte(name: seq<nat>, k: nat, ord: Byte, i: nat): Byte {
    if i == 0 then ord
    else if i == 11 then 0x0f
    else if 1 <= i < 11 then UnitByte(Coded(name, UNITS * k + (i - 1) / 2), (i - 1) % 2)
    else if 14 <= i < 26 then UnitByte(Coded(name, UNITS * k + 5 + (i - 14) / 2), i % 2)
    else if 28 <= i < 32 then UnitByte(Coded(name, UNITS * k + 11 + (i - 28) / 2), i % 2)
    else 0
  }

  function UnitByte(u: nat, high: nat): Byte { if high == 0 then u % 0x100 else u / 0x100 % 0x100 }

  /** A free slot, the entries of the name, and the slot of the file itself. */
  function Encode(name: seq<nat>): (b: seq<Byte>)
    requires Spellable(name)
    ensures |b| == SLOT * (Entries(|name|) + 2)
  {
    var m := Entries(|name|);
    seq(SLOT * (m + 2), p requires 0 <= p < SLOT * (m + 2) =>
      var e := p / SLOT;
      if e == 0 || e == m + 1 then 0
      else NameByte(name, m - e, m - e + 1 + (if e == 1 then 0x40 else 0), p % SLOT))
  }

  lemma EncodedByte(name: seq<nat>, e: nat, i: nat)
    requires Spellable(name) && e < Entries(|name|) + 2 && i < SLOT
    ensures SLOT * e + i < |Encode(name)|
    ensures Encode(name)[SLOT * e + i] ==
            if e == 0 || e == Entries(|name|) + 1 then 0
            else NameByte(name, Entries(|name|) - e, Entries(|name|) - e + 1 + (if e == 1 then LAST else 0), i)
  {
    hide NameByte;
    assert (SLOT * e + i) / SLOT == e && (SLOT * e + i) % SLOT == i;
  }

  lemma NameByteIs(name: seq<nat>, k: nat, ord: Byte, y: nat)
    requires y < UNITS
    ensures NameByte(name, k, ord, UnitAt(y)) == UnitByte(Coded(name, UNITS * k + y), 0)
    ensures NameByte(name, k, ord, UnitAt(y) + 1) == UnitByte(Coded(name, UNITS * k + y), 1)
  {
    hide Coded, UnitByte;
  }

  lemma EncodedUnit(name: seq<nat>, k: nat, y: nat)
    requires Spellable(name) && k < Entries(|name|) && y < UNITS
    ensures HasSlot(Encode(name), Entries(|name|) - k)
    ensures Unit(Encode(name), Entries(|name|) - k, y) == Coded(name, UNITS * k + y)
  {
    hide NameByte, Encode, Entries;
    var e, ord := Entries(|name|) - k, k + 1 + (if k == Entries(|name|) - 1 then LAST else 0);
    OrdIsByte(name, k);
    EncodedByte(name, e, UnitAt(y));
    EncodedByte(name, e, UnitAt(y) + 1);
    NameByteIs(name, k, ord, y);
    var u := Coded(name, UNITS * k + y);
    assert u <= PAD && u == u % 0x100 + 0x100 * (u / 0x100 % 0x100);
  }

  lemma OrdIsByte(name: seq<nat>, k: nat)
    requires Spellable(name) && k < Entries(|name|)
    ensures Entries(|name|) <= 20 && k + 1 + LAST < 0x100
  {}

  lemma EncodedPart(name: seq<nat>, k: nat)
    requires Spellable(name) && k < Entries(|name|)
    ensures SpellsPart(Encode(name), Entries(|name|) + 1, name, k)
  {
    hide Encode, Unit, Entries, Coded;
    var b, e := Encode(name), Entries(|name|) - k;
    OrdIsByte(name, k);
    EncodedByte(name, e, 0);
    EncodedByte(name, e, 11);
    forall y | 0 <= y < UNITS ensures HasSlot(b, e) && Unit(b, e, y) == Coded(name, UNITS * k + y) {
      EncodedUnit(name, k, y);
    }
  }

  lemma EncodeSpells(name: seq<nat>)
    requires Spellable(name)
    ensures Spells(Encode(name), Entries(|name|) + 1, name)
    ensures Bounded(Encode(name), Entries(|name|) + 1, Entries(|name|))
  {
    var b, s := Encode(name), Entries(|name|) + 1;
    EncodedByte(name, 0, 11);
    forall k: nat | k < Entries(|name|) ensures SpellsPart(b, s, name, k) { EncodedPart(name, k); }
  }

  /** Every name of eight-bit characters comes back from its encoding, if it has at most 65 of them. */
  lemma RoundTripIff(name: seq<nat>)
    requires Spellable(name) && forall i :: 0 <= i < |name| ==> name[i] < 0x100
    ensures HasSlot(Encode(name), Entries(|name|) + 1)
    ensures ReadName(Encode(name), Entries(|name|) + 1) == name <==> |name| <= 65
  {
    EncodeSpells(name);
    assert Low(name) == name;
    ReadsBackIffShort(Encode(name), Entries(|name|) + 1, name);
  }

  /** n times the letter a. */
  function Letter(n: nat): (r: seq<nat>)
    ensures |r| == n && forall i :: 0 <= i < n ==> r[i] == 97
  {
    seq(n, i => 97)
  }

  /** A name of 66 letters is read back as its first 52. */
  lemma LongNameIsCut()
    ensures Spellable(Letter(66)) && HasSlot(Encode(Letter(66)), 7) && ReadName(Encode(Letter(66)), 7) == Letter(52)
  {
    hide Encode, ReadName, Spells, Letter;
    var name := Letter(66);
    EncodeSpells(name);
    assert Entries(66) == 6;
    ReadsBackIffShort(Encode(name), 7, name);
    assert Low(name[..52]) == Letter(52);
  }

  /** Thirteen letters are taken for the name of fourteen. */
  lemma PrefixIsMistaken()
    ensures Spellable(Letter(14)) && HasSlot(Encode(Letter(14)), 3)
              && Compare(Encode(Letter(14)), 2, Letter(13), 0) == Success
  {
    hide Encode, Compare, Spells, Bounded, Letter;
    var name := Letter(14);
    EncodeSpells(name);
    assert Entries(14) == 2 && name[..13] == Letter(13);
    LookupSucceedsIff(Encode(name), 3, name, Letter(13));
  }

  // ---- the two loops as they run

  /** One entry is read, field by field. */
  method ReadEntry(b: seq<Byte>, e: nat, before: seq<nat>) returns (name: seq<nat>)
    requires HasSlot(b, e)
    ensures name == before + Letters(b, e, UNITS)
  {
    name := before;
    assert before + [] == before;
    var y := 0;
    while y < 5
      invariant y <= 5 && name == before + Letters(b, e, y)
    {
      name := AppendUnit(b, e, y, name);
      y := y + 1;
    }
    while y < 11
      invariant y <= 11 && name == before + Letters(b, e, y)
    {
      name := AppendUnit(b, e, y, name);
      y := y + 1;
    }
    while y < UNITS
      invariant y <= UNITS && name == before + Letters(b, e, y)
    {
      name := AppendUnit(b, e, y, name);
      y := y + 1;
    }
  }

  method AppendUnit(b: seq<Byte>, e: nat, y: nat, name: seq<nat>) returns (r: seq<nat>)
    requires HasSlot(b, e) && y < UNITS
    ensures forall before :: name == before + Letters(b, e, y) ==> r == before + Letters(b, e, y + 1)
  {
    var u := Unit(b, e, y);
    r := if u != PAD && u != 0 then name + [u % 0x100] else name;
    forall before | name == before + Letters(b, e, y) ensures r == before + Letters(b, e, y + 1) {
      assert before + (Letters(b, e, y) + [u % 0x100]) == (before + Letters(b, e, y)) + [u % 0x100];
    }
  }

  method CountEntries(b: seq<Byte>, s: nat) returns (j: nat)
    requires 0 < s && HasSlot(b, s)
    ensures j == Length(b, s - 1)
  {
    hide Counted;
    var e := s - 1;
    j := 0;
    while e >= 0 && Counted(b, e)
      invariant -1 <= e < s && j == s - 1 - e && Length(b, s - 1) == j + Length(b, e)
      decreases e
    {
      j := j + 1;
      if Ord(b, e) / LAST % 2 == 1 { return; }
      e := e - 1;
    }
  }

  /** The long-name part of FAT32_readdir for the file in slot s. */
  method ReadLongName(b: seq<Byte>, s: nat) returns (name: seq<nat>)
    requires 0 < s && HasSlot(b, s)
    ensures name == ReadName(b, s)
  {
    hide Letters;
    var j := CountEntries(b, s);
    name := [];
    var x := 0;
    while x < j
      invariant x <= j && name == Name(b, s - 1, x)
    {
      name := ReadEntry(b, s - 1 - x, name);
      x := x + 1;
    }
  }

  /** The long-name comparison of FAT32_lookup for the file in slot s. */
  method CompareLongName(b: seq<Byte>, s: nat, dest: seq<nat>) returns (v: Verdict)
    requires 0 < s && HasSlot(b, s)
    ensures v == Compare(b, s - 1, dest, 0)
  {
    var e, j := s - 1, 0;
    while e >= 0 && IsLong(b, e) && Ord(b, e) != DELETED
      invariant -1 <= e < s && j <= |dest| + 1 && Compare(b, s - 1, dest, 0) == Compare(b, e, dest, j)
      decreases e
    {
      var x, start := 0, j;
      while x < UNITS
        invariant x <= UNITS && j <= |dest| + 1 && j == Steps(b, e, x, dest, start)
      {
        if j > |dest| && Unit(b, e, x) == PAD {
        } else if j > |dest| || Unit(b, e, x) != Char(dest, j) {
          StepsStay(b, e, x + 1, UNITS, dest, start);
          return Failure;
        } else {
          j := j + 1;
        }
        x := x + 1;
      }
      if j >= |dest| { return Success; }
      e := e - 1;
    }
    v := NoMore;
  }

  lemma {:induction false} StepsStay(b: seq<Byte>, e: nat, x: nat, y: nat, dest: seq<nat>, j: nat)
    requires HasSlot(b, e) && x <= y <= UNITS && j <= |dest| + 1 && Steps(b, e, x, dest, j) == |dest| + 2
    ensures Steps(b, e, y, dest, j) == |dest| + 2
  {
    if x < y { StepsStay(b, e, x, y - 1, dest, j); }
  }
}
