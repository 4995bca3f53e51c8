// The kernel's `unsigned long` bitmaps. A word is its 64 bits, least significant
// first, and each C operator acts on the bits.
module Words {

  type Word = w: seq<bool> | |w| == 64 witness seq(64, i => false)

  const ONES: Word := seq(64, i => true)

  /** `1UL << i` */
  function One(i: nat): Word
    requires i < 64
  {
    seq(64, j => j == i)
  }

  /** `(1UL << n) - 1` */
  function Low(n: nat): Word
    requires n < 64
  {
    seq(64, j => j < n)
  }

  function And(x: Word, y: Word): Word {
    seq(64, j requires 0 <= j < 64 => x[j] && y[j])
  }

  function Or(x: Word, y: Word): Word {
    seq(64, j requires 0 <= j < 64 => x[j] || y[j])
  }

  function Xor(x: Word, y: Word): Word {
    seq(64, j requires 0 <= j < 64 => x[j] != y[j])
  }

  function Not(x: Word): Word {
    seq(64, j requires 0 <= j < 64 => !x[j])
  }

  function Shr(x: Word, k: nat): Word
    requires k < 64
  {
    seq(64, j requires 0 <= j < 64 => j + k < 64 && x[j + k])
  }

  function Shl(x: Word, k: nat): Word
    requires k < 64
  {
    seq(64, j requires 0 <= j < 64 => k <= j && x[j - k])
  }

  predicate IsZero(x: Word) {
    forall j :: 0 <= j < 64 ==> !x[j]
  }

  // ---- bitmaps

  predicate BitOf(words: seq<Word>, i: nat)
    requires i < 64 * |words|
  {
    words[i / 64][i % 64]
  }

  /** All bits of a bitmap, in order. */
  function Flat(words: seq<Word>): (bits: seq<bool>)
    ensures |bits| == 64 * |words|
    ensures forall i :: 0 <= i < |bits| ==> bits[i] == BitOf(words, i)
  {
    seq(64 * |words|, i requires 0 <= i < 64 * |words| => BitOf(words, i))
  }

  /** `*(map + (i >> 6)) |= 1UL << i % 64` */
  method SetBit(words: array<Word>, i: nat)
    requires i < 64 * words.Length
    modifies words
    ensures Flat(words[..]) == old(Flat(words[..]))[i := true]
  {
    words[i / 64] := Or(words[i / 64], One(i % 64));
    FlatUpdate(old(words[..]), i, words[i / 64]);
  }

  /** `*(map + (i >> 6)) &= ~(1UL << i % 64)` */
  method ClearBit(words: array<Word>, i: nat)
    requires i < 64 * words.Length
    modifies words
    ensures Flat(words[..]) == old(Flat(words[..]))[i := false]
  {
    words[i / 64] := And(words[i / 64], Not(One(i % 64)));
    FlatUpdate(old(words[..]), i, words[i / 64]);
  }

  /** `*(map + (i >> 6)) ^= 1UL << i % 64` */
  method FlipBit(words: array<Word>, i: nat)
    requires i < 64 * words.Length
    modifies words
    ensures Flat(words[..]) == old(Flat(words[..]))[i := !old(Flat(words[..]))[i]]
  {
    words[i / 64] := Xor(words[i / 64], One(i % 64));
    FlatUpdate(old(words[..]), i, words[i / 64]);
  }

  /** Replacing one word changes the bits of that word only. */
  lemma FlatUpdate(words: seq<Word>, i: nat, w: Word)
    requires i < 64 * |words|
    requires forall k :: 0 <= k < 64 && k != i % 64 ==> w[k] == words[i / 64][k]
    ensures Flat(words[i / 64 := w]) == Flat(words)[i := w[i % 64]]
  {
    var after := words[i / 64 := w];
    forall j | 0 <= j < 64 * |words| && j != i ensures BitOf(after, j) == BitOf(words, j) {
      if j / 64 == i / 64 { assert j % 64 != i % 64; }
    }
  }

  /** The 64 bits that start at bit k of p and run on into the next word. */
  function Window(p: Word, next: Word, k: nat): Word
    requires k < 64
  {
    if k > 0 then Or(Shr(p, k), Shl(next, 64 - k)) else p
  }

  /** The window test of alloc_pages on n bits. */
  predicate WindowTest(p: Word, next: Word, k: nat, n: nat)
    requires k < 64 && n < 64
  {
    IsZero(And(Window(p, next, k), Low(n)))
  }

  /** The n bits from bit i on are all clear. */
  predicate ClearRun(bits: seq<bool>, i: nat, n: nat)
    requires i + n <= |bits|
  {
    forall l :: i <= l < i + n ==> !bits[l]
  }

  lemma WindowBit(p: Word, next: Word, k: nat, j: nat)
    requires k < 64 && j < 64
    ensures Window(p, next, k)[j] == if k + j < 64 then p[k + j] else next[k + j - 64]
  {}

  lemma WindowAt(words: seq<Word>, i: nat, j: nat)
    requires j < 64 && i / 64 + 1 < |words|
    ensures Window(words[i / 64], words[i / 64 + 1], i % 64)[j] == Flat(words)[i + j]
  {
    WindowBit(words[i / 64], words[i / 64 + 1], i % 64, j);
    if i % 64 + j < 64 {
      assert (i + j) / 64 == i / 64 && (i + j) % 64 == i % 64 + j;
    } else {
      assert (i + j) / 64 == i / 64 + 1 && (i + j) % 64 == i % 64 + j - 64;
    }
  }

  /** The window test holds exactly when the n bits it looks at are clear. */
  lemma WindowIsRun(words: seq<Word>, i: nat, n: nat)
    requires n < 64 && i / 64 + 1 < |words|
    ensures WindowTest(words[i / 64], words[i / 64 + 1], i % 64, n) <==> ClearRun(Flat(words), i, n)
  {
    var w := Window(words[i / 64], words[i / 64 + 1], i % 64);
    forall j | 0 <= j < 64 ensures And(w, Low(n))[j] == (j < n && Flat(words)[i + j]) {
      WindowAt(words, i, j);
    }
    if IsZero(And(w, Low(n))) {
      forall l | i <= l < i + n ensures !Flat(words)[l] { assert !And(w, Low(n))[l - i]; }
    }
  }
}
