// The file allocation table as a list of 32-bit entries, and the cluster chains it holds
// ("FAT Data Structure" in the Microsoft FAT32 File System Specification).
module Chains {
  import opened Common

  const LINK := 0x1000_0000    // an entry links with its low 28 bits
  const END := 0x0fff_fff8     // links from here on end a chain

  function Link(entry: nat): (r: nat)
    ensures r < LINK
  {
    entry % LINK
  }

  /** `(entry & 0xf0000000) | (value & 0x0fffffff)` */
  function Merge(entry: nat, value: nat): nat {
    entry - entry % LINK + value % LINK
  }

  lemma MergeLinks(entry: nat, value: nat)
    ensures Link(Merge(entry, value)) == value % LINK
    ensures Merge(entry, value) / LINK == entry / LINK
    ensures entry < LIMIT32 ==> Merge(entry, value) < LIMIT32
  {}

  // ---- chains

  ghost predicate Chain(t: seq<nat>, c: seq<nat>) {
    && |c| > 0 && |t| <= END
    && (forall k :: 0 <= k < |c| ==> 2 <= c[k] < |t|)
    && (forall k :: 0 <= k < |c| - 1 ==> Link(t[c[k]]) == c[k + 1])
    && Link(t[c[|c| - 1]]) >= END
  }

  /** The chains of a well-formed table: no cluster occurs twice, in one chain or in two. */
  ghost predicate Files(t: seq<nat>, cs: seq<seq<nat>>) {
    && (forall a :: 0 <= a < |cs| ==> Chain(t, cs[a]))
    && (forall a, i, b, j :: 0 <= a < |cs| && 0 <= b < |cs| && 0 <= i < |cs[a]| && 0 <= j < |cs[b]| ==>
          (cs[a][i] == cs[b][j] ==> a == b && i == j))
  }

  /** n steps along the table, as the loops of FAT32_read and FAT32_write take them. */
  function Walk(t: seq<nat>, c: nat, n: nat): nat {
    if n == 0 then c
    else
      var p := Walk(t, c, n - 1);
      if p < |t| then Link(t[p]) else END
  }

  /** A walk from the head of a chain visits it in order and then meets the end mark. */
  lemma {:induction false} WalkChain(t: seq<nat>, c: seq<nat>, n: nat)
    requires Chain(t, c) && n <= |c|
    ensures n < |c| ==> Walk(t, c[0], n) == c[n]
    ensures n == |c| ==> Walk(t, c[0], n) >= END
  {
    if n > 0 { WalkChain(t, c, n - 1); }
  }

  /** Exactly the last link of a chain is an end mark. */
  lemma EndIsLast(t: seq<nat>, cs: seq<seq<nat>>, a: nat, i: nat)
    requires Files(t, cs) && a < |cs| && i < |cs[a]|
    ensures cs[a][i] < |t| && (Link(t[cs[a][i]]) >= END <==> i == |cs[a]| - 1)
  {
    var c := cs[a];
    assert Chain(t, c);
    if i < |c| - 1 { assert Link(t[c[i]]) == c[i + 1]; }
  }

  /** The head determines the chain. */
  lemma {:induction false} HeadDetermines(t: seq<nat>, c: seq<nat>, d: seq<nat>)
    requires Chain(t, c) && Chain(t, d) && c[0] == d[0]
    ensures c == d
  {
    if |d| < |c| { WalkChain(t, c, |d|); WalkChain(t, d, |d|); }
    if |c| < |d| { WalkChain(t, d, |c|); WalkChain(t, c, |c|); }
    forall k | 0 <= k < |c| ensures |c| == |d| && c[k] == d[k] {
      WalkChain(t, c, k);
      WalkChain(t, d, k);
    }
  }

  /** A free entry is in no chain. */
  lemma FreeIsUnused(t: seq<nat>, cs: seq<seq<nat>>, f: nat, a: nat, i: nat)
    requires Files(t, cs) && f < |t| && Link(t[f]) == 0 && a < |cs| && i < |cs[a]|
    ensures cs[a][i] != f
  {
    var c := cs[a];
    assert Chain(t, c);
    if i < |c| - 1 { assert Link(t[c[i]]) == c[i + 1]; }
  }

  /** The entry of f is set to v. */
  function Put(t: seq<nat>, f: nat, v: nat): (r: seq<nat>)
    requires f < |t|
    ensures |r| == |t|
  {
    t[f := Merge(t[f], v)]
  }

  ghost predicate NibblesKept(t: seq<nat>, u: seq<nat>) {
    |t| == |u| && forall e :: 0 <= e < |t| ==> u[e] / LINK == t[e] / LINK
  }

  lemma PutKeepsNibbles(t: seq<nat>, f: nat, v: nat)
    requires f < |t|
    ensures NibblesKept(t, Put(t, f, v))
  {
    MergeLinks(t[f], v);
  }

  /** A free cluster as a chain of its own. */
  lemma StartsChain(t: seq<nat>, cs: seq<seq<nat>>, f: nat)
    requires Files(t, cs) && 2 <= f < |t| <= END && Link(t[f]) == 0
    ensures Files(Put(t, f, END), cs + [[f]])
  {
    var u, ds := Put(t, f, END), cs + [[f]];
    MergeLinks(t[f], END);
    forall a | 0 <= a < |ds| ensures Chain(u, ds[a]) {
      if a < |cs| {
        assert Chain(t, cs[a]);
        forall i | 0 <= i < |cs[a]| ensures cs[a][i] != f { FreeIsUnused(t, cs, f, a, i); }
      }
    }
    forall a, i, b, j | 0 <= a < |ds| && 0 <= b < |ds| && 0 <= i < |ds[a]| && 0 <= j < |ds[b]| && ds[a][i] == ds[b][j]
      ensures a == b && i == j
    {
      if a < |cs| { FreeIsUnused(t, cs, f, a, i); }
      if b < |cs| { FreeIsUnused(t, cs, f, b, j); }
    }
  }

  /** Two stores append a free cluster to chain a and leave every other chain as it was. */
  function Appended(t: seq<nat>, last: nat, f: nat): seq<nat>
    requires last < |t| && f < |t|
  {
    Put(Put(t, last, f), f, END)
  }

  lemma ChainKept(t: seq<nat>, u: seq<nat>, c: seq<nat>)
    requires Chain(t, c) && |u| == |t| && forall i :: 0 <= i < |c| ==> Link(u[c[i]]) == Link(t[c[i]])
    ensures Chain(u, c)
  {}

  lemma ChainGrown(t: seq<nat>, u: seq<nat>, c: seq<nat>, f: nat)
    requires Chain(t, c) && |u| == |t| && 2 <= f < |u|
    requires forall i :: 0 <= i < |c| - 1 ==> Link(u[c[i]]) == Link(t[c[i]])
    requires Link(u[c[|c| - 1]]) == f && Link(u[f]) == END
    ensures Chain(u, c + [f])
  {}

  lemma AppendsCluster(t: seq<nat>, cs: seq<seq<nat>>, a: nat, f: nat)
    requires Files(t, cs) && 2 <= f < |t| && Link(t[f]) == 0 && a < |cs|
    ensures cs[a] != [] && cs[a][|cs[a]| - 1] < |t|
    ensures Files(Appended(t, cs[a][|cs[a]| - 1], f), cs[a := cs[a] + [f]])
  {
    assert Chain(t, cs[a]);
    var n := |cs[a]|;
    var last := cs[a][n - 1];
    var u, ds := Appended(t, last, f), cs[a := cs[a] + [f]];
    MergeLinks(t[last], f);
    MergeLinks(t[f], END);
    forall b, i | 0 <= b < |cs| && 0 <= i < |cs[b]| ensures cs[b][i] != f {
      FreeIsUnused(t, cs, f, b, i);
    }
    OthersKept(t, cs, a, u, f, ds);
    forall b, i, d, j | 0 <= b < |ds| && 0 <= d < |ds| && 0 <= i < |ds[b]| && 0 <= j < |ds[d]| && ds[b][i] == ds[d][j]
      ensures b == d && i == j
    {
      assert i < |cs[b]| ==> ds[b][i] == cs[b][i];
      assert j < |cs[d]| ==> ds[d][j] == cs[d][j];
    }
  }

  lemma OthersKept(t: seq<nat>, cs: seq<seq<nat>>, a: nat, u: seq<nat>, f: nat, ds: seq<seq<nat>>)
    requires Files(t, cs) && a < |cs| && 2 <= f < |t| && |u| == |t| && Chain(t, cs[a])
    requires forall b, i :: 0 <= b < |cs| && 0 <= i < |cs[b]| ==> cs[b][i] != f
    requires var last := cs[a][|cs[a]| - 1];
      Link(u[last]) == f && Link(u[f]) == END && forall e :: 0 <= e < |t| && e != f && e != last ==> u[e] == t[e]
    requires ds == cs[a := cs[a] + [f]]
    ensures forall b :: 0 <= b < |ds| ==> Chain(u, ds[b])
  {
    var last := cs[a][|cs[a]| - 1];
    forall b | 0 <= b < |cs| ensures Chain(u, ds[b]) {
      assert Chain(t, cs[b]);
      if b == a { ChainGrown(t, u, cs[a], f); } else { ChainKept(t, u, cs[b]); }
    }
  }

  ghost predicate Reserved(t: seq<nat>) { |t| >= 2 && Link(t[0]) != 0 && Link(t[1]) != 0 }

  /** The entries outside a chain c stay, but for f, which was free and no longer is. */
  ghost predicate Changed(t: seq<nat>, u: seq<nat>, c: seq<nat>, f: nat) {
    && |u| == |t| && 2 <= f < |t| && Link(t[f]) == 0 && Link(u[f]) != 0 && Reserved(u)
    && (forall e :: 0 <= e < |t| && e !in c && e != f ==> u[e] == t[e])
    && (forall e :: 0 <= e < |t| && e in c ==> Link(t[e]) != 0 && Link(u[e]) != 0)
  }

  lemma AppendChanges(t: seq<nat>, cs: seq<seq<nat>>, a: nat, f: nat)
    requires Files(t, cs) && Reserved(t) && 0 < f < |t| && Link(t[f]) == 0 && a < |cs|
    ensures cs[a] != [] && cs[a][|cs[a]| - 1] < |t|
    ensures Changed(t, Appended(t, cs[a][|cs[a]| - 1], f), cs[a], f)
  {
    assert Chain(t, cs[a]);
    var last := cs[a][|cs[a]| - 1];
    MergeLinks(t[last], f);
    MergeLinks(t[f], END);
    var u := Appended(t, last, f);
    forall e | 0 <= e < |t| && e in cs[a] ensures Link(t[e]) != 0 && Link(u[e]) != 0 {
      var i :| 0 <= i < |cs[a]| && cs[a][i] == e;
      FreeIsUnused(t, cs, f, a, i);
      if Link(t[e]) == 0 { FreeIsUnused(t, cs, e, a, i); }
    }
  }

  // ---- the number of free entries

  ghost function FreeCount(t: seq<nat>): nat {
    if t == [] then 0 else FreeCount(t[..|t| - 1]) + (if Link(t[|t| - 1]) == 0 then 1 else 0)
  }

  lemma {:induction false} NoneFree(t: seq<nat>)
    ensures FreeCount(t) == 0 <==> forall e :: 0 <= e < |t| ==> Link(t[e]) != 0
  {
    if t != [] {
      var front := t[..|t| - 1];
      NoneFree(front);
      if forall e :: 0 <= e < |front| ==> Link(front[e]) != 0 {
        forall e | 0 <= e < |t| ensures Link(t[e]) != 0 || e == |t| - 1 { assert e < |front| ==> front[e] == t[e]; }
      }
    }
  }

  lemma {:induction false} CountUpdate(t: seq<nat>, e: nat, v: nat)
    requires e < |t|
    ensures FreeCount(t[e := v]) == FreeCount(t) - (if Link(t[e]) == 0 then 1 else 0) + (if Link(v) == 0 then 1 else 0)
  {
    var n := |t| - 1;
    if e < n {
      assert t[e := v][..n] == t[..n][e := v];
      CountUpdate(t[..n], e, v);
    } else {
      assert t[e := v][..n] == t[..n];
    }
  }

  /** An appended cluster is one free entry less. */
  lemma AppendedCount(t: seq<nat>, last: nat, f: nat)
    requires last < |t| && 0 < f < |t| <= END && Link(t[last]) != 0 && Link(t[f]) == 0
    ensures FreeCount(Appended(t, last, f)) == FreeCount(t) - 1
  {
    MergeLinks(t[last], f);
    MergeLinks(t[f], END);
    hide Merge, Link;
    CountUpdate(t, last, Merge(t[last], f));
    CountUpdate(Put(t, last, f), f, Merge(t[f], END));
  }

  lemma AppendedReserved(t: seq<nat>, last: nat, f: nat)
    requires last < |t| && 0 < f < |t| <= END && Link(t[f]) == 0 && Reserved(t)
    ensures Reserved(Appended(t, last, f))
  {
    MergeLinks(t[last], f);
    MergeLinks(t[f], END);
  }

  // ---- the search for a free entry

  /** The first free entry from number `from` on; 0 if there is none. */
  function FirstFree(t: seq<nat>, from: nat): nat
    decreases |t| - from
  {
    if from >= |t| then 0
    else if Link(t[from]) == 0 then from
    else FirstFree(t, from + 1)
  }

  lemma {:induction false} FirstFreeMeans(t: seq<nat>, from: nat)
    ensures var f := FirstFree(t, from);
      && (f == 0 ==> (from == 0 && |t| > 0 && Link(t[0]) == 0) || forall e :: from <= e < |t| ==> Link(t[e]) != 0)
      && (f != 0 ==> from <= f < |t| && Link(t[f]) == 0 && forall e :: from <= e < f ==> Link(t[e]) != 0)
    decreases |t| - from
  {
    if from < |t| && Link(t[from]) != 0 { FirstFreeMeans(t, from + 1); }
  }

  /**
   With the two reserved entries in use, the search finds a cluster of the data area exactly when one
   is free. When none is, it may still answer with an entry past the last cluster, because the table
   fills whole sectors and the search does not know the number of clusters.
   */
  lemma FindsFreeCluster(t: seq<nat>, clusters: nat)
    requires clusters + 2 <= |t| && Reserved(t)
    ensures 2 <= FirstFree(t, 0) < clusters + 2 <==> exists e :: 2 <= e < clusters + 2 && Link(t[e]) == 0
    ensures FirstFree(t, 0) == 0 <==> forall e :: 0 <= e < |t| ==> Link(t[e]) != 0
    ensures FirstFree(t, 0) != 1
  {
    FirstFreeMeans(t, 0);
  }

  /** The table of a full volume of two clusters; the rest of its only sector is zero. */
  function FullVolume(): seq<nat> { [0x0fff_fff8, 0x0fff_ffff, END, END] + seq(124, i => 0) }

  /** On it the search answers with entry 4, for which there is no cluster. */
  lemma TailIsFound()
    ensures Reserved(FullVolume()) && FirstFree(FullVolume(), 0) == 4
  {
    FirstFreeMeans(FullVolume(), 0);
  }
}
