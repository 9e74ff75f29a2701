/** Helpers shared by the models: Python's `None`-or-value (`Option`,
    declared here so that the tracker and the crawler share one
    definition), the list comprehension with an `if` filter, and the
    slices `xs[:n]`, `xs[n:]`. */
module Seqs {

  datatype Option<T> = None | Some(value: T)

  /** `[x for x in s if p(x)]`, defined from the right end so that a loop
      that appends left to right follows it one element at a time. */
  function Filter<T>(s: seq<T>, p: T -> bool): (r: seq<T>)
    ensures |r| <= |s|
    ensures forall i :: 0 <= i < |r| ==> r[i] in s && p(r[i])
    ensures forall i :: 0 <= i < |s| && p(s[i]) ==> s[i] in r
    decreases |s|
  {
    if s == [] then []
    else
      var init := Filter(s[..|s| - 1], p);
      assert forall i :: 0 <= i < |s| - 1 ==> s[..|s| - 1][i] == s[i];
      if p(s[|s| - 1]) then init + [s[|s| - 1]] else init
  }

  /** The slice `s[:n]` of Python, which never fails when `n` is too large. */
  function Take<T>(s: seq<T>, n: nat): (r: seq<T>)
    ensures |r| == if |s| < n then |s| else n
    ensures r <= s
  {
    if |s| <= n then s else s[..n]
  }

  /** The slice `s[n:]` of Python, empty when `n` is past the end. */
  function Drop<T>(s: seq<T>, n: nat): (r: seq<T>)
    ensures |r| == if |s| < n then 0 else |s| - n
    ensures forall i :: 0 <= i < |r| ==> r[i] == s[n + i]
  {
    if |s| <= n then [] else s[n..]
  }

  /** Filtering a concatenation filters each part. */
  lemma {:induction false} FilterAppend<T>(a: seq<T>, b: seq<T>, p: T -> bool)
    ensures Filter(a + b, p) == Filter(a, p) + Filter(b, p)
    decreases |b|
  {
    if b == [] {
      assert a + b == a;
    } else {
      var b' := b[..|b| - 1];
      assert (a + b)[..|a + b| - 1] == a + b';
      assert (a + b)[|a + b| - 1] == b[|b| - 1];
      FilterAppend(a, b', p);
    }
  }

  /** The positions of `s` whose element passes `p`, in increasing order. */
  function Positions<T>(s: seq<T>, p: T -> bool): (pos: seq<nat>)
    ensures forall i :: 0 <= i < |pos| ==> pos[i] < |s|
    decreases |s|
  {
    if s == [] then []
    else
      var init := Positions(s[..|s| - 1], p);
      assert forall i :: 0 <= i < |init| ==> s[..|s| - 1][init[i]] == s[init[i]];
      if p(s[|s| - 1]) then init + [|s| - 1] else init
  }

  /** `Positions` is strictly increasing and holds every passing position:
      `rank[j]` is where position `j` sits in it. */
  lemma {:induction false} PositionsComplete<T>(s: seq<T>, p: T -> bool) returns (rank: seq<nat>)
    ensures forall i, j :: 0 <= i < j < |Positions(s, p)| ==> Positions(s, p)[i] < Positions(s, p)[j]
    ensures |rank| == |s|
    ensures forall j :: 0 <= j < |s| && p(s[j]) ==> rank[j] < |Positions(s, p)| && Positions(s, p)[rank[j]] == j
    decreases |s|
  {
    if s != [] {
      var init := s[..|s| - 1];
      var pos0 := Positions(init, p);
      var rank0 := PositionsComplete(init, p);
      var pos := Positions(s, p);
      assert pos == if p(s[|s| - 1]) then pos0 + [|s| - 1] else pos0;
      rank := rank0 + [|pos0|];
      forall j | 0 <= j < |s| && p(s[j])
        ensures rank[j] < |pos| && pos[rank[j]] == j
      {
        if j < |init| {
          assert p(init[j]);
          assert rank[j] == rank0[j] && pos[rank0[j]] == pos0[rank0[j]];
        }
      }
    } else {
      rank := [];
    }
  }

  /** The filter reads `s` at `Positions(s, p)`. */
  lemma {:induction false} FilterAtPositions<T>(s: seq<T>, p: T -> bool)
    ensures |Positions(s, p)| == |Filter(s, p)|
    ensures forall i :: 0 <= i < |Filter(s, p)| ==> s[Positions(s, p)[i]] == Filter(s, p)[i]
    decreases |s|
  {
    if s != [] {
      var init := s[..|s| - 1];
      FilterAtPositions(init, p);
      var last := s[|s| - 1];
      var pos0, f0 := Positions(init, p), Filter(init, p);
      assert Filter(s, p) == if p(last) then f0 + [last] else f0;
      assert Positions(s, p) == if p(last) then pos0 + [|s| - 1] else pos0;
      ReadAtSnoc(s, pos0, f0, p(last));
    }
  }

  /** Reading `s` at positions before its last element gives `f0`; adding
      the last position when `b` adds the last element. */
  lemma ReadAtSnoc<T>(s: seq<T>, pos0: seq<nat>, f0: seq<T>, b: bool)
    requires |s| > 0 && |pos0| == |f0|
    requires forall i :: 0 <= i < |pos0| ==> pos0[i] < |s| - 1 && s[..|s| - 1][pos0[i]] == f0[i]
    ensures var pos := if b then pos0 + [|s| - 1] else pos0;
      var f := if b then f0 + [s[|s| - 1]] else f0;
      |pos| == |f| && forall i :: 0 <= i < |f| ==> s[pos[i]] == f[i]
  {
  }

  /** Filtering keeps exactly the passing elements in their original order:
      the result is read off the input at strictly increasing positions
      `pos`, and every position whose element passes is among them, at the
      index `rank` gives for it. */
  lemma FilterIsSubsequence<T>(s: seq<T>, p: T -> bool)
    returns (pos: seq<nat>, rank: seq<nat>)
    ensures |pos| == |Filter(s, p)|
    ensures forall i :: 0 <= i < |pos| ==> pos[i] < |s| && s[pos[i]] == Filter(s, p)[i]
    ensures forall i, j :: 0 <= i < j < |pos| ==> pos[i] < pos[j]
    ensures |rank| == |s|
    ensures forall j :: 0 <= j < |s| && p(s[j]) ==> rank[j] < |pos| && pos[rank[j]] == j
  {
    pos := Positions(s, p);
    rank := PositionsComplete(s, p);
    FilterAtPositions(s, p);
  }

  /** `Filter(s, p)[:n]` is the first `n` elements that satisfy `p`, in
      their original order: strictly increasing positions of `s` witness
      them, and no passing position is skipped before the last of them (all
      passing positions are taken when fewer than `n` pass). */
  lemma TakeFilterInOrder<T>(s: seq<T>, p: T -> bool, n: nat) returns (pos: seq<nat>)
    ensures |pos| == |Take(Filter(s, p), n)|
    ensures forall i :: 0 <= i < |pos| ==> pos[i] < |s| && s[pos[i]] == Take(Filter(s, p), n)[i]
    ensures forall i, j :: 0 <= i < j < |pos| ==> pos[i] < pos[j]
    ensures forall j :: 0 <= j < |s| && p(s[j]) && (|pos| < n || (|pos| > 0 && j < pos[|pos| - 1])) ==> j in pos
  {
    var all, rank := FilterIsSubsequence(s, p);
    var m := |Take(Filter(s, p), n)|;
    assert m < n ==> m == |all|;
    pos := all[..m];
    PrefixKeepsEarly(s, p, all, rank, m, n);
  }

  /** A prefix of length `m` of increasing positions with ranks misses no
      ranked position before its last element, nor any at all when it is
      the whole sequence. */
  lemma PrefixKeepsEarly<T>(s: seq<T>, p: T -> bool, all: seq<nat>, rank: seq<nat>, m: nat, n: nat)
    requires m <= |all| && (m < n ==> m == |all|)
    requires forall i, j :: 0 <= i < j < |all| ==> all[i] < all[j]
    requires |rank| == |s|
    requires forall j :: 0 <= j < |s| && p(s[j]) ==> rank[j] < |all| && all[rank[j]] == j
    ensures forall j :: 0 <= j < |s| && p(s[j]) && (m < n || (m > 0 && j < all[..m][m - 1])) ==> j in all[..m]
  {
    forall j | 0 <= j < |s| && p(s[j]) && (m < n || (m > 0 && j < all[..m][m - 1]))
      ensures j in all[..m]
    {
      var k := rank[j];
      assert k < m;
      assert all[..m][k] == j;
    }
  }

  /** Looking at one more element extends the filter by at most it. */
  lemma FilterSnoc<T>(s: seq<T>, i: nat, p: T -> bool)
    requires i < |s|
    ensures Filter(s[..i + 1], p) == Filter(s[..i], p) + (if p(s[i]) then [s[i]] else [])
  {
    assert s[..i + 1][..i] == s[..i];
  }

  /** Once a prefix has yielded `n` elements, the first `n` of the whole
      filter are those. */
  lemma TakeFilterPrefix<T>(s: seq<T>, i: nat, p: T -> bool, n: nat)
    requires i <= |s| && |Filter(s[..i], p)| == n
    ensures Take(Filter(s, p), n) == Filter(s[..i], p)
  {
    assert s == s[..i] + s[i..];
    FilterAppend(s[..i], s[i..], p);
  }
}
