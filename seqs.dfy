/**
 * The array helpers of JavaScript that the pages rely on (`find`, `findIndex`,
 * `filter`, `indexOf`, `new Set`), as functions over sequences.
 */
module Seqs {
  import opened Wrappers

  /** `b` contains the elements of `a`, in the same order, possibly with others in between. */
  predicate IsSubseq<T(==)>(a: seq<T>, b: seq<T>)
    decreases |b|
  {
    a == [] || (b != [] && ((a[0] == b[0] && IsSubseq(a[1..], b[1..])) || IsSubseq(a, b[1..])))
  }

  /** `findIndex` / `find`: the position of the first element satisfying `p`. */
  function FindFirst<T>(s: seq<T>, p: T -> bool): (r: Option<nat>)
    ensures r.Some? ==> r.value < |s| && p(s[r.value])
    ensures r.Some? ==> forall j :: 0 <= j < r.value ==> !p(s[j])
    ensures r.None? ==> forall j :: 0 <= j < |s| ==> !p(s[j])
  {
    if s == [] then None
    else if p(s[0]) then Some(0)
    else
      match FindFirst(s[1..], p)
      case None => None
      case Some(i) => Some(i + 1)
  }

  /** `indexOf`, with `|s|` standing for "absent". */
  function IndexOf<T(==)>(s: seq<T>, x: T): (k: nat)
    ensures k <= |s|
    ensures k < |s| <==> x in s
    ensures k < |s| ==> s[k] == x
    ensures forall j :: 0 <= j < k ==> s[j] != x
  {
    if s == [] then 0
    else if s[0] == x then 0
    else 1 + IndexOf(s[1..], x)
  }

  /** How many elements satisfy `p`: at most all of them, and none exactly when no element does. */
  function CountOf<T>(s: seq<T>, p: T -> bool): (n: nat)
    ensures n <= |s|
    ensures n == 0 <==> forall k :: 0 <= k < |s| ==> !p(s[k])
  {
    if s == [] then 0 else (if p(s[0]) then 1 else 0) + CountOf(s[1..], p)
  }

  /** Appending one element adds one to the count exactly when it passes. */
  lemma {:induction false} CountOfAppend<T>(a: seq<T>, x: T, p: T -> bool)
    ensures CountOf(a + [x], p) == CountOf(a, p) + (if p(x) then 1 else 0)
  {
    if a != [] {
      assert (a + [x])[1..] == a[1..] + [x];
      CountOfAppend(a[1..], x, p);
    }
  }

  /** `filter`: the elements satisfying `p`, in their original order. */
  function Filter<T(==)>(s: seq<T>, p: T -> bool): (r: seq<T>)
    ensures |r| == CountOf(s, p)
    ensures forall k :: 0 <= k < |r| ==> r[k] in s && p(r[k])
    ensures forall k :: 0 <= k < |s| && p(s[k]) ==> s[k] in r
    ensures IsSubseq(r, s)
  {
    if s == [] then []
    else if p(s[0]) then [s[0]] + Filter(s[1..], p)
    else Filter(s[1..], p)
  }

  /** Replacing one element that fails `p` by one that satisfies it makes `filter` one longer. */
  lemma {:induction false} FilterGrowsByOne<T>(s: seq<T>, p: T -> bool, i: nat, x: T)
    requires i < |s| && !p(s[i]) && p(x)
    ensures |Filter(s[i := x], p)| == |Filter(s, p)| + 1
  {
    if i > 0 {
      assert s[i := x][1..] == s[1..][i - 1 := x];
      FilterGrowsByOne(s[1..], p, i - 1, x);
    } else {
      assert s[i := x][1..] == s[1..];
    }
  }

  /** Two tests that agree on every element of `s` filter it the same way. */
  lemma {:induction false} FilterSameTest<T>(s: seq<T>, p: T -> bool, q: T -> bool)
    requires forall k :: 0 <= k < |s| ==> p(s[k]) == q(s[k])
    ensures Filter(s, p) == Filter(s, q)
  {
    if s != [] {
      FilterSameTest(s[1..], p, q);
    }
  }

  /** A test every element passes keeps the whole sequence. */
  lemma {:induction false} FilterKeepsAll<T>(s: seq<T>, p: T -> bool)
    requires forall k :: 0 <= k < |s| ==> p(s[k])
    ensures Filter(s, p) == s
  {
    if s != [] {
      FilterKeepsAll(s[1..], p);
    }
  }

  /** The facts `Distinct` promises about `r` as the de-duplication of `s`. */
  predicate DistinctOf<T(==)>(r: seq<T>, s: seq<T>)
  {
    && (forall k :: 0 <= k < |r| ==> r[k] in s)
    && (forall k :: 0 <= k < |s| ==> s[k] in r)
    && (forall i, j :: 0 <= i < j < |r| ==> r[i] != r[j])
    && (forall i, j :: 0 <= i < j < |r| ==> IndexOf(s, r[i]) < IndexOf(s, r[j]))
  }

  /** `[...new Set(s)]`: each element once, in order of first appearance. */
  function Distinct<T(==)>(s: seq<T>): (r: seq<T>)
    ensures forall k :: 0 <= k < |r| ==> r[k] in s
    ensures forall k :: 0 <= k < |s| ==> s[k] in r
    ensures forall i, j :: 0 <= i < j < |r| ==> r[i] != r[j]
    ensures forall i, j :: 0 <= i < j < |r| ==> IndexOf(s, r[i]) < IndexOf(s, r[j])
  {
    if s == [] then []
    else
      var init, x := s[..|s| - 1], s[|s| - 1];
      var d := Distinct(init);
      assert s == init + [x];
      DistinctStep(init, x, d);
      if x in d then d else d + [x]
  }

  /** One more element at the back: keep `d` when it already holds `x`, otherwise append `x`. */
  lemma DistinctStep<T>(init: seq<T>, x: T, d: seq<T>)
    requires DistinctOf(d, init)
    ensures DistinctOf(if x in d then d else d + [x], init + [x])
  {
    IndexOfExtend(init, x);
    KeptFirstPositions(init, x, d);
    if x in d {
      DistinctKeep(init, x, d);
    } else {
      assert x !in init;
      DistinctAppend(init, x, d);
    }
  }

  /** An element already in `d` appended at the back of `init` leaves `d` its de-duplication. */
  lemma DistinctKeep<T>(init: seq<T>, x: T, d: seq<T>)
    requires DistinctOf(d, init) && x in d
    requires forall k :: 0 <= k < |d| ==> IndexOf(init + [x], d[k]) == IndexOf(init, d[k]) < |init|
    ensures DistinctOf(d, init + [x])
  {
    var s := init + [x];
    forall k | 0 <= k < |s| ensures s[k] in d {
      if k < |init| {
        assert s[k] == init[k];
      }
    }
    forall k | 0 <= k < |d| ensures d[k] in s {
      assert d[k] in init;
    }
    SameOrder(d, (y: T) => IndexOf(s, y), (y: T) => IndexOf(init, y));
  }

  /** Ranks that agree on every element of `d` order it the same way. */
  lemma SameOrder<T>(d: seq<T>, f: T -> int, g: T -> int)
    requires forall i, j :: 0 <= i < j < |d| ==> g(d[i]) < g(d[j])
    requires forall k :: 0 <= k < |d| ==> f(d[k]) == g(d[k])
    ensures forall i, j :: 0 <= i < j < |d| ==> f(d[i]) < f(d[j])
  {
  }

  /** The elements of `d` keep their first positions when `x` goes at the back of `init`. */
  lemma KeptFirstPositions<T>(init: seq<T>, x: T, d: seq<T>)
    requires forall k :: 0 <= k < |d| ==> d[k] in init
    requires forall k :: 0 <= k < |init| ==> IndexOf(init + [x], init[k]) == IndexOf(init, init[k])
    ensures forall k :: 0 <= k < |d| ==> IndexOf(init + [x], d[k]) == IndexOf(init, d[k]) < |init|
  {
    forall k | 0 <= k < |d| ensures IndexOf(init + [x], d[k]) == IndexOf(init, d[k]) < |init| {
      var i := IndexOf(init, d[k]);
      assert init[i] == d[k];
    }
  }

  /** A new element appended at the back of both keeps `d` the de-duplication of `init`. */
  lemma DistinctAppend<T>(init: seq<T>, x: T, d: seq<T>)
    requires DistinctOf(d, init) && x !in d
    requires forall k :: 0 <= k < |d| ==> IndexOf(init + [x], d[k]) == IndexOf(init, d[k]) < |init|
    requires x !in init ==> IndexOf(init + [x], x) == |init|
    ensures DistinctOf(d + [x], init + [x])
  {
    var s := init + [x];
    AppendOrder(d, x, (y: T) => IndexOf(s, y), (y: T) => IndexOf(init, y), |init|);
    AppendCovers(init, x, d);
    AppendFresh(d, x);
    forall k | 0 <= k < |d| + 1 ensures (d + [x])[k] in init + [x] {
      if k < |d| {
        assert (d + [x])[k] == d[k];
      }
    }
  }

  /** Ranks increasing along `d` stay increasing when `x`, ranked above all of them, is appended. */
  lemma AppendOrder<T>(d: seq<T>, x: T, f: T -> int, g: T -> int, bound: int)
    requires forall i, j :: 0 <= i < j < |d| ==> g(d[i]) < g(d[j])
    requires forall k :: 0 <= k < |d| ==> f(d[k]) == g(d[k]) < bound
    requires f(x) == bound
    ensures forall i, j :: 0 <= i < j < |d + [x]| ==> f((d + [x])[i]) < f((d + [x])[j])
  {
    var r := d + [x];
    forall i, j | 0 <= i < j < |r| ensures f(r[i]) < f(r[j]) {
      assert r[i] == d[i];
      if j < |d| {
        assert r[j] == d[j];
      }
    }
  }

  lemma AppendCovers<T>(init: seq<T>, x: T, d: seq<T>)
    requires forall k :: 0 <= k < |init| ==> init[k] in d
    ensures forall k :: 0 <= k < |init + [x]| ==> (init + [x])[k] in d + [x]
  {
    forall k | 0 <= k < |init + [x]| ensures (init + [x])[k] in d + [x] {
      if k < |init| {
        assert (init + [x])[k] == init[k];
      } else {
        assert (d + [x])[|d|] == x;
      }
    }
  }

  lemma AppendFresh<T>(d: seq<T>, x: T)
    requires forall i, j :: 0 <= i < j < |d| ==> d[i] != d[j]
    requires x !in d
    ensures forall i, j :: 0 <= i < j < |d + [x]| ==> (d + [x])[i] != (d + [x])[j]
  {
  }

  /** Appending at the back does not move the first occurrence of what was already there. */
  lemma {:induction false} IndexOfExtend<T>(s: seq<T>, x: T)
    ensures forall k :: 0 <= k < |s| ==> IndexOf(s + [x], s[k]) == IndexOf(s, s[k])
    ensures x !in s ==> IndexOf(s + [x], x) == |s|
  {
    if s != [] {
      assert (s + [x])[1..] == s[1..] + [x];
      IndexOfExtend(s[1..], x);
    }
  }
}
