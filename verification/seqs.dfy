/**
 * Sequence operations the solver takes from LINQ: `IndexOf`, and the set-like
 * operators `Distinct`, `Intersect`, `Except` and `Union`, which all keep the
 * first occurrence of each element, in the order of the (first) input.
 */
module Seqs {

  /** Position of the first occurrence of `x` in `xs`, or -1 (`IndexOf`). */
  function FirstIndex<T(==)>(xs: seq<T>, x: T): (i: int)
    ensures -1 <= i < |xs|
    ensures i == -1 <==> x !in xs
    ensures 0 <= i ==> xs[i] == x && x !in xs[..i]
    decreases |xs|
  {
    if xs == [] then -1
    else if xs[0] == x then 0
    else
      var j := FirstIndex(xs[1..], x);
      assert xs[1..][..if j < 0 then 0 else j] == xs[1..if j < 0 then 1 else j + 1];
      if j < 0 then -1 else j + 1
  }

  ghost predicate NoDup<T>(xs: seq<T>)
  {
    forall i, j :: 0 <= i < j < |xs| ==> xs[i] != xs[j]
  }

  /**
   * The elements of `xs` whose membership in `s` equals `keep`, each once, at
   * its first occurrence. `keep == true` is LINQ's `xs.Intersect(s)`,
   * `keep == false` is `xs.Except(s)`, and `SetFilter(xs, {}, false)` is
   * `xs.Distinct()`.
   */
  function SetFilter<T(==,!new)>(xs: seq<T>, s: set<T>, keep: bool): (r: seq<T>)
    ensures forall x :: x in r <==> x in xs && (x in s) == keep
    ensures NoDup(r)
    ensures |r| <= |xs|
    ensures |r| == |xs| ==> r == xs
    decreases |xs|
  {
    if xs == [] then []
    else
      var rest := SetFilter(xs[..|xs| - 1], s, keep);
      var x := xs[|xs| - 1];
      assert xs == xs[..|xs| - 1] + [x];
      if (x in s) == keep && x !in rest then rest + [x] else rest
  }

  /** LINQ `first.Intersect(second)`. */
  function Intersect<T(==,!new)>(first: seq<T>, second: set<T>): seq<T>
  {
    SetFilter(first, second, true)
  }

  /** LINQ `first.Except(second)`. */
  function Except<T(==,!new)>(first: seq<T>, second: set<T>): seq<T>
  {
    SetFilter(first, second, false)
  }

  /** LINQ `first.Union(second)`. */
  function Union<T(==,!new)>(first: seq<T>, second: seq<T>): (r: seq<T>)
    ensures forall x :: x in r <==> x in first || x in second
    ensures NoDup(r)
  {
    SetFilter(first + second, {}, false)
  }

  /** The elements of `xs` other than `x`, in order (LINQ `Where(e => e != x)`). */
  function Without<T(==,!new)>(xs: seq<T>, x: T): (r: seq<T>)
    ensures forall y :: y in r <==> y in xs && y != x
    ensures |r| <= |xs|
    decreases |xs|
  {
    if xs == [] then []
    else
      var rest := Without(xs[1..], x);
      assert forall y :: y in xs <==> y == xs[0] || y in xs[1..];
      if xs[0] == x then rest else [xs[0]] + rest
  }

  /** The integers lo, lo + 1, ..., hi. */
  function Range(lo: int, hi: int): (r: seq<int>)
    ensures |r| == if hi < lo then 0 else hi - lo + 1
    ensures forall x :: x in r <==> lo <= x <= hi
    decreases hi - lo
  {
    if hi < lo then [] else [lo] + Range(lo + 1, hi)
  }

  /** The sum of a sequence of integers (LINQ `Sum`). */
  function Sum(xs: seq<int>): int
    decreases |xs|
  {
    if xs == [] then 0 else Sum(xs[..|xs| - 1]) + xs[|xs| - 1]
  }

  lemma {:induction false} SumNonNegative(xs: seq<int>)
    requires forall i :: 0 <= i < |xs| ==> 0 <= xs[i]
    ensures 0 <= Sum(xs)
    decreases |xs|
  {
    if xs != [] {
      SumNonNegative(xs[..|xs| - 1]);
    }
  }

  /** Pointwise smaller summands give a smaller sum, strictly so if one of them is strictly smaller. */
  lemma {:induction false} SumMono(xs: seq<int>, ys: seq<int>)
    requires |xs| == |ys|
    requires forall i :: 0 <= i < |xs| ==> xs[i] <= ys[i]
    ensures Sum(xs) <= Sum(ys)
    ensures (exists i :: 0 <= i < |xs| && xs[i] < ys[i]) ==> Sum(xs) < Sum(ys)
    decreases |xs|
  {
    if xs != [] {
      var m := |xs| - 1;
      SumMono(xs[..m], ys[..m]);
      if exists i :: 0 <= i < |xs| && xs[i] < ys[i] {
        var i :| 0 <= i < |xs| && xs[i] < ys[i];
        if i < m {
          assert xs[..m][i] < ys[..m][i];
        }
      }
    }
  }

  /** The elements of `r` occur in `xs`, in the same order. */
  ghost predicate InOrderOf<T>(r: seq<T>, xs: seq<T>)
  {
    forall i, j :: 0 <= i < j < |r| ==> FirstIndex(xs, r[i]) < FirstIndex(xs, r[j])
  }

  /** `SetFilter` keeps the order of `xs`: its elements appear at increasing first positions. */
  lemma {:induction false} SetFilterOrdered<T(!new)>(xs: seq<T>, s: set<T>, keep: bool)
    ensures InOrderOf(SetFilter(xs, s, keep), xs)
    decreases |xs|
  {
    if xs != [] {
      var xs' := xs[..|xs| - 1];
      var x := xs[|xs| - 1];
      var rest := SetFilter(xs', s, keep);
      SetFilterOrdered(xs', s, keep);
      assert xs == xs' + [x];
      if (x in s) == keep && x !in rest {
        OrderedExtend(rest, xs', x);
      } else {
        OrderedWeaken(rest, xs', x);
      }
    }
  }

  lemma OrderedExtend<T>(rest: seq<T>, xs: seq<T>, x: T)
    requires InOrderOf(rest, xs)
    requires forall y :: y in rest ==> y in xs
    requires x !in xs
    ensures InOrderOf(rest + [x], xs + [x])
  {
    var r := rest + [x];
    FirstIndexLast(xs, x);
    forall i, j | 0 <= i < j < |r|
      ensures FirstIndex(xs + [x], r[i]) < FirstIndex(xs + [x], r[j])
    {
      assert r[i] == rest[i];
      FirstIndexPrefix(xs, x, r[i]);
      if j < |r| - 1 {
        assert r[j] == rest[j];
        FirstIndexPrefix(xs, x, r[j]);
      }
    }
  }

  lemma OrderedWeaken<T>(rest: seq<T>, xs: seq<T>, x: T)
    requires InOrderOf(rest, xs)
    requires forall y :: y in rest ==> y in xs
    ensures InOrderOf(rest, xs + [x])
  {
    forall i, j | 0 <= i < j < |rest|
      ensures FirstIndex(xs + [x], rest[i]) < FirstIndex(xs + [x], rest[j])
    {
      FirstIndexPrefix(xs, x, rest[i]);
      FirstIndexPrefix(xs, x, rest[j]);
    }
  }

  lemma FirstIndexPrefix<T>(xs: seq<T>, x: T, y: T)
    requires y in xs
    ensures FirstIndex(xs + [x], y) == FirstIndex(xs, y)
  {
    var i := FirstIndex(xs, y);
    assert (xs + [x])[..i] == xs[..i];
    assert (xs + [x])[i] == y;
  }

  lemma FirstIndexLast<T>(xs: seq<T>, x: T)
    requires x !in xs
    ensures FirstIndex(xs + [x], x) == |xs|
  {
    assert (xs + [x])[..|xs|] == xs;
  }

  /** A duplicate-free sequence drawn from `ys` is no longer than `ys`. */
  lemma {:induction false} NoDupSubsetLength<T>(xs: seq<T>, ys: seq<T>)
    requires NoDup(xs)
    requires forall x :: x in xs ==> x in ys
    ensures |xs| <= |ys|
    decreases |ys|
  {
    if xs != [] {
      var x := xs[|xs| - 1];
      var xs' := xs[..|xs| - 1];
      var i := FirstIndex(ys, x);
      var ys' := ys[..i] + ys[i + 1..];
      forall y | y in xs'
        ensures y in ys'
      {
        var j :| 0 <= j < |xs'| && xs'[j] == y;
        assert xs[j] == y;
        assert y != x;
        assert y in ys;
        var m :| 0 <= m < |ys| && ys[m] == y;
        if m < i {
          assert ys'[m] == y;
        } else {
          assert ys'[m - 1] == y;
        }
      }
      NoDupSubsetLength(xs', ys');
    }
  }

  /** Filtering a list without duplicates that loses nothing gives the list back. */
  lemma SetFilterKeepsAll<T(!new)>(xs: seq<T>, s: set<T>, keep: bool)
    requires NoDup(xs) && forall x :: x in xs ==> (x in s) == keep
    ensures SetFilter(xs, s, keep) == xs
  {
    NoDupSubsetLength(xs, SetFilter(xs, s, keep));
  }
}
