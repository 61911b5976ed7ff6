/** The few pandas table operations the scripts rely on, on sequences:
    a boolean-mask filter `df[df[col] > cutoff]`, and the column reductions
    `sum`, `max`, `min` and "first row equal to" (`df[df[col] == v].iloc[0]`). */
module Frames {
  import opened Results

  /** The rows whose key is strictly greater than `cutoff`, in table order. */
  function After<T>(xs: seq<T>, key: T -> real, cutoff: real): (r: seq<T>)
    ensures |r| <= |xs|
  {
    if xs == [] then []
    else After(xs[..|xs| - 1], key, cutoff) + (if key(xs[|xs| - 1]) > cutoff then [xs[|xs| - 1]] else [])
  }

  /** Every kept row is a row of the table past the cutoff, and every such row is kept. */
  lemma {:induction false} AfterMembers<T>(xs: seq<T>, key: T -> real, cutoff: real)
    ensures forall j :: 0 <= j < |After(xs, key, cutoff)| ==>
      After(xs, key, cutoff)[j] in xs && key(After(xs, key, cutoff)[j]) > cutoff
    ensures forall i :: 0 <= i < |xs| && key(xs[i]) > cutoff ==> xs[i] in After(xs, key, cutoff)
  {
    if xs != [] {
      var p := xs[..|xs| - 1];
      AfterMembers(p, key, cutoff);
      assert xs == p + [xs[|xs| - 1]];
      forall i | 0 <= i < |p|
        ensures xs[i] == p[i]
      {
      }
    }
  }

  /** The positions the mask of `After` selects, ascending. */
  function KeptIndices<T>(xs: seq<T>, key: T -> real, cutoff: real): (ks: seq<nat>)
    ensures forall j :: 0 <= j < |ks| ==> ks[j] < |xs|
  {
    if xs == [] then []
    else KeptIndices(xs[..|xs| - 1], key, cutoff) + (if key(xs[|xs| - 1]) > cutoff then [|xs| - 1] else [])
  }

  /** The filter keeps exactly the rows at `KeptIndices`, in their original order. */
  lemma {:induction false} AfterSelectsKept<T>(xs: seq<T>, key: T -> real, cutoff: real)
    ensures |After(xs, key, cutoff)| == |KeptIndices(xs, key, cutoff)|
    ensures forall j :: 0 <= j < |KeptIndices(xs, key, cutoff)| ==>
      After(xs, key, cutoff)[j] == xs[KeptIndices(xs, key, cutoff)[j]]
  {
    if xs != [] {
      var p := xs[..|xs| - 1];
      AfterSelectsKept(p, key, cutoff);
      var r, ks := After(xs, key, cutoff), KeptIndices(xs, key, cutoff);
      forall j | 0 <= j < |KeptIndices(p, key, cutoff)|
        ensures r[j] == xs[ks[j]]
      {
        assert r[j] == After(p, key, cutoff)[j];
        assert ks[j] == KeptIndices(p, key, cutoff)[j];
      }
    }
  }

  /** The kept positions ascend strictly, so no row is taken twice or out of order. */
  lemma {:induction false} KeptIndicesAscend<T>(xs: seq<T>, key: T -> real, cutoff: real)
    ensures forall j, k :: 0 <= j < k < |KeptIndices(xs, key, cutoff)| ==>
      KeptIndices(xs, key, cutoff)[j] < KeptIndices(xs, key, cutoff)[k]
  {
    if xs != [] {
      KeptIndicesAscend(xs[..|xs| - 1], key, cutoff);
    }
  }

  /** A position is kept exactly when its row's key exceeds the cutoff. */
  lemma {:induction false} KeptIndicesExact<T>(xs: seq<T>, key: T -> real, cutoff: real)
    ensures forall i :: 0 <= i < |xs| ==> (i in KeptIndices(xs, key, cutoff) <==> key(xs[i]) > cutoff)
  {
    if xs != [] {
      var n := |xs|;
      var p := xs[..n - 1];
      KeptIndicesExact(p, key, cutoff);
      var kp := KeptIndices(p, key, cutoff);
      assert n - 1 !in kp;
      forall i | 0 <= i < n - 1
        ensures i in KeptIndices(xs, key, cutoff) <==> key(xs[i]) > cutoff
      {
        assert p[i] == xs[i];
      }
    }
  }

  /** Keys that never exceed the cutoff leave nothing. */
  lemma {:induction false} AfterNoneAbove<T>(xs: seq<T>, key: T -> real, cutoff: real)
    requires forall i :: 0 <= i < |xs| ==> key(xs[i]) <= cutoff
    ensures After(xs, key, cutoff) == []
  {
    if xs != [] {
      AfterNoneAbove(xs[..|xs| - 1], key, cutoff);
    }
  }

  /** Keys in non-decreasing order along the table. */
  predicate Sorted<T>(xs: seq<T>, key: T -> real) {
    forall i, j :: 0 <= i < j < |xs| ==> key(xs[i]) <= key(xs[j])
  }

  lemma SortedPrefix<T>(xs: seq<T>, key: T -> real, n: nat)
    requires Sorted(xs, key) && n <= |xs|
    ensures Sorted(xs[..n], key)
  {
    forall i, j | 0 <= i < j < n
      ensures key(xs[..n][i]) <= key(xs[..n][j])
    {
      assert xs[..n][i] == xs[i] && xs[..n][j] == xs[j];
    }
  }

  /** On a table sorted by the key, the filter keeps a contiguous suffix. */
  lemma {:induction false} AfterOfSortedIsSuffix<T>(xs: seq<T>, key: T -> real, cutoff: real)
    requires Sorted(xs, key)
    ensures After(xs, key, cutoff) == xs[|xs| - |After(xs, key, cutoff)|..]
  {
    if xs != [] {
      var n := |xs|;
      if key(xs[n - 1]) > cutoff {
        SortedPrefix(xs, key, n - 1);
        AfterOfSortedIsSuffix(xs[..n - 1], key, cutoff);
        SuffixGrows(xs, key, cutoff);
      } else {
        SortedBelowLast(xs, key, cutoff);
      }
    }
  }

  /** A kept last row extends the kept suffix of the rows before it. */
  lemma SuffixGrows<T>(xs: seq<T>, key: T -> real, cutoff: real)
    requires xs != [] && key(xs[|xs| - 1]) > cutoff
    requires After(xs[..|xs| - 1], key, cutoff) == xs[..|xs| - 1][|xs| - 1 - |After(xs[..|xs| - 1], key, cutoff)|..]
    ensures After(xs, key, cutoff) == xs[|xs| - |After(xs, key, cutoff)|..]
  {
    var n := |xs|;
    var p := xs[..n - 1];
    var m := |p| - |After(p, key, cutoff)|;
    assert After(xs, key, cutoff) == After(p, key, cutoff) + [xs[n - 1]];
    assert p[m..] + [xs[n - 1]] == xs[m..];
  }

  /** A dropped last row of a sorted table means nothing is kept. */
  lemma SortedBelowLast<T>(xs: seq<T>, key: T -> real, cutoff: real)
    requires Sorted(xs, key) && xs != [] && key(xs[|xs| - 1]) <= cutoff
    ensures After(xs, key, cutoff) == []
  {
    var n := |xs|;
    forall i | 0 <= i < n
      ensures key(xs[i]) <= cutoff
    {
      if i < n - 1 {
        assert key(xs[i]) <= key(xs[n - 1]);
      }
    }
    AfterNoneAbove(xs, key, cutoff);
  }

  /** `series.sum()`: zero for an empty column. */
  function Sum(xs: seq<real>): real {
    if xs == [] then 0.0 else Sum(xs[..|xs| - 1]) + xs[|xs| - 1]
  }

  /** `series.max()`; `None` stands for the NaN pandas returns on an empty column. */
  function Max(xs: seq<real>): (m: Option<real>)
    ensures m.Some? <==> xs != []
    ensures m.Some? ==> m.value in xs && forall i :: 0 <= i < |xs| ==> xs[i] <= m.value
  {
    if xs == [] then None
    else
      assert xs == xs[..|xs| - 1] + [xs[|xs| - 1]];
      var rest := Max(xs[..|xs| - 1]);
      if rest.None? || xs[|xs| - 1] > rest.value then Some(xs[|xs| - 1]) else rest
  }

  /** `series.min()`; `None` stands for the NaN pandas returns on an empty column. */
  function Min(xs: seq<real>): (m: Option<real>)
    ensures m.Some? <==> xs != []
    ensures m.Some? ==> m.value in xs && forall i :: 0 <= i < |xs| ==> m.value <= xs[i]
  {
    if xs == [] then None
    else
      assert xs == xs[..|xs| - 1] + [xs[|xs| - 1]];
      var rest := Min(xs[..|xs| - 1]);
      if rest.None? || xs[|xs| - 1] < rest.value then Some(xs[|xs| - 1]) else rest
  }

  /** Position of the first entry equal to `v`. */
  function FirstIndexOf(xs: seq<real>, v: real): (i: nat)
    requires v in xs
    ensures i < |xs| && xs[i] == v
    ensures forall j :: 0 <= j < i ==> xs[j] != v
  {
    if xs[0] == v then 0 else 1 + FirstIndexOf(xs[1..], v)
  }
}
