/** Element-wise raster operations the classifier performs with numpy.
    Every raster of the model is flattened in row-major order, which is also
    the order in which numpy's boolean-mask indexing returns pixels. */
module GridOps {

  /** The set of the elements of a sequence (Python's `set(xs)`). */
  function Elems(xs: seq<int>): set<int>
  {
    set x | x in xs
  }

  predicate StrictlyIncreasing(s: seq<int>)
  {
    forall i, j :: 0 <= i < j < |s| ==> s[i] < s[j]
  }

  predicate Distinct(s: seq<int>)
  {
    forall i, j :: 0 <= i < j < |s| ==> s[i] != s[j]
  }

  /** `xs[isin(keys, s)]`: the elements of xs whose key lies in s, in their
      original order; `xs[keys == k]` is `Where(xs, keys, {k})`. */
  function Where<T>(xs: seq<T>, keys: seq<int>, s: set<int>): (r: seq<T>)
    requires |xs| == |keys|
    ensures |r| <= |xs|
    ensures forall x :: x in r ==> exists p :: 0 <= p < |xs| && keys[p] in s && xs[p] == x
    ensures forall p :: 0 <= p < |xs| && keys[p] in s ==> xs[p] in r
  {
    if xs == [] then []
    else
      var rest := Where(xs[1..], keys[1..], s);
      assert forall x :: x in rest ==> exists p :: 0 <= p < |xs| && keys[p] in s && xs[p] == x by {
        forall x | x in rest
          ensures exists p :: 0 <= p < |xs| && keys[p] in s && xs[p] == x
        {
          var q :| 0 <= q < |xs[1..]| && keys[1..][q] in s && xs[1..][q] == x;
          assert keys[q + 1] in s && xs[q + 1] == x;
        }
      }
      assert forall p :: 1 <= p < |xs| && keys[p] in s ==> xs[p] in rest by {
        forall p | 1 <= p < |xs| && keys[p] in s
          ensures xs[p] in rest
        {
          assert keys[1..][p - 1] == keys[p] && xs[1..][p - 1] == xs[p];
        }
      }
      (if keys[0] in s then [xs[0]] else []) + rest
  }

  /** Selecting by the same keys gives selections of the same length. */
  lemma {:induction false} WhereSameLength<T, U>(xs: seq<T>, ys: seq<U>, keys: seq<int>, s: set<int>)
    requires |xs| == |keys| && |ys| == |keys|
    ensures |Where(xs, keys, s)| == |Where(ys, keys, s)|
  {
    if xs != [] {
      WhereSameLength(xs[1..], ys[1..], keys[1..], s);
    }
  }

  /** The m-th selected element and the m-th selected key come from one
      position, whose key lies in s. */
  lemma {:induction false} WhereAligned<T>(xs: seq<T>, keys: seq<int>, s: set<int>, m: nat)
    requires |xs| == |keys| && m < |Where(xs, keys, s)|
    ensures |Where(keys, keys, s)| == |Where(xs, keys, s)|
    ensures exists p :: 0 <= p < |xs| && keys[p] in s && Where(xs, keys, s)[m] == xs[p] && Where(keys, keys, s)[m] == keys[p]
  {
    WhereSameLength(xs, keys, keys, s);
    var wx, wk := Where(xs, keys, s), Where(keys, keys, s);
    var rx, rk := Where(xs[1..], keys[1..], s), Where(keys[1..], keys[1..], s);
    var h := if keys[0] in s then 1 else 0;
    assert wx == (if keys[0] in s then [xs[0]] else []) + rx;
    assert wk == (if keys[0] in s then [keys[0]] else []) + rk;
    if m < h {
      assert wx[m] == xs[0] && wk[m] == keys[0];
    } else {
      WhereAligned(xs[1..], keys[1..], s, m - h);
      var q :| 0 <= q < |xs[1..]| && keys[1..][q] in s && rx[m - h] == xs[1..][q] && rk[m - h] == keys[1..][q];
      assert wx[m] == rx[m - h] == xs[q + 1];
      assert wk[m] == rk[m - h] == keys[q + 1];
      assert keys[q + 1] in s;
    }
  }

  /** Selecting from strictly increasing keys keeps them strictly increasing. */
  lemma {:induction false} WhereAscending(keys: seq<int>, s: set<int>)
    requires StrictlyIncreasing(keys)
    ensures StrictlyIncreasing(Where(keys, keys, s))
  {
    if keys != [] {
      WhereAscending(keys[1..], s);
      var rest := Where(keys[1..], keys[1..], s);
      forall x | x in rest ensures keys[0] < x {
        var q :| 0 <= q < |keys[1..]| && keys[1..][q] == x;
        assert x == keys[q + 1];
      }
      var r := Where(keys, keys, s);
      assert r == (if keys[0] in s then [keys[0]] else []) + rest;
      forall i, j | 0 <= i < j < |r| ensures r[i] < r[j] {
        if keys[0] in s && i == 0 {
          assert r[j] == rest[j - 1] && rest[j - 1] in rest;
        }
      }
    }
  }

  /** Over distinct keys, the selection has exactly one entry per key of s
      that occurs among the keys. */
  lemma {:induction false} WhereCount<T>(xs: seq<T>, keys: seq<int>, s: set<int>)
    requires |xs| == |keys| && Distinct(keys)
    ensures |Where(xs, keys, s)| == |s * Elems(keys)|
  {
    if xs != [] {
      WhereCount(xs[1..], keys[1..], s);
      var tail := Elems(keys[1..]);
      assert Elems(keys) == {keys[0]} + tail;
      forall q | 0 <= q < |keys[1..]| ensures keys[1..][q] != keys[0] {
        assert keys[1..][q] == keys[q + 1];
      }
      assert keys[0] !in tail;
      if keys[0] in s {
        assert s * Elems(keys) == {keys[0]} + s * tail;
      } else {
        assert s * Elems(keys) == s * tail;
      }
    }
  }

  /** np.unique: the distinct values of s in ascending order. */
  function Unique(s: seq<int>): (r: seq<int>)
    ensures StrictlyIncreasing(r)
    ensures forall y :: y in r <==> y in s
  {
    if s == [] then [] else Insert(Unique(s[..|s| - 1]), s[|s| - 1])
  }

  /** Adds x to a strictly increasing sequence, keeping it strictly increasing. */
  function Insert(r: seq<int>, x: int): (t: seq<int>)
    requires StrictlyIncreasing(r)
    ensures StrictlyIncreasing(t)
    ensures forall y :: y in t <==> y in r || y == x
  {
    if r == [] then [x]
    else if x < r[0] then [x] + r
    else if x == r[0] then r
    else
      var rest := Insert(r[1..], x);
      assert forall y :: y in rest ==> r[0] < y;
      assert forall j :: 0 < j < |[r[0]] + rest| ==> ([r[0]] + rest)[j] == rest[j - 1];
      [r[0]] + rest
  }

  /** `a.max()` of a non-empty raster. */
  function Max(s: seq<int>): (m: int)
    requires |s| > 0
    ensures m in s
    ensures forall x :: x in s ==> x <= m
  {
    if |s| == 1 then s[0]
    else
      var rest := Max(s[1..]);
      assert forall x :: x in s ==> x == s[0] || x in s[1..];
      if s[0] < rest then rest else s[0]
  }

  /** `a[a == from] = to`: every pixel holding `from` now holds `to`. */
  method ReplaceValue(a: array<int>, from: int, to: int)
    modifies a
    ensures forall p :: 0 <= p < a.Length ==> a[p] == (if old(a[p]) == from then to else old(a[p]))
  {
    for p := 0 to a.Length
      invariant forall q :: 0 <= q < p ==> a[q] == (if old(a[q]) == from then to else old(a[q]))
      invariant forall q :: p <= q < a.Length ==> a[q] == old(a[q])
    {
      if a[p] == from {
        a[p] := to;
      }
    }
  }

  /** `a[a <= t] = 0` */
  method ClearAtOrBelow(a: array<int>, t: int)
    modifies a
    ensures forall p :: 0 <= p < a.Length ==> a[p] == (if old(a[p]) <= t then 0 else old(a[p]))
  {
    for p := 0 to a.Length
      invariant forall q :: 0 <= q < p ==> a[q] == (if old(a[q]) <= t then 0 else old(a[q]))
      invariant forall q :: p <= q < a.Length ==> a[q] == old(a[q])
    {
      if a[p] <= t {
        a[p] := 0;
      }
    }
  }

  /** `a[a > t] -= t` */
  method SubtractAbove(a: array<int>, t: int)
    modifies a
    ensures forall p :: 0 <= p < a.Length ==> a[p] == (if old(a[p]) > t then old(a[p]) - t else old(a[p]))
  {
    for p := 0 to a.Length
      invariant forall q :: 0 <= q < p ==> a[q] == (if old(a[q]) > t then old(a[q]) - t else old(a[q]))
      invariant forall q :: p <= q < a.Length ==> a[q] == old(a[q])
    {
      if a[p] > t {
        a[p] := a[p] - t;
      }
    }
  }
}
