/** The Python `list` operations the handlers use, on sequences. */
module PyList {

  /** Position of the first occurrence of `x` (Python's `list.index`). */
  function IndexOf<T(==)>(s: seq<T>, x: T): (k: nat)
    requires x in s
    ensures k < |s| && s[k] == x && x !in s[..k]
  {
    if s[0] == x then 0
    else
      var k' := IndexOf(s[1..], x);
      assert s[..k' + 1] == [s[0]] + s[1..][..k'];
      k' + 1
  }

  /** Python's `list.remove(x)`: the first element equal to `x` is dropped. */
  function RemoveFirst<T(==)>(s: seq<T>, x: T): (r: seq<T>)
    requires x in s
    ensures |r| == |s| - 1
    ensures multiset(r) == multiset(s) - multiset{x}
    ensures r == s[..IndexOf(s, x)] + s[IndexOf(s, x) + 1..]
  {
    var k := IndexOf(s, x);
    assert s == s[..k] + [s[k]] + s[k + 1..];
    s[..k] + s[k + 1..]
  }

  /** The elements of `s` satisfying `p`, in their order in `s`. */
  function Filter<T(!new)>(s: seq<T>, p: T -> bool): (r: seq<T>)
    ensures |r| <= |s|
    ensures forall x :: x in r <==> x in s && p(x)
    decreases |s|
  {
    if s == [] then []
    else
      var r' := Filter(s[..|s| - 1], p);
      assert forall x :: x in s <==> x in s[..|s| - 1] || x == s[|s| - 1];
      r' + (if p(s[|s| - 1]) then [s[|s| - 1]] else [])
  }

  lemma {:induction false} FilterConcat<T(!new)>(a: seq<T>, b: seq<T>, p: T -> bool)
    ensures Filter(a + b, p) == Filter(a, p) + Filter(b, p)
    decreases |b|
  {
    if b == [] {
      assert a + b == a;
    } else {
      var b' := b[..|b| - 1];
      assert (a + b)[..|a + b| - 1] == a + b';
      FilterConcat(a, b', p);
    }
  }

  lemma FilterSnoc<T(!new)>(s: seq<T>, x: T, p: T -> bool)
    ensures Filter(s + [x], p) == Filter(s, p) + (if p(x) then [x] else [])
  {
    assert (s + [x])[..|s|] == s;
  }

  /** The first occurrence is the one position holding `x` with no `x` before it. */
  lemma IndexOfUnique<T>(s: seq<T>, x: T, k: nat)
    requires k < |s| && s[k] == x && x !in s[..k]
    ensures IndexOf(s, x) == k
  {
    var j := IndexOf(s, x);
    assert forall i :: 0 <= i < k ==> s[i] != x by {
      forall i | 0 <= i < k ensures s[i] != x { assert s[..k][i] == s[i]; }
    }
    assert forall i :: 0 <= i < j ==> s[i] != x by {
      forall i | 0 <= i < j ensures s[i] != x { assert s[..j][i] == s[i]; }
    }
  }

  lemma FilterAround<T(!new)>(before: seq<T>, x: T, after: seq<T>, p: T -> bool)
    ensures Filter(before + [x] + after, p) == Filter(before, p) + (if p(x) then [x] else []) + Filter(after, p)
  {
    FilterConcat(before + [x], after, p);
    FilterSnoc(before, x, p);
  }

  /** Filtering after `remove(x)` is `remove(x)` after filtering, when `x` passes. */
  lemma FilterRemoveFirst<T(!new)>(s: seq<T>, x: T, p: T -> bool)
    requires x in s
    ensures p(x) ==> x in Filter(s, p) && Filter(RemoveFirst(s, x), p) == RemoveFirst(Filter(s, p), x)
    ensures !p(x) ==> Filter(RemoveFirst(s, x), p) == Filter(s, p)
  {
    var k := IndexOf(s, x);
    var before, after := s[..k], s[k + 1..];
    assert s == before + [x] + after;
    if p(x) {
      FilterRemovePassing(before, x, after, p);
    } else {
      FilterAround(before, x, after, p);
      FilterConcat(before, after, p);
    }
  }

  lemma FilterRemovePassing<T(!new)>(before: seq<T>, x: T, after: seq<T>, p: T -> bool)
    requires x !in before && p(x)
    ensures x in Filter(before + [x] + after, p)
    ensures Filter(before + after, p) == RemoveFirst(Filter(before + [x] + after, p), x)
  {
    FilterAround(before, x, after, p);
    FilterConcat(before, after, p);
    var fb, fa := Filter(before, p), Filter(after, p);
    assert x !in fb;
    RemoveFirstAround(fb, x, fa);
  }

  /** `remove(x)` drops the `x` that no earlier `x` precedes. */
  lemma RemoveFirstAround<T>(before: seq<T>, x: T, after: seq<T>)
    requires x !in before
    ensures RemoveFirst(before + [x] + after, x) == before + after
  {
    var s := before + [x] + after;
    assert s[..|before|] == before;
    IndexOfUnique(s, x, |before|);
    assert s[|before| + 1..] == after;
  }

  /** A filter every element passes keeps the whole sequence. */
  lemma {:induction false} FilterKeepsAll<T(!new)>(s: seq<T>, p: T -> bool)
    requires forall i :: 0 <= i < |s| ==> p(s[i])
    ensures Filter(s, p) == s
    decreases |s|
  {
    if s != [] {
      var n := |s| - 1;
      var init := s[..n];
      forall i | 0 <= i < |init|
        ensures p(init[i])
      {
        assert init[i] == s[i];
      }
      assert s == init + [s[n]];
      assert p(s[n]);
      calc {
        Filter(s, p);
        == { FilterSnoc(init, s[n], p); }
        Filter(init, p) + [s[n]];
        == { FilterKeepsAll(init, p); }
        init + [s[n]];
      }
    }
  }

  predicate Distinct<T(==)>(s: seq<T>) {
    forall i, j :: 0 <= i < j < |s| ==> s[i] != s[j]
  }
}
