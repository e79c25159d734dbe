/**
 * The record model: a measurement is a time stamp plus its parameter values, and records are
 * compared the way Python compares the tuples `(timestamp, params)` that hold them.
 */
module Records {

  /** A point in time with microsecond resolution, as a count of microseconds. */
  type Timestamp = int

  /** One measurement: when it was taken and its parameter values, in column order. */
  datatype Record = Record(stamp: Timestamp, values: seq<real>)

  /**
   * Python's `<=` on tuples of numbers: the first position where the two differ decides,
   * and when one is a prefix of the other the shorter one is the smaller.
   */
  predicate ValuesLe(a: seq<real>, b: seq<real>)
  {
    ValuesLeFrom(a, b, 0)
  }

  /** The comparison of `a` and `b` from position `i` on, the positions before being equal. */
  predicate ValuesLeFrom(a: seq<real>, b: seq<real>, i: nat)
    decreases |a| - i
  {
    if |a| <= i then true
    else if |b| <= i then false
    else if a[i] != b[i] then a[i] < b[i]
    else ValuesLeFrom(a, b, i + 1)
  }

  /**
   * Python's `<=` on `(timestamp, params)`: time stamps first, parameter tuples on a tie,
   * where a tuple that is a prefix of the other is the smaller.
   */
  function Le(x: Record, y: Record): (r: bool)
    ensures x.stamp != y.stamp ==> (r <==> x.stamp < y.stamp)
    ensures x.stamp == y.stamp && x.values <= y.values ==> r
    ensures x.stamp == y.stamp && y.values < x.values ==> !r
  {
    ValuesLePrefix(x.values, y.values, 0);
    ValuesLeProperPrefix(x.values, y.values, 0);
    x.stamp < y.stamp || (x.stamp == y.stamp && ValuesLe(x.values, y.values))
  }

  /** When `a` is a prefix of `b`, `a` compares `<=` from any position on. */
  lemma {:induction false} ValuesLePrefix(a: seq<real>, b: seq<real>, i: nat)
    ensures a <= b ==> ValuesLeFrom(a, b, i)
    decreases |a| - i
  {
    if a <= b && i < |a| {
      assert a[i] == b[i];
      ValuesLePrefix(a, b, i + 1);
    }
  }

  /** When `b` is a proper prefix of `a`, `a` is not `<=` `b` from any position inside `a`. */
  lemma {:induction false} ValuesLeProperPrefix(a: seq<real>, b: seq<real>, i: nat)
    ensures b < a && i < |a| ==> !ValuesLeFrom(a, b, i)
    decreases |a| - i
  {
    if b < a && i < |b| {
      assert a[i] == b[i];
      ValuesLeProperPrefix(a, b, i + 1);
    }
  }

  /** Non-decreasing in the tuple order, for every pair of positions. */
  predicate Sorted(s: seq<Record>)
  {
    forall i, j :: 0 <= i < j < |s| ==> Le(s[i], s[j])
  }

  /** A list of positions, each later one strictly greater. */
  predicate StrictlyIncreasing(s: seq<nat>)
  {
    forall j, k :: 0 <= j < k < |s| ==> s[j] < s[k]
  }

  /** Every element of `s` is `<=` the pivot. */
  predicate AtMost(s: seq<Record>, pivot: Record)
  {
    forall k :: 0 <= k < |s| ==> Le(s[k], pivot)
  }

  /** Every element of `s` is `>=` the pivot. */
  predicate AtLeast(s: seq<Record>, pivot: Record)
  {
    forall k :: 0 <= k < |s| ==> Le(pivot, s[k])
  }

  lemma {:induction false} ValuesLeReflexive(a: seq<real>, i: nat)
    ensures ValuesLeFrom(a, a, i)
    decreases |a| - i
  {
    if i < |a| {
      ValuesLeReflexive(a, i + 1);
    }
  }

  lemma {:induction false} ValuesLeTotal(a: seq<real>, b: seq<real>, i: nat)
    ensures ValuesLeFrom(a, b, i) || ValuesLeFrom(b, a, i)
    decreases |a| - i
  {
    if i < |a| && i < |b| && a[i] == b[i] {
      ValuesLeTotal(a, b, i + 1);
    }
  }

  lemma {:induction false} ValuesLeTransitive(a: seq<real>, b: seq<real>, c: seq<real>, i: nat)
    requires ValuesLeFrom(a, b, i) && ValuesLeFrom(b, c, i)
    ensures ValuesLeFrom(a, c, i)
    decreases |a| - i
  {
    if i < |a| && i < |b| && i < |c| && a[i] == b[i] && b[i] == c[i] {
      ValuesLeTransitive(a, b, c, i + 1);
    }
  }

  /** Two tuples each `<=` the other agree from position `i` on. */
  lemma {:induction false} ValuesLeAntisymmetric(a: seq<real>, b: seq<real>, i: nat)
    requires i <= |a| && i <= |b|
    requires ValuesLeFrom(a, b, i) && ValuesLeFrom(b, a, i)
    ensures a[i..] == b[i..]
    decreases |a| - i
  {
    if i < |a| && i < |b| {
      ValuesLeAntisymmetric(a, b, i + 1);
      assert a[i..] == [a[i]] + a[i + 1..] && b[i..] == [b[i]] + b[i + 1..];
    }
  }

  /** The tuple order is total: any two records compare one way or the other. */
  lemma LeTotal(x: Record, y: Record)
    ensures Le(x, y) || Le(y, x)
  {
    ValuesLeTotal(x.values, y.values, 0);
  }

  lemma LeReflexive(x: Record)
    ensures Le(x, x)
  {
    ValuesLeReflexive(x.values, 0);
  }

  lemma LeTransitive(x: Record, y: Record, z: Record)
    requires Le(x, y) && Le(y, z)
    ensures Le(x, z)
  {
    if x.stamp == y.stamp == z.stamp {
      ValuesLeTransitive(x.values, y.values, z.values, 0);
    }
  }

  /** Ties are broken by the parameters, so only identical records compare equal both ways. */
  lemma LeAntisymmetric(x: Record, y: Record)
    requires Le(x, y) && Le(y, x)
    ensures x == y
  {
    ValuesLeAntisymmetric(x.values, y.values, 0);
    assert x.values == x.values[0..] && y.values == y.values[0..];
  }

  /** A bound on every element is a bound on every permutation of them. */
  lemma AtMostPermutation(s: seq<Record>, t: seq<Record>, pivot: Record)
    requires multiset(s) == multiset(t) && AtMost(s, pivot)
    ensures AtMost(t, pivot)
  {
    forall k | 0 <= k < |t| ensures Le(t[k], pivot) {
      assert t[k] in multiset(s);
    }
  }

  lemma AtLeastPermutation(s: seq<Record>, t: seq<Record>, pivot: Record)
    requires multiset(s) == multiset(t) && AtLeast(s, pivot)
    ensures AtLeast(t, pivot)
  {
    forall k | 0 <= k < |t| ensures Le(pivot, t[k]) {
      assert t[k] in multiset(s);
    }
  }

  /** Two sorted runs separated by a pivot they respect form one sorted run. */
  lemma SortedAroundPivot(left: seq<Record>, pivot: Record, right: seq<Record>)
    requires Sorted(left) && Sorted(right)
    requires AtMost(left, pivot) && AtLeast(right, pivot)
    ensures Sorted(left + [pivot] + right)
  {
    var s := left + [pivot] + right;
    forall i, j | 0 <= i < j < |s| ensures Le(s[i], s[j]) {
      if i < |left| && j > |left| {
        LeTransitive(s[i], pivot, s[j]);
      }
    }
  }
}
