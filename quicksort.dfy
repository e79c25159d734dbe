/**
 * The in-place quicksort of `data_sampling.py`: the pivot is the first element of the range
 * [start, end), two pointers scan towards each other swapping misplaced elements, and the
 * pivot is finally swapped into the place where the pointers crossed.
 */
module Quicksort {
  import opened Records

  /** `s` and `t` agree everywhere except, perhaps, in [lo, hi). */
  predicate SameOutside<T(==)>(s: seq<T>, t: seq<T>, lo: int, hi: int)
  {
    |s| == |t| && forall k :: 0 <= k < |s| && !(lo <= k < hi) ==> s[k] == t[k]
  }

  /** The multiset of a sequence is that of its part before `lo`, within [lo, hi) and from `hi` on. */
  lemma MultisetInThree<T>(s: seq<T>, lo: int, hi: int)
    requires 0 <= lo <= hi <= |s|
    ensures multiset(s) == multiset(s[..lo]) + multiset(s[lo..hi]) + multiset(s[hi..])
  {
    assert s == s[..lo] + s[lo..hi] + s[hi..];
  }

  /** A permutation of the whole sequence that keeps everything outside [lo, hi) permutes [lo, hi). */
  lemma PermutationInRange<T>(s: seq<T>, t: seq<T>, lo: int, hi: int)
    requires 0 <= lo <= hi <= |s|
    requires SameOutside(s, t, lo, hi) && multiset(s) == multiset(t)
    ensures multiset(s[lo..hi]) == multiset(t[lo..hi])
  {
    MultisetInThree(s, lo, hi);
    MultisetInThree(t, lo, hi);
    assert s[..lo] == t[..lo] && s[hi..] == t[hi..];
    var before, after := multiset(s[..lo]), multiset(s[hi..]);
    var inner, outer := multiset(s[lo..hi]), multiset(t[lo..hi]);
    assert before + inner + after == before + outer + after;
    forall x ensures inner[x] == outer[x] {
      assert (before + inner + after)[x] == (before + outer + after)[x];
    }
  }

  /** Exchanges a[i] and a[j]: the tuple swap the source writes inline. */
  method Swap(a: array<Record>, i: int, j: int)
    requires 0 <= i < a.Length && 0 <= j < a.Length
    modifies a
    ensures a[i] == old(a[j]) && a[j] == old(a[i])
    ensures forall k :: 0 <= k < a.Length && k != i && k != j ==> a[k] == old(a[k])
    ensures multiset(a[..]) == old(multiset(a[..]))
  {
    a[i], a[j] := a[j], a[i];
  }

  /**
   * The first inner scan of the partition: moves `left` up over elements `<=` the pivot
   * and stops at the first greater one or where it passes `right`.
   */
  method SkipAtMost(a: array<Record>, left: int, right: int, pivot: Record) returns (l: int)
    requires 0 <= left <= right + 1 <= a.Length
    ensures left <= l <= right + 1
    ensures forall k :: left <= k < l ==> Le(a[k], pivot)
    ensures l <= right ==> !Le(a[l], pivot) && Le(pivot, a[l])
  {
    l := left;
    while l <= right && Le(a[l], pivot)
      invariant left <= l <= right + 1
      invariant forall k :: left <= k < l ==> Le(a[k], pivot)
    {
      l := l + 1;
    }
    if l <= right {
      LeTotal(a[l], pivot);
    }
  }

  /**
   * The second inner scan: moves `right` down over elements `>=` the pivot and stops at
   * the first smaller one or where it passes `left`.
   */
  method SkipAtLeast(a: array<Record>, left: int, right: int, pivot: Record) returns (r: int)
    requires 0 <= left <= right + 1 <= a.Length
    ensures left - 1 <= r <= right
    ensures forall k :: r < k <= right ==> Le(pivot, a[k])
    ensures left <= r ==> !Le(pivot, a[r]) && Le(a[r], pivot)
  {
    r := right;
    while left <= r && Le(pivot, a[r])
      invariant left - 1 <= r <= right
      invariant forall k :: r < k <= right ==> Le(pivot, a[k])
    {
      r := r - 1;
    }
    if left <= r {
      LeTotal(pivot, a[r]);
    }
  }

  /**
   * One round of the outer loop of the partition: both scans, then, unless the pointers have
   * crossed, the exchange of the two misplaced elements they stopped on.
   */
  method ExchangeRound(a: array<Record>, start: int, end: int, pivot: Record, left: int, right: int)
    returns (l: int, r: int, crossed: bool)
    requires 0 <= start && start + 1 <= left <= right + 1 <= end <= a.Length
    requires forall k :: start + 1 <= k < left ==> Le(a[k], pivot)
    requires forall k :: right < k < end ==> Le(pivot, a[k])
    modifies a
    ensures left <= l <= r + 1 <= right + 1
    ensures crossed <==> l > r
    ensures forall k :: left <= k < l ==> Le(old(a[k]), pivot)
    ensures l <= right ==> !Le(old(a[l]), pivot)
    ensures forall k :: r < k <= right ==> Le(pivot, old(a[k]))
    ensures l <= r ==> !Le(pivot, old(a[r]))
    ensures crossed ==> a[..] == old(a[..])
    ensures !crossed ==> a[l] == old(a[r]) && a[r] == old(a[l])
    ensures !crossed ==> forall k :: 0 <= k < a.Length && k != l && k != r ==> a[k] == old(a[k])
    ensures forall k :: start + 1 <= k < l ==> Le(a[k], pivot)
    ensures forall k :: r < k < end ==> Le(pivot, a[k])
    ensures !crossed ==> Le(a[l], pivot) && Le(pivot, a[r])
    ensures left <= right && Le(old(a[left]), pivot) && Le(pivot, old(a[right])) ==> r - l < right - left
    ensures multiset(a[..]) == old(multiset(a[..]))
    ensures forall k :: 0 <= k < a.Length && !(start < k < end) ==> a[k] == old(a[k])
  {
    l := SkipAtMost(a, left, right, pivot);
    r := SkipAtLeast(a, l, right, pivot);
    crossed := l > r;
    if !crossed {
      Swap(a, l, r);
    }
  }

  /**
   * Rearranges a[start..end) around its first element and returns the pivot's final place:
   * nothing before it is greater, nothing after it is smaller, and only that range changes.
   */
  method Partition(a: array<Record>, start: int, end: int) returns (p: int)
    requires 0 <= start && end <= a.Length && end - start > 1
    modifies a
    ensures start <= p < end
    ensures a[p] == old(a[start])
    ensures forall k :: start <= k < p ==> Le(a[k], a[p])
    ensures forall k :: p < k < end ==> Le(a[p], a[k])
    ensures multiset(a[start..end]) == old(multiset(a[start..end]))
    ensures SameOutside(a[..], old(a[..]), start, end)
  {
    var pivot := a[start];
    var left := start + 1;
    var right := end - 1;
    // After an exchange, both pointers sit on elements the next scans step over: this is what
    // makes the outer loop progress even when a round moves neither pointer before exchanging.
    ghost var swapped := false;
    while true
      invariant start + 1 <= left <= right + 1 <= end
      invariant a[start] == pivot
      invariant forall k :: start + 1 <= k < left ==> Le(a[k], pivot)
      invariant forall k :: right < k < end ==> Le(pivot, a[k])
      invariant multiset(a[..]) == old(multiset(a[..]))
      invariant forall k :: 0 <= k < a.Length && !(start <= k < end) ==> a[k] == old(a[k])
      invariant swapped ==> left <= right && Le(a[left], pivot) && Le(pivot, a[right])
      decreases right - left + (if swapped then 1 else 2)
    {
      var crossed;
      left, right, crossed := ExchangeRound(a, start, end, pivot, left, right);
      if crossed {
        break;
      }
      swapped := true;
    }
    // The pointers have crossed, so `right` is the last position holding an element
    // `<=` the pivot (or `start` itself): the pivot goes there.
    ghost var crossed := a[..];
    Swap(a, start, right);
    PivotPlaced(old(a[..]), crossed, a[..], start, right, end);
    return right;
  }

  /**
   * The proof step of the partition's last swap: `s` is the range once the pointers have
   * crossed at `right`, `t` the range after the pivot at `start` is exchanged with s[right].
   */
  lemma PivotPlaced(s0: seq<Record>, s: seq<Record>, t: seq<Record>, start: int, right: int, end: int)
    requires |s| == |s0| && |t| == |s| && 0 <= start <= right < end <= |s|
    requires s[start] == s0[start]
    requires forall k :: start + 1 <= k <= right ==> Le(s[k], s[start])
    requires forall k :: right < k < end ==> Le(s[start], s[k])
    requires multiset(s) == multiset(s0)
    requires forall k :: 0 <= k < |s| && !(start <= k < end) ==> s[k] == s0[k]
    requires t[start] == s[right] && t[right] == s[start]
    requires forall k :: 0 <= k < |t| && k != start && k != right ==> t[k] == s[k]
    requires multiset(t) == multiset(s)
    ensures t[right] == s0[start]
    ensures forall k :: start <= k < right ==> Le(t[k], t[right])
    ensures forall k :: right < k < end ==> Le(t[right], t[k])
    ensures multiset(t[start..end]) == multiset(s0[start..end])
    ensures SameOutside(t, s0, start, end)
  {
    PermutationInRange(t, s0, start, end);
  }

  /**
   * Sorts a[start..end) in place into the tuple order, leaving the rest of the array alone,
   * and hands back the same array, as the source returns the list it was given.
   */
  method Quicksort(a: array<Record>, start: int, end: int) returns (sorted: array<Record>)
    requires 0 <= start <= end <= a.Length
    modifies a
    ensures sorted == a
    ensures Sorted(a[start..end])
    ensures multiset(a[start..end]) == old(multiset(a[start..end]))
    ensures SameOutside(a[..], old(a[..]), start, end)
    ensures end - start <= 1 ==> a[..] == old(a[..])
    decreases end - start
  {
    if end - start > 1 {
      var pivot := Partition(a, start, end);
      ghost var parted := a[..];
      var ignored := Quicksort(a, start, pivot);
      ghost var leftDone := a[..];
      ignored := Quicksort(a, pivot + 1, end);
      PivotStaysBetween(parted, leftDone, a[..], start, pivot, end);
    }
    return a;
  }

  /**
   * The proof step after the two recursive calls: each half was sorted as a permutation
   * of itself, so the bounds the partition established still hold and the range is sorted.
   */
  lemma PivotStaysBetween(parted: seq<Record>, mid: seq<Record>, done: seq<Record>,
                          start: int, p: int, end: int)
    requires 0 <= start <= p < end <= |parted|
    requires forall k :: start <= k < p ==> Le(parted[k], parted[p])
    requires forall k :: p < k < end ==> Le(parted[p], parted[k])
    requires SameOutside(mid, parted, start, p) && SameOutside(done, mid, p + 1, end)
    requires Sorted(mid[start..p]) && multiset(mid[start..p]) == multiset(parted[start..p])
    requires Sorted(done[p + 1..end]) && multiset(done[p + 1..end]) == multiset(mid[p + 1..end])
    ensures Sorted(done[start..end])
    ensures multiset(done[start..end]) == multiset(parted[start..end])
    ensures SameOutside(done, parted, start, end)
  {
    var pivot := parted[p];
    assert AtMost(parted[start..p], pivot);
    AtMostPermutation(parted[start..p], mid[start..p], pivot);
    assert done[start..p] == mid[start..p];
    assert mid[p + 1..end] == parted[p + 1..end];
    assert AtLeast(parted[p + 1..end], pivot);
    AtLeastPermutation(parted[p + 1..end], done[p + 1..end], pivot);
    assert done[p] == pivot;
    SortedAroundPivot(done[start..p], pivot, done[p + 1..end]);
    assert done[start..end] == done[start..p] + [pivot] + done[p + 1..end];
    assert parted[start..end] == parted[start..p] + [pivot] + parted[p + 1..end];
  }
}
