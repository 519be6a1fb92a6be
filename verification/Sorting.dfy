/**
 `sort` and `binary_search` (proj1/src/lib/stdlib.c): heapsort in place and bisection, for any
 comparison function that orders the elements.
 */
module Sorting {
  import opened Lists

  type Compare<!T> = (T, T) -> int

  /** strcmp()-type results of a total preorder. */
  ghost predicate Orders<T(!new)>(cmp: Compare<T>) {
    && (forall x, y :: cmp(x, y) < 0 <==> cmp(y, x) > 0)
    && (forall x, y, z :: cmp(x, y) <= 0 && cmp(y, z) <= 0 ==> cmp(x, z) <= 0)
  }

  ghost predicate Sorted<T>(s: seq<T>, cmp: Compare<T>) {
    forall i, j :: 0 <= i < j < |s| ==> cmp(s[i], s[j]) <= 0
  }

  // ----- permutations of a prefix -----

  /** The first n elements are rearranged, the others are where they were. */
  ghost predicate Rearranged<T>(s: seq<T>, s': seq<T>, n: nat) {
    && n <= |s| == |s'|
    && multiset(s'[..n]) == multiset(s[..n])
    && s'[n..] == s[n..]
  }

  function Swapped<T>(s: seq<T>, i: nat, j: nat): seq<T>
    requires i < |s| && j < |s|
  {
    s[i := s[j]][j := s[i]]
  }

  lemma SwapRearranges<T>(s: seq<T>, n: nat, i: nat, j: nat)
    requires i < n <= |s| && j < n
    ensures Rearranged(s, Swapped(s, i, j), n)
  {
    var p, t := s[..n], Swapped(s, i, j);
    assert t[..n] == p[i := p[j]][j := p[i]];
    assert t[n..] == s[n..];
  }

  lemma RearrangeTrans<T>(s: seq<T>, t: seq<T>, u: seq<T>, n: nat)
    requires Rearranged(s, t, n) && Rearranged(t, u, n)
    ensures Rearranged(s, u, n)
  {
  }

  lemma RearrangeWhole<T>(s: seq<T>, s': seq<T>, n: nat)
    requires Rearranged(s, s', n)
    ensures multiset(s') == multiset(s)
  {
    assert s == s[..n] + s[n..] && s' == s'[..n] + s'[n..];
  }

  /** Whatever bounds every element of the prefix still does after a rearrangement. */
  lemma RearrangeBound<T>(s: seq<T>, s': seq<T>, n: nat, cmp: Compare<T>, b: T)
    requires Rearranged(s, s', n) && forall k :: 0 <= k < n ==> cmp(s[k], b) <= 0
    ensures forall k :: 0 <= k < n ==> cmp(s'[k], b) <= 0
  {
    forall k | 0 <= k < n
      ensures cmp(s'[k], b) <= 0
    {
      assert s'[..n][k] in multiset(s'[..n]);
      assert s'[k] in s[..n];
    }
  }

  // ----- heaps, indexed from 1 -----

  /** Node k is no larger than its parent. */
  ghost predicate Below<T>(s: seq<T>, k: nat, cmp: Compare<T>)
    requires 2 <= k <= |s|
  {
    cmp(s[k - 1], s[k / 2 - 1]) <= 0
  }

  /** Below node `from` and up to node cnt, every node is no larger than its parent. */
  ghost predicate HeapFrom<T>(s: seq<T>, from: nat, cnt: nat, cmp: Compare<T>) {
    && 1 <= from && cnt <= |s|
    && forall k {:trigger Below(s, k, cmp)} :: 2 <= k <= cnt && k / 2 >= from ==> Below(s, k, cmp)
  }

  lemma {:induction false} RootIsLargest<T(!new)>(s: seq<T>, cnt: nat, cmp: Compare<T>, k: nat)
    requires Orders(cmp) && HeapFrom(s, 1, cnt, cmp) && 1 <= k <= cnt
    ensures cmp(s[k - 1], s[0]) <= 0
    decreases k
  {
    if k == 1 {
      assert cmp(s[0], s[0]) <= 0;
    } else {
      RootIsLargest(s, cnt, cmp, k / 2);
      assert Below(s, k, cmp);
    }
  }

  ghost predicate ChildrenAtMost<T>(s: seq<T>, h: nat, cnt: nat, cmp: Compare<T>, b: T) {
    && 1 <= h && cnt <= |s|
    && (2 * h <= cnt ==> cmp(s[2 * h - 1], b) <= 0)
    && (2 * h + 1 <= cnt ==> cmp(s[2 * h], b) <= 0)
  }

  /** The state of the sift: a heap, except that node h may be smaller than its children; its children
      are no larger than h's own parent. */
  ghost predicate Sifting<T>(s: seq<T>, from: nat, h: nat, cnt: nat, cmp: Compare<T>) {
    && 1 <= from <= h && cnt <= |s|
    && (forall k {:trigger Below(s, k, cmp)} :: 2 <= k <= cnt && k / 2 >= from && k / 2 != h ==> Below(s, k, cmp))
    && (h / 2 >= from && h <= cnt ==> ChildrenAtMost(s, h, cnt, cmp, s[h / 2 - 1]))
  }

  /** Swapping h with its larger child m moves the flaw down to m. */
  lemma SiftStep<T>(s: seq<T>, from: nat, h: nat, m: nat, cnt: nat, cmp: Compare<T>)
    requires Sifting(s, from, h, cnt, cmp) && m / 2 == h && h < m <= cnt
    requires cmp(s[h - 1], s[m - 1]) <= 0
    requires ChildrenAtMost(s, h, cnt, cmp, s[m - 1])
    ensures Sifting(Swapped(s, h - 1, m - 1), from, m, cnt, cmp)
  {
    var t := Swapped(s, h - 1, m - 1);
    forall k | 2 <= k <= cnt && k / 2 >= from && k / 2 != m
      ensures Below(t, k, cmp)
    {
      if k / 2 != h { assert Below(s, k, cmp); }
    }
    if 2 * m <= cnt { assert Below(s, 2 * m, cmp); }
    if 2 * m + 1 <= cnt { assert Below(s, 2 * m + 1, cmp); }
  }

  /** When h is no smaller than its children the heap is complete. */
  lemma SiftEnds<T>(s: seq<T>, from: nat, h: nat, cnt: nat, cmp: Compare<T>)
    requires Sifting(s, from, h, cnt, cmp)
    requires h <= cnt && ChildrenAtMost(s, h, cnt, cmp, s[h - 1])
    ensures HeapFrom(s, from, cnt, cmp)
  {
    forall k | 2 <= k <= cnt && k / 2 >= from
      ensures Below(s, k, cmp)
    {
      if k / 2 == h { assert k == 2 * h || k == 2 * h + 1; }
    }
  }

  /** `do_swap`. */
  method DoSwap<T>(a: array<T>, i: nat, j: nat)
    requires 1 <= i <= a.Length && 1 <= j <= a.Length
    modifies a
    ensures a[..] == Swapped(old(a[..]), i - 1, j - 1)
  {
    var t := a[i - 1];
    a[i - 1] := a[j - 1];
    a[j - 1] := t;
  }

  /** The larger of node i and its children. */
  method LargestOf<T(!new)>(a: array<T>, i: nat, cnt: nat, cmp: Compare<T>) returns (max: nat)
    requires Orders(cmp) && 1 <= i <= cnt <= a.Length
    ensures max == i || (max / 2 == i && max <= cnt && cmp(a[i - 1], a[max - 1]) <= 0)
    ensures ChildrenAtMost(a[..], i, cnt, cmp, a[max - 1])
  {
    var left, right := 2 * i, 2 * i + 1;
    max := i;
    if left <= cnt && cmp(a[left - 1], a[max - 1]) > 0 {
      max := left;
    }
    if right <= cnt && cmp(a[right - 1], a[max - 1]) > 0 {
      max := right;
    }
    assert left <= cnt ==> cmp(a[left - 1], a[left - 1]) <= 0;
  }

  /** `heapify`: floats the element at i down until the heap from i on is restored. */
  method Heapify<T(!new)>(a: array<T>, i0: nat, cnt: nat, cmp: Compare<T>)
    requires Orders(cmp) && 1 <= i0 <= cnt <= a.Length
    requires HeapFrom(a[..], i0 + 1, cnt, cmp)
    modifies a
    ensures HeapFrom(a[..], i0, cnt, cmp)
    ensures Rearranged(old(a[..]), a[..], cnt)
  {
    var i := i0;
    while true
      invariant i0 <= i <= cnt
      invariant Sifting(a[..], i0, i, cnt, cmp)
      invariant Rearranged(old(a[..]), a[..], cnt)
      decreases cnt - i
    {
      var max := SiftTurn(a, i0, i, cnt, cmp, old(a[..]));
      if max == i {
        break;
      }
      i := max;
    }
  }

  /** One turn of the loop in `heapify`. */
  method SiftTurn<T(!new)>(a: array<T>, ghost i0: nat, i: nat, cnt: nat, cmp: Compare<T>, ghost before: seq<T>)
    returns (max: nat)
    requires Orders(cmp) && 1 <= i0 <= i <= cnt <= a.Length
    requires Sifting(a[..], i0, i, cnt, cmp) && Rearranged(before, a[..], cnt)
    modifies a
    ensures Rearranged(before, a[..], cnt)
    ensures if max == i then HeapFrom(a[..], i0, cnt, cmp) else i < max <= cnt && Sifting(a[..], i0, max, cnt, cmp)
  {
    max := LargestOf(a, i, cnt, cmp);
    ghost var s := a[..];
    if max == i {
      SiftEnds(s, i0, i, cnt, cmp);
      return;
    }
    SiftStep(s, i0, i, max, cnt, cmp);
    SwapRearranges(s, cnt, i - 1, max - 1);
    DoSwap(a, i, max);
    RearrangeTrans(before, s, a[..], cnt);
  }

  /** After phase two has placed the elements from index n on: they are sorted, and no element before
      them is larger than any of them. */
  ghost predicate TailSorted<T>(s: seq<T>, n: nat, cmp: Compare<T>) {
    && n <= |s|
    && (forall i, j :: n <= i < j < |s| ==> cmp(s[i], s[j]) <= 0)
    && (forall i, j :: 0 <= i < n <= j < |s| ==> cmp(s[i], s[j]) <= 0)
  }

  /** Moving the root of the heap behind it extends the sorted tail. */
  lemma TailGrows<T(!new)>(s: seq<T>, n: nat, cmp: Compare<T>)
    requires Orders(cmp) && 2 <= n <= |s| && HeapFrom(s, 1, n, cmp) && TailSorted(s, n, cmp)
    ensures var t := Swapped(s, 0, n - 1);
      TailSorted(t, n - 1, cmp) && HeapFrom(t, 2, n - 1, cmp)
  {
    forall i | 0 <= i < n
      ensures cmp(s[i], s[0]) <= 0
    {
      RootIsLargest(s, n, cmp, i + 1);
    }
    TailExtended(s, n, cmp);
    forall k | 2 <= k <= n - 1 && k / 2 >= 2
      ensures Below(Swapped(s, 0, n - 1), k, cmp)
    {
      assert Below(s, k, cmp);
    }
  }

  lemma TailExtended<T>(s: seq<T>, n: nat, cmp: Compare<T>)
    requires 2 <= n <= |s| && TailSorted(s, n, cmp)
    requires forall i :: 0 <= i < n ==> cmp(s[i], s[0]) <= 0
    ensures TailSorted(Swapped(s, 0, n - 1), n - 1, cmp)
  {
  }

  lemma TailKept<T(!new)>(s: seq<T>, s': seq<T>, n: nat, cmp: Compare<T>)
    requires Rearranged(s, s', n) && TailSorted(s, n, cmp)
    ensures TailSorted(s', n, cmp)
  {
    assert forall j :: n <= j < |s| ==> s'[j] == s'[n..][j - n] == s[n..][j - n] == s[j];
    forall j | n <= j < |s|
      ensures forall i :: 0 <= i < n ==> cmp(s'[i], s'[j]) <= 0
    {
      RearrangeBound(s, s', n, cmp, s[j]);
    }
  }

  /** `sort`: the array is rearranged into order. */
  method Sort<T(!new)>(a: array<T>, cmp: Compare<T>)
    requires Orders(cmp)
    modifies a
    ensures Sorted(a[..], cmp)
    ensures multiset(a[..]) == multiset(old(a[..]))
  {
    BuildHeap(a, cmp);
    var i: nat := a.Length;
    while i > 1
      invariant i <= a.Length
      invariant i >= 1 ==> HeapFrom(a[..], 1, i, cmp)
      invariant TailSorted(a[..], i, cmp)
      invariant multiset(a[..]) == multiset(old(a[..]))
      decreases i
    {
      PlaceLargest(a, i, cmp);
      i := i - 1;
    }
  }

  /** The first loop of `sort`. */
  method BuildHeap<T(!new)>(a: array<T>, cmp: Compare<T>)
    requires Orders(cmp)
    modifies a
    ensures HeapFrom(a[..], 1, a.Length, cmp)
    ensures multiset(a[..]) == multiset(old(a[..]))
  {
    var cnt := a.Length;
    var i: nat := cnt / 2;
    while i > 0
      invariant i <= cnt / 2
      invariant HeapFrom(a[..], i + 1, cnt, cmp)
      invariant multiset(a[..]) == multiset(old(a[..]))
      decreases i
    {
      ghost var s := a[..];
      Heapify(a, i, cnt, cmp);
      RearrangeWhole(s, a[..], cnt);
      i := i - 1;
    }
  }

  /** One turn of the second loop of `sort`. */
  method PlaceLargest<T(!new)>(a: array<T>, i: nat, cmp: Compare<T>)
    requires Orders(cmp) && 2 <= i <= a.Length
    requires HeapFrom(a[..], 1, i, cmp) && TailSorted(a[..], i, cmp)
    modifies a
    ensures HeapFrom(a[..], 1, i - 1, cmp) && TailSorted(a[..], i - 1, cmp)
    ensures multiset(a[..]) == multiset(old(a[..]))
  {
    ghost var s := a[..];
    TailGrows(s, i, cmp);
    SwapRearranges(s, i, 0, i - 1);
    DoSwap(a, 1, i);
    ghost var t := a[..];
    RearrangeWhole(s, t, i);
    Heapify(a, 1, i - 1, cmp);
    TailKept(t, a[..], i - 1, cmp);
    RearrangeWhole(t, a[..], i - 1);
  }

  // ----- bisection -----

  /** `binary_search`: finds a match if there is one; `middle` is an element index. */
  method BinarySearch<T(!new)>(key: T, a: array<T>, cmp: Compare<T>) returns (r: Option<nat>)
    requires Orders(cmp) && Sorted(a[..], cmp)
    ensures r.Some? ==> r.value < a.Length && cmp(key, a[r.value]) == 0
    ensures r.None? <==> forall k :: 0 <= k < a.Length ==> cmp(key, a[k]) != 0
  {
    var first, last := 0, a.Length;
    while first < last
      invariant 0 <= first <= last <= a.Length
      invariant forall k :: 0 <= k < first ==> cmp(key, a[k]) > 0
      invariant forall k :: last <= k < a.Length ==> cmp(key, a[k]) < 0
    {
      var range := last - first;
      var middle := first + range / 2;
      var c := cmp(key, a[middle]);
      if c < 0 {
        forall k | middle <= k < a.Length ensures cmp(key, a[k]) < 0 {
          NotAbove(key, a[..], cmp, middle, k);
        }
        last := middle;
      } else if c > 0 {
        forall k | 0 <= k <= middle ensures cmp(key, a[k]) > 0 {
          NotBelow(key, a[..], cmp, k, middle);
        }
        first := middle + 1;
      } else {
        return Some(middle);
      }
    }
    r := None;
  }

  lemma NotAbove<T(!new)>(key: T, s: seq<T>, cmp: Compare<T>, m: nat, k: nat)
    requires Orders(cmp) && Sorted(s, cmp) && m <= k < |s| && cmp(key, s[m]) < 0
    ensures cmp(key, s[k]) < 0
  {
    var x, y := s[m], s[k];
    assert m == k || cmp(x, y) <= 0;
    assert cmp(y, key) <= 0 ==> cmp(x, key) <= 0;
  }

  lemma NotBelow<T(!new)>(key: T, s: seq<T>, cmp: Compare<T>, k: nat, m: nat)
    requires Orders(cmp) && Sorted(s, cmp) && k <= m < |s| && cmp(key, s[m]) > 0
    ensures cmp(key, s[k]) > 0
  {
    var x, y := s[k], s[m];
    assert m == k || cmp(x, y) <= 0;
    assert cmp(key, x) <= 0 ==> cmp(key, y) <= 0;
  }
}
