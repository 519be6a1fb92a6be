/**
 The kernel's intrusive doubly linked lists (proj1/src/lib/kernel/list.c), seen as sequences.

 Only the operations whose result depends on an ordering are modelled here; pushing, popping and
 removing are sequence concatenation and slicing.
 */
module Lists {

  datatype Option<+T> = None | Some(value: T)

  ghost predicate Distinct<T>(xs: seq<T>) {
    forall i, j :: 0 <= i < j < |xs| ==> xs[i] != xs[j]
  }

  /** a stands somewhere in front of b. */
  ghost predicate Before<T>(xs: seq<T>, a: T, b: T) {
    exists i, j {:trigger xs[i], xs[j]} :: 0 <= i < j < |xs| && xs[i] == a && xs[j] == b
  }

  function RemoveAt<T>(xs: seq<T>, i: nat): (ys: seq<T>)
    requires i < |xs|
    ensures |ys| == |xs| - 1
    ensures forall k :: 0 <= k < |ys| ==> ys[k] == (if k < i then xs[k] else xs[k + 1])
  {
    xs[..i] + xs[i + 1..]
  }

  /** Taking one element out of a duplicate-free list takes out that element and no other. */
  lemma RemoveDistinct<T>(xs: seq<T>, i: nat)
    requires Distinct(xs) && i < |xs|
    ensures Distinct(RemoveAt(xs, i))
    ensures forall x :: x in RemoveAt(xs, i) <==> x in xs && x != xs[i]
  {
    var ys := RemoveAt(xs, i);
    forall x | x in xs && x != xs[i]
      ensures x in ys
    {
      var k :| 0 <= k < |xs| && xs[k] == x;
      assert x == ys[if k < i then k else k - 1];
    }
  }

  /** `list_remove`, given the element instead of its position. */
  function Without<T(==)>(xs: seq<T>, x: T): seq<T> {
    if xs == [] then [] else if xs[0] == x then xs[1..] else [xs[0]] + Without(xs[1..], x)
  }

  lemma {:induction false} WithoutContents<T>(xs: seq<T>, x: T)
    requires Distinct(xs)
    ensures Distinct(Without(xs, x))
    ensures forall y :: y in Without(xs, x) <==> y in xs && y != x
  {
    if xs != [] {
      assert xs == [xs[0]] + xs[1..];
      assert forall y :: y in xs <==> y == xs[0] || y in xs[1..];
      WithoutContents(xs[1..], x);
      forall k | 0 <= k < |xs| - 1 ensures xs[1..][k] != xs[0] {
        assert xs[k + 1] != xs[0];
      }
      var rest := Without(xs[1..], x);
      assert xs[0] !in xs[1..] && xs[0] !in rest;
      assert Distinct([xs[0]] + rest);
    }
  }

  lemma PushDistinct<T>(x: T, xs: seq<T>)
    requires Distinct(xs) && x !in xs
    ensures Distinct([x] + xs) && Distinct(xs + [x])
  {
  }

  lemma ConcatDistinct<T>(xs: seq<T>, ys: seq<T>)
    requires Distinct(xs) && Distinct(ys) && forall x <- xs :: x !in ys
    ensures Distinct(xs + ys)
  {
    var zs := xs + ys;
    forall i, j | 0 <= i < j < |zs|
      ensures zs[i] != zs[j]
    {
      if i < |xs| && j >= |xs| { assert zs[i] in xs && zs[j] in ys; }
    }
  }

  // ----- list_max -----

  /** The element `list_max` returns: a scan that moves on whenever `less` holds. */
  function MaxIndex(keys: seq<int>, less: (int, int) -> bool): (m: nat)
    requires |keys| > 0
    ensures m < |keys|
  {
    var last := |keys| - 1;
    if last == 0 then 0
    else
      var m := MaxIndex(keys[..last], less);
      if less(keys[m], keys[last]) then last else m
  }

  function PriorityLess(): (int, int) -> bool { (a, b) => a <= b }

  function PriElemLess(): (int, int) -> bool { (a, b) => a < b }

  /** Nothing is larger, and nothing further back is as large. */
  ghost predicate LastLargest(keys: seq<int>, m: int) {
    && 0 <= m < |keys|
    && (forall k :: 0 <= k <= m ==> keys[k] <= keys[m])
    && (forall k :: m < k < |keys| ==> keys[k] < keys[m])
  }

  /** With `priority_less`, which is reflexive, the scan ends on the last of the largest keys. */
  lemma {:induction false} LastOfTheLargest(keys: seq<int>)
    requires |keys| > 0
    ensures LastLargest(keys, MaxIndex(keys, PriorityLess()))
  {
    var last := |keys| - 1;
    if last > 0 {
      LastOfTheLargest(keys[..last]);
      assert forall k :: 0 <= k < last ==> keys[..last][k] == keys[k];
    }
  }

  /** With the strict `pri_elem_less` it ends on the first of them. */
  lemma {:induction false} FirstOfTheLargest(keys: seq<int>)
    requires |keys| > 0
    ensures var m := MaxIndex(keys, PriElemLess());
      && (forall k :: 0 <= k < m ==> keys[k] < keys[m])
      && (forall k :: m <= k < |keys| ==> keys[k] <= keys[m])
  {
    var last := |keys| - 1;
    if last > 0 {
      FirstOfTheLargest(keys[..last]);
      assert forall k :: 0 <= k < last ==> keys[..last][k] == keys[k];
    }
  }

  /** `list_max` itself. */
  method ListMax(keys: seq<int>, less: (int, int) -> bool) returns (m: nat)
    requires |keys| > 0
    ensures m == MaxIndex(keys, less)
  {
    m := 0;
    for e := 1 to |keys|
      invariant m < e && m == MaxIndex(keys[..e], less)
    {
      assert keys[..e + 1][..e] == keys[..e];
      if less(keys[m], keys[e]) {
        m := e;
      }
    }
    assert keys[..|keys|] == keys;
  }
}
