/**
 Searching a bitmap for a run of equal bits (proj1/src/lib/kernel/bitmap.c), as the page allocator and
 the free map do.
 */
module Bitmaps {
  import opened Lists

  /** Bits i .. i + cnt all have the given value. */
  ghost predicate RunAt(b: seq<bool>, i: int, cnt: nat, value: bool) {
    0 <= i && i + cnt <= |b| && forall k {:trigger b[k]} :: i <= k < i + cnt ==> b[k] == value
  }

  /** `bitmap_set_multiple`. */
  function SetMultiple(b: seq<bool>, start: nat, cnt: nat, value: bool): (r: seq<bool>)
    requires start + cnt <= |b|
    ensures |r| == |b|
    ensures forall k {:trigger r[k]} :: 0 <= k < |b| ==> r[k] == if start <= k < start + cnt then value else b[k]
  {
    b[..start] + seq(cnt, _ => value) + b[start + cnt..]
  }

  /** `bitmap_contains`. */
  method Contains(b: seq<bool>, start: nat, cnt: nat, value: bool) returns (found: bool)
    requires start + cnt <= |b|
    ensures found <==> !RunAt(b, start, cnt, !value)
  {
    for i := 0 to cnt
      invariant RunAt(b, start, i, !value)
    {
      if b[start + i] == value {
        return true;
      }
    }
    return false;
  }

  /** `bitmap_scan`: the first run of cnt such bits at or after `start`, if there is any. */
  method Scan(b: seq<bool>, start: nat, cnt: nat, value: bool) returns (r: Option<nat>)
    requires start <= |b|
    ensures r.Some? ==> start <= r.value && RunAt(b, r.value, cnt, value)
    ensures r.Some? ==> forall i {:trigger RunAt(b, i, cnt, value)} :: start <= i < r.value ==> !RunAt(b, i, cnt, value)
    ensures r.None? ==> forall i {:trigger RunAt(b, i, cnt, value)} :: start <= i ==> !RunAt(b, i, cnt, value)
  {
    if cnt <= |b| {
      var last := |b| - cnt;
      var i := start;
      while i <= last
        invariant start <= i
        invariant forall j {:trigger RunAt(b, j, cnt, value)} :: start <= j < i ==> !RunAt(b, j, cnt, value)
      {
        var c := Contains(b, i, cnt, !value);
        if !c {
          return Some(i);
        }
        i := i + 1;
      }
    }
    return None;
  }

  /** What `bitmap_scan` finds, as a function. */
  ghost function FirstRun(b: seq<bool>, start: nat, cnt: nat, value: bool): (r: Option<nat>)
    ensures r.Some? ==> start <= r.value && RunAt(b, r.value, cnt, value)
    decreases |b| - start
  {
    if start + cnt > |b| then None
    else if RunAt(b, start, cnt, value) then Some(start)
    else if start == |b| then None
    else FirstRun(b, start + 1, cnt, value)
  }

  /** If there is a run at i, the scan stops there or before. */
  lemma {:induction false} FirstRunFinds(b: seq<bool>, start: nat, cnt: nat, value: bool, i: nat)
    requires start <= i && RunAt(b, i, cnt, value)
    ensures FirstRun(b, start, cnt, value).Some? && FirstRun(b, start, cnt, value).value <= i
    decreases |b| - start
  {
    if !RunAt(b, start, cnt, value) { FirstRunFinds(b, start + 1, cnt, value, i); }
  }

  /** The contract of `Scan` determines its result. */
  lemma {:induction false} ScanIsFirstRun(b: seq<bool>, start: nat, cnt: nat, value: bool, r: Option<nat>)
    requires r.Some? ==> start <= r.value && RunAt(b, r.value, cnt, value)
    requires r.Some? ==> forall i {:trigger RunAt(b, i, cnt, value)} :: start <= i < r.value ==>
      !RunAt(b, i, cnt, value)
    requires r.None? ==> forall i {:trigger RunAt(b, i, cnt, value)} :: start <= i ==> !RunAt(b, i, cnt, value)
    ensures FirstRun(b, start, cnt, value) == r
    decreases |b| - start
  {
    if start + cnt <= |b| && start < |b| && !RunAt(b, start, cnt, value) {
      ScanIsFirstRun(b, start + 1, cnt, value, r);
    }
  }
}
