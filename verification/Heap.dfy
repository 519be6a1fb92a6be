/**
 `malloc`, `free` and `realloc` as they run (proj1/src/threads/malloc.c) on top of the page allocator
 (proj1/src/threads/palloc.c).
 */
module Heaps {
  import opened Lists
  import opened Bitmaps
  import opened Bytes
  import opened Malloc
  import opened Words
  import Arithmetic

  /** Every live block keeps its size. */
  ghost predicate SizesKept(m: Mem, m': Mem) {
    forall a: nat {:trigger IsLive(m, a)} :: IsLive(m, a) && IsLive(m', a) ==> SizeOf(m', a) == SizeOf(m, a)
  }

  /** d is the descriptor of the smallest blocks that hold `size` bytes, or DESC_CNT if none does. */
  ghost predicate SmallestFit(d: nat, size: nat) {
    && d <= DESC_CNT
    && (d < DESC_CNT ==> size <= BlockSize(d))
    && forall e :: 0 <= e < d ==> BlockSize(e) < size
  }

  /** Pages for a big block, computed in 32-bit unsigned arithmetic. */
  function PageCnt(size: U32): nat {
    ((size + 12) % 0x1_0000_0000 + 4095) % 0x1_0000_0000 / 4096
  }

  /** The sum wraps for the last few sizes, and then the pages do not hold the request. */
  lemma PageCntHolds(size: U32)
    requires PageCnt(size) >= 1
    ensures size <= 4096 * PageCnt(size) - 12 <==> size <= 0xFFFF_FFF4
  {
  }

  /** The size of the block that `malloc` makes for a request, d being the descriptor that serves it. */
  function GotSize(size: U32, d: nat): int
    requires d <= DESC_CNT
  {
    if d < DESC_CNT then BlockSize(d) else 4096 * PageCnt(size) - 12
  }

  /** What `realloc` copies stays inside the new block exactly if the size is not one of the last 11 or the old
      block is no bigger than the one page that those get. */
  lemma CopyInsideIff(newSize: U32, d: nat, oldSize: nat)
    requires newSize > 0 && SmallestFit(d, newSize) && (d == DESC_CNT ==> PageCnt(newSize) >= 1)
    ensures Min(newSize, oldSize) <= GotSize(newSize, d) <==> newSize <= 0xFFFF_FFF4 || oldSize <= 4084
  {
    BlockSizes();
    if d == DESC_CNT { PageCntHolds(newSize); }
  }

  /** A block of two pages grown to the largest size: 8180 bytes are copied into a block of 4084. */
  lemma CopyOverrun(d: nat)
    requires SmallestFit(d, 0xFFFF_FFFF)
    ensures d == DESC_CNT && PageCnt(0xFFFF_FFFF) == 1 && GotSize(0xFFFF_FFFF, d) == 4084
    ensures Min(0xFFFF_FFFF, 4096 * 2 - 12) == 8180 > GotSize(0xFFFF_FFFF, d)
  {
    BlockSizes();
  }

  /** When `malloc` finds no memory. */
  ghost predicate OutOfMemory(m: Mem, size: U32, d: nat)
    requires d <= DESC_CNT && |m.free| == DESC_CNT
  {
    if d < DESC_CNT then m.free[d] == [] && NoRun(m.used, 1)
    else PageCnt(size) == 0 || NoRun(m.used, PageCnt(size))
  }

  ghost predicate NoRun(b: seq<bool>, n: nat) {
    forall i {:trigger RunAt(b, i, n, false)} :: 0 <= i ==> !RunAt(b, i, n, false)
  }

  /** The pages were free and are allocated; no other page is affected. */
  ghost predicate Taken(used: seq<bool>, used': seq<bool>, at: int, n: nat) {
    RunAt(used, at, n, false) && used' == SetMultiple(used, at, n, true)
  }

  /** No page in use has gone back. */
  ghost predicate StillUsed(used: seq<bool>, used': seq<bool>) {
    |used'| == |used| && forall k {:trigger used'[k]} :: 0 <= k < |used| && used[k] ==> used'[k]
  }

  /** The pages were allocated and are so no longer; no other page is affected. */
  ghost predicate Returned(used: seq<bool>, used': seq<bool>, at: int, n: nat) {
    RunAt(used, at, n, true) && used' == SetMultiple(used, at, n, false)
  }

  class Heap {
    const base: nat
    const sizes: seq<nat>
    var used: seq<bool>
    var arenas: map<nat, Arena>
    var free: seq<seq<nat>>
    var bytes: seq<byte>

    ghost function State(): Mem
      reads this
    {
      Mem(base, used, arenas, free)
    }

    ghost predicate Valid()
      reads this
    {
      && Sound(State())
      && |sizes| == DESC_CNT && (forall d :: 0 <= d < DESC_CNT ==> sizes[d] == BlockSize(d))
      && |bytes| == (base + |used|) * 4096
    }

    /** `malloc_init` over a pool of n pages. */
    constructor (base: nat, n: nat)
      requires base > 0
      ensures Valid() && Inv(State()) && used == seq(n, _ => false) && arenas == map[]
    {
      BlockSizes();
      assert BlockSize(7) == 2048;
      var descs, blockSize := [], 16;
      while blockSize < 4096 / 2
        invariant |descs| <= DESC_CNT && blockSize == BlockSize(|descs|)
        invariant forall d :: 0 <= d < |descs| ==> descs[d] == BlockSize(d)
        decreases 4096 - blockSize
      {
        descs := descs + [blockSize];
        blockSize := blockSize * 2;
      }
      assert |descs| == 7;
      this.base, sizes := base, descs;
      used, arenas := seq(n, _ => false), map[];
      free := seq(DESC_CNT, _ => []);
      bytes := seq((base + n) * 4096, _ => 0);
    }

    // ----- pages -----

    /** `palloc_get_multiple` from this pool: the first run of free pages, by page number. */
    method PallocGetMultiple(pageCnt: nat) returns (r: Option<nat>)
      modifies this`used
      ensures r.None? <==> pageCnt == 0 || NoRun(old(used), pageCnt)
      ensures r.None? ==> used == old(used)
      ensures r.Some? ==> base <= r.value && Taken(old(used), used, r.value - base, pageCnt)
      ensures r.Some? ==> forall i {:trigger RunAt(old(used), i, pageCnt, false)} :: 0 <= i < r.value - base ==>
        !RunAt(old(used), i, pageCnt, false)
      ensures StillUsed(old(used), used)
    {
      if pageCnt == 0 {
        return None;
      }
      var idx := Scan(used, 0, pageCnt, false);
      if idx.None? {
        return None;
      }
      used := SetMultiple(used, idx.value, pageCnt, true);
      return Some(base + idx.value);
    }

    /** `palloc_free_multiple`: the pages are free again and no other page changes, so it undoes the
        allocation that took just these. */
    method PallocFreeMultiple(page: nat, pageCnt: nat)
      requires base <= page && RunAt(used, page - base, pageCnt, true)
      modifies this`used
      ensures Returned(old(used), used, page - base, pageCnt)
      ensures RunAt(used, page - base, pageCnt, false) && |used| == |old(used)|
      ensures forall k {:trigger used[k]} :: 0 <= k < |used| && !(page <= base + k < page + pageCnt) ==>
        used[k] == old(used)[k]
      ensures forall before {:trigger Taken(before, old(used), page - base, pageCnt)} ::
        Taken(before, old(used), page - base, pageCnt) ==> used == before
    {
      used := SetMultiple(used, page - base, pageCnt, false);
    }

    // ----- malloc -----

    /** The search for a descriptor at the start of `malloc`. */
    method FindDesc(size: nat) returns (d: nat)
      requires Valid()
      ensures SmallestFit(d, size)
    {
      d := 0;
      while d < |sizes|
        invariant d <= DESC_CNT && forall e :: 0 <= e < d ==> BlockSize(e) < size
      {
        if sizes[d] >= size {
          break;
        }
        d := d + 1;
      }
    }

    /** Filling an empty free list from a new arena. */
    method AddArena(d: nat) returns (ok: bool)
      requires Valid() && Inv(State()) && d < DESC_CNT && free[d] == []
      modifies this`used, this`arenas, this`free
      ensures Valid() && LiveSame(old(State()), State()) && SizesKept(old(State()), State())
      ensures StillUsed(old(used), used) && Others(State()) == old(Others(State()))
      ensures ok <==> !NoRun(old(used), 1)
      ensures !ok ==> State() == old(State())
      ensures ok ==> free[d] != [] && OnlyIdle(State(), free[d][0] / 4096)
    {
      ghost var m := State();
      var page := PallocGetMultiple(1);
      if page.None? {
        return false;
      }
      FreshPages(m, page.value - base, 1);
      ghost var m1 := State();
      NewArenaSound(m1, page.value, d);
      NotAnArena(m1, page.value);
      arenas := arenas[page.value := Arena(Some(d), BlocksPerArena(d))];
      var i, list := 0, free[d];
      while i < BlocksPerArena(d)
        invariant i <= BlocksPerArena(d) && list == Blocks(page.value, d, i)
      {
        list := list + [Addr(page.value, d, i)];
        i := i + 1;
      }
      assert m1.free[d] + list == list;
      free := free[d := list];
      assert State() == NewArena(m1, page.value, d);
      ArenaAdded(m, State(), page.value - base, 1);
      AtLeastThree(d);
      AddrInPage(page.value, d, 0);
      ok := true;
    }

    /** `malloc` for a size that a descriptor serves. */
    method MallocSmall(d: nat) returns (r: nat)
      requires Valid() && Inv(State()) && d < DESC_CNT
      modifies this`used, this`arenas, this`free
      ensures Valid() && Inv(State()) && SizesKept(old(State()), State())
      ensures StillUsed(old(used), used) && Others(State()) == old(Others(State()))
      ensures r == 0 <==> old(free)[d] == [] && NoRun(old(used), 1)
      ensures r == 0 ==> State() == old(State())
      ensures r != 0 ==> LivePlus(old(State()), State(), r) && IsLive(State(), r) && SizeOf(State(), r) == BlockSize(d)
    {
      ghost var m := State();
      if free[d] == [] {
        var ok := AddArena(d);
        if !ok {
          return 0;
        }
      }
      ghost var m1 := State();
      PopKeeps(m1, d);
      r := free[d][0];
      free := free[d := free[d][1..]];
      var page := r / 4096;
      arenas := arenas[page := arenas[page].(freeCnt := arenas[page].freeCnt - 1)];
      assert State() == Pop(m1, d);
      PlusAfterSame(m, m1, State(), r);
    }

    /** `malloc` for a size beyond every descriptor. */
    method MallocBig(size: U32) returns (r: nat)
      requires Valid() && Inv(State())
      modifies this`used, this`arenas
      ensures Valid() && Inv(State()) && SizesKept(old(State()), State())
      ensures StillUsed(old(used), used) && Others(State()) == old(Others(State()))
      ensures r == 0 <==> PageCnt(size) == 0 || NoRun(old(used), PageCnt(size))
      ensures r == 0 ==> State() == old(State())
      ensures r != 0 ==> BigGot(old(State()), State(), r, PageCnt(size))
    {
      ghost var m := State();
      var pageCnt := PageCnt(size);
      var page := PallocGetMultiple(pageCnt);
      if page.None? {
        return 0;
      }
      BigAt(m, page.value, pageCnt);
      arenas := arenas[page.value := Arena(None, pageCnt)];
      r := page.value * 4096 + 12;
      assert State() == NewBig(Take(m, page.value - base, pageCnt), page.value, pageCnt);
    }

    /** `malloc`: null only for size 0 or when no memory is left, and then nothing changes; otherwise one
        more live block, of at least the requested size unless that is one of the last 11 sizes. */
    method Malloc(size: U32) returns (r: nat)
      requires Valid() && Inv(State())
      modifies this`used, this`arenas, this`free
      ensures Valid() && Inv(State()) && SizesKept(old(State()), State())
      ensures r == 0 ==> State() == old(State())
      ensures forall d :: SmallestFit(d, size) ==> (r == 0 <==> size == 0 || OutOfMemory(old(State()), size, d))
      ensures r != 0 ==> LivePlus(old(State()), State(), r) && IsLive(State(), r)
      ensures r != 0 ==> (size <= SizeOf(State(), r) <==> size <= 0xFFFF_FFF4)
      ensures forall d :: SmallestFit(d, size) && r != 0 ==> SizeOf(State(), r) == GotSize(size, d)
      ensures StillUsed(old(used), used) && Others(State()) == old(Others(State()))
    {
      if size == 0 {
        return 0;
      }
      var d := FindDesc(size);
      FitUnique(d, size);
      if d == |sizes| {
        r := MallocBig(size);
        if r != 0 { PageCntHolds(size); }
      } else {
        r := MallocSmall(d);
        BlockSizes();
      }
    }

    // ----- free -----

    /** `list_remove` on a block of this arena. */
    method ListRemove(list: seq<nat>, a: nat) returns (r: seq<nat>)
      requires Distinct(list) && a in list
      ensures Distinct(r) && forall x {:trigger x in r} :: x in r <==> x in list && x != a
    {
      var i: nat :| i < |list| && list[i] == a;
      RemoveDistinct(list, i);
      r := RemoveAt(list, i);
    }

    /** The loop of `free` that takes every block of a wholly free arena off its list. */
    method ListWithout(page: nat, d: nat) returns (list: seq<nat>)
      requires Valid() && page in arenas && arenas[page] == Arena(Some(d), BlocksPerArena(d)) && d < DESC_CNT
      ensures Distinct(list)
      ensures forall a: nat {:trigger a in list} :: a in list <==> a in free[d] && a / 4096 != page
    {
      assert FreeListOk(State(), d);
      var i := 0;
      list := free[d];
      while i < BlocksPerArena(d)
        invariant i <= BlocksPerArena(d) && Remaining(free[d], list, page, d, i)
      {
        BlockRemains(State(), list, page, d, i);
        ghost var before := list;
        list := ListRemove(list, Addr(page, d, i));
        OneFewer(State(), before, list, page, d, i);
        i := i + 1;
      }
      NoneRemain(State(), list, page, d);
    }

    /** The wholly free arena disappears and its page returns to the pool. */
    method DropArena(page: nat, d: nat)
      requires Valid() && page in arenas && arenas[page] == Arena(Some(d), BlocksPerArena(d)) && d < DESC_CNT
      requires OnlyIdle(State(), page)
      modifies this`used, this`arenas, this`free
      ensures Valid() && Inv(State()) && LiveSame(old(State()), State()) && SizesKept(old(State()), State())
      ensures page !in arenas && Returned(old(used), used, page - base, 1)
      ensures Others(State()) == old(Others(State()))
    {
      ghost var m := State();
      assert ArenaOk(m, page);
      var list := ListWithout(page, d);
      free := free[d := list];
      arenas := arenas - {page};
      PallocFreeMultiple(page, 1);
      DropKeeps(m, State(), page, d);
    }

    /** `free`: takes the block out of the live ones; the page goes back exactly when that was the last
        live block in it, and a big block's pages always do. */
    method Free(p: nat)
      requires Valid() && Inv(State()) && (p == 0 || IsLive(State(), p))
      modifies this`used, this`arenas, this`free
      ensures Valid() && Inv(State()) && SizesKept(old(State()), State())
      ensures p == 0 ==> State() == old(State())
      ensures p != 0 ==> LivePlus(State(), old(State()), p)
      ensures p != 0 ==> var ar := old(arenas)[p / 4096];
        if ar.desc.None? || ar.freeCnt + 1 == BlocksPerArena(ar.desc.value)
        then Returned(old(used), used, p / 4096 - base, Pages(ar)) else used == old(used)
      ensures Others(State()) == old(Others(State()))
    {
      if p == 0 {
        return;
      }
      var a := arenas[p / 4096];
      if a.desc.Some? {
        FreeSmall(p, a.desc.value);
      } else {
        ghost var m := State();
        BigInside(m, p / 4096);
        PallocFreeMultiple(p / 4096, a.freeCnt);
        arenas := arenas - {p / 4096};
        DropBig(m, State(), p);
      }
    }

    method FreeSmall(p: nat, d: nat)
      requires Valid() && Inv(State()) && IsLive(State(), p) && arenas[p / 4096].desc == Some(d)
      modifies this`used, this`arenas, this`free
      ensures Valid() && Inv(State()) && SizesKept(old(State()), State())
      ensures LivePlus(State(), old(State()), p)
      ensures if old(arenas)[p / 4096].freeCnt + 1 == BlocksPerArena(d)
              then Returned(old(used), used, p / 4096 - base, 1) else used == old(used)
      ensures Others(State()) == old(Others(State()))
    {
      ghost var m := State();
      var page := p / 4096;
      PushKeeps(m, p, d);
      free := free[d := [p] + free[d]];
      arenas := arenas[page := arenas[page].(freeCnt := arenas[page].freeCnt + 1)];
      ghost var m1 := State();
      assert m1 == PushBack(m, p, d);
      SamePages(m, m1, page);
      if arenas[page].freeCnt >= BlocksPerArena(d) {
        DropArena(page, d);
        MinusThenSame(m, m1, State(), p);
      }
    }

    // ----- realloc -----

    /** `memcpy` between two blocks. */
    method MemCpy(dst: nat, src: nat, n: nat)
      requires dst + n <= |bytes| && src + n <= |bytes|
      modifies this`bytes
      ensures Copied(old(bytes), bytes, dst, src, n)
    {
      ghost var before := bytes;
      bytes := bytes[..dst] + bytes[src..src + n] + bytes[dst + n..];
      forall i | 0 <= i < |bytes|
        ensures bytes[i] == if dst <= i < dst + n then before[src + i - dst] else before[i]
      {
      }
    }

    /** `realloc`: on success the new block starts with the old contents, as far as both sizes go, the old
        block is gone, and no other live block has lost a byte; on failure nothing has happened.  For one of the
        last 11 sizes the new block has one page, so the old contents must fit that (CopyInsideIff). */
    method Realloc(oldBlock: nat, newSize: U32) returns (r: nat)
      requires Valid() && Inv(State()) && (oldBlock == 0 || IsLive(State(), oldBlock))
      requires newSize <= 0xFFFF_FFF4 || oldBlock == 0 || SizeOf(State(), oldBlock) <= 4084
      modifies this`used, this`arenas, this`free, this`bytes
      ensures Valid() && Inv(State()) && SizesKept(old(State()), State())
      ensures newSize == 0 ==> r == 0 && bytes == old(bytes) && Replaced(old(State()), State(), oldBlock, 0)
      ensures newSize > 0 && r == 0 ==> State() == old(State()) && bytes == old(bytes)
      ensures r != 0 ==> Replaced(old(State()), State(), oldBlock, r)
      ensures r != 0 ==> (newSize <= SizeOf(State(), r) <==> newSize <= 0xFFFF_FFF4)
      ensures r != 0 && oldBlock != 0 ==>
        Copied(old(bytes), bytes, r, oldBlock, Min(newSize, SizeOf(old(State()), oldBlock)))
      ensures r != 0 && oldBlock == 0 ==> bytes == old(bytes)
      ensures BytesKept(old(State()), State(), old(bytes), bytes, r)
      ensures forall d :: SmallestFit(d, newSize) ==>
        && (r == 0 <==> newSize == 0 || OutOfMemory(old(State()), newSize, d))
        && (r != 0 ==> SizeOf(State(), r) == GotSize(newSize, d))
      ensures Others(State()) == old(Others(State()))
    {
      ghost var m := State();
      assert !IsLive(m, 0);
      if newSize == 0 {
        Free(oldBlock);
        return 0;
      }
      FitExists(newSize);
      r := Malloc(newSize);
      if oldBlock != 0 && r != 0 {
        MoveBlock(m, r, oldBlock, newSize);
      }
    }

    /** The second half of `realloc`: copy, then free the old block. */
    method MoveBlock(ghost m: Mem, r: nat, oldBlock: nat, newSize: nat)
      requires Valid() && Inv(State()) && LivePlus(m, State(), r) && IsLive(m, oldBlock) && IsLive(State(), r)
      requires SizesKept(m, State()) && r != 0 && oldBlock != 0
      requires Min(newSize, SizeOf(m, oldBlock)) <= SizeOf(State(), r)
      modifies this`used, this`arenas, this`free, this`bytes
      ensures Valid() && Inv(State()) && SizesKept(m, State()) && Replaced(m, State(), oldBlock, r)
      ensures Others(State()) == old(Others(State()))
      ensures IsLive(State(), r) && SizeOf(State(), r) == old(SizeOf(State(), r))
      ensures Copied(old(bytes), bytes, r, oldBlock, Min(newSize, SizeOf(m, oldBlock)))
      ensures BytesKept(m, State(), old(bytes), bytes, r)
    {
      ghost var m1 := State();
      assert IsLive(m1, oldBlock) <==> IsLive(m, oldBlock) || oldBlock == r;
      BlockInMemory(m1, r);
      BlockInMemory(m1, oldBlock);
      var ar := arenas[oldBlock / 4096];
      var oldSize := if ar.desc.Some? then BlockSize(ar.desc.value) else 4096 * ar.freeCnt - oldBlock % 4096;
      var minSize := if newSize < oldSize then newSize else oldSize;
      MemCpy(r, oldBlock, minSize);
      CopyHarmless(m1, old(bytes), bytes, r, oldBlock, minSize);
      Free(oldBlock);
      MovedTo(m, m1, State(), oldBlock, r);
    }
  }

  lemma PopKeeps(m: Mem, d: nat)
    requires Sound(m) && d < DESC_CNT && m.free[d] != [] && OnlyIdle(m, m.free[d][0] / 4096)
    ensures m.free[d][0] / 4096 in m.arenas && m.arenas[m.free[d][0] / 4096].freeCnt > 0
    ensures Inv(Pop(m, d)) && LivePlus(m, Pop(m, d), m.free[d][0]) && SizesKept(m, Pop(m, d))
    ensures SizeOf(Pop(m, d), m.free[d][0]) == BlockSize(d) && m.free[d][0] > 0
    ensures Others(Pop(m, d)) == Others(m)
  {
    var a := m.free[d][0];
    FrontCounted(m, d);
    PopSound(m, d);
    SamePages(m, Pop(m, d), a / 4096);
    assert ArenaOk(m, a / 4096);
    forall q | q in Pop(m, d).arenas && Pop(m, d).arenas[q].desc.Some?
      ensures Pop(m, d).arenas[q].freeCnt < BlocksPerArena(Pop(m, d).arenas[q].desc.value)
    {
      assert q in m.arenas && ArenaOk(m, q);
    }
  }

  /** At most the arena p is wholly free. */
  ghost predicate OnlyIdle(m: Mem, p: nat) {
    forall q {:trigger m.arenas[q]} :: q in m.arenas && q != p && m.arenas[q].desc.Some? ==>
      m.arenas[q].freeCnt < BlocksPerArena(m.arenas[q].desc.value)
  }

  lemma AtLeastThree(d: nat)
    requires d < DESC_CNT
    ensures BlocksPerArena(d) >= 3
  {
    BlockSizes();
    assert BlockSize(d) <= 1024;
    Arithmetic.DivAtLeast(4084, BlockSize(d), 3);
  }

  /** m' has one more live block than m, at r, of n pages. */
  ghost predicate BigGot(m: Mem, m': Mem, r: nat, n: nat) {
    Inv(m') && LivePlus(m, m', r) && SizesKept(m, m') && IsLive(m', r) && SizeOf(m', r) == 4096 * n - 12
  }

  lemma BigKeeps(m: Mem, at: nat, n: nat)
    requires Inv(m) && n >= 1 && RunAt(m.used, at, n, false)
    ensures BigGot(m, NewBig(Take(m, at, n), m.base + at, n), (m.base + at) * 4096 + 12, n)
  {
    var m1 := Take(m, at, n);
    RoomTaken(m, at, n);
    BigAfter(m1, m.base + at, n);
    SameLive(m, m1);
    BigAfterSame(m, m1, NewBig(m1, m.base + at, n), (m.base + at) * 4096 + 12, n);
  }

  lemma BigAt(m: Mem, p: nat, n: nat)
    requires Inv(m) && n >= 1 && m.base <= p && RunAt(m.used, p - m.base, n, false)
    ensures var m' := NewBig(Take(m, p - m.base, n), p, n);
      BigGot(m, m', p * 4096 + 12, n) && Others(m') == Others(m)
  {
    BigKeeps(m, p - m.base, n);
    BigPages(m, p - m.base, n);
    assert m.base + (p - m.base) == p;
  }

  lemma BigPages(m: Mem, at: nat, n: nat)
    requires Inv(m) && n >= 1 && RunAt(m.used, at, n, false)
    ensures Others(NewBig(Take(m, at, n), m.base + at, n)) == Others(m)
  {
    RoomTaken(m, at, n);
    if m.base + at in m.arenas { HasPages(Take(m, at, n), m.base + at); }
    ArenaAdded(m, NewBig(Take(m, at, n), m.base + at, n), at, n);
  }

  lemma BigAfterSame(m: Mem, m1: Mem, m2: Mem, r: nat, n: nat)
    requires LiveSame(m, m1) && SizesKept(m, m1) && BigGot(m1, m2, r, n)
    ensures BigGot(m, m2, r, n)
  {
    PlusAfterSame(m, m1, m2, r);
  }

  /** The pages p .. p + n are allocated and no arena is in them. */
  ghost predicate Room(m: Mem, p: nat, n: nat) {
    && Sound(m) && NoneIdle(m) && n >= 1 && m.base <= p && RunAt(m.used, p - m.base, n, true)
    && forall q {:trigger m.arenas[q]} :: q in m.arenas ==> q + Pages(m.arenas[q]) <= p || p + n <= q
  }

  lemma RoomTaken(m: Mem, at: nat, n: nat)
    requires Inv(m) && n >= 1 && RunAt(m.used, at, n, false)
    ensures Room(Take(m, at, n), m.base + at, n)
  {
    FreshPages(m, at, n);
  }

  lemma BigAfter(m: Mem, p: nat, n: nat)
    requires Room(m, p, n)
    ensures BigGot(m, NewBig(m, p, n), p * 4096 + 12, n)
  {
    NewBigSound(m, p, n);
    BigIsLive(m, p, n);
    if p in m.arenas { HasPages(m, p); }
  }

  lemma BigIsLive(m: Mem, p: nat, n: nat)
    requires NoneIdle(m) && LivePlus(m, NewBig(m, p, n), p * 4096 + 12)
    ensures var m' := NewBig(m, p, n); var r := p * 4096 + 12;
      NoneIdle(m') && IsLive(m', r) && r / 4096 == p && SizeOf(m', r) == 4096 * n - 12
    ensures p !in m.arenas ==> SizesKept(m, NewBig(m, p, n))
  {
    PageSplit(p, 12);
    assert IsLive(NewBig(m, p, n), p * 4096 + 12);
  }

  /** Allocating pages alone concerns no block. */
  lemma SameLive(m: Mem, m1: Mem)
    requires m1 == m.(used := m1.used)
    ensures LiveSame(m, m1) && SizesKept(m, m1)
  {
    forall x: nat ensures IsLive(m1, x) <==> IsLive(m, x) {
      assert IsBlock(m1, x) <==> IsBlock(m, x);
    }
  }

  lemma FitUnique(d: nat, size: nat)
    requires SmallestFit(d, size)
    ensures forall e :: SmallestFit(e, size) ==> e == d
  {
  }

  lemma PlusAfterSame(m: Mem, m1: Mem, m2: Mem, a: nat)
    requires LiveSame(m, m1) && LivePlus(m1, m2, a)
    requires SizesKept(m, m1) && SizesKept(m1, m2)
    ensures LivePlus(m, m2, a) && SizesKept(m, m2)
  {
    assert IsLive(m1, a) <==> IsLive(m, a);
    forall x: nat
      ensures IsLive(m2, x) <==> IsLive(m, x) || x == a
      ensures IsLive(m, x) && IsLive(m2, x) ==> SizeOf(m2, x) == SizeOf(m, x)
    {
      assert IsLive(m1, x) <==> IsLive(m, x);
    }
  }

  lemma OneBlockOfArena(m: Mem, page: nat, d: nat, i: nat)
    requires Sound(m) && page in m.arenas && m.arenas[page] == Arena(Some(d), BlocksPerArena(d))
    requires d < DESC_CNT && i < BlocksPerArena(d)
    ensures Addr(page, d, i) in m.free[d]
    ensures forall a: nat {:trigger Index(a, d)} :: a in m.free[d] && a / 4096 == page && Index(a, d) == i ==>
      a == Addr(page, d, i)
    ensures Addr(page, d, i) / 4096 == page && Index(Addr(page, d, i), d) == i
  {
    assert ArenaOk(m, page) && FreeListOk(m, d);
    CountFull(m.free[d], page, d, BlocksPerArena(d), i);
    AddrInPage(page, d, i);
    forall a: nat | a in m.free[d] && a / 4096 == page && Index(a, d) == i
      ensures a == Addr(page, d, i)
    {
      assert IsBlock(m, a);
      AlignedAddr(a, d);
    }
  }

  /** The list without blocks 0 to i - 1 of the page. */
  ghost predicate Remaining(all: seq<nat>, list: seq<nat>, page: nat, d: nat, i: nat) {
    && Distinct(list)
    && forall a: nat {:trigger a in list} :: a in list <==> a in all && !(a / 4096 == page && Index(a, d) < i)
  }

  lemma BlockRemains(m: Mem, list: seq<nat>, page: nat, d: nat, i: nat)
    requires Sound(m) && page in m.arenas && m.arenas[page] == Arena(Some(d), BlocksPerArena(d))
    requires d < DESC_CNT && i < BlocksPerArena(d) && Remaining(m.free[d], list, page, d, i)
    ensures Addr(page, d, i) in list
  {
    OneBlockOfArena(m, page, d, i);
  }

  lemma OneFewer(m: Mem, list: seq<nat>, list': seq<nat>, page: nat, d: nat, i: nat)
    requires Sound(m) && page in m.arenas && m.arenas[page] == Arena(Some(d), BlocksPerArena(d))
    requires d < DESC_CNT && i < BlocksPerArena(d) && Remaining(m.free[d], list, page, d, i)
    requires Distinct(list')
    requires forall a: nat {:trigger a in list'} :: a in list' <==> a in list && a != Addr(page, d, i)
    ensures Remaining(m.free[d], list', page, d, i + 1)
  {
    OneBlockOfArena(m, page, d, i);
  }

  lemma NoneRemain(m: Mem, list: seq<nat>, page: nat, d: nat)
    requires Sound(m) && d < DESC_CNT && Remaining(m.free[d], list, page, d, BlocksPerArena(d))
    ensures forall a: nat {:trigger a in list} :: a in list <==> a in m.free[d] && a / 4096 != page
  {
    assert FreeListOk(m, d);
  }

  lemma DropKeeps(m: Mem, m': Mem, page: nat, d: nat)
    requires Sound(m) && d < DESC_CNT && page in m.arenas && m.arenas[page] == Arena(Some(d), BlocksPerArena(d))
    requires OnlyIdle(m, page)
    requires m'.base == m.base && m'.arenas == m.arenas - {page} && m.base <= page && page - m.base < |m.used|
    requires m'.used == SetMultiple(m.used, page - m.base, 1, false) && |m'.free| == |m.free|
    requires m'.free == m.free[d := m'.free[d]] && Distinct(m'.free[d])
    requires forall a: nat {:trigger a in m'.free[d]} :: a in m'.free[d] <==> a in m.free[d] && a / 4096 != page
    ensures Inv(m') && LiveSame(m, m') && SizesKept(m, m') && Others(m') == Others(m)
  {
    ListsDropped(m, m', page, d);
    DropSound(m, m', page);
    ArenaDropped(m, m', page);
    assert ArenaOk(m, page);
    forall a: nat
      ensures IsLive(m', a) <==> IsLive(m, a)
    {
      if a / 4096 == page && IsBlock(m, a) {
        AlignedAddr(a, d);
        CountFull(m.free[d], page, d, BlocksPerArena(d), Index(a, d));
      }
    }
    forall q | q in m'.arenas && m'.arenas[q].desc.Some?
      ensures m'.arenas[q].freeCnt < BlocksPerArena(m'.arenas[q].desc.value)
    {
      assert m.arenas[q] == m'.arenas[q];
    }
  }

  lemma ListsDropped(m: Mem, m': Mem, page: nat, d: nat)
    requires Sound(m) && d < DESC_CNT && page in m.arenas && m.arenas[page] == Arena(Some(d), BlocksPerArena(d))
    requires m'.base == m.base && m'.arenas == m.arenas - {page} && m.base <= page && page - m.base < |m.used|
    requires m'.used == SetMultiple(m.used, page - m.base, 1, false) && |m'.free| == |m.free|
    requires m'.free == m.free[d := m'.free[d]] && Distinct(m'.free[d])
    requires forall a: nat {:trigger a in m'.free[d]} :: a in m'.free[d] <==> a in m.free[d] && a / 4096 != page
    ensures Dropped(m, m', page)
  {
    forall e | 0 <= e < |m.free|
      ensures Distinct(m'.free[e])
      ensures forall a: nat {:trigger a in m'.free[e]} :: a in m'.free[e] <==> a in m.free[e] && a / 4096 != page
    {
      assert FreeListOk(m, e);
    }
  }

  lemma PushKeeps(m: Mem, p: nat, d: nat)
    requires Inv(m) && IsLive(m, p) && m.arenas[p / 4096].desc == Some(d)
    ensures d < DESC_CNT && Sound(PushBack(m, p, d)) && LivePlus(PushBack(m, p, d), m, p)
    ensures SizesKept(m, PushBack(m, p, d)) && OnlyIdle(PushBack(m, p, d), p / 4096)
    ensures m.arenas[p / 4096].freeCnt + 1 <= BlocksPerArena(d)
    ensures RunAt(m.used, p / 4096 - m.base, 1, true)
  {
    assert ArenaOk(m, p / 4096);
    PushSound(m, p, d);
  }

  lemma MinusThenSame(m: Mem, m1: Mem, m2: Mem, p: nat)
    requires LivePlus(m1, m, p) && LiveSame(m1, m2) && SizesKept(m, m1) && SizesKept(m1, m2)
    ensures LivePlus(m2, m, p) && SizesKept(m, m2)
  {
    assert IsLive(m2, p) <==> IsLive(m1, p);
    forall x: nat
      ensures IsLive(m, x) <==> IsLive(m2, x) || x == p
      ensures IsLive(m, x) && IsLive(m2, x) ==> SizeOf(m2, x) == SizeOf(m, x)
    {
      assert IsLive(m2, x) <==> IsLive(m1, x);
      assert IsLive(m, x) <==> IsLive(m1, x) || x == p;
    }
  }

  lemma BigInside(m: Mem, page: nat)
    requires Sound(m) && page in m.arenas && m.arenas[page].desc.None?
    ensures m.base <= page && RunAt(m.used, page - m.base, m.arenas[page].freeCnt, true)
  {
    assert ArenaOk(m, page);
  }

  lemma DropBig(m: Mem, m': Mem, p: nat)
    requires Inv(m) && IsLive(m, p) && m.arenas[p / 4096].desc.None?
    requires var page := p / 4096;
      && m.base <= page && page - m.base + m.arenas[page].freeCnt <= |m.used|
      && m' == m.(used := SetMultiple(m.used, page - m.base, m.arenas[page].freeCnt, false),
                  arenas := m.arenas - {page})
    ensures Inv(m') && LivePlus(m', m, p) && SizesKept(m, m') && Others(m') == Others(m)
  {
    var page := p / 4096;
    forall e, a: nat | 0 <= e < |m.free| && a in m.free[e]
      ensures a / 4096 != page
    {
      assert FreeListOk(m, e);
    }
    forall e | 0 <= e < |m.free| ensures Distinct(m'.free[e]) { assert FreeListOk(m, e); }
    DropSound(m, m', page);
    ArenaDropped(m, m', page);
    forall x: nat
      ensures IsLive(m, x) <==> IsLive(m', x) || x == p
    {
      assert IsLive(m', x) <==> IsLive(m, x) && x / 4096 != page;
      if x / 4096 == page && IsBlock(m, x) { assert x == p; }
    }
  }

  function Min(a: int, b: int): int { if a < b then a else b }

  ghost predicate Copied(b: seq<byte>, b': seq<byte>, dst: nat, src: nat, n: int) {
    && |b'| == |b| && 0 <= n && dst + n <= |b| && src + n <= |b|
    && forall i {:trigger b'[i]} :: 0 <= i < |b| ==> b'[i] == if dst <= i < dst + n then b[src + i - dst] else b[i]
  }

  /** The live blocks with `gone` taken out and `come` put in; 0 stands for no block. */
  ghost predicate Replaced(m: Mem, m': Mem, gone: nat, come: nat) {
    && (come != 0 ==> !IsLive(m, come) && IsLive(m', come))
    && forall a: nat {:trigger IsLive(m', a)} :: a != 0 ==>
         (IsLive(m', a) <==> (IsLive(m, a) && a != gone) || a == come)
  }

  /** Blocks that were and are live hold what they held. */
  ghost predicate BytesKept(m: Mem, m': Mem, b: seq<byte>, b': seq<byte>, except: nat) {
    forall a: nat, i: int {:trigger IsLive(m, a), b'[i]} ::
      IsLive(m, a) && IsLive(m', a) && a != except && a <= i < a + SizeOf(m, a) && i < |b| && i < |b'| ==> b'[i] == b[i]
  }

  lemma FitExists(size: nat)
    ensures exists d :: SmallestFit(d, size)
  {
    var d := 0;
    while d < DESC_CNT && BlockSize(d) < size
      invariant d <= DESC_CNT && forall e :: 0 <= e < d ==> BlockSize(e) < size
    {
      d := d + 1;
    }
    assert SmallestFit(d, size);
  }

  lemma BlockInMemory(m: Mem, a: nat)
    requires Sound(m) && IsLive(m, a)
    ensures 0 <= SizeOf(m, a) && a + SizeOf(m, a) <= (m.base + |m.used|) * 4096
  {
    var p := a / 4096;
    assert ArenaOk(m, p);
    if m.arenas[p].desc.Some? {
      AlignedAddr(a, m.arenas[p].desc.value);
      AddrInPage(p, m.arenas[p].desc.value, Index(a, m.arenas[p].desc.value));
    }
  }

  lemma CopyHarmless(m: Mem, b: seq<byte>, b': seq<byte>, dst: nat, src: nat, n: nat)
    requires Sound(m) && IsLive(m, dst) && n <= SizeOf(m, dst) && Copied(b, b', dst, src, n)
    ensures BytesKept(m, m, b, b', dst)
  {
    forall a: nat, i: int | IsLive(m, a) && a != dst && a <= i < a + SizeOf(m, a) && i < |b|
      ensures b'[i] == b[i]
    {
      if a < dst { LiveBlocksApart(m, a, dst); } else { LiveBlocksApart(m, dst, a); }
    }
  }

  lemma MovedTo(m: Mem, m1: Mem, m2: Mem, gone: nat, come: nat)
    requires LivePlus(m, m1, come) && LivePlus(m2, m1, gone) && IsLive(m, gone) && IsLive(m1, come) && come != 0
    requires SizesKept(m, m1) && SizesKept(m1, m2)
    ensures Replaced(m, m2, gone, come) && SizesKept(m, m2) && IsLive(m2, come)
    ensures forall a: nat {:trigger IsLive(m, a)} :: IsLive(m, a) ==> IsLive(m1, a) && SizeOf(m1, a) == SizeOf(m, a)
  {
    assert IsLive(m1, come) <==> IsLive(m2, come) || come == gone;
    forall a: nat
      ensures IsLive(m2, a) <==> (IsLive(m, a) && a != gone) || a == come
      ensures IsLive(m, a) ==> IsLive(m1, a) && SizeOf(m1, a) == SizeOf(m, a)
      ensures IsLive(m, a) && IsLive(m2, a) ==> SizeOf(m2, a) == SizeOf(m, a)
    {
      assert IsLive(m1, a) <==> IsLive(m, a) || a == come;
      assert IsLive(m1, a) <==> IsLive(m2, a) || a == gone;
    }
  }
}
