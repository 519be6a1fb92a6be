/**
 The size-class allocator over the page allocator (proj1/src/threads/malloc.c, palloc.c).

 Addresses are numbers; an arena is named by its page number.  A page of blocks starts with a 12-byte
 `struct arena`.  Whether a block is free is whether its address is on its descriptor's free list, so the
 live blocks need no record of their own.
 */
module Malloc {
  import opened Lists
  import opened Bitmaps
  import Arithmetic

  /** `desc` is None for a big block, and then `freeCnt` is its number of pages. */
  datatype Arena = Arena(desc: Option<nat>, freeCnt: nat)

  datatype Mem = Mem(base: nat, used: seq<bool>, arenas: map<nat, Arena>, free: seq<seq<nat>>)

  const DESC_CNT: nat := 7

  /** 16, 32, ..., 1024. */
  function BlockSize(d: nat): (bs: nat)
    ensures bs >= 16
  {
    if d == 0 then 16 else 2 * BlockSize(d - 1)
  }

  lemma BlockSizes()
    ensures BlockSize(0) == 16 && BlockSize(1) == 32 && BlockSize(2) == 64 && BlockSize(3) == 128
    ensures BlockSize(4) == 256 && BlockSize(5) == 512 && BlockSize(6) == 1024
  {
    assert BlockSize(2) == 64;
    assert BlockSize(4) == 256;
  }

  /** As many as fit behind the header. */
  function BlocksPerArena(d: nat): (n: nat)
    ensures n * BlockSize(d) <= 4096 - 12 < (n + 1) * BlockSize(d)
  {
    Arithmetic.DivAtLeast(4084, BlockSize(d), 0);
    Arithmetic.DivBounds(4084, BlockSize(d));
    (4096 - 12) / BlockSize(d)
  }

  /** `arena_to_block`. */
  function Addr(page: nat, d: nat, i: nat): nat {
    page * 4096 + 12 + i * BlockSize(d)
  }

  lemma MulLe(a: nat, b: nat, c: nat)
    requires a <= b
    ensures a * c <= b * c
  {
  }

  lemma DivMul(k: nat, c: nat)
    requires c > 0
    ensures k * c / c == k && k * c % c == 0
  {
    Arithmetic.DivUnique(k * c, c, k);
    Arithmetic.DivBounds(k * c, c);
  }

  /** A block lies inside its page, and its address determines page and index. */
  lemma AddrInPage(page: nat, d: nat, i: nat)
    requires d < DESC_CNT && i < BlocksPerArena(d)
    ensures Addr(page, d, i) + BlockSize(d) <= (page + 1) * 4096
    ensures Addr(page, d, i) / 4096 == page && Addr(page, d, i) % 4096 == 12 + i * BlockSize(d)
    ensures (Addr(page, d, i) % 4096 - 12) / BlockSize(d) == i
    ensures (Addr(page, d, i) % 4096 - 12) % BlockSize(d) == 0
  {
    LastByte(BlockSize(d), BlocksPerArena(d), i);
    PageSplit(page, 12 + i * BlockSize(d));
    DivMul(i, BlockSize(d));
  }

  lemma LastByte(bs: nat, n: nat, i: nat)
    requires bs > 0 && n == 4084 / bs && i < n
    ensures 0 <= i * bs && i * bs + bs <= 4084
  {
    Arithmetic.DivBounds(4084, bs);
    MulLe(i + 1, n, bs);
    assert (i + 1) * bs == i * bs + bs;
  }

  lemma PageSplit(page: nat, r: nat)
    requires r < 4096
    ensures (page * 4096 + r) / 4096 == page && (page * 4096 + r) % 4096 == r
  {
  }

  /** The block index of an address inside a page. */
  function Index(a: nat, d: nat): int {
    (a % 4096 - 12) / BlockSize(d)
  }

  /** The alignment that `block_to_arena` asserts. */
  ghost predicate Aligned(a: nat, d: nat) {
    a % 4096 >= 12 && (a % 4096 - 12) % BlockSize(d) == 0 && Index(a, d) < BlocksPerArena(d)
  }

  lemma AlignedAddr(a: nat, d: nat)
    requires Aligned(a, d)
    ensures 0 <= Index(a, d) && a == Addr(a / 4096, d, Index(a, d))
  {
    var r, bs := a % 4096 - 12, BlockSize(d);
    Arithmetic.DivBounds(r, bs);
    Arithmetic.DivAtLeast(r, bs, 0);
  }

  // ----- blocks -----

  ghost predicate IsBlock(m: Mem, a: nat) {
    && a / 4096 in m.arenas
    && match m.arenas[a / 4096].desc
       case None => a % 4096 == 12
       case Some(d) => d < DESC_CNT && Aligned(a, d)
  }

  ghost predicate IsFree(m: Mem, a: nat) {
    && a / 4096 in m.arenas && m.arenas[a / 4096].desc.Some?
    && m.arenas[a / 4096].desc.value < |m.free|
    && a in m.free[m.arenas[a / 4096].desc.value]
  }

  ghost predicate IsLive(m: Mem, a: nat) {
    IsBlock(m, a) && !IsFree(m, a)
  }

  function Pages(ar: Arena): nat {
    if ar.desc.None? then ar.freeCnt else 1
  }

  /** Page k is part of an arena. */
  ghost predicate InArena(m: Mem, k: nat) {
    exists p {:trigger m.arenas[p]} :: p in m.arenas && p <= k < p + Pages(m.arenas[p])
  }

  /** The pages allocated to others, counted from the start of the pool. */
  ghost function Others(m: Mem): set<nat> {
    set k: nat | k < |m.used| && m.used[k] && !InArena(m, m.base + k)
  }

  /** `block_size`. */
  function SizeOf(m: Mem, a: nat): int
    requires a / 4096 in m.arenas
  {
    var ar := m.arenas[a / 4096];
    if ar.desc.Some? then BlockSize(ar.desc.value) else 4096 * ar.freeCnt - a % 4096
  }

  // ----- counting free blocks -----

  /** How many of the arena's first n blocks are on the list. */
  ghost function Count(list: seq<nat>, page: nat, d: nat, n: nat): (c: nat)
    ensures c <= n
  {
    if n == 0 then 0
    else Count(list, page, d, n - 1) + if Addr(page, d, n - 1) in list then 1 else 0
  }

  lemma {:induction false} CountSame(list: seq<nat>, list': seq<nat>, page: nat, d: nat, n: nat)
    requires d < DESC_CNT && n <= BlocksPerArena(d)
    requires forall a {:trigger a in list} :: a / 4096 == page ==> (a in list' <==> a in list)
    ensures Count(list', page, d, n) == Count(list, page, d, n)
  {
    if n > 0 {
      AddrInPage(page, d, n - 1);
      CountSame(list, list', page, d, n - 1);
    }
  }

  /** One more block of the arena on the list counts one more. */
  lemma {:induction false} CountMore(list: seq<nat>, list': seq<nat>, page: nat, d: nat, i: nat, n: nat)
    requires d < DESC_CNT && n <= BlocksPerArena(d) && i < BlocksPerArena(d) && Addr(page, d, i) !in list
    requires forall a {:trigger a in list'} :: a in list' <==> a in list || a == Addr(page, d, i)
    ensures Count(list', page, d, n) == Count(list, page, d, n) + if i < n then 1 else 0
  {
    if n > 0 {
      CountMore(list, list', page, d, i, n - 1);
      AddrInPage(page, d, i);
      AddrInPage(page, d, n - 1);
    }
  }

  lemma {:induction false} CountFull(list: seq<nat>, page: nat, d: nat, n: nat, i: nat)
    requires Count(list, page, d, n) == n && i < n
    ensures Addr(page, d, i) in list
  {
    if i < n - 1 { CountFull(list, page, d, n - 1, i); }
  }

  lemma {:induction false} CountAll(list: seq<nat>, page: nat, d: nat, n: nat)
    requires forall i :: 0 <= i < n ==> Addr(page, d, i) in list
    ensures Count(list, page, d, n) == n
  {
    if n > 0 { CountAll(list, page, d, n - 1); }
  }

  // ----- the invariant -----

  /** Every address on a free list is a block of an arena of that descriptor, and is there once. */
  ghost predicate FreeListOk(m: Mem, d: nat)
    requires d < |m.free|
  {
    && Distinct(m.free[d])
    && forall a {:trigger a in m.free[d]} :: a in m.free[d] ==>
         IsBlock(m, a) && m.arenas[a / 4096].desc == Some(d)
  }

  /** The arena's pages are allocated in the pool, and its counter is the number of its free blocks. */
  ghost predicate ArenaOk(m: Mem, p: nat)
    requires p in m.arenas && |m.free| == DESC_CNT
  {
    var ar := m.arenas[p];
    && m.base <= p && RunAt(m.used, p - m.base, Pages(ar), true)
    && match ar.desc
       case None => ar.freeCnt >= 1
       case Some(d) => d < DESC_CNT && ar.freeCnt == Count(m.free[d], p, d, BlocksPerArena(d))
  }

  /** Different arenas occupy different pages. */
  ghost predicate Disjoint(m: Mem) {
    forall p, q {:trigger m.arenas[p], m.arenas[q]} :: p in m.arenas && q in m.arenas && p < q ==>
      p + Pages(m.arenas[p]) <= q
  }

  /** The invariant, which `malloc` suspends for the wholly free arena it is about to use. */
  ghost predicate Sound(m: Mem) {
    && |m.free| == DESC_CNT && 0 < m.base
    && (forall d {:trigger FreeListOk(m, d)} :: 0 <= d < DESC_CNT ==> FreeListOk(m, d))
    && (forall p {:trigger ArenaOk(m, p)} :: p in m.arenas ==> ArenaOk(m, p))
    && Disjoint(m)
  }

  /** No arena of blocks is wholly free: its page has been given back. */
  ghost predicate NoneIdle(m: Mem) {
    forall p {:trigger m.arenas[p]} :: p in m.arenas && m.arenas[p].desc.Some? ==>
      m.arenas[p].freeCnt < BlocksPerArena(m.arenas[p].desc.value)
  }

  ghost predicate Inv(m: Mem) {
    Sound(m) && NoneIdle(m)
  }

  /** Two live blocks share no byte, and a live block lies within its arena, clear of the header. */
  lemma LiveBlocksApart(m: Mem, a: nat, b: nat)
    requires Sound(m) && IsLive(m, a) && IsLive(m, b) && a < b
    ensures a + SizeOf(m, a) <= b
    ensures a / 4096 * 4096 + 12 <= a && a + SizeOf(m, a) <= (a / 4096 + Pages(m.arenas[a / 4096])) * 4096
  {
    var p, q := a / 4096, b / 4096;
    assert ArenaOk(m, p) && ArenaOk(m, q);
    if m.arenas[p].desc.Some? {
      var d := m.arenas[p].desc.value;
      AlignedAddr(a, d);
      AddrInPage(p, d, Index(a, d));
      if p == q {
        AlignedAddr(b, d);
        SameArenaApart(p, d, Index(a, d), Index(b, d));
      }
    }
    if p != q { assert p < q; }
  }

  lemma SameArenaApart(p: nat, d: nat, i: nat, j: nat)
    requires Addr(p, d, i) < Addr(p, d, j)
    ensures Addr(p, d, i) + BlockSize(d) <= Addr(p, d, j)
  {
    var bs := BlockSize(d);
    Arithmetic.MulCancel(i, j, bs);
    MulLe(i + 1, j, bs);
    assert (i + 1) * bs == i * bs + bs;
  }

  // ----- steps on the bookkeeping -----

  /** A new arena on fresh pages: header first, then its blocks at the end of the free list. */
  function Blocks(p: nat, d: nat, n: nat): (list: seq<nat>)
    ensures |list| == n && forall i :: 0 <= i < n ==> list[i] == Addr(p, d, i)
  {
    seq(n, i requires 0 <= i < n => Addr(p, d, i))
  }

  function Take(m: Mem, at: nat, n: nat): Mem
    requires at + n <= |m.used|
  {
    m.(used := SetMultiple(m.used, at, n, true))
  }

  function NewArena(m: Mem, p: nat, d: nat): Mem
    requires d < |m.free|
  {
    m.(arenas := m.arenas[p := Arena(Some(d), BlocksPerArena(d))],
       free := m.free[d := m.free[d] + Blocks(p, d, BlocksPerArena(d))])
  }

  lemma FreshPages(m: Mem, at: nat, n: nat)
    requires Sound(m) && n >= 1 && RunAt(m.used, at, n, false)
    ensures Sound(Take(m, at, n))
    ensures forall q {:trigger m.arenas[q]} :: q in m.arenas ==>
      q + Pages(m.arenas[q]) <= m.base + at || m.base + at + n <= q
  {
    var m' := Take(m, at, n);
    forall d | 0 <= d < DESC_CNT
      ensures FreeListOk(m', d)
    {
      assert FreeListOk(m, d);
    }
    forall q | q in m.arenas
      ensures ArenaOk(m', q)
      ensures q + Pages(m.arenas[q]) <= m.base + at || m.base + at + n <= q
    {
      assert ArenaOk(m, q);
      RunsApart(m.used, q - m.base, Pages(m.arenas[q]), at, n);
    }
  }

  lemma RunsApart(b: seq<bool>, i: int, n: nat, j: int, k: nat)
    requires RunAt(b, i, n, true) && RunAt(b, j, k, false) && n >= 1 && k >= 1
    ensures i + n <= j || j + k <= i
  {
    var x := if i > j then i else j;
    assert i <= x < i + n ==> b[x];
    assert j <= x < j + k ==> !b[x];
  }

  /** Every block is live that was, and `extra` besides. */
  ghost predicate LivePlus(m: Mem, m': Mem, extra: nat) {
    !IsLive(m, extra) && forall a {:trigger IsLive(m', a)} :: IsLive(m', a) <==> IsLive(m, a) || a == extra
  }

  ghost predicate LiveSame(m: Mem, m': Mem) {
    forall a {:trigger IsLive(m', a)} :: IsLive(m', a) <==> IsLive(m, a)
  }

  lemma BlocksDistinct(p: nat, d: nat, n: nat)
    requires d < DESC_CNT && n <= BlocksPerArena(d)
    ensures Distinct(Blocks(p, d, n))
    ensures forall a {:trigger a in Blocks(p, d, n)} :: a in Blocks(p, d, n) ==> a / 4096 == p && Aligned(a, d)
  {
    forall i | 0 <= i < n
      ensures Addr(p, d, i) / 4096 == p && Aligned(Addr(p, d, i), d) && Index(Addr(p, d, i), d) == i
    {
      AddrInPage(p, d, i);
    }
  }

  /** Opening an arena adds free blocks only. */
  lemma NewArenaSound(m: Mem, p: nat, d: nat)
    requires Sound(m) && d < DESC_CNT && m.base <= p && p - m.base < |m.used| && m.used[p - m.base]
    requires forall q {:trigger m.arenas[q]} :: q in m.arenas ==> q + Pages(m.arenas[q]) <= p || p + 1 <= q
    ensures Sound(NewArena(m, p, d)) && LiveSame(m, NewArena(m, p, d))
  {
    var m' := NewArena(m, p, d);
    var n := BlocksPerArena(d);
    NotAnArena(m, p);
    BlocksDistinct(p, d, n);
    NewFreeLists(m, p, d);
    CountAll(m'.free[d], p, d, n) by {
      forall i | 0 <= i < n ensures Addr(p, d, i) in m'.free[d] { assert Blocks(p, d, n)[i] in Blocks(p, d, n); }
    }
    forall q | q in m'.arenas
      ensures ArenaOk(m', q)
    {
      if q != p {
        assert ArenaOk(m, q);
        if m.arenas[q].desc == Some(d) { CountSame(m.free[d], m'.free[d], q, d, n); }
      }
    }
    forall a
      ensures IsLive(m', a) <==> IsLive(m, a)
    {
      NewArenaLive(m, p, d, a);
    }
  }

  lemma HasPages(m: Mem, p: nat)
    requires Sound(m) && p in m.arenas
    ensures Pages(m.arenas[p]) >= 1
  {
    assert ArenaOk(m, p);
  }

  lemma NotAnArena(m: Mem, p: nat)
    requires Sound(m)
    requires forall q {:trigger m.arenas[q]} :: q in m.arenas ==> q + Pages(m.arenas[q]) <= p || p + 1 <= q
    ensures p !in m.arenas
    ensures forall d, a {:trigger a in m.free[d]} :: 0 <= d < DESC_CNT && a in m.free[d] ==> a / 4096 != p
  {
    if p in m.arenas { HasPages(m, p); }
    forall d, a | 0 <= d < DESC_CNT && a in m.free[d]
      ensures a / 4096 != p
    {
      assert FreeListOk(m, d);
    }
  }

  lemma NewFreeLists(m: Mem, p: nat, d: nat)
    requires Sound(m) && d < DESC_CNT && p !in m.arenas
    ensures forall e {:trigger FreeListOk(NewArena(m, p, d), e)} :: 0 <= e < DESC_CNT ==>
      FreeListOk(NewArena(m, p, d), e)
  {
    var m' := NewArena(m, p, d);
    BlocksDistinct(p, d, BlocksPerArena(d));
    forall e | 0 <= e < DESC_CNT
      ensures FreeListOk(m', e)
    {
      assert FreeListOk(m, e);
      if e == d { ConcatDistinct(m.free[d], Blocks(p, d, BlocksPerArena(d))); }
      forall a | a in m'.free[e]
        ensures IsBlock(m', a) && m'.arenas[a / 4096].desc == Some(e)
      {
        if a in m.free[e] { assert IsBlock(m, a); } else { assert a in Blocks(p, d, BlocksPerArena(d)); }
      }
    }
  }

  lemma NewArenaLive(m: Mem, p: nat, d: nat, a: nat)
    requires Sound(m) && d < DESC_CNT && p !in m.arenas
    ensures IsLive(NewArena(m, p, d), a) <==> IsLive(m, a)
  {
    var m' := NewArena(m, p, d);
    BlocksDistinct(p, d, BlocksPerArena(d));
    if a / 4096 == p {
      if IsBlock(m', a) {
        AlignedAddr(a, d);
        assert Blocks(p, d, BlocksPerArena(d))[Index(a, d)] == a;
        assert IsFree(m', a);
      }
    }
  }

  /** Taking a free block off its list makes it live. */
  function Pop(m: Mem, d: nat): Mem
    requires d < |m.free| && m.free[d] != [] && m.free[d][0] / 4096 in m.arenas
    requires m.arenas[m.free[d][0] / 4096].freeCnt > 0
  {
    var p := m.free[d][0] / 4096;
    m.(free := m.free[d := m.free[d][1..]],
       arenas := m.arenas[p := m.arenas[p].(freeCnt := m.arenas[p].freeCnt - 1)])
  }

  lemma FrontCounted(m: Mem, d: nat)
    requires Sound(m) && d < DESC_CNT && m.free[d] != []
    ensures var a := m.free[d][0]; var p := a / 4096;
      && p in m.arenas && m.arenas[p].desc == Some(d) && m.arenas[p].freeCnt > 0 && Aligned(a, d)
      && m.arenas[p].freeCnt - 1 == Count(m.free[d][1..], p, d, BlocksPerArena(d))
    ensures forall x {:trigger x in m.free[d][1..]} :: x in m.free[d][1..] <==> x in m.free[d] && x != m.free[d][0]
    ensures Distinct(m.free[d][1..])
  {
    var a, rest := m.free[d][0], m.free[d][1..];
    assert FreeListOk(m, d) && a in m.free[d];
    assert m.free[d] == [a] + rest;
    forall x ensures x in rest <==> x in m.free[d] && x != a {
      if x in rest { var k :| 0 <= k < |rest| && rest[k] == x; assert m.free[d][k + 1] == x; }
    }
    assert ArenaOk(m, a / 4096);
    AlignedAddr(a, d);
    CountMore(rest, m.free[d], a / 4096, d, Index(a, d), BlocksPerArena(d));
  }

  lemma PopSound(m: Mem, d: nat)
    requires Sound(m) && d < DESC_CNT && m.free[d] != []
    ensures m.free[d][0] / 4096 in m.arenas && m.arenas[m.free[d][0] / 4096].freeCnt > 0
    ensures Sound(Pop(m, d)) && LivePlus(m, Pop(m, d), m.free[d][0])
  {
    var a := m.free[d][0];
    FrontCounted(m, d);
    var m' := Pop(m, d);
    assert m'.free[d] == m.free[d][1..] && a in m.free[d];
    SameShape(m, m', a / 4096, d);
    assert FreeListOk(m, d);
    PopLive(m, d);
  }

  lemma PopLive(m: Mem, d: nat)
    requires Sound(m) && d < DESC_CNT && m.free[d] != []
    requires m.free[d][0] / 4096 in m.arenas && m.arenas[m.free[d][0] / 4096].freeCnt > 0
    ensures LivePlus(m, Pop(m, d), m.free[d][0])
  {
    var a, m' := m.free[d][0], Pop(m, d);
    FrontCounted(m, d);
    assert FreeListOk(m, d) && a in m.free[d];
    forall x: nat ensures IsLive(m', x) <==> IsLive(m, x) || x == a {
      assert IsBlock(m', x) <==> IsBlock(m, x);
    }
  }

  /** Two states that differ in one arena's counter and its descriptor's list. */
  ghost predicate SameArenas(m: Mem, m': Mem, p: nat) {
    && p in m.arenas && p in m'.arenas && m'.base == m.base && m'.used == m.used && |m'.free| == |m.free|
    && m'.arenas == m.arenas[p := m.arenas[p].(freeCnt := m'.arenas[p].freeCnt)]
  }

  lemma SameShape(m: Mem, m': Mem, p: nat, d: nat)
    requires Sound(m) && d < DESC_CNT && p in m.arenas && p in m'.arenas && SameArenas(m, m', p)
    requires m.arenas[p].desc == Some(d) && m'.free == m.free[d := m'.free[d]] && Distinct(m'.free[d])
    requires m'.arenas[p].freeCnt == Count(m'.free[d], p, d, BlocksPerArena(d))
    requires forall a {:trigger a in m'.free[d]} :: a in m'.free[d] ==>
      a in m.free[d] || (a / 4096 == p && Aligned(a, d))
    requires forall a {:trigger a in m.free[d]} :: a / 4096 != p ==> (a in m'.free[d] <==> a in m.free[d])
    ensures Sound(m')
  {
    forall e | 0 <= e < DESC_CNT
      ensures FreeListOk(m', e)
    {
      assert FreeListOk(m, e);
      forall a | a in m'.free[e]
        ensures IsBlock(m', a) && m'.arenas[a / 4096].desc == Some(e)
      {
        if a in m.free[e] { assert IsBlock(m, a); }
      }
    }
    forall q | q in m'.arenas
      ensures ArenaOk(m', q)
    {
      assert ArenaOk(m, q);
      if q != p && m.arenas[q].desc == Some(d) { CountSame(m.free[d], m'.free[d], q, d, BlocksPerArena(d)); }
    }
  }

  /** Putting a live block back at the front of its list. */
  function PushBack(m: Mem, a: nat, d: nat): Mem
    requires d < |m.free| && a / 4096 in m.arenas
  {
    var p := a / 4096;
    m.(free := m.free[d := [a] + m.free[d]],
       arenas := m.arenas[p := m.arenas[p].(freeCnt := m.arenas[p].freeCnt + 1)])
  }

  lemma PushSound(m: Mem, a: nat, d: nat)
    requires Sound(m) && d < DESC_CNT && IsLive(m, a) && m.arenas[a / 4096].desc == Some(d)
    ensures Sound(PushBack(m, a, d)) && LivePlus(PushBack(m, a, d), m, a)
  {
    var p, m' := a / 4096, PushBack(m, a, d);
    assert FreeListOk(m, d) && ArenaOk(m, p);
    PushDistinct(a, m.free[d]);
    AlignedAddr(a, d);
    CountMore(m.free[d], m'.free[d], p, d, Index(a, d), BlocksPerArena(d));
    SameShape(m, m', p, d);
    forall x ensures IsLive(m, x) <==> IsLive(m', x) || x == a {
      assert IsBlock(m', x) <==> IsBlock(m, x);
    }
  }

  /** Giving back an arena's page or pages. */
  ghost predicate Dropped(m: Mem, m': Mem, p: nat) {
    && p in m.arenas && m'.base == m.base && m.base <= p && p - m.base + Pages(m.arenas[p]) <= |m.used|
    && m'.used == SetMultiple(m.used, p - m.base, Pages(m.arenas[p]), false)
    && m'.arenas == m.arenas - {p} && |m'.free| == |m.free|
    && (forall d {:trigger m'.free[d]} :: 0 <= d < |m.free| ==> Distinct(m'.free[d]))
    && (forall d, a {:trigger a in m'.free[d]} :: 0 <= d < |m.free| ==>
          (a in m'.free[d] <==> a in m.free[d] && a / 4096 != p))
  }

  lemma DropSound(m: Mem, m': Mem, p: nat)
    requires Sound(m) && Dropped(m, m', p)
    ensures Sound(m')
    ensures forall a: nat {:trigger IsLive(m', a)} :: IsLive(m', a) <==> IsLive(m, a) && a / 4096 != p
  {
    forall d | 0 <= d < DESC_CNT
      ensures FreeListOk(m', d)
    {
      assert FreeListOk(m, d) && Distinct(m'.free[d]);
      forall a | a in m'.free[d]
        ensures IsBlock(m', a) && m'.arenas[a / 4096].desc == Some(d)
      {
        assert a in m.free[d] && IsBlock(m, a);
      }
    }
    forall q | q in m'.arenas
      ensures ArenaOk(m', q)
    {
      assert ArenaOk(m, q) && m.arenas[q] == m'.arenas[q] && m.arenas[p] == m.arenas[p];
      if m.arenas[q].desc.Some? {
        var d := m.arenas[q].desc.value;
        CountSame(m.free[d], m'.free[d], q, d, BlocksPerArena(d));
      }
    }
    forall a: nat ensures IsLive(m', a) <==> IsLive(m, a) && a / 4096 != p {
      if a / 4096 in m.arenas && a / 4096 != p { assert ArenaOk(m, a / 4096); }
    }
  }

  /** A big block: its arena's pages hold nothing else. */
  function NewBig(m: Mem, p: nat, n: nat): Mem {
    m.(arenas := m.arenas[p := Arena(None, n)])
  }

  lemma BigFreeLists(m: Mem, p: nat, n: nat)
    requires Sound(m) && p !in m.arenas
    ensures |NewBig(m, p, n).free| == DESC_CNT && forall d :: 0 <= d < DESC_CNT ==> FreeListOk(NewBig(m, p, n), d)
  {
    var m' := NewBig(m, p, n);
    forall d | 0 <= d < DESC_CNT
      ensures FreeListOk(m', d)
    {
      assert FreeListOk(m, d);
      forall a | a in m'.free[d]
        ensures IsBlock(m', a) && m'.arenas[a / 4096].desc == Some(d)
      {
        assert IsBlock(m, a);
      }
    }
  }

  lemma NewBigSound(m: Mem, p: nat, n: nat)
    requires Sound(m) && n >= 1 && m.base <= p && RunAt(m.used, p - m.base, n, true)
    requires forall q {:trigger m.arenas[q]} :: q in m.arenas ==> q + Pages(m.arenas[q]) <= p || p + n <= q
    ensures Sound(NewBig(m, p, n)) && LivePlus(m, NewBig(m, p, n), p * 4096 + 12)
  {
    if p in m.arenas { HasPages(m, p); }
    BigFreeLists(m, p, n);
    BigArenas(m, p, n);
    BigLive(m, p, n);
  }

  lemma BigArenas(m: Mem, p: nat, n: nat)
    requires Sound(m) && p !in m.arenas && n >= 1 && m.base <= p && RunAt(m.used, p - m.base, n, true)
    requires forall q {:trigger m.arenas[q]} :: q in m.arenas ==> q + Pages(m.arenas[q]) <= p || p + n <= q
    ensures forall q {:trigger ArenaOk(NewBig(m, p, n), q)} :: q in NewBig(m, p, n).arenas ==>
      ArenaOk(NewBig(m, p, n), q)
  {
    forall q | q in NewBig(m, p, n).arenas
      ensures ArenaOk(NewBig(m, p, n), q)
    {
      if q != p { assert ArenaOk(m, q); }
    }
  }

  lemma BigLive(m: Mem, p: nat, n: nat)
    requires p !in m.arenas
    ensures LivePlus(m, NewBig(m, p, n), p * 4096 + 12)
  {
    var m', b := NewBig(m, p, n), p * 4096 + 12;
    assert b / 4096 == p && b % 4096 == 12;
    assert IsBlock(m', b) && !IsFree(m', b) && !IsBlock(m, b);
    forall a: nat
      ensures IsLive(m', a) <==> IsLive(m, a) || a == b
    {
      if a / 4096 == p {
        assert IsLive(m', a) <==> a % 4096 == 12;
      } else {
        assert IsBlock(m', a) <==> IsBlock(m, a);
      }
    }
  }

  // ----- pages -----

  /** An arena on pages that were free: nobody else's pages are affected. */
  lemma ArenaAdded(m: Mem, m': Mem, at: nat, n: nat)
    requires RunAt(m.used, at, n, false) && m'.used == SetMultiple(m.used, at, n, true) && m'.base == m.base
    requires m.base + at !in m.arenas && m.base + at in m'.arenas && Pages(m'.arenas[m.base + at]) == n
    requires m'.arenas == m.arenas[m.base + at := m'.arenas[m.base + at]]
    ensures Others(m') == Others(m)
  {
    forall k: nat | k < |m.used|
      ensures k in Others(m') <==> k in Others(m)
    {
      if at <= k < at + n {
        assert m'.arenas[m.base + at] == m'.arenas[m.base + at] && InArena(m', m.base + k);
      } else {
        assert forall p {:trigger m.arenas[p]} :: p in m.arenas ==> p in m'.arenas && m'.arenas[p] == m.arenas[p];
        assert InArena(m', m.base + k) <==> InArena(m, m.base + k);
      }
    }
  }

  /** Blocks coming and going inside arenas concern no page. */
  lemma SamePages(m: Mem, m': Mem, p: nat)
    requires SameArenas(m, m', p) && m.arenas[p].desc.Some?
    ensures Others(m') == Others(m)
  {
    forall k: nat | k < |m.used|
      ensures k in Others(m') <==> k in Others(m)
    {
      assert forall q {:trigger m.arenas[q]} :: q in m.arenas ==>
        q in m'.arenas && Pages(m'.arenas[q]) == Pages(m.arenas[q]);
      if InArena(m', m.base + k) {
        var q :| q in m'.arenas && q <= m.base + k < q + Pages(m'.arenas[q]);
        assert m.arenas[q] == m.arenas[q];
      }
    }
  }

  /** An arena that is given back takes its own pages along and no others. */
  lemma ArenaDropped(m: Mem, m': Mem, p: nat)
    requires Dropped(m, m', p)
    ensures Others(m') == Others(m)
  {
    forall k: nat | k < |m.used|
      ensures k in Others(m') <==> k in Others(m)
    {
      if p <= m.base + k < p + Pages(m.arenas[p]) {
        assert InArena(m, m.base + k) && !m'.used[k];
      } else {
        assert forall q {:trigger m.arenas[q]} :: q in m.arenas && q != p ==>
          q in m'.arenas && m'.arenas[q] == m.arenas[q];
        assert InArena(m', m.base + k) <==> InArena(m, m.base + k);
      }
    }
  }
}
