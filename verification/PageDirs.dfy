/**
 Page directories as code that reads and writes entries in place (proj1/src/userprog/pagedir.c).

 Every operation is stated against the flat map; `pagedir_destroy` gives back each page exactly once.
 */
module PageDirs {
  import opened Lists
  import opened PageTables

  /** `&pt[k]`. */
  datatype EntryPtr = EntryPtr(pt: Addr, k: nat)

  class Paging {
    var tables: Tables
    var used: set<Addr>                    // pages handed out by palloc and not yet given back
    var free: set<Addr>

    ghost predicate PoolOk()
      reads this
    {
      forall p <- free :: KernelPage(p) && p !in used && p !in tables
    }

    method PallocGetPage() returns (p: Option<Addr>)
      requires PoolOk()
      modifies this`used, this`free
      ensures PoolOk() && (p == None <==> old(free) == {})
      ensures p == None ==> used == old(used) && free == old(free)
      ensures p.Some? ==> p.value in old(free) && used == old(used) + {p.value} && free == old(free) - {p.value}
    {
      if free == {} { return None; }
      var page :| page in free;
      used, free := used + {page}, free - {page};
      p := Some(page);
    }

    /** Giving back a page that is not in use would be an assertion failure in palloc. */
    method PallocFreePage(page: Addr)
      requires page in used && KernelPage(page)
      modifies this
      ensures used == old(used) - {page} && free == old(free) + {page} && tables == old(tables) - {page}
    {
      used, free, tables := used - {page}, free + {page}, tables - {page};
    }

    /** `pagedir_create`: the kernel's entries and no user page. */
    method Create(initPageDir: Addr) returns (r: Option<Addr>)
      requires PoolOk() && Valid(tables, initPageDir)
      requires forall i | 0 <= i < 768 :: tables[initPageDir][i] == ZERO
      modifies this
      ensures PoolOk() && (r == None <==> old(free) == {})
      ensures r.Some? ==> Valid(tables, r.value) && Flat(tables, r.value) == map[]
      ensures r.Some? ==> forall va {:trigger Lookup(tables, r.value, va)} ::
        Lookup(tables, r.value, va) == old(Lookup(tables, initPageDir, va))
      ensures r.Some? ==> forall va {:trigger RightsOf(tables, r.value, va)} ::
        RightsOf(tables, r.value, va) == old(RightsOf(tables, initPageDir, va))
      ensures Elsewhere(old(tables), tables, {})
    {
      ghost var m := tables;
      r := PallocGetPage();
      if r.Some? {
        tables := tables[r.value := tables[initPageDir]];
        CopyValid(m, initPageDir, r.value);
      }
    }

    /** `lookup_page`: where va's entry is.  Creating a page table changes no entry's value. */
    method LookupPage(pd: Addr, va: Addr, create: bool) returns (r: Option<EntryPtr>)
      requires PoolOk() && Valid(tables, pd) && (create ==> IsUser(va))
      modifies this
      ensures PoolOk() && Valid(tables, pd) && PdNo(va) < 1024 && PtNo(va) < 1024
      ensures forall vb {:trigger Lookup(tables, pd, vb)} :: Lookup(tables, pd, vb) == old(Lookup(tables, pd, vb))
      ensures r.Some? ==> tables[pd][PdNo(va)] != ZERO && r == Some(EntryPtr(GetPage(tables[pd][PdNo(va)]), PtNo(va)))
      ensures r.Some? ==> IsTable(tables, r.value.pt) && tables[r.value.pt][r.value.k] == Lookup(tables, pd, va)
      ensures r.None? ==> tables[pd][PdNo(va)] == ZERO && Lookup(tables, pd, va) == ZERO
      ensures r.None? <==> old(tables)[pd][PdNo(va)] == ZERO && (create ==> old(free) == {})
      ensures r.None? || !create || old(tables)[pd][PdNo(va)] != ZERO ==>
        tables == old(tables) && used == old(used) && free == old(free)
      ensures Elsewhere(old(tables), tables, {pd})
    {
      PageNumber(va);
      if tables[pd][PdNo(va)] == ZERO {
        if !create { return None; }
        var pt := PallocGetPage();
        if pt == None { return None; }
        AddTable(pd, va, pt.value);
      }
      r := Some(EntryPtr(GetPage(tables[pd][PdNo(va)]), PtNo(va)));
      assert PdeOk(tables, pd, PdNo(va));
    }

    /** The new table is zeroed and hung under the directory. */
    method AddTable(pd: Addr, va: Addr, pt: Addr)
      requires PoolOk() && Valid(tables, pd) && PdNo(va) < 1024 && tables[pd][PdNo(va)] == ZERO
      requires KernelPage(pt) && pt !in tables && pt !in free
      modifies this`tables
      ensures PoolOk() && Valid(tables, pd)
      ensures tables[pd][PdNo(va)] != ZERO && GetPage(tables[pd][PdNo(va)]) == pt
      ensures forall vb {:trigger Lookup(tables, pd, vb)} :: Lookup(tables, pd, vb) == old(Lookup(tables, pd, vb))
      ensures Elsewhere(old(tables), tables, {pd})
    {
      ghost var m := tables;
      tables := tables[pt := seq(1024, _ => ZERO)];
      tables := Stored(tables, pd, PdNo(va), PdeCreate(pt));
      TableAdded(m, pd, PdNo(va), pt, tables);
    }

    /** `*pte = e`. */
    method Store(pd: Addr, va: Addr, p: EntryPtr, e: Entry)
      requires Valid(tables, pd) && PdNo(va) < 1024 && tables[pd][PdNo(va)] != ZERO
      requires p == EntryPtr(GetPage(tables[pd][PdNo(va)]), PtNo(va))
      modifies this`tables
      ensures Valid(tables, pd) && tables.Keys == old(tables).Keys
      ensures OnlyEntry(old(tables), tables, pd, va, e)
      ensures Elsewhere(old(tables), tables, {p.pt})
    {
      ghost var m := tables;
      StoredValid(m, pd, va, e);
      tables := Stored(tables, p.pt, p.k, e);
      forall vb: Addr
        ensures Lookup(tables, pd, vb) == if PgRoundDown(vb) == PgRoundDown(va) then e else Lookup(m, pd, vb)
      {
        StoredLookup(m, pd, va, e, vb);
      }
    }

    method StorePresent(pd: Addr, upage: Addr, p: EntryPtr, e: Entry)
      requires PoolOk() && Valid(tables, pd) && IsUser(upage) && PgOfs(upage) == 0 && e.present
      requires PdNo(upage) < 1024 && tables[pd][PdNo(upage)] != ZERO
      requires p == EntryPtr(GetPage(tables[pd][PdNo(upage)]), PtNo(upage))
      modifies this`tables
      ensures PoolOk() && Valid(tables, pd)
      ensures Flat(tables, pd) == old(Flat(tables, pd))[upage := Decode(e)]
      ensures OnlyEntry(old(tables), tables, pd, upage, e)
    {
      ghost var m := tables;
      Store(pd, upage, p, e);
      FlatChanged(m, tables, pd, upage, e);
    }

    method SetPage(pd: Addr, upage: Addr, kpage: Addr, writable: bool) returns (ok: bool)
      requires PoolOk() && Valid(tables, pd)
      requires PgOfs(upage) == 0 && IsUser(upage) && KernelPage(kpage) && upage !in Flat(tables, pd)
      modifies this
      ensures PoolOk() && Valid(tables, pd) && PdNo(upage) < 1024
      ensures ok <==> old(tables)[pd][PdNo(upage)] != ZERO || old(free) != {}
      ensures !ok ==> tables == old(tables) && used == old(used)
      ensures Flat(tables, pd) ==
        if ok then old(Flat(tables, pd))[upage := Mapping(kpage, true, writable, false, false)]
        else old(Flat(tables, pd))
      ensures ok ==> Raw(Lookup(tables, pd, upage)) == kpage - 0xc000_0000 + (if writable then 7 else 5)
      ensures forall va {:trigger RightsOf(tables, pd, va)} ::
        RightsOf(tables, pd, va) ==
          if ok && PgRoundDown(va) == upage then Some(Rights(true, writable)) else old(RightsOf(tables, pd, va))
    {
      PageNumber(upage);
      ghost var m := tables;
      var pte := LookupPage(pd, upage, true);
      if pte.Some? {
        GetPageOfVtop(kpage, PteCreateUser(kpage, writable));
        SameFlat(m, tables, pd);
        CreatedRaw(kpage, writable);
        StorePresent(pd, upage, pte.value, PteCreateUser(kpage, writable));
        RightsChanged(m, tables, pd, upage, PteCreateUser(kpage, writable));
        ok := true;
      } else {
        ok := false;
      }
    }

    method GetUserPage(pd: Addr, uaddr: Addr) returns (r: Option<int>)
      requires PoolOk() && Valid(tables, pd) && IsUser(uaddr)
      modifies this
      ensures tables == old(tables) && used == old(used) && free == old(free)
      ensures var u := PgRoundDown(uaddr);
        r == if u in Flat(tables, pd) then Some(Flat(tables, pd)[u].frame + PgOfs(uaddr)) else None
    {
      var pte := LookupPage(pd, uaddr, false);
      OnePage(tables, pd, uaddr);
      if pte.Some? && tables[pte.value.pt][pte.value.k].present {
        r := Some(GetPage(tables[pte.value.pt][pte.value.k]) + PgOfs(uaddr));
      } else {
        r := None;
      }
    }

    method ClearPage(pd: Addr, upage: Addr)
      requires PoolOk() && Valid(tables, pd) && PgOfs(upage) == 0 && IsUser(upage)
      modifies this
      ensures PoolOk() && Valid(tables, pd) && used == old(used) && free == old(free)
      ensures Flat(tables, pd) == old(Flat(tables, pd)) - {upage}
      ensures forall vb {:trigger Lookup(tables, pd, vb)} ::
        var e := old(Lookup(tables, pd, vb));
        Lookup(tables, pd, vb) == if PgRoundDown(vb) == upage then e.(present := false) else e
      ensures forall va {:trigger RightsOf(tables, pd, va)} ::
        RightsOf(tables, pd, va) == if PgRoundDown(va) == upage then None else old(RightsOf(tables, pd, va))
    {
      ghost var m := tables;
      var pte := LookupPage(pd, upage, false);
      ghost var e := Lookup(m, pd, upage);
      OnePage(m, pd, upage);
      if pte.Some? && tables[pte.value.pt][pte.value.k].present {
        Store(pd, upage, pte.value, tables[pte.value.pt][pte.value.k].(present := false));
      }
      FlatChanged(m, tables, pd, upage, e.(present := false));
      RightsChanged(m, tables, pd, upage, e.(present := false));
    }

    /** The flag as it stands in the entry, whether or not the page is present. */
    method IsDirty(pd: Addr, vpage: Addr) returns (r: bool)
      requires PoolOk() && Valid(tables, pd)
      modifies this
      ensures tables == old(tables) && used == old(used) && free == old(free)
      ensures r == Lookup(tables, pd, vpage).dirty
      ensures PgRoundDown(vpage) in Flat(tables, pd) ==> r == Flat(tables, pd)[PgRoundDown(vpage)].dirty
    {
      var pte := LookupPage(pd, vpage, false);
      OnePage(tables, pd, vpage);
      r := pte.Some? && tables[pte.value.pt][pte.value.k].dirty;
    }

    /** `lookup_page (pd, va, false)`. */
    method FindEntry(pd: Addr, va: Addr) returns (r: Option<EntryPtr>)
      requires PoolOk() && Valid(tables, pd)
      modifies this
      ensures tables == old(tables) && used == old(used) && free == old(free)
      ensures PdNo(va) < 1024 && (r.Some? <==> HasTable(tables, pd, va)) && (r.None? ==> Lookup(tables, pd, va) == ZERO)
      ensures r.Some? ==> tables[pd][PdNo(va)] != ZERO && r.value == EntryPtr(GetPage(tables[pd][PdNo(va)]), PtNo(va))
      ensures r.Some? ==> IsTable(tables, r.value.pt) && r.value.k < 1024
      ensures r.Some? ==> tables[r.value.pt][r.value.k] == Lookup(tables, pd, va)
    {
      r := LookupPage(pd, va, false);
    }

    /** For any address, the kernel's too. */
    method SetDirty(pd: Addr, vpage: Addr, dirty: bool)
      requires PoolOk() && Valid(tables, pd)
      modifies this
      ensures PoolOk() && Valid(tables, pd) && used == old(used) && free == old(free)
      ensures DirtySet(old(tables), tables, pd, vpage, dirty)
    {
      ghost var m := tables;
      var pte := FindEntry(pd, vpage);
      if pte.Some? {
        Store(pd, vpage, pte.value, tables[pte.value.pt][pte.value.k].(dirty := dirty));
      }
      DirtyDone(m, tables, pd, vpage, dirty);
    }

    method IsAccessed(pd: Addr, vpage: Addr) returns (r: bool)
      requires PoolOk() && Valid(tables, pd)
      modifies this
      ensures tables == old(tables) && used == old(used) && free == old(free)
      ensures r == Lookup(tables, pd, vpage).accessed
      ensures PgRoundDown(vpage) in Flat(tables, pd) ==> r == Flat(tables, pd)[PgRoundDown(vpage)].accessed
    {
      var pte := LookupPage(pd, vpage, false);
      OnePage(tables, pd, vpage);
      r := pte.Some? && tables[pte.value.pt][pte.value.k].accessed;
    }

    method SetAccessed(pd: Addr, vpage: Addr, accessed: bool)
      requires PoolOk() && Valid(tables, pd)
      modifies this
      ensures PoolOk() && Valid(tables, pd) && used == old(used) && free == old(free)
      ensures AccessedSet(old(tables), tables, pd, vpage, accessed)
    {
      ghost var m := tables;
      var pte := FindEntry(pd, vpage);
      if pte.Some? {
        Store(pd, vpage, pte.value, tables[pte.value.pt][pte.value.k].(accessed := accessed));
      }
      AccessedDone(m, tables, pd, vpage, accessed);
    }

    /** `pagedir_destroy`: no page is given back twice (palloc would stop), and none is kept. */
    method Destroy(pd: Addr)
      requires Apart(tables, pd, used)
      modifies this
      ensures used == old(used) - old(Owned(tables, pd, 768)) - {pd}
      ensures free == old(free) + old(Owned(tables, pd, 768)) + {pd}
      ensures tables == old(tables) - old(Owned(tables, pd, 768)) - {pd}
    {
      ghost var m, u, f := tables, used, free;
      var i := 0;
      while i < 768
        invariant 0 <= i <= 768
        invariant Freed(m, u, f, Owned(m, pd, i))
        invariant pd in tables && tables[pd] == m[pd]
      {
        TableNotYet(m, pd, u, i);
        assert PdeOk(m, pd, i);
        if tables[pd][i].present {
          FreeTable(pd, i, m, u, f);
        }
        i := i + 1;
        TableNotYet(m, pd, u, i);
      }
      PallocFreePage(pd);
    }

    /** What is left of memory m with pages u in use and f free, once the pages in gone are given back. */
    ghost predicate Freed(m: Tables, u: set<Addr>, f: set<Addr>, gone: set<Addr>)
      reads this
    {
      tables == m - gone && used == u - gone && free == f + gone
    }

    /** Page table i of the directory: its frames, then itself. */
    method FreeTable(pd: Addr, i: nat, ghost m: Tables, ghost u: set<Addr>, ghost f: set<Addr>)
      requires i < 768 && Apart(m, pd, u) && Freed(m, u, f, Owned(m, pd, i))
      requires pd in tables && tables[pd] == m[pd] && m[pd][i] != ZERO
      modifies this
      ensures Freed(m, u, f, Owned(m, pd, i + 1))
    {
      TableNotYet(m, pd, u, i);
      var pt := GetPage(tables[pd][i]);
      var j := 0;
      while j < 1024
        invariant 0 <= j <= 1024
        invariant Freed(m, u, f, Owned(m, pd, i) + TableFrames(m[pt], j))
        invariant pt in tables && tables[pt] == m[pt]
      {
        if tables[pt][j].present {
          FrameNotYet(m, pd, u, i, j);
          PallocFreePage(GetPage(tables[pt][j]));
        }
        j := j + 1;
      }
      PallocFreePage(pt);
    }
  }

  /** There is a page table for va. */
  ghost predicate HasTable(m: Tables, pd: Addr, va: Addr)
    requires IsTable(m, pd)
  {
    PageNumber(va);
    m[pd][PdNo(va)] != ZERO
  }

  /** The entry for va's page is now e, and that of every other page, the kernel's included, is as it was. */
  ghost predicate OnlyEntry(m: Tables, m': Tables, pd: Addr, va: Addr, e: Entry)
    requires Valid(m, pd) && Valid(m', pd)
  {
    forall vb {:trigger Lookup(m', pd, vb)} ::
      Lookup(m', pd, vb) == if PgRoundDown(vb) == PgRoundDown(va) then e else Lookup(m, pd, vb)
  }

  /** The dirty flag of va's entry, if it has one, is set so; no other entry and nothing else in the flat map
      is different. */
  ghost predicate DirtySet(m: Tables, m': Tables, pd: Addr, va: Addr, dirty: bool)
    requires Valid(m, pd) && Valid(m', pd)
  {
    var e, f, u := Lookup(m, pd, va), Flat(m, pd), PgRoundDown(va);
    && OnlyEntry(m, m', pd, va, if HasTable(m, pd, va) then e.(dirty := dirty) else e)
    && Flat(m', pd) == if u in f then f[u := f[u].(dirty := dirty)] else f
  }

  ghost predicate AccessedSet(m: Tables, m': Tables, pd: Addr, va: Addr, accessed: bool)
    requires Valid(m, pd) && Valid(m', pd)
  {
    var e, f, u := Lookup(m, pd, va), Flat(m, pd), PgRoundDown(va);
    && OnlyEntry(m, m', pd, va, if HasTable(m, pd, va) then e.(accessed := accessed) else e)
    && Flat(m', pd) == if u in f then f[u := f[u].(accessed := accessed)] else f
  }

  lemma DirtyDone(m: Tables, m': Tables, pd: Addr, va: Addr, dirty: bool)
    requires Valid(m, pd) && Valid(m', pd)
    requires if HasTable(m, pd, va) then OnlyEntry(m, m', pd, va, Lookup(m, pd, va).(dirty := dirty)) else m' == m
    ensures DirtySet(m, m', pd, va, dirty)
  {
    var e := Lookup(m, pd, va);
    if HasTable(m, pd, va) {
      FlagsFlat(m, m', pd, va, e.(dirty := dirty));
      assert Decode(e.(dirty := dirty)) == Decode(e).(dirty := dirty);
    } else {
      NoTable(m, pd, va);
    }
  }

  lemma AccessedDone(m: Tables, m': Tables, pd: Addr, va: Addr, accessed: bool)
    requires Valid(m, pd) && Valid(m', pd)
    requires if HasTable(m, pd, va) then OnlyEntry(m, m', pd, va, Lookup(m, pd, va).(accessed := accessed)) else m' == m
    ensures AccessedSet(m, m', pd, va, accessed)
  {
    var e := Lookup(m, pd, va);
    if HasTable(m, pd, va) {
      FlagsFlat(m, m', pd, va, e.(accessed := accessed));
      assert Decode(e.(accessed := accessed)) == Decode(e).(accessed := accessed);
    } else {
      NoTable(m, pd, va);
    }
  }

  /** Flags of a kernel page are not part of the flat map. */
  lemma FlagsFlat(m: Tables, m': Tables, pd: Addr, va: Addr, e: Entry)
    requires Valid(m, pd) && Valid(m', pd) && OnlyEntry(m, m', pd, va, e) && e.present == Lookup(m, pd, va).present
    ensures var u, f := PgRoundDown(va), Flat(m, pd);
      && Flat(m', pd) == (if u in f then f[u := Decode(e)] else f)
      && (u in f ==> f[u] == Decode(Lookup(m, pd, va)))
  {
    OnePage(m, pd, va);
    if IsUser(va) {
      FlatChanged(m, m', pd, va, e);
    } else {
      KernelFlat(m, m', pd, va, e);
    }
  }

  lemma KernelFlat(m: Tables, m': Tables, pd: Addr, va: Addr, e: Entry)
    requires Valid(m, pd) && Valid(m', pd) && OnlyEntry(m, m', pd, va, e) && !IsUser(va)
    ensures Flat(m', pd) == Flat(m, pd)
  {
    forall u: Addr | u < 0xc000_0000
      ensures Lookup(m', pd, u) == Lookup(m, pd, u)
    {
      assert PgRoundDown(u) != PgRoundDown(va);
    }
    assert forall u: Addr {:trigger Mapped(m', pd, u)} | u < 0xc000_0000 :: Mapped(m', pd, u) <==> Mapped(m, pd, u);
  }

  /** Pages outside ps that held tables still do, unchanged. */
  ghost predicate Elsewhere(m: Tables, m': Tables, ps: set<Addr>) {
    forall p {:trigger m'[p]} {:trigger p in m'} :: p in m && p !in ps ==> p in m' && m'[p] == m[p]
  }

  lemma CopyValid(m: Tables, init: Addr, pd: Addr)
    requires Valid(m, init) && KernelPage(pd) && pd !in m
    requires forall i | 0 <= i < 768 :: m[init][i] == ZERO
    ensures var m' := m[pd := m[init]];
      && Valid(m', pd) && Flat(m', pd) == map[]
      && (forall va {:trigger Lookup(m', pd, va)} :: Lookup(m', pd, va) == Lookup(m, init, va))
      && forall va {:trigger RightsOf(m', pd, va)} :: RightsOf(m', pd, va) == RightsOf(m, init, va)
  {
    var m' := m[pd := m[init]];
    forall i | 0 <= i < 1024
      ensures PdeOk(m', pd, i)
    {
      assert PdeOk(m, init, i);
    }
    forall va: Addr
      ensures Lookup(m', pd, va) == Lookup(m, init, va) && (IsUser(va) ==> Lookup(m', pd, va) == ZERO)
      ensures RightsOf(m', pd, va) == RightsOf(m, init, va)
    {
      PageNumber(va);
      assert PdeOk(m, init, PdNo(va));
      RightsLookup(m, init, va);
      RightsLookup(m', pd, va);
    }
    assert forall u: Addr | IsUser(u) :: !Mapped(m', pd, u);
  }

  /** One entry changed: so do the rights to that page, and to no other address. */
  lemma RightsChanged(m: Tables, m': Tables, pd: Addr, va: Addr, e: Entry)
    requires Valid(m, pd) && Valid(m', pd) && OnlyEntry(m, m', pd, va, e)
    ensures forall vb {:trigger RightsOf(m', pd, vb)} ::
      RightsOf(m', pd, vb) ==
        if PgRoundDown(vb) != PgRoundDown(va) then RightsOf(m, pd, vb)
        else if e.present then Some(Rights(e.user, e.writable)) else None
  {
    forall vb: Addr
      ensures RightsOf(m', pd, vb) ==
        if PgRoundDown(vb) != PgRoundDown(va) then RightsOf(m, pd, vb)
        else if e.present then Some(Rights(e.user, e.writable)) else None
    {
      RightsLookup(m, pd, vb);
      RightsLookup(m', pd, vb);
    }
  }

  /** One entry changed: the flat map changes at that page only. */
  lemma FlatChanged(m: Tables, m': Tables, pd: Addr, va: Addr, e: Entry)
    requires Valid(m, pd) && Valid(m', pd) && IsUser(va)
    requires forall vb {:trigger Lookup(m', pd, vb)} ::
      Lookup(m', pd, vb) == if PgRoundDown(vb) == PgRoundDown(va) then e else Lookup(m, pd, vb)
    ensures var u := PgRoundDown(va);
      Flat(m', pd) == if e.present then Flat(m, pd)[u := Decode(e)] else Flat(m, pd) - {u}
  {
    var u := PgRoundDown(va);
    forall x: Addr | x % 4096 == 0
      ensures Lookup(m', pd, x) == if x == u then e else Lookup(m, pd, x)
    {
      assert PgRoundDown(x) == x && PgRoundDown(u) == u;
    }
    FlatByPages(m, m', pd, u, e);
  }

  lemma SameFlat(m: Tables, m': Tables, pd: Addr)
    requires Valid(m, pd) && Valid(m', pd)
    requires forall vb {:trigger Lookup(m', pd, vb)} :: Lookup(m', pd, vb) == Lookup(m, pd, vb)
    ensures Flat(m', pd) == Flat(m, pd)
  {
    assert forall u: Addr {:trigger Mapped(m', pd, u)} :: Mapped(m', pd, u) <==> Mapped(m, pd, u);
  }

  lemma NoTable(m: Tables, pd: Addr, va: Addr)
    requires Valid(m, pd) && !HasTable(m, pd, va)
    ensures PgRoundDown(va) !in Flat(m, pd) && OnlyEntry(m, m, pd, va, Lookup(m, pd, va))
  {
    OnePage(m, pd, va);
  }

  lemma FlatByPages(m: Tables, m': Tables, pd: Addr, u: Addr, e: Entry)
    requires Valid(m, pd) && Valid(m', pd) && IsUser(u) && u % 4096 == 0
    requires forall x: Addr {:trigger Lookup(m', pd, x)} {:trigger Lookup(m, pd, x)} | x % 4096 == 0 ::
      Lookup(m', pd, x) == if x == u then e else Lookup(m, pd, x)
    ensures Flat(m', pd) == if e.present then Flat(m, pd)[u := Decode(e)] else Flat(m, pd) - {u}
  {
    assert forall x: Addr {:trigger Mapped(m', pd, x)} ::
      Mapped(m', pd, x) <==> if x == u then e.present else Mapped(m, pd, x);
    var f, f' := Flat(m, pd), Flat(m', pd);
    assert forall x :: x in f' <==> if x == u then e.present else x in f;
    assert forall x :: x in f' && x != u ==> f'[x] == f[x];
    OneKey(f, f', u, if e.present then Some(Decode(e)) else None);
  }

  /** All addresses of a page share its entry, and its line in the flat map. */
  lemma OnePage(m: Tables, pd: Addr, va: Addr)
    requires Valid(m, pd)
    ensures PgRoundDown(PgRoundDown(va)) == PgRoundDown(va)
    ensures forall vb {:trigger Lookup(m, pd, vb)} :: PgRoundDown(vb) == PgRoundDown(va) ==>
      Lookup(m, pd, vb) == Lookup(m, pd, va)
    ensures PgRoundDown(va) in Flat(m, pd) <==> IsUser(va) && Lookup(m, pd, va).present
    ensures PgRoundDown(va) in Flat(m, pd) ==> Flat(m, pd)[PgRoundDown(va)] == Decode(Lookup(m, pd, va))
  {
    forall vb: Addr | PgRoundDown(vb) == PgRoundDown(va)
      ensures Lookup(m, pd, vb) == Lookup(m, pd, va)
    {
      SamePage(va, vb);
    }
    var u := PgRoundDown(va);
    assert u % 4096 == 0 && Lookup(m, pd, u) == Lookup(m, pd, va);
    assert u in Flat(m, pd) <==> IsUser(u) && Mapped(m, pd, u);
  }

  /** Two maps that agree but for one key. */
  lemma OneKey(f: map<Addr, Mapping>, f': map<Addr, Mapping>, u: Addr, v: Option<Mapping>)
    requires forall x :: x in f' <==> if x == u then v.Some? else x in f
    requires forall x :: x in f' && x != u ==> f'[x] == f[x]
    requires v.Some? ==> f'[u] == v.value
    ensures f' == if v.Some? then f[u := v.value] else f - {u}
  {
  }
}
