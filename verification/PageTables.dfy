/**
 Two-level x86 page tables (proj1/src/threads/pte.h, vaddr.h and proj1/src/userprog/pagedir.c) and the flat
 map from user pages to frames they stand for.
 */
module PageTables {
  import opened Lists
  import opened Words

  // ----- addresses (vaddr.h) -----

  type Addr = U32

  function PgOfs(va: Addr): int { va % 4096 }

  function PgRoundDown(va: Addr): Addr { va - va % 4096 }

  /** Below PHYS_BASE. */
  predicate IsUser(va: Addr) { va < 0xc000_0000 }

  /** The kernel address of a page of physical memory. */
  predicate KernelPage(page: Addr) { page % 4096 == 0 && 0xc000_0000 <= page }

  function PdNo(va: Addr): nat { va / 0x40_0000 }

  function PtNo(va: Addr): nat { va / 4096 % 1024 }

  /** Two addresses have the same two entry numbers exactly when they are in one page. */
  lemma SamePage(va: Addr, vb: Addr)
    ensures PgRoundDown(va) == PgRoundDown(vb) <==> PdNo(va) == PdNo(vb) && PtNo(va) == PtNo(vb)
  {
    PageNumber(va);
    PageNumber(vb);
  }

  lemma PageNumber(va: Addr)
    ensures va / 4096 == 1024 * PdNo(va) + PtNo(va) && PgRoundDown(va) == 4096 * (va / 4096)
    ensures PdNo(va) < 1024 && PtNo(va) < 1024 && (IsUser(va) <==> PdNo(va) < 768)
  {
    var q, r := va / 4096, va % 4096;
    var a, b := q / 1024, q % 1024;
    assert va == 0x40_0000 * a + (4096 * b + r);
    assert PdNo(va) == a;
  }

  /** The page with given entry numbers. */
  function PageAt(i: nat, j: nat): (va: Addr)
    requires i < 1024 && j < 1024
    ensures PdNo(va) == i && PtNo(va) == j && PgRoundDown(va) == va
  {
    var va := 4096 * (1024 * i + j);
    assert va / 4096 == 1024 * i + j;
    va
  }

  // ----- entries (pte.h) -----

  /** Physical frame numbers the kernel can reach: physical memory is mapped from PHYS_BASE up. */
  type Frame = f: nat | f < 0x4_0000

  /** A 32-bit entry, by its fields; `high` are the bits 7 to 11, `mid` the bits 3 and 4. */
  datatype Entry = Entry(
    frame: Frame, high: bits5, dirty: bool, accessed: bool, mid: bits2, user: bool, writable: bool, present: bool)

  type bits5 = b: nat | b < 32

  type bits2 = b: nat | b < 4

  const ZERO := Entry(0, 0, false, false, 0, false, false, false)

  function Bit(b: bool, k: nat): nat { if b then k else 0 }

  /** The word itself: frame in bits 12 and up, flags below. */
  function Raw(e: Entry): nat { 4096 * e.frame + (128 * e.high + Low(e)) }

  function Low(e: Entry): (r: nat)
    ensures r < 128
  {
    Bit(e.dirty, 0x40) + Bit(e.accessed, 0x20) + 8 * e.mid + Bit(e.user, 4) + Bit(e.writable, 2) + Bit(e.present, 1)
  }

  /** No two entries are the same word, so what holds of entries holds of words. */
  lemma RawInjective(e: Entry, f: Entry)
    requires Raw(e) == Raw(f)
    ensures e == f
  {
    Digits(4096, e.frame, 128 * e.high + Low(e), f.frame, 128 * f.high + Low(f));
    Digits(128, e.high, Low(e), f.high, Low(f));
    FlagsInjective(e, f);
  }

  lemma Digits(base: nat, a: nat, x: nat, b: nat, y: nat)
    requires x < base && y < base && base * a + x == base * b + y
    ensures a == b && x == y
  {
    assert a < b ==> base * (a + 1) <= base * b;
    assert b < a ==> base * (b + 1) <= base * a;
  }

  lemma FlagsInjective(e: Entry, f: Entry)
    requires Low(e) == Low(f)
    ensures e.dirty == f.dirty && e.accessed == f.accessed && e.mid == f.mid
    ensures e.user == f.user && e.writable == f.writable && e.present == f.present
  {
  }

  /** `vtop`, as a frame number. */
  function Vtop(page: Addr): Frame
    requires KernelPage(page)
  {
    (page - 0xc000_0000) / 4096
  }

  /** `pde_get_pt` and `pte_get_page`. */
  function GetPage(e: Entry): (page: Addr)
    ensures KernelPage(page) && Vtop(page) == e.frame
  {
    4096 * e.frame + 0xc000_0000
  }

  function PdeCreate(pt: Addr): Entry
    requires KernelPage(pt)
  {
    Entry(Vtop(pt), 0, false, false, 0, true, true, true)
  }

  function PteCreateKernel(page: Addr, writable: bool): Entry
    requires KernelPage(page)
  {
    Entry(Vtop(page), 0, false, false, 0, false, writable, true)
  }

  function PteCreateUser(page: Addr, writable: bool): Entry
    requires KernelPage(page)
  {
    PteCreateKernel(page, writable).(user := true)
  }

  /** The words themselves: the physical address with bit 0 for present, bit 1 for writable, bit 2 for user. */
  lemma CreatedRaw(page: Addr, writable: bool)
    requires KernelPage(page)
    ensures Raw(PdeCreate(page)) == page - 0xc000_0000 + 7
    ensures Raw(PteCreateKernel(page, writable)) == page - 0xc000_0000 + (if writable then 3 else 1)
    ensures Raw(PteCreateUser(page, writable)) == page - 0xc000_0000 + (if writable then 7 else 5)
  {
    assert 4096 * Vtop(page) == page - 0xc000_0000;
  }

  lemma GetPageOfVtop(page: Addr, e: Entry)
    requires KernelPage(page) && e.frame == Vtop(page)
    ensures GetPage(e) == page
  {
  }

  // ----- the two levels -----

  /** The pages of memory used as directories and tables, by address. */
  type Tables = map<Addr, seq<Entry>>

  predicate IsTable(m: Tables, p: Addr) { p in m && |m[p]| == 1024 }

  /** Entry i of the directory is zero, or points to a page table and leaves all access rights to it. */
  ghost predicate PdeOk(m: Tables, pd: Addr, i: nat)
    requires IsTable(m, pd) && i < 1024
  {
    var pde := m[pd][i];
    || pde == ZERO
    || (pde.present && pde.user && pde.writable && GetPage(pde) != pd && IsTable(m, GetPage(pde)))
  }

  ghost predicate Valid(m: Tables, pd: Addr) {
    && IsTable(m, pd) && KernelPage(pd)
    && (forall i {:trigger PdeOk(m, pd, i)} | 0 <= i < 1024 :: PdeOk(m, pd, i))
    && (forall i, j {:trigger m[pd][i], m[pd][j]} | 0 <= i < j < 1024 ::
          m[pd][i] != ZERO && m[pd][j] != ZERO ==> m[pd][i].frame != m[pd][j].frame)
  }

  /** The page table entry for va; zero where there is no page table. */
  ghost function Lookup(m: Tables, pd: Addr, va: Addr): Entry
    requires Valid(m, pd)
  {
    PageNumber(va);
    assert PdeOk(m, pd, PdNo(va));
    var pde := m[pd][PdNo(va)];
    if pde == ZERO then ZERO else m[GetPage(pde)][PtNo(va)]
  }

  // ----- what the processor allows -----

  /** What code may do with a page: user code may use it at all, and it may be written. */
  datatype Rights = Rights(user: bool, write: bool)

  /** The processor's rule: the page must be present in both levels, and each right is given by both. */
  ghost function RightsOf(m: Tables, pd: Addr, va: Addr): Option<Rights>
    requires Valid(m, pd)
  {
    PageNumber(va);
    assert PdeOk(m, pd, PdNo(va));
    var pde, pte := m[pd][PdNo(va)], Lookup(m, pd, va);
    if pde.present && pte.present then Some(Rights(pde.user && pte.user, pde.writable && pte.writable)) else None
  }

  /** In a valid directory the page table entry alone decides. */
  lemma RightsLookup(m: Tables, pd: Addr, va: Addr)
    requires Valid(m, pd)
    ensures var e := Lookup(m, pd, va);
      RightsOf(m, pd, va) == if e.present then Some(Rights(e.user, e.writable)) else None
  {
    PageNumber(va);
    assert PdeOk(m, pd, PdNo(va));
  }

  // ----- the flat map -----

  datatype Mapping = Mapping(frame: Addr, user: bool, writable: bool, accessed: bool, dirty: bool)

  function Decode(e: Entry): Mapping { Mapping(GetPage(e), e.user, e.writable, e.accessed, e.dirty) }

  /** Every user page that is mapped, with what it is mapped to. */
  ghost function Flat(m: Tables, pd: Addr): map<Addr, Mapping>
    requires Valid(m, pd)
  {
    map u: Addr | 0 <= u < 0xc000_0000 && Mapped(m, pd, u) :: Decode(Lookup(m, pd, u))
  }

  ghost predicate Mapped(m: Tables, pd: Addr, u: Addr)
    requires Valid(m, pd)
  {
    u % 4096 == 0 && Lookup(m, pd, u).present
  }

  /** The processor lets through accesses to user addresses exactly as the flat map says. */
  lemma FlatRights(m: Tables, pd: Addr, va: Addr)
    requires Valid(m, pd) && IsUser(va)
    ensures var u, f := PgRoundDown(va), Flat(m, pd);
      RightsOf(m, pd, va) == if u in f then Some(Rights(f[u].user, f[u].writable)) else None
  {
    var u := PgRoundDown(va);
    assert u % 4096 == 0 && PgRoundDown(u) == u;
    SamePage(va, u);
    RightsLookup(m, pd, va);
    assert Lookup(m, pd, u) == Lookup(m, pd, va);
    assert u in Flat(m, pd) <==> Mapped(m, pd, u);
  }

  /** Memory with entry k of page p overwritten. */
  function Stored(m: Tables, p: Addr, k: nat, e: Entry): (m': Tables)
    requires IsTable(m, p) && k < 1024
    ensures IsTable(m', p) && m'.Keys == m.Keys && m'[p][k] == e
    ensures forall j {:trigger m'[p][j]} | 0 <= j < 1024 && j != k :: m'[p][j] == m[p][j]
    ensures forall q {:trigger m'[q]} | q in m && q != p :: m'[q] == m[q]
  {
    m[p := m[p][k := e]]
  }

  /** Storing an entry in va's slot of the page table keeps the directory valid. */
  lemma StoredValid(m: Tables, pd: Addr, va: Addr, e: Entry)
    requires Valid(m, pd) && PdNo(va) < 1024 && m[pd][PdNo(va)] != ZERO
    ensures var pt := GetPage(m[pd][PdNo(va)]);
      pt != pd && IsTable(m, pt) && Valid(Stored(m, pt, PtNo(va), e), pd)
  {
    assert PdeOk(m, pd, PdNo(va));
    var m' := Stored(m, GetPage(m[pd][PdNo(va)]), PtNo(va), e);
    forall i | 0 <= i < 1024
      ensures PdeOk(m', pd, i)
    {
      assert PdeOk(m, pd, i);
    }
  }

  /** ... and changes the entry of va's page, and no other. */
  lemma StoredLookup(m: Tables, pd: Addr, va: Addr, e: Entry, vb: Addr)
    requires Valid(m, pd) && PdNo(va) < 1024 && m[pd][PdNo(va)] != ZERO
    ensures var pt := GetPage(m[pd][PdNo(va)]);
      && IsTable(m, pt) && Valid(Stored(m, pt, PtNo(va), e), pd)
      && Lookup(Stored(m, pt, PtNo(va), e), pd, vb) ==
         if PgRoundDown(va) == PgRoundDown(vb) then e else Lookup(m, pd, vb)
  {
    StoredValid(m, pd, va, e);
    SamePage(va, vb);
    PageNumber(vb);
    assert PdeOk(m, pd, PdNo(va)) && PdeOk(m, pd, PdNo(vb));
  }

  /** An empty page table under a directory entry that was zero changes no lookup. */
  lemma TableAdded(m: Tables, pd: Addr, i: nat, pt: Addr, m': Tables)
    requires Valid(m, pd) && i < 1024 && m[pd][i] == ZERO && KernelPage(pt) && pt !in m
    requires m' == Stored(m[pt := seq(1024, _ => ZERO)], pd, i, PdeCreate(pt))
    ensures Valid(m', pd) && m'[pd][i] != ZERO && GetPage(m'[pd][i]) == pt
    ensures forall va {:trigger Lookup(m', pd, va)} :: Lookup(m', pd, va) == Lookup(m, pd, va)
  {
    GetPageOfVtop(pt, PdeCreate(pt));
    forall j | 0 <= j < 1024
      ensures PdeOk(m', pd, j) && (j != i && m[pd][j] != ZERO ==> m[pd][j].frame != Vtop(pt))
    {
      assert PdeOk(m, pd, j);
    }
    forall va: Addr
      ensures Lookup(m', pd, va) == Lookup(m, pd, va)
    {
      PageNumber(va);
      assert PdeOk(m, pd, PdNo(va)) && PdeOk(m', pd, PdNo(va));
    }
  }

  // ----- what a directory owns -----

  /** The frames that the first j entries of a page table map. */
  ghost function TableFrames(t: seq<Entry>, j: nat): set<Addr>
    requires j <= |t|
  {
    if j == 0 then {} else TableFrames(t, j - 1) + if t[j - 1].present then {GetPage(t[j - 1])} else {}
  }

  /** The page tables under the first i entries of a directory, and the frames they map. */
  ghost function Owned(m: Tables, pd: Addr, i: nat): set<Addr>
    requires Valid(m, pd) && i <= 1024
  {
    if i == 0 then {} else
      assert PdeOk(m, pd, i - 1);
      var pde := m[pd][i - 1];
      Owned(m, pd, i - 1) + if pde == ZERO then {} else TableFrames(m[GetPage(pde)], 1024) + {GetPage(pde)}
  }

  /** No frame is mapped twice or used as a table; all that hangs under the directory is allocated. */
  ghost predicate Apart(m: Tables, pd: Addr, used: set<Addr>) {
    && Valid(m, pd) && m.Keys <= used
    && (forall u {:trigger Flat(m, pd)[u]} | u in Flat(m, pd) ::
          Flat(m, pd)[u].frame in used && Flat(m, pd)[u].frame !in m)
    && (forall u, v {:trigger Flat(m, pd)[u], Flat(m, pd)[v]} | u in Flat(m, pd) && v in Flat(m, pd) && u != v ::
          Flat(m, pd)[u].frame != Flat(m, pd)[v].frame)
  }

  /** Entry b of table a, as the page it maps. */
  lemma EntryMaps(m: Tables, pd: Addr, a: nat, b: nat)
    requires Valid(m, pd) && a < 768 && b < 1024 && m[pd][a] != ZERO
    ensures IsTable(m, GetPage(m[pd][a]))
    ensures var u, e := PageAt(a, b), m[GetPage(m[pd][a])][b];
      (u in Flat(m, pd) <==> e.present) && (e.present ==> Flat(m, pd)[u] == Decode(e))
  {
    assert PdeOk(m, pd, a);
    var u := PageAt(a, b);
    PageNumber(u);
    assert Mapped(m, pd, u) <==> m[GetPage(m[pd][a])][b].present;
  }

  lemma {:induction false} InTable(t: seq<Entry>, j: nat, x: Addr) returns (b: nat)
    requires j <= |t| && x in TableFrames(t, j)
    ensures b < j && t[b].present && GetPage(t[b]) == x
  {
    if t[j - 1].present && GetPage(t[j - 1]) == x { b := j - 1; } else { b := InTable(t, j - 1, x); }
  }

  /** Where a page owned by the first i entries hangs: it is table a, or the frame in entry b of table a. */
  lemma {:induction false} InOwned(m: Tables, pd: Addr, i: nat, x: Addr) returns (a: nat, b: nat)
    requires Valid(m, pd) && i <= 768 && x in Owned(m, pd, i)
    ensures a < i && b < 1024 && m[pd][a] != ZERO && IsTable(m, GetPage(m[pd][a]))
    ensures x == GetPage(m[pd][a]) || (m[GetPage(m[pd][a])][b].present && x == GetPage(m[GetPage(m[pd][a])][b]))
  {
    assert PdeOk(m, pd, i - 1);
    var pde := m[pd][i - 1];
    a, b := i - 1, 0;
    if x in Owned(m, pd, i - 1) {
      a, b := InOwned(m, pd, i - 1, x);
    } else if x != GetPage(pde) {
      b := InTable(m[GetPage(pde)], 1024, x);
    }
  }

  /** The frame in entry j of table i is not among the pages freed before it. */
  lemma FrameNotYet(m: Tables, pd: Addr, used: set<Addr>, i: nat, j: nat)
    requires Apart(m, pd, used) && i < 768 && j < 1024 && m[pd][i] != ZERO && IsTable(m, GetPage(m[pd][i]))
    requires m[GetPage(m[pd][i])][j].present
    ensures var x := GetPage(m[GetPage(m[pd][i])][j]);
      x in used && x !in m && x !in Owned(m, pd, i) && x !in TableFrames(m[GetPage(m[pd][i])], j)
  {
    var t := m[GetPage(m[pd][i])];
    var x := GetPage(t[j]);
    EntryMaps(m, pd, i, j);
    assert Flat(m, pd)[PageAt(i, j)].frame == x;
    if x in Owned(m, pd, i) {
      var a, b := InOwned(m, pd, i, x);
      EntryMaps(m, pd, a, b);
      TwoPages(m, pd, used, PageAt(i, j), PageAt(a, b));
    }
    if x in TableFrames(t, j) {
      var b := InTable(t, j, x);
      EntryMaps(m, pd, i, b);
      TwoPages(m, pd, used, PageAt(i, j), PageAt(i, b));
    }
  }

  lemma TwoPages(m: Tables, pd: Addr, used: set<Addr>, u: Addr, v: Addr)
    requires Apart(m, pd, used) && u in Flat(m, pd) && v in Flat(m, pd) && u != v
    ensures Flat(m, pd)[u].frame != Flat(m, pd)[v].frame
  {
  }

  /** Table i is not among the pages freed before it, nor is the directory. */
  lemma TableNotYet(m: Tables, pd: Addr, used: set<Addr>, i: nat)
    requires Apart(m, pd, used) && i <= 768
    ensures pd !in Owned(m, pd, i)
    ensures i < 768 && m[pd][i] != ZERO ==>
      && IsTable(m, GetPage(m[pd][i])) && GetPage(m[pd][i]) != pd
      && GetPage(m[pd][i]) !in Owned(m, pd, i) && GetPage(m[pd][i]) !in TableFrames(m[GetPage(m[pd][i])], 1024)
  {
    if pd in Owned(m, pd, i) {
      var a, b := InOwned(m, pd, i, pd);
      EntryMaps(m, pd, a, b);
      NotATable(m, pd, used, a, b, pd);
    }
    if i < 768 && m[pd][i] != ZERO {
      assert PdeOk(m, pd, i);
      var x := GetPage(m[pd][i]);
      if x in Owned(m, pd, i) {
        var a, b := InOwned(m, pd, i, x);
        EntryMaps(m, pd, a, b);
        NotATable(m, pd, used, a, b, x);
      }
      if x in TableFrames(m[x], 1024) {
        var b := InTable(m[x], 1024, x);
        EntryMaps(m, pd, i, b);
        NotATable(m, pd, used, i, b, x);
      }
    }
  }

  lemma NotATable(m: Tables, pd: Addr, used: set<Addr>, a: nat, b: nat, x: Addr)
    requires Apart(m, pd, used) && a < 768 && b < 1024 && m[pd][a] != ZERO && IsTable(m, GetPage(m[pd][a])) && x in m
    requires m[GetPage(m[pd][a])][b].present
    ensures GetPage(m[GetPage(m[pd][a])][b]) != x
  {
    EntryMaps(m, pd, a, b);
    assert Flat(m, pd)[PageAt(a, b)].frame !in m;
  }

  /** What a directory owns, by the flat map: its user page tables and every frame a user page is mapped to. */
  lemma OwnedMeans(m: Tables, pd: Addr, x: Addr)
    requires Valid(m, pd)
    ensures x in Owned(m, pd, 768) <==>
      || (exists a: nat {:trigger m[pd][a]} :: a < 768 && m[pd][a] != ZERO && x == GetPage(m[pd][a]))
      || (exists u {:trigger Flat(m, pd)[u]} :: u in Flat(m, pd) && Flat(m, pd)[u].frame == x)
  {
    if x in Owned(m, pd, 768) {
      var a, b := InOwned(m, pd, 768, x);
      EntryMaps(m, pd, a, b);
      if x != GetPage(m[pd][a]) { assert Flat(m, pd)[PageAt(a, b)].frame == x; }
    }
    forall a: nat | a < 768 && m[pd][a] != ZERO && x == GetPage(m[pd][a])
      ensures x in Owned(m, pd, 768)
    {
      OwnsTable(m, pd, a, 768);
    }
    forall u | u in Flat(m, pd) && Flat(m, pd)[u].frame == x
      ensures x in Owned(m, pd, 768)
    {
      PageNumber(u);
      assert Mapped(m, pd, u) && m[pd][PdNo(u)] != ZERO;
      OwnsTable(m, pd, PdNo(u), 768);
      OwnsFrame(m[GetPage(m[pd][PdNo(u)])], PtNo(u), 1024);
    }
  }

  lemma {:induction false} OwnsTable(m: Tables, pd: Addr, a: nat, i: nat)
    requires Valid(m, pd) && a < i <= 768 && m[pd][a] != ZERO
    ensures var pt := GetPage(m[pd][a]);
      IsTable(m, pt) && pt in Owned(m, pd, i) && TableFrames(m[pt], 1024) <= Owned(m, pd, i)
  {
    assert PdeOk(m, pd, i - 1);
    if a < i - 1 { OwnsTable(m, pd, a, i - 1); }
  }

  lemma {:induction false} OwnsFrame(t: seq<Entry>, b: nat, j: nat)
    requires b < j <= |t| && t[b].present
    ensures GetPage(t[b]) in TableFrames(t, j)
  {
    if b < j - 1 { OwnsFrame(t, b, j - 1); }
  }
}
