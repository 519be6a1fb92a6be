/**
 Loading one segment of an ELF executable (validate_segment, the arithmetic in load, and load_segment in
 proj2/src/userprog/process.c).

 File and segment sizes are 32-bit words.  Sums that the source lets wrap are taken modulo 2^32; everything
 else is proved to stay in range.
 */
module LoadSegment {
  import opened Bytes
  import opened Words

  /** `struct Elf32_Phdr`, the fields that matter. */
  datatype Phdr = Phdr(offset: U32, vaddr: U32, filesz: U32, memsz: U32)

  function Plus(a: U32, b: U32): U32 { (a + b) % 0x1_0000_0000 }

  function RoundUp(n: int): int { (n + 4095) / 4096 * 4096 }

  /** `validate_segment`. */
  predicate ValidSegment(h: Phdr, fileLength: nat) {
    && h.offset % 4096 == h.vaddr % 4096
    && h.offset <= fileLength
    && h.memsz >= h.filesz
    && h.memsz != 0
    && h.vaddr < 0xc000_0000
    && Plus(h.vaddr, h.memsz) < 0xc000_0000
    && Plus(h.vaddr, h.memsz) >= h.vaddr
    && h.vaddr >= 4096
  }

  /** What an accepted header guarantees: a region of user memory above page 0, and no wrapping anywhere. */
  lemma ValidMeans(h: Phdr, fileLength: nat)
    ensures ValidSegment(h, fileLength) <==>
      && h.offset % 4096 == h.vaddr % 4096 && h.offset <= fileLength && h.filesz <= h.memsz && 0 < h.memsz
      && 4096 <= h.vaddr && h.vaddr + h.memsz < 0xc000_0000
  {
    if h.vaddr + h.memsz >= 0x1_0000_0000 {
      assert Plus(h.vaddr, h.memsz) == h.vaddr + h.memsz - 0x1_0000_0000;
    } else {
      assert Plus(h.vaddr, h.memsz) == h.vaddr + h.memsz;
    }
  }

  /** The arguments that `load` computes for `load_segment`. */
  datatype Args = Args(ofs: U32, upage: U32, readBytes: U32, zeroBytes: U32)

  function PageOffset(h: Phdr): U32 { h.vaddr % 4096 }

  function SegmentArgs(h: Phdr, fileLength: nat): Args
    requires ValidSegment(h, fileLength)
  {
    ValidMeans(h, fileLength);
    RoundUpBounds(PageOffset(h) + h.memsz);
    var total := RoundUp(PageOffset(h) + h.memsz);
    var readBytes := if h.filesz > 0 then PageOffset(h) + h.filesz else 0;
    Args(h.offset - h.offset % 4096, h.vaddr - h.vaddr % 4096, readBytes, total - readBytes)
  }

  lemma RoundUpBounds(n: nat)
    ensures n <= RoundUp(n) < n + 4096 && RoundUp(n) % 4096 == 0
  {
  }

  /** The assertions at the head of `load_segment`, and room below PHYS_BASE. */
  ghost predicate ArgsOk(a: Args) {
    && (a.readBytes + a.zeroBytes) % 4096 == 0 && a.upage % 4096 == 0 && a.ofs % 4096 == 0
    && 4096 <= a.upage && a.upage + a.readBytes + a.zeroBytes <= 0xc000_0000
  }

  /** Every accepted header meets them. */
  lemma ValidArgs(h: Phdr, fileLength: nat)
    requires ValidSegment(h, fileLength)
    ensures ArgsOk(SegmentArgs(h, fileLength))
  {
    ValidMeans(h, fileLength);
    RoundUpBounds(PageOffset(h) + h.memsz);
    PageBelow(h.vaddr, PageOffset(h) + h.memsz);
  }

  lemma PageBelow(vaddr: nat, n: nat)
    requires vaddr >= 4096 && vaddr - vaddr % 4096 + n < 0xc000_0000
    ensures 4096 <= vaddr - vaddr % 4096 && (vaddr - vaddr % 4096) % 4096 == 0
    ensures vaddr - vaddr % 4096 + RoundUp(n) <= 0xc000_0000
  {
    Multiple(vaddr - vaddr % 4096, RoundUp(n));
  }

  lemma Multiple(a: nat, b: nat)
    requires a % 4096 == 0 && b % 4096 == 0 && a + b < 0xc000_0000 + 4096
    ensures a + b <= 0xc000_0000
  {
  }

  // ----- memory -----

  /** A mapped page: its bytes, and whether the process may write them. */
  datatype Page = Page(data: seq<byte>, writable: bool)

  /** What `load_segment` puts j bytes above `upage`. */
  function Wanted(file: seq<byte>, a: Args, j: nat): byte {
    if j < a.readBytes && a.ofs + j < |file| then file[a.ofs + j] else 0
  }

  class AddressSpace {
    var pages: map<int, Page>

    ghost predicate Valid()
      reads this
    {
      forall p {:trigger pages[p]} :: p in pages ==> |pages[p].data| == 4096
    }

    /** What was mapped before still is, with the same bytes. */
    ghost predicate Untouched(before: map<int, Page>)
      reads this
    {
      forall p {:trigger before[p]} {:trigger p in pages} :: p in before ==> p in pages && pages[p] == before[p]
    }

    /** The first n pages of a segment are in place, in pages of their own, and all others as before. */
    ghost predicate Loaded(file: seq<byte>, a: Args, writable: bool, before: map<int, Page>, n: nat)
      reads this
    {
      && Untouched(before)
      && forall i: nat {:trigger PageAt(a, i)} :: i < n ==> PageLoaded(file, a, writable, before, i)
    }

    ghost predicate PageLoaded(file: seq<byte>, a: Args, writable: bool, before: map<int, Page>, i: nat)
      reads this
    {
      var p := PageAt(a, i);
      && p !in before && p in pages && pages[p].writable == writable && |pages[p].data| == 4096
      && forall k {:trigger pages[p].data[k]} :: 0 <= k < 4096 ==> pages[p].data[k] == Wanted(file, a, 4096 * i + k)
    }

    /** `load_segment`.  `palloc (i)` and `setPage (i)` say whether page i can be allocated and entered in the
        page tables; `install_page` also fails on a page that is already there. */
    method Load(file: seq<byte>, a: Args, writable: bool, palloc: nat -> bool, setPage: nat -> bool) returns (ok: bool)
      requires Valid() && ArgsOk(a)
      modifies this
      ensures Valid()
      ensures Untouched(old(pages)) && NewIn(old(pages), a.upage, a.upage + a.readBytes + a.zeroBytes)
      ensures ok <==> CanLoad(file, a, palloc, setPage, old(pages))
      ensures ok ==> Loaded(file, a, writable, old(pages), (a.readBytes + a.zeroBytes) / 4096)
    {
      var readBytes: U32, zeroBytes: U32, upage: U32 := a.readBytes, a.zeroBytes, a.upage;
      var pos, i: nat := a.ofs, 0;
      while readBytes > 0 || zeroBytes > 0
        invariant Valid() && Loaded(file, a, writable, old(pages), i)
        invariant Advanced(a, i, readBytes, zeroBytes, upage, pos)
        invariant NewIn(old(pages), a.upage, upage)
        invariant readBytes < a.readBytes ==> pos <= |file|
        invariant AllAvailable(a, i, palloc, setPage, old(pages))
        decreases readBytes + zeroBytes
      {
        LastPage(a, i, readBytes, zeroBytes, upage, pos);
        var pageReadBytes := if readBytes < 4096 then readBytes else 4096;
        assert PageAt(a, i) == upage && i < (a.readBytes + a.zeroBytes) / 4096;
        assert CanLoad(file, a, palloc, setPage, old(pages)) ==> Available(a, i, palloc, setPage, old(pages));
        if !palloc(i) { return false; }
        if pos + pageReadBytes > |file| && pageReadBytes > 0 { return false; }
        var data :=
          (if pageReadBytes > 0 then file[pos..pos + pageReadBytes] else []) + seq(4096 - pageReadBytes, _ => 0);
        if upage in pages || !setPage(i) { return false; }
        assert Available(a, i, palloc, setPage, old(pages));
        InstallPage(file, a, writable, old(pages), i, upage, data);
        readBytes, zeroBytes := readBytes - pageReadBytes, zeroBytes - (4096 - pageReadBytes);
        upage := upage + 4096;
        pos := pos + pageReadBytes;
        i := i + 1;
      }
      AllPages(a, i, readBytes, zeroBytes, upage, pos);
      ok := true;
    }

    /** The pages mapped since lie in this range. */
    ghost predicate NewIn(before: map<int, Page>, lo: int, hi: int)
      reads this
    {
      forall p {:trigger p in pages} :: p in pages && p !in before ==> lo <= p < hi && p % 4096 == 0
    }

    /** Address va is mapped with this permission, and holds b. */
    ghost predicate Holds(va: nat, writable: bool, b: byte)
      reads this
    {
      var p := va - va % 4096;
      p in pages && pages[p].writable == writable && |pages[p].data| == 4096 && pages[p].data[va % 4096] == b
    }

    /** Byte k of the segment: the file's byte, or zero past the part that is in the file. */
    ghost predicate SegmentByte(file: seq<byte>, h: Phdr, writable: bool, k: nat)
      reads this
    {
      Holds(h.vaddr + k, writable, if k < h.filesz && h.offset + k < |file| then file[h.offset + k] else 0)
    }

    /** One PT_LOAD header of `load`: on success the segment's bytes are the file's, then zeros. */
    method LoadHeader(file: seq<byte>, h: Phdr, writable: bool, palloc: nat -> bool, setPage: nat -> bool)
      returns (ok: bool)
      requires Valid()
      modifies this
      ensures Valid()
      ensures Untouched(old(pages)) && NewIn(old(pages), h.vaddr - h.vaddr % 4096, h.vaddr + h.memsz)
      ensures ok <==> ValidSegment(h, |file|) && CanLoadHeader(file, h, palloc, setPage, old(pages))
      ensures ok ==> forall k: nat :: k < h.memsz ==> SegmentByte(file, h, writable, k)
    {
      if !ValidSegment(h, |file|) { return false; }
      ValidArgs(h, |file|);
      var a := SegmentArgs(h, |file|);
      ok := Load(file, a, writable, palloc, setPage);
      SegmentPages(h, |file|);
      CanLoadIff(file, h, palloc, setPage, old(pages));
      if ok {
        forall k: nat | k < h.memsz
          ensures SegmentByte(file, h, writable, k)
        {
          ByteLoaded(file, h, writable, old(pages), k);
        }
      }
    }

    lemma ByteLoaded(file: seq<byte>, h: Phdr, writable: bool, before: map<int, Page>, k: nat)
      requires ValidSegment(h, |file|) && k < h.memsz
      requires var a := SegmentArgs(h, |file|); Loaded(file, a, writable, before, (a.readBytes + a.zeroBytes) / 4096)
      ensures SegmentByte(file, h, writable, k)
    {
      var a, j := SegmentArgs(h, |file|), PageOffset(h) + k;
      WantedByte(file, h, k);
      InPages(j, a.readBytes + a.zeroBytes);
      PageSplit(a.upage, j);
      ByteInPage(file, a, writable, before, j / 4096, j % 4096);
    }

    lemma ByteInPage(file: seq<byte>, a: Args, writable: bool, before: map<int, Page>, i: nat, r: nat)
      requires i < (a.readBytes + a.zeroBytes) / 4096 && r < 4096
      requires Loaded(file, a, writable, before, (a.readBytes + a.zeroBytes) / 4096)
      ensures var p := a.upage + 4096 * i;
        p in pages && pages[p].writable == writable && |pages[p].data| == 4096
        && pages[p].data[r] == Wanted(file, a, 4096 * i + r)
    {
      assert PageAt(a, i) == a.upage + 4096 * i;
      assert PageLoaded(file, a, writable, before, i);
    }

    method InstallPage(file: seq<byte>, a: Args, writable: bool, ghost before: map<int, Page>, ghost i: nat,
                       upage: U32, data: seq<byte>)
      requires Valid() && Loaded(file, a, writable, before, i)
      requires upage == PageAt(a, i) && upage !in pages && |data| == 4096
      requires forall k :: 0 <= k < 4096 ==> data[k] == Wanted(file, a, 4096 * i + k)
      modifies this
      ensures Valid() && Loaded(file, a, writable, before, i + 1)
      ensures pages.Keys == old(pages.Keys) + {upage}
    {
      ghost var pages0 := pages;
      pages := pages[upage := Page(data, writable)];
      forall j: nat | j < i + 1
        ensures PageLoaded(file, a, writable, before, j)
      {
        if j < i { assert PageAt(a, j) in pages0 && PageAt(a, j) != upage; }
      }
    }
  }

  /** Byte k of a segment, counted from its first page. */
  lemma WantedByte(file: seq<byte>, h: Phdr, k: nat)
    requires ValidSegment(h, |file|) && k < h.memsz
    ensures var a, j := SegmentArgs(h, |file|), PageOffset(h) + k;
      && j < a.readBytes + a.zeroBytes && (a.readBytes + a.zeroBytes) % 4096 == 0
      && a.upage % 4096 == 0 && a.upage + j == h.vaddr + k
      && Wanted(file, a, j) == if k < h.filesz && h.offset + k < |file| then file[h.offset + k] else 0
  {
    ValidMeans(h, |file|);
    RoundUpBounds(PageOffset(h) + h.memsz);
  }

  lemma InPages(j: nat, total: nat)
    requires j < total && total % 4096 == 0
    ensures j / 4096 < total / 4096
  {
  }

  lemma PageSplit(base: nat, j: nat)
    requires base % 4096 == 0
    ensures (base + j) % 4096 == j % 4096 && base + j - (base + j) % 4096 == base + 4096 * (j / 4096)
  {
  }

  /** Page i is not mapped, and can be. */
  ghost predicate Available(a: Args, i: nat, palloc: nat -> bool, setPage: nat -> bool, before: map<int, Page>) {
    palloc(i) && setPage(i) && PageAt(a, i) !in before
  }

  ghost predicate AllAvailable(
      a: Args, n: nat, palloc: nat -> bool, setPage: nat -> bool, before: map<int, Page>) {
    forall i: nat {:trigger Available(a, i, palloc, setPage, before)} :: i < n ==>
      Available(a, i, palloc, setPage, before)
  }

  /** When a segment can be loaded: the file has its bytes, and every page of it is available. */
  ghost predicate CanLoad(
      file: seq<byte>, a: Args, palloc: nat -> bool, setPage: nat -> bool, before: map<int, Page>) {
    && (a.readBytes == 0 || a.ofs + a.readBytes <= |file|)
    && AllAvailable(a, (a.readBytes + a.zeroBytes) / 4096, palloc, setPage, before)
  }

  /** The same of the header: i counts the pages that hold some byte of the segment. */
  ghost predicate CanLoadHeader(
      file: seq<byte>, h: Phdr, palloc: nat -> bool, setPage: nat -> bool, before: map<int, Page>) {
    && (h.filesz > 0 ==> h.offset + h.filesz <= |file|)
    && forall i: nat {:trigger palloc(i)} :: h.vaddr - h.vaddr % 4096 + 4096 * i < h.vaddr + h.memsz ==>
         palloc(i) && setPage(i) && h.vaddr - h.vaddr % 4096 + 4096 * i !in before
  }

  lemma CanLoadIff(file: seq<byte>, h: Phdr, palloc: nat -> bool, setPage: nat -> bool, before: map<int, Page>)
    requires ValidSegment(h, |file|)
    ensures CanLoad(file, SegmentArgs(h, |file|), palloc, setPage, before) <==>
      CanLoadHeader(file, h, palloc, setPage, before)
  {
    SegmentPages(h, |file|);
    var a := SegmentArgs(h, |file|);
    if CanLoad(file, a, palloc, setPage, before) {
      forall i: nat | h.vaddr - h.vaddr % 4096 + 4096 * i < h.vaddr + h.memsz
        ensures palloc(i) && setPage(i) && h.vaddr - h.vaddr % 4096 + 4096 * i !in before
      {
        assert PageAt(a, i) == h.vaddr - h.vaddr % 4096 + 4096 * i;
        assert Available(a, i, palloc, setPage, before);
      }
    }
    if CanLoadHeader(file, h, palloc, setPage, before) {
      forall i: nat | i < (a.readBytes + a.zeroBytes) / 4096
        ensures Available(a, i, palloc, setPage, before)
      {
        assert PageAt(a, i) == h.vaddr - h.vaddr % 4096 + 4096 * i;
      }
    }
  }

  /** The pages of a segment are those that hold some byte of it. */
  lemma SegmentPages(h: Phdr, fileLength: nat)
    requires ValidSegment(h, fileLength)
    ensures var a, lo := SegmentArgs(h, fileLength), h.vaddr - h.vaddr % 4096;
      && a.upage == lo
      && (a.readBytes == 0 || a.ofs + a.readBytes <= fileLength <==> h.filesz > 0 ==> h.offset + h.filesz <= fileLength)
      && (forall i: nat {:trigger PageAt(a, i)} :: PageAt(a, i) == lo + 4096 * i
            && (i < (a.readBytes + a.zeroBytes) / 4096 <==> lo + 4096 * i < h.vaddr + h.memsz))
      && (forall p: int {:trigger p % 4096} ::
            p % 4096 == 0 && p < lo + a.readBytes + a.zeroBytes ==> p < h.vaddr + h.memsz)
  {
    ValidMeans(h, fileLength);
    RoundUpBounds(PageOffset(h) + h.memsz);
  }

  /** Page i of a segment. */
  function PageAt(a: Args, i: nat): int { a.upage + 4096 * i }

  /** Where the loop variables stand after i pages. */
  ghost predicate Advanced(a: Args, i: nat, readBytes: int, zeroBytes: int, upage: int, pos: int) {
    && ArgsOk(a) && upage == PageAt(a, i) && 0 <= zeroBytes
    && readBytes == (if 4096 * i < a.readBytes then a.readBytes - 4096 * i else 0)
    && readBytes + zeroBytes == a.readBytes + a.zeroBytes - 4096 * i
    && pos == a.ofs + (a.readBytes - readBytes)
  }

  /** What is left is whole pages. */
  lemma LastPage(a: Args, i: nat, readBytes: int, zeroBytes: int, upage: int, pos: int)
    requires Advanced(a, i, readBytes, zeroBytes, upage, pos) && readBytes + zeroBytes > 0
    ensures readBytes + zeroBytes >= 4096 && upage + 4096 <= 0xc000_0000
  {
    assert (a.readBytes + a.zeroBytes - 4096 * i) % 4096 == 0;
  }

  lemma AllPages(a: Args, i: nat, readBytes: int, zeroBytes: int, upage: int, pos: int)
    requires Advanced(a, i, readBytes, zeroBytes, upage, pos) && readBytes == 0 && zeroBytes == 0
    ensures i == (a.readBytes + a.zeroBytes) / 4096
  {
  }
}
