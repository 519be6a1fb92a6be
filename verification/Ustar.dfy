/**
 Archive headers (proj1/src/lib/ustar.c), in the "ustar Interchange Format" of the pax utility, IEEE Std 1003.1:
 what ustar_make_header writes, ustar_parse_header reads back.
 */
module Ustar {
  import opened Lists
  import opened Bytes
  import opened Tokens
  import opened Octal
  import opened Printf
  import opened Words

  const REGULAR: byte := 48                // '0'
  const DIRECTORY: byte := 53              // '5'

  const USTAR: seq<byte> := [117, 115, 116, 97, 114]
  const ROOT: seq<byte> := [114, 111, 111, 116]

  // ----- strip_antisocial_prefixes -----

  const SLASH: byte := 47
  const DOT: byte := 46

  /** From i on the name starts with "/", "./" or "../". */
  predicate Antisocial(s: seq<byte>, i: nat) {
    || (i < |s| && s[i] == SLASH)
    || (i + 1 < |s| && s[i] == DOT && s[i + 1] == SLASH)
    || (i + 2 < |s| && s[i] == DOT && s[i + 1] == DOT && s[i + 2] == SLASH)
  }

  /** `strchr (s + i, '/')`. */
  function Slash(s: seq<byte>, i: nat): (j: nat)
    requires i <= |s|
    ensures i <= j <= |s| && (j < |s| ==> s[j] == SLASH) && forall k :: i <= k < j ==> s[k] != SLASH
    decreases |s| - i
  {
    if i == |s| || s[i] == SLASH then i else Slash(s, i + 1)
  }

  /** Where the name starts once all such prefixes are gone. */
  function Start(s: seq<byte>, i: nat): (j: nat)
    requires i <= |s|
    ensures i <= j <= |s| && !Antisocial(s, j)
    decreases |s| - i
  {
    if Antisocial(s, i) then Start(s, Slash(s, i) + 1) else i
  }

  function Strip(s: seq<byte>): (r: seq<byte>) {
    var r := s[Start(s, 0)..];
    if r == [] || r == [DOT, DOT] then [DOT] else r
  }

  /** Stripping leaves no such prefix, and stripping again changes nothing. */
  lemma StripTwice(s: seq<byte>)
    ensures var r := Strip(s); !Antisocial(r, 0) && r != [] && r != [DOT, DOT] && Strip(r) == r
    ensures IsCString(s) ==> IsCString(Strip(s))
  {
    var r := Strip(s);
    assert !Antisocial(r, 0);
    assert r[0..] == r;
  }

  method StripAntisocialPrefixes(fileName: seq<byte>) returns (r: seq<byte>)
    ensures r == Strip(fileName)
  {
    var i: nat := 0;
    while Antisocial(fileName, i)
      invariant i <= |fileName| && Start(fileName, i) == Start(fileName, 0)
      decreases |fileName| - i
    {
      var j := i;
      while fileName[j] != SLASH
        invariant i <= j <= Slash(fileName, i) < |fileName|
        decreases |fileName| - j
      {
        j := j + 1;
      }
      i := j + 1;
    }
    r := if i == |fileName| || fileName[i..] == [DOT, DOT] then [DOT] else fileName[i..];
  }

  // ----- calculate_chksum -----

  function Counted(h: seq<byte>, i: nat): nat
    requires i < |h|
  {
    if 148 <= i < 156 then 32 else h[i] as nat
  }

  function Sum(h: seq<byte>, n: nat): (r: nat)
    requires n <= |h|
    ensures r <= 255 * n
  {
    if n == 0 then 0 else Sum(h, n - 1) + Counted(h, n - 1)
  }

  /** The checksum does not depend on the checksum field. */
  lemma {:induction false} SumOutside(h: seq<byte>, h': seq<byte>, n: nat)
    requires n <= |h| == 512 && Kept(h, h', 0, 148) && Kept(h, h', 156, 512)
    ensures Sum(h', n) == Sum(h, n)
  {
    if n > 0 {
      SumOutside(h, h', n - 1);
      if !(148 <= n - 1 < 156) { assert h'[n - 1] == h[n - 1]; }
    }
  }

  method CalculateChksum(h: array<byte>) returns (chksum: nat)
    requires h.Length == 512
    ensures chksum == Sum(h[..], 512)
  {
    chksum := 0;
    var i := 0;
    while i < 512
      invariant 0 <= i <= 512 && chksum == Sum(h[..], i)
    {
      chksum := chksum + if 148 <= i < 156 then 32 else h[i] as nat;
      i := i + 1;
    }
  }

  // ----- ustar_make_header -----

  ghost predicate Zeros(h: seq<byte>, lo: nat, hi: nat) {
    hi <= |h| && forall i {:trigger h[i]} :: lo <= i < hi ==> h[i] == 0
  }

  /** name, mode, uid, gid, size and mtime. */
  ghost predicate LowPart(h: seq<byte>, name: seq<byte>, typ: byte, size: nat) {
    && StringAt(h, 0, name) && Zeros(h, |name|, 100)
    && OctalAt(h, 100, 7, if typ == REGULAR then 0x1a4 else 0x1ed)
    && OctalAt(h, 108, 7, 0) && OctalAt(h, 116, 7, 0)
    && OctalAt(h, 124, 11, size) && OctalAt(h, 136, 11, 1136102400)
  }

  /** typeflag, linkname, magic, version, uname, gname, and nothing after them. */
  ghost predicate HighPart(h: seq<byte>, typ: byte) {
    && |h| == 512 && h[156] == typ && Zeros(h, 157, 257)
    && StringAt(h, 257, USTAR) && h[263] == 48 && h[264] == 48
    && StringAt(h, 265, ROOT) && StringAt(h, 297, ROOT) && Zeros(h, 329, 512)
  }

  /** A complete header. */
  ghost predicate Written(h: seq<byte>, name: seq<byte>, typ: byte, size: nat) {
    LowPart(h, name, typ, size) && HighPart(h, typ) && OctalAt(h, 148, 7, Sum(h, 512))
  }

  lemma StringKept(h: seq<byte>, h': seq<byte>, at: nat, s: seq<byte>)
    requires StringAt(h, at, s) && Kept(h, h', at, at + |s| + 1)
    ensures StringAt(h', at, s)
  {
  }

  /** `strlcpy` of a string that fits. */
  method PutString(header: array<byte>, at: nat, s: seq<byte>)
    requires IsCString(s) && at + |s| < header.Length
    modifies header
    ensures StringAt(header[..], at, s)
    ensures Kept(old(header[..]), header[..], 0, at) && Kept(old(header[..]), header[..], at + |s| + 1, header.Length)
  {
    var i := 0;
    while i < |s|
      invariant 0 <= i <= |s|
      invariant forall k :: 0 <= k < i ==> header[at + k] == s[k]
      invariant Kept(old(header[..]), header[..], 0, at)
      invariant Kept(old(header[..]), header[..], at + |s| + 1, header.Length)
    {
      header[at + i] := s[i];
      i := i + 1;
    }
    header[at + |s|] := 0;
  }

  lemma OctalRanges()
    ensures Power8(7) == 0x20_0000 && Power8(11) == 0x2_0000_0000
  {
    assert Power8(4) == 0x1000;
    assert Power8(8) == 0x100_0000;
  }

  /** Only the bytes from lo up to hi have changed. */
  ghost predicate Within(h: seq<byte>, h': seq<byte>, lo: nat, hi: nat) { Kept(h, h', 0, lo) && Kept(h, h', hi, |h|) }

  method PutIds(header: array<byte>, typ: byte)
    requires header.Length == 512
    modifies header
    ensures var h := header[..];
      OctalAt(h, 100, 7, if typ == REGULAR then 0x1a4 else 0x1ed) && OctalAt(h, 108, 7, 0) && OctalAt(h, 116, 7, 0)
    ensures Within(old(header[..]), header[..], 100, 124)
  {
    OctalRanges();
    ghost var mode := if typ == REGULAR then 0x1a4 else 0x1ed;
    PutOctal(header, 100, 7, if typ == REGULAR then 0x1a4 else 0x1ed);
    ghost var h1 := header[..];
    PutOctal(header, 108, 7, 0);
    ghost var h2 := header[..];
    OctalKept(h1, h2, 100, 7, mode);
    PutOctal(header, 116, 7, 0);
    OctalKept(h2, header[..], 100, 7, mode);
    OctalKept(h2, header[..], 108, 7, 0);
  }

  method PutSizes(header: array<byte>, size: nat)
    requires header.Length == 512 && size < 0x1_0000_0000
    modifies header
    ensures OctalAt(header[..], 124, 11, size) && OctalAt(header[..], 136, 11, 1136102400)
    ensures Within(old(header[..]), header[..], 124, 148)
  {
    OctalRanges();
    PutOctal(header, 124, 11, size);
    ghost var h1 := header[..];
    PutOctal(header, 136, 11, 1136102400);
    OctalKept(h1, header[..], 124, 11, size);
  }

  /** The fields up to mtime, in a zeroed header. */
  method PutLow(header: array<byte>, name: seq<byte>, typ: byte, size: nat)
    requires header.Length == 512 && IsCString(name) && |name| <= 99
    requires Zeros(header[..], 0, 512) && size < 0x1_0000_0000
    modifies header
    ensures LowPart(header[..], name, typ, size) && Zeros(header[..], 148, 512)
  {
    PutString(header, 0, name);
    ghost var h1 := header[..];
    PutIds(header, typ);
    ghost var h2 := header[..];
    PutSizes(header, size);
    LowKept(h1, h2, header[..], name, typ);
  }

  lemma LowKept(h1: seq<byte>, h2: seq<byte>, h3: seq<byte>, name: seq<byte>, typ: byte)
    requires |h1| == 512 && |name| <= 99 && StringAt(h1, 0, name) && Zeros(h1, |name|, 512)
    requires Within(h1, h2, 100, 124) && Within(h2, h3, 124, 148)
    requires OctalAt(h2, 100, 7, if typ == REGULAR then 0x1a4 else 0x1ed)
    requires OctalAt(h2, 108, 7, 0) && OctalAt(h2, 116, 7, 0)
    ensures StringAt(h3, 0, name) && Zeros(h3, |name|, 100) && Zeros(h3, 148, 512)
    ensures OctalAt(h3, 100, 7, if typ == REGULAR then 0x1a4 else 0x1ed)
    ensures OctalAt(h3, 108, 7, 0) && OctalAt(h3, 116, 7, 0)
  {
    assert Kept(h1, h3, 0, 100) && Kept(h1, h3, 148, 512);
    StringKept(h1, h3, 0, name);
    OctalKept(h2, h3, 100, 7, if typ == REGULAR then 0x1a4 else 0x1ed);
    OctalKept(h2, h3, 108, 7, 0);
    OctalKept(h2, h3, 116, 7, 0);
  }

  /** The fields from typeflag on. */
  method PutHigh(header: array<byte>, typ: byte)
    requires header.Length == 512 && Zeros(header[..], 148, 512)
    modifies header
    ensures HighPart(header[..], typ) && Kept(old(header[..]), header[..], 0, 156)
  {
    header[156] := typ;
    PutString(header, 257, USTAR);
    ghost var h1 := header[..];
    header[263], header[264] := 48, 48;
    ghost var h2 := header[..];
    PutString(header, 297, ROOT);
    ghost var h3 := header[..];
    PutString(header, 265, ROOT);
    StringKept(h1, h2, 257, USTAR);
    StringKept(h2, header[..], 257, USTAR);
    StringKept(h3, header[..], 297, ROOT);
  }

  method Zero(header: array<byte>)
    requires header.Length == 512
    modifies header
    ensures Zeros(header[..], 0, 512)
  {
    var i := 0;
    while i < 512
      invariant 0 <= i <= 512 && forall k :: 0 <= k < i ==> header[k] == 0
    {
      header[i] := 0;
      i := i + 1;
    }
  }

  /** `ustar_make_header`.  A negative size is written as the unsigned number with the same bits. */
  method MakeHeader(fileName: seq<byte>, typ: byte, size: I32, header: array<byte>) returns (ok: bool)
    requires IsCString(fileName) && header.Length == 512 && (typ == REGULAR || typ == DIRECTORY)
    modifies header
    ensures ok <==> |Strip(fileName)| <= 99
    ensures ok ==> Written(header[..], Strip(fileName), typ, Unsigned(size))
    ensures !ok ==> header[..] == old(header[..])
  {
    StripTwice(fileName);
    var name := StripAntisocialPrefixes(fileName);
    if |name| > 99 { return false; }
    Zero(header);
    PutLow(header, name, typ, Unsigned(size));
    ghost var h1 := header[..];
    PutHigh(header, typ);
    ghost var h2 := header[..];
    LowStays(h1, h2, name, typ, Unsigned(size));
    var chksum := CalculateChksum(header);
    OctalRanges();
    PutOctal(header, 148, 7, chksum);
    SumOutside(h2, header[..], 512);
    LowStays(h2, header[..], name, typ, Unsigned(size));
    HighStays(h2, header[..], typ);
    ok := true;
  }

  function Unsigned(size: I32): nat { if size >= 0 then size else size + 0x1_0000_0000 }

  lemma LowStays(h: seq<byte>, h': seq<byte>, name: seq<byte>, typ: byte, size: nat)
    requires |h| == 512 && |name| <= 99 && LowPart(h, name, typ, size) && Kept(h, h', 0, 148)
    ensures LowPart(h', name, typ, size)
  {
    StringKept(h, h', 0, name);
    OctalKept(h, h', 100, 7, if typ == REGULAR then 0x1a4 else 0x1ed);
    OctalKept(h, h', 108, 7, 0);
    OctalKept(h, h', 116, 7, 0);
    OctalKept(h, h', 124, 11, size);
    OctalKept(h, h', 136, 11, 1136102400);
  }

  lemma HighStays(h: seq<byte>, h': seq<byte>, typ: byte)
    requires HighPart(h, typ) && Kept(h, h', 156, 512)
    ensures HighPart(h', typ)
  {
    StringKept(h, h', 257, USTAR);
    StringKept(h, h', 265, ROOT);
    StringKept(h, h', 297, ROOT);
  }

  // ----- ustar_parse_header -----

  /** The messages, in the order in which they are considered. */
  datatype Failure = NotUstar | InvalidVersion | CorruptChksum | ChksumMismatch | NameTooLong | UnimplementedType
                   | CorruptSize | TooLarge

  datatype Parsed = Eof | File(name: seq<byte>, typ: byte, size: I32) | Error(failure: Failure)

  predicate AllZeros(h: seq<byte>) { forall i :: 0 <= i < |h| ==> h[i] == 0 }

  predicate HasMagic(h: seq<byte>)
    requires |h| == 512
  {
    h[257..263] == USTAR + [0]
  }

  function ParseHeader(h: seq<byte>): Parsed
    requires |h| == 512
  {
    if AllZeros(h) then Eof
    else if !HasMagic(h) then Error(NotUstar)
    else if h[263] != 48 || h[264] != 48 then Error(InvalidVersion)
    else
      var chksum := Parse(h, 148, 0, 8, 0);
      if chksum == None then Error(CorruptChksum)
      else if chksum != Some(Sum(h, 512)) then Error(ChksumMismatch)
      else if h[99] != 0 || h[345] != 0 then Error(NameTooLong)
      else if h[156] != REGULAR && h[156] != DIRECTORY then Error(UnimplementedType)
      else ParseRest(h)
  }

  /** The size, of a regular file only, and the name. */
  function ParseRest(h: seq<byte>): Parsed
    requires |h| == 512
  {
    var name := Strip(CString(h[..100]));
    if h[156] == DIRECTORY then File(name, DIRECTORY, 0)
    else
      match Parse(h, 124, 0, 12, 0)
      case None => Error(CorruptSize)
      case Some(size) => if size > 0x7FFF_FFFF then Error(TooLarge) else File(name, REGULAR, size)
  }

  /** Reading back what was written: the name as stripped, the type, and the size of a regular file. */
  lemma RoundTrip(h: seq<byte>, fileName: seq<byte>, typ: byte, size: I32)
    requires IsCString(fileName) && |Strip(fileName)| <= 99 && (typ == REGULAR || typ == DIRECTORY)
    requires Written(h, Strip(fileName), typ, Unsigned(size))
    ensures ParseHeader(h) ==
      if typ == DIRECTORY then File(Strip(fileName), typ, 0)
      else if size >= 0 then File(Strip(fileName), typ, size)
      else Error(TooLarge)
  {
    Identified(h, typ);
    ParseField(h, 148, 7, Sum(h, 512));
    RestRead(h, fileName, typ, size);
  }

  lemma RestRead(h: seq<byte>, fileName: seq<byte>, typ: byte, size: I32)
    requires IsCString(fileName) && |Strip(fileName)| <= 99 && (typ == REGULAR || typ == DIRECTORY)
    requires |h| == 512 && h[156] == typ && StringAt(h, 0, Strip(fileName)) && OctalAt(h, 124, 11, Unsigned(size))
    ensures ParseRest(h) ==
      if typ == DIRECTORY then File(Strip(fileName), typ, 0)
      else if size >= 0 then File(Strip(fileName), typ, size)
      else Error(TooLarge)
  {
    StripTwice(fileName);
    ParseField(h, 124, 11, Unsigned(size));
    NameRead(h, Strip(fileName));
  }

  /** A field of the header that stands for v. */
  ghost predicate Holds(h: seq<byte>, at: nat, size: nat, v: int) { exists n :: FieldOf(h, at, size, n, v) }

  /** A block is accepted exactly if it carries the magic, the version and its own checksum, a name that ends in
      its field with no prefix, one of the two types and, for a regular file, a size of at most INT_MAX. */
  lemma AcceptedIff(h: seq<byte>, name: seq<byte>, typ: byte, size: I32)
    requires |h| == 512
    ensures ParseHeader(h) == File(name, typ, size) <==>
      && HasMagic(h) && h[263] == 48 && h[264] == 48 && Holds(h, 148, 8, Sum(h, 512))
      && h[99] == 0 && h[345] == 0 && name == Strip(CString(h[..100]))
      && h[156] == typ && (typ == REGULAR || typ == DIRECTORY)
      && (if typ == DIRECTORY then size == 0 else size >= 0 && Holds(h, 124, 12, size))
  {
    ParseIff(h, 148, 8, Sum(h, 512));
    if size >= 0 { ParseIff(h, 124, 12, size); }
    if HasMagic(h) { assert h[257..263][0] == h[257]; }
  }

  /** A changed byte outside the checksum field never goes unnoticed. */
  lemma OneByteDetected(h: seq<byte>, at: nat, b: byte)
    requires |h| == 512 && ParseHeader(h).File? && at < 512 && !(148 <= at < 156) && h[at] != b
    ensures ParseHeader(h[at := b]).Error?
  {
    var h' := h[at := b];
    SumChanged(h, at, b, 512);
    ParseSame(h, h', 148, 0, 8, 0);
    assert !AllZeros(h');
  }

  lemma {:induction false} SumChanged(h: seq<byte>, at: nat, b: byte, n: nat)
    requires |h| == 512 && at < 512 && !(148 <= at < 156) && n <= 512
    ensures Sum(h[at := b], n) == Sum(h, n) + if at < n then b as int - h[at] as int else 0
  {
    if n > 0 { SumChanged(h, at, b, n - 1); }
  }

  lemma {:induction false} ParseSame(h: seq<byte>, h': seq<byte>, at: nat, ofs: nat, size: nat, value: nat)
    requires at + size <= |h| == |h'| && ofs <= size && Kept(h, h', at, at + size)
    ensures Parse(h', at, ofs, size, value) == Parse(h, at, ofs, size, value)
    decreases size - ofs
  {
    if ofs < size {
      assert h'[at + ofs] == h[at + ofs];
      if 48 <= h[at + ofs] <= 55 && value <= 0xFFFF_FFFF / 8 {
        ParseSame(h, h', at, ofs + 1, size, (h[at + ofs] as nat - 48) + value * 8);
      }
    }
  }

  lemma Identified(h: seq<byte>, typ: byte)
    requires HighPart(h, typ)
    ensures !AllZeros(h) && HasMagic(h)
  {
    assert h[257 + 0] == USTAR[0];
    var magic := h[257..263];
    forall i | 0 <= i < 6
      ensures magic[i] == (USTAR + [0])[i]
    {
      if i < 5 { assert h[257 + i] == USTAR[i]; }
    }
  }

  lemma NameRead(h: seq<byte>, name: seq<byte>)
    requires |h| == 512 && |name| <= 99 && StringAt(h, 0, name)
    ensures CString(h[..100]) == name
  {
    forall i | 0 <= i < |name|
      ensures h[..100][i] == name[i]
    {
      assert h[0 + i] == name[i];
    }
    CStringOf(h[..100], name);
  }

  /** `is_all_zeros`. */
  method IsAllZeros(block: array<byte>) returns (r: bool)
    ensures r == AllZeros(block[..])
  {
    var i := 0;
    while i < block.Length
      invariant 0 <= i <= block.Length && forall k :: 0 <= k < i ==> block[k] == 0
    {
      if block[i] != 0 {
        assert block[..][i] != 0;
        return false;
      }
      i := i + 1;
    }
    r := true;
  }

  /** `memcmp (h->magic, "ustar", 6) == 0`. */
  method CheckMagic(h: array<byte>) returns (r: bool)
    requires h.Length == 512
    ensures r == HasMagic(h[..])
  {
    ghost var magic := h[..][257..263];
    var i := 0;
    while i < 6
      invariant 0 <= i <= 6 && forall k :: 0 <= k < i ==> magic[k] == (USTAR + [0])[k]
    {
      if h[257 + i] != (USTAR + [0])[i] {
        assert magic[i] != (USTAR + [0])[i];
        return false;
      }
      assert magic[i] == h[257 + i];
      i := i + 1;
    }
    r := true;
  }

  /** `ustar_parse_header`. */
  method ParseBlock(h: array<byte>) returns (p: Parsed)
    requires h.Length == 512
    ensures p == ParseHeader(h[..])
  {
    var zeros := IsAllZeros(h);
    if zeros { return Eof; }
    var magic := CheckMagic(h);
    if !magic { return Error(NotUstar); }
    if h[263] != 48 || h[264] != 48 { return Error(InvalidVersion); }
    var chksum := ParseOctalField(h, 148, 8);
    if chksum.None? { return Error(CorruptChksum); }
    var sum := CalculateChksum(h);
    if chksum.value != sum { return Error(ChksumMismatch); }
    if h[99] != 0 || h[345] != 0 { return Error(NameTooLong); }
    if h[156] != REGULAR && h[156] != DIRECTORY { return Error(UnimplementedType); }
    p := ParseBlockRest(h);
  }

  method ParseBlockRest(h: array<byte>) returns (p: Parsed)
    requires h.Length == 512
    ensures p == ParseRest(h[..])
  {
    var size := 0;
    if h[156] != DIRECTORY {
      var field := ParseOctalField(h, 124, 12);
      if field.None? { return Error(CorruptSize); }
      if field.value > 0x7FFF_FFFF { return Error(TooLarge); }
      size := field.value;
    }
    var name := StripAntisocialPrefixes(CString(h[..100]));
    assert h[..100] == h[..][..100];
    p := File(name, if h[156] == DIRECTORY then DIRECTORY else REGULAR, size);
  }
}
