/**
 Octal fields of a ustar header: what "%0*o" writes (proj1/src/lib/stdio.c) and what parse_octal_field
 (proj1/src/lib/ustar.c) makes of it.
 */
module Octal {
  import opened Lists
  import opened Bytes
  import opened Printf
  import opened Words

  /** "%07o" and the like. */
  function ZeroPadded(width: nat): Conversion { Conversion(false, false, false, false, true, false, width, -1) }

  function OctalText(value: nat, width: nat): seq<char> { Text(value, false, false, BaseO, ZeroPadded(width)) }

  /** The number an octal string denotes. */
  function OctalValue(s: seq<char>): int {
    if s == [] then 0 else 8 * OctalValue(s[..|s| - 1]) + (s[|s| - 1] as int - '0' as int)
  }

  ghost predicate OctalDigits(s: seq<char>) { forall i :: 0 <= i < |s| ==> '0' <= s[i] <= '7' }

  lemma {:induction false} DigitsValue(n: nat, k: nat)
    ensures OctalDigits(Backwards(Reversed(n, BaseO, false, k)))
    ensures OctalValue(Backwards(Reversed(n, BaseO, false, k))) == n
  {
    if n > 0 {
      var rest, d := Reversed(n / 8, BaseO, false, k + 1), BaseO.Digit(n % 8);
      DigitsValue(n / 8, k + 1);
      assert Reversed(n, BaseO, false, k) == [d] + rest;
      assert Backwards([d] + rest) == Backwards(rest) + [d];
      assert (Backwards(rest) + [d])[..|rest|] == Backwards(rest);
    }
  }

  lemma {:induction false} DigitsCount(n: nat, k: nat, left: nat)
    requires n < Power8(left)
    ensures |Reversed(n, BaseO, false, k)| <= left
    decreases left
  {
    if n > 0 {
      Quotient(n, 8, left);
      DigitsCount(n / 8, k + 1, left - 1);
    }
  }

  lemma {:induction false} LeadingZeros(m: int, s: seq<char>)
    requires OctalDigits(s)
    ensures OctalDigits(Repeat('0', m) + s) && OctalValue(Repeat('0', m) + s) == OctalValue(s)
    decreases |s|, m
  {
    if s != [] {
      LeadingZeros(m, s[..|s| - 1]);
      assert (Repeat('0', m) + s)[..|Repeat('0', m) + s| - 1] == Repeat('0', m) + s[..|s| - 1];
    } else if m > 0 {
      LeadingZeros(m - 1, []);
      assert Repeat('0', m) + [] == Repeat('0', m);
      assert Repeat('0', m)[..m - 1] == Repeat('0', m - 1) == Repeat('0', m - 1) + [];
    } else {
      assert Repeat('0', m) + s == [];
    }
  }

  lemma TextShape(n: nat, width: nat)
    ensures OctalText(n, width) ==
      Repeat('0', PadCnt(n, false, false, BaseO, ZeroPadded(width))) + Backwards(Buffer(n, BaseO, ZeroPadded(width)))
  {
  }

  lemma BufferShape(n: nat, width: nat)
    ensures var digits := Reversed(n, BaseO, false, 0);
      Buffer(n, BaseO, ZeroPadded(width)) == digits + Repeat('0', 1 - |digits|)
  {
  }

  /** The buffer for "%o", read backwards: the value, in at most `width` digits. */
  lemma BufferValue(n: nat, width: nat)
    requires width >= 1 && n < Power8(width)
    ensures var s := Backwards(Buffer(n, BaseO, ZeroPadded(width)));
      |s| <= width && OctalDigits(s) && OctalValue(s) == n
  {
    var digits := Reversed(n, BaseO, false, 0);
    BufferShape(n, width);
    DigitsValue(n, 0);
    DigitsCount(n, 0, width);
    BackwardsZeros(digits, 1 - |digits|);
    LeadingZeros(1 - |digits|, Backwards(digits));
  }

  /** A value with at most `width` octal digits fills the field exactly. */
  lemma FieldText(n: nat, width: nat)
    requires width >= 1 && n < Power8(width)
    ensures |OctalText(n, width)| == width && OctalDigits(OctalText(n, width)) && OctalValue(OctalText(n, width)) == n
  {
    BufferValue(n, width);
    TextShape(n, width);
    LeadingZeros(PadCnt(n, false, false, BaseO, ZeroPadded(width)), Backwards(Buffer(n, BaseO, ZeroPadded(width))));
  }

  // ----- fields in memory -----

  /** The number in the n octal digits at `at`. */
  function DigitsAt(h: seq<byte>, at: nat, n: nat): int
    requires at + n <= |h|
  {
    if n == 0 then 0 else 8 * DigitsAt(h, at, n - 1) + (h[at + n - 1] as int - 48)
  }

  /** A field of n octal digits for v, and a null. */
  ghost predicate OctalAt(h: seq<byte>, at: nat, n: nat, v: int) {
    && at + n < |h| && h[at + n] == 0 && n > 0 && DigitsAt(h, at, n) == v
    && forall i {:trigger h[i]} :: at <= i < at + n ==> 48 <= h[i] <= 55
  }

  lemma {:induction false} TextInMemory(h: seq<byte>, at: nat, s: seq<char>)
    requires at + |s| <= |h| && OctalDigits(s)
    requires forall i :: 0 <= i < |s| ==> h[at + i] as int == s[i] as int
    ensures DigitsAt(h, at, |s|) == OctalValue(s)
  {
    if s != [] { TextInMemory(h, at, s[..|s| - 1]); }
  }

  lemma {:induction false} DigitsSame(h: seq<byte>, h': seq<byte>, at: nat, n: nat)
    requires at + n <= |h| && at + n <= |h'| && forall i {:trigger h'[i]} :: at <= i < at + n ==> h'[i] == h[i]
    ensures DigitsAt(h', at, n) == DigitsAt(h, at, n)
  {
    if n > 0 { DigitsSame(h, h', at, n - 1); }
  }

  /** The bytes from lo up to hi are the same in both. */
  ghost predicate Kept(h: seq<byte>, h': seq<byte>, lo: int, hi: int) {
    |h'| == |h| && forall i {:trigger h'[i]} {:trigger h[i]} :: 0 <= lo <= i < hi <= |h| ==> h'[i] == h[i]
  }

  lemma OctalKept(h: seq<byte>, h': seq<byte>, at: nat, n: nat, v: int)
    requires OctalAt(h, at, n, v) && Kept(h, h', at, at + n + 1)
    ensures OctalAt(h', at, n, v)
  {
    DigitsSame(h, h', at, n);
  }

  method Snprintf(n: nat, value: U64) returns (buf: array<char>)
    requires n >= 1 && value < Power8(n)
    ensures fresh(buf) && buf.Length == n + 1 && buf[..n] == OctalText(value, n)
  {
    FieldText(value, n);
    buf := new char[n + 1];
    var aux := new Aux(buf);
    aux.FormatInteger(value, false, false, BaseO, ZeroPadded(n));
    var length := aux.Terminate();
    assert buf[..n] == OctalText(value, n);
  }

  method CopyText(header: array<byte>, at: nat, buf: array<char>, n: nat, ghost s: seq<char>)
    requires n <= buf.Length && buf[..n] == s && OctalDigits(s) && at + n <= header.Length
    modifies header
    ensures forall k {:trigger header[k]} :: 0 <= k < header.Length && !(at <= k < at + n) ==>
      header[k] == old(header[k])
    ensures forall k :: 0 <= k < n ==> header[at + k] as int == s[k] as int
  {
    var i := 0;
    while i < n
      invariant 0 <= i <= n && buf[..n] == s
      invariant forall k {:trigger header[k]} :: 0 <= k < header.Length && !(at <= k < at + i) ==>
        header[k] == old(header[k])
      invariant forall k :: 0 <= k < i ==> header[at + k] as int == s[k] as int
    {
      assert s[i] == buf[i];
      header[at + i] := buf[i] as byte;
      i := i + 1;
    }
  }

  /** `snprintf (field, n + 1, "%0<n>o", value)`. */
  method PutOctal(header: array<byte>, at: nat, n: nat, value: U64)
    requires n >= 1 && at + n < header.Length && value < Power8(n)
    modifies header
    ensures OctalAt(header[..], at, n, value)
    ensures Kept(old(header[..]), header[..], 0, at) && Kept(old(header[..]), header[..], at + n + 1, header.Length)
  {
    var buf := Snprintf(n, value);
    ghost var s := OctalText(value, n);
    FieldText(value, n);
    CopyText(header, at, buf, n, s);
    header[at + n] := 0;
    TextInMemory(header[..], at, s);
    forall k | at <= k < at + n ensures 48 <= header[k] <= 55 {
      assert header[at + (k - at)] as int == s[k - at] as int;
    }
  }

  // ----- parse_octal_field -----

  /** From offset ofs of a field of `size` bytes, with `value` so far.  An overflow of 32 bits fails. */
  function Parse(h: seq<byte>, at: nat, ofs: nat, size: nat, value: nat): Option<nat>
    requires at + size <= |h|
    decreases size - ofs
  {
    if ofs >= size then None
    else
      var c := h[at + ofs];
      if 48 <= c <= 55 then
        if value > 0xFFFF_FFFF / 8 then None else Parse(h, at, ofs + 1, size, (c as nat - 48) + value * 8)
      else if (c == 32 || c == 0) && ofs > 0 then Some(value)
      else None
  }

  method ParseOctalField(h: array<byte>, at: nat, size: nat) returns (r: Option<nat>)
    requires at + size <= h.Length
    ensures r == Parse(h[..], at, 0, size, 0)
    ensures r.Some? ==> r.value <= 0xFFFF_FFFF
  {
    var value: nat, ofs: nat := 0, 0;
    while ofs < size
      invariant ofs <= size && value <= 0xFFFF_FFFF
      invariant Parse(h[..], at, ofs, size, value) == Parse(h[..], at, 0, size, 0)
    {
      var c := h[at + ofs];
      if 48 <= c <= 55 {
        if value > 0xFFFF_FFFF / 8 { return None; }
        value := (c as nat - 48) + value * 8;
      } else if c == 32 || c == 0 {
        return if ofs > 0 then Some(value) else None;
      } else {
        return None;
      }
      ofs := ofs + 1;
    }
    r := None;
  }

  /** A field of `size` bytes that stands for v: n octal digits, at least one, then a space or a null, and a
      value of at most 32 bits. */
  ghost predicate FieldOf(h: seq<byte>, at: nat, size: nat, n: nat, v: int) {
    && at + size <= |h| && 0 < n < size && (h[at + n] == 32 || h[at + n] == 0)
    && DigitsAt(h, at, n) == v <= 0xFFFF_FFFF
    && forall i {:trigger h[i]} :: at <= i < at + n ==> 48 <= h[i] <= 55
  }

  /** A field is accepted, with value v, exactly if it stands for v. */
  lemma ParseIff(h: seq<byte>, at: nat, size: nat, v: nat)
    requires at + size <= |h|
    ensures Parse(h, at, 0, size, 0) == Some(v) <==> exists n :: FieldOf(h, at, size, n, v)
  {
    if n: nat :| FieldOf(h, at, size, n, v) { AcceptedFrom(h, at, size, n, v, 0); }
    if Parse(h, at, 0, size, 0) == Some(v) { var n := AcceptedField(h, at, size, 0, v); }
  }

  lemma {:induction false} AcceptedFrom(h: seq<byte>, at: nat, size: nat, n: nat, v: nat, ofs: nat)
    requires FieldOf(h, at, size, n, v) && ofs <= n
    ensures DigitsAt(h, at, ofs) >= 0 && Parse(h, at, ofs, size, DigitsAt(h, at, ofs)) == Some(v)
    decreases n - ofs
  {
    DigitsGrow(h, at, ofs, n);
    if ofs < n {
      AcceptedFrom(h, at, size, n, v, ofs + 1);
      DigitsGrow(h, at, ofs + 1, n);
      assert 48 <= h[at + ofs] <= 55;
    }
  }

  lemma {:induction false} AcceptedField(h: seq<byte>, at: nat, size: nat, ofs: nat, v: nat) returns (n: nat)
    requires at + size <= |h| && ofs <= size
    requires forall i {:trigger h[i]} :: at <= i < at + ofs ==> 48 <= h[i] <= 55
    requires 0 <= DigitsAt(h, at, ofs) <= 0xFFFF_FFFF && Parse(h, at, ofs, size, DigitsAt(h, at, ofs)) == Some(v)
    ensures FieldOf(h, at, size, n, v)
    decreases size - ofs
  {
    if 48 <= h[at + ofs] <= 55 { n := AcceptedField(h, at, size, ofs + 1, v); } else { n := ofs; }
  }

  /** A field that holds a 32-bit value parses to it. */
  lemma ParseField(h: seq<byte>, at: nat, n: nat, v: nat)
    requires OctalAt(h, at, n, v) && v <= 0xFFFF_FFFF
    ensures Parse(h, at, 0, n + 1, 0) == Some(v)
  {
    assert FieldOf(h, at, n + 1, n, v);
    ParseIff(h, at, n + 1, v);
  }

  lemma {:induction false} DigitsGrow(h: seq<byte>, at: nat, k: nat, n: nat)
    requires k <= n && at + n <= |h| && forall i {:trigger h[i]} :: at <= i < at + n ==> 48 <= h[i] <= 55
    ensures 0 <= DigitsAt(h, at, k) <= DigitsAt(h, at, n)
    decreases n
  {
    if k < n { DigitsGrow(h, at, k, n - 1); } else if n > 0 { DigitsGrow(h, at, k - 1, n - 1); }
  }
}
