/**
 Formatting integers (proj1/src/lib/stdio.c: format_integer, output_dup, vsnprintf and its helper) and
 reading them back (atoi in proj1/src/lib/stdlib.c).
 */
module Printf {
  import opened Words

  /** The four `struct integer_base` tables, and what is in them. */
  datatype Base = BaseD | BaseO | BaseX | BaseUpperX {
    function Radix(): nat { match this case BaseD => 10 case BaseO => 8 case _ => 16 }

    function GroupSize(): nat { if BaseX? || BaseUpperX? then 4 else 3 }

    /** '\0' for none. */
    function X(): char { match this case BaseX => 'x' case BaseUpperX => 'X' case _ => '\0' }

    function Digit(d: nat): char
      requires d < Radix()
    {
      if d < 10 then '0' + d as char else if BaseX? then 'a' + (d - 10) as char else 'A' + (d - 10) as char
    }
  }

  /** `struct printf_conversion` as far as an integer conversion looks at it. */
  datatype Conversion = Conversion(
    minus: bool, plus: bool, space: bool, pound: bool, zero: bool, group: bool, width: int, precision: int)

  predicate IsDigit(ch: char) { '0' <= ch <= '9' }

  // ----- what is written -----

  function Repeat(ch: char, n: int): (r: seq<char>)
    ensures |r| == if n > 0 then n else 0
    ensures forall i :: 0 <= i < |r| ==> r[i] == ch
  {
    if n <= 0 then [] else [ch] + Repeat(ch, n - 1)
  }

  /** The digits of value from the least significant up, with commas between groups; k digits came before. */
  function Reversed(value: nat, b: Base, group: bool, k: nat): seq<char>
  {
    if value == 0 then []
    else Comma(b, group, k) + [b.Digit(value % b.Radix())] + Reversed(value / b.Radix(), b, group, k + 1)
  }

  /** The comma before the next digit, where there is one. */
  function Comma(b: Base, group: bool, k: nat): seq<char> {
    if group && k > 0 && k % b.GroupSize() == 0 then [','] else []
  }

  /** The contents of the digit buffer. */
  function Buffer(value: nat, b: Base, c: Conversion): seq<char> { Padded(Reversed(value, b, c.group, 0), b, c) }

  /** The digits, zeros up to the precision, and a leading zero for "%#o". */
  function Padded(digits: seq<char>, b: Base, c: Conversion): seq<char> {
    var precision := if c.precision < 0 then 1 else c.precision;
    var padded := digits + Repeat('0', (if precision < 63 then precision else 63) - |digits|);
    if c.pound && b.BaseO? && (padded == [] || padded[|padded| - 1] != '0') then padded + ['0'] else padded
  }

  /** The sign character, '\0' for none. */
  function Sign(isSigned: bool, negative: bool, c: Conversion): char {
    if !isSigned then '\0'
    else if c.plus then if negative then '-' else '+'
    else if c.space then if negative then '-' else ' '
    else if negative then '-' else '\0'
  }

  /** The character after the 0 of "0x", '\0' for none. */
  function Prefix(value: nat, b: Base, c: Conversion): char {
    if c.pound && value != 0 then b.X() else '\0'
  }

  /** The sign and the "0x", where present. */
  function Mark(sign: char, x: char): seq<char> {
    (if sign != '\0' then [sign] else []) + (if x != '\0' then ['0', x] else [])
  }

  function PadCnt(value: nat, isSigned: bool, negative: bool, b: Base, c: Conversion): nat
  {
    var pad := c.width - |Buffer(value, b, c)| - |Mark(Sign(isSigned, negative, c), Prefix(value, b, c))|;
    if pad < 0 then 0 else pad
  }

  function Backwards(s: seq<char>): (r: seq<char>)
    ensures |r| == |s|
    ensures forall i :: 0 <= i < |s| ==> r[i] == s[|s| - 1 - i]
  {
    if s == [] then [] else [s[|s| - 1]] + Backwards(s[..|s| - 1])
  }

  /** The field around the digits in `buf`. */
  function Field(sign: char, x: char, pad: nat, c: Conversion, buf: seq<char>): seq<char> {
    (if !c.minus && !c.zero then Repeat(' ', pad) else []) + Mark(sign, x)
    + (if c.zero then Repeat('0', pad) else []) + Backwards(buf) + (if c.minus then Repeat(' ', pad) else [])
  }

  lemma BackwardsZeros(digits: seq<char>, m: int)
    ensures Backwards(digits + Repeat('0', m)) == Repeat('0', m) + Backwards(digits)
  {
  }

  /** All that one integer conversion writes. */
  function Text(value: nat, isSigned: bool, negative: bool, b: Base, c: Conversion): seq<char>
  {
    Field(Sign(isSigned, negative, c), Prefix(value, b, c), PadCnt(value, isSigned, negative, b, c), c,
          Buffer(value, b, c))
  }

  // ----- the 64-byte buffer -----

  function Power8(n: nat): nat { if n == 0 then 1 else 8 * Power8(n - 1) }

  lemma {:induction false} ReversedLength(value: nat, b: Base, group: bool, k: nat, left: nat)
    requires value < Power8(left)
    ensures |Reversed(value, b, group, k)| <= 2 * left
    decreases left
  {
    if value > 0 {
      Quotient(value, b.Radix(), left);
      ReversedLength(value / b.Radix(), b, group, k + 1, left - 1);
    }
  }

  lemma Quotient(value: nat, base: nat, left: nat)
    requires base >= 8 && 0 < value < Power8(left)
    ensures left > 0 && value / base < Power8(left - 1)
  {
    var q := value / base;
    assert base * q <= value && 8 * q <= base * q;
  }

  lemma Shrinks(value: nat, base: nat)
    requires base >= 8 && value > 0
    ensures value / base < value
  {
    var q := value / base;
    assert base * q <= value && 8 * q <= base * q;
  }

  /** Every 64-bit value fits, in every base and with any grouping, precision and flags. */
  lemma BufferFits(value: U64, b: Base, c: Conversion)
    ensures |Reversed(value, b, c.group, 0)| <= 44 && |Buffer(value, b, c)| <= 64
  {
    assert Power8(4) == 0x1000;
    assert Power8(8) == 0x100_0000;
    assert Power8(12) == 0x10_0000_0000;
    assert Power8(16) == 0x1_0000_0000_0000;
    assert Power8(20) == 0x1000_0000_0000_0000;
    ReversedLength(value, b, c.group, 0, 22);
  }

  lemma Regroup3(t: seq<char>, a: seq<char>, b: seq<char>, c: seq<char>)
    ensures t + a + b + c == t + (a + b + c)
  {
    assert t + a + b == t + (a + b);
  }

  lemma Regroup(t: seq<char>, a: seq<char>, b: seq<char>, c: seq<char>, d: seq<char>, e: seq<char>)
    ensures t + a + b + c + d + e == t + (a + b + c + d + e)
  {
    assert t + a + b == t + (a + b);
    assert t + (a + b) + c == t + (a + b + c);
    assert t + (a + b + c) + d == t + (a + b + c + d);
  }

  // ----- where the characters go -----

  /** `struct vsnprintf_aux`. */
  class Aux {
    const buffer: array<char>
    var p: nat
    var length: nat
    const maxLength: nat
    ghost var text: seq<char>              // all that has been written, kept or not

    ghost predicate Valid()
      reads this, buffer
    {
      && maxLength <= buffer.Length && (buffer.Length > 0 ==> maxLength < buffer.Length)
      && length == |text| && p == (if length < maxLength then length else maxLength)
      && buffer[..p] == text[..p]
    }

    /** The start of `vsnprintf`. */
    constructor (buffer: array<char>)
      ensures Valid() && this.buffer == buffer && text == []
      ensures maxLength == if buffer.Length > 0 then buffer.Length - 1 else 0
    {
      this.buffer, p, length, text := buffer, 0, 0, [];
      maxLength := if buffer.Length > 0 then buffer.Length - 1 else 0;
    }

    /** `vsnprintf_helper`. */
    method Output(ch: char)
      requires Valid()
      modifies this, buffer
      ensures Valid() && text == old(text) + [ch]
    {
      if length < maxLength {
        buffer[p] := ch;
        p := p + 1;
      }
      length := length + 1;
      text := text + [ch];
    }

    /** `output_dup`. */
    method OutputDup(ch: char, cnt: int)
      requires Valid()
      modifies this, buffer
      ensures Valid() && text == old(text) + Repeat(ch, cnt)
    {
      var n := cnt;
      while n > 0
        invariant Valid()
        invariant text + Repeat(ch, n) == old(text) + Repeat(ch, cnt)
      {
        assert text + Repeat(ch, n) == text + [ch] + Repeat(ch, n - 1);
        Output(ch);
        n := n - 1;
      }
    }

    /** The end of `vsnprintf`: the longest prefix that fits, a terminator, and the full length. */
    method Terminate() returns (r: int)
      requires Valid() && maxLength == if buffer.Length > 0 then buffer.Length - 1 else 0
      modifies this, buffer
      ensures r == |text| && text == old(text)
      ensures buffer.Length > 0 ==>
        var kept := if |text| < buffer.Length then |text| else buffer.Length - 1;
        buffer[..kept] == text[..kept] && buffer[kept] == '\0'
    {
      if buffer.Length > 0 {
        buffer[p] := '\0';
      }
      r := length;
    }

    // ----- format_integer -----

    /** The loop that accumulates digits. */
    method Digits(value0: U64, b: Base, group: bool, buf: array<char>) returns (cp: nat)
      requires buf.Length == 64
      modifies buf
      ensures cp <= 44 && buf[..cp] == Reversed(value0, b, group, 0)
    {
      BufferFits(value0, b, Conversion(false, false, false, false, false, group, 0, 0));
      var value: nat, digitCnt: nat := value0, 0;
      ghost var done: seq<char> := [];
      cp := 0;
      while value > 0
        invariant cp <= 44 && buf[..cp] == done
        invariant done + Reversed(value, b, group, digitCnt) == Reversed(value0, b, group, 0)
        decreases value
      {
        Regroup3(done, Comma(b, group, digitCnt), [b.Digit(value % b.Radix())],
                 Reversed(value / b.Radix(), b, group, digitCnt + 1));
        cp, done := PutDigit(value, b, group, digitCnt, buf, cp, done);
        Shrinks(value, b.Radix());
        value := value / b.Radix();
        digitCnt := digitCnt + 1;
      }
    }

    /** One turn of it. */
    method PutDigit(value: nat, b: Base, group: bool, digitCnt: nat, buf: array<char>, cp0: nat, ghost done0: seq<char>)
      returns (cp: nat, ghost done: seq<char>)
      requires buf.Length == 64 && cp0 <= 44 && buf[..cp0] == done0
      modifies buf
      ensures done == done0 + Comma(b, group, digitCnt) + [b.Digit(value % b.Radix())]
      ensures cp == |done| && cp <= 64 && buf[..cp] == done
    {
      cp, done := cp0, done0;
      if group && digitCnt > 0 && digitCnt % b.GroupSize() == 0 {
        cp := Append(buf, cp, ',', done);
        done := done + [','];
      }
      assert done == done0 + Comma(b, group, digitCnt);
      cp := Append(buf, cp, b.Digit(value % b.Radix()), done);
      done := done + [b.Digit(value % b.Radix())];
    }

    /** `*cp++ = ch`. */
    method Append(buf: array<char>, cp0: nat, ch: char, ghost done: seq<char>) returns (cp: nat)
      requires cp0 < buf.Length && buf[..cp0] == done
      modifies buf
      ensures cp == cp0 + 1 && buf[..cp] == done + [ch]
    {
      buf[cp0] := ch;
      cp := cp0 + 1;
    }

    /** The zeros after them. */
    method Zeros(precision: int, buf: array<char>, cp0: nat) returns (cp: nat)
      requires buf.Length == 64 && cp0 <= 44
      modifies buf
      ensures cp <= 63 && buf[..cp] == old(buf[..cp0]) + Repeat('0', (if precision < 63 then precision else 63) - cp0)
    {
      ghost var goal, done := if precision < 63 then precision else 63, buf[..cp0];
      ghost var full := done + Repeat('0', goal - cp0);
      cp := cp0;
      while cp < precision && cp < 63
        invariant cp0 <= cp <= 63 && buf[..cp] == done
        invariant done + Repeat('0', goal - cp) == full
      {
        assert done + Repeat('0', goal - cp) == done + ['0'] + Repeat('0', goal - cp - 1);
        cp := Append(buf, cp, '0', done);
        done := done + ['0'];
      }
      assert done == full;
    }

    method FillBuffer(value: U64, b: Base, c: Conversion, buf: array<char>) returns (cp: nat)
      requires buf.Length == 64
      modifies buf
      ensures cp <= 64 && buf[..cp] == Buffer(value, b, c)
    {
      cp := Digits(value, b, c.group, buf);
      cp := Zeros(if c.precision < 0 then 1 else c.precision, buf, cp);
      cp := LeadingZero(b, c, buf, cp, buf[..cp]);
    }

    /** The 0 that "%#o" starts with. */
    method LeadingZero(b: Base, c: Conversion, buf: array<char>, cp0: nat, ghost padded: seq<char>) returns (cp: nat)
      requires buf.Length == 64 && cp0 <= 63 && buf[..cp0] == padded
      modifies buf
      ensures cp <= 64
      ensures buf[..cp] ==
        if c.pound && b.BaseO? && (padded == [] || padded[|padded| - 1] != '0') then padded + ['0'] else padded
    {
      cp := cp0;
      if c.pound && b.BaseO? && (cp == 0 || buf[cp - 1] != '0') {
        cp := Append(buf, cp, '0', padded);
      }
    }

    /** `format_integer`. */
    method FormatInteger(value: U64, isSigned: bool, negative: bool, b: Base, c: Conversion)
      requires Valid()
      modifies this, buffer
      ensures Valid() && text == old(text) + Text(value, isSigned, negative, b, c)
    {
      var buf := new char[64];
      var sign, x := SignAndPrefix(value, isSigned, negative, b, c);
      var cp := FillBuffer(value, b, c, buf);
      var padCnt := c.width - cp - (if x != '\0' then 2 else 0) - (if sign != '\0' then 1 else 0);
      if padCnt < 0 { padCnt := 0; }
      assert padCnt == PadCnt(value, isSigned, negative, b, c) by { assert |buf[..cp]| == cp; }
      OutputField(buf, cp, sign, x, padCnt, c);
    }

    method SignAndPrefix(value: U64, isSigned: bool, negative: bool, b: Base, c: Conversion)
      returns (sign: char, x: char)
      ensures sign == Sign(isSigned, negative, c) && x == Prefix(value, b, c)
    {
      sign := '\0';
      if isSigned {
        if c.plus { sign := if negative then '-' else '+'; }
        else if c.space { sign := if negative then '-' else ' '; }
        else if negative { sign := '-'; }
      }
      x := if c.pound && value != 0 then b.X() else '\0';
    }

    /** The output half of `format_integer`. */
    method OutputField(buf: array<char>, cp: nat, sign: char, x: char, padCnt: nat, c: Conversion)
      requires Valid() && cp <= buf.Length && buf != buffer
      modifies this, buffer
      ensures Valid() && text == old(text) + Field(sign, x, padCnt, c, buf[..cp])
    {
      ghost var t, a, m := text, if !c.minus && !c.zero then Repeat(' ', padCnt) else [], Mark(sign, x);
      ghost var z, e := if c.zero then Repeat('0', padCnt) else [], if c.minus then Repeat(' ', padCnt) else [];
      ghost var d := Backwards(buf[..cp]);
      if !c.minus && !c.zero { OutputDup(' ', padCnt); }
      assert text == t + a;
      OutputMark(sign, x);
      ghost var t1 := text;
      if c.zero { OutputDup('0', padCnt); }
      assert text == t1 + z;
      Drain(buf, cp);
      ghost var t2 := text;
      if c.minus { OutputDup(' ', padCnt); }
      assert text == t2 + e;
      Regroup(t, a, m, z, d, e);
    }

    method OutputMark(sign: char, x: char)
      requires Valid()
      modifies this, buffer
      ensures Valid() && text == old(text) + Mark(sign, x)
    {
      if sign != '\0' { Output(sign); }
      if x != '\0' { Output('0'); Output(x); }
    }

    /** The buffer, last character first. */
    method Drain(buf: array<char>, cp0: nat)
      requires Valid() && cp0 <= buf.Length && buf != buffer
      modifies this, buffer
      ensures Valid() && text == old(text) + Backwards(buf[..cp0])
    {
      var cp: nat := cp0;
      ghost var s := buf[..cp0];
      while cp > 0
        invariant cp <= cp0 && Valid() && buf[..cp0] == s
        invariant text + Backwards(s[..cp]) == old(text) + Backwards(s)
      {
        cp := cp - 1;
        assert s[..cp + 1][..cp] == s[..cp] && buf[cp] == s[cp];
        assert text + Backwards(s[..cp + 1]) == (text + [s[cp]]) + Backwards(s[..cp]);
        Output(buf[cp]);
      }
    }
  }
}
