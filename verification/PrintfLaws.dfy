/**
 What a printed integer looks like in any base and with any flags, by the conversion's meaning: its digits, where the
 commas stand, what comes before them, how it fills its width, and the number it reads back as.
 */
module PrintfLaws {
  import Atoi
  import opened Lists
  import opened Printf

  // ----- reading -----

  /** What a character is worth as a digit of the base. */
  function Worth(b: Base, ch: char): Option<nat> {
    if '0' <= ch <= (if b.BaseO? then '7' else '9') then Some(ch as int - '0' as int)
    else if b.BaseX? && 'a' <= ch <= 'f' then Some(10 + (ch as int - 'a' as int))
    else if b.BaseUpperX? && 'A' <= ch <= 'F' then Some(10 + (ch as int - 'A' as int))
    else None
  }

  /** The number written by the digits and commas at the front of s, appended to acc. */
  function ValueIn(b: Base, s: seq<char>, acc: nat): nat {
    if s == [] then acc
    else if s[0] == ',' then ValueIn(b, s[1..], acc)
    else
      match Worth(b, s[0])
      case Some(d) => ValueIn(b, s[1..], acc * (match b case BaseO => 8 case BaseD => 10 case _ => 16) + d)
      case None => acc
  }

  function SkipBlanks(s: seq<char>): seq<char> {
    if s != [] && s[0] == ' ' then SkipBlanks(s[1..]) else s
  }

  function SkipSign(s: seq<char>): seq<char> {
    if s != [] && (s[0] == '+' || s[0] == '-') then s[1..] else s
  }

  function SkipPrefix(s: seq<char>): seq<char> {
    if |s| >= 2 && s[0] == '0' && (s[1] == 'x' || s[1] == 'X') then s[2..] else s
  }

  /** A reader that knows the base and nothing else: blanks, a sign, "0x", then digits and commas. */
  function ReadBack(b: Base, s: seq<char>): nat { ValueIn(b, SkipPrefix(SkipSign(SkipBlanks(s))), 0) }

  function ReadsNegative(s: seq<char>): bool { SkipBlanks(s) != [] && SkipBlanks(s)[0] == '-' }

  // ----- the digits -----

  ghost predicate AllNumeral(b: Base, s: seq<char>) {
    forall i :: 0 <= i < |s| ==> s[i] == ',' || Worth(b, s[i]).Some?
  }

  /** The significant digits, most significant first, with their commas. */
  function Numeral(value: nat, b: Base, group: bool): seq<char> { Backwards(Reversed(value, b, group, 0)) }

  lemma {:induction false} ValueAppend(b: Base, a: seq<char>, t: seq<char>, acc: nat)
    requires AllNumeral(b, a)
    ensures ValueIn(b, a + t, acc) == ValueIn(b, t, ValueIn(b, a, acc))
    decreases |a|
  {
    if a == [] {
      assert a + t == t;
    } else {
      assert (a + t)[1..] == a[1..] + t;
      if a[0] == ',' {
        ValueAppend(b, a[1..], t, acc);
      } else {
        ValueAppend(b, a[1..], t, acc * (match b case BaseO => 8 case BaseD => 10 case _ => 16) + Worth(b, a[0]).value);
      }
    }
  }

  lemma DigitWorth(b: Base, d: nat)
    requires d < b.Radix()
    ensures b.Digit(d) != ',' && Worth(b, b.Digit(d)) == Some(d)
  {
  }

  lemma {:induction false} ReversedValue(value: nat, b: Base, group: bool, k: nat)
    ensures var s := Backwards(Reversed(value, b, group, k)); AllNumeral(b, s) && ValueIn(b, s, 0) == value
  {
    if value > 0 {
      var q, d := value / b.Radix(), value % b.Radix();
      ReversedValue(q, b, group, k + 1);
      DigitWorth(b, d);
      var rest, comma := Reversed(q, b, group, k + 1), Comma(b, group, k);
      BackwardsSplit(comma, b.Digit(d), rest);
      DigitAdded(b, Backwards(rest), b.Digit(d), comma, q, d);
      DivMod(value, b.Radix());
    }
  }

  lemma DivMod(value: nat, r: nat)
    requires r > 0
    ensures (value / r) * r + value % r == value
  {
  }

  /** One more digit on the right, and perhaps a comma. */
  lemma DigitAdded(b: Base, s: seq<char>, ch: char, comma: seq<char>, q: nat, d: nat)
    requires AllNumeral(b, s) && ValueIn(b, s, 0) == q && d < b.Radix() && ch == b.Digit(d) && comma in {[], [',']}
    ensures AllNumeral(b, s + ([ch] + comma)) && ValueIn(b, s + ([ch] + comma), 0) == q * b.Radix() + d
  {
    var t := [ch] + comma;
    DigitWorth(b, d);
    ValueAppend(b, s, t, 0);
    assert t[1..] == comma;
    assert ValueIn(b, comma, q * b.Radix() + d) == q * b.Radix() + d;
  }

  lemma BackwardsSplit(comma: seq<char>, d: char, rest: seq<char>)
    requires |comma| <= 1
    ensures Backwards(comma + [d] + rest) == Backwards(rest) + ([d] + comma)
  {
    var l, r := Backwards(comma + [d] + rest), Backwards(rest) + ([d] + comma);
    assert |l| == |r|;
    assert forall i :: 0 <= i < |l| ==> l[i] == r[i];
  }

  function Group(b: Base): nat { if b.BaseX? || b.BaseUpperX? then 4 else 3 }

  /** In s, which begins at place p, exactly each (g + 1)-th place has a comma, or none if there is no grouping. */
  ghost predicate CommasAt(s: seq<char>, group: bool, g: nat, p: nat) {
    forall i :: 0 <= i < |s| ==> (s[i] == ',' <==> group && (p + i) % (g + 1) == g)
  }

  /** Counted from the right, every fourth character (every fifth in hexadecimal) of a grouped number is a comma, and no
      other is; p is where digit k stands, or its comma. */
  lemma {:induction false} Commas(value: nat, b: Base, group: bool, k: nat, p: nat)
    requires p == if k == 0 then 0 else if k % Group(b) == 0 then Group(b) else k % Group(b)
    ensures CommasAt(Reversed(value, b, group, k), group, Group(b), p)
  {
    if value > 0 {
      var q, d := value / b.Radix(), value % b.Radix();
      DigitWorth(b, d);
      var s, rest, comma := Reversed(value, b, group, k), Reversed(q, b, group, k + 1), Comma(b, group, k);
      var p' := if (k + 1) % Group(b) == 0 then Group(b) else (k + 1) % Group(b);
      NextPlace(k, Group(b), p, p');
      Commas(q, b, group, k + 1, p');
      if group {
        CommasShift(s, rest, comma + [b.Digit(d)], Group(b), p, p');
      } else {
        assert s == [b.Digit(d)] + rest;
      }
    }
  }

  lemma NextPlace(k: nat, g: nat, p: nat, p': nat)
    requires g == 3 || g == 4
    requires p == if k == 0 then 0 else if k % g == 0 then g else k % g
    requires p' == if (k + 1) % g == 0 then g else (k + 1) % g
    ensures p <= g && 1 <= p' <= g && p' == if p == g then 1 else p + 1
  {
  }

  /** The characters of one digit, and the rest. */
  lemma CommasShift(s: seq<char>, rest: seq<char>, front: seq<char>, g: nat, p: nat, p': nat)
    requires (g == 3 || g == 4) && p <= g && s == front + rest && 1 <= p' <= g
    requires front != [] && front[|front| - 1] != ','
    requires if p == g then |front| == 2 && front[0] == ',' && p' == 1 else |front| == 1 && p' == p + 1
    requires CommasAt(rest, true, g, p')
    ensures CommasAt(s, true, g, p)
  {
    forall i | 0 <= i < |s|
      ensures s[i] == ',' <==> (p + i) % (g + 1) == g
    {
      if i >= |front| {
        var j := i - |front|;
        assert s[i] == rest[j];
        if p == g { assert p + i == (p' + j) + (g + 1); } else { assert p + i == p' + j; }
        assert (p + i) % (g + 1) == (p' + j) % (g + 1);
      }
    }
  }

  lemma {:induction false} LeadingDigit(value: nat, b: Base, group: bool, k: nat)
    requires value > 0
    ensures var s := Reversed(value, b, group, k); s != [] && s[|s| - 1] !in {'0', ','}
  {
    var q, d := value / b.Radix(), value % b.Radix();
    DigitWorth(b, d);
    DivMod(value, b.Radix());
    if q > 0 { LeadingDigit(q, b, group, k + 1); }
  }

  /** The digits of a number: they read as the number, start with no zero, and are grouped from the right. */
  lemma NumeralIs(value: nat, b: Base, group: bool)
    ensures var s := Numeral(value, b, group);
      && AllNumeral(b, s) && ValueIn(b, s, 0) == value
      && (s == [] <==> value == 0) && (value > 0 ==> s[0] !in {'0', ','})
      && forall i :: 0 <= i < |s| ==> (s[i] == ',' <==> group && (|s| - 1 - i) % (Group(b) + 1) == Group(b))
  {
    var r, s := Reversed(value, b, group, 0), Numeral(value, b, group);
    ReversedValue(value, b, group, 0);
    if value > 0 { LeadingDigit(value, b, group, 0); }
    Commas(value, b, group, 0, 0);
    assert forall i :: 0 <= i < |s| ==> s[i] == r[|s| - 1 - i];
  }

  // ----- zeros, sign and prefix -----

  /** How many zeros come before them: enough for the precision, which is 1 if none is given and at most 63 in effect,
      and one at least for "%#o". */
  function ZerosBefore(value: nat, b: Base, c: Conversion): nat { ZerosFor(|Numeral(value, b, c.group)|, b, c) }

  function ZerosFor(cnt: nat, b: Base, c: Conversion): nat {
    var missing := (if c.precision < 0 then 1 else if c.precision < 63 then c.precision else 63) - cnt;
    if missing > 0 then missing else if c.pound && b.BaseO? then 1 else 0
  }

  lemma DigitsIs(value: nat, b: Base, c: Conversion)
    ensures Backwards(Buffer(value, b, c)) == Repeat('0', ZerosBefore(value, b, c)) + Numeral(value, b, c.group)
  {
    BufferIs(value, b, c);
    BackwardsZeros(Reversed(value, b, c.group, 0), ZerosBefore(value, b, c));
  }

  lemma BufferIs(value: nat, b: Base, c: Conversion)
    ensures Buffer(value, b, c) == Reversed(value, b, c.group, 0) + Repeat('0', ZerosBefore(value, b, c))
  {
    if value > 0 { LeadingDigit(value, b, c.group, 0); }
    PaddedIs(Reversed(value, b, c.group, 0), b, c);
  }

  lemma PaddedIs(digits: seq<char>, b: Base, c: Conversion)
    requires digits != [] ==> digits[|digits| - 1] != '0'
    ensures Padded(digits, b, c) == digits + Repeat('0', ZerosFor(|digits|, b, c))
  {
    var missing := (if c.precision < 0 then 1 else if c.precision < 63 then c.precision else 63) - |digits|;
    var padded := digits + Repeat('0', missing);
    if missing > 0 {
      assert padded[|padded| - 1] == '0';
    } else {
      assert padded == digits && Repeat('0', 1) == ['0'];
    }
  }

  /** '-' for a negative number, otherwise what the flags ask for, and that only in a signed conversion; then "0x" or
      "0X" for a nonzero hexadecimal number with '#'. */
  function MarkOf(value: nat, isSigned: bool, negative: bool, b: Base, c: Conversion): seq<char> {
    SignOf(isSigned, negative, c) + PrefixOf(value, b, c)
  }

  function SignOf(isSigned: bool, negative: bool, c: Conversion): (s: seq<char>)
    ensures s in {"", "-", "+", " "} && (s == "-" <==> isSigned && negative)
  {
    if !isSigned then "" else if negative then "-" else if c.plus then "+" else if c.space then " " else ""
  }

  function PrefixOf(value: nat, b: Base, c: Conversion): (s: seq<char>)
    ensures s in {"", "0x", "0X"}
  {
    if !c.pound || value == 0 then "" else if b.BaseX? then "0x" else if b.BaseUpperX? then "0X" else ""
  }

  lemma MarkIs(value: nat, isSigned: bool, negative: bool, b: Base, c: Conversion)
    ensures Mark(Sign(isSigned, negative, c), Prefix(value, b, c)) == MarkOf(value, isSigned, negative, b, c)
  {
  }

  // ----- the field -----

  /** What fills the width: blanks on the left, with '-' on the right, and with '0' zeros between the mark and the
      digits instead; with both flags a short field is padded twice. */
  function Layout(mark: seq<char>, digits: seq<char>, c: Conversion): seq<char> {
    var pad := c.width - |mark + digits|;
    if pad <= 0 then mark + digits
    else if c.zero then mark + (Repeat('0', pad) + digits) + (if c.minus then Repeat(' ', pad) else [])
    else if c.minus then mark + digits + Repeat(' ', pad)
    else Repeat(' ', pad) + (mark + digits)
  }

  function DigitsOf(value: nat, b: Base, c: Conversion): seq<char> {
    Repeat('0', ZerosBefore(value, b, c)) + Numeral(value, b, c.group)
  }

  /** The whole field. */
  lemma TextIs(value: nat, isSigned: bool, negative: bool, b: Base, c: Conversion)
    ensures Text(value, isSigned, negative, b, c) ==
      Layout(MarkOf(value, isSigned, negative, b, c), DigitsOf(value, b, c), c)
  {
    DigitsIs(value, b, c);
    MarkIs(value, isSigned, negative, b, c);
    FieldIs(Sign(isSigned, negative, c), Prefix(value, b, c), PadCnt(value, isSigned, negative, b, c), c,
            Buffer(value, b, c));
  }

  lemma FieldIs(sign: char, x: char, pad: nat, c: Conversion, buf: seq<char>)
    requires pad == if c.width > |Mark(sign, x)| + |buf| then c.width - |Mark(sign, x)| - |buf| else 0
    ensures Field(sign, x, pad, c, buf) == Layout(Mark(sign, x), Backwards(buf), c)
  {
    LayoutIs(Mark(sign, x), Backwards(buf), pad, c);
  }

  lemma LayoutIs(mark: seq<char>, digits: seq<char>, pad: nat, c: Conversion)
    requires pad == if c.width > |mark| + |digits| then c.width - |mark| - |digits| else 0
    ensures (if !c.minus && !c.zero then Repeat(' ', pad) else []) + mark
      + (if c.zero then Repeat('0', pad) else []) + digits + (if c.minus then Repeat(' ', pad) else [])
      == Layout(mark, digits, c)
  {
    if pad == 0 {
      NoPadding();
      Joined([], mark, [], digits, []);
    } else if c.zero {
      Joined([], mark, Repeat('0', pad), digits, if c.minus then Repeat(' ', pad) else []);
    } else if c.minus {
      Joined([], mark, [], digits, Repeat(' ', pad));
    } else {
      Joined(Repeat(' ', pad), mark, [], digits, []);
    }
  }

  lemma NoPadding()
    ensures Repeat(' ', 0) == [] && Repeat('0', 0) == []
  {
  }

  lemma Joined(a: seq<char>, mark: seq<char>, z: seq<char>, digits: seq<char>, e: seq<char>)
    ensures a + mark + z + digits + e == a + (mark + (z + digits) + e)
    ensures a == [] ==> a + mark + z + digits + e == mark + (z + digits) + e
    ensures z == [] ==> z + digits == digits
    ensures e == [] ==> a + mark + z + digits + e == a + (mark + (z + digits))
  {
  }

  /** The text has its width, or is just as long as it must be, unless both flags are given and it must be padded. */
  lemma TextWidth(value: nat, isSigned: bool, negative: bool, b: Base, c: Conversion)
    requires !(c.minus && c.zero)
    ensures var least := |MarkOf(value, isSigned, negative, b, c)| + ZerosBefore(value, b, c)
        + |Numeral(value, b, c.group)|;
      |Text(value, isSigned, negative, b, c)| == if c.width > least then c.width else least
  {
    TextIs(value, isSigned, negative, b, c);
  }

  // ----- reading it back -----

  lemma {:induction false} BlanksSkipped(n: int, s: seq<char>)
    ensures SkipBlanks(Repeat(' ', n) + s) == SkipBlanks(s)
  {
    if n > 0 {
      var t := Repeat(' ', n) + s;
      assert t[1..] == Repeat(' ', n - 1) + s;
      BlanksSkipped(n - 1, s);
    } else {
      assert Repeat(' ', n) + s == s;
    }
  }

  lemma {:induction false} ZerosValue(b: Base, n: nat)
    ensures AllNumeral(b, Repeat('0', n)) && ValueIn(b, Repeat('0', n), 0) == 0
  {
    if n > 0 {
      ZerosValue(b, n - 1);
      assert Repeat('0', n)[1..] == Repeat('0', n - 1);
    }
  }

  /** A printed number reads back as itself and with its sign: in any base, with any flags, grouping, width and
      precision. */
  lemma ReadsBack(value: nat, isSigned: bool, negative: bool, b: Base, c: Conversion)
    requires negative ==> isSigned && value > 0
    ensures var s := Text(value, isSigned, negative, b, c); ReadBack(b, s) == value && ReadsNegative(s) == negative
  {
    TextIs(value, isSigned, negative, b, c);
    var mark, numeral := MarkOf(value, isSigned, negative, b, c), Numeral(value, b, c.group);
    var left, zeros, right := Padding(mark, ZerosBefore(value, b, c), numeral, c);
    var body := Repeat('0', zeros) + numeral + Repeat(' ', right);
    BlanksSkipped(left, mark + body);
    BodyReads(value, b, c.group, zeros, right);
    BodyChars(value, b, c.group, zeros, right);
    MarkSkipped(value, isSigned, negative, b, c, body);
  }

  /** Blanks, mark, zeros, digits, blanks. */
  lemma Padding(mark: seq<char>, k: nat, numeral: seq<char>, c: Conversion) returns (left: nat, zeros: nat, right: nat)
    ensures Layout(mark, Repeat('0', k) + numeral, c) ==
      Repeat(' ', left) + (mark + (Repeat('0', zeros) + numeral + Repeat(' ', right)))
  {
    var digits := Repeat('0', k) + numeral;
    var pad := c.width - |mark + digits|;
    NoPadding();
    if pad <= 0 {
      left, zeros, right := 0, k, 0;
      Right(mark, digits, []);
    } else if c.zero {
      left, zeros, right := 0, pad + k, if c.minus then pad else 0;
      ZerosAdd(pad, k, numeral);
      Right(mark, Repeat('0', zeros) + numeral, Repeat(' ', right));
    } else if c.minus {
      left, zeros, right := 0, k, pad;
      Right(mark, digits, Repeat(' ', right));
    } else {
      left, zeros, right := pad, k, 0;
      Left(Repeat(' ', left), mark, digits);
    }
  }

  lemma Right(mark: seq<char>, body: seq<char>, blanks: seq<char>)
    ensures mark + body + blanks == [] + (mark + (body + blanks))
    ensures blanks == [] ==> mark + body == [] + (mark + (body + blanks))
  {
  }

  lemma Left(blanks: seq<char>, mark: seq<char>, body: seq<char>)
    ensures blanks + (mark + body) == blanks + (mark + (body + []))
  {
    assert body + [] == body;
  }

  lemma ZerosAdd(m: nat, n: nat, s: seq<char>)
    ensures Repeat('0', m) + (Repeat('0', n) + s) == Repeat('0', m + n) + s
  {
    var l, r := Repeat('0', m) + Repeat('0', n), Repeat('0', m + n);
    assert forall i :: 0 <= i < |l| ==> l[i] == r[i];
    assert l == r;
    assert Repeat('0', m) + (Repeat('0', n) + s) == l + s;
  }

  lemma BodyReads(value: nat, b: Base, group: bool, zeros: nat, right: nat)
    ensures var s := Repeat('0', zeros) + Numeral(value, b, group) + Repeat(' ', right);
      ValueIn(b, s, 0) == value && (s != [] && s[0] == ' ' ==> SkipBlanks(s) == [])
  {
    var z, n, r := Repeat('0', zeros), Numeral(value, b, group), Repeat(' ', right);
    ZerosValue(b, zeros);
    NumeralIs(value, b, group);
    ValueAppend(b, z, n + r, 0);
    ValueAppend(b, n, r, 0);
    assert z + n + r == z + (n + r);
    assert ValueIn(b, r, value) == value;
    BlanksSkipped(right, []);
    assert r + [] == r;
    if zeros == 0 && value == 0 { assert z + n + r == r; }
  }

  lemma BodyChars(value: nat, b: Base, group: bool, zeros: nat, right: nat)
    ensures var s := Repeat('0', zeros) + Numeral(value, b, group) + Repeat(' ', right);
      && (s != [] ==> s[0] == ' ' || Worth(b, s[0]).Some?)
      && (|s| >= 2 ==> s[1] != 'x' && s[1] != 'X')
  {
    NumeralIs(value, b, group);
    FirstChars(b, Repeat('0', zeros), Numeral(value, b, group), Repeat(' ', right));
  }

  lemma FirstChars(b: Base, z: seq<char>, n: seq<char>, r: seq<char>)
    requires (forall i :: 0 <= i < |z| ==> z[i] == '0') && (forall i :: 0 <= i < |r| ==> r[i] == ' ')
    requires AllNumeral(b, n) && (n != [] ==> n[0] != ',')
    ensures var s := z + n + r;
      && (s != [] ==> s[0] == ' ' || Worth(b, s[0]).Some?)
      && (|s| >= 2 ==> s[1] != 'x' && s[1] != 'X')
  {
    assert AllNumeral(b, z);
    assert AllNumeral(b, z + n);
  }

  /** What follows the mark begins with a digit, or is blank. */
  lemma MarkSkipped(value: nat, isSigned: bool, negative: bool, b: Base, c: Conversion, s: seq<char>)
    requires negative ==> isSigned
    requires s != [] ==> (s[0] == ' ' && SkipBlanks(s) == []) || Worth(b, s[0]).Some?
    requires |s| >= 2 ==> s[1] != 'x' && s[1] != 'X'
    ensures var t := SkipBlanks(MarkOf(value, isSigned, negative, b, c) + s);
      && (t != [] && t[0] == '-' <==> negative)
      && ValueIn(b, SkipPrefix(SkipSign(t)), 0) == ValueIn(b, s, 0)
  {
    MarkThen(b, SignOf(isSigned, negative, c), PrefixOf(value, b, c), s);
  }

  lemma MarkThen(b: Base, sign: seq<char>, prefix: seq<char>, s: seq<char>)
    requires sign in {"", "-", "+", " "} && prefix in {"", "0x", "0X"}
    requires s != [] ==> (s[0] == ' ' && SkipBlanks(s) == []) || Worth(b, s[0]).Some?
    requires |s| >= 2 ==> s[1] != 'x' && s[1] != 'X'
    ensures var t := SkipBlanks(sign + prefix + s);
      && (t != [] && t[0] == '-' <==> sign == "-")
      && ValueIn(b, SkipPrefix(SkipSign(t)), 0) == ValueIn(b, s, 0)
  {
    AfterMark(prefix, s);
    assert sign + prefix + s == sign + (prefix + s);
    PrefixStart(b, prefix, s);
    SignSkipped(b, sign, prefix + s);
  }

  lemma PrefixStart(b: Base, prefix: seq<char>, s: seq<char>)
    requires prefix in {"", "0x", "0X"} && (prefix == "" ==> prefix + s == s)
    requires s != [] ==> (s[0] == ' ' && SkipBlanks(s) == []) || Worth(b, s[0]).Some?
    ensures var u := prefix + s;
      u != [] ==> (u[0] == ' ' && SkipBlanks(u) == [] && SkipPrefix(u) == u) || Worth(b, u[0]).Some?
  {
    if prefix != "" { assert (prefix + s)[0] == '0'; }
  }

  lemma SignSkipped(b: Base, sign: seq<char>, s: seq<char>)
    requires sign in {"", "-", "+", " "}
    requires s != [] ==> (s[0] == ' ' && SkipBlanks(s) == [] && SkipPrefix(s) == s) || Worth(b, s[0]).Some?
    ensures var t := SkipBlanks(sign + s);
      && (t != [] && t[0] == '-' <==> sign == "-")
      && ValueIn(b, SkipPrefix(SkipSign(t)), 0) == ValueIn(b, SkipPrefix(s), 0)
  {
    if sign == "" {
      assert sign + s == s;
    } else {
      assert (sign + s)[0] == sign[0] && (sign + s)[1..] == s;
    }
  }

  lemma AfterMark(prefix: seq<char>, s: seq<char>)
    requires prefix in {"", "0x", "0X"} && (|s| >= 2 ==> s[1] != 'x' && s[1] != 'X')
    ensures SkipPrefix(prefix + s) == s && (prefix == "" ==> prefix + s == s)
  {
    if prefix != "" { assert (prefix + s)[2..] == s; } else { assert prefix + s == s; }
  }

  // ----- atoi -----

  /** What `isspace` accepts: blank, tab, newline, vertical tab, form feed and carriage return. */
  predicate White(ch: char) { ch == ' ' || 9 <= ch as int <= 13 }

  lemma {:induction false} FoldIs(s: seq<char>, acc: nat)
    requires Atoi.AllDigits(s)
    ensures Atoi.Fold(s, -(acc as int)) == -(ValueIn(BaseD, s, acc) as int)
  {
    if s != [] {
      assert Worth(BaseD, s[0]) == Some(s[0] as int - '0' as int);
      FoldIs(s[1..], acc * 10 + Worth(BaseD, s[0]).value);
    }
  }

  /** What `atoi` makes of any string: every string is white space, perhaps a sign, digits, and something else. */
  lemma AtoiIs(blanks: seq<char>, sign: seq<char>, digits: seq<char>, rest: seq<char>)
    requires (forall i :: 0 <= i < |blanks| ==> White(blanks[i])) && sign in {"", "+", "-"}
    requires forall i :: 0 <= i < |digits| ==> '0' <= digits[i] <= '9'
    requires rest != [] ==> !('0' <= rest[0] <= '9')
    requires sign == "" && digits == [] && rest != [] ==> !White(rest[0]) && rest[0] != '+' && rest[0] != '-'
    ensures var n := ValueIn(BaseD, digits, 0);
      Atoi.Value(blanks + (sign + (digits + rest))) == if sign == "-" then -(n as int) else n
  {
    var body := digits + rest;
    WhiteSkipped(blanks, sign + body);
    assert body != [] ==> body[0] == if digits != [] then digits[0] else rest[0];
    AtSign(sign, body);
    BodyFold(digits, rest);
  }

  lemma BodyFold(digits: seq<char>, rest: seq<char>)
    requires Atoi.AllDigits(digits) && (rest != [] ==> !('0' <= rest[0] <= '9'))
    ensures Atoi.Fold(digits + rest, 0) == -(ValueIn(BaseD, digits, 0) as int)
  {
    Atoi.FoldAppend(digits, rest, 0);
    FoldIs(digits, 0);
  }

  lemma WhiteSkipped(blanks: seq<char>, s: seq<char>)
    requires forall i :: 0 <= i < |blanks| ==> White(blanks[i])
    ensures Atoi.Value(blanks + s) == Atoi.Value(s)
  {
    Atoi.SpacesSkipped(blanks, s);
    Atoi.SameSkipped(blanks + s, s);
  }

  lemma AtSign(sign: seq<char>, body: seq<char>)
    requires sign in {"", "+", "-"}
    requires sign == "" && body != [] ==> !White(body[0]) && body[0] != '+' && body[0] != '-'
    ensures Atoi.Value(sign + body) == if sign == "-" then Atoi.Fold(body, 0) else -Atoi.Fold(body, 0)
  {
    if sign == "" {
      assert sign + body == body;
    } else {
      assert (sign + body)[0] == sign[0] && (sign + body)[1..] == body;
    }
  }
}
