/**
 Parsing a conversion (parse_conversion in proj1/src/lib/stdio.c): flags, width, precision and length.
 */
module Conversions {
  import opened Printf

  datatype Length = CHAR | SHORT | INT | INTMAX | LONG | LONGLONG | PTRDIFFT | SIZET

  predicate IsFlag(ch: char) { ch in {'-', '+', ' ', '#', '0', '\''} }

  function SetFlag(c: Conversion, ch: char): Conversion {
    match ch
    case '-' => c.(minus := true)
    case '+' => c.(plus := true)
    case ' ' => c.(space := true)
    case '#' => c.(pound := true)
    case '0' => c.(zero := true)
    case _ => c.(group := true)
  }

  const PLAIN := Conversion(false, false, false, false, false, false, 0, -1)

  /** The flags at the front of s, and what follows them. */
  function Flags(s: seq<char>, c: Conversion): (Conversion, seq<char>) {
    if s != [] && IsFlag(s[0]) then Flags(s[1..], SetFlag(c, s[0])) else (c, s)
  }

  /** The decimal number at the front of s appended to n, and what follows it. */
  function Number(s: seq<char>, n: int): (int, seq<char>) {
    if s != [] && IsDigit(s[0]) then Number(s[1..], n * 10 + (s[0] as int - '0' as int)) else (n, s)
  }

  predicate At(s: seq<char>, ch: char) { s != [] && s[0] == ch }

  /** "-" overrides "0", and "+" overrides " ". */
  function Override(c: Conversion): Conversion {
    c.(zero := c.zero && !c.minus, space := c.space && !c.plus)
  }

  /** A width of -n means "-" and a width of n. */
  function SetWidth(c: Conversion, width: int): Conversion {
    if width < 0 then c.(width := -width, minus := true) else c.(width := width)
  }

  /** A negative precision counts as none; any other overrides "0". */
  function SetPrecision(c: Conversion, precision: int): Conversion {
    if precision < 0 then c.(precision := -1) else c.(precision := precision, zero := false)
  }

  /** The width: `*` takes it from the arguments. */
  function Width(s: seq<char>, args: seq<int>, c: Conversion): (Conversion, seq<char>, seq<int>)
    requires args != []
  {
    if At(s, '*') then (SetWidth(c, args[0]), s[1..], args[1..])
    else var (width, rest) := Number(s, 0); (SetWidth(c, width), rest, args)
  }

  /** The precision: `*` takes it from the arguments. */
  function Precision(s: seq<char>, args: seq<int>, c: Conversion): (Conversion, seq<char>, seq<int>)
    requires args != []
  {
    if !At(s, '.') then (c, s, args)
    else if At(s[1..], '*') then (SetPrecision(c, args[0]), s[2..], args[1..])
    else var (precision, rest) := Number(s[1..], 0); (SetPrecision(c, precision), rest, args)
  }

  function Size(s: seq<char>): (Length, seq<char>) {
    if At(s, 'h') then if At(s[1..], 'h') then (CHAR, s[2..]) else (SHORT, s[1..])
    else if At(s, 'j') then (INTMAX, s[1..])
    else if At(s, 'l') then if At(s[1..], 'l') then (LONGLONG, s[2..]) else (LONG, s[1..])
    else if At(s, 't') then (PTRDIFFT, s[1..])
    else if At(s, 'z') then (SIZET, s[1..])
    else (INT, s)
  }

  /** All of it: the conversion, the length, the format from the conversion character on, and the arguments
      that are left.  At most two are taken. */
  function Parse(s: seq<char>, args: seq<int>): (Conversion, Length, seq<char>, seq<int>)
    requires |args| >= 2
  {
    var (c0, s0) := Flags(s, PLAIN);
    var (c1, s1, args1) := Width(s0, args, Override(c0));
    var (c2, s2, args2) := Precision(s1, args1, c1);
    var (size, s3) := Size(s2);
    (c2, size, s3, args2)
  }

  // ----- writing a conversion -----

  function Opt(on: bool, ch: char): seq<char> { if on then [ch] else [] }

  /** A positive number in decimal. */
  function Digits(n: nat): seq<char> { Backwards(Reversed(n, BaseD, false, 0)) }

  function FlagText(c: Conversion): seq<char> {
    Opt(c.minus, '-') + (Opt(c.plus, '+') + (Opt(c.space, ' ')
    + (Opt(c.pound, '#') + (Opt(c.zero, '0') + Opt(c.group, '\'')))))
  }

  function SizeText(size: Length): seq<char> {
    match size
    case INT => []
    case CHAR => ['h', 'h']
    case SHORT => ['h']
    case INTMAX => ['j']
    case LONG => ['l']
    case LONGLONG => ['l', 'l']
    case PTRDIFFT => ['t']
    case SIZET => ['z']
  }

  function PrecisionText(precision: int): seq<char> { if precision < 0 then [] else ['.'] + Digits(precision) }

  /** The text that asks for conversion c, before the conversion character. */
  function Show(c: Conversion, size: Length): seq<char>
    requires c.width >= 0
  {
    FlagText(c) + (Digits(c.width) + (PrecisionText(c.precision) + SizeText(size)))
  }

  /** What the source makes of flags that exclude each other. */
  function Normalised(c: Conversion): Conversion {
    var d := Override(c);
    if c.precision < 0 then d.(precision := -1) else d.(zero := false)
  }

  // ----- proofs -----

  lemma OneFlag(on: bool, ch: char, t: seq<char>, c: Conversion)
    requires IsFlag(ch)
    ensures Flags(Opt(on, ch) + t, c) == Flags(t, if on then SetFlag(c, ch) else c)
  {
    if on { assert ([ch] + t)[1..] == t; } else { assert [] + t == t; }
  }

  /** Flags are read back whatever follows, unless it starts like another flag. */
  lemma FlagsRead(c: Conversion, t: seq<char>)
    requires !(t != [] && IsFlag(t[0]))
    ensures Flags(FlagText(c) + t, PLAIN) == (c.(width := 0, precision := -1), t)
  {
    var f5 := Opt(c.group, '\'');
    var f4 := Opt(c.zero, '0') + f5;
    var f3 := Opt(c.pound, '#') + f4;
    var f2 := Opt(c.space, ' ') + f3;
    var f1 := Opt(c.plus, '+') + f2;
    var p0 := PLAIN;
    var p1 := if c.minus then SetFlag(p0, '-') else p0;
    var p2 := if c.plus then SetFlag(p1, '+') else p1;
    var p3 := if c.space then SetFlag(p2, ' ') else p2;
    var p4 := if c.pound then SetFlag(p3, '#') else p3;
    var p5 := if c.zero then SetFlag(p4, '0') else p4;
    Split(Opt(c.minus, '-'), f1, t);
    Split(Opt(c.plus, '+'), f2, t);
    Split(Opt(c.space, ' '), f3, t);
    Split(Opt(c.pound, '#'), f4, t);
    Split(Opt(c.zero, '0'), f5, t);
    OneFlag(c.minus, '-', f1 + t, p0);
    OneFlag(c.plus, '+', f2 + t, p1);
    OneFlag(c.space, ' ', f3 + t, p2);
    OneFlag(c.pound, '#', f4 + t, p3);
    OneFlag(c.zero, '0', f5 + t, p4);
    OneFlag(c.group, '\'', t, p5);
  }

  lemma Split(a: seq<char>, b: seq<char>, t: seq<char>)
    ensures (a + b) + t == a + (b + t)
  {
  }

  lemma {:induction false} NumberAppend(a: seq<char>, t: seq<char>, n: int)
    requires forall i :: 0 <= i < |a| ==> IsDigit(a[i])
    ensures Number(a + t, n) == Number(t, Number(a, n).0)
    decreases |a|
  {
    if a == [] {
      assert a + t == t;
    } else {
      assert (a + t)[1..] == a[1..] + t;
      NumberAppend(a[1..], t, n * 10 + (a[0] as int - '0' as int));
    }
  }

  /** The decimal text of n, empty for 0, without leading zeros. */
  predicate Decimal(s: seq<char>, n: nat) {
    (forall i :: 0 <= i < |s| ==> IsDigit(s[i])) && Number(s, 0).0 == n && (s == [] <==> n == 0) && !At(s, '0')
  }

  lemma {:induction false} DigitsRead(n: nat, k: nat)
    ensures Decimal(Backwards(Reversed(n, BaseD, false, k)), n)
  {
    if n > 0 {
      var rest, d := Reversed(n / 10, BaseD, false, k + 1), BaseD.Digit(n % 10);
      DigitsRead(n / 10, k + 1);
      assert Reversed(n, BaseD, false, k) == [d] + rest;
      LastDigit(rest, d);
      OneDigit(Backwards(rest), n / 10, n % 10);
    }
  }

  lemma LastDigit(rest: seq<char>, d: char)
    ensures Backwards([d] + rest) == Backwards(rest) + [d]
  {
  }

  lemma OneDigit(s: seq<char>, n: nat, d: nat)
    requires d < 10 && Decimal(s, n) && n * 10 + d > 0
    ensures Decimal(s + [BaseD.Digit(d)], n * 10 + d)
  {
    var ch := BaseD.Digit(d);
    NumberAppend(s, [ch], 0);
    assert Number([ch], n) == Number([ch][1..], n * 10 + d);
    if s != [] { assert (s + [ch])[0] == s[0]; }
  }

  lemma NumberRead(n: nat, t: seq<char>)
    requires !(t != [] && IsDigit(t[0]))
    ensures Number(Digits(n) + t, 0) == (n, t)
  {
    DigitsRead(n, 0);
    NumberAppend(Digits(n), t, 0);
  }

  /** A conversion character, with the rest of the format. */
  predicate AtConversion(t: seq<char>) {
    t != [] && t[0] in {'d', 'i', 'o', 'u', 'x', 'X', 'c', 's', 'p'}
  }

  lemma SizeRead(size: Length, t: seq<char>)
    requires AtConversion(t)
    ensures Size(SizeText(size) + t) == (size, t)
  {
    match size
    case INT => assert [] + t == t;
    case CHAR => SizeTwice('h', t);
    case LONGLONG => SizeTwice('l', t);
    case _ => SizeOnce(size, t);
  }

  lemma SizeOnce(size: Length, t: seq<char>)
    requires AtConversion(t) && size != INT && size != CHAR && size != LONGLONG
    ensures Size(SizeText(size) + t) == (size, t)
  {
    OneAhead(SizeText(size)[0], t);
  }

  lemma SizeTwice(ch: char, t: seq<char>)
    requires ch == 'h' || ch == 'l'
    ensures Size([ch, ch] + t) == (if ch == 'h' then CHAR else LONGLONG, t)
  {
    TwoAhead(ch, ch, t);
  }

  lemma SizeStarts(size: Length, t: seq<char>)
    requires AtConversion(t)
    ensures var s := SizeText(size) + t; s != [] && !IsFlag(s[0]) && !IsDigit(s[0]) && s[0] != '.' && s[0] != '*'
  {
    var s := SizeText(size) + t;
    assert s[0] == if size == INT then t[0] else SizeText(size)[0];
  }

  lemma OneAhead(a: char, t: seq<char>)
    ensures ([a] + t)[0] == a && ([a] + t)[1..] == t
  {
  }

  lemma TwoAhead(a: char, b: char, t: seq<char>)
    ensures var s := [a, b] + t; s[0] == a && s[1..] == [b] + t && s[2..] == t
  {
  }

  lemma PrecisionRead(precision: int, s: seq<char>, args: seq<int>, c: Conversion)
    requires args != [] && s != [] && !IsDigit(s[0]) && s[0] != '.' && s[0] != '*'
    ensures c.precision == -1 ==>
      Precision(PrecisionText(precision) + s, args, c) == (SetPrecision(c, precision), s, args)
  {
    if precision < 0 {
      assert PrecisionText(precision) + s == s;
    } else {
      PointAhead(Digits(precision), s);
      DigitsRead(precision, 0);
      NumberRead(precision, s);
      assert !At(Digits(precision) + s, '*');
    }
  }

  lemma PointAhead(a: seq<char>, s: seq<char>)
    ensures At(['.'] + a + s, '.') && (['.'] + a + s)[1..] == a + s
  {
  }

  lemma PrecisionStarts(precision: int, s: seq<char>)
    requires s != [] && !IsDigit(s[0]) && s[0] != '*' && !IsFlag(s[0])
    ensures var r := PrecisionText(precision) + s; r != [] && !IsDigit(r[0]) && !IsFlag(r[0]) && r[0] != '*'
  {
    if precision < 0 { assert PrecisionText(precision) + s == s; } else { PointAhead(Digits(precision), s); }
  }

  /** Reading back a conversion gives its width, precision and length, and its flags but for those that
      another overrides; whatever follows is left, and no argument is taken. */
  lemma ShowRead(c: Conversion, size: Length, t: seq<char>, args: seq<int>)
    requires c.width >= 0 && AtConversion(t) && |args| >= 2
    ensures Parse(Show(c, size) + t, args) == (Normalised(c), size, t, args)
  {
    var s3 := SizeText(size) + t;
    var s2 := PrecisionText(c.precision) + s3;
    var s1 := Digits(c.width) + s2;
    var c0 := c.(width := 0, precision := -1);
    var c1 := SetWidth(Override(c0), c.width);
    SizeRead(size, t);
    SizeStarts(size, t);
    PrecisionRead(c.precision, s3, args, c1);
    PrecisionStarts(c.precision, s3);
    WidthRead(c.width, s2, args, Override(c0));
    FlagsRead(c, s1);
    ShowSplit(FlagText(c), Digits(c.width), PrecisionText(c.precision), SizeText(size), t);
    Compose(Show(c, size) + t, args, c0, s1, c1, s2, SetPrecision(c1, c.precision), s3, size, t);
  }

  lemma WidthRead(width: nat, s: seq<char>, args: seq<int>, c: Conversion)
    requires args != [] && s != [] && !IsDigit(s[0]) && s[0] != '*' && !IsFlag(s[0])
    ensures Width(Digits(width) + s, args, c) == (SetWidth(c, width), s, args)
    ensures !IsFlag((Digits(width) + s)[0])
  {
    DigitsRead(width, 0);
    NumberRead(width, s);
    if width == 0 { assert Digits(width) + s == s; }
  }

  lemma Compose(s: seq<char>, args: seq<int>, c0: Conversion, s0: seq<char>, c1: Conversion, s1: seq<char>,
                c2: Conversion, s2: seq<char>, size: Length, s3: seq<char>)
    requires |args| >= 2 && Flags(s, PLAIN) == (c0, s0) && Width(s0, args, Override(c0)) == (c1, s1, args)
    requires Precision(s1, args, c1) == (c2, s2, args) && Size(s2) == (size, s3)
    ensures Parse(s, args) == (c2, size, s3, args)
  {
  }

  lemma ShowSplit(a: seq<char>, b: seq<char>, c: seq<char>, d: seq<char>, t: seq<char>)
    ensures (a + (b + (c + d))) + t == a + (b + (c + (d + t)))
  {
    Split(a, b + (c + d), t);
    Split(b, c + d, t);
    Split(c, d, t);
  }

  // ----- the longest prefix -----

  /** Characters i .. j of s are all flags, or all digits. */
  ghost predicate FlagRun(s: seq<char>, i: nat, j: nat) {
    i <= j <= |s| && forall k {:trigger s[k]} :: i <= k < j ==> IsFlag(s[k])
  }

  ghost predicate DigitRun(s: seq<char>, i: nat, j: nat) {
    i <= j <= |s| && forall k {:trigger s[k]} :: i <= k < j ==> IsDigit(s[k])
  }

  /** A number, possibly empty, or a star. */
  ghost predicate Amount(s: seq<char>, i: nat, j: nat) { DigitRun(s, i, j) || (j == i + 1 <= |s| && s[i] == '*') }

  ghost predicate PrecisionPart(s: seq<char>, i: nat, j: nat) {
    i == j <= |s| || (i < j <= |s| && s[i] == '.' && Amount(s, i + 1, j))
  }

  ghost predicate SizePart(s: seq<char>, i: nat, j: nat) {
    || i == j <= |s|
    || (j == i + 1 <= |s| && s[i] in {'h', 'j', 'l', 't', 'z'})
    || (j == i + 2 <= |s| && s[i] == s[i + 1] && s[i] in {'h', 'l'})
  }

  /** The first d characters of s have the form of a conversion: flags up to a, a width up to b, a precision
      up to c and a length. */
  ghost predicate Shape(s: seq<char>, a: nat, b: nat, c: nat, d: nat) {
    FlagRun(s, 0, a) && Amount(s, a, b) && PrecisionPart(s, b, c) && SizePart(s, c, d)
  }

  /** Each part goes as far as it can. */
  ghost predicate Greedy(s: seq<char>, a: nat, b: nat, c: nat, d: nat) {
    && Shape(s, a, b, c, d) && !(a < |s| && IsFlag(s[a])) && FullAmount(s, a, b)
    && (if b < |s| && s[b] == '.' then b < c && FullAmount(s, b + 1, c) else c == b)
    && FullSize(s, c, d)
  }

  ghost predicate FullAmount(s: seq<char>, i: nat, j: nat) {
    Amount(s, i, j) && if i < |s| && s[i] == '*' then j == i + 1 else !(j < |s| && IsDigit(s[j]))
  }

  ghost predicate FullSize(s: seq<char>, i: nat, j: nat) {
    && SizePart(s, i, j) && (j == i ==> !(i < |s| && s[i] in {'h', 'j', 'l', 't', 'z'}))
    && (j == i + 1 ==> !(j < |s| && s[j] == s[i] && s[i] in {'h', 'l'}))
  }

  lemma {:induction false} FlagsEnd(s: seq<char>, i: nat, c: Conversion) returns (j: nat)
    requires i <= |s|
    ensures FlagRun(s, i, j) && !(j < |s| && IsFlag(s[j])) && Flags(s[i..], c).1 == s[j..]
    decreases |s| - i
  {
    if i < |s| && IsFlag(s[i]) {
      assert s[i..][1..] == s[i + 1..];
      j := FlagsEnd(s, i + 1, SetFlag(c, s[i]));
    } else {
      j := i;
    }
  }

  lemma {:induction false} NumberEnd(s: seq<char>, i: nat, n: int) returns (j: nat)
    requires i <= |s|
    ensures DigitRun(s, i, j) && !(j < |s| && IsDigit(s[j])) && Number(s[i..], n).1 == s[j..]
    decreases |s| - i
  {
    if i < |s| && IsDigit(s[i]) {
      assert s[i..][1..] == s[i + 1..];
      j := NumberEnd(s, i + 1, n * 10 + (s[i] as int - '0' as int));
    } else {
      j := i;
    }
  }

  lemma WidthEnd(s: seq<char>, i: nat, args: seq<int>, c: Conversion) returns (j: nat)
    requires i <= |s| && args != []
    ensures FullAmount(s, i, j) && Width(s[i..], args, c).1 == s[j..]
  {
    if i < |s| && s[i] == '*' { j := i + 1; } else { j := NumberEnd(s, i, 0); }
  }

  lemma PrecisionEnd(s: seq<char>, i: nat, args: seq<int>, c: Conversion) returns (j: nat)
    requires i <= |s| && args != []
    ensures i <= j <= |s| && Precision(s[i..], args, c).1 == s[j..] && PrecisionPart(s, i, j)
    ensures if i < |s| && s[i] == '.' then i < j && FullAmount(s, i + 1, j) else j == i
  {
    if i < |s| && s[i] == '.' {
      assert s[i..][1..] == s[i + 1..];
      if i + 1 < |s| && s[i + 1] == '*' {
        j := i + 2;
        assert s[i..][2..] == s[j..];
      } else {
        j := NumberEnd(s, i + 1, 0);
      }
    } else {
      j := i;
    }
  }

  lemma SizeEnd(s: seq<char>, i: nat) returns (j: nat)
    requires i <= |s|
    ensures FullSize(s, i, j) && i <= j <= |s| && Size(s[i..]).1 == s[j..]
  {
    j := i;
    if i < |s| && s[i] in {'h', 'j', 'l', 't', 'z'} {
      j := i + 1;
      assert s[i..][1..] == s[j..];
      if j < |s| && s[j] == s[i] && s[i] in {'h', 'l'} {
        j := i + 2;
        assert s[i..][2..] == s[j..];
      }
    }
  }

  /** What parsing takes has the form of a conversion, and no longer prefix of the text has. */
  lemma LongestPrefix(s: seq<char>, args: seq<int>) returns (a: nat, b: nat, c: nat, d: nat)
    requires |args| >= 2
    ensures d <= |s| && Parse(s, args).2 == s[d..] && Shape(s, a, b, c, d)
    ensures forall a': nat, b': nat, c': nat, d': nat :: Shape(s, a', b', c', d') ==> d' <= d
  {
    assert s[0..] == s;
    a := FlagsEnd(s, 0, PLAIN);
    var c0 := Override(Flags(s, PLAIN).0);
    b := WidthEnd(s, a, args, c0);
    var (c1, _, args1) := Width(s[a..], args, c0);
    c := PrecisionEnd(s, b, args1, c1);
    d := SizeEnd(s, c);
    forall a': nat, b': nat, c': nat, d': nat | Shape(s, a', b', c', d')
      ensures d' <= d
    {
      NoLonger(s, a, b, c, d, a', b', c', d');
    }
  }

  lemma NoLonger(s: seq<char>, a: nat, b: nat, c: nat, d: nat, a': nat, b': nat, c': nat, d': nat)
    requires Greedy(s, a, b, c, d) && Shape(s, a', b', c', d')
    ensures d' <= d
  {
    WidthNoLonger(s, a, b, a', b');
    if b' < b {
      assert IsFlag(s[b']) || IsDigit(s[b']) || s[b'] == '*';
    } else {
      RestNoLonger(s, b, c, d, c', d');
    }
  }

  lemma WidthNoLonger(s: seq<char>, a: nat, b: nat, a': nat, b': nat)
    requires FlagRun(s, 0, a) && !(a < |s| && IsFlag(s[a])) && FullAmount(s, a, b)
    requires FlagRun(s, 0, a') && Amount(s, a', b')
    ensures b' <= b && forall k :: 0 <= k < b ==> IsFlag(s[k]) || IsDigit(s[k]) || s[k] == '*'
  {
    assert a' <= a;
  }

  /** From the end of the width on. */
  lemma RestNoLonger(s: seq<char>, b: nat, c: nat, d: nat, c': nat, d': nat)
    requires b <= c <= d <= |s| && FullSize(s, c, d)
    requires PrecisionPart(s, b, c) && (if b < |s| && s[b] == '.' then b < c && FullAmount(s, b + 1, c) else c == b)
    requires PrecisionPart(s, b, c') && SizePart(s, c', d')
    ensures d' <= d
  {
    assert c' <= c;
    if c' < c { assert s[c'] == '.' || IsDigit(s[c']) || s[c'] == '*'; }
  }

  // ----- the width of a field -----

  function Max(a: int, b: int): int { if a < b then b else a }

  /** What is written without padding. */
  function Bare(value: nat, isSigned: bool, negative: bool, b: Base, c: Conversion): nat {
    |Buffer(value, b, c)| + |Mark(Sign(isSigned, negative, c), Prefix(value, b, c))|
  }

  /** A field is as wide as asked for, or as its contents, exactly if it is not padded on both sides. */
  lemma WidthIff(value: nat, isSigned: bool, negative: bool, b: Base, c: Conversion)
    ensures |Text(value, isSigned, negative, b, c)| == Max(c.width, Bare(value, isSigned, negative, b, c))
            <==> !(c.minus && c.zero && Bare(value, isSigned, negative, b, c) < c.width)
  {
    var pad, buf := PadCnt(value, isSigned, negative, b, c), Buffer(value, b, c);
    var mark := Mark(Sign(isSigned, negative, c), Prefix(value, b, c));
    assert |Repeat(' ', pad)| == |Repeat('0', pad)| == pad;
    assert |Text(value, isSigned, negative, b, c)|
        == (if !c.minus && !c.zero then pad else 0) + |mark| + (if c.zero then pad else 0) + |buf|
           + (if c.minus then pad else 0);
  }

  lemma {:induction false} NumberNatural(s: seq<char>, n: nat)
    ensures Number(s, n).0 >= 0
    decreases |s|
  {
    if s != [] && IsDigit(s[0]) { NumberNatural(s[1..], n * 10 + (s[0] as int - '0' as int)); }
  }

  /** Parsing leaves both "-" and "0" exactly if "0" is given without "-", the width is a negative argument, and
      there is no precision or it is a negative argument too. */
  lemma BothIff(s: seq<char>, args: seq<int>)
    requires |args| >= 2
    ensures var (c0, s0) := Flags(s, PLAIN); var c := Parse(s, args).0;
      c.minus && c.zero <==>
        && c0.zero && !c0.minus && At(s0, '*') && args[0] < 0
        && (!At(s0[1..], '.') || (At(s0[2..], '*') && args[1] < 0))
  {
    var (c0, s0) := Flags(s, PLAIN);
    FlagsOnly(s, PLAIN);
    NumberNatural(s0, 0);
    var (c1, s1, args1) := Width(s0, args, Override(c0));
    if At(s1, '.') && !At(s1[1..], '*') { NumberNatural(s1[1..], 0); }
  }

  lemma {:induction false} FlagsOnly(s: seq<char>, c: Conversion)
    ensures Flags(s, c).0.width == c.width && Flags(s, c).0.precision == c.precision
    decreases |s|
  {
    if s != [] && IsFlag(s[0]) { FlagsOnly(s[1..], SetFlag(c, s[0])); }
  }

  /** Formatting what was parsed: the field has its width unless the text and the arguments ask for both kinds of
      padding, and there is something to pad. */
  lemma ParsedWidthIff(s: seq<char>, args: seq<int>, value: nat, isSigned: bool, negative: bool, b: Base)
    requires |args| >= 2
    ensures var (c0, s0) := Flags(s, PLAIN);
      var c := Parse(s, args).0;
      var bare := Bare(value, isSigned, negative, b, c);
      |Text(value, isSigned, negative, b, c)| != Max(c.width, bare) <==>
        && c0.zero && !c0.minus && At(s0, '*') && args[0] < 0
        && (!At(s0[1..], '.') || (At(s0[2..], '*') && args[1] < 0))
        && bare < c.width
  {
    BothIff(s, args);
    WidthIff(value, isSigned, negative, b, Parse(s, args).0);
  }

  /** "%0*d" with a width of -5 writes 1 in nine characters: it is padded on both sides. */
  lemma PaddedTwice(x: int)
    ensures Parse("0*d", [-5, x]).1 == INT && Parse("0*d", [-5, x]).2 == "d" && Parse("0*d", [-5, x]).3 == [x]
    ensures Parse("0*d", [-5, x]).0.width == 5 && |Text(1, true, false, BaseD, Parse("0*d", [-5, x]).0)| == 9
  {
    var s: seq<char> := "0*d";
    assert s[1..] == "*d" && s[1..][1..] == "d";
    assert Flags(s, PLAIN) == Flags(s[1..], SetFlag(PLAIN, '0')) == (SetFlag(PLAIN, '0'), s[1..]);
    var c := Parse(s, [-5, x]).0;
    assert c == PLAIN.(zero := true, minus := true, width := 5);
    assert Reversed(1, BaseD, false, 0) == ['1'] + Reversed(0, BaseD, false, 1);
    assert |Buffer(1, BaseD, c)| == 1;
    assert |Repeat(' ', 4)| == |Repeat('0', 4)| == 4;
  }

  // ----- the code -----

  method ParseFlags(format: seq<char>, i0: nat) returns (c: Conversion, i: nat)
    requires i0 <= |format|
    ensures i0 <= i <= |format| && Flags(format[i0..], PLAIN) == (c, format[i..])
  {
    c, i := PLAIN, i0;
    while i < |format| && IsFlag(format[i])
      invariant i0 <= i <= |format| && Flags(format[i..], c) == Flags(format[i0..], PLAIN)
    {
      assert format[i..][1..] == format[i + 1..];
      c := SetFlag(c, format[i]);
      i := i + 1;
    }
  }

  method ParseNumber(format: seq<char>, i0: nat) returns (n: int, i: nat)
    requires i0 <= |format|
    ensures i0 <= i <= |format| && Number(format[i0..], 0) == (n, format[i..])
  {
    n, i := 0, i0;
    while i < |format| && IsDigit(format[i])
      invariant i0 <= i <= |format| && Number(format[i..], n) == Number(format[i0..], 0)
    {
      assert format[i..][1..] == format[i + 1..];
      n := n * 10 + (format[i] as int - '0' as int);
      i := i + 1;
    }
  }

  /** `parse_conversion`; `args0` are the arguments that `*` would take. */
  method ParseConversion(format: seq<char>, i0: nat, args0: seq<int>)
    returns (c: Conversion, size: Length, i: nat, args: seq<int>)
    requires i0 <= |format| && |args0| >= 2
    ensures i0 <= i <= |format| && Parse(format[i0..], args0) == (c, size, format[i..], args)
  {
    c, i := ParseFlags(format, i0);
    if c.minus { c := c.(zero := false); }
    if c.plus { c := c.(space := false); }
    c, i, args := ParseWidth(format, i, args0, c);
    c, i, args := ParsePrecision(format, i, args, c);
    size, i := ParseSize(format, i);
  }

  method ParseWidth(format: seq<char>, i0: nat, args0: seq<int>, c0: Conversion)
    returns (c: Conversion, i: nat, args: seq<int>)
    requires i0 <= |format| && |args0| >= 2
    ensures i0 <= i <= |format| && args != [] && Width(format[i0..], args0, c0) == (c, format[i..], args)
  {
    c, i, args := c0, i0, args0;
    var width := 0;
    if i < |format| && format[i] == '*' {
      assert format[i0..][1..] == format[i0 + 1..];
      i, width, args := i + 1, args[0], args[1..];
    } else {
      width, i := ParseNumber(format, i);
    }
    if width < 0 {
      width := -width;
      c := c.(minus := true);
    }
    c := c.(width := width);
  }

  method ParsePrecision(format: seq<char>, i0: nat, args0: seq<int>, c0: Conversion)
    returns (c: Conversion, i: nat, args: seq<int>)
    requires i0 <= |format| && args0 != []
    ensures i0 <= i <= |format| && Precision(format[i0..], args0, c0) == (c, format[i..], args)
  {
    c, i, args := c0, i0, args0;
    if i < |format| && format[i] == '.' {
      assert format[i0..][1..] == format[i0 + 1..];
      var precision := 0;
      if i + 1 < |format| && format[i + 1] == '*' {
        assert format[i0..][2..] == format[i0 + 2..];
        i, precision, args := i + 2, args[0], args[1..];
      } else {
        precision, i := ParseNumber(format, i + 1);
      }
      c := if precision < 0 then c.(precision := -1) else c.(precision := precision, zero := false);
    }
  }

  method ParseSize(format: seq<char>, i0: nat) returns (size: Length, i: nat)
    requires i0 <= |format|
    ensures i0 <= i <= |format| && Size(format[i0..]) == (size, format[i..])
  {
    ghost var s := format[i0..];
    size, i := INT, i0;
    if i0 < |format| {
      assert s[1..] == format[i0 + 1..];
      assert |s| > 1 ==> s[2..] == format[i0 + 2..];
      var twice := i0 + 1 < |format| && format[i0 + 1] == format[i0];
      match format[i0]
      case 'h' => size, i := if twice then CHAR else SHORT, if twice then i0 + 2 else i0 + 1;
      case 'l' => size, i := if twice then LONGLONG else LONG, if twice then i0 + 2 else i0 + 1;
      case 'j' => size, i := INTMAX, i0 + 1;
      case 't' => size, i := PTRDIFFT, i0 + 1;
      case 'z' => size, i := SIZET, i0 + 1;
      case _ =>
    }
  }
}
