/**
 atoi (proj1/src/lib/stdlib.c) reads back what "%d" writes, whatever the field looks like.
 */
module Atoi {
  import opened Printf
  import opened Words

  predicate IsSpace(ch: char) {
    ch == ' ' || ch == '\t' || ch == '\n' || ch == '\r' || ch as int == 11 || ch as int == 12
  }

  function SkipSpaces(s: seq<char>): seq<char> {
    if s != [] && IsSpace(s[0]) then SkipSpaces(s[1..]) else s
  }

  /** The digits at the front of s appended to -acc, negated. */
  function Fold(s: seq<char>, acc: int): int {
    if s != [] && IsDigit(s[0]) then Fold(s[1..], acc * 10 - (s[0] as int - '0' as int)) else acc
  }

  function AfterSign(s: seq<char>): seq<char> { if s != [] && (s[0] == '+' || s[0] == '-') then s[1..] else s }

  predicate Minus(s: seq<char>) { s != [] && s[0] == '-' }

  /** The number a string denotes. */
  function Value(s: seq<char>): int {
    var t := SkipSpaces(s);
    if Minus(t) then Fold(AfterSign(t), 0) else -Fold(AfterSign(t), 0)
  }

  /** No step of the conversion leaves the range of `int`. */
  predicate Fits(s: seq<char>) {
    Fold(AfterSign(SkipSpaces(s)), 0) >= -0x8000_0000 && -0x8000_0000 <= Value(s) < 0x8000_0000
  }

  lemma {:induction false} FoldDecreases(s: seq<char>, acc: int)
    requires acc <= 0
    ensures Fold(s, acc) <= acc
    decreases |s|
  {
    if s != [] && IsDigit(s[0]) { FoldDecreases(s[1..], acc * 10 - (s[0] as int - '0' as int)); }
  }

  /** `atoi`.  The end of the sequence stands for the terminator; `value` is an `int` throughout. */
  method Atoi(s: seq<char>) returns (r: I32)
    requires Fits(s)
    ensures r == Value(s)
  {
    var i := SkipSpace(s);
    var negative := false;
    if i < |s| && s[i] == '+' {
      i := i + 1;
    } else if i < |s| && s[i] == '-' {
      negative := true;
      i := i + 1;
    }
    assert s[i..] == AfterSign(SkipSpaces(s));
    var value := ParseDigits(s, i);
    if !negative { value := -value; }
    r := value;
  }

  method SkipSpace(s: seq<char>) returns (i: nat)
    ensures i <= |s| && s[i..] == SkipSpaces(s)
  {
    i := 0;
    assert s[0..] == s;
    while i < |s| && IsSpace(s[i])
      invariant i <= |s| && SkipSpaces(s[i..]) == SkipSpaces(s)
    {
      assert s[i..][1..] == s[i + 1..];
      i := i + 1;
    }
  }

  /** Parsed as negative, because that range is the larger one. */
  method ParseDigits(s: seq<char>, from: nat) returns (value: I32)
    requires from <= |s| && Fold(s[from..], 0) >= -0x8000_0000
    ensures value == Fold(s[from..], 0)
  {
    var i := from;
    value := 0;
    while i < |s| && IsDigit(s[i])
      invariant from <= i <= |s| && value <= 0 && Fold(s[i..], value) == Fold(s[from..], 0)
    {
      assert s[i..][1..] == s[i + 1..];
      FoldDecreases(s[i + 1..], value * 10 - (s[i] as int - '0' as int));
      value := value * 10 - (s[i] as int - '0' as int);
      i := i + 1;
    }
  }

  // ----- the digits -----

  ghost predicate AllDigits(s: seq<char>) { forall i :: 0 <= i < |s| ==> IsDigit(s[i]) }

  ghost predicate AllSpaces(s: seq<char>) { forall i :: 0 <= i < |s| ==> IsSpace(s[i]) }

  lemma {:induction false} FoldAppend(a: seq<char>, b: seq<char>, acc: int)
    requires AllDigits(a)
    ensures Fold(a + b, acc) == Fold(b, Fold(a, acc))
    decreases |a|
  {
    if a == [] {
      assert a + b == b;
    } else {
      assert (a + b)[1..] == a[1..] + b;
      FoldAppend(a[1..], b, acc * 10 - (a[0] as int - '0' as int));
    }
  }

  lemma {:induction false} FoldZeros(n: int)
    ensures AllDigits(Repeat('0', n)) && Fold(Repeat('0', n), 0) == 0
  {
    if n > 0 { FoldZeros(n - 1); }
  }

  lemma {:induction false} BackwardsCons(ch: char, s: seq<char>)
    ensures Backwards([ch] + s) == Backwards(s) + [ch]
  {
    var l, r := Backwards([ch] + s), Backwards(s) + [ch];
    forall i | 0 <= i < |l| ensures l[i] == r[i] {
      assert l[i] == ([ch] + s)[|s| - i];
    }
  }

  /** Decimal digits, most significant first, fold to the number they were taken from. */
  lemma {:induction false} DigitsFold(n: nat, k: nat)
    ensures AllDigits(Backwards(Reversed(n, BaseD, false, k)))
    ensures Fold(Backwards(Reversed(n, BaseD, false, k)), 0) == 0 - n
  {
    if n > 0 {
      var rest, d := Reversed(n / 10, BaseD, false, k + 1), BaseD.Digit(n % 10);
      DigitsFold(n / 10, k + 1);
      assert Reversed(n, BaseD, false, k) == [d] + rest;
      BackwardsCons(d, rest);
      DigitAppended(Backwards(rest), n, d);
    }
  }

  lemma DigitAppended(s: seq<char>, n: nat, d: char)
    requires AllDigits(s) && Fold(s, 0) == 0 - n / 10 && d == BaseD.Digit(n % 10)
    ensures AllDigits(s + [d]) && Fold(s + [d], 0) == 0 - n
  {
    FoldAppend(s, [d], 0);
    assert Fold([d], -(n / 10)) == Fold([d][1..], -(n / 10) * 10 - n % 10);
  }

  /** How many zeros the precision adds. */
  function ZeroCnt(n: nat, c: Conversion): int {
    var precision := if c.precision < 0 then 1 else c.precision;
    (if precision < 63 then precision else 63) - |Reversed(n, BaseD, false, 0)|
  }

  lemma DecimalBuffer(n: nat, c: Conversion)
    requires !c.group
    ensures Buffer(n, BaseD, c) == Reversed(n, BaseD, false, 0) + Repeat('0', ZeroCnt(n, c))
  {
  }

  /** The buffer read backwards: zeros for the precision, then the digits. */
  lemma BufferFold(n: nat, c: Conversion)
    requires !c.group
    ensures AllDigits(Backwards(Buffer(n, BaseD, c))) && Fold(Backwards(Buffer(n, BaseD, c)), 0) == 0 - n
  {
    DecimalBuffer(n, c);
    ZerosThenDigits(n, ZeroCnt(n, c));
  }

  lemma ZerosThenDigits(n: nat, m: int)
    ensures var s := Backwards(Reversed(n, BaseD, false, 0) + Repeat('0', m));
      AllDigits(s) && Fold(s, 0) == 0 - n
  {
    var digits := Reversed(n, BaseD, false, 0);
    DigitsFold(n, 0);
    FoldZeros(m);
    BackwardsZeros(digits, m);
    FoldAppend(Repeat('0', m), Backwards(digits), 0);
  }

  // ----- the field -----

  lemma {:induction false} SpacesSkipped(a: seq<char>, b: seq<char>)
    requires AllSpaces(a)
    ensures SkipSpaces(a + b) == SkipSpaces(b)
    decreases |a|
  {
    if a == [] {
      assert a + b == b;
    } else {
      assert (a + b)[1..] == a[1..] + b;
      SpacesSkipped(a[1..], b);
    }
  }

  /** Digits followed by spaces. */
  lemma FoldField(ds: seq<char>, tail: seq<char>)
    requires AllDigits(ds) && AllSpaces(tail)
    ensures Fold(ds + tail, 0) == Fold(ds, 0)
    ensures Value(ds + tail) == -Fold(ds, 0) && AfterSign(SkipSpaces(ds + tail)) == SkipSpaces(ds + tail)
    ensures Fold(SkipSpaces(ds + tail), 0) == Fold(ds, 0)
  {
    FoldAppend(ds, tail, 0);
    assert Fold(tail, Fold(ds, 0)) == Fold(ds, 0);
    if ds == [] {
      assert ds + tail == tail + [];
      SpacesSkipped(tail, []);
    } else {
      assert (ds + tail)[0] == ds[0];
    }
  }

  /** A sign character, or a space, or nothing, before that. */
  lemma SignedField(sign: char, ds: seq<char>, tail: seq<char>)
    requires sign in {'\0', ' ', '+', '-'} && AllDigits(ds) && AllSpaces(tail)
    ensures var s := Mark(sign, '\0') + (ds + tail);
      && Value(s) == (if sign == '-' then Fold(ds, 0) else -Fold(ds, 0))
      && Fold(AfterSign(SkipSpaces(s)), 0) == Fold(ds, 0)
  {
    FoldField(ds, tail);
    var rest := ds + tail;
    if sign == '\0' {
      assert Mark(sign, '\0') + rest == rest;
    } else {
      assert Mark(sign, '\0') + rest == [sign] + rest;
      assert ([sign] + rest)[1..] == rest;
    }
  }

  function Magnitude(v: I32): nat { if v < 0 then 0 - v else v }

  /** What "%d" with a conversion's flags, width and precision writes for v. */
  function Decimal(v: I32, c: Conversion): seq<char> { Text(Magnitude(v), true, v < 0, BaseD, c) }

  lemma FieldShape(v: I32, c: Conversion)
    ensures var n, pad := Magnitude(v), PadCnt(Magnitude(v), true, v < 0, BaseD, c);
      Decimal(v, c) ==
        (if !c.minus && !c.zero then Repeat(' ', pad) else [])
        + (Mark(Sign(true, v < 0, c), '\0')
            + (((if c.zero then Repeat('0', pad) else []) + Backwards(Buffer(n, BaseD, c)))
               + (if c.minus then Repeat(' ', pad) else [])))
  {
    var n, pad := Magnitude(v), PadCnt(Magnitude(v), true, v < 0, BaseD, c);
    Regroup4(if !c.minus && !c.zero then Repeat(' ', pad) else [], Mark(Sign(true, v < 0, c), '\0'),
              if c.zero then Repeat('0', pad) else [], Backwards(Buffer(n, BaseD, c)),
              if c.minus then Repeat(' ', pad) else []);
  }

  lemma Regroup4(a: seq<char>, b: seq<char>, c: seq<char>, d: seq<char>, e: seq<char>)
    ensures a + b + c + d + e == a + (b + ((c + d) + e))
  {
    assert a + b + c + d + e == a + b + ((c + d) + e);
  }

  /** For every `int`, width, precision and flags, short of grouping, `atoi` gives back what was printed. */
  lemma RoundTrip(v: I32, c: Conversion)
    requires !c.group
    ensures Fits(Decimal(v, c)) && Value(Decimal(v, c)) == v
  {
    var n, sign, pad := Magnitude(v), Sign(true, v < 0, c), PadCnt(Magnitude(v), true, v < 0, BaseD, c);
    var left, zeros := if !c.minus && !c.zero then Repeat(' ', pad) else [], if c.zero then Repeat('0', pad) else [];
    var body, right := Backwards(Buffer(n, BaseD, c)), if c.minus then Repeat(' ', pad) else [];
    FieldShape(v, c);
    BufferFold(n, c);
    FoldZeros(pad);
    FieldReads(left, sign, zeros, body, right, n);
  }

  lemma FieldReads(left: seq<char>, sign: char, zeros: seq<char>, body: seq<char>, right: seq<char>, n: nat)
    requires AllSpaces(left) && AllSpaces(right) && AllDigits(zeros) && AllDigits(body)
    requires Fold(zeros, 0) == 0 && Fold(body, 0) == 0 - n && sign in {'\0', ' ', '+', '-'}
    ensures var s := left + (Mark(sign, '\0') + ((zeros + body) + right));
      && Value(s) == (if sign == '-' then 0 - n else n)
      && Fold(AfterSign(SkipSpaces(s)), 0) == 0 - n
  {
    var ds := zeros + body;
    FoldAppend(zeros, body, 0);
    SignedField(sign, ds, right);
    var inner := Mark(sign, '\0') + (ds + right);
    SpacesSkipped(left, inner);
    SameSkipped(left + inner, inner);
  }

  lemma SameSkipped(s: seq<char>, t: seq<char>)
    requires SkipSpaces(s) == SkipSpaces(t)
    ensures Value(s) == Value(t) && AfterSign(SkipSpaces(s)) == AfterSign(SkipSpaces(t))
  {
  }

  /** `snprintf (buffer, size, "%d", v)` and `atoi (buffer)`: v again, if the buffer held it all. */
  method PrintAndRead(buffer: array<char>, v: I32, c: Conversion) returns (length: int, r: I32)
    requires !c.group && buffer.Length > 0
    modifies buffer
    ensures length == |Decimal(v, c)|
    ensures length < buffer.Length ==> r == v && buffer[..length] == Decimal(v, c) && buffer[length] == '\0'
    ensures length >= buffer.Length ==>
      buffer[..buffer.Length - 1] == Decimal(v, c)[..buffer.Length - 1] && buffer[buffer.Length - 1] == '\0'
  {
    length := PrintDecimal(buffer, v, c);
    RoundTrip(v, c);
    r := 0;
    if length < buffer.Length { r := Atoi(buffer[..length]); }
  }

  /** The first half. */
  method PrintDecimal(buffer: array<char>, v: I32, c: Conversion) returns (length: int)
    requires buffer.Length > 0
    modifies buffer
    ensures length == |Decimal(v, c)|
    ensures length < buffer.Length ==> buffer[..length] == Decimal(v, c) && buffer[length] == '\0'
    ensures length >= buffer.Length ==>
      buffer[..buffer.Length - 1] == Decimal(v, c)[..buffer.Length - 1] && buffer[buffer.Length - 1] == '\0'
  {
    var aux := new Aux(buffer);
    aux.FormatInteger(Magnitude(v), true, v < 0, BaseD, c);
    length := aux.Terminate();
  }
}
