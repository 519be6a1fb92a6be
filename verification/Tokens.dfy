/**
 strtok_r (proj1/src/lib/string.c) and the words of a string.
 */
module Tokens {
  import opened Lists
  import opened Bytes

  /** The part of a string after its leading delimiters. */
  function Skip(s: seq<byte>, delims: set<byte>): (r: seq<byte>)
    ensures |r| <= |s| && (r != [] ==> r[0] !in delims)
  {
    if s != [] && s[0] in delims then Skip(s[1..], delims) else s
  }

  /** The length of the token at the front of a string. */
  function TokenLength(s: seq<byte>, delims: set<byte>): (n: nat)
    ensures n <= |s| && (n < |s| ==> s[n] in delims) && forall i :: 0 <= i < n ==> s[i] !in delims
    ensures s != [] && s[0] !in delims ==> n > 0
  {
    if s == [] || s[0] in delims then 0 else 1 + TokenLength(s[1..], delims)
  }

  /** The words of a string, in order. */
  function Words(s: seq<byte>, delims: set<byte>): seq<seq<byte>>
    decreases |s|
  {
    var t := Skip(s, delims);
    if t == [] then []
    else
      var n := TokenLength(t, delims);
      [t[..n]] + Words(t[n..], delims)
  }

  /** A leading delimiter makes no difference. */
  lemma DelimiterFirst(s: seq<byte>, delims: set<byte>)
    requires s != [] && s[0] in delims
    ensures Words(s, delims) == Words(s[1..], delims)
  {
  }

  lemma {:induction false} WordsAre(s: seq<byte>, delims: set<byte>)
    ensures forall w <- Words(s, delims) :: w != [] && forall i :: 0 <= i < |w| ==> w[i] !in delims && w[i] in s
    decreases |s|
  {
    var t := Skip(s, delims);
    SkipSuffix(s, delims);
    if t != [] {
      var n := TokenLength(t, delims);
      WordsAre(t[n..], delims);
      forall w | w in Words(s, delims)
        ensures w != [] && forall i :: 0 <= i < |w| ==> w[i] !in delims && w[i] in s
      {
        if w != t[..n] { assert w in Words(t[n..], delims); }
      }
    }
  }

  lemma {:induction false} SkipSuffix(s: seq<byte>, delims: set<byte>)
    ensures Skip(s, delims) == s[|s| - |Skip(s, delims)|..]
  {
    if s != [] && s[0] in delims { SkipSuffix(s[1..], delims); }
  }

  /** Words written one after another, each followed by delimiter d, are read back as they were. */
  function Joined(words: seq<seq<byte>>, d: byte): seq<byte> {
    if words == [] then [] else words[0] + [d] + Joined(words[1..], d)
  }

  lemma {:induction false} WordsOfJoined(words: seq<seq<byte>>, d: byte, delims: set<byte>)
    requires d in delims
    requires forall k {:trigger words[k]} :: 0 <= k < |words| ==>
      words[k] != [] && forall i :: 0 <= i < |words[k]| ==> words[k][i] !in delims
    ensures Words(Joined(words, d), delims) == words
  {
    if words != [] {
      var w, rest := words[0], Joined(words[1..], d);
      var s := Joined(words, d);
      assert s == w + ([d] + rest);
      TokenOf(w, [d] + rest, delims);
      assert s[..|w|] == w && s[|w|..] == [d] + rest;
      DelimiterFirst([d] + rest, delims);
      assert ([d] + rest)[1..] == rest;
      WordsOfJoined(words[1..], d, delims);
    }
  }

  lemma {:induction false} TokenOf(w: seq<byte>, rest: seq<byte>, delims: set<byte>)
    requires forall i :: 0 <= i < |w| ==> w[i] !in delims
    requires rest != [] && rest[0] in delims
    ensures TokenLength(w + rest, delims) == |w|
  {
    if w == [] {
      assert w + rest == rest;
    } else {
      assert (w + rest)[1..] == w[1..] + rest;
      TokenOf(w[1..], rest, delims);
    }
  }

  // ----- strtok_r -----

  /** From `from` on the buffer holds the string s, not yet cut, and its terminator. */
  ghost predicate Uncut(b: seq<byte>, from: nat, s: seq<byte>) {
    && from + |s| < |b| && IsCString(s) && b[from + |s|] == 0
    && forall i {:trigger s[i]} :: 0 <= i < |s| ==> b[from + i] == s[i]
  }

  lemma UncutFrom(b: seq<byte>, from: nat, s: seq<byte>, n: nat)
    requires Uncut(b, from, s) && n <= |s|
    ensures Uncut(b, from + n, s[n..])
  {
  }

  lemma UncutStart(b: seq<byte>, from: nat, s: seq<byte>)
    requires Uncut(b, from, s)
    ensures s == [] <==> b[from] == 0
  {
    if s != [] { assert b[from + 0] == s[0]; }
  }

  lemma NullEnds(b: seq<byte>, at: nat, w: seq<byte>, n: nat)
    requires StringAt(b, at, w) && n <= |w|
    ensures b[at + n] == 0 <==> n == |w|
  {
    if n < |w| { assert b[at + n] == w[n]; }
  }

  /** A word w lies at `at` in memory b, with its terminator. */
  ghost predicate StringAt(b: seq<byte>, at: int, w: seq<byte>) {
    && 0 <= at && at + |w| < |b| && b[at + |w|] == 0 && IsCString(w)
    && forall i {:trigger w[i]} :: 0 <= i < |w| ==> b[at + i] == w[i]
  }

  /** `strtok_r`'s first loop: past the delimiters. */
  method SkipDelimiters(b: array<byte>, delims: set<byte>, save0: nat, ghost s: seq<byte>)
    returns (at: nat, ghost t: seq<byte>)
    requires 0 !in delims && Uncut(b[..], save0, s)
    ensures save0 <= at && Uncut(b[..], at, t) && t == Skip(s, delims)
  {
    at, t := save0, s;
    while b[at] in delims
      invariant save0 <= at && Uncut(b[..], at, t) && Skip(t, delims) == Skip(s, delims)
      decreases |t|
    {
      assert t != [] ==> b[at + 0] == t[0];
      UncutFrom(b[..], at, t, 1);
      t := t[1..];
      at := at + 1;
    }
    assert t != [] ==> b[at + 0] == t[0];
  }

  /** `strtok_r`'s second loop: the end of the token. */
  method TokenEnd(b: array<byte>, delims: set<byte>, at: nat, ghost t: seq<byte>) returns (end: nat)
    requires Uncut(b[..], at, t)
    ensures end == at + TokenLength(t, delims)
  {
    ghost var n := TokenLength(t, delims);
    end := at;
    while !(b[end] in delims || b[end] == 0)
      invariant at <= end <= at + n
      decreases at + n - end
    {
      assert b[at + |t|] == 0 && end - at < |t|;
      assert b[at + (end - at)] == t[end - at];
      end := end + 1;
    }
    assert end - at < |t| ==> b[at + (end - at)] == t[end - at];
  }

  /** `strtok_r (NULL, ...)` with `*save_ptr == save0`: the next word, cut off in place and terminated, if there
      is one; the bytes before `save0` are untouched, and what is left is the string after it. */
  method StrtokR(b: array<byte>, delims: set<byte>, save0: nat, ghost s: seq<byte>)
    returns (token: Option<nat>, save: nat, ghost left: seq<byte>)
    requires 0 !in delims && Uncut(b[..], save0, s)
    modifies b
    ensures Uncut(b[..], save, left) && save0 <= save
    ensures forall i :: 0 <= i < save0 ==> b[i] == old(b[i])
    ensures token.None? <==> Words(s, delims) == []
    ensures token.Some? ==>
      && save0 <= token.value && StringAt(b[..], token.value, Words(s, delims)[0])
      && Words(left, delims) == Words(s, delims)[1..]
  {
    ghost var t;
    var at;
    at, t := SkipDelimiters(b, delims, save0, s);
    UncutStart(b[..], at, t);
    if b[at] == 0 {
      return None, at, t;
    }
    var end := TokenEnd(b, delims, at, t);
    token := Some(at);
    WordsCut(s, t, delims);
    save, left := CutAt(b, at, end, t);
  }

  /** `strtok_r`'s end: a null after the token, unless the string ends there anyway. */
  method CutAt(b: array<byte>, at: nat, end: nat, ghost t: seq<byte>) returns (save: nat, ghost left: seq<byte>)
    requires at <= end <= at + |t| && Uncut(b[..], at, t)
    modifies b
    ensures Uncut(b[..], save, left) && end <= save && StringAt(b[..], at, t[..end - at])
    ensures left == if end - at < |t| then t[end - at..][1..] else t[end - at..]
    ensures forall i :: 0 <= i < at ==> b[i] == old(b[i])
  {
    CutToken(b[..], at, t, end - at);
    save, left := end, t[end - at..];
    if b[end] != 0 {
      ghost var cut := b[..][end := 0];
      b[end] := 0;
      assert b[..] == cut;
      save, left := end + 1, left[1..];
    }
  }

  /** Writing a null after the first n bytes leaves them as a string, and the rest of the string behind it. */
  lemma CutToken(b: seq<byte>, at: nat, t: seq<byte>, n: nat)
    requires Uncut(b, at, t) && n <= |t|
    ensures StringAt(b[at + n := 0], at, t[..n])
    ensures if n < |t| then b[at + n] != 0 && Uncut(b[at + n := 0], at + n + 1, t[n..][1..])
      else b[at + n := 0] == b && Uncut(b, at + n, t[n..])
  {
    if n < |t| { assert b[at + n] == t[n]; }
  }

  lemma WordsCut(s: seq<byte>, t: seq<byte>, delims: set<byte>)
    requires t == Skip(s, delims) && t != []
    ensures var n := TokenLength(t, delims);
      && Words(s, delims) != [] && Words(s, delims)[0] == t[..n] && Words(t[n..], delims) == Words(s, delims)[1..]
      && (n < |t| ==> Words(t[n..][1..], delims) == Words(s, delims)[1..])
  {
    var n := TokenLength(t, delims);
    if n < |t| { DelimiterFirst(t[n..], delims); }
  }
}
