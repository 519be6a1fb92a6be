/**
 Bytes in memory: C strings and 32-bit words.
 */
module Bytes {

  newtype byte = x: int | 0 <= x < 256

  /** A 32-bit word, least significant byte first, as the x86 stores it. */
  function Word(b: seq<byte>): nat
    requires |b| == 4
  {
    b[0] as nat + 0x100 * b[1] as nat + 0x1_0000 * b[2] as nat + 0x100_0000 * b[3] as nat
  }

  function WordBytes(w: nat): (b: seq<byte>)
    requires w < 0x1_0000_0000
    ensures |b| == 4 && Word(b) == w
  {
    assert w / 0x100 == w / 0x1_0000 * 0x100 + w / 0x100 % 0x100;
    assert w / 0x1_0000 == w / 0x100_0000 * 0x100 + w / 0x1_0000 % 0x100;
    [(w % 0x100) as byte, (w / 0x100 % 0x100) as byte, (w / 0x1_0000 % 0x100) as byte, (w / 0x100_0000) as byte]
  }

  /** A C string: the bytes before the first null. */
  function CString(s: seq<byte>): (r: seq<byte>)
    ensures |r| <= |s|
  {
    if s == [] || s[0] == 0 then [] else [s[0]] + CString(s[1..])
  }

  predicate IsCString(name: seq<byte>) {
    forall i :: 0 <= i < |name| ==> name[i] != 0
  }

  lemma {:induction false} CStringOf(s: seq<byte>, name: seq<byte>)
    requires IsCString(name) && |name| < |s| && s[|name|] == 0
    requires forall i :: 0 <= i < |name| ==> s[i] == name[i]
    ensures CString(s) == name
  {
    if name != [] {
      CStringOf(s[1..], name[1..]);
      assert name == [name[0]] + name[1..];
    }
  }
}
