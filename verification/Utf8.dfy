/** The accepted strings are the encodings of Unicode scalar values, sections 3 and 4 of RFC 3629. */
module Utf8 {
  import opened Bytes

  /** A code point that is no surrogate. */
  predicate IsScalar(c: nat) {
    c <= 0xD7FF || 0xE000 <= c <= 0x10FFFF
  }

  /** Six bits for each byte behind the first. */
  function EncodeScalar(c: nat): seq<byte>
    requires IsScalar(c)
  {
    if c <= 0x7F then [c]
    else if c <= 0x7FF then [0xC0 + c / 0x40, 0x80 + c % 0x40]
    else if c <= 0xFFFF then [0xE0 + c / 0x1000, 0x80 + c / 0x40 % 0x40, 0x80 + c % 0x40]
    else [0xF0 + c / 0x4_0000, 0x80 + c / 0x1000 % 0x40, 0x80 + c / 0x40 % 0x40, 0x80 + c % 0x40]
  }

  predicate AreScalars(cs: seq<nat>) {
    forall i :: 0 <= i < |cs| ==> IsScalar(cs[i])
  }

  function EncodeScalars(cs: seq<nat>): seq<byte>
    requires AreScalars(cs)
  {
    if cs == [] then [] else EncodeScalar(cs[0]) + EncodeScalars(cs[1..])
  }

  /** The first character is as long as its encoding. */
  lemma ScalarIsChar(c: nat, rest: seq<byte>)
    requires IsScalar(c)
    ensures Utf8Char(EncodeScalar(c) + rest) == |EncodeScalar(c)|
  {
    var s, t := EncodeScalar(c), EncodeScalar(c) + rest;
    assert forall i :: 0 <= i < |s| ==> t[i] == s[i];
  }

  lemma CharIsScalar(s: seq<byte>) returns (c: nat)
    requires Utf8Char(s) > 0
    ensures IsScalar(c) && EncodeScalar(c) == s[..Utf8Char(s)]
  {
    match Utf8Char(s)
    case 1 => c := s[0];
    case 2 => c := TwoBytes(s[0], s[1]);
    case 3 => c := ThreeBytes(s[0], s[1], s[2]);
    case 4 => c := FourBytes(s[0], s[1], s[2], s[3]);
  }

  lemma TwoBytes(a: byte, b: byte) returns (c: nat)
    requires 0xC2 <= a <= 0xDF && IsTail(b)
    ensures IsScalar(c) && EncodeScalar(c) == [a, b]
  {
    c := (a - 0xC0) * 0x40 + (b - 0x80);
  }

  lemma ThreeBytes(a: byte, b: byte, d: byte) returns (c: nat)
    requires 0xE0 <= a <= 0xEF && IsTail(b) && IsTail(d)
    requires (a == 0xE0 ==> b >= 0xA0) && (a == 0xED ==> b <= 0x9F)
    ensures IsScalar(c) && EncodeScalar(c) == [a, b, d]
  {
    c := (a - 0xE0) * 0x1000 + (b - 0x80) * 0x40 + (d - 0x80);
    assert c / 0x40 == (a - 0xE0) * 0x40 + (b - 0x80);
  }

  lemma FourBytes(a: byte, b: byte, d: byte, e: byte) returns (c: nat)
    requires 0xF0 <= a <= 0xF4 && IsTail(b) && IsTail(d) && IsTail(e)
    requires (a == 0xF0 ==> b >= 0x90) && (a == 0xF4 ==> b <= 0x8F)
    ensures IsScalar(c) && EncodeScalar(c) == [a, b, d, e]
  {
    c := (a - 0xF0) * 0x4_0000 + (b - 0x80) * 0x1000 + (d - 0x80) * 0x40 + (e - 0x80);
    assert c / 0x40 == (a - 0xF0) * 0x1000 + (b - 0x80) * 0x40 + (d - 0x80);
    assert c / 0x1000 == (a - 0xF0) * 0x40 + (b - 0x80);
  }

  lemma {:induction false} ScalarsAreValid(cs: seq<nat>)
    requires AreScalars(cs)
    ensures ValidUtf8(EncodeScalars(cs))
  {
    if cs != [] {
      var s, rest := EncodeScalar(cs[0]), EncodeScalars(cs[1..]);
      ScalarIsChar(cs[0], rest);
      ScalarsAreValid(cs[1..]);
      assert (s + rest)[|s|..] == rest;
    }
  }

  lemma {:induction false} ValidIsScalars(s: seq<byte>) returns (cs: seq<nat>)
    requires ValidUtf8(s)
    ensures AreScalars(cs) && EncodeScalars(cs) == s
  {
    if s == [] {
      cs := [];
    } else {
      var n := Utf8Char(s);
      var c := CharIsScalar(s);
      var rest := ValidIsScalars(s[n..]);
      cs := [c] + rest;
      assert cs[1..] == rest && s == s[..n] + s[n..];
    }
  }

  /** A string is accepted exactly if it is the encoding of some scalar values. */
  lemma ValidExactlyWhenScalars(s: seq<byte>)
    ensures ValidUtf8(s) <==> exists cs :: AreScalars(cs) && EncodeScalars(cs) == s
  {
    if ValidUtf8(s) {
      var cs := ValidIsScalars(s);
    }
    if cs :| AreScalars(cs) && EncodeScalars(cs) == s {
      ScalarsAreValid(cs);
    }
  }
}
