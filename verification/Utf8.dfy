// Well-formed UTF-8 as RFC 3629 section 4 defines it, over bytes.
module Utf8 {
  import opened Wrappers

  predicate IsContinuation(b: byte) {
    0x80 <= b < 0xC0
  }

  // Go's utf8.RuneStart.
  predicate RuneStart(b: byte) {
    !IsContinuation(b)
  }

  // The length of the well-formed character at the head of s, or 0.
  function CharLength(s: seq<byte>): (n: nat)
    ensures n <= |s| && n <= 4
  {
    if |s| >= 1 && s[0] < 0x80 then 1
    else if |s| >= 2 && 0xC2 <= s[0] < 0xE0 && IsContinuation(s[1]) then 2
    else if |s| >= 3 && 0xE0 <= s[0] < 0xF0 && IsContinuation(s[1]) && IsContinuation(s[2])
            && (s[0] == 0xE0 ==> s[1] >= 0xA0) && (s[0] == 0xED ==> s[1] < 0xA0) then 3
    else if |s| >= 4 && 0xF0 <= s[0] < 0xF5
            && IsContinuation(s[1]) && IsContinuation(s[2]) && IsContinuation(s[3])
            && (s[0] == 0xF0 ==> s[1] >= 0x90) && (s[0] == 0xF4 ==> s[1] < 0x90) then 4
    else 0
  }

  predicate Valid(s: seq<byte>)
    decreases |s|
  {
    s == [] || (CharLength(s) > 0 && Valid(s[CharLength(s)..]))
  }

  // ---------------------------------------------------------------- the encoder

  // Unicode scalar values: no surrogates, at most U+10FFFF.
  predicate Scalar(c: nat) { c < 0xD800 || 0xE000 <= c < 0x11_0000 }

  // One character in one to four bytes (section 3).
  function Encoded(c: nat): (s: seq<byte>)
    requires Scalar(c)
    ensures 1 <= |s| <= 4
  {
    if c < 0x80 then [c]
    else if c < 0x800 then [0xC0 + c / 64, 0x80 + c % 64]
    else if c < 0x1_0000 then [0xE0 + c / 4096, 0x80 + c / 64 % 64, 0x80 + c % 64]
    else [0xF0 + c / 0x4_0000, 0x80 + c / 4096 % 64, 0x80 + c / 64 % 64, 0x80 + c % 64]
  }

  function EncodedText(cs: seq<nat>): seq<byte>
    requires forall c :: c in cs ==> Scalar(c)
  {
    if cs == [] then [] else Encoded(cs[0]) + EncodedText(cs[1..])
  }

  lemma EncodedChar(c: nat, rest: seq<byte>)
    requires Scalar(c)
    ensures CharLength(Encoded(c) + rest) == |Encoded(c)|
  {
    var s := Encoded(c) + rest;
    assert s[0] == Encoded(c)[0];
    assert |Encoded(c)| > 1 ==> s[1] == Encoded(c)[1];
    assert |Encoded(c)| > 2 ==> s[2] == Encoded(c)[2];
    assert |Encoded(c)| > 3 ==> s[3] == Encoded(c)[3];
    Sixths(c);
  }

  lemma Sixths(c: nat)
    ensures c == c / 64 * 64 + c % 64
    ensures c / 64 == c / 4096 * 64 + c / 64 % 64
    ensures c / 4096 == c / 0x4_0000 * 64 + c / 4096 % 64
  {
    assert c / 4096 == c / 64 / 64;
    assert c / 0x4_0000 == c / 4096 / 64;
  }

  lemma SixPlaces(a: nat, b: nat, c: nat, d: nat)
    requires b < 64 && c < 64 && d < 64
    ensures var n := ((a * 64 + b) * 64 + c) * 64 + d;
            n % 64 == d && n / 64 % 64 == c && n / 4096 % 64 == b && n / 0x4_0000 == a
            && n / 64 == (a * 64 + b) * 64 + c && n / 4096 == a * 64 + b
  {
    Sixths(((a * 64 + b) * 64 + c) * 64 + d);
  }

  // The character that well-formed leading bytes encode.
  lemma CharFound(s: seq<byte>) returns (c: nat)
    requires CharLength(s) > 0
    ensures Scalar(c) && s[..CharLength(s)] == Encoded(c)
  {
    var n := CharLength(s);
    if n == 1 {
      c := s[0];
      assert s[..1] == [s[0]];
    } else if n == 2 {
      var a, b := s[0] as int - 0xC0, s[1] as int - 0x80;
      c := a * 64 + b;
      SixPlaces(0, 0, a, b);
      assert s[..2] == [s[0], s[1]];
    } else if n == 3 {
      c := ThreeBytes(s);
    } else {
      c := FourBytes(s);
    }
  }

  lemma ThreeBytes(s: seq<byte>) returns (c: nat)
    requires CharLength(s) == 3
    ensures Scalar(c) && s[..3] == Encoded(c)
  {
    var x, y, z := s[0] as int - 0xE0, s[1] as int - 0x80, s[2] as int - 0x80;
    c := (x * 64 + y) * 64 + z;
    SixPlaces(0, x, y, z);
    assert 0x800 <= c < 0x1_0000 && Scalar(c);
    assert s[..3] == [s[0], s[1], s[2]];
  }

  lemma FourBytes(s: seq<byte>) returns (c: nat)
    requires CharLength(s) == 4
    ensures Scalar(c) && s[..4] == Encoded(c)
  {
    var w, x, y, z := s[0] as int - 0xF0, s[1] as int - 0x80, s[2] as int - 0x80, s[3] as int - 0x80;
    c := ((w * 64 + x) * 64 + y) * 64 + z;
    SixPlaces(w, x, y, z);
    assert 0x1_0000 <= c < 0x11_0000;
    assert s[..4] == [s[0], s[1], s[2], s[3]];
  }

  // Valid text is exactly what the encoder writes.
  lemma {:induction false} EncodedValid(cs: seq<nat>)
    requires forall c :: c in cs ==> Scalar(c)
    ensures Valid(EncodedText(cs))
    decreases |cs|
  {
    if cs != [] {
      EncodedValid(cs[1..]);
      EncodedChar(cs[0], EncodedText(cs[1..]));
      var s := EncodedText(cs);
      assert s[|Encoded(cs[0])|..] == EncodedText(cs[1..]);
    }
  }

  lemma {:induction false} ValidEncoded(s: seq<byte>) returns (cs: seq<nat>)
    requires Valid(s)
    ensures (forall c :: c in cs ==> Scalar(c)) && s == EncodedText(cs)
    decreases |s|
  {
    cs := [];
    if s != [] {
      var n := CharLength(s);
      var c := CharFound(s);
      var rest := ValidEncoded(s[n..]);
      cs := [c] + rest;
      assert s == s[..n] + s[n..];
    }
  }
}
