/** UTF-8 as a Rust `String` holds it: a character is a Unicode scalar value. */
module Utf8 {
  import opened Options

  type Byte = b: int | 0 <= b < 256

  function Units(c: char): (r: seq<Byte>)
    ensures 1 <= |r| <= 4
  {
    var n := c as int;
    if n < 0x80 then [n]
    else if n < 0x800 then [0xC0 + n / 64, 0x80 + n % 64]
    else if n < 0x1_0000 then [0xE0 + n / 4096, 0x80 + n / 64 % 64, 0x80 + n % 64]
    else [0xF0 + n / 262144, 0x80 + n / 4096 % 64, 0x80 + n / 64 % 64, 0x80 + n % 64]
  }

  function Encode(text: string): seq<Byte> {
    if text == [] then [] else Units(text[0]) + Encode(text[1..])
  }

  function UnitCount(lead: Byte): nat {
    if lead < 0x80 then 1 else if lead < 0xE0 then 2 else if lead < 0xF0 then 3 else 4
  }

  /** The number that well-formed units stand for. */
  function ScalarOf(u: seq<Byte>): int
    requires u != [] && |u| == UnitCount(u[0])
  {
    if |u| == 1 then u[0]
    else if |u| == 2 then Digit(u, 0, 0xC0) * 64 + Digit(u, 1, 0x80)
    else if |u| == 3 then Digit(u, 0, 0xE0) * 4096 + Digit(u, 1, 0x80) * 64 + Digit(u, 2, 0x80)
    else Digit(u, 0, 0xF0) * 262144 + Digit(u, 1, 0x80) * 4096 + Digit(u, 2, 0x80) * 64 + Digit(u, 3, 0x80)
  }

  function Digit(u: seq<Byte>, i: nat, marker: int): int
    requires i < |u|
  {
    var b: int := u[i];
    b - marker
  }

  predicate IsScalar(n: int) {
    0 <= n < 0xD800 || 0xE000 <= n < 0x11_0000
  }

  /** The text these bytes encode. Overlong forms, surrogates and stray bytes are refused. */
  function Decode(bytes: seq<Byte>): Option<string>
    decreases |bytes|
  {
    if bytes == [] then Some([])
    else
      var k := UnitCount(bytes[0]);
      if |bytes| < k then None
      else
        var n := ScalarOf(bytes[..k]);
        if !IsScalar(n) || Units(n as char) != bytes[..k] then None
        else
          var rest := Decode(bytes[k..]);
          if rest.None? then None else Some([n as char] + rest.value)
  }

  lemma UnitsAssemble(c: char)
    ensures |Units(c)| == UnitCount(Units(c)[0]) && ScalarOf(Units(c)) == c as int
  {
    var n := c as int;
    if 0x800 <= n {
      assert n == n / 4096 * 4096 + n / 64 % 64 * 64 + n % 64 by { Digits64(n); }
      if 0x1_0000 <= n {
        assert n / 64 == n / 4096 * 64 + n / 64 % 64;
        Digits64(n / 64);
        assert n / 4096 == n / 262144 * 64 + n / 4096 % 64 by { Quotients(n); }
      }
    }
  }

  lemma Digits64(n: nat)
    ensures n / 64 / 64 == n / 4096 && n == n / 4096 * 4096 + n / 64 % 64 * 64 + n % 64
  {}

  lemma Quotients(n: nat)
    ensures n / 4096 / 64 == n / 262144
  {}

  lemma {:induction false} DecodeEncode(text: string)
    ensures Decode(Encode(text)) == Some(text)
    decreases |text|
  {
    if text != [] {
      var u, rest := Units(text[0]), Encode(text[1..]);
      UnitsAssemble(text[0]);
      assert Encode(text)[..|u|] == u && Encode(text)[|u|..] == rest;
      DecodeEncode(text[1..]);
      assert [text[0]] + text[1..] == text;
    }
  }

  lemma {:induction false} EncodeDecode(bytes: seq<Byte>)
    ensures Decode(bytes).Some? ==> Encode(Decode(bytes).value) == bytes
    decreases |bytes|
  {
    if bytes != [] && Decode(bytes).Some? {
      var c, k := DecodeFirst(bytes);
      EncodeDecode(bytes[k..]);
      EncodeFirst(c, Decode(bytes[k..]).value);
      assert bytes == bytes[..k] + bytes[k..];
    }
  }

  lemma DecodeFirst(bytes: seq<Byte>) returns (c: char, k: nat)
    requires bytes != [] && Decode(bytes).Some?
    ensures 0 < k <= |bytes| && Units(c) == bytes[..k]
    ensures Decode(bytes[k..]).Some? && Decode(bytes).value == [c] + Decode(bytes[k..]).value
  {
    k := UnitCount(bytes[0]);
    c := ScalarOf(bytes[..k]) as char;
  }

  lemma EncodeFirst(c: char, rest: string)
    ensures Encode([c] + rest) == Units(c) + Encode(rest)
  {
    assert ([c] + rest)[1..] == rest;
  }

  lemma {:induction false} EncodeAppend(a: string, b: string)
    ensures Encode(a + b) == Encode(a) + Encode(b)
    decreases |a|
  {
    if a == [] {
      assert a + b == b;
    } else {
      assert (a + b)[1..] == a[1..] + b;
      EncodeAppend(a[1..], b);
    }
  }
}
