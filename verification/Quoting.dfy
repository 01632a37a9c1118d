/** The text forms of values in Quadlet units: quoted literals, volumes and unit names. */
module Quoting {
  import opened Options
  import opened Sequences
  import opened Utf8

  /** No NUL and no line ending. */
  predicate Literal(s: string) {
    forall i | 0 <= i < |s| :: s[i] != '\0' && s[i] != '\r' && s[i] != '\n'
  }

  /** Every occurrence of a character replaced by a text. */
  function Replace(s: string, c: char, text: string): string {
    if s == [] then [] else (if s[0] == c then text else [s[0]]) + Replace(s[1..], c, text)
  }

  function Escape(s: string): string {
    Replace(Replace(Replace(s, '\\', "\\\\"), '%', "%%"), '$', "$$")
  }

  function Quote(s: string): string {
    "\"" + Replace(Escape(s), '\"', "\\\"") + "\""
  }

  function VolumeEscape(s: string): string {
    Replace(Replace(s, '%', "%%"), '$', "$$")
  }

  // ----- The replaces one after the other, character by character

  lemma {:induction false} ReplaceAppend(a: string, b: string, c: char, text: string)
    ensures Replace(a + b, c, text) == Replace(a, c, text) + Replace(b, c, text)
    decreases |a|
  {
    if a == [] {
      assert a + b == b;
    } else {
      assert (a + b)[1..] == a[1..] + b;
      ReplaceAppend(a[1..], b, c, text);
      if a[0] == c {
        Associates(text, Replace(a[1..], c, text), Replace(b, c, text));
      } else {
        Associates([a[0]], Replace(a[1..], c, text), Replace(b, c, text));
      }
    }
  }

  lemma ReplaceOne(x: char, c: char, text: string)
    ensures Replace([x], c, text) == if x == c then text else [x]
  {
    assert [x][1..] == [];
  }

  lemma ReplaceTwo(x: char, c: char, text: string)
    requires x != c
    ensures Replace([x, x], c, text) == [x, x]
  {
    assert [x, x] == [x] + [x];
    ReplaceAppend([x], [x], c, text);
    ReplaceOne(x, c, text);
  }

  function VolumeChar(c: char): string {
    if c == '%' || c == '$' then [c, c] else [c]
  }

  function QuoteChar(c: char): string {
    if c == '\\' || c == '%' || c == '$' then [c, c] else if c == '\"' then "\\\"" else [c]
  }

  function VolumeText(s: string): string {
    if s == [] then [] else VolumeChar(s[0]) + VolumeText(s[1..])
  }

  function QuoteText(s: string): string {
    if s == [] then [] else QuoteChar(s[0]) + QuoteText(s[1..])
  }

  lemma VolumeOne(c: char)
    ensures VolumeEscape([c]) == VolumeChar(c)
  {
    ReplaceOne(c, '%', "%%");
    ReplaceOne(c, '$', "$$");
    ReplaceTwo('%', '$', "$$");
  }

  lemma {:induction false} VolumeIsText(s: string)
    ensures VolumeEscape(s) == VolumeText(s)
    decreases |s|
  {
    if s != [] {
      assert s == [s[0]] + s[1..];
      VolumeOne(s[0]);
      VolumeIsText(s[1..]);
      ReplaceAppend([s[0]], s[1..], '%', "%%");
      ReplaceAppend(Replace([s[0]], '%', "%%"), Replace(s[1..], '%', "%%"), '$', "$$");
    }
  }

  function Inner(s: string): string {
    Replace(Escape(s), '\"', "\\\"")
  }

  lemma QuoteOne(c: char)
    ensures Inner([c]) == QuoteChar(c)
  {
    ReplaceOne(c, '\\', "\\\\");
    ReplaceOne(c, '%', "%%");
    ReplaceOne(c, '$', "$$");
    ReplaceOne(c, '\"', "\\\"");
    ReplaceTwo('\\', '%', "%%");
    ReplaceTwo('\\', '$', "$$");
    ReplaceTwo('\\', '\"', "\\\"");
    ReplaceTwo('%', '$', "$$");
    ReplaceTwo('%', '\"', "\\\"");
    ReplaceTwo('$', '\"', "\\\"");
  }

  lemma EscapeAppend(a: string, b: string)
    ensures Escape(a + b) == Escape(a) + Escape(b) && Inner(a + b) == Inner(a) + Inner(b)
  {
    ReplaceAppend(a, b, '\\', "\\\\");
    var a1, b1 := Replace(a, '\\', "\\\\"), Replace(b, '\\', "\\\\");
    ReplaceAppend(a1, b1, '%', "%%");
    ReplaceAppend(Replace(a1, '%', "%%"), Replace(b1, '%', "%%"), '$', "$$");
    ReplaceAppend(Escape(a), Escape(b), '\"', "\\\"");
  }

  lemma {:induction false} QuoteIsText(s: string)
    ensures Inner(s) == QuoteText(s)
    decreases |s|
  {
    if s != [] {
      assert s == [s[0]] + s[1..];
      QuoteOne(s[0]);
      QuoteIsText(s[1..]);
      EscapeAppend([s[0]], s[1..]);
    }
  }

  // ----- The decoders

  function Cons(c: char, r: Option<string>): Option<string> {
    if r.None? then None else Some([c] + r.value)
  }

  function UnquoteText(s: string): Option<string> {
    if s == [] then Some([])
    else if s[0] == '\\' then
      if |s| > 1 && (s[1] == '\\' || s[1] == '\"') then Cons(s[1], UnquoteText(s[2..])) else None
    else if s[0] == '$' || s[0] == '%' then
      if |s| > 1 && s[1] == s[0] then Cons(s[0], UnquoteText(s[2..])) else None
    else if s[0] == '\"' then None
    else Cons(s[0], UnquoteText(s[1..]))
  }

  function UnvolumeText(s: string): Option<string> {
    if s == [] then Some([])
    else if s[0] == '$' || s[0] == '%' then
      if |s| > 1 && s[1] == s[0] then Cons(s[0], UnvolumeText(s[2..])) else None
    else Cons(s[0], UnvolumeText(s[1..]))
  }

  function OnlyLiteral(r: Option<string>): Option<string> {
    if r.Some? && Literal(r.value) then r else None
  }

  /** The meaning of a quoted value. */
  function Unquoted(s: string): Option<string> {
    if |s| < 2 || s[0] != '\"' || s[|s| - 1] != '\"' then None else OnlyLiteral(UnquoteText(s[1..|s| - 1]))
  }

  function Unvolumed(s: string): Option<string> {
    OnlyLiteral(UnvolumeText(s))
  }

  /** What has been decoded so far, followed by what is still to come. */
  function Prepend(decoded: string, r: Option<string>): Option<string> {
    if r.None? then None else Some(decoded + r.value)
  }

  lemma PrependNext(decoded: string, c: char, r: Option<string>)
    ensures Prepend(decoded, Cons(c, r)) == Prepend(decoded + [c], r)
  {
    if r.Some? {
      assert decoded + ([c] + r.value) == decoded + [c] + r.value;
    }
  }

  lemma PrependNothing(r: Option<string>)
    ensures Prepend([], r) == r
  {
    if r.Some? {
      assert [] + r.value == r.value;
    }
  }

  method Unquote(value: string) returns (r: Option<string>)
    ensures r == Unquoted(value)
  {
    if |value| < 2 || value[0] != '\"' || value[|value| - 1] != '\"' {
      return None;
    }
    var chars := value[1..|value| - 1];
    var result := "";
    PrependNothing(UnquoteText(chars));
    while chars != []
      invariant UnquoteText(value[1..|value| - 1]) == Prepend(result, UnquoteText(chars))
      decreases |chars|
    {
      var c := chars[0];
      var next := if |chars| > 1 then Some(chars[1]) else None;
      if c == '\\' {
        if next != Some('\\') && next != Some('\"') {
          return None;
        }
        PrependNext(result, next.value, UnquoteText(chars[2..]));
        result := result + [next.value];
        chars := chars[2..];
      } else if c == '$' || c == '%' {
        if next != Some(c) {
          return None;
        }
        PrependNext(result, c, UnquoteText(chars[2..]));
        result := result + [c];
        chars := chars[2..];
      } else if c == '\"' {
        return None;
      } else {
        PrependNext(result, c, UnquoteText(chars[1..]));
        result := result + [c];
        chars := chars[1..];
      }
    }
    assert result + [] == result;
    return if Literal(result) then Some(result) else None;
  }

  method VolumeUnescape(value: string) returns (r: Option<string>)
    ensures r == Unvolumed(value)
  {
    var chars := value;
    var decoded := "";
    PrependNothing(UnvolumeText(chars));
    while chars != []
      invariant UnvolumeText(value) == Prepend(decoded, UnvolumeText(chars))
      decreases |chars|
    {
      var c := chars[0];
      var taken := 1;
      if c == '$' || c == '%' {
        if |chars| < 2 || chars[1] != c {
          return None;
        }
        taken := 2;
      }
      PrependNext(decoded, c, UnvolumeText(chars[taken..]));
      decoded := decoded + [c];
      chars := chars[taken..];
    }
    assert decoded + [] == decoded;
    return if Literal(decoded) then Some(decoded) else None;
  }

  // ----- Mutual inverses

  lemma {:induction false} UnquoteFirst(c: char, rest: string)
    ensures UnquoteText(QuoteChar(c) + rest) == Cons(c, UnquoteText(rest))
  {
    assert (QuoteChar(c) + rest)[|QuoteChar(c)|..] == rest;
  }

  lemma {:induction false} UnquoteOfQuote(s: string)
    ensures UnquoteText(QuoteText(s)) == Some(s)
    decreases |s|
  {
    if s != [] {
      UnquoteOfQuote(s[1..]);
      UnquoteFirst(s[0], QuoteText(s[1..]));
      assert s == [s[0]] + s[1..];
    }
  }

  lemma {:induction false} QuoteOfUnquote(s: string)
    ensures UnquoteText(s).Some? ==> QuoteText(UnquoteText(s).value) == s
    decreases |s|
  {
    if s != [] && UnquoteText(s).Some? {
      var k := if s[0] == '\\' || s[0] == '$' || s[0] == '%' then 2 else 1;
      QuoteOfUnquote(s[k..]);
      assert s == s[..k] + s[k..];
      assert UnquoteText(s).value[1..] == UnquoteText(s[k..]).value;
      assert QuoteChar(UnquoteText(s).value[0]) == s[..k];
    }
  }

  /** `quote` and `unquote` are inverse to each other between the values without NUL or line ending and the
      texts that `unquote` accepts, in spite of the replaces being made one after the other. */
  lemma QuoteRoundTrip(s: string, text: string)
    ensures Unquoted(Quote(s)) == if Literal(s) then Some(s) else None
    ensures Unquoted(text) == Some(s) <==> Literal(s) && text == Quote(s)
  {
    QuoteIsText(s);
    UnquoteOfQuote(s);
    assert Quote(s)[1..|Quote(s)| - 1] == QuoteText(s);
    if Unquoted(text) == Some(s) {
      var inner := text[1..|text| - 1];
      QuoteOfUnquote(inner);
      assert text == "\"" + inner + "\"";
    }
  }

  lemma {:induction false} UnvolumeFirst(c: char, rest: string)
    ensures UnvolumeText(VolumeChar(c) + rest) == Cons(c, UnvolumeText(rest))
  {
    assert (VolumeChar(c) + rest)[|VolumeChar(c)|..] == rest;
  }

  lemma {:induction false} UnvolumeOfVolume(s: string)
    ensures UnvolumeText(VolumeText(s)) == Some(s)
    decreases |s|
  {
    if s != [] {
      UnvolumeOfVolume(s[1..]);
      UnvolumeFirst(s[0], VolumeText(s[1..]));
      assert s == [s[0]] + s[1..];
    }
  }

  lemma {:induction false} VolumeOfUnvolume(s: string)
    ensures UnvolumeText(s).Some? ==> VolumeText(UnvolumeText(s).value) == s
    decreases |s|
  {
    if s != [] && UnvolumeText(s).Some? {
      var k := if s[0] == '$' || s[0] == '%' then 2 else 1;
      VolumeOfUnvolume(s[k..]);
      assert s == s[..k] + s[k..];
      assert UnvolumeText(s).value[1..] == UnvolumeText(s[k..]).value;
      assert VolumeChar(UnvolumeText(s).value[0]) == s[..k];
    }
  }

  lemma VolumeRoundTrip(s: string, text: string)
    ensures Unvolumed(VolumeEscape(s)) == if Literal(s) then Some(s) else None
    ensures Unvolumed(text) == Some(s) <==> Literal(s) && text == VolumeEscape(s)
  {
    VolumeIsText(s);
    UnvolumeOfVolume(s);
    if Unvolumed(text) == Some(s) {
      VolumeOfUnvolume(text);
    }
  }

  // ----- Unit names

  predicate IsAlphanumeric(b: Byte) {
    48 <= b <= 57 || 65 <= b <= 90 || 97 <= b <= 122
  }

  /** Letters, digits and `:_.-`. */
  predicate IsPlain(b: Byte) {
    IsAlphanumeric(b) || b == 58 || b == 95 || b == 46 || b == 45
  }

  function HexChar(d: nat): char
    requires d < 16
  {
    if d < 10 then (48 + d) as char else (87 + d) as char
  }

  function HexValue(c: char): Option<nat> {
    if '0' <= c <= '9' then Some((c as int) - 48)
    else if 'a' <= c <= 'f' then Some((c as int) - 87)
    else if 'A' <= c <= 'F' then Some((c as int) - 55)
    else None
  }

  function NameByte(b: Byte, first: bool): string {
    if IsPlain(b) && !(first && b == 46) then [b as char] else ['\\', 'x', HexChar(b / 16), HexChar(b % 16)]
  }

  function NameText(bytes: seq<Byte>, first: bool): string {
    if bytes == [] then [] else NameByte(bytes[0], first) + NameText(bytes[1..], false)
  }

  /** Letters, digits and the four signs stand for themselves, but not a full stop at the beginning; every other byte is
      written with its two lower-case hexadecimal digits. */
  lemma NameByteExactly(b: Byte, first: bool)
    ensures var c := b as char;
            if ('a' <= c <= 'z' || 'A' <= c <= 'Z' || '0' <= c <= '9' || c in ":_-" || (c == '.' && !first))
            then NameByte(b, first) == [c]
            else NameByte(b, first) == "\\x" + ["0123456789abcdef"[b / 16], "0123456789abcdef"[b % 16]]
  {
    HexDigit(b / 16);
    HexDigit(b % 16);
  }

  lemma HexDigit(d: nat)
    requires d < 16
    ensures HexChar(d) == "0123456789abcdef"[d]
  {}

  predicate ValidRest(s: string) {
    if s == [] then true
    else if s[0] == '\\' then
      && |s| >= 4 && s[1] == 'x' && HexValue(s[2]).Some? && HexValue(s[3]).Some? && (s[2] != '0' || s[3] != '0')
      && ValidRest(s[4..])
    else (s[0] as int) < 128 && IsPlain(s[0] as int) && ValidRest(s[1..])
  }

  /** What `validate_unit_name` accepts. */
  predicate ValidName(s: string) {
    s != [] && |Encode(s)| <= 240 && s[0] != '.' && ValidRest(s)
  }

  lemma NameNext(bytes: seq<Byte>, index: nat, name: string)
    requires index < |bytes|
    ensures name + NameText(bytes[index..], index == 0)
            == (name + NameByte(bytes[index], index == 0)) + NameText(bytes[index + 1..], false)
  {
    assert bytes[index..][1..] == bytes[index + 1..];
    Associates(name, NameByte(bytes[index], index == 0), NameText(bytes[index + 1..], false));
  }

  method EscapeUnitName(value: string) returns (r: Option<string>)
    ensures r.Some? <==> Literal(value) && value != [] && |NameText(Encode(value), true)| <= 240
    ensures r.Some? ==> r.value == NameText(Encode(value), true) && ValidName(r.value)
  {
    if !Literal(value) || value == [] {
      return None;
    }
    var bytes := Encode(value);
    var name := "";
    for index := 0 to |bytes|
      invariant name + NameText(bytes[index..], index == 0) == NameText(bytes, true)
    {
      NameNext(bytes, index, name);
      name := name + NameByte(bytes[index], index == 0);
    }
    assert name + [] == name;
    NameIsValid(value);
    return if ValidName(name) then Some(name) else None;
  }

  /** Reading an escaped name back. */
  function NameBytes(s: string): Option<seq<Byte>> {
    if s == [] then Some([])
    else if s[0] == '\\' then
      if |s| < 4 || HexValue(s[2]).None? || HexValue(s[3]).None? then None
      else ConsByte(HexValue(s[2]).value * 16 + HexValue(s[3]).value, NameBytes(s[4..]))
    else if (s[0] as int) < 128 then ConsByte(s[0] as int, NameBytes(s[1..]))
    else None
  }

  function ConsByte(b: nat, r: Option<seq<Byte>>): Option<seq<Byte>> {
    if r.None? || b > 255 then None else Some([b] + r.value)
  }

  lemma {:induction false} NameReadsFirst(b: Byte, first: bool, rest: string)
    ensures NameBytes(NameByte(b, first) + rest) == ConsByte(b, NameBytes(rest))
  {
    assert (NameByte(b, first) + rest)[|NameByte(b, first)|..] == rest;
  }

  lemma {:induction false} NameReads(bytes: seq<Byte>, first: bool)
    ensures NameBytes(NameText(bytes, first)) == Some(bytes)
    decreases |bytes|
  {
    if bytes != [] {
      NameReads(bytes[1..], false);
      NameReadsFirst(bytes[0], first, NameText(bytes[1..], false));
      assert bytes == [bytes[0]] + bytes[1..];
    }
  }

  /** Different names are escaped differently. */
  lemma EscapeIsInjective(a: string, b: string)
    requires NameText(Encode(a), true) == NameText(Encode(b), true)
    ensures a == b
  {
    NameReads(Encode(a), true);
    NameReads(Encode(b), true);
    DecodeEncode(a);
    DecodeEncode(b);
  }

  lemma {:induction false} ValidFirst(b: Byte, first: bool, rest: string)
    requires b != 0 && ValidRest(rest)
    ensures ValidRest(NameByte(b, first) + rest)
    ensures forall i | 0 <= i < |NameByte(b, first)| :: (NameByte(b, first)[i] as int) < 128
  {
    assert (NameByte(b, first) + rest)[|NameByte(b, first)|..] == rest;
  }

  lemma {:induction false} NameRest(bytes: seq<Byte>, first: bool)
    requires forall i | 0 <= i < |bytes| :: bytes[i] != 0
    ensures ValidRest(NameText(bytes, first)) && |Encode(NameText(bytes, first))| == |NameText(bytes, first)|
    decreases |bytes|
  {
    if bytes != [] {
      var one, rest := NameByte(bytes[0], first), NameText(bytes[1..], false);
      NameRest(bytes[1..], false);
      ValidFirst(bytes[0], first, rest);
      EncodeAppend(one, rest);
      AsciiLength(one);
    }
  }

  lemma {:induction false} AsciiLength(s: string)
    requires forall i | 0 <= i < |s| :: (s[i] as int) < 128
    ensures |Encode(s)| == |s|
    decreases |s|
  {
    if s != [] {
      AsciiLength(s[1..]);
    }
  }

  lemma {:induction false} NoZeroByte(s: string)
    requires Literal(s)
    ensures forall i | 0 <= i < |Encode(s)| :: Encode(s)[i] != 0
    decreases |s|
  {
    if s != [] {
      NoZeroByte(s[1..]);
    }
  }

  lemma NameIsValid(value: string)
    requires Literal(value) && value != []
    ensures ValidName(NameText(Encode(value), true)) <==> |NameText(Encode(value), true)| <= 240
  {
    NoZeroByte(value);
    NameRest(Encode(value), true);
    assert Encode(value) != [];
  }
}
