/** Rendering a string as a quoted Lua literal and decoding such a literal (section 2.1 of the Lua 5.1
    Reference Manual). */
module LuaString {
  import opened Options
  import opened Utf8
  import opened Numerals

  const MAX_SOURCE_BYTES := 1024 * 1024
  const BACKSLASH := 92

  /** Unicode's control characters: C0, delete and C1. */
  predicate IsControl(c: char) {
    (c as int) < 0x20 || 0x7F <= c as int <= 0x9F
  }

  // ----- Rendering

  /** A byte as a backslash and three decimal digits. */
  function DecimalEscape(b: Byte): string {
    ['\\', DigitChar(b / 100), DigitChar(b / 10 % 10), DigitChar(b % 10)]
  }

  function DecimalEscapes(bytes: seq<Byte>): string {
    if bytes == [] then [] else DecimalEscape(bytes[0]) + DecimalEscapes(bytes[1..])
  }

  function Escaped(c: char): string {
    if c == '\"' then ['\\', '\"']
    else if c == '\\' then ['\\', '\\']
    else if IsControl(c) then DecimalEscapes(Units(c))
    else [c]
  }

  /** What stands between the quotes. */
  function Body(text: string): string {
    if text == [] then [] else Body(text[..|text| - 1]) + Escaped(text[|text| - 1])
  }

  function Quoted(text: string): string {
    ['\"'] + Body(text) + ['\"']
  }

  /** The length of a Rust string is that of its encoding. */
  function Length(text: string): nat {
    |Encode(text)|
  }

  method RenderString(text: string, output: string) returns (r: Option<string>)
    ensures r.Some? <==>
              Length(text) <= 1_048_576
              && (text == [] || Length(output + ['\"'] + Body(text)) <= 1_048_569)
    ensures r.Some? ==> r.value == output + Quoted(text)
  {
    if Length(text) > MAX_SOURCE_BYTES {
      return None;
    }
    var out := output + ['\"'];
    ghost var start := out;
    for i := 0 to |text|
      invariant out == start + Body(text[..i])
      invariant i > 0 ==> Length(out) <= MAX_SOURCE_BYTES - 7
    {
      BodyNext(start, text, i);
      out := out + Escaped(text[i]);
      if Length(out) > MAX_SOURCE_BYTES - 7 {
        LengthGrows(text, i + 1, start);
        return None;
      }
    }
    assert text[..|text|] == text;
    QuotedParts(output, text);
    return Some(out + ['\"']);
  }

  lemma QuotedParts(output: string, text: string)
    ensures output + ['\"'] + Body(text) + ['\"'] == output + Quoted(text)
  {}

  lemma BodyNext(start: string, text: string, i: nat)
    requires i < |text|
    ensures start + Body(text[..i]) + Escaped(text[i]) == start + Body(text[..i + 1])
  {
    assert text[..i + 1][..i] == text[..i];
  }

  lemma {:induction false} BodyGrows(text: string, i: nat)
    requires i <= |text|
    ensures Body(text[..i]) <= Body(text)
    decreases |text| - i
  {
    if i == |text| {
      assert text[..i] == text;
    } else {
      BodyGrows(text, i + 1);
      assert text[..i + 1][..i] == text[..i];
    }
  }

  lemma LengthGrows(text: string, i: nat, output: string)
    requires i <= |text|
    ensures Length(output + Body(text[..i])) <= Length(output + Body(text))
  {
    BodyGrows(text, i);
    LongerAfter(output, Body(text[..i]), Body(text));
  }

  lemma LongerAfter(output: string, a: string, b: string)
    requires a <= b
    ensures Length(output + a) <= Length(output + b)
  {
    assert output + b == output + a + b[|a|..];
    EncodeAppend(output + a, b[|a|..]);
  }

  // ----- Decoding

  predicate IsDigit(b: Byte) {
    48 <= b <= 57
  }

  /** At most two more digits of a decimal escape: its number and what follows it. */
  function DecimalTail(number: nat, more: nat, s: seq<Byte>): (r: (nat, seq<Byte>))
    ensures |r.1| <= |s|
    decreases more
  {
    if more > 0 && s != [] && IsDigit(s[0])
    then var digit: int := s[0]; DecimalTail(number * 10 + (digit - 48), more - 1, s[1..])
    else (number, s)
  }

  function SkipIf(s: seq<Byte>, b: Byte): (r: seq<Byte>)
    ensures |r| <= |s|
  {
    if s != [] && s[0] == b then s[1..] else s
  }

  /** What a letter after the backslash stands for. */
  function Letter(b: Byte): Option<Byte> {
    if b == 97 then Some(7)
    else if b == 98 then Some(8)
    else if b == 102 then Some(12)
    else if b == 110 then Some(10)
    else if b == 114 then Some(13)
    else if b == 116 then Some(9)
    else if b == 118 then Some(11)
    else if b == 92 || b == 39 || b == 34 then Some(b)
    else None
  }

  /** The first byte of a literal's content, decoded, and what follows it. */
  function Next(s: seq<Byte>): (r: Option<(Byte, seq<Byte>)>)
    requires s != []
    ensures r.Some? ==> |r.value.1| < |s|
  {
    if s[0] != BACKSLASH then Some((s[0], s[1..]))
    else if |s| == 1 then None
    else if IsDigit(s[1]) then
      var first: int := s[1];
      var (number, rest) := DecimalTail(first - 48, 2, s[2..]);
      if number < 256 then Some((number, rest)) else None
    else if s[1] == 10 then Some((10, SkipIf(s[2..], 13)))
    else if s[1] == 13 then Some((10, SkipIf(s[2..], 10)))
    else
      var letter := Letter(s[1]);
      if letter.None? then None else Some((letter.value, s[2..]))
  }

  function Unescape(s: seq<Byte>): Option<seq<Byte>>
    decreases |s|
  {
    if s == [] then Some([])
    else
      var next := Next(s);
      if next.None? then None else Prepend([next.value.0], Unescape(next.value.1))
  }

  /** The content of a long bracket stands for itself, but for a line feed right after the opening. */
  function LongText(literal: string): string {
    if literal != [] && literal[0] == '\n' then literal[1..] else literal
  }

  /** The string that a literal with this content denotes, in quotes or in long brackets. */
  method DecodeString(literal: string, brackets: bool) returns (r: Option<string>)
    ensures r == if brackets then Some(LongText(literal)) else Denoted(literal)
  {
    if brackets {
      return Some(if literal != [] && literal[0] == '\n' then literal[1..] else literal);
    }
    var source := Encode(literal);
    var decoded: seq<Byte> := [];
    PrependNothing(Unescape(source));
    while source != []
      invariant Unescape(Encode(literal)) == Prepend(decoded, Unescape(source))
      decreases |source|
    {
      var next := Next(source);
      if next.None? {
        return None;
      }
      PrependTwice(decoded, [next.value.0], Unescape(next.value.1));
      decoded := decoded + [next.value.0];
      source := next.value.1;
    }
    assert decoded + [] == decoded;
    return Decode(decoded);
  }

  function Denoted(literal: string): Option<string> {
    var decoded := Unescape(Encode(literal));
    if decoded.None? then None else Decode(decoded.value)
  }

  /** The number that digits stand for, after those before it. */
  function NumberAfter(number: nat, digits: seq<Byte>): nat
    decreases |digits|
  {
    if digits == [] then number else NumberAfter(number * 10 + Excess(digits[0]), digits[1..])
  }

  function Excess(digit: int): nat {
    if digit < 48 then 0 else digit - 48
  }

  lemma {:induction false} TailExactly(number: nat, digits: seq<Byte>, more: nat, rest: seq<Byte>)
    requires |digits| <= more && forall i | 0 <= i < |digits| :: IsDigit(digits[i])
    requires |digits| == more || rest == [] || !IsDigit(rest[0])
    ensures DecimalTail(number, more, digits + rest) == (NumberAfter(number, digits), rest)
    decreases |digits|
  {
    if digits == [] {
      assert digits + rest == rest;
    } else {
      var digit: int := digits[0];
      assert (digits + rest)[1..] == digits[1..] + rest;
      TailExactly(number * 10 + (digit - 48), digits[1..], more - 1, rest);
    }
  }

  /** A decimal escape takes as many digits as there are, at most three, and is refused exactly when its number is
      more than a byte. */
  lemma {:induction false} DecimalExactly(s: seq<Byte>, first: Byte, more: seq<Byte>, rest: seq<Byte>)
    requires s == [BACKSLASH, first] + more + rest && IsDigit(first)
    requires |more| <= 2 && forall i | 0 <= i < |more| :: IsDigit(more[i])
    requires |more| == 2 || rest == [] || !IsDigit(rest[0])
    ensures var number := NumberAfter(Excess(first), more);
            Next(s) == if number < 256 then Some((number, rest)) else None
  {
    assert s == [BACKSLASH, first] + (more + rest);
    TailExactly(Excess(first), more, 2, rest);
    DecimalNumber(s, first, more + rest);
  }

  lemma DecimalNumber(s: seq<Byte>, digit: Byte, tail: seq<Byte>)
    requires s == [BACKSLASH, digit] + tail && IsDigit(digit)
    ensures var r := DecimalTail(Excess(digit), 2, tail);
            Next(s) == if r.0 < 256 then Some((r.0, r.1)) else None
  {
    assert s[2..] == tail;
  }

  // ----- The other escapes, byte by byte

  lemma {:induction false} OneDenotes(s: seq<Byte>, b: Byte)
    requires s != []
    requires forall rest: seq<Byte> :: Next(s + rest) == Some((b, rest))
    ensures Denotes(s, [b])
  {
    forall rest: seq<Byte> ensures Unescape(s + rest) == Prepend([b], Unescape(rest)) {
      assert Next(s + rest) == Some((b, rest));
    }
  }

  lemma {:induction false} LetterNext(x: Byte, b: Byte)
    requires !IsDigit(x) && x != 10 && x != 13 && Letter(x) == Some(b)
    ensures Denotes([92, x], [b])
  {
    forall rest: seq<Byte> ensures Next([92, x] + rest) == Some((b, rest)) {
      assert ([92, x] + rest)[2..] == rest;
    }
    OneDenotes([92, x], b);
  }

  /** A letter after the backslash stands for a control character, and the backslash and both quotes for themselves,
      whatever follows. */
  lemma {:induction false} LettersDenote()
    ensures Denotes([92, 97], [7]) && Denotes([92, 98], [8]) && Denotes([92, 102], [12]) && Denotes([92, 110], [10])
    ensures Denotes([92, 114], [13]) && Denotes([92, 116], [9]) && Denotes([92, 118], [11])
    ensures Denotes([92, 92], [92]) && Denotes([92, 39], [39]) && Denotes([92, 34], [34])
  {
    LetterNext(97, 7);
    LetterNext(98, 8);
    LetterNext(102, 12);
    LetterNext(110, 10);
    LetterNext(114, 13);
    LetterNext(116, 9);
    LetterNext(118, 11);
    LetterNext(92, 92);
    LetterNext(39, 39);
    LetterNext(34, 34);
  }

  lemma {:induction false} BreakNext(x: Byte, y: Byte, rest: seq<Byte>)
    requires (x == 10 && y == 13) || (x == 13 && y == 10)
    ensures Next([92, x, y] + rest) == Some((10, rest))
    ensures (rest == [] || rest[0] != y) ==> Next([92, x] + rest) == Some((10, rest))
  {
    assert ([92, x, y] + rest)[2..] == [y] + rest;
    assert ([92, x] + rest)[2..] == rest;
  }

  /** An escaped line break is one line feed, and two different break bytes in a row are one break. */
  lemma {:induction false} BreaksDenote(rest: seq<Byte>)
    ensures Unescape([92, 10, 13] + rest) == Prepend([10], Unescape(rest))
    ensures Unescape([92, 13, 10] + rest) == Prepend([10], Unescape(rest))
    ensures rest == [] || rest[0] != 13 ==> Unescape([92, 10] + rest) == Prepend([10], Unescape(rest))
    ensures rest == [] || rest[0] != 10 ==> Unescape([92, 13] + rest) == Prepend([10], Unescape(rest))
  {
    BreakNext(10, 13, rest);
    BreakNext(13, 10, rest);
  }

  /** Any other byte after the backslash is refused, and so is a backslash at the end; every other byte stands for
      itself. */
  lemma {:induction false} RefusedExactly(x: Byte, rest: seq<Byte>)
    ensures Unescape([92]) == None
    ensures !(48 <= x <= 57) && x !in {97, 98, 102, 110, 114, 116, 118, 92, 39, 34, 10, 13} ==>
              Unescape([92, x] + rest) == None
    ensures x != 92 ==> Unescape([x] + rest) == Prepend([x], Unescape(rest))
  {
    assert ([x] + rest)[1..] == rest;
  }

  /** Only a line feed right after the opening bracket is dropped. */
  lemma LongTextExactly(text: string)
    ensures LongText("\n" + text) == text
    ensures !("\n" <= text) ==> LongText(text) == text
  {}

  // ----- The lexer's rule for the end of the literal

  /** The content of a literal whose opening quote has been read, and the text after its closing quote. */
  function Scan(s: string): (r: Option<(string, string)>)
    ensures r.Some? ==> |r.value.1| < |s|
  {
    if s == [] || s[0] == '\n' then None
    else if s[0] == '\"' then Some(([], s[1..]))
    else if s[0] == '\\' then
      if |s| == 1 then None else Before(s[..2], Scan(s[2..]))
    else Before([s[0]], Scan(s[1..]))
  }

  // ----- The round trip

  function Prepend(d: seq<Byte>, r: Option<seq<Byte>>): Option<seq<Byte>> {
    if r.None? then None else Some(d + r.value)
  }

  lemma PrependNothing(r: Option<seq<Byte>>)
    ensures Prepend([], r) == r
  {
    if r.Some? {
      assert [] + r.value == r.value;
    }
  }

  lemma PrependTwice(a: seq<Byte>, b: seq<Byte>, r: Option<seq<Byte>>)
    ensures Prepend(a, Prepend(b, r)) == Prepend(a + b, r)
  {
    if r.Some? {
      assert a + (b + r.value) == a + b + r.value;
    }
  }

  /** Unescaping goes on after a prefix that denotes `decoded`, whatever follows it. */
  ghost predicate Denotes(literal: seq<Byte>, decoded: seq<Byte>) {
    forall rest: seq<Byte> :: Unescape(literal + rest) == Prepend(decoded, Unescape(rest))
  }

  lemma DenotesAppend(a: seq<Byte>, da: seq<Byte>, b: seq<Byte>, db: seq<Byte>)
    requires Denotes(a, da) && Denotes(b, db)
    ensures Denotes(a + b, da + db)
  {
    forall rest: seq<Byte> ensures Unescape(a + b + rest) == Prepend(da + db, Unescape(rest)) {
      DenotesThen(a, da, b, db, rest, b + rest);
    }
  }

  lemma DenotesThen(a: seq<Byte>, da: seq<Byte>, b: seq<Byte>, db: seq<Byte>, rest: seq<Byte>, later: seq<Byte>)
    requires Denotes(a, da) && Denotes(b, db) && later == b + rest
    ensures Unescape(a + b + rest) == Prepend(da + db, Unescape(rest))
  {
    assert a + b + rest == a + later;
    assert Unescape(later) == Prepend(db, Unescape(rest));
    PrependTwice(da, db, Unescape(rest));
  }

  lemma DenotesNothing()
    ensures Denotes([], [])
  {
    forall rest: seq<Byte> ensures Unescape([] + rest) == Prepend([], Unescape(rest)) {
      assert [] + rest == rest;
      PrependNothing(Unescape(rest));
    }
  }

  /** Bytes that stand for themselves. */
  lemma {:induction false} PlainDenotes(bytes: seq<Byte>)
    requires forall i | 0 <= i < |bytes| :: bytes[i] != BACKSLASH
    ensures Denotes(bytes, bytes)
    decreases |bytes|
  {
    if bytes == [] {
      DenotesNothing();
    } else {
      PlainDenotes(bytes[1..]);
      PlainByte(bytes[0]);
      DenotesAppend([bytes[0]], [bytes[0]], bytes[1..], bytes[1..]);
      assert [bytes[0]] + bytes[1..] == bytes;
    }
  }

  lemma PlainByte(b: Byte)
    requires b != BACKSLASH
    ensures Denotes([b], [b])
  {
    forall rest: seq<Byte> ensures Unescape([b] + rest) == Prepend([b], Unescape(rest)) {
      assert ([b] + rest)[1..] == rest;
    }
  }

  /** Three digits are taken, whatever digits follow them. */
  lemma DecimalEscapeDenotes(b: Byte)
    ensures Denotes(Encode(DecimalEscape(b)), [b])
  {
    EncodeDecimal(b);
    var e := Encode(DecimalEscape(b));
    forall rest: seq<Byte> ensures Unescape(e + rest) == Prepend([b], Unescape(rest)) {
      DecimalNext(b, rest);
    }
  }

  function DecimalBytes(b: Byte): seq<Byte> {
    [BACKSLASH, 48 + b / 100, 48 + b / 10 % 10, 48 + b % 10]
  }

  lemma EncodeDecimal(b: Byte)
    ensures Encode(DecimalEscape(b)) == DecimalBytes(b)
  {
    var s := DecimalEscape(b);
    EncodeOne(s[0]);
    EncodeOne(s[1]);
    EncodeOne(s[2]);
    EncodeOne(s[3]);
    EncodeAppend([s[0]], [s[1]]);
    EncodeAppend([s[0]] + [s[1]], [s[2]]);
    EncodeAppend([s[0]] + [s[1]] + [s[2]], [s[3]]);
    assert s == [s[0]] + [s[1]] + [s[2]] + [s[3]];
  }

  lemma DecimalNext(b: Byte, rest: seq<Byte>)
    ensures Next(DecimalBytes(b) + rest) == Some((b, rest))
  {
    var s := DecimalBytes(b) + rest;
    var third: seq<Byte> := [48 + b % 10];
    assert s[2..] == [48 + b / 10 % 10] + (third + rest);
    assert s[2..][1..] == third + rest && (third + rest)[1..] == rest;
    var hundreds, tens := b / 100, b / 100 * 10 + b / 10 % 10;
    assert tens == b / 10;
    assert DecimalTail(tens, 1, third + rest) == (tens * 10 + b % 10, rest);
    assert DecimalTail(hundreds, 2, s[2..]) == DecimalTail(tens, 1, third + rest);
  }

  lemma {:induction false} DecimalEscapesDenote(bytes: seq<Byte>)
    ensures Denotes(Encode(DecimalEscapes(bytes)), bytes)
    decreases |bytes|
  {
    if bytes == [] {
      DenotesNothing();
    } else {
      DecimalEscapeDenotes(bytes[0]);
      DecimalEscapesDenote(bytes[1..]);
      EncodeAppend(DecimalEscape(bytes[0]), DecimalEscapes(bytes[1..]));
      DenotesAppend(Encode(DecimalEscape(bytes[0])), [bytes[0]], Encode(DecimalEscapes(bytes[1..])), bytes[1..]);
      assert [bytes[0]] + bytes[1..] == bytes;
    }
  }

  lemma EncodeOne(c: char)
    ensures Encode([c]) == Units(c)
  {
    assert [c][1..] == [];
  }

  /** A backslash and a quote, or two backslashes. */
  lemma PairDenotes(c: char)
    requires c == '\"' || c == '\\'
    ensures Denotes(Encode(['\\', c]), Units(c))
  {
    var e: seq<Byte> := [BACKSLASH, c as int];
    EncodeOne(c);
    assert ['\\', c][1..] == [c];
    assert Encode(['\\', c]) == e;
    forall rest: seq<Byte> ensures Unescape(e + rest) == Prepend(Units(c), Unescape(rest)) {
      assert (e + rest)[2..] == rest;
      assert Next(e + rest) == Some((c as int, rest));
    }
  }

  lemma EscapedDenotes(c: char)
    ensures Denotes(Encode(Escaped(c)), Units(c))
  {
    if c == '\"' || c == '\\' {
      PairDenotes(c);
    } else if IsControl(c) {
      DecimalEscapesDenote(Units(c));
    } else {
      EncodeOne(c);
      PlainDenotes(Units(c));
    }
  }

  lemma {:induction false} BodyDenotes(text: string)
    ensures Denotes(Encode(Body(text)), Encode(text))
    decreases |text|
  {
    if text == [] {
      DenotesNothing();
    } else {
      var k := |text| - 1;
      BodyDenotes(text[..k]);
      EscapedDenotes(text[k]);
      EncodeAppend(Body(text[..k]), Escaped(text[k]));
      DenotesAppend(Encode(Body(text[..k])), Encode(text[..k]), Encode(Escaped(text[k])), Units(text[k]));
      EncodeOne(text[k]);
      EncodeAppend(text[..k], [text[k]]);
      assert text[..k] + [text[k]] == text;
    }
  }

  /** Whatever bytes follow in the literal, a rendered string decodes to its own bytes. */
  lemma RenderedThenMore(text: string, rest: seq<Byte>)
    ensures Unescape(Encode(Body(text)) + rest)
            == Prepend(Encode(text), Unescape(rest))
  {
    BodyDenotes(text);
  }

  /** Decoding a rendered string gives it back. */
  lemma StringRoundTrip(text: string)
    ensures Denoted(Body(text)) == Some(text)
  {
    RenderedThenMore(text, []);
    assert Encode(Body(text)) + [] == Encode(Body(text));
    assert Encode(text) + [] == Encode(text);
    DecodeEncode(text);
  }

  // ----- The shape of the rendered text

  predicate Printable(s: string) {
    forall i | 0 <= i < |s| :: !IsControl(s[i])
  }

  lemma {:induction false} EscapesPrintable(bytes: seq<Byte>)
    ensures Printable(DecimalEscapes(bytes))
    decreases |bytes|
  {
    if bytes != [] {
      EscapesPrintable(bytes[1..]);
      assert Printable(DecimalEscape(bytes[0]));
    }
  }

  /** The literal holds no raw control character; in particular no line ending and no NUL. */
  lemma {:induction false} RenderedPrintable(text: string)
    ensures Printable(Quoted(text)) && Printable(Body(text))
    decreases |text|
  {
    if text != [] {
      var k := |text| - 1;
      RenderedPrintable(text[..k]);
      EscapesPrintable(Units(text[k]));
      assert Printable(Escaped(text[k]));
    }
  }

  function Before(prefix: string, r: Option<(string, string)>): Option<(string, string)> {
    if r.None? then None else Some((prefix + r.value.0, r.value.1))
  }

  /** Scanning goes over a prefix as a whole, whatever follows it. */
  ghost predicate Scans(prefix: string) {
    forall rest :: Scan(prefix + rest) == Before(prefix, Scan(rest))
  }

  lemma BeforeTwice(a: string, b: string, r: Option<(string, string)>)
    ensures Before(a, Before(b, r)) == Before(a + b, r)
  {
    if r.Some? {
      assert a + (b + r.value.0) == a + b + r.value.0;
    }
  }

  lemma ScansAppend(a: string, b: string)
    requires Scans(a) && Scans(b)
    ensures Scans(a + b)
  {
    forall rest ensures Scan(a + b + rest) == Before(a + b, Scan(rest)) {
      ScansThen(a, b, rest, b + rest);
    }
  }

  lemma ScansThen(a: string, b: string, rest: string, later: string)
    requires Scans(a) && Scans(b) && later == b + rest
    ensures Scan(a + b + rest) == Before(a + b, Scan(rest))
  {
    assert a + b + rest == a + later;
    assert Scan(later) == Before(b, Scan(rest));
    BeforeTwice(a, b, Scan(rest));
  }

  lemma ScansNothing()
    ensures Scans([])
  {
    forall rest ensures Scan([] + rest) == Before([], Scan(rest)) {
      assert [] + rest == rest;
      if Scan(rest).Some? {
        assert [] + Scan(rest).value.0 == Scan(rest).value.0;
      }
    }
  }

  lemma ScansPlain(c: char)
    requires c != '\"' && c != '\\' && c != '\n'
    ensures Scans([c])
  {
    forall rest ensures Scan([c] + rest) == Before([c], Scan(rest)) {
      assert ([c] + rest)[1..] == rest;
    }
  }

  lemma ScansPair(c: char)
    ensures Scans(['\\', c])
  {
    forall rest ensures Scan(['\\', c] + rest) == Before(['\\', c], Scan(rest)) {
      assert (['\\', c] + rest)[2..] == rest && (['\\', c] + rest)[..2] == ['\\', c];
    }
  }

  lemma ScansDecimal(b: Byte)
    ensures Scans(DecimalEscape(b))
  {
    var s := DecimalEscape(b);
    ScansPair(s[1]);
    ScansPlain(s[2]);
    ScansPlain(s[3]);
    ScansAppend(['\\', s[1]], [s[2]]);
    ScansAppend(['\\', s[1]] + [s[2]], [s[3]]);
    assert s == ['\\', s[1]] + [s[2]] + [s[3]];
  }

  lemma {:induction false} ScansDecimals(bytes: seq<Byte>)
    ensures Scans(DecimalEscapes(bytes))
    decreases |bytes|
  {
    if bytes == [] {
      ScansNothing();
    } else {
      ScansDecimal(bytes[0]);
      ScansDecimals(bytes[1..]);
      ScansAppend(DecimalEscape(bytes[0]), DecimalEscapes(bytes[1..]));
    }
  }

  lemma {:induction false} ScansBody(text: string)
    ensures Scans(Body(text))
    decreases |text|
  {
    if text == [] {
      ScansNothing();
    } else {
      var c := text[|text| - 1];
      ScansBody(text[..|text| - 1]);
      if c == '\"' || c == '\\' {
        ScansPair(c);
      } else if IsControl(c) {
        ScansDecimals(Units(c));
      } else {
        ScansPlain(c);
      }
      ScansAppend(Body(text[..|text| - 1]), Escaped(c));
    }
  }

  /** The literal ends at its own closing quote, whatever follows: no quote inside it is unescaped. */
  lemma EndsAtItsQuote(text: string, after: string)
    ensures Scan(Body(text) + ['\"'] + after) == Some((Body(text), after))
  {
    ScansBody(text);
    EndsAtQuote(Body(text), after, ['\"'] + after);
  }

  lemma EndsAtQuote(body: string, after: string, rest: string)
    requires Scans(body) && rest == ['\"'] + after
    ensures Scan(body + ['\"'] + after) == Some((body, after))
  {
    assert body + ['\"'] + after == body + rest;
    assert rest[1..] == after;
    assert Scan(rest) == Some(([], after));
    assert body + [] == body;
  }
}
