/** JSON values as literal Lua data: rendering them, and reading a parsed table constructor back. */
module LuaValue {
  import opened Options
  import opened Utf8
  import opened Numerals
  import opened Sequences
  import opened LuaString

  const MAX_NESTING := 64
  const MAX_SAFE_INTEGER := 0x1F_FFFF_FFFF_FFFF

  /** An object lists its fields in the order in which the source iterates over them. A number with a fraction
      or an exponent is kept as its text. */
  datatype Value =
    | Null
    | Bool(flag: bool)
    | Int(number: int)
    | Float(negative: bool, digits: string)
    | Str(text: string)
    | Arr(items: seq<Value>)
    | Obj(fields: seq<(string, Value)>)

  predicate HasKey(fields: seq<(string, Value)>, key: string) {
    exists i | 0 <= i < |fields| :: fields[i].0 == key
  }

  /** No map has a key twice, and a number's text is one that the lexer and `number` read as a float. */
  ghost predicate Proper(v: Value) {
    match v
    case Float(_, digits) => FloatText(digits)
    case Arr(items) => forall i | 0 <= i < |items| :: Proper(items[i])
    case Obj(fields) =>
      && (forall i, j | 0 <= i < j < |fields| :: fields[i].0 != fields[j].0)
      && (forall i | 0 <= i < |fields| :: Proper(fields[i].1))
    case _ => true
  }

  // ----- Rendering

  function Decimal(n: int): string {
    if n < 0 then ['-'] + Digits(-n) else Digits(n)
  }

  /** The text of a value, without the limits. */
  function Write(v: Value): string
    decreases v, 1
  {
    match v
    case Null => []
    case Bool(flag) => if flag then "true" else "false"
    case Int(number) => Decimal(number)
    case Float(negative, digits) => (if negative then ['-'] else []) + digits
    case Str(text) => Quoted(text)
    case Arr(items) => ['{'] + WriteItems(items) + ['}']
    case Obj(fields) => ['{'] + WriteFields(fields) + ['}']
  }

  function WriteItems(items: seq<Value>): string
    decreases items, 0
  {
    if items == [] then []
    else if |items| == 1 then Write(items[0])
    else Write(items[0]) + [','] + WriteItems(items[1..])
  }

  function WriteField(field: (string, Value)): string
    decreases field, 2
  {
    ['['] + Quoted(field.0) + [']', '='] + Write(field.1)
  }

  function WriteFields(fields: seq<(string, Value)>): string
    decreases fields, 0
  {
    if fields == [] then []
    else if |fields| == 1 then WriteField(fields[0])
    else WriteField(fields[0]) + [','] + WriteFields(fields[1..])
  }

  /** What `render` accepts at this depth, apart from the byte limit. */
  predicate Fine(v: Value, depth: nat) {
    depth <= MAX_NESTING
    && match v
       case Null => false
       case Int(number) => -MAX_SAFE_INTEGER <= number <= MAX_SAFE_INTEGER
       case Arr(items) => forall i | 0 <= i < |items| :: Fine(items[i], depth + 1)
       case Obj(fields) => forall i | 0 <= i < |fields| :: Fine(fields[i].1, depth + 1)
       case _ => true
  }

  /** How many containers are around the most deeply nested value. */
  function Levels(v: Value): nat
    decreases v, 1
  {
    match v
    case Arr(items) => LevelsOf(items)
    case Obj(fields) => FieldLevels(fields)
    case _ => 0
  }

  function LevelsOf(items: seq<Value>): nat
    decreases items, 0
  {
    if items == [] then 0 else AtLeast(1 + Levels(items[0]), LevelsOf(items[1..]))
  }

  function FieldLevels(fields: seq<(string, Value)>): nat
    decreases fields, 0
  {
    if fields == [] then 0 else AtLeast(FieldLevel(fields[0]), FieldLevels(fields[1..]))
  }

  function FieldLevel(field: (string, Value)): nat
    decreases field, 2
  {
    1 + Levels(field.1)
  }

  function AtLeast(a: nat, b: nat): nat {
    if a < b then b else a
  }

  /** No null and no unsafe integer anywhere inside. */
  predicate Literals(v: Value) {
    match v
    case Null => false
    case Int(number) => -9_007_199_254_740_991 <= number <= 9_007_199_254_740_991
    case Arr(items) => forall i | 0 <= i < |items| :: Literals(items[i])
    case Obj(fields) => forall i | 0 <= i < |fields| :: Literals(fields[i].1)
    case _ => true
  }

  lemma {:induction false} LevelsBound(items: seq<Value>, limit: int)
    requires limit >= 0
    ensures LevelsOf(items) <= limit <==> forall i | 0 <= i < |items| :: 1 + Levels(items[i]) <= limit
    decreases |items|
  {
    if items != [] {
      LevelsBound(items[1..], limit);
      assert forall i | 0 < i < |items| :: items[i] == items[1..][i - 1];
    }
  }

  lemma {:induction false} FieldLevelsBound(fields: seq<(string, Value)>, limit: int)
    requires limit >= 0
    ensures FieldLevels(fields) <= limit <==> forall i | 0 <= i < |fields| :: 1 + Levels(fields[i].1) <= limit
    decreases |fields|
  {
    if fields != [] {
      FieldLevelsBound(fields[1..], limit);
      assert forall i | 0 < i < |fields| :: fields[i] == fields[1..][i - 1];
    }
  }

  /** A value is rendered exactly if it holds no null and no unsafe integer and nothing in it is more than 64 containers
      deep. */
  lemma {:induction false} FineExactly(v: Value, depth: nat)
    ensures Fine(v, depth) <==> Literals(v) && depth + Levels(v) <= 64
    decreases v
  {
    match v
    case Arr(items) =>
      forall i | 0 <= i < |items|
        ensures Fine(items[i], depth + 1) <==> Literals(items[i]) && depth + 1 + Levels(items[i]) <= 64
      {
        FineExactly(items[i], depth + 1);
      }
      if depth <= 64 {
        LevelsBound(items, 64 - depth);
      }
    case Obj(fields) =>
      forall i | 0 <= i < |fields|
        ensures Fine(fields[i].1, depth + 1) <==> Literals(fields[i].1) && depth + 1 + Levels(fields[i].1) <= 64
      {
        FineExactly(fields[i].1, depth + 1);
      }
      if depth <= 64 {
        FieldLevelsBound(fields, 64 - depth);
      }
    case _ =>
  }

  lemma {:induction false} LengthPrefix(a: string, b: string)
    ensures Length(a + b) >= Length(a)
  {
    EncodeAppend(a, b);
  }

  lemma TooLong(a: string, b: string, total: string)
    requires total == a + b
    ensures Limited(a).None? ==> Limited(total).None?
  {
    LengthPrefix(a, b);
  }

  function Limited(text: string): Option<string> {
    if Length(text) <= MAX_SOURCE_BYTES - 7 then Some(text) else None
  }

  /** Every limit on the way follows from the one at the end, because the output only grows. */
  method Render(v: Value, output: string, depth: nat) returns (r: Option<string>)
    ensures r == if Fine(v, depth) then Limited(output + Write(v)) else None
    decreases v
  {
    if depth > MAX_NESTING {
      return None;
    }
    var out := output;
    match v {
      case Null => return None;
      case Bool(flag) => out := out + if flag then "true" else "false";
      case Int(number) =>
        if !(-MAX_SAFE_INTEGER <= number <= MAX_SAFE_INTEGER) {
          return None;
        }
        out := out + Decimal(number);
      case Float(negative, digits) => out := out + ((if negative then ['-'] else []) + digits);
      case Str(text) =>
        var rendered := RenderString(text, out);
        StringLimits(text, out);
        if rendered.None? {
          return None;
        }
        out := rendered.value;
      case Arr(items) =>
        var rendered := RenderItems(items, out + ['{'], depth);
        ListLimits(out, WriteItems(items), items == []);
        if rendered.None? {
          return None;
        }
        out := rendered.value + ['}'];
      case Obj(fields) =>
        var rendered := RenderFields(fields, out + ['{'], depth);
        ListLimits(out, WriteFields(fields), fields == []);
        if rendered.None? {
          return None;
        }
        out := rendered.value + ['}'];
    }
    return Limited(out);
  }

  /** Writing nothing at all checks no limit. */
  function LimitedList(output: string, body: string, empty: bool): Option<string> {
    if empty then Some(output) else Limited(output + body)
  }

  lemma ListLimits(output: string, body: string, empty: bool)
    requires empty ==> body == []
    ensures output + ['{'] + body + ['}'] == output + (['{'] + body + ['}'])
    ensures empty ==> output + ['{'] + ['}'] == output + (['{'] + body + ['}'])
    ensures LimitedList(output + ['{'], body, empty).None? ==> Limited(output + (['{'] + body + ['}'])).None?
  {
    LengthPrefix(output + ['{'] + body, ['}']);
  }

  lemma StringLimits(text: string, output: string)
    ensures Limited(output + Quoted(text)).Some? ==>
              Length(text) <= MAX_SOURCE_BYTES && Length(output + ['\"'] + Body(text)) <= MAX_SOURCE_BYTES - 7
  {
    QuotedParts(output, text);
    LengthPrefix(output + ['\"'] + Body(text), ['\"']);
    BodyLength(text);
    EncodeAppend(output + ['\"'], Body(text));
  }

  lemma {:induction false} BodyLength(text: string)
    ensures Length(Body(text)) >= Length(text)
    decreases |text|
  {
    if text != [] {
      var k := |text| - 1;
      BodyLength(text[..k]);
      EncodeAppend(Body(text[..k]), Escaped(text[k]));
      EncodeAppend(text[..k], [text[k]]);
      assert text[..k] + [text[k]] == text;
      EncodeOne(text[k]);
      EscapedLength(text[k]);
    }
  }

  lemma EscapedLength(c: char)
    ensures Length(Escaped(c)) >= |Units(c)|
  {
    EncodeOne(c);
    if c == '\"' || c == '\\' {
      EncodeAppend(['\\'], [c]);
      assert ['\\', c] == ['\\'] + [c];
    } else if IsControl(c) {
      EscapesLength(Units(c));
    }
  }

  lemma {:induction false} EscapesLength(bytes: seq<Byte>)
    ensures Length(DecimalEscapes(bytes)) >= |bytes|
    decreases |bytes|
  {
    if bytes != [] {
      EscapesLength(bytes[1..]);
      EncodeAppend(DecimalEscape(bytes[0]), DecimalEscapes(bytes[1..]));
      EncodeDecimal(bytes[0]);
    }
  }

  /** The part of a list still to be written, with the comma before it. */
  function Remaining(items: seq<Value>, i: nat): string
    requires i <= |items|
  {
    if i == |items| then [] else (if i > 0 then [','] else []) + WriteItems(items[i..])
  }

  method RenderItems(items: seq<Value>, output: string, depth: nat) returns (r: Option<string>)
    requires depth <= MAX_NESTING
    ensures r == if forall i | 0 <= i < |items| :: Fine(items[i], depth + 1)
                 then LimitedList(output, WriteItems(items), items == []) else None
    decreases items, 0
  {
    var out := output;
    ghost var total := output + WriteItems(items);
    assert items[0..] == items && [] + WriteItems(items) == WriteItems(items);
    for i := 0 to |items|
      invariant out + Remaining(items, i) == total
      invariant forall j | 0 <= j < i :: Fine(items[j], depth + 1)
      invariant if i == 0 then out == output else Limited(out).Some?
    {
      ItemNext(items, i, out);
      var start := if i > 0 then out + [','] else out;
      var rendered := Render(items[i], start, depth + 1);
      TooLong(start + Write(items[i]), Remaining(items, i + 1), total);
      if rendered.None? {
        return None;
      }
      out := rendered.value;
    }
    assert out + [] == out;
    return Some(out);
  }

  lemma ItemNext(items: seq<Value>, i: nat, out: string)
    requires i < |items|
    ensures out + Remaining(items, i)
            == (if i > 0 then out + [','] else out) + Write(items[i]) + Remaining(items, i + 1)
  {
    assert items[i..][1..] == items[i + 1..];
    var comma := if i > 0 then [','] else [];
    var first := if i > 0 then out + [','] else out;
    assert first == out + comma;
    if i + 1 == |items| {
      Regroup(out, comma, Write(items[i]), []);
      assert Remaining(items, i) == comma + Write(items[i]);
    } else {
      Regroup(out, comma, Write(items[i]), Remaining(items, i + 1));
      assert WriteItems(items[i..]) == Write(items[i]) + Remaining(items, i + 1);
    }
  }

  lemma Regroup(a: string, b: string, c: string, d: string)
    ensures a + (b + (c + d)) == a + b + c + d
    ensures d == [] ==> a + (b + c) == a + b + c + d
  {}

  function RemainingFields(fields: seq<(string, Value)>, i: nat): string
    requires i <= |fields|
  {
    if i == |fields| then [] else (if i > 0 then [','] else []) + WriteFields(fields[i..])
  }

  method RenderField(field: (string, Value), output: string, depth: nat) returns (r: Option<string>)
    requires depth <= MAX_NESTING
    ensures r == if Fine(field.1, depth + 1) then Limited(output + WriteField(field)) else None
    decreases field, 0
  {
    FieldLimits(field, output);
    var key := RenderString(field.0, output + ['[']);
    if key.None? {
      return None;
    }
    r := Render(field.1, key.value + [']', '='], depth + 1);
  }

  /** The first `n` fields are accepted at this depth. */
  predicate FineFields(fields: seq<(string, Value)>, n: nat, depth: nat)
    requires n <= |fields|
  {
    forall i | 0 <= i < n :: Fine(fields[i].1, depth + 1)
  }

  method RenderFields(fields: seq<(string, Value)>, output: string, depth: nat) returns (r: Option<string>)
    requires depth <= MAX_NESTING
    ensures r == if FineFields(fields, |fields|, depth)
                 then LimitedList(output, WriteFields(fields), fields == []) else None
    decreases fields, 0
  {
    var out := output;
    ghost var total := output + WriteFields(fields);
    AllRemain(fields);
    for i := 0 to |fields|
      invariant out + RemainingFields(fields, i) == total
      invariant FineFields(fields, i, depth)
      invariant if i == 0 then out == output else Limited(out) == Some(out)
    {
      var rendered := RenderNext(fields, i, out, depth, total);
      if rendered.None? {
        return None;
      }
      out := rendered.value;
    }
    NoneRemain(fields, out);
    return Some(out);
  }

  lemma {:induction false} NoneRemain(fields: seq<(string, Value)>, out: string)
    ensures out + RemainingFields(fields, |fields|) == out
  {}

  /** One field more, after a comma unless it is the first. */
  method RenderNext(fields: seq<(string, Value)>, i: nat, out: string, depth: nat, ghost total: string)
    returns (r: Option<string>)
    requires depth <= MAX_NESTING && i < |fields| && out + RemainingFields(fields, i) == total
    requires FineFields(fields, i, depth)
    ensures r.Some? ==>
              && FineFields(fields, i + 1, depth) && Limited(r.value) == Some(r.value)
              && r.value + RemainingFields(fields, i + 1) == total
    ensures r.None? ==> !FineFields(fields, |fields|, depth) || Limited(total).None?
    decreases fields[i], 1
  {
    var start := if i > 0 then out + [','] else out;
    FieldStep(fields, i, out, start, total);
    r := RenderField(fields[i], start, depth);
  }

  lemma {:induction false} AllRemain(fields: seq<(string, Value)>)
    ensures RemainingFields(fields, 0) == WriteFields(fields)
  {
    assert fields[0..] == fields && [] + WriteFields(fields) == WriteFields(fields);
  }

  lemma FieldStep(fields: seq<(string, Value)>, i: nat, out: string, start: string, total: string)
    requires i < |fields| && out + RemainingFields(fields, i) == total
    requires start == if i > 0 then out + [','] else out
    ensures start + WriteField(fields[i]) + RemainingFields(fields, i + 1) == total
    ensures Limited(start + WriteField(fields[i])).None? ==> Limited(total).None?
  {
    FieldNext(fields, i, out);
    TooLong(start + WriteField(fields[i]), RemainingFields(fields, i + 1), total);
  }

  lemma FieldNext(fields: seq<(string, Value)>, i: nat, out: string)
    requires i < |fields|
    ensures out + RemainingFields(fields, i)
            == (if i > 0 then out + [','] else out) + WriteField(fields[i]) + RemainingFields(fields, i + 1)
  {
    var comma := if i > 0 then [','] else [];
    FieldFirst(fields, i);
    Regroup(out, comma, WriteField(fields[i]), RemainingFields(fields, i + 1));
    assert (if i > 0 then out + [','] else out) == out + comma;
  }

  lemma {:induction false} FieldFirst(fields: seq<(string, Value)>, i: nat)
    requires i < |fields|
    ensures RemainingFields(fields, i)
            == (if i > 0 then [','] else []) + (WriteField(fields[i]) + RemainingFields(fields, i + 1))
  {
    assert fields[i..][0] == fields[i] && fields[i..][1..] == fields[i + 1..];
    if i + 1 == |fields| {
      assert WriteField(fields[i]) + [] == WriteField(fields[i]);
    } else {
      Associates(WriteField(fields[i]), [','], WriteFields(fields[i + 1..]));
    }
  }

  lemma FieldLimits(field: (string, Value), start: string)
    ensures start + ['['] + Quoted(field.0) + [']', '='] + Write(field.1) == start + WriteField(field)
    ensures Limited(start + WriteField(field)).Some? ==>
              && Length(field.0) <= MAX_SOURCE_BYTES
              && Length(start + ['['] + ['\"'] + Body(field.0)) <= MAX_SOURCE_BYTES - 7
  {
    FieldParts(start, Quoted(field.0), Write(field.1));
    LengthPrefix(start + ['['] + Quoted(field.0), [']', '='] + Write(field.1));
    StringLimits(field.0, start + ['[']);
  }

  lemma FieldParts(start: string, key: string, item: string)
    ensures start + ['['] + key + [']', '='] + item == start + (['['] + key + [']', '='] + item)
    ensures start + ['['] + key + ([']', '='] + item) == start + (['['] + key + [']', '='] + item)
  {}

  // ----- What the parser hands over

  datatype Expression =
    | StringToken(content: string)
    | NumberToken(text: string)
    | Minus(operand: Expression)
    | TrueToken
    | FalseToken
    | Table(fields: seq<Field>)
    | OtherExpression

  /** A field has a name, a key in brackets, or only its place; Lua 5.1 has no other kind. */
  datatype Key = Name(name: string) | Bracketed(expression: Expression) | Placed | OtherKey

  datatype Field = Field(key: Key, value: Expression)

  predicate IsHex(s: string) {
    "0x" <= s || "0X" <= s
  }

  predicate HasFraction(s: string) {
    '.' in s || 'e' in s || 'E' in s
  }

  function Number(text: string, negative: bool): Option<Value> {
    if !IsHex(text) && HasFraction(text) then Some(Float(negative, text))
    else
      var integer := if IsHex(text) then ParseRadix(text[2..], 16) else ParseRadix(text, 10);
      if integer.None? || integer.value > MAX_SAFE_INTEGER then None
      else Some(Int(if negative then -integer.value else integer.value))
  }

  /** A table under construction: string keys, or positive indices. */
  datatype Building = Building(named: seq<(string, Value)>, indexed: map<nat, Value>, implicit: nat)

  function Insert(b: Building, key: Value, item: Value): Option<Building> {
    if key.Str? then
      if b.indexed != map[] || HasKey(b.named, key.text) then None
      else Some(b.(named := b.named + [(key.text, item)]))
    else if b.named != [] || !key.Int? || key.number <= 0 || key.number in b.indexed then None
    else Some(b.(indexed := b.indexed[key.number := item]))
  }

  function Finished(b: Building): Option<Value> {
    if b.indexed == map[] then Some(Obj(b.named))
    else if forall k | 1 <= k <= |b.indexed| :: k in b.indexed
    then Some(Arr(seq(|b.indexed|, i requires 0 <= i < |b.indexed| => b.indexed[i + 1])))
    else None
  }

  function ValueOf(e: Expression, depth: nat): Option<Value>
    decreases e, 1
  {
    if depth > MAX_NESTING then None
    else
      match e
      case StringToken(content) =>
        var text := Denoted(content);
        if text.None? then None else Some(Str(text.value))
      case NumberToken(text) => Number(text, false)
      case Minus(NumberToken(text)) => Number(text, true)
      case TrueToken => Some(Bool(true))
      case FalseToken => Some(Bool(false))
      case Table(fields) =>
        var built := Assembled(fields, depth, Building([], map[], 0));
        if built.None? then None else Finished(built.value)
      case _ => None
  }

  function KeyOf(key: Key, implicit: nat): Option<Value> {
    match key
    case Name(name) => Some(Str(name))
    case Bracketed(StringToken(content)) =>
      var text := Denoted(content);
      if text.None? then None else Some(Str(text.value))
    case Bracketed(NumberToken(text)) => Number(text, false)
    case Placed => Some(Int(implicit))
    case _ => None
  }

  function ItemOf(f: Field, depth: nat): Option<Value>
    decreases f, 2
  {
    ValueOf(f.value, depth + 1)
  }

  function Assembled(fields: seq<Field>, depth: nat, b: Building): Option<Building>
    decreases fields, 0
  {
    if fields == [] then Some(b)
    else
      var counted := if fields[0].key.Placed? then b.(implicit := b.implicit + 1) else b;
      var key := KeyOf(fields[0].key, counted.implicit);
      if key.None? then None
      else
        var item := ItemOf(fields[0], depth);
        if item.None? then None
        else
          var next := Insert(counted, key.value, item.value);
          if next.None? then None else Assembled(fields[1..], depth, next.value)
  }

  // ----- Reading the rendered text

  /** How far a number goes: digits, letters and points, and a sign after the letter of the exponent. */
  function NumberRun(s: string, exponent: bool): (k: nat)
    ensures k <= |s|
  {
    if s == [] then 0
    else
      var c := s[0];
      if IsDigitChar(c) || c == '.' || 'a' <= c <= 'z' || 'A' <= c <= 'Z'
      then 1 + NumberRun(s[1..], c == 'e' || c == 'E')
      else if exponent && (c == '+' || c == '-') then 1 + NumberRun(s[1..], false)
      else 0
  }

  predicate FloatText(digits: string) {
    && digits != [] && IsDigitChar(digits[0]) && NumberRun(digits, false) == |digits|
    && !IsHex(digits) && HasFraction(digits)
  }

  /** The expression at the beginning of a text and what follows it, for the sublanguage of rendered data. */
  function ReadExpression(s: string): (r: Option<(Expression, string)>)
    ensures r.Some? ==> |r.value.1| < |s|
    decreases |s|, 0
  {
    if s == [] then None
    else if s[0] == '\"' then
      var scanned := Scan(s[1..]);
      if scanned.None? then None else Some((StringToken(scanned.value.0), scanned.value.1))
    else if s[0] == '-' then
      var operand := ReadExpression(s[1..]);
      if operand.None? then None else Some((Minus(operand.value.0), operand.value.1))
    else if IsDigitChar(s[0]) then
      var k := NumberRun(s, false);
      Some((NumberToken(s[..k]), s[k..]))
    else if "true" <= s then Some((TrueToken, s[4..]))
    else if "false" <= s then Some((FalseToken, s[5..]))
    else if "{}" <= s then Some((Table([]), s[2..]))
    else if s[0] == '{' then
      var fields := ReadFields(s[1..]);
      if fields.None? then None else Some((Table(fields.value.0), fields.value.1))
    else None
  }

  function ReadField(s: string): (r: Option<(Field, string)>)
    ensures r.Some? ==> |r.value.1| < |s|
    decreases |s|, 1
  {
    if s != [] && s[0] == '[' then
      var key := ReadExpression(s[1..]);
      if key.None? || !("]=" <= key.value.1) then None
      else
        var item := ReadExpression(key.value.1[2..]);
        if item.None? then None else Some((Field(Bracketed(key.value.0), item.value.0), item.value.1))
    else
      var item := ReadExpression(s);
      if item.None? then None else Some((Field(Placed, item.value.0), item.value.1))
  }

  /** Fields separated by commas up to the closing brace. */
  function ReadFields(s: string): (r: Option<(seq<Field>, string)>)
    ensures r.Some? ==> |r.value.1| < |s|
    decreases |s|, 2
  {
    var first := ReadField(s);
    if first.None? || first.value.1 == [] then None
    else if first.value.1[0] == '}' then Some(([first.value.0], first.value.1[1..]))
    else if first.value.1[0] == ',' then
      var more := ReadFields(first.value.1[1..]);
      if more.None? then None else Some(([first.value.0] + more.value.0, more.value.1))
    else None
  }
}
