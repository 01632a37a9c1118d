/** Reading rendered Lua data gives the value back. */
module LuaRoundTrip {
  import opened Options
  import opened Numerals
  import opened LuaString
  import opened LuaValue

  /** The expression that a rendered value is. */
  function Ast(v: Value): Expression
    decreases v, 1
  {
    match v
    case Null => OtherExpression
    case Bool(flag) => if flag then TrueToken else FalseToken
    case Int(number) => if number < 0 then Minus(NumberToken(Digits(-number))) else NumberToken(Digits(number))
    case Float(negative, digits) => if negative then Minus(NumberToken(digits)) else NumberToken(digits)
    case Str(text) => StringToken(Body(text))
    case Arr(items) => Table(AstItems(items))
    case Obj(fields) => Table(AstFields(fields))
  }

  function AstItems(items: seq<Value>): seq<Field>
    decreases items, 0
  {
    seq(|items|, i requires 0 <= i < |items| => Field(Placed, Ast(items[i])))
  }

  function AstField(field: (string, Value)): Field
    decreases field, 2
  {
    Field(Bracketed(StringToken(Body(field.0))), Ast(field.1))
  }

  function AstFields(fields: seq<(string, Value)>): seq<Field>
    decreases fields, 0
  {
    seq(|fields|, i requires 0 <= i < |fields| => AstField(fields[i]))
  }

  /** Lua has one empty table, which is read as an empty object. */
  function Tidy(v: Value): Value
    decreases v, 1
  {
    match v
    case Arr(items) => if items == [] then Obj([]) else Arr(TidyItems(items))
    case Obj(fields) => Obj(TidyFields(fields))
    case _ => v
  }

  function TidyItems(items: seq<Value>): seq<Value>
    decreases items, 0
  {
    seq(|items|, i requires 0 <= i < |items| => Tidy(items[i]))
  }

  function TidyField(field: (string, Value)): (string, Value)
    decreases field, 2
  {
    (field.0, Tidy(field.1))
  }

  function TidyFields(fields: seq<(string, Value)>): seq<(string, Value)>
    decreases fields, 0
  {
    seq(|fields|, i requires 0 <= i < |fields| => TidyField(fields[i]))
  }

  predicate NoEmptyArray(v: Value) {
    match v
    case Arr(items) => items != [] && forall i | 0 <= i < |items| :: NoEmptyArray(items[i])
    case Obj(fields) => forall i | 0 <= i < |fields| :: NoEmptyArray(fields[i].1)
    case _ => true
  }

  // ----- Numbers

  lemma IntRead(number: int)
    requires -MAX_SAFE_INTEGER <= number <= MAX_SAFE_INTEGER
    ensures Number(Digits(if number < 0 then -number else number), number < 0) == Some(Int(number))
  {
    var n := if number < 0 then -number else number;
    DigitsParse(n);
    var s := Digits(n);
    assert !IsHex(s) by {
      assert |s| < 2 || IsDigitChar(s[1]);
    }
    assert !HasFraction(s);
  }

  // ----- Tables

  function Indexed(s: seq<Value>): map<nat, Value> {
    if s == [] then map[] else Indexed(s[..|s| - 1])[|s| := s[|s| - 1]]
  }

  lemma {:induction false} IndexedFacts(s: seq<Value>)
    ensures |Indexed(s)| == |s|
    ensures forall k: nat :: k in Indexed(s) <==> 1 <= k <= |s|
    ensures forall k: nat | k in Indexed(s) :: 1 <= k <= |s| && Indexed(s)[k] == s[k - 1]
    decreases |s|
  {
    if s != [] {
      var before := Indexed(s[..|s| - 1]);
      IndexedFacts(s[..|s| - 1]);
      assert before[|s| := s[|s| - 1]].Keys == before.Keys + {|s|};
      assert |before.Keys + {|s|}| == |before.Keys| + 1;
    }
  }

  lemma IndexedMore(s: seq<Value>, x: Value)
    ensures |s| + 1 !in Indexed(s) && Indexed(s)[|s| + 1 := x] == Indexed(s + [x])
  {
    IndexedFacts(s);
    assert (s + [x])[..|s|] == s;
  }

  /** The field's key and item are these, and the table grows by them. */
  ghost predicate Grows(f: Field, depth: nat, b: Building, key: Value, item: Value, next: Building) {
    var counted := if f.key.Placed? then b.(implicit := b.implicit + 1) else b;
    && KeyOf(f.key, counted.implicit) == Some(key) && Insert(counted, key, item) == Some(next)
    && ItemOf(f, depth) == Some(item)
  }

  /** Each field takes the table from one building state to the next. */
  ghost predicate Chain(fields: seq<Field>, depth: nat, keys: seq<Value>, items: seq<Value>, states: seq<Building>) {
    && |keys| == |fields| && |items| == |fields| && |states| == |fields| + 1
    && forall i | 0 <= i < |fields| :: Grows(fields[i], depth, states[i], keys[i], items[i], states[i + 1])
  }

  lemma {:induction false} ChainAssembles(fields: seq<Field>, depth: nat, keys: seq<Value>, items: seq<Value>,
                                          states: seq<Building>)
    requires Chain(fields, depth, keys, items, states)
    ensures Assembled(fields, depth, states[0]) == Some(states[|fields|])
    decreases |fields|
  {
    if fields != [] {
      assert Grows(fields[0], depth, states[0], keys[0], items[0], states[1]);
      ChainAssembles(fields[1..], depth, keys[1..], items[1..], states[1..]);
    }
  }

  /** Implicit indices count from one. */
  lemma {:induction false} ItemsAssemble(items: seq<Value>, depth: nat)
    requires forall i | 0 <= i < |items| :: Proper(items[i]) && Fine(items[i], depth + 1)
    ensures Assembled(AstItems(items), depth, Building([], map[], 0))
            == Some(Building([], Indexed(TidyItems(items)), |items|))
    decreases items, 0
  {
    var n, tidy := |items|, TidyItems(items);
    var keys := seq(n, i requires 0 <= i < n => Int(i + 1));
    var states := seq(n + 1, i requires 0 <= i <= n => Building([], Indexed(tidy[..i]), i));
    forall i | 0 <= i < n
      ensures Grows(AstItems(items)[i], depth, states[i], keys[i], tidy[i], states[i + 1])
    {
      ValueRead(items[i], depth + 1);
      ItemGrows(items[i], depth, tidy[..i]);
      assert tidy[..i] + [tidy[i]] == tidy[..i + 1];
    }
    assert tidy[..n] == tidy;
    ChainAssembles(AstItems(items), depth, keys, tidy, states);
  }

  lemma ItemGrows(v: Value, depth: nat, done: seq<Value>)
    requires ValueOf(Ast(v), depth + 1) == Some(Tidy(v))
    ensures Grows(Field(Placed, Ast(v)), depth, Building([], Indexed(done), |done|), Int(|done| + 1), Tidy(v),
                  Building([], Indexed(done + [Tidy(v)]), |done| + 1))
  {
    IndexedMore(done, Tidy(v));
  }

  lemma {:induction false} FieldsAssemble(fields: seq<(string, Value)>, depth: nat)
    requires forall i | 0 <= i < |fields| :: Proper(fields[i].1) && Fine(fields[i].1, depth + 1)
    requires forall i, j | 0 <= i < j < |fields| :: fields[i].0 != fields[j].0
    ensures Assembled(AstFields(fields), depth, Building([], map[], 0))
            == Some(Building(TidyFields(fields), map[], 0))
    decreases fields, 0
  {
    var n, tidy := |fields|, TidyFields(fields);
    var keys := seq(n, i requires 0 <= i < n => Str(fields[i].0));
    var items := seq(n, i requires 0 <= i < n => tidy[i].1);
    var states := seq(n + 1, i requires 0 <= i <= n => Building(tidy[..i], map[], 0));
    forall i | 0 <= i < n
      ensures Grows(AstFields(fields)[i], depth, states[i], keys[i], items[i], states[i + 1])
    {
      NewKey(fields, i);
      FieldRead(fields[i], depth, tidy[..i]);
      TidyMore(tidy, i);
    }
    assert tidy[..n] == tidy;
    ChainAssembles(AstFields(fields), depth, keys, items, states);
  }

  lemma TidyMore(tidy: seq<(string, Value)>, i: nat)
    requires i < |tidy|
    ensures tidy[..i] + [tidy[i]] == tidy[..i + 1]
  {}

  lemma NewKey(fields: seq<(string, Value)>, i: nat)
    requires i < |fields| && forall i, j | 0 <= i < j < |fields| :: fields[i].0 != fields[j].0
    ensures !HasKey(TidyFields(fields)[..i], fields[i].0)
  {
    var done := TidyFields(fields)[..i];
    forall j | 0 <= j < |done| ensures done[j].0 != fields[i].0 {
      assert done[j] == TidyField(fields[j]);
    }
  }

  lemma {:induction false} FieldRead(field: (string, Value), depth: nat, done: seq<(string, Value)>)
    requires Proper(field.1) && Fine(field.1, depth + 1) && !HasKey(done, field.0)
    ensures Grows(AstField(field), depth, Building(done, map[], 0), Str(field.0), Tidy(field.1),
                  Building(done + [TidyField(field)], map[], 0))
    decreases field, 2
  {
    StringRoundTrip(field.0);
    ValueRead(field.1, depth + 1);
  }

  /** Table assembly returns a rendered value, with its empty arrays as empty objects. */
  lemma {:induction false} ValueRead(v: Value, depth: nat)
    requires Proper(v) && Fine(v, depth)
    ensures ValueOf(Ast(v), depth) == Some(Tidy(v))
    decreases v, 1
  {
    match v
    case Arr(items) =>
      ItemsAssemble(items, depth);
      TableValue(AstItems(items), depth, Building([], Indexed(TidyItems(items)), |items|));
      ArrayFinished(items);
    case Obj(fields) =>
      FieldsAssemble(fields, depth);
      TableValue(AstFields(fields), depth, Building(TidyFields(fields), map[], 0));
    case _ => LeafRead(v, depth);
  }

  lemma TableValue(fields: seq<Field>, depth: nat, b: Building)
    requires depth <= MAX_NESTING && Assembled(fields, depth, Building([], map[], 0)) == Some(b)
    ensures ValueOf(Table(fields), depth) == Finished(b)
  {}

  lemma {:induction false} ArrayFinished(items: seq<Value>)
    ensures Finished(Building([], Indexed(TidyItems(items)), |items|)) == Some(Tidy(Arr(items)))
  {
    if items == [] {
      assert TidyItems(items) == [];
    } else {
      IndexFinished(TidyItems(items), |items|);
    }
  }

  lemma LeafRead(v: Value, depth: nat)
    requires Proper(v) && Fine(v, depth) && !v.Arr? && !v.Obj?
    ensures ValueOf(Ast(v), depth) == Some(Tidy(v))
  {
    match v
    case Int(number) => IntRead(number);
    case Str(text) => StringRoundTrip(text);
    case _ =>
  }

  lemma IndexFinished(s: seq<Value>, implicit: nat)
    requires s != []
    ensures Finished(Building([], Indexed(s), implicit)) == Some(Arr(s))
  {
    IndexedFacts(s);
    assert 1 in Indexed(s);
    assert seq(|Indexed(s)|, i requires 0 <= i < |Indexed(s)| => Indexed(s)[i + 1]) == s;
  }

  /** Exactly the values without empty arrays are left as they are. */
  lemma {:induction false} TidyKeeps(v: Value)
    ensures Tidy(v) == v <==> NoEmptyArray(v)
    decreases v, 1
  {
    match v
    case Arr(items) =>
      forall i | 0 <= i < |items| ensures Tidy(items[i]) == items[i] <==> NoEmptyArray(items[i]) {
        TidyKeeps(items[i]);
      }
      assert TidyItems(items) == items <==> forall i | 0 <= i < |items| :: Tidy(items[i]) == items[i];
    case Obj(fields) =>
      forall i | 0 <= i < |fields| ensures TidyField(fields[i]) == fields[i] <==> NoEmptyArray(fields[i].1) {
        TidyFieldKeeps(fields[i]);
      }
      assert TidyFields(fields) == fields <==> forall i | 0 <= i < |fields| :: TidyField(fields[i]) == fields[i];
    case _ =>
  }

  lemma {:induction false} TidyFieldKeeps(field: (string, Value))
    ensures TidyField(field) == field <==> NoEmptyArray(field.1)
    decreases field, 2
  {
    TidyKeeps(field.1);
  }

  // ----- The rendered text reads as its expression

  /** What can follow a value in rendered text. */
  predicate Stops(rest: string) {
    rest == [] || rest[0] == ',' || rest[0] == '}' || rest[0] == ']'
  }

  lemma {:induction false} RunStops(digits: string, exponent: bool, rest: string)
    requires NumberRun(digits, exponent) == |digits| && Stops(rest)
    ensures NumberRun(digits + rest, exponent) == |digits|
    decreases |digits|
  {
    if digits == [] {
      assert digits + rest == rest;
    } else {
      assert (digits + rest)[1..] == digits[1..] + rest;
      RunStops(digits[1..], digits[0] == 'e' || digits[0] == 'E', rest);
    }
  }

  lemma {:induction false} DigitsRun(digits: string, exponent: bool)
    requires forall i | 0 <= i < |digits| :: IsDigitChar(digits[i])
    ensures NumberRun(digits, exponent) == |digits|
    decreases |digits|
  {
    if digits != [] {
      DigitsRun(digits[1..], false);
    }
  }

  lemma NumberReads(digits: string, rest: string)
    requires digits != [] && IsDigitChar(digits[0]) && NumberRun(digits, false) == |digits| && Stops(rest)
    ensures ReadExpression(digits + rest) == Some((NumberToken(digits), rest))
    ensures ReadExpression(['-'] + digits + rest) == Some((Minus(NumberToken(digits)), rest))
  {
    RunStops(digits, false, rest);
    assert (digits + rest)[..|digits|] == digits && (digits + rest)[|digits|..] == rest;
    assert (['-'] + digits + rest)[1..] == digits + rest;
  }

  lemma IntReads(number: int, rest: string)
    requires Stops(rest)
    ensures ReadExpression(Decimal(number) + rest) == Some((Ast(Int(number)), rest))
  {
    var n := if number < 0 then -number else number;
    DigitsParse(n);
    DigitsRun(Digits(n), false);
    NumberReads(Digits(n), rest);
  }

  lemma {:induction false} StringReads(text: string, rest: string)
    ensures ReadExpression(Quoted(text) + rest) == Some((StringToken(Body(text)), rest))
  {
    EndsAtItsQuote(text, rest);
    assert (Quoted(text) + rest)[1..] == Body(text) + ['\"'] + rest;
  }

  /** A value never begins like a bracketed key or the end of a table. */
  lemma FirstOf(v: Value)
    requires Proper(v) && !v.Null?
    ensures Write(v) != [] && Write(v)[0] != '[' && Write(v)[0] != '}'
  {
    if v.Int? {
      DigitsParse(if v.number < 0 then -v.number else v.number);
    }
  }

  lemma LeafReads(v: Value, rest: string)
    requires Proper(v) && !v.Null? && !v.Arr? && !v.Obj? && Stops(rest)
    ensures ReadExpression(Write(v) + rest) == Some((Ast(v), rest))
  {
    match v
    case Bool(flag) => assert (Write(v) + rest)[|Write(v)|..] == rest;
    case Int(number) => IntReads(number, rest);
    case Float(negative, digits) =>
      NumberReads(digits, rest);
      assert [] + digits == digits;
    case Str(text) => StringReads(text, rest);
  }

  lemma {:induction false} ValueReads(v: Value, depth: nat, rest: string)
    requires Proper(v) && Fine(v, depth) && Stops(rest)
    ensures ReadExpression(Write(v) + rest) == Some((Ast(v), rest))
    decreases v, 1
  {
    match v
    case Arr(items) =>
      if items == [] {
        EmptyReads(rest);
        assert AstItems(items) == [];
      } else {
        ItemsRead(items, depth, rest);
        FirstOf(items[0]);
        TableReads(WriteItems(items), AstItems(items), rest);
      }
    case Obj(fields) =>
      if fields == [] {
        EmptyReads(rest);
        assert AstFields(fields) == [];
      } else {
        FieldsRead(fields, depth, rest);
        TableReads(WriteFields(fields), AstFields(fields), rest);
      }
    case _ => LeafReads(v, rest);
  }

  lemma EmptyReads(rest: string)
    ensures ReadExpression(['{'] + [] + ['}'] + rest) == Some((Table([]), rest))
  {
    var s := ['{'] + [] + ['}'] + rest;
    assert s == "{}" + rest;
    assert s[2..] == rest;
  }

  lemma TableReads(body: string, fields: seq<Field>, rest: string)
    requires body != [] && body[0] != '}'
    requires ReadFields(body + ['}'] + rest) == Some((fields, rest))
    ensures ReadExpression(['{'] + body + ['}'] + rest) == Some((Table(fields), rest))
  {
    var s := ['{'] + body + ['}'] + rest;
    assert s[1..] == body + ['}'] + rest;
    assert s[0] == '{' && s[1] == body[0];
  }

  /** A field that reads as `f` up to a comma or the closing brace. */
  ghost predicate FieldReads(text: string, f: Field) {
    forall rest | Stops(rest) :: ReadField(text + rest) == Some((f, rest))
  }

  lemma LastReads(text: string, f: Field, rest: string)
    requires FieldReads(text, f)
    ensures ReadFields(text + ['}'] + rest) == Some(([f], rest))
  {
    var later := ['}'] + rest;
    assert text + ['}'] + rest == text + later;
    assert Stops(later) && later[1..] == rest;
  }

  lemma NextReads(text: string, f: Field, more: string, fields: seq<Field>, rest: string)
    requires FieldReads(text, f)
    requires ReadFields(more + ['}'] + rest) == Some((fields, rest))
    ensures ReadFields(text + [','] + more + ['}'] + rest) == Some(([f] + fields, rest))
  {
    var later := [','] + (more + ['}'] + rest);
    assert text + [','] + more + ['}'] + rest == text + later;
    assert Stops(later) && later[1..] == more + ['}'] + rest;
  }

  lemma {:induction false} ItemReads(v: Value, depth: nat)
    requires Proper(v) && Fine(v, depth)
    ensures FieldReads(Write(v), Field(Placed, Ast(v)))
    decreases v, 2
  {
    FirstOf(v);
    forall rest | Stops(rest) ensures ReadField(Write(v) + rest) == Some((Field(Placed, Ast(v)), rest)) {
      ValueReads(v, depth, rest);
    }
  }

  lemma {:induction false} ItemsRead(items: seq<Value>, depth: nat, rest: string)
    requires items != [] && forall i | 0 <= i < |items| :: Proper(items[i]) && Fine(items[i], depth + 1)
    ensures ReadFields(WriteItems(items) + ['}'] + rest) == Some((AstItems(items), rest))
    decreases items, 0
  {
    ItemReads(items[0], depth + 1);
    if |items| == 1 {
      LastReads(Write(items[0]), Field(Placed, Ast(items[0])), rest);
      AstItemsFirst(items);
    } else {
      ItemsRead(items[1..], depth, rest);
      NextReads(Write(items[0]), Field(Placed, Ast(items[0])), WriteItems(items[1..]), AstItems(items[1..]), rest);
      AstItemsFirst(items);
    }
  }

  lemma {:induction false} AstItemsFirst(items: seq<Value>)
    requires items != []
    ensures AstItems(items) == [Field(Placed, Ast(items[0]))] + AstItems(items[1..])
    ensures |items| == 1 ==> AstItems(items) == [Field(Placed, Ast(items[0]))]
  {}

  lemma {:induction false} BracketedReads(field: (string, Value), depth: nat)
    requires Proper(field.1) && Fine(field.1, depth)
    ensures FieldReads(WriteField(field), AstField(field))
    decreases field, 2
  {
    forall rest | Stops(rest) ensures ReadField(WriteField(field) + rest) == Some((AstField(field), rest)) {
      ValueReads(field.1, depth, rest);
      var item := Write(field.1) + rest;
      StringReads(field.0, "]=" + item);
      KeyReads(field, rest, item);
    }
  }

  lemma KeyReads(field: (string, Value), rest: string, item: string)
    requires item == Write(field.1) + rest && ReadExpression(item) == Some((Ast(field.1), rest))
    requires ReadExpression(Quoted(field.0) + ("]=" + item)) == Some((StringToken(Body(field.0)), "]=" + item))
    ensures ReadField(WriteField(field) + rest) == Some((AstField(field), rest))
  {
    FieldText(Quoted(field.0), Write(field.1), rest);
    assert ("]=" + item)[2..] == item;
  }

  lemma FieldText(key: string, item: string, rest: string)
    ensures var s := ['['] + key + [']', '='] + item + rest;
            s[0] == '[' && s[1..] == key + ("]=" + (item + rest))
  {}

  lemma {:induction false} FieldsRead(fields: seq<(string, Value)>, depth: nat, rest: string)
    requires fields != []
    requires forall i | 0 <= i < |fields| :: Proper(fields[i].1) && Fine(fields[i].1, depth + 1)
    ensures ReadFields(WriteFields(fields) + ['}'] + rest) == Some((AstFields(fields), rest))
    decreases fields, 0
  {
    BracketedReads(fields[0], depth + 1);
    if |fields| == 1 {
      LastReads(WriteField(fields[0]), AstField(fields[0]), rest);
      AstFieldsFirst(fields);
    } else {
      FieldsRead(fields[1..], depth, rest);
      NextReads(WriteField(fields[0]), AstField(fields[0]), WriteFields(fields[1..]), AstFields(fields[1..]), rest);
      AstFieldsFirst(fields);
    }
  }

  lemma {:induction false} AstFieldsFirst(fields: seq<(string, Value)>)
    requires fields != []
    ensures AstFields(fields) == [AstField(fields[0])] + AstFields(fields[1..])
    ensures |fields| == 1 ==> AstFields(fields) == [AstField(fields[0])]
  {}

  /** The value that a rendered text holds. */
  function ReadLiteral(text: string): Option<Value> {
    var e := ReadExpression(text);
    if e.None? || e.value.1 != [] then None else ValueOf(e.value.0, 0)
  }

  /** Whatever `render` accepts is read back as the same value, but for empty arrays, which become empty
      objects; so the two undo each other exactly on the values without empty arrays. */
  lemma LiteralRoundTrip(v: Value)
    requires Proper(v) && Fine(v, 0)
    ensures ReadLiteral(Write(v)) == Some(Tidy(v))
    ensures ReadLiteral(Write(v)) == Some(v) <==> NoEmptyArray(v)
  {
    ValueReads(v, 0, []);
    assert Write(v) + [] == Write(v);
    ValueRead(v, 0);
    TidyKeeps(v);
  }
}
