/** Reading the sections of a unit file: every key of every section with its values in order. */
module Sections {
  import opened Options
  import opened Text

  type Fields = map<(string, string), seq<string>>

  datatype State = State(fields: Fields, section: string)

  function Lookup(f: Fields, name: (string, string)): seq<string> {
    if name in f then f[name] else []
  }

  function Push(f: Fields, name: (string, string), value: string): Fields {
    f[name := Lookup(f, name) + [value]]
  }

  function AddEntry(st: State, key: string, value: string): Option<State> {
    if st.section == [] || key == [] || (value != [] && value[|value| - 1] == '\\') then None
    else Some(st.(fields := Push(st.fields, (st.section, key), Trim(value))))
  }

  function ParseEntry(st: State, line: string): Option<State> {
    var k := Find(line, {'='});
    if k == |line| then None else AddEntry(st, Trim(line[..k]), line[k + 1..])
  }

  function ParseLine(st: State, raw: string): Option<State> {
    var line := Trim(raw);
    if line == [] || line[0] == '#' || line[0] == ';' then Some(st)
    else if |line| >= 2 && line[0] == '[' && line[|line| - 1] == ']' then
      Some(st.(section := line[1..|line| - 1]))
    else ParseEntry(st, line)
  }

  function ParseLines(st: State, lines: seq<string>): Option<State>
    decreases |lines|
  {
    if lines == [] then Some(st)
    else
      var next := ParseLine(st, lines[0]);
      if next.None? then None else ParseLines(next.value, lines[1..])
  }

  function Parsed(source: string): Option<Fields> {
    var end := ParseLines(State(map[], []), Lines(source));
    if end.None? then None else Some(end.value.fields)
  }

  method ParseSections(source: string) returns (r: Option<Fields>)
    ensures r == Parsed(source)
  {
    var lines := Lines(source);
    var st := State(map[], []);
    for i := 0 to |lines|
      invariant ParseLines(State(map[], []), lines) == ParseLines(st, lines[i..])
    {
      assert lines[i..][1..] == lines[i + 1..];
      var next := ParseLine(st, lines[i]);
      if next.None? {
        return None;
      }
      st := next.value;
    }
    return Some(st.fields);
  }

  lemma {:induction false} ParseAppend(st: State, a: seq<string>, b: seq<string>)
    ensures ParseLines(st, a + b) == if ParseLines(st, a).None? then None else ParseLines(ParseLines(st, a).value, b)
    decreases |a|
  {
    if a == [] {
      assert a + b == b;
    } else {
      assert (a + b)[1..] == a[1..] + b;
      if ParseLine(st, a[0]).Some? {
        ParseAppend(ParseLine(st, a[0]).value, a[1..], b);
      }
    }
  }

  lemma ParseOne(st: State, line: string)
    ensures ParseLines(st, [line]) == ParseLine(st, line)
  {
    assert [line][1..] == [];
  }

  // ----- What each line does

  /** A line without its surrounding white space is skipped if it is empty or a comment. */
  predicate Skipped(line: string) {
    line == [] || line[0] == '#' || line[0] == ';'
  }

  lemma SkippedTaken(st: State, raw: string)
    requires Skipped(Trim(raw))
    ensures ParseLine(st, raw) == Some(st)
  {}

  lemma HeaderTaken(st: State, raw: string, section: string)
    requires Trim(raw) == "[" + section + "]"
    ensures ParseLine(st, raw) == Some(State(st.fields, section))
  {
    assert ("[" + section + "]")[1..|section| + 1] == section;
  }

  /** Any other line names a key before its first equals sign and adds one value to it. It is refused outside every
      section, without a key, or with a backslash at its end. */
  lemma {:induction false} EntryTaken(st: State, raw: string, left: string, value: string)
    requires Trim(raw) == left + "=" + value && HasNo(left, '=')
    requires !Skipped(Trim(raw)) && !(Trim(raw)[0] == '[' && Trim(raw)[|Trim(raw)| - 1] == ']')
    ensures var name := (st.section, Trim(left));
            if st.section == [] || Trim(left) == [] || (value != [] && value[|value| - 1] == '\\')
            then ParseLine(st, raw).None?
            else ParseLine(st, raw)
                 == Some(State(st.fields[name := (if name in st.fields then st.fields[name] else []) + [Trim(value)]],
                               st.section))
  {
    var line := Trim(raw);
    assert line == left + ['='] + value;
    FindAfter(left, '=', value, {'='});
    assert line[..|left|] == left && line[|left| + 1..] == value;
  }

  lemma {:induction false} OtherRefused(st: State, raw: string)
    requires HasNo(Trim(raw), '=') && !Skipped(Trim(raw))
    requires !(|Trim(raw)| >= 2 && Trim(raw)[0] == '[' && Trim(raw)[|Trim(raw)| - 1] == ']')
    ensures ParseLine(st, raw).None?
  {
    var k := Find(Trim(raw), {'='});
    assert k == |Trim(raw)|;
  }

  // ----- Rendered rows: a key with its values, one line each

  /** A value that its line carries unchanged. */
  predicate PlainValue(v: string) {
    v != [] && Trimmed(v) && IsLine(v) && v[|v| - 1] != '\\'
  }

  predicate PlainValues(values: seq<string>) {
    forall i | 0 <= i < |values| :: PlainValue(values[i])
  }

  function EntryLine(key: string, value: string): string {
    key + "=" + value
  }

  function RowLines(key: string, values: seq<string>): seq<string> {
    seq(|values|, i requires 0 <= i < |values| => EntryLine(key, values[i]))
  }

  function PushAll(f: Fields, name: (string, string), values: seq<string>): Fields {
    if values == [] then f else f[name := Lookup(f, name) + values]
  }

  /** The line splits at its first equals sign into the key and the value. */
  lemma {:induction false} EntrySplits(key: string, value: string)
    requires Identifier(key)
    ensures var line := EntryLine(key, value);
            && Find(line, {'='}) == |key| < |line| && line[..|key|] == key && line[|key| + 1..] == value
  {
    KeyFacts(key);
    assert EntryLine(key, value) == key + ['='] + value;
    FindAfter(key, '=', value, {'='});
  }

  lemma {:induction false} EntryIsPlain(key: string, value: string)
    requires Identifier(key) && PlainValue(value)
    ensures var line := EntryLine(key, value);
            && Trimmed(line) && IsLine(line) && line != [] && line[0] !in {'[', '#', ';'}
  {
    KeyFacts(key);
    assert EntryLine(key, value)[0] == key[0];
  }

  lemma {:induction false} EntryRead(st: State, line: string, key: string, value: string)
    requires Find(line, {'='}) == |key| < |line| && line[..|key|] == key && line[|key| + 1..] == value
    requires Trimmed(key)
    ensures ParseEntry(st, line) == AddEntry(st, key, value)
  {
    TrimExactly(key);
  }

  lemma {:induction false} EntryPushed(st: State, key: string, value: string)
    requires PlainValue(value) && key != [] && st.section != []
    ensures AddEntry(st, key, value) == Some(st.(fields := Push(st.fields, (st.section, key), value)))
  {
    TrimExactly(value);
  }

  lemma {:induction false} PlainLine(st: State, line: string)
    requires Trimmed(line) && line != [] && line[0] !in {'[', '#', ';'}
    ensures ParseLine(st, line) == ParseEntry(st, line)
  {
    TrimExactly(line);
  }

  lemma {:induction false} EntryParses(st: State, key: string, value: string)
    requires Identifier(key) && PlainValue(value) && st.section != []
    ensures ParseLine(st, EntryLine(key, value)) == Some(st.(fields := Push(st.fields, (st.section, key), value)))
    ensures IsLine(EntryLine(key, value))
  {
    KeyFacts(key);
    EntrySplits(key, value);
    EntryIsPlain(key, value);
    PlainLine(st, EntryLine(key, value));
    EntryRead(st, EntryLine(key, value), key, value);
    EntryPushed(st, key, value);
  }

  lemma KeyFacts(key: string)
    requires Identifier(key)
    ensures Trimmed(key) && IsLine(key) && key[0] != '[' && key[0] != '#' && key[0] != ';'
    ensures forall i | 0 <= i < |key| :: key[i] !in {'='}
  {
    assert IsWord(key[0]) && IsWord(key[|key| - 1]);
  }

  lemma {:induction false} RowFirst(key: string, values: seq<string>)
    requires values != []
    ensures RowLines(key, values) != [] && RowLines(key, values)[0] == EntryLine(key, values[0])
    ensures RowLines(key, values)[1..] == RowLines(key, values[1..])
  {}

  lemma {:induction false} RowParses(st: State, key: string, values: seq<string>)
    requires Identifier(key) && PlainValues(values) && st.section != []
    ensures ParseLines(st, RowLines(key, values))
            == Some(st.(fields := PushAll(st.fields, (st.section, key), values)))
    decreases |values|
  {
    if values != [] {
      var next := st.(fields := Push(st.fields, (st.section, key), values[0]));
      EntryParses(st, key, values[0]);
      RowParses(next, key, values[1..]);
      RowFirst(key, values);
      PushFirst(st.fields, (st.section, key), values);
    }
  }

  lemma PushFirst(f: Fields, name: (string, string), values: seq<string>)
    requires values != []
    ensures PushAll(Push(f, name, values[0]), name, values[1..]) == PushAll(f, name, values)
  {
    assert Lookup(f, name) + [values[0]] + values[1..] == Lookup(f, name) + values;
    if values[1..] == [] {
      assert values == [values[0]];
    }
  }

  function Header(section: string): string {
    "[" + section + "]"
  }

  lemma HeaderParses(st: State, section: string)
    requires Identifier(section)
    ensures ParseLine(st, Header(section)) == Some(st.(section := section)) && IsLine(Header(section))
  {
    KeyFacts(section);
    TrimExactly(Header(section));
    assert Header(section)[1..|Header(section)| - 1] == section;
  }

  lemma SkippedParses(st: State, line: string)
    requires line == [] || (line[0] == '#' && Trimmed(line))
    ensures ParseLine(st, line) == Some(st)
  {
    TrimExactly(line);
  }

  lemma RowIsLines(key: string, values: seq<string>)
    requires Identifier(key) && PlainValues(values)
    ensures forall i | 0 <= i < |values| :: IsLine(RowLines(key, values)[i])
  {
    forall i | 0 <= i < |values| ensures IsLine(RowLines(key, values)[i]) {
      EntryIsPlain(key, values[i]);
    }
  }
}
