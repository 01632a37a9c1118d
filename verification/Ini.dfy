/** Rendering an INI document and parsing INI text. */
module Ini {
  import opened Options
  import opened Utf8
  import opened Text

  const MAX_BYTES := 1024 * 1024

  type Fields = seq<(string, string)>

  /** Sections and their options, in the order in which the source iterates over them. */
  type Document = seq<(string, Fields)>

  // ----- Parsing

  type Values = map<string, map<string, string>>

  datatype State = State(values: Values, sections: set<string>, section: string)

  const Initial := State(map[], {}, [])

  predicate Comments(s: string) {
    s != [] && (s[0] == ';' || s[0] == '#')
  }

  /** Which file is read: a cluster's, a shard's, or any other. */
  datatype Kind = Cluster | Shard | AnyFile

  predicate SectionAllowed(kind: Kind, section: string) {
    kind.Shard? ==> section in ["shard", "network", "steam", "account"]
  }

  predicate OptionAllowed(kind: Kind, section: string, key: string) {
    if kind.Cluster? && section == "shard" then
      key in ["shard_enabled", "bind_ip", "master_ip", "master_port", "cluster_key"]
    else if kind.Shard? && section == "shard" then
      key in ["is_master", "name", "id", "bind_ip", "master_ip", "master_port", "cluster_key"]
    else if kind.Shard? && section == "network" then key in ["server_port"]
    else if kind.Shard? && section == "steam" then key in ["master_server_port", "authentication_port"]
    else if kind.Shard? && section == "account" then key in ["encode_user_path"]
    else true
  }

  predicate Has(values: Values, section: string, key: string) {
    section in values && key in values[section]
  }

  function Put(values: Values, section: string, key: string, value: string): Values {
    values[section := (if section in values then values[section] else map[])[key := value]]
  }

  function ParseHeader(kind: Kind, st: State, line: string): Option<State>
    requires line != []
  {
    var end := Find(line, {']'});
    if end == |line| then None
    else
      var rest := Trim(line[end + 1..]);
      var section := Lower(Trim(if end == 0 then [] else line[1..end]));
      if rest != [] && !Comments(rest) then None
      else if section == [] || section == "default" || section in st.sections then None
      else if !SectionAllowed(kind, section) then None
      else Some(State(st.values, st.sections + {section}, section))
  }

  function ParseOption(kind: Kind, st: State, line: string): Option<State> {
    var k := Find(line, {'=', ':'});
    if k == |line| then None
    else
      var key, value := Lower(Trim(line[..k])), Trim(line[k + 1..]);
      if st.section == [] || key == [] || Has(st.values, st.section, key) then None
      else if !OptionAllowed(kind, st.section, key) then None
      else Some(st.(values := Put(st.values, st.section, key, value)))
  }

  function ParseLine(kind: Kind, st: State, raw: string): Option<State> {
    var line := Trim(raw);
    if !HasNo(line, '\0') || !HasNo(line, '\r') then None
    else if line == [] || Comments(line) then Some(st)
    else if line[0] == '[' then ParseHeader(kind, st, line)
    else ParseOption(kind, st, line)
  }

  function ParseLines(kind: Kind, st: State, lines: seq<string>): Option<State> {
    if lines == [] then Some(st)
    else
      var before := ParseLines(kind, st, lines[..|lines| - 1]);
      if before.None? then None else ParseLine(kind, before.value, lines[|lines| - 1])
  }

  function Parsed(kind: Kind, source: string): Option<Values> {
    var end := ParseLines(kind, Initial, Lines(source));
    if !Fits(source) || end.None? then None else Some(end.value.values)
  }

  lemma {:induction false} ParseAppend(kind: Kind, st: State, a: seq<string>, b: seq<string>)
    ensures ParseLines(kind, st, a + b)
            == if ParseLines(kind, st, a).None? then None else ParseLines(kind, ParseLines(kind, st, a).value, b)
    decreases |b|
  {
    if b == [] {
      assert a + b == a;
    } else {
      assert (a + b)[..|a + b| - 1] == a + b[..|b| - 1];
      ParseAppend(kind, st, a, b[..|b| - 1]);
    }
  }

  /** One line more, and what a failure means for the whole text. */
  lemma {:induction false} ParseNext(kind: Kind, st: State, lines: seq<string>, index: nat)
    requires index < |lines| && ParseLines(kind, st, lines[..index]).Some?
    ensures var next := ParseLine(kind, ParseLines(kind, st, lines[..index]).value, lines[index]);
            && ParseLines(kind, st, lines[..index + 1]) == next
            && (next.None? ==> ParseLines(kind, st, lines).None?)
  {
    assert lines[..index + 1] == lines[..index] + [lines[index]];
    ParseOne(kind, st, lines[..index], lines[index]);
    if ParseLines(kind, st, lines[..index + 1]).None? {
      ParseFails(kind, st, lines, index + 1);
    }
  }

  lemma {:induction false} ParseOne(kind: Kind, st: State, lines: seq<string>, line: string)
    requires ParseLines(kind, st, lines).Some?
    ensures ParseLines(kind, st, lines + [line]) == ParseLine(kind, ParseLines(kind, st, lines).value, line)
  {
    assert (lines + [line])[..|lines|] == lines;
  }

  lemma {:induction false} ParseFails(kind: Kind, st: State, lines: seq<string>, index: nat)
    requires index <= |lines| && ParseLines(kind, st, lines[..index]).None?
    ensures ParseLines(kind, st, lines).None?
  {
    ParseAppend(kind, st, lines[..index], lines[index..]);
    assert lines == lines[..index] + lines[index..];
  }

  method ParseIni(source: string, kind: Kind) returns (r: Option<Values>)
    ensures r == Parsed(kind, source)
  {
    if !Fits(source) {
      return None;
    }
    var lines := Lines(source);
    var st := Initial;
    for index := 0 to |lines|
      invariant ParseLines(kind, Initial, lines[..index]) == Some(st)
    {
      ParseNext(kind, Initial, lines, index);
      var next := ParseLine(kind, st, lines[index]);
      if next.None? {
        return None;
      }
      st := next.value;
    }
    assert lines[..|lines|] == lines;
    return Some(st.values);
  }

  // ----- What each line does

  /** Which options a cluster's file may set for its shards, and a shard's file at all. */
  lemma AllowedExactly(kind: Kind, section: string, key: string)
    ensures SectionAllowed(kind, section) <==> !kind.Shard? || section in {"shard", "network", "steam", "account"}
    ensures OptionAllowed(Cluster, "shard", key) <==>
              key in {"shard_enabled", "bind_ip", "master_ip", "master_port", "cluster_key"}
    ensures OptionAllowed(Shard, "shard", key) <==>
              key in {"is_master", "name", "id", "bind_ip", "master_ip", "master_port", "cluster_key"}
    ensures OptionAllowed(Shard, "network", key) <==> key == "server_port"
    ensures OptionAllowed(Shard, "steam", key) <==> key in {"master_server_port", "authentication_port"}
    ensures OptionAllowed(Shard, "account", key) <==> key == "encode_user_path"
    ensures OptionAllowed(AnyFile, section, key) && (section != "shard" ==> OptionAllowed(Cluster, section, key))
  {}

  /** No NUL or carriage return within the line. */
  predicate Clean(line: string) {
    HasNo(line, '\0') && HasNo(line, '\r')
  }

  lemma SkippedTaken(kind: Kind, st: State, raw: string)
    requires Trim(raw) == [] || Trim(raw)[0] == ';' || Trim(raw)[0] == '#'
    ensures ParseLine(kind, st, raw) == if Clean(Trim(raw)) then Some(st) else None
  {}

  lemma UncleanRefused(kind: Kind, st: State, raw: string)
    requires !Clean(Trim(raw))
    ensures ParseLine(kind, st, raw).None?
  {}

  /** A header names a new section, in lower case; only a comment may follow it. */
  lemma {:induction false} HeaderTaken(kind: Kind, st: State, raw: string, inside: string, rest: string)
    requires Trim(raw) == "[" + inside + "]" + rest && HasNo(inside, ']') && Clean(Trim(raw))
    ensures var name := Lower(Trim(inside));
            ParseLine(kind, st, raw)
            == if (Trim(rest) == [] || Trim(rest)[0] == ';' || Trim(rest)[0] == '#')
                  && name != [] && name != "default" && name !in st.sections && SectionAllowed(kind, name)
               then Some(State(st.values, st.sections + {name}, name)) else None
  {
    var line := Trim(raw);
    assert line == ("[" + inside) + [']'] + rest;
    FindAfter("[" + inside, ']', rest, {']'});
    assert line[1..|inside| + 1] == inside && line[|inside| + 2..] == rest;
  }

  lemma {:induction false} OpenHeaderRefused(kind: Kind, st: State, raw: string)
    requires Trim(raw) != [] && Trim(raw)[0] == '[' && HasNo(Trim(raw), ']')
    ensures ParseLine(kind, st, raw).None?
  {
    var k := Find(Trim(raw), {']'});
    assert k == |Trim(raw)|;
  }

  /** Any other line sets an option of the current section, once: its name in lower case is what stands before the first
      equals sign or colon, its value what follows. */
  lemma {:induction false} OptionTaken(kind: Kind, st: State, raw: string, left: string, sign: char, right: string)
    requires Trim(raw) == left + [sign] + right && (sign == '=' || sign == ':') && HasNo(left, '=') && HasNo(left, ':')
    requires Clean(Trim(raw)) && Trim(raw)[0] !in {'[', ';', '#'}
    ensures var key, section := Lower(Trim(left)), st.section;
            && (ParseLine(kind, st, raw).Some? <==>
                  && section != [] && key != [] && OptionAllowed(kind, section, key)
                  && !(section in st.values && key in st.values[section]))
            && (ParseLine(kind, st, raw).Some? ==>
                  var t := ParseLine(kind, st, raw).value;
                  && t.sections == st.sections && t.section == section
                  && t.values == st.values[section := (if section in st.values then st.values[section] else map[])
                                                        [key := Trim(right)]])
  {
    var line := Trim(raw);
    FindAfter(left, sign, right, {'=', ':'});
    assert line[..|left|] == left && line[|left| + 1..] == right;
  }

  lemma {:induction false} OtherRefused(kind: Kind, st: State, raw: string)
    requires Trim(raw) != [] && HasNo(Trim(raw), '=') && HasNo(Trim(raw), ':') && Trim(raw)[0] !in {'[', ';', '#'}
    ensures ParseLine(kind, st, raw).None?
  {
    var k := Find(Trim(raw), {'=', ':'});
    assert k == |Trim(raw)|;
  }

  // ----- Rendering

  function Header(name: string): string {
    "[" + name + "]"
  }

  function OptionLine(field: (string, string)): string {
    field.0 + " = " + field.1
  }

  function FieldLines(fields: Fields): seq<string> {
    if fields == [] then [] else FieldLines(fields[..|fields| - 1]) + [OptionLine(fields[|fields| - 1])]
  }

  function SectionLines(section: (string, Fields)): seq<string> {
    [Header(section.0)] + FieldLines(section.1) + [""]
  }

  function DocumentLines(doc: Document): seq<string> {
    if doc == [] then [] else DocumentLines(doc[..|doc| - 1]) + SectionLines(doc[|doc| - 1])
  }

  function Source(doc: Document): string {
    Unlines(DocumentLines(doc))
  }

  /** A value without control of the line structure or surrounding white space. */
  predicate PlainValue(value: string) {
    HasNo(value, '\0') && HasNo(value, '\r') && HasNo(value, '\n') && Trim(value) == value
  }

  predicate PlainField(field: (string, string)) {
    Identifier(field.0) && PlainValue(field.1)
  }

  predicate PlainFields(fields: Fields) {
    forall i | 0 <= i < |fields| :: PlainField(fields[i])
  }

  predicate PlainSection(section: (string, Fields)) {
    Identifier(section.0) && PlainFields(section.1)
  }

  predicate Plain(doc: Document) {
    forall i | 0 <= i < |doc| :: PlainSection(doc[i])
  }

  /** What `render_ini` returns. */
  function Rendered(doc: Document): Option<string> {
    if Plain(doc) && Fits(Source(doc)) && Parsed(AnyFile, Source(doc)).Some?
    then Some(Source(doc)) else None
  }

  /** The text when the first `j` options of a section have been written after these lines. */
  function Written(before: seq<string>, fields: Fields, j: nat): string
    requires j <= |fields|
  {
    Unlines(before + FieldLines(fields[..j]))
  }

  lemma WrittenEnds(before: seq<string>, fields: Fields)
    ensures Written(before, fields, 0) == Unlines(before)
    ensures Written(before, fields, |fields|) == Unlines(before + FieldLines(fields))
  {
    assert before + [] == before && fields[..0] == [] && fields[..|fields|] == fields;
  }

  predicate Fits(text: string) {
    |Encode(text)| <= MAX_BYTES
  }

  /** The texts while a section is being written. */
  ghost predicate Steps(texts: seq<string>, fields: Fields) {
    && |texts| == |fields| + 1
    && (forall j | 0 <= j < |fields| :: texts[j + 1] == texts[j] + (OptionLine(fields[j]) + "\n"))
    && (forall j | 0 <= j < |texts| :: Fits(texts[|fields|]) ==> Fits(texts[j]))
  }

  lemma WritingSteps(before: seq<string>, fields: Fields) returns (texts: seq<string>)
    ensures Steps(texts, fields)
    ensures texts[0] == Unlines(before) && texts[|fields|] == Unlines(before + FieldLines(fields))
  {
    texts := seq(|fields| + 1, j requires 0 <= j < |fields| + 1 => Written(before, fields, j));
    WrittenEnds(before, fields);
    forall j | 0 <= j < |fields| ensures texts[j + 1] == texts[j] + (OptionLine(fields[j]) + "\n") {
      FieldMore(before, fields, j);
    }
    forall j | 0 <= j < |texts| ensures Fits(texts[|fields|]) ==> Fits(texts[j]) {
      FieldsLength(before, fields, j);
    }
  }

  /** The options of one section; the length is checked after each. */
  method RenderFields(fields: Fields, output: string, ghost before: seq<string>) returns (r: Option<string>)
    requires output == Unlines(before)
    ensures r.Some? ==> r.value == Unlines(before + FieldLines(fields))
    ensures r.Some? <==> PlainFields(fields) && (fields == [] || Fits(Unlines(before + FieldLines(fields))))
  {
    var source := output;
    ghost var texts := WritingSteps(before, fields);
    for j := 0 to |fields|
      invariant source == texts[j]
      invariant forall k | 0 <= k < j :: PlainField(fields[k])
      invariant j > 0 ==> Fits(source)
    {
      if !PlainField(fields[j]) {
        return None;
      }
      source := source + (OptionLine(fields[j]) + "\n");
      assert source == texts[j + 1];
      if !Fits(source) {
        return None;
      }
    }
    return Some(source);
  }

  method RenderIni(doc: Document) returns (r: Option<string>)
    ensures r == Rendered(doc)
  {
    var source := "";
    for i := 0 to |doc|
      invariant source == Source(doc[..i]) && Plain(doc[..i])
    {
      assert doc[..i + 1][..i] == doc[..i];
      if !Identifier(doc[i].0) {
        assert !PlainSection(doc[i]);
        return None;
      }
      UnlinesMore(DocumentLines(doc[..i]), Header(doc[i].0));
      var written := RenderFields(doc[i].1, source + (Header(doc[i].0) + "\n"),
                                  DocumentLines(doc[..i]) + [Header(doc[i].0)]);
      SourceGrows(doc, i);
      if written.None? {
        assert !PlainSection(doc[i]) || !Fits(Source(doc));
        return None;
      }
      SectionMore(doc, i);
      source := written.value + "\n";
      assert doc[..i + 1] == doc[..i] + [doc[i]];
    }
    assert doc[..|doc|] == doc;
    var parsed := ParseIni(source, AnyFile);
    return if parsed.Some? then Some(source) else None;
  }

  lemma UnlinesMore(lines: seq<string>, line: string)
    ensures Unlines(lines + [line]) == Unlines(lines) + (line + "\n")
  {
    UnlinesAppend(lines, [line]);
    assert [line][1..] == [];
    assert Unlines([line]) == line + "\n";
  }

  lemma FieldMore(before: seq<string>, fields: Fields, j: nat)
    requires j < |fields|
    ensures Written(before, fields, j + 1) == Written(before, fields, j) + (OptionLine(fields[j]) + "\n")
  {
    assert fields[..j + 1][..j] == fields[..j];
    assert before + FieldLines(fields[..j + 1]) == before + FieldLines(fields[..j]) + [OptionLine(fields[j])];
    UnlinesMore(before + FieldLines(fields[..j]), OptionLine(fields[j]));
  }

  lemma SectionMore(doc: Document, i: nat)
    requires i < |doc|
    ensures Source(doc[..i + 1])
            == Unlines(DocumentLines(doc[..i]) + [Header(doc[i].0)] + FieldLines(doc[i].1)) + "\n"
  {
    var lines := DocumentLines(doc[..i]) + [Header(doc[i].0)] + FieldLines(doc[i].1);
    assert doc[..i + 1][..i] == doc[..i];
    assert DocumentLines(doc[..i + 1]) == lines + [""];
    UnlinesMore(lines, "");
    assert "" + "\n" == "\n";
  }

  /** What has been written is the beginning of the whole text. */
  lemma SourceGrows(doc: Document, i: nat)
    requires i < |doc|
    ensures Fits(Source(doc)) ==>
              Fits(Unlines(DocumentLines(doc[..i]) + [Header(doc[i].0)] + FieldLines(doc[i].1)))
  {
    var lines := DocumentLines(doc[..i]) + [Header(doc[i].0)] + FieldLines(doc[i].1);
    DocumentGrows(doc, i + 1);
    assert doc[..i + 1][..i] == doc[..i];
    assert DocumentLines(doc[..i + 1]) == lines + [""];
    LengthGrows(lines, DocumentLines(doc));
  }

  lemma {:induction false} FieldsGrow(fields: Fields, j: nat)
    requires j <= |fields|
    ensures FieldLines(fields[..j]) <= FieldLines(fields)
    decreases |fields| - j
  {
    if j == |fields| {
      assert fields[..j] == fields;
    } else {
      FieldsGrow(fields, j + 1);
      assert fields[..j + 1][..j] == fields[..j];
    }
  }

  lemma FieldsLength(before: seq<string>, fields: Fields, j: nat)
    requires j <= |fields|
    ensures Fits(Unlines(before + FieldLines(fields))) ==> Fits(Written(before, fields, j))
  {
    FieldsGrow(fields, j);
    LengthGrows(before + FieldLines(fields[..j]), before + FieldLines(fields));
  }

  lemma {:induction false} DocumentGrows(doc: Document, i: nat)
    requires i <= |doc|
    ensures DocumentLines(doc[..i]) <= DocumentLines(doc)
    decreases |doc| - i
  {
    if i == |doc| {
      assert doc[..i] == doc;
    } else {
      DocumentGrows(doc, i + 1);
      assert doc[..i + 1][..i] == doc[..i];
    }
  }

  lemma LengthGrows(a: seq<string>, b: seq<string>)
    requires a <= b
    ensures |Encode(Unlines(a))| <= |Encode(Unlines(b))|
  {
    assert b == a + b[|a|..];
    UnlinesAppend(a, b[|a|..]);
    EncodeAppend(Unlines(a), Unlines(b[|a|..]));
  }

  // ----- How the rendered lines are read

  function Opened(st: State, section: string): Option<State> {
    if section == "default" || section in st.sections then None
    else Some(State(st.values, st.sections + {section}, section))
  }

  function Added(st: State, key: string, value: string): Option<State> {
    if Has(st.values, st.section, key) then None else Some(st.(values := Put(st.values, st.section, key, value)))
  }

  lemma WordFacts(c: char)
    requires IsWord(c)
    ensures !IsWhitespace(c) && c != ']' && c != '[' && c != '=' && c != ':' && c != ';' && c != '#'
    ensures c != '\0' && c != '\r' && c != '\n'
  {}

  lemma IdentifierFacts(name: string)
    requires Identifier(name)
    ensures Trimmed(name) && Trim(name) == name && Lower(name) != [] && IsLine(name) && HasNo(name, '\0')
    ensures forall i | 0 <= i < |name| :: name[i] !in {']'} && name[i] !in {'=', ':'}
  {
    TrimExactly(name);
    forall i | 0 <= i < |name| ensures IsWord(name[i]) {
    }
    WordFacts(name[0]);
  }

  lemma HeaderParses(st: State, name: string)
    requires Identifier(name)
    ensures ParseLine(AnyFile, st, Header(name)) == Opened(st, Lower(name))
    ensures IsLine(Header(name))
  {
    var line := Header(name);
    IdentifierFacts(name);
    TrimExactly(line);
    var inside := "[" + name;
    assert line == inside + [']'] + [];
    FindAfter(inside, ']', [], {']'});
    assert line[1..|inside|] == name && line[|inside| + 1..] == [];
  }

  lemma BlankParses(st: State)
    ensures ParseLine(AnyFile, st, "") == Some(st)
  {}

  /** The line without its trimmed end: a space is lost when the value is empty. */
  lemma OptionTrimmed(field: (string, string))
    requires PlainField(field)
    ensures Trim(OptionLine(field)) == if field.1 == [] then field.0 + " =" else OptionLine(field)
  {
    IdentifierFacts(field.0);
    TrimExactly(field.1);
    if field.1 == [] {
      assert OptionLine(field) == field.0 + " =" + [' '];
      TrimSpace(field.0 + " =");
    } else {
      TrimExactly(OptionLine(field));
    }
  }

  lemma OptionIsLine(field: (string, string))
    requires PlainField(field)
    ensures IsLine(OptionLine(field)) && HasNo(OptionLine(field), '\0')
  {
    IdentifierFacts(field.0);
  }

  lemma OptionParses(st: State, field: (string, string))
    requires PlainField(field) && st.section != []
    ensures ParseLine(AnyFile, st, OptionLine(field)) == Added(st, Lower(field.0), field.1)
  {
    OptionTrimmed(field);
    var key, rest := field.0 + [' '], if field.1 == [] then [] else [' '] + field.1;
    assert Trim(OptionLine(field)) == key + ['='] + rest;
    OptionReached(st, field, key + ['='] + rest);
    IdentifierFacts(field.0);
    OptionSplit(key, rest);
    TrimExactly(field.1);
    TrimSpace(field.0);
    TrimSpace(field.1);
    OptionRead(st, key + ['='] + rest, field, key, rest);
  }

  /** Neither empty nor a comment nor a header. */
  lemma OptionReached(st: State, field: (string, string), line: string)
    requires PlainField(field) && line == Trim(OptionLine(field))
    ensures ParseLine(AnyFile, st, OptionLine(field)) == ParseOption(AnyFile, st, line)
  {
    OptionTrimmed(field);
    OptionIsLine(field);
    assert line <= OptionLine(field) && line != [] && line[0] == field.0[0];
    WordFacts(field.0[0]);
  }

  lemma OptionSplit(key: string, rest: string)
    requires forall i | 0 <= i < |key| :: key[i] !in {'=', ':'}
    ensures var line := key + ['='] + rest;
            Find(line, {'=', ':'}) == |key| && line[..|key|] == key && line[|key| + 1..] == rest
  {
    FindAfter(key, '=', rest, {'=', ':'});
  }

  lemma OptionRead(st: State, line: string, field: (string, string), key: string, rest: string)
    requires line == key + ['='] + rest && Find(line, {'=', ':'}) == |key|
    requires line[..|key|] == key && line[|key| + 1..] == rest
    requires Trim(key) == field.0 && Trim(rest) == field.1 && Lower(field.0) != [] && st.section != []
    ensures ParseOption(AnyFile, st, line) == Added(st, Lower(field.0), field.1)
  {}

  // ----- The entries of a document

  /** A section's name, an option's name, and its value, with the names lower-cased. */
  type Entry = (string, string, string)

  function FieldEntries(section: string, fields: Fields): seq<Entry> {
    if fields == [] then []
    else FieldEntries(section, fields[..|fields| - 1])
         + [(section, Lower(fields[|fields| - 1].0), fields[|fields| - 1].1)]
  }

  function Entries(doc: Document): seq<Entry> {
    if doc == [] then []
    else Entries(doc[..|doc| - 1]) + FieldEntries(Lower(doc[|doc| - 1].0), doc[|doc| - 1].1)
  }

  predicate HasPair(entries: seq<Entry>, section: string, key: string) {
    exists i | 0 <= i < |entries| :: entries[i].0 == section && entries[i].1 == key
  }

  /** No two entries have the same names. */
  ghost predicate Distinct(entries: seq<Entry>) {
    forall i, j | 0 <= i < j < |entries| :: entries[i].0 != entries[j].0 || entries[i].1 != entries[j].1
  }

  /** The values are exactly these entries, and there is no empty section. */
  ghost predicate Represents(values: Values, entries: seq<Entry>) {
    && (forall i | 0 <= i < |entries| ::
          Has(values, entries[i].0, entries[i].1) && values[entries[i].0][entries[i].1] == entries[i].2)
    && (forall s, k | Has(values, s, k) :: HasPair(entries, s, k))
    && (forall s | s in values :: values[s] != map[])
  }

  lemma RepresentsMore(values: Values, entries: seq<Entry>, section: string, key: string, value: string)
    requires Represents(values, entries) && !Has(values, section, key)
    ensures Represents(Put(values, section, key, value), entries + [(section, key, value)])
  {
    var more, after := entries + [(section, key, value)], Put(values, section, key, value);
    forall i | 0 <= i < |more|
      ensures Has(after, more[i].0, more[i].1) && after[more[i].0][more[i].1] == more[i].2
    {
      if i < |entries| {
        assert Has(values, entries[i].0, entries[i].1);
      }
    }
    forall s | s in after ensures after[s] != map[] {
      assert s == section ==> key in after[s];
    }
    forall s, k | Has(after, s, k) ensures HasPair(more, s, k) {
      if s == section && k == key {
        assert more[|entries|].0 == s;
      } else {
        assert Has(values, s, k);
        var i :| 0 <= i < |entries| && entries[i].0 == s && entries[i].1 == k;
        assert more[i] == entries[i];
      }
    }
  }

  lemma HasExactly(values: Values, entries: seq<Entry>, section: string, key: string)
    requires Represents(values, entries)
    ensures Has(values, section, key) <==> HasPair(entries, section, key)
  {}

  lemma DistinctMore(entries: seq<Entry>, e: Entry)
    ensures Distinct(entries + [e]) <==> Distinct(entries) && !HasPair(entries, e.0, e.1)
  {
    var more := entries + [e];
    assert forall i | 0 <= i < |entries| :: more[i] == entries[i];
    assert more[|entries|] == e;
  }

  lemma {:induction false} DistinctGrows(a: seq<Entry>, b: seq<Entry>)
    requires Distinct(a + b)
    ensures Distinct(a)
  {
    assert forall i | 0 <= i < |a| :: (a + b)[i] == a[i];
  }

  // ----- The round trip

  /** Parsing a section's options adds its entries, and fails exactly when a name comes twice. */
  lemma {:induction false} FieldsParse(st: State, fields: Fields, entries: seq<Entry>)
    requires PlainFields(fields) && st.section != [] && Represents(st.values, entries) && Distinct(entries)
    ensures var r, all := ParseLines(AnyFile, st, FieldLines(fields)), entries + FieldEntries(st.section, fields);
            && (r.Some? <==> Distinct(all))
            && (r.Some? ==> Represents(r.value.values, all) && r.value.sections == st.sections
                            && r.value.section == st.section)
    decreases |fields|
  {
    if fields == [] {
      assert entries + [] == entries;
    } else {
      var k := |fields| - 1;
      var field := fields[k];
      var before, all := entries + FieldEntries(st.section, fields[..k]), entries + FieldEntries(st.section, fields);
      FieldsParse(st, fields[..k], entries);
      assert FieldLines(fields)[..|FieldLines(fields)| - 1] == FieldLines(fields[..k]);
      var e := (st.section, Lower(field.0), field.1);
      assert all == before + [e];
      DistinctMore(before, e);
      var r := ParseLines(AnyFile, st, FieldLines(fields[..k]));
      if r.Some? {
        OptionParses(r.value, field);
        HasExactly(r.value.values, before, e.0, e.1);
        if !HasPair(before, e.0, e.1) {
          RepresentsMore(r.value.values, before, e.0, e.1, e.2);
        }
      }
    }
  }

  /** Different section names, none of them reserved. */
  ghost predicate NamesDistinct(doc: Document) {
    && (forall i | 0 <= i < |doc| :: Lower(doc[i].0) != "default")
    && (forall i, j | 0 <= i < j < |doc| :: Lower(doc[i].0) != Lower(doc[j].0))
  }

  function Names(doc: Document): set<string> {
    if doc == [] then {} else Names(doc[..|doc| - 1]) + {Lower(doc[|doc| - 1].0)}
  }

  lemma {:induction false} NamesHas(doc: Document, name: string)
    ensures name in Names(doc) <==> exists i | 0 <= i < |doc| :: Lower(doc[i].0) == name
    decreases |doc|
  {
    if doc != [] {
      var k := |doc| - 1;
      NamesHas(doc[..k], name);
      assert forall i | 0 <= i < k :: doc[..k][i] == doc[i];
      if name == Lower(doc[k].0) {
        assert Lower(doc[k].0) == name;
      } else if name in Names(doc[..k]) {
        var i :| 0 <= i < k && Lower(doc[..k][i].0) == name;
        assert Lower(doc[i].0) == name;
      }
    }
  }

  lemma NamesMore(doc: Document)
    requires doc != []
    ensures var before, name := doc[..|doc| - 1], Lower(doc[|doc| - 1].0);
            NamesDistinct(doc) <==> NamesDistinct(before) && name != "default" && name !in Names(before)
  {
    var k := |doc| - 1;
    var before, name := doc[..k], Lower(doc[k].0);
    NamesHas(before, name);
    assert forall i | 0 <= i < k :: before[i] == doc[i];
  }

  lemma SectionParses(st: State, section: (string, Fields), entries: seq<Entry>)
    requires PlainSection(section) && Represents(st.values, entries) && Distinct(entries)
    ensures var r, name := ParseLines(AnyFile, st, SectionLines(section)), Lower(section.0);
            var all := entries + FieldEntries(name, section.1);
            && (r.Some? <==> name != "default" && name !in st.sections && Distinct(all))
            && (r.Some? ==> Represents(r.value.values, all) && r.value.sections == st.sections + {name})
  {
    var head, body := [Header(section.0)], FieldLines(section.1);
    HeaderParses(st, section.0);
    IdentifierFacts(section.0);
    assert head[..0] == [];
    assert ParseLines(AnyFile, st, head) == Opened(st, Lower(section.0));
    ParseAppend(AnyFile, st, head, body);
    assert (head + body + [""])[..|head + body|] == head + body;
    var begun := Opened(st, Lower(section.0));
    if begun.Some? {
      FieldsParse(begun.value, section.1, entries);
      var r := ParseLines(AnyFile, begun.value, body);
      if r.Some? {
        BlankParses(r.value);
      }
    }
  }

  lemma {:induction false} DocumentParses(doc: Document)
    requires Plain(doc)
    ensures var r := ParseLines(AnyFile, Initial, DocumentLines(doc));
            && (r.Some? <==> NamesDistinct(doc) && Distinct(Entries(doc)))
            && (r.Some? ==> Represents(r.value.values, Entries(doc)) && r.value.sections == Names(doc))
    decreases |doc|
  {
    if doc != [] {
      var k := |doc| - 1;
      var before, section := doc[..k], doc[k];
      DocumentParses(before);
      NamesMore(doc);
      ParseAppend(AnyFile, Initial, DocumentLines(before), SectionLines(section));
      if Distinct(Entries(doc)) {
        DistinctGrows(Entries(before), FieldEntries(Lower(section.0), section.1));
      }
      var r := ParseLines(AnyFile, Initial, DocumentLines(before));
      if r.Some? {
        SectionParses(r.value, section, Entries(before));
      }
    }
  }

  predicate AllLines(lines: seq<string>) {
    forall i | 0 <= i < |lines| :: IsLine(lines[i])
  }

  lemma {:induction false} FieldsAreLines(fields: Fields)
    requires PlainFields(fields)
    ensures AllLines(FieldLines(fields))
    decreases |fields|
  {
    if fields != [] {
      FieldsAreLines(fields[..|fields| - 1]);
      OptionIsLine(fields[|fields| - 1]);
    }
  }

  lemma {:induction false} DocumentIsLines(doc: Document)
    requires Plain(doc)
    ensures AllLines(DocumentLines(doc))
    decreases |doc|
  {
    if doc != [] {
      var section := doc[|doc| - 1];
      DocumentIsLines(doc[..|doc| - 1]);
      FieldsAreLines(section.1);
      HeaderParses(Initial, section.0);
      assert AllLines(SectionLines(section));
    }
  }

  /** Rendering succeeds exactly when names are identifiers, values fit on a line, the text fits the limit and no two
      names are equal but for case; and then parsing it gives exactly the document's entries, none merged, with
      lower-cased names and without empty sections. */
  lemma IniRoundTrip(doc: Document)
    ensures Rendered(doc).Some? <==>
              && Plain(doc) && Fits(Source(doc))
              && NamesDistinct(doc) && Distinct(Entries(doc))
    ensures Rendered(doc).Some? ==>
              && Parsed(AnyFile, Rendered(doc).value).Some?
              && Represents(Parsed(AnyFile, Rendered(doc).value).value, Entries(doc))
  {
    if Plain(doc) {
      DocumentIsLines(doc);
      LinesOfUnlines(DocumentLines(doc));
      DocumentParses(doc);
    }
  }
}
