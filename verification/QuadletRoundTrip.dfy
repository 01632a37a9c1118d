/** Loading a rendered unit gives the unit back. */
module QuadletRoundTrip {
  import opened Options
  import opened Text
  import opened Sections
  import opened Quadlet
  import opened QuadletValues

  // ----- Directives are told apart by their keys

  /** The length of the key and its first two letters determine the directive. */
  function Recognized(length: nat, first: char, second: char): Directive {
    if length == 4 then (if first == 'P' then Pull else Exec)
    else if length == 5 then Image
    else if length == 6 then (if first == 'V' then Volume else UserNS)
    else if length == 7 then (if second == 'u' then RunInit else Restart)
    else if length == 8 then (if first == 'T' then Timezone else WantedBy)
    else if length == 10 then (if first == 'A' then AutoUpdate else RestartSec)
    else if length == 11 then
      (if first == 'D' then Description else if first == 'S' then StopTimeout else if first == 'P' then PublishPort
       else Environment)
    else if length == 14 then TimeoutStopSec
    else if length == 15 then TimeoutStartSec
    else if length == 17 then SuccessExitStatus
    else RestartForceExitStatus
  }

  lemma KeyRecognized(d: Directive)
    ensures |Key(d)| >= 2 && Recognized(|Key(d)|, Key(d)[0], Key(d)[1]) == d
  {}

  lemma NamesDiffer(a: Directive, b: Directive)
    ensures Name(a) == Name(b) <==> a == b
  {
    KeyRecognized(a);
    KeyRecognized(b);
  }

  lemma KeyIsName(d: Directive)
    ensures Identifier(Key(d)) && Identifier(Section(d))
  {
    SectionIsName(d);
    if d.SuccessExitStatus? || d.RestartForceExitStatus? {
      ExitKeyIsName(d);
    } else if d.TimeoutStartSec? || d.TimeoutStopSec? || d.RestartSec? || d.Restart? || d.WantedBy? {
      ServiceKeyIsName(d);
    } else if d.StopTimeout? || d.AutoUpdate? || d.Volume? || d.UserNS? || d.PublishPort? || d.Environment? {
      ContainerKeyIsName(d);
    } else {
      FirstKeyIsName(d);
    }
  }

  lemma SectionIsName(d: Directive)
    ensures Identifier(Section(d))
  {}

  lemma ExitKeyIsName(d: Directive)
    requires d.SuccessExitStatus? || d.RestartForceExitStatus?
    ensures Identifier(Key(d))
  {}

  lemma ServiceKeyIsName(d: Directive)
    requires d.TimeoutStartSec? || d.TimeoutStopSec? || d.RestartSec? || d.Restart? || d.WantedBy?
    ensures Identifier(Key(d))
  {}

  lemma ContainerKeyIsName(d: Directive)
    requires d.StopTimeout? || d.AutoUpdate? || d.Volume? || d.UserNS? || d.PublishPort? || d.Environment?
    ensures Identifier(Key(d))
  {}

  lemma FirstKeyIsName(d: Directive)
    requires d.Description? || d.Image? || d.Pull? || d.RunInit? || d.Timezone? || d.Exec?
    ensures Identifier(Key(d))
  {}

  // ----- The fields of the rendered text

  ghost predicate PlainUnit(u: Unit, c: Codec) {
    forall d :: PlainValues(Values(u, c, d))
  }

  function Extended(f: Fields, u: Unit, c: Codec, ds: seq<Directive>): Fields
    decreases |ds|
  {
    if ds == [] then f else Extended(PushAll(f, Name(ds[0]), Values(u, c, ds[0])), u, c, ds[1..])
  }

  lemma {:induction false} RowsParse(st: State, u: Unit, c: Codec, ds: seq<Directive>)
    requires PlainUnit(u, c) && forall i | 0 <= i < |ds| :: Section(ds[i]) == st.section
    ensures ParseLines(st, Rows(u, c, ds)) == Some(st.(fields := Extended(st.fields, u, c, ds)))
    decreases |ds|
  {
    if ds != [] {
      var row := RowLines(Key(ds[0]), Values(u, c, ds[0]));
      KeyIsName(ds[0]);
      RowParses(st, Key(ds[0]), Values(u, c, ds[0]));
      ParseAppend(st, row, Rows(u, c, ds[1..]));
      RowsParse(st.(fields := PushAll(st.fields, Name(ds[0]), Values(u, c, ds[0]))), u, c, ds[1..]);
    }
  }

  lemma BlockParses(st: State, u: Unit, c: Codec, section: string, ds: seq<Directive>)
    requires PlainUnit(u, c) && InSection(ds, section)
    ensures ParseLines(st, Block(u, c, section, ds)) == Some(State(Extended(st.fields, u, c, ds), section))
  {
    HeaderParses(st, section);
    ParseOne(st, Header(section));
    ParseAppend(st, [Header(section)], Rows(u, c, ds));
    RowsParse(State(st.fields, section), u, c, ds);
  }

  lemma SkipThen(st: State, line: string, lines: seq<string>)
    requires line == [] || (line[0] == '#' && Trimmed(line))
    ensures ParseLines(st, [line] + lines) == ParseLines(st, lines)
  {
    SkippedParses(st, line);
    assert ([line] + lines)[1..] == lines;
  }

  lemma {:induction false} ExtendedAppend(f: Fields, u: Unit, c: Codec, a: seq<Directive>, b: seq<Directive>)
    ensures Extended(f, u, c, a + b) == Extended(Extended(f, u, c, a), u, c, b)
    decreases |a|
  {
    if a == [] {
      assert a + b == b;
    } else {
      assert (a + b)[1..] == a[1..] + b;
      ExtendedAppend(PushAll(f, Name(a[0]), Values(u, c, a[0])), u, c, a[1..], b);
    }
  }

  ghost predicate NoneTwice(ds: seq<Directive>) {
    forall i, j | 0 <= i < j < |ds| :: ds[i] != ds[j]
  }

  lemma {:induction false} ExtendedLookup(f: Fields, u: Unit, c: Codec, ds: seq<Directive>, d: Directive)
    requires NoneTwice(ds)
    ensures Lookup(Extended(f, u, c, ds), Name(d)) == Lookup(f, Name(d)) + (if d in ds then Values(u, c, d) else [])
    decreases |ds|
  {
    if ds != [] {
      var next := PushAll(f, Name(ds[0]), Values(u, c, ds[0]));
      NamesDiffer(d, ds[0]);
      ExtendedLookup(next, u, c, ds[1..], d);
      assert ds == [ds[0]] + ds[1..];
      assert d in ds <==> d == ds[0] || d in ds[1..];
      if d == ds[0] {
        assert d !in ds[1..];
      }
    }
  }

  function Order(l: Layout): seq<Directive> {
    l.unit + l.container + l.service + l.install
  }

  ghost predicate InSection(ds: seq<Directive>, section: string) {
    Identifier(section) && forall i | 0 <= i < |ds| :: Section(ds[i]) == section
  }

  /** Every directive stands once, in its section. */
  ghost predicate LayoutOk(l: Layout) {
    && InSection(l.unit, "Unit") && InSection(l.container, "Container") && InSection(l.service, "Service")
    && InSection(l.install, "Install") && l.install == [WantedBy]
    && NoneTwice(Order(l)) && forall d :: d in Order(l)
  }

  function Rank(d: Directive): nat {
    match d
    case Description => 0
    case Image => 1
    case Pull => 2
    case RunInit => 3
    case Timezone => 4
    case Exec => 5
    case StopTimeout => 6
    case AutoUpdate => 7
    case Volume => 8
    case UserNS => 9
    case PublishPort => 10
    case Environment => 11
    case Restart => 12
    case RestartSec => 13
    case SuccessExitStatus => 14
    case RestartForceExitStatus => 15
    case TimeoutStartSec => 16
    case TimeoutStopSec => 17
    case WantedBy => 18
  }

  lemma ManagedOrder(order: seq<Directive>)
    requires order == Order(ManagedLayout)
    ensures NoneTwice(order) && forall d :: d in order
  {
    assert |order| == 19;
    assert forall i | 0 <= i < 19 :: Rank(order[i]) == i;
    forall d ensures d in order {
      assert order[Rank(d)] == d;
    }
  }

  lemma ManagedContainer(ds: seq<Directive>)
    requires ds == ManagedLayout.container
    ensures forall i | 0 <= i < |ds| :: Section(ds[i]) == "Container"
  {
    assert forall i | 0 <= i < |ds| :: Rank(ds[i]) == i + 1;
    assert forall d | 1 <= Rank(d) <= 11 :: Section(d) == "Container";
  }

  lemma ManagedService(ds: seq<Directive>)
    requires ds == ManagedLayout.service
    ensures forall i | 0 <= i < |ds| :: Section(ds[i]) == "Service"
  {
    assert forall i | 0 <= i < |ds| :: InService(ds[i]);
  }

  lemma ManagedLayoutOk()
    ensures LayoutOk(ManagedLayout)
  {
    SectionIsName(Description);
    SectionIsName(Image);
    SectionIsName(Restart);
    SectionIsName(WantedBy);
    ManagedContainer(ManagedLayout.container);
    ManagedService(ManagedLayout.service);
    ManagedOrder(Order(ManagedLayout));
  }

  function Rendered(u: Unit, c: Codec, l: Layout): Fields {
    Extended(map[], u, c, Order(l))
  }

  /** The fields of a rendered unit are its directives' values. */
  lemma RenderedLookup(u: Unit, c: Codec, l: Layout, d: Directive)
    requires LayoutOk(l)
    ensures Lookup(Rendered(u, c, l), Name(d)) == Values(u, c, d)
  {
    ExtendedLookup(map[], u, c, Order(l), d);
    assert [] + Values(u, c, d) == Values(u, c, d);
  }

  lemma OwnerFacts()
    ensures OWNER[0] == '#' && Trimmed(OWNER) && OWNER != []
  {
    assert |OWNER| == 42 && OWNER[41] == '1';
  }

  /** Parsing the rendered lines collects the directives in their order. */
  lemma UnitParses(u: Unit, c: Codec, l: Layout)
    requires PlainUnit(u, c) && LayoutOk(l)
    ensures var r := ParseLines(State(map[], []), UnitLines(u, c, l));
            r.Some? && r.value.fields == Rendered(u, c, l)
  {
    OwnerFacts();
    OwnedParses(OWNER, u, c, l);
    Regrouped([OWNER], Block(u, c, "Unit", l.unit), Block(u, c, "Container", l.container),
              Block(u, c, "Service", l.service),
              if u.startOnBoot then [""] + Block(u, c, "Install", l.install) else []);
  }

  lemma Regrouped(a: seq<string>, b: seq<string>, c: seq<string>, d: seq<string>, e: seq<string>)
    ensures a + b + [""] + c + [""] + d + e == a + b + (([""] + c) + (([""] + d) + e))
  {}

  lemma OwnedParses(owner: string, u: Unit, c: Codec, l: Layout)
    requires PlainUnit(u, c) && LayoutOk(l) && owner != [] && owner[0] == '#' && Trimmed(owner)
    ensures var r := ParseLines(State(map[], []), [owner] + Block(u, c, "Unit", l.unit) + Rest(u, c, l));
            r.Some? && r.value.fields == Rendered(u, c, l)
  {
    var start, first := State(map[], []), Block(u, c, "Unit", l.unit);
    SkipThen(start, owner, first);
    BlockParses(start, u, c, "Unit", l.unit);
    ParseAppend(start, [owner] + first, Rest(u, c, l));
    RestParses(State(Extended(map[], u, c, l.unit), "Unit"), u, c, l);
    OrderSplits(u, c, l);
  }

  function Rest(u: Unit, c: Codec, l: Layout): seq<string> {
    ([""] + Block(u, c, "Container", l.container))
    + (([""] + Block(u, c, "Service", l.service))
       + (if u.startOnBoot then [""] + Block(u, c, "Install", l.install) else []))
  }

  lemma SpacedBlock(st: State, u: Unit, c: Codec, section: string, ds: seq<Directive>)
    requires PlainUnit(u, c) && InSection(ds, section)
    ensures ParseLines(st, [""] + Block(u, c, section, ds)) == Some(State(Extended(st.fields, u, c, ds), section))
  {
    SkipThen(st, "", Block(u, c, section, ds));
    BlockParses(st, u, c, section, ds);
  }

  function Tail(f: Fields, u: Unit, c: Codec, l: Layout): Fields {
    var g := Extended(Extended(f, u, c, l.container), u, c, l.service);
    if u.startOnBoot then Extended(g, u, c, l.install) else g
  }

  lemma RestParses(st: State, u: Unit, c: Codec, l: Layout)
    requires PlainUnit(u, c) && LayoutOk(l)
    ensures var r := ParseLines(st, Rest(u, c, l)); r.Some? && r.value.fields == Tail(st.fields, u, c, l)
  {
    var container, service := [""] + Block(u, c, "Container", l.container), [""] + Block(u, c, "Service", l.service);
    var install := if u.startOnBoot then [""] + Block(u, c, "Install", l.install) else [];
    ParseAppend(st, container, service + install);
    SpacedBlock(st, u, c, "Container", l.container);
    var st2 := State(Extended(st.fields, u, c, l.container), "Container");
    ParseAppend(st2, service, install);
    SpacedBlock(st2, u, c, "Service", l.service);
    if u.startOnBoot {
      SpacedBlock(State(Extended(st2.fields, u, c, l.service), "Service"), u, c, "Install", l.install);
    }
  }

  /** An install part without values adds nothing. */
  lemma OrderSplits(u: Unit, c: Codec, l: Layout)
    requires l.install == [WantedBy]
    ensures Rendered(u, c, l) == Tail(Extended(map[], u, c, l.unit), u, c, l)
  {
    ExtendedAppend(map[], u, c, l.unit, l.container);
    ExtendedAppend(map[], u, c, l.unit + l.container, l.service);
    var f := Extended(map[], u, c, l.unit + l.container + l.service);
    ExtendedAppend(map[], u, c, l.unit + l.container + l.service, l.install);
    NoInstall(f, u, c, l.install);
  }

  lemma NoInstall(f: Fields, u: Unit, c: Codec, ds: seq<Directive>)
    requires ds == [WantedBy]
    ensures !u.startOnBoot ==> Extended(f, u, c, ds) == f
  {
    assert ds[1..] == [];
  }

  // ----- The rendered text is made of its lines

  ghost predicate AllLines(lines: seq<string>) {
    forall i | 0 <= i < |lines| :: IsLine(lines[i])
  }

  lemma {:induction false} RowsAreLines(u: Unit, c: Codec, ds: seq<Directive>)
    requires PlainUnit(u, c)
    ensures AllLines(Rows(u, c, ds))
    decreases |ds|
  {
    if ds != [] {
      KeyIsName(ds[0]);
      RowIsLines(Key(ds[0]), Values(u, c, ds[0]));
      RowsAreLines(u, c, ds[1..]);
    }
  }

  lemma BlockIsLines(u: Unit, c: Codec, section: string, ds: seq<Directive>)
    requires PlainUnit(u, c) && Identifier(section)
    ensures AllLines(Block(u, c, section, ds))
  {
    HeaderParses(State(map[], []), section);
    RowsAreLines(u, c, ds);
  }

  lemma OwnerIsLine()
    ensures IsLine(OWNER)
  {}

  lemma UnitIsLines(u: Unit, c: Codec, l: Layout)
    requires PlainUnit(u, c) && LayoutOk(l)
    ensures AllLines(UnitLines(u, c, l)) && UnitLines(u, c, l)[0] == OWNER
  {
    OwnerIsLine();
    BlockIsLines(u, c, "Unit", l.unit);
    BlockIsLines(u, c, "Container", l.container);
    BlockIsLines(u, c, "Service", l.service);
    BlockIsLines(u, c, "Install", l.install);
    FiveLines([OWNER], Block(u, c, "Unit", l.unit), Block(u, c, "Container", l.container),
              Block(u, c, "Service", l.service),
              if u.startOnBoot then [""] + Block(u, c, "Install", l.install) else []);
  }

  lemma FiveLines(a: seq<string>, b: seq<string>, c: seq<string>, d: seq<string>, e: seq<string>)
    requires AllLines(a) && AllLines(b) && AllLines(c) && AllLines(d) && AllLines(e)
    ensures AllLines(a + b + [""] + c + [""] + d + e)
  {}

  /** The fields of the rendered text, and its first line. */
  lemma RenderParses(u: Unit, c: Codec, l: Layout)
    requires PlainUnit(u, c) && LayoutOk(l)
    ensures Parsed(Render(u, c, l)) == Some(Rendered(u, c, l))
    ensures Lines(Render(u, c, l)) != [] && Lines(Render(u, c, l))[0] == OWNER
  {
    UnitIsLines(u, c, l);
    LinesOfUnlines(UnitLines(u, c, l));
    UnitParses(u, c, l);
  }

  lemma LayoutRoundTrip(u: Unit, c: Codec, l: Layout)
    requires Valid(u) && Lossless(c) && LayoutOk(l)
    ensures Load(Render(u, c, l), u.name, c, l) == Some(u)
  {
    forall d ensures PlainValues(Values(u, c, d)) {
      ValuesPlain(u, c, d);
    }
    RenderParses(u, c, l);
    forall d ensures Lookup(Rendered(u, c, l), Name(d)) == Values(u, c, d) {
      RenderedLookup(u, c, l, d);
    }
    UnitDescribed(Rendered(u, c, l), u, c);
  }

  /** Loading a rendered valid unit gives back that unit. */
  lemma UnitRoundTrip(u: Unit, c: Codec)
    requires Valid(u) && Lossless(c)
    ensures Load(Render(u, c, ManagedLayout), u.name, c, ManagedLayout) == Some(u)
  {
    ManagedLayoutOk();
    LayoutRoundTrip(u, c, ManagedLayout);
  }
}
