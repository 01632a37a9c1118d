/** Each directive of a rendered unit is carried by its lines and read back. */
module QuadletValues {
  import opened Options
  import opened Text
  import opened Numerals
  import opened Quoting
  import opened Sections
  import opened Quadlet
  import PA = PortAllocation

  // ----- Ports

  lemma DigitsFacts(n: nat)
    ensures Digits(n) != [] && forall i | 0 <= i < |Digits(n)| :: IsDigitChar(Digits(n)[i])
  {
    DigitsParse(n);
  }

  lemma U16Reads(n: nat)
    requires n < 65536
    ensures ParseU16(Digits(n)) == Some(n)
  {
    DigitsParse(n);
    assert IsDigitChar(Digits(n)[0]);
  }

  function Label(m: PA.Mapping): string {
    if m.protocol.Udp? then "udp" else "tcp"
  }

  /** Where the separators of a port mapping stand. */
  lemma PortSplits(a: string, b: string, protocol: string)
    requires forall i | 0 <= i < |a| :: IsDigitChar(a[i])
    requires forall i | 0 <= i < |b| :: IsDigitChar(b[i])
    ensures SplitPort(a + ":" + b + "/" + protocol) == Some(PortTexts(a, b, protocol))
  {
    var ports := a + [':'] + b;
    var s := a + ":" + b + "/" + protocol;
    assert s == ports + ['/'] + protocol;
    FindAfter(ports, '/', protocol, {'/'});
    assert s[..|ports|] == ports && s[|ports| + 1..] == protocol;
    FindAfter(a, ':', b, {':'});
    assert s[..|a|] == a && s[|a| + 1..|ports|] == b;
  }

  lemma PortReads(m: PA.Mapping)
    requires ValidPort(m)
    ensures ParsePort(PortText(m)) == Some(m) && PlainValue(PortText(m))
  {
    var a, b := Digits(m.host), Digits(m.container);
    DigitsFacts(m.host);
    DigitsFacts(m.container);
    PortSplits(a, b, Label(m));
    U16Reads(m.host);
    U16Reads(m.container);
    PortBack(m);
    PortPlain(a, b, Label(m));
  }

  lemma PortBack(m: PA.Mapping)
    requires ValidPort(m)
    ensures PortOf(Some(m.host), Some(m.container), Label(m)) == Some(m)
  {
    assert "tcp"[0] != "udp"[0];
  }

  lemma PortPlain(a: string, b: string, protocol: string)
    requires a != [] && forall i | 0 <= i < |a| :: IsDigitChar(a[i])
    requires forall i | 0 <= i < |b| :: IsDigitChar(b[i])
    requires protocol == "udp" || protocol == "tcp"
    ensures PlainValue(a + ":" + b + "/" + protocol)
  {
    var s := a + ":" + b + "/" + protocol;
    assert IsLine(protocol) && s[|s| - 1] == 'p' && s[0] == a[0];
  }

  lemma {:induction false} PortsRead(ports: seq<PA.Mapping>, texts: seq<string>)
    requires |texts| == |ports| && forall i | 0 <= i < |ports| :: ValidPort(ports[i]) && texts[i] == PortText(ports[i])
    ensures ParsePorts(texts) == Some(ports) && PlainValues(texts)
    decreases |ports|
  {
    if ports != [] {
      PortReads(ports[0]);
      PortsRead(ports[1..], texts[1..]);
      PortsMore(ports, texts);
    }
  }

  lemma PortsMore(ports: seq<PA.Mapping>, texts: seq<string>)
    requires |texts| == |ports| && ports != []
    requires ParsePort(texts[0]) == Some(ports[0]) && PlainValue(texts[0])
    requires ParsePorts(texts[1..]) == Some(ports[1..]) && PlainValues(texts[1..])
    ensures ParsePorts(texts) == Some(ports) && PlainValues(texts)
  {
    assert [ports[0]] + ports[1..] == ports;
    PlainFirst(texts);
  }

  lemma PlainFirst(texts: seq<string>)
    requires texts != [] && PlainValue(texts[0]) && PlainValues(texts[1..])
    ensures PlainValues(texts)
  {
    assert texts == [texts[0]] + texts[1..];
  }

  lemma PublishedRead(u: Unit, c: Codec)
    requires ValidPorts(u.ports)
    ensures ParsePorts(Values(u, c, PublishPort)) == Some(u.ports) && PlainValues(Values(u, c, PublishPort))
  {
    PortsRead(u.ports, Values(u, c, PublishPort));
  }

  // ----- Quoted values

  lemma {:induction false} QuoteTextLine(s: string)
    requires Literal(s)
    ensures IsLine(QuoteText(s))
    decreases |s|
  {
    if s != [] {
      QuoteTextLine(s[1..]);
    }
  }

  lemma QuotedPlain(s: string)
    requires Literal(s)
    ensures PlainValue(Quote(s)) && Unquoted(Quote(s)) == Some(s)
  {
    QuoteRoundTrip(s, Quote(s));
    QuoteIsText(s);
    QuoteTextLine(s);
    var q := Quote(s);
    assert q[0] == '\"' && q[|q| - 1] == '\"';
  }

  // ----- The environment

  lemma VariableReads(c: Codec, env: Variables, v: (string, string))
    requires VariableName(v.0) && Literal(v.1)
    ensures PlainValue(Assignment(v))
    ensures v.0 != MANAGED ==>
              AddVariable(c, env, Assignment(v))
              == if HasVariable(env.others, v.0) then None else Some(env.(others := env.others + [v]))
    ensures v.0 == MANAGED && c.read(v.1).Some? && env.published.None? ==>
              AddVariable(c, env, Assignment(v)) == Some(env.(published := c.read(v.1)))
  {
    var s := v.0 + "=" + v.1;
    VariableLiteral(v);
    QuotedPlain(s);
    assert s == v.0 + ['='] + v.1;
    FindAfter(v.0, '=', v.1, {'='});
    assert s[..|v.0|] == v.0 && s[|v.0| + 1..] == v.1;
  }

  lemma VariableLiteral(v: (string, string))
    requires VariableName(v.0) && Literal(v.1)
    ensures Literal(v.0 + "=" + v.1) && forall i | 0 <= i < |v.0| :: v.0[i] !in {'='}
  {
    assert forall i | 0 <= i < |v.0| :: IsWord(v.0[i]);
  }

  /** Before and after the managed variable. */
  function After(env: seq<(string, string)>, k: nat, n: nat, published: Ports): Variables
    requires k <= |env| && n <= |env| + 1
  {
    if n <= k then Variables(env[..n], None) else Variables(env[..n - 1], Some(published))
  }

  lemma {:induction false} VariablesRead(c: Codec, env: seq<(string, string)>, published: Ports, k: nat,
                                         all: seq<(string, string)>, n: nat)
    requires Lossless(c) && ValidEnvironment(env) && k <= |env| && n <= |env| + 1
    requires all == env[..k] + [(MANAGED, c.write(published))] + env[k..]
    ensures PlainValues(Assignments(all[..n]))
    ensures ParseVariables(c, Assignments(all[..n])) == Some(After(env, k, n, published))
    decreases n
  {
    if n == 0 {
      assert Assignments(all[..0]) == [];
    } else {
      VariablesRead(c, env, published, k, all, n - 1);
      NextVariable(c, env, published, k, all, n - 1);
      AssignmentsMore(c, all, n, After(env, k, n - 1, published), After(env, k, n, published));
    }
  }

  lemma AssignmentsMore(c: Codec, all: seq<(string, string)>, n: nat, before: Variables, after: Variables)
    requires 0 < n <= |all| && PlainValues(Assignments(all[..n - 1])) && PlainValue(Assignment(all[n - 1]))
    requires ParseVariables(c, Assignments(all[..n - 1])) == Some(before)
    requires AddVariable(c, before, Assignment(all[n - 1])) == Some(after)
    ensures PlainValues(Assignments(all[..n])) && ParseVariables(c, Assignments(all[..n])) == Some(after)
  {
    var vs := Assignments(all[..n]);
    assert vs[..n - 1] == Assignments(all[..n - 1]) && vs[n - 1] == Assignment(all[n - 1]);
    assert vs == vs[..n - 1] + [vs[n - 1]];
  }

  lemma NextVariable(c: Codec, env: seq<(string, string)>, published: Ports, k: nat, all: seq<(string, string)>, i: nat)
    requires Lossless(c) && ValidEnvironment(env) && k <= |env| && i <= |env|
    requires all == env[..k] + [(MANAGED, c.write(published))] + env[k..]
    ensures PlainValue(Assignment(all[i]))
    ensures AddVariable(c, After(env, k, i, published), Assignment(all[i])) == Some(After(env, k, i + 1, published))
  {
    ManagedIsName();
    if i == k {
      VariableReads(c, After(env, k, i, published), all[i]);
    } else {
      var j := if i < k then i else i - 1;
      assert all[i] == env[j];
      NewVariable(env, j);
      VariableReads(c, After(env, k, i, published), all[i]);
      assert env[..j + 1] == env[..j] + [env[j]];
    }
  }

  lemma AllVariables(c: Codec, env: seq<(string, string)>, published: Ports, k: nat, all: seq<(string, string)>)
    requires Lossless(c) && ValidEnvironment(env) && k <= |env|
    requires all == env[..k] + [(MANAGED, c.write(published))] + env[k..]
    ensures PlainValues(Assignments(all))
    ensures ParseVariables(c, Assignments(all)) == Some(Variables(env, Some(published)))
  {
    AllCounted(env, k, (MANAGED, c.write(published)), all);
    VariablesRead(c, env, published, k, all, |all|);
    AfterAll(env, k, published);
  }

  lemma AllCounted(env: seq<(string, string)>, k: nat, managed: (string, string), all: seq<(string, string)>)
    requires k <= |env| && all == env[..k] + [managed] + env[k..]
    ensures |all| == |env| + 1 && all[..|all|] == all
  {}

  lemma AfterAll(env: seq<(string, string)>, k: nat, published: Ports)
    requires k <= |env|
    ensures After(env, k, |env| + 1, published) == Variables(env, Some(published))
  {
    assert env[..|env|] == env;
  }

  lemma EnvironmentReads(u: Unit, c: Codec)
    requires Lossless(c) && ValidEnvironment(u.environment)
    ensures PlainValues(Assignments(Everything(u, c)))
    ensures ParseVariables(c, Assignments(Everything(u, c))) == Some(Variables(u.environment, Some(u.published)))
  {
    AllVariables(c, u.environment, u.published, Place(u.environment), Everything(u, c));
  }

  lemma NewVariable(env: seq<(string, string)>, i: nat)
    requires ValidEnvironment(env) && i < |env|
    ensures !HasVariable(env[..i], env[i].0) && ValidVariable(env[i])
  {}

  lemma ManagedIsName()
    ensures VariableName(MANAGED)
  {}

  // ----- The volumes

  lemma {:induction false} VolumeTextFacts(s: string)
    requires Literal(s) && s != []
    ensures IsLine(VolumeText(s)) && VolumeText(s) != [] && VolumeText(s)[0] == s[0]
    ensures VolumeText(s)[|VolumeText(s)| - 1] == s[|s| - 1]
    decreases |s|
  {
    if |s| > 1 {
      VolumeTextFacts(s[1..]);
    } else {
      assert s[1..] == [];
    }
  }

  lemma VolumePlain(s: string)
    requires Literal(s) && s != [] && s[0] == '/' && !IsWhitespace(s[|s| - 1]) && s[|s| - 1] != '\\'
    ensures PlainValue(VolumeEscape(s)) && Unvolumed(VolumeEscape(s)) == Some(s)
  {
    VolumeRoundTrip(s, VolumeEscape(s));
    VolumeIsText(s);
    VolumeTextFacts(s);
  }

  lemma {:induction false} FindTextAfter(a: string, p: string, b: string)
    requires p != [] && HasNo(a, p[0])
    ensures FindText(a + p + b, p) == Some(|a|)
    decreases |a|
  {
    var s := a + p + b;
    if a == [] {
      assert s[..|p|] == p;
    } else {
      assert s[..|p|][0] == a[0];
      assert s[1..] == a[1..] + p + b;
      FindTextAfter(a[1..], p, b);
    }
  }

  lemma SuffixFacts(u: Unit)
    requires Valid(u)
    ensures Literal(Suffix(u))
    ensures Suffix(u) != [] ==> !IsWhitespace(Suffix(u)[|Suffix(u)| - 1]) && Suffix(u)[|Suffix(u)| - 1] != '\\'
    ensures if u.idmap.None? then Suffix(u) == [] else ":idmap=" <= Suffix(u) && Suffix(u)[7..] == u.idmap.value
  {
    if u.idmap.Some? {
      IdmapFacts(u.idmap.value);
    }
  }

  lemma IdmapFacts(s: string)
    requires IdmapText(s)
    ensures Literal(s) && !IsWhitespace(s[|s| - 1]) && s[|s| - 1] != '\\'
  {}

  lemma VolumesRead(u: Unit, first: string, second: string)
    requires Valid(u)
    requires first == u.cluster + ":/cluster" + Suffix(u) && second == u.cluster + "/mods:/install/mods" + Suffix(u)
    ensures PlainValue(VolumeEscape(first)) && PlainValue(VolumeEscape(second))
    ensures ParseVolumes([VolumeEscape(first), VolumeEscape(second)]) == Some(Volumes(u.cluster, u.idmap))
  {
    SuffixFacts(u);
    MountFacts(u.cluster, ":/cluster", Suffix(u));
    MountFacts(u.cluster, "/mods:/install/mods", Suffix(u));
    VolumePlain(first);
    VolumePlain(second);
    ClusterSplits(u.cluster, Suffix(u));
    SplitReads(VolumeEscape(first), VolumeEscape(second), u.cluster, Suffix(u), u.idmap);
  }

  lemma ClusterSplits(cluster: string, suffix: string)
    requires HasNo(cluster, ':')
    ensures var s := cluster + ":/cluster" + suffix;
            && FindText(s, ":/cluster") == Some(|cluster|)
            && s[..|cluster|] == cluster && s[|cluster| + 9..] == suffix
  {
    FindTextAfter(cluster, ":/cluster", suffix);
  }

  lemma SplitReads(a: string, b: string, cluster: string, suffix: string, idmap: Option<string>)
    requires Unvolumed(a) == Some(cluster + ":/cluster" + suffix)
    requires Unvolumed(b) == Some(cluster + "/mods:/install/mods" + suffix)
    requires var s := cluster + ":/cluster" + suffix;
             && FindText(s, ":/cluster") == Some(|cluster|)
             && s[..|cluster|] == cluster && s[|cluster| + 9..] == suffix
    requires if idmap.None? then suffix == [] else ":idmap=" <= suffix && suffix[7..] == idmap.value
    ensures ParseVolumes([a, b]) == Some(Volumes(cluster, idmap))
  {}

  lemma MountFacts(cluster: string, mount: string, suffix: string)
    requires ValidCluster(cluster) && Literal(suffix) && (mount == ":/cluster" || mount == "/mods:/install/mods")
    requires suffix != [] ==> !IsWhitespace(suffix[|suffix| - 1]) && suffix[|suffix| - 1] != '\\'
    ensures var s := cluster + mount + suffix;
            Literal(s) && s != [] && s[0] == '/' && !IsWhitespace(s[|s| - 1]) && s[|s| - 1] != '\\'
  {
    assert Literal(mount);
    assert mount[|mount| - 1] == 'r' || mount[|mount| - 1] == 's';
  }

  // ----- The description

  predicate Clean(s: string) {
    forall i | 0 <= i < |s| :: !IsWhitespace(s[i]) && s[i] != '\n' && s[i] != '\r'
  }

  lemma {:induction false} ReplaceFacts(s: string, c: char, text: string)
    requires Clean(s) && Clean(text) && s != [] && text != [] && text[|text| - 1] == c
    ensures Clean(Replace(s, c, text)) && Replace(s, c, text) != []
    ensures Replace(s, c, text)[|Replace(s, c, text)| - 1] == s[|s| - 1]
    decreases |s|
  {
    if |s| > 1 {
      ReplaceFacts(s[1..], c, text);
    } else {
      assert s[1..] == [];
    }
  }

  lemma {:induction false} NameFacts(s: string)
    requires ValidRest(s)
    ensures Clean(s) && (s != [] ==> s[|s| - 1] != '\\')
    decreases |s|
  {
    if s != [] {
      var k := if s[0] == '\\' then 4 else 1;
      NameFacts(s[k..]);
      assert forall i | k <= i < |s| :: s[i] == s[k..][i - k];
    }
  }

  lemma EscapeClean(name: string)
    requires Clean(name) && name != []
    ensures Clean(Escape(name)) && Escape(name) != [] && Escape(name)[|Escape(name)| - 1] == name[|name| - 1]
  {
    var once := Replace(name, '\\', "\\\\");
    ReplaceFacts(name, '\\', "\\\\");
    ReplaceFacts(once, '%', "%%");
    ReplaceFacts(Replace(once, '%', "%%"), '$', "$$");
  }

  lemma TitleFacts(title: string)
    requires title == "Don't Starve Together "
    ensures IsLine(title) && title != [] && title[0] == 'D'
  {}

  lemma NamePlain(name: string, title: string)
    requires Clean(name) && name != [] && name[|name| - 1] != '\\'
    requires IsLine(title) && title != [] && title[0] == 'D'
    ensures PlainValue(title + Escape(name))
  {
    EscapeClean(name);
    CleanEnd(title, Escape(name));
  }

  lemma DescriptionPlain(name: string, title: string)
    requires ValidName(name) && title == "Don't Starve Together "
    ensures PlainValue(title + Escape(name))
  {
    NameFacts(name);
    TitleFacts(title);
    NamePlain(name, title);
  }

  lemma CleanEnd(title: string, s: string)
    requires IsLine(title) && title != [] && title[0] == 'D' && Clean(s) && s != [] && s[|s| - 1] != '\\'
    ensures PlainValue(title + s)
  {
    var v := title + s;
    assert v[0] == 'D' && v[|v| - 1] == s[|s| - 1];
    assert forall i | 0 <= i < |v| :: v[i] != '\n' && v[i] != '\r';
  }

  // ----- All directives

  lemma FixedPlain(d: Directive)
    ensures Fixed(d).Some? ==> PlainValue(Fixed(d).value)
  {
    if d.Exec? {
      ExecPlain();
    }
  }

  lemma ExecPlain()
    ensures PlainValue("/usr/local/bin/dst-server" + " agent --cluster /cluster")
  {
    LinesJoin("/usr/local/bin/dst-server", " agent --cluster /cluster");
  }

  lemma LinesJoin(a: string, b: string)
    requires a != [] && b != [] && IsLine(a) && IsLine(b)
    requires !IsWhitespace(a[0]) && !IsWhitespace(b[|b| - 1]) && b[|b| - 1] != '\\'
    ensures PlainValue(a + b)
  {
    var s := a + b;
    assert s[0] == a[0] && s[|s| - 1] == b[|b| - 1];
  }

  lemma OtherPlain()
    ensures PlainValue("registry") && PlainValue("default.target")
  {}

  /** What a valid unit's lines carry. */
  lemma ValuesPlain(u: Unit, c: Codec, d: Directive)
    requires Valid(u) && Lossless(c)
    ensures PlainValues(Values(u, c, d))
  {
    if Fixed(d).Some? || d.AutoUpdate? || d.WantedBy? {
      FixedShort(u, c, d);
    } else {
      FreeShort(u, c, d);
    }
  }

  lemma FreeShort(u: Unit, c: Codec, d: Directive)
    requires Valid(u) && Lossless(c) && Fixed(d).None? && !d.AutoUpdate? && !d.WantedBy?
    ensures PlainValues(Values(u, c, d))
  {
    match d
    case PublishPort => PublishedShort(u, c);
    case Environment => EnvironmentShort(u, c);
    case Description => DescriptionShort(u, c);
    case Volume => VolumesShort(u, c);
    case Image => ImageShort(u, c);
    case UserNS => UsernsShort(u, c);
  }

  lemma PublishedShort(u: Unit, c: Codec)
    requires Valid(u) && Lossless(c)
    ensures PlainValues(Values(u, c, PublishPort))
  {
    PublishedRead(u, c);
  }

  lemma EnvironmentShort(u: Unit, c: Codec)
    requires ValidEnvironment(u.environment) && Lossless(c)
    ensures PlainValues(Values(u, c, Environment))
  {
    assert PlainValues(Assignments(Everything(u, c))) by {
      EnvironmentReads(u, c);
    }
    assert Values(u, c, Environment) == Assignments(Everything(u, c));
  }

  lemma ImageShort(u: Unit, c: Codec)
    requires Literal(u.image)
    ensures PlainValues(Values(u, c, Image))
  {
    QuotedShort(u.image);
  }

  lemma DescriptionShort(u: Unit, c: Codec)
    requires ValidName(u.name)
    ensures PlainValues(Values(u, c, Description))
  {
    DescriptionPlain(u.name, "Don't Starve Together ");
    OnePlain("Don't Starve Together " + Escape(u.name));
  }

  lemma UsernsShort(u: Unit, c: Codec)
    requires u.userns.Some? ==> Literal(u.userns.value)
    ensures PlainValues(Values(u, c, UserNS))
  {
    if u.userns.Some? {
      QuotedShort(u.userns.value);
    }
  }

  lemma VolumesShort(u: Unit, c: Codec)
    requires Valid(u)
    ensures PlainValues(Values(u, c, Volume))
  {
    VolumesRead(u, u.cluster + ":/cluster" + Suffix(u), u.cluster + "/mods:/install/mods" + Suffix(u));
  }

  lemma OnePlain(v: string)
    requires PlainValue(v)
    ensures PlainValues([v])
  {}

  lemma QuotedShort(s: string)
    requires Literal(s)
    ensures PlainValues([Quote(s)])
  {
    QuotedPlain(s);
    OnePlain(Quote(s));
  }

  lemma FixedShort(u: Unit, c: Codec, d: Directive)
    requires Fixed(d).Some? || d.AutoUpdate? || d.WantedBy?
    ensures PlainValues(Values(u, c, d))
  {
    if Fixed(d).Some? {
      FixedPlain(d);
      OnePlain(Fixed(d).value);
    } else {
      OtherPlain();
      OnePlain("registry");
      OnePlain("default.target");
    }
  }

  // ----- The unit that the fields describe

  /** The fields hold each directive's values. */
  ghost predicate Holds(f: Fields, u: Unit, c: Codec) {
    forall d :: Lookup(f, Name(d)) == Values(u, c, d)
  }

  lemma GetFixed(f: Fields, u: Unit, c: Codec, d: Directive)
    requires Holds(f, u, c) && Fixed(d).Some?
    ensures Get(f, d) == Fixed(d)
  {
    assert Lookup(f, Name(d)) == Values(u, c, d) == [Fixed(d).value];
  }

  lemma AllFixed(f: Fields, u: Unit, c: Codec)
    requires Holds(f, u, c)
    ensures FixedOk(f)
  {
    GetFixed(f, u, c, Pull);
    GetFixed(f, u, c, RunInit);
    GetFixed(f, u, c, Timezone);
    GetFixed(f, u, c, Exec);
    GetFixed(f, u, c, StopTimeout);
    GetFixed(f, u, c, Restart);
    GetFixed(f, u, c, RestartSec);
    GetFixed(f, u, c, SuccessExitStatus);
    GetFixed(f, u, c, RestartForceExitStatus);
    GetFixed(f, u, c, TimeoutStartSec);
    GetFixed(f, u, c, TimeoutStopSec);
  }

  lemma GetImage(f: Fields, u: Unit, c: Codec)
    requires Holds(f, u, c) && Valid(u)
    ensures Get(f, Image).Some? && Unquoted(Get(f, Image).value) == Some(u.image)
  {
    assert Lookup(f, Name(Image)) == Values(u, c, Image) == [Quote(u.image)];
    QuotedPlain(u.image);
  }

  lemma HeldValues(f: Fields, u: Unit, c: Codec, d: Directive)
    requires Holds(f, u, c)
    ensures Lookup(f, Name(d)) == Values(u, c, d)
  {}

  lemma GetBoot(f: Fields, u: Unit, c: Codec)
    requires Holds(f, u, c)
    ensures Optional(f, WantedBy) == Some(if u.startOnBoot then Some("default.target") else None)
  {
    HeldValues(f, u, c, WantedBy);
  }

  lemma GetUserNS(f: Fields, u: Unit, c: Codec)
    requires Holds(f, u, c) && Valid(u)
    ensures ParseUserNS(f) == Some(u.userns)
  {
    HeldValues(f, u, c, UserNS);
    if u.userns.Some? {
      QuotedPlain(u.userns.value);
      assert Get(f, UserNS) == Some(Quote(u.userns.value));
    }
  }

  lemma GetVolumes(f: Fields, u: Unit, c: Codec)
    requires Holds(f, u, c) && Valid(u)
    ensures ParseVolumes(Lookup(f, Name(Volume))) == Some(Volumes(u.cluster, u.idmap))
  {
    HeldValues(f, u, c, Volume);
    VolumesRead(u, u.cluster + ":/cluster" + Suffix(u), u.cluster + "/mods:/install/mods" + Suffix(u));
  }

  lemma GetPorts(f: Fields, u: Unit, c: Codec)
    requires Holds(f, u, c) && Valid(u)
    ensures ParsePorts(Lookup(f, Name(PublishPort))) == Some(u.ports)
  {
    HeldValues(f, u, c, PublishPort);
    PublishedRead(u, c);
  }

  lemma GetEnvironment(vs: seq<string>, u: Unit, c: Codec)
    requires vs == Assignments(Everything(u, c)) && ValidEnvironment(u.environment) && Lossless(c)
    ensures ParseVariables(c, vs) == Some(Variables(u.environment, Some(u.published)))
  {
    EnvironmentReads(u, c);
  }

  ghost predicate SinglesRead(f: Fields, u: Unit) {
    && FixedOk(f) && Get(f, Image).Some? && Unquoted(Get(f, Image).value) == Some(u.image)
    && Optional(f, WantedBy) == Some(if u.startOnBoot then Some("default.target") else None)
    && ParseUserNS(f) == Some(u.userns)
  }

  ghost predicate ListsRead(f: Fields, u: Unit, c: Codec) {
    && ParseVolumes(Lookup(f, Name(Volume))) == Some(Volumes(u.cluster, u.idmap))
    && ParsePorts(Lookup(f, Name(PublishPort))) == Some(u.ports)
    && ParseVariables(c, Lookup(f, Name(Environment))) == Some(Variables(u.environment, Some(u.published)))
  }

  lemma ReadSingles(f: Fields, u: Unit, c: Codec)
    requires Holds(f, u, c) && Valid(u)
    ensures SinglesRead(f, u)
  {
    AllFixed(f, u, c);
    GetImage(f, u, c);
    GetBoot(f, u, c);
    GetUserNS(f, u, c);
  }

  lemma EnvironmentHeld(f: Fields, u: Unit, c: Codec)
    requires Holds(f, u, c)
    ensures Lookup(f, Name(Environment)) == Assignments(Everything(u, c))
  {
    HeldValues(f, u, c, Environment);
  }

  lemma ReadLists(f: Fields, u: Unit, c: Codec, env: seq<string>)
    requires ParseVolumes(Lookup(f, Name(Volume))) == Some(Volumes(u.cluster, u.idmap))
    requires ParsePorts(Lookup(f, Name(PublishPort))) == Some(u.ports)
    requires env == Lookup(f, Name(Environment))
    requires ParseVariables(c, env) == Some(Variables(u.environment, Some(u.published)))
    ensures ListsRead(f, u, c)
  {}

  lemma Gathered(f: Fields, u: Unit, c: Codec)
    requires SinglesRead(f, u) && ListsRead(f, u, c)
    ensures Described(f, u.name, c) == Some(u)
  {}

  lemma UnitDescribed(f: Fields, u: Unit, c: Codec)
    requires Holds(f, u, c) && Valid(u) && Lossless(c)
    ensures Described(f, u.name, c) == Some(u)
  {
    ReadSingles(f, u, c);
    GetVolumes(f, u, c);
    GetPorts(f, u, c);
    EnvironmentHeld(f, u, c);
    GetEnvironment(Assignments(Everything(u, c)), u, c);
    ReadLists(f, u, c, Assignments(Everything(u, c)));
    Gathered(f, u, c);
  }
}
