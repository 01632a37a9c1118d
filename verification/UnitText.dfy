/** The text of a rendered unit, line by line, and exactly which files load. */
module UnitText {
  import opened Options
  import opened Text
  import opened Numerals
  import opened Quoting
  import opened Sections
  import opened Quadlet
  import opened QuadletRoundTrip
  import PA = PortAllocation

  // ----- The lines of each directive

  function IdmapSuffix(u: Unit): string {
    if u.idmap.None? then [] else ":idmap=" + u.idmap.value
  }

  function PortLines(ports: seq<PA.Mapping>): seq<string> {
    seq(|ports|, i requires 0 <= i < |ports| =>
      "PublishPort=" + (Digits(ports[i].host) + ":" + Digits(ports[i].container) + "/"
                        + (if ports[i].protocol.Udp? then "udp" else "tcp")))
  }

  function VariableLines(vs: seq<(string, string)>): seq<string> {
    seq(|vs|, i requires 0 <= i < |vs| => "Environment=" + Quote(vs[i].0 + "=" + vs[i].1))
  }

  function LinesOf(u: Unit, c: Codec, d: Directive): seq<string> {
    match d
    case Description => ["Description=" + ("Don't Starve Together " + Escape(u.name))]
    case Image => ["Image=" + Quote(u.image)]
    case Pull => ["Pull=" + "never"]
    case RunInit => ["RunInit=" + "true"]
    case Timezone => ["Timezone=" + "local"]
    case Exec => ["Exec=" + ("/usr/local/bin/dst-server" + " agent --cluster /cluster")]
    case StopTimeout => ["StopTimeout=" + "360"]
    case AutoUpdate =>
      if u.image == "quay.io/wh2099/dst-server:latest" || u.image == "quay.io/wh2099/dst-server:beta"
      then ["AutoUpdate=" + "registry"] else []
    case Volume =>
      ["Volume=" + VolumeEscape(u.cluster + ":/cluster" + IdmapSuffix(u)),
       "Volume=" + VolumeEscape(u.cluster + "/mods:/install/mods" + IdmapSuffix(u))]
    case UserNS => if u.userns.Some? then ["UserNS=" + Quote(u.userns.value)] else []
    case PublishPort => PortLines(u.ports)
    case Environment => VariableLines(Everything(u, c))
    case Restart => ["Restart=" + "on-failure"]
    case RestartSec => ["RestartSec=" + "5"]
    case SuccessExitStatus => ["SuccessExitStatus=" + "8"]
    case RestartForceExitStatus => ["RestartForceExitStatus=" + "8"]
    case TimeoutStartSec => ["TimeoutStartSec=" + "900"]
    case TimeoutStopSec => ["TimeoutStopSec=" + "420"]
    case WantedBy => if u.startOnBoot then ["WantedBy=" + "default.target"] else []
  }

  lemma NoLine(key: string)
    ensures RowLines(key, []) == []
  {}

  lemma OneLine(key: string, start: string, value: string)
    requires start == key + "="
    ensures RowLines(key, [value]) == [start + value]
  {}

  lemma TwoLines(key: string, start: string, first: string, second: string)
    requires start == key + "="
    ensures RowLines(key, [first, second]) == [start + first, start + second]
  {}

  lemma ManyLines(key: string, start: string, values: seq<string>, lines: seq<string>)
    requires start == key + "=" && |lines| == |values|
    requires forall i | 0 <= i < |values| :: lines[i] == start + values[i]
    ensures RowLines(key, values) == lines
  {}

  lemma ContainerLines(u: Unit, c: Codec, d: Directive)
    requires Fixed(d).Some? && !InService(d)
    ensures RowLines(Key(d), Values(u, c, d)) == LinesOf(u, c, d)
  {
    match d
    case Pull => OneLine("Pull", "Pull=", "never");
    case RunInit => OneLine("RunInit", "RunInit=", "true");
    case Timezone => OneLine("Timezone", "Timezone=", "local");
    case Exec => OneLine("Exec", "Exec=", "/usr/local/bin/dst-server" + " agent --cluster /cluster");
    case StopTimeout => OneLine("StopTimeout", "StopTimeout=", "360");
  }

  lemma ServiceLines(u: Unit, c: Codec, d: Directive)
    requires InService(d)
    ensures RowLines(Key(d), Values(u, c, d)) == LinesOf(u, c, d)
  {
    match d
    case Restart => OneLine("Restart", "Restart=", "on-failure");
    case RestartSec => OneLine("RestartSec", "RestartSec=", "5");
    case SuccessExitStatus => OneLine("SuccessExitStatus", "SuccessExitStatus=", "8");
    case RestartForceExitStatus => OneLine("RestartForceExitStatus", "RestartForceExitStatus=", "8");
    case TimeoutStartSec => OneLine("TimeoutStartSec", "TimeoutStartSec=", "900");
    case TimeoutStopSec => OneLine("TimeoutStopSec", "TimeoutStopSec=", "420");
  }

  lemma OptionalLines(u: Unit, c: Codec, d: Directive)
    requires d.AutoUpdate? || d.UserNS? || d.WantedBy?
    ensures RowLines(Key(d), Values(u, c, d)) == LinesOf(u, c, d)
  {
    NoLine(Key(d));
    match d
    case AutoUpdate => OneLine("AutoUpdate", "AutoUpdate=", "registry");
    case UserNS => if u.userns.Some? { OneLine("UserNS", "UserNS=", Quote(u.userns.value)); }
    case WantedBy => OneLine("WantedBy", "WantedBy=", "default.target");
  }

  lemma ListLines(u: Unit, c: Codec, d: Directive)
    requires d.Volume? || d.PublishPort? || d.Environment?
    ensures RowLines(Key(d), Values(u, c, d)) == LinesOf(u, c, d)
  {
    match d
    case Volume =>
      TwoLines("Volume", "Volume=", VolumeEscape(u.cluster + ":/cluster" + Suffix(u)),
               VolumeEscape(u.cluster + "/mods:/install/mods" + Suffix(u)));
    case PublishPort => ManyLines("PublishPort", "PublishPort=", Values(u, c, PublishPort), PortLines(u.ports));
    case Environment =>
      ManyLines("Environment", "Environment=", Assignments(Everything(u, c)), VariableLines(Everything(u, c)));
  }

  lemma DirectiveLines(u: Unit, c: Codec, d: Directive)
    ensures RowLines(Key(d), Values(u, c, d)) == LinesOf(u, c, d)
  {
    if Fixed(d).Some? && !InService(d) {
      ContainerLines(u, c, d);
    } else if InService(d) {
      ServiceLines(u, c, d);
    } else if d.AutoUpdate? || d.UserNS? || d.WantedBy? {
      OptionalLines(u, c, d);
    } else if d.Description? {
      OneLine("Description", "Description=", "Don't Starve Together " + Escape(u.name));
    } else if d.Image? {
      OneLine("Image", "Image=", Quote(u.image));
    } else {
      ListLines(u, c, d);
    }
  }

  // ----- The whole text

  function AllLines(u: Unit, c: Codec, ds: seq<Directive>): seq<string> {
    if ds == [] then [] else LinesOf(u, c, ds[0]) + AllLines(u, c, ds[1..])
  }

  lemma {:induction false} RowsAreLines(u: Unit, c: Codec, ds: seq<Directive>)
    ensures Rows(u, c, ds) == AllLines(u, c, ds)
    decreases |ds|
  {
    if ds != [] {
      DirectiveLines(u, c, ds[0]);
      RowsAreLines(u, c, ds[1..]);
    }
  }

  /** A unit's text: its owner's line and the sections with their directives in this order, and an installation section
      only if it starts on boot. */
  lemma RenderedExactly(u: Unit, c: Codec)
    ensures Render(u, c, ManagedLayout)
            == Unlines(["# Managed by dst-server: room container v1"]
                       + (["[Unit]"] + AllLines(u, c, [Description])) + [""]
                       + (["[Container]"]
                          + AllLines(u, c, [Image, Pull, RunInit, Timezone, Exec, StopTimeout, AutoUpdate, Volume,
                                            UserNS, PublishPort, Environment])) + [""]
                       + (["[Service]"]
                          + AllLines(u, c, [Restart, RestartSec, SuccessExitStatus, RestartForceExitStatus,
                                            TimeoutStartSec, TimeoutStopSec]))
                       + (if u.startOnBoot then [""] + (["[Install]"] + AllLines(u, c, [WantedBy])) else []))
  {
    var l := ManagedLayout;
    RowsAreLines(u, c, l.unit);
    RowsAreLines(u, c, l.container);
    RowsAreLines(u, c, l.service);
    RowsAreLines(u, c, l.install);
    HeadersExactly();
  }

  lemma HeadersExactly()
    ensures Header("Unit") == "[Unit]" && Header("Container") == "[Container]"
    ensures Header("Service") == "[Service]" && Header("Install") == "[Install]"
  {}

  // ----- The order of the environment

  lemma {:induction false} LessTotal(a: string, b: string)
    ensures Less(a, b) || Less(b, a) || a == b
    ensures !(Less(a, b) && Less(b, a)) && !Less(a, a)
    decreases |a|
  {
    if a != [] && b != [] {
      LessTotal(a[1..], b[1..]);
      assert a[0] == b[0] && a[1..] == b[1..] ==> a == [a[0]] + a[1..] == [b[0]] + b[1..] == b;
    }
    if a != [] {
      LessTotal(a[1..], a[1..]);
    }
  }

  lemma {:induction false} LessTransitive(a: string, b: string, d: string)
    requires Less(a, b) && Less(b, d)
    ensures Less(a, d)
    decreases |a|
  {
    if a != [] && a[0] == b[0] == d[0] {
      LessTransitive(a[1..], b[1..], d[1..]);
    }
  }

  ghost predicate InOrder(vs: seq<(string, string)>) {
    forall i, j | 0 <= i < j < |vs| :: Less(vs[i].0, vs[j].0)
  }

  lemma {:induction false} PlaceBetween(vs: seq<(string, string)>)
    ensures forall i | 0 <= i < Place(vs) :: !Less(MANAGED, vs[i].0)
    ensures Place(vs) < |vs| ==> Less(MANAGED, vs[Place(vs)].0)
    decreases |vs|
  {
    if vs != [] && !Less(MANAGED, vs[0].0) {
      PlaceBetween(vs[1..]);
    }
  }

  lemma {:induction false} AroundManaged(vs: seq<(string, string)>, i: nat)
    requires InOrder(vs) && i < |vs| && vs[i].0 != MANAGED
    ensures if i < Place(vs) then Less(vs[i].0, MANAGED) else Less(MANAGED, vs[i].0)
  {
    PlaceBetween(vs);
    LessTotal(vs[i].0, MANAGED);
    if i > Place(vs) {
      LessTransitive(MANAGED, vs[Place(vs)].0, vs[i].0);
    }
  }

  lemma {:induction false} OrderedAround(vs: seq<(string, string)>, k: nat, v: (string, string))
    requires InOrder(vs) && k <= |vs|
    requires forall i | 0 <= i < |vs| :: if i < k then Less(vs[i].0, v.0) else Less(v.0, vs[i].0)
    ensures InOrder(vs[..k] + [v] + vs[k..])
  {
    var all := vs[..k] + [v] + vs[k..];
    forall i, j | 0 <= i < j < |all| ensures Less(all[i].0, all[j].0) {
      assert all[i] == if i < k then vs[i] else if i == k then v else vs[i - 1];
      assert all[j] == if j < k then vs[j] else if j == k then v else vs[j - 1];
    }
  }

  lemma {:induction false} OneAmong(vs: seq<(string, string)>, k: nat, v: (string, string))
    requires k <= |vs|
    ensures multiset(vs[..k] + [v] + vs[k..]) == multiset(vs) + multiset{v}
  {
    assert vs == vs[..k] + vs[k..];
  }

  /** The variables are written in the order of their names, with the published ports among them. */
  lemma EverythingInOrder(u: Unit, c: Codec)
    requires InOrder(u.environment) && forall i | 0 <= i < |u.environment| :: u.environment[i].0 != MANAGED
    ensures InOrder(Everything(u, c))
    ensures multiset(Everything(u, c)) == multiset(u.environment) + multiset{(MANAGED, c.write(u.published))}
  {
    var vs, k, v := u.environment, Place(u.environment), (MANAGED, c.write(u.published));
    forall i | 0 <= i < |vs| ensures if i < k then Less(vs[i].0, v.0) else Less(v.0, vs[i].0) {
      AroundManaged(vs, i);
    }
    OrderedAround(vs, k, v);
    OneAmong(vs, k, v);
  }

  // ----- Which files load

  /** A file loads as this unit exactly if it begins with the owner's line, the unit is valid and has the file's name,
      and the file's sections are those of the unit rendered. */
  lemma LoadsExactly(source: string, name: string, u: Unit, c: Codec)
    requires Lossless(c)
    ensures Load(source, name, c, ManagedLayout) == Some(u) <==>
              && Lines(source) != [] && Lines(source)[0] == "# Managed by dst-server: room container v1"
              && u.name == name && Valid(u)
              && Parsed(source).Some? && Parsed(source) == Parsed(Render(u, c, ManagedLayout))
  {
    if Valid(u) && u.name == name {
      UnitRoundTrip(u, c);
    }
  }
}
