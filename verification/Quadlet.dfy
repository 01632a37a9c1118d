/** Rendering a room's container unit and loading it again. */
module Quadlet {
  import opened Options
  import opened Text
  import opened Numerals
  import opened Quoting
  import opened Sections
  import PA = PortAllocation

  const MANAGED := "DST_SERVER_PUBLISHED_PORTS"
  const OWNER := "# Managed by dst-server: room container v1"
  const DEFAULT_IMAGE := "quay.io/wh2099/dst-server:latest"
  const BETA_IMAGE := "quay.io/wh2099/dst-server:beta"

  /** The published game port of each shard. */
  type Ports = map<string, nat>

  /** The JSON text of the published ports, a library's: it holds no line ending and is read back. */
  datatype Codec = Codec(write: Ports -> string, read: string -> Option<Ports>)

  ghost predicate Lossless(c: Codec) {
    forall p :: c.read(c.write(p)) == Some(p) && Literal(c.write(p))
  }

  /** The environment is listed in the order of its names. */
  datatype Unit = Unit(
    name: string,
    cluster: string,
    image: string,
    environment: seq<(string, string)>,
    idmap: Option<string>,
    userns: Option<string>,
    startOnBoot: bool,
    ports: seq<PA.Mapping>,
    published: Ports)

  // ----- Validity

  predicate IsToken(s: string) {
    Literal(s) && s != [] && forall i | 0 <= i < |s| :: !IsWhitespace(s[i])
  }

  predicate EndsWith(s: string, end: string) {
    |s| >= |end| && s[|s| - |end|..] == end
  }

  predicate IsLetter(c: char) {
    'A' <= c <= 'Z' || 'a' <= c <= 'z'
  }

  predicate VariableName(s: string) {
    Identifier(s) && (IsLetter(s[0]) || s[0] == '_')
  }

  /** The characters of an id mapping: `uids=` or `gids=` and ranges of numbers. */
  predicate IdmapText(s: string) {
    s != [] && forall i | 0 <= i < |s| ::
      IsDigitChar(s[i]) || IsLetter(s[i]) || s[i] == '=' || s[i] == '-' || s[i] == '#' || s[i] == ';'
  }

  predicate ValidPort(m: PA.Mapping) {
    1024 <= m.host < 65536 && 1024 <= m.container < 65536
  }

  predicate ValidPorts(ports: seq<PA.Mapping>) {
    && (forall i | 0 <= i < |ports| :: ValidPort(ports[i]) && ports[i].protocol.Udp?)
    && (forall i, j | 0 <= i < j < |ports| :: ports[i].host != ports[j].host)
    && (forall i, j | 0 <= i < j < |ports| :: ports[i].container != ports[j].container)
  }

  predicate ValidVariable(v: (string, string)) {
    VariableName(v.0) && Literal(v.1) && v.0 != MANAGED
  }

  predicate ValidEnvironment(environment: seq<(string, string)>) {
    && (forall i | 0 <= i < |environment| :: ValidVariable(environment[i]))
    && (forall i, j | 0 <= i < j < |environment| :: environment[i].0 != environment[j].0)
  }

  predicate ValidCluster(s: string) {
    s != [] && s[0] == '/' && Literal(s) && HasNo(s, ':')
  }

  ghost predicate Valid(u: Unit) {
    && ValidName(u.name) && ValidCluster(u.cluster)
    && IsToken(u.image) && !EndsWith(u.image, ".image")
    && ValidEnvironment(u.environment) && ValidPorts(u.ports)
    && (u.userns.Some? ==> IsToken(u.userns.value))
    && (u.idmap.Some? ==> IdmapText(u.idmap.value))
    && u.published != map[]
    && forall s | s in u.published :: exists i | 0 <= i < |u.ports| :: u.ports[i].host == u.published[s]
  }

  // ----- The directives of a unit

  datatype Directive =
    | Description
    | Image | Pull | RunInit | Timezone | Exec | StopTimeout | AutoUpdate | Volume | UserNS | PublishPort | Environment
    | Restart | RestartSec | SuccessExitStatus | RestartForceExitStatus | TimeoutStartSec | TimeoutStopSec
    | WantedBy

  function Key(d: Directive): string {
    match d
    case Description => "Description"
    case Image => "Image"
    case Pull => "Pull"
    case RunInit => "RunInit"
    case Timezone => "Timezone"
    case Exec => "Exec"
    case StopTimeout => "StopTimeout"
    case AutoUpdate => "AutoUpdate"
    case Volume => "Volume"
    case UserNS => "UserNS"
    case PublishPort => "PublishPort"
    case Environment => "Environment"
    case Restart => "Restart"
    case RestartSec => "RestartSec"
    case SuccessExitStatus => "SuccessExitStatus"
    case RestartForceExitStatus => "RestartForceExitStatus"
    case TimeoutStartSec => "TimeoutStartSec"
    case TimeoutStopSec => "TimeoutStopSec"
    case WantedBy => "WantedBy"
  }

  predicate InService(d: Directive) {
    || d.Restart? || d.RestartSec? || d.SuccessExitStatus? || d.RestartForceExitStatus? || d.TimeoutStartSec?
    || d.TimeoutStopSec?
  }

  function Section(d: Directive): string {
    if d.Description? then "Unit"
    else if d.WantedBy? then "Install"
    else if InService(d) then "Service"
    else "Container"
  }

  function Name(d: Directive): (string, string) {
    (Section(d), Key(d))
  }

  /** The directives whose values never change. */
  function Fixed(d: Directive): Option<string> {
    match d
    case Pull => Some("never")
    case RunInit => Some("true")
    case Timezone => Some("local")
    case Exec => Some("/usr/local/bin/dst-server" + " agent --cluster /cluster")
    case StopTimeout => Some("360")
    case Restart => Some("on-failure")
    case RestartSec => Some("5")
    case SuccessExitStatus => Some("8")
    case RestartForceExitStatus => Some("8")
    case TimeoutStartSec => Some("900")
    case TimeoutStopSec => Some("420")
    case _ => None
  }

  function PortText(m: PA.Mapping): string {
    Digits(m.host) + ":" + Digits(m.container) + "/" + (if m.protocol.Udp? then "udp" else "tcp")
  }

  function Suffix(u: Unit): string {
    if u.idmap.Some? then ":idmap=" + u.idmap.value else []
  }

  /** Names are ordered by their characters. */
  predicate Less(a: string, b: string) {
    b != [] && (a == [] || a[0] < b[0] || (a[0] == b[0] && Less(a[1..], b[1..])))
  }

  /** Where the managed variable comes among the others. */
  function Place(environment: seq<(string, string)>): (k: nat)
    ensures k <= |environment|
  {
    if environment == [] || Less(MANAGED, environment[0].0) then 0 else 1 + Place(environment[1..])
  }

  function Everything(u: Unit, c: Codec): seq<(string, string)> {
    var k := Place(u.environment);
    u.environment[..k] + [(MANAGED, c.write(u.published))] + u.environment[k..]
  }

  function Assignment(v: (string, string)): string {
    Quote(v.0 + "=" + v.1)
  }

  function Assignments(vs: seq<(string, string)>): seq<string> {
    seq(|vs|, i requires 0 <= i < |vs| => Assignment(vs[i]))
  }

  function Values(u: Unit, c: Codec, d: Directive): seq<string> {
    match d
    case Description => ["Don't Starve Together " + Escape(u.name)]
    case Image => [Quote(u.image)]
    case AutoUpdate => if u.image == DEFAULT_IMAGE || u.image == BETA_IMAGE then ["registry"] else []
    case Volume =>
      [VolumeEscape(u.cluster + ":/cluster" + Suffix(u)),
       VolumeEscape(u.cluster + "/mods:/install/mods" + Suffix(u))]
    case UserNS => if u.userns.Some? then [Quote(u.userns.value)] else []
    case PublishPort => seq(|u.ports|, i requires 0 <= i < |u.ports| => PortText(u.ports[i]))
    case Environment => Assignments(Everything(u, c))
    case WantedBy => if u.startOnBoot then ["default.target"] else []
    case _ => if Fixed(d).Some? then [Fixed(d).value] else []
  }

  // ----- Rendering

  function Rows(u: Unit, c: Codec, ds: seq<Directive>): seq<string> {
    if ds == [] then [] else RowLines(Key(ds[0]), Values(u, c, ds[0])) + Rows(u, c, ds[1..])
  }

  function Block(u: Unit, c: Codec, section: string, ds: seq<Directive>): seq<string> {
    [Header(section)] + Rows(u, c, ds)
  }

  /** Which directives a section holds, in their order. */
  datatype Layout = Layout(unit: seq<Directive>, container: seq<Directive>, service: seq<Directive>,
                           install: seq<Directive>)

  const ManagedLayout := Layout(
    [Description],
    [Image, Pull, RunInit, Timezone, Exec, StopTimeout, AutoUpdate, Volume, UserNS, PublishPort, Environment],
    [Restart, RestartSec, SuccessExitStatus, RestartForceExitStatus, TimeoutStartSec, TimeoutStopSec],
    [WantedBy])

  function UnitLines(u: Unit, c: Codec, l: Layout): seq<string> {
    [OWNER] + Block(u, c, "Unit", l.unit) + [""] + Block(u, c, "Container", l.container) + [""]
    + Block(u, c, "Service", l.service)
    + (if u.startOnBoot then [""] + Block(u, c, "Install", l.install) else [])
  }

  function Render(u: Unit, c: Codec, l: Layout): string {
    Unlines(UnitLines(u, c, l))
  }

  // ----- Loading

  function Get(f: Fields, d: Directive): Option<string> {
    var vs := Lookup(f, Name(d));
    if |vs| == 1 then Some(vs[0]) else None
  }

  function ParseU16(s: string): Option<nat> {
    var n := ParseRadix(if s != [] && s[0] == '+' then s[1..] else s, 10);
    if n.Some? && n.value < 65536 then n else None
  }

  /** The three texts of a port mapping. */
  datatype PortTexts = PortTexts(host: string, container: string, protocol: string)

  function SplitPort(s: string): Option<PortTexts> {
    var k := Find(s, {'/'});
    var j := Find(s[..k], {':'});
    if k == |s| || j == k then None else Some(PortTexts(s[..j], s[j + 1..k], s[k + 1..]))
  }

  function ParsePort(s: string): Option<PA.Mapping> {
    var texts := SplitPort(s);
    if texts.None? then None
    else PortOf(ParseU16(texts.value.host), ParseU16(texts.value.container), texts.value.protocol)
  }

  function PortOf(host: Option<nat>, container: Option<nat>, protocol: string): Option<PA.Mapping> {
    if host.None? || container.None? || (protocol != "udp" && protocol != "tcp") then None
    else
      var m := PA.Mapping(host.value, container.value, if protocol == "udp" then PA.Udp else PA.Tcp);
      if ValidPort(m) then Some(m) else None
  }

  function ParsePorts(vs: seq<string>): Option<seq<PA.Mapping>> {
    if vs == [] then Some([])
    else
      var first, rest := ParsePort(vs[0]), ParsePorts(vs[1..]);
      if first.None? || rest.None? then None else Some([first.value] + rest.value)
  }

  /** Where a text first occurs in another. */
  function FindText(s: string, p: string): Option<nat>
    requires p != []
    decreases |s|
  {
    if |s| < |p| then None
    else if s[..|p|] == p then Some(0)
    else
      var k := FindText(s[1..], p);
      if k.None? then None else Some(k.value + 1)
  }

  datatype Volumes = Volumes(cluster: string, idmap: Option<string>)

  function ParseVolumes(vs: seq<string>): Option<Volumes> {
    if |vs| != 2 || Unvolumed(vs[0]).None? then None
    else
      var volume := Unvolumed(vs[0]).value;
      var k := FindText(volume, ":/cluster");
      if k.None? || k.value + 9 > |volume| then None
      else
        var cluster, suffix := volume[..k.value], volume[k.value + 9..];
        if suffix != [] && !(":idmap=" <= suffix) then None
        else if Unvolumed(vs[1]) != Some(cluster + "/mods:/install/mods" + suffix) then None
        else Some(Volumes(cluster, if suffix == [] then None else Some(suffix[7..])))
  }

  datatype Variables = Variables(others: seq<(string, string)>, published: Option<Ports>)

  predicate HasVariable(vs: seq<(string, string)>, name: string) {
    exists i | 0 <= i < |vs| :: vs[i].0 == name
  }

  function AddVariable(c: Codec, env: Variables, text: string): Option<Variables> {
    var assignment := Unquoted(text);
    if assignment.None? then None
    else
      var s := assignment.value;
      var k := Find(s, {'='});
      if k == |s| then None
      else if s[..k] == MANAGED then
        var ports := c.read(s[k + 1..]);
        if env.published.Some? || ports.None? then None else Some(env.(published := ports))
      else if HasVariable(env.others, s[..k]) then None
      else Some(env.(others := env.others + [(s[..k], s[k + 1..])]))
  }

  function ParseVariables(c: Codec, vs: seq<string>): Option<Variables> {
    if vs == [] then Some(Variables([], None))
    else
      var before := ParseVariables(c, vs[..|vs| - 1]);
      if before.None? then None else AddVariable(c, before.value, vs[|vs| - 1])
  }

  /** An optional directive, present at most once. */
  function Optional(f: Fields, d: Directive): Option<Option<string>> {
    if Lookup(f, Name(d)) == [] then Some(None)
    else if Get(f, d).None? then None
    else Some(Get(f, d))
  }

  predicate FixedOk(f: Fields) {
    && Get(f, Pull) == Fixed(Pull) && Get(f, RunInit) == Fixed(RunInit) && Get(f, Timezone) == Fixed(Timezone)
    && Get(f, Exec) == Fixed(Exec) && Get(f, StopTimeout) == Fixed(StopTimeout)
    && Get(f, Restart) == Fixed(Restart) && Get(f, RestartSec) == Fixed(RestartSec)
    && Get(f, SuccessExitStatus) == Fixed(SuccessExitStatus)
    && Get(f, RestartForceExitStatus) == Fixed(RestartForceExitStatus)
    && Get(f, TimeoutStartSec) == Fixed(TimeoutStartSec) && Get(f, TimeoutStopSec) == Fixed(TimeoutStopSec)
  }

  function ParseUserNS(f: Fields): Option<Option<string>> {
    var text := Optional(f, UserNS);
    if text.None? then None
    else if text.value.None? then Some(None)
    else if Unquoted(text.value.value).None? then None
    else Some(Unquoted(text.value.value))
  }

  /** The unit that these fields describe. */
  function Described(f: Fields, name: string, c: Codec): Option<Unit> {
    var image := if Get(f, Image).Some? then Unquoted(Get(f, Image).value) else None;
    var boot, userns, volumes := Optional(f, WantedBy), ParseUserNS(f), ParseVolumes(Lookup(f, Name(Volume)));
    var ports, env := ParsePorts(Lookup(f, Name(PublishPort))), ParseVariables(c, Lookup(f, Name(Environment)));
    if !FixedOk(f) || image.None? || boot.None? || userns.None? || volumes.None? || ports.None? || env.None? then None
    else if boot.value.Some? && boot.value.value != "default.target" then None
    else if env.value.published.None? then None
    else Some(Unit(name, volumes.value.cluster, image.value, env.value.others, volumes.value.idmap, userns.value,
                   boot.value.Some?, ports.value, env.value.published.value))
  }

  /** A managed file of this name. Unknown directives are refused by comparing the fields of the unit rendered
      again. */
  ghost function Load(source: string, name: string, c: Codec, l: Layout): Option<Unit> {
    if Lines(source) == [] || Lines(source)[0] != OWNER || Parsed(source).None? then None
    else
      var u := Described(Parsed(source).value, name, c);
      if u.None? || !Valid(u.value) || Parsed(Render(u.value, c, l)) != Parsed(source) then None else u
  }
}
