/** Splitting a process's output into events while it arrives in chunks. */
module OutputReader {
  import opened Options
  import opened Sequences
  import Utf8

  type Byte = Utf8.Byte

  const NEWLINE: Byte := 10
  const SPACE: Byte := 32
  const COLON: Byte := 58
  const OPENING: Byte := 91
  const CLOSING: Byte := 93

  const MAX_CHUNK := 8192
  const MAX_PROTOCOL_LINE := 64 * 1024
  const MAX_LOG_LINE := 1024 * 1024

  /** The bytes of `DST_DRIVER|` and `DST_CONTROL|`. */
  const DRIVER_PREFIX: seq<Byte> := [68, 83, 84, 95, 68, 82, 73, 86, 69, 82, 124]
  const CONTROL_PREFIX: seq<Byte> := [68, 83, 84, 95, 67, 79, 78, 84, 82, 79, 76, 124]

  datatype Stream = Reply | Lifecycle | Stdout | Stderr

  predicate Protocol(stream: Stream) {
    stream.Reply? || stream.Lifecycle?
  }

  // ----- The native timestamp

  /** The first index of `b` among the first `limit` bytes. */
  function Position(s: seq<Byte>, b: Byte, limit: nat): (r: Option<nat>)
    ensures r.Some? ==> r.value < |s| && r.value < limit && s[r.value] == b
  {
    if s == [] || limit == 0 then None
    else if s[0] == b then Some(0)
    else match Position(s[1..], b, limit - 1)
      case None => None
      case Some(i) => Some(i + 1)
  }

  function SplitAt(s: seq<Byte>, b: Byte): (parts: seq<seq<Byte>>)
    ensures |parts| >= 1
  {
    if s == [] then [[]]
    else
      var rest := SplitAt(s[1..], b);
      if s[0] == b then [[]] + rest else [[s[0]] + rest[0]] + rest[1..]
  }

  predicate Digits(s: seq<Byte>) {
    s != [] && forall i | 0 <= i < |s| :: 48 <= s[i] <= 57
  }

  /** `hours:mm:ss` */
  predicate ClockText(s: seq<Byte>) {
    var parts := SplitAt(s, COLON);
    |parts| == 3 && Digits(parts[0]) && Digits(parts[1]) && |parts[1]| == 2 && Digits(parts[2]) && |parts[2]| == 2
  }

  /** Where the message begins after an anchored `[hours:mm:ss]: `, or 0 without one. */
  function MessageStart(line: seq<Byte>): (k: nat)
    ensures k <= |line|
  {
    if line == [] || line[0] != OPENING then 0
    else match Position(line[1..], CLOSING, 32)
      case None => 0
      case Some(end) =>
        if |line| <= end + 2 || line[end + 2] != COLON || !ClockText(line[1..end + 1]) then 0
        else if |line| > end + 3 && line[end + 3] == SPACE then end + 4
        else end + 3
  }

  function NativeMessage(line: seq<Byte>): seq<Byte> {
    line[MessageStart(line)..]
  }

  predicate Mandatory(stream: Stream, line: seq<Byte>) {
    || Protocol(stream)
    || (stream.Stdout? && (DRIVER_PREFIX <= NativeMessage(line) || CONTROL_PREFIX <= NativeMessage(line)))
  }

  // ----- The decision is made within the first 48 bytes and never reverts

  lemma {:induction false} PositionGrows(s: seq<Byte>, more: seq<Byte>, b: Byte, limit: nat)
    ensures Position(s, b, limit).Some? ==> Position(s + more, b, limit) == Position(s, b, limit)
    ensures |s| >= limit ==> Position(s + more, b, limit) == Position(s, b, limit)
    decreases limit
  {
    if s != [] && limit > 0 {
      assert (s + more)[1..] == s[1..] + more;
      PositionGrows(s[1..], more, b, limit - 1);
    }
  }

  /** A timestamp once complete, and any message of 36 bytes, keeps its place. */
  lemma StartGrows(line: seq<Byte>, more: seq<Byte>)
    ensures |line| >= 36 ==> MessageStart(line + more) == MessageStart(line)
    ensures 0 < MessageStart(line) < |line| ==> MessageStart(line + more) == MessageStart(line)
  {
    if line != [] {
      assert (line + more)[1..] == line[1..] + more;
      PositionGrows(line[1..], more, CLOSING, 32);
      var at := Position(line[1..], CLOSING, 32);
      if at.Some? {
        assert (line + more)[1..at.value + 1] == line[1..at.value + 1];
      }
    }
  }

  lemma MandatoryDecided(stream: Stream, line: seq<Byte>, more: seq<Byte>)
    requires |line| >= 48
    ensures Mandatory(stream, line + more) == Mandatory(stream, line)
  {
    StartGrows(line, more);
    StartBounded(line);
    assert NativeMessage(line + more) == NativeMessage(line) + more;
  }

  lemma StartBounded(line: seq<Byte>)
    ensures MessageStart(line) <= 36
  {}

  // ----- Which lines are mandatory

  /** `[hours:mm:ss]:` with at most 25 digits for the hours. */
  ghost predicate Stamp(s: seq<Byte>) {
    exists h, m, t :: StampOf(h, m, t) == s && Digits(h) && |h| <= 25 && Digits(m) && |m| == 2 && Digits(t) && |t| == 2
  }

  function StampOf(h: seq<Byte>, m: seq<Byte>, t: seq<Byte>): seq<Byte> {
    [91] + (h + [58] + m + [58] + t) + [93, 58]
  }

  /** What may stand before the message: nothing, or a timestamp with or without a space after it. */
  ghost predicate Anchor(s: seq<Byte>) {
    s == [] || Stamp(s) || (s[|s| - 1] == 32 && Stamp(s[..|s| - 1]))
  }

  lemma {:induction false} SplitNone(s: seq<Byte>, b: Byte)
    requires forall i | 0 <= i < |s| :: s[i] != b
    ensures SplitAt(s, b) == [s]
    decreases |s|
  {
    if s != [] {
      SplitNone(s[1..], b);
      assert s == [s[0]] + s[1..];
    }
  }

  lemma {:induction false} SplitOnce(part: seq<Byte>, b: Byte, rest: seq<Byte>)
    requires forall i | 0 <= i < |part| :: part[i] != b
    ensures SplitAt(part + [b] + rest, b) == [part] + SplitAt(rest, b)
    decreases |part|
  {
    var s := part + [b] + rest;
    if part == [] {
      assert s[1..] == rest;
    } else {
      SplitOnce(part[1..], b, rest);
      assert s[1..] == part[1..] + [b] + rest;
      assert part == [part[0]] + part[1..];
    }
  }

  lemma ClockSplits(h: seq<Byte>, m: seq<Byte>, t: seq<Byte>)
    requires Digits(h) && Digits(m) && Digits(t)
    ensures SplitAt(h + [58] + m + [58] + t, 58) == [h, m, t]
  {
    assert h + [58] + m + [58] + t == h + [58] + (m + [58] + t);
    SplitOnce(h, 58, m + [58] + t);
    SplitOnce(m, 58, t);
    SplitNone(t, 58);
  }

  function Join(parts: seq<seq<Byte>>, b: Byte): seq<Byte>
    requires parts != []
  {
    if |parts| == 1 then parts[0] else parts[0] + ([b] + Join(parts[1..], b))
  }

  lemma {:induction false} JoinFirst(parts: seq<seq<Byte>>, first: Byte, b: Byte)
    requires parts != []
    ensures Join([[first] + parts[0]] + parts[1..], b) == [first] + Join(parts, b)
  {
    var more := [[first] + parts[0]] + parts[1..];
    assert more[1..] == parts[1..];
    if |parts| > 1 {
      Associates([first], parts[0], [b] + Join(parts[1..], b));
    }
  }

  lemma {:induction false} JoinBreak(parts: seq<seq<Byte>>, b: Byte)
    requires parts != []
    ensures Join([[]] + parts, b) == [b] + Join(parts, b)
  {
    var none: seq<Byte> := [];
    assert ([none] + parts)[1..] == parts;
    assert none + ([b] + Join(parts, b)) == [b] + Join(parts, b);
  }

  /** One byte more in front of a text that has been split. */
  lemma {:induction false} JoinMore(s: seq<Byte>, first: Byte, parts: seq<seq<Byte>>, b: Byte)
    requires parts != [] && Join(parts, b) == s
    ensures Join(if first == b then [[]] + parts else [[first] + parts[0]] + parts[1..], b) == [first] + s
  {
    if first == b {
      JoinBreak(parts, b);
    } else {
      JoinFirst(parts, first, b);
    }
  }

  lemma {:induction false} SplitJoins(s: seq<Byte>, b: Byte)
    ensures Join(SplitAt(s, b), b) == s
    decreases |s|
  {
    if s != [] {
      SplitJoins(s[1..], b);
      JoinMore(s[1..], s[0], SplitAt(s[1..], b), b);
      assert s == [s[0]] + s[1..];
    }
  }

  lemma {:induction false} JoinThree(parts: seq<seq<Byte>>, b: Byte)
    requires |parts| == 3
    ensures Join(parts, b) == parts[0] + [b] + parts[1] + [b] + parts[2]
  {
    assert parts[1..][1..] == [parts[2]];
    assert Join(parts[1..], b) == parts[1] + ([b] + parts[2]);
  }

  /** Where the message of a stamped line begins. */
  lemma StampRead(h: seq<Byte>, m: seq<Byte>, t: seq<Byte>, rest: seq<Byte>)
    requires Digits(h) && |h| <= 25 && Digits(m) && |m| == 2 && Digits(t) && |t| == 2
    ensures var stamp := StampOf(h, m, t);
            MessageStart(stamp + rest) == |stamp| + (if rest != [] && rest[0] == 32 then 1 else 0)
  {
    var clock := h + [58] + m + [58] + t;
    var line := StampOf(h, m, t) + rest;
    assert line[1..] == (clock + [93]) + ([58] + rest);
    PositionLast(clock + [93], 93, 32);
    PositionGrows(clock + [93], [58] + rest, 93, 32);
    assert line[1..|clock| + 1] == clock;
    ClockSplits(h, m, t);
  }

  lemma ClockIsStamp(clock: seq<Byte>)
    requires ClockText(clock) && |clock| <= 31
    ensures Stamp([91] + clock + [93, 58])
  {
    var parts := SplitAt(clock, 58);
    SplitJoins(clock, 58);
    JoinThree(parts, 58);
    assert StampOf(parts[0], parts[1], parts[2]) == [91] + clock + [93, 58];
  }

  lemma StampAnchors(stamp: seq<Byte>)
    requires Stamp(stamp)
    ensures Anchor(stamp) && Anchor(stamp + [32])
  {
    assert (stamp + [32])[..|stamp|] == stamp;
  }

  /** How a line with a timestamp begins. */
  lemma {:induction false} StartShape(line: seq<Byte>) returns (stamp: seq<Byte>)
    requires MessageStart(line) > 0
    ensures Stamp(stamp) && (line[..MessageStart(line)] == stamp || line[..MessageStart(line)] == stamp + [32])
  {
    var end := Position(line[1..], 93, 32).value;
    stamp := [91] + line[1..end + 1] + [93, 58];
    ClockIsStamp(line[1..end + 1]);
    StampTaken(line, end);
  }

  lemma StampTaken(line: seq<Byte>, end: nat)
    requires end + 3 <= |line| && line[0] == 91 && line[end + 1] == 93 && line[end + 2] == 58
    ensures line[..end + 3] == [91] + line[1..end + 1] + [93, 58]
    ensures end + 3 < |line| && line[end + 3] == 32 ==> line[..end + 4] == line[..end + 3] + [32]
  {}

  /** What stands before the message of a line. */
  lemma {:induction false} StartIsAnchor(line: seq<Byte>)
    ensures Anchor(line[..MessageStart(line)])
  {
    if MessageStart(line) > 0 {
      var stamp := StartShape(line);
      StampAnchors(stamp);
    }
  }

  lemma {:induction false} StampIsStart(stamp: seq<Byte>, rest: seq<Byte>)
    requires Stamp(stamp)
    ensures MessageStart(stamp + rest) == |stamp| + (if rest != [] && rest[0] == 32 then 1 else 0)
  {
    var h, m, t :| StampOf(h, m, t) == stamp && Digits(h) && |h| <= 25 && Digits(m) && |m| == 2 && Digits(t)
                   && |t| == 2;
    StampRead(h, m, t, rest);
  }

  lemma {:induction false} AnchorIsStart(anchor: seq<Byte>, rest: seq<Byte>)
    requires Anchor(anchor) && rest != [] && rest[0] != 32 && rest[0] != 91
    ensures MessageStart(anchor + rest) == |anchor|
  {
    if anchor == [] {
      assert anchor + rest == rest;
    } else if Stamp(anchor) {
      StampIsStart(anchor, rest);
    } else {
      SpacedIsStart(anchor[..|anchor| - 1], anchor, rest);
    }
  }

  lemma {:induction false} SpacedIsStart(stamp: seq<Byte>, anchor: seq<Byte>, rest: seq<Byte>)
    requires Stamp(stamp) && anchor == stamp + [32]
    ensures MessageStart(anchor + rest) == |anchor|
  {
    StampIsStart(stamp, [32] + rest);
    Associates(stamp, [32], rest);
  }

  /** A line of the reply and lifecycle streams is mandatory, and one of the standard output exactly when it begins,
      after an optional timestamp and space, with `DST_DRIVER|` or `DST_CONTROL|`. */
  lemma MandatoryExactly(stream: Stream, line: seq<Byte>)
    ensures Mandatory(stream, line) <==>
              || stream.Reply? || stream.Lifecycle?
              || (stream.Stdout? && exists anchor, rest :: Anchor(anchor) && Announced(line, anchor, rest))
  {
    if stream.Stdout? && Mandatory(stream, line) {
      MandatoryAnnounced(line);
    }
    forall anchor, rest | Anchor(anchor) && Announced(line, anchor, rest) ensures Mandatory(Stdout, line) {
      AnnouncedMandatory(line, anchor, rest);
    }
  }

  lemma MandatoryAnnounced(line: seq<Byte>)
    requires Mandatory(Stdout, line)
    ensures exists anchor, rest :: Anchor(anchor) && Announced(line, anchor, rest)
  {
    var k := MessageStart(line);
    StartIsAnchor(line);
    Splits(line, k);
    Prefixed(line, line[..k], line[k..]);
  }

  lemma Prefixed(line: seq<Byte>, anchor: seq<Byte>, message: seq<Byte>)
    requires line == anchor + message && (DRIVER_PREFIX <= message || CONTROL_PREFIX <= message)
    ensures exists rest :: Announced(line, anchor, rest)
  {
    var prefix := if DRIVER_PREFIX <= message then DRIVER_PREFIX else CONTROL_PREFIX;
    assert message == prefix + message[|prefix|..];
    assert Announced(line, anchor, message[|prefix|..]);
  }

  lemma AnnouncedMandatory(line: seq<Byte>, anchor: seq<Byte>, rest: seq<Byte>)
    requires Anchor(anchor) && Announced(line, anchor, rest)
    ensures Mandatory(Stdout, line)
  {
    var message := MessageOf(line, anchor, rest);
    AnchorIsStart(anchor, message);
    assert line[|anchor|..] == message;
  }

  lemma MessageOf(line: seq<Byte>, anchor: seq<Byte>, rest: seq<Byte>) returns (message: seq<Byte>)
    requires Announced(line, anchor, rest)
    ensures line == anchor + message && message != [] && message[0] == 68
    ensures DRIVER_PREFIX <= message || CONTROL_PREFIX <= message
  {
    message := if line == anchor + (DRIVER_PREFIX + rest) then DRIVER_PREFIX + rest else CONTROL_PREFIX + rest;
  }

  /** The line is this anchor, one of the two words, and the rest. */
  predicate Announced(line: seq<Byte>, anchor: seq<Byte>, rest: seq<Byte>) {
    || line == anchor + ([68, 83, 84, 95, 68, 82, 73, 86, 69, 82, 124] + rest)
    || line == anchor + ([68, 83, 84, 95, 67, 79, 78, 84, 82, 79, 76, 124] + rest)
  }

  // ----- The specification: split the whole stream, then classify every line on its own

  datatype Event = Line(bytes: seq<Byte>) | Oversized | ReadError

  datatype Emission = Emission(event: Event, mandatory: bool)

  function Limit(stream: Stream, line: seq<Byte>): nat {
    if Mandatory(stream, line) then MAX_PROTOCOL_LINE else MAX_LOG_LINE
  }

  predicate TooLong(stream: Stream, line: seq<Byte>) {
    |line| > Limit(stream, line)
  }

  function Classify(stream: Stream, line: seq<Byte>): (r: Emission)
    ensures r.event.Oversized? <==> |line| > if Mandatory(stream, line) then 65_536 else 1_048_576
  {
    Emission(if TooLong(stream, line) then Oversized else Line(line), Mandatory(stream, line))
  }

  function ClassifyAll(stream: Stream, lines: seq<seq<Byte>>): seq<Emission> {
    seq(|lines|, i requires 0 <= i < |lines| => Classify(stream, lines[i]))
  }

  function LinesOf(bytes: seq<Byte>): seq<seq<Byte>> {
    match Position(bytes, NEWLINE, |bytes|)
    case None => []
    case Some(i) => [bytes[..i + 1]] + LinesOf(bytes[i + 1..])
  }

  /** What follows the last newline. */
  function TailOf(bytes: seq<Byte>): seq<Byte> {
    match Position(bytes, NEWLINE, |bytes|)
    case None => bytes
    case Some(i) => TailOf(bytes[i + 1..])
  }

  /** The last line without its newline: an event when it is an ordinary log line or already too long. */
  function Remainder(stream: Stream, tail: seq<Byte>): seq<Emission> {
    if TooLong(stream, tail) then [Emission(Oversized, Mandatory(stream, tail))]
    else if tail == [] || Mandatory(stream, tail) then []
    else [Emission(Line(tail), false)]
  }

  function Expected(stream: Stream, bytes: seq<Byte>): seq<Emission> {
    ClassifyAll(stream, LinesOf(bytes)) + Remainder(stream, TailOf(bytes))
  }

  /** What is emitted when the stream breaks: the complete lines, the end of a line that is already too long, and the
      error. */
  function Broken(stream: Stream, bytes: seq<Byte>): seq<Emission> {
    ClassifyAll(stream, LinesOf(bytes))
    + (if TooLong(stream, TailOf(bytes)) then [Emission(Oversized, Mandatory(stream, TailOf(bytes)))] else [])
    + [Emission(ReadError, !stream.Stderr?)]
  }

  predicate NoNewline(part: seq<Byte>) {
    forall i | 0 <= i < |part| :: part[i] != NEWLINE
  }

  lemma {:induction false} PositionNone(s: seq<Byte>, b: Byte, limit: nat)
    requires forall i | 0 <= i < |s| :: s[i] != b
    ensures Position(s, b, limit) == None
    decreases limit
  {
    if s != [] && limit > 0 {
      PositionNone(s[1..], b, limit - 1);
    }
  }

  lemma {:induction false} PositionLast(s: seq<Byte>, b: Byte, limit: nat)
    requires s != [] && s[|s| - 1] == b && |s| <= limit && forall i | 0 <= i < |s| - 1 :: s[i] != b
    ensures Position(s, b, limit) == Some(|s| - 1)
    decreases limit
  {
    if |s| > 1 {
      PositionLast(s[1..], b, limit - 1);
    }
  }

  lemma {:induction false} PositionLimit(s: seq<Byte>, b: Byte, limit: nat)
    requires |s| <= limit
    ensures Position(s, b, limit) == Position(s, b, |s|)
    decreases |s|
  {
    if s != [] {
      PositionLimit(s[1..], b, limit - 1);
    }
  }

  /** How a further piece of the current line changes the lines and the tail. */
  lemma {:induction false} Appended(bytes: seq<Byte>, part: seq<Byte>)
    requires part != [] && NoNewline(part)
    ensures LinesOf(bytes + part) == LinesOf(bytes) && TailOf(bytes + part) == TailOf(bytes) + part
    decreases |bytes|
  {
    var whole := bytes + part;
    match Position(bytes, NEWLINE, |bytes|)
    case Some(i) =>
      AppendedFirst(bytes, part, i);
      Appended(bytes[i + 1..], part);
    case None =>
      NoneMeansAbsent(bytes, NEWLINE);
      PositionNone(whole, NEWLINE, |whole|);
  }

  /** How the piece that ends the current line changes them. */
  lemma {:induction false} Ended(bytes: seq<Byte>, part: seq<Byte>)
    requires part != [] && NoNewline(part[..|part| - 1]) && part[|part| - 1] == NEWLINE
    ensures LinesOf(bytes + part) == LinesOf(bytes) + [TailOf(bytes) + part] && TailOf(bytes + part) == []
    decreases |bytes|
  {
    match Position(bytes, NEWLINE, |bytes|)
    case Some(i) =>
      Ended(bytes[i + 1..], part);
      EndedLater(bytes, part, i);
    case None =>
      NoneMeansAbsent(bytes, NEWLINE);
      EndsFirst(bytes, part, bytes + part);
  }

  lemma {:induction false} FirstLine(bytes: seq<Byte>, i: nat)
    requires Position(bytes, NEWLINE, |bytes|) == Some(i)
    ensures LinesOf(bytes) == [bytes[..i + 1]] + LinesOf(bytes[i + 1..]) && TailOf(bytes) == TailOf(bytes[i + 1..])
  {}

  lemma {:induction false} EndedLater(bytes: seq<Byte>, part: seq<Byte>, i: nat)
    requires Position(bytes, NEWLINE, |bytes|) == Some(i)
    requires var rest := bytes[i + 1..];
             LinesOf(rest + part) == LinesOf(rest) + [TailOf(rest) + part] && TailOf(rest + part) == []
    ensures LinesOf(bytes + part) == LinesOf(bytes) + [TailOf(bytes) + part] && TailOf(bytes + part) == []
  {
    var rest := bytes[i + 1..];
    AppendedFirst(bytes, part, i);
    FirstLine(bytes, i);
    FirstLine(bytes + part, i);
    Associates([bytes[..i + 1]], LinesOf(rest), [TailOf(rest) + part]);
  }

  lemma EndsFirst(bytes: seq<Byte>, part: seq<Byte>, whole: seq<Byte>)
    requires whole == bytes + part && part != [] && part[|part| - 1] == NEWLINE
    requires NoNewline(part[..|part| - 1]) && forall i | 0 <= i < |bytes| :: bytes[i] != NEWLINE
    ensures LinesOf(whole) == [whole] && TailOf(whole) == []
  {
    assert forall k | 0 <= k < |part| - 1 :: part[k] == part[..|part| - 1][k];
    PositionLast(whole, NEWLINE, |whole|);
    assert whole[..|whole|] == whole;
    assert whole[|whole|..] == [];
  }

  lemma AppendedFirst(bytes: seq<Byte>, part: seq<Byte>, i: nat)
    requires Position(bytes, NEWLINE, |bytes|) == Some(i)
    ensures Position(bytes + part, NEWLINE, |bytes + part|) == Some(i)
    ensures (bytes + part)[..i + 1] == bytes[..i + 1]
    ensures (bytes + part)[i + 1..] == bytes[i + 1..] + part
  {
    PositionLimit(bytes, NEWLINE, |bytes + part|);
    PositionGrows(bytes, part, NEWLINE, |bytes + part|);
  }

  lemma {:induction false} NoneMeansAbsent(s: seq<Byte>, b: Byte)
    requires Position(s, b, |s|).None?
    ensures forall i | 0 <= i < |s| :: s[i] != b
    decreases |s|
  {
    if s != [] {
      NoneMeansAbsent(s[1..], b);
      assert forall i | 0 < i < |s| :: s[i] == s[1..][i - 1];
    }
  }

  // ----- The queues

  /** The k-th emission finds room in its queue and in the byte budget, or it does not; the consumers
      decide that, so it is arbitrary. */
  type Room = nat -> bool

  function Queued(emissions: seq<Emission>, room: Room, mandatory: bool): seq<Event> {
    if emissions == [] then []
    else
      var k := |emissions| - 1;
      Queued(emissions[..k], room, mandatory)
      + (if emissions[k].mandatory == mandatory && room(k) then [emissions[k].event] else [])
  }

  /** Every mandatory event is a line that found room. */
  ghost predicate NothingLost(emissions: seq<Emission>, room: Room) {
    forall k: nat | k < |emissions| && emissions[k].mandatory :: room(k) && emissions[k].event.Line?
  }

  lemma NothingLostMore(emissions: seq<Emission>, room: Room, e: Emission)
    ensures NothingLost(emissions + [e], room)
            <==> NothingLost(emissions, room) && (e.mandatory ==> room(|emissions|) && e.event.Line?)
  {
    var more := emissions + [e];
    assert more[|emissions|] == e;
    if NothingLost(more, room) {
      forall k: nat | k < |emissions| && emissions[k].mandatory ensures room(k) && emissions[k].event.Line? {
        assert more[k] == emissions[k];
      }
    }
  }

  /** How often an event was emitted. */
  function Count(emissions: seq<Emission>, event: Event): nat {
    if emissions == [] then 0
    else Count(emissions[..|emissions| - 1], event) + (if emissions[|emissions| - 1].event == event then 1 else 0)
  }

  lemma CountMore(emissions: seq<Emission>, e: Emission, event: Event)
    ensures Count(emissions + [e], event) == Count(emissions, event) + (if e.event == event then 1 else 0)
  {
    assert (emissions + [e])[..|emissions|] == emissions;
  }

  lemma QueuedMore(emissions: seq<Emission>, room: Room, mandatory: bool, e: Emission)
    ensures Queued(emissions + [e], room, mandatory)
            == Queued(emissions, room, mandatory)
               + (if e.mandatory == mandatory && room(|emissions|) then [e.event] else [])
  {
    assert (emissions + [e])[..|emissions|] == emissions;
  }

  /** The error is raised exactly when something mandatory was lost, and every event is counted. */
  ghost predicate Accounted(emissions: seq<Emission>, room: Room, cut: bool, fatal: bool, oversized: nat,
                            readErrors: nat) {
    && (fatal <==> cut || !NothingLost(emissions, room))
    && oversized == Count(emissions, Oversized) && readErrors == Count(emissions, ReadError)
  }

  /** What one emission more means for the error and the counts. */
  lemma OneAccounted(emissions: seq<Emission>, room: Room, cut: bool, fatal: bool, oversized: nat, readErrors: nat,
                     e: Emission)
    requires Accounted(emissions, room, cut, fatal, oversized, readErrors)
    ensures Accounted(emissions + [e], room, cut, fatal || (e.mandatory && (!room(|emissions|) || !e.event.Line?)),
                      oversized + (if e.event.Oversized? then 1 else 0),
                      readErrors + (if e.event.ReadError? then 1 else 0))
  {
    NothingLostMore(emissions, room, e);
    CountMore(emissions, e, Oversized);
    CountMore(emissions, e, ReadError);
  }

  /** The events of one priority, in order. */
  function Selected(emissions: seq<Emission>, mandatory: bool): seq<Event> {
    Queued(emissions, (_: nat) => true, mandatory)
  }

  class Output {
    const stream: Stream
    const room: Room
    var protocolQueue: seq<Event>
    var logQueue: seq<Event>
    var dropped: nat
    var oversized: nat
    var readErrors: nat
    var fatal: bool
    ghost var emitted: seq<Emission>

    /** The stream ended within a mandatory line. */
    ghost var cut: bool

    ghost predicate QueuesOk()
      reads this
    {
      && protocolQueue == Queued(emitted, room, true)
      && logQueue == Queued(emitted, room, false)
      && |protocolQueue| + |logQueue| + dropped == |emitted|
    }

    ghost predicate Valid()
      reads this
    {
      QueuesOk() && Accounted(emitted, room, cut, fatal, oversized, readErrors)
    }

    constructor (stream: Stream, room: Room)
      ensures Valid() && emitted == [] && !fatal && !cut && this.stream == stream && this.room == room
    {
      this.stream, this.room := stream, room;
      protocolQueue, logQueue, dropped, oversized, readErrors, fatal := [], [], 0, 0, 0, false;
      emitted, cut := [], false;
    }

    method Dropped(mandatory: bool)
      modifies this`dropped, this`fatal
      ensures dropped == old(dropped) + 1 && fatal == (old(fatal) || mandatory)
    {
      dropped := dropped + 1;
      if mandatory {
        fatal := true;
      }
    }

    /** The event is queued if there is room, and counted as dropped if not; that is an error for a mandatory one
        alone. */
    method Emit(event: Event, mandatory: bool)
      requires QueuesOk()
      modifies this`protocolQueue, this`logQueue, this`dropped, this`fatal, this`emitted
      ensures QueuesOk() && emitted == old(emitted) + [Emission(event, mandatory)]
      ensures fatal == (old(fatal) || (mandatory && !room(|old(emitted)|)))
      ensures dropped == old(dropped) + (if room(|old(emitted)|) then 0 else 1)
    {
      var k := |protocolQueue| + |logQueue| + dropped;
      if !room(k) {
        Dropped(mandatory);
      } else if mandatory {
        protocolQueue := protocolQueue + [event];
      } else {
        logQueue := logQueue + [event];
      }
      QueuedMore(emitted, room, true, Emission(event, mandatory));
      QueuedMore(emitted, room, false, Emission(event, mandatory));
      emitted := emitted + [Emission(event, mandatory)];
    }

    method EmitLine(line: seq<Byte>, mandatory: bool)
      requires Valid()
      modifies this
      ensures Valid() && emitted == old(emitted) + [Emission(Line(line), mandatory)] && cut == old(cut)
      ensures fatal == (old(fatal) || (mandatory && !room(|old(emitted)|)))
    {
      OneAccounted(emitted, room, cut, fatal, oversized, readErrors, Emission(Line(line), mandatory));
      Emit(Line(line), mandatory);
    }

    method TooLongLine(mandatory: bool)
      requires Valid()
      modifies this
      ensures Valid() && emitted == old(emitted) + [Emission(Oversized, mandatory)] && cut == old(cut)
      ensures fatal == (old(fatal) || mandatory)
    {
      OneAccounted(emitted, room, cut, fatal, oversized, readErrors, Emission(Oversized, mandatory));
      oversized := oversized + 1;
      if mandatory {
        fatal := true;
      }
      Emit(Oversized, mandatory);
    }

    method Break(mandatory: bool)
      requires Valid()
      modifies this
      ensures Valid() && emitted == old(emitted) + [Emission(ReadError, mandatory)] && cut == old(cut)
      ensures fatal == (old(fatal) || mandatory)
    {
      OneAccounted(emitted, room, cut, fatal, oversized, readErrors, Emission(ReadError, mandatory));
      readErrors := readErrors + 1;
      if mandatory {
        fatal := true;
      }
      Emit(ReadError, mandatory);
    }
  }

  // ----- The reader

  datatype LineState = LineState(line: seq<Byte>, oversized: bool, mandatory: bool)

  /** The reader's variables after the complete `lines` and the beginning `tail` of another one. */
  ghost predicate Tracks(stream: Stream, lines: seq<seq<Byte>>, tail: seq<Byte>, emitted: seq<Emission>, s: LineState) {
    && s.oversized == TooLong(stream, tail)
    && emitted == ClassifyAll(stream, lines)
                  + (if s.oversized then [Emission(Oversized, Mandatory(stream, tail))] else [])
    && (!s.oversized ==> s.line == tail && s.mandatory == Mandatory(stream, tail))
  }

  /** Extending a line decides its length limit and its priority exactly as the whole line would. */
  lemma Decided(stream: Stream, tail: seq<Byte>, part: seq<Byte>)
    requires 0 < |part| <= MAX_CHUNK
    ensures TooLong(stream, tail) ==>
              TooLong(stream, tail + part) && Mandatory(stream, tail + part) == Mandatory(stream, tail)
    ensures |tail + part| > Limit(stream, tail) ==>
              TooLong(stream, tail + part) && Mandatory(stream, tail + part) == Mandatory(stream, tail)
  {
    if |tail| >= 48 {
      MandatoryDecided(stream, tail, part);
    }
  }

  /** A complete line is emitted unless it was too long, and the next one begins. */
  method EndLine(output: Output, s: LineState, ghost lines: seq<seq<Byte>>, ghost line: seq<Byte>)
    returns (t: LineState)
    requires output.Valid() && Tracks(output.stream, lines, line, output.emitted, s)
    modifies output
    ensures output.Valid() && output.cut == old(output.cut)
    ensures Tracks(output.stream, lines + [line], [], output.emitted, t)
  {
    if !s.oversized {
      output.EmitLine(s.line, s.mandatory);
    }
    t := LineState([], false, Protocol(output.stream));
    OneMore(output.stream, lines, line);
    EmptyLine(output.stream);
  }

  /** One piece of a line, at most up to its newline. */
  method Extend(output: Output, s: LineState, part: seq<Byte>, ghost lines: seq<seq<Byte>>, ghost tail: seq<Byte>)
    returns (t: LineState)
    requires output.Valid() && Tracks(output.stream, lines, tail, output.emitted, s)
    requires 0 < |part| <= MAX_CHUNK
    modifies output
    ensures output.Valid() && output.cut == old(output.cut)
    ensures Tracks(output.stream, lines, tail + part, output.emitted, t)
  {
    Decided(output.stream, tail, part);
    t := s;
    if t.oversized {
      return;
    }
    var limit := if t.mandatory then MAX_PROTOCOL_LINE else MAX_LOG_LINE;
    if |t.line| + |part| > limit {
      t := LineState([], true, t.mandatory);
      output.TooLongLine(t.mandatory);
    } else {
      var line := t.line + part;
      t := LineState(line, false, Mandatory(output.stream, line));
      if t.mandatory && |line| > MAX_PROTOCOL_LINE {
        t := LineState([], true, true);
        output.TooLongLine(true);
      }
    }
  }

  /** The complete lines and the tail after one piece more. */
  function LinesAfter(lines: seq<seq<Byte>>, tail: seq<Byte>, part: seq<Byte>): seq<seq<Byte>>
    requires part != []
  {
    if part[|part| - 1] == NEWLINE then lines + [tail + part] else lines
  }

  function TailAfter(tail: seq<Byte>, part: seq<Byte>): seq<Byte>
    requires part != []
  {
    if part[|part| - 1] == NEWLINE then [] else tail + part
  }

  lemma Added(bytes: seq<Byte>, part: seq<Byte>, whole: seq<Byte>)
    requires whole == bytes + part && part != [] && NoNewline(part[..|part| - 1])
    ensures LinesOf(whole) == LinesAfter(LinesOf(bytes), TailOf(bytes), part)
    ensures TailOf(whole) == TailAfter(TailOf(bytes), part)
  {
    if part[|part| - 1] == NEWLINE {
      Ended(bytes, part);
    } else {
      assert part == part[..|part| - 1] + [part[|part| - 1]];
      Appended(bytes, part);
    }
  }

  method Feed(output: Output, s: LineState, part: seq<Byte>, ghost lines: seq<seq<Byte>>, ghost tail: seq<Byte>)
    returns (t: LineState)
    requires output.Valid() && Tracks(output.stream, lines, tail, output.emitted, s)
    requires 0 < |part| <= MAX_CHUNK
    modifies output
    ensures output.Valid() && output.cut == old(output.cut)
    ensures Tracks(output.stream, LinesAfter(lines, tail, part), TailAfter(tail, part), output.emitted, t)
  {
    t := Extend(output, s, part, lines, tail);
    if part[|part| - 1] == NEWLINE {
      t := EndLine(output, t, lines, tail + part);
    }
  }

  lemma OneMore(stream: Stream, lines: seq<seq<Byte>>, line: seq<Byte>)
    ensures ClassifyAll(stream, lines + [line]) == ClassifyAll(stream, lines) + [Classify(stream, line)]
  {}

  lemma EmptyLine(stream: Stream)
    ensures Mandatory(stream, []) == Protocol(stream) && !TooLong(stream, [])
  {}

  method ReadChunk(output: Output, s: LineState, chunk: seq<Byte>, ghost bytes: seq<Byte>) returns (t: LineState)
    requires output.Valid() && Tracks(output.stream, LinesOf(bytes), TailOf(bytes), output.emitted, s)
    requires |chunk| <= MAX_CHUNK
    modifies output
    ensures output.Valid() && output.cut == old(output.cut)
    ensures Tracks(output.stream, LinesOf(bytes + chunk), TailOf(bytes + chunk), output.emitted, t)
  {
    var rest := chunk;
    t := s;
    ghost var read, lines, tail := bytes, LinesOf(bytes), TailOf(bytes);
    while rest != []
      invariant read + rest == bytes + chunk && |rest| <= MAX_CHUNK
      invariant lines == LinesOf(read) && tail == TailOf(read)
      invariant output.Valid() && output.cut == old(output.cut)
      invariant Tracks(output.stream, lines, tail, output.emitted, t)
      decreases |rest|
    {
      var end := PieceLength(rest);
      t := Feed(output, t, rest[..end], lines, tail);
      PieceTaken(read, rest, end);
      read, lines, tail := read + rest[..end], LinesAfter(lines, tail, rest[..end]), TailAfter(tail, rest[..end]);
      rest := rest[end..];
    }
    assert read + [] == read;
  }

  /** The bytes up to and with the next newline, or all of them. */
  method PieceLength(rest: seq<Byte>) returns (end: nat)
    requires rest != []
    ensures 0 < end <= |rest| && NoNewline(rest[..end][..end - 1])
  {
    FirstPart(rest);
    var newline := Position(rest, NEWLINE, |rest|);
    end := if newline.Some? then newline.value + 1 else |rest|;
  }

  lemma PieceTaken(read: seq<Byte>, rest: seq<Byte>, end: nat)
    requires 0 < end <= |rest| && NoNewline(rest[..end][..end - 1])
    ensures read + rest[..end] + rest[end..] == read + rest
    ensures LinesOf(read + rest[..end]) == LinesAfter(LinesOf(read), TailOf(read), rest[..end])
    ensures TailOf(read + rest[..end]) == TailAfter(TailOf(read), rest[..end])
  {
    assert rest[..end] + rest[end..] == rest;
    Associates(read, rest[..end], rest[end..]);
    Added(read, rest[..end], read + rest[..end]);
  }

  function Joined(chunks: seq<seq<Byte>>): seq<Byte> {
    if chunks == [] then [] else Joined(chunks[..|chunks| - 1]) + chunks[|chunks| - 1]
  }

  /** What raises the reader's error: a mandatory line that is too long or finds no room, a mandatory line without its
      end, and a stream other than the error output that breaks. */
  ghost predicate Fails(stream: Stream, room: Room, bytes: seq<Byte>, broken: bool, emitted: seq<Emission>) {
    || (exists k: nat :: k < |emitted| && emitted[k].mandatory && (emitted[k].event.Oversized? || !room(k)))
    || (!broken && TailOf(bytes) != [] && Mandatory(stream, TailOf(bytes)) && |TailOf(bytes)| <= 65536)
    || (broken && !stream.Stderr?)
  }

  /** Read every chunk and then meet the end of the file or a read error. */
  method ReadOutput(output: Output, chunks: seq<seq<Byte>>, broken: bool)
    requires output.Valid() && output.emitted == [] && !output.fatal
    requires forall i | 0 <= i < |chunks| :: 0 < |chunks[i]| <= MAX_CHUNK
    modifies output
    ensures output.Valid()
    ensures output.emitted
            == if broken then Broken(output.stream, Joined(chunks)) else Expected(output.stream, Joined(chunks))
    ensures output.fatal <==> Fails(output.stream, output.room, Joined(chunks), broken, output.emitted)
    ensures !output.fatal ==> output.protocolQueue == Selected(output.emitted, true)
    ensures !broken && !output.fatal ==>
              TailOf(Joined(chunks)) == [] || !Mandatory(output.stream, TailOf(Joined(chunks)))
  {
    var s := LineState([], false, Protocol(output.stream));
    EmptyLine(output.stream);
    for n := 0 to |chunks|
      invariant output.Valid() && !output.cut
      invariant Tracks(output.stream, LinesOf(Joined(chunks[..n])), TailOf(Joined(chunks[..n])), output.emitted, s)
    {
      s := ReadChunk(output, s, chunks[n], Joined(chunks[..n]));
      assert chunks[..n + 1][..n] == chunks[..n];
    }
    assert chunks[..|chunks|] == chunks;
    if broken {
      BreakOff(output, s, Joined(chunks));
    } else {
      EndOfFile(output, s, Joined(chunks));
      ExpectedFails(output.stream, output.room, Joined(chunks));
    }
    if !output.fatal {
      AllQueued(output.emitted, output.room);
    }
  }

  method BreakOff(output: Output, s: LineState, ghost bytes: seq<Byte>)
    requires output.Valid() && Tracks(output.stream, LinesOf(bytes), TailOf(bytes), output.emitted, s)
    requires !output.cut
    modifies output
    ensures output.Valid() && output.emitted == Broken(output.stream, bytes)
    ensures output.fatal <==> Fails(output.stream, output.room, bytes, true, output.emitted)
  {
    output.Break(!output.stream.Stderr?);
    BrokenFails(output.stream, output.room, bytes);
  }

  /** An incomplete mandatory line is fatal; an ordinary one is emitted. */
  method EndOfFile(output: Output, s: LineState, ghost bytes: seq<Byte>)
    requires output.Valid() && Tracks(output.stream, LinesOf(bytes), TailOf(bytes), output.emitted, s)
    requires !output.cut
    modifies output
    ensures output.Valid() && output.emitted == Expected(output.stream, bytes)
    ensures output.fatal <==> Fails(output.stream, output.room, bytes, false, output.emitted)
  {
    if !s.oversized && s.line != [] {
      if s.mandatory {
        output.fatal := true;
        output.cut := true;
      } else {
        output.EmitLine(s.line, false);
      }
    }
    ExpectedFails(output.stream, output.room, bytes);
  }

  lemma LostExactly(emissions: seq<Emission>, room: Room)
    ensures !NothingLost(emissions, room)
            <==> exists k: nat :: k < |emissions| && emissions[k].mandatory && (!emissions[k].event.Line? || !room(k))
  {}

  lemma BrokenFails(stream: Stream, room: Room, bytes: seq<Byte>)
    ensures Fails(stream, room, bytes, true, Broken(stream, bytes))
            <==> !stream.Stderr? || !NothingLost(Broken(stream, bytes), room)
  {
    LostExactly(Broken(stream, bytes), room);
    BrokenErrors(stream, bytes);
  }

  /** The only read error of a broken stream is its last event. */
  lemma BrokenErrors(stream: Stream, bytes: seq<Byte>)
    ensures var es := Broken(stream, bytes);
            forall k | 0 <= k < |es| && es[k].event.ReadError? :: es[k].mandatory == !stream.Stderr?
  {}

  lemma ExpectedFails(stream: Stream, room: Room, bytes: seq<Byte>)
    ensures var tail, es := TailOf(bytes), Expected(stream, bytes);
            && (Fails(stream, room, bytes, false, es)
                <==> (tail != [] && Mandatory(stream, tail) && |tail| <= 65536) || !NothingLost(es, room))
            && (!Fails(stream, room, bytes, false, es) ==> tail == [] || !Mandatory(stream, tail))
  {
    var tail, es := TailOf(bytes), Expected(stream, bytes);
    LostExactly(es, room);
    assert forall k | 0 <= k < |es| :: !es[k].event.ReadError?;
    if Mandatory(stream, tail) && |tail| > 65536 {
      assert es[|es| - 1] == Emission(Oversized, true);
    }
  }

  lemma {:induction false} FirstPart(rest: seq<Byte>)
    requires rest != []
    ensures var newline := Position(rest, NEWLINE, |rest|);
            var end := if newline.Some? then newline.value + 1 else |rest|;
            0 < end <= |rest| && NoNewline(rest[..end][..end - 1])
    decreases |rest|
  {
    if rest[0] != NEWLINE && |rest| > 1 {
      FirstPart(rest[1..]);
      var newline := Position(rest, NEWLINE, |rest|);
      var end := if newline.Some? then newline.value + 1 else |rest|;
      assert forall i | 0 < i < end - 1 :: rest[i] == rest[1..][..end - 1][..end - 2][i - 1];
    }
  }

  /** If every mandatory emission found room, the protocol queue is all of them in order. */
  lemma {:induction false} AllQueued(emissions: seq<Emission>, room: Room)
    requires forall k: nat | k < |emissions| && emissions[k].mandatory :: room(k)
    ensures Queued(emissions, room, true) == Selected(emissions, true)
    decreases |emissions|
  {
    if emissions != [] {
      AllQueued(emissions[..|emissions| - 1], room);
    }
  }
}
