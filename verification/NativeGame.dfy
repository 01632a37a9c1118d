/** The game process as the driver meets it: a lossy, sequential consumer of request frames.

    Frames are numbered in the order in which they are written. The numbers, the fates and the set of
    produced results are history; the driver never sees them. The game takes frames in order and
    either loses one silently, answers it with one Busy, or works on it. Working means executing it or
    rejecting it in Lua; either emits lines tagged with the request's id and then one Done, unless the
    game abandons the command. Replies reach the driver in order. */
module NativeGame {
  import opened Options
  import opened DriverShared

  datatype Frame = Command(id: RequestId, generation: nat) | Shutdown

  datatype Fate = Waiting | Lost | Busied | Rejected | Executed

  datatype Work = Idle | Executing(announced: bool) | Rejecting

  datatype Reply = Tagged(serial: nat, response: RpcResponse) | Marker(serial: nat, busy: bool)

  /** Frames below `read` have left the pipe; frames below `next` have met their fate. The frame being
      worked on is `next - 1`. */
  datatype Game = Game(
    log: seq<Frame>, fate: seq<Fate>, read: nat, next: nat, work: Work,
    replies: seq<Reply>, produced: set<(RequestId, Payload)>)

  const Booted := Game([], [], 0, 0, Idle, [], {})

  datatype Act =
    | ReadPipe
    | Lose
    | RefuseBusy
    | Begin(execute: bool)
    | Emit(response: RpcResponse)
    | Finish
    | Abandon

  predicate Announces(response: RpcResponse) {
    response.accepted && response.result.None?
  }

  /** A result that the driver reads as a rejection unless acceptance was announced before it. */
  predicate LooksRejected(response: RpcResponse) {
    && response.result.Some? && response.result.value.ErrResult?
    && response.result.value.error.Some? && BeforeAcceptance(response.result.value.error.value)
  }

  predicate Yields(response: RpcResponse) {
    response.result.Some? && response.result.value.OkResult? && response.result.value.data.Some?
  }

  /** What the Lua side may print for the frame it works on. An executed command carries its own
      generation and announces acceptance before any result that looks like a rejection. */
  predicate MayEmit(g: Game, response: RpcResponse) {
    && 0 < g.next <= |g.log| && g.log[g.next - 1].Command?
    && response.id == Some(g.log[g.next - 1].id)
    && match g.work
       case Idle => false
       case Executing(announced) =>
         && response.generation == Some(g.log[g.next - 1].generation)
         && (LooksRejected(response) ==> announced)
       case Rejecting =>
         response.result.Some? && response.result.value.ErrResult? && !response.accepted
  }

  predicate CanAct(g: Game, act: Act) {
    match act
    case ReadPipe => true
    case Lose => g.work.Idle? && g.next < g.read
    case RefuseBusy => g.work.Idle? && g.next < g.read
    case Begin(_) => g.work.Idle? && g.next < g.read
    case Emit(response) => MayEmit(g, response)
    case Finish => !g.work.Idle?
    case Abandon => !g.work.Idle?
  }

  ghost predicate Shaped(g: Game) {
    |g.fate| == |g.log| && g.next <= g.read <= |g.log| && (!g.work.Idle? ==> 0 < g.next)
  }

  function Meet(g: Game, fate: Fate): Game
    requires g.next < |g.fate|
  {
    g.(fate := g.fate[g.next := fate], next := g.next + 1)
  }

  function Act1(g: Game, act: Act): Game
    requires Shaped(g) && CanAct(g, act)
  {
    match act
    case ReadPipe => g.(read := |g.log|)
    case Lose => Meet(g, Lost)
    case RefuseBusy => Meet(g, Busied).(replies := g.replies + [Marker(g.next, true)])
    case Begin(execute) =>
      if execute then Meet(g, Executed).(work := Executing(false)) else Meet(g, Rejected).(work := Rejecting)
    case Emit(response) =>
      var id := g.log[g.next - 1].id;
      g.(replies := g.replies + [Tagged(g.next - 1, response)],
         work := if g.work.Executing? then Executing(g.work.announced || Announces(response)) else g.work,
         produced := if Yields(response) then g.produced + {(id, response.result.value.data.value)} else g.produced)
    case Finish => g.(work := Idle, replies := g.replies + [Marker(g.next - 1, false)])
    case Abandon => g.(work := Idle)
  }

  /** The driver writes a frame only when the pipe is empty. */
  predicate PipeEmpty(g: Game) {
    g.read == |g.log|
  }

  function Write(g: Game, frame: Frame): Game {
    g.(log := g.log + [frame], fate := g.fate + [Waiting])
  }

  function Consume(g: Game): Game
    requires g.replies != []
  {
    g.(replies := g.replies[1..])
  }

  // ----- What the game guarantees

  ghost predicate ReplyOk(g: Game, reply: Reply)
    requires Shaped(g)
  {
    && reply.serial < g.next
    && match reply
       case Marker(n, busy) =>
         if busy then g.fate[n] == Busied else g.fate[n] == Executed || g.fate[n] == Rejected
       case Tagged(n, response) =>
         && (g.fate[n] == Executed || g.fate[n] == Rejected)
         && g.log[n].Command? && response.id == Some(g.log[n].id)
         && (g.fate[n] == Executed ==> response.generation == Some(g.log[n].generation))
         && (g.fate[n] == Rejected ==>
               response.result.Some? && response.result.value.ErrResult? && !response.accepted)
         && (Yields(response) ==> (g.log[n].id, response.result.value.data.value) in g.produced)
  }

  /** Replies keep the order of their frames, and a marker is the last reply of its frame. */
  ghost predicate Ordered(replies: seq<Reply>) {
    forall i, j | 0 <= i < j < |replies| ::
      && replies[i].serial <= replies[j].serial
      && (replies[i].Marker? ==> replies[i].serial < replies[j].serial)
  }

  ghost predicate GameOk(g: Game) {
    && Shaped(g)
    && (forall n | 0 <= n < |g.log| :: (g.fate[n] == Waiting) == (g.next <= n))
    && (g.work.Executing? ==> g.fate[g.next - 1] == Executed)
    && (g.work.Rejecting? ==> g.fate[g.next - 1] == Rejected)
    && (forall i | 0 <= i < |g.replies| :: ReplyOk(g, g.replies[i]))
    && Ordered(g.replies)
    && (!g.work.Idle? ==> forall i | 0 <= i < |g.replies| :: g.replies[i].Marker? ==> g.replies[i].serial < g.next - 1)
  }

  /** `seen` are the frames whose acceptance line the driver has read. A result of an executed frame
      that looks rejected is preceded by that line. */
  ghost predicate Announced(g: Game, seen: set<nat>, n: nat, limit: nat)
    requires limit <= |g.replies|
  {
    n in seen || exists j :: 0 <= j < limit && AnnouncesFrame(g.replies[j], n)
  }

  ghost predicate AnnouncesFrame(reply: Reply, n: nat) {
    reply.Tagged? && reply.serial == n && Announces(reply.response)
  }

  ghost predicate AnnouncedFirst(g: Game, seen: set<nat>)
    requires Shaped(g)
  {
    && (forall n | n in seen :: n < g.next)
    && (forall i | 0 <= i < |g.replies| && g.replies[i].Tagged? && LooksRejected(g.replies[i].response) ::
          g.replies[i].serial < |g.fate| && g.fate[g.replies[i].serial] == Executed ==>
            Announced(g, seen, g.replies[i].serial, i))
    && (g.work == Executing(true) ==> Announced(g, seen, g.next - 1, |g.replies|))
  }

  /** Fates are final once met, and results once produced. */
  ghost predicate Extends(g: Game, h: Game) {
    && |g.fate| == |g.log| <= |h.log| == |h.fate|
    && g.log == h.log[..|g.log|]
    && (forall n | 0 <= n < |g.log| :: g.fate[n] != Waiting ==> h.fate[n] == g.fate[n])
    && g.produced <= h.produced
  }

  lemma MeetOk(g: Game, fate: Fate)
    requires GameOk(g) && g.work.Idle? && g.next < g.read && fate != Waiting
    ensures GameOk(Meet(g, fate)) && Extends(g, Meet(g, fate))
  {}

  lemma PushOk(g: Game, reply: Reply)
    requires GameOk(g) && ReplyOk(g, reply)
    requires g.work.Idle? || reply.Tagged?
    requires forall i | 0 <= i < |g.replies| ::
               && g.replies[i].serial <= reply.serial
               && (g.replies[i].Marker? ==> g.replies[i].serial < reply.serial)
    ensures GameOk(g.(replies := g.replies + [reply]))
  {}

  lemma EmitOk(g: Game, response: RpcResponse)
    requires GameOk(g) && MayEmit(g, response)
    ensures GameOk(Act1(g, Emit(response))) && Extends(g, Act1(g, Emit(response)))
  {
    var h := Act1(g, Emit(response));
    var tagged := Tagged(g.next - 1, response);
    forall i | 0 <= i < |h.replies| ensures ReplyOk(h, h.replies[i]) {
      if i < |g.replies| {
        assert ReplyOk(g, g.replies[i]);
      }
    }
    forall i | 0 <= i < |g.replies| ensures g.replies[i].serial <= g.next - 1 {
      assert ReplyOk(g, g.replies[i]);
    }
    assert Ordered(h.replies);
  }

  lemma BusyOk(g: Game)
    requires GameOk(g) && CanAct(g, RefuseBusy)
    ensures GameOk(Act1(g, RefuseBusy)) && Extends(g, Act1(g, RefuseBusy))
  {
    MeetOk(g, Busied);
    PushOk(Meet(g, Busied), Marker(g.next, true));
  }

  lemma FinishOk(g: Game)
    requires GameOk(g) && CanAct(g, Finish)
    ensures GameOk(Act1(g, Finish)) && Extends(g, Act1(g, Finish))
  {
    forall i | 0 <= i < |g.replies| ensures g.replies[i].serial <= g.next - 1 {
      assert ReplyOk(g, g.replies[i]);
    }
    PushOk(g.(work := Idle), Marker(g.next - 1, false));
  }

  lemma BeginOk(g: Game, execute: bool)
    requires GameOk(g) && CanAct(g, Begin(execute))
    ensures GameOk(Act1(g, Begin(execute))) && Extends(g, Act1(g, Begin(execute)))
  {
    MeetOk(g, if execute then Executed else Rejected);
    forall i | 0 <= i < |g.replies| ensures g.replies[i].serial < g.next {
      assert ReplyOk(g, g.replies[i]);
    }
  }

  lemma ActOk(g: Game, act: Act)
    requires GameOk(g) && CanAct(g, act)
    ensures GameOk(Act1(g, act)) && Extends(g, Act1(g, act)) && Act1(g, act).log == g.log
  {
    match act
    case Lose => MeetOk(g, Lost);
    case RefuseBusy => BusyOk(g);
    case Begin(execute) => BeginOk(g, execute);
    case Emit(response) => EmitOk(g, response);
    case Finish => FinishOk(g);
    case _ =>
  }

  lemma WriteOk(g: Game, frame: Frame)
    requires GameOk(g)
    ensures GameOk(Write(g, frame)) && Extends(g, Write(g, frame))
  {
    var h := Write(g, frame);
    forall i | 0 <= i < |h.replies| ensures ReplyOk(h, h.replies[i]) {
      assert ReplyOk(g, g.replies[i]);
    }
  }

  lemma ConsumeOk(g: Game)
    requires GameOk(g) && g.replies != []
    ensures GameOk(Consume(g)) && Extends(g, Consume(g))
  {
    var h := Consume(g);
    forall i | 0 <= i < |h.replies| ensures ReplyOk(h, h.replies[i]) {
      assert h.replies[i] == g.replies[i + 1];
      assert ReplyOk(g, g.replies[i + 1]);
    }
  }

  lemma AnnouncedGrows(g: Game, h: Game, seen: set<nat>, n: nat, limit: nat)
    requires limit <= |g.replies| <= |h.replies| && g.replies == h.replies[..|g.replies|]
    requires Announced(g, seen, n, limit)
    ensures forall l | limit <= l <= |h.replies| :: Announced(h, seen, n, l)
  {
    if n !in seen {
      var j :| 0 <= j < limit && AnnouncesFrame(g.replies[j], n);
      assert AnnouncesFrame(h.replies[j], n);
    }
  }

  lemma ActAnnounced(g: Game, act: Act, seen: set<nat>)
    requires GameOk(g) && CanAct(g, act) && AnnouncedFirst(g, seen)
    ensures AnnouncedFirst(Act1(g, act), seen)
  {
    var h := Act1(g, act);
    assert g.replies == h.replies[..|g.replies|];
    forall i | 0 <= i < |h.replies| && h.replies[i].Tagged? && LooksRejected(h.replies[i].response)
      ensures h.replies[i].serial < |h.fate| && h.fate[h.replies[i].serial] == Executed ==>
                Announced(h, seen, h.replies[i].serial, i)
    {
      if i < |g.replies| {
        assert ReplyOk(g, g.replies[i]);
        if g.fate[g.replies[i].serial] == Executed {
          AnnouncedGrows(g, h, seen, g.replies[i].serial, i);
        }
      } else if g.work == Executing(true) {
        AnnouncedGrows(g, h, seen, g.next - 1, i);
      }
    }
    if h.work == Executing(true) {
      if g.work == Executing(true) {
        AnnouncedGrows(g, h, seen, g.next - 1, |g.replies|);
      } else {
        assert AnnouncesFrame(h.replies[|g.replies|], h.next - 1);
      }
    }
  }

  lemma WriteAnnounced(g: Game, frame: Frame, seen: set<nat>)
    requires GameOk(g) && AnnouncedFirst(g, seen)
    ensures AnnouncedFirst(Write(g, frame), seen)
  {
    var h := Write(g, frame);
    forall i | 0 <= i < |h.replies| && h.replies[i].Tagged? && LooksRejected(h.replies[i].response)
      ensures h.replies[i].serial < |h.fate| && h.fate[h.replies[i].serial] == Executed ==>
                Announced(h, seen, h.replies[i].serial, i)
    {
      assert ReplyOk(g, g.replies[i]);
      if g.fate[g.replies[i].serial] == Executed {
        AnnouncedGrows(g, h, seen, g.replies[i].serial, i);
      }
    }
    if g.work == Executing(true) {
      AnnouncedGrows(g, h, seen, g.next - 1, |g.replies|);
    }
  }

  /** Reading a line moves an acceptance from the queue into `seen`. */
  function SeenAfter(g: Game, seen: set<nat>): set<nat>
    requires g.replies != []
  {
    if g.replies[0].Tagged? && Announces(g.replies[0].response) then seen + {g.replies[0].serial} else seen
  }

  lemma ConsumeKeepsAnnounced(g: Game, seen: set<nat>, n: nat, limit: nat)
    requires g.replies != [] && 1 <= limit <= |g.replies|
    requires Announced(g, seen, n, limit)
    ensures Announced(Consume(g), SeenAfter(g, seen), n, limit - 1)
  {
    if n !in seen {
      var j :| 0 <= j < limit && AnnouncesFrame(g.replies[j], n);
      if j > 0 {
        assert AnnouncesFrame(Consume(g).replies[j - 1], n);
      }
    }
  }

  lemma ConsumeAnnounced(g: Game, seen: set<nat>)
    requires GameOk(g) && g.replies != [] && AnnouncedFirst(g, seen)
    ensures AnnouncedFirst(Consume(g), SeenAfter(g, seen))
  {
    var h := Consume(g);
    assert ReplyOk(g, g.replies[0]);
    forall i | 0 <= i < |h.replies| && h.replies[i].Tagged? && LooksRejected(h.replies[i].response)
      ensures h.replies[i].serial < |h.fate| && h.fate[h.replies[i].serial] == Executed ==>
                Announced(h, SeenAfter(g, seen), h.replies[i].serial, i)
    {
      assert h.replies[i] == g.replies[i + 1];
      if g.fate[g.replies[i + 1].serial] == Executed {
        ConsumeKeepsAnnounced(g, seen, g.replies[i + 1].serial, i + 1);
      }
    }
    if g.work == Executing(true) {
      ConsumeKeepsAnnounced(g, seen, g.next - 1, |g.replies|);
    }
  }

  // ----- Nothing or only the last frame in flight

  ghost predicate Quiet(g: Game) {
    g.next == |g.log| && g.work.Idle? && g.replies == []
  }

  ghost predicate OnlyLast(g: Game) {
    && 0 < |g.log| && |g.log| - 1 <= g.next
    && (!g.work.Idle? ==> g.next == |g.log|)
    && (forall i | 0 <= i < |g.replies| :: g.replies[i].serial == |g.log| - 1)
  }

  lemma ActQuiet(g: Game, act: Act)
    requires GameOk(g) && CanAct(g, act)
    ensures Quiet(g) ==> Quiet(Act1(g, act))
    ensures OnlyLast(g) ==> OnlyLast(Act1(g, act))
  {}

  /** A frame whose tagged reply has come first, or whose marker is next, is the last one written only
      if nothing older is in flight. */
  lemma ConsumedLast(g: Game)
    requires GameOk(g) && g.replies != [] && g.replies[0].serial == |g.log| - 1
    ensures OnlyLast(Consume(g))
    ensures g.replies[0].Marker? ==> Quiet(Consume(g))
  {
    var h := Consume(g);
    assert ReplyOk(g, g.replies[0]);
    forall i | 0 <= i < |h.replies| ensures h.replies[i].serial == |g.log| - 1 {
      assert h.replies[i] == g.replies[i + 1];
      assert ReplyOk(g, g.replies[i + 1]);
    }
    if |g.replies| > 1 {
      var first, second := g.replies[0], g.replies[1];
      assert ReplyOk(g, second);
      assert !first.Marker? || first.serial < second.serial;
    }
  }
}
