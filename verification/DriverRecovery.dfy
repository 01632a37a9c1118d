/** A ready driver recovers: whatever happened to earlier frames, a new request can still be answered. */
module DriverRecovery {
  import opened Options
  import opened DriverShared
  import opened NativeGame
  import opened DriverProtocol

  // ----- Continuations

  ghost predicate Leads(s: System, t: System) {
    exists steps :: Reaches(s, steps, t)
  }

  lemma {:induction false} ReachesAppend(s: System, a: seq<Step>, m: System, b: seq<Step>, t: System)
    requires Reaches(s, a, m) && Reaches(m, b, t)
    ensures Reaches(s, a + b, t)
    decreases |a|
  {
    if a == [] {
      assert a + b == b;
    } else {
      assert (a + b)[0] == a[0] && (a + b)[1..] == a[1..] + b;
      ReachesAppend(Do(s, a[0]), a[1..], m, b, t);
    }
  }

  lemma LeadsOn(s: System, m: System, t: System)
    requires Leads(s, m) && Leads(m, t)
    ensures Leads(s, t)
  {
    var a :| Reaches(s, a, m);
    var b :| Reaches(m, b, t);
    ReachesAppend(s, a, m, b, t);
  }

  lemma LeadsNowhere(s: System)
    ensures Leads(s, s)
  {
    assert Reaches(s, [], s);
  }

  /** A reachable state. */
  ghost predicate Live(s: System) {
    Shaped(s.game) && Leads(Start, s)
  }

  lemma LiveInv(s: System)
    requires Leads(Start, s)
    ensures Live(s) && Inv(s)
  {
    var steps :| Reaches(Start, steps, s);
    RunKeeps(Start, steps, s);
  }

  lemma OneStep(s: System, step: Step)
    requires Live(s) && Enabled(s, step)
    ensures Leads(s, Do(s, step)) && Live(Do(s, step))
  {
    var t := Do(s, step);
    assert [step][1..] == [];
    assert Reaches(t, [], t);
    assert Reaches(s, [step], t);
    LeadsOn(Start, s, t);
    LiveInv(t);
  }

  lemma Then(s: System, m: System, step: Step)
    requires Leads(s, m) && Live(m) && Enabled(m, step)
    ensures Leads(s, Do(m, step)) && Live(Do(m, step))
  {
    OneStep(m, step);
    LeadsOn(s, m, Do(m, step));
  }

  // ----- The lock becomes free

  /** Nothing has changed but what became of the worker that held the lock. */
  ghost predicate Freed(s: System, t: System) {
    && t.holder.Free? && t.game == s.game && t.shared.status == s.shared.status
    && t.shared.slot.channels >= s.shared.slot.channels
    && forall id | Known(t, id) :: Known(s, id)
  }

  lemma SendingFrees(s: System) returns (t: System)
    requires Live(s) && InPhase(s, Sending)
    ensures Leads(s, t) && Live(t) && Freed(s, t)
  {
    t := Do(s, SendFails(false));
    OneStep(s, SendFails(false));
  }

  lemma ListeningFrees(s: System) returns (t: System)
    requires Live(s) && InPhase(s, Listening)
    ensures Leads(s, t) && Live(t) && Freed(s, t)
  {
    t := Do(s, GiveUp);
    OneStep(s, GiveUp);
  }

  lemma InstallingFrees(s: System) returns (t: System)
    requires Live(s) && InPhase(s, Installing)
    ensures Leads(s, t) && Live(t) && Freed(s, t)
  {
    var m := Do(s, TryInstall);
    OneStep(s, TryInstall);
    if m.holder.Free? {
      t := m;
    } else {
      t := SendingFrees(m);
      LeadsOn(s, m, t);
    }
  }

  lemma WroteFrees(s: System) returns (t: System)
    requires Live(s) && InPhase(s, Wrote)
    ensures Leads(s, t) && Live(t) && Freed(s, t)
  {
    var m := Do(s, NoteWritten);
    OneStep(s, NoteWritten);
    t := ListeningFrees(m);
    LeadsOn(s, m, t);
  }

  lemma ReadyMeans(s: System)
    requires Live(s) && s.shared.status.ready
    ensures s.shared.status.running && s.shared.status.generation.Some? && !s.shared.status.stopping
    ensures !s.holder.Stopper? && !Stopped(s)
  {
    LiveInv(s);
  }

  lemma BecomesFree(s: System) returns (t: System)
    requires Live(s) && s.shared.status.ready
    ensures Leads(s, t) && Live(t) && Freed(s, t)
  {
    ReadyMeans(s);
    if s.holder.Free? {
      t := s;
      LeadsNowhere(s);
    } else if InPhase(s, Sending) {
      t := SendingFrees(s);
    } else if InPhase(s, Listening) {
      t := ListeningFrees(s);
    } else if InPhase(s, Installing) {
      t := InstallingFrees(s);
    } else if InPhase(s, Wrote) {
      t := WroteFrees(s);
    } else {
      t := Do(s, SleepTimeout);
      OneStep(s, SleepTimeout);
    }
  }

  // ----- The game takes no more notice of earlier frames

  /** Every frame has met its fate, and the game is idle. */
  ghost predicate AtRest(g: Game) {
    g.work.Idle? && g.next == g.read == |g.log|
  }

  lemma {:induction false} LosesAll(s: System) returns (t: System)
    requires Live(s) && s.game.work.Idle? && s.game.read == |s.game.log|
    ensures Leads(s, t) && Live(t) && t == s.(game := t.game)
    ensures AtRest(t.game) && t.game.log == s.game.log && t.game.replies == s.game.replies
    decreases |s.game.log| - s.game.next
  {
    if s.game.next == s.game.read {
      t := s;
      LeadsNowhere(s);
    } else {
      var m := Do(s, GameMoves(Lose));
      OneStep(s, GameMoves(Lose));
      t := LosesAll(m);
      LeadsOn(s, m, t);
    }
  }

  lemma ForgetsAll(s: System) returns (t: System)
    requires Live(s)
    ensures Leads(s, t) && Live(t) && t == s.(game := t.game)
    ensures AtRest(t.game) && t.game.log == s.game.log && t.game.replies == s.game.replies
  {
    var m := s;
    LeadsNowhere(s);
    if !s.game.work.Idle? {
      m := Do(s, GameMoves(Abandon));
      Then(s, s, GameMoves(Abandon));
    }
    var n := Do(m, GameMoves(ReadPipe));
    Then(s, m, GameMoves(ReadPipe));
    t := LosesAll(n);
    LeadsOn(s, n, t);
  }

  // ----- A new request is written

  function FreshRecord(id: RequestId, generation: nat): Record {
    NewRecord(id, OtherMethod, generation).(written := true)
  }

  /** The worker of the new request waits on its channel, and its frame is the last one written. */
  ghost predicate Awaits(s: System, id: RequestId, generation: nat, synchronized: bool) {
    && s.holder.Worker? && s.holder == Worker(id, OtherMethod, generation, Listening, s.holder.channel)
    && s.shared.status.running && s.shared.status.generation == Some(generation)
    && s.shared.slot.active
       == Some(Pending(FreshRecord(id, generation), None, Some(s.holder.channel), synchronized))
    && s.game.log != [] && s.game.log[|s.game.log| - 1] == Command(id, generation)
  }

  /** A free lock means that the request in the slot has been answered. */
  lemma SlotIsFree(s: System)
    requires Live(s) && s.holder.Free? && s.shared.status.ready
    ensures s.shared.status.generation.Some? && CanInstall(s.shared, s.shared.status.generation.value)
    ensures s.shared.slot.active.None? ==> s.game.replies == []
  {
    ReadyMeans(s);
    LiveInv(s);
  }

  lemma Acquires(s: System, id: RequestId, generation: nat) returns (t: System)
    requires Live(s) && s.holder.Free? && !Known(s, id)
    ensures Leads(s, t) && Live(t)
    ensures t == s.(holder := Worker(id, OtherMethod, generation, Installing, 0))
  {
    var request := Request(OtherMethod, generation);
    var m := Do(s, Submit(id, request));
    OneStep(s, Submit(id, request));
    t := Do(m, Acquire(id));
    Then(s, m, Acquire(id));
    assert s.queued[id := request] - {id} == s.queued;
  }

  lemma Installs(s: System, id: RequestId, generation: nat) returns (t: System)
    requires Live(s) && s.holder == Worker(id, OtherMethod, generation, Installing, 0)
    requires CanInstall(s.shared, generation)
    ensures Leads(s, t) && Live(t) && t.game == s.game && t.shared.status == s.shared.status
    ensures InPhase(t, Sending) && t.holder == Worker(id, OtherMethod, generation, Sending, s.shared.slot.channels)
    ensures t.shared.slot.active == Some(Pending(NewRecord(id, OtherMethod, generation), None,
                                                 Some(s.shared.slot.channels), s.shared.slot.active.None?))
  {
    t := Do(s, TryInstall);
    OneStep(s, TryInstall);
  }

  lemma Writes(s: System, id: RequestId, generation: nat, synchronized: bool) returns (t: System)
    requires Live(s) && s.shared.status.ready && s.shared.status.generation == Some(generation)
    requires s.holder.Worker? && s.holder == Worker(id, OtherMethod, generation, Sending, s.holder.channel)
    requires s.shared.slot.active == Some(Pending(NewRecord(id, OtherMethod, generation), None,
                                                  Some(s.holder.channel), synchronized))
    requires s.shared.status.running && PipeEmpty(s.game)
    ensures Leads(s, t) && Live(t) && t.game == Write(s.game, Command(id, generation))
    ensures Awaits(t, id, generation, synchronized)
    ensures t.shared.status == s.shared.status && t.holder.channel == s.holder.channel
  {
    var m := Do(s, WriteFrame);
    OneStep(s, WriteFrame);
    t := Do(m, NoteWritten);
    Then(s, m, NoteWritten);
  }

  lemma Dispatches(s: System, id: RequestId, generation: nat) returns (t: System)
    requires Live(s) && s.holder.Free? && s.shared.status.ready && s.shared.status.generation == Some(generation)
    requires AtRest(s.game) && !Known(s, id)
    ensures Leads(s, t) && Live(t) && t.game == Write(s.game, Command(id, generation))
    ensures Awaits(t, id, generation, s.shared.slot.active.None?)
    ensures t.shared.status == s.shared.status && t.holder.channel == s.shared.slot.channels
  {
    ReadyMeans(s);
    SlotIsFree(s);
    var m := Acquires(s, id, generation);
    var n := Installs(m, id, generation);
    LeadsOn(s, m, n);
    t := Writes(n, id, generation, s.shared.slot.active.None?);
    LeadsOn(s, n, t);
  }

  // ----- The game executes it

  function Announcement(id: RequestId, generation: nat): RpcResponse {
    RpcResponse(Some(id), Some(generation), true, None)
  }

  function Result(id: RequestId, generation: nat, data: Payload): RpcResponse {
    RpcResponse(Some(id), Some(generation), false, Some(OkResult(Some(data), true)))
  }

  /** The replies of an executed frame. */
  function Answers(n: nat, id: RequestId, generation: nat, data: Payload): seq<Reply> {
    [Tagged(n, Announcement(id, generation)), Tagged(n, Result(id, generation, data)), Marker(n, false)]
  }

  lemma Plays(s: System, act: Act) returns (t: System)
    requires Live(s) && CanAct(s.game, act)
    ensures Leads(s, t) && Live(t) && t == s.(game := Act1(s.game, act))
  {
    t := Do(s, GameMoves(act));
    OneStep(s, GameMoves(act));
  }

  lemma Begins(s: System) returns (t: System)
    requires Live(s) && s.game.work.Idle? && s.game.next == s.game.read == |s.game.log| - 1
    ensures Leads(s, t) && Live(t) && t == s.(game := t.game)
    ensures t.game.work == Executing(false) && t.game.next == |t.game.log| && t.game.log == s.game.log
    ensures t.game.replies == s.game.replies
  {
    var m := Plays(s, ReadPipe);
    t := Plays(m, Begin(true));
    LeadsOn(s, m, t);
  }

  /** The game works on the last frame, which is this request's. */
  ghost predicate Performs(g: Game, id: RequestId, generation: nat) {
    && g.work.Executing? && 0 < g.next == |g.log| && g.log[|g.log| - 1] == Command(id, generation)
  }

  lemma Prints(s: System, id: RequestId, generation: nat, response: RpcResponse) returns (t: System)
    requires Live(s) && Performs(s.game, id, generation) && !LooksRejected(response)
    requires response.id == Some(id) && response.generation == Some(generation)
    ensures Leads(s, t) && Live(t) && t == s.(game := t.game)
    ensures Performs(t.game, id, generation) && t.game.log == s.game.log
    ensures t.game.replies == s.game.replies + [Tagged(|s.game.log| - 1, response)]
  {
    t := Plays(s, Emit(response));
  }

  lemma Finishes(s: System, id: RequestId, generation: nat) returns (t: System)
    requires Live(s) && Performs(s.game, id, generation)
    ensures Leads(s, t) && Live(t) && t == s.(game := t.game) && t.game.log == s.game.log
    ensures t.game.replies == s.game.replies + [Marker(|s.game.log| - 1, false)]
  {
    t := Plays(s, Finish);
  }

  lemma Executes(s: System, id: RequestId, generation: nat, data: Payload) returns (t: System)
    requires Live(s) && Performs(s.game, id, generation)
    ensures Leads(s, t) && Live(t) && t == s.(game := t.game) && t.game.log == s.game.log
    ensures t.game.replies == s.game.replies + Answers(|s.game.log| - 1, id, generation, data)
  {
    var a := Prints(s, id, generation, Announcement(id, generation));
    var b := Prints(a, id, generation, Result(id, generation, data));
    LeadsOn(s, a, b);
    t := Finishes(b, id, generation);
    LeadsOn(s, b, t);
  }

  // ----- The pump skips what belongs to earlier frames

  /** A pending reply that the driver does not take for this request. */
  ghost predicate Stale(reply: Reply, id: RequestId, synchronized: bool) {
    match reply
    case Tagged(_, response) => response.generation.Some? && response.id.Some? && response.id.value != id
    case Marker(_, _) => !synchronized
  }

  lemma Skips(s: System, id: RequestId, generation: nat, synchronized: bool)
    requires Live(s) && Awaits(s, id, generation, synchronized)
    requires s.game.replies != [] && Stale(s.game.replies[0], id, synchronized)
    ensures Leads(s, Do(s, PumpReply)) && Live(Do(s, PumpReply))
    ensures Awaits(Do(s, PumpReply), id, generation, synchronized)
    ensures Do(s, PumpReply).game == Consume(s.game)
    ensures Do(s, PumpReply).shared.status == s.shared.status && Do(s, PumpReply).holder == s.holder
  {
    OneStep(s, PumpReply);
  }

  lemma {:induction false} SkipsAll(s: System, id: RequestId, generation: nat, synchronized: bool,
                                    earlier: seq<Reply>, rest: seq<Reply>) returns (t: System)
    requires Live(s) && Awaits(s, id, generation, synchronized) && s.game.replies == earlier + rest
    requires forall i | 0 <= i < |earlier| :: Stale(earlier[i], id, synchronized)
    ensures Leads(s, t) && Live(t) && Awaits(t, id, generation, synchronized) && t.game.replies == rest
    ensures t.shared.status == s.shared.status && t.holder == s.holder
    decreases |earlier|
  {
    if earlier == [] {
      t := s;
      LeadsNowhere(s);
      assert earlier + rest == rest;
    } else {
      var m := Do(s, PumpReply);
      assert s.game.replies[0] == earlier[0];
      Skips(s, id, generation, synchronized);
      assert (earlier + rest)[1..] == earlier[1..] + rest;
      t := SkipsAll(m, id, generation, synchronized, earlier[1..], rest);
      LeadsOn(s, m, t);
    }
  }

  // ----- The pump takes the answers

  lemma TakesAnnouncement(s: System, n: nat, id: RequestId, generation: nat, data: Payload, synchronized: bool)
    returns (t: System)
    requires Live(s) && Awaits(s, id, generation, synchronized)
    requires s.game.replies == Answers(n, id, generation, data)
    ensures Leads(s, t) && Live(t) && t.holder == s.holder && t.shared.status == s.shared.status
    ensures t.shared.slot.active
            == Some(Pending(FreshRecord(id, generation).(accepted := true), None, Some(s.holder.channel), true))
    ensures t.game.replies == Answers(n, id, generation, data)[1..]
  {
    t := Do(s, PumpReply);
    OneStep(s, PumpReply);
  }

  lemma Results(s: System, n: nat, c: Channel, id: RequestId, generation: nat, data: Payload) returns (t: System)
    requires Live(s) && s.shared.status.running && s.game.replies == Answers(n, id, generation, data)[1..]
    requires s.shared.slot.active
             == Some(Pending(FreshRecord(id, generation).(accepted := true), None, Some(c), true))
    ensures Leads(s, t) && Live(t) && t.holder == s.holder && t.shared.status == s.shared.status
    ensures t.shared.slot.active
            == Some(Pending(FreshRecord(id, generation).(accepted := true), Some(Success(data)), Some(c), true))
    ensures t.game.replies == [Marker(n, false)]
  {
    assert Answers(n, id, generation, data)[1..] == [Tagged(n, Result(id, generation, data)), Marker(n, false)];
    t := Do(s, PumpReply);
    OneStep(s, PumpReply);
    assert s.game.replies[1..] == [Marker(n, false)];
  }

  /** The request was answered with these data, sent on this channel. */
  ghost predicate Served(s: System, c: Channel, id: RequestId, data: Payload) {
    && id in s.answers && s.answers[id] == Success(data)
    && c in s.shared.slot.mail && s.shared.slot.mail[c] == Success(data)
  }

  lemma Posts(s: System, n: nat, c: Channel, id: RequestId, generation: nat, data: Payload) returns (t: System)
    requires Live(s) && s.shared.status.running && s.game.replies == [Marker(n, false)]
    requires s.shared.slot.active
             == Some(Pending(FreshRecord(id, generation).(accepted := true), Some(Success(data)), Some(c), true))
    ensures Leads(s, t) && Live(t) && t.holder == s.holder && t.shared.status == s.shared.status
    ensures c in t.shared.slot.mail && t.shared.slot.mail[c] == Success(data)
  {
    t := Do(s, PumpReply);
    OneStep(s, PumpReply);
    assert t.shared.slot.mail == s.shared.slot.mail[c := Success(data)];
  }

  lemma Receives(s: System, n: nat, c: Channel, id: RequestId, generation: nat, data: Payload) returns (t: System)
    requires Live(s) && s.shared.status.running && s.game.replies == [Marker(n, false)]
    requires s.holder == Worker(id, OtherMethod, generation, Listening, c)
    requires s.shared.slot.active
             == Some(Pending(FreshRecord(id, generation).(accepted := true), Some(Success(data)), Some(c), true))
    ensures Leads(s, t) && Served(t, c, id, data) && t.shared.status == s.shared.status
  {
    var m := Posts(s, n, c, id, generation, data);
    t := Do(m, Receive);
    Then(s, m, Receive);
  }

  lemma TakesAnswers(s: System, n: nat, id: RequestId, generation: nat, data: Payload, synchronized: bool)
    returns (t: System)
    requires Live(s) && Awaits(s, id, generation, synchronized)
    requires s.game.replies == Answers(n, id, generation, data)
    ensures Leads(s, t) && Served(t, s.holder.channel, id, data) && t.shared.status == s.shared.status
  {
    var c := s.holder.channel;
    var a := TakesAnnouncement(s, n, id, generation, data, synchronized);
    var b := Results(a, n, c, id, generation, data);
    LeadsOn(s, a, b);
    t := Receives(b, n, c, id, generation, data);
    LeadsOn(s, b, t);
  }

  // ----- The main result

  /** Every pending response names a generation; one that does not fails the driver when it is read. */
  ghost predicate Readable(g: Game) {
    forall i | 0 <= i < |g.replies| && g.replies[i].Tagged? :: g.replies[i].response.generation.Some?
  }

  lemma PendingIsStale(s: System, id: RequestId)
    requires Live(s) && s.holder.Free? && s.shared.status.ready && !Known(s, id) && Readable(s.game)
    ensures forall i | 0 <= i < |s.game.replies| :: Stale(s.game.replies[i], id, s.shared.slot.active.None?)
  {
    SlotIsFree(s);
    LiveInv(s);
    forall i | 0 <= i < |s.game.replies| ensures Stale(s.game.replies[i], id, s.shared.slot.active.None?) {
      var reply := s.game.replies[i];
      assert ReplyOk(s.game, reply);
      if reply.Tagged? {
        assert Is(s.game, reply.serial, s.game.log[reply.serial].id);
      }
    }
  }

  lemma RecoversFrom(s: System, id: RequestId, data: Payload) returns (t: System, c: Channel)
    requires Live(s) && s.shared.status.ready && Readable(s.game) && !Known(s, id)
    ensures Leads(s, t) && s.shared.slot.channels <= c && Served(t, c, id, data)
    ensures t.shared.status == s.shared.status
  {
    var a := BecomesFree(s);
    var b := ForgetsAll(a);
    LeadsOn(s, a, b);
    SlotIsFree(b);
    var generation, quiet := b.shared.status.generation.value, b.shared.slot.active.None?;
    PendingIsStale(b, id);
    var d := Dispatches(b, id, generation);
    LeadsOn(s, b, d);
    var e := Begins(d);
    LeadsOn(s, d, e);
    var f := Executes(e, id, generation, data);
    LeadsOn(s, e, f);
    var answers := Answers(|f.game.log| - 1, id, generation, data);
    var g := SkipsAll(f, id, generation, quiet, b.game.replies, answers);
    LeadsOn(s, f, g);
    c := g.holder.channel;
    t := TakesAnswers(g, |f.game.log| - 1, id, generation, data, quiet);
    LeadsOn(s, g, t);
  }

  /** From every reachable state in which the shard is ready and every pending response names a generation, some
      continuation serves a new request with any given data and leaves the shard ready, although earlier frames
      may have been lost, left unanswered or still be in flight. */
  lemma Recovers(steps: seq<Step>, s: System, id: RequestId, data: Payload)
    requires Reaches(Start, steps, s) && s.shared.status.ready && Readable(s.game) && !Known(s, id)
    ensures exists t, c :: Leads(s, t) && s.shared.slot.channels <= c && Served(t, c, id, data) && t.shared.status.ready
  {
    LiveInv(s);
    var t, c := RecoversFrom(s, id, data);
  }

  // ----- The game's own Lua always names the generation

  /** Every response that is printed in these steps names a generation. */
  ghost predicate Headed(steps: seq<Step>) {
    forall i | 0 <= i < |steps| && steps[i].GameMoves? && steps[i].act.Emit? ::
      steps[i].act.response.generation.Some?
  }

  lemma StepReadable(s: System, step: Step)
    requires Shaped(s.game) && Enabled(s, step) && Readable(s.game) && Headed([step])
    ensures Readable(Do(s, step).game)
  {
    assert [step][0] == step;
  }

  lemma {:induction false} RunReadable(s: System, steps: seq<Step>, t: System)
    requires Reaches(s, steps, t) && Readable(s.game) && Headed(steps)
    ensures Readable(t.game)
    decreases |steps|
  {
    if steps != [] {
      assert [steps[0]][0] == steps[0];
      StepReadable(s, steps[0]);
      RunReadable(Do(s, steps[0]), steps[1..], t);
    }
  }

  /** With responses as the game's Lua prints them, a ready shard can always serve a new request and stay ready. */
  lemma AlwaysRecovers(steps: seq<Step>, s: System, id: RequestId, data: Payload)
    requires Reaches(Start, steps, s) && Headed(steps) && s.shared.status.ready && !Known(s, id)
    ensures exists t, c :: Leads(s, t) && s.shared.slot.channels <= c && Served(t, c, id, data) && t.shared.status.ready
  {
    RunReadable(Start, steps, s);
    Recovers(steps, s, id, data);
  }
}
