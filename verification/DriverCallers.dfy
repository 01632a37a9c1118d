/** What each caller of the driver gets, in terms of what its channel was sent. */
module DriverCallers {
  import opened Options
  import opened DriverShared
  import opened NativeGame
  import opened DriverProtocol
  import opened DriverAnswers

  /** The answer of a request whose waiting is over: what has been read for it, or an unknown outcome. */
  ghost predicate AtExpiry(s: Shared, id: RequestId, o: Outcome) {
    if s.slot.active.Some? && s.slot.active.value.record.id == id then
      var p := s.slot.active.value;
      o == if p.result.Some? then p.result.value else UnknownOf(p.record)
    else
      o == Failure(DriverError(Unknown, None, false, false))
  }

  /** Busy before acceptance, after which the request is sent again. */
  predicate SendsAgain(o: Outcome) {
    o.Failure? && o.error.code.Busy? && !o.error.accepted
  }

  /** A step that answers this request, and how. */
  ghost predicate Gives(s: System, step: Step, id: RequestId, o: Outcome) {
    match step
    case DispatchTimeout(waiting) => waiting == id && o == Failure(DriverError(Timeout, None, false, false))
    case SleepTimeout => s.holder.Worker? && s.holder.id == id && o == Failure(DriverError(Timeout, None, false, false))
    case TryInstall =>
      && s.holder.Worker? && s.holder.id == id && o == Failure(DriverError(NotReady, None, false, false))
      && !(s.shared.status.ready && !s.shared.status.stopping
           && s.shared.status.generation == Some(s.holder.generation)
           && (s.shared.slot.active.Some? ==> s.shared.slot.active.value.record.completed))
    case Receive =>
      && s.holder.Worker? && s.holder.id == id && s.holder.channel in s.shared.slot.mail
      && o == s.shared.slot.mail[s.holder.channel] && !SendsAgain(o)
    case GiveUp => s.holder.Worker? && s.holder.id == id && AtExpiry(s.shared, id, o)
    case SendFails(_) => s.holder.Worker? && s.holder.id == id && AtExpiry(s.shared, id, o)
    case _ => false
  }

  /** A caller is answered exactly by these steps, with exactly these outcomes. */
  lemma CallersGet(s: System, step: Step, id: RequestId, o: Outcome)
    requires Shaped(s.game) && Enabled(s, step) && id !in s.answers
    ensures id in Do(s, step).answers && Do(s, step).answers[id] == o <==> Gives(s, step, id, o)
  {}

  /** Whoever gives up while its request waits in the slot leaves the same answer on its channel. */
  lemma SameOnChannel(s: System, id: RequestId)
    requires Inv(s) && InPhase(s, Listening) && s.holder.id == id
    requires s.shared.slot.active.Some? && s.shared.slot.active.value.response == Some(s.holder.channel)
    ensures var t := Do(s, GiveUp);
            && id in t.answers && s.holder.channel in t.shared.slot.mail
            && t.answers[id] == t.shared.slot.mail[s.holder.channel]
  {}

  /** A request that is refused with Busy before acceptance goes round again: after its pause it is installed on a new
      channel if the shard is still ready for it. */
  lemma GoesRoundAgain(s: System)
    requires Inv(s) && Enabled(s, Receive) && SendsAgain(s.shared.slot.mail[s.holder.channel])
    ensures var t := Do(Do(s, Receive), Wake);
            && t.shared == s.shared && t.answers == s.answers && t.game == s.game
            && t.holder == s.holder.(phase := Installing)
            && (CanInstall(t.shared, t.holder.generation) ==>
                  var u := Do(t, TryInstall);
                  && InPhase(u, Sending) && u.holder.channel == s.shared.slot.channels
                  && Waits(u.shared.slot, s.holder.id, u.holder.channel))
  {}
}
