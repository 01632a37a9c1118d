# Verified model of the dst-server core

dst-server runs a room of Don't Starve Together shards: a driver talks to each game process over a pipe, a
policy engine decides when to open, close, update and regenerate, an Agent serializes operations, and a few
readers and printers carry configuration as Lua, INI and Quadlet text. This project models the parts of that
system whose correctness is not visible in one function, and proves what they promise over every input, every
run and every interleaving. `dafny verify dfyconfig.toml` checks everything.

## What is modelled

**Shard control** (`NativeGame`, `DriverShared`, `DriverAnswers`, `DriverProtocol`, `DriverCallers`, `DriverRecovery`,
`DriverBlocked`, `DriverObject`). The game's Busy and Done markers carry no request id. `NativeGame` is the game as an
adversary: a FIFO pipe in which every written frame is lost, answered by one Busy, rejected by Lua before acceptance,
or executed with replies that carry its id and a Done. `DriverShared` is the driver's shared state as a value with one
step function per handler, `DriverAnswers` says without those functions what each request is answered and what each
line changes, `DriverCallers` what the callers get, and `DriverObject` is the object whose methods change it in place;
it carries the history of its events, so that the laws over all runs are postconditions of every method.
`DriverProtocol` composes driver, workers, stop and game into one transition system with one inductive invariant;
`DriverRecovery` shows that a ready shard can always serve a new request, and `DriverBlocked` that this needs replies
with readable headers. A frame's serial number exists only in the model; the driver never reads it.

**Output reader** (`OutputReader`). The chunked line reader against "split the whole stream, classify each line".

**Policy** (`Schedule`, `Policy`, `PolicyDecisions`, `PolicyLaws`, `PolicyRuns`, `IdleRegeneration`, `PolicyObject`,
`Countdown`). Interval merging and schedule answers for any local-time resolver and exactly for a fixed offset; the
planner as functions, with a separate account of when each action is due, and with theorems over whole histories of
ticks, updates, restarts, startups and clean stops; the stored state as an object that carries its history, with those
theorems as postconditions; the countdown against arbitrarily slow sends.

**Lua data** (`ScriptDepth`, `ScriptLimits`, `Utf8`, `LuaString`, `LuaValue`, `LuaRoundTrip`, `LuaTables`,
`LineEndings`, `Numerals`). The one-pass depth guard against a recursive measure on the token tree; rendering and
decoding of strings and values (section 2.1 of the Lua 5.1 Reference Manual); which table constructors are data.

**Agent** (`AgentTick`, `AgentPermit`). The optimistic observation of a policy tick interleaved with client mutations,
kills and policy actions, and the one permit that they share.

**Deployment and INI** (`PortAllocation`, `PortSuccess`, `Quoting`, `Text`, `Sections`, `Quadlet`, `QuadletValues`,
`QuadletRoundTrip`, `UnitText`, `Ini`). Port selection with a forward-only cursor; quoted values, volumes, unit names,
unit files and INI documents with their printers and readers.

## Where a promise does not hold as stated

- **Idle regeneration.** After a clean shutdown and a restart, a tick in which one shard's presence cannot be read is
  unreliable and is passed over even if another shard shows a client, so a regeneration can follow within the
  retention time: `IdleRegeneration.ClientSeenByOneShard` gives the history. `IdleRegeneration.SeenButPassedOver` says
  exactly when an occupied tick goes unrecorded, `IdleRegeneration.RegenerationIsSafe` is what holds for all inputs, and
  `IdleRegeneration.AgentRegenerationIsSafe` that, for inputs the Agent builds, such a tick lies between a recorded clean
  shutdown and the next reliable tick.
- **Observations crossed by a kill.** A kill takes no permit. If a later operation overwrites its entry in the
  Agent's history and ends, the history looks idle while the kill still runs; the room then has to report no operation
  at both readings, so the kill's worker must be before or after its room operation at those moments.
  `AgentTick.AKillCanBeMissed` gives the run, and `AgentTick.MissedKillsSpan` says exactly which kills a kept observation
  can overlap. For every other client operation the promise holds (`AgentTick.KeptMeansUncrossed`).
- **Policy actions inside the window.** Between the choice of a tick's inputs and its own permit a policy action can
  take and drop the permit (`AgentTick.AnActionCanSlipIn`); `AgentTick.PolicyActionsOutside` says that this is the only
  moment after the choice.
- **Recovery of a shard.** A pending response without a generation fails the driver when it is read, so that no later
  request is served (`DriverBlocked.RecoveryCanFail`, `DriverBlocked.RecoversExactly`). The game's Lua always names one,
  and with such responses recovery holds from every ready state (`DriverRecovery.AlwaysRecovers`).
- **Port allocation.** A new endpoint may take the port of a later one, which is then refused
  (`PortAllocation.NewCanTakeOwned`). `PortSuccess.ServedExactly` is the exact condition of success for every request.
- **Empty Lua arrays** come back as empty objects: `LuaRoundTrip.LiteralRoundTrip` has the exact condition.

## Model

| member | source | states |
|---|---|---|
| `DriverProtocol.StepKeeps` | crates/dst-server/src/driver.rs:797-1246 | every step of workers, pump, stop and game keeps the correlation invariant: a free slot means nothing is in flight, a synchronized request means only its own frame is |
| `DriverProtocol.AtMostOnce` | crates/dst-server/src/driver.rs:808-879 | in every run no request is executed by the game through two different frames |
| `DriverProtocol.AnswersAreSound` | crates/dst-server/src/driver.rs:797-901 | Ok carries data the game produced for that id; Timeout, NotReady, Busy or InvalidRequest without acceptance means no frame of it was executed or still can be |
| `DriverProtocol.AnswersHoldForever` | crates/dst-server/src/driver.rs:843-901 | an answer never changes and stays true in every continuation of the run |
| `DriverProtocol.WriteKeeps` | crates/dst-server/src/process.rs:285-326 | a frame written into the empty pipe keeps the invariant, so no earlier frame is unread |
| `DriverProtocol.MarkerKeeps` | crates/dst-server/src/driver.rs:1214-1246 | an id-less Busy or Done is either ignored or belongs to the frame of the request it releases |
| `DriverProtocol.TaggedKeeps` | crates/dst-server/src/driver.rs:1115-1212 | a response with an id reaches only the request that holds the slot under that id |
| `DriverProtocol.ExpireKeeps` | crates/dst-server/src/driver.rs:882-901 | giving up keeps the request in the slot until its marker, with an answer that is sound |
| `DriverProtocol.EndKeeps` | crates/dst-server/src/driver.rs:946-979 | the end of the pump keeps the invariant |
| `NativeGame.ConsumedLast` | crates/dst-server/src/driver.rs:1214-1246 | a marker read while only the last frame is in flight is that frame's, and nothing is in flight after it |
| `DriverAnswers.ResultReachesCaller` | crates/dst-server/src/driver.rs:1143-1246 | in every run, once a result has been read for the unanswered request in the slot and nothing else has answered it, the next Done, the expiry of its id or the end of the pump sends exactly that outcome: its data, or the error its name means, with the response's id and the record's flags |
| `DriverAnswers.ResultTaken` | crates/dst-server/src/driver.rs:1143-1212 | a result for the request in the slot becomes its outcome, with every error name's code written out |
| `DriverAnswers.AnswersExactly` | crates/dst-server/src/driver.rs:267-279 | in every run a waiting request is answered exactly by Done, Busy before acceptance, its expiry, the end of the pump, a failure or a reload, and with exactly the answer that belongs to it |
| `DriverAnswers.FailsExactly` | crates/dst-server/src/driver.rs:1080-1142 | exactly the malformed and the reporting lines fail the driver, and the first failure is kept |
| `DriverAnswers.ReloadExactly` | crates/dst-server/src/driver.rs:1031-1066 | the generation changes exactly when a line names a newer one, and each change of a known one is counted |
| `DriverAnswers.HealthExactly` | crates/dst-server/src/driver.rs:1080-1113 | where the shard's health comes from: a well-formed report, or a health request of the current generation |
| `DriverAnswers.FlagsExactly` | crates/dst-server/src/driver.rs:1271-1312 | what moves running, stopping, the stop request and native readiness |
| `DriverAnswers.ReadyExactly` | crates/dst-server/src/driver.rs:1067-1078 | in every run ready if and only if running, not stopping, no failure, natively ready, and protocol-3 health of the current generation with active players |
| `DriverAnswers.SlotExactly` | crates/dst-server/src/driver.rs:1115-1246 | when the request leaves the slot, and when its record becomes written, accepted and synchronized |
| `DriverAnswers.UnmatchedExactly` | crates/dst-server/src/driver.rs:1123-1246 | which replies count as unmatched |
| `DriverAnswers.AlwaysShown` | crates/dst-server/src/driver.rs:837-856 | in every run readers see the record of the request in the slot as it stands |
| `DriverCallers.CallersGet` | crates/dst-server/src/driver.rs:797-901 | a caller is answered exactly by these steps and with exactly these outcomes: its channel's, the settled one at its deadline, Timeout before dispatch or while Busy, or NotReady |
| `DriverCallers.SameOnChannel` | crates/dst-server/src/driver.rs:882-901 | a caller that gives up while its request waits gets what its channel gets |
| `DriverRecovery.Recovers` | crates/dst-server/src/driver.rs:828-841 | from every reachable state that is ready and whose pending responses all name a generation, whatever frames were lost, expired or are in flight, some continuation sends a new request any given data on its own channel, its caller gets them, and the shard is still ready |
| `DriverRecovery.AlwaysRecovers` | resources/lua/dst_server/rpc.lua:26-40 | the same from every reachable ready state, when responses are printed with the installed generation as the Lua side prints them |
| `DriverBlocked.RecoversExactly` | crates/dst-server/src/driver.rs:1115-1122 | a ready shard can still serve a new request if and only if every pending response names a generation |
| `DriverBlocked.NeverServed` | crates/dst-server/src/driver.rs:357-372 | otherwise no channel created from then on is ever sent data, in any continuation |
| `DriverBlocked.RecoveryCanFail` | crates/dst-server/src/driver.rs:1115-1122 | a run to a ready shard with a pending response that names no generation |
| `DriverShared.ReadyMeansHealthy` | crates/dst-server/src/driver.rs:1031-1113 | in every run ready implies running, not stopping, no failure, native ready and protocol-3 health of the current generation |
| `DriverShared.NeverReadyAgain` | crates/dst-server/src/driver.rs:357-372 | after a requested stop, a failure or the end of the pump the shard is never ready again, the first failure stays, and generations never go back |
| `DriverShared.OneAnswerEach` | crates/dst-server/src/driver.rs:267-279 | each installed request is answered exactly once; only the one in the slot can be waiting, and none after the pump has ended |
| `DriverShared.MailStep` | crates/dst-server/src/driver.rs:810-842 | every event keeps the correspondence of unanswered channels with the unused sender in the slot, alters no answer, and never displaces an unanswered request from the slot |
| `DriverShared.EventProgress` | crates/dst-server/src/driver.rs:1031-1078 | every event keeps readiness truthful, failures and stop requests permanent, generations monotone |
| `DriverShared.TelemetryBalance` | crates/dst-server/src/driver.rs:1314-1336 | a line is exactly one of accepted, invalid and stale; an accepted sequence number is larger than the last |
| `DriverShared.TelemetryConserved` | crates/dst-server/src/driver.rs:1031-1054 | over a whole run the last sequence numbers of all generations add up to the accepted records plus the gaps |
| `DriverShared.AlwaysLawful` | crates/dst-server/src/driver.rs:924-979 | after every sequence of events: readiness is health, one answer per installed request, telemetry balanced |
| `DriverShared.DoomedForever` | crates/dst-server/src/driver.rs:903-908 | a stopped, failed or ended driver is never ready after any continuation |
| `DriverObject.Driver.Deliver` | crates/dst-server/src/driver.rs:267-279 | completes the record, uses the sender at most once and changes only the mail |
| `DriverObject.Driver.Fail` | crates/dst-server/src/driver.rs:357-372 | the driver stays the result of its handled events, all laws hold, and nothing permanent is undone; a failure is recorded and the driver is never ready again, whatever follows |
| `DriverObject.Driver.Install` | crates/dst-server/src/driver.rs:810-842 | installs exactly when ready, not stopping, of that generation and with no uncompleted request in the slot, on a new channel without an answer; the driver stays the result of its handled events, all laws hold, and nothing permanent is undone |
| `DriverObject.Driver.NoteWritten` | crates/dst-server/src/driver.rs:843-856 | the driver stays the result of its handled events, all laws hold, and nothing permanent is undone |
| `DriverObject.Driver.Expire` | crates/dst-server/src/driver.rs:882-901 | the caller gets exactly what its channel gets, unless that was answered before; the driver stays the result of its handled events, all laws hold, and nothing permanent is undone |
| `DriverObject.Driver.RequestStop` | crates/dst-server/src/driver.rs:903-908 | no sequence of later events, reloads included, makes the shard ready again; the driver stays the result of its handled events, all laws hold, and nothing permanent is undone |
| `DriverObject.Driver.AdvanceGeneration` | crates/dst-server/src/driver.rs:1031-1066 | is the generation step, with its refusal of an older one |
| `DriverObject.Driver.Bootstrap` | crates/dst-server/src/driver.rs:1080-1113 | a bootstrap line, or the failure it reports: the driver stays the result of its handled events, all laws hold, and nothing permanent is undone |
| `DriverObject.Driver.Rpc` | crates/dst-server/src/driver.rs:1115-1212 | a response line, or the failure it reports, the presence refusals included: the driver stays the result of its handled events, all laws hold, and nothing permanent is undone |
| `DriverObject.Driver.NativeBarrier` | crates/dst-server/src/driver.rs:1214-1246 | a marker leaves the slot alone, or frees a synchronized one and answers its request; the driver stays the result of its handled events, all laws hold, and nothing permanent is undone |
| `DriverObject.Driver.Control` | crates/dst-server/src/driver.rs:1248-1269 | a control line, or the failure it reports: the driver stays the result of its handled events, all laws hold, and nothing permanent is undone |
| `DriverObject.Driver.Lifecycle` | crates/dst-server/src/driver.rs:1271-1312 | a lifecycle line, or the failure it reports: the driver stays the result of its handled events, all laws hold, and nothing permanent is undone |
| `DriverObject.Driver.Telemetry` | crates/dst-server/src/driver.rs:1314-1351 | accepted exactly for the current generation with a larger sequence number, which grows; the driver stays the result of its handled events, all laws hold, and nothing permanent is undone |
| `DriverObject.Driver.FinishPump` | crates/dst-server/src/driver.rs:946-979 | every installed request has its answer and the shard is never ready again; the driver stays the result of its handled events, all laws hold, and nothing permanent is undone |
| `OutputReader.ReadOutput` | crates/dst-server/src/process.rs:536-601 | for every stream and every split into chunks of at most 8192 bytes the emissions are those of classifying each complete line on its own, up to a read error if there is one; the error is raised if and only if a mandatory emission was oversized or found no room, the stream ended within a mandatory line, or a stream other than the error output broke; without it every mandatory line was queued in order |
| `OutputReader.ReadChunk` | crates/dst-server/src/process.rs:570-600 | one chunk takes the reader from the lines and tail before it to those after it |
| `OutputReader.Feed` | crates/dst-server/src/process.rs:571-599 | one piece of a line does so, with one Oversized for each long line |
| `OutputReader.Decided` | crates/dst-server/src/process.rs:446-452 | the limit and the priority decided while a line arrives are those of the whole line |
| `OutputReader.MandatoryDecided` | crates/dst-server/src/process.rs:605-632 | 48 bytes settle whether a line is mandatory |
| `OutputReader.MandatoryExactly` | crates/dst-server/src/process.rs:605-632 | a line is mandatory exactly on the reply and lifecycle streams, and on the standard output if, after an optional well-formed timestamp and space, it begins with one of the two words |
| `OutputReader.Output.Emit` | crates/dst-server/src/process.rs:454-484 | queues the event if there is room and counts it if not; the error is raised after it exactly if it was before or a mandatory event found no room |
| `OutputReader.Output.Dropped` | crates/dst-server/src/process.rs:486-497 | counts, and is fatal for a mandatory event |
| `OutputReader.Output.TooLongLine` | crates/dst-server/src/process.rs:499-511 | one Oversized event, fatal for a mandatory line |
| `Schedule.MergedMinutes` | crates/dst-server/src/policy.rs:392-423 | spans in order and apart, of which only the last can pass midnight, that cover exactly the minutes of the raw windows |
| `Schedule.Intervals` | crates/dst-server/src/policy.rs:173-199 | the generated instants, or the failure of a local time that has none |
| `Schedule.Locate` | crates/dst-server/src/policy.rs:200-228 | whether now lies in an interval and when that changes |
| `Schedule.ScheduleIn` | crates/dst-server/src/policy.rs:164-228 | for any resolver: answers exactly when it can, and then agrees with the union of the generated intervals up to the next change |
| `Schedule.ScheduleFixed` | crates/dst-server/src/policy.rs:164-228 | for a fixed offset it never fails, open is membership of the raw daily windows, constant until next_change, where it flips |
| `Schedule.OneOpening` | crates/dst-server/src/policy.rs:211-228 | within one opening every answer is the same, opening_id included |
| `PolicyLaws.NeverExhausted` | crates/dst-server/src/policy.rs:889-946 | in every history, startups included, a tick gets a plan exactly when its inputs are valid, the schedule has an answer now and, for a closing notice that is due, at the closing time; a round of the startup loop always, and the Mod phase always has the attempt it needs |
| `PolicyDecisions.TickDecides` | crates/dst-server/src/policy.rs:232-348 | for every planned tick, without the planner's functions: what it takes in, each action if and only if it is due (a stop for each of its three reasons, start, announcement, update, regeneration, and none else), and the whole state it leaves, the Mod phase at a closing included |
| `PolicyDecisions.TakenInOnce` | crates/dst-server/src/policy.rs:242-275 | the state that a tick decides on is determined by the state before and its inputs |
| `PolicyDecisions.PlannedExactly` | crates/dst-server/src/policy.rs:232-389 | a tick is planned if and only if its inputs are valid, the schedule answers now and, when a notice is to be given, at the closing time |
| `PolicyLaws.OpeningsIncrease` | crates/dst-server/src/policy.rs:243-257 | over every history the openings that ticks report strictly increase, so none is reported twice |
| `PolicyLaws.AtMostThreeUpdates` | crates/dst-server/src/policy.rs:851-946 | the updates issued on one budget, by ticks and by the startup loop, are numbered 1, 2, 3 in order |
| `PolicyRuns.RetryWaits` | crates/dst-server/src/policy.rs:662-690 | on a forward clock a retry, in a tick or at startup, comes at least 300 seconds after the failure |
| `IdleRegeneration.RegenerationIsSafe` | crates/dst-server/src/policy.rs:331-345 | a regeneration at t for day d expects the current sessions of exactly the expected shards; since t - retention(d) no tick came with a clock correction, every reliable one saw those sessions empty, and every other fell in a clean stop or after a clean shutdown; the previous regeneration was earlier |
| `IdleRegeneration.AgentRegenerationIsSafe` | crates/dst-server/src/agent.rs:551-628 | with the inputs the Agent builds, an occupied tick of the retention time was unreliable and lay between a recorded clean shutdown and the next reliable tick |
| `IdleRegeneration.ShutdownRecorded` | crates/dst-server/src/policy.rs:628-635 | while a record is marked as cleanly shut down, no reliable tick has come since a recorded clean shutdown |
| `IdleRegeneration.SeenButPassedOver` | crates/dst-server/src/policy.rs:734-806 | an occupied tick is recorded or interrupts the record exactly when it is reliable, the clock changed, or no clean stop excuses it |
| `IdleRegeneration.ClientSeenByOneShard` | crates/dst-server/src/agent.rs:573-628 | a history of the Agent, with a new observation id after the restart, in which one shard shows a client, the other cannot be asked, and the world is regenerated five hours later |
| `IdleRegeneration.ObservedFacts` | crates/dst-server/src/policy.rs:734-806 | what one observation does to the record of activity |
| `IdleRegeneration.ExactShards` | crates/dst-server/src/policy.rs:507-525 | reliable presence names exactly the expected shards |
| `PolicyObject.PolicyState.ClockChanged` | crates/dst-server/src/policy.rs:692-732 | the in-place correction after a wall-clock jump is the modelled one |
| `PolicyObject.PolicyState.ObserveActivity` | crates/dst-server/src/policy.rs:734-806 | the loop over the shards computes the modelled observation |
| `PolicyObject.PolicyState.FinishModUpdate` | crates/dst-server/src/policy.rs:662-690 | a failure is retried unless three updates of the budget were issued; success ends the budget; the object stays the result of its history, and the budget, retry and regeneration laws hold |
| `PolicyObject.PolicyState.ResumeAfterRestart` | crates/dst-server/src/policy.rs:637-649 | no update is being written afterwards, and an idle record survives only a clean shutdown; the object stays the result of its history, and the budget, retry and regeneration laws hold |
| `PolicyObject.PolicyState.RequestModUpdate` | crates/dst-server/src/policy.rs:651-660 | starts a new budget with no update issued, exactly when none is being written; the object stays the result of its history, and the budget, retry and regeneration laws hold |
| `PolicyObject.PolicyState.StartUp` | crates/dst-server/src/agent.rs:153-186 | a round of the startup loop never finds the budget exhausted and acts as the history says; the object stays the result of its history, and the budget, retry and regeneration laws hold |
| `PolicyObject.PolicyState.Queue` | crates/dst-server/src/agent.rs:141-148 | queueing an update changes no budget; the object stays the result of its history, and the budget, retry and regeneration laws hold |
| `PolicyObject.PolicyState.Plan` | crates/dst-server/src/policy.rs:232-348 | a plan is made exactly for valid inputs and an answered schedule, at the closing time too when a notice is due; a reported opening is later than all before; its action and new state are those that are due, and the history's, and the object stays the result of its history, and the budget, retry and regeneration laws hold |
| `Countdown.NextWake` | crates/dst-server/src/policy.rs:1078-1085 | the next target is the deadline minus whole intervals, after now and at most one interval later |
| `Countdown.Run` | crates/dst-server/src/policy.rs:1055-1076 | however slow the sends: at most ceil(delay/interval)+1 notices, aligned targets, and if none is refused the last says zero |
| `ScriptDepth.CheckScriptDepth` | crates/dst-server/src/lua.rs:461-578 | the loop accepts exactly what the guard accepts |
| `ScriptDepth.AcceptedExactly` | crates/dst-server/src/lua.rs:429-578 | a token stream is accepted if and only if it has at most 65536 tokens and is the reading of a balanced tree, at most 64 deep, in which every expression's operators plus heaviest weighted child scope are at most 64 |
| `ScriptDepth.FoldMeaning` | crates/dst-server/src/lua.rs:437-459 | the running counters of a scope are the cost of its costliest expression, and the checks on the way fail exactly when it exceeds the limit |
| `ScriptDepth.ItemRuns` | crates/dst-server/src/lua.rs:485-556 | running the guard over one item adds the item's recursive measure to its scope, or fails exactly when that does not fit |
| `ScriptLimits.NestedExactly` | crates/dst-server/src/lua.rs:437-459 | blocks and functions are accepted up to 16 deep and brackets up to 64 deep, and no deeper |
| `ScriptLimits.CallsExactly` | crates/dst-server/src/lua.rs:437-459 | calls within calls are accepted up to 32 deep and no deeper |
| `ScriptLimits.OperatorsExactly` | crates/dst-server/src/lua.rs:545-556 | an expression is accepted with 64 operators and no more |
| `ScriptLimits.SymbolsExactly` | crates/dst-server/src/lua.rs:487-575 | which symbols open, close, separate, operate and end an expression |
| `ScriptLimits.PairsExactly` | crates/dst-server/src/lua.rs:514-524 | which symbols close which |
| `LuaString.RenderString` | crates/dst-server/src/lua.rs:640-665 | the quoted text, refused exactly when a byte limit is exceeded |
| `LuaString.DecodeString` | crates/dst-server/src/lua.rs:352-405 | the loop computes the denoted string of a quoted literal, and a long bracket's content without its first line feed |
| `LuaString.StringRoundTrip` | crates/dst-server/src/lua.rs:352-405 | decoding the rendered content of any string gives it back |
| `LuaString.RenderedThenMore` | crates/dst-server/src/lua.rs:640-665 | whatever bytes follow, digits included, the rendered part decodes to its own bytes |
| `LuaString.DecimalExactly` | crates/dst-server/src/lua.rs:378-388 | a decimal escape takes one to three digits and is refused exactly above 255 |
| `LuaString.LettersDenote` | crates/dst-server/src/lua.rs:393-401 | the letter escapes stand for their control characters and the backslash and both quotes for themselves, whatever follows |
| `LuaString.BreaksDenote` | crates/dst-server/src/lua.rs:389-392 | an escaped line break of any kind is one line feed |
| `LuaString.RefusedExactly` | crates/dst-server/src/lua.rs:361-402 | every other byte after a backslash is refused, and every byte but the backslash stands for itself |
| `LuaString.RenderedPrintable` | crates/dst-server/src/lua.rs:646-658 | the literal holds no raw control character |
| `LuaString.EndsAtItsQuote` | crates/dst-server/src/lua.rs:645-663 | no quote before the end of the literal is unescaped, whatever follows it |
| `Utf8.DecodeEncode` | crates/dst-server/src/lua.rs:404-404 | every text is read back from its UTF-8 bytes |
| `Utf8.EncodeDecode` | crates/dst-server/src/lua.rs:404-404 | bytes accepted as UTF-8 are the encoding of the text they give |
| `LuaValue.Render` | crates/dst-server/src/lua.rs:589-638 | renders exactly the null-free values with safe integers within depth and size, as the written text |
| `LuaValue.RenderItems` | crates/dst-server/src/lua.rs:609-618 | the array loop, with every limit on the way implied by the final one |
| `LuaValue.RenderFields` | crates/dst-server/src/lua.rs:619-631 | the object loop likewise |
| `LuaValue.FineExactly` | crates/dst-server/src/lua.rs:589-638 | a value is accepted exactly if it holds no null and no unsafe integer and nothing in it is more than 64 containers deep |
| `LuaRoundTrip.ValueRead` | crates/dst-server/src/lua.rs:238-322 | table assembly of a rendered value's expression returns the value, with empty arrays as empty objects |
| `LuaRoundTrip.ValueReads` | crates/dst-server/src/lua.rs:589-638 | the rendered text reads as that expression, whatever may follow a value |
| `LuaRoundTrip.LiteralRoundTrip` | crates/dst-server/src/lua.rs:580-638 | reading what is rendered gives the value back if and only if it has no empty array |
| `LuaTables.TableExactly` | crates/dst-server/src/lua.rs:261-318 | a constructor is data if and only if its keys are different strings, or the integers from one to their number in any order; its value holds each item under its key |
| `LuaTables.UnreadableRefused` | crates/dst-server/src/lua.rs:265-291 | a key or item that is not data makes the table unreadable |
| `LineEndings.NormalizeLineEndings` | crates/dst-server/src/lua.rs:67-85 | the loop, and the shortcut for text without carriage returns, compute the normalized text |
| `LineEndings.NormalizedOnce` | crates/dst-server/src/lua.rs:67-85 | no carriage return is left and normalizing again changes nothing |
| `LineEndings.EndingsDoNotMatter` | crates/dst-server/src/lua.rs:67-85 | for lines that may be empty and any of the four endings: each ending becomes one line feed if and only if the text has as many line breaks as endings, and it never has more |
| `LineEndings.NormalizedExactly` | crates/dst-server/src/lua.rs:67-85 | every text is read in exactly one way as lines with whole line breaks, and normalizing replaces exactly those |
| `AgentTick.StepKeeps` | crates/dst-server/src/agent.rs:276-369 | every step of clients, kills, policy actions and the tick keeps what the history says about running operations, and the tick's hold on the permit exactly while it tries |
| `AgentTick.KeptMeansUncrossed` | crates/dst-server/src/agent.rs:680-706 | in every interleaving, non-busy inputs mean that no client mutation ran at any moment from the history snapshot until now, while the tick holds the permit |
| `AgentTick.MissedKillsSpan` | crates/dst-server/src/agent.rs:297-353 | a kept observation overlaps a kill exactly if the kill runs all through the window; then a later operation had overwritten it and ended before, and the room reported no operation at either end |
| `AgentTick.AKillCanBeMissed` | crates/dst-server/src/agent.rs:297-353 | a run in which that happens, for a kill whose worker holds no room operation at either reading |
| `AgentPermit.HolderExactly` | crates/dst-server/src/agent.rs:276-369 | in every run the tick has the permit exactly from when it got it until its plan is made, and a policy action until it drops it |
| `AgentPermit.GivenBack` | crates/dst-server/src/agent.rs:694-760 | whoever is done frees the permit so that a client can enter; an owned tick does so without an action and hands it over with one |
| `AgentPermit.ComesFree` | crates/dst-server/src/agent.rs:276-369 | from every state of every run the permit can become free |
| `AgentPermit.QuietTick` | crates/dst-server/src/agent.rs:680-706 | a tick that nobody disturbs plans with its observation if and only if history, room and permit show nothing under way |
| `AgentPermit.OutsideArrives` | crates/dst-server/src/agent.rs:297-353 | every signal and every change of the room's status is there to be compared |
| `AgentTick.NoneMissedWithoutOverwriting` | crates/dst-server/src/agent.rs:297-353 | if no kill that runs at the snapshot has been overwritten by an operation that ended, a kept observation overlaps no client operation at all |
| `AgentTick.PolicyActionsOutside` | crates/dst-server/src/agent.rs:680-706 | with non-busy inputs every policy action had dropped the permit before the inputs were chosen, or took and dropped it between that choice and the tick's own permit |
| `AgentTick.AnActionCanSlipIn` | crates/dst-server/src/agent.rs:680-706 | a run in which a policy action does so and the inputs are still non-busy |
| `AgentTick.KeptMeansUnsignalled` | crates/dst-server/src/agent.rs:680-706 | no interruption was signalled in the window, short of a full turn of the 64-bit counter |
| `PortAllocation.CollectExplicit` | crates/dst-server/src/deployment.rs:611-627 | explicit requests are taken exactly when each is valid, for a known endpoint and given once |
| `PortAllocation.Reserve` | crates/dst-server/src/deployment.rs:628-661 | the loop with its forward-only cursor gives the mappings of a search restarted from the pool's beginning for every endpoint |
| `PortAllocation.FindFree` | crates/dst-server/src/deployment.rs:646-653 | going on from the cursor finds the least free port of the whole pool |
| `PortAllocation.ChoiceExactly` | crates/dst-server/src/deployment.rs:632-653 | an explicit request comes before the earlier host, and which hosts are free |
| `PortAllocation.AllocationIsSafe` | crates/dst-server/src/deployment.rs:628-661 | one host per endpoint, all different, none of another room, each owned or bindable; explicit wins, then the earlier host, then the pool |
| `PortAllocation.NewGetsLeast` | crates/dst-server/src/deployment.rs:646-653 | every smaller bindable port of the pool was taken |
| `PortSuccess.ServedExactly` | crates/dst-server/src/deployment.rs:628-661 | for every request: all endpoints are served if and only if the selected hosts are free and different, the pool has a spare port for each new endpoint, and below each selected port of the pool there are spare ports for the new endpoints before it |
| `PortSuccess.NewLastServed` | crates/dst-server/src/deployment.rs:628-661 | when no endpoint with a selected pool port follows a new one, only the selected hosts and the number of spare ports matter |
| `PortSuccess.FreshRoomServed` | crates/dst-server/src/deployment.rs:646-653 | a fresh room is served if and only if the pool has a free port for each endpoint |
| `PortSuccess.SelectedSucceeds` | crates/dst-server/src/deployment.rs:632-645 | without new endpoints the allocation succeeds exactly if the selected hosts are free and different |
| `PortAllocation.NewCanTakeOwned` | crates/dst-server/src/deployment.rs:628-653 | a new endpoint can take the port of a later one, which is then refused |
| `Quoting.QuoteRoundTrip` | crates/dst-server/src/deployment.rs:719-775 | quote and unquote are inverse between NUL- and newline-free values and the accepted texts |
| `Quoting.QuoteIsText` | crates/dst-server/src/deployment.rs:719-747 | the replaces one after the other escape character by character |
| `Quoting.Unquote` | crates/dst-server/src/deployment.rs:748-775 | the loop computes the meaning of a quoted text |
| `Quoting.VolumeRoundTrip` | crates/dst-server/src/deployment.rs:727-744 | the volume pair is inverse likewise |
| `Quoting.VolumeUnescape` | crates/dst-server/src/deployment.rs:730-744 | the loop computes the meaning of a volume text |
| `Quoting.EscapeUnitName` | crates/dst-server/src/deployment.rs:776-817 | succeeds exactly for non-empty literal names of at most 240 escaped bytes, with a valid unit name |
| `Quoting.NameByteExactly` | crates/dst-server/src/deployment.rs:776-791 | which bytes of a name stand for themselves, and how the others are written |
| `Quoting.EscapeIsInjective` | crates/dst-server/src/deployment.rs:776-791 | different names are escaped differently |
| `Sections.ParseSections` | crates/dst-server/src/deployment.rs:819-845 | the loop computes the parsed fields |
| `Sections.EntryTaken` | crates/dst-server/src/deployment.rs:834-843 | a line that is neither skipped nor a header adds its value to its key, or is refused exactly outside a section, without a key or with a backslash at its end |
| `Sections.RowParses` | crates/dst-server/src/deployment.rs:834-843 | the lines of a key add its values in order |
| `QuadletRoundTrip.RenderParses` | crates/dst-server/src/deployment.rs:213-271 | parsing a rendered unit gives each directive its values |
| `QuadletValues.UnitDescribed` | crates/dst-server/src/deployment.rs:275-399 | decoding those fields gives the unit |
| `QuadletRoundTrip.UnitRoundTrip` | crates/dst-server/src/deployment.rs:213-403 | loading a rendered valid unit gives back that unit |
| `UnitText.RenderedExactly` | crates/dst-server/src/deployment.rs:213-271 | the rendered text, directive by directive with its keys and values written out |
| `UnitText.EverythingInOrder` | crates/dst-server/src/deployment.rs:255-265 | the variables are written in the order of their names, with the published ports among them |
| `UnitText.LoadsExactly` | crates/dst-server/src/deployment.rs:281-403 | a file loads as a unit if and only if it begins with the owner's line, the unit is valid and has the file's name, and the file's sections are those of the unit rendered |
| `Ini.RenderIni` | crates/dst-server/src/files.rs:436-457 | the loops give the rendered text, with every size check implied by the last |
| `Ini.ParseIni` | crates/dst-server/src/configuration.rs:320-413 | the loop computes the parsed values |
| `Ini.IniRoundTrip` | crates/dst-server/src/files.rs:436-457 | rendering succeeds exactly for plain documents within the limit with names distinct but for case; parsing the text gives exactly the document's entries, none merged, names lower-cased, empty sections dropped |
| `Ini.HeaderTaken` | crates/dst-server/src/configuration.rs:343-365 | which headers are accepted and the section they begin |
| `Ini.OptionTaken` | crates/dst-server/src/configuration.rs:366-407 | which options are accepted and what they set |
| `Ini.AllowedExactly` | crates/dst-server/src/configuration.rs:379-400 | the sections and options of cluster and shard files |
| `Ini.FieldsParse` | crates/dst-server/src/configuration.rs:367-384 | a section's options are read as its entries, and refused exactly when a name comes twice |

## Left out

- DriverObject.Driver.Rpc: the observation id written into presence data, and the runtime and session fields, do not influence correlation, readiness or accounting and are not modelled.
- DriverObject.Driver.Control: the kept control records and the recorded load failure are not modelled, for the same reason.
- DriverObject.Driver.Lifecycle: the session id and the record of the last save are not modelled, for the same reason.
- The driver's subscribers, message texts and process ids.
- The game is an assumption: a FIFO that loses a frame, answers Busy, lets Lua reject it, or executes it; an executed command carries its own generation and announces acceptance before any result that looks like a rejection.
- DriverRecovery.Recovers: is about possibility; that a fair game does answer, and within what time, is not modelled.
- A failed send is modelled as either having written its frame or not, which is more than the pipe allows.
- The reader's queues are consumed at arbitrary moments: whether an event finds room is an arbitrary predicate. Each reader has its own fatal flag.
- Waking, cancellation and scheduling of tasks: every closure under a lock is one atomic step, and steps interleave freely.
- The Agent is a transition system over values, so aliasing of its shared objects is not modelled; the room's own operations appear only as an opaque status that is compared.
- Local-time resolution of real zones (daylight saving) is an arbitrary function; dates are unbounded integers, so out-of-range dates do not occur.
- The policy's idle and observed seconds are integer nanoseconds; the closing notice's text and the validation of stored activity are not modelled.
- PolicyObject.PolicyState.Plan: the schedule's answers now and at the closing time, or their failure, are parameters; `Schedule.ScheduleIn` says what they are.
- LuaRoundTrip.LiteralRoundTrip: the lexer and parser of full Lua are a library, so rendered text is read with a reader for that sublanguage; the token limit and the bracket depth that are checked before parsing are not modelled.
- The tokens of `ScriptDepth` are taken as given.
- Floating-point numbers are carried as their text; that printing and parsing a float agree is the number library's promise, and texts that are no finite number are not refused by the model.
- The JSON text of published ports is a codec assumed lossless and free of line endings; the volume id map is known by its characters instead of its regular expression; shard names and path components of a unit are not checked.
- `udp_available` is a fixed predicate; the check of the pool's bounds, reading other Quadlets, drop-ins, locking and saving are not modelled.
- Recovery, room, rooms, rpc, settings and telemetry modules, Python bindings, the CLI, probes, archive upload: not modelled.
- Request validation tables, permission lists, metrics and log paging would only add easy members.
- The plan's fault message and the texts of announcements.
