/** Runs of the handler: the events the process receives, one after another,
    each handled to completion (the handler's concurrency is not modelled).
    A panic ends only the event it happens in; the watchdog's exit ends the
    run. What holds of every run is proved by induction on the events. */
module Runs {
  import opened Types
  import opened Steps
  import opened DispatchProperties
  import opened ReadinessProperties

  /** An event delivered to the handler, with the answers of the
      collaborators it will consult. */
  datatype Event =
    | ReadyEvent(bot: UserId, connect: Option<ClientHandle>, dataOk: bool, commandsOk: bool)
    | InteractionEvent(interaction: Interaction, oracle: DispatchOracle)
    | Deadline   // the watchdog thread wakes after its sleep

  /** Whether `e` ends the process: the watchdog finds `DISCORD_READY` false. */
  predicate Exits(s: State, e: Event) {
    e.Deadline? && !s.discordReady
  }

  /** One event handled to completion. */
  function HandleEvent(s: State, registry: map<string, Command>, e: Event): Step {
    match e
    case ReadyEvent(bot, connect, dataOk, commandsOk) => Ready(s, bot, connect, dataOk, commandsOk)
    case InteractionEvent(i, o) => Step(s, InteractionCreate(s.readyToGo, registry, i, o))
    case Deadline => Step(s, WatchdogCheck(s))
  }

  /** The events handled in order, up to the watchdog's exit if it comes. */
  function Run(s: State, registry: map<string, Command>, events: seq<Event>): Step
    decreases |events|
  {
    if events == [] then Step(s, [])
    else
      var first := HandleEvent(s, registry, events[0]);
      if Exits(s, events[0]) then first
      else
        var rest := Run(first.post, registry, events[1..]);
        Step(rest.post, first.effects + rest.effects)
  }

  /** What one event keeps and produces. */
  lemma HandleEventFacts(s: State, registry: map<string, Command>, e: Event)
    ensures Grows(s, HandleEvent(s, registry, e).post)
    ensures Inv(s) ==> Inv(HandleEvent(s, registry, e).post) &&
                       Count(HandleEvent(s, registry, e).effects, IsUserPanic) == 0
    ensures Count(HandleEvent(s, registry, e).effects, IsInitAllData) <= 1
    ensures Count(HandleEvent(s, registry, e).effects, IsInitAllData) == 1 ==>
      !s.discordReady && HandleEvent(s, registry, e).post.discordReady
    ensures ExecutionsRecorded(HandleEvent(s, registry, e).effects)
    ensures Count(HandleEvent(s, registry, e).effects, IsUseLast)
         == Count(HandleEvent(s, registry, e).effects, IsReturnedExecute)
    ensures HandleEvent(s, registry, e).effects == [Exit(1)] <==> Exits(s, e)
    ensures !Exits(s, e) ==> Count(HandleEvent(s, registry, e).effects, IsExit) == 0
    ensures !e.ReadyEvent? ==> HandleEvent(s, registry, e).post == s
    ensures !e.ReadyEvent? && !s.readyToGo ==>
      Count(HandleEvent(s, registry, e).effects, IsCommandWork) == 0 &&
      forall k :: 0 <= k < |Responses(HandleEvent(s, registry, e).effects)| ==>
        Responses(HandleEvent(s, registry, e).effects)[k] == NotReadyYet
  {
    var effects := HandleEvent(s, registry, e).effects;
    match e {
      case ReadyEvent(bot, connect, dataOk, commandsOk) =>
        ReadyGrows(s, bot, connect, dataOk, commandsOk);
        ReadyFacts(s, bot, connect, dataOk, commandsOk);
        if Inv(s) {
          ReadyKeepsInv(s, bot, connect, dataOk, commandsOk);
        }
        CountMono(effects, IsExecute, IsCommandWork);
        CountMono(effects, IsReturnedExecute, IsCommandWork);
        CountMono(effects, IsUseLast, IsCommandWork);
        CountZero(effects, IsExecute);
      case InteractionEvent(i, o) =>
        InteractionFacts(s.readyToGo, registry, i, o);
        CountMono(effects, IsUserPanic, IsLifecycle);
        CountMono(effects, IsInitAllData, IsLifecycle);
        CountMono(effects, IsExit, IsLifecycle);
      case Deadline =>
    }
  }

  /** Every run from a consistent state stays consistent (`READY_TO_GO` is
      never true while `DISCORD_READY` is false) and never panics on the
      `AEGISTRATE_USER` cell. */
  lemma {:induction false} RunKeepsInv(s: State, registry: map<string, Command>, events: seq<Event>)
    requires Inv(s)
    ensures Inv(Run(s, registry, events).post)
    ensures Count(Run(s, registry, events).effects, IsUserPanic) == 0
    decreases |events|
  {
    if events != [] {
      var first := HandleEvent(s, registry, events[0]);
      HandleEventFacts(s, registry, events[0]);
      if !Exits(s, events[0]) {
        RunKeepsInv(first.post, registry, events[1..]);
        CountAppend(first.effects, Run(first.post, registry, events[1..]).effects, IsUserPanic);
      }
    }
  }

  /** The latches only ever go from false to true, and a filled cell keeps
      its value, over any run. */
  lemma {:induction false} RunGrows(s: State, registry: map<string, Command>, events: seq<Event>)
    ensures Grows(s, Run(s, registry, events).post)
    decreases |events|
  {
    if events != [] {
      var first := HandleEvent(s, registry, events[0]);
      HandleEventFacts(s, registry, events[0]);
      if !Exits(s, events[0]) {
        RunGrows(first.post, registry, events[1..]);
      }
    }
  }

  /** `initialize_systems` runs at most once in the life of the process,
      and not at all once `DISCORD_READY` is set. */
  lemma {:induction false} RunInitialisesAtMostOnce(s: State, registry: map<string, Command>, events: seq<Event>)
    ensures Count(Run(s, registry, events).effects, IsInitAllData) <= (if s.discordReady then 0 else 1)
    decreases |events|
  {
    if events != [] {
      var first := HandleEvent(s, registry, events[0]);
      HandleEventFacts(s, registry, events[0]);
      if !Exits(s, events[0]) {
        RunInitialisesAtMostOnce(first.post, registry, events[1..]);
        CountAppend(first.effects, Run(first.post, registry, events[1..]).effects, IsInitAllData);
      }
    }
  }

  /** Over any run, every execution that returned is directly followed by
      the recording of the same command (one that panicked, by the panic),
      and there are as many recordings as returned executions. */
  lemma {:induction false} RunRecordsEveryExecution(s: State, registry: map<string, Command>, events: seq<Event>)
    ensures ExecutionsRecorded(Run(s, registry, events).effects)
    ensures Count(Run(s, registry, events).effects, IsUseLast) == Count(Run(s, registry, events).effects, IsReturnedExecute)
    decreases |events|
  {
    if events != [] {
      var first := HandleEvent(s, registry, events[0]);
      HandleEventFacts(s, registry, events[0]);
      if !Exits(s, events[0]) {
        var rest := Run(first.post, registry, events[1..]).effects;
        RunRecordsEveryExecution(first.post, registry, events[1..]);
        ExecutionsRecordedAppend(first.effects, rest);
        CountAppend(first.effects, rest, IsUseLast);
        CountAppend(first.effects, rest, IsReturnedExecute);
      }
    }
  }

  /** Until a ready event arrives, nothing changes and no command work
      happens: every interaction gets the not-ready response. */
  lemma {:induction false} RunGatedUntilReady(s: State, registry: map<string, Command>, events: seq<Event>)
    requires !s.readyToGo
    requires forall k :: 0 <= k < |events| ==> !events[k].ReadyEvent?
    ensures Run(s, registry, events).post == s
    ensures Count(Run(s, registry, events).effects, IsCommandWork) == 0
    ensures forall k :: 0 <= k < |Responses(Run(s, registry, events).effects)| ==>
      Responses(Run(s, registry, events).effects)[k] == NotReadyYet
    decreases |events|
  {
    if events != [] {
      var first := HandleEvent(s, registry, events[0]);
      HandleEventFacts(s, registry, events[0]);
      if !Exits(s, events[0]) {
        var rest := Run(first.post, registry, events[1..]).effects;
        RunGatedUntilReady(first.post, registry, events[1..]);
        CountAppend(first.effects, rest, IsCommandWork);
        ResponsesAppend(first.effects, rest);
      }
    }
  }

  /** The process exits at most once, as the last thing that happens, and
      only with `DISCORD_READY` still false. */
  lemma {:induction false} RunExitsOnlyAtEnd(s: State, registry: map<string, Command>, events: seq<Event>)
    ensures Count(Run(s, registry, events).effects, IsExit) <= 1
    ensures Count(Run(s, registry, events).effects, IsExit) == 1 ==>
      |Run(s, registry, events).effects| > 0 &&
      Run(s, registry, events).effects[|Run(s, registry, events).effects| - 1] == Exit(1) &&
      !Run(s, registry, events).post.discordReady
    decreases |events|
  {
    if events != [] {
      var first := HandleEvent(s, registry, events[0]);
      HandleEventFacts(s, registry, events[0]);
      if !Exits(s, events[0]) {
        var rest := Run(first.post, registry, events[1..]).effects;
        RunExitsOnlyAtEnd(first.post, registry, events[1..]);
        CountAppend(first.effects, rest, IsExit);
      }
    }
  }

  /** From process start, over any run: the invariant holds at the end, the
      user cell never panics, one-time setup runs at most once, every
      returned execution is recorded, and an exit is the last effect, with
      `DISCORD_READY` still false. */
  lemma FromStart(registry: map<string, Command>, events: seq<Event>)
    ensures Inv(Run(Initial, registry, events).post)
    ensures Count(Run(Initial, registry, events).effects, IsUserPanic) == 0
    ensures Count(Run(Initial, registry, events).effects, IsInitAllData) <= 1
    ensures ExecutionsRecorded(Run(Initial, registry, events).effects)
    ensures Count(Run(Initial, registry, events).effects, IsUseLast)
         == Count(Run(Initial, registry, events).effects, IsReturnedExecute)
    ensures Count(Run(Initial, registry, events).effects, IsExit) <= 1
    ensures Count(Run(Initial, registry, events).effects, IsExit) == 1 ==>
      |Run(Initial, registry, events).effects| > 0 &&
      Run(Initial, registry, events).effects[|Run(Initial, registry, events).effects| - 1] == Exit(1) &&
      !Run(Initial, registry, events).post.discordReady
  {
    RunKeepsInv(Initial, registry, events);
    RunInitialisesAtMostOnce(Initial, registry, events);
    RunRecordsEveryExecution(Initial, registry, events);
    RunExitsOnlyAtEnd(Initial, registry, events);
  }
}
