/** What `interaction_create` and `run_application_command`
    (src/bot/handler.rs) promise for one interaction: the guards run in
    order, each failing guard ends the dispatch with its own response and
    nothing after it happens, and an admitted command runs once and is
    then recorded whether it returned `Ok` or `Err`. */
module DispatchProperties {
  import opened Types
  import opened Steps

  /** Command work after the lookup: the cooldown guard's queries and
      running and recording the command. */
  predicate IsCooldownOrRun(e: Effect) {
    IsCommandWork(e) && !e.Lookup?
  }

  /** A found command: the lookup and the cooldown query, then the rest,
      with the counts of the first two. */
  lemma SplitAfterLookup(registry: map<string, Command>, user: UserId, name: string, o: DispatchOracle)
    returns (pre: seq<Effect>, rest: seq<Effect>)
    requires name in registry
    ensures pre == [Lookup(name), CooldownQuery(user, registry[name].name)]
    ensures RunApplicationCommand(true, registry, user, name, o) == pre + rest
    ensures rest == match o.cooledDown
      case None => [Panic(CooldownQueryFailed)]
      case Some(false) => NotCooledDownRespond(user, registry[name], o.remaining)
      case Some(true) => HandleCommandExecution(user, registry[name], o.execute, o.useLastOk)
    ensures forall p: Effect -> bool :: Count(pre + rest, p) == Count(pre, p) + Count(rest, p)
    ensures Count(pre, IsExecute) == Count(pre, IsReturnedExecute) == Count(pre, IsUseLast) == 0
    ensures Count(pre, IsPanic) == Count(pre, IsLifecycle) == 0
    ensures Responses(pre + rest) == Responses(rest)
    ensures ExecutionsRecorded(pre)
  {
    pre := [Lookup(name), CooldownQuery(user, registry[name].name)];
    rest := RunApplicationCommand(true, registry, user, name, o)[2..];
    forall p: Effect -> bool ensures Count(pre + rest, p) == Count(pre, p) + Count(rest, p) {
      CountAppend(pre, rest, p);
    }
    CountPair(pre[0], pre[1], IsExecute);
    CountPair(pre[0], pre[1], IsReturnedExecute);
    CountPair(pre[0], pre[1], IsUseLast);
    CountPair(pre[0], pre[1], IsPanic);
    CountPair(pre[0], pre[1], IsLifecycle);
    ResponsesPair(pre[0], pre[1]);
    ResponsesAppend(pre, rest);
  }

  /** An interaction that is not an application command is dropped: no
      response, no lookup, no cooldown query, no execution, no recording. */
  lemma NonCommandInteractionDropped(readyToGo: bool, registry: map<string, Command>, o: DispatchOracle)
    ensures InteractionCreate(readyToGo, registry, OtherInteraction, o) == []
  {
  }

  /** Before `READY_TO_GO` is set the only effect is the not-ready response:
      no lookup, cooldown query, execution or `use_last`. */
  lemma NotReadyOnlyResponds(registry: map<string, Command>, user: UserId, name: string, o: DispatchOracle)
    ensures RunApplicationCommand(false, registry, user, name, o) == [Respond(NotReadyYet)]
    ensures Count(RunApplicationCommand(false, registry, user, name, o), IsCommandWork) == 0
  {
  }

  /** An unknown name: after the lookup, the only effect is the
      unknown-command response carrying the requested name. */
  lemma UnknownCommandOnlyResponds(registry: map<string, Command>, user: UserId, name: string, o: DispatchOracle)
    requires name !in registry
    ensures RunApplicationCommand(true, registry, user, name, o) == [Lookup(name), Respond(UnknownCommand(name))]
    ensures Responses(RunApplicationCommand(true, registry, user, name, o)) == [UnknownCommand(name)]
    ensures Count(RunApplicationCommand(true, registry, user, name, o), IsCooldownOrRun) == 0
  {
    var r := RunApplicationCommand(true, registry, user, name, o);
    CountPair(r[0], r[1], IsCooldownOrRun);
    ResponsesPair(r[0], r[1]);
  }

  /** A command still cooling down: the response carries the value
      `get_remaining_cooldown` returned (none if that call failed), and the
      command is neither executed nor recorded. */
  lemma CoolingDownBlocks(registry: map<string, Command>, user: UserId, name: string, o: DispatchOracle)
    requires name in registry && o.cooledDown == Some(false)
    ensures Responses(RunApplicationCommand(true, registry, user, name, o))
         == (if o.remaining.Some? then [NotCooledDown(o.remaining.value)] else [])
    ensures Count(RunApplicationCommand(true, registry, user, name, o), IsExecute) == 0
    ensures Count(RunApplicationCommand(true, registry, user, name, o), IsUseLast) == 0
    ensures Count(RunApplicationCommand(true, registry, user, name, o), IsPanic) == 0
  {
    var pre, rest := SplitAfterLookup(registry, user, name, o);
    assert rest == NotCooledDownRespond(user, registry[name], o.remaining);
    NotCooledDownFacts(user, registry[name], o.remaining);
    assert Count(pre + rest, IsExecute) == Count(pre, IsExecute) + Count(rest, IsExecute);
    assert Count(pre + rest, IsUseLast) == Count(pre, IsUseLast) + Count(rest, IsUseLast);
    assert Count(pre + rest, IsPanic) == Count(pre, IsPanic) + Count(rest, IsPanic);
  }

  /** `not_cooled_down_respond` responds with the remaining cooldown when
      that query succeeded and with nothing otherwise; it neither runs,
      records nor panics. */
  lemma NotCooledDownFacts(user: UserId, command: Command, remaining: Option<int>)
    ensures Responses(NotCooledDownRespond(user, command, remaining))
         == (if remaining.Some? then [NotCooledDown(remaining.value)] else [])
    ensures Count(NotCooledDownRespond(user, command, remaining), IsExecute) == 0
    ensures Count(NotCooledDownRespond(user, command, remaining), IsUseLast) == 0
    ensures Count(NotCooledDownRespond(user, command, remaining), IsPanic) == 0
  {
    var r := NotCooledDownRespond(user, command, remaining);
    if remaining.Some? {
      CountPair(r[0], r[1], IsExecute);
      CountPair(r[0], r[1], IsUseLast);
      CountPair(r[0], r[1], IsPanic);
      ResponsesPair(r[0], r[1]);
    } else {
      assert r[1..] == [];
    }
  }

  /** A failed cooldown query panics at the `unwrap`: no response is sent
      and the command is neither executed nor recorded. */
  lemma CooldownQueryErrorPanics(registry: map<string, Command>, user: UserId, name: string, o: DispatchOracle)
    requires name in registry && o.cooledDown.None?
    ensures RunApplicationCommand(true, registry, user, name, o)
         == [Lookup(name), CooldownQuery(user, registry[name].name), Panic(CooldownQueryFailed)]
    ensures Responses(RunApplicationCommand(true, registry, user, name, o)) == []
  {
    var pre, rest := SplitAfterLookup(registry, user, name, o);
  }

  /** Every guard passes: the command executes once and, whether `execute`
      returned `Ok` or `Err`, `use_last` is then called for the same user
      and command; a panic inside `execute` ends the event unrecorded. The
      dispatcher sends no response of its own. */
  lemma AdmittedExecutesThenRecords(registry: map<string, Command>, user: UserId, name: string, o: DispatchOracle)
    requires Admitted(true, registry, name, o)
    ensures RunApplicationCommand(true, registry, user, name, o)
         == [Lookup(name), CooldownQuery(user, registry[name].name),
             Execute(registry[name].name, o.execute),
             if o.execute.Returned? then UseLast(user, registry[name].name) else Panic(CommandPanicked)]
    ensures Responses(RunApplicationCommand(true, registry, user, name, o)) == []
  {
    var pre, rest := SplitAfterLookup(registry, user, name, o);
    ResponsesPair(rest[0], rest[1]);
  }

  /** The outcome of `use_last` is dropped: it changes nothing. */
  lemma UseLastOutcomeIgnored(readyToGo: bool, registry: map<string, Command>, user: UserId, name: string,
                              o: DispatchOracle, useLastOk: bool)
    ensures RunApplicationCommand(readyToGo, registry, user, name, o.(useLastOk := useLastOk))
         == RunApplicationCommand(readyToGo, registry, user, name, o)
  {
  }

  /** Over every input: the command runs exactly once when every guard
      passes and never otherwise; it is recorded exactly when it also
      returned, directly after the execution; at most one response is sent;
      and dispatch touches nothing of the ready path. */
  lemma ExecutesOnceIffAdmitted(readyToGo: bool, registry: map<string, Command>, user: UserId, name: string,
                                o: DispatchOracle)
    ensures Count(RunApplicationCommand(readyToGo, registry, user, name, o), IsExecute)
         == (if Admitted(readyToGo, registry, name, o) then 1 else 0)
    ensures Count(RunApplicationCommand(readyToGo, registry, user, name, o), IsUseLast)
         == Count(RunApplicationCommand(readyToGo, registry, user, name, o), IsReturnedExecute)
         == (if Admitted(readyToGo, registry, name, o) && o.execute.Returned? then 1 else 0)
    ensures ExecutionsRecorded(RunApplicationCommand(readyToGo, registry, user, name, o))
    ensures |Responses(RunApplicationCommand(readyToGo, registry, user, name, o))| <= 1
    ensures Count(RunApplicationCommand(readyToGo, registry, user, name, o), IsLifecycle) == 0
  {
    var r := RunApplicationCommand(readyToGo, registry, user, name, o);
    if !readyToGo {
      NotReadyOnlyResponds(registry, user, name, o);
    } else if name !in registry {
      UnknownCommandOnlyResponds(registry, user, name, o);
      CountPair(r[0], r[1], IsExecute);
      CountPair(r[0], r[1], IsReturnedExecute);
      CountPair(r[0], r[1], IsUseLast);
      CountPair(r[0], r[1], IsLifecycle);
    } else {
      var pre, rest := SplitAfterLookup(registry, user, name, o);
      CooldownTailFacts(user, registry[name], o, rest);
      ExecutionsRecordedAppend(pre, rest);
    }
  }

  /** What follows the cooldown query: at most one execution, exactly when
      the user is cooled down, recorded exactly when it returned; at most
      one response. */
  lemma CooldownTailFacts(user: UserId, command: Command, o: DispatchOracle, rest: seq<Effect>)
    requires rest == match o.cooledDown
      case None => [Panic(CooldownQueryFailed)]
      case Some(false) => NotCooledDownRespond(user, command, o.remaining)
      case Some(true) => HandleCommandExecution(user, command, o.execute, o.useLastOk)
    ensures Count(rest, IsExecute) == (if o.cooledDown == Some(true) then 1 else 0)
    ensures Count(rest, IsUseLast) == Count(rest, IsReturnedExecute)
         == (if o.cooledDown == Some(true) && o.execute.Returned? then 1 else 0)
    ensures ExecutionsRecorded(rest)
    ensures |Responses(rest)| <= 1
    ensures Count(rest, IsLifecycle) == 0
  {
    if |rest| == 2 {
      CountPair(rest[0], rest[1], IsExecute);
      CountPair(rest[0], rest[1], IsReturnedExecute);
      CountPair(rest[0], rest[1], IsUseLast);
      CountPair(rest[0], rest[1], IsLifecycle);
      ResponsesPair(rest[0], rest[1]);
    }
  }

  /** `interaction_create` over every interaction: what `ExecutesOnceIffAdmitted`
      says, and before `READY_TO_GO` no command work and only not-ready
      responses. */
  lemma InteractionFacts(readyToGo: bool, registry: map<string, Command>, i: Interaction, o: DispatchOracle)
    ensures Count(InteractionCreate(readyToGo, registry, i, o), IsExecute)
         == (if i.ApplicationCommand? && Admitted(readyToGo, registry, i.name, o) then 1 else 0)
    ensures Count(InteractionCreate(readyToGo, registry, i, o), IsUseLast)
         == Count(InteractionCreate(readyToGo, registry, i, o), IsReturnedExecute)
         == (if i.ApplicationCommand? && Admitted(readyToGo, registry, i.name, o) && o.execute.Returned? then 1 else 0)
    ensures |Responses(InteractionCreate(readyToGo, registry, i, o))| <= 1
    ensures ExecutionsRecorded(InteractionCreate(readyToGo, registry, i, o))
    ensures Count(InteractionCreate(readyToGo, registry, i, o), IsLifecycle) == 0
    ensures !readyToGo ==>
      Count(InteractionCreate(readyToGo, registry, i, o), IsCommandWork) == 0 &&
      forall k :: 0 <= k < |Responses(InteractionCreate(readyToGo, registry, i, o))| ==>
        Responses(InteractionCreate(readyToGo, registry, i, o))[k] == NotReadyYet
  {
    match i {
      case ApplicationCommand(user, name) =>
        ExecutesOnceIffAdmitted(readyToGo, registry, user, name, o);
        if !readyToGo {
          NotReadyOnlyResponds(registry, user, name, o);
        }
      case OtherInteraction =>
    }
  }
}
