/** Reference definitions of the functions of Aegistrate's event handler
    (src/bot/handler.rs), one sequential step each: what a function does to
    the process-wide state and which effects it produces, in order. The
    methods of `Handler.EventHandler` are proved against these. */
module Steps {
  import opened Types

  /** The state after a step, and the effects of the step in order. */
  datatype Step = Step(post: State, effects: seq<Effect>)

  /** What the handler keeps true of its state: `READY_TO_GO` implies
      `DISCORD_READY`, and `DISCORD_READY` is set exactly when
      `AEGISTRATE_USER` is. */
  predicate Inv(s: State) {
    (s.readyToGo ==> s.discordReady) && (s.discordReady <==> s.user.Some?)
  }

  /** `t` is reachable from `s` as far as the latches go: no flag is reset
      and no set-once cell changes its value. */
  predicate Grows(s: State, t: State) {
    (s.discordReady ==> t.discordReady) &&
    (s.readyToGo ==> t.readyToGo) &&
    (s.user.Some? ==> t.user == s.user) &&
    (s.dbClient.Some? ==> t.dbClient == s.dbClient)
  }

  predicate IsExecute(e: Effect) { e.Execute? }
  /** An execution whose `execute` returned (`Ok` or `Err`) rather than panicked. */
  predicate IsReturnedExecute(e: Effect) { e.Execute? && e.outcome.Returned? }
  predicate IsUseLast(e: Effect) { e.UseLast? }
  predicate IsInitAllData(e: Effect) { e.InitAllData? }
  predicate IsUserPanic(e: Effect) { e == Panic(UserAlreadySet) || e == Panic(UserNotSet) }
  predicate IsPanic(e: Effect) { e.Panic? }
  predicate IsExit(e: Effect) { e.Exit? }

  /** Effects that only the ready path and the watchdog produce. */
  predicate IsLifecycle(e: Effect) {
    e.SetPresence? || e.InitAllData? || e.SetUpCommands? || e.Exit? ||
    e == Panic(DatabaseSetupFailed) || IsUserPanic(e)
  }

  // ---------------------------------------------------------------------
  // The ready path
  // ---------------------------------------------------------------------

  /** `set_up_database` after a successful connection: `MONGODB_CLIENT.set`
      fills the cell only while it is empty; its `Err` is dropped. */
  function SetUpDatabase(s: State, client: ClientHandle): State {
    if s.dbClient.None? then s.(dbClient := Some(client)) else s
  }

  /** `discord_ready_up`: fills `AEGISTRATE_USER` (the `unwrap` panics when
      it is already filled), then sets `DISCORD_READY` and the waiting
      presence. */
  function DiscordReadyUp(s: State, bot: UserId): Step {
    if s.user.Some? then Step(s, [Panic(UserAlreadySet)])
    else Step(s.(user := Some(bot), discordReady := true), [SetPresence(PlayingWaitingGame)])
  }

  /** `initialize_systems`: `init_all_data`, then `set_up_commands` only if
      the first succeeded (the `?`s). */
  function InitializeSystems(dataOk: bool, commandsOk: bool): seq<Effect> {
    [InitAllData(dataOk)] + (if dataOk then [SetUpCommands(commandsOk)] else [])
  }

  /** Whether `initialize_systems` returned `Ok`. */
  function InitializeSystemsOk(dataOk: bool, commandsOk: bool): bool {
    dataOk && commandsOk
  }

  /** `appear_active`: the watching presence, then `READY_TO_GO`, then the
      log line that reads `AEGISTRATE_USER` through `get_aegistrate_user`
      (a panic if the cell is empty). */
  function AppearActive(s: State): Step {
    Step(s.(readyToGo := true),
         [SetPresence(WatchingOverServer)] + (if s.user.None? then [Panic(UserNotSet)] else []))
  }

  /** The `ready` event handler. `connect` is the outcome of building the
      MongoDB client (`None` for its `Err`); `dataOk` and `commandsOk` are
      the outcomes of `init_all_data` and `set_up_commands`. A panic ends
      the handler. */
  function Ready(s: State, bot: UserId, connect: Option<ClientHandle>, dataOk: bool, commandsOk: bool): Step {
    match connect
    case None => Step(s, [Panic(DatabaseSetupFailed)])
    case Some(client) =>
      var s1 := SetUpDatabase(s, client);
      if !s1.discordReady then
        var up := DiscordReadyUp(s1, bot);
        if s1.user.Some? then up
        else
          var active := AppearActive(up.post);
          Step(active.post, up.effects + InitializeSystems(dataOk, commandsOk) + active.effects)
      else
        AppearActive(s1)
  }

  // ---------------------------------------------------------------------
  // The interaction path
  // ---------------------------------------------------------------------

  /** `not_ready_respond`. */
  function NotReadyRespond(): seq<Effect> {
    [Respond(NotReadyYet)]
  }

  /** `unknown_command_respond`: the response names the requested command. */
  function UnknownCommandRespond(requested: string): seq<Effect> {
    [Respond(UnknownCommand(requested))]
  }

  /** `not_cooled_down_respond`: asks for the remaining cooldown and, only if
      that succeeds, responds with it. */
  function NotCooledDownRespond(user: UserId, command: Command, remaining: Option<int>): seq<Effect> {
    [RemainingQuery(user, command.name)] +
    (if remaining.Some? then [Respond(NotCooledDown(remaining.value))] else [])
  }

  /** `handle_command_execution`: executes, then records the use whether
      `execute` returned `Ok` or `Err`; a panic inside `execute` ends the
      event before the recording. The outcome of `use_last` is dropped. */
  function HandleCommandExecution(user: UserId, command: Command, execute: ExecuteOutcome, useLastOk: bool): seq<Effect> {
    [Execute(command.name, execute),
     if execute.Returned? then UseLast(user, command.name) else Panic(CommandPanicked)]
  }

  /** All guards of `run_application_command` pass. */
  predicate Admitted(readyToGo: bool, registry: map<string, Command>, name: string, o: DispatchOracle) {
    readyToGo && name in registry && o.cooledDown == Some(true)
  }

  /** `run_application_command`: the readiness guard, the lookup by name,
      the cooldown guard (whose `Err` is unwrapped), then the execution. */
  function RunApplicationCommand(readyToGo: bool, registry: map<string, Command>,
                                 user: UserId, name: string, o: DispatchOracle): seq<Effect> {
    if !readyToGo then
      NotReadyRespond()
    else if name !in registry then
      [Lookup(name)] + UnknownCommandRespond(name)
    else
      var command := registry[name];
      [Lookup(name), CooldownQuery(user, command.name)] +
      match o.cooledDown
      case None => [Panic(CooldownQueryFailed)]
      case Some(false) => NotCooledDownRespond(user, command, o.remaining)
      case Some(true) => HandleCommandExecution(user, command, o.execute, o.useLastOk)
  }

  /** `interaction_create`: only application commands are dispatched. */
  function InteractionCreate(readyToGo: bool, registry: map<string, Command>,
                             i: Interaction, o: DispatchOracle): seq<Effect> {
    match i
    case ApplicationCommand(user, name) => RunApplicationCommand(readyToGo, registry, user, name, o)
    case OtherInteraction => []
  }

  // ---------------------------------------------------------------------
  // The watchdog
  // ---------------------------------------------------------------------

  /** The one check `spawn_timeout_checker` makes after its deadline. */
  function WatchdogCheck(s: State): seq<Effect> {
    if !s.discordReady then [Exit(1)] else []
  }
}
