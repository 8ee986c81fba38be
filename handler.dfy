/** Aegistrate's event handler (src/bot/handler.rs) as a class over the
    process-wide state: the `DISCORD_READY` and `READY_TO_GO` flags, the
    `AEGISTRATE_USER` and `MONGODB_CLIENT` set-once cells, and the effects
    produced so far. Each method is one function of the handler, run
    sequentially, and is proved against its reference definition in `Steps`. */
module Handler {
  import opened Types
  import opened Steps
  import ReadinessProperties

  /** A set-once cell (`tokio::sync::OnceCell`): `Set` succeeds only while
      the cell is empty, and a filled cell keeps its value. */
  class OnceCell<T> {
    var value: Option<T>

    constructor ()
      ensures value == None
    {
      value := None;
    }

    method Set(v: T) returns (ok: bool)
      modifies this
      ensures ok == old(value).None?
      ensures value == if ok then Some(v) else old(value)
    {
      ok := value.None?;
      if ok {
        value := Some(v);
      }
    }
  }

  class EventHandler {
    var discordReady: bool                            // DISCORD_READY
    var readyToGo: bool                               // READY_TO_GO
    const aegistrateUser: OnceCell<UserId>            // AEGISTRATE_USER
    const mongodbClient: OnceCell<ClientHandle>       // MONGODB_CLIENT
    /** What `command_by_name` finds for each name. */
    const registry: map<string, Command>
    /** The effects produced so far, in order. */
    var trace: seq<Effect>

    ghost predicate Valid()
      reads this
    {
      aegistrateUser != mongodbClient
    }

    /** The abstract state the reference definitions work on. */
    function State(): Types.State
      reads this, aegistrateUser, mongodbClient
    {
      Types.State(discordReady, readyToGo, aegistrateUser.value, mongodbClient.value)
    }

    /** Process start: both flags false, both cells empty, nothing done. */
    constructor (registry: map<string, Command>)
      ensures Valid() && fresh(aegistrateUser) && fresh(mongodbClient)
      ensures State() == Initial && this.registry == registry && trace == []
    {
      discordReady, readyToGo := false, false;
      aegistrateUser := new OnceCell();
      mongodbClient := new OnceCell();
      this.registry := registry;
      trace := [];
    }

    /** `set_up_database`: `connect` is the outcome of building the client
        (`None` for its `Err`, which `?` returns); the result of
        `MONGODB_CLIENT.set` is dropped. */
    method SetUpDatabase(connect: Option<ClientHandle>) returns (ok: bool)
      requires Valid()
      modifies mongodbClient
      ensures ok == connect.Some?
      ensures State() == if ok then Steps.SetUpDatabase(old(State()), connect.value) else old(State())
    {
      if connect.None? {
        return false;
      }
      var _ := mongodbClient.Set(connect.value);
      ok := true;
    }

    /** `discord_ready_up`; `panicked` is true when the `unwrap` on
        `AEGISTRATE_USER.set` panics. */
    method DiscordReadyUp(bot: UserId) returns (panicked: bool)
      requires Valid()
      modifies this, aegistrateUser
      ensures Valid()
      ensures State() == Steps.DiscordReadyUp(old(State()), bot).post
      ensures trace == old(trace) + Steps.DiscordReadyUp(old(State()), bot).effects
      ensures panicked <==> Panic(UserAlreadySet) in Steps.DiscordReadyUp(old(State()), bot).effects
    {
      var ok := aegistrateUser.Set(bot);
      if !ok {
        trace := trace + [Panic(UserAlreadySet)];
        return true;
      }
      discordReady := true;
      trace := trace + [SetPresence(PlayingWaitingGame)];
      panicked := false;
    }

    /** `initialize_systems`: `init_all_data`, and `set_up_commands` only if
        it succeeded. */
    method InitializeSystems(dataOk: bool, commandsOk: bool) returns (ok: bool)
      modifies this`trace
      ensures ok == InitializeSystemsOk(dataOk, commandsOk)
      ensures trace == old(trace) + Steps.InitializeSystems(dataOk, commandsOk)
    {
      trace := trace + [InitAllData(dataOk)];
      if !dataOk {
        return false;
      }
      trace := trace + [SetUpCommands(commandsOk)];
      ok := commandsOk;
    }

    /** `appear_active`; `panicked` is true when `get_aegistrate_user` finds
        the cell empty. */
    method AppearActive() returns (panicked: bool)
      modifies this`trace, this`readyToGo
      ensures State() == Steps.AppearActive(old(State())).post
      ensures trace == old(trace) + Steps.AppearActive(old(State())).effects
      ensures panicked == old(State()).user.None?
    {
      trace := trace + [SetPresence(WatchingOverServer)];
      readyToGo := true;
      panicked := aegistrateUser.value.None?;
      if panicked {
        trace := trace + [Panic(UserNotSet)];
      }
    }

    /** The `ready` event. */
    method Ready(bot: UserId, connect: Option<ClientHandle>, dataOk: bool, commandsOk: bool)
      requires Valid()
      modifies this, aegistrateUser, mongodbClient
      ensures Valid()
      ensures State() == Steps.Ready(old(State()), bot, connect, dataOk, commandsOk).post
      ensures trace == old(trace) + Steps.Ready(old(State()), bot, connect, dataOk, commandsOk).effects
      // the latches only go up, and a consistent state stays consistent
      ensures Grows(old(State()), State())
      ensures Inv(old(State())) ==> Inv(State())
    {
      ghost var before := State();
      ReadinessProperties.ReadyGrows(before, bot, connect, dataOk, commandsOk);
      if Inv(before) {
        ReadinessProperties.ReadyKeepsInv(before, bot, connect, dataOk, commandsOk);
      }
      var dbOk := SetUpDatabase(connect);
      if !dbOk {
        trace := trace + [Panic(DatabaseSetupFailed)];
        return;
      }
      if !discordReady {
        var panicked := DiscordReadyUp(bot);
        if panicked {
          return;
        }
        var initOk := InitializeSystems(dataOk, commandsOk);
      }
      var panicked := AppearActive();
    }

    /** `not_ready_respond`. */
    method NotReadyRespond()
      modifies this`trace
      ensures trace == old(trace) + Steps.NotReadyRespond()
    {
      trace := trace + [Respond(NotReadyYet)];
    }

    /** `unknown_command_respond`. */
    method UnknownCommandRespond(requested: string)
      modifies this`trace
      ensures trace == old(trace) + Steps.UnknownCommandRespond(requested)
    {
      trace := trace + [Respond(UnknownCommand(requested))];
    }

    /** `not_cooled_down_respond`: `remaining` is the outcome of
        `get_remaining_cooldown`, whose `Err` returns before responding. */
    method NotCooledDownRespond(user: UserId, command: Command, remaining: Option<int>)
      modifies this`trace
      ensures trace == old(trace) + Steps.NotCooledDownRespond(user, command, remaining)
    {
      trace := trace + [RemainingQuery(user, command.name)];
      if remaining.None? {
        return;
      }
      trace := trace + [Respond(NotCooledDown(remaining.value))];
    }

    /** `handle_command_execution`; `execute` is how `Command::execute`
        ended. */
    method HandleCommandExecution(user: UserId, command: Command, execute: ExecuteOutcome, useLastOk: bool)
      modifies this`trace
      ensures trace == old(trace) + Steps.HandleCommandExecution(user, command, execute, useLastOk)
    {
      trace := trace + [Execute(command.name, execute)];
      if execute.ExecutePanicked? {
        trace := trace + [Panic(CommandPanicked)];
        return;
      }
      // the result of `use_last` is dropped
      trace := trace + [UseLast(user, command.name)];
    }

    /** `run_application_command`. */
    method RunApplicationCommand(user: UserId, name: string, o: DispatchOracle)
      modifies this`trace
      ensures trace == old(trace) + Steps.RunApplicationCommand(readyToGo, registry, user, name, o)
    {
      if !readyToGo {
        NotReadyRespond();
        return;
      }
      trace := trace + [Lookup(name)];
      if name !in registry {
        UnknownCommandRespond(name);
        return;
      }
      var command := registry[name];
      trace := trace + [CooldownQuery(user, command.name)];
      match o.cooledDown {
        case None =>
          trace := trace + [Panic(CooldownQueryFailed)];
          return;
        case Some(false) =>
          NotCooledDownRespond(user, command, o.remaining);
          return;
        case Some(true) =>
      }
      HandleCommandExecution(user, command, o.execute, o.useLastOk);
    }

    /** The `interaction_create` event. */
    method InteractionCreate(i: Interaction, o: DispatchOracle)
      modifies this`trace
      ensures trace == old(trace) + Steps.InteractionCreate(readyToGo, registry, i, o)
    {
      match i {
        case ApplicationCommand(user, name) =>
          RunApplicationCommand(user, name, o);
        case OtherInteraction =>
      }
    }

    /** The check `spawn_timeout_checker`'s thread makes once its deadline
        has passed: the exit code it terminates the process with, if any. */
    method WatchdogCheck() returns (exitCode: Option<int>)
      ensures exitCode == None <==> discordReady
      ensures exitCode.Some? ==> exitCode.value == 1
      ensures Steps.WatchdogCheck(State()) == (if exitCode.Some? then [Exit(exitCode.value)] else [])
    {
      if !discordReady {
        return Some(1);
      }
      return None;
    }
  }
}
