/** What the `ready` handler and the watchdog (src/bot/handler.rs) promise
    for one event: the database comes first, one-time setup runs only while
    `DISCORD_READY` is false, the latches are only ever set, and a normal
    return leaves the handler ready to go. */
module ReadinessProperties {
  import opened Types
  import opened Steps

  /** A failure to build the database client panics before any flag or
      cell changes. */
  lemma DatabaseFailurePanicsFirst(s: State, bot: UserId, dataOk: bool, commandsOk: bool)
    ensures Ready(s, bot, None, dataOk, commandsOk) == Step(s, [Panic(DatabaseSetupFailed)])
  {
  }

  /** `MONGODB_CLIENT` keeps the client of the first successful ready event;
      a later `set` fails and its result is ignored. */
  lemma ReadyKeepsFirstClient(s: State, bot: UserId, client: ClientHandle, dataOk: bool, commandsOk: bool)
    ensures Ready(s, bot, Some(client), dataOk, commandsOk).post.dbClient
         == (if s.dbClient.Some? then s.dbClient else Some(client))
  {
  }

  /** No ready event resets a flag or changes a filled cell. */
  lemma ReadyGrows(s: State, bot: UserId, connect: Option<ClientHandle>, dataOk: bool, commandsOk: bool)
    ensures Grows(s, Ready(s, bot, connect, dataOk, commandsOk).post)
  {
  }

  /** The first successful ready event: the bot user is stored,
      `DISCORD_READY` is set, `initialize_systems` runs once, and
      `READY_TO_GO` is set even when `initialize_systems` failed, since its
      error is only logged. */
  lemma FirstReadyInitialises(s: State, bot: UserId, client: ClientHandle, dataOk: bool, commandsOk: bool)
    requires Inv(s) && !s.discordReady
    ensures Ready(s, bot, Some(client), dataOk, commandsOk).effects
         == [SetPresence(PlayingWaitingGame)] + InitializeSystems(dataOk, commandsOk)
            + [SetPresence(WatchingOverServer)]
    ensures Ready(s, bot, Some(client), dataOk, commandsOk).post
         == State(true, true, Some(bot), if s.dbClient.Some? then s.dbClient else Some(client))
  {
  }

  /** A repeated ready event from a consistent state redoes no one-time
      setup and never reaches the `AEGISTRATE_USER.set(..).unwrap()`: it
      only refreshes the presence and sets `READY_TO_GO` again. */
  lemma RepeatedReadySkipsSetup(s: State, bot: UserId, client: ClientHandle, dataOk: bool, commandsOk: bool)
    requires Inv(s) && s.discordReady
    ensures Ready(s, bot, Some(client), dataOk, commandsOk).effects == [SetPresence(WatchingOverServer)]
    ensures Ready(s, bot, Some(client), dataOk, commandsOk).post
         == s.(readyToGo := true, dbClient := if s.dbClient.Some? then s.dbClient else Some(client))
  {
  }

  /** From a consistent state a ready event keeps the state consistent and
      never panics on the user cell; when the database comes up, it returns
      normally with both flags set. */
  lemma ReadyKeepsInv(s: State, bot: UserId, connect: Option<ClientHandle>, dataOk: bool, commandsOk: bool)
    requires Inv(s)
    ensures Inv(Ready(s, bot, connect, dataOk, commandsOk).post)
    ensures Count(Ready(s, bot, connect, dataOk, commandsOk).effects, IsUserPanic) == 0
    ensures connect.Some? ==>
      Ready(s, bot, connect, dataOk, commandsOk).post.discordReady &&
      Ready(s, bot, connect, dataOk, commandsOk).post.readyToGo &&
      Count(Ready(s, bot, connect, dataOk, commandsOk).effects, IsPanic) == 0
  {
    var r := Ready(s, bot, connect, dataOk, commandsOk);
    if connect.Some? {
      if !s.discordReady {
        FirstReadyInitialises(s, bot, connect.value, dataOk, commandsOk);
        var init := InitializeSystems(dataOk, commandsOk);
        CountAppend([SetPresence(PlayingWaitingGame)], init, IsUserPanic);
        CountAppend([SetPresence(PlayingWaitingGame)] + init, [SetPresence(WatchingOverServer)], IsUserPanic);
        CountAppend([SetPresence(PlayingWaitingGame)], init, IsPanic);
        CountAppend([SetPresence(PlayingWaitingGame)] + init, [SetPresence(WatchingOverServer)], IsPanic);
        InitializeSystemsFacts(dataOk, commandsOk);
      } else {
        RepeatedReadySkipsSetup(s, bot, connect.value, dataOk, commandsOk);
      }
    }
  }

  /** `initialize_systems` always runs `init_all_data` once, and produces
      nothing else but `set_up_commands`. */
  lemma InitializeSystemsFacts(dataOk: bool, commandsOk: bool)
    ensures Count(InitializeSystems(dataOk, commandsOk), IsInitAllData) == 1
    ensures Count(InitializeSystems(dataOk, commandsOk), IsPanic) == 0
    ensures Count(InitializeSystems(dataOk, commandsOk), IsUserPanic) == 0
    ensures Count(InitializeSystems(dataOk, commandsOk), IsCommandWork) == 0
    ensures Count(InitializeSystems(dataOk, commandsOk), IsExit) == 0
    ensures Responses(InitializeSystems(dataOk, commandsOk)) == []
    ensures InitializeSystemsOk(dataOk, commandsOk) <==> SetUpCommands(true) in InitializeSystems(dataOk, commandsOk)
  {
    var r := InitializeSystems(dataOk, commandsOk);
    if dataOk {
      CountPair(r[0], r[1], IsInitAllData);
      CountPair(r[0], r[1], IsPanic);
      CountPair(r[0], r[1], IsUserPanic);
      CountPair(r[0], r[1], IsCommandWork);
      CountPair(r[0], r[1], IsExit);
      ResponsesPair(r[0], r[1]);
    }
  }

  /** Over every input: a ready event runs `init_all_data` at most once, and
      only when it sets `DISCORD_READY`; it does no command work, sends no
      response and does not exit the process. */
  lemma ReadyFacts(s: State, bot: UserId, connect: Option<ClientHandle>, dataOk: bool, commandsOk: bool)
    ensures Count(Ready(s, bot, connect, dataOk, commandsOk).effects, IsInitAllData) <= 1
    ensures Count(Ready(s, bot, connect, dataOk, commandsOk).effects, IsInitAllData) == 1 ==>
      !s.discordReady && Ready(s, bot, connect, dataOk, commandsOk).post.discordReady
    ensures Count(Ready(s, bot, connect, dataOk, commandsOk).effects, IsCommandWork) == 0
    ensures Count(Ready(s, bot, connect, dataOk, commandsOk).effects, IsExit) == 0
    ensures Responses(Ready(s, bot, connect, dataOk, commandsOk).effects) == []
  {
    var r := Ready(s, bot, connect, dataOk, commandsOk);
    if connect.Some? {
      var s1 := SetUpDatabase(s, connect.value);
      if s1.discordReady {
        AppearActiveFacts(s1);
      } else if s1.user.None? {
        var up := [SetPresence(PlayingWaitingGame)];
        var init := InitializeSystems(dataOk, commandsOk);
        var active := AppearActive(s1.(user := Some(bot), discordReady := true)).effects;
        assert r.effects == up + init + active;
        AppearActiveFacts(s1.(user := Some(bot), discordReady := true));
        InitializeSystemsFacts(dataOk, commandsOk);
        CountAppend(up, init, IsInitAllData);
        CountAppend(up + init, active, IsInitAllData);
        CountAppend(up, init, IsCommandWork);
        CountAppend(up + init, active, IsCommandWork);
        CountAppend(up, init, IsExit);
        CountAppend(up + init, active, IsExit);
        ResponsesAppend(up, init);
        ResponsesAppend(up + init, active);
      }
    }
  }

  /** `appear_active` neither initialises, does command work, responds nor
      exits. */
  lemma AppearActiveFacts(s: State)
    ensures Count(AppearActive(s).effects, IsInitAllData) == 0
    ensures Count(AppearActive(s).effects, IsCommandWork) == 0
    ensures Count(AppearActive(s).effects, IsExit) == 0
    ensures Responses(AppearActive(s).effects) == []
  {
    var e := AppearActive(s).effects;
    if |e| == 2 {
      CountPair(e[0], e[1], IsInitAllData);
      CountPair(e[0], e[1], IsCommandWork);
      CountPair(e[0], e[1], IsExit);
      ResponsesPair(e[0], e[1]);
    }
  }

  /** Running the ready handler twice, both times with the database up,
      leaves the same flags and cells as running it once. */
  lemma ReadyIdempotent(s: State, bot1: UserId, client1: ClientHandle, dataOk1: bool, commandsOk1: bool,
                        bot2: UserId, client2: ClientHandle, dataOk2: bool, commandsOk2: bool)
    requires Inv(s)
    ensures Ready(Ready(s, bot1, Some(client1), dataOk1, commandsOk1).post, bot2, Some(client2), dataOk2, commandsOk2).post
         == Ready(s, bot1, Some(client1), dataOk1, commandsOk1).post
  {
    ReadyKeepsInv(s, bot1, Some(client1), dataOk1, commandsOk1);
  }

  /** The watchdog's one check exits with status 1 exactly when
      `DISCORD_READY` is still false, and otherwise does nothing. */
  lemma WatchdogExitsIffNotReady(s: State)
    ensures WatchdogCheck(s) == [Exit(1)] <==> !s.discordReady
    ensures s.discordReady ==> WatchdogCheck(s) == []
  {
  }
}
