# Aegistrate's event handler, modelled in Dafny

This project models the core of Aegistrate, a Discord moderation bot: the event
handler in `src/bot/handler.rs`. The handler owns two process-wide one-way
latches:

- `DISCORD_READY` is set by `discord_ready_up`.
- `READY_TO_GO` is set by `appear_active`.

It also owns two set-once cells: `AEGISTRATE_USER` (the bot's own user) and
`MONGODB_CLIENT` (the database client).

The handler reacts to three things:

- **`ready` event.** It sets up the database first and panics if that fails.
  The one-time setup (`discord_ready_up`, then `initialize_systems`) runs only
  while `DISCORD_READY` is false. Then it always runs `appear_active`.
- **`interaction_create` event.** Only application commands are dispatched, by
  `run_application_command`. That function is a chain of guards, each with an
  early return:
  1. the readiness check;
  2. the lookup by name;
  3. the cooldown check, whose error is unwrapped;
  4. the execution, followed by `use_last`, which records the use for the
     cooldown whether the execution returned `Ok` or `Err`. If the execution
     panics, `use_last` is never reached.
- **Watchdog.** A thread checks `DISCORD_READY` once, at a deadline, and exits
  the process with status 1 if the flag is still false.

Files and modules:

- `types.dfy` (`Types`): the state, the interactions, the answers of the
  collaborators, and the observable effects. An effect is a call made, a guard
  response sent, a presence set, a panic, or the exit. The file also has
  counting helpers over effect sequences.
- `steps.dfy` (`Steps`): one reference function per handler function. Each
  gives the new state and the effects, in order.
- `handler.dfy` (`Handler`): the handler as a class. It has the two flag fields,
  the two set-once cells (`OnceCell`) and an effect trace. Each method mirrors
  one Rust function, guard by guard and early return by early return. Each
  method is proved to produce exactly the state and trace of its reference
  function.
- `dispatch_properties.dfy`, `readiness_properties.dfy`: what the handler
  promises for one interaction and for one ready event.
- `runs.dfy` (`Runs`): any sequence of events, handled one after another. The
  properties that hold over every run are proved by induction: the invariant,
  monotone latches, one-time setup at most once, every returned execution recorded,
  gating until ready, and exit only as the last effect.

Collaborators that live outside `handler.rs` are inputs to the model. Each is
the answer that call gives:

- building the MongoDB client: `connect`, `None` for its `Err`;
- `init_all_data`, `set_up_commands`: `dataOk`, `commandsOk`;
- `cooled_down`: `cooledDown`, `None` for its `Err`;
- `get_remaining_cooldown`: `remaining`, `None` for its `Err`;
- `Command::execute`: `execute`, which is `Returned(ok)` or `ExecutePanicked`;
- `use_last`: `useLastOk`.

The registry that `command_by_name` consults is a fixed `map<string, Command>`.

Behaviour of the source worth knowing:

- **Startup failure.** A database failure at startup is a `panic!` inside the
  `ready` handler. A panic in an event handler ends that handler's task.
  Whether the process then aborts depends on the build's panic setting. The
  model ends that event only, and later events still run.
- **`get_remaining_cooldown` error.** When the user is not cooled down and
  `get_remaining_cooldown` fails, `not_cooled_down_respond` returns before
  responding. No response is sent.
- **Panicking command.** The ban command unwraps the interaction's guild id
  (`src/bot/core/moderation/ban.rs:30-32`), so it panics when used outside a
  guild. That panic leaves `handle_command_execution` before `use_last`, and
  the use is not recorded.
- **One-time setup.** `set_up_database` runs again on every `ready` event,
  builds a new client and can panic again. Only the one-time setup after it is
  guarded by `DISCORD_READY`.

## Model

| member | source | states |
|---|---|---|
| `Handler.OnceCell.Set` | src/bot/handler.rs:286-289 | a set-once cell accepts a value only while empty; a filled cell keeps its value and the call reports failure |
| `Handler.EventHandler.constructor` | src/bot/handler.rs:313-326 | at process start both flags are false, both cells are empty and nothing has happened |
| `Handler.EventHandler.SetUpDatabase` | src/bot/handler.rs:285-291 | a connection error is returned before the cell is touched; otherwise `MONGODB_CLIENT` keeps its first client and a failing second `set` is ignored |
| `Handler.EventHandler.DiscordReadyUp` | src/bot/handler.rs:125-134 | fills `AEGISTRATE_USER`, panicking exactly when it is already filled; only then sets `DISCORD_READY` and the waiting presence |
| `Handler.EventHandler.InitializeSystems` | src/bot/handler.rs:154-158 | `init_all_data` runs first; `set_up_commands` runs only if it succeeded; the result is `Ok` only if both succeeded |
| `Handler.EventHandler.AppearActive` | src/bot/handler.rs:137-151 | sets the active presence and `READY_TO_GO`; reading the user cell panics exactly when it is empty |
| `Handler.EventHandler.Ready` | src/bot/handler.rs:95-106 | the `ready` event yields the reference state and effects; no latch is reset, no filled cell changes, and a consistent state stays consistent |
| `Handler.EventHandler.NotReadyRespond` | src/bot/handler.rs:161-180 | sends the not-ready response |
| `Handler.EventHandler.UnknownCommandRespond` | src/bot/handler.rs:183-205 | sends the unknown-command response naming the requested command |
| `Handler.EventHandler.NotCooledDownRespond` | src/bot/handler.rs:208-229 | asks for the remaining cooldown and responds with it only if that query succeeded |
| `Handler.EventHandler.HandleCommandExecution` | src/bot/handler.rs:232-251 | executes the command, then calls `use_last` whether `execute` returned `Ok` or `Err`; a panic inside `execute` ends the event before `use_last` |
| `Handler.EventHandler.RunApplicationCommand` | src/bot/handler.rs:254-280 | the guard chain with its early returns yields exactly the reference effects; the flags and cells are untouched |
| `Handler.EventHandler.InteractionCreate` | src/bot/handler.rs:108-115 | dispatches application commands and ignores every other interaction |
| `Handler.EventHandler.WatchdogCheck` | src/bot/handler.rs:78-86 | the watchdog's check gives exit code 1 exactly when `DISCORD_READY` is false, and no exit otherwise |
| `DispatchProperties.NonCommandInteractionDropped` | src/bot/handler.rs:109-114 | an interaction that is not an application command has no effect at all |
| `DispatchProperties.NotReadyOnlyResponds` | src/bot/handler.rs:259-262 | while `READY_TO_GO` is false the only effect is the not-ready response; no lookup, cooldown query, execution or `use_last` |
| `DispatchProperties.UnknownCommandOnlyResponds` | src/bot/handler.rs:264-268 | an unknown name gives the lookup, then only the unknown-command response carrying that name; no cooldown query, execution or recording |
| `DispatchProperties.CoolingDownBlocks` | src/bot/handler.rs:270-277 | a user not cooled down gets the response carrying `get_remaining_cooldown`'s value (or none if it failed); nothing is executed or recorded |
| `DispatchProperties.NotCooledDownFacts` | src/bot/handler.rs:208-229 | the not-cooled-down reply carries the remaining cooldown when that query succeeded and is skipped otherwise; nothing runs, is recorded or panics |
| `DispatchProperties.CooldownQueryErrorPanics` | src/bot/handler.rs:271-274 | a failing cooldown query ends dispatch in the `unwrap` panic, with no response, execution or recording |
| `DispatchProperties.AdmittedExecutesThenRecords` | src/bot/handler.rs:237-250 | when every guard passes, the command executes once; `use_last` follows for the same user and command whether `execute` returned `Ok` or `Err`, and a panic in `execute` ends the event unrecorded; the dispatcher itself sends no response |
| `DispatchProperties.UseLastOutcomeIgnored` | src/bot/handler.rs:250 | a failing `use_last` changes nothing |
| `DispatchProperties.ExecutesOnceIffAdmitted` | src/bot/handler.rs:254-280 | for every input, the command runs exactly once iff all guards pass; it is recorded exactly when it also returned, directly after the execution; at most one response; nothing of the ready path happens |
| `DispatchProperties.InteractionFacts` | src/bot/handler.rs:108-115 | over every interaction: one execution exactly when it is an application command that passes every guard; recordings exactly for the executions that returned, each directly after its execution; at most one response; nothing of the ready path; before `READY_TO_GO`, no command work and only not-ready responses |
| `ReadinessProperties.DatabaseFailurePanicsFirst` | src/bot/handler.rs:96-98 | a database failure panics before any flag or cell changes |
| `ReadinessProperties.ReadyKeepsFirstClient` | src/bot/handler.rs:286-289 | `MONGODB_CLIENT` keeps the first client; a later `set` is ignored |
| `ReadinessProperties.ReadyGrows` | src/bot/handler.rs:95-106 | no ready event resets a flag or changes a filled cell |
| `ReadinessProperties.FirstReadyInitialises` | src/bot/handler.rs:99-105 | the first ready event stores the bot user and runs one-time setup once; it ends with both flags set even if `initialize_systems` failed |
| `ReadinessProperties.RepeatedReadySkipsSetup` | src/bot/handler.rs:99-105 | once `DISCORD_READY` is set, a ready event redoes no setup and never reaches the `AEGISTRATE_USER.set(..).unwrap()` |
| `ReadinessProperties.ReadyKeepsInv` | src/bot/handler.rs:125-127 | from a consistent state a ready event keeps `READY_TO_GO ⇒ DISCORD_READY ⇔ user set`, never panics on the user cell, and with the database up returns with both flags set |
| `ReadinessProperties.InitializeSystemsFacts` | src/bot/handler.rs:154-158 | `initialize_systems` runs `init_all_data` exactly once, sends nothing, panics nowhere, and is `Ok` iff `set_up_commands` succeeded |
| `ReadinessProperties.AppearActiveFacts` | src/bot/handler.rs:137-151 | `appear_active` does no initialisation, command work, response or exit |
| `ReadinessProperties.ReadyFacts` | src/bot/handler.rs:95-106 | a ready event runs `init_all_data` at most once, only when it sets `DISCORD_READY`; no command work, response or exit |
| `ReadinessProperties.ReadyIdempotent` | src/bot/handler.rs:99-104 | two ready events with the database up leave the same flags and cells as one |
| `ReadinessProperties.WatchdogExitsIffNotReady` | src/bot/handler.rs:82-85 | the watchdog exits with 1 exactly when `DISCORD_READY` is false, and otherwise does nothing |
| `Runs.HandleEventFacts` | src/bot/handler.rs:94-115 | what one event of any kind keeps and produces |
| `Runs.RunKeepsInv` | src/bot/handler.rs:313-318 | over any run from a consistent state, `READY_TO_GO` never holds without `DISCORD_READY`, and the user cell never panics |
| `Runs.RunGrows` | src/bot/handler.rs:313-326 | over any run neither flag is stored false again and no filled cell changes |
| `Runs.RunInitialisesAtMostOnce` | src/bot/handler.rs:99-104 | over any run one-time setup happens at most once, and never once `DISCORD_READY` is set |
| `Runs.RunRecordsEveryExecution` | src/bot/handler.rs:239-250 | over any run every execution that returned is directly followed by its recording (one that panicked, by the panic), and recordings equal returned executions in number |
| `Runs.RunGatedUntilReady` | src/bot/handler.rs:259-262 | until a ready event arrives nothing changes, no command work happens, and every response is not-ready |
| `Runs.RunExitsOnlyAtEnd` | src/bot/handler.rs:78-86 | the process exits at most once, as the last effect, with `DISCORD_READY` still false |
| `Runs.FromStart` | src/bot/handler.rs:313-326 | from process start, over every run: the invariant holds at the end, the user cell never panics, one-time setup runs at most once, every returned execution is directly followed by its recording and recordings equal returned executions in number, and an exit is the last effect, with `DISCORD_READY` still false |

## Left out

- Concurrency: the tokio tasks that run events, the watchdog thread, `thread::sleep`, and the `Ordering::Relaxed` loads and stores. Each event runs to completion in one sequential step, and the watchdog's deadline is an event.
- Process-wide effect of a panic: a panic ends the event it happens in. Whether the runtime then aborts the process depends on build settings that are not part of this model. A run that stops at the panic is a prefix of a modelled run.
- Embed text, presence text, and sending responses over HTTP: only an effect tag is recorded. The result of `respond_with_embed` is dropped by the handler, so a failed send changes nothing.
- Logging (`info!`, `error!`). The `get_aegistrate_user()` read inside `appear_active`'s log line is modelled as always evaluated; the properties show it never panics.
- Building and connecting the MongoDB client, and `get_exec_config` / `get_working_guild_id`: the connection outcome is an input, and the timeout length is the `Deadline` event.
- The internals of `cooled_down`, `get_remaining_cooldown`, `use_last`, `command_by_name`, `set_up_commands` and `init_all_data` (`command.rs`, `cooldown.rs`, `data`) are not part of this model. Their answers are inputs, so no cooldown arithmetic or duplicate-name rule is modelled.
- The cooldown store's own promises, such as "cooled down when no record exists" and the remaining time after a use, belong to `cooldown.rs`. They are not modelled.
- `src/bot/core/moderation/ban.rs`: a command's execution is opaque. Only how it ends enters the model: `Ok`, `Err`, or a panic (such as the guild-id `unwrap` outside a guild). What it does to Discord is not modelled.
- `get_mongodb_client` (`src/bot/handler.rs:299-301`) is a getter for code outside the handler. It is not modelled.
