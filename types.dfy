/** Values that flow through Aegistrate's event handler: the process-wide
    readiness state, the interactions it receives, the answers of the
    collaborators it calls, and the observable effects it produces. */
module Types {

  datatype Option<+T> = None | Some(value: T)

  /** A Discord user id (a snowflake). */
  type UserId = nat

  /** Identifies one MongoDB client built by `set_up_database`. */
  type ClientHandle = nat

  /** What the registry hands back for a name: the command's metadata name.
      Its execution is opaque; its outcome arrives as an oracle answer. */
  datatype Command = Command(name: string)

  /** An inbound interaction. Only application commands are dispatched;
      every other interaction kind is one case here. */
  datatype Interaction =
    | ApplicationCommand(user: UserId, name: string)
    | OtherInteraction

  /** The answers of the collaborators `run_application_command` consults,
      none of which live in the event handler:
      - `cooledDown`: `cooled_down`; `None` is its `Err`, which is unwrapped.
      - `remaining`: `get_remaining_cooldown`; `None` is its `Err`.
      - `execute`: how `Command::execute` ended.
      - `useLastOk`: whether `use_last` returned `Ok` (the result is dropped). */
  datatype DispatchOracle = DispatchOracle(
    cooledDown: Option<bool>,
    remaining: Option<int>,
    execute: ExecuteOutcome,
    useLastOk: bool)

  /** How `Command::execute` ends: it returns `Ok` or `Err`, or it panics
      (the ban command unwraps the interaction's guild id, which is absent
      outside a guild). */
  datatype ExecuteOutcome = Returned(ok: bool) | ExecutePanicked

  /** The process-wide state of the handler: the `DISCORD_READY` and
      `READY_TO_GO` flags and the `AEGISTRATE_USER` and `MONGODB_CLIENT`
      set-once cells. */
  datatype State = State(
    discordReady: bool,
    readyToGo: bool,
    user: Option<UserId>,
    dbClient: Option<ClientHandle>)

  /** The state at process start: both flags false, both cells empty. */
  const Initial := State(false, false, None, None)

  /** The guard responses the handler itself sends (embed text is not modelled). */
  datatype Response =
    | NotReadyYet
    | UnknownCommand(requested: string)
    | NotCooledDown(remaining: int)

  /** The presences the ready handler sets. */
  datatype Presence = PlayingWaitingGame | WatchingOverServer

  /** The places in the handler that panic. */
  datatype PanicReason =
    | DatabaseSetupFailed   // `ready`: `set_up_database` returned `Err`
    | UserAlreadySet        // `discord_ready_up`: `AEGISTRATE_USER.set(..).unwrap()`
    | UserNotSet            // `appear_active`: `get_aegistrate_user()`
    | CooldownQueryFailed   // `run_application_command`: `cooled_down(..).unwrap()`
    | CommandPanicked       // `handle_command_execution`: inside `Command::execute`

  /** One observable effect: a call made to a collaborator, a response, a
      presence change, a panic of the current event, or the process exit. */
  datatype Effect =
    | SetPresence(presence: Presence)
    | InitAllData(ok: bool)
    | SetUpCommands(ok: bool)
    | Lookup(requested: string)
    | CooldownQuery(user: UserId, command: string)
    | RemainingQuery(user: UserId, command: string)
    | Respond(response: Response)
    | Execute(command: string, outcome: ExecuteOutcome)
    | UseLast(user: UserId, command: string)
    | Panic(reason: PanicReason)
    | Exit(code: int)

  /** Work done on behalf of a command: a lookup, a cooldown query, an
      execution or a cooldown recording. */
  predicate IsCommandWork(e: Effect) {
    e.Lookup? || e.CooldownQuery? || e.RemainingQuery? || e.Execute? || e.UseLast?
  }

  /** Number of effects in `s` that satisfy `p`. */
  function Count(s: seq<Effect>, p: Effect -> bool): nat {
    if s == [] then 0 else (if p(s[0]) then 1 else 0) + Count(s[1..], p)
  }

  lemma {:induction false} CountAppend(a: seq<Effect>, b: seq<Effect>, p: Effect -> bool)
    ensures Count(a + b, p) == Count(a, p) + Count(b, p)
  {
    if a == [] {
      assert a + b == b;
    } else {
      assert (a + b)[1..] == a[1..] + b;
      CountAppend(a[1..], b, p);
    }
  }

  lemma CountPair(a: Effect, b: Effect, p: Effect -> bool)
    ensures Count([a, b], p) == Count([a], p) + Count([b], p)
  {
    assert [a, b][1..] == [b];
  }

  /** Counting a weaker predicate counts at least as many effects. */
  lemma {:induction false} CountMono(s: seq<Effect>, p: Effect -> bool, q: Effect -> bool)
    requires forall e :: p(e) ==> q(e)
    ensures Count(s, p) <= Count(s, q)
  {
    if s != [] {
      CountMono(s[1..], p, q);
    }
  }

  /** `Count` is zero exactly when no effect satisfies `p`. */
  lemma {:induction false} CountZero(s: seq<Effect>, p: Effect -> bool)
    ensures Count(s, p) == 0 <==> forall k :: 0 <= k < |s| ==> !p(s[k])
  {
    if s != [] {
      CountZero(s[1..], p);
      assert forall k :: 1 <= k < |s| ==> s[k] == s[1..][k - 1];
    }
  }

  /** The guard responses in `s`, in order. */
  function Responses(s: seq<Effect>): seq<Response> {
    if s == [] then []
    else if s[0].Respond? then [s[0].response] + Responses(s[1..])
    else Responses(s[1..])
  }

  lemma {:induction false} ResponsesAppend(a: seq<Effect>, b: seq<Effect>)
    ensures Responses(a + b) == Responses(a) + Responses(b)
  {
    if a == [] {
      assert a + b == b;
    } else {
      assert (a + b)[1..] == a[1..] + b;
      ResponsesAppend(a[1..], b);
    }
  }

  lemma ResponsesPair(a: Effect, b: Effect)
    ensures Responses([a, b]) == Responses([a]) + Responses([b])
  {
    assert [a, b][1..] == [b];
  }

  /** What must directly follow an execution: the cooldown recording of the
      same command if `execute` returned, the panic that ends the event if
      it panicked. */
  predicate FollowsExecution(exec: Effect, next: Effect)
    requires exec.Execute?
  {
    if exec.outcome.Returned? then next.UseLast? && next.command == exec.command
    else next == Panic(CommandPanicked)
  }

  /** Every execution is directly followed by what `FollowsExecution` asks. */
  predicate ExecutionsRecorded(s: seq<Effect>) {
    forall k :: 0 <= k < |s| && s[k].Execute? ==>
      k + 1 < |s| && FollowsExecution(s[k], s[k + 1])
  }

  lemma ExecutionsRecordedAppend(a: seq<Effect>, b: seq<Effect>)
    requires ExecutionsRecorded(a) && ExecutionsRecorded(b)
    ensures ExecutionsRecorded(a + b)
  {
    forall k | 0 <= k < |a + b| && (a + b)[k].Execute?
      ensures k + 1 < |a + b| && FollowsExecution((a + b)[k], (a + b)[k + 1])
    {
      if k < |a| {
        assert (a + b)[k] == a[k];
        assert (a + b)[k + 1] == a[k + 1];
      } else {
        assert (a + b)[k] == b[k - |a|];
        assert (a + b)[k + 1] == b[k + 1 - |a|];
      }
    }
  }
}
