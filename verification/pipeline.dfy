/**
 The handler (`FunctionHandler` with `AlertUsers`): one invocation decrypts
 the password and builds the connection string, evaluates the alert, and, only
 when the summary is non-empty, looks up the target and publishes the summary
 to it once.

 Every external call is given by its outcome (a `World`), and the invocation
 is a pure function from the trigger, the configuration and those outcomes to
 a status and the trace of external calls it made.
 */
module Pipeline {
  import opened Queries
  import opened AlertEvaluator
  import opened TargetResolver
  import opened NotificationDispatcher
  import opened Connection

  /** The triggering event. */
  datatype SecurityAlert = SecurityAlert(id: int)

  /** Process configuration read from the environment: the store's host,
      database and user, and the platform's newline. */
  datatype Configuration = Configuration(server: string, database: string, username: string, newline: string)

  /** What each external call of one invocation would do. */
  datatype World = World(
    decrypt: DecryptOutcome,
    evaluation: QueryOutcome<EvaluationRow>,
    lookup: QueryOutcome<TargetRow>,
    publish: PublishOutcome)

  /** An external call the handler attempts. `RunProcedure` records the
      attempt, also when opening the connection or executing the procedure
      then threw. */
  datatype Effect =
    | DecryptPassword
    | RunProcedure(procedure: string, alertId: int, connection: string)
    | Publish(request: PublishRequest)

  /** `Failed`: the decryption error escaped the handler. */
  datatype Status = Completed | Failed

  /** How one invocation ended, and the external calls it made, in order. */
  datatype Invocation = Invocation(status: Status, trace: seq<Effect>)

  /** The state one invocation carries between its steps. */
  datatype Context = Context(connection: string, alertId: int)

  /** The names of the procedures a trace runs, in order. */
  function Procedures(trace: seq<Effect>): (names: seq<string>)
    ensures |names| <= |trace|
  {
    if trace == [] then []
    else (if trace[0].RunProcedure? then [trace[0].procedure] else []) + Procedures(trace[1..])
  }

  /** The publish requests a trace sends, in order. */
  function Published(trace: seq<Effect>): (requests: seq<PublishRequest>)
    ensures |requests| <= |trace|
  {
    if trace == [] then []
    else (if trace[0].Publish? then [trace[0].request] else []) + Published(trace[1..])
  }

  /** The summary an invocation computes when the password was decrypted. */
  function SummaryOf(config: Configuration, world: World): string
  {
    EvaluateAlert(config.newline, world.evaluation)
  }

  /** Looks up the target and publishes the summary to it; a publish error is
      swallowed, so this step always completes. */
  function AlertUsers(ctx: Context, results: string, lookup: QueryOutcome<TargetRow>, publish: PublishOutcome): (effects: seq<Effect>)
    ensures Procedures(effects) == [TargetProcedure]
    ensures |Published(effects)| == 1
    ensures Published(effects)[0].message == results
    ensures ' ' !in Published(effects)[0].targetArn
    ensures Published(effects)[0].targetArn == StripSpaces(ResolveTarget(lookup))
    ensures effects[0] == RunProcedure(TargetProcedure, ctx.alertId, ctx.connection)
    ensures |effects| == 2
  {
    var jobUrl := ResolveTarget(lookup);
    var dispatch := SendMessage(jobUrl, results, publish);
    var effects := [RunProcedure(TargetProcedure, ctx.alertId, ctx.connection), Publish(dispatch.request)];
    assert effects[1..] == [Publish(dispatch.request)] && effects[1..][1..] == [];
    effects
  }

  /** One invocation of the handler. */
  function FunctionHandler(input: SecurityAlert, config: Configuration, world: World): (run: Invocation)
    ensures run.status == Completed <==> world.decrypt.Decrypted?
    ensures run.trace != [] && run.trace[0] == DecryptPassword
    ensures |run.trace| == 1 + |Procedures(run.trace)| + |Published(run.trace)|
    ensures Published(run.trace) != [] ==> run.trace[|run.trace| - 1].Publish?
    ensures world.decrypt.DecryptFailed? ==> Procedures(run.trace) == [] && Published(run.trace) == []
    ensures world.decrypt.Decrypted? ==>
              Procedures(run.trace)
              == if SummaryOf(config, world) == "" then [EvaluationProcedure] else [EvaluationProcedure, TargetProcedure]
    ensures |Published(run.trace)| <= 1
    ensures |Published(run.trace)| == 1 <==> world.decrypt.Decrypted? && SummaryOf(config, world) != ""
    ensures Published(run.trace) != [] ==>
              Published(run.trace)[0] == PublishRequest(StripSpaces(ResolveTarget(world.lookup)), SummaryOf(config, world))
  {
    match world.decrypt
    case DecryptFailed => Invocation(Failed, [DecryptPassword])
    case Decrypted(password) =>
      var ctx := Context(ConnectionString(ConnectionParameters(config.server, config.database, config.username, password)), input.id);
      var results := EvaluateAlert(config.newline, world.evaluation);
      var evaluated := [DecryptPassword, RunProcedure(EvaluationProcedure, ctx.alertId, ctx.connection)];
      assert evaluated[1..] == [evaluated[1]] && evaluated[1..][1..] == [];
      if results != "" then
        var alerted := AlertUsers(ctx, results, world.lookup, world.publish);
        ProceduresAppend(evaluated, alerted);
        PublishedAppend(evaluated, alerted);
        Invocation(Completed, evaluated + alerted)
      else
        Invocation(Completed, evaluated)
  }

  lemma {:induction false} ProceduresAppend(a: seq<Effect>, b: seq<Effect>)
    ensures Procedures(a + b) == Procedures(a) + Procedures(b)
    decreases |a|
  {
    if a == [] {
      assert a + b == b;
    } else {
      assert (a + b)[0] == a[0];
      assert (a + b)[1..] == a[1..] + b;
      ProceduresAppend(a[1..], b);
    }
  }

  lemma {:induction false} PublishedAppend(a: seq<Effect>, b: seq<Effect>)
    ensures Published(a + b) == Published(a) + Published(b)
    decreases |a|
  {
    if a == [] {
      assert a + b == b;
    } else {
      assert (a + b)[0] == a[0];
      assert (a + b)[1..] == a[1..] + b;
      PublishedAppend(a[1..], b);
    }
  }

  /** Every procedure call carries the trigger's alert identifier and the
      connection string built from the configuration and the decrypted
      password. */
  lemma QueriesUseInvocationContext(input: SecurityAlert, config: Configuration, world: World, i: nat)
    requires world.decrypt.Decrypted?
    requires i < |FunctionHandler(input, config, world).trace|
    requires FunctionHandler(input, config, world).trace[i].RunProcedure?
    ensures FunctionHandler(input, config, world).trace[i].alertId == input.id
    ensures FunctionHandler(input, config, world).trace[i].connection
            == ConnectionString(ConnectionParameters(config.server, config.database, config.username, world.decrypt.plaintext))
  {
  }

  /** The publish outcome is invisible to the caller: an invocation whose
      publish failed ends exactly like one whose publish succeeded. */
  lemma PublishErrorIsSwallowed(input: SecurityAlert, config: Configuration, world: World)
    ensures FunctionHandler(input, config, world.(publish := PublishError))
            == FunctionHandler(input, config, world.(publish := PublishOk))
  {
  }

  /** Without a match the lookup is never consulted: whatever it would
      return, the invocation is the same. */
  lemma NoMatchIgnoresLookup(input: SecurityAlert, config: Configuration, world: World, lookup: QueryOutcome<TargetRow>)
    requires SummaryOf(config, world) == ""
    ensures FunctionHandler(input, config, world.(lookup := lookup)) == FunctionHandler(input, config, world)
  {
  }

  /** A fault opening or executing the evaluation silences the alert: the
      invocation completes, and nothing is looked up or published. */
  lemma EvaluationFaultSilencesAlert(input: SecurityAlert, config: Configuration, world: World)
    requires world.decrypt.Decrypted? && world.evaluation.NotExecuted?
    ensures FunctionHandler(input, config, world).status == Completed
    ensures Procedures(FunctionHandler(input, config, world).trace) == [EvaluationProcedure]
    ensures Published(FunctionHandler(input, config, world).trace) == []
  {
  }

  /** A failed lookup after a match still publishes, to the empty target. */
  lemma FailedLookupPublishesToEmptyTarget(input: SecurityAlert, config: Configuration, world: World)
    requires world.decrypt.Decrypted? && SummaryOf(config, world) != "" && world.lookup.NotExecuted?
    ensures Published(FunctionHandler(input, config, world).trace) == [PublishRequest("", SummaryOf(config, world))]
  {
  }
}
