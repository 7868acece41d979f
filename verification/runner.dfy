/**
  `ActionRunner::run`: keeps the actions whose hook matches, and for each one in order asks its
  interaction, applies the response/run decision table, substitutes and runs its script, and
  collects the results, stopping at the first error.

  The two effects are oracles carried in the `World`: the prompt adapter's replies and the
  script adapter's outcomes, each consumed front to back. The world also keeps a trace of
  every progress notification, question asked and command run, so that "nothing after the
  failure was invoked" can be stated.
 */
module Runner {
  import opened Results
  import opened VarBags
  import opened Data
  import opened Substitution

  /** What a script run returned: exit code, captured standard output and standard error. */
  datatype ScriptOutput = ScriptOutput(code: Int32, out: string, err: string)

  /** One call of the script adapter: the process finished, or it could not be run. */
  datatype ScriptReply = Finished(output: ScriptOutput) | SpawnError(reason: string)

  /** The command handed to the script adapter. */
  datatype Command = Command(script: string, workDir: Option<string>, capture: bool)

  /** An observable call out of the runner. */
  datatype Event =
    | Notified(action: Action)
    | Prompted(question: Question)
    | Executed(command: Command)

  /** The run's fixed inputs: working directory, hook, and whether a progress callback is given. */
  datatype Env = Env(workDir: Option<string>, hook: ActionHook, notify: bool)

  /** The state threaded through a run. */
  datatype World = World(
    bag: VarBag,
    prompts: seq<PromptReply>,
    scripts: seq<ScriptReply>,
    trace: seq<Event>)

  datatype Stepped = Stepped(result: Result<ActionResult, Error>, world: World)

  datatype Outcome = Outcome(results: Result<seq<ActionResult>, Error>, world: World)

  /** The hook filter: the actions whose hook equals `hook`, in their original order. */
  function Filter(actions: seq<Action>, hook: ActionHook): (r: seq<Action>)
    ensures forall a :: a in r ==> a in actions && a.hook == hook
    ensures forall a :: a in actions && a.hook == hook ==> a in r
    ensures |r| <= |actions|
  {
    if |actions| == 0 then []
    else if actions[0].hook == hook then [actions[0]] + Filter(actions[1..], hook)
    else Filter(actions[1..], hook)
  }

  /** The keys an action's interaction may write: its `out` name, if it has one. */
  function OutKeys(a: Action): set<string> {
    if a.interaction.Some? && a.interaction.value.out.Some? then {a.interaction.value.out.value}
    else {}
  }

  /** The progress callback's call for an action, when the run was given a callback. */
  function Notice(env: Env, a: Action): seq<Event> {
    if env.notify then [Notified(a)] else []
  }

  /**
    The first half of an action: the progress notification, then the interaction (when there is
    one) asked of the prompt adapter and played against the bag.
   */
  function Respond(env: Env, a: Action, w: World): (r: (Result<Response, Error>, World))
    ensures a.interaction.None? ==> r.0 == Ok(Response.None)
    ensures a.interaction.None? ==> r.1.prompts == w.prompts
    ensures a.interaction.Some? ==> |w.prompts| > 0 ==> r.1.prompts == w.prompts[1..]
    ensures r.0 == Ok(Cancel) <==>
      a.interaction.Some? && |w.prompts| > 0 && w.prompts[0].Answered? &&
      Declines(w.prompts[0].answer)
    ensures r.0.Ok? && r.0.value.Text? && a.interaction.Some? && a.interaction.value.out.Some? ==>
      ToMap(r.1.bag) == ToMap(w.bag)[a.interaction.value.out.value := r.0.value.text]
    ensures !(r.0.Ok? && r.0.value.Text? && OutKeys(a) != {}) ==> r.1.bag == w.bag
    ensures r.1.scripts == w.scripts
    ensures r.0.Err? ==> r.0.error.PromptFailed? || r.0.error.NoReply?
    ensures a.interaction.Some? && |w.prompts| == 0 ==> r.0 == Err(NoReply)
    ensures a.interaction.Some? && |w.prompts| > 0 && w.prompts[0].PromptError? ==>
      r.0 == Err(PromptFailed(w.prompts[0].reason))
    ensures a.interaction.Some? && |w.prompts| > 0 && w.prompts[0].Answered? ==>
      var answer := w.prompts[0].answer;
      && (answer.String? ==> r.0 == Ok(Text(answer.input)))
      && (answer.ListItem? ==> r.0 == Ok(Text(answer.text)))
      && (answer == Bool(true) ==> r.0 == Ok(Text("true")))
    ensures r.1.trace == w.trace + Notice(env, a) +
      (if a.interaction.Some? then [Prompted(ToQuestion(a.interaction.value))] else [])
  {
    var w1 := w.(trace := w.trace + Notice(env, a));
    match a.interaction
    case None => (Ok(Response.None), w1)
    case Some(i) =>
      var w2 := w1.(trace := w1.trace + [Prompted(ToQuestion(i))]);
      if |w2.prompts| == 0 then (Err(NoReply), w2)
      else
        var w3 := w2.(prompts := w2.prompts[1..]);
        match Play(i, Some(w.bag), w2.prompts[0])
        case Err(e) => (Err(e), w3)
        case Ok(played) => (Ok(played.response), w3.(bag := played.bag.value))
  }

  /**
    The decision table on the response and the run template: a cancel either stops the run or
    is recorded without running anything; with no template the response is recorded; otherwise
    the template is substituted from the current bag and run, and a non-zero exit code stops the
    run unless the action ignores it.
   */
  function Decide(env: Env, a: Action, resp: Response, w: World): (r: Stepped)
    ensures r.world.bag == w.bag && r.world.prompts == w.prompts
    ensures r.result == Err(StopRequested) <==> resp.Cancel? && a.breakIfCancel
    ensures resp.Cancel? ==> r.world == w
    ensures a.run.None? ==> r.world == w
    ensures r.result.Ok? ==> r.result.value.name == a.name && r.result.value.response == resp
    ensures r.result.Ok? ==> (r.result.value.run.None? <==> resp.Cancel? || a.run.None?)
    ensures r.result.Ok? && r.result.value.run.Some? ==>
      var run := r.result.value.run.value;
      && a.run.Some?
      && run.script == Substitute(w.bag, a.run.value)
      && (run.code == 0 || a.ignoreExit)
      && r.world.trace == w.trace + [Executed(Command(run.script, env.workDir, a.capture))]
    ensures r.result.Err? && r.result.error.ExitCode? ==>
      r.result.error.action == a.name && r.result.error.code != 0 && !a.ignoreExit
    ensures
      && !resp.Cancel? && a.run.Some? && |w.scripts| > 0 && w.scripts[0].Finished?
      && w.scripts[0].output.code != 0 && !a.ignoreExit
      ==> r.result == Err(ExitCode(a.name, w.scripts[0].output.code))
    ensures !resp.Cancel? && a.run.Some? && |w.scripts| > 0 && w.scripts[0].SpawnError? ==>
      r.result == Err(ScriptFailed(w.scripts[0].reason))
    ensures resp.Cancel? && !a.breakIfCancel ==>
      r == Stepped(Ok(ActionResult(a.name, Option.None, Cancel)), w)
    ensures !resp.Cancel? && a.run.None? ==> r == Stepped(Ok(ActionResult(a.name, Option.None, resp)), w)
    ensures !resp.Cancel? && a.run.Some? ==>
      var script := Substitute(w.bag, a.run.value);
      && r.world.trace == w.trace + [Executed(Command(script, env.workDir, a.capture))]
      && (|w.scripts| == 0 ==> r.result == Err(NoReply) && r.world.scripts == [])
      && (|w.scripts| > 0 ==> r.world.scripts == w.scripts[1..])
      && (|w.scripts| > 0 && w.scripts[0].Finished? &&
          (w.scripts[0].output.code == 0 || a.ignoreExit) ==>
            var out := w.scripts[0].output;
            r.result == Ok(ActionResult(a.name, Some(RunResult(script, out.code, out.out, out.err)), resp)))
    ensures r.world.scripts == w.scripts || (|w.scripts| > 0 && r.world.scripts == w.scripts[1..])
    ensures w.trace <= r.world.trace
  {
    match resp
    case Cancel =>
      if a.breakIfCancel then Stepped(Err(StopRequested), w)
      else Stepped(Ok(ActionResult(a.name, Option.None, Cancel)), w)
    case _ =>
      match a.run
      case None => Stepped(Ok(ActionResult(a.name, Option.None, resp)), w)
      case Some(template) =>
        var script := Substitute(w.bag, template);
        var w1 := w.(trace := w.trace + [Executed(Command(script, env.workDir, a.capture))]);
        if |w1.scripts| == 0 then Stepped(Err(NoReply), w1)
        else
          var w2 := w1.(scripts := w1.scripts[1..]);
          match w1.scripts[0]
          case SpawnError(reason) => Stepped(Err(ScriptFailed(reason)), w2)
          case Finished(output) =>
            if !a.ignoreExit && output.code != 0 then
              Stepped(Err(ExitCode(a.name, output.code)), w2)
            else
              var run := RunResult(script, output.code, output.out, output.err);
              Stepped(Ok(ActionResult(a.name, Some(run), resp)), w2)
  }

  /** One hook-matching action: respond, then decide; an adapter error ends the action. */
  function Step(env: Env, a: Action, w: World): (r: Stepped)
    ensures r.result.Ok? ==> r.result.value.name == a.name
    ensures r.result.Ok? ==> (r.result.value.response.None? <==> a.interaction.None?)
    ensures a.interaction.None? && a.run.None? ==>
      && r.result == Ok(ActionResult(a.name, Option.None, Response.None))
      && r.world.bag == w.bag && r.world.prompts == w.prompts && r.world.scripts == w.scripts
    ensures r.result.Ok? && r.result.value.response.Cancel? ==>
      r.result.value.run.None? && !a.breakIfCancel && r.world.scripts == w.scripts
    ensures r.result.Ok? && r.result.value.run.Some? ==>
      var run := r.result.value.run.value;
      && a.run.Some?
      && run.script == Substitute(r.world.bag, a.run.value)
      && (run.code == 0 || a.ignoreExit)
    ensures a.interaction.Some? && (|w.prompts| == 0 || w.prompts[0].PromptError?) ==>
      && r.result == (if |w.prompts| == 0 then Err(NoReply) else Err(PromptFailed(w.prompts[0].reason)))
      && r.world.bag == w.bag && r.world.scripts == w.scripts
    ensures forall k :: k in ToMap(w.bag) && k !in OutKeys(a) ==>
      k in ToMap(r.world.bag) && ToMap(r.world.bag)[k] == ToMap(w.bag)[k]
    ensures ToMap(w.bag).Keys <= ToMap(r.world.bag).Keys <= ToMap(w.bag).Keys + OutKeys(a)
    ensures w.trace <= r.world.trace
  {
    var (resp, w1) := Respond(env, a, w);
    match resp
    case Err(e) => Stepped(Err(e), w1)
    case Ok(response) => Decide(env, a, response, w1)
  }

  /** The hook-matching actions in order, collected fail-fast. */
  function RunAll(env: Env, actions: seq<Action>, w: World): (o: Outcome)
    ensures o.results.Ok? ==>
      && |o.results.value| == |actions|
      && forall i :: 0 <= i < |actions| ==> o.results.value[i].name == actions[i].name
    ensures ToMap(w.bag).Keys <= ToMap(o.world.bag).Keys
    ensures w.trace <= o.world.trace
    decreases |actions|
  {
    if |actions| == 0 then Outcome(Ok([]), w)
    else
      var s := Step(env, actions[0], w);
      match s.result
      case Err(e) => Outcome(Err(e), s.world)
      case Ok(first) =>
        var rest := RunAll(env, actions[1..], s.world);
        match rest.results
        case Err(e) => rest
        case Ok(results) => Outcome(Ok([first] + results), rest.world)
  }

  /**
    `ActionRunner::run`: on success, one result per hook-matching action, in input order, each
    carrying that action's name; when no action matches, an empty success and nothing touched.
   */
  function Run(env: Env, actions: seq<Action>, w: World): (o: Outcome)
    ensures (forall a :: a in actions ==> a.hook != env.hook) ==> o == Outcome(Ok([]), w)
    ensures o.results.Ok? ==>
      && |o.results.value| == |Filter(actions, env.hook)|
      && forall i :: 0 <= i < |o.results.value| ==>
           o.results.value[i].name == Filter(actions, env.hook)[i].name
  {
    RunAll(env, Filter(actions, env.hook), w)
  }
}
