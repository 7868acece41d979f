/**
  Properties of whole runs: how a run over a concatenation splits, that the first error ends
  the run with nothing after it invoked, that each result is what its action's step gave in
  the state the earlier actions left, and that actions under another hook have no effect.
 */
module RunnerProperties {
  import opened Results
  import opened VarBags
  import opened Data
  import opened Substitution
  import opened Runner

  /** Continues a finished prefix run with the actions `ys`: the shape of a fail-fast collect. */
  function Continue(env: Env, o: Outcome, ys: seq<Action>): Outcome {
    if o.results.Err? then o
    else
      var rest := RunAll(env, ys, o.world);
      if rest.results.Err? then rest
      else Outcome(Ok(o.results.value + rest.results.value), rest.world)
  }

  /** Running `xs + ys` is running `xs`, then, if that succeeded, `ys` from where it left off. */
  lemma {:induction false} RunAllAppend(env: Env, xs: seq<Action>, ys: seq<Action>, w: World)
    ensures RunAll(env, xs + ys, w) == Continue(env, RunAll(env, xs, w), ys)
    decreases |xs|
  {
    if |xs| == 0 {
      assert xs + ys == ys;
      var rest := RunAll(env, ys, w);
      if rest.results.Ok? {
        assert [] + rest.results.value == rest.results.value;
      }
    } else {
      assert (xs + ys)[0] == xs[0];
      assert (xs + ys)[1..] == xs[1..] + ys;
      var s := Step(env, xs[0], w);
      if s.result.Ok? {
        RunAllAppend(env, xs[1..], ys, s.world);
        var tail := RunAll(env, xs[1..], s.world);
        if tail.results.Ok? {
          var rest := RunAll(env, ys, tail.world);
          if rest.results.Ok? {
            assert [s.result.value] + (tail.results.value + rest.results.value)
                == ([s.result.value] + tail.results.value) + rest.results.value;
          }
        }
      }
    }
  }

  /**
    Fail-fast: when the actions before `a` succeed and `a` fails, the whole run returns that
    error alone, in the world `a` left; none of the actions after `a` is notified, prompted or
    run, whatever they are.
   */
  lemma FailFast(env: Env, xs: seq<Action>, a: Action, ys: seq<Action>, w: World)
    requires RunAll(env, xs, w).results.Ok?
    requires Step(env, a, RunAll(env, xs, w).world).result.Err?
    ensures
      var s := Step(env, a, RunAll(env, xs, w).world);
      RunAll(env, xs + [a] + ys, w) == Outcome(Err(s.result.error), s.world)
  {
    assert xs + [a] + ys == xs + ([a] + ys);
    RunAllAppend(env, xs, [a] + ys, w);
    assert ([a] + ys)[0] == a && ([a] + ys)[1..] == ys;
  }

  /**
    On success, result `i` is exactly what the step of action `i` gave in the world the first
    `i` actions left behind; so bag updates of earlier actions are visible to later ones.
   */
  lemma EachResultIsItsStep(env: Env, actions: seq<Action>, w: World, i: nat)
    requires RunAll(env, actions, w).results.Ok? && i < |actions|
    ensures
      var before := RunAll(env, actions[..i], w);
      && before.results.Ok?
      && before.results.value == RunAll(env, actions, w).results.value[..i]
      && Step(env, actions[i], before.world).result == Ok(RunAll(env, actions, w).results.value[i])
  {
    assert actions == actions[..i] + actions[i..];
    RunAllAppend(env, actions[..i], actions[i..], w);
    var before := RunAll(env, actions[..i], w);
    var rest := RunAll(env, actions[i..], before.world);
    assert actions[i..][0] == actions[i];
  }

  /** When every action carries the run's hook, the filter keeps the list as it is. */
  lemma {:induction false} FilterKeepsMatching(actions: seq<Action>, hook: ActionHook)
    requires forall i :: 0 <= i < |actions| ==> actions[i].hook == hook
    ensures Filter(actions, hook) == actions
    decreases |actions|
  {
    if |actions| > 0 {
      FilterKeepsMatching(actions[1..], hook);
      assert [actions[0]] + actions[1..] == actions;
    }
  }

  lemma {:induction false} FilterAppend(xs: seq<Action>, ys: seq<Action>, hook: ActionHook)
    ensures Filter(xs + ys, hook) == Filter(xs, hook) + Filter(ys, hook)
    decreases |xs|
  {
    if |xs| == 0 {
      assert xs + ys == ys;
    } else {
      assert (xs + ys)[0] == xs[0];
      assert (xs + ys)[1..] == xs[1..] + ys;
      FilterAppend(xs[1..], ys, hook);
    }
  }

  /**
    An action whose hook differs from the run's is invisible: removing it changes neither the
    result nor the final bag, oracles or trace.
   */
  lemma SkipsOtherHooks(env: Env, pre: seq<Action>, a: Action, post: seq<Action>, w: World)
    requires a.hook != env.hook
    ensures Run(env, pre + [a] + post, w) == Run(env, pre + post, w)
  {
    FilterAppend(pre + [a], post, env.hook);
    FilterAppend(pre, [a], env.hook);
    FilterAppend(pre, post, env.hook);
    assert Filter([a], env.hook) == [];
    assert Filter(pre + [a], env.hook) == Filter(pre, env.hook);
    assert Filter(pre + [a] + post, env.hook) == Filter(pre + post, env.hook);
  }

  /** A run of one action is that action's step. */
  lemma RunOne(env: Env, a: Action, w: World)
    ensures
      var s := Step(env, a, w);
      RunAll(env, [a], w) ==
        if s.result.Ok? then Outcome(Ok([s.result.value]), s.world)
        else Outcome(Err(s.result.error), s.world)
  {
    assert [a][1..] == [];
    var s := Step(env, a, w);
    if s.result.Ok? {
      assert [s.result.value] + [] == [s.result.value];
    }
  }

  /** A run whose first step and remaining actions both succeed. */
  lemma RunCons(env: Env, a: Action, rest: seq<Action>, w: World)
    requires Step(env, a, w).result.Ok?
    requires RunAll(env, rest, Step(env, a, w).world).results.Ok?
    ensures
      var s := Step(env, a, w);
      var o := RunAll(env, rest, s.world);
      RunAll(env, [a] + rest, w) == Outcome(Ok([s.result.value] + o.results.value), o.world)
  {
    assert ([a] + rest)[0] == a && ([a] + rest)[1..] == rest;
  }

  /** Three steps that each succeed make a run of three results. */
  lemma RunThree(env: Env, a1: Action, a2: Action, a3: Action, w0: World,
                 r1: ActionResult, r2: ActionResult, r3: ActionResult, w1: World, w2: World, w3: World)
    requires Step(env, a1, w0) == Stepped(Ok(r1), w1)
    requires Step(env, a2, w1) == Stepped(Ok(r2), w2)
    requires Step(env, a3, w2) == Stepped(Ok(r3), w3)
    ensures RunAll(env, [a1, a2, a3], w0) == Outcome(Ok([r1, r2, r3]), w3)
  {
    RunOne(env, a3, w2);
    RunCons(env, a2, [a3], w1);
    assert [a2] + [a3] == [a2, a3];
    assert [r2] + [r3] == [r2, r3];
    RunCons(env, a1, [a2, a3], w0);
    assert [a1] + [a2, a3] == [a1, a2, a3];
    assert [r1] + [r2, r3] == [r1, r2, r3];
  }

  /**
    An interaction-only action answered without declining: a text response, one reply
    consumed, the notification and the question in the trace, and the text stored under `out`.
   */
  lemma AnsweredStep(env: Env, a: Action, w: World)
    requires a.interaction.Some? && a.run.None?
    requires |w.prompts| > 0 && w.prompts[0].Answered? && !Declines(w.prompts[0].answer)
    ensures
      var i := a.interaction.value;
      var t := AnswerText(w.prompts[0].answer);
      var s := Step(env, a, w);
      && s.result == Ok(ActionResult(a.name, Option.None, Text(t)))
      && s.world == w.(
           bag := if i.out.Some? then Insert(w.bag, i.out.value, t) else w.bag,
           prompts := w.prompts[1..],
           trace := w.trace + Notice(env, a) + [Prompted(ToQuestion(i))])
  {
  }

  /**
    A script-only action whose script finishes with an accepted exit code: the substituted
    script runs once, its outcome is the action's result, and nothing is asked.
   */
  lemma ScriptedStep(env: Env, a: Action, w: World)
    requires a.interaction.None? && a.run.Some?
    requires |w.scripts| > 0 && w.scripts[0].Finished?
    requires w.scripts[0].output.code == 0 || a.ignoreExit
    ensures
      var out := w.scripts[0].output;
      var script := Substitute(w.bag, a.run.value);
      var s := Step(env, a, w);
      && s.result == Ok(ActionResult(a.name, Some(RunResult(script, out.code, out.out, out.err)), Response.None))
      && s.world == w.(scripts := w.scripts[1..],
                       trace := w.trace + Notice(env, a) + [Executed(Command(script, env.workDir, a.capture))])
  {
  }

  /**
    An action with both an interaction and a script, answered without declining: the answer
    is stored first, so the script is substituted from the bag that already holds it.
   */
  lemma AnsweredScriptedStep(env: Env, a: Action, w: World)
    requires a.interaction.Some? && a.run.Some?
    requires |w.prompts| > 0 && w.prompts[0].Answered? && !Declines(w.prompts[0].answer)
    requires |w.scripts| > 0 && w.scripts[0].Finished?
    requires w.scripts[0].output.code == 0 || a.ignoreExit
    ensures
      var i := a.interaction.value;
      var t := AnswerText(w.prompts[0].answer);
      var bag := if i.out.Some? then Insert(w.bag, i.out.value, t) else w.bag;
      var out := w.scripts[0].output;
      var script := Substitute(bag, a.run.value);
      var s := Step(env, a, w);
      && s.result == Ok(ActionResult(a.name, Some(RunResult(script, out.code, out.out, out.err)), Text(t)))
      && s.world.bag == bag
  {
  }

  /**
    A declined answer on an action without `break_if_cancel` is recorded as a cancel: nothing
    is run and the bag and the script outcomes are left as they were.
   */
  lemma DeclinedStep(env: Env, a: Action, w: World)
    requires a.interaction.Some? && !a.breakIfCancel
    requires |w.prompts| > 0 && w.prompts[0].Answered? && Declines(w.prompts[0].answer)
    ensures
      var s := Step(env, a, w);
      && s.result == Ok(ActionResult(a.name, Option.None, Cancel))
      && s.world == w.(prompts := w.prompts[1..],
                       trace := w.trace + Notice(env, a) + [Prompted(ToQuestion(a.interaction.value))])
  {
  }
}
