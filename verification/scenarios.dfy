/**
  Concrete runs: the action lists of the crate's own tests and a few edge cases, with the
  operator's answers and the scripts' outcomes given as oracles.
 */
module Scenarios {
  import opened Results
  import opened VarBags
  import opened Data
  import opened Substitution
  import opened Runner
  import opened RunnerProperties

  function Start(prompts: seq<PromptReply>, scripts: seq<ScriptReply>): World {
    World(Empty, prompts, scripts, [])
  }

  /** The call the crate's tests make: working directory `.`, hook `After`, no progress callback. */
  const NoCallback := Env(Some("."), DefaultHook, false)

  function Plain(name: string, interaction: Option<Interaction>, run: Option<string>): Action {
    Action(name, interaction, run, false, false, false, DefaultHook)
  }

  /** A pattern cannot start where its first character is missing. */
  lemma FirstCharMismatch(s: string, pat: string, i: nat)
    requires |pat| > 0 && i < |s| && s[i] != pat[0]
    ensures !StartsAt(s, pat, i)
  {
  }

  /** A token after text with no `{` in it: the text is kept and the token replaced. */
  lemma TokenAfterPlainText(prefix: string, k: string, v: string)
    requires forall i :: 0 <= i < |prefix| ==> prefix[i] != '{'
    ensures ReplaceAll(prefix + Token(k), Token(k), v) == prefix + v
  {
    var s := prefix + Token(k);
    forall i: nat | i < |prefix|
      ensures !StartsAt(s, Token(k), i)
    {
      assert s[i] == prefix[i];
      FirstCharMismatch(s, Token(k), i);
    }
    ReplaceAllSkip(s, Token(k), v, |prefix|);
    assert s[..|prefix|] == prefix && s[|prefix|..] == Token(k);
    ReplaceAllWhole(Token(k), v);
  }

  /** One key, whose token follows text with no `{`: only the token is replaced. */
  lemma OneTokenAfterText(prefix: string, k: string, v: string)
    requires forall i :: 0 <= i < |prefix| ==> prefix[i] != '{'
    ensures Substitute(Insert(Empty, k, v), prefix + Token(k)) == prefix + v
  {
    SingleKey(k, v, prefix + Token(k));
    TokenAfterPlainText(prefix, k, v);
  }

  /** A pattern starting with `{` starts nowhere in text that has no `{`. */
  lemma NoBraceNoToken(s: string, prefix: string, k: string)
    requires prefix <= s
    requires forall i :: 0 <= i < |prefix| ==> prefix[i] != '{'
    ensures forall i: nat :: i < |prefix| ==> !StartsAt(s, Token(k), i)
  {
    forall i: nat | i < |prefix|
      ensures !StartsAt(s, Token(k), i)
    {
      assert s[i] == prefix[i];
      FirstCharMismatch(s, Token(k), i);
    }
  }

  /** A token after text without `{` is the first occurrence, and it is replaced. */
  lemma TokenThenRest(prefix: string, k: string, v: string, rest: string)
    requires forall i :: 0 <= i < |prefix| ==> prefix[i] != '{'
    ensures ReplaceAll(prefix + Token(k) + rest, Token(k), v) == prefix + v + ReplaceAll(rest, Token(k), v)
  {
    NoBraceNoToken(prefix + Token(k) + rest, prefix, k);
    ReplaceAllAfter(prefix, Token(k), v, rest);
  }

  /**
    One key whose token appears twice between texts without `{`, followed by text where it
    does not occur: both occurrences are replaced and the rest is copied.
   */
  lemma TwoTokens(p1: string, p2: string, tail: string, k: string, v: string)
    requires forall i :: 0 <= i < |p1| ==> p1[i] != '{'
    requires forall i :: 0 <= i < |p2| ==> p2[i] != '{'
    requires !Occurs(tail, Token(k))
    ensures Substitute(Insert(Empty, k, v), p1 + Token(k) + p2 + Token(k) + tail) == p1 + v + p2 + v + tail
  {
    var pat := Token(k);
    var rest := p2 + pat + tail;
    assert p1 + pat + p2 + pat + tail == p1 + pat + rest;
    SingleKey(k, v, p1 + pat + rest);
    TokenThenRest(p1, k, v, rest);
    TokenThenRest(p2, k, v, tail);
    ReplaceAllAbsent(tail, pat, v);
    assert p1 + v + (p2 + v + tail) == p1 + v + p2 + v + tail;
  }

  /** The `{{city}}` token does not occur in ` {{other}}`. */
  lemma OtherIsNotCity(tail: string, pat: string)
    requires tail == " {{other}}" && pat == Token("city")
    ensures !Occurs(tail, pat)
  {
    forall i: nat | i <= |tail|
      ensures !StartsAt(tail, pat, i)
    {
      if i == 0 {
        assert tail[0] != pat[0];
      } else if i == 1 {
        assert tail[3] != pat[2];
      } else if i == 2 {
        assert tail[3] != pat[1];
      } else {
        assert |tail[i..]| < |pat|;
      }
    }
  }

  /**
    Every occurrence of a known token is replaced and an unknown one is kept: with
    `city = paris`, `echo {{city}} {{city}} {{other}}` runs as `echo paris paris {{other}}`.
   */
  lemma KnownTokensReplacedUnknownKept(template: string, bag: VarBag)
    requires template == "echo {{city}} {{city}} {{other}}"
    requires bag == Insert(Empty, "city", "paris")
    ensures Substitute(bag, template) == "echo paris paris {{other}}"
  {
    var k, v := "city", "paris";
    var p1, p2, tail := "echo ", " ", " {{other}}";
    OtherIsNotCity(tail, Token(k));
    TwoTokens(p1, p2, tail, k, v);
    TwoCityTokens(template, p1, p2, tail, Token(k));
    TwoParisWords(p1, p2, tail, v);
  }

  /** How the template splits around its two `{{city}}` tokens. */
  lemma TwoCityTokens(template: string, p1: string, p2: string, tail: string, pat: string)
    requires template == "echo {{city}} {{city}} {{other}}"
    requires p1 == "echo " && p2 == " " && tail == " {{other}}" && pat == Token("city")
    ensures template == p1 + pat + p2 + pat + tail
  {
  }

  /** How the expected script splits around its two `paris` words. */
  lemma TwoParisWords(p1: string, p2: string, tail: string, v: string)
    requires p1 == "echo " && p2 == " " && tail == " {{other}}" && v == "paris"
    ensures p1 + v + p2 + v + tail == "echo paris paris {{other}}"
  {
  }

  /** A declined confirmation on an action marked `break_if_cancel` ends the run with an error. */
  lemma DeclinedConfirmStops()
    ensures
      var a := Action("a", Some(Interaction(Confirm, "?", Option.None, Option.None)),
                      Option.None, false, true, false, DefaultHook);
      Run(NoCallback, [a], Start([Answered(Bool(false))], [])).results == Err(StopRequested)
  {
  }

  const ConfirmThenEcho :=
    Plain("confirm-action", Some(Interaction(Confirm, "are you sure?", Option.None, Option.None)),
          Some("echo hello"))

  /**
    The crate's first documented example answered `no`, with or without the progress callback
    the example passes: without `break_if_cancel` the run succeeds with a cancel recorded, the
    only calls are the notification and the question, and `echo hello` is never run.
   */
  lemma DeclinedConfirmSkipsScript(env: Env, actions: seq<Action>, w: World)
    requires env.workDir == Some(".") && env.hook == DefaultHook
    requires actions == [ConfirmThenEcho]
    requires w == Start([Answered(Bool(false))], [Finished(ScriptOutput(0, "hello\n", ""))])
    ensures
      var o := Run(env, actions, w);
      && o.results == Ok([ActionResult("confirm-action", Option.None, Cancel)])
      && o.world.bag == Empty
      && o.world.scripts == w.scripts
      && o.world.trace == Notice(env, ConfirmThenEcho) + [Prompted(ToQuestion(ConfirmThenEcho.interaction.value))]
  {
    FilterKeepsMatching(actions, DefaultHook);
    DeclinedStep(env, ConfirmThenEcho, w);
    RunOne(env, ConfirmThenEcho, w);
  }

  const CityInput := Plain("b", Some(Interaction(Input, "city?", Some("city"), Option.None)), Option.None)
  const EchoAction := Action("c", Option.None, Some("echo {{city}}"), false, false, true, DefaultHook)
  const EchoOutput := ScriptOutput(0, "paris\n", "")

  /**
    An input captured into `city` is substituted into the next action's script: the bag ends
    as `{city: paris}` and the script run is `echo paris`.
   */
  lemma CapturedInputReachesScript()
    ensures
      var o := Run(NoCallback, [CityInput, EchoAction],
                   Start([Answered(String("paris"))], [Finished(EchoOutput)]));
      && o.results == Ok([
           ActionResult("b", Option.None, Text("paris")),
           ActionResult("c", Some(RunResult("echo paris", 0, "paris\n", "")), Response.None)])
      && ToMap(o.world.bag) == map["city" := "paris"]
  {
    var w0 := Start([Answered(String("paris"))], [Finished(EchoOutput)]);
    assert Filter([CityInput, EchoAction], DefaultHook) == [CityInput, EchoAction];
    var s1 := Step(NoCallback, CityInput, w0);
    assert s1.result == Ok(ActionResult("b", Option.None, Text("paris")));
    assert s1.world.bag == Insert(Empty, "city", "paris");
    assert s1.world.scripts == [Finished(EchoOutput)];
    EchoStep(EchoAction, s1.world);
    var r2 := ActionResult("c", Some(RunResult("echo paris", 0, "paris\n", "")), Response.None);
    RunOne(NoCallback, EchoAction, s1.world);
    var r1 := ActionResult("b", Option.None, Text("paris"));
    assert [r1] + [r2] == [r1, r2];
    assert [CityInput, EchoAction][1..] == [EchoAction];
    assert ToMap(Empty) == map[];
  }

  /** The echo action run in a world whose bag holds `city = paris`. */
  lemma EchoStep(a: Action, w: World)
    requires a == EchoAction
    requires w.bag == Insert(Empty, "city", "paris") && w.scripts == [Finished(EchoOutput)]
    ensures Step(NoCallback, a, w).result ==
      Ok(ActionResult("c", Some(RunResult("echo paris", 0, "paris\n", "")), Response.None))
    ensures Step(NoCallback, a, w).world.bag == w.bag
  {
    EchoScript(a, w.bag);
    ScriptedStep(NoCallback, a, w);
  }

  /** The echo action's script with `city = paris` in the bag. */
  lemma EchoScript(a: Action, bag: VarBag)
    requires a == EchoAction && bag == Insert(Empty, "city", "paris")
    ensures Substitute(bag, a.run.value) == "echo paris"
  {
    EchoTemplate(a);
    var prefix, k, v := "echo ", "city", "paris";
    OneTokenAfterText(prefix, k, v);
  }

  lemma EchoTemplate(a: Action)
    requires a == EchoAction
    ensures a.run.value == "echo " + Token("city")
  {
  }

  const CityEcho :=
    Action("input-action", Some(Interaction(Input, "which city?", Some("city"), Option.None)),
           Some("echo {{city}}"), false, false, true, DefaultHook)
  const TlvOutput := ScriptOutput(0, "tlv\n", "")

  /**
    The crate's script test: one action asks for the city, stores `tlv` under `city`, and its
    own script `echo {{city}}` runs as `echo tlv`.
   */
  lemma RunScriptTest(actions: seq<Action>, w: World)
    requires actions == [CityEcho] && w == Start([Answered(String("tlv"))], [Finished(TlvOutput)])
    ensures
      var o := Run(NoCallback, actions, w);
      && o.results == Ok([ActionResult("input-action", Some(RunResult("echo tlv", 0, "tlv\n", "")), Text("tlv"))])
      && ToMap(o.world.bag) == map["city" := "tlv"]
  {
    FilterKeepsMatching(actions, DefaultHook);
    var bag := Insert(Empty, "city", "tlv");
    AnsweredScriptedStep(NoCallback, CityEcho, w);
    CityEchoScript(bag);
    RunOne(NoCallback, CityEcho, w);
    assert ToMap(Empty) == map[];
  }

  lemma CityEchoScript(bag: VarBag)
    requires bag == Insert(Empty, "city", "tlv")
    ensures Substitute(bag, CityEcho.run.value) == "echo tlv"
  {
    EchoTemplate(EchoAction);
    var prefix, k, v := "echo ", "city", "tlv";
    OneTokenAfterText(prefix, k, v);
  }

  const Failing := Plain("x", Option.None, Some("exit 2"))
  const Later := Plain("y", Option.None, Some("echo y"))

  /**
    A script exiting with code 2 on an action that does not ignore exit codes ends the run
    with an error naming the action and the code; the next action is neither announced nor
    run, and its scripted outcome stays unconsumed.
   */
  lemma ExitCodeStops()
    ensures
      var env := Env(Option.None, DefaultHook, true);
      var o := Run(env, [Failing, Later],
                   Start([], [Finished(ScriptOutput(2, "", "")), Finished(ScriptOutput(0, "y\n", ""))]));
      && o.results == Err(ExitCode("x", 2))
      && o.world.scripts == [Finished(ScriptOutput(0, "y\n", ""))]
      && o.world.trace == [Notified(Failing), Executed(Command("exit 2", Option.None, false))]
  {
    var env := Env(Option.None, DefaultHook, true);
    var w := Start([], [Finished(ScriptOutput(2, "", "")), Finished(ScriptOutput(0, "y\n", ""))]);
    assert Filter([Failing, Later], DefaultHook) == [Failing, Later];
    assert Substitute(Empty, "exit 2") == "exit 2";
    FailFast(env, [], Failing, [Later], w);
    assert [] + [Failing] + [Later] == [Failing, Later];
  }

  /**
    A value holding another key's token is expanded again when that key comes later in key
    order: with `a = "{{b}}"` and `b = "X"`, `{{a}}` becomes `X`; replacing in the opposite
    order would give `{{b}}`.
   */
  lemma LaterKeyExpandsInEarlierValue()
    ensures Substitute(Insert(Insert(Empty, "a", "{{b}}"), "b", "X"), "{{a}}") == "X"
    ensures ReplaceAll(ReplaceAll("{{a}}", Token("b"), "X"), Token("a"), "{{b}}") == "{{b}}"
  {
    assert Below("a", "b");
    var bag := Insert(Insert(Empty, "a", "{{b}}"), "b", "X");
    assert bag == [("a", "{{b}}"), ("b", "X")];
    assert "{{a}}" == Token("a") && "{{b}}" == Token("b");
    ReplaceAllWhole(Token("a"), "{{b}}");
    ReplaceAllWhole(Token("b"), "X");
    var tail: VarBag := [("b", "X")];
    assert bag[1..] == tail && tail[1..] == [];
    assert Substitute(tail, "{{b}}") == Substitute([], "X");
    assert Substitute(bag, "{{a}}") == Substitute(tail, "{{b}}");
    assert !Occurs("{{a}}", Token("b")) by {
      forall i: nat | i <= 5
        ensures !StartsAt("{{a}}", Token("b"), i)
      {
        if i == 0 {
          assert "{{a}}"[2] != Token("b")[2];
        }
      }
    }
    ReplaceAllAbsent("{{a}}", Token("b"), "X");
  }

  const ConfirmAction :=
    Plain("confirm-action", Some(Interaction(Confirm, "are you sure?", Some("confirm"), Option.None)), Option.None)
  const InputAction :=
    Plain("input-action", Some(Interaction(Input, "which city?", Some("city"), Option.None)), Option.None)
  const SelectAction :=
    Plain("select-action",
          Some(Interaction(Select, "select transport", Option.None, Some(["bus", "train", "walk"]))),
          Option.None)

  const Replies := [Answered(Bool(true)), Answered(String("tlv")), Answered(ListItem(1, "train"))]
  const ConfirmResult := ActionResult("confirm-action", Option.None, Text("true"))
  const InputResult := ActionResult("input-action", Option.None, Text("tlv"))
  const SelectResult := ActionResult("select-action", Option.None, Text("train"))

  const Asked1 := [Prompted(ConfirmQuestion("are you sure?"))]
  const Asked2 := Asked1 + [Prompted(InputQuestion("which city?"))]
  const Asked3 := Asked2 + [Prompted(SelectQuestion("select transport", ["bus", "train", "walk"]))]

  /** The world after each answered prompt of the interaction test. */
  function AfterPrompts(n: nat): World
    requires n <= 3
  {
    if n == 0 then Start(Replies, [])
    else if n == 1 then World(Insert(Empty, "confirm", "true"), Replies[1..], [], Asked1)
    else if n == 2 then World(Insert(Insert(Empty, "confirm", "true"), "city", "tlv"), Replies[2..], [], Asked2)
    else World(Insert(Insert(Empty, "confirm", "true"), "city", "tlv"), [], [], Asked3)
  }

  /*
    The step lemmas below take the worlds as parameters: stated on literal worlds, the solver
    would unfold every step of the run again wherever they are used.
   */

  lemma ConfirmStep(w0: World, w1: World)
    requires w0 == AfterPrompts(0) && w1 == AfterPrompts(1)
    ensures Step(NoCallback, ConfirmAction, w0) == Stepped(Ok(ConfirmResult), w1)
  {
    AnsweredStep(NoCallback, ConfirmAction, w0);
    assert w0.trace + [Prompted(ConfirmQuestion("are you sure?"))] == w1.trace;
  }

  lemma InputStep(w1: World, w2: World)
    requires w1 == AfterPrompts(1) && w2 == AfterPrompts(2)
    ensures Step(NoCallback, InputAction, w1) == Stepped(Ok(InputResult), w2)
  {
    AnsweredStep(NoCallback, InputAction, w1);
    assert w1.prompts[1..] == w2.prompts;
    assert w1.trace + [Prompted(InputQuestion("which city?"))] == w2.trace;
  }

  lemma SelectStep(w2: World, w3: World)
    requires w2 == AfterPrompts(2) && w3 == AfterPrompts(3)
    ensures Step(NoCallback, SelectAction, w2) == Stepped(Ok(SelectResult), w3)
  {
    AnsweredStep(NoCallback, SelectAction, w2);
    assert w2.prompts[1..] == w3.prompts;
    assert w2.trace + [Prompted(SelectQuestion("select transport", ["bus", "train", "walk"]))] == w3.trace;
  }

  /**
    The crate's interaction test: confirming, typing `tlv` and picking `train` gives three text
    responses and no script runs; the bag records the confirmation and the city, and nothing
    for the select, which names no `out` variable.
   */
  lemma InteractionTest(actions: seq<Action>, w: World)
    requires actions == [ConfirmAction, InputAction, SelectAction] && w == Start(Replies, [])
    ensures
      var o := Run(NoCallback, actions, w);
      && o.results == Ok([ConfirmResult, InputResult, SelectResult])
      && ToMap(o.world.bag) == map["confirm" := "true", "city" := "tlv"]
      && o.world.trace == [
           Prompted(ConfirmQuestion("are you sure?")),
           Prompted(InputQuestion("which city?")),
           Prompted(SelectQuestion("select transport", ["bus", "train", "walk"]))]
  {
    var w3 := AfterPrompts(3);
    InteractionRun(actions, w, w3);
    InteractionWorld(w3);
  }

  lemma InteractionWorld(w3: World)
    requires w3 == AfterPrompts(3)
    ensures ToMap(w3.bag) == map["confirm" := "true", "city" := "tlv"]
    ensures w3.trace == [
              Prompted(ConfirmQuestion("are you sure?")),
              Prompted(InputQuestion("which city?")),
              Prompted(SelectQuestion("select transport", ["bus", "train", "walk"]))]
  {
    assert ToMap(Empty) == map[];
  }

  lemma InteractionRun(actions: seq<Action>, w: World, w3: World)
    requires actions == [ConfirmAction, InputAction, SelectAction] && w == Start(Replies, [])
    requires w3 == AfterPrompts(3)
    ensures Run(NoCallback, actions, w) == Outcome(Ok([ConfirmResult, InputResult, SelectResult]), w3)
  {
    FilterKeepsMatching(actions, DefaultHook);
    var w1, w2 := AfterPrompts(1), AfterPrompts(2);
    ConfirmStep(w, w1);
    InputStep(w1, w2);
    SelectStep(w2, w3);
    RunThree(NoCallback, ConfirmAction, InputAction, SelectAction, w, ConfirmResult, InputResult,
             SelectResult, w1, w2, w3);
  }

}
