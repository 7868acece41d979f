/**
  The data model of an action list and the interaction logic: building a question from an
  interaction, reading the prompt's answer as a response, and recording it in the bag.
 */
module Data {
  import opened Results
  import opened VarBags

  /** The tag an action runs under; the runner keeps only actions whose tag equals its own. */
  datatype ActionHook = ActionHook(tag: string)

  /** The tag an action gets when its definition names none. */
  const DefaultHook := ActionHook("After")

  datatype InteractionKind = Confirm | Input | Select

  /** A prompt to put to the operator, and the variable (if any) that receives the answer. */
  datatype Interaction = Interaction(
    kind: InteractionKind,
    prompt: string,
    out: Option<string>,
    options: Option<seq<string>>)

  /** One step: an optional interaction, an optional run template, and control flags. */
  datatype Action = Action(
    name: string,
    interaction: Option<Interaction>,
    run: Option<string>,
    ignoreExit: bool,
    breakIfCancel: bool,
    capture: bool,
    hook: ActionHook)

  /** The response an action got: an answer text, a cancel, or none (no interaction). */
  datatype Response = Text(text: string) | Cancel | None

  /** What running a script produced: the substituted command text and the process results. */
  datatype RunResult = RunResult(script: string, code: Int32, out: string, err: string)

  datatype ActionResult = ActionResult(name: string, run: Option<RunResult>, response: Response)

  /** The question handed to the prompt adapter. */
  datatype Question =
    | InputQuestion(message: string)
    | SelectQuestion(message: string, choices: seq<string>)
    | ConfirmQuestion(message: string)

  /**
    The prompt adapter's answer, in the shapes `play` tells apart; `Other` stands for every
    other answer type the adapter can return.
   */
  datatype Answer =
    | String(input: string)
    | ListItem(index: nat, text: string)
    | Bool(confirmed: bool)
    | Other

  /** One call of the prompt adapter: an answer, or the adapter's error. */
  datatype PromptReply = Answered(answer: Answer) | PromptError(reason: string)

  /** An answer counts as a decline when it is a `false` confirmation or of an unsupported shape. */
  predicate Declines(answer: Answer) {
    answer == Bool(false) || answer.Other?
  }

  /** The text a non-declining answer stands for: the input, the item's label, or `"true"`. */
  function AnswerText(answer: Answer): string
    requires !Declines(answer)
  {
    match answer
    case String(input) => input
    case ListItem(_, text) => text
    case Bool(_) => "true"
  }

  /**
    `Interaction::to_question`: the prompt becomes the message, the kind picks the question
    type, and a select offers the interaction's options, or nothing when it lists none.
   */
  function ToQuestion(i: Interaction): (q: Question)
    ensures q.message == i.prompt
    ensures q.InputQuestion? <==> i.kind == Input
    ensures q.SelectQuestion? <==> i.kind == Select
    ensures q.ConfirmQuestion? <==> i.kind == Confirm
    ensures q.SelectQuestion? && i.options.Some? ==> q.choices == i.options.value
    ensures q.SelectQuestion? && i.options.None? ==> q.choices == []
  {
    match i.kind
    case Input => InputQuestion(i.prompt)
    case Select => SelectQuestion(i.prompt, if i.options.Some? then i.options.value else [])
    case Confirm => ConfirmQuestion(i.prompt)
  }

  /**
    `Interaction::update_varbag`: stores `input` under the interaction's `out` name, replacing
    an earlier value and leaving every other key as it was; without an `out` name, or without a
    bag, nothing changes.
   */
  function UpdateVarBag(i: Interaction, input: string, bag: Option<VarBag>): (r: Option<VarBag>)
    ensures bag.None? ==> r.None?
    ensures i.out.None? ==> r == bag
    ensures bag.Some? && i.out.Some? ==>
      r.Some? && ToMap(r.value) == ToMap(bag.value)[i.out.value := input]
  {
    match bag
    case None => Option.None
    case Some(b) =>
      match i.out
      case None => bag
      case Some(name) => Some(Insert(b, name, input))
  }

  /** What `play` returns besides the response: the bag as the interaction left it. */
  datatype Played = Played(response: Response, bag: Option<VarBag>)

  /**
    `Interaction::play` once the question has been asked: a prompt error is returned before the
    bag is touched; a string answer, a list item's label and a confirmed `true` become a text
    response, stored under `out`; a declined confirmation or any other answer is a cancel and
    leaves the bag alone.
   */
  function Play(i: Interaction, bag: Option<VarBag>, reply: PromptReply): (r: Result<Played, Error>)
    ensures r.Err? <==> reply.PromptError?
    ensures r.Err? ==> r.error == PromptFailed(reply.reason)
    ensures r.Ok? ==> !r.value.response.None?
    ensures r.Ok? ==> (r.value.response.Cancel? <==> Declines(reply.answer))
    ensures r.Ok? && reply.answer.String? ==> r.value.response == Text(reply.answer.input)
    ensures r.Ok? && reply.answer.ListItem? ==> r.value.response == Text(reply.answer.text)
    ensures r.Ok? && reply.answer == Bool(true) ==> r.value.response == Text("true")
    ensures r.Ok? && r.value.response.Text? ==>
      r.value.bag == UpdateVarBag(i, r.value.response.text, bag)
    ensures r.Ok? && r.value.response.Cancel? ==> r.value.bag == bag
  {
    match reply
    case PromptError(reason) => Err(PromptFailed(reason))
    case Answered(answer) =>
      match answer
      case String(input) => Ok(Played(Text(input), UpdateVarBag(i, input, bag)))
      case ListItem(_, text) => Ok(Played(Text(text), UpdateVarBag(i, text, bag)))
      case Bool(confirmed) =>
        if confirmed then Ok(Played(Text("true"), UpdateVarBag(i, "true", bag)))
        else Ok(Played(Cancel, bag))
      case Other => Ok(Played(Cancel, bag))
  }
}
