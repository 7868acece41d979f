# interactive-actions: the action runner, in Dafny

`interactive-actions` runs a declarative list of actions. Each action may ask the user one
question (confirm, input or select), may store the answer in a string-to-string variable bag
under an `out` name, and may run a shell script whose `{{name}}` tokens are filled in from
that bag. `ActionRunner::run` keeps only the actions whose hook matches. It processes them in
order and applies the response/run decision table to each: a cancel either stops everything
or is recorded, an action without a script records its response, and otherwise the script is
substituted and run, with a non-zero exit code stopping the run unless it is ignored. Results
are collected fail-fast: the first error is the whole answer.

The model is functional:

- `VarBags` holds the variable bag, a `BTreeMap<String, String>`. It is a strictly ascending
  association list, so iterating it visits keys in the same order the B-tree does. `ToMap`
  gives the mapping it stands for, and `Insert` is `BTreeMap::insert`.
- `Data` holds the records and enums of `data.rs`, together with `to_question`,
  `update_varbag` and the answer-to-response mapping of `play`.
- `Substitution` holds Rust's `str::replace` (`ReplaceAll`) and the fold over the bag
  (`Substitute`).
- `Runner` is `ActionRunner::run`. The prompt adapter and the script adapter are oracles:
  `World` carries the replies and the script outcomes still to come, consumed front to back.
  It also carries a trace of the calls the runner makes: progress notifications, questions
  asked and commands run. `Respond` is the first half of an action: the notification, then
  the question. `Decide` is the decision table. `Step` is one action, `RunAll` is the
  fail-fast collect, and `Run` is the whole call.
- `RunnerProperties` holds properties of whole runs: splitting a run at a concatenation, fail
  fast, per-position results and the hook filter. It also holds the outcome of one action of
  each shape: answered, scripted, answered and scripted, and declined.
- `Scenarios` holds concrete runs: the crate's two unit tests, its first documented example,
  and a few edge cases.

Substitution depends on key order. The runner folds over the `BTreeMap` in ascending key
order, and each key's `replace` runs on the output of the previous key (lib.rs:172-174). So a
value that contains the `{{token}}` of a later key is expanded again, and which keys come
first changes the script. `Scenarios.LaterKeyExpandsInEarlierValue` exhibits this: with
`a = "{{b}}"` and `b = "X"`, the template `{{a}}` becomes `X`, while replacing `b` before `a`
would give `{{b}}`.

`data.rs` declares no `ActionHook` type and no `hook` field on `Action`, although
`lib.rs` filters on `action.hook == hook`. The model gives `Action` a `hook` field and treats
the hook as a tag compared by equality, with the default tag `After`.

## Model

| member | source | states |
|---|---|---|
| VarBags.Insert | interactive-actions/src/data.rs:14 | inserting into the ordered bag gives the old mapping with the key set to the new value, and the result stays strictly ascending |
| VarBags.Canonical | interactive-actions/src/data.rs:14 | two bags standing for the same mapping are the same list, so the key order the fold sees depends only on the keys |
| VarBags.InsertOverwrites | interactive-actions/src/data.rs:107 | inserting a key twice keeps only the second value |
| VarBags.InsertCommutes | interactive-actions/src/data.rs:14 | inserts of distinct keys give the same bag in either order |
| Data.ToQuestion | interactive-actions/src/data.rs:152-165 | the question's message is the prompt; its kind is exactly the interaction's kind; a select offers the options, or no choices when none are given |
| Data.UpdateVarBag | interactive-actions/src/data.rs:103-109 | with a bag and an `out` name, the bag maps `out` to the input and every other key is unchanged; without `out` or without a bag nothing changes |
| Data.Play | interactive-actions/src/data.rs:116-149 | a prompt error is returned as the error and nothing else happens; a string answer gives `Text(input)`, a list item gives `Text(label)`, `true` gives `Text("true")`, each stored under `out`; a declined or unsupported answer gives `Cancel` and leaves the bag as it was; the response is never `None` |
| Substitution.ReplaceAllAbsent | interactive-actions/src/lib.rs:173 | `replace` leaves text in which the pattern does not occur unchanged |
| Substitution.ReplaceAllIdentity | interactive-actions/src/lib.rs:173 | replacing a pattern by itself gives the text back |
| Substitution.ReplaceAllSkip | interactive-actions/src/lib.rs:173 | a prefix in which no occurrence starts is copied unchanged and the replacement continues after it |
| Substitution.ReplaceAllAfter | interactive-actions/src/lib.rs:173 | when the pattern starts nowhere in a prefix, the first occurrence after it is replaced and the replacement continues on the rest |
| Substitution.SubstituteUntouched | interactive-actions/src/lib.rs:171-174 | when no bag key's `{{key}}` token occurs in the template, the script is the template verbatim; unknown tokens are not an error |
| Substitution.EmptyBagKeepsTemplate | interactive-actions/src/lib.rs:172-174 | with an empty bag the script is the template |
| Runner.Filter | interactive-actions/src/lib.rs:126-128 | exactly the actions whose hook equals the run's hook survive, none added |
| Runner.Respond | interactive-actions/src/lib.rs:130-140 | the progress callback is called first, then the question built from the interaction is asked and recorded; no interaction gives response `None` without touching the prompts or the bag; otherwise one reply is consumed; a missing reply or a prompt error is that error with the bag unchanged; a string answer gives `Text(input)`, a list item `Text(label)`, `true` gives `Text("true")`, and the text is stored under `out`; the response is `Cancel` exactly when the answer declines |
| Runner.Decide | interactive-actions/src/lib.rs:143-199 | a cancel stops the run exactly when `break_if_cancel` is set and otherwise records `{run: None, response: Cancel}` with nothing run; no template records `{run: None, response: resp}` with nothing run; otherwise the template is substituted from the current bag and its command, with the working directory and the capture flag, is run once; a spawn failure is an error; a non-zero exit code is an error naming the action and the code unless `ignore_exit` is set; an accepted outcome records the script with its code, out and err |
| Runner.Step | interactive-actions/src/lib.rs:129-200 | an action with neither interaction nor run records `{run: None, response: None}` and leaves the bag and adapters alone; the script is substituted from the bag as this action's own answer left it; only the `out` key can change and no key disappears |
| Runner.RunAll | interactive-actions/src/lib.rs:126-201 | on success, one result per action, in order, each carrying its action's name; keys are never removed from the bag |
| Runner.Run | interactive-actions/src/lib.rs:115-202 | on success, one result per hook-matching action, in input order, with matching names; when no action matches, an empty result and the world untouched |
| RunnerProperties.RunAllAppend | interactive-actions/src/lib.rs:201 | running `xs + ys` is running `xs` and then, only if that succeeded, `ys` from the state `xs` left |
| RunnerProperties.FailFast | interactive-actions/src/lib.rs:201 | when the actions before `a` succeed and `a` fails, the run returns that error alone, in the state `a` left: no later action is notified, prompted or run |
| RunnerProperties.EachResultIsItsStep | interactive-actions/src/lib.rs:126-201 | on success, result `i` is what action `i` gives in the state the first `i` actions left, so earlier bag updates are visible to later actions |
| RunnerProperties.FilterKeepsMatching | interactive-actions/src/lib.rs:128 | when every action has the run's hook the filter keeps the list as it is |
| RunnerProperties.FilterAppend | interactive-actions/src/lib.rs:126-128 | filtering distributes over concatenation |
| RunnerProperties.SkipsOtherHooks | interactive-actions/src/lib.rs:126-128 | inserting an action with another hook anywhere changes neither the results nor the bag, adapters or trace |
| RunnerProperties.AnsweredStep | interactive-actions/src/lib.rs:129-159 | an interaction-only action answered without declining records `Text(answer)` with no run, consumes one reply, asks its question after the callback, and stores the text under `out` |
| RunnerProperties.ScriptedStep | interactive-actions/src/lib.rs:155-197 | a script-only action whose outcome is accepted records the substituted script with the outcome's code, out and err and response `None`, consuming one outcome and asking nothing |
| RunnerProperties.AnsweredScriptedStep | interactive-actions/src/lib.rs:135-197 | an action that asks and runs stores the answer before substituting, so its own script sees the answer |
| RunnerProperties.DeclinedStep | interactive-actions/src/lib.rs:144-153 | a declined answer without `break_if_cancel` records `{run: None, response: Cancel}`, runs nothing and leaves the bag alone |
| Scenarios.DeclinedConfirmStops | interactive-actions/src/lib.rs:144-146 | a declined confirmation on a `break_if_cancel` action ends the run with an error |
| Scenarios.DeclinedConfirmSkipsScript | interactive-actions/src/lib.rs:20-32 | the documented confirm-then-`echo hello` example answered `no`, with working directory `.` and with or without the progress callback it passes, succeeds with a recorded cancel; the only calls made are the notification and the question, and the script is never run |
| Scenarios.CapturedInputReachesScript | interactive-actions/src/lib.rs:171-191 | an input captured as `city` by one action is substituted into the next action's `echo {{city}}`, which runs as `echo paris` |
| Scenarios.RunScriptTest | interactive-actions/src/lib.rs:262-299 | an input action that also runs `echo {{city}}` stores `tlv` first, so its script runs as `echo tlv` and the bag ends as `{city: tlv}` |
| Scenarios.InteractionTest | interactive-actions/src/lib.rs:211-260 | confirming, typing `tlv` and picking `train` gives three text responses and no scripts; the bag holds `confirm` and `city` but nothing for the select, which has no `out`; the three questions are asked in order |
| Scenarios.ExitCodeStops | interactive-actions/src/lib.rs:179-185 | a script exiting with 2 stops the run with an error naming the action and the code; the next action is neither announced nor run |
| Scenarios.KnownTokensReplacedUnknownKept | interactive-actions/src/lib.rs:171-174 | with `city = paris`, `echo {{city}} {{city}} {{other}}` runs as `echo paris paris {{other}}`: every occurrence of a known token is replaced and an unknown token is kept verbatim |
| Scenarios.LaterKeyExpandsInEarlierValue | interactive-actions/src/lib.rs:172-174 | substitution goes key by key in ascending order over the previous output, so a value holding a later key's token is expanded again, and the other order gives a different script |

## Left out

- Terminal I/O is not modelled: requestty's `prompt_one` and `prompt_one_with`, the 50x20
  `TestBackend` and the `TestEvents` key replay. Each prompt is one reply taken from a
  sequence of answers or adapter errors.
- Process execution is not modelled: `run_script::run`, `print_commands`, the empty argument
  list and the `Pipe`/`Inherit` redirection. Each run is one outcome taken from a sequence of
  `(code, out, err)` triples or spawn errors. The outcomes are fixed in advance and do not
  depend on the command. The working directory and the capture flag only appear in the
  `Executed` command recorded in the trace.
- An exhausted oracle gives the error `NoReply`. The real adapters would block or fail
  instead, and the model does not say which.
- The progress callback's side effects are not modelled. The callback appears only as a
  `Notified` event in the trace, when the run is given one.
- Error messages are not modelled. anyhow's message strings are replaced by the constructors of
  `Results.Error`, which keep the action name and exit code that the messages carry.
- Serde/YAML deserialisation and field defaults are not modelled, nor the `default` key of the
  examples' interactions, which the `Interaction` struct does not declare. The example program
  `examples/interaction.rs` is a demo with real I/O and is not modelled.
- The question builders' internal name `"question"` is not modelled. A selected list item's
  index is carried in `Answer.ListItem` but ignored, as in `play`: only its label matters.
- Keys are ordered by character, which is the order Rust gives `String` (byte order of UTF-8
  equals code-point order). The model has no Unicode normalisation.
- Exit codes are `i32`, modelled as the newtype `Int32`. Nothing in the runner does arithmetic
  on them.
- Data.Play: models `play` once the question is built and asked. Building and asking the
  question is `Runner.Respond`, which records it in the trace and takes the reply. The runner
  always passes a bag, so the no-bag case only matters for `Data.UpdateVarBag`.
- Substitution.ReplaceAll: requires a non-empty pattern. Rust's `replace` with an empty
  pattern inserts the replacement before, between and after the characters
  (`"ab".replace("", "x")` is `"xaxbx"`). The runner's patterns are always `{{key}}` tokens
  of at least four characters, so that case never arises.
