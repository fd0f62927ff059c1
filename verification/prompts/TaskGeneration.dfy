/**
 One execution of a task against an example (routes/datasets/task_runner.py, `generate`):
 its steps run in order, each sees what the earlier ones answered. What the provider
 answers to the n-th call, if it answers, and what the tokens cost are parameters.
 */
module TaskGeneration {
  import opened Wrappers
  import opened Text
  import Placeholders

  datatype Turn = Turn(role: string, content: string)

  /** A step is a conversation or, without one, a single template. */
  datatype Step = Step(template: string, messages: seq<Turn>)

  datatype ToolCall = ToolCall(name: string, arguments: string)

  datatype Completion = Completion(text: string, toolCalls: seq<ToolCall>, input: nat, output: nat, cached: nat)

  /** An error has no message here. */
  datatype Generation =
    | Answer(output: string, sent: seq<seq<Turn>>, input: nat, out: nat, cost: Option<real>, toolCalls: seq<ToolCall>)
    | Failed(sent: seq<seq<Turn>>, input: nat, out: nat)

  type Values = map<string, string>

  /** What the provider answers to a call; None stands for an exception. */
  type Provider = (nat, seq<Turn>) -> Option<Completion>

  /** The cost of tokens in, out and cached, if it can be told; None stands for an exception. */
  type Pricing = (nat, nat, nat) -> Option<Option<real>>

  /******* What is sent *******/

  /** A template without placeholders gets the example's input appended. */
  function Rendered(template: string, values: Values): string {
    var text := Placeholders.Substitute(template, values);
    var input := Strip(if "input" in values then values["input"] else "");
    if Placeholders.Identifiers(template) == {} && input != "" then StripRight(text) + "\n\n" + input else text
  }

  function Filled(turns: seq<Turn>, values: Values): (r: seq<Turn>)
    ensures |r| == |turns|
  {
    seq(|turns|, i requires 0 <= i < |turns| =>
      Turn(if turns[i].role != "" then turns[i].role else "user", Placeholders.Substitute(turns[i].content, values)))
  }

  function StepTurns(s: Step, values: Values): seq<Turn> {
    if s.messages != [] then Filled(s.messages, values) else [Turn("user", Rendered(s.template, values))]
  }

  predicate AnySystem(turns: seq<Turn>) {
    exists i :: 0 <= i < |turns| && turns[i].role == "system"
  }

  /** `render_messages`; "" stands for no system prompt. */
  function Messages(s: Step, system: string, values: Values): seq<Turn> {
    var turns := StepTurns(s, values);
    if system != "" && !AnySystem(turns) then [Turn("system", system)] + turns else turns
  }

  function RenderCalls(calls: seq<ToolCall>): string {
    if calls == [] then ""
    else if |calls| == 1 then RenderCall(calls[0])
    else RenderCall(calls[0]) + "\n" + RenderCalls(calls[1..])
  }

  function RenderCall(c: ToolCall): string {
    c.name + "(" + c.arguments + ")"
  }

  /** A request for tools is an answer too. */
  function OutputOf(c: Completion): string {
    if c.toolCalls != [] && Blank(c.text) then RenderCalls(c.toolCalls) else c.text
  }

  function StepName(i: nat): string {
    "step_" + Decimal(i + 1)
  }

  /******* The chain *******/

  /** Where a chain has got to. */
  datatype Progress = Progress(values: Values, sent: seq<seq<Turn>>, answers: seq<Completion>, failed: bool)

  function After(steps: seq<Step>, system: string, values: Values, provider: Provider): Progress {
    if steps == [] then Progress(values, [], [], false) else
    var n := |steps| - 1;
    Advance(After(steps[..n], system, values, provider), steps[n], n, system, provider)
  }

  function Advance(p: Progress, s: Step, n: nat, system: string, provider: Provider): Progress {
    if p.failed then p else
    var turns := Messages(s, system, p.values);
    match provider(n, turns)
    case None => p.(sent := p.sent + [turns], failed := true)
    case Some(c) => Progress(Told(p.values, n, OutputOf(c)), p.sent + [turns], p.answers + [c], false)
  }

  /** What later steps are told of the answer of the n-th. */
  function Told(values: Values, n: nat, answer: string): Values {
    values["previous" := answer][StepName(n) := answer]
  }

  lemma Extend(steps: seq<Step>, n: nat, system: string, values: Values, provider: Provider)
    requires n < |steps|
    ensures After(steps[..n + 1], system, values, provider)
         == Advance(After(steps[..n], system, values, provider), steps[n], n, system, provider)
  {
    assert steps[..n + 1][..n] == steps[..n];
  }

  function Inputs(cs: seq<Completion>): nat {
    if cs == [] then 0 else Inputs(cs[..|cs| - 1]) + cs[|cs| - 1].input
  }

  function Outputs(cs: seq<Completion>): nat {
    if cs == [] then 0 else Outputs(cs[..|cs| - 1]) + cs[|cs| - 1].output
  }

  function Cached(cs: seq<Completion>): nat {
    if cs == [] then 0 else Cached(cs[..|cs| - 1]) + cs[|cs| - 1].cached
  }

  function Calls(cs: seq<Completion>): seq<ToolCall> {
    if cs == [] then [] else Calls(cs[..|cs| - 1]) + cs[|cs| - 1].toolCalls
  }

  /** The running totals are those of the answers so far. */
  predicate Totalled(cs: seq<Completion>, input: nat, out: nat, cached: nat, toolCalls: seq<ToolCall>, output: string) {
    && input == Inputs(cs) && out == Outputs(cs) && cached == Cached(cs) && toolCalls == Calls(cs)
    && output == if cs == [] then "" else OutputOf(cs[|cs| - 1])
  }

  lemma TotalledNext(cs: seq<Completion>, input: nat, out: nat, cached: nat, toolCalls: seq<ToolCall>, output: string, c: Completion)
    requires Totalled(cs, input, out, cached, toolCalls, output)
    ensures Totalled(cs + [c], input + c.input, out + c.output, cached + c.cached, toolCalls + c.toolCalls, OutputOf(c))
  {
    assert (cs + [c])[..|cs|] == cs;
  }

  /** What is reported of a chain. */
  function Reported(p: Progress, pricing: Pricing): Generation {
    var price := pricing(Inputs(p.answers), Outputs(p.answers), Cached(p.answers));
    if p.failed || price.None? then Failed(p.sent, 0, 0)
    else Answer(if p.answers == [] then "" else OutputOf(p.answers[|p.answers| - 1]), p.sent,
                Inputs(p.answers), Outputs(p.answers), price.value, Calls(p.answers))
  }

  /** `generate` */
  method Generate(steps: seq<Step>, system: string, values0: Values, provider: Provider, pricing: Pricing) returns (g: Generation)
    ensures g == Reported(After(steps, system, values0, provider), pricing)
  {
    var values, transcript, output := values0, [], "";
    var input: nat, out: nat, cached: nat := 0, 0, 0;
    var toolCalls: seq<ToolCall> := [];
    ghost var answers: seq<Completion> := [];
    for index := 0 to |steps|
      invariant After(steps[..index], system, values0, provider) == Progress(values, transcript, answers, false)
      invariant Totalled(answers, input, out, cached, toolCalls, output)
    {
      var turns := Messages(steps[index], system, values);
      ghost var before := transcript;
      transcript := transcript + [turns];
      var completion := provider(index, turns);
      if completion.None? {
        Refused(steps, index, system, values0, provider, Progress(values, before, answers, false));
        return Failed(transcript, 0, 0);
      }
      var c := completion.value;
      Extend(steps, index, system, values0, provider);
      TotalledNext(answers, input, out, cached, toolCalls, output, c);
      answers := answers + [c];
      input, out, cached := input + c.input, out + c.output, cached + c.cached;
      output, toolCalls := ReadCompletion(c, toolCalls);
      values := values["previous" := output][StepName(index) := output];
    }
    assert steps[..|steps|] == steps;
    g := Finish(values, transcript, answers, output, input, out, cached, toolCalls, pricing);
  }

  /** The end of `generate`: an exception of the cost estimate fails the whole chain. */
  method Finish(ghost values: Values, transcript: seq<seq<Turn>>, ghost answers: seq<Completion>,
                output: string, input: nat, out: nat, cached: nat, toolCalls: seq<ToolCall>, pricing: Pricing) returns (g: Generation)
    requires Totalled(answers, input, out, cached, toolCalls, output)
    ensures g == Reported(Progress(values, transcript, answers, false), pricing)
  {
    var price := pricing(input, out, cached);
    g := if price.None? then Failed(transcript, 0, 0) else Answer(output, transcript, input, out, price.value, toolCalls);
  }

  method ReadCompletion(c: Completion, before: seq<ToolCall>) returns (output: string, toolCalls: seq<ToolCall>)
    ensures output == OutputOf(c) && toolCalls == before + c.toolCalls
  {
    output, toolCalls := c.text, before;
    if c.toolCalls != [] {
      toolCalls := toolCalls + c.toolCalls;
      if Blank(output) {
        output := RenderCalls(c.toolCalls);
      }
    }
  }

  /** Nothing is sent after a failure. */
  lemma {:induction false} StaysFailed(steps: seq<Step>, k: nat, system: string, values: Values, provider: Provider)
    requires k <= |steps| && After(steps[..k], system, values, provider).failed
    ensures After(steps, system, values, provider) == After(steps[..k], system, values, provider)
    decreases |steps|
  {
    if k < |steps| {
      var n := |steps| - 1;
      assert steps[..n][..k] == steps[..k];
      StaysFailed(steps[..n], k, system, values, provider);
    } else {
      assert steps[..k] == steps;
    }
  }

  lemma Refused(steps: seq<Step>, n: nat, system: string, values: Values, provider: Provider, p: Progress)
    requires n < |steps| && After(steps[..n], system, values, provider) == p && !p.failed
    requires provider(n, Messages(steps[n], system, p.values)) == None
    ensures After(steps, system, values, provider) == p.(sent := p.sent + [Messages(steps[n], system, p.values)], failed := true)
  {
    Extend(steps, n, system, values, provider);
    StaysFailed(steps, n + 1, system, values, provider);
  }

  /******* What a chain promises *******/

  function StepNames(n: nat): (names: seq<string>)
    ensures |names| == n && forall i | 0 <= i < n :: names[i] == StepName(i)
  {
    if n == 0 then [] else StepNames(n - 1) + [StepName(n - 1)]
  }

  lemma StepNameIsNew(n: nat)
    ensures StepName(n) !in StepNames(n) && StepName(n) != "previous"
  {
    forall i | 0 <= i < n ensures StepNames(n)[i] != StepName(n) {
      if StepName(i) == StepName(n) {
        assert StepName(i)[5..] == Decimal(i + 1) && StepName(n)[5..] == Decimal(n + 1);
        DecimalInjective(i + 1, n + 1);
      }
    }
    assert StepName(n)[0] == 's';
  }

  /** The values hold the latest answer as `previous`, every answer under its step's name, and the rest as it was. */
  ghost predicate Sees(v: Values, names: seq<string>, answers: seq<Completion>, values: Values)
    requires |names| == |answers|
  {
    && (answers != [] ==> "previous" in v && v["previous"] == OutputOf(answers[|answers| - 1]))
    && (forall i | 0 <= i < |answers| :: names[i] in v && v[names[i]] == OutputOf(answers[i]))
    && (forall name | name != "previous" && name !in names :: (name in v <==> name in values) && (name in values ==> v[name] == values[name]))
  }

  lemma SeesNext(v: Values, names: seq<string>, answers: seq<Completion>, values: Values, name: string, c: Completion)
    requires |names| == |answers| && Sees(v, names, answers, values)
    requires name !in names && name != "previous" && "previous" !in names
    ensures Sees(v["previous" := OutputOf(c)][name := OutputOf(c)], names + [name], answers + [c], values)
  {
  }

  lemma PreviousIsNoStep(n: nat)
    ensures "previous" !in StepNames(n)
  {
    forall i | 0 <= i < n ensures StepNames(n)[i] != "previous" {
      assert StepName(i)[0] == 's';
    }
  }

  /**
   Every step of a chain is rendered with the latest answer as `previous`, the answers of
   the earlier steps under their names, and everything else as the example had it.
   */
  lemma {:induction false} StepSeesEarlierAnswers(steps: seq<Step>, system: string, values: Values, provider: Provider)
    requires !After(steps, system, values, provider).failed
    ensures (var p := After(steps, system, values, provider);
             |p.answers| == |p.sent| == |steps| && Sees(p.values, StepNames(|steps|), p.answers, values))
  {
    if steps != [] {
      var n := |steps| - 1;
      StepSeesEarlierAnswers(steps[..n], system, values, provider);
      var p := After(steps[..n], system, values, provider);
      var c := provider(n, Messages(steps[n], system, p.values)).value;
      StepNameIsNew(n);
      PreviousIsNoStep(n);
      SeesNext(p.values, StepNames(n), p.answers, values, StepName(n), c);
    }
  }

  /** The answer is that of the last step, and every step was sent what its predecessors' answers made of it. */
  lemma AnswerExactly(steps: seq<Step>, system: string, values: Values, provider: Provider, pricing: Pricing)
    requires steps != []
    ensures (var p, g := After(steps, system, values, provider), Reported(After(steps, system, values, provider), pricing);
             && (g.Answer? ==> |p.answers| == |steps| == |g.sent| && g.output == OutputOf(p.answers[|steps| - 1]))
             && (g.Failed? && p.failed ==> 1 <= |g.sent| <= |steps|))
  {
    if After(steps, system, values, provider).failed {
      SentBeforeFailing(steps, system, values, provider);
    } else {
      StepSeesEarlierAnswers(steps, system, values, provider);
    }
  }

  lemma {:induction false} SentBeforeFailing(steps: seq<Step>, system: string, values: Values, provider: Provider)
    requires After(steps, system, values, provider).failed
    ensures (var p := After(steps, system, values, provider); |p.sent| == |p.answers| + 1 <= |steps|)
  {
    var n := |steps| - 1;
    if After(steps[..n], system, values, provider).failed {
      SentBeforeFailing(steps[..n], system, values, provider);
    } else {
      StepSeesEarlierAnswers(steps[..n], system, values, provider);
    }
  }

  /** The provider answers the call of the k-th step. */
  predicate Answers(steps: seq<Step>, k: nat, system: string, values: Values, provider: Provider)
    requires k < |steps|
  {
    provider(k, Messages(steps[k], system, After(steps[..k], system, values, provider).values)).Some?
  }

  predicate EveryCallAnswers(steps: seq<Step>, system: string, values: Values, provider: Provider) {
    steps == [] || (var n := |steps| - 1; EveryCallAnswers(steps[..n], system, values, provider) && Answers(steps, n, system, values, provider))
  }

  lemma {:induction false} ChainAnswersExactly(steps: seq<Step>, system: string, values: Values, provider: Provider)
    ensures !After(steps, system, values, provider).failed <==> EveryCallAnswers(steps, system, values, provider)
  {
    if steps != [] {
      ChainAnswersExactly(steps[..|steps| - 1], system, values, provider);
      LastAnswers(steps, system, values, provider);
    }
  }

  lemma LastAnswers(steps: seq<Step>, system: string, values: Values, provider: Provider)
    requires steps != []
    ensures (var n := |steps| - 1;
             !After(steps, system, values, provider).failed
             <==> !After(steps[..n], system, values, provider).failed && Answers(steps, n, system, values, provider))
  {
  }

  /**
   What a chain costs is what all of it costs, as promised, if and only if the provider
   answers every call and the cost can be told, or the answers that were given cost no
   tokens: a chain that fails halfway reports none.
   */
  lemma ReportedTokensExactly(steps: seq<Step>, system: string, values: Values, provider: Provider, pricing: Pricing)
    ensures (var answers := After(steps, system, values, provider).answers;
             var g := Reported(After(steps, system, values, provider), pricing);
             g.input == Inputs(answers) && g.out == Outputs(answers)
             <==> || (EveryCallAnswers(steps, system, values, provider)
                      && pricing(Inputs(answers), Outputs(answers), Cached(answers)).Some?)
                  || (Inputs(answers) == 0 && Outputs(answers) == 0))
  {
    ChainAnswersExactly(steps, system, values, provider);
  }

  /** A chain of two steps, of which the first costs tokens and the second is refused. */
  lemma RefusedSecondStepReportsNothing(s: Step, t: Step, system: string, values: Values, provider: Provider, c: Completion, pricing: Pricing)
    requires provider(0, Messages(s, system, values)) == Some(c) && c.input > 0
    requires provider(1, Messages(t, system, Told(values, 0, OutputOf(c)))) == None
    ensures (var p := After([s, t], system, values, provider);
             Inputs(p.answers) == c.input && Reported(p, pricing) == Failed(p.sent, 0, 0))
  {
    var steps := [s, t];
    assert steps[..0] == [] && steps[..2] == steps;
    Extend(steps, 0, system, values, provider);
    Extend(steps, 1, system, values, provider);
    assert [] + [c] == [c] && [c][..0] == [];
  }

  /** A step that names no earlier answer does not depend on them. */
  lemma StepDependsOnItsNames(s: Step, system: string, v: Values, w: Values)
    requires s.messages == [] && Placeholders.Identifiers(s.template) != {}
    requires forall name | name in Placeholders.Identifiers(s.template) ::
      (name in v <==> name in w) && (name in v ==> v[name] == w[name])
    ensures Messages(s, system, v) == Messages(s, system, w)
  {
    Placeholders.SubstituteDependsOnIdentifiers(s.template, v, w);
  }
}
