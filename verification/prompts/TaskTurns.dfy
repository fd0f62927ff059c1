/**
 What the turns of a task contain (routes/datasets/task_runner.py, `render_messages` and
 `generate`): each step of a chain is sent its own messages, filled with what its
 predecessors answered.
 */
module TaskTurns {
  import opened Wrappers
  import opened Text
  import opened TaskGeneration
  import Placeholders

  /** `content` is `head` without white space at its end, an empty line, and `input` without any around it. */
  ghost predicate Appends(content: string, head: string, input: string) {
    exists start, space, left, core, right ::
      && content == start + "\n\n" + core
      && head == start + space && Blank(space) && (start == "" || !IsSpace(start[|start| - 1]))
      && input == left + core + right && Blank(left) && Blank(right) && Ends(core)
  }

  /** What a single template asks: without any placeholder it is followed by the example's input, if there is one. */
  ghost predicate Asks(content: string, template: string, values: Values) {
    if Placeholders.Identifiers(template) == {} && "input" in values && !Blank(values["input"])
    then Appends(content, template, values["input"])
    else content == Placeholders.Substitute(template, values)
  }

  function OwnTurns(s: Step): nat {
    if s.messages == [] then 1 else |s.messages|
  }

  /** Turn `i` of the step's own. */
  ghost predicate SaysTurn(t: Turn, s: Step, i: nat, values: Values)
    requires i < OwnTurns(s)
  {
    if s.messages == [] then t.role == "user" && Asks(t.content, s.template, values)
    else
      && t.role == (if s.messages[i].role == "" then "user" else s.messages[i].role)
      && t.content == Placeholders.Substitute(s.messages[i].content, values)
  }

  /** The step has a system turn of its own. */
  predicate HasSystem(s: Step) {
    exists i :: 0 <= i < |s.messages| && s.messages[i].role == "system"
  }

  /** The turns are the step's own in order, after the task's system prompt if the step has none. */
  ghost predicate Sends(turns: seq<Turn>, s: Step, system: string, values: Values) {
    var first := if system != "" && !HasSystem(s) then 1 else 0;
    && |turns| == first + OwnTurns(s)
    && (first == 1 ==> turns[0] == Turn("system", system))
    && (var own := turns[first..]; forall i | 0 <= i < OwnTurns(s) :: SaysTurn(own[i], s, i, values))
  }

  lemma RenderedAsks(template: string, values: Values)
    ensures Asks(Rendered(template, values), template, values)
  {
    if Placeholders.Identifiers(template) == {} && "input" in values {
      var input := values["input"];
      var left, right := StripExactly(input);
      var space := StripRightExactly(template);
      Placeholders.SubstituteNothing(template, values);
      StripBlank(input);
      if !Blank(input) {
        assert Rendered(template, values) == StripRight(template) + "\n\n" + Strip(input);
      }
    }
  }

  lemma OwnSays(s: Step, values: Values, i: nat)
    requires i < OwnTurns(s)
    ensures |StepTurns(s, values)| == OwnTurns(s) && SaysTurn(StepTurns(s, values)[i], s, i, values)
  {
    RenderedAsks(s.template, values);
  }

  lemma OwnSystem(s: Step, values: Values)
    ensures HasSystem(s) <==> AnySystem(StepTurns(s, values))
  {
    if s.messages != [] {
      forall i | 0 <= i < |s.messages| ensures StepTurns(s, values)[i].role == "system" <==> s.messages[i].role == "system" {}
    }
  }

  /** What a step sends. */
  lemma MessagesExactly(s: Step, system: string, values: Values)
    ensures Sends(Messages(s, system, values), s, system, values)
  {
    var own, turns, first := StepTurns(s, values), Messages(s, system, values), if system != "" && !HasSystem(s) then 1 else 0;
    OwnSystem(s, values);
    OwnSays(s, values, 0);
    assert turns[first..] == own;
    forall i | 0 <= i < OwnTurns(s) ensures SaysTurn(own[i], s, i, values) { OwnSays(s, values, i); }
  }

  /** The n-th call of a chain, up to and including one that fails, sent this. */
  lemma {:induction false} SentOf(steps: seq<Step>, system: string, values: Values, provider: Provider, n: nat)
    requires n < |After(steps, system, values, provider).sent|
    ensures n < |steps| && !After(steps[..n], system, values, provider).failed
    ensures (var p, q := After(steps, system, values, provider), After(steps[..n], system, values, provider);
             && p.sent[n] == Messages(steps[n], system, q.values)
             && n <= |p.answers| && p.answers[..n] == q.answers
             && (n < |p.answers| ==> provider(n, p.sent[n]) == Some(p.answers[n]))
             && (n == |p.answers| ==> provider(n, p.sent[n]) == None))
  {
    var k := |steps| - 1;
    var before := After(steps[..k], system, values, provider);
    Lengths(steps[..k], system, values, provider);
    if n < |before.sent| {
      SentOf(steps[..k], system, values, provider, n);
      assert steps[..k][..n] == steps[..n];
    }
  }

  lemma {:induction false} Lengths(steps: seq<Step>, system: string, values: Values, provider: Provider)
    ensures (var p := After(steps, system, values, provider);
             |p.answers| <= |p.sent| <= |steps| && (!p.failed ==> |p.answers| == |p.sent| == |steps|) && (p.failed ==> |p.sent| == |p.answers| + 1))
  {
    if steps != [] { Lengths(steps[..|steps| - 1], system, values, provider); }
  }

  /**
   Every call of a chain sends the turns of its step, filled with the latest answer as
   `previous`, the earlier ones under their steps' names and the rest from the example; the
   chain's answers are what the provider gave to these turns.
   */
  lemma EveryCallSends(steps: seq<Step>, system: string, values: Values, provider: Provider, n: nat) returns (v: Values)
    requires n < |After(steps, system, values, provider).sent|
    ensures n < |steps| && n <= |After(steps, system, values, provider).answers|
    ensures (var p := After(steps, system, values, provider);
             && Sees(v, StepNames(n), p.answers[..n], values)
             && Sends(p.sent[n], steps[n], system, v)
             && provider(n, p.sent[n]) == if n < |p.answers| then Some(p.answers[n]) else None)
  {
    SentOf(steps, system, values, provider, n);
    StepSeesEarlierAnswers(steps[..n], system, values, provider);
    v := After(steps[..n], system, values, provider).values;
    MessagesExactly(steps[n], system, v);
  }

  /** The name of a step is `step_` and its number, counted from 1. */
  lemma StepNameReads(i: nat)
    ensures StepName(i)[..5] == "step_" && Read(StepName(i)[5..]) == i + 1 && StepName(i)[5] != '0'
  {
    DecimalReads(i + 1);
    assert StepName(i)[5..] == Decimal(i + 1);
  }

  /** One tool request is its name and arguments; several are one below the other. */
  lemma {:induction false} ToolRequests(calls: seq<ToolCall>, more: seq<ToolCall>)
    ensures |calls| == 1 ==> RenderCalls(calls) == calls[0].name + "(" + calls[0].arguments + ")"
    ensures calls != [] && more != [] ==> RenderCalls(calls + more) == RenderCalls(calls) + "\n" + RenderCalls(more)
  {
    if calls != [] && more != [] {
      assert (calls + more)[1..] == calls[1..] + more;
      if |calls| > 1 { ToolRequests(calls[1..], more); }
    }
  }

  /** The model's text is the answer, unless it is blank beside a tool request. */
  lemma AnswerIsText(c: Completion)
    ensures c.toolCalls == [] || Says(c.text) ==> OutputOf(c) == c.text
    ensures c.toolCalls != [] && !Says(c.text) ==> OutputOf(c) == RenderCalls(c.toolCalls)
  {
  }

  /** The totals of a chain are sums over its answers: each answer counts once, and no answers count nothing. */
  lemma {:induction false} TotalsAdd(cs: seq<Completion>, c: Completion)
    ensures Inputs([]) == Outputs([]) == Cached([]) == 0 && Calls([]) == []
    ensures Inputs(cs + [c]) == Inputs(cs) + c.input && Outputs(cs + [c]) == Outputs(cs) + c.output
    ensures Cached(cs + [c]) == Cached(cs) + c.cached && Calls(cs + [c]) == Calls(cs) + c.toolCalls
  {
    assert (cs + [c])[..|cs|] == cs;
  }

  /** What an answer reports: the turns of every call, all tool calls in order, and the price of exactly its own tokens. */
  lemma AnswerReports(steps: seq<Step>, system: string, values: Values, provider: Provider, pricing: Pricing)
    ensures (var p := After(steps, system, values, provider);
             var g := Reported(p, pricing);
             && (g.Answer? <==> |p.answers| == |steps| && pricing(Inputs(p.answers), Outputs(p.answers), Cached(p.answers)).Some?)
             && (g.Answer? ==>
                   && pricing(g.input, g.out, Cached(p.answers)) == Some(g.cost)
                   && g.toolCalls == Calls(p.answers) && g.output == (if steps == [] then "" else OutputOf(p.answers[|steps| - 1])))
             && g.sent == p.sent)
  {
    Lengths(steps, system, values, provider);
  }
}
