/**
 What a scorer's value scores, and what its names mean (shared/code_scorer.py:596-647).
 */
module ScorerScores {
  import opened Wrappers
  import opened ScorerSyntax
  import opened ScorerSemantics
  import opened ScorerTheorems
  import Lit = ScorerLiterals
  import Ops = ScorerOperations
  import V = ScorerValidation

  /** A scorer that is a literal scores its number, booleans included, if that is from 0 to 1. */
  lemma LiteralScores(rt: Runtime, v: Value, output: string, expected: string, input: string, metadata: seq<Entry>)
    ensures (var r := ScoreOf(rt, Constant(v), output, expected, input, metadata);
             var n := Ops.Number(v);
             if n.Some? && 0.0 <= n.value <= 1.0 then r == Ok(n.value) else r == Err(Author(BadScore)))
  {
    Lit.LiteralRuns(Machine(STANDARD, rt, ScorerScope(output, expected, input, metadata)), v, map[], 0, State(0, 0, 0));
  }

  /** The value of a tree is what counts. */
  lemma ScoreIsOfValue(rt: Runtime, tree: Expr, output: string, expected: string, input: string, metadata: seq<Entry>)
    ensures (var v := Run(Machine(STANDARD, rt, ScorerScope(output, expected, input, metadata)), tree).result;
             var r := ScoreOf(rt, tree, output, expected, input, metadata);
             if v.Err? then r == Err(v.failure) else r == ScoreOf(rt, Constant(v.value), output, expected, input, metadata))
  {
    var m := Machine(STANDARD, rt, ScorerScope(output, expected, input, metadata));
    var v := Run(m, tree).result;
    if v.Ok? { Lit.LiteralRuns(m, v.value, map[], 0, State(0, 0, 0)); }
  }

  /** The four names of the example, and no other, are in a scorer's scope. */
  lemma NamesOfTheExample(rt: Runtime, id: string, output: string, expected: string, input: string, metadata: seq<Entry>)
    ensures (var r := Run(Machine(STANDARD, rt, ScorerScope(output, expected, input, metadata)), Name(id, Load)).result;
             && (id == "output" ==> r == Ok(Str(output)))
             && (id == "expected" ==> r == Ok(Str(expected)))
             && (id == "input" ==> r == Ok(Str(input)))
             && (id == "metadata" ==> r == Ok(Dict(metadata)))
             && (id !in {"output", "expected", "input", "metadata"} ==>
                   r == if id in V.BUILTINS then Ok(Builtin(id)) else Err(Author(UndefinedName))))
  {
    Lit.NameRuns(Machine(STANDARD, rt, ScorerScope(output, expected, input, metadata)), id, Load, map[], 0, State(0, 0, 0));
  }

  /** The methods whose templates could reach attributes are not allowed, and nothing private is. */
  lemma NoWayToAttributes(attr: string)
    requires V.Validate(ExprNode(Attribute(Constant(NoneValue), attr, Load))).None?
    ensures attr !in {"format", "format_map"} && attr != "" && attr[0] != '_'
  {
    assert attr in V.ALLOWED_METHODS;
  }
}
