/**
 What a scorer's constructs do with values an author can write down (shared/code_scorer.py:297-568),
 stated on whole runs: which branch a conditional takes, what a loop visits, which
 variable a name means, which part of an item a loop variable is given.
 */
module ScorerLiterals {
  import opened Wrappers
  import opened ScorerSyntax
  import opened ScorerSemantics
  import V = ScorerValidation

  predicate Allows(bound: Bound, n: nat) {
    bound.None? || n <= bound.value
  }

  /** So many nodes may be evaluated, so deep. */
  predicate Room(m: Machine, steps: nat, depth: nat) {
    Allows(m.lim.steps, steps) && Allows(m.lim.depth, depth)
  }

  function Literals(vs: seq<Value>): (es: seq<Expr>)
    ensures |es| == |vs| && forall i | 0 <= i < |es| :: es[i] == Constant(vs[i])
  {
    seq(|vs|, i requires 0 <= i < |vs| => Constant(vs[i]))
  }

  function Spent(st: State, steps: nat, depth: int): State {
    if steps == 0 then st else Deepest(st.(steps := st.steps + steps), depth)
  }

  lemma LiteralRuns(m: Machine, v: Value, local: Env, depth: nat, st: State)
    requires Room(m, st.steps + 1, depth)
    ensures Eval(m, Constant(v), local, depth, st) == Outcome(Ok(v), Spent(st, 1, depth))
  {
    var e, st1 := Constant(v), Spent(st, 1, depth);
    assert EvalAll(m, e, [], [], local, depth + 1, st1) == Outcome(Ok([]), st1);
    assert EvalStrict(m, e, local, depth + 1, st1) == Outcome(Ok(v), st1);
    assert Dispatch(m, e, local, depth + 1, st1) == Outcome(Ok(v), st1);
  }

  lemma SpentAdds(st: State, a: nat, b: nat, depth: int)
    ensures Spent(Spent(st, a, depth), b, depth) == Spent(st, a + b, depth)
  {
  }

  lemma NextOperand(m: Machine, parent: Expr, es: seq<Expr>, acc: seq<Value>, v: Value, local: Env, depth: nat, st: State)
    requires |acc| < |es| && es[|acc|] == Constant(v) && forall i | 0 <= i < |es| :: es[i] < parent
    requires Room(m, st.steps + 1, depth)
    ensures EvalAll(m, parent, es, acc, local, depth, st) == EvalAll(m, parent, es, acc + [v], local, depth, Spent(st, 1, depth))
  {
    LiteralRuns(m, v, local, depth, st);
  }

  /** What is left to evaluate of a list of operands that begins with literals. */
  lemma {:induction false} LiteralsFirst(m: Machine, parent: Expr, es: seq<Expr>, vs: seq<Value>, local: Env, depth: nat, st: State)
    requires |vs| <= |es| && forall i | 0 <= i < |vs| :: es[i] == Constant(vs[i])
    requires forall i | 0 <= i < |es| :: es[i] < parent
    requires vs != [] ==> Room(m, st.steps + |vs|, depth)
    ensures EvalAll(m, parent, es, [], local, depth, st) == EvalAll(m, parent, es, vs, local, depth, Spent(st, |vs|, depth))
    decreases |vs|
  {
    if vs != [] {
      var k := |vs| - 1;
      var most := vs[..k];
      LiteralsFirst(m, parent, es, most, local, depth, st);
      NextOperand(m, parent, es, most, vs[k], local, depth, Spent(st, k, depth));
      SpentAdds(st, k, 1, depth);
      assert most + [vs[k]] == vs;
    }
  }

  lemma LiteralsRun(m: Machine, parent: Expr, vs: seq<Value>, local: Env, depth: nat, st: State)
    requires forall i | 0 <= i < |vs| :: Literals(vs)[i] < parent
    requires vs != [] ==> Room(m, st.steps + |vs|, depth)
    ensures EvalAll(m, parent, Literals(vs), [], local, depth, st) == Outcome(Ok(vs), Spent(st, |vs|, depth))
  {
    LiteralsFirst(m, parent, Literals(vs), vs, local, depth, st);
  }

  /** The root of a tree costs one step. */
  lemma RunIsDispatch(m: Machine, e: Expr)
    requires Room(m, 1, 0)
    ensures Run(m, e) == Dispatch(m, e, map[], 1, State(1, 0, 0))
  {
  }

  /******* Truth *******/

  /** All that Python takes for false; an iterator without a length is true even when it is empty. */
  const FALSY: set<Value> := {
    NoneValue, Bool(false), Int(0), Float(0.0), Str(""), List([]), Tuple([]), Set([]), Dict([]), Iterator([], true)
  }

  lemma TruthExactly(v: Value)
    ensures Truthy(v) <==> v !in FALSY
  {
  }

  /** A conditional evaluates one branch: `orelse` exactly if the test's value is falsy. */
  lemma ConditionalExactly(m: Machine, test: Expr, body: Expr, orelse: Expr)
    requires Room(m, 1, 0)
    ensures (var r := Run(m, IfExp(test, body, orelse)).result;
             var c := Eval(m, test, map[], 1, State(1, 0, 0));
             && (c.result.Err? ==> r == c.result)
             && (c.result.Ok? && c.result.value in FALSY ==> r == Eval(m, orelse, map[], 1, c.st).result)
             && (c.result.Ok? && c.result.value !in FALSY ==> r == Eval(m, body, map[], 1, c.st).result))
  {
    var e := IfExp(test, body, orelse);
    RunIsDispatch(m, e);
    assert Dispatch(m, e, map[], 1, State(1, 0, 0)) == EvalIf(m, e, map[], 1, State(1, 0, 0));
    var c := Eval(m, test, map[], 1, State(1, 0, 0));
    if c.result.Ok? { TruthExactly(c.result.value); }
  }

  /** `x if v else y` */
  lemma ConditionalOfLiterals(m: Machine, v: Value, x: Value, y: Value)
    requires Room(m, 3, 1)
    ensures Run(m, IfExp(Constant(v), Constant(x), Constant(y))).result == Ok(if v in FALSY then y else x)
  {
    ConditionalExactly(m, Constant(v), Constant(x), Constant(y));
    LiteralRuns(m, v, map[], 1, State(1, 0, 0));
    LiteralRuns(m, if v in FALSY then y else x, map[], 1, State(2, 0, 1));
  }

  /** `not x` is true exactly of falsy values. */
  lemma NotExactly(m: Machine, x: Expr)
    requires Room(m, 1, 0)
    ensures (var r := Run(m, Unary(Not, x)).result;
             var c := Eval(m, x, map[], 1, State(1, 0, 0)).result;
             if c.Err? then r == c else r == Ok(Bool(c.value in FALSY)))
  {
    var e, st := Unary(Not, x), State(1, 0, 0);
    DispatchCases(m, e, map[], 1, st);
    var o := Eval(m, x, map[], 1, st);
    if o.result.Ok? {
      TruthExactly(o.result.value);
      assert [] + [o.result.value] == [o.result.value];
      assert EvalAll(m, e, [x], [o.result.value], map[], 1, o.st) == Outcome(Ok([o.result.value]), o.st);
    }
    assert Operands(e) == [x];
  }

  /** `and` stops at the first falsy operand, `or` at the first other one. */
  predicate Decides(op: LogicOp, v: Value) {
    match op
    case And => v in FALSY
    case Or => v !in FALSY
  }

  lemma Passes(m: Machine, e: Expr, i: nat, v: Value, last: Value, st: State)
    requires e.Logic? && i < |e.parts| && e.parts[i] == Constant(v) && !Decides(e.logic, v)
    requires Room(m, st.steps + 1, 1)
    ensures EvalLogic(m, e, i, last, map[], 1, st) == EvalLogic(m, e, i + 1, v, map[], 1, Spent(st, 1, 1))
  {
    LiteralRuns(m, v, map[], 1, st);
    TruthExactly(v);
  }

  function LastOf(op: LogicOp, vs: seq<Value>, k: nat): Value
    requires k <= |vs|
  {
    if k == 0 then Bool(op == And) else vs[k - 1]
  }

  /** What is left of `and` or `or` whose first operands have not decided it. */
  lemma {:induction false} UndecidedRuns(m: Machine, e: Expr, vs: seq<Value>, k: nat)
    requires e.Logic? && k <= |vs| <= |e.parts| && forall j | 0 <= j < |vs| :: e.parts[j] == Constant(vs[j])
    requires forall j | 0 <= j < k :: !Decides(e.logic, vs[j])
    requires Room(m, 1 + k, 1)
    ensures Run(m, e) == EvalLogic(m, e, k, LastOf(e.logic, vs, k), map[], 1, Spent(State(1, 0, 0), k, 1))
  {
    var st := State(1, 0, 0);
    if k == 0 {
      RunIsDispatch(m, e);
    } else {
      UndecidedRuns(m, e, vs, k - 1);
      Passes(m, e, k - 1, vs[k - 1], LastOf(e.logic, vs, k - 1), Spent(st, k - 1, 1));
      SpentAdds(st, k - 1, 1, 1);
    }
  }

  /** The first deciding operand is the value, and nothing after it is evaluated, whatever it is. */
  lemma FirstDecides(m: Machine, op: LogicOp, vs: seq<Value>, rest: seq<Expr>, k: nat)
    requires k < |vs| && Decides(op, vs[k]) && forall j | 0 <= j < k :: !Decides(op, vs[j])
    requires Room(m, k + 2, 1)
    ensures Run(m, Logic(op, Literals(vs) + rest)).result == Ok(vs[k])
  {
    var e := Logic(op, Literals(vs) + rest);
    UndecidedRuns(m, e, vs, k);
    LiteralRuns(m, vs[k], map[], 1, Spent(State(1, 0, 0), k, 1));
    TruthExactly(vs[k]);
  }

  /** If none decides, the last operand is the value. */
  lemma NoneDecides(m: Machine, op: LogicOp, vs: seq<Value>)
    requires vs != [] && forall j | 0 <= j < |vs| :: !Decides(op, vs[j])
    requires Room(m, |vs| + 1, 1)
    ensures Run(m, Logic(op, Literals(vs))).result == Ok(vs[|vs| - 1])
  {
    UndecidedRuns(m, Logic(op, Literals(vs)), vs, |vs|);
  }

  /******* Names *******/

  /** What a name means where no loop binds it. */
  function Global(scope: Env, id: string): Result<Value> {
    if id in scope then Ok(scope[id]) else if id in V.BUILTINS then Ok(Builtin(id)) else Err(Author(UndefinedName))
  }

  lemma NameRuns(m: Machine, id: string, ctx: Context, local: Env, depth: nat, st: State)
    requires Room(m, st.steps + 1, depth)
    ensures (var o := Eval(m, Name(id, ctx), local, depth, st);
             && o.st == Spent(st, 1, depth)
             && o.result == if id in local then Ok(local[id]) else Global(m.scope, id))
  {
    var e, st1 := Name(id, ctx), Spent(st, 1, depth);
    DispatchCases(m, e, local, depth + 1, st1);
    assert EvalAll(m, e, [], [], local, depth + 1, st1) == Outcome(Ok([]), st1);
  }

  /** `for id in [v]` */
  function Once(id: string, v: Value): Generator {
    Generator(Name(id, Store), Constant(List([v])), [], false)
  }

  /** A loop over one value is one pass with the variable bound to it. */
  lemma OnePass(m: Machine, e: Expr, index: nat, id: string, v: Value, bound: Env, g: Gathered, local: Env, depth: nat, st: State)
    requires IsComprehension(e) && Fits(e, g) && index < |e.generators| && e.generators[index] == Once(id, v)
    requires Room(m, st.steps + 1, depth) && Allows(m.lim.items, 1)
    ensures (var st1 := Spent(st, 1, depth);
             var next := Generate(m, e, index + 1, bound[id := v], g, local, depth, st1.(iterations := st1.iterations + 1));
             Generate(m, e, index, bound, g, local, depth, st) == next)
  {
    var st1, items, scope := Spent(st, 1, depth), [v], bound[id := v];
    var st2 := st1.(iterations := st1.iterations + 1);
    LiteralRuns(m, List([v]), local + bound, depth, st);
    assert Elements(List(items)).value == items;
    assert Conditions(m, e, index, 0, local + scope, depth, st2) == Outcome(Ok(true), st2);
    var next := Generate(m, e, index + 1, scope, g, local, depth, st2);
    assert Filter(m, e, index, scope, g, local, depth, st2) == next;
    assert Item(m, e, index, bound, items[0], 1, g, local, depth, st1) == next;
    assert Iterate(m, e, index, bound, items, 0, g, local, depth, st1) == next;
  }

  /** The pass of a list comprehension's last loop gathers the element it evaluates. */
  lemma LastPass(m: Machine, e: Expr, id: string, v: Value, bound: Env, local: Env, depth: nat, st: State)
    requires e.ListComp? && e.generators != [] && e.generators[|e.generators| - 1] == Once(id, v)
    requires Room(m, st.steps + 1, depth) && Allows(m.lim.items, 1)
    ensures (var st1 := Spent(st, 1, depth);
             var x := Eval(m, e.elt, local + bound[id := v], depth, st1.(iterations := st1.iterations + 1));
             Generate(m, e, |e.generators| - 1, bound, Elems([]), local, depth, st) ==
               if x.result.Ok? then Outcome(Ok(Elems([x.result.value])), x.st) else Outcome(Err(x.result.failure), x.st))
  {
    var n, st1, scope := |e.generators|, Spent(st, 1, depth), bound[id := v];
    var st2 := st1.(iterations := st1.iterations + 1);
    OnePass(m, e, n - 1, id, v, bound, Elems([]), local, depth, st);
    assert Generate(m, e, n, scope, Elems([]), local, depth, st2) == Yield(m, e, scope, Elems([]), local, depth, st2);
    var x := Eval(m, e.elt, local + scope, depth, st2);
    if x.result.Ok? { assert [] + [x.result.value] == [x.result.value]; }
  }

  /** `[elt for id in [v]]` */
  lemma SingleLoop(m: Machine, elt: Expr, id: string, v: Value, local: Env, depth: nat, st: State)
    requires Room(m, st.steps + 2, depth + 1) && Allows(m.lim.items, 1)
    ensures (var st1 := Spent(Spent(st, 1, depth), 1, depth + 1);
             var x := Eval(m, elt, local[id := v], depth + 1, st1.(iterations := st1.iterations + 1));
             Eval(m, ListComp(elt, [Once(id, v)]), local, depth, st) ==
               if x.result.Ok? then Outcome(Ok(List([x.result.value])), x.st) else x)
  {
    var e, st1, none: Env := ListComp(elt, [Once(id, v)]), Spent(st, 1, depth), map[];
    assert Eval(m, e, local, depth, st) == Dispatch(m, e, local, depth + 1, st1);
    DispatchCases(m, e, local, depth + 1, st1);
    assert local + none[id := v] == local[id := v];
    LastPass(m, e, id, v, none, local, depth + 1, st1);
  }

  /** What a name means inside `for a in [v]` and, within that, `for b in [w]`: the innermost variable of that name. */
  function Innermost(scope: Env, a: string, v: Value, b: string, w: Value, id: string): Result<Value> {
    if id == b then Ok(w) else if id == a then Ok(v) else Global(scope, id)
  }

  /** `[id for a in [v] for b in [w]]` */
  lemma LoopVariablesShadow(m: Machine, a: string, v: Value, b: string, w: Value, id: string)
    requires Room(m, 4, 1) && Allows(m.lim.items, 1)
    ensures (var r := Run(m, ListComp(Name(id, Load), [Once(a, v), Once(b, w)])).result;
             var x := Innermost(m.scope, a, v, b, w, id);
             r == if x.Ok? then Ok(List([x.value])) else Err(x.failure))
  {
    var e, st, none: Env := ListComp(Name(id, Load), [Once(a, v), Once(b, w)]), State(1, 0, 0), map[];
    DispatchCases(m, e, none, 1, st);
    var outer, bound := none[a := v], none[a := v][b := w];
    assert none + bound == bound;
    OnePass(m, e, 0, a, v, none, Elems([]), none, 1, st);
    LastPass(m, e, b, w, outer, none, 1, State(2, 1, 1));
    NameRuns(m, id, Load, bound, 1, State(3, 2, 1));
  }

  /** `[[id for b in [w]] for a in [v]]`: the loops of an inner comprehension come before those around it. */
  lemma InnerComprehensionShadows(m: Machine, a: string, v: Value, b: string, w: Value, id: string)
    requires Room(m, 5, 2) && Allows(m.lim.items, 1)
    ensures (var r := Run(m, ListComp(ListComp(Name(id, Load), [Once(b, w)]), [Once(a, v)])).result;
             var x := Innermost(m.scope, a, v, b, w, id);
             r == if x.Ok? then Ok(List([List([x.value])])) else Err(x.failure))
  {
    var none: Env := map[];
    SingleLoop(m, ListComp(Name(id, Load), [Once(b, w)]), a, v, none, 0, State(0, 0, 0));
    SingleLoop(m, Name(id, Load), b, w, none[a := v], 1, State(2, 1, 1));
    NameRuns(m, id, Load, none[a := v][b := w], 2, State(4, 2, 2));
  }
}
