/**
 The interpreter as the code writes it (shared/code_scorer.py:297-568): an object whose
 `steps` field every visit bumps, one method for each kind of node, and loops over
 operands, conditions and items. Each method is proved to compute the semantics.
 */
module ScorerInterpreter {
  import opened Wrappers
  import opened ScorerSyntax
  import opened ScorerSemantics
  import V = ScorerValidation

  class Interpreter {
    const m: Machine  // the scope, the limits and Python
    var steps: nat
    ghost var iterations: nat
    ghost var deepest: int

    constructor (lim: Limits, rt: Runtime, scope: Env)
      ensures m == Machine(lim, rt, scope) && Counters() == State(0, 0, 0)
    {
      m := Machine(lim, rt, scope);
      steps, iterations, deepest := 0, 0, 0;
    }

    ghost function Counters(): State
      reads this
    {
      State(steps, iterations, deepest)
    }

    method Evaluate(tree: Expr) returns (r: Result<Value>)
      requires Counters() == State(0, 0, 0)
      modifies this
      ensures Outcome(r, Counters()) == Run(m, tree)
    {
      r := Visit(tree, map[], 0);
    }

    method Visit(e: Expr, local: Env, depth: int) returns (r: Result<Value>)
      modifies this
      ensures Outcome(r, Counters()) == Eval(m, e, local, depth, old(Counters()))
      decreases e, 3
    {
      steps := steps + 1;
      if Over(steps, m.lim.steps) {
        return Err(Limit(StepLimit));
      }
      if Over(depth, m.lim.depth) {
        return Err(Limit(DepthLimit));
      }
      deepest := if depth > deepest then depth else deepest;
      r := DoNode(e, local, depth + 1);
    }

    /** The method of the node's type, if there is one. */
    method DoNode(e: Expr, local: Env, depth: int) returns (r: Result<Value>)
      modifies this
      ensures Outcome(r, Counters()) == Dispatch(m, e, local, depth, old(Counters()))
      decreases e, 2
    {
      if Strict(e) {
        r := DoStrict(e, local, depth);
      } else if e.IfExp? {
        r := DoIfExp(e, local, depth);
      } else if e.Logic? {
        r := DoBoolOp(e, local, depth);
      } else if e.Compare? {
        r := DoCompare(e, local, depth);
      } else if IsComprehension(e) {
        r := DoComprehension(e, local, depth);
      } else {
        r := Err(Dead(NodeNotSupported));
      }
    }

    /** `[self.eval(e) for e in es]` */
    method VisitEach(ghost parent: Expr, es: seq<Expr>, local: Env, depth: int) returns (r: Result<seq<Value>>)
      requires forall i | 0 <= i < |es| :: es[i] < parent
      modifies this
      ensures Outcome(r, Counters()) == EvalAll(m, parent, es, [], local, depth, old(Counters()))
      decreases parent, 0
    {
      var vals: seq<Value> := [];
      while |vals| < |es|
        invariant |vals| <= |es|
        invariant EvalAll(m, parent, es, vals, local, depth, Counters()) == EvalAll(m, parent, es, [], local, depth, old(Counters()))
      {
        var v := Visit(es[|vals|], local, depth);
        if v.Err? {
          return Err(v.failure);
        }
        vals := vals + [v.value];
      }
      r := Ok(vals);
    }

    method DoStrict(e: Expr, local: Env, depth: int) returns (r: Result<Value>)
      requires Strict(e)
      modifies this
      ensures Outcome(r, Counters()) == EvalStrict(m, e, local, depth, old(Counters()))
      decreases e, 1, 2
    {
      match e
      case Constant(v) => r := Ok(v);
      case Name(id, _) => r := Lookup(m, id, local);
      case ListDisplay(es, _) => r := DoSequence(e, es, local, depth);
      case TupleDisplay(es, _) => r := DoSequence(e, es, local, depth);
      case SetDisplay(es) => r := DoSequence(e, es, local, depth);
      case DictDisplay(ks, vs) => r := DoDict(e, local, depth);
      case JoinedStr(ps) => r := DoSequence(e, ps, local, depth);
      case FormattedValue(_, _, _) => r := DoFormattedValue(e, local, depth);
      case Binary(_, _, _) => r := DoBinOp(e, local, depth);
      case Unary(_, _) => r := DoUnaryOp(e, local, depth);
      case Subscript(_, _, _) => r := DoSubscript(e, local, depth);
      case Slice(_, _, _) => r := DoSlice(e, local, depth);
      case Attribute(_, _, _) => r := DoAttribute(e, local, depth);
      case Call(_, _, _) => r := DoCall(e, local, depth);
    }

    /** `_do_List`, `_do_Tuple`, `_do_Set` and `_do_JoinedStr` */
    method DoSequence(e: Expr, es: seq<Expr>, local: Env, depth: int) returns (r: Result<Value>)
      requires e.ListDisplay? || e.TupleDisplay? || e.SetDisplay? || e.JoinedStr?
      requires es == Operands(e)
      modifies this
      ensures Outcome(r, Counters()) == EvalStrict(m, e, local, depth, old(Counters()))
      decreases e, 1, 1
    {
      var vals := VisitEach(e, es, local, depth);
      if vals.Err? {
        return Err(vals.failure);
      }
      match e
      case ListDisplay(_, _) => r := Sized(m.lim, |vals.value|, List(vals.value));
      case TupleDisplay(_, _) => r := Sized(m.lim, |vals.value|, Tuple(vals.value));
      case SetDisplay(_) => r := MakeSet(Sized(m.lim, |vals.value|, List(vals.value)));
      case JoinedStr(_) => r := SizedText(m.lim, Join(m.rt, vals.value));
    }

    method DoDict(e: Expr, local: Env, depth: int) returns (r: Result<Value>)
      requires e.DictDisplay?
      modifies this
      ensures Outcome(r, Counters()) == EvalStrict(m, e, local, depth, old(Counters()))
      decreases e, 1, 1
    {
      PresentBelow(e.keys, e);
      ghost var st := Counters();
      EvalAllAppend(m, e, Present(e.keys), e.values, local, depth, st);
      var keys := VisitEach(e, Present(e.keys), local, depth);
      if keys.Err? {
        return Err(keys.failure);
      }
      var vals := VisitEach(e, e.values, local, depth);
      if vals.Err? {
        return Err(vals.failure);
      }
      r := ApplyDict(m, keys.value, vals.value);
      Splits(keys.value, vals.value);
    }

    method DoFormattedValue(e: Expr, local: Env, depth: int) returns (r: Result<Value>)
      requires e.FormattedValue?
      modifies this
      ensures Outcome(r, Counters()) == EvalStrict(m, e, local, depth, old(Counters()))
      decreases e, 1, 1
    {
      if e.formatSpec.Some? {
        return Err(Author(FormatSpecifier));
      }
      EvalOne(m, e, e.operand, local, depth, Counters());
      var v := Visit(e.operand, local, depth);
      r := if v.Err? then v else Ok(Str(Convert(m.rt, e.conversion, v.value)));
    }

    method DoBinOp(e: Expr, local: Env, depth: int) returns (r: Result<Value>)
      requires e.Binary?
      modifies this
      ensures Outcome(r, Counters()) == EvalStrict(m, e, local, depth, old(Counters()))
      decreases e, 1, 1
    {
      EvalTwo(m, e, e.left, e.right, local, depth, Counters());
      var left := Visit(e.left, local, depth);
      if left.Err? {
        return left;
      }
      var right := Visit(e.right, local, depth);
      if right.Err? {
        return right;
      }
      r := ApplyBinary(m, e.binop, left.value, right.value);
    }

    method DoUnaryOp(e: Expr, local: Env, depth: int) returns (r: Result<Value>)
      requires e.Unary?
      modifies this
      ensures Outcome(r, Counters()) == EvalStrict(m, e, local, depth, old(Counters()))
      decreases e, 1, 1
    {
      EvalOne(m, e, e.operand, local, depth, Counters());
      var v := Visit(e.operand, local, depth);
      r := if v.Err? then v else ApplyUnary(m, e.unop, v.value);
    }

    /** Returns the first operand that decides the outcome, or the last one. */
    method DoBoolOp(e: Expr, local: Env, depth: int) returns (r: Result<Value>)
      requires e.Logic?
      modifies this
      ensures Outcome(r, Counters()) == EvalLogic(m, e, 0, Bool(e.logic == And), local, depth, old(Counters()))
      decreases e, 1, 1
    {
      var result := Bool(e.logic == And);
      var i := 0;
      while i < |e.parts|
        invariant i <= |e.parts|
        invariant EvalLogic(m, e, i, result, local, depth, Counters())
          == EvalLogic(m, e, 0, Bool(e.logic == And), local, depth, old(Counters()))
      {
        var v := Visit(e.parts[i], local, depth);
        if v.Err? || Truthy(v.value) != (e.logic == And) {
          return v;
        }
        result := v.value;
        i := i + 1;
      }
      r := Ok(result);
    }

    method DoCompare(e: Expr, local: Env, depth: int) returns (r: Result<Value>)
      requires e.Compare?
      modifies this
      ensures Outcome(r, Counters()) == EvalCompare(m, e, local, depth, old(Counters()))
      decreases e, 1, 1
    {
      var first := Visit(e.left, local, depth);
      if first.Err? {
        return first;
      }
      var left, i := first.value, 0;
      while i < |e.comparators| && i < |e.ops|
        invariant EvalChain(m, e, i, left, local, depth, Counters()) == EvalCompare(m, e, local, depth, old(Counters()))
        decreases |e.comparators| - i
      {
        var right := Visit(e.comparators[i], local, depth);
        if right.Err? {
          return right;
        }
        var ok := ApplyCompare(m, e.ops[i], left, right.value);
        if ok.Err? {
          return Err(ok.failure);
        }
        if !ok.value {
          return Ok(Bool(false));
        }
        left, i := right.value, i + 1;
      }
      r := Ok(Bool(true));
    }

    method DoIfExp(e: Expr, local: Env, depth: int) returns (r: Result<Value>)
      requires e.IfExp?
      modifies this
      ensures Outcome(r, Counters()) == EvalIf(m, e, local, depth, old(Counters()))
      decreases e, 1, 1
    {
      var test := Visit(e.test, local, depth);
      if test.Err? {
        return test;
      }
      r := Visit(if Truthy(test.value) then e.body else e.orelse, local, depth);
    }

    method DoSubscript(e: Expr, local: Env, depth: int) returns (r: Result<Value>)
      requires e.Subscript?
      modifies this
      ensures Outcome(r, Counters()) == EvalStrict(m, e, local, depth, old(Counters()))
      decreases e, 1, 1
    {
      EvalTwo(m, e, e.operand, e.index, local, depth, Counters());
      var value := Visit(e.operand, local, depth);
      if value.Err? {
        return value;
      }
      var key := Visit(e.index, local, depth);
      if key.Err? {
        return key;
      }
      r := ApplyIndex(m, value.value, key.value);
    }

    method DoSlice(e: Expr, local: Env, depth: int) returns (r: Result<Value>)
      requires e.Slice?
      modifies this
      ensures Outcome(r, Counters()) == EvalStrict(m, e, local, depth, old(Counters()))
      decreases e, 1, 1
    {
      var os := [e.lower, e.upper, e.step];
      PresentBelow(os, e);
      var vals := VisitEach(e, Present(os), local, depth);
      if vals.Err? {
        return Err(vals.failure);
      }
      var p := Places(os, vals.value);
      r := Ok(SliceOf(p[0], p[1], p[2]));
    }

    method DoAttribute(e: Expr, local: Env, depth: int) returns (r: Result<Value>)
      requires e.Attribute?
      modifies this
      ensures Outcome(r, Counters()) == EvalStrict(m, e, local, depth, old(Counters()))
      decreases e, 1, 1
    {
      if e.attr !in V.ALLOWED_METHODS {
        return Err(Dead(MethodNotAllowed));
      }
      EvalOne(m, e, e.operand, local, depth, Counters());
      var target := Visit(e.operand, local, depth);
      if target.Err? {
        return target;
      }
      r := if m.rt.hasMethod(target.value, e.attr) then Ok(Method(target.value, e.attr)) else Err(Author(NoSuchMethod));
    }

    method DoCall(e: Expr, local: Env, depth: int) returns (r: Result<Value>)
      requires e.Call?
      modifies this
      ensures Outcome(r, Counters()) == EvalStrict(m, e, local, depth, old(Counters()))
      decreases e, 1, 1
    {
      ghost var kws := KeywordValues(e.keywords);
      ghost var st := Counters();
      EvalAllAppend(m, e, [e.func] + e.args, kws, local, depth, st);
      EvalAllAppend(m, e, [e.func], e.args, local, depth, st);
      EvalOne(m, e, e.func, local, depth, st);
      var func := Visit(e.func, local, depth);
      if func.Err? {
        return func;
      }
      var args := VisitEach(e, e.args, local, depth);
      if args.Err? {
        return Err(args.failure);
      }
      var vals := VisitEach(e, KeywordValues(e.keywords), local, depth);
      if vals.Err? {
        return Err(vals.failure);
      }
      r := ApplyCall(m, func.value, args.value, KeywordNames(e.keywords), vals.value);
      assert ([func.value] + args.value + vals.value)[1..1 + |e.args|] == args.value;
      assert ([func.value] + args.value + vals.value)[1 + |e.args|..] == vals.value;
    }

    /** `_do_ListComp`, `_do_SetComp`, `_do_GeneratorExp` and `_do_DictComp` */
    method DoComprehension(e: Expr, local: Env, depth: int) returns (r: Result<Value>)
      requires IsComprehension(e)
      modifies this
      ensures Outcome(r, Counters()) == EvalComprehension(m, e, local, depth, old(Counters()))
      decreases e, 1, 1 + |e.generators|
    {
      var g := DoGenerators(e, 0, map[], NothingYet(e), local, depth);
      r := if g.Err? then Err(g.failure) else Finish(m.lim, e, g.value);
    }

    /** The generators from `index` on; the innermost one runs the comprehension's body. */
    method DoGenerators(e: Expr, index: nat, bound: Env, start: Gathered, local: Env, depth: int) returns (r: Result<Gathered>)
      requires IsComprehension(e) && Fits(e, start) && index <= |e.generators|
      modifies this
      ensures Outcome(r, Counters()) == Generate(m, e, index, bound, start, local, depth, old(Counters()))
      ensures r.Ok? ==> Fits(e, r.value)
      decreases e, 1, |e.generators| - index
    {
      if index == |e.generators| {
        r := DoBody(e, bound, start, local, depth);
        return;
      }
      if e.generators[index].isAsync {
        return Err(Dead(AsyncNotAllowed));
      }
      var iterable := Visit(e.generators[index].iter, local + bound, depth);
      if iterable.Err? {
        return Err(iterable.failure);
      }
      var elements := Elements(iterable.value);
      if elements.None? {
        return Err(Escaped);
      }
      var items, count, g := elements.value, 0, start;
      while count < |items|
        invariant 0 <= count <= |items| && Fits(e, g)
        invariant Iterate(m, e, index, bound, items, count, g, local, depth, Counters())
          == Generate(m, e, index, bound, start, local, depth, old(Counters()))
      {
        var item := items[count];
        count := count + 1;
        var step := DoItem(e, index, bound, item, count, g, local, depth);
        if step.Err? {
          return step;
        }
        g := step.value;
      }
      r := Ok(g);
    }

    /** One pass of the loop: bind the targets, test the conditions, go on inwards. */
    method DoItem(e: Expr, index: nat, bound: Env, item: Value, count: nat, g: Gathered, local: Env, depth: int)
      returns (r: Result<Gathered>)
      requires IsComprehension(e) && Fits(e, g) && index < |e.generators|
      modifies this
      ensures Outcome(r, Counters()) == Item(m, e, index, bound, item, count, g, local, depth, old(Counters()))
      ensures r.Ok? ==> Fits(e, r.value)
      decreases e, 1, |e.generators| - index, 0
    {
      iterations := iterations + 1;
      if Over(count, m.lim.items) {
        return Err(Limit(ItemLimit));
      }
      var scope := Bind(e.generators[index].target, item, bound);
      if scope.Err? {
        return Err(scope.failure);
      }
      r := DoFilter(e, index, scope.value, g, local, depth);
    }

    method DoFilter(e: Expr, index: nat, scope: Env, g: Gathered, local: Env, depth: int) returns (r: Result<Gathered>)
      requires IsComprehension(e) && Fits(e, g) && index < |e.generators|
      modifies this
      ensures Outcome(r, Counters()) == Filter(m, e, index, scope, g, local, depth, old(Counters()))
      ensures r.Ok? ==> Fits(e, r.value)
      decreases e, 1, |e.generators| - index, 0, 0
    {
      var passed := DoConditions(e, index, local + scope, depth);
      if passed.Err? {
        return Err(passed.failure);
      }
      if !passed.value {
        return Ok(g);
      }
      r := DoGenerators(e, index + 1, scope, g, local, depth);
    }

    /** `all(self.eval(c) for c in gen.ifs)` */
    method DoConditions(e: Expr, index: nat, local: Env, depth: int) returns (r: Result<bool>)
      requires IsComprehension(e) && index < |e.generators|
      modifies this
      ensures Outcome(r, Counters()) == Conditions(m, e, index, 0, local, depth, old(Counters()))
      decreases e, 0
    {
      var i := 0;
      while i < |e.generators[index].ifs|
        invariant i <= |e.generators[index].ifs|
        invariant Conditions(m, e, index, i, local, depth, Counters()) == Conditions(m, e, index, 0, local, depth, old(Counters()))
      {
        var v := Visit(e.generators[index].ifs[i], local, depth);
        if v.Err? {
          return Err(v.failure);
        }
        if !Truthy(v.value) {
          return Ok(false);
        }
        i := i + 1;
      }
      r := Ok(true);
    }

    method DoBody(e: Expr, bound: Env, g: Gathered, local: Env, depth: int) returns (r: Result<Gathered>)
      requires IsComprehension(e) && Fits(e, g)
      modifies this
      ensures Outcome(r, Counters()) == Yield(m, e, bound, g, local, depth, old(Counters()))
      decreases e, 0
    {
      var x := Visit(e.elt, local + bound, depth);
      if x.Err? {
        return Err(x.failure);
      }
      if g.Elems? {
        return Ok(Elems(g.elems + [x.value]));
      }
      var k := Visit(e.key, local + bound, depth);
      if k.Err? {
        return Err(k.failure);
      }
      r := StorePair(m.lim, g.pairs, k.value, x.value);
    }
  }

  /******* Operand lists taken apart *******/

  lemma EvalOne(m: Machine, parent: Expr, x: Expr, local: Env, depth: int, st: State)
    requires x < parent
    ensures var o := Eval(m, x, local, depth, st);
      EvalAll(m, parent, [x], [], local, depth, st)
        == if o.result.Err? then Outcome(Err(o.result.failure), o.st) else Outcome(Ok([o.result.value]), o.st)
  {
    var o := Eval(m, x, local, depth, st);
    if o.result.Ok? { assert [] + [o.result.value] == [o.result.value]; }
  }

  lemma EvalTwo(m: Machine, parent: Expr, x: Expr, y: Expr, local: Env, depth: int, st: State)
    requires x < parent && y < parent
    ensures var o := Eval(m, x, local, depth, st);
      EvalAll(m, parent, [x, y], [], local, depth, st) ==
        if o.result.Err? then Outcome(Err(o.result.failure), o.st) else
        var p := Eval(m, y, local, depth, o.st);
        if p.result.Err? then Outcome(Err(p.result.failure), p.st) else Outcome(Ok([o.result.value, p.result.value]), p.st)
  {
    assert [x, y] == [x] + [y];
    EvalAllAppend(m, parent, [x], [y], local, depth, st);
    EvalOne(m, parent, x, local, depth, st);
    var o := Eval(m, x, local, depth, st);
    if o.result.Ok? {
      EvalOne(m, parent, y, local, depth, o.st);
      var p := Eval(m, y, local, depth, o.st);
      if p.result.Ok? { assert [o.result.value] + [p.result.value] == [o.result.value, p.result.value]; }
    }
  }

  /** Evaluating a concatenation: the first part, then the second in the state it leaves. */
  lemma EvalAllAppend(m: Machine, parent: Expr, xs: seq<Expr>, ys: seq<Expr>, local: Env, depth: int, st: State)
    requires forall i | 0 <= i < |xs| :: xs[i] < parent
    requires forall i | 0 <= i < |ys| :: ys[i] < parent
    ensures var o := EvalAll(m, parent, xs, [], local, depth, st);
      EvalAll(m, parent, xs + ys, [], local, depth, st) ==
        if o.result.Err? then o else
        var p := EvalAll(m, parent, ys, [], local, depth, o.st);
        if p.result.Err? then p else Outcome(Ok(o.result.value + p.result.value), p.st)
  {
    FirstPart(m, parent, xs, ys, [], local, depth, st);
    var o := EvalAll(m, parent, xs, [], local, depth, st);
    if o.result.Ok? {
      assert o.result.value + [] == o.result.value;
      SecondPart(m, parent, xs, ys, o.result.value, [], local, depth, o.st);
    }
  }

  lemma {:induction false} FirstPart(m: Machine, parent: Expr, xs: seq<Expr>, ys: seq<Expr>, acc: seq<Value>, local: Env, depth: int, st: State)
    requires forall i | 0 <= i < |xs| :: xs[i] < parent
    requires forall i | 0 <= i < |ys| :: ys[i] < parent
    requires |acc| <= |xs|
    ensures var o := EvalAll(m, parent, xs, acc, local, depth, st);
      EvalAll(m, parent, xs + ys, acc, local, depth, st) ==
        if o.result.Err? then o else EvalAll(m, parent, xs + ys, o.result.value, local, depth, o.st)
    decreases |xs| - |acc|
  {
    if |acc| < |xs| {
      assert (xs + ys)[|acc|] == xs[|acc|];
      var o := Eval(m, xs[|acc|], local, depth, st);
      if o.result.Ok? { FirstPart(m, parent, xs, ys, acc + [o.result.value], local, depth, o.st); }
    }
  }

  lemma {:induction false} SecondPart(m: Machine, parent: Expr, xs: seq<Expr>, ys: seq<Expr>, pre: seq<Value>, acc: seq<Value>,
                                      local: Env, depth: int, st: State)
    requires forall i | 0 <= i < |xs| :: xs[i] < parent
    requires forall i | 0 <= i < |ys| :: ys[i] < parent
    requires |pre| == |xs| && |acc| <= |ys|
    ensures var o := EvalAll(m, parent, ys, acc, local, depth, st);
      EvalAll(m, parent, xs + ys, pre + acc, local, depth, st) ==
        if o.result.Err? then o else Outcome(Ok(pre + o.result.value), o.st)
    decreases |ys| - |acc|
  {
    if |acc| < |ys| {
      assert (xs + ys)[|pre + acc|] == ys[|acc|];
      var o := Eval(m, ys[|acc|], local, depth, st);
      if o.result.Ok? {
        SecondPart(m, parent, xs, ys, pre, acc + [o.result.value], local, depth, o.st);
        assert pre + (acc + [o.result.value]) == pre + acc + [o.result.value];
      }
    } else {
      assert acc == EvalAll(m, parent, ys, acc, local, depth, st).result.value;
    }
  }

  lemma Splits<T>(a: seq<T>, b: seq<T>)
    ensures (a + b)[..|a|] == a && (a + b)[|a|..] == b
  {
  }
}
