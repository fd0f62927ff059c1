/**
 Limits only ever raise (shared/code_scorer.py:68-80): an evaluation that no limit stops
 is the evaluation under every larger limit, down to its step count, and with no limits
 at all no evaluation is stopped.
 */
module ScorerLimits {
  import opened Wrappers
  import opened ScorerSyntax
  import opened ScorerSemantics

  predicate Below(a: Bound, b: Bound) {
    b.Some? ==> a.Some? && a.value <= b.value
  }

  predicate Tighter(a: Limits, b: Limits) {
    && Below(a.steps, b.steps) && Below(a.depth, b.depth) && Below(a.chars, b.chars)
    && Below(a.items, b.items) && Below(a.exponent, b.exponent)
  }

  /** The same Python, except that `b`'s helpers stop no more often than `a`'s on a limit of their own. */
  ghost predicate Relaxes(a: Runtime, b: Runtime) {
    && b == a.(call := b.call)
    && forall f, args, names, vals ::
         a.call(f, args, names, vals) == b.call(f, args, names, vals) || a.call(f, args, names, vals) == Raise(ScorerLimit)
  }

  ghost predicate Laxer(a: Machine, b: Machine) {
    a.scope == b.scope && Tighter(a.lim, b.lim) && Relaxes(a.rt, b.rt)
  }

  ghost predicate Same<T(!new)>(a: Outcome<T>, b: Outcome<T>) {
    !a.result.HitLimit() ==> a == b
  }

  lemma JoinSame(a: Runtime, b: Runtime, vals: seq<Value>)
    requires Relaxes(a, b)
    ensures Join(a, vals) == Join(b, vals)
  {
  }

  lemma ApplySame(a: Machine, b: Machine, e: Expr, vals: seq<Value>, local: Env)
    requires Laxer(a, b) && Strict(e) && |vals| == |Operands(e)|
    ensures Apply(a, e, vals, local).HitLimit() || Apply(a, e, vals, local) == Apply(b, e, vals, local)
  {
    if e.JoinedStr? { JoinSame(a.rt, b.rt, vals); }
  }

  lemma {:induction false} EvalSame(a: Machine, b: Machine, e: Expr, local: Env, depth: int, st: State)
    requires Laxer(a, b)
    ensures Same(Eval(a, e, local, depth, st), Eval(b, e, local, depth, st))
    decreases e, 3
  {
    DispatchSame(a, b, e, local, depth + 1, Deepest(st.(steps := st.steps + 1), depth));
  }

  lemma {:induction false} DispatchSame(a: Machine, b: Machine, e: Expr, local: Env, depth: int, st: State)
    requires Laxer(a, b)
    ensures Same(Dispatch(a, e, local, depth, st), Dispatch(b, e, local, depth, st))
    decreases e, 2
  {
    if Strict(e) {
      StrictSame(a, b, e, local, depth, st);
    } else if e.IfExp? {
      IfSame(a, b, e, local, depth, st);
    } else if e.Logic? {
      LogicSame(a, b, e, 0, Bool(e.logic == And), local, depth, st);
    } else if e.Compare? {
      CompareSame(a, b, e, local, depth, st);
    } else if IsComprehension(e) {
      ComprehensionSame(a, b, e, local, depth, st);
    }
  }

  lemma {:induction false} StrictSame(a: Machine, b: Machine, e: Expr, local: Env, depth: int, st: State)
    requires Laxer(a, b) && Strict(e)
    ensures Same(EvalStrict(a, e, local, depth, st), EvalStrict(b, e, local, depth, st))
    decreases e, 1, |Operands(e)| + 1
  {
    EvalAllSame(a, b, e, Operands(e), [], local, depth, st);
    var o := EvalAll(a, e, Operands(e), [], local, depth, st);
    if o.result.Ok? { ApplySame(a, b, e, o.result.value, local); }
  }

  lemma {:induction false} IfSame(a: Machine, b: Machine, e: Expr, local: Env, depth: int, st: State)
    requires Laxer(a, b) && e.IfExp?
    ensures Same(EvalIf(a, e, local, depth, st), EvalIf(b, e, local, depth, st))
    decreases e, 1
  {
    EvalSame(a, b, e.test, local, depth, st);
    var o := Eval(a, e.test, local, depth, st);
    if o.result.Ok? { EvalSame(a, b, if Truthy(o.result.value) then e.body else e.orelse, local, depth, o.st); }
  }

  lemma {:induction false} CompareSame(a: Machine, b: Machine, e: Expr, local: Env, depth: int, st: State)
    requires Laxer(a, b) && e.Compare?
    ensures Same(EvalCompare(a, e, local, depth, st), EvalCompare(b, e, local, depth, st))
    decreases e, 1, |e.comparators| + 1
  {
    EvalSame(a, b, e.left, local, depth, st);
    var o := Eval(a, e.left, local, depth, st);
    if o.result.Ok? { ChainSame(a, b, e, 0, o.result.value, local, depth, o.st); }
  }

  lemma {:induction false} ComprehensionSame(a: Machine, b: Machine, e: Expr, local: Env, depth: int, st: State)
    requires Laxer(a, b) && IsComprehension(e)
    ensures Same(EvalComprehension(a, e, local, depth, st), EvalComprehension(b, e, local, depth, st))
    decreases e, 1, |e.generators| + 1
  {
    GenerateSame(a, b, e, 0, map[], NothingYet(e), local, depth, st);
  }

  lemma {:induction false} EvalAllSame(a: Machine, b: Machine, parent: Expr, es: seq<Expr>, acc: seq<Value>,
                                       local: Env, depth: int, st: State)
    requires Laxer(a, b) && |acc| <= |es| && forall i | 0 <= i < |es| :: es[i] < parent
    ensures Same(EvalAll(a, parent, es, acc, local, depth, st), EvalAll(b, parent, es, acc, local, depth, st))
    decreases parent, 1, |es| - |acc|
  {
    if |acc| < |es| {
      EvalSame(a, b, es[|acc|], local, depth, st);
      var o := Eval(a, es[|acc|], local, depth, st);
      if o.result.Ok? { EvalAllSame(a, b, parent, es, acc + [o.result.value], local, depth, o.st); }
    }
  }

  lemma {:induction false} LogicSame(a: Machine, b: Machine, e: Expr, i: nat, last: Value, local: Env, depth: int, st: State)
    requires Laxer(a, b) && e.Logic? && i <= |e.parts|
    ensures Same(EvalLogic(a, e, i, last, local, depth, st), EvalLogic(b, e, i, last, local, depth, st))
    decreases e, 1, |e.parts| - i
  {
    if i < |e.parts| {
      EvalSame(a, b, e.parts[i], local, depth, st);
      var o := Eval(a, e.parts[i], local, depth, st);
      if o.result.Ok? { LogicSame(a, b, e, i + 1, o.result.value, local, depth, o.st); }
    }
  }

  lemma {:induction false} ChainSame(a: Machine, b: Machine, e: Expr, i: nat, left: Value, local: Env, depth: int, st: State)
    requires Laxer(a, b) && e.Compare?
    ensures Same(EvalChain(a, e, i, left, local, depth, st), EvalChain(b, e, i, left, local, depth, st))
    decreases e, 1, |e.comparators| - i
  {
    if i < |e.comparators| && i < |e.ops| {
      EvalSame(a, b, e.comparators[i], local, depth, st);
      var o := Eval(a, e.comparators[i], local, depth, st);
      if o.result.Ok? {
        var right := o.result.value;
        assert ApplyCompare(a, e.ops[i], left, right) == ApplyCompare(b, e.ops[i], left, right);
        if ApplyCompare(a, e.ops[i], left, right) == Ok(true) {
          ChainSame(a, b, e, i + 1, right, local, depth, o.st);
        }
      }
    }
  }

  lemma {:induction false} GenerateSame(a: Machine, b: Machine, e: Expr, index: nat, bound: Env, g: Gathered,
                                        local: Env, depth: int, st: State)
    requires Laxer(a, b) && IsComprehension(e) && Fits(e, g) && index <= |e.generators|
    ensures Same(Generate(a, e, index, bound, g, local, depth, st), Generate(b, e, index, bound, g, local, depth, st))
    decreases e, 1, |e.generators| - index, 1, 0
  {
    if index == |e.generators| {
      YieldSame(a, b, e, bound, g, local, depth, st);
    } else {
      var iter := e.generators[index].iter;
      EvalSame(a, b, iter, local + bound, depth, st);
      var o := Eval(a, iter, local + bound, depth, st);
      if o.result.Ok? && Elements(o.result.value).Some? {
        IterateSame(a, b, e, index, bound, Elements(o.result.value).value, 0, g, local, depth, o.st);
      }
    }
  }

  lemma {:induction false} IterateSame(a: Machine, b: Machine, e: Expr, index: nat, bound: Env, items: seq<Value>, k: nat,
                                       g: Gathered, local: Env, depth: int, st: State)
    requires Laxer(a, b) && IsComprehension(e) && Fits(e, g) && index < |e.generators| && k <= |items|
    ensures Same(Iterate(a, e, index, bound, items, k, g, local, depth, st),
                 Iterate(b, e, index, bound, items, k, g, local, depth, st))
    decreases e, 1, |e.generators| - index, 0, |items| - k
  {
    if k < |items| {
      ItemSame(a, b, e, index, bound, items[k], k + 1, g, local, depth, st);
      var o := Item(a, e, index, bound, items[k], k + 1, g, local, depth, st);
      if o.result.Ok? { IterateSame(a, b, e, index, bound, items, k + 1, o.result.value, local, depth, o.st); }
    }
  }

  lemma {:induction false} ItemSame(a: Machine, b: Machine, e: Expr, index: nat, bound: Env, item: Value, count: nat,
                                    g: Gathered, local: Env, depth: int, st: State)
    requires Laxer(a, b) && IsComprehension(e) && Fits(e, g) && index < |e.generators|
    ensures Same(Item(a, e, index, bound, item, count, g, local, depth, st),
                 Item(b, e, index, bound, item, count, g, local, depth, st))
    decreases e, 1, |e.generators| - index, 0, 0, |e.generators[index].ifs| + 2
  {
    var st1 := st.(iterations := st.iterations + 1);
    if Over(count, a.lim.items) {
      assert Item(a, e, index, bound, item, count, g, local, depth, st).result == Err(Limit(ItemLimit));
    } else {
      assert !Over(count, b.lim.items);
      var scope := Bind(e.generators[index].target, item, bound);
      if scope.Ok? {
        FilterSame(a, b, e, index, scope.value, g, local, depth, st1);
        assert Item(a, e, index, bound, item, count, g, local, depth, st) == Filter(a, e, index, scope.value, g, local, depth, st1);
        assert Item(b, e, index, bound, item, count, g, local, depth, st) == Filter(b, e, index, scope.value, g, local, depth, st1);
      } else {
        assert Item(a, e, index, bound, item, count, g, local, depth, st) == Outcome(Err(scope.failure), st1);
        assert Item(b, e, index, bound, item, count, g, local, depth, st) == Outcome(Err(scope.failure), st1);
      }
    }
  }

  lemma {:induction false} FilterSame(a: Machine, b: Machine, e: Expr, index: nat, scope: Env, g: Gathered,
                                      local: Env, depth: int, st: State)
    requires Laxer(a, b) && IsComprehension(e) && Fits(e, g) && index < |e.generators|
    ensures Same(Filter(a, e, index, scope, g, local, depth, st), Filter(b, e, index, scope, g, local, depth, st))
    decreases e, 1, |e.generators| - index, 0, 0, |e.generators[index].ifs| + 1
  {
    ConditionsSame(a, b, e, index, 0, local + scope, depth, st);
    var c := Conditions(a, e, index, 0, local + scope, depth, st);
    if c.result.Ok? && c.result.value {
      GenerateSame(a, b, e, index + 1, scope, g, local, depth, c.st);
    }
  }

  lemma {:induction false} ConditionsSame(a: Machine, b: Machine, e: Expr, index: nat, i: nat, local: Env, depth: int, st: State)
    requires Laxer(a, b) && IsComprehension(e) && index < |e.generators| && i <= |e.generators[index].ifs|
    ensures Same(Conditions(a, e, index, i, local, depth, st), Conditions(b, e, index, i, local, depth, st))
    decreases e, 1, |e.generators| - index, 0, 0, |e.generators[index].ifs| - i
  {
    if i < |e.generators[index].ifs| {
      EvalSame(a, b, e.generators[index].ifs[i], local, depth, st);
      var o := Eval(a, e.generators[index].ifs[i], local, depth, st);
      if o.result.Ok? { ConditionsSame(a, b, e, index, i + 1, local, depth, o.st); }
    }
  }

  lemma {:induction false} YieldSame(a: Machine, b: Machine, e: Expr, bound: Env, g: Gathered, local: Env, depth: int, st: State)
    requires Laxer(a, b) && IsComprehension(e) && Fits(e, g)
    ensures Same(Yield(a, e, bound, g, local, depth, st), Yield(b, e, bound, g, local, depth, st))
    decreases e, 0
  {
    EvalSame(a, b, e.elt, local + bound, depth, st);
    var x := Eval(a, e.elt, local + bound, depth, st);
    if g.Pairs? { EvalSame(a, b, e.key, local + bound, depth, x.st); }
  }
}
