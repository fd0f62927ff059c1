/**
 An independent meaning of scorers: Python's evaluation rules with no counters, no
 depth and no limits, in which a comprehension first lists the scopes of all its
 combinations and then evaluates its body in each. The interpreter instead interleaves
 the two (shared/code_scorer.py:491-547); the lemmas here connect them.
 */
module ScorerReference {
  import opened Wrappers
  import opened ScorerSyntax
  import opened ScorerSemantics
  import L = ScorerLimits

  /** Displays without `**`: there Python merges a dictionary, and the interpreter does not. */
  predicate Plain(n: Node) {
    n.ExprNode? && n.expr.DictDisplay? ==>
      |n.expr.keys| == |n.expr.values| && forall i | 0 <= i < |n.expr.keys| :: n.expr.keys[i].Some?
  }

  function Free(rt: Runtime, scope: Env): Machine {
    Machine(UNLIMITED, rt, scope)
  }

  /******* The reference *******/

  function Meaning(m: Machine, e: Expr, local: Env): Result<Value>
    decreases e, 3
  {
    if Strict(e) then StrictMeaning(m, e, local)
    else if e.IfExp? then IfMeaning(m, e, local)
    else if e.Logic? then LogicMeaning(m, e, 0, Bool(e.logic == And), local)
    else if e.Compare? then CompareMeaning(m, e, local)
    else if IsComprehension(e) then ComprehensionMeaning(m, e, local)
    else Err(Dead(NodeNotSupported))
  }

  function StrictMeaning(m: Machine, e: Expr, local: Env): Result<Value>
    requires Strict(e)
    decreases e, 2, |Operands(e)| + 1
  {
    if e.DictDisplay? && |e.keys| == |e.values| then DictMeaning(m, e, 0, [], local)
    else if Precheck(e).Some? then Err(Precheck(e).value) else
    var vals := All(m, e, Operands(e), local);
    if vals.Err? then Err(vals.failure) else Apply(m, e, vals.value, local)
  }

  function IfMeaning(m: Machine, e: Expr, local: Env): Result<Value>
    requires e.IfExp?
    decreases e, 2
  {
    var t := Meaning(m, e.test, local);
    if t.Err? then t else if Truthy(t.value) then Meaning(m, e.body, local) else Meaning(m, e.orelse, local)
  }

  function CompareMeaning(m: Machine, e: Expr, local: Env): Result<Value>
    requires e.Compare?
    decreases e, 2, |e.comparators| + 1
  {
    var l := Meaning(m, e.left, local);
    if l.Err? then l else ChainMeaning(m, e, 0, l.value, local)
  }

  /** First all scopes, then all bodies. */
  function ComprehensionMeaning(m: Machine, e: Expr, local: Env): Result<Value>
    requires IsComprehension(e)
    decreases e, 2, |e.generators| + 1
  {
    var g := Gathering(m, e, Scopes(m, e, 0, map[], local), NothingYet(e), local);
    if g.Err? then Err(g.failure) else Finish(m.lim, e, g.value)
  }

  function All(m: Machine, ghost parent: Expr, es: seq<Expr>, local: Env): (r: Result<seq<Value>>)
    requires forall i | 0 <= i < |es| :: es[i] < parent
    ensures r.Ok? ==> |r.value| == |es|
    decreases parent, 2, |es|
  {
    if es == [] then Ok([]) else
    var v := Meaning(m, es[0], local);
    if v.Err? then Err(v.failure) else
    var rest := All(m, parent, es[1..], local);
    if rest.Err? then rest else Ok([v.value] + rest.value)
  }

  /** Key by key, merging the dictionaries behind `**`. */
  function DictMeaning(m: Machine, e: Expr, i: nat, es: seq<Entry>, local: Env): Result<Value>
    requires e.DictDisplay? && |e.keys| == |e.values| && i <= |e.keys|
    decreases e, 1, |e.keys| - i
  {
    if i == |e.keys| then Ok(Dict(es)) else
    var v := Meaning(m, e.values[i], local);
    if e.keys[i].None? then
      if v.Err? then v
      else if !v.value.Dict? then Err(Escaped)
      else DictMeaning(m, e, i + 1, Merge(es, v.value.entries), local)
    else
      var k := Meaning(m, e.keys[i].value, local);
      if k.Err? then k else if v.Err? then v
      else if !Hashable(k.value) then Err(Escaped)
      else DictMeaning(m, e, i + 1, Put(es, k.value, v.value), local)
  }

  function Merge(es: seq<Entry>, more: seq<Entry>): seq<Entry>
    decreases |more|
  {
    if more == [] then es else Merge(Put(es, more[0].key, more[0].value), more[1..])
  }

  function LogicMeaning(m: Machine, e: Expr, i: nat, last: Value, local: Env): Result<Value>
    requires e.Logic? && i <= |e.parts|
    decreases e, 2, |e.parts| - i
  {
    if i == |e.parts| then Ok(last) else
    var v := Meaning(m, e.parts[i], local);
    if v.Err? || Truthy(v.value) != (e.logic == And) then v else LogicMeaning(m, e, i + 1, v.value, local)
  }

  function ChainMeaning(m: Machine, e: Expr, i: nat, left: Value, local: Env): Result<Value>
    requires e.Compare?
    decreases e, 2, |e.comparators| - i
  {
    if i >= |e.comparators| || i >= |e.ops| then Ok(Bool(true)) else
    var v := Meaning(m, e.comparators[i], local);
    if v.Err? then v else
    match ApplyCompare(m, e.ops[i], left, v.value)
    case Err(f) => Err(f)
    case Ok(false) => Ok(Bool(false))
    case Ok(true) => ChainMeaning(m, e, i + 1, v.value, local)
  }

  /** The scope of every combination of the generators from `index` on, in order. */
  function Scopes(m: Machine, e: Expr, index: nat, bound: Env, local: Env): Result<seq<Env>>
    requires IsComprehension(e) && index <= |e.generators|
    decreases e, 2, |e.generators| - index, 1, 0
  {
    if index == |e.generators| then Ok([bound])
    else if e.generators[index].isAsync then Err(Dead(AsyncNotAllowed)) else
    var v := Meaning(m, e.generators[index].iter, local + bound);
    if v.Err? then Err(v.failure) else
    match Elements(v.value)
    case None => Err(Escaped)
    case Some(items) => ItemScopes(m, e, index, bound, items, 0, local)
  }

  function ItemScopes(m: Machine, e: Expr, index: nat, bound: Env, items: seq<Value>, k: nat, local: Env): Result<seq<Env>>
    requires IsComprehension(e) && index < |e.generators| && k <= |items|
    decreases e, 2, |e.generators| - index, 0, |items| - k
  {
    if k == |items| then Ok([]) else
    var here := OneItem(m, e, index, bound, items[k], local);
    if here.Err? then here else
    var rest := ItemScopes(m, e, index, bound, items, k + 1, local);
    if rest.Err? then rest else Ok(here.value + rest.value)
  }

  function OneItem(m: Machine, e: Expr, index: nat, bound: Env, item: Value, local: Env): Result<seq<Env>>
    requires IsComprehension(e) && index < |e.generators|
    decreases e, 2, |e.generators| - index, 0, 0, |e.generators[index].ifs| + 2
  {
    match Bind(e.generators[index].target, item, bound)
    case Err(f) => Err(f)
    case Ok(scope) => Passing(m, e, index, scope, local)
  }

  function Passing(m: Machine, e: Expr, index: nat, scope: Env, local: Env): Result<seq<Env>>
    requires IsComprehension(e) && index < |e.generators|
    decreases e, 2, |e.generators| - index, 0, 0, |e.generators[index].ifs| + 1
  {
    var c := Holds(m, e, index, 0, local + scope);
    if c.Err? then Err(c.failure)
    else if c.value then Scopes(m, e, index + 1, scope, local)
    else Ok([])
  }

  function Holds(m: Machine, e: Expr, index: nat, i: nat, local: Env): Result<bool>
    requires IsComprehension(e) && index < |e.generators| && i <= |e.generators[index].ifs|
    decreases e, 2, |e.generators| - index, 0, 0, |e.generators[index].ifs| - i
  {
    if i == |e.generators[index].ifs| then Ok(true) else
    var v := Meaning(m, e.generators[index].ifs[i], local);
    if v.Err? then Err(v.failure)
    else if !Truthy(v.value) then Ok(false)
    else Holds(m, e, index, i + 1, local)
  }

  /** The body in one scope. */
  function Body(m: Machine, e: Expr, bound: Env, g: Gathered, local: Env): (r: Result<Gathered>)
    requires IsComprehension(e) && Fits(e, g)
    ensures r.Ok? ==> Fits(e, r.value)
    decreases e, 0
  {
    var x := Meaning(m, e.elt, local + bound);
    if x.Err? then Err(x.failure)
    else if g.Elems? then Ok(Elems(g.elems + [x.value])) else
    var k := Meaning(m, e.key, local + bound);
    if k.Err? then Err(k.failure) else StorePair(m.lim, g.pairs, k.value, x.value)
  }

  function Bodies(m: Machine, e: Expr, scopes: seq<Env>, g: Gathered, local: Env): (r: Result<Gathered>)
    requires IsComprehension(e) && Fits(e, g)
    ensures r.Ok? ==> Fits(e, r.value)
    decreases e, 1, |scopes|
  {
    if scopes == [] then Ok(g) else
    var first := Body(m, e, scopes[0], g, local);
    if first.Err? then first else Bodies(m, e, scopes[1..], first.value, local)
  }

  function Gathering(m: Machine, e: Expr, scopes: Result<seq<Env>>, g: Gathered, local: Env): (r: Result<Gathered>)
    requires IsComprehension(e) && Fits(e, g)
    ensures r.Ok? ==> Fits(e, r.value)
    decreases e, 2, 0
  {
    if scopes.Err? then Err(scopes.failure) else Bodies(m, e, scopes.value, g, local)
  }

  /******* Agreement *******/

  /** Unless a limit stopped it, `r` is the reference's value, or both fail. */
  ghost predicate Agree<T(!new)>(r: Result<T>, ref: Result<T>) {
    !r.HitLimit() ==> (r.Ok? ==> ref == r) && (r.Err? ==> ref.Err?)
  }

  ghost predicate Compared(a: Machine, b: Machine, e: Expr) {
    L.Laxer(a, b) && b.lim == UNLIMITED && Everywhere(Plain, ExprNode(e))
  }

  lemma {:induction false} BodiesAppend(m: Machine, e: Expr, s: seq<Env>, t: seq<Env>, g: Gathered, local: Env)
    requires IsComprehension(e) && Fits(e, g)
    ensures Bodies(m, e, s + t, g, local) ==
      (var r := Bodies(m, e, s, g, local); if r.Err? then r else Bodies(m, e, t, r.value, local))
    decreases |s|
  {
    if s == [] {
      assert s + t == t;
    } else {
      assert (s + t)[1..] == s[1..] + t;
      var first := Body(m, e, s[0], g, local);
      if first.Ok? { BodiesAppend(m, e, s[1..], t, first.value, local); }
    }
  }

  lemma {:induction false} EvalAgree(a: Machine, b: Machine, e: Expr, local: Env, depth: int, st: State)
    requires Compared(a, b, e)
    ensures Agree(Eval(a, e, local, depth, st).result, Meaning(b, e, local))
    decreases e, 4
  {
    DispatchAgree(a, b, e, local, depth + 1, Deepest(st.(steps := st.steps + 1), depth));
  }

  lemma {:induction false} DispatchAgree(a: Machine, b: Machine, e: Expr, local: Env, depth: int, st: State)
    requires Compared(a, b, e)
    ensures Agree(Dispatch(a, e, local, depth, st).result, Meaning(b, e, local))
    decreases e, 3
  {
    if Strict(e) {
      StrictAgree(a, b, e, local, depth, st);
    } else if e.IfExp? {
      IfAgree(a, b, e, local, depth, st);
    } else if e.Logic? {
      LogicAgree(a, b, e, 0, Bool(e.logic == And), local, depth, st);
    } else if e.Compare? {
      CompareAgree(a, b, e, local, depth, st);
    } else if IsComprehension(e) {
      ComprehensionAgree(a, b, e, local, depth, st);
    }
  }

  lemma {:induction false} IfAgree(a: Machine, b: Machine, e: Expr, local: Env, depth: int, st: State)
    requires Compared(a, b, e) && e.IfExp?
    ensures Agree(EvalIf(a, e, local, depth, st).result, IfMeaning(b, e, local))
    decreases e, 2
  {
    ChildEverywhere(Plain, ExprNode(e), ExprNode(e.test));
    ChildEverywhere(Plain, ExprNode(e), ExprNode(e.body));
    ChildEverywhere(Plain, ExprNode(e), ExprNode(e.orelse));
    EvalAgree(a, b, e.test, local, depth, st);
    var o := Eval(a, e.test, local, depth, st);
    EvalAgree(a, b, e.body, local, depth, o.st);
    EvalAgree(a, b, e.orelse, local, depth, o.st);
  }

  lemma {:induction false} CompareAgree(a: Machine, b: Machine, e: Expr, local: Env, depth: int, st: State)
    requires Compared(a, b, e) && e.Compare?
    ensures Agree(EvalCompare(a, e, local, depth, st).result, CompareMeaning(b, e, local))
    decreases e, 2
  {
    ChildEverywhere(Plain, ExprNode(e), ExprNode(e.left));
    EvalAgree(a, b, e.left, local, depth, st);
    var o := Eval(a, e.left, local, depth, st);
    if o.result.Ok? { ChainAgree(a, b, e, 0, o.result.value, local, depth, o.st); }
  }

  lemma {:induction false} ComprehensionAgree(a: Machine, b: Machine, e: Expr, local: Env, depth: int, st: State)
    requires Compared(a, b, e) && IsComprehension(e)
    ensures Agree(EvalComprehension(a, e, local, depth, st).result, ComprehensionMeaning(b, e, local))
    decreases e, 2
  {
    GenerateAgree(a, b, e, 0, map[], NothingYet(e), local, depth, st);
    var o := Generate(a, e, 0, map[], NothingYet(e), local, depth, st);
    if o.result.Ok? { FinishAgree(a.lim, b.lim, e, o.result.value); }
  }

  lemma FinishAgree(a: Limits, b: Limits, e: Expr, g: Gathered)
    requires b == UNLIMITED
    ensures Agree(Finish(a, e, g), Finish(b, e, g))
  {
  }

  lemma {:induction false} StrictAgree(a: Machine, b: Machine, e: Expr, local: Env, depth: int, st: State)
    requires Compared(a, b, e) && Strict(e)
    ensures Agree(EvalStrict(a, e, local, depth, st).result, StrictMeaning(b, e, local))
    decreases e, 2
  {
    forall i | 0 <= i < |Operands(e)| ensures Compared(a, b, Operands(e)[i]) { OperandEverywhere(Plain, e, i); }
    AllAgree(a, b, e, Operands(e), [], local, depth, st);
    assert Operands(e)[0..] == Operands(e);
    var o := EvalAll(a, e, Operands(e), [], local, depth, st);
    var vals := All(b, e, Operands(e), local);
    if o.result.Ok? {
      assert [] + vals.value == vals.value;
      L.ApplySame(a, b, e, o.result.value, local);
    }
    if e.DictDisplay? {
      assert Plain(ExprNode(e));
      DictAgree(b, e, local);
    }
  }

  lemma {:induction false} AllAgree(a: Machine, b: Machine, parent: Expr, es: seq<Expr>, acc: seq<Value>,
                                    local: Env, depth: int, st: State)
    requires |acc| <= |es| && forall i | 0 <= i < |es| :: es[i] < parent && Compared(a, b, es[i])
    ensures var o := EvalAll(a, parent, es, acc, local, depth, st).result;
      var r := All(b, parent, es[|acc|..], local);
      !o.HitLimit() ==> (o.Ok? ==> r.Ok? && o.value == acc + r.value) && (o.Err? ==> r.Err?)
    decreases parent, 1, |es| - |acc|
  {
    if |acc| < |es| {
      EvalAgree(a, b, es[|acc|], local, depth, st);
      var o := Eval(a, es[|acc|], local, depth, st);
      assert es[|acc|..][1..] == es[|acc| + 1..];
      if o.result.Ok? {
        AllAgree(a, b, parent, es, acc + [o.result.value], local, depth, o.st);
        var rest := All(b, parent, es[|acc| + 1..], local);
        if rest.Ok? { assert acc + ([o.result.value] + rest.value) == (acc + [o.result.value]) + rest.value; }
      }
    }
  }

  lemma {:induction false} LogicAgree(a: Machine, b: Machine, e: Expr, i: nat, last: Value, local: Env, depth: int, st: State)
    requires Compared(a, b, e) && e.Logic? && i <= |e.parts|
    ensures Agree(EvalLogic(a, e, i, last, local, depth, st).result, LogicMeaning(b, e, i, last, local))
    decreases e, 1, |e.parts| - i
  {
    if i < |e.parts| {
      PartEverywhere(Plain, e, i);
      EvalAgree(a, b, e.parts[i], local, depth, st);
      var o := Eval(a, e.parts[i], local, depth, st);
      if o.result.Ok? { LogicAgree(a, b, e, i + 1, o.result.value, local, depth, o.st); }
    }
  }

  lemma {:induction false} ChainAgree(a: Machine, b: Machine, e: Expr, i: nat, left: Value, local: Env, depth: int, st: State)
    requires Compared(a, b, e) && e.Compare?
    ensures Agree(EvalChain(a, e, i, left, local, depth, st).result, ChainMeaning(b, e, i, left, local))
    decreases e, 1, |e.comparators| - i
  {
    if i < |e.comparators| && i < |e.ops| {
      ComparatorEverywhere(Plain, e, i);
      EvalAgree(a, b, e.comparators[i], local, depth, st);
      var o := Eval(a, e.comparators[i], local, depth, st);
      if o.result.Ok? {
        var right := o.result.value;
        assert ApplyCompare(a, e.ops[i], left, right) == ApplyCompare(b, e.ops[i], left, right);
        if ApplyCompare(a, e.ops[i], left, right) == Ok(true) {
          ChainAgree(a, b, e, i + 1, right, local, depth, o.st);
        }
      }
    }
  }

  lemma {:induction false} GenerateAgree(a: Machine, b: Machine, e: Expr, index: nat, bound: Env, g: Gathered,
                                         local: Env, depth: int, st: State)
    requires Compared(a, b, e) && IsComprehension(e) && Fits(e, g) && index <= |e.generators|
    ensures Agree(Generate(a, e, index, bound, g, local, depth, st).result,
                  Gathering(b, e, Scopes(b, e, index, bound, local), g, local))
    decreases e, 1, |e.generators| - index, 1, 0
  {
    if index == |e.generators| {
      YieldAgree(a, b, e, bound, g, local, depth, st);
      assert [bound][1..] == [] && Bodies(b, e, [bound], g, local) == Body(b, e, bound, g, local);
    } else {
      GeneratorEverywhere(Plain, e, index);
      var iter := e.generators[index].iter;
      EvalAgree(a, b, iter, local + bound, depth, st);
      var o := Eval(a, iter, local + bound, depth, st);
      if o.result.Ok? && Elements(o.result.value).Some? {
        IterateAgree(a, b, e, index, bound, Elements(o.result.value).value, 0, g, local, depth, o.st);
      }
    }
  }

  lemma {:induction false} IterateAgree(a: Machine, b: Machine, e: Expr, index: nat, bound: Env, items: seq<Value>, k: nat,
                                        g: Gathered, local: Env, depth: int, st: State)
    requires Compared(a, b, e) && IsComprehension(e) && Fits(e, g) && index < |e.generators| && k <= |items|
    ensures Agree(Iterate(a, e, index, bound, items, k, g, local, depth, st).result,
                  Gathering(b, e, ItemScopes(b, e, index, bound, items, k, local), g, local))
    decreases e, 1, |e.generators| - index, 0, |items| - k
  {
    if k < |items| {
      ItemAgree(a, b, e, index, bound, items[k], k + 1, g, local, depth, st);
      var o := Item(a, e, index, bound, items[k], k + 1, g, local, depth, st);
      var here := OneItem(b, e, index, bound, items[k], local);
      var rest := ItemScopes(b, e, index, bound, items, k + 1, local);
      if here.Ok? && rest.Ok? { BodiesAppend(b, e, here.value, rest.value, g, local); }
      if o.result.Ok? { IterateAgree(a, b, e, index, bound, items, k + 1, o.result.value, local, depth, o.st); }
    }
  }

  lemma {:induction false} ItemAgree(a: Machine, b: Machine, e: Expr, index: nat, bound: Env, item: Value, count: nat,
                                     g: Gathered, local: Env, depth: int, st: State)
    requires Compared(a, b, e) && IsComprehension(e) && Fits(e, g) && index < |e.generators|
    ensures Agree(Item(a, e, index, bound, item, count, g, local, depth, st).result,
                  Gathering(b, e, OneItem(b, e, index, bound, item, local), g, local))
    decreases e, 1, |e.generators| - index, 0, 0, |e.generators[index].ifs| + 2
  {
    var scope := Bind(e.generators[index].target, item, bound);
    if scope.Ok? {
      FilterAgree(a, b, e, index, scope.value, g, local, depth, st.(iterations := st.iterations + 1));
    }
  }

  lemma {:induction false} FilterAgree(a: Machine, b: Machine, e: Expr, index: nat, scope: Env, g: Gathered,
                                       local: Env, depth: int, st: State)
    requires Compared(a, b, e) && IsComprehension(e) && Fits(e, g) && index < |e.generators|
    ensures Agree(Filter(a, e, index, scope, g, local, depth, st).result,
                  Gathering(b, e, Passing(b, e, index, scope, local), g, local))
    decreases e, 1, |e.generators| - index, 0, 0, |e.generators[index].ifs| + 1
  {
    ConditionsAgree(a, b, e, index, 0, local + scope, depth, st);
    var c := Conditions(a, e, index, 0, local + scope, depth, st);
    if c.result.Ok? && c.result.value {
      GenerateAgree(a, b, e, index + 1, scope, g, local, depth, c.st);
    }
  }

  lemma {:induction false} ConditionsAgree(a: Machine, b: Machine, e: Expr, index: nat, i: nat, local: Env, depth: int, st: State)
    requires Compared(a, b, e) && IsComprehension(e) && index < |e.generators| && i <= |e.generators[index].ifs|
    ensures Agree(Conditions(a, e, index, i, local, depth, st).result, Holds(b, e, index, i, local))
    decreases e, 1, |e.generators| - index, 0, 0, |e.generators[index].ifs| - i
  {
    if i < |e.generators[index].ifs| {
      GeneratorEverywhere(Plain, e, index);
      EvalAgree(a, b, e.generators[index].ifs[i], local, depth, st);
      var o := Eval(a, e.generators[index].ifs[i], local, depth, st);
      if o.result.Ok? { ConditionsAgree(a, b, e, index, i + 1, local, depth, o.st); }
    }
  }

  lemma {:induction false} YieldAgree(a: Machine, b: Machine, e: Expr, bound: Env, g: Gathered, local: Env, depth: int, st: State)
    requires Compared(a, b, e) && IsComprehension(e) && Fits(e, g)
    ensures Agree(Yield(a, e, bound, g, local, depth, st).result, Body(b, e, bound, g, local))
    decreases e, 0
  {
    BodyEverywhere(Plain, e);
    EvalAgree(a, b, e.elt, local + bound, depth, st);
    var x := Eval(a, e.elt, local + bound, depth, st);
    if g.Pairs? { EvalAgree(a, b, e.key, local + bound, depth, x.st); }
  }

  /******* Dictionary displays: all keys, all values, then the pairs *******/

  lemma {:induction false} AllMeans(m: Machine, parent: Expr, es: seq<Expr>, local: Env, i: nat)
    requires (forall k | 0 <= k < |es| :: es[k] < parent) && All(m, parent, es, local).Ok? && i < |es|
    ensures Meaning(m, es[i], local) == Ok(All(m, parent, es, local).value[i])
    decreases |es|
  {
    if i > 0 {
      assert es[1..][i - 1] == es[i];
      AllMeans(m, parent, es[1..], local, i - 1);
    }
  }

  lemma {:induction false} SomeFails(m: Machine, parent: Expr, es: seq<Expr>, local: Env) returns (i: nat)
    requires (forall k | 0 <= k < |es| :: es[k] < parent) && All(m, parent, es, local).Err?
    ensures i < |es| && Meaning(m, es[i], local).Err?
    decreases |es|
  {
    i := 0;
    if Meaning(m, es[0], local).Ok? {
      i := SomeFails(m, parent, es[1..], local);
      i := i + 1;
    }
  }

  lemma AllElementwise(m: Machine, parent: Expr, es: seq<Expr>, local: Env)
    requires forall i | 0 <= i < |es| :: es[i] < parent
    ensures All(m, parent, es, local).Ok? <==> forall i | 0 <= i < |es| :: Meaning(m, es[i], local).Ok?
    ensures All(m, parent, es, local).Ok? ==>
      forall i | 0 <= i < |es| :: Meaning(m, es[i], local) == Ok(All(m, parent, es, local).value[i])
  {
    if All(m, parent, es, local).Ok? {
      forall i | 0 <= i < |es| ensures Meaning(m, es[i], local) == Ok(All(m, parent, es, local).value[i]) {
        AllMeans(m, parent, es, local, i);
      }
    } else {
      var i := SomeFails(m, parent, es, local);
    }
  }

  lemma {:induction false} PresentAll(os: seq<Option<Expr>>)
    requires forall i | 0 <= i < |os| :: os[i].Some?
    ensures |Present(os)| == |os| && forall i | 0 <= i < |os| :: Present(os)[i] == os[i].value
  {
    if os != [] {
      PresentAll(os[1..]);
      assert forall i | 1 <= i < |os| :: os[i] == os[1..][i - 1];
    }
  }

  /** With every key and value evaluated, the display is the zip of the two lists. */
  lemma {:induction false} DictZips(m: Machine, e: Expr, i: nat, es: seq<Entry>, keys: seq<Value>, vals: seq<Value>, local: Env)
    requires e.DictDisplay? && Plain(ExprNode(e)) && |keys| == |vals| == |e.keys| && i <= |e.keys|
    requires forall j | 0 <= j < |keys| :: Meaning(m, e.keys[j].value, local) == Ok(keys[j])
    requires forall j | 0 <= j < |vals| :: Meaning(m, e.values[j], local) == Ok(vals[j])
    ensures var r, z := DictMeaning(m, e, i, es, local), ZipInto(es, keys[i..], vals[i..]);
      if z.Ok? then r == Ok(Dict(z.value)) else r.Err?
    decreases |e.keys| - i
  {
    if i < |e.keys| {
      assert keys[i..][1..] == keys[i + 1..] && vals[i..][1..] == vals[i + 1..];
      if Hashable(keys[i]) { DictZips(m, e, i + 1, Put(es, keys[i], vals[i]), keys, vals, local); }
    }
  }

  lemma {:induction false} DictFails(m: Machine, e: Expr, i: nat, es: seq<Entry>, j: nat, local: Env)
    requires e.DictDisplay? && Plain(ExprNode(e)) && i <= j < |e.keys|
    requires Meaning(m, e.keys[j].value, local).Err? || Meaning(m, e.values[j], local).Err?
    ensures DictMeaning(m, e, i, es, local).Err?
    decreases j - i
  {
    var k, v := Meaning(m, e.keys[i].value, local), Meaning(m, e.values[i], local);
    if i < j && k.Ok? && v.Ok? {
      DictFails(m, e, i + 1, Put(es, k.value, v.value), j, local);
    }
  }

  lemma DictOperands(e: Expr)
    requires e.DictDisplay? && Plain(ExprNode(e))
    ensures |Present(e.keys)| == |e.keys| && |Operands(e)| == 2 * |e.keys|
    ensures forall j | 0 <= j < |e.keys| :: Operands(e)[j] == e.keys[j].value
    ensures forall j | 0 <= j < |e.keys| :: Operands(e)[|e.keys| + j] == e.values[j]
  {
    PresentAll(e.keys);
  }

  lemma DictAgree(m: Machine, e: Expr, local: Env)
    requires e.DictDisplay? && Plain(ExprNode(e)) && m.lim == UNLIMITED
    ensures var vals := All(m, e, Operands(e), local);
      var r := DictMeaning(m, e, 0, [], local);
      (vals.Err? ==> r.Err?) && (vals.Ok? ==>
        var s := ApplyDict(m, vals.value[..|Present(e.keys)|], vals.value[|Present(e.keys)|..]);
        (s.Ok? ==> r == s) && (s.Err? ==> r.Err?))
  {
    DictOperands(e);
    AllElementwise(m, e, Operands(e), local);
    var vals := All(m, e, Operands(e), local);
    if vals.Ok? {
      DictValues(m, e, vals.value[..|e.keys|], vals.value[|e.keys|..], local);
    } else {
      var x :| 0 <= x < |Operands(e)| && Meaning(m, Operands(e)[x], local).Err?;
      DictOperandFails(m, e, x, local);
    }
  }

  lemma DictOperandFails(m: Machine, e: Expr, x: nat, local: Env)
    requires e.DictDisplay? && Plain(ExprNode(e)) && x < |Operands(e)|
    requires Meaning(m, Operands(e)[x], local).Err?
    ensures DictMeaning(m, e, 0, [], local).Err?
  {
    var j := DictOperandAt(e, x);
    DictFails(m, e, 0, [], j, local);
  }

  /** The entry to which an operand belongs. */
  lemma DictOperandAt(e: Expr, x: nat) returns (j: nat)
    requires e.DictDisplay? && Plain(ExprNode(e)) && x < |Operands(e)|
    ensures j < |e.keys| == |e.values| && e.keys[j].Some? && (Operands(e)[x] == e.keys[j].value || Operands(e)[x] == e.values[j])
  {
    DictOperands(e);
    var n := |e.keys|;
    j := if x < n then x else x - n;
    if x >= n { assert Operands(e)[n + j] == e.values[j]; }
  }

  lemma DictValues(m: Machine, e: Expr, keys: seq<Value>, vals: seq<Value>, local: Env)
    requires e.DictDisplay? && Plain(ExprNode(e)) && m.lim == UNLIMITED && |keys| == |vals| == |e.keys|
    requires forall j | 0 <= j < |keys| :: Meaning(m, e.keys[j].value, local) == Ok(keys[j])
    requires forall j | 0 <= j < |vals| :: Meaning(m, e.values[j], local) == Ok(vals[j])
    ensures var r, s := DictMeaning(m, e, 0, [], local), ApplyDict(m, keys, vals);
      (s.Ok? ==> r == s) && (s.Err? ==> r.Err?)
  {
    DictZips(m, e, 0, [], keys, vals, local);
    assert keys[0..] == keys && vals[0..] == vals;
  }
}
