/**
 What the loops of a comprehension visit and what they bind (shared/code_scorer.py:490-531):
 the items of every kind of value in order, the conditions that keep them, and the part of
 an item that each variable of a nested target is given.
 */
module ScorerLoops {
  import opened Wrappers
  import opened ScorerSyntax
  import opened ScorerSemantics
  import opened ScorerLiterals

  /******* What a loop visits *******/

  /** Iterating over `v` gives `items`: a string its letters, a dictionary its keys, a collection its elements. */
  ghost predicate Yields(v: Value, items: seq<Value>) {
    match v
    case Str(s) => |items| == |s| && forall i | 0 <= i < |items| :: items[i] == Str(s[i..i + 1])
    case Dict(es) => |items| == |es| && forall i | 0 <= i < |items| :: items[i] == es[i].key
    case List(xs) => items == xs
    case Tuple(xs) => items == xs
    case Set(xs) => items == xs
    case Iterator(xs, _) => items == xs
    case _ => false
  }

  lemma ElementsExactly(v: Value, items: seq<Value>)
    ensures Elements(v) == Some(items) <==> Yields(v, items)
  {
    if Elements(v).Some? {
      var xs := Elements(v).value;
      match v
      case Str(s) => forall i | 0 <= i < |xs| ensures xs[i] == Str(s[i..i + 1]) { assert s[i..i + 1] == [s[i]]; }
      case _ =>
    }
    if Yields(v, items) {
      var xs := Elements(v).value;
      forall i | 0 <= i < |items| ensures items[i] == xs[i] {
        if v.Str? { assert v.s[i..i + 1] == [v.s[i]]; }
      }
      assert xs == items;
    }
  }

  /** A list, a set or a generator of `id for id in v`, or of `id for id in v if id`. */
  predicate Visits(e: Expr, id: string, v: Value, tested: bool) {
    && (e.ListComp? || e.SetComp? || e.GeneratorExp?)
    && e.elt == Name(id, Load)
    && e.generators == [Generator(Name(id, Store), Constant(v), if tested then [Name(id, Load)] else [], false)]
  }

  function Keeps(tested: bool, v: Value): seq<Value> {
    if tested && v in FALSY then [] else [v]
  }

  /** The items in order, without the falsy ones if there is a condition. */
  function Kept(tested: bool, xs: seq<Value>): seq<Value> {
    if xs == [] then [] else Keeps(tested, xs[0]) + Kept(tested, xs[1..])
  }

  lemma TestRuns(m: Machine, e: Expr, id: string, v: Value, tested: bool, x: Value, local: Env, st: State) returns (st1: State)
    requires Visits(e, id, v, tested) && id in local && local[id] == x && Room(m, st.steps + 1, 1)
    ensures Conditions(m, e, 0, 0, local, 1, st) == Outcome(Ok(Keeps(tested, x) != []), st1)
    ensures st1.steps <= st.steps + 1
  {
    st1 := st;
    if tested {
      NameRuns(m, id, Load, local, 1, st);
      TruthExactly(x);
      st1 := Spent(st, 1, 1);
      if x !in FALSY { assert Conditions(m, e, 0, 1, local, 1, st1) == Outcome(Ok(true), st1); }
    }
  }

  /** One pass of the loop gathers its item unless the condition refuses it. */
  lemma ItemRuns(m: Machine, e: Expr, id: string, v: Value, tested: bool, x: Value, count: nat, acc: seq<Value>, st: State)
      returns (st1: State)
    requires Visits(e, id, v, tested) && Room(m, st.steps + 2, 1) && Allows(m.lim.items, count)
    ensures Item(m, e, 0, map[], x, count, Elems(acc), map[], 1, st) == Outcome(Ok(Elems(acc + Keeps(tested, x))), st1)
    ensures st1.steps <= st.steps + 2
  {
    var none: Env := map[];
    var scope, st0 := none[id := x], st.(iterations := st.iterations + 1);
    assert none + scope == scope;
    st1 := TestRuns(m, e, id, v, tested, x, scope, st0);
    assert Item(m, e, 0, none, x, count, Elems(acc), none, 1, st) == Filter(m, e, 0, scope, Elems(acc), none, 1, st0);
    if Keeps(tested, x) == [] {
      assert acc + [] == acc;
    } else {
      assert Filter(m, e, 0, scope, Elems(acc), none, 1, st0) == Generate(m, e, 1, scope, Elems(acc), none, 1, st1);
      assert Generate(m, e, 1, scope, Elems(acc), none, 1, st1) == Yield(m, e, scope, Elems(acc), none, 1, st1);
      NameRuns(m, id, Load, scope, 1, st1);
      st1 := Spent(st1, 1, 1);
    }
  }

  lemma {:induction false} LoopRuns(m: Machine, e: Expr, id: string, v: Value, tested: bool, items: seq<Value>, k: nat, acc: seq<Value>, st: State)
    requires Visits(e, id, v, tested) && k <= |items| && Room(m, st.steps + 2 * (|items| - k), 1) && Allows(m.lim.items, |items|)
    ensures Iterate(m, e, 0, map[], items, k, Elems(acc), map[], 1, st).result == Ok(Elems(acc + Kept(tested, items[k..])))
    decreases |items| - k
  {
    if k == |items| {
      assert acc + [] == acc;
    } else {
      var st1 := ItemRuns(m, e, id, v, tested, items[k], k + 1, acc, st);
      LoopRuns(m, e, id, v, tested, items, k + 1, acc + Keeps(tested, items[k]), st1);
      assert items[k..][1..] == items[k + 1..];
      Associative(acc, Keeps(tested, items[k]), Kept(tested, items[k + 1..]));
    }
  }

  lemma Associative(a: seq<Value>, b: seq<Value>, c: seq<Value>)
    ensures (a + b) + c == a + (b + c)
  {
  }

  lemma KeptBound(tested: bool, xs: seq<Value>)
    ensures |Kept(tested, xs)| <= |xs|
    ensures !tested ==> Kept(tested, xs) == xs
  {
  }

  /** A loop visits what its value yields, in order, and a condition keeps exactly the items that are not falsy. */
  lemma LoopVisitsInOrder(m: Machine, e: Expr, id: string, v: Value, tested: bool, items: seq<Value>)
    requires Visits(e, id, v, tested) && Yields(v, items)
    requires Room(m, 2 + 2 * |items|, 1) && Allows(m.lim.items, |items|)
    ensures (var kept := List(if tested then Kept(true, items) else items);
             Run(m, e).result == if e.SetComp? then MakeSet(Ok(kept)) else Ok(kept))
  {
    BeforeLoop(m, e, id, v, tested);
    ElementsExactly(v, items);
    WholeLoop(m, e, id, v, tested, items);
    KeptBound(tested, items);
    FinishesList(m.lim, e, Kept(tested, items));
  }

  lemma WholeLoop(m: Machine, e: Expr, id: string, v: Value, tested: bool, items: seq<Value>)
    requires Visits(e, id, v, tested) && Room(m, 2 + 2 * |items|, 1) && Allows(m.lim.items, |items|)
    ensures Iterate(m, e, 0, map[], items, 0, Elems([]), map[], 1, State(2, 0, 1)).result == Ok(Elems(Kept(tested, items)))
  {
    LoopRuns(m, e, id, v, tested, items, 0, [], State(2, 0, 1));
    var kept := Kept(tested, items);
    assert items[0..] == items && [] + kept == kept;
  }

  lemma FinishesList(lim: Limits, e: Expr, xs: seq<Value>)
    requires Allows(lim.items, |xs|)
    ensures Finish(lim, e, Elems(xs)) == if e.SetComp? then MakeSet(Ok(List(xs))) else Ok(List(xs))
  {
  }

  lemma BeforeLoop(m: Machine, e: Expr, id: string, v: Value, tested: bool)
    requires Visits(e, id, v, tested) && Room(m, 2, 1)
    ensures (var o := if Elements(v).None? then Outcome(Err(Escaped), State(2, 0, 1))
                      else Iterate(m, e, 0, map[], Elements(v).value, 0, Elems([]), map[], 1, State(2, 0, 1));
             Run(m, e).result == if o.result.Err? then Err(o.result.failure) else Finish(m.lim, e, o.result.value))
  {
    var none: Env := map[];
    DispatchCases(m, e, none, 1, State(1, 0, 0));
    assert none + none == none;
    LiteralRuns(m, v, none, 1, State(1, 0, 0));
  }

  /** A loop over anything else ends in Python's own TypeError. */
  lemma LoopOverOtherEscapes(m: Machine, e: Expr, id: string, v: Value, tested: bool)
    requires Visits(e, id, v, tested) && Room(m, 2, 1) && forall items :: !Yields(v, items)
    ensures Run(m, e).result == Err(Escaped)
  {
    BeforeLoop(m, e, id, v, tested);
    if Elements(v).Some? { ElementsExactly(v, Elements(v).value); }
  }

  /******* What a target binds *******/

  /** The target, or the value, at a path of positions. */
  function At(target: Expr, path: seq<nat>): Option<Expr>
    decreases |path|
  {
    if path == [] then Some(target)
    else if target.TupleDisplay? && path[0] < |target.elts| then At(target.elts[path[0]], path[1..])
    else None
  }

  function Inside(v: Value, path: seq<nat>): Option<Value>
    decreases |path|
  {
    if path == [] then Some(v)
    else if Elements(v).Some? && path[0] < |Elements(v).value| then Inside(Elements(v).value[path[0]], path[1..])
    else None
  }

  ghost predicate Named(target: Expr, path: seq<nat>, id: string) {
    At(target, path).Some? && At(target, path).value.Name? && At(target, path).value.id == id
  }

  ghost predicate Mentions(target: Expr, id: string) {
    exists path :: Named(target, path, id)
  }

  /** `id` stands at this path of the target and nowhere else in it. */
  ghost predicate Only(target: Expr, path: seq<nat>, id: string) {
    Named(target, path, id) && forall p | Named(target, p, id) :: p == path
  }

  /** There is something at every path of the target, and as many items as variables at every tuple of it. */
  ghost predicate Shaped(target: Expr, v: Value) {
    forall path | At(target, path).Some? :: Inside(v, path).Some? && Suits(At(target, path).value, Inside(v, path).value)
  }

  ghost predicate Suits(target: Expr, v: Value) {
    match target
    case Name(_, _) => true
    case TupleDisplay(ts, _) => Elements(v).Some? && |Elements(v).value| == |ts|
    case _ => false
  }

  ghost predicate AllShaped(ts: seq<Expr>, xs: seq<Value>)
    requires |ts| == |xs|
  {
    forall i | 0 <= i < |ts| :: Shaped(ts[i], xs[i])
  }

  lemma ShapedTuple(target: Expr, v: Value)
    requires target.TupleDisplay? && Suits(target, v)
    ensures Shaped(target, v) <==> AllShaped(target.elts, Elements(v).value)
  {
    var ts, xs := target.elts, Elements(v).value;
    if Shaped(target, v) {
      forall i | 0 <= i < |ts| ensures Shaped(ts[i], xs[i]) {
        forall path | At(ts[i], path).Some? ensures Inside(xs[i], path).Some? && Suits(At(ts[i], path).value, Inside(xs[i], path).value) {
          var whole := [i as nat] + path;
          assert whole[1..] == path && At(target, whole) == At(ts[i], path);
          assert Inside(v, whole) == Inside(xs[i], path);
        }
      }
    }
    if AllShaped(ts, xs) {
      forall path | At(target, path).Some? ensures Inside(v, path).Some? && Suits(At(target, path).value, Inside(v, path).value) {
        if path != [] {
          assert Shaped(ts[path[0]], xs[path[0]]);
          assert At(ts[path[0]], path[1..]).Some?;
        }
      }
    }
  }

  /** Binding succeeds exactly if the value has the shape of the target. */
  lemma {:induction false} BindExactly(target: Expr, v: Value, scope: Env)
    ensures Bind(target, v, scope).Ok? <==> Shaped(target, v)
    decreases target
  {
    assert At(target, []) == Some(target) && Inside(v, []) == Some(v);
    match target
    case Name(_, _) =>
    case TupleDisplay(ts, _) =>
      if Suits(target, v) {
        ShapedTuple(target, v);
        BindAllExactly(ts, Elements(v).value, scope);
      }
    case _ =>
  }

  lemma {:induction false} BindAllExactly(ts: seq<Expr>, xs: seq<Value>, scope: Env)
    requires |ts| == |xs|
    ensures BindAll(ts, xs, scope).Ok? <==> AllShaped(ts, xs)
    decreases ts
  {
    if ts != [] {
      var r := Bind(ts[0], xs[0], scope);
      BindExactly(ts[0], xs[0], scope);
      if r.Ok? {
        BindAllExactly(ts[1..], xs[1..], r.value);
        ShapedSplit(ts, xs);
      }
    }
  }

  lemma ShapedSplit(ts: seq<Expr>, xs: seq<Value>)
    requires |ts| == |xs| > 0
    ensures AllShaped(ts, xs) <==> Shaped(ts[0], xs[0]) && AllShaped(ts[1..], xs[1..])
  {
    if Shaped(ts[0], xs[0]) && AllShaped(ts[1..], xs[1..]) {
      forall i | 0 <= i < |ts| ensures Shaped(ts[i], xs[i]) {
        if i > 0 { assert ts[i] == ts[1..][i - 1] && xs[i] == xs[1..][i - 1]; }
      }
    }
    if AllShaped(ts, xs) {
      forall i | 0 <= i < |ts[1..]| ensures Shaped(ts[1..][i], xs[1..][i]) {
        assert ts[1..][i] == ts[i + 1] && xs[1..][i] == xs[i + 1];
      }
    }
  }

  /** `id` has the same value, or none, in both. */
  ghost predicate SameAt(a: Env, b: Env, id: string) {
    (id in a <==> id in b) && (id in a ==> a[id] == b[id])
  }

  /** A variable that a target does not name keeps its value. */
  lemma {:induction false} BindLeavesOthers(target: Expr, v: Value, scope: Env, id: string)
    requires Bind(target, v, scope).Ok? && !Mentions(target, id)
    ensures SameAt(scope, Bind(target, v, scope).value, id)
    decreases target
  {
    match target
    case Name(x, _) => assert Named(target, [], x);
    case TupleDisplay(ts, _) =>
      forall i | 0 <= i < |ts| ensures !Mentions(ts[i], id) {
        if Mentions(ts[i], id) { MentionedInside(target, i, id); }
      }
      BindAllLeavesOthers(ts, Elements(v).value, scope, id);
  }

  lemma MentionedInside(target: Expr, i: nat, id: string)
    requires target.TupleDisplay? && i < |target.elts| && Mentions(target.elts[i], id)
    ensures Mentions(target, id)
  {
    var path :| Named(target.elts[i], path, id);
    assert ([i] + path)[1..] == path;
    assert Named(target, [i] + path, id);
  }

  lemma {:induction false} BindAllLeavesOthers(ts: seq<Expr>, xs: seq<Value>, scope: Env, id: string)
    requires |ts| == |xs| && BindAll(ts, xs, scope).Ok? && forall i | 0 <= i < |ts| :: !Mentions(ts[i], id)
    ensures SameAt(scope, BindAll(ts, xs, scope).value, id)
    decreases ts
  {
    if ts != [] {
      BindLeavesOthers(ts[0], xs[0], scope, id);
      BindAllLeavesOthers(ts[1..], xs[1..], Bind(ts[0], xs[0], scope).value, id);
    }
  }

  /** A variable is given what stands in the value where the variable stands in the target. */
  lemma {:induction false} BindsByPosition(target: Expr, v: Value, scope: Env, path: seq<nat>, id: string)
    requires Bind(target, v, scope).Ok? && Only(target, path, id)
    ensures Inside(v, path).Some? && id in Bind(target, v, scope).value && Bind(target, v, scope).value[id] == Inside(v, path).value
    decreases target
  {
    if path != [] {
      var ts, i := target.elts, path[0];
      assert Named(ts[i], path[1..], id);
      forall p | Named(ts[i], p, id) ensures p == path[1..] {
        assert ([i] + p)[1..] == p && Named(target, [i] + p, id);
      }
      forall j | 0 <= j < |ts| && j != i ensures !Mentions(ts[j], id) {
        if Mentions(ts[j], id) {
          var p :| Named(ts[j], p, id);
          assert ([j as nat] + p)[1..] == p && Named(target, [j as nat] + p, id);
        }
      }
      BindAllByPosition(ts, Elements(v).value, scope, i, path[1..], id);
    }
  }

  lemma {:induction false} BindAllByPosition(ts: seq<Expr>, xs: seq<Value>, scope: Env, i: nat, path: seq<nat>, id: string)
    requires |ts| == |xs| && BindAll(ts, xs, scope).Ok?
    requires i < |ts| && Only(ts[i], path, id) && forall j | 0 <= j < |ts| && j != i :: !Mentions(ts[j], id)
    ensures (var bound := BindAll(ts, xs, scope).value;
             Inside(xs[i], path).Some? && id in bound && bound[id] == Inside(xs[i], path).value)
    decreases ts
  {
    var first := Bind(ts[0], xs[0], scope).value;
    if i == 0 {
      BindsByPosition(ts[0], xs[0], scope, path, id);
      forall j | 0 <= j < |ts[1..]| ensures !Mentions(ts[1..][j], id) { assert ts[1..][j] == ts[j + 1]; }
      BindAllLeavesOthers(ts[1..], xs[1..], first, id);
    } else {
      assert ts[1..][i - 1] == ts[i] && xs[1..][i - 1] == xs[i];
      BindAllByPosition(ts[1..], xs[1..], first, i - 1, path, id);
    }
  }

  /** `[id for target in [v]]` */
  function Unpack(target: Expr, v: Value, id: string): Expr {
    ListComp(Name(id, Load), [Generator(target, Constant(List([v])), [], false)])
  }

  lemma UnpackRuns(m: Machine, target: Expr, v: Value, id: string)
    requires Room(m, 3, 1) && Allows(m.lim.items, 1)
    ensures (var r := Run(m, Unpack(target, v, id)).result;
             var b := Bind(target, v, map[]);
             && (b.Err? ==> r == Err(b.failure))
             && (b.Ok? ==>
                   var x := if id in b.value then Ok(b.value[id]) else Global(m.scope, id);
                   r == if x.Ok? then Ok(List([x.value])) else Err(x.failure)))
  {
    var e, none: Env := Unpack(target, v, id), map[];
    var st1, st2, items := State(2, 0, 1), State(2, 1, 1), [v];
    DispatchCases(m, e, none, 1, State(1, 0, 0));
    assert none + none == none;
    LiteralRuns(m, List(items), none, 1, State(1, 0, 0));
    assert Generate(m, e, 0, none, Elems([]), none, 1, State(1, 0, 0)) == Iterate(m, e, 0, none, items, 0, Elems([]), none, 1, st1);
    var o := Item(m, e, 0, none, items[0], 1, Elems([]), none, 1, st1);
    assert Iterate(m, e, 0, none, items, 0, Elems([]), none, 1, st1) == o;
    var b := Bind(target, v, none);
    if b.Ok? { UnpackedRuns(m, e, target, v, id, b.value, st2); }
  }

  lemma UnpackedRuns(m: Machine, e: Expr, target: Expr, v: Value, id: string, scope: Env, st: State)
    requires e == Unpack(target, v, id) && Room(m, st.steps + 1, 1)
    ensures (var o := Filter(m, e, 0, scope, Elems([]), map[], 1, st).result;
             var x := if id in scope then Ok(scope[id]) else Global(m.scope, id);
             o == if x.Ok? then Ok(Elems([x.value])) else Err(x.failure))
  {
    var none: Env := map[];
    assert none + scope == scope;
    assert Conditions(m, e, 0, 0, scope, 1, st) == Outcome(Ok(true), st);
    assert Filter(m, e, 0, scope, Elems([]), none, 1, st) == Yield(m, e, scope, Elems([]), none, 1, st);
    NameRuns(m, id, Load, scope, 1, st);
    var x := if id in scope then Ok(scope[id]) else Global(m.scope, id);
    if x.Ok? { assert [] + [x.value] == [x.value]; }
  }

  /** Each variable of a loop target is given the part of the item at its own position. */
  lemma TargetsBindByPosition(m: Machine, target: Expr, v: Value, path: seq<nat>, id: string)
    requires Room(m, 3, 1) && Allows(m.lim.items, 1) && Shaped(target, v) && Only(target, path, id)
    ensures Inside(v, path).Some? && Run(m, Unpack(target, v, id)).result == Ok(List([Inside(v, path).value]))
  {
    BindExactly(target, v, map[]);
    BindsByPosition(target, v, map[], path, id);
    UnpackRuns(m, target, v, id);
  }

  /** An item without the target's shape is refused, for the reason found first. */
  lemma MisshapenItemIsRefused(m: Machine, target: Expr, v: Value, id: string)
    requires Room(m, 3, 1) && Allows(m.lim.items, 1) && !Shaped(target, v)
    ensures (var r := Run(m, Unpack(target, v, id)).result;
             && r.Err? && r.failure in {Author(CannotUnpack), Author(WrongCount), Author(BadTarget)}
             && (!target.Name? && !target.TupleDisplay? ==> r.failure == Author(BadTarget))
             && (target.TupleDisplay? && (forall items :: !Yields(v, items)) ==> r.failure == Author(CannotUnpack))
             && (target.TupleDisplay? && (exists items :: Yields(v, items) && |items| != |target.elts|) ==> r.failure == Author(WrongCount)))
  {
    BindExactly(target, v, map[]);
    UnpackRuns(m, target, v, id);
    BindFailure(target, v, map[]);
    if Elements(v).Some? { ElementsExactly(v, Elements(v).value); }
    if target.TupleDisplay? {
      if items :| Yields(v, items) && |items| != |target.elts| { ElementsExactly(v, items); }
    }
  }

  lemma {:induction false} BindFailure(target: Expr, v: Value, scope: Env)
    ensures (var r := Bind(target, v, scope);
             r.Err? ==> r.failure in {Author(CannotUnpack), Author(WrongCount), Author(BadTarget)})
    decreases target
  {
    if target.TupleDisplay? && Elements(v).Some? && |Elements(v).value| == |target.elts| {
      BindAllFailure(target.elts, Elements(v).value, scope);
    }
  }

  lemma {:induction false} BindAllFailure(ts: seq<Expr>, xs: seq<Value>, scope: Env)
    requires |ts| == |xs|
    ensures (var r := BindAll(ts, xs, scope);
             r.Err? ==> r.failure in {Author(CannotUnpack), Author(WrongCount), Author(BadTarget)})
    decreases ts
  {
    if ts != [] {
      BindFailure(ts[0], xs[0], scope);
      if Bind(ts[0], xs[0], scope).Ok? { BindAllFailure(ts[1..], xs[1..], Bind(ts[0], xs[0], scope).value); }
    }
  }
}
