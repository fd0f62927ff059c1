/**
 What a scorer's operators, displays, f-strings, slices and calls make of evaluated operands
 (shared/code_scorer.py:319-487, 533-568), stated on whole runs and for every Python: which limit
 stops them, which exception becomes which error, which equal key or element stays.
 */
module ScorerOperations {
  import opened Wrappers
  import opened ScorerSyntax
  import opened ScorerSemantics
  import opened ScorerLiterals
  import V = ScorerValidation

  /** A construct whose operands are literals is applied to their values. */
  lemma StrictRuns(m: Machine, e: Expr, vals: seq<Value>)
    requires Strict(e) && Precheck(e).None? && Operands(e) == Literals(vals)
    requires Room(m, 1 + |vals|, if vals == [] then 0 else 1)
    ensures Run(m, e).result == Apply(m, e, vals, map[])
  {
    DispatchCases(m, e, map[], 1, State(1, 0, 0));
    LiteralsRun(m, e, vals, map[], 1, State(1, 0, 0));
  }

  lemma TwoLiterals(x: Value, y: Value)
    ensures Literals([x, y]) == [Constant(x), Constant(y)]
  {
  }

  lemma OneLiteral(x: Value)
    ensures Literals([x]) == [Constant(x)]
  {
  }

  /******* Limits *******/

  /** Each element costs a step, and then the length is checked. */
  lemma ListExactly(m: Machine, vs: seq<Value>)
    requires Allows(m.lim.depth, 1)
    ensures (var r := Run(m, ListDisplay(Literals(vs), Load)).result;
             if !Allows(m.lim.steps, 1 + |vs|) then r == Err(Limit(StepLimit))
             else if !Allows(m.lim.items, |vs|) then r == Err(Limit(ItemLimit))
             else r == Ok(List(vs)))
  {
    var e, st := ListDisplay(Literals(vs), Load), State(1, 0, 0);
    if Allows(m.lim.steps, 1 + |vs|) {
      StrictRuns(m, e, vs);
    } else if m.lim.steps.value > 0 {
      DispatchCases(m, e, map[], 1, st);
      var paid := vs[..m.lim.steps.value - 1];
      LiteralsFirst(m, e, Literals(vs), paid, map[], 1, st);
    }
  }

  /** The limits that a deployed scorer runs under. */
  lemma StandardListExactly(m: Machine, vs: seq<Value>)
    requires m.lim == STANDARD
    ensures (var r := Run(m, ListDisplay(Literals(vs), Load)).result;
             && (r == Ok(List(vs)) <==> |vs| <= 10000)
             && (r == Err(Limit(ItemLimit)) <==> 10000 < |vs| < 50000)
             && (r == Err(Limit(StepLimit)) <==> |vs| >= 50000))
  {
    ListExactly(m, vs);
  }

  function Nested(times: nat, v: Value): Expr {
    if times == 0 then Constant(v) else Unary(Not, Nested(times - 1, v))
  }

  lemma NestedStep(m: Machine, times: nat, v: Value, depth: nat, st: State)
    requires times > 0 && Room(m, st.steps + 1, depth)
    ensures (var r := Eval(m, Nested(times, v), map[], depth, st).result;
             var x := Eval(m, Nested(times - 1, v), map[], depth + 1, Spent(st, 1, depth)).result;
             if x.Err? then r == x else r.Ok?)
  {
    var e, st1 := Nested(times, v), Spent(st, 1, depth);
    DispatchCases(m, e, map[], depth + 1, st1);
    OneOperand(m, e, Nested(times - 1, v), map[], depth + 1, st1);
  }

  lemma {:induction false} NestedRuns(m: Machine, times: nat, v: Value, depth: nat, st: State)
    requires Allows(m.lim.steps, st.steps + times + 1)
    ensures (var r := Eval(m, Nested(times, v), map[], depth, st).result;
             if Allows(m.lim.depth, depth + times) then r.Ok? else r == Err(Limit(DepthLimit)))
    decreases times
  {
    if Allows(m.lim.depth, depth) {
      if times == 0 {
        LiteralRuns(m, v, map[], depth, st);
      } else {
        NestedStep(m, times, v, depth, st);
        NestedRuns(m, times - 1, v, depth + 1, Spent(st, 1, depth));
      }
    }
  }

  lemma OneOperand(m: Machine, e: Expr, x: Expr, local: Env, depth: int, st: State)
    requires Strict(e) && Precheck(e).None? && Operands(e) == [x]
    ensures (var o := Eval(m, x, local, depth, st);
             EvalStrict(m, e, local, depth, st) == Outcome(if o.result.Ok? then Apply(m, e, [o.result.value], local) else o.result, o.st))
  {
    var o := Eval(m, x, local, depth, st);
    if o.result.Ok? {
      assert [] + [o.result.value] == [o.result.value];
      assert EvalAll(m, e, [x], [o.result.value], local, depth, o.st) == Outcome(Ok([o.result.value]), o.st);
    }
  }

  /** A deployed scorer may nest forty deep and not deeper. */
  lemma StandardNestingExactly(m: Machine, times: nat, v: Value)
    requires m.lim == STANDARD && times < 50000
    ensures Run(m, Nested(times, v)).result == Err(Limit(DepthLimit)) <==> times > 40
    ensures Run(m, Nested(times, v)).result.Ok? <==> times <= 40
  {
    NestedRuns(m, times, v, 0, State(0, 0, 0));
  }

  /** What the measuring of an operator's or a call's result makes of it. */
  function Length(v: Value): nat {
    match v
    case Str(s) => |s|
    case List(xs) => |xs|
    case Tuple(xs) => |xs|
    case Set(xs) => |xs|
    case Dict(es) => |es|
    case _ => 0
  }

  ghost predicate Measured(lim: Limits, v: Value, r: Result<Value>) {
    if v.Str? && !Allows(lim.chars, Length(v)) then r == Err(Limit(CharLimit))
    else if !v.Str? && !Allows(lim.items, Length(v)) then r == Err(Limit(ItemLimit))
    else r == Ok(v)
  }

  lemma SizedValueExactly(lim: Limits, v: Value)
    ensures Measured(lim, v, SizedValue(lim, v))
  {
  }

  /** Python's number that a value is, booleans included. */
  function Number(v: Value): Option<real> {
    match v
    case Bool(b) => Some(if b then 1.0 else 0.0)
    case Int(i) => Some(i as real)
    case Float(r) => Some(r)
    case _ => None
  }

  predicate TooLarge(bound: Bound, v: Value) {
    bound.Some? && Number(v).Some? && !(-(bound.value as real) <= Number(v).value <= bound.value as real)
  }

  lemma HugeExponentExactly(lim: Limits, v: Value)
    ensures HugeExponent(lim, v) <==> TooLarge(lim.exponent, v)
  {
  }

  /******* Operators *******/

  /** What `l op r` gives, by what Python's operator does with the two. */
  lemma BinaryExactly(m: Machine, l: Value, op: BinaryOp, r: Value)
    requires Room(m, 3, 1) && op in {Add, Sub, Mult, Div, FloorDiv, Mod, Pow}
    ensures (var x := Run(m, Binary(Constant(l), op, Constant(r))).result;
             var y := m.rt.binary(op, l, r);
             if op == Pow && TooLarge(m.lim.exponent, r) then x == Err(Limit(ExponentLimit))
             else if y.Return? then Measured(m.lim, y.value, x)
             else match y.exception
               case KeyError => x == Err(Dead(OperatorNotSupported))
               case ZeroDivisionError => x == Err(Author(DivisionByZero))
               case TypeError => x == Err(Author(CannotApply))
               case _ => x == Err(Escaped))
  {
    var e := Binary(Constant(l), op, Constant(r));
    TwoLiterals(l, r);
    StrictRuns(m, e, [l, r]);
    HugeExponentExactly(m.lim, r);
    if m.rt.binary(op, l, r).Return? { SizedValueExactly(m.lim, m.rt.binary(op, l, r).value); }
  }

  /** Exponents of deployed scorers reach from -64 to 64. */
  lemma StandardExponentExactly(m: Machine, l: Value, n: int)
    requires m.lim == STANDARD
    ensures Run(m, Binary(Constant(l), Pow, Constant(Int(n)))).result == Err(Limit(ExponentLimit)) <==> n < -64 || n > 64
  {
    BinaryExactly(m, l, Pow, Int(n));
  }

  /** A sign's value is not measured, and what it raises is not caught. */
  lemma SignExactly(m: Machine, op: UnaryOp, v: Value)
    requires Room(m, 2, 1) && op in {USub, UAdd}
    ensures Run(m, Unary(op, Constant(v))).result ==
      match m.rt.unary(op, v) { case Return(x) => Ok(x) case Raise(_) => Err(Escaped) }
  {
    OneLiteral(v);
    StrictRuns(m, Unary(op, Constant(v)), [v]);
  }

  /** `v[key]` */
  lemma IndexExactly(m: Machine, v: Value, key: Value)
    requires Room(m, 3, 1)
    ensures Run(m, Subscript(Constant(v), Constant(key), Load)).result ==
      match m.rt.index(v, key) {
        case Return(x) => Ok(x)
        case Raise(KeyError) => Err(Author(NoSuchKey))
        case Raise(IndexError) => Err(Author(NoSuchKey))
        case Raise(TypeError) => Err(Author(CannotIndex))
        case Raise(_) => Err(Escaped)
      }
  {
    TwoLiterals(v, key);
    StrictRuns(m, Subscript(Constant(v), Constant(key), Load), [v, key]);
  }

  /** A comparison's outcome, as the chain goes on with it. */
  function Compared(y: Raw<bool>): Result<Value> {
    match y
    case Return(b) => Ok(Bool(b))
    case Raise(KeyError) => Err(Dead(ComparisonNotSupported))
    case Raise(TypeError) => Err(Author(CannotCompare))
    case Raise(_) => Err(Escaped)
  }

  lemma Holds(m: Machine, e: Expr, i: nat, l: Value, r: Value, st: State)
    requires e.Compare? && i < |e.ops| && i < |e.comparators| && e.comparators[i] == Constant(r)
    requires e.ops[i] in {Eq, NotEq, Lt, LtE, Gt, GtE, In, NotIn} && Room(m, st.steps + 1, 1)
    ensures (var o, y := EvalChain(m, e, i, l, map[], 1, st), m.rt.compare(e.ops[i], l, r);
             if y == Return(true) then o == EvalChain(m, e, i + 1, r, map[], 1, Spent(st, 1, 1))
             else o.result == Compared(y))
  {
    LiteralRuns(m, r, map[], 1, st);
  }

  /** What is left of a chain whose first comparisons hold, each between two neighbours. */
  lemma {:induction false} ChainRuns(m: Machine, e: Expr, vs: seq<Value>, k: nat)
    requires e.Compare? && k < |vs| && k <= |e.ops| && |vs| - 1 <= |e.comparators|
    requires e.left == Constant(vs[0]) && forall i | 1 <= i < |vs| :: e.comparators[i - 1] == Constant(vs[i])
    requires forall i | 0 <= i < k :: e.ops[i] in {Eq, NotEq, Lt, LtE, Gt, GtE, In, NotIn} && m.rt.compare(e.ops[i], vs[i], vs[i + 1]) == Return(true)
    requires Room(m, 2 + k, 1)
    ensures Run(m, e) == EvalChain(m, e, k, vs[k], map[], 1, Spent(State(1, 0, 0), 1 + k, 1))
  {
    if k == 0 {
      DispatchCases(m, e, map[], 1, State(1, 0, 0));
      LiteralRuns(m, vs[0], map[], 1, State(1, 0, 0));
    } else {
      ChainRuns(m, e, vs, k - 1);
      Holds(m, e, k - 1, vs[k - 1], vs[k], Spent(State(1, 0, 0), k, 1));
      SpentAdds(State(1, 0, 0), k, 1, 1);
    }
  }

  /** The first comparison of a chain that does not hold decides it, and nothing after its operands is evaluated. */
  lemma ChainStops(m: Machine, ops: seq<CompareOp>, vs: seq<Value>, rest: seq<Expr>, k: nat)
    requires k < |ops| && k + 1 < |vs|
    requires forall i | 0 <= i <= k :: ops[i] in {Eq, NotEq, Lt, LtE, Gt, GtE, In, NotIn}
    requires forall i | 0 <= i < k :: m.rt.compare(ops[i], vs[i], vs[i + 1]) == Return(true)
    requires m.rt.compare(ops[k], vs[k], vs[k + 1]) != Return(true)
    requires Room(m, 3 + k, 1)
    ensures Run(m, Compare(Constant(vs[0]), ops, Literals(vs[1..]) + rest)).result == Compared(m.rt.compare(ops[k], vs[k], vs[k + 1]))
  {
    var e := Compare(Constant(vs[0]), ops, Literals(vs[1..]) + rest);
    ChainRuns(m, e, vs, k);
    Holds(m, e, k, vs[k], vs[k + 1], Spent(State(1, 0, 0), 1 + k, 1));
  }

  /** A chain is true if every operand compares so with its neighbour. */
  lemma ChainHolds(m: Machine, ops: seq<CompareOp>, vs: seq<Value>)
    requires |vs| == |ops| + 1
    requires forall i | 0 <= i < |ops| :: ops[i] in {Eq, NotEq, Lt, LtE, Gt, GtE, In, NotIn} && m.rt.compare(ops[i], vs[i], vs[i + 1]) == Return(true)
    requires Room(m, 1 + |vs|, 1)
    ensures Run(m, Compare(Constant(vs[0]), ops, Literals(vs[1..]))).result == Ok(Bool(true))
  {
    ChainRuns(m, Compare(Constant(vs[0]), ops, Literals(vs[1..])), vs, |ops|);
  }

  /******* Calls and attributes *******/

  function Named(names: seq<string>, vals: seq<Value>): (ks: seq<Keyword>)
    requires |names| == |vals|
    ensures |ks| == |names| && forall i | 0 <= i < |ks| :: ks[i] == Keyword(Some(names[i]), Constant(vals[i]))
  {
    seq(|names|, i requires 0 <= i < |names| => Keyword(Some(names[i]), Constant(vals[i])))
  }

  function Somes(names: seq<string>): (os: seq<Option<string>>)
    ensures |os| == |names| && forall i | 0 <= i < |os| :: os[i] == Some(names[i])
  {
    seq(|names|, i requires 0 <= i < |names| => Some(names[i]))
  }

  lemma CallOperands(f: Value, args: seq<Value>, names: seq<string>, vals: seq<Value>)
    requires |names| == |vals|
    ensures Operands(Call(Constant(f), Literals(args), Named(names, vals))) == Literals([f] + args + vals)
    ensures KeywordNames(Named(names, vals)) == Somes(names)
  {
    assert KeywordValues(Named(names, vals)) == Literals(vals);
    assert [Constant(f)] + Literals(args) + Literals(vals) == Literals([f] + args + vals);
  }

  /** A function is called with its arguments in order and each keyword's own value; a helper's errors pass through. */
  lemma CallExactly(m: Machine, f: Value, args: seq<Value>, names: seq<string>, vals: seq<Value>)
    requires |names| == |vals| && Room(m, 2 + |args| + |vals|, 1)
    ensures (var x := Run(m, Call(Constant(f), Literals(args), Named(names, vals))).result;
             var y := m.rt.call(f, args, Somes(names), vals);
             if y.Return? then Measured(m.lim, y.value, x)
             else match y.exception
               case ScorerLimit => x == Err(Limit(HelperLimit))
               case ScorerError => x == Err(Author(HelperError))
               case _ => x == Err(Author(CallFailed)))
  {
    var e, all := Call(Constant(f), Literals(args), Named(names, vals)), [f] + args + vals;
    CallOperands(f, args, names, vals);
    StrictRuns(m, e, all);
    assert all[1..1 + |args|] == args && all[1 + |args|..] == vals;
    var y := m.rt.call(f, args, Somes(names), vals);
    if y.Return? { SizedValueExactly(m.lim, y.value); }
  }

  /** A method is taken from a value that has it; a name outside the allowlist is refused before anything is evaluated. */
  lemma AttributeExactly(m: Machine, x: Expr, attr: string)
    requires Room(m, 1, 0)
    ensures (var r := Run(m, Attribute(x, attr, Load)).result;
             var c := Eval(m, x, map[], 1, State(1, 0, 0)).result;
             if attr !in V.ALLOWED_METHODS then r == Err(Dead(MethodNotAllowed))
             else if c.Err? then r == c
             else if m.rt.hasMethod(c.value, attr) then r == Ok(Method(c.value, attr))
             else r == Err(Author(NoSuchMethod)))
  {
    var e, st := Attribute(x, attr, Load), State(1, 0, 0);
    DispatchCases(m, e, map[], 1, st);
    if attr in V.ALLOWED_METHODS { OneOperand(m, e, x, map[], 1, st); }
  }

  /******* f-strings *******/

  /** A format specifier is refused before anything is evaluated; a conversion picks repr, ascii or str. */
  lemma FormattedExactly(m: Machine, x: Expr, conversion: int, spec: Option<Expr>)
    requires Room(m, 1, 0)
    ensures (var r := Run(m, FormattedValue(x, conversion, spec)).result;
             var c := Eval(m, x, map[], 1, State(1, 0, 0)).result;
             if spec.Some? then r == Err(Author(FormatSpecifier))
             else if c.Err? then r == c
             else r == Ok(Str(m.rt.text(if conversion in {114, 97} then conversion else -1, c.value))))
  {
    var e, st := FormattedValue(x, conversion, spec), State(1, 0, 0);
    DispatchCases(m, e, map[], 1, st);
    if spec.None? { OneOperand(m, e, x, map[], 1, st); }
  }

  /** `s` is the texts of the values one after the other, part `i` from `cuts[i]` to `cuts[i + 1]`. */
  ghost predicate Spells(rt: Runtime, vs: seq<Value>, s: string, cuts: seq<nat>) {
    && |cuts| == |vs| + 1 && cuts[0] == 0 && cuts[|vs|] == |s|
    && forall i | 0 <= i < |vs| :: From(s, cuts[i], cuts[i + 1], rt.text(-1, vs[i]))
  }

  predicate From(s: string, lo: nat, hi: nat, part: string) {
    lo <= hi <= |s| && s[lo..hi] == part
  }

  lemma FromShifts(first: string, s: string, lo: nat, hi: nat, part: string)
    requires From(s, lo, hi, part)
    ensures From(first + s, |first| + lo, |first| + hi, part)
  {
    assert (first + s)[|first| + lo..|first| + hi] == s[lo..hi];
  }

  lemma {:induction false} JoinSpells(rt: Runtime, vs: seq<Value>) returns (cuts: seq<nat>)
    ensures Spells(rt, vs, Join(rt, vs), cuts)
  {
    if vs == [] {
      cuts := [0];
    } else {
      var rest := JoinSpells(rt, vs[1..]);
      cuts := ShiftCuts(rt, vs, Join(rt, vs[1..]), rest);
    }
  }

  lemma ShiftCuts(rt: Runtime, vs: seq<Value>, s: string, rest: seq<nat>) returns (cuts: seq<nat>)
    requires vs != [] && Spells(rt, vs[1..], s, rest)
    ensures Spells(rt, vs, rt.text(-1, vs[0]) + s, cuts)
  {
    var first := rt.text(-1, vs[0]);
    var n := |first|;
    cuts := [0] + seq(|rest|, i requires 0 <= i < |rest| => n + rest[i]);
    forall i | 0 <= i < |vs| ensures From(first + s, cuts[i], cuts[i + 1], rt.text(-1, vs[i])) {
      if i > 0 {
        assert vs[1..][i - 1] == vs[i];
        FromShifts(first, s, rest[i - 1], rest[i], rt.text(-1, vs[i]));
      } else {
        assert (first + s)[..n] == first;
      }
    }
  }

  /** An f-string is the texts of its parts in order, unless that is too long. */
  lemma JoinedStrExactly(m: Machine, vs: seq<Value>) returns (s: string, cuts: seq<nat>)
    requires Room(m, 1 + |vs|, 1)
    ensures Spells(m.rt, vs, s, cuts)
    ensures Run(m, JoinedStr(Literals(vs))).result == if Allows(m.lim.chars, |s|) then Ok(Str(s)) else Err(Limit(CharLimit))
  {
    s := Join(m.rt, vs);
    cuts := JoinSpells(m.rt, vs);
    StrictRuns(m, JoinedStr(Literals(vs)), vs);
  }

  /******* Slices *******/

  function LiteralOrNone(v: Option<Value>): Option<Expr> {
    if v.Some? then Some(Constant(v.value)) else None
  }

  function ValueOrNone(v: Option<Value>): Value {
    if v.Some? then v.value else NoneValue
  }

  function Given(vs: seq<Option<Value>>): seq<Value> {
    if vs == [] then [] else (if vs[0].Some? then [vs[0].value] else []) + Given(vs[1..])
  }

  /** A bound that is left out is None, and the others keep their places. */
  lemma SliceExactly(m: Machine, lower: Option<Value>, upper: Option<Value>, step: Option<Value>)
    requires Room(m, 4, 1)
    ensures Run(m, Slice(LiteralOrNone(lower), LiteralOrNone(upper), LiteralOrNone(step))).result
      == Ok(SliceOf(ValueOrNone(lower), ValueOrNone(upper), ValueOrNone(step)))
  {
    var l, u, s := LiteralOrNone(lower), LiteralOrNone(upper), LiteralOrNone(step);
    var vals := Given([lower, upper, step]);
    SlicePlaces(lower, upper, step);
    StrictRuns(m, Slice(l, u, s), vals);
  }

  lemma SlicePlaces(lower: Option<Value>, upper: Option<Value>, step: Option<Value>)
    ensures (var os := [LiteralOrNone(lower), LiteralOrNone(upper), LiteralOrNone(step)];
             var vals := Given([lower, upper, step]);
             && |vals| <= 3 && Present(os) == Literals(vals)
             && Places(os, vals) == [ValueOrNone(lower), ValueOrNone(upper), ValueOrNone(step)])
  {
    var os, given := [LiteralOrNone(lower), LiteralOrNone(upper), LiteralOrNone(step)], [lower, upper, step];
    assert os[1..] == [os[1], os[2]] && [os[1], os[2]][1..] == [os[2]] && [os[2]][1..] == [];
    assert given[1..] == [upper, step] && [upper, step][1..] == [step] && [step][1..] == [];
    PlacesStep(os[2..], [step]);
    PlacesStep(os[1..], [upper, step]);
    PlacesStep(os, given);
  }

  lemma PlacesStep(os: seq<Option<Expr>>, vs: seq<Option<Value>>)
    requires |os| == |vs| > 0 && os[0] == LiteralOrNone(vs[0])
    requires Present(os[1..]) == Literals(Given(vs[1..]))
    ensures Present(os) == Literals(Given(vs))
    ensures Places(os, Given(vs)) == [ValueOrNone(vs[0])] + Places(os[1..], Given(vs[1..]))
  {
    var rest := Given(vs[1..]);
    if vs[0].Some? {
      assert ([vs[0].value] + rest)[1..] == rest;
    } else {
      assert [] + rest == rest;
    }
  }
}
