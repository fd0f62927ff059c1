/**
 What the scorer's interpreter computes (shared/code_scorer.py, `_Interpreter`): a
 big-step semantics that threads the work counters and stops at the first failure.
 Python's own operators and library, which the interpreter calls into, are the
 functions of a `Runtime`; every statement about the interpreter holds for all of them.
 */
module ScorerSemantics {
  import opened Wrappers
  import opened ScorerSyntax
  import V = ScorerValidation

  /******* Limits *******/

  type Bound = Option<nat>  // None is no bound at all

  datatype Limits = Limits(steps: Bound, depth: Bound, chars: Bound, items: Bound, exponent: Bound)

  const STANDARD := Limits(Some(50000), Some(40), Some(200000), Some(10000), Some(64))
  const UNLIMITED := Limits(None, None, None, None, None)

  predicate Over(n: int, bound: Bound) {
    bound.Some? && n > bound.value
  }

  predicate OverReal(x: real, bound: Bound) {
    bound.Some? && x > bound.value as real
  }

  /******* Outcomes *******/

  datatype LimitKind = StepLimit | DepthLimit | CharLimit | ItemLimit | ExponentLimit | HelperLimit

  datatype AuthorError =
    | NotCompiled | UndefinedName | FormatSpecifier | DivisionByZero | CannotApply | CannotCompare
    | NoSuchKey | CannotIndex | NoSuchMethod | HelperError | CallFailed | CannotUnpack | WrongCount | BadTarget | BadScore

  // The branches that validation is meant to rule out.
  datatype DeadBranch =
    | NodeNotSupported | OperatorNotSupported | UnaryNotSupported
    | ComparisonNotSupported | MethodNotAllowed | AsyncNotAllowed

  datatype Failure =
    | Limit(limit: LimitKind)
    | Author(problem: AuthorError)
    | Dead(branch: DeadBranch)
    | Escaped  // a Python exception that is not a ScorerError

  datatype Result<+T> = Ok(value: T) | Err(failure: Failure) {
    predicate HitLimit() { Err? && failure.Limit? }
  }

  /** `iterations` and `deepest` only observe; the code keeps `steps` alone. */
  datatype State = State(steps: nat, iterations: nat, deepest: int)

  datatype Outcome<+T> = Outcome(result: Result<T>, st: State)

  /******* Python *******/

  // A helper raises a ScorerError of its own, at a limit (`ScorerLimit`) or for another reason.
  datatype Exception = KeyError | IndexError | TypeError | ZeroDivisionError | ScorerLimit | ScorerError | OtherException

  datatype Raw<+T> = Return(value: T) | Raise(exception: Exception)

  datatype Runtime = Runtime(
    binary: (BinaryOp, Value, Value) -> Raw<Value>,
    unary: (UnaryOp, Value) -> Raw<Value>,
    compare: (CompareOp, Value, Value) -> Raw<bool>,
    index: (Value, Value) -> Raw<Value>,
    hasMethod: (Value, string) -> bool,
    call: (Value, seq<Value>, seq<Option<string>>, seq<Value>) -> Raw<Value>,
    text: (int, Value) -> string  // str, repr or ascii, by conversion code
  )

  const CONVERT_REPR := 114
  const CONVERT_ASCII := 97
  const CONVERT_STR := -1

  type Env = map<string, Value>

  datatype Machine = Machine(lim: Limits, rt: Runtime, scope: Env)

  predicate Truthy(v: Value) {
    match v
    case NoneValue => false
    case Bool(b) => b
    case Int(i) => i != 0
    case Float(r) => r != 0.0
    case Str(s) => s != ""
    case List(xs) => xs != []
    case Tuple(xs) => xs != []
    case Set(xs) => xs != []
    case Dict(es) => es != []
    case Iterator(xs, sized) => !sized || xs != []
    case _ => true
  }

  /** What iterating over a value yields, if it can be iterated at all. */
  function Elements(v: Value): Option<seq<Value>> {
    match v
    case Str(s) => Some(seq(|s|, i requires 0 <= i < |s| => Str([s[i]])))
    case List(xs) => Some(xs)
    case Tuple(xs) => Some(xs)
    case Set(xs) => Some(xs)
    case Iterator(xs, _) => Some(xs)
    case Dict(es) => Some(seq(|es|, i requires 0 <= i < |es| => es[i].key))
    case _ => None
  }

  predicate Hashable(v: Value)
    decreases v
  {
    match v
    case List(_) => false
    case Set(_) => false
    case Dict(_) => false
    case Tuple(xs) => forall i | 0 <= i < |xs| :: Hashable(xs[i])
    case _ => true
  }

  /** Equal keys have equal canonical forms: `True`, `1` and `1.0` are one key. */
  function Canonical(v: Value): Value
    decreases v
  {
    match v
    case Bool(b) => Float(if b then 1.0 else 0.0)
    case Int(i) => Float(i as real)
    case Tuple(xs) => Tuple(seq(|xs|, i requires 0 <= i < |xs| => Canonical(xs[i])))
    case _ => v
  }

  /** `entries[key] = value`: an existing key keeps its place and its spelling. */
  function Put(es: seq<Entry>, key: Value, value: Value): seq<Entry> {
    if es == [] then [Entry(key, value)]
    else if Canonical(es[0].key) == Canonical(key) then [Entry(es[0].key, value)] + es[1..]
    else [es[0]] + Put(es[1..], key, value)
  }

  /** `dict(zip(keys, vals))` over `es` */
  function ZipInto(es: seq<Entry>, keys: seq<Value>, vals: seq<Value>): Result<seq<Entry>>
    decreases |keys|
  {
    if keys == [] || vals == [] then Ok(es)
    else if !Hashable(keys[0]) then Err(Escaped)
    else ZipInto(Put(es, keys[0], vals[0]), keys[1..], vals[1..])
  }

  function InsertAll(set_: seq<Value>, xs: seq<Value>): Result<seq<Value>>
    decreases |xs|
  {
    if xs == [] then Ok(set_)
    else if !Hashable(xs[0]) then Err(Escaped)
    else if exists i | 0 <= i < |set_| :: Canonical(set_[i]) == Canonical(xs[0]) then InsertAll(set_, xs[1..])
    else InsertAll(set_ + [xs[0]], xs[1..])
  }

  /** `set(xs)`; the first of equal elements stays */
  function MakeSet(r: Result<Value>): Result<Value> {
    if r.Err? || !r.value.List? then r else
    var s := InsertAll([], r.value.items);
    if s.Ok? then Ok(Set(s.value)) else Err(s.failure)
  }

  /******* Size checks *******/

  function Sized(lim: Limits, n: nat, v: Value): Result<Value> {
    if Over(n, lim.items) then Err(Limit(ItemLimit)) else Ok(v)
  }

  function SizedText(lim: Limits, s: string): Result<Value> {
    if Over(|s|, lim.chars) then Err(Limit(CharLimit)) else Ok(Str(s))
  }

  function SizedValue(lim: Limits, v: Value): Result<Value> {
    match v
    case Str(s) => SizedText(lim, s)
    case List(xs) => Sized(lim, |xs|, v)
    case Tuple(xs) => Sized(lim, |xs|, v)
    case Set(xs) => Sized(lim, |xs|, v)
    case Dict(es) => Sized(lim, |es|, v)
    case _ => Ok(v)
  }

  predicate HugeExponent(lim: Limits, v: Value) {
    match v
    case Int(i) => Over(if i < 0 then -i else i, lim.exponent)
    case Float(r) => OverReal(if r < 0.0 then -r else r, lim.exponent)
    case Bool(b) => Over(if b then 1 else 0, lim.exponent)
    case _ => false
  }

  /******* Constructs that evaluate all their operands, left to right *******/

  predicate Strict(e: Expr) {
    match e
    case Constant(_) => true
    case Name(_, _) => true
    case ListDisplay(_, _) => true
    case TupleDisplay(_, _) => true
    case SetDisplay(_) => true
    case DictDisplay(_, _) => true
    case JoinedStr(_) => true
    case FormattedValue(_, _, _) => true
    case Binary(_, _, _) => true
    case Unary(_, _) => true
    case Subscript(_, _, _) => true
    case Slice(_, _, _) => true
    case Attribute(_, _, _) => true
    case Call(_, _, _) => true
    case _ => false
  }

  function KeywordValues(ks: seq<Keyword>): (es: seq<Expr>)
    ensures |es| == |ks| && forall i | 0 <= i < |ks| :: es[i] == ks[i].value
  {
    seq(|ks|, i requires 0 <= i < |ks| => ks[i].value)
  }

  lemma {:induction false} PresentMember(os: seq<Option<Expr>>, i: nat) returns (k: nat)
    requires i < |Present(os)|
    ensures k < |os| && os[k] == Some(Present(os)[i])
  {
    if os[0].Some? {
      if i == 0 {
        k := 0;
      } else {
        k := PresentMember(os[1..], i - 1);
        k := k + 1;
      }
    } else {
      k := PresentMember(os[1..], i);
      k := k + 1;
    }
  }

  lemma PresentBelow(os: seq<Option<Expr>>, e: Expr)
    requires forall i | 0 <= i < |os| :: os[i].Some? ==> os[i].value < e
    ensures forall i | 0 <= i < |Present(os)| :: Present(os)[i] < e
  {
    forall i | 0 <= i < |Present(os)| ensures Present(os)[i] < e {
      var k := PresentMember(os, i);
    }
  }

  /** The operands of a strict construct, in the order in which they are evaluated. */
  function Operands(e: Expr): (es: seq<Expr>)
    requires Strict(e)
    ensures forall i | 0 <= i < |es| :: es[i] < e
  {
    match e
    case Constant(_) => []
    case Name(_, _) => []
    case ListDisplay(es, _) => es
    case TupleDisplay(es, _) => es
    case SetDisplay(es) => es
    case DictDisplay(ks, vs) =>
      PresentBelow(ks, e);
      Present(ks) + vs
    case JoinedStr(ps) => ps
    case FormattedValue(x, _, _) => [x]
    case Binary(l, _, r) => [l, r]
    case Unary(_, x) => [x]
    case Subscript(x, i, _) => [x, i]
    case Slice(l, u, s) =>
      PresentBelow([l, u, s], e);
      Present([l, u, s])
    case Attribute(x, _, _) => [x]
    case Call(f, args, kws) => [f] + args + KeywordValues(kws)
  }

  /** What a construct refuses before it evaluates anything. */
  function Precheck(e: Expr): Option<Failure> {
    match e
    case FormattedValue(_, _, Some(_)) => Some(Author(FormatSpecifier))
    case Attribute(_, attr, _) => if attr in V.ALLOWED_METHODS then None else Some(Dead(MethodNotAllowed))
    case _ => None
  }

  function Lookup(m: Machine, id: string, local: Env): Result<Value> {
    if id in local then Ok(local[id])
    else if id in m.scope then Ok(m.scope[id])
    else if id in V.BUILTINS then Ok(Builtin(id))
    else Err(Author(UndefinedName))
  }

  predicate InBinaryTable(op: BinaryOp) {
    op in {Add, Sub, Mult, Div, FloorDiv, Mod, Pow}
  }

  predicate InCompareTable(op: CompareOp) {
    op in {Eq, NotEq, Lt, LtE, Gt, GtE, In, NotIn}
  }

  function ApplyBinary(m: Machine, op: BinaryOp, l: Value, r: Value): Result<Value> {
    if op == Pow && HugeExponent(m.lim, r) then Err(Limit(ExponentLimit))
    else if !InBinaryTable(op) then Err(Dead(OperatorNotSupported))
    else match m.rt.binary(op, l, r)
      case Return(v) => SizedValue(m.lim, v)
      case Raise(KeyError) => Err(Dead(OperatorNotSupported))  // the table and the operator share one handler
      case Raise(ZeroDivisionError) => Err(Author(DivisionByZero))
      case Raise(TypeError) => Err(Author(CannotApply))
      case Raise(_) => Err(Escaped)
  }

  function ApplyUnary(m: Machine, op: UnaryOp, v: Value): Result<Value> {
    if op == Not then Ok(Bool(!Truthy(v)))
    else if op == Invert then Err(Dead(UnaryNotSupported))
    else match m.rt.unary(op, v)
      case Return(x) => Ok(x)
      case Raise(_) => Err(Escaped)
  }

  function ApplyCompare(m: Machine, op: CompareOp, l: Value, r: Value): Result<bool> {
    if !InCompareTable(op) then Err(Dead(ComparisonNotSupported))
    else match m.rt.compare(op, l, r)
      case Return(b) => Ok(b)
      case Raise(KeyError) => Err(Dead(ComparisonNotSupported))
      case Raise(TypeError) => Err(Author(CannotCompare))
      case Raise(_) => Err(Escaped)
  }

  function ApplyIndex(m: Machine, v: Value, key: Value): Result<Value> {
    match m.rt.index(v, key)
    case Return(x) => Ok(x)
    case Raise(KeyError) => Err(Author(NoSuchKey))
    case Raise(IndexError) => Err(Author(NoSuchKey))
    case Raise(TypeError) => Err(Author(CannotIndex))
    case Raise(_) => Err(Escaped)
  }

  function KeywordNames(ks: seq<Keyword>): seq<Option<string>> {
    seq(|ks|, i requires 0 <= i < |ks| => ks[i].arg)
  }

  function ApplyCall(m: Machine, f: Value, args: seq<Value>, names: seq<Option<string>>, vals: seq<Value>): Result<Value> {
    match m.rt.call(f, args, names, vals)
    case Return(v) => SizedValue(m.lim, v)
    case Raise(ScorerLimit) => Err(Limit(HelperLimit))
    case Raise(ScorerError) => Err(Author(HelperError))
    case Raise(_) => Err(Author(CallFailed))
  }

  function Join(rt: Runtime, vals: seq<Value>): string {
    if vals == [] then "" else rt.text(CONVERT_STR, vals[0]) + Join(rt, vals[1..])
  }

  function Convert(rt: Runtime, conversion: int, v: Value): string {
    rt.text(if conversion == CONVERT_REPR || conversion == CONVERT_ASCII then conversion else CONVERT_STR, v)
  }

  /** The operand values of a slice put back in their places. */
  function Places(os: seq<Option<Expr>>, vals: seq<Value>): (places: seq<Value>)
    requires |vals| == |Present(os)|
    ensures |places| == |os|
  {
    if os == [] then []
    else if os[0].Some? then [vals[0]] + Places(os[1..], vals[1..])
    else [NoneValue] + Places(os[1..], vals)
  }

  function ApplyDict(m: Machine, keys: seq<Value>, vals: seq<Value>): Result<Value> {
    if Over(|vals|, m.lim.items) then Err(Limit(ItemLimit)) else
    var d := ZipInto([], keys, vals);
    if d.Ok? then Ok(Dict(d.value)) else Err(d.failure)
  }

  /** What a strict construct makes of the values of its operands. */
  function Apply(m: Machine, e: Expr, vals: seq<Value>, local: Env): Result<Value>
    requires Strict(e) && |vals| == |Operands(e)|
  {
    match e
    case Constant(v) => Ok(v)
    case Name(id, _) => Lookup(m, id, local)
    case ListDisplay(_, _) => Sized(m.lim, |vals|, List(vals))
    case TupleDisplay(_, _) => Sized(m.lim, |vals|, Tuple(vals))
    case SetDisplay(_) => MakeSet(Sized(m.lim, |vals|, List(vals)))
    case DictDisplay(ks, _) => ApplyDict(m, vals[..|Present(ks)|], vals[|Present(ks)|..])
    case JoinedStr(_) => SizedText(m.lim, Join(m.rt, vals))
    case FormattedValue(_, conversion, _) => Ok(Str(Convert(m.rt, conversion, vals[0])))
    case Binary(_, op, _) => ApplyBinary(m, op, vals[0], vals[1])
    case Unary(op, _) => ApplyUnary(m, op, vals[0])
    case Subscript(_, _, _) => ApplyIndex(m, vals[0], vals[1])
    case Slice(l, u, s) => var p := Places([l, u, s], vals); Ok(SliceOf(p[0], p[1], p[2]))
    case Attribute(_, attr, _) => if m.rt.hasMethod(vals[0], attr) then Ok(Method(vals[0], attr)) else Err(Author(NoSuchMethod))
    case Call(_, args, kws) =>
      ApplyCall(m, vals[0], vals[1..1 + |args|], KeywordNames(kws), vals[1 + |args|..])
  }

  /******* Binding of comprehension targets *******/

  function Bind(target: Expr, v: Value, scope: Env): Result<Env>
    decreases target
  {
    match target
    case Name(id, _) => Ok(scope[id := v])
    case TupleDisplay(ts, _) =>
      (match Elements(v)
       case None => Err(Author(CannotUnpack))
       case Some(xs) => if |xs| != |ts| then Err(Author(WrongCount)) else BindAll(ts, xs, scope))
    case _ => Err(Author(BadTarget))
  }

  function BindAll(ts: seq<Expr>, xs: seq<Value>, scope: Env): Result<Env>
    requires |ts| == |xs|
    decreases ts
  {
    if ts == [] then Ok(scope) else
    match Bind(ts[0], xs[0], scope)
    case Ok(bound) => BindAll(ts[1..], xs[1..], bound)
    case Err(f) => Err(f)
  }

  /******* Comprehensions *******/

  predicate IsComprehension(e: Expr) {
    e.ListComp? || e.SetComp? || e.GeneratorExp? || e.DictComp?
  }

  /** What a comprehension has gathered so far. */
  datatype Gathered = Elems(elems: seq<Value>) | Pairs(pairs: seq<Entry>)

  predicate Fits(e: Expr, g: Gathered) {
    e.DictComp? <==> g.Pairs?
  }

  function NothingYet(e: Expr): (g: Gathered)
    ensures Fits(e, g)
  {
    if e.DictComp? then Pairs([]) else Elems([])
  }

  function StorePair(lim: Limits, pairs: seq<Entry>, key: Value, value: Value): Result<Gathered> {
    if !Hashable(key) then Err(Escaped) else
    var es := Put(pairs, key, value);
    if Over(|es|, lim.items) then Err(Limit(ItemLimit)) else Ok(Pairs(es))
  }

  function Finish(lim: Limits, e: Expr, g: Gathered): Result<Value> {
    match g
    case Pairs(es) => Ok(Dict(es))
    case Elems(xs) =>
      var r := Sized(lim, |xs|, List(xs));
      if e.SetComp? then MakeSet(r) else r
  }

  /******* The interpreter *******/

  /**
   The work bookkeeping: steps within the budget plus one, no node method above the
   depth limit, and iterations paid for by steps, up to a credit.
   */
  predicate Accounted(lim: Limits, st: State, ok: bool, st': State, credit: int) {
    && st.steps <= st'.steps
    && st.iterations <= st'.iterations
    && st'.iterations - st.iterations <= st'.steps - st.steps + credit
    && (lim.steps.Some? && st.steps <= lim.steps.value ==>
          st'.steps <= lim.steps.value + (if ok then 0 else 1))
    && (lim.depth.Some? && st.deepest <= lim.depth.value ==> st'.deepest <= lim.depth.value)
  }

  function Deepest(st: State, depth: int): State {
    if depth > st.deepest then st.(deepest := depth) else st
  }

  /** `eval`: one step, the limits, then the method of the node's type, one level deeper. */
  function Eval(m: Machine, e: Expr, local: Env, depth: int, st: State): (o: Outcome<Value>)
    ensures Accounted(m.lim, st, o.result.Ok?, o.st, -1)
    decreases e, 3
  {
    var st1 := st.(steps := st.steps + 1);
    if Over(st1.steps, m.lim.steps) then Outcome(Err(Limit(StepLimit)), st1)
    else if Over(depth, m.lim.depth) then Outcome(Err(Limit(DepthLimit)), st1)
    else Dispatch(m, e, local, depth + 1, Deepest(st1, depth))
  }

  function Dispatch(m: Machine, e: Expr, local: Env, depth: int, st: State): (o: Outcome<Value>)
    ensures Accounted(m.lim, st, o.result.Ok?, o.st, 0)
    decreases e, 2
  {
    if Strict(e) then EvalStrict(m, e, local, depth, st)
    else if e.IfExp? then EvalIf(m, e, local, depth, st)
    else if e.Logic? then EvalLogic(m, e, 0, Bool(e.logic == And), local, depth, st)
    else if e.Compare? then EvalCompare(m, e, local, depth, st)
    else if IsComprehension(e) then EvalComprehension(m, e, local, depth, st)
    else Outcome(Err(Dead(NodeNotSupported)), st)
  }

  function EvalStrict(m: Machine, e: Expr, local: Env, depth: int, st: State): (o: Outcome<Value>)
    requires Strict(e)
    ensures Accounted(m.lim, st, o.result.Ok?, o.st, 0)
    decreases e, 1, |Operands(e)| + 1
  {
    if Precheck(e).Some? then Outcome(Err(Precheck(e).value), st) else
    var o := EvalAll(m, e, Operands(e), [], local, depth, st);
    if o.result.Err? then Outcome(Err(o.result.failure), o.st)
    else Outcome(Apply(m, e, o.result.value, local), o.st)
  }

  function EvalIf(m: Machine, e: Expr, local: Env, depth: int, st: State): (o: Outcome<Value>)
    requires e.IfExp?
    ensures Accounted(m.lim, st, o.result.Ok?, o.st, 0)
    decreases e, 1
  {
    var o := Eval(m, e.test, local, depth, st);
    if o.result.Err? then o
    else Eval(m, if Truthy(o.result.value) then e.body else e.orelse, local, depth, o.st)
  }

  function EvalCompare(m: Machine, e: Expr, local: Env, depth: int, st: State): (o: Outcome<Value>)
    requires e.Compare?
    ensures Accounted(m.lim, st, o.result.Ok?, o.st, 0)
    decreases e, 1, |e.comparators| + 1
  {
    var o := Eval(m, e.left, local, depth, st);
    if o.result.Err? then o else EvalChain(m, e, 0, o.result.value, local, depth, o.st)
  }

  function EvalComprehension(m: Machine, e: Expr, local: Env, depth: int, st: State): (o: Outcome<Value>)
    requires IsComprehension(e)
    ensures Accounted(m.lim, st, o.result.Ok?, o.st, 0)
    decreases e, 1, |e.generators| + 1
  {
    var o := Generate(m, e, 0, map[], NothingYet(e), local, depth, st);
    if o.result.Err? then Outcome(Err(o.result.failure), o.st)
    else Outcome(Finish(m.lim, e, o.result.value), o.st)
  }

  /** The operands from `|acc|` on, after those before it have given `acc`. */
  function EvalAll(m: Machine, ghost parent: Expr, es: seq<Expr>, acc: seq<Value>, local: Env, depth: int, st: State)
      : (o: Outcome<seq<Value>>)
    requires |acc| <= |es| && forall i | 0 <= i < |es| :: es[i] < parent
    ensures Accounted(m.lim, st, o.result.Ok?, o.st, 0)
    ensures o.result.Ok? ==> |o.result.value| == |es|
    decreases parent, 1, |es| - |acc|
  {
    if |acc| == |es| then Outcome(Ok(acc), st) else
    var o := Eval(m, es[|acc|], local, depth, st);
    if o.result.Err? then Outcome(Err(o.result.failure), o.st)
    else EvalAll(m, parent, es, acc + [o.result.value], local, depth, o.st)
  }

  function EvalLogic(m: Machine, e: Expr, i: nat, last: Value, local: Env, depth: int, st: State): (o: Outcome<Value>)
    requires e.Logic? && i <= |e.parts|
    ensures Accounted(m.lim, st, o.result.Ok?, o.st, 0)
    decreases e, 1, |e.parts| - i
  {
    if i == |e.parts| then Outcome(Ok(last), st) else
    var o := Eval(m, e.parts[i], local, depth, st);
    if o.result.Err? || Truthy(o.result.value) != (e.logic == And) then o
    else EvalLogic(m, e, i + 1, o.result.value, local, depth, o.st)
  }

  function EvalChain(m: Machine, e: Expr, i: nat, left: Value, local: Env, depth: int, st: State): (o: Outcome<Value>)
    requires e.Compare?
    ensures Accounted(m.lim, st, o.result.Ok?, o.st, 0)
    decreases e, 1, |e.comparators| - i
  {
    if i >= |e.comparators| || i >= |e.ops| then Outcome(Ok(Bool(true)), st) else
    var o := Eval(m, e.comparators[i], local, depth, st);
    if o.result.Err? then o else
    match ApplyCompare(m, e.ops[i], left, o.result.value)
    case Err(f) => Outcome(Err(f), o.st)
    case Ok(false) => Outcome(Ok(Bool(false)), o.st)
    case Ok(true) => EvalChain(m, e, i + 1, o.result.value, local, depth, o.st)
  }

  /** All combinations of the generators from `index` on, each handed to the comprehension's body as it arises. */
  function Generate(m: Machine, e: Expr, index: nat, bound: Env, g: Gathered, local: Env, depth: int, st: State)
      : (o: Outcome<Gathered>)
    requires IsComprehension(e) && Fits(e, g) && index <= |e.generators|
    ensures o.result.Ok? ==> Fits(e, o.result.value)
    ensures Accounted(m.lim, st, o.result.Ok?, o.st, if o.result.Ok? then -1 else 0)
    decreases e, 1, |e.generators| - index, 1, 0
  {
    if index == |e.generators| then Yield(m, e, bound, g, local, depth, st)
    else if e.generators[index].isAsync then Outcome(Err(Dead(AsyncNotAllowed)), st) else
    var o := Eval(m, e.generators[index].iter, local + bound, depth, st);
    if o.result.Err? then Outcome(Err(o.result.failure), o.st) else
    match Elements(o.result.value)
    case None => Outcome(Err(Escaped), o.st)
    case Some(items) => Iterate(m, e, index, bound, items, 0, g, local, depth, o.st)
  }

  function Iterate(m: Machine, e: Expr, index: nat, bound: Env, items: seq<Value>, k: nat, g: Gathered,
                   local: Env, depth: int, st: State): (o: Outcome<Gathered>)
    requires IsComprehension(e) && Fits(e, g) && index < |e.generators| && k <= |items|
    ensures o.result.Ok? ==> Fits(e, o.result.value)
    ensures Accounted(m.lim, st, o.result.Ok?, o.st, if o.result.Ok? then 0 else 1)
    decreases e, 1, |e.generators| - index, 0, |items| - k
  {
    if k == |items| then Outcome(Ok(g), st) else
    var o := Item(m, e, index, bound, items[k], k + 1, g, local, depth, st);
    if o.result.Err? then o
    else Iterate(m, e, index, bound, items, k + 1, o.result.value, local, depth, o.st)
  }

  /** One pass of a generator's loop, the `count`-th. */
  function Item(m: Machine, e: Expr, index: nat, bound: Env, item: Value, count: nat, g: Gathered,
                local: Env, depth: int, st: State): (o: Outcome<Gathered>)
    requires IsComprehension(e) && Fits(e, g) && index < |e.generators|
    ensures o.result.Ok? ==> Fits(e, o.result.value)
    ensures Accounted(m.lim, st, o.result.Ok?, o.st, if o.result.Ok? then 0 else 1)
    decreases e, 1, |e.generators| - index, 0, 0, |e.generators[index].ifs| + 2
  {
    var st1 := st.(iterations := st.iterations + 1);
    if Over(count, m.lim.items) then Outcome(Err(Limit(ItemLimit)), st1) else
    match Bind(e.generators[index].target, item, bound)
    case Err(f) => Outcome(Err(f), st1)
    case Ok(scope) => Filter(m, e, index, scope, g, local, depth, st1)
  }

  /** The conditions of a generator, then the generators inside it if they hold. */
  function Filter(m: Machine, e: Expr, index: nat, scope: Env, g: Gathered, local: Env, depth: int, st: State)
      : (o: Outcome<Gathered>)
    requires IsComprehension(e) && Fits(e, g) && index < |e.generators|
    ensures o.result.Ok? ==> Fits(e, o.result.value)
    ensures Accounted(m.lim, st, o.result.Ok?, o.st, if o.result.Ok? then -1 else 0)
    decreases e, 1, |e.generators| - index, 0, 0, |e.generators[index].ifs| + 1
  {
    var c := Conditions(m, e, index, 0, local + scope, depth, st);
    if c.result.Err? then Outcome(Err(c.result.failure), c.st)
    else if c.result.value then Generate(m, e, index + 1, scope, g, local, depth, c.st)
    else Outcome(Ok(g), c.st)
  }

  /** `all(...)` over the conditions of one generator. A refused item has paid a step for the condition that refused it. */
  function Conditions(m: Machine, e: Expr, index: nat, i: nat, local: Env, depth: int, st: State): (o: Outcome<bool>)
    requires IsComprehension(e) && index < |e.generators| && i <= |e.generators[index].ifs|
    ensures Accounted(m.lim, st, o.result.Ok?, o.st, if o.result == Ok(false) then -1 else 0)
    decreases e, 1, |e.generators| - index, 0, 0, |e.generators[index].ifs| - i
  {
    if i == |e.generators[index].ifs| then Outcome(Ok(true), st) else
    var o := Eval(m, e.generators[index].ifs[i], local, depth, st);
    if o.result.Err? then Outcome(Err(o.result.failure), o.st)
    else if !Truthy(o.result.value) then Outcome(Ok(false), o.st)
    else Conditions(m, e, index, i + 1, local, depth, o.st)
  }

  /** The comprehension's body in one combination; a dictionary's value is evaluated before its key. */
  function Yield(m: Machine, e: Expr, bound: Env, g: Gathered, local: Env, depth: int, st: State): (o: Outcome<Gathered>)
    requires IsComprehension(e) && Fits(e, g)
    ensures o.result.Ok? ==> Fits(e, o.result.value)
    ensures Accounted(m.lim, st, o.result.Ok?, o.st, -1)
    decreases e, 0
  {
    var x := Eval(m, e.elt, local + bound, depth, st);
    if x.result.Err? then Outcome(Err(x.result.failure), x.st)
    else if g.Elems? then Outcome(Ok(Elems(g.elems + [x.result.value])), x.st) else
    var k := Eval(m, e.key, local + bound, depth, x.st);
    if k.result.Err? then Outcome(Err(k.result.failure), k.st)
    else Outcome(StorePair(m.lim, g.pairs, k.result.value, x.result.value), k.st)
  }

  /** `run` */
  function Run(m: Machine, e: Expr): Outcome<Value> {
    Eval(m, e, map[], 0, State(0, 0, 0))
  }

  lemma DispatchCases(m: Machine, e: Expr, local: Env, depth: int, st: State)
    ensures Strict(e) ==> Dispatch(m, e, local, depth, st) == EvalStrict(m, e, local, depth, st)
    ensures e.Compare? ==> Dispatch(m, e, local, depth, st) == EvalCompare(m, e, local, depth, st)
    ensures IsComprehension(e) ==> Dispatch(m, e, local, depth, st) == EvalComprehension(m, e, local, depth, st)
  {
  }

  /******* Properties of a whole tree hold of what is evaluated *******/

  lemma ChildEverywhere(p: Node -> bool, n: Node, child: Node)
    requires Everywhere(p, n) && child in Children(n)
    ensures Everywhere(p, child)
  {
    var i :| 0 <= i < |Children(n)| && Children(n)[i] == child;
    ChildSize(n, i);
  }

  lemma OperandEverywhere(p: Node -> bool, e: Expr, i: nat)
    requires Everywhere(p, ExprNode(e)) && Strict(e) && i < |Operands(e)|
    ensures Everywhere(p, ExprNode(Operands(e)[i]))
  {
    var x := Operands(e)[i];
    if e.Call? && i >= 1 + |e.args| {
      var k := e.keywords[i - 1 - |e.args|];
      assert Keywords(e.keywords)[i - 1 - |e.args|] == KeywordNode(k);
      ChildEverywhere(p, ExprNode(e), KeywordNode(k));
      assert ExprNode(x) in Children(KeywordNode(k));
      ChildEverywhere(p, KeywordNode(k), ExprNode(x));
    } else {
      OperandIsChild(e, i);
      ChildEverywhere(p, ExprNode(e), ExprNode(x));
    }
  }

  lemma OperandIsChild(e: Expr, i: nat)
    requires Strict(e) && i < |Operands(e)| && !(e.Call? && i >= 1 + |e.args|)
    ensures ExprNode(Operands(e)[i]) in ExprChildren(e)
  {
    match e
    case ListDisplay(es, _) => assert Exprs(es)[i] == ExprNode(es[i]);
    case TupleDisplay(es, _) => assert Exprs(es)[i] == ExprNode(es[i]);
    case SetDisplay(es) => assert Exprs(es)[i] == ExprNode(es[i]);
    case DictDisplay(ks, vs) =>
      if i < |Present(ks)| {
        assert Exprs(Present(ks))[i] == ExprNode(Operands(e)[i]);
      } else {
        assert Exprs(vs)[i - |Present(ks)|] == ExprNode(Operands(e)[i]);
      }
    case JoinedStr(ps) => assert Exprs(ps)[i] == ExprNode(ps[i]);
    case Slice(l, u, s) => assert Exprs(Present([l, u, s]))[i] == ExprNode(Operands(e)[i]);
    case Call(f, args, kws) => if i > 0 { assert Exprs(args)[i - 1] == ExprNode(args[i - 1]); }
    case _ =>
  }

  lemma PartEverywhere(p: Node -> bool, e: Expr, i: nat)
    requires Everywhere(p, ExprNode(e)) && e.Logic? && i < |e.parts|
    ensures Everywhere(p, ExprNode(e.parts[i]))
  {
    assert Exprs(e.parts)[i] == ExprNode(e.parts[i]);
    ChildEverywhere(p, ExprNode(e), ExprNode(e.parts[i]));
  }

  lemma ComparatorEverywhere(p: Node -> bool, e: Expr, i: nat)
    requires Everywhere(p, ExprNode(e)) && e.Compare? && i < |e.comparators|
    ensures Everywhere(p, ExprNode(e.comparators[i])) && (i < |e.ops| ==> p(CompareNode(e.ops[i])))
  {
    assert Exprs(e.comparators)[i] == ExprNode(e.comparators[i]);
    ChildEverywhere(p, ExprNode(e), ExprNode(e.comparators[i]));
    if i < |e.ops| {
      assert Compares(e.ops)[i] == CompareNode(e.ops[i]);
      ChildEverywhere(p, ExprNode(e), CompareNode(e.ops[i]));
    }
  }

  lemma GeneratorEverywhere(p: Node -> bool, e: Expr, index: nat)
    requires Everywhere(p, ExprNode(e)) && IsComprehension(e) && index < |e.generators|
    ensures p(GeneratorNode(e.generators[index])) && Everywhere(p, ExprNode(e.generators[index].iter))
    ensures forall i | 0 <= i < |e.generators[index].ifs| :: Everywhere(p, ExprNode(e.generators[index].ifs[i]))
  {
    var g := e.generators[index];
    assert Generators(e.generators)[index] == GeneratorNode(g);
    ChildEverywhere(p, ExprNode(e), GeneratorNode(g));
    assert ExprNode(g.iter) in Children(GeneratorNode(g));
    ChildEverywhere(p, GeneratorNode(g), ExprNode(g.iter));
    forall i | 0 <= i < |g.ifs| ensures Everywhere(p, ExprNode(g.ifs[i])) {
      assert Exprs(g.ifs)[i] == ExprNode(g.ifs[i]);
      ChildEverywhere(p, GeneratorNode(g), ExprNode(g.ifs[i]));
    }
  }

  lemma BodyEverywhere(p: Node -> bool, e: Expr)
    requires Everywhere(p, ExprNode(e)) && IsComprehension(e)
    ensures Everywhere(p, ExprNode(e.elt)) && (e.DictComp? ==> Everywhere(p, ExprNode(e.key)))
  {
    ChildEverywhere(p, ExprNode(e), ExprNode(e.elt));
    if e.DictComp? {
      ChildEverywhere(p, ExprNode(e), ExprNode(e.key));
    }
  }
}
