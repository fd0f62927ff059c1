/**
 Validation is sound for evaluation, and only a limit can stop for a limit's sake:
 where the failures of an evaluation come from (shared/code_scorer.py).
 */
module ScorerSoundness {
  import opened Wrappers
  import opened ScorerSyntax
  import opened ScorerSemantics
  import V = ScorerValidation

  /** The operator raises no KeyError, which the interpreter would read as a missing table entry. */
  ghost predicate QuietBinary(m: Machine, op: BinaryOp) {
    forall l, r :: !(op == Pow && HugeExponent(m.lim, r)) ==> m.rt.binary(op, l, r) != Raise(KeyError)
  }

  ghost predicate QuietCompare(m: Machine, op: CompareOp) {
    forall l, r :: m.rt.compare(op, l, r) != Raise(KeyError)
  }

  ghost predicate QuietNode(m: Machine, n: Node) {
    (n.BinaryNode? ==> QuietBinary(m, n.binary)) && (n.CompareNode? ==> QuietCompare(m, n.compare))
  }

  ghost function Quiet(m: Machine): Node -> bool {
    (n: Node) => QuietNode(m, n)
  }

  /******* Where exceptions that are no ScorerError come from *******/

  predicate AllHashable(vals: seq<Value>) {
    forall i | 0 <= i < |vals| :: Hashable(vals[i])
  }

  /** Whatever it is evaluated in, a value of the expression is hashable. */
  predicate SurelyHashable(e: Expr) {
    match e
    case Constant(v) => Hashable(v)
    case JoinedStr(_) => true
    case FormattedValue(_, _, _) => true
    case Compare(_, _, _) => true
    case Unary(op, _) => op == Not
    case _ => false
  }

  /** Whatever it is evaluated in, a value of the expression can be iterated. */
  predicate SurelyIterable(e: Expr) {
    match e
    case Constant(v) => Elements(v).Some?
    case JoinedStr(_) => true
    case FormattedValue(_, _, _) => true
    case ListDisplay(_, _) => true
    case TupleDisplay(_, _) => true
    case SetDisplay(_) => true
    case DictDisplay(_, _) => true
    case _ => IsComprehension(e)
  }

  predicate AllSurelyHashable(es: seq<Expr>) {
    forall i | 0 <= i < |es| :: SurelyHashable(es[i])
  }

  /** The constructs that can raise something else, unless their keys are surely hashable or their loops surely possible. */
  datatype Construct =
    | SetDisplays | DictDisplays | SetComps | DictComps | Loops | Indexing
    | Operator(binary: BinaryOp) | Sign(unary: UnaryOp) | Comparison(compare: CompareOp)

  function ConstructOf(n: Node): Option<Construct> {
    match n
    case ExprNode(SetDisplay(es)) => if AllSurelyHashable(es) then None else Some(SetDisplays)
    case ExprNode(DictDisplay(ks, _)) => if AllSurelyHashable(Present(ks)) then None else Some(DictDisplays)
    case ExprNode(SetComp(x, _)) => if SurelyHashable(x) then None else Some(SetComps)
    case ExprNode(DictComp(k, _, _)) => if SurelyHashable(k) then None else Some(DictComps)
    case ExprNode(Subscript(_, _, _)) => Some(Indexing)
    case GeneratorNode(g) => if SurelyIterable(g.iter) then None else Some(Loops)
    case BinaryNode(op) => Some(Operator(op))
    case UnaryNode(op) => Some(Sign(op))
    case CompareNode(op) => Some(Comparison(op))
    case _ => None
  }

  /** The construct itself raises something that its handlers, if it has any, do not catch. */
  ghost predicate CanEscape(m: Machine, c: Construct) {
    match c
    case Indexing => exists v, key :: ApplyIndex(m, v, key) == Err(Escaped)
    case Operator(op) => exists l, r :: ApplyBinary(m, op, l, r) == Err(Escaped)
    case Sign(op) => exists v :: ApplyUnary(m, op, v) == Err(Escaped)
    case Comparison(op) => exists l, r :: ApplyCompare(m, op, l, r) == Err(Escaped)
    case _ => true
  }

  ghost predicate TameNode(m: Machine, n: Node) {
    ConstructOf(n).Some? ==> !CanEscape(m, ConstructOf(n).value)
  }

  /** No limits, and no helper with a limit of its own. */
  ghost predicate Unbounded(m: Machine) {
    m.lim == UNLIMITED && forall f, args, names, vals :: m.rt.call(f, args, names, vals) != Raise(ScorerLimit)
  }

  /**
   What is known of every node of a tree: nothing, that validation accepts it, or also that
   it is no operator that raises KeyError, or that it is no construct that can escape.
   */
  datatype Known = Nothing | Accepted | AcceptedQuiet | Tame

  ghost predicate Allows(m: Machine, k: Known, n: Node) {
    match k
    case Nothing => true
    case Accepted => V.Valid(n)
    case AcceptedQuiet => V.Valid(n) && QuietNode(m, n)
    case Tame => TameNode(m, n)
  }

  ghost function Like(m: Machine, k: Known): Node -> bool {
    (n: Node) => Allows(m, k, n)
  }

  ghost predicate Checked(m: Machine, k: Known, e: Expr) {
    Everywhere(Like(m, k), ExprNode(e))
  }

  lemma {:induction false} CheckedFrom(m: Machine, k: Known, n: Node)
    requires k != Tame && (k != Nothing ==> Everywhere(V.Valid, n)) && (k == AcceptedQuiet ==> Everywhere(Quiet(m), n))
    ensures Everywhere(Like(m, k), n)
    decreases Size(n)
  {
    assert k != Nothing ==> V.Valid(n);
    assert k == AcceptedQuiet ==> Quiet(m)(n);
    forall i | 0 <= i < |Children(n)| ensures Everywhere(Like(m, k), Children(n)[i]) {
      ChildSize(n, i);
      CheckedFrom(m, k, Children(n)[i]);
    }
  }

  /** The two branches that a KeyError can lead to, although validation rules them out. */
  predicate OperatorMiss(f: Failure) {
    f == Dead(OperatorNotSupported) || f == Dead(ComparisonNotSupported)
  }

  /** The failure is none of those that the knowledge and an unbounded machine rule out. */
  ghost predicate Fine<T>(m: Machine, k: Known, r: Result<T>) {
    r.Err? ==>
      && (k == Accepted && r.failure.Dead? ==> OperatorMiss(r.failure))
      && (k == AcceptedQuiet ==> !r.failure.Dead?)
      && (k == Tame ==> !r.failure.Escaped?)
      && (Unbounded(m) ==> !r.failure.Limit?)
  }

  lemma ChildChecked(m: Machine, k: Known, e: Expr, x: Expr)
    requires Checked(m, k, e) && ExprNode(x) in Children(ExprNode(e))
    ensures Checked(m, k, x)
  {
    ChildEverywhere(Like(m, k), ExprNode(e), ExprNode(x));
  }

  lemma OperatorChecked(m: Machine, k: Known, e: Expr)
    requires Checked(m, k, e)
    ensures e.Binary? ==> Allows(m, k, BinaryNode(e.binop))
    ensures e.Unary? ==> Allows(m, k, UnaryNode(e.unop))
    ensures Allows(m, k, ExprNode(e))
  {
    assert Like(m, k)(ExprNode(e));
    if e.Binary? { ChildEverywhere(Like(m, k), ExprNode(e), BinaryNode(e.binop)); assert Like(m, k)(BinaryNode(e.binop)); }
    if e.Unary? { ChildEverywhere(Like(m, k), ExprNode(e), UnaryNode(e.unop)); assert Like(m, k)(UnaryNode(e.unop)); }
  }

  lemma ComparatorChecked(m: Machine, k: Known, e: Expr, i: nat)
    requires Checked(m, k, e) && e.Compare? && i < |e.comparators| && i < |e.ops|
    ensures Checked(m, k, e.comparators[i]) && Allows(m, k, CompareNode(e.ops[i]))
  {
    ComparatorEverywhere(Like(m, k), e, i);
    assert Like(m, k)(CompareNode(e.ops[i]));
  }

  lemma GeneratorChecked(m: Machine, k: Known, e: Expr, index: nat)
    requires Checked(m, k, e) && IsComprehension(e) && index < |e.generators|
    ensures Checked(m, k, e.generators[index].iter) && Allows(m, k, GeneratorNode(e.generators[index]))
    ensures forall i | 0 <= i < |e.generators[index].ifs| :: Checked(m, k, e.generators[index].ifs[i])
  {
    GeneratorEverywhere(Like(m, k), e, index);
    assert Like(m, k)(GeneratorNode(e.generators[index]));
  }

  /******* Failures of single operations *******/

  lemma ComparisonFine(m: Machine, k: Known, op: CompareOp, l: Value, r: Value)
    requires Allows(m, k, CompareNode(op))
    ensures Fine(m, k, ApplyCompare(m, op, l, r))
  {
  }

  lemma {:induction false} ZipFine(m: Machine, k: Known, es: seq<Entry>, keys: seq<Value>, vals: seq<Value>)
    requires k == Tame ==> AllHashable(keys)
    ensures Fine(m, k, ZipInto(es, keys, vals))
    decreases |keys|
  {
    if keys != [] && vals != [] && Hashable(keys[0]) {
      ZipFine(m, k, Put(es, keys[0], vals[0]), keys[1..], vals[1..]);
    }
  }

  lemma {:induction false} InsertFine(m: Machine, k: Known, set_: seq<Value>, xs: seq<Value>)
    requires k == Tame ==> AllHashable(xs)
    ensures Fine(m, k, InsertAll(set_, xs))
    decreases |xs|
  {
    if xs != [] {
      InsertFine(m, k, set_, xs[1..]);
      InsertFine(m, k, set_ + [xs[0]], xs[1..]);
    }
  }

  lemma {:induction false} BindFine(m: Machine, k: Known, target: Expr, v: Value, scope: Env)
    ensures Fine(m, k, Bind(target, v, scope))
    decreases target
  {
    if target.TupleDisplay? {
      match Elements(v)
      case None =>
      case Some(xs) => if |xs| == |target.elts| { BindAllFine(m, k, target.elts, xs, scope); }
    }
  }

  lemma {:induction false} BindAllFine(m: Machine, k: Known, ts: seq<Expr>, xs: seq<Value>, scope: Env)
    requires |ts| == |xs|
    ensures Fine(m, k, BindAll(ts, xs, scope))
    decreases ts
  {
    if ts != [] {
      BindFine(m, k, ts[0], xs[0], scope);
      var b := Bind(ts[0], xs[0], scope);
      if b.Ok? { BindAllFine(m, k, ts[1..], xs[1..], b.value); }
    }
  }

  lemma MakeSetFine(m: Machine, k: Known, xs: seq<Value>)
    requires k == Tame ==> AllHashable(xs)
    ensures Fine(m, k, MakeSet(Sized(m.lim, |xs|, List(xs))))
  {
    InsertFine(m, k, [], xs);
  }

  /** How many of the operands are keys, or members of a set. */
  function Keyed(e: Expr): (n: nat)
    requires Strict(e)
    ensures n <= |Operands(e)|
  {
    match e
    case SetDisplay(es) => |es|
    case DictDisplay(ks, _) => |Present(ks)|
    case _ => 0
  }

  lemma ApplyFine(m: Machine, k: Known, e: Expr, vals: seq<Value>, local: Env)
    requires Checked(m, k, e)
    requires Strict(e) && |vals| == |Operands(e)|
    requires k == Tame ==> AllHashable(vals[..Keyed(e)])
    ensures Fine(m, k, Apply(m, e, vals, local))
  {
    OperatorChecked(m, k, e);
    if e.DictDisplay? {
      ZipFine(m, k, [], vals[..|Present(e.keys)|], vals[|Present(e.keys)|..]);
    } else if e.SetDisplay? {
      MakeSetFine(m, k, vals);
    }
  }

  /******* Values of an evaluation *******/

  lemma {:induction false} ChainIsBool(m: Machine, e: Expr, i: nat, left: Value, local: Env, depth: int, st: State)
    requires e.Compare?
    ensures var r := EvalChain(m, e, i, left, local, depth, st).result; r.Ok? ==> r.value.Bool?
    decreases |e.comparators| - i
  {
    if i < |e.comparators| && i < |e.ops| {
      var o := Eval(m, e.comparators[i], local, depth, st);
      if o.result.Ok? { ChainIsBool(m, e, i + 1, o.result.value, local, depth, o.st); }
    }
  }

  lemma HashableValue(m: Machine, e: Expr, local: Env, depth: int, st: State)
    requires SurelyHashable(e)
    ensures var r := Eval(m, e, local, depth, st).result; r.Ok? ==> Hashable(r.value)
  {
    var st1 := Deepest(st.(steps := st.steps + 1), depth);
    if e.Compare? {
      var o := Eval(m, e.left, local, depth + 1, st1);
      if o.result.Ok? { ChainIsBool(m, e, 0, o.result.value, local, depth + 1, o.st); }
    }
    DispatchCases(m, e, local, depth + 1, st1);
  }

  lemma IterableApplied(m: Machine, e: Expr, vals: seq<Value>, local: Env)
    requires SurelyIterable(e) && Strict(e) && |vals| == |Operands(e)|
    ensures var r := Apply(m, e, vals, local); r.Ok? ==> Elements(r.value).Some?
  {
  }

  lemma IterableFinished(lim: Limits, e: Expr, g: Gathered)
    ensures var r := Finish(lim, e, g); r.Ok? ==> Elements(r.value).Some?
  {
  }

  lemma IterableValue(m: Machine, e: Expr, local: Env, depth: int, st: State)
    requires SurelyIterable(e)
    ensures var r := Eval(m, e, local, depth, st).result; r.Ok? ==> Elements(r.value).Some?
  {
    IterableDispatched(m, e, local, depth + 1, Deepest(st.(steps := st.steps + 1), depth));
  }

  lemma IterableDispatched(m: Machine, e: Expr, local: Env, depth: int, st: State)
    requires SurelyIterable(e)
    ensures var r := Dispatch(m, e, local, depth, st).result; r.Ok? ==> Elements(r.value).Some?
  {
    DispatchCases(m, e, local, depth, st);
    if IsComprehension(e) {
      IterableComprehension(m, e, local, depth, st);
    } else {
      IterableStrict(m, e, local, depth, st);
    }
  }

  lemma IterableComprehension(m: Machine, e: Expr, local: Env, depth: int, st: State)
    requires IsComprehension(e)
    ensures var r := EvalComprehension(m, e, local, depth, st).result; r.Ok? ==> Elements(r.value).Some?
  {
    var o := Generate(m, e, 0, map[], NothingYet(e), local, depth, st);
    if o.result.Ok? { IterableFinished(m.lim, e, o.result.value); }
  }

  lemma IterableStrict(m: Machine, e: Expr, local: Env, depth: int, st: State)
    requires SurelyIterable(e) && Strict(e)
    ensures var r := EvalStrict(m, e, local, depth, st).result; r.Ok? ==> Elements(r.value).Some?
  {
    var o := EvalAll(m, e, Operands(e), [], local, depth, st);
    if o.result.Ok? { IterableApplied(m, e, o.result.value, local); }
  }

  /** The first `n` operands, if they are surely hashable, have hashable values. */
  lemma {:induction false} HashableValues(m: Machine, parent: Expr, es: seq<Expr>, acc: seq<Value>, n: nat,
                                          local: Env, depth: int, st: State)
    requires |acc| <= |es| && n <= |es| && forall i | 0 <= i < |es| :: es[i] < parent
    requires AllSurelyHashable(es[..n]) && AllHashable(acc[..Least(n, |acc|)])
    ensures var r := EvalAll(m, parent, es, acc, local, depth, st).result; r.Ok? ==> AllHashable(r.value[..n])
    decreases |es| - |acc|
  {
    if |acc| < |es| {
      var o := Eval(m, es[|acc|], local, depth, st);
      if o.result.Ok? {
        var more := acc + [o.result.value];
        if |acc| < n {
          assert es[..n][|acc|] == es[|acc|];
          HashableValue(m, es[|acc|], local, depth, st);
          assert more[..|more|] == acc[..|acc|] + [o.result.value];
        } else {
          assert more[..n] == acc[..n];
        }
        HashableValues(m, parent, es, more, n, local, depth, o.st);
      }
    }
  }

  function Least(a: nat, b: nat): nat {
    if a < b then a else b
  }

  /** What a set comprehension has gathered so far can become a set. */
  predicate Insertable(k: Known, e: Expr, g: Gathered) {
    k == Tame && e.SetComp? && g.Elems? ==> AllHashable(g.elems)
  }

  ghost predicate FineSoFar(m: Machine, k: Known, e: Expr, r: Result<Gathered>) {
    Fine(m, k, r) && (r.Ok? ==> Insertable(k, e, r.value))
  }

  /******* Failures of an evaluation *******/

  lemma {:induction false} EvalFine(m: Machine, k: Known, e: Expr, local: Env, depth: int, st: State)
    requires Checked(m, k, e)
    ensures Fine(m, k, Eval(m, e, local, depth, st).result)
    decreases e, 3
  {
    DispatchFine(m, k, e, local, depth + 1, Deepest(st.(steps := st.steps + 1), depth));
  }

  lemma {:induction false} DispatchFine(m: Machine, k: Known, e: Expr, local: Env, depth: int, st: State)
    requires Checked(m, k, e)
    ensures Fine(m, k, Dispatch(m, e, local, depth, st).result)
    decreases e, 2
  {
    OperatorChecked(m, k, e);
    if Strict(e) {
      StrictFine(m, k, e, local, depth, st);
    } else if e.IfExp? {
      IfFine(m, k, e, local, depth, st);
    } else if e.Logic? {
      LogicFine(m, k, e, 0, Bool(e.logic == And), local, depth, st);
    } else if e.Compare? {
      CompareFine(m, k, e, local, depth, st);
    } else if IsComprehension(e) {
      ComprehensionFine(m, k, e, local, depth, st);
    }
  }

  lemma {:induction false} StrictFine(m: Machine, k: Known, e: Expr, local: Env, depth: int, st: State)
    requires Checked(m, k, e)
    requires Strict(e)
    ensures Fine(m, k, EvalStrict(m, e, local, depth, st).result)
    decreases e, 1, |Operands(e)| + 1
  {
    OperatorChecked(m, k, e);
    forall i | 0 <= i < |Operands(e)| ensures Checked(m, k, Operands(e)[i]) { OperandEverywhere(Like(m, k), e, i); }
    EvalAllFine(m, k, e, Operands(e), [], local, depth, st);
    if k == Tame { HashableValues(m, e, Operands(e), [], Keyed(e), local, depth, st); }
    var o := EvalAll(m, e, Operands(e), [], local, depth, st);
    if o.result.Ok? { ApplyFine(m, k, e, o.result.value, local); }
  }

  lemma {:induction false} IfFine(m: Machine, k: Known, e: Expr, local: Env, depth: int, st: State)
    requires Checked(m, k, e)
    requires e.IfExp?
    ensures Fine(m, k, EvalIf(m, e, local, depth, st).result)
    decreases e, 1
  {
    ChildChecked(m, k, e, e.test);
    ChildChecked(m, k, e, e.body);
    ChildChecked(m, k, e, e.orelse);
    EvalFine(m, k, e.test, local, depth, st);
    var o := Eval(m, e.test, local, depth, st);
    EvalFine(m, k, e.body, local, depth, o.st);
    EvalFine(m, k, e.orelse, local, depth, o.st);
  }

  lemma {:induction false} CompareFine(m: Machine, k: Known, e: Expr, local: Env, depth: int, st: State)
    requires Checked(m, k, e)
    requires e.Compare?
    ensures Fine(m, k, EvalCompare(m, e, local, depth, st).result)
    decreases e, 1, |e.comparators| + 1
  {
    ChildChecked(m, k, e, e.left);
    EvalFine(m, k, e.left, local, depth, st);
    var o := Eval(m, e.left, local, depth, st);
    if o.result.Ok? { ChainFine(m, k, e, 0, o.result.value, local, depth, o.st); }
  }

  lemma {:induction false} ComprehensionFine(m: Machine, k: Known, e: Expr, local: Env, depth: int, st: State)
    requires Checked(m, k, e)
    requires IsComprehension(e)
    ensures Fine(m, k, EvalComprehension(m, e, local, depth, st).result)
    decreases e, 1, |e.generators| + 1
  {
    GenerateFine(m, k, e, 0, map[], NothingYet(e), local, depth, st);
    var o := Generate(m, e, 0, map[], NothingYet(e), local, depth, st);
    if o.result.Ok? && o.result.value.Elems? {
      if e.SetComp? { MakeSetFine(m, k, o.result.value.elems); }
    }
  }

  lemma {:induction false} EvalAllFine(m: Machine, k: Known, parent: Expr, es: seq<Expr>, acc: seq<Value>,
                                       local: Env, depth: int, st: State)
    requires |acc| <= |es| && forall i | 0 <= i < |es| :: es[i] < parent
    requires forall i | 0 <= i < |es| :: Checked(m, k, es[i])
    ensures Fine(m, k, EvalAll(m, parent, es, acc, local, depth, st).result)
    decreases parent, 1, |es| - |acc|
  {
    if |acc| < |es| {
      EvalFine(m, k, es[|acc|], local, depth, st);
      var o := Eval(m, es[|acc|], local, depth, st);
      if o.result.Ok? { EvalAllFine(m, k, parent, es, acc + [o.result.value], local, depth, o.st); }
    }
  }

  lemma {:induction false} LogicFine(m: Machine, k: Known, e: Expr, i: nat, last: Value, local: Env, depth: int, st: State)
    requires Checked(m, k, e)
    requires e.Logic? && i <= |e.parts|
    ensures Fine(m, k, EvalLogic(m, e, i, last, local, depth, st).result)
    decreases e, 1, |e.parts| - i
  {
    if i < |e.parts| {
      PartEverywhere(Like(m, k), e, i);
      EvalFine(m, k, e.parts[i], local, depth, st);
      var o := Eval(m, e.parts[i], local, depth, st);
      if o.result.Ok? { LogicFine(m, k, e, i + 1, o.result.value, local, depth, o.st); }
    }
  }

  lemma {:induction false} ChainFine(m: Machine, k: Known, e: Expr, i: nat, left: Value, local: Env, depth: int, st: State)
    requires Checked(m, k, e)
    requires e.Compare?
    ensures Fine(m, k, EvalChain(m, e, i, left, local, depth, st).result)
    decreases e, 1, |e.comparators| - i
  {
    if i < |e.comparators| && i < |e.ops| {
      ComparatorChecked(m, k, e, i);
      EvalFine(m, k, e.comparators[i], local, depth, st);
      var o := Eval(m, e.comparators[i], local, depth, st);
      if o.result.Ok? {
        var right := o.result.value;
        ComparisonFine(m, k, e.ops[i], left, right);
        ChainFine(m, k, e, i + 1, right, local, depth, o.st);
      }
    }
  }

  lemma {:induction false} GenerateFine(m: Machine, k: Known, e: Expr, index: nat, bound: Env, g: Gathered,
                                        local: Env, depth: int, st: State)
    requires Checked(m, k, e)
    requires IsComprehension(e) && Fits(e, g) && Insertable(k, e, g) && index <= |e.generators|
    ensures FineSoFar(m, k, e, Generate(m, e, index, bound, g, local, depth, st).result)
    decreases e, 1, |e.generators| - index, 1, 0
  {
    if index == |e.generators| {
      YieldFine(m, k, e, bound, g, local, depth, st);
    } else {
      GeneratorChecked(m, k, e, index);
      var iter := e.generators[index].iter;
      EvalFine(m, k, iter, local + bound, depth, st);
      var o := Eval(m, iter, local + bound, depth, st);
      if k == Tame { IterableValue(m, iter, local + bound, depth, st); }
      if o.result.Ok? && Elements(o.result.value).Some? {
        IterateFine(m, k, e, index, bound, Elements(o.result.value).value, 0, g, local, depth, o.st);
      }
    }
  }

  lemma {:induction false} IterateFine(m: Machine, k: Known, e: Expr, index: nat, bound: Env, items: seq<Value>, j: nat,
                                       g: Gathered, local: Env, depth: int, st: State)
    requires Checked(m, k, e)
    requires IsComprehension(e) && Fits(e, g) && Insertable(k, e, g) && index < |e.generators| && j <= |items|
    ensures FineSoFar(m, k, e, Iterate(m, e, index, bound, items, j, g, local, depth, st).result)
    decreases e, 1, |e.generators| - index, 0, |items| - j
  {
    if j < |items| {
      ItemFine(m, k, e, index, bound, items[j], j + 1, g, local, depth, st);
      var o := Item(m, e, index, bound, items[j], j + 1, g, local, depth, st);
      if o.result.Ok? { IterateFine(m, k, e, index, bound, items, j + 1, o.result.value, local, depth, o.st); }
    }
  }

  lemma {:induction false} ItemFine(m: Machine, k: Known, e: Expr, index: nat, bound: Env, item: Value, count: nat,
                                    g: Gathered, local: Env, depth: int, st: State)
    requires Checked(m, k, e)
    requires IsComprehension(e) && Fits(e, g) && Insertable(k, e, g) && index < |e.generators|
    ensures FineSoFar(m, k, e, Item(m, e, index, bound, item, count, g, local, depth, st).result)
    decreases e, 1, |e.generators| - index, 0, 0, |e.generators[index].ifs| + 2
  {
    var st1 := st.(iterations := st.iterations + 1);
    var b := Bind(e.generators[index].target, item, bound);
    BindFine(m, k, e.generators[index].target, item, bound);
    if !Over(count, m.lim.items) && b.Ok? {
      FilterFine(m, k, e, index, b.value, g, local, depth, st1);
    }
  }

  lemma {:induction false} FilterFine(m: Machine, k: Known, e: Expr, index: nat, scope: Env, g: Gathered,
                                      local: Env, depth: int, st: State)
    requires Checked(m, k, e)
    requires IsComprehension(e) && Fits(e, g) && Insertable(k, e, g) && index < |e.generators|
    ensures FineSoFar(m, k, e, Filter(m, e, index, scope, g, local, depth, st).result)
    decreases e, 1, |e.generators| - index, 0, 0, |e.generators[index].ifs| + 1
  {
    ConditionsFine(m, k, e, index, 0, local + scope, depth, st);
    var c := Conditions(m, e, index, 0, local + scope, depth, st);
    if c.result.Ok? && c.result.value {
      GenerateFine(m, k, e, index + 1, scope, g, local, depth, c.st);
    }
  }

  lemma {:induction false} ConditionsFine(m: Machine, k: Known, e: Expr, index: nat, i: nat, local: Env, depth: int, st: State)
    requires Checked(m, k, e)
    requires IsComprehension(e) && index < |e.generators| && i <= |e.generators[index].ifs|
    ensures Fine(m, k, Conditions(m, e, index, i, local, depth, st).result)
    decreases e, 1, |e.generators| - index, 0, 0, |e.generators[index].ifs| - i
  {
    if i < |e.generators[index].ifs| {
      GeneratorChecked(m, k, e, index);
      EvalFine(m, k, e.generators[index].ifs[i], local, depth, st);
      var o := Eval(m, e.generators[index].ifs[i], local, depth, st);
      if o.result.Ok? { ConditionsFine(m, k, e, index, i + 1, local, depth, o.st); }
    }
  }

  lemma {:induction false} YieldFine(m: Machine, k: Known, e: Expr, bound: Env, g: Gathered, local: Env, depth: int, st: State)
    requires Checked(m, k, e)
    requires IsComprehension(e) && Fits(e, g) && Insertable(k, e, g)
    ensures FineSoFar(m, k, e, Yield(m, e, bound, g, local, depth, st).result)
    decreases e, 0
  {
    OperatorChecked(m, k, e);
    BodyEverywhere(Like(m, k), e);
    EvalFine(m, k, e.elt, local + bound, depth, st);
    var x := Eval(m, e.elt, local + bound, depth, st);
    if k == Tame && e.SetComp? { HashableValue(m, e.elt, local + bound, depth, st); }
    if g.Pairs? {
      EvalFine(m, k, e.key, local + bound, depth, x.st);
      if k == Tame { HashableValue(m, e.key, local + bound, depth, x.st); }
    }
  }
}
