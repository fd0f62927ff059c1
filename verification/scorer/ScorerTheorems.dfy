/**
 What a scorer's author and the worker that runs it can rely on (shared/code_scorer.py).
 */
module ScorerTheorems {
  import opened Wrappers
  import opened ScorerSyntax
  import opened ScorerSemantics
  import opened ScorerReference
  import L = ScorerLimits
  import Lit = ScorerLiterals
  import I = ScorerInterpreter
  import S = ScorerSoundness
  import V = ScorerValidation

  /** The helpers of `b` are those of `a` with their own limits lifted. */
  ghost predicate Unlimits(a: Machine, b: Machine) {
    b == Free(b.rt, a.scope) && L.Relaxes(a.rt, b.rt)
  }

  /** Limits only raise: a run no limit stopped returns a value exactly when the reference does, and the same one. */
  lemma LimitsOnlyRaise(a: Machine, b: Machine, tree: Expr)
    requires Unlimits(a, b) && Everywhere(Plain, ExprNode(tree))
    requires !Run(a, tree).result.HitLimit()
    ensures Run(a, tree).result.Ok? <==> Meaning(b, tree, map[]).Ok?
    ensures Run(a, tree).result.Ok? ==> Run(a, tree).result == Meaning(b, tree, map[])
  {
    EvalAgree(a, b, tree, map[], 0, State(0, 0, 0));
  }

  /** With every limit lifted the interpreter computes exactly the reference's values. */
  lemma UnlimitedIsReference(b: Machine, tree: Expr)
    requires S.Unbounded(b) && Everywhere(Plain, ExprNode(tree))
    ensures forall v :: Run(b, tree).result == Ok(v) <==> Meaning(b, tree, map[]) == Ok(v)
  {
    S.CheckedFrom(b, S.Nothing, ExprNode(tree));
    S.EvalFine(b, S.Nothing, tree, map[], 0, State(0, 0, 0));
    LimitsOnlyRaise(b, b, tree);
  }

  /** Raising any of the limits changes neither the outcome, value or error, of a run that met none, nor its counters. */
  lemma RaisingLimits(a: Machine, b: Machine, tree: Expr)
    requires L.Laxer(a, b) && !Run(a, tree).result.HitLimit()
    ensures Run(b, tree) == Run(a, tree)
  {
    L.EvalSame(a, b, tree, map[], 0, State(0, 0, 0));
  }

  /** Every run stays within its budgets, and there are fewer comprehension iterations than steps. */
  lemma WorkIsBounded(m: Machine, tree: Expr)
    requires m.lim == STANDARD
    ensures var o := Run(m, tree);
      && o.st.steps <= (if o.result.Ok? then 50000 else 50001)
      && o.st.deepest <= 40
      && o.st.iterations < o.st.steps
  {
    var o := Eval(m, tree, map[], 0, State(0, 0, 0));
  }

  /******* Validation *******/

  /** An operator of the table applied to two literals. */
  function OperatorTree(op: BinaryOp, l: Value, r: Value): Expr {
    Binary(Constant(l), op, Constant(r))
  }

  function CompareTree(op: CompareOp, l: Value, r: Value): Expr {
    Compare(Constant(l), [op], [Constant(r)])
  }

  lemma EverywhereFrom(p: Node -> bool, n: Node, children: seq<Node>)
    requires children == Children(n) && p(n) && forall i | 0 <= i < |children| :: Everywhere(p, children[i])
    ensures Everywhere(p, n)
  {
  }

  lemma LeafEverywhere(p: Node -> bool, n: Node)
    requires Children(n) == [] && p(n)
    ensures Everywhere(p, n)
  {
  }

  lemma OperatorTreeEverywhere(p: Node -> bool, op: BinaryOp, l: Value, r: Value)
    requires p(ExprNode(Constant(l))) && p(BinaryNode(op)) && p(ExprNode(Constant(r))) && p(ExprNode(OperatorTree(op, l, r)))
    ensures Everywhere(p, ExprNode(OperatorTree(op, l, r)))
  {
    var x, o, y := ExprNode(Constant(l)), BinaryNode(op), ExprNode(Constant(r));
    LeafEverywhere(p, x);
    LeafEverywhere(p, o);
    LeafEverywhere(p, y);
    EverywhereFrom(p, ExprNode(OperatorTree(op, l, r)), [x, o, y]);
  }

  lemma CompareTreeEverywhere(p: Node -> bool, op: CompareOp, l: Value, r: Value)
    requires p(ExprNode(Constant(l))) && p(CompareNode(op)) && p(ExprNode(Constant(r))) && p(ExprNode(CompareTree(op, l, r)))
    ensures Everywhere(p, ExprNode(CompareTree(op, l, r)))
  {
    var x, o, y := ExprNode(Constant(l)), CompareNode(op), ExprNode(Constant(r));
    LeafEverywhere(p, x);
    LeafEverywhere(p, o);
    LeafEverywhere(p, y);
    assert Children(ExprNode(CompareTree(op, l, r))) == [x, o, y];
    EverywhereFrom(p, ExprNode(CompareTree(op, l, r)), [x, o, y]);
  }

  lemma AcceptableExactly(tree: Expr)
    ensures V.Acceptable(tree) <==> Everywhere(V.Valid, ExprNode(tree)) && ExprSize(tree) < V.MAX_NODES
  {
    if Everywhere(V.Valid, Root(tree)) {
      ChildEverywhere(V.Valid, Root(tree), ExprNode(tree));
    } else if Everywhere(V.Valid, ExprNode(tree)) {
      EverywhereFrom(V.Valid, Root(tree), [ExprNode(tree)]);
    }
  }

  /** Nodes that are clearly allowed. */
  predicate Simple(n: Node) {
    match n
    case ExprNode(Name(id, _)) => !V.Dunder(id)
    case ExprNode(e) => !e.Starred? && !e.Unsupported? && !e.Attribute? && !e.Call?
    case GeneratorNode(g) => !g.isAsync
    case BinaryNode(op) => InBinaryTable(op)
    case UnaryNode(op) => op != Invert
    case CompareNode(op) => InCompareTable(op)
    case ContextNode(ctx) => ctx != Del
    case _ => true
  }

  lemma SimplyValid(n: Node)
    requires Simple(n)
    ensures V.Valid(n)
  {
  }

  lemma TreesAreSmall(op: BinaryOp, cmp: CompareOp, l: Value, r: Value)
    ensures ExprSize(OperatorTree(op, l, r)) == ExprSize(CompareTree(cmp, l, r)) == 4
  {
    var cs := [Constant(r)];
    assert ExprSize(Constant(l)) == 1 && ExprSize(cs[0]) == 1;
    assert cs[1..] == [] && ExprsSize(cs) == 1;
  }

  lemma OperatorTreeAcceptable(op: BinaryOp, l: Value, r: Value)
    requires InBinaryTable(op)
    ensures V.Acceptable(OperatorTree(op, l, r))
  {
    SimplyValid(ExprNode(Constant(l)));
    SimplyValid(ExprNode(Constant(r)));
    SimplyValid(BinaryNode(op));
    SimplyValid(ExprNode(OperatorTree(op, l, r)));
    OperatorTreeEverywhere(V.Valid, op, l, r);
    TreesAreSmall(op, Eq, l, r);
    AcceptableExactly(OperatorTree(op, l, r));
  }

  lemma CompareTreeAcceptable(op: CompareOp, l: Value, r: Value)
    requires InCompareTable(op)
    ensures V.Acceptable(CompareTree(op, l, r))
  {
    SimplyValid(ExprNode(Constant(l)));
    SimplyValid(ExprNode(Constant(r)));
    SimplyValid(CompareNode(op));
    SimplyValid(ExprNode(CompareTree(op, l, r)));
    CompareTreeEverywhere(V.Valid, op, l, r);
    TreesAreSmall(Add, op, l, r);
    AcceptableExactly(CompareTree(op, l, r));
  }

  lemma OperatorTreeRuns(m: Machine, op: BinaryOp, l: Value, r: Value)
    requires !Over(3, m.lim.steps) && !Over(1, m.lim.depth)
    ensures Run(m, OperatorTree(op, l, r)).result == ApplyBinary(m, op, l, r)
  {
    var e, st := OperatorTree(op, l, r), State(1, 0, 0);
    Lit.LiteralRuns(m, l, map[], 1, st);
    Lit.LiteralRuns(m, r, map[], 1, State(2, 0, 1));
    I.EvalTwo(m, e, e.left, e.right, map[], 1, st);
    assert EvalAll(m, e, Operands(e), [], map[], 1, st) == Outcome(Ok([l, r]), State(3, 0, 1));
    assert EvalStrict(m, e, map[], 1, st).result == Apply(m, e, [l, r], map[]);
    assert Dispatch(m, e, map[], 1, st) == EvalStrict(m, e, map[], 1, st);
  }

  lemma CompareTreeRuns(m: Machine, op: CompareOp, l: Value, r: Value)
    requires !Over(3, m.lim.steps) && !Over(1, m.lim.depth)
    ensures var c := ApplyCompare(m, op, l, r);
      Run(m, CompareTree(op, l, r)).result == if c.Ok? then Ok(Bool(c.value)) else Err(c.failure)
  {
    var e, st := CompareTree(op, l, r), State(1, 0, 0);
    Lit.LiteralRuns(m, l, map[], 1, st);
    Lit.LiteralRuns(m, r, map[], 1, State(2, 0, 1));
    assert EvalChain(m, e, 1, r, map[], 1, State(3, 0, 1)).result == Ok(Bool(true));
    assert EvalCompare(m, e, map[], 1, st) == EvalChain(m, e, 0, l, map[], 1, State(2, 0, 1));
    assert Dispatch(m, e, map[], 1, st) == EvalCompare(m, e, map[], 1, st);
  }

  predicate Safe(m: Machine, tree: Expr) {
    Run(m, tree).result.Err? ==> !Run(m, tree).result.failure.Dead?
  }

  /** Of the six branches that validation is to rule out, no accepted tree reaches the four that do not depend on an operator, on any Python. */
  lemma OtherBranchesAreDead(m: Machine, tree: Expr)
    requires V.Acceptable(tree)
    ensures var r := Run(m, tree).result;
      r.Err? ==> r.failure !in {Dead(NodeNotSupported), Dead(UnaryNotSupported), Dead(MethodNotAllowed), Dead(AsyncNotAllowed)}
  {
    ChildEverywhere(V.Valid, Root(tree), ExprNode(tree));
    S.CheckedFrom(m, S.Accepted, ExprNode(tree));
    S.EvalFine(m, S.Accepted, tree, map[], 0, State(0, 0, 0));
  }

  /** An accepted tree reaches none of the six if its own operators raise no KeyError. */
  lemma AcceptedTreeIsSafe(m: Machine, tree: Expr)
    requires V.Acceptable(tree) && Everywhere(S.Quiet(m), ExprNode(tree))
    ensures Safe(m, tree)
  {
    ChildEverywhere(V.Valid, Root(tree), ExprNode(tree));
    S.CheckedFrom(m, S.AcceptedQuiet, ExprNode(tree));
    S.EvalFine(m, S.AcceptedQuiet, tree, map[], 0, State(0, 0, 0));
  }

  /** The node is none of the operators but these. */
  predicate Among(ops: set<BinaryOp>, cmps: set<CompareOp>, n: Node) {
    (n.BinaryNode? ==> n.binary in ops) && (n.CompareNode? ==> n.compare in cmps)
  }

  function OnlyOperators(ops: set<BinaryOp>, cmps: set<CompareOp>): Node -> bool {
    (n: Node) => Among(ops, cmps, n)
  }

  lemma {:induction false} QuietEverywhere(m: Machine, ops: set<BinaryOp>, cmps: set<CompareOp>, n: Node)
    requires forall op | op in ops && InBinaryTable(op) :: S.QuietBinary(m, op)
    requires forall op | op in cmps && InCompareTable(op) :: S.QuietCompare(m, op)
    requires Everywhere(OnlyOperators(ops, cmps), n) && Everywhere(V.Valid, n)
    ensures Everywhere(S.Quiet(m), n)
    decreases Size(n)
  {
    assert OnlyOperators(ops, cmps)(n) && V.Valid(n);
    forall i | 0 <= i < |Children(n)| ensures Everywhere(S.Quiet(m), Children(n)[i]) {
      ChildSize(n, i);
      QuietEverywhere(m, ops, cmps, Children(n)[i]);
    }
  }

  /**
   Validation is sound exactly as far as Python's operators raise no KeyError, which the
   interpreter's handler takes for a missing table entry: whatever operators an author
   keeps to, all accepted trees with these are safe if and only if each of them is quiet.
   */
  lemma ValidationIsSound(m: Machine, ops: set<BinaryOp>, cmps: set<CompareOp>)
    requires !Over(3, m.lim.steps) && !Over(1, m.lim.depth)
    ensures (forall tree | V.Acceptable(tree) && Everywhere(OnlyOperators(ops, cmps), ExprNode(tree)) :: Safe(m, tree))
       <==> (forall op | op in ops && InBinaryTable(op) :: S.QuietBinary(m, op)) && (forall op | op in cmps && InCompareTable(op) :: S.QuietCompare(m, op))
  {
    if (forall op | op in ops && InBinaryTable(op) :: S.QuietBinary(m, op)) && (forall op | op in cmps && InCompareTable(op) :: S.QuietCompare(m, op)) {
      forall tree | V.Acceptable(tree) && Everywhere(OnlyOperators(ops, cmps), ExprNode(tree)) ensures Safe(m, tree) {
        ChildEverywhere(V.Valid, Root(tree), ExprNode(tree));
        QuietEverywhere(m, ops, cmps, ExprNode(tree));
        AcceptedTreeIsSafe(m, tree);
      }
    }
    if forall tree | V.Acceptable(tree) && Everywhere(OnlyOperators(ops, cmps), ExprNode(tree)) :: Safe(m, tree) {
      forall op, l, r | op in ops && InBinaryTable(op) && !(op == Pow && HugeExponent(m.lim, r))
        ensures m.rt.binary(op, l, r) != Raise(KeyError)
      {
        OperatorTreeAcceptable(op, l, r);
        OperatorTreeEverywhere(OnlyOperators(ops, cmps), op, l, r);
        OperatorTreeRuns(m, op, l, r);
      }
      forall op, l, r | op in cmps && InCompareTable(op) ensures m.rt.compare(op, l, r) != Raise(KeyError) {
        CompareTreeAcceptable(op, l, r);
        CompareTreeEverywhere(OnlyOperators(ops, cmps), op, l, r);
        CompareTreeRuns(m, op, l, r);
      }
    }
  }

  lemma EveryComparison(op: CompareOp)
    ensures op in {Eq, NotEq, Lt, LtE, Gt, GtE, In, NotIn, Is, IsNot}
  {
    match op
    case Eq => case NotEq => case Lt => case LtE => case Gt => case GtE => case In => case NotIn => case Is => case IsNot =>
  }

  /** Where only `%` raises KeyError, as in CPython, an accepted tree without `%` is safe. */
  lemma WithoutPercentIsSafe(m: Machine, tree: Expr)
    requires (forall op | op != Mod && InBinaryTable(op) :: S.QuietBinary(m, op)) && forall op | InCompareTable(op) :: S.QuietCompare(m, op)
    requires V.Acceptable(tree) && Everywhere(NotPercent(), ExprNode(tree))
    ensures Safe(m, tree)
  {
    var ops, cmps := {Add, Sub, Mult, Div, FloorDiv, Pow}, {Eq, NotEq, Lt, LtE, Gt, GtE, In, NotIn, Is, IsNot};
    ChildEverywhere(V.Valid, Root(tree), ExprNode(tree));
    KeepsTo(ops, cmps, ExprNode(tree));
    QuietEverywhere(m, ops, cmps, ExprNode(tree));
    AcceptedTreeIsSafe(m, tree);
  }

  function NotPercent(): Node -> bool {
    (n: Node) => n != BinaryNode(Mod)
  }

  lemma {:induction false} KeepsTo(ops: set<BinaryOp>, cmps: set<CompareOp>, n: Node)
    requires ops == {Add, Sub, Mult, Div, FloorDiv, Pow} && cmps == {Eq, NotEq, Lt, LtE, Gt, GtE, In, NotIn, Is, IsNot}
    requires Everywhere(NotPercent(), n) && Everywhere(V.Valid, n)
    ensures Everywhere(OnlyOperators(ops, cmps), n)
    decreases Size(n)
  {
    assert NotPercent()(n) && V.Valid(n);
    assert n.BinaryNode? ==> InBinaryTable(n.binary);
    if n.CompareNode? { EveryComparison(n.compare); }
    forall i | 0 <= i < |Children(n)| ensures Everywhere(OnlyOperators(ops, cmps), Children(n)[i]) {
      ChildSize(n, i);
      KeepsTo(ops, cmps, Children(n)[i]);
    }
  }

  /** `"%(x)s" % {}` */
  const PERCENT := Binary(Constant(Str("%(x)s")), Mod, DictDisplay([], []))

  /** On a Python whose `%` raises KeyError there, as CPython's does, an accepted tree ends in the operator-table miss. */
  lemma PercentMisses(m: Machine)
    requires !Over(3, m.lim.steps) && !Over(1, m.lim.depth)
    requires m.rt.binary(Mod, Str("%(x)s"), Dict([])) == Raise(KeyError)
    ensures V.Acceptable(PERCENT) && Run(m, PERCENT).result == Err(Dead(OperatorNotSupported))
  {
    PercentAcceptable();
    PercentRuns(m);
  }

  lemma PercentRuns(m: Machine)
    requires !Over(3, m.lim.steps) && !Over(1, m.lim.depth)
    ensures Run(m, PERCENT).result == ApplyBinary(m, Mod, Str("%(x)s"), Dict([]))
  {
    var e, st := PERCENT, State(1, 0, 0);
    Lit.LiteralRuns(m, e.left.value, map[], 1, st);
    EmptyDisplay(m, 1, State(2, 0, 1));
    I.EvalTwo(m, e, e.left, e.right, map[], 1, st);
    assert EvalAll(m, e, Operands(e), [], map[], 1, st) == Outcome(Ok([Str("%(x)s"), Dict([])]), State(3, 0, 1));
    assert EvalStrict(m, e, map[], 1, st).result == ApplyBinary(m, Mod, Str("%(x)s"), Dict([]));
    assert Dispatch(m, e, map[], 1, st) == EvalStrict(m, e, map[], 1, st);
  }

  lemma PercentAcceptable()
    ensures V.Acceptable(PERCENT)
  {
    var x, o, y := ExprNode(PERCENT.left), BinaryNode(Mod), ExprNode(PERCENT.right);
    var t := ExprNode(PERCENT);
    assert Present(PERCENT.right.keys) == [] && Children(y) == [];
    LeafEverywhere(V.Valid, x);
    LeafEverywhere(V.Valid, o);
    LeafEverywhere(V.Valid, y);
    EverywhereFrom(V.Valid, t, [x, o, y]);
    assert ExprSize(PERCENT.left) == 1 && ExprSize(PERCENT.right) == 1;
    AcceptableExactly(PERCENT);
  }

  lemma EmptyDisplay(m: Machine, depth: int, st: State)
    requires !Over(st.steps + 1, m.lim.steps) && !Over(depth, m.lim.depth) && depth <= st.deepest
    ensures Eval(m, DictDisplay([], []), map[], depth, st) == Outcome(Ok(Dict([])), st.(steps := st.steps + 1))
  {
    var e, st1 := DictDisplay([], []), st.(steps := st.steps + 1);
    assert Operands(e) == [];
    assert EvalAll(m, e, [], [], map[], depth + 1, st1) == Outcome(Ok([]), st1);
    assert EvalStrict(m, e, map[], depth + 1, st1) == Outcome(Ok(Dict([])), st1);
    assert Dispatch(m, e, map[], depth + 1, st1) == Outcome(Ok(Dict([])), st1);
  }

  /** An attribute is refused exactly if its name is outside the allowlist; what becomes of it does not matter. */
  lemma AttributeRefusedExactly(x: Expr, attr: string, ctx: Context)
    ensures V.Validate(ExprNode(Attribute(x, attr, ctx))).Some? <==> attr !in V.ALLOWED_METHODS
  {
    if attr in V.ALLOWED_METHODS { assert attr != "" && attr[0] != '_'; }
  }

  /** So a bare attribute makes as good a scorer as the call of it. */
  lemma BareAttributeExactly(x: Expr, attr: string)
    ensures (var named := Attribute(x, attr, Load);
             var fits := attr in V.ALLOWED_METHODS && Everywhere(V.Valid, ExprNode(x));
             && (V.Acceptable(named) <==> fits && ExprSize(x) + 3 <= V.MAX_NODES)
             && (V.Acceptable(Call(named, [], [])) <==> fits && ExprSize(x) + 4 <= V.MAX_NODES))
  {
    var named := Attribute(x, attr, Load);
    AttributeEverywhere(x, attr);
    CallEverywhere(x, attr);
    NamedSize(x, attr);
    AcceptableExactly(named);
    AcceptableExactly(Call(named, [], []));
  }

  lemma NamedSize(x: Expr, attr: string)
    ensures (var named := Attribute(x, attr, Load); ExprSize(named) == ExprSize(x) + 2 && ExprSize(Call(named, [], [])) == ExprSize(x) + 3)
  {
  }

  lemma AttributeEverywhere(x: Expr, attr: string)
    ensures Everywhere(V.Valid, ExprNode(Attribute(x, attr, Load))) <==> attr in V.ALLOWED_METHODS && Everywhere(V.Valid, ExprNode(x))
  {
    var n := ExprNode(Attribute(x, attr, Load));
    AttributeRefusedExactly(x, attr, Load);
    LeafEverywhere(V.Valid, ContextNode(Load));
    if Everywhere(V.Valid, n) {
      ChildEverywhere(V.Valid, n, ExprNode(x));
    } else if attr in V.ALLOWED_METHODS && Everywhere(V.Valid, ExprNode(x)) {
      EverywhereFrom(V.Valid, n, [ExprNode(x), ContextNode(Load)]);
    }
  }

  lemma CallEverywhere(x: Expr, attr: string)
    ensures (var named := Attribute(x, attr, Load);
             Everywhere(V.Valid, ExprNode(Call(named, [], []))) <==> Everywhere(V.Valid, ExprNode(named)))
  {
    var named := Attribute(x, attr, Load);
    var n := ExprNode(Call(named, [], []));
    assert Children(n) == [ExprNode(named)];
    assert V.Valid(n);
    if Everywhere(V.Valid, n) {
      ChildEverywhere(V.Valid, n, ExprNode(named));
    } else if Everywhere(V.Valid, ExprNode(named)) {
      EverywhereFrom(V.Valid, n, [ExprNode(named)]);
    }
  }

  /******* Scores *******/

  /** `_coerce_score`: booleans first, since a boolean is also a number. */
  function CoerceScore(v: Value): Result<real> {
    match v
    case Bool(b) => Ok(if b then 1.0 else 0.0)
    case Int(i) => if 0 <= i <= 1 then Ok(i as real) else Err(Author(BadScore))
    case Float(r) => if 0.0 <= r <= 1.0 then Ok(r) else Err(Author(BadScore))
    case _ => Err(Author(BadScore))
  }

  /** What a tree scores: its value, if it is a boolean or a number from 0 to 1. */
  function ScoreOf(rt: Runtime, tree: Expr, output: string, expected: string, input: string, metadata: seq<Entry>): Result<real> {
    var v := Run(Machine(STANDARD, rt, ScorerScope(output, expected, input, metadata)), tree).result;
    if v.Err? then Err(v.failure)
    else if v.value.Bool? then Ok(if v.value.b then 1.0 else 0.0)
    else if v.value.Int? && 0 <= v.value.i <= 1 then Ok(v.value.i as real)
    else if v.value.Float? && 0.0 <= v.value.r <= 1.0 then Ok(v.value.r)
    else Err(Author(BadScore))
  }

  /**
   `run_scorer`: a tree that was compiled before, or else the text, which is compiled first.
   A field that is too long is refused before anything runs.
   */
  method RunScorer(rt: Runtime, source: string, parsed: Option<Expr>, tree: Option<Expr>,
                   output: string, expected: string, input: string, metadata: seq<Entry>) returns (r: Result<real>)
    ensures r.Ok? ==> 0.0 <= r.value <= 1.0
    ensures tree.None? && !V.Compiles(source, parsed) ==> r == Err(Author(NotCompiled))
    ensures tree.Some? || V.Compiles(source, parsed) ==>
      r == if |output| > 200000 || |expected| > 200000 || |input| > 200000 then Err(Limit(CharLimit))
           else ScoreOf(rt, if tree.Some? then tree.value else parsed.value, output, expected, input, metadata)
  {
    var validated := if tree.Some? then tree else parsed;
    if tree.None? {
      var refused := V.CompileScorer(source, parsed);
      if refused.Some? {
        return Err(Author(NotCompiled));
      }
    }
    if SizedText(STANDARD, output).Err? || SizedText(STANDARD, expected).Err? || SizedText(STANDARD, input).Err? {
      return Err(Limit(CharLimit));
    }
    var interpreter := new I.Interpreter(STANDARD, rt, ScorerScope(output, expected, input, metadata));
    var value := interpreter.Evaluate(validated.value);
    r := if value.Err? then Err(value.failure) else CoerceScore(value.value);
  }

  function ScorerScope(output: string, expected: string, input: string, metadata: seq<Entry>): Env {
    map["output" := Str(output), "expected" := Str(expected), "input" := Str(input), "metadata" := Dict(metadata)]
  }
}
