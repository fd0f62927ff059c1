/**
 Exceptions that are no ScorerError (shared/code_scorer.py:596-601): which accepted scorers
 can end in one, although everything their authors could fix is to be a ScorerError.
 */
module ScorerEscapes {
  import opened Wrappers
  import opened ScorerSyntax
  import opened ScorerSemantics
  import I = ScorerInterpreter
  import S = ScorerSoundness
  import Lit = ScorerLiterals
  import T = ScorerTheorems
  import V = ScorerValidation

  predicate Stays(m: Machine, tree: Expr) {
    Run(m, tree).result != Err(Escaped)
  }

  /** The node is none of the constructs that can raise something else, but these. */
  predicate Among(cs: set<S.Construct>, n: Node) {
    S.ConstructOf(n).Some? ==> S.ConstructOf(n).value in cs
  }

  function OnlyConstructs(cs: set<S.Construct>): Node -> bool {
    (n: Node) => Among(cs, n)
  }

  /** A tree of constructs that cannot escape, accepted or not, does not. */
  lemma TameTreeStays(m: Machine, tree: Expr)
    requires Everywhere(S.Like(m, S.Tame), ExprNode(tree))
    ensures Stays(m, tree)
  {
    S.EvalFine(m, S.Tame, tree, map[], 0, State(0, 0, 0));
  }

  lemma {:induction false} TameEverywhere(m: Machine, cs: set<S.Construct>, n: Node)
    requires Everywhere(OnlyConstructs(cs), n) && forall c | c in cs :: !S.CanEscape(m, c)
    ensures Everywhere(S.Like(m, S.Tame), n)
    decreases Size(n)
  {
    assert OnlyConstructs(cs)(n);
    forall i | 0 <= i < |Children(n)| ensures Everywhere(S.Like(m, S.Tame), Children(n)[i]) {
      ChildSize(n, i);
      TameEverywhere(m, cs, Children(n)[i]);
    }
  }

  /******* A scorer for each construct *******/

  /** `[]`, `0`, and loops over "a" and over 0 */
  const EMPTY := ListDisplay([], Load)
  const ZERO := Constant(Int(0))
  const X := Name("x", Store)
  const LETTERS := Generator(X, Constant(Str("a")), [], false)
  const NUMBERS := Generator(X, ZERO, [], false)

  function Witness(c: S.Construct, l: Value, r: Value): Expr {
    match c
    case SetDisplays => SetDisplay([EMPTY])
    case DictDisplays => DictDisplay([Some(EMPTY)], [ZERO])
    case SetComps => SetComp(EMPTY, [LETTERS])
    case DictComps => DictComp(EMPTY, ZERO, [LETTERS])
    case Loops => ListComp(ZERO, [NUMBERS])
    case Indexing => Subscript(Constant(l), Constant(r), Load)
    case Operator(op) => T.OperatorTree(op, l, r)
    case Sign(op) => Unary(op, Constant(l))
    case Comparison(op) => T.CompareTree(op, l, r)
  }

  /** The nodes of the scorer below its root. */
  function Parts(c: S.Construct, l: Value, r: Value): seq<Node> {
    match c
    case SetDisplays => [ExprNode(EMPTY), ContextNode(Load)]
    case DictDisplays => [ExprNode(EMPTY), ContextNode(Load), ExprNode(ZERO)]
    case SetComps => [ExprNode(EMPTY), ContextNode(Load), GeneratorNode(LETTERS), ExprNode(X), ContextNode(Store), ExprNode(LETTERS.iter)]
    case DictComps =>
      [ExprNode(EMPTY), ContextNode(Load), ExprNode(ZERO), GeneratorNode(LETTERS), ExprNode(X), ContextNode(Store), ExprNode(LETTERS.iter)]
    case Loops => [ExprNode(ZERO), GeneratorNode(NUMBERS), ExprNode(X), ContextNode(Store)]
    case Indexing => [ExprNode(Constant(l)), ExprNode(Constant(r)), ContextNode(Load)]
    case Operator(op) => [ExprNode(Constant(l)), BinaryNode(op), ExprNode(Constant(r))]
    case Sign(op) => [UnaryNode(op), ExprNode(Constant(l))]
    case Comparison(op) => [ExprNode(Constant(l)), CompareNode(op), ExprNode(Constant(r))]
  }

  predicate Holds(p: Node -> bool, c: S.Construct, l: Value, r: Value) {
    p(ExprNode(Witness(c, l, r))) && forall i | 0 <= i < |Parts(c, l, r)| :: p(Parts(c, l, r)[i])
  }

  lemma EmptyEverywhere(p: Node -> bool)
    requires p(ExprNode(EMPTY)) && p(ContextNode(Load))
    ensures Everywhere(p, ExprNode(EMPTY))
  {
    T.LeafEverywhere(p, ContextNode(Load));
    assert Children(ExprNode(EMPTY)) == [ContextNode(Load)];
    T.EverywhereFrom(p, ExprNode(EMPTY), [ContextNode(Load)]);
  }

  lemma LoopEverywhere(p: Node -> bool, g: Generator)
    requires g == LETTERS || g == NUMBERS
    requires p(GeneratorNode(g)) && p(ExprNode(X)) && p(ContextNode(Store)) && p(ExprNode(g.iter))
    ensures Everywhere(p, GeneratorNode(g))
  {
    T.LeafEverywhere(p, ContextNode(Store));
    assert Children(ExprNode(X)) == [ContextNode(Store)];
    T.EverywhereFrom(p, ExprNode(X), [ContextNode(Store)]);
    T.LeafEverywhere(p, ExprNode(g.iter));
    assert Children(GeneratorNode(g)) == [ExprNode(X), ExprNode(g.iter)];
    T.EverywhereFrom(p, GeneratorNode(g), [ExprNode(X), ExprNode(g.iter)]);
  }

  /** What holds of each of its nodes holds everywhere in the scorer. */
  lemma WitnessEverywhere(p: Node -> bool, c: S.Construct, l: Value, r: Value)
    requires Holds(p, c, l, r)
    ensures Everywhere(p, ExprNode(Witness(c, l, r)))
  {
    var w, ps := ExprNode(Witness(c, l, r)), Parts(c, l, r);
    match c
    case Operator(op) =>
      assert p(ps[0]) && p(ps[1]) && p(ps[2]);
      T.OperatorTreeEverywhere(p, op, l, r);
    case Comparison(op) =>
      assert p(ps[0]) && p(ps[1]) && p(ps[2]);
      T.CompareTreeEverywhere(p, op, l, r);
    case Sign(op) =>
      assert p(ps[0]) && p(ps[1]);
      T.LeafEverywhere(p, ps[0]);
      T.LeafEverywhere(p, ps[1]);
      T.EverywhereFrom(p, w, [ps[0], ps[1]]);
    case Indexing =>
      assert p(ps[0]) && p(ps[1]) && p(ps[2]);
      T.LeafEverywhere(p, ps[0]);
      T.LeafEverywhere(p, ps[1]);
      T.LeafEverywhere(p, ps[2]);
      T.EverywhereFrom(p, w, [ps[0], ps[1], ps[2]]);
    case _ => DisplayEverywhere(p, c, l, r);
  }

  lemma DisplayEverywhere(p: Node -> bool, c: S.Construct, l: Value, r: Value)
    requires Holds(p, c, l, r) && (c.SetDisplays? || c.DictDisplays? || c.SetComps? || c.DictComps? || c.Loops?)
    ensures Everywhere(p, ExprNode(Witness(c, l, r)))
  {
    var w, ps := ExprNode(Witness(c, l, r)), Parts(c, l, r);
    assert p(ps[0]) && p(ps[1]);
    if c.Loops? {
      assert p(ps[2]) && p(ps[3]);
      T.LeafEverywhere(p, ExprNode(ZERO));
      LoopEverywhere(p, NUMBERS);
      assert Children(w) == [ExprNode(ZERO), GeneratorNode(NUMBERS)];
      T.EverywhereFrom(p, w, [ExprNode(ZERO), GeneratorNode(NUMBERS)]);
    } else {
      EmptyEverywhere(p);
      var e := ExprNode(EMPTY);
      match c
      case SetDisplays =>
        assert Children(w) == [e];
        T.EverywhereFrom(p, w, [e]);
      case DictDisplays =>
        assert p(ps[2]);
        T.LeafEverywhere(p, ExprNode(ZERO));
        OneKey();
        assert Children(w) == [e, ExprNode(ZERO)];
        T.EverywhereFrom(p, w, [e, ExprNode(ZERO)]);
      case SetComps =>
        assert p(ps[2]) && p(ps[3]) && p(ps[4]) && p(ps[5]);
        LoopEverywhere(p, LETTERS);
        assert Children(w) == [e, GeneratorNode(LETTERS)];
        T.EverywhereFrom(p, w, [e, GeneratorNode(LETTERS)]);
      case DictComps =>
        assert p(ps[2]) && p(ps[3]) && p(ps[4]) && p(ps[5]) && p(ps[6]);
        T.LeafEverywhere(p, ExprNode(ZERO));
        LoopEverywhere(p, LETTERS);
        assert Children(w) == [e, ExprNode(ZERO), GeneratorNode(LETTERS)];
        T.EverywhereFrom(p, w, [e, ExprNode(ZERO), GeneratorNode(LETTERS)]);
    }
  }

  lemma OneKey()
    ensures Present([Some(EMPTY)]) == [EMPTY]
  {
    assert [Some(EMPTY)][1..] == [];
  }

  lemma WitnessIsSmall(c: S.Construct, l: Value, r: Value)
    ensures ExprSize(Witness(c, l, r)) <= 8
  {
    match c
    case Operator(op) => T.TreesAreSmall(op, Eq, l, r);
    case Comparison(op) => T.TreesAreSmall(Add, op, l, r);
    case Indexing => assert ExprSize(Constant(l)) == 1 && ExprSize(Constant(r)) == 1;
    case Sign(_) => assert ExprSize(Constant(l)) == 1;
    case Loops => LoopIsSmall(NUMBERS); assert ExprSize(ZERO) == 1;
    case SetComps => LoopIsSmall(LETTERS); EmptyIsSmall();
    case DictComps => LoopIsSmall(LETTERS); EmptyIsSmall(); assert ExprSize(ZERO) == 1;
    case _ => DisplayIsSmall();
  }

  lemma DisplayIsSmall()
    ensures ExprSize(SetDisplay([EMPTY])) == 3 && ExprSize(DictDisplay([Some(EMPTY)], [ZERO])) == 4
  {
    EmptyIsSmall();
    var es, os, zs := [EMPTY], [Some(EMPTY)], [ZERO];
    assert es[1..] == [] && os[1..] == [] && zs[1..] == [];
    assert ExprsSize(es) == 2 && OptionsSize(os) == 2 && ExprSize(zs[0]) == 1 && ExprsSize(zs) == 1;
  }

  lemma EmptyIsSmall()
    ensures ExprSize(EMPTY) == 2
  {
  }

  lemma LoopIsSmall(g: Generator)
    requires g == LETTERS || g == NUMBERS
    ensures GeneratorsSize([g]) == 4
  {
    assert [g][1..] == [];
    assert ExprSize(X) == 2 && ExprSize(g.iter) == 1;
  }

  lemma WitnessValid(c: S.Construct, l: Value, r: Value)
    requires c.Operator? ==> InBinaryTable(c.binary)
    requires c.Sign? ==> c.unary != Invert
    requires c.Comparison? ==> InCompareTable(c.compare)
    ensures Holds(V.Valid, c, l, r)
  {
    WitnessAllowed(c, l, r);
    T.SimplyValid(ExprNode(Witness(c, l, r)));
    forall i | 0 <= i < |Parts(c, l, r)| ensures V.Valid(Parts(c, l, r)[i]) {
      PartAllowed(c, l, r, i);
      T.SimplyValid(Parts(c, l, r)[i]);
    }
  }

  lemma WitnessAllowed(c: S.Construct, l: Value, r: Value)
    ensures T.Simple(ExprNode(Witness(c, l, r)))
  {
  }

  lemma PartAllowed(c: S.Construct, l: Value, r: Value, i: nat)
    requires c.Operator? ==> InBinaryTable(c.binary)
    requires c.Sign? ==> c.unary != Invert
    requires c.Comparison? ==> InCompareTable(c.compare)
    requires i < |Parts(c, l, r)|
    ensures T.Simple(Parts(c, l, r)[i])
  {
  }

  lemma WitnessAcceptable(c: S.Construct, l: Value, r: Value)
    requires c.Operator? ==> InBinaryTable(c.binary)
    requires c.Sign? ==> c.unary != Invert
    requires c.Comparison? ==> InCompareTable(c.compare)
    ensures V.Acceptable(Witness(c, l, r))
  {
    WitnessIsSmall(c, l, r);
    WitnessValid(c, l, r);
    WitnessEverywhere(V.Valid, c, l, r);
    T.AcceptableExactly(Witness(c, l, r));
  }

  /** The scorer consists of its construct and of nothing else that could escape. */
  lemma WitnessKeeps(cs: set<S.Construct>, c: S.Construct, l: Value, r: Value)
    requires c in cs
    ensures Everywhere(OnlyConstructs(cs), ExprNode(Witness(c, l, r)))
  {
    WitnessEverywhere(OnlyConstructs(cs), c, l, r);
  }

  /******* They escape *******/

  lemma EmptyRuns(m: Machine, local: Env, depth: int, st: State)
    requires !Over(st.steps + 1, m.lim.steps) && !Over(depth, m.lim.depth)
    ensures Eval(m, EMPTY, local, depth, st) == Outcome(Ok(List([])), Deepest(st.(steps := st.steps + 1), depth))
  {
    var st1 := Deepest(st.(steps := st.steps + 1), depth);
    assert EvalAll(m, EMPTY, [], [], local, depth + 1, st1) == Outcome(Ok([]), st1);
    assert EvalStrict(m, EMPTY, local, depth + 1, st1) == Outcome(Ok(List([])), st1);
    assert Dispatch(m, EMPTY, local, depth + 1, st1) == EvalStrict(m, EMPTY, local, depth + 1, st1);
  }

  /** What a scorer of one strict construct over evaluated operands gives. */
  lemma RunsTo(m: Machine, e: Expr, vals: seq<Value>, st: State)
    requires Strict(e) && Precheck(e).None? && |vals| == |Operands(e)|
    requires !Over(1, m.lim.steps) && !Over(0, m.lim.depth)
    requires EvalAll(m, e, Operands(e), [], map[], 1, State(1, 0, 0)) == Outcome(Ok(vals), st)
    ensures Run(m, e).result == Apply(m, e, vals, map[])
  {
    DispatchCases(m, e, map[], 1, State(1, 0, 0));
  }

  /** `{[]}` is accepted and raises a TypeError. */
  lemma SetOfListEscapes(m: Machine)
    requires !Over(2, m.lim.steps) && !Over(1, m.lim.depth) && !Over(1, m.lim.items)
    ensures V.Acceptable(SetDisplay([EMPTY])) && Run(m, SetDisplay([EMPTY])).result == Err(Escaped)
  {
    WitnessAcceptable(S.SetDisplays, NoneValue, NoneValue);
    var e, st := SetDisplay([EMPTY]), State(1, 0, 0);
    EmptyRuns(m, map[], 1, st);
    assert Operands(e)[0] == EMPTY;
    I.EvalOne(m, e, EMPTY, map[], 1, st);
    RunsTo(m, e, [List([])], State(2, 0, 1));
    NotHashable([List([])]);
  }

  lemma NotHashable(xs: seq<Value>)
    requires xs == [List([])]
    ensures InsertAll([], xs) == Err(Escaped)
  {
    assert !Hashable(xs[0]);
  }

  lemma DictDisplayEscapes(m: Machine)
    requires !Over(3, m.lim.steps) && !Over(1, m.lim.depth) && !Over(1, m.lim.items)
    ensures Run(m, DictDisplay([Some(EMPTY)], [ZERO])).result == Err(Escaped)
  {
    var e, st := DictDisplay([Some(EMPTY)], [ZERO]), State(1, 0, 0);
    OneKey();
    EmptyRuns(m, map[], 1, st);
    Lit.LiteralRuns(m, Int(0), map[], 1, State(2, 0, 1));
    assert Operands(e) == [EMPTY, ZERO] && Operands(e)[0] == EMPTY && Operands(e)[1] == ZERO;
    I.EvalTwo(m, e, EMPTY, ZERO, map[], 1, st);
    var vals := [List([]), Int(0)];
    RunsTo(m, e, vals, State(3, 0, 1));
    assert vals[..1] == [List([])] && vals[1..] == [Int(0)];
    assert !Hashable(List([]));
  }

  lemma IndexingEscapes(m: Machine, v: Value, key: Value)
    requires !Over(3, m.lim.steps) && !Over(1, m.lim.depth) && ApplyIndex(m, v, key) == Err(Escaped)
    ensures Run(m, Subscript(Constant(v), Constant(key), Load)).result == Err(Escaped)
  {
    var e, st := Subscript(Constant(v), Constant(key), Load), State(1, 0, 0);
    Lit.LiteralRuns(m, e.operand.value, map[], 1, st);
    Lit.LiteralRuns(m, e.index.value, map[], 1, State(2, 0, 1));
    I.EvalTwo(m, e, e.operand, e.index, map[], 1, st);
    RunsTo(m, e, [v, key], State(3, 0, 1));
  }

  lemma SignEscapes(m: Machine, op: UnaryOp, v: Value)
    requires !Over(2, m.lim.steps) && !Over(1, m.lim.depth) && ApplyUnary(m, op, v) == Err(Escaped)
    ensures Run(m, Unary(op, Constant(v))).result == Err(Escaped)
  {
    var e, st := Unary(op, Constant(v)), State(1, 0, 0);
    Lit.LiteralRuns(m, e.operand.value, map[], 1, st);
    I.EvalOne(m, e, e.operand, map[], 1, st);
    RunsTo(m, e, [v], State(2, 0, 1));
  }

  lemma LoopEscapes(m: Machine)
    requires !Over(2, m.lim.steps) && !Over(1, m.lim.depth)
    ensures Run(m, ListComp(ZERO, [NUMBERS])).result == Err(Escaped)
  {
    var e, st := ListComp(ZERO, [NUMBERS]), State(1, 0, 0);
    DispatchCases(m, e, map[], 1, st);
    Lit.LiteralRuns(m, Int(0), map[], 1, st);
    var nothing: Env := map[];
    assert nothing + nothing == nothing;
    assert Generate(m, e, 0, map[], Elems([]), map[], 1, st).result == Err(Escaped);
  }

  /** A loop over one letter yields once. */
  lemma OneLetter(m: Machine, e: Expr, g: Gathered, st: State)
    requires IsComprehension(e) && e.generators == [LETTERS] && Fits(e, g)
    requires !Over(st.steps + 1, m.lim.steps) && !Over(1, m.lim.depth) && !Over(1, m.lim.items)
    ensures var bound := map["x" := Str("a")];
      Generate(m, e, 0, map[], g, map[], 1, st) ==
        Yield(m, e, bound, g, map[], 1, Deepest(st.(steps := st.steps + 1), 1).(iterations := st.iterations + 1))
  {
    var bound, st1 := map["x" := Str("a")], Deepest(st.(steps := st.steps + 1), 1);
    var nothing: Env := map[];
    assert nothing + nothing == nothing;
    Lit.LiteralRuns(m, LETTERS.iter.value, map[], 1, st);
    var items := [Str("a")];
    assert Elements(Str("a")).value == items;
    var st2 := st1.(iterations := st1.iterations + 1);
    assert Conditions(m, e, 0, 0, map[] + bound, 1, st2) == Outcome(Ok(true), st2);
    var y := Yield(m, e, bound, g, map[], 1, st2);
    assert Generate(m, e, 1, bound, g, map[], 1, st2) == y;
    assert Filter(m, e, 0, bound, g, map[], 1, st2) == y;
    assert Item(m, e, 0, map[], items[0], 1, g, map[], 1, st1) == y;
    assert Iterate(m, e, 0, map[], items, 0, g, map[], 1, st1) == y;
  }

  lemma SetCompEscapes(m: Machine)
    requires !Over(3, m.lim.steps) && !Over(1, m.lim.depth) && !Over(1, m.lim.items)
    ensures Run(m, SetComp(EMPTY, [LETTERS])).result == Err(Escaped)
  {
    var e, st := SetComp(EMPTY, [LETTERS]), State(1, 0, 0);
    DispatchCases(m, e, map[], 1, st);
    OneLetter(m, e, Elems([]), st);
    EmptyRuns(m, map[] + map["x" := Str("a")], 1, State(2, 1, 1));
    assert [] + [List([])] == [List([])];
    NotHashable([List([])]);
  }

  lemma DictCompEscapes(m: Machine)
    requires !Over(4, m.lim.steps) && !Over(1, m.lim.depth) && !Over(1, m.lim.items)
    ensures Run(m, DictComp(EMPTY, ZERO, [LETTERS])).result == Err(Escaped)
  {
    var e, st := DictComp(EMPTY, ZERO, [LETTERS]), State(1, 0, 0);
    var local: Env := map[] + map["x" := Str("a")];
    DispatchCases(m, e, map[], 1, st);
    OneLetter(m, e, Pairs([]), st);
    Lit.LiteralRuns(m, Int(0), local, 1, State(2, 1, 1));
    EmptyRuns(m, local, 1, State(3, 1, 1));
    assert !Hashable(List([]));
  }

  /** Operands at which a construct that can escape does. */
  lemma EscapingOperands(m: Machine, c: S.Construct) returns (l: Value, r: Value)
    requires S.CanEscape(m, c)
    ensures c.Operator? ==> InBinaryTable(c.binary) && ApplyBinary(m, c.binary, l, r) == Err(Escaped)
    ensures c.Sign? ==> c.unary != Invert && ApplyUnary(m, c.unary, l) == Err(Escaped)
    ensures c.Comparison? ==> InCompareTable(c.compare) && ApplyCompare(m, c.compare, l, r) == Err(Escaped)
    ensures c.Indexing? ==> ApplyIndex(m, l, r) == Err(Escaped)
  {
    l, r := NoneValue, NoneValue;
    match c
    case Operator(op) => l, r :| ApplyBinary(m, op, l, r) == Err(Escaped);
    case Sign(op) => l :| ApplyUnary(m, op, l) == Err(Escaped);
    case Comparison(op) => l, r :| ApplyCompare(m, op, l, r) == Err(Escaped);
    case Indexing => l, r :| ApplyIndex(m, l, r) == Err(Escaped);
    case _ =>
  }

  /** A construct that can escape does so in an accepted scorer that has no other such construct. */
  lemma EscapesSomewhere(m: Machine, c: S.Construct) returns (tree: Expr)
    requires S.CanEscape(m, c) && !Over(4, m.lim.steps) && !Over(1, m.lim.depth) && !Over(1, m.lim.items)
    ensures V.Acceptable(tree) && Run(m, tree).result == Err(Escaped)
    ensures forall cs | c in cs :: Everywhere(OnlyConstructs(cs), ExprNode(tree))
  {
    var l, r := EscapingOperands(m, c);
    tree := Witness(c, l, r);
    WitnessAcceptable(c, l, r);
    forall cs | c in cs ensures Everywhere(OnlyConstructs(cs), ExprNode(tree)) { WitnessKeeps(cs, c, l, r); }
    match c
    case SetDisplays => SetOfListEscapes(m);
    case DictDisplays => DictDisplayEscapes(m);
    case SetComps => SetCompEscapes(m);
    case DictComps => DictCompEscapes(m);
    case Loops => LoopEscapes(m);
    case Indexing => IndexingEscapes(m, l, r);
    case Operator(op) => T.OperatorTreeRuns(m, op, l, r);
    case Sign(op) => SignEscapes(m, op, l);
    case Comparison(op) => T.CompareTreeRuns(m, op, l, r);
  }

  /**
   The promise that whatever an author can fix is a ScorerError is kept for exactly the
   languages without a construct that can escape: a set or a dictionary with a key that is
   not surely hashable, a loop over what is not surely iterable, an operator, a comparison
   or an index that raises what its handlers do not catch.
   */
  lemma EscapesExactly(m: Machine, cs: set<S.Construct>)
    requires !Over(4, m.lim.steps) && !Over(1, m.lim.depth) && !Over(1, m.lim.items)
    ensures (forall tree | V.Acceptable(tree) && Everywhere(OnlyConstructs(cs), ExprNode(tree)) :: Stays(m, tree))
       <==> forall c | c in cs :: !S.CanEscape(m, c)
  {
    if forall c | c in cs :: !S.CanEscape(m, c) {
      forall tree | V.Acceptable(tree) && Everywhere(OnlyConstructs(cs), ExprNode(tree)) ensures Stays(m, tree) {
        TameEverywhere(m, cs, ExprNode(tree));
        TameTreeStays(m, tree);
      }
    } else {
      var c :| c in cs && S.CanEscape(m, c);
      var tree := EscapesSomewhere(m, c);
      assert !Stays(m, tree);
    }
  }
}
