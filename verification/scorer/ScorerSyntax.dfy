/**
 The syntax trees a code scorer is made of, and the values its evaluation produces
 (shared/code_scorer.py). The trees are those of Python's `ast` module for one
 expression, including the constructs the scorer language refuses.
 */
module ScorerSyntax {
  import opened Wrappers

  datatype Value =
    | NoneValue
    | Bool(b: bool)
    | Int(i: int)
    | Float(r: real)
    | Str(s: string)
    | List(items: seq<Value>)
    | Tuple(items: seq<Value>)
    | Set(items: seq<Value>)
    | Dict(entries: seq<Entry>)
    | Iterator(items: seq<Value>, sized: bool)  // a range or dictionary view, which has a length, or a zip or enumerate
    | SliceOf(lower: Value, upper: Value, step: Value)
    | Builtin(name: string)
    | Method(target: Value, name: string)

  datatype Entry = Entry(key: Value, value: Value)

  datatype BinaryOp = Add | Sub | Mult | Div | FloorDiv | Mod | Pow
                    | MatMult | LShift | RShift | BitOr | BitXor | BitAnd
  datatype UnaryOp = USub | UAdd | Not | Invert
  datatype LogicOp = And | Or
  datatype CompareOp = Eq | NotEq | Lt | LtE | Gt | GtE | In | NotIn | Is | IsNot
  datatype Context = Load | Store | Del

  datatype Expr =
    | Constant(value: Value)
    | ListDisplay(elts: seq<Expr>, ctx: Context)
    | TupleDisplay(elts: seq<Expr>, ctx: Context)
    | SetDisplay(elts: seq<Expr>)
    | DictDisplay(keys: seq<Option<Expr>>, values: seq<Expr>)  // None is the key of `**d`
    | JoinedStr(parts: seq<Expr>)
    | FormattedValue(operand: Expr, conversion: int, formatSpec: Option<Expr>)
    | Name(id: string, ctx: Context)
    | Binary(left: Expr, binop: BinaryOp, right: Expr)
    | Unary(unop: UnaryOp, operand: Expr)
    | Logic(logic: LogicOp, parts: seq<Expr>)
    | Compare(left: Expr, ops: seq<CompareOp>, comparators: seq<Expr>)
    | IfExp(test: Expr, body: Expr, orelse: Expr)
    | Subscript(operand: Expr, index: Expr, ctx: Context)
    | Slice(lower: Option<Expr>, upper: Option<Expr>, step: Option<Expr>)
    | Attribute(operand: Expr, attr: string, ctx: Context)
    | Call(func: Expr, args: seq<Expr>, keywords: seq<Keyword>)
    | ListComp(elt: Expr, generators: seq<Generator>)
    | SetComp(elt: Expr, generators: seq<Generator>)
    | GeneratorExp(elt: Expr, generators: seq<Generator>)
    | DictComp(key: Expr, elt: Expr, generators: seq<Generator>)
    | Starred(operand: Expr, ctx: Context)
    | Unsupported(kind: string, parts: seq<Expr>)  // lambda, await, yield, walrus, ...

  datatype Generator = Generator(target: Expr, iter: Expr, ifs: seq<Expr>, isAsync: bool)
  datatype Keyword = Keyword(arg: Option<string>, value: Expr)

  /** Anything `ast.walk` visits: operators and contexts are nodes of their own. */
  datatype Node =
    | Root(body: Expr)
    | ExprNode(expr: Expr)
    | GeneratorNode(generator: Generator)
    | KeywordNode(keyword: Keyword)
    | BinaryNode(binary: BinaryOp)
    | UnaryNode(unary: UnaryOp)
    | LogicNode(logic: LogicOp)
    | CompareNode(compare: CompareOp)
    | ContextNode(ctx: Context)

  /******* Children, in the order of the fields *******/

  function Exprs(es: seq<Expr>): (ns: seq<Node>)
    ensures |ns| == |es| && forall i | 0 <= i < |es| :: ns[i] == ExprNode(es[i])
  {
    seq(|es|, i requires 0 <= i < |es| => ExprNode(es[i]))
  }

  function Present(es: seq<Option<Expr>>): seq<Expr> {
    if es == [] then [] else
    (if es[0].Some? then [es[0].value] else []) + Present(es[1..])
  }

  function Generators(gs: seq<Generator>): (ns: seq<Node>)
    ensures |ns| == |gs| && forall i | 0 <= i < |gs| :: ns[i] == GeneratorNode(gs[i])
  {
    seq(|gs|, i requires 0 <= i < |gs| => GeneratorNode(gs[i]))
  }

  function Keywords(ks: seq<Keyword>): (ns: seq<Node>)
    ensures |ns| == |ks| && forall i | 0 <= i < |ks| :: ns[i] == KeywordNode(ks[i])
  {
    seq(|ks|, i requires 0 <= i < |ks| => KeywordNode(ks[i]))
  }

  function Compares(ops: seq<CompareOp>): (ns: seq<Node>)
    ensures |ns| == |ops| && forall i | 0 <= i < |ops| :: ns[i] == CompareNode(ops[i])
  {
    seq(|ops|, i requires 0 <= i < |ops| => CompareNode(ops[i]))
  }

  function Children(n: Node): seq<Node> {
    match n
    case Root(e) => [ExprNode(e)]
    case GeneratorNode(g) => [ExprNode(g.target), ExprNode(g.iter)] + Exprs(g.ifs)
    case KeywordNode(k) => [ExprNode(k.value)]
    case ExprNode(e) => ExprChildren(e)
    case _ => []
  }

  function ExprChildren(e: Expr): seq<Node> {
    match e
    case Constant(_) => []
    case ListDisplay(es, ctx) => Exprs(es) + [ContextNode(ctx)]
    case TupleDisplay(es, ctx) => Exprs(es) + [ContextNode(ctx)]
    case SetDisplay(es) => Exprs(es)
    case DictDisplay(ks, vs) => Exprs(Present(ks)) + Exprs(vs)
    case JoinedStr(ps) => Exprs(ps)
    case FormattedValue(x, _, spec) => [ExprNode(x)] + Exprs(Present([spec]))
    case Name(_, ctx) => [ContextNode(ctx)]
    case Binary(l, op, r) => [ExprNode(l), BinaryNode(op), ExprNode(r)]
    case Unary(op, x) => [UnaryNode(op), ExprNode(x)]
    case Logic(op, ps) => [LogicNode(op)] + Exprs(ps)
    case Compare(l, ops, cs) => [ExprNode(l)] + Compares(ops) + Exprs(cs)
    case IfExp(t, b, o) => [ExprNode(t), ExprNode(b), ExprNode(o)]
    case Subscript(x, i, ctx) => [ExprNode(x), ExprNode(i), ContextNode(ctx)]
    case Slice(l, u, s) => Exprs(Present([l, u, s]))
    case Attribute(x, _, ctx) => [ExprNode(x), ContextNode(ctx)]
    case Call(f, args, kws) => [ExprNode(f)] + Exprs(args) + Keywords(kws)
    case ListComp(x, gs) => [ExprNode(x)] + Generators(gs)
    case SetComp(x, gs) => [ExprNode(x)] + Generators(gs)
    case GeneratorExp(x, gs) => [ExprNode(x)] + Generators(gs)
    case DictComp(k, x, gs) => [ExprNode(k), ExprNode(x)] + Generators(gs)
    case Starred(x, ctx) => [ExprNode(x), ContextNode(ctx)]
    case Unsupported(_, ps) => Exprs(ps)
  }

  /******* How many nodes `ast.walk` yields *******/

  function Size(n: Node): nat {
    match n
    case Root(e) => 1 + ExprSize(e)
    case ExprNode(e) => ExprSize(e)
    case GeneratorNode(g) => GeneratorSize(g)
    case KeywordNode(k) => KeywordSize(k)
    case _ => 1
  }

  function ExprSize(e: Expr): nat
    decreases e
  {
    match e
    case Constant(_) => 1
    case ListDisplay(es, _) => 2 + ExprsSize(es)
    case TupleDisplay(es, _) => 2 + ExprsSize(es)
    case SetDisplay(es) => 1 + ExprsSize(es)
    case DictDisplay(ks, vs) => 1 + OptionsSize(ks) + ExprsSize(vs)
    case JoinedStr(ps) => 1 + ExprsSize(ps)
    case FormattedValue(x, _, spec) => 1 + ExprSize(x) + OptionSize(spec)
    case Name(_, _) => 2
    case Binary(l, _, r) => 2 + ExprSize(l) + ExprSize(r)
    case Unary(_, x) => 2 + ExprSize(x)
    case Logic(_, ps) => 2 + ExprsSize(ps)
    case Compare(l, ops, cs) => 1 + ExprSize(l) + |ops| + ExprsSize(cs)
    case IfExp(t, b, o) => 1 + ExprSize(t) + ExprSize(b) + ExprSize(o)
    case Subscript(x, i, _) => 2 + ExprSize(x) + ExprSize(i)
    case Slice(l, u, s) => 1 + OptionSize(l) + OptionSize(u) + OptionSize(s)
    case Attribute(x, _, _) => 2 + ExprSize(x)
    case Call(f, args, kws) => 1 + ExprSize(f) + ExprsSize(args) + KeywordsSize(kws)
    case ListComp(x, gs) => 1 + ExprSize(x) + GeneratorsSize(gs)
    case SetComp(x, gs) => 1 + ExprSize(x) + GeneratorsSize(gs)
    case GeneratorExp(x, gs) => 1 + ExprSize(x) + GeneratorsSize(gs)
    case DictComp(k, x, gs) => 1 + ExprSize(k) + ExprSize(x) + GeneratorsSize(gs)
    case Starred(x, _) => 2 + ExprSize(x)
    case Unsupported(_, ps) => 1 + ExprsSize(ps)
  }

  function ExprsSize(es: seq<Expr>): nat
    decreases es
  {
    if es == [] then 0 else ExprSize(es[0]) + ExprsSize(es[1..])
  }

  function OptionSize(o: Option<Expr>): nat
    decreases o
  {
    if o.Some? then ExprSize(o.value) else 0
  }

  function OptionsSize(os: seq<Option<Expr>>): nat
    decreases os
  {
    if os == [] then 0 else OptionSize(os[0]) + OptionsSize(os[1..])
  }

  function GeneratorSize(g: Generator): nat
    decreases g
  {
    1 + ExprSize(g.target) + ExprSize(g.iter) + ExprsSize(g.ifs)
  }

  function GeneratorsSize(gs: seq<Generator>): nat
    decreases gs
  {
    if gs == [] then 0 else GeneratorSize(gs[0]) + GeneratorsSize(gs[1..])
  }

  function KeywordSize(k: Keyword): nat
    decreases k
  {
    1 + ExprSize(k.value)
  }

  function KeywordsSize(ks: seq<Keyword>): nat
    decreases ks
  {
    if ks == [] then 0 else KeywordSize(ks[0]) + KeywordsSize(ks[1..])
  }

  /** The nodes of a forest: what is left to visit from a queue of nodes. */
  function ForestSize(ns: seq<Node>): nat {
    if ns == [] then 0 else Size(ns[0]) + ForestSize(ns[1..])
  }

  lemma {:induction false} ForestSizeAppend(a: seq<Node>, b: seq<Node>)
    ensures ForestSize(a + b) == ForestSize(a) + ForestSize(b)
  {
    if a == [] {
      assert a + b == b;
    } else {
      assert (a + b)[1..] == a[1..] + b;
      ForestSizeAppend(a[1..], b);
    }
  }

  lemma {:induction false} ForestSizeMember(ns: seq<Node>, i: nat)
    requires i < |ns|
    ensures Size(ns[i]) <= ForestSize(ns)
  {
    if i > 0 { ForestSizeMember(ns[1..], i - 1); }
  }

  lemma {:induction false} ExprsForest(es: seq<Expr>)
    ensures ForestSize(Exprs(es)) == ExprsSize(es)
  {
    if es != [] {
      assert Exprs(es)[1..] == Exprs(es[1..]);
      ExprsForest(es[1..]);
    }
  }

  lemma {:induction false} PresentForest(os: seq<Option<Expr>>)
    ensures ForestSize(Exprs(Present(os))) == OptionsSize(os)
  {
    ExprsForest(Present(os));
    PresentSize(os);
  }

  lemma {:induction false} PresentSize(os: seq<Option<Expr>>)
    ensures ExprsSize(Present(os)) == OptionsSize(os)
  {
    if os != [] {
      PresentSize(os[1..]);
      if os[0].Some? {
        assert Present(os)[1..] == Present(os[1..]);
      } else {
        assert Present(os) == Present(os[1..]);
      }
    }
  }

  lemma {:induction false} GeneratorsForest(gs: seq<Generator>)
    ensures ForestSize(Generators(gs)) == GeneratorsSize(gs)
  {
    if gs != [] {
      assert Generators(gs)[1..] == Generators(gs[1..]);
      GeneratorsForest(gs[1..]);
    }
  }

  lemma {:induction false} KeywordsForest(ks: seq<Keyword>)
    ensures ForestSize(Keywords(ks)) == KeywordsSize(ks)
  {
    if ks != [] {
      assert Keywords(ks)[1..] == Keywords(ks[1..]);
      KeywordsForest(ks[1..]);
    }
  }

  lemma {:induction false} ComparesForest(ops: seq<CompareOp>)
    ensures ForestSize(Compares(ops)) == |ops|
  {
    if ops != [] {
      assert Compares(ops)[1..] == Compares(ops[1..]);
      ComparesForest(ops[1..]);
    }
  }

  lemma Forest1(a: Node)
    ensures ForestSize([a]) == Size(a)
  {
    assert [a][1..] == [];
  }

  lemma Forest2(a: Node, b: Node)
    ensures ForestSize([a, b]) == Size(a) + Size(b)
  {
    assert [a, b][1..] == [b];
    Forest1(b);
  }

  lemma Forest3(a: Node, b: Node, c: Node)
    ensures ForestSize([a, b, c]) == Size(a) + Size(b) + Size(c)
  {
    assert [a, b, c][1..] == [b, c];
    Forest2(b, c);
  }

  /** A tree is its root and the trees of its children. */
  lemma ChildrenSize(n: Node)
    ensures Size(n) == 1 + ForestSize(Children(n))
  {
    match n
    case Root(e) => Forest1(ExprNode(e));
    case GeneratorNode(g) =>
      ForestSizeAppend([ExprNode(g.target), ExprNode(g.iter)], Exprs(g.ifs));
      Forest2(ExprNode(g.target), ExprNode(g.iter));
      ExprsForest(g.ifs);
    case KeywordNode(k) => Forest1(ExprNode(k.value));
    case ExprNode(e) => ExprChildrenSize(e);
    case _ =>
  }

  lemma ExprChildrenSize(e: Expr)
    ensures ExprSize(e) == 1 + ForestSize(ExprChildren(e))
  {
    match e
    case ListComp(_, _) => ComprehensionSize(e);
    case SetComp(_, _) => ComprehensionSize(e);
    case GeneratorExp(_, _) => ComprehensionSize(e);
    case DictComp(_, _, _) => ComprehensionSize(e);
    case Binary(_, _, _) => OperatorSize(e);
    case Unary(_, _) => OperatorSize(e);
    case Logic(_, _) => OperatorSize(e);
    case Compare(_, _, _) => OperatorSize(e);
    case IfExp(t, b, o) => Forest3(ExprNode(t), ExprNode(b), ExprNode(o));
    case Subscript(_, _, _) => AccessSize(e);
    case Slice(_, _, _) => AccessSize(e);
    case Attribute(_, _, _) => AccessSize(e);
    case Call(_, _, _) => AccessSize(e);
    case Name(_, ctx) => Forest1(ContextNode(ctx));
    case Starred(x, ctx) => Forest2(ExprNode(x), ContextNode(ctx));
    case _ => DisplaySize(e);
  }

  lemma ComprehensionSize(e: Expr)
    requires e.ListComp? || e.SetComp? || e.GeneratorExp? || e.DictComp?
    ensures ExprSize(e) == 1 + ForestSize(ExprChildren(e))
  {
    if e.DictComp? {
      DictCompSize(e);
    } else {
      HeadAndGenerators([ExprNode(e.elt)], e.generators);
      Forest1(ExprNode(e.elt));
    }
  }

  lemma DictCompSize(e: Expr)
    requires e.DictComp?
    ensures ExprSize(e) == 1 + ForestSize(ExprChildren(e))
  {
    HeadAndGenerators([ExprNode(e.key), ExprNode(e.elt)], e.generators);
    Forest2(ExprNode(e.key), ExprNode(e.elt));
  }

  lemma OperatorSize(e: Expr)
    requires e.Binary? || e.Unary? || e.Logic? || e.Compare?
    ensures ExprSize(e) == 1 + ForestSize(ExprChildren(e))
  {
    match e
    case Binary(l, op, r) => Forest3(ExprNode(l), BinaryNode(op), ExprNode(r));
    case Unary(op, x) => Forest2(UnaryNode(op), ExprNode(x));
    case Logic(op, ps) => HeadAndExprs([LogicNode(op)], ps); Forest1(LogicNode(op));
    case Compare(_, _, _) => CompareSize(e);
  }

  lemma CompareSize(e: Expr)
    requires e.Compare?
    ensures ExprSize(e) == 1 + ForestSize(ExprChildren(e))
  {
    var head := [ExprNode(e.left)];
    HeadAndExprs(head + Compares(e.ops), e.comparators);
    ForestSizeAppend(head, Compares(e.ops));
    Forest1(ExprNode(e.left));
    ComparesForest(e.ops);
  }

  lemma AccessSize(e: Expr)
    requires e.Subscript? || e.Slice? || e.Attribute? || e.Call?
    ensures ExprSize(e) == 1 + ForestSize(ExprChildren(e))
  {
    match e
    case Subscript(x, i, ctx) => Forest3(ExprNode(x), ExprNode(i), ContextNode(ctx));
    case Slice(l, u, s) => ExprsForest(Present([l, u, s])); ThreeOptions(l, u, s);
    case Attribute(x, _, ctx) => Forest2(ExprNode(x), ContextNode(ctx));
    case Call(_, _, _) => CallSize(e);
  }

  lemma CallSize(e: Expr)
    requires e.Call?
    ensures ExprSize(e) == 1 + ForestSize(ExprChildren(e))
  {
    var head := [ExprNode(e.func)];
    ForestSizeAppend(head + Exprs(e.args), Keywords(e.keywords));
    KeywordsForest(e.keywords);
    HeadAndExprs(head, e.args);
    Forest1(ExprNode(e.func));
  }

  lemma DisplaySize(e: Expr)
    requires e.Constant? || e.ListDisplay? || e.TupleDisplay? || e.SetDisplay? || e.DictDisplay?
          || e.JoinedStr? || e.FormattedValue? || e.Unsupported?
    ensures ExprSize(e) == 1 + ForestSize(ExprChildren(e))
  {
    match e
    case Constant(_) =>
    case ListDisplay(es, ctx) => ExprsAndTail(es, ctx);
    case TupleDisplay(es, ctx) => ExprsAndTail(es, ctx);
    case SetDisplay(es) => ExprsForest(es);
    case DictDisplay(ks, vs) => HeadAndExprs(Exprs(Present(ks)), vs); PresentForest(ks);
    case JoinedStr(ps) => ExprsForest(ps);
    case FormattedValue(x, _, spec) =>
      HeadAndExprs([ExprNode(x)], Present([spec])); Forest1(ExprNode(x)); OneOption(spec);
    case Unsupported(_, ps) => ExprsForest(ps);
  }

  lemma HeadAndGenerators(head: seq<Node>, gs: seq<Generator>)
    ensures ForestSize(head + Generators(gs)) == ForestSize(head) + GeneratorsSize(gs)
  {
    ForestSizeAppend(head, Generators(gs));
    GeneratorsForest(gs);
  }

  lemma HeadAndExprs(head: seq<Node>, es: seq<Expr>)
    ensures ForestSize(head + Exprs(es)) == ForestSize(head) + ExprsSize(es)
  {
    ForestSizeAppend(head, Exprs(es));
    ExprsForest(es);
  }

  lemma ExprsAndTail(es: seq<Expr>, ctx: Context)
    ensures ForestSize(Exprs(es) + [ContextNode(ctx)]) == ExprsSize(es) + 1
  {
    ForestSizeAppend(Exprs(es), [ContextNode(ctx)]);
    ExprsForest(es);
    Forest1(ContextNode(ctx));
  }

  lemma OneOption(o: Option<Expr>)
    ensures ExprsSize(Present([o])) == OptionSize(o)
  {
    PresentSize([o]);
    assert [o][1..] == [];
  }

  lemma ThreeOptions(l: Option<Expr>, u: Option<Expr>, s: Option<Expr>)
    ensures ExprsSize(Present([l, u, s])) == OptionSize(l) + OptionSize(u) + OptionSize(s)
  {
    PresentSize([l, u, s]);
    assert [l, u, s][1..] == [u, s];
    assert [u, s][1..] == [s];
    assert [s][1..] == [];
    assert OptionsSize([u, s]) == OptionSize(u) + OptionsSize([s]);
  }

  lemma ChildSize(n: Node, i: nat)
    requires i < |Children(n)|
    ensures Size(Children(n)[i]) < Size(n)
  {
    ChildrenSize(n);
    ForestSizeMember(Children(n), i);
  }

  /** `p` holds of the node and of everything below it. */
  ghost predicate Everywhere(p: Node -> bool, n: Node)
    decreases Size(n)
  {
    p(n) && forall i | 0 <= i < |Children(n)| ::
      (ChildSize(n, i); Everywhere(p, Children(n)[i]))
  }
}
