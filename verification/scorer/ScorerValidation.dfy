/**
 Compilation of a scorer: every node of the parsed tree is checked against the
 allowlists (shared/code_scorer.py, `compile_scorer` and `_validate_node`).
 */
module ScorerValidation {
  import opened Wrappers
  import opened ScorerSyntax
  import Text

  const MAX_SOURCE_CHARS := 8000
  const MAX_NODES := 2000

  const ALLOWED_METHODS: set<string> := {
    "lower", "upper", "strip", "lstrip", "rstrip", "title", "casefold",
    "startswith", "endswith", "split", "rsplit", "splitlines", "partition",
    "replace", "count", "find", "rfind", "index", "join", "removeprefix",
    "removesuffix", "isdigit", "isalpha", "isalnum", "isspace", "isupper",
    "islower", "zfill", "ljust", "rjust",
    "get", "keys", "values", "items",
    "union", "intersection", "difference", "issubset", "issuperset"
  }

  const BUILTINS: set<string> := {
    "len", "abs", "min", "max", "round", "sum", "any", "all", "sorted",
    "str", "int", "float", "bool", "list", "dict", "set", "tuple",
    "enumerate", "zip", "range", "contains", "matches", "find_all",
    "is_json", "json_parse", "similarity", "word_count", "clamp"
  }

  datatype Rejection =
    | EmptySource | SourceTooLong | SyntaxProblem | TooLarge
    | NotAllowed | PrivateAttribute | UnknownMethod
    | BadCallee | UnknownFunction | ArgumentUnpacking | KeywordUnpacking
    | DunderName | AsyncComprehension

  predicate AllowedType(n: Node) {
    match n
    case ExprNode(e) => !e.Starred? && !e.Unsupported?
    case BinaryNode(op) => op in {Add, Sub, Mult, Div, FloorDiv, Mod, Pow}
    case UnaryNode(op) => op != Invert
    case CompareNode(op) => op != Is && op != IsNot
    case ContextNode(ctx) => ctx != Del
    case _ => true
  }

  predicate Dunder(name: string) {
    |name| >= 4 && name[..2] == "__" && name[|name| - 2..] == "__"
  }

  function ValidateCall(e: Expr): Option<Rejection>
    requires e.Call?
  {
    if !e.func.Name? && !e.func.Attribute? then Some(BadCallee)
    else if e.func.Name? && e.func.id !in BUILTINS then Some(UnknownFunction)
    else if exists i | 0 <= i < |e.args| :: e.args[i].Starred? then Some(ArgumentUnpacking)
    else if exists i | 0 <= i < |e.keywords| :: e.keywords[i].arg.None? then Some(KeywordUnpacking)
    else None
  }

  /** What `_validate_node` raises for one node, if anything. */
  function Validate(n: Node): Option<Rejection> {
    if !AllowedType(n) then Some(NotAllowed)
    else if n.ExprNode? && n.expr.Attribute? then
      if Dunder(n.expr.attr) || (n.expr.attr != "" && n.expr.attr[0] == '_') then Some(PrivateAttribute)
      else if n.expr.attr !in ALLOWED_METHODS then Some(UnknownMethod)
      else None
    else if n.ExprNode? && n.expr.Call? then ValidateCall(n.expr)
    else if n.ExprNode? && n.expr.Name? && Dunder(n.expr.id) then Some(DunderName)
    else if n.GeneratorNode? && n.generator.isAsync then Some(AsyncComprehension)
    else None
  }

  predicate Valid(n: Node) {
    Validate(n).None?
  }

  /** `n` is the root of a tree or one of the nodes below it. */
  ghost predicate Within(n: Node, root: Node)
    decreases Size(root)
  {
    n == root || exists i | 0 <= i < |Children(root)| ::
      (ChildSize(root, i); Within(n, Children(root)[i]))
  }

  lemma {:induction false} WithinChild(root: Node, n: Node, i: nat)
    requires Within(n, root) && i < |Children(n)|
    ensures Within(Children(n)[i], root)
    decreases Size(root)
  {
    if n != root {
      var k :| 0 <= k < |Children(root)| && (ChildSize(root, k); Within(n, Children(root)[k]));
      ChildSize(root, k);
      WithinChild(Children(root)[k], n, i);
    } else {
      ChildSize(root, i);
      assert Within(Children(n)[i], Children(root)[i]);
    }
  }

  /** A tree passes exactly when its node count is in bounds and no node is refused. */
  ghost predicate Acceptable(tree: Expr) {
    Size(Root(tree)) <= MAX_NODES && Everywhere(Valid, Root(tree))
  }

  ghost predicate AllValid(ns: seq<Node>) {
    forall i | 0 <= i < |ns| :: Everywhere(Valid, ns[i])
  }

  ghost predicate AllWithin(ns: seq<Node>, root: Node) {
    forall i | 0 <= i < |ns| :: Within(ns[i], root)
  }

  ghost predicate Compiles(source: string, parsed: Option<Expr>) {
    !Text.Blank(source) && |source| <= MAX_SOURCE_CHARS && parsed.Some? && Acceptable(parsed.value)
  }

  /** `parsed` is what Python's parser makes of the text. */
  method CompileScorer(source: string, parsed: Option<Expr>) returns (r: Option<Rejection>)
    ensures r.None? <==> Compiles(source, parsed)
    ensures r == Some(TooLarge) ==> parsed.Some? && Size(Root(parsed.value)) > MAX_NODES
    ensures r.Some? && r.value !in {EmptySource, SourceTooLong, SyntaxProblem, TooLarge} ==>
      parsed.Some? && exists n :: Within(n, Root(parsed.value)) && Validate(n) == r
  {
    if Text.Blank(source) {
      return Some(EmptySource);
    }
    if |source| > MAX_SOURCE_CHARS {
      return Some(SourceTooLong);
    }
    if parsed.None? {
      return Some(SyntaxProblem);
    }
    r := Walk(Root(parsed.value));
  }

  /** Visits the tree breadth first, counting and checking every node. */
  method Walk(root: Node) returns (r: Option<Rejection>)
    ensures r.None? <==> Size(root) <= MAX_NODES && Everywhere(Valid, root)
    ensures r.Some? ==>
      if r.value == TooLarge then Size(root) > MAX_NODES
      else r.value !in {EmptySource, SourceTooLong, SyntaxProblem} && exists n :: Within(n, root) && Validate(n) == r
  {
    var todo, nodes := [root], 0;
    Forest1(root);
    while todo != []
      invariant nodes + ForestSize(todo) == Size(root)
      invariant nodes <= MAX_NODES
      invariant AllValid(todo) <==> Everywhere(Valid, root)
      invariant AllWithin(todo, root)
      decreases ForestSize(todo)
    {
      var node := todo[0];
      var rest := todo[1..];
      QueueStep(todo, root);
      todo := rest + Children(node);
      nodes := nodes + 1;
      if nodes > MAX_NODES {
        return Some(TooLarge);
      }
      var refused := Validate(node);
      if refused.Some? {
        return refused;
      }
    }
    return None;
  }

  /** The front node leaves the queue and its children join at the end. */
  lemma QueueStep(todo: seq<Node>, root: Node)
    requires todo != [] && AllWithin(todo, root)
    ensures Within(todo[0], root) && AllWithin(todo[1..] + Children(todo[0]), root)
    ensures ForestSize(todo[1..] + Children(todo[0])) + 1 == ForestSize(todo)
    ensures AllValid(todo) <==> AllValid(todo[1..] + Children(todo[0])) && Valid(todo[0])
  {
    var node, rest := todo[0], todo[1..];
    NodeToChildren(node, rest);
    forall i | 0 <= i < |Children(node)| ensures Within(Children(node)[i], root) {
      WithinChild(root, node, i);
    }
    assert AllWithin(rest, root);
    if AllValid(rest) && Everywhere(Valid, node) {
      assert forall i | 0 <= i < |todo| :: i == 0 || todo[i] == rest[i - 1];
    }
    if AllValid(todo) {
      assert forall i | 0 <= i < |rest| :: rest[i] == todo[i + 1];
    }
  }

  /** Replacing a node by its children at the end of the queue. */
  lemma NodeToChildren(node: Node, rest: seq<Node>)
    ensures ForestSize(rest + Children(node)) + 1 == Size(node) + ForestSize(rest)
    ensures AllValid(rest + Children(node)) && Valid(node) <==> AllValid(rest) && Everywhere(Valid, node)
  {
    ForestSizeAppend(rest, Children(node));
    ChildrenSize(node);
    var all := rest + Children(node);
    if AllValid(all) && Valid(node) {
      forall i | 0 <= i < |rest| ensures Everywhere(Valid, rest[i]) {
        assert all[i] == rest[i];
      }
      forall i | 0 <= i < |Children(node)| ensures Everywhere(Valid, Children(node)[i]) {
        assert all[|rest| + i] == Children(node)[i];
      }
    }
  }
}
