/**
 What the validation of a scorer lets through (shared/code_scorer.py:229-291), node by node:
 an accepted tree is a small one of harmless nodes only.
 */
module ScorerHarmless {
  import opened Wrappers
  import opened ScorerSyntax
  import opened ScorerValidation
  import Text

  /** `__` at both ends of a name. */
  ghost predicate Dundered(name: string) {
    exists middle :: name == "__" + middle + "__"
  }

  /** A node that cannot reach anything but values, operators, allowlisted methods and the builtin functions. */
  ghost predicate Harmless(n: Node) {
    match n
    case ExprNode(Attribute(_, attr, _)) => attr in ALLOWED_METHODS
    case ExprNode(Call(f, args, keywords)) =>
      && (f.Attribute? || (f.Name? && f.id in BUILTINS))
      && (forall i | 0 <= i < |args| :: !args[i].Starred?)
      && (forall i | 0 <= i < |keywords| :: keywords[i].arg != None)
    case ExprNode(Name(id, _)) => !Dundered(id)
    case ExprNode(e) => !e.Starred? && !e.Unsupported?
    case GeneratorNode(g) => !g.isAsync
    case BinaryNode(op) => op !in {MatMult, LShift, RShift, BitOr, BitXor, BitAnd}
    case UnaryNode(op) => op != Invert
    case CompareNode(op) => op !in {Is, IsNot}
    case ContextNode(ctx) => ctx != Del
    case _ => true
  }

  lemma DunderExactly(name: string)
    ensures Dunder(name) <==> Dundered(name)
  {
    if Dunder(name) {
      assert name == "__" + name[2..|name| - 2] + "__";
    }
    if middle :| name == "__" + middle + "__" {
      assert name[..2] == "__" && name[|name| - 2..] == "__";
    }
  }

  lemma HarmlessExactly(n: Node)
    ensures Valid(n) <==> Harmless(n)
  {
    match n
    case ExprNode(e) => HarmlessExpr(e);
    case BinaryNode(op) => EveryBinary(op);
    case _ =>
  }

  lemma HarmlessExpr(e: Expr)
    ensures Valid(ExprNode(e)) <==> Harmless(ExprNode(e))
  {
    match e
    case Name(id, _) => DunderExactly(id);
    case Attribute(_, attr, _) => AttributeExactly(e);
    case Call(_, _, _) => CallExactly(e);
    case _ =>
  }

  lemma AttributeExactly(e: Expr)
    requires e.Attribute?
    ensures Valid(ExprNode(e)) <==> Harmless(ExprNode(e))
  {
    if e.attr in ALLOWED_METHODS { assert e.attr[0] != '_'; }
  }

  lemma CallExactly(e: Expr)
    requires e.Call?
    ensures Valid(ExprNode(e)) <==> Harmless(ExprNode(e))
  {
    assert Valid(ExprNode(e)) <==> ValidateCall(e).None?;
  }

  lemma EveryBinary(op: BinaryOp)
    ensures op in {Add, Sub, Mult, Div, FloorDiv, Mod, Pow} <==> op !in {MatMult, LShift, RShift, BitOr, BitXor, BitAnd}
  {
    match op
    case Add => case Sub => case Mult => case Div => case FloorDiv => case Mod => case Pow =>
    case MatMult => case LShift => case RShift => case BitOr => case BitXor => case BitAnd =>
  }

  lemma {:induction false} EverywhereWithin(p: Node -> bool, root: Node)
    ensures Everywhere(p, root) <==> forall n | Within(n, root) :: p(n)
    decreases Size(root)
  {
    forall i | 0 <= i < |Children(root)|
      ensures Everywhere(p, Children(root)[i]) <==> forall n | Within(n, Children(root)[i]) :: p(n)
    {
      ChildSize(root, i);
      EverywhereWithin(p, Children(root)[i]);
    }
    if Everywhere(p, root) {
      forall n | Within(n, root) ensures p(n) {
        if n != root {
          var i :| 0 <= i < |Children(root)| && (ChildSize(root, i); Within(n, Children(root)[i]));
        }
      }
    } else if p(root) {
      var i :| 0 <= i < |Children(root)| && !Everywhere(p, Children(root)[i]);
      var n :| Within(n, Children(root)[i]) && !p(n);
      ChildSize(root, i);
      assert Within(n, root);
    }
  }

  /** A text compiles exactly if it is a small enough expression of harmless nodes only. */
  lemma CompilesExactly(source: string, parsed: Option<Expr>)
    ensures Compiles(source, parsed) <==>
      && Text.Says(source) && |source| <= 8000
      && parsed.Some? && Size(Root(parsed.value)) <= 2000 && forall n | Within(n, Root(parsed.value)) :: Harmless(n)
  {
    if parsed.Some? {
      EverywhereWithin(Valid, Root(parsed.value));
      forall n ensures Valid(n) <==> Harmless(n) { HarmlessExactly(n); }
    }
  }
}
