/** What the assignment flags mean: an assignment occurs in the expression, at the place of the expression itself. */
module AssignFlags {
  import opened Ast
  import opened Context
  import opened LabelHistory
  import opened Occurrences
  import opened Options
  import opened Sites

  /** An assignment occurs in an expression, outside of the functions and classes nested in it. */
  ghost predicate AssignsIn(e: Expr, c: Chain) {
    exists x: Expr :: x.Assign? && Occurs(ExprNode(e), c, ExprNode(x), c)
  }

  lemma StepIsDeeper(t: Node, c: Chain, u: Node, d: Chain)
    requires Step(t, c, u, d)
    ensures d == c || Depth(c) < Depth(d)
    ensures t.FuncNode? || t.ClassNode? ==> Depth(c) < Depth(d)
  {
    hide ExprStep, HeadStep, BodyStep, IsOuter, BelowLabels;
    if t.FuncNode? {
      assert Depth(In(Function(t.info, t.func.isStrict), c)) == Depth(c) + 1;
    }
  }

  lemma {:induction false} LeadsDeeper(n: nat, t: Node, c: Chain, u: Node, d: Chain)
    requires Leads(n, t, c, u, d)
    ensures Depth(c) <= Depth(d)
  {
    hide Step;
    if n > 0 {
      var m, e :| Step(t, c, m, e) && Leads(n - 1, m, e, u, d);
      StepIsDeeper(t, c, m, e);
      LeadsDeeper(n - 1, m, e, u, d);
    }
  }

  /** Nothing in a function or class stands at the place of it. */
  lemma NotInside(t: Node, c: Chain, u: Node)
    requires (t.FuncNode? || t.ClassNode?) && Occurs(t, c, u, c)
    ensures u == t
  {
    hide Step, Leads;
    OccursUnfold(t, c, u, c);
    if u != t {
      var m, e :| Step(t, c, m, e) && Occurs(m, e, u, c);
      StepIsDeeper(t, c, m, e);
      var n: nat :| Leads(n, m, e, u, c);
      LeadsDeeper(n, m, e, u, c);
      assert false;
    }
  }

  /** An assignment occurs in a part of the expression. */
  ghost predicate AssignsBelow(e: Expr, c: Chain) {
    exists y :: ExprStep(e, ExprNode(y)) && AssignsIn(y, c)
  }

  lemma AssignsUnfold(e: Expr, c: Chain)
    ensures AssignsIn(e, c) <==> e.Assign? || AssignsBelow(e, c)
  {
    hide Occurs, ExprStep;
    if e.Assign? { OccursItself(ExprNode(e), c); }
    if y :| ExprStep(e, ExprNode(y)) && AssignsIn(y, c) {
      var x: Expr :| x.Assign? && Occurs(ExprNode(y), c, ExprNode(x), c);
      assert Step(ExprNode(e), c, ExprNode(y), c);
      OccursBelow(ExprNode(e), c, ExprNode(y), c, ExprNode(x), c);
    }
    if x: Expr :| x.Assign? && Occurs(ExprNode(e), c, ExprNode(x), c) {
      OccursUnfold(ExprNode(e), c, ExprNode(x), c);
      if x != e { AssignIsBelow(e, x, c); }
    }
  }

  lemma AssignIsBelow(e: Expr, x: Expr, c: Chain)
    requires x.Assign? && exists m, d :: Step(ExprNode(e), c, m, d) && Occurs(m, d, ExprNode(x), c)
    ensures AssignsBelow(e, c)
  {
    hide Occurs;
    var m, d :| Step(ExprNode(e), c, m, d) && Occurs(m, d, ExprNode(x), c);
    StepOfExpr(e, m);
    hide ExprStep;
    if !m.ExprNode? {
      NotInside(m, c, ExprNode(x));
    } else {
      assert AssignsIn(m.expr, c);
    }
  }

  lemma StepOfExpr(e: Expr, m: Node)
    requires ExprStep(e, m)
    ensures m.ExprNode? || m.FuncNode? || m.ClassNode?
  {
  }

  /** The flag of an expression: an assignment occurs in it. */
  lemma {:induction false} HasAssignMeaning(e: Expr, c: Chain)
    ensures HasAssign(e) <==> AssignsIn(e, c)
  {
    AssignsUnfold(e, c);
    PartsHaveAssign(e);
    hide AssignsIn, HasAssign, ExprStep;
    forall y | ExprStep(e, ExprNode(y))
      ensures HasAssign(y) <==> AssignsIn(y, c)
    {
      ExprStepIsSmaller(e, y);
      HasAssignMeaning(y, c);
    }
  }

  lemma ExprStepIsSmaller(e: Expr, y: Expr)
    requires ExprStep(e, ExprNode(y))
    ensures y < e
  {
  }

  lemma PartsHaveAssign(e: Expr)
    ensures HasAssign(e) <==> e.Assign? || exists y :: ExprStep(e, ExprNode(y)) && HasAssign(y)
  {
    match e
    case Compound(es) => ListHasAssign(e, es);
    case SuperCall(es) => ListHasAssign(e, es);
    case Yield(es) => ListHasAssign(e, es);
    case EvalCall(es, _) => ListHasAssign(e, es);
    case Delete(x) => assert ExprStep(e, ExprNode(x));
    case PrivateMember(x, _) => assert ExprStep(e, ExprNode(x));
    case PrivateIn(_, x) => assert ExprStep(e, ExprNode(x));
    case SuperMember(x, _) => assert ExprStep(e, ExprNode(x));
    case Await(x) => assert ExprStep(e, ExprNode(x));
    case _ =>
  }

  lemma ListHasAssign(e: Expr, es: seq<Expr>)
    requires (e.Compound? && es == e.children) || (IsCall(e) && es == e.args)
    ensures HasAssign(e) <==> exists y :: ExprStep(e, ExprNode(y)) && HasAssign(y)
  {
    assert HasAssign(e) <==> AnyHasAssign(es);
    hide HasAssign;
    if y :| ExprStep(e, ExprNode(y)) && HasAssign(y) {
      var i :| 0 <= i < |es| && es[i] == y;
    }
    if i :| 0 <= i < |es| && HasAssign(es[i]) { assert ExprStep(e, ExprNode(es[i])); }
  }

  /** The flag of an expression statement: an assignment occurs in a part of it, so `a = b` alone does not count. */
  lemma StatementHasAssignMeaning(e: Expr, c: Chain)
    ensures StatementHasAssign(e) <==> AssignsBelow(e, c)
  {
    AssignsUnfold(e, c);
    HasAssignMeaning(e, c);
    if e.Assign? {
      HasAssignMeaning(e.left, c);
      HasAssignMeaning(e.right, c);
      assert ExprStep(e, ExprNode(e.left)) && ExprStep(e, ExprNode(e.right));
    }
    hide AssignsIn, HasAssign;
  }

  /** A statement `a = b` has the flag exactly if one of its sides has an assignment. */
  lemma AssignmentStatement(a: Expr, b: Expr, flag: bool, c: Chain)
    ensures
      AnnotateStmt(ExprStmt(Outer(Assign(a, b), flag)), c).expr.hasAssign <==> AssignsIn(a, c) || AssignsIn(b, c)
  {
    HasAssignMeaning(a, c);
    HasAssignMeaning(b, c);
    hide AssignsIn, HasAssign, AnnotateExpr;
  }
}
