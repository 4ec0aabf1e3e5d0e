/**
  What the annotations of an accepted tree say: every node in it carries what its place in that tree
  determines.
 */
module Annotations {
  import opened Ast
  import opened Context
  import opened Occurrences
  import opened Options
  import opened PrivateNames
  import opened Sites

  // Places in the annotated tree.

  /** The same place, but that class bodies around it may be annotated. */
  predicate Alike(c: Chain, d: Chain) {
    if c.Root? || d.Root? then c == d
    else (c.frame == d.frame || (c.frame.ClassBody? && d.frame.ClassBody?)) && Alike(c.outer, d.outer)
  }

  lemma {:induction false} AlikeAnswers(c: Chain, d: Chain)
    requires Alike(c, d)
    ensures SuperHome(c) == SuperHome(d) && NearestNonArrow(c) == NearestNonArrow(d) && LabelDepth(c) == LabelDepth(d)
  {
    if c.In? { AlikeAnswers(c.outer, d.outer); }
  }

  lemma {:induction false} AlikeLabels(c: Chain, d: Chain, name: Name)
    requires Alike(c, d)
    ensures FindLabel(c, name).Some? == FindLabel(d, name).Some? && ContinueTarget(c, name) == ContinueTarget(d, name)
    ensures FindLabel(c, name).Some? ==> LabelId(FindLabel(c, name).value) == LabelId(FindLabel(d, name).value)
  {
    if c.In? {
      AlikeLabels(c.outer, d.outer, name);
      AlikeAnswers(c, d);
    }
  }

  // What a node carries.

  predicate FlagIsRight(o: Outer) {
    o.hasAssign == HasAssign(o.expr)
  }

  predicate OptIsRight(o: Option<Outer>) {
    o.Some? ==> FlagIsRight(o.value)
  }

  /** A super member has the staticness of its home, an eval the function around it. */
  predicate ExprCarries(e: Expr, d: Chain) {
    match e
    case SuperMember(_, isStatic) => SuperHome(d).Some? ==> isStatic == SuperHome(d).value
    case EvalCall(_, context) => NearestNonArrow(d).Some? ==> context == NearestNonArrow(d)
    case _ => true
  }

  /** A jump has the id of the innermost statement that declares its label. */
  predicate StmtCarries(s: Stmt, d: Chain) {
    match s
    case ExprStmt(x) => x.hasAssign == StatementHasAssign(x.expr)
    case If(x, _, _) => FlagIsRight(x)
    case Switch(x, _) => FlagIsRight(x)
    case With(x, _) => FlagIsRight(x)
    case Throw(x) => FlagIsRight(x)
    case Return(x) => OptIsRight(x)
    case Break(target) =>
      target.Some? && FindLabel(d, target.value.name).Some? ==>
        target.value.id == LabelId(FindLabel(d, target.value.name).value)
    case Continue(target) =>
      target.Some? && ContinueTarget(d, target.value.name) ==>
        target.value.id == LabelId(FindLabel(d, target.value.name).value)
    case _ => true
  }

  /** A method that starts an accessor pair is marked. */
  predicate ClassCarries(k: Class) {
    && OptIsRight(k.heritage)
    && forall i | 0 <= i < |k.elements| && StartsPair(k.elements, i) :: k.elements[i].pairStart
  }

  /** A node carries what its place determines. The labels of a group have its depth as their id, 16 bits wide. */
  predicate Carries(u: Node, d: Chain) {
    match u
    case ExprNode(e) => ExprCarries(e, d)
    case DeclNode(x) => x.idHasAssign == HasAssign(x.id) && OptIsRight(x.init)
    case HeadNode(HeadExpr(x)) => FlagIsRight(x)
    case HeadNode(HeadPattern(p, hasAssign)) => hasAssign == HasAssign(p)
    case CaseNode(k) => OptIsRight(k.test)
    case CatchNode(h) => h.param.Some? ==> h.paramHasAssign == HasAssign(h.param.value)
    case StmtNode(s) => StmtCarries(s, d)
    case LabelsNode(s, _) => s.Labeled? ==> s.tag.id == (LabelDepth(d) + 1) % LABEL_IDS
    case ParamNode(p) => p.hasAssign == HasAssign(p.pattern)
    case BodyNode(ExprBody(x)) => FlagIsRight(x)
    case KeyNode(Computed(x)) => FlagIsRight(x)
    case ElementNode(e, _) => e.Property? ==> OptIsRight(e.value)
    case ClassNode(k) => ClassCarries(k)
    case _ => true
  }

  // Annotating an expression keeps its assignments.

  predicate IsList(e: Expr) {
    e.Compound? || IsCall(e)
  }

  function ListOf(e: Expr): seq<Expr>
    requires IsList(e)
  {
    if e.Compound? then e.children else e.args
  }

  lemma {:induction false} HasAssignKept(e: Expr, c: Chain)
    ensures HasAssign(AnnotateExpr(e, c)) == HasAssign(e)
    decreases e, 1
  {
    if IsList(e) {
      ListAnnotated(e, c);
      hide AnnotateExpr, AnnotateExprs, HasAssign, AnyHasAssign;
      ListFlag(e);
      ListFlag(AnnotateExpr(e, c));
      AnyHasAssignKept(ListOf(e), c);
    } else if IsUnary(e) {
      UnaryAnnotated(e, c);
      hide AnnotateExpr, HasAssign;
      UnaryFlag(e);
      UnaryFlag(AnnotateExpr(e, c));
      HasAssignKept(Operand(e), c);
    } else {
      FlagKept(e, c);
    }
  }

  lemma UnaryFlag(e: Expr)
    requires IsUnary(e)
    ensures HasAssign(e) == HasAssign(Operand(e))
  {
  }

  lemma UnaryAnnotated(e: Expr, c: Chain)
    requires IsUnary(e)
    ensures IsUnary(AnnotateExpr(e, c)) && Operand(AnnotateExpr(e, c)) == AnnotateExpr(Operand(e), c)
  {
  }

  /** Assignments, functions, classes and leaves stay what they are. */
  lemma FlagKept(e: Expr, c: Chain)
    requires !IsList(e) && !IsUnary(e)
    ensures HasAssign(AnnotateExpr(e, c)) == HasAssign(e)
  {
    hide AnnotateFunc, AnnotateClass;
  }

  lemma ListFlag(e: Expr)
    requires IsList(e)
    ensures HasAssign(e) == AnyHasAssign(ListOf(e))
  {
  }

  lemma ListAnnotated(e: Expr, c: Chain)
    requires IsList(e)
    ensures IsList(AnnotateExpr(e, c)) && ListOf(AnnotateExpr(e, c)) == AnnotateExprs(ListOf(e), c)
  {
    hide AnnotateExprs, AnnotateFunc, AnnotateClass;
  }

  lemma {:induction false} AnyHasAssignKept(es: seq<Expr>, c: Chain)
    ensures AnyHasAssign(AnnotateExprs(es, c)) == AnyHasAssign(es)
    decreases es, 0
  {
    hide AnnotateExpr;
    if es != [] {
      var n := |es| - 1;
      AnyHasAssignKept(es[..n], c);
      HasAssignKept(es[n], c);
      AnyOfMore(es[..n], es[n]);
      AnyOfMore(AnnotateExprs(es[..n], c), AnnotateExpr(es[n], c));
      assert es == es[..n] + [es[n]];
    }
  }

  lemma AnyOfMore(es: seq<Expr>, e: Expr)
    ensures AnyHasAssign(es + [e]) <==> AnyHasAssign(es) || HasAssign(e)
  {
    hide HasAssign;
    if AnyHasAssign(es) {
      var i :| 0 <= i < |es| && HasAssign(es[i]);
      assert (es + [e])[i] == es[i];
    }
    if HasAssign(e) { assert (es + [e])[|es|] == e; }
  }

  lemma OuterIsRight(o: Outer, c: Chain)
    ensures FlagIsRight(AnnotateOuter(o, c))
  {
    HasAssignKept(o.expr, c);
    hide AnnotateExpr, HasAssign;
  }

  lemma OptionIsRight(o: Option<Outer>, c: Chain)
    ensures OptIsRight(AnnotateOpt(o, c))
  {
    hide AnnotateOuter, FlagIsRight;
    if o.Some? { OuterIsRight(o.value, c); }
  }

  lemma StatementFlagKept(e: Expr, c: Chain)
    ensures StatementHasAssign(AnnotateExpr(e, c)) == StatementHasAssign(e)
  {
    HasAssignKept(e, c);
    if e.Assign? {
      HasAssignKept(e.left, c);
      HasAssignKept(e.right, c);
    }
    hide HasAssign, AnnotateExprs, AnnotateFunc, AnnotateClass, AnnotateUnary, AnnotateCall;
  }

  // Elements of annotated lists.

  lemma {:induction false} ExprAmong(xs: seq<Expr>, c: Chain, y: Expr) returns (i: nat)
    requires y in AnnotateExprs(xs, c)
    ensures i < |xs| && y == AnnotateExpr(xs[i], c)
  {
    hide AnnotateExpr;
    var n := |xs| - 1;
    if y == AnnotateExpr(xs[n], c) {
      i := n;
    } else {
      i := ExprAmong(xs[..n], c, y);
    }
  }

  lemma {:induction false} StmtAmong(xs: seq<Stmt>, c: Chain, y: Stmt) returns (i: nat)
    requires y in AnnotateStmts(xs, c)
    ensures i < |xs| && y == AnnotateStmt(xs[i], c)
  {
    hide AnnotateStmt;
    var n := |xs| - 1;
    if y == AnnotateStmt(xs[n], c) {
      i := n;
    } else {
      i := StmtAmong(xs[..n], c, y);
    }
  }

  lemma {:induction false} DeclAmong(xs: seq<Declarator>, c: Chain, y: Declarator) returns (i: nat)
    requires y in AnnotateDecls(xs, c)
    ensures i < |xs| && y == AnnotateDecl(xs[i], c)
  {
    hide AnnotateDecl;
    var n := |xs| - 1;
    if y == AnnotateDecl(xs[n], c) {
      i := n;
    } else {
      i := DeclAmong(xs[..n], c, y);
    }
  }

  lemma {:induction false} HeadAmong(xs: seq<Head>, c: Chain, y: Head) returns (i: nat)
    requires y in AnnotateHeads(xs, c)
    ensures i < |xs| && y == AnnotateHead(xs[i], c)
  {
    hide AnnotateHead;
    var n := |xs| - 1;
    if y == AnnotateHead(xs[n], c) {
      i := n;
    } else {
      i := HeadAmong(xs[..n], c, y);
    }
  }

  lemma {:induction false} CaseAmong(xs: seq<Case>, c: Chain, y: Case) returns (i: nat)
    requires y in AnnotateCases(xs, c)
    ensures i < |xs| && y == AnnotateCase(xs[i], c)
  {
    hide AnnotateCase;
    var n := |xs| - 1;
    if y == AnnotateCase(xs[n], c) {
      i := n;
    } else {
      i := CaseAmong(xs[..n], c, y);
    }
  }

  lemma {:induction false} ParamAmong(xs: seq<Param>, c: Chain, y: Param) returns (i: nat)
    requires y in AnnotateParams(xs, c)
    ensures i < |xs| && y == AnnotateParam(xs[i], c)
  {
    hide AnnotateParam;
    var n := |xs| - 1;
    if y == AnnotateParam(xs[n], c) {
      i := n;
    } else {
      i := ParamAmong(xs[..n], c, y);
    }
  }

  // One lemma for each kind of node: what occurs in the annotated node, as it stands at a place like `c`, carries
  // what it should.

  lemma {:induction false} AllInExpr(e: Expr, c: Chain, c': Chain, u: Node, d: Chain)
    requires Alike(c, c') && Occurs(ExprNode(AnnotateExpr(e, c)), c', u, d)
    ensures Carries(u, d)
    decreases e, 1
  {
    var t := ExprNode(AnnotateExpr(e, c));
    hide Carries, Occurs, AnnotateExpr;
    OccursUnfold(t, c', u, d);
    if u == t && d == c' {
      ExprItself(e, c, c');
    } else {
      var m, d' :| Step(t, c', m, d') && Occurs(m, d', u, d);
      hide ExprStep;
      AllInExprPart(e, m, c, c', u, d);
    }
  }

  lemma {:induction false} AllInExprPart(e: Expr, m: Node, c: Chain, c': Chain, u: Node, d: Chain)
    requires Alike(c, c') && ExprStep(AnnotateExpr(e, c), m) && Occurs(m, c', u, d)
    ensures Carries(u, d)
    decreases e, 0
  {
    hide Carries, Occurs, AnnotateExprs, AnnotateFunc, AnnotateClass, Alike;
    match e
    case Compound(children) => AllInList(children, m.expr, c, c', u, d);
    case Assign(left, right) =>
      if m == ExprNode(AnnotateExpr(left, c)) { AllInExpr(left, c, c', u, d); } else { AllInExpr(right, c, c', u, d); }
    case FunctionExpr(f) => AllInFunc(f, FunctionInfo(false, false), c, c', u, d);
    case Arrow(f) => AllInFunc(f, FunctionInfo(true, false), c, c', u, d);
    case ObjectMethod(f) => AllInFunc(f, FunctionInfo(false, true), c, c', u, d);
    case ClassExpr(k) => AllInClass(k, c, c', u, d);
    case Delete(x) => AllInExpr(x, c, c', u, d);
    case PrivateMember(x, _) => AllInExpr(x, c, c', u, d);
    case PrivateIn(_, x) => AllInExpr(x, c, c', u, d);
    case SuperMember(x, _) => AllInExpr(x, c, c', u, d);
    case Await(x) => AllInExpr(x, c, c', u, d);
    case SuperCall(args) => AllInList(args, m.expr, c, c', u, d);
    case Yield(args) => AllInList(args, m.expr, c, c', u, d);
    case EvalCall(args, _) => AllInList(args, m.expr, c, c', u, d);
    case _ =>
  }

  lemma ExprItself(e: Expr, c: Chain, c': Chain)
    requires Alike(c, c')
    ensures Carries(ExprNode(AnnotateExpr(e, c)), c')
  {
    AlikeAnswers(c, c');
    hide SuperHome, NearestNonArrow, AnnotateExprs, AnnotateFunc, AnnotateClass;
  }

  lemma {:induction false} AllInList(es: seq<Expr>, y: Expr, c: Chain, c': Chain, u: Node, d: Chain)
    requires y in AnnotateExprs(es, c) && Alike(c, c') && Occurs(ExprNode(y), c', u, d)
    ensures Carries(u, d)
    decreases es, 0
  {
    hide Carries, Occurs, AnnotateExpr;
    var i := ExprAmong(es, c, y);
    AllInExpr(es[i], c, c', u, d);
  }

  lemma {:induction false} AllInOuter(o: Option<Outer>, m: Node, c: Chain, c': Chain, u: Node, d: Chain)
    requires IsOuter(m, AnnotateOpt(o, c)) && Alike(c, c') && Occurs(m, c', u, d)
    ensures Carries(u, d)
    decreases o, 3
  {
    hide Carries, Occurs, AnnotateExpr, HasAssign;
    AllInExpr(o.value.expr, c, c', u, d);
  }

  lemma {:induction false} AllInStmts(ss: seq<Stmt>, y: Stmt, c: Chain, c': Chain, u: Node, d: Chain)
    requires y in AnnotateStmts(ss, c) && Alike(c, c') && Occurs(StmtNode(y), c', u, d)
    ensures Carries(u, d)
    decreases ss, 0
  {
    hide Carries, Occurs, AnnotateStmt;
    var i := StmtAmong(ss, c, y);
    AllInStmt(ss[i], c, c', u, d);
  }

  lemma {:induction false} AllInDecls(xs: seq<Declarator>, y: Declarator, c: Chain, c': Chain, u: Node, d: Chain)
    requires y in AnnotateDecls(xs, c) && Alike(c, c') && Occurs(DeclNode(y), c', u, d)
    ensures Carries(u, d)
    decreases xs, 0
  {
    hide Carries, Occurs, AnnotateDecl;
    var i := DeclAmong(xs, c, y);
    AllInDecl(xs[i], c, c', u, d);
  }

  lemma {:induction false} AllInStmt(s: Stmt, c: Chain, c': Chain, u: Node, d: Chain)
    requires Alike(c, c') && Occurs(StmtNode(AnnotateStmt(s, c)), c', u, d)
    ensures Carries(u, d)
    decreases s, 1
  {
    hide Carries, Occurs;
    var t := StmtNode(AnnotateStmt(s, c));
    OccursUnfold(t, c', u, d);
    if u == t && d == c' {
      StmtItself(s, c, c');
    } else {
      var m, d' :| Step(t, c', m, d') && Occurs(m, d', u, d);
      hide AnnotateStmt, StmtStep;
      AllInStmtPart(s, m, d', c, c', u, d);
    }
  }

  lemma {:induction false} AllInStmtPart(s: Stmt, m: Node, d': Chain, c: Chain, c': Chain, u: Node, d: Chain)
    requires Alike(c, c') && StmtStep(AnnotateStmt(s, c), c', m, d') && Occurs(m, d', u, d)
    ensures Carries(u, d)
    decreases s, 0, 1
  {
    hide AnnotateExpr, AnnotateExprs, AnnotateFunc, AnnotateClass, AnnotateDecls, AnnotateStmts, AnnotateOpt;
    hide Relabel, Unlabeled, LabeledPlace, HasAssign, StatementHasAssign, AnnotateIf, AnnotateSwitch, AnnotateLoop;
    hide AnnotateWith, AnnotateTry, Carries, Occurs, Alike;
    match s
    case ExprStmt(x) => AllInExpr(x.expr, c, c', u, d);
    case VarDecl(decls) => AllInDecls(decls, m.decl, c, c', u, d);
    case FuncDecl(f) => AllInFunc(f, FunctionInfo(false, false), c, c', u, d);
    case ClassDecl(k) => AllInClass(k, c, c', u, d);
    case Block(body) => AllInStmts(body, m.stmt, c, c', u, d);
    case If(_, _, _) => AllInIf(s, m, d', c, c', u, d);
    case Switch(_, _) => AllInSwitch(s, m, d', c, c', u, d);
    case Loop(_, _, _) => AllInLoop(s, m, d', c, c', u, d);
    case With(_, _) => AllInWith(s, m, d', c, c', u, d);
    case Try(_, _, _) => AllInTry(s, m, d', c, c', u, d);
    case Labeled(_, _) =>
      RelabeledGroup(s, LabelId(LabeledPlace(s, c)), AnnotateStmt(Unlabeled(s), LabeledPlace(s, c)));
      AllInGroup(s, s, [], m, c, c', u, d);
    case Throw(x) => AllInExpr(x.expr, c, c', u, d);
    case Return(x) => AllInOuter(x, m, c, c', u, d);
    case _ =>
  }

  lemma StmtItself(s: Stmt, c: Chain, c': Chain)
    requires Alike(c, c')
    ensures Carries(StmtNode(AnnotateStmt(s, c)), c')
  {
    match s
    case ExprStmt(x) => StatementFlagKept(x.expr, c);
    case If(x, _, _) => OuterIsRight(x, c);
    case Switch(x, _) => OuterIsRight(x, In(SwitchBody, c));
    case With(x, _) => OuterIsRight(x, c);
    case Throw(x) => OuterIsRight(x, c);
    case Return(x) => OptionIsRight(x, c);
    case Break(target) => if target.Some? { AlikeLabels(c, c', target.value.name); }
    case Continue(target) => if target.Some? { AlikeLabels(c, c', target.value.name); }
    case _ =>
    hide Alike, HasAssign, FindLabel, LabelId, StatementHasAssign, FlagIsRight, OptIsRight, Unlabeled, LabeledPlace;
    hide AnnotateExpr, AnnotateExprs, AnnotateFunc, AnnotateClass, AnnotateDecls, AnnotateStmts, AnnotateOpt;
    hide AnnotateOuter;
  }

  lemma {:induction false} AllInIf(s: Stmt, m: Node, d': Chain, c: Chain, c': Chain, u: Node, d: Chain)
    requires s.If? && StmtStep(AnnotateIf(s, c), c', m, d') && Alike(c, c') && Occurs(m, d', u, d)
    ensures Carries(u, d)
    decreases s, 0, 0
  {
    hide Carries, Occurs, AnnotateExpr, AnnotateStmt, HasAssign;
    if m.ExprNode? {
      AllInExpr(s.test.expr, c, c', u, d);
    } else if m == StmtNode(AnnotateStmt(s.conseq, c)) {
      AllInStmt(s.conseq, c, c', u, d);
    } else {
      AllInStmt(s.altern.value, c, c', u, d);
    }
  }

  lemma {:induction false} AllInSwitch(s: Stmt, m: Node, d': Chain, c: Chain, c': Chain, u: Node, d: Chain)
    requires s.Switch? && Alike(c, c')
    requires StmtStep(AnnotateSwitch(s, c), c', m, d') && Occurs(m, d', u, d)
    ensures Carries(u, d)
    decreases s, 0, 0
  {
    hide Carries, Occurs, AnnotateExpr, AnnotateCases, HasAssign;
    var a, b := In(SwitchBody, c), In(SwitchBody, c');
    if m.ExprNode? {
      AllInExpr(s.discriminant.expr, a, b, u, d);
    } else {
      hide AnnotateCase;
      var i := CaseAmong(s.cases, a, m.branch);
      AllInCase(s.cases[i], a, b, u, d);
    }
  }

  lemma {:induction false} AllInLoop(s: Stmt, m: Node, d': Chain, c: Chain, c': Chain, u: Node, d: Chain)
    requires s.Loop? && Alike(c, c')
    requires StmtStep(AnnotateLoop(s, c), c', m, d') && Occurs(m, d', u, d)
    ensures Carries(u, d)
    decreases s, 0, 0
  {
    hide Carries, Occurs, AnnotateStmt, AnnotateHeads;
    var a, b := In(LoopBody, c), In(LoopBody, c');
    if m.StmtNode? {
      AllInStmt(s.loopBody, a, b, u, d);
    } else {
      hide AnnotateHead;
      var i := HeadAmong(s.heads, a, m.head);
      AllInHead(s.heads[i], a, b, u, d);
    }
  }

  lemma {:induction false} AllInWith(s: Stmt, m: Node, d': Chain, c: Chain, c': Chain, u: Node, d: Chain)
    requires s.With? && StmtStep(AnnotateWith(s, c), c', m, d') && Alike(c, c') && Occurs(m, d', u, d)
    ensures Carries(u, d)
    decreases s, 0, 0
  {
    hide Carries, Occurs, AnnotateExpr, AnnotateStmt, HasAssign;
    if m.ExprNode? { AllInExpr(s.subject.expr, c, c', u, d); } else { AllInStmt(s.withBody, c, c', u, d); }
  }

  lemma {:induction false} AllInTry(s: Stmt, m: Node, d': Chain, c: Chain, c': Chain, u: Node, d: Chain)
    requires s.Try? && StmtStep(AnnotateTry(s, c), c', m, d') && Alike(c, c') && Occurs(m, d', u, d)
    ensures Carries(u, d)
    decreases s, 0, 0
  {
    hide Carries, Occurs, AnnotateStmt, AnnotateCatch;
    if m.CatchNode? {
      AllInCatch(s.handler.value, c, c', u, d);
    } else if m == StmtNode(AnnotateStmt(s.block, c)) {
      AllInStmt(s.block, c, c', u, d);
    } else {
      AllInStmt(s.finalizer.value, c, c', u, d);
    }
  }

  // Groups of labels.

  lemma RelabeledGroup(s: Stmt, id: nat, inner: Stmt)
    requires s.Labeled?
    ensures Relabel(s, id, inner).Labeled?
  {
  }

  lemma {:induction false} RestOfGroup(whole: Stmt, s: Stmt, before: seq<Name>)
    requires s.Labeled? && LabelNames(whole) == before + LabelNames(s) && Unlabeled(whole) == Unlabeled(s)
    ensures LabelNames(whole) == before + [s.tag.name] + LabelNames(s.inner) && Unlabeled(whole) == Unlabeled(s.inner)
  {
  }

  /** The place below an annotated group. */
  lemma BelowGroup(whole: Stmt, s: Stmt, names: seq<Name>, c: Chain, c': Chain)
    requires !s.Labeled? && LabelNames(whole) == names + LabelNames(s) && s == Unlabeled(whole) && Alike(c, c')
    ensures
      var inner := AnnotateStmt(s, LabeledPlace(whole, c));
      !inner.Labeled? && Alike(LabeledPlace(whole, c), In(LabelSet(names, BelowLabels(inner)), c'))
  {
    hide AnnotateExpr, AnnotateExprs, AnnotateFunc, AnnotateClass, AnnotateDecls, AnnotateStmts, AnnotateOpt, HasAssign;
    hide AnnotateCases, AnnotateHeads, StatementHasAssign;
    assert names + [] == names;
  }

  /** `s` is the rest of a group below the labels `before`. */
  lemma {:induction false} AllInGroup(
    whole: Stmt, s: Stmt, before: seq<Name>, m: Node, c: Chain, c': Chain, u: Node, d: Chain)
    requires whole.Labeled? && s.Labeled? && Unlabeled(s) == Unlabeled(whole) && (s == whole || s < whole)
    requires LabelNames(whole) == before + LabelNames(s) && Alike(c, c')
    requires
      var inner := AnnotateStmt(Unlabeled(whole), LabeledPlace(whole, c));
      m == LabelsNode(Relabel(s, LabelId(LabeledPlace(whole, c)), inner), before)
    requires Occurs(m, c', u, d)
    ensures Carries(u, d)
    decreases whole, 0, 0, s
  {
    hide Carries, Occurs, AnnotateStmt;
    OccursUnfold(m, c', u, d);
    if u == m && d == c' {
      LabelItself(whole, m, c, c');
    } else {
      var m', d' :| Step(m, c', m', d') && Occurs(m', d', u, d);
      var names := before + [s.tag.name];
      RestOfGroup(whole, s, before);
      if s.inner.Labeled? {
        AllInGroup(whole, s.inner, names, m', c, c', u, d);
      } else {
        BelowGroup(whole, s.inner, names, c, c');
        AllInStmt(Unlabeled(whole), LabeledPlace(whole, c), d', u, d);
      }
    }
  }

  lemma LabelItself(whole: Stmt, m: Node, c: Chain, c': Chain)
    requires Alike(c, c') && m.LabelsNode? && m.group.Labeled? && m.group.tag.id == LabelId(LabeledPlace(whole, c))
    ensures Carries(m, c')
  {
    AlikeAnswers(c, c');
    hide Alike;
  }

  // Parts of statements.

  lemma {:induction false} AllInDecl(x: Declarator, c: Chain, c': Chain, u: Node, d: Chain)
    requires Alike(c, c') && Occurs(DeclNode(AnnotateDecl(x, c)), c', u, d)
    ensures Carries(u, d)
    decreases x, 4
  {
    var t := DeclNode(AnnotateDecl(x, c));
    OccursUnfold(t, c', u, d);
    if u == t && d == c' {
      HasAssignKept(x.id, c);
      OptionIsRight(x.init, c);
      hide HasAssign, OptIsRight, AnnotateExpr, AnnotateOpt;
    } else {
      hide Carries, Occurs, AnnotateExpr, AnnotateOpt, HasAssign;
      var m, d' :| Step(t, c', m, d') && Occurs(m, d', u, d);
      if m == ExprNode(AnnotateExpr(x.id, c)) {
        AllInExpr(x.id, c, c', u, d);
      } else {
        AllInOuter(x.init, m, c, c', u, d);
      }
    }
  }

  lemma {:induction false} AllInHead(x: Head, c: Chain, c': Chain, u: Node, d: Chain)
    requires Alike(c, c') && Occurs(HeadNode(AnnotateHead(x, c)), c', u, d)
    ensures Carries(u, d)
    decreases x, 3
  {
    var t := HeadNode(AnnotateHead(x, c));
    OccursUnfold(t, c', u, d);
    if u == t && d == c' {
      match x
      case HeadExpr(o) => OuterIsRight(o, c);
      case HeadPattern(p, _) => HasAssignKept(p, c);
      case _ =>
      hide HasAssign, FlagIsRight, AnnotateExpr, AnnotateOuter, AnnotateDecls;
    } else {
      hide Carries, Occurs, AnnotateExpr, AnnotateDecls, HasAssign;
      var m, d' :| Step(t, c', m, d') && Occurs(m, d', u, d);
      match x
      case HeadExpr(o) => AllInExpr(o.expr, c, c', u, d);
      case HeadDecl(decls) => AllInDecls(decls, m.decl, c, c', u, d);
      case HeadPattern(p, _) => AllInExpr(p, c, c', u, d);
    }
  }

  lemma {:induction false} AllInCase(x: Case, c: Chain, c': Chain, u: Node, d: Chain)
    requires Alike(c, c') && Occurs(CaseNode(AnnotateCase(x, c)), c', u, d)
    ensures Carries(u, d)
    decreases x, 4
  {
    var t := CaseNode(AnnotateCase(x, c));
    OccursUnfold(t, c', u, d);
    if u == t && d == c' {
      OptionIsRight(x.test, c);
      hide OptIsRight, AnnotateOpt, AnnotateStmts;
    } else {
      hide Carries, Occurs, AnnotateOpt, AnnotateStmts;
      var m, d' :| Step(t, c', m, d') && Occurs(m, d', u, d);
      if m.StmtNode? { AllInStmts(x.body, m.stmt, c, c', u, d); } else { AllInOuter(x.test, m, c, c', u, d); }
    }
  }

  lemma {:induction false} AllInCatch(x: Catch, c: Chain, c': Chain, u: Node, d: Chain)
    requires Alike(c, c') && Occurs(CatchNode(AnnotateCatch(x, c)), c', u, d)
    ensures Carries(u, d)
    decreases x, 1
  {
    var t := CatchNode(AnnotateCatch(x, c));
    OccursUnfold(t, c', u, d);
    if u == t && d == c' {
      if x.param.Some? { HasAssignKept(x.param.value, c); }
      hide HasAssign, AnnotateExpr, AnnotateStmt;
    } else {
      hide Carries, Occurs, AnnotateExpr, AnnotateStmt, HasAssign;
      var m, d' :| Step(t, c', m, d') && Occurs(m, d', u, d);
      if m.ExprNode? { AllInExpr(x.param.value, c, c', u, d); } else { AllInStmt(x.body, c, c', u, d); }
    }
  }

  // Functions and classes.

  lemma {:induction false} AllInFunc(f: Func, info: FuncInfo, c: Chain, c': Chain, u: Node, d: Chain)
    requires Alike(c, c') && Occurs(FuncNode(AnnotateFunc(f, info, c), info), c', u, d)
    ensures Carries(u, d)
    decreases f, 1
  {
    var t := FuncNode(AnnotateFunc(f, info, c), info);
    OccursUnfold(t, c', u, d);
    if !(u == t && d == c') {
      hide Carries, Occurs, AnnotateParams, AnnotateBody;
      var m, d' :| Step(t, c', m, d') && Occurs(m, d', u, d);
      var inside := FuncPlace(f, info, c);
      assert Alike(inside, In(Function(info, f.isStrict), c'));
      if m.BodyNode? {
        AllInBody(f.body, inside, d', u, d);
      } else {
        hide AnnotateParam;
        var i := ParamAmong(f.params, In(Parameters, inside), m.param);
        AllInParam(f.params[i], In(Parameters, inside), d', u, d);
      }
    }
  }

  lemma {:induction false} AllInParam(x: Param, c: Chain, c': Chain, u: Node, d: Chain)
    requires Alike(c, c') && Occurs(ParamNode(AnnotateParam(x, c)), c', u, d)
    ensures Carries(u, d)
    decreases x, 3
  {
    var t := ParamNode(AnnotateParam(x, c));
    OccursUnfold(t, c', u, d);
    if u == t && d == c' {
      HasAssignKept(x.pattern, c);
      hide HasAssign, AnnotateExpr;
    } else {
      hide Carries, Occurs, AnnotateExpr, HasAssign;
      var m, d' :| Step(t, c', m, d') && Occurs(m, d', u, d);
      AllInExpr(x.pattern, c, c', u, d);
    }
  }

  lemma {:induction false} AllInBody(x: Body, c: Chain, c': Chain, u: Node, d: Chain)
    requires Alike(c, c') && Occurs(BodyNode(AnnotateBody(x, c)), c', u, d)
    ensures Carries(u, d)
    decreases x, 3
  {
    var t := BodyNode(AnnotateBody(x, c));
    OccursUnfold(t, c', u, d);
    if u == t && d == c' {
      if x.ExprBody? { OuterIsRight(x.expr, c); }
      hide FlagIsRight, AnnotateOuter, AnnotateStmts;
    } else {
      hide Carries, Occurs, AnnotateExpr, AnnotateStmts, HasAssign;
      var m, d' :| Step(t, c', m, d') && Occurs(m, d', u, d);
      match x
      case BlockBody(stmts) => AllInStmts(stmts, m.stmt, c, c', u, d);
      case ExprBody(o) => AllInExpr(o.expr, c, c', u, d);
    }
  }

  lemma {:induction false} AllInClass(k: Class, c: Chain, c': Chain, u: Node, d: Chain)
    requires Alike(c, c') && Occurs(ClassNode(AnnotateClass(k, c)), c', u, d)
    ensures Carries(u, d)
    decreases k, 1
  {
    var t := ClassNode(AnnotateClass(k, c));
    OccursUnfold(t, c', u, d);
    if u == t && d == c' {
      ClassItself(k, c, c');
    } else {
      hide Carries, Occurs, AnnotateOpt, AnnotateElements, PairStarts;
      var m, d' :| Step(t, c', m, d') && Occurs(m, d', u, d);
      if m.ElementNode? {
        hide AnnotateElement;
        assert Alike(ClassPlace(k, c), d');
        var i, start := ElementAmong(k.elements, k.heritage.Some?, PairStarts(k.elements), ClassPlace(k, c), m.element);
        AllInElement(k.elements[i], k.heritage.Some?, start, ClassPlace(k, c), d', u, d);
      } else {
        AllInOuter(k.heritage, m, In(Heritage, c), d', u, d);
      }
    }
  }

  lemma {:induction false} ElementAmong(xs: seq<Element>, isDerived: bool, starts: seq<bool>, c: Chain, y: Element)
    returns (i: nat, start: bool)
    requires |starts| == |xs| && y in AnnotateElements(xs, isDerived, starts, c)
    ensures i < |xs| && y == AnnotateElement(xs[i], isDerived, start, c)
  {
    hide AnnotateElement;
    var n := |xs| - 1;
    if y == AnnotateElement(xs[n], isDerived, starts[n], c) {
      i, start := n, starts[n];
    } else {
      i, start := ElementAmong(xs[..n], isDerived, starts[..n], c, y);
    }
  }

  lemma {:induction false} AllInElement(
    x: Element, isDerived: bool, start: bool, c: Chain, c': Chain, u: Node, d: Chain)
    requires Alike(c, c') && Occurs(ElementNode(AnnotateElement(x, isDerived, start, c), isDerived), c', u, d)
    ensures Carries(u, d)
    decreases x, 4
  {
    var t := ElementNode(AnnotateElement(x, isDerived, start, c), isDerived);
    OccursUnfold(t, c', u, d);
    if u == t && d == c' {
      if x.Property? { OptionIsRight(x.value, In(FieldInit(x.isStatic), c)); }
      hide OptIsRight, AnnotateKey, AnnotateFunc, AnnotateOpt;
    } else {
      var m, d' :| Step(t, c', m, d') && Occurs(m, d', u, d);
      hide Carries, Occurs, AnnotateElement, ElementStep;
      AllInElementPart(x, isDerived, start, m, d', c, c', u, d);
    }
  }

  lemma {:induction false} AllInElementPart(
    x: Element, isDerived: bool, start: bool, m: Node, d': Chain, c: Chain, c': Chain, u: Node, d: Chain)
    requires Alike(c, c') && ElementStep(AnnotateElement(x, isDerived, start, c), isDerived, c', m, d')
    requires Occurs(m, d', u, d)
    ensures Carries(u, d)
    decreases x, 3
  {
    hide Carries, Occurs, AnnotateKey, AnnotateFunc, AnnotateOpt;
    if m.KeyNode? {
      AllInKey(x.key, c, c', u, d);
    } else if x.Method? {
      AllInFunc(x.func, MethodInfo(x, isDerived), c, c', u, d);
    } else {
      AllInOuter(x.value, m, In(FieldInit(x.isStatic), c), d', u, d);
    }
  }

  lemma {:induction false} AllInKey(x: Key, c: Chain, c': Chain, u: Node, d: Chain)
    requires Alike(c, c') && Occurs(KeyNode(AnnotateKey(x, c)), c', u, d)
    ensures Carries(u, d)
    decreases x, 3
  {
    var t := KeyNode(AnnotateKey(x, c));
    OccursUnfold(t, c', u, d);
    if u == t && d == c' {
      if x.Computed? { OuterIsRight(x.expr, c); }
      hide FlagIsRight, AnnotateOuter;
    } else {
      hide Carries, Occurs, AnnotateExpr, HasAssign;
      var m, d' :| Step(t, c', m, d') && Occurs(m, d', u, d);
      AllInExpr(x.expr.expr, c, c', u, d);
    }
  }

  // Accessor pairs.

  /** What the check of private names looks at. */
  predicate SameMember(a: Element, b: Element) {
    && (a.Method? <==> b.Method?) && a.isStatic == b.isStatic
    && (a.Method? ==> a.kind == b.kind)
    && (a.key == b.key || (a.key.Computed? && b.key.Computed?))
  }

  ghost predicate SameMembers(xs: seq<Element>, ys: seq<Element>) {
    |xs| == |ys| && forall i | 0 <= i < |xs| :: SameMember(xs[i], ys[i])
  }

  lemma {:induction false} UsagesKept(xs: seq<Element>, ys: seq<Element>)
    requires SameMembers(xs, ys)
    ensures Usages(xs) == Usages(ys)
  {
    if xs != [] {
      var n := |xs| - 1;
      UsagesKept(xs[..n], ys[..n]);
      assert SameMember(xs[n], ys[n]);
    }
  }

  lemma PairsKept(xs: seq<Element>, ys: seq<Element>, i: nat)
    requires SameMembers(xs, ys) && i < |xs|
    ensures StartsPair(xs, i) == StartsPair(ys, i)
  {
    UsagesKept(xs, ys);
    assert SameMember(xs[i], ys[i]);
    forall j | 0 <= j < i
      ensures SameMember(xs[j], ys[j]) && IsAccessor(xs[j]) == IsAccessor(ys[j])
    {
    }
  }

  predicate IsMarked(x: Element, start: bool, y: Element) {
    SameMember(x, y) && (x.Method? && start ==> y.pairStart)
  }

  lemma {:induction false} ElementsAnnotated(xs: seq<Element>, isDerived: bool, starts: seq<bool>, c: Chain)
    requires |starts| == |xs|
    ensures
      var ys := AnnotateElements(xs, isDerived, starts, c);
      |ys| == |xs| && forall i | 0 <= i < |xs| :: IsMarked(xs[i], starts[i], ys[i])
  {
    if xs != [] {
      var n := |xs| - 1;
      ElementsAnnotated(xs[..n], isDerived, starts[..n], c);
      ElementMarked(xs[n], isDerived, starts[n], c);
      hide AnnotateElement, IsMarked;
    }
  }

  lemma ElementMarked(x: Element, isDerived: bool, start: bool, c: Chain)
    ensures IsMarked(x, start, AnnotateElement(x, isDerived, start, c))
  {
    hide AnnotateFunc, AnnotateOpt, AnnotateOuter;
  }

  lemma ClassItself(k: Class, c: Chain, c': Chain)
    ensures Carries(ClassNode(AnnotateClass(k, c)), c')
  {
    var xs, place := k.elements, ClassPlace(k, c);
    var ys := AnnotateElements(xs, k.heritage.Some?, PairStarts(xs), place);
    OptionIsRight(k.heritage, In(Heritage, c));
    ElementsAnnotated(xs, k.heritage.Some?, PairStarts(xs), place);
    assert SameMembers(xs, ys) by {
      assert forall i | 0 <= i < |xs| :: IsMarked(xs[i], PairStarts(xs)[i], ys[i]);
    }
    forall i | 0 <= i < |ys| && StartsPair(ys, i)
      ensures ys[i].pairStart
    {
      PairsKept(xs, ys, i);
      assert IsMarked(xs[i], PairStarts(xs)[i], ys[i]);
    }
    hide OptIsRight, AnnotateOpt, AnnotateElements, StartsPair;
  }

  /** Every node of an annotated program carries what its place determines. */
  lemma ProgramCarries(p: Program, start: Start, u: Node, d: Chain)
    requires Occurs(ProgramNode(AnnotateProgram(p, start)), Root(start), u, d)
    ensures Carries(u, d)
  {
    var t, place := ProgramNode(AnnotateProgram(p, start)), ProgramPlace(p, start);
    OccursUnfold(t, Root(start), u, d);
    if !(u == t && d == Root(start)) {
      hide Carries, Occurs, AnnotateStmts;
      var m, d' :| Step(t, Root(start), m, d') && Occurs(m, d', u, d);
      AlikeItself(place);
      AllInStmts(p.body, m.stmt, place, place, u, d);
    }
  }

  lemma {:induction false} AlikeItself(c: Chain)
    ensures Alike(c, c)
  {
    if c.In? { AlikeItself(c.outer); }
  }
}
