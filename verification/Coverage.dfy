/**
  The visited nodes of a tree are exactly the checks of the nodes that occur in it: nothing that occurs
  is left out, and nothing else is visited.
 */
module Coverage {
  import opened Ast
  import opened Context
  import opened Occurrences
  import opened Options
  import opened Sites

  // Parts of the same kind.

  ghost predicate SomeExpr(xs: seq<Expr>, c: Chain, v: Visit) { exists x :: x in xs && Accounted(ExprNode(x), c, v) }
  ghost predicate SomeDecl(xs: seq<Declarator>, c: Chain, v: Visit) {
    exists x :: x in xs && Accounted(DeclNode(x), c, v)
  }
  ghost predicate SomeHead(xs: seq<Head>, c: Chain, v: Visit) { exists x :: x in xs && Accounted(HeadNode(x), c, v) }
  ghost predicate SomeCase(xs: seq<Case>, c: Chain, v: Visit) { exists x :: x in xs && Accounted(CaseNode(x), c, v) }
  ghost predicate SomeStmt(xs: seq<Stmt>, c: Chain, v: Visit) { exists x :: x in xs && Accounted(StmtNode(x), c, v) }
  ghost predicate SomeParam(xs: seq<Param>, c: Chain, v: Visit) { exists x :: x in xs && Accounted(ParamNode(x), c, v) }
  ghost predicate SomeElement(xs: seq<Element>, isDerived: bool, c: Chain, v: Visit) {
    exists x :: x in xs && Accounted(ElementNode(x, isDerived), c, v)
  }
  ghost predicate SomeOuter(o: Option<Outer>, c: Chain, v: Visit) {
    o.Some? && Accounted(ExprNode(o.value.expr), c, v)
  }

  // Expressions.

  lemma {:induction false} ExprCovered(e: Expr, c: Chain, v: Visit)
    ensures v in ExprSites(e, c) <==> Accounted(ExprNode(e), c, v)
    decreases e, 1
  {
    var t := ExprNode(e);
    Unfold(t, c, v);
    hide Accounted, AccountedBelow, FuncSites, ClassSites, ExprsSites, SomeExpr;
    match e
    case Compound(children) => ListCovered(e, children, c, v);
    case Assign(left, right) => AssignCovered(e, c, v);
    case FunctionExpr(f) =>
      FuncCovered(f, FunctionInfo(false, false), c, v);
      OneBelow(t, c, FuncNode(f, FunctionInfo(false, false)), c, v);
    case Arrow(f) =>
      FuncCovered(f, FunctionInfo(true, false), c, v);
      OneBelow(t, c, FuncNode(f, FunctionInfo(true, false)), c, v);
    case ObjectMethod(f) =>
      FuncCovered(f, FunctionInfo(false, true), c, v);
      OneBelow(t, c, FuncNode(f, FunctionInfo(false, true)), c, v);
    case ClassExpr(k) =>
      ClassCovered(k, c, v);
      OneBelow(t, c, ClassNode(k), c, v);
    case Delete(_) => UnaryCovered(e, c, v);
    case PrivateMember(_, _) => UnaryCovered(e, c, v);
    case PrivateIn(_, _) => UnaryCovered(e, c, v);
    case SuperMember(_, _) => UnaryCovered(e, c, v);
    case Await(_) => UnaryCovered(e, c, v);
    case SuperCall(args) => ListCovered(e, args, c, v);
    case Yield(args) => ListCovered(e, args, c, v);
    case EvalCall(args, _) => ListCovered(e, args, c, v);
    case _ => NothingBelow(t, c, v);
  }

  lemma {:induction false} AssignCovered(e: Expr, c: Chain, v: Visit)
    requires e.Assign?
    ensures v in ExprSites(e.left, c) || v in ExprSites(e.right, c) <==> AccountedBelow(ExprNode(e), c, v)
    decreases e, 0
  {
    hide Accounted, ExprSites;
    ExprCovered(e.left, c, v);
    ExprCovered(e.right, c, v);
    TwoBelow(ExprNode(e), c, ExprNode(e.left), ExprNode(e.right), c, v);
  }

  lemma {:induction false} UnaryCovered(e: Expr, c: Chain, v: Visit)
    requires IsUnary(e)
    ensures v in UnarySites(e, c) <==> Checks(ExprNode(e), c, v) || AccountedBelow(ExprNode(e), c, v)
    decreases e, 0
  {
    hide Accounted, AccountedBelow, ExprSites;
    ExprCovered(Operand(e), c, v);
    OneBelow(ExprNode(e), c, ExprNode(Operand(e)), c, v);
  }

  lemma {:induction false} ListCovered(e: Expr, args: seq<Expr>, c: Chain, v: Visit)
    requires (e.Compound? && e.children == args) || (IsCall(e) && e.args == args)
    ensures
      v in (if e.Compound? then ExprsSites(args, c) else CallSites(e, c))
      <==> Checks(ExprNode(e), c, v) || AccountedBelow(ExprNode(e), c, v)
    decreases e, 0
  {
    hide Accounted, AccountedBelow, ExprSites, SomeExpr;
    ExprsCovered(args, c, v);
    ExprsBelow(ExprNode(e), args, c, v);
    hide ExprsSites;
  }

  lemma TwoBelow(t: Node, c: Chain, a: Node, b: Node, d: Chain, v: Visit)
    requires forall u, e :: Step(t, c, u, e) <==> (u == a || u == b) && e == d
    ensures AccountedBelow(t, c, v) <==> Accounted(a, d, v) || Accounted(b, d, v)
  {
    hide Step, Accounted;
    assert Step(t, c, a, d) && Step(t, c, b, d);
  }

  lemma ExprsBelow(t: Node, es: seq<Expr>, c: Chain, v: Visit)
    requires forall u, d :: Step(t, c, u, d) <==> u.ExprNode? && u.expr in es && d == c
    ensures AccountedBelow(t, c, v) <==> SomeExpr(es, c, v)
  {
    hide Step, Accounted;
    if x :| x in es && Accounted(ExprNode(x), c, v) { assert Step(t, c, ExprNode(x), c); }
  }

  lemma StmtsBelow(t: Node, ss: seq<Stmt>, c: Chain, d: Chain, v: Visit)
    requires forall u, e :: Step(t, c, u, e) <==> u.StmtNode? && u.stmt in ss && e == d
    ensures AccountedBelow(t, c, v) <==> SomeStmt(ss, d, v)
  {
    hide Step, Accounted;
    if x :| x in ss && Accounted(StmtNode(x), d, v) { assert Step(t, c, StmtNode(x), d); }
  }

  lemma DeclsBelow(t: Node, ds: seq<Declarator>, c: Chain, v: Visit)
    requires forall u, d :: Step(t, c, u, d) <==> u.DeclNode? && u.decl in ds && d == c
    ensures AccountedBelow(t, c, v) <==> SomeDecl(ds, c, v)
  {
    hide Step, Accounted;
    if x :| x in ds && Accounted(DeclNode(x), c, v) { assert Step(t, c, DeclNode(x), c); }
  }

  lemma {:induction false} OuterCovered(o: Option<Outer>, c: Chain, v: Visit)
    ensures v in OptSites(o, c) <==> SomeOuter(o, c, v)
    decreases o, 2
  {
    hide Accounted, ExprSites;
    if o.Some? { ExprCovered(o.value.expr, c, v); }
  }

  // Statements.

  lemma {:induction false} StmtCovered(s: Stmt, c: Chain, v: Visit)
    ensures v in StmtSites(s, c) <==> Accounted(StmtNode(s), c, v)
    decreases s, 1
  {
    var t := StmtNode(s);
    Unfold(t, c, v);
    hide Accounted, AccountedBelow, ExprSites, DeclsSites, FuncSites, ClassSites, StmtsSites, IfSites, SwitchSites;
    hide LoopSites, WithSites, TrySites, OptSites, GroupSites, LabeledPlace, Unlabeled, SomeStmt, SomeDecl;
    match s
    case Empty => NothingBelow(t, c, v);
    case ExprStmt(x) =>
      ExprCovered(x.expr, c, v);
      OneBelow(t, c, ExprNode(x.expr), c, v);
    case VarDecl(decls) =>
      DeclsCovered(decls, c, v);
      DeclsBelow(t, decls, c, v);
    case FuncDecl(f) =>
      FuncCovered(f, FunctionInfo(false, false), c, v);
      OneBelow(t, c, FuncNode(f, FunctionInfo(false, false)), c, v);
    case ClassDecl(k) =>
      ClassCovered(k, c, v);
      OneBelow(t, c, ClassNode(k), c, v);
    case Block(body) =>
      StmtsCovered(body, c, v);
      StmtsBelow(t, body, c, c, v);
    case If(_, _, _) => IfCovered(s, c, v);
    case Switch(_, _) => SwitchCovered(s, c, v);
    case Loop(_, _, _) => LoopCovered(s, c, v);
    case With(_, _) => WithCovered(s, c, v);
    case Try(_, _, _) => TryCovered(s, c, v);
    case Labeled(_, _) =>
      GroupCovered(s, c, v);
      OneBelow(t, c, LabelsNode(s, []), c, v);
    case Throw(x) =>
      ExprCovered(x.expr, c, v);
      OneBelow(t, c, ExprNode(x.expr), c, v);
    case Return(x) => ReturnCovered(s, c, v);
    case Break(_) => NothingBelow(t, c, v);
    case Continue(_) => NothingBelow(t, c, v);
  }

  lemma {:induction false} ReturnCovered(s: Stmt, c: Chain, v: Visit)
    requires s.Return?
    ensures v in OptSites(s.result, c) <==> AccountedBelow(StmtNode(s), c, v)
    decreases s, 0
  {
    hide Accounted, ExprSites;
    OuterCovered(s.result, c, v);
    hide OptSites;
    if s.result.Some? {
      OneBelow(StmtNode(s), c, ExprNode(s.result.value.expr), c, v);
    } else {
      NothingBelow(StmtNode(s), c, v);
    }
  }

  lemma {:induction false} LabelsFunctionMeaning(s: Stmt)
    ensures LabelsFunction(s) == IsLabeledFunction(s)
  {
    if s.Labeled? { LabelsFunctionMeaning(s.inner); }
  }

  lemma {:induction false} IfCovered(s: Stmt, c: Chain, v: Visit)
    requires s.If?
    ensures v in IfSites(s, c) <==> Checks(StmtNode(s), c, v) || AccountedBelow(StmtNode(s), c, v)
    decreases s, 0
  {
    hide Accounted, ExprSites, StmtSites, IsLabeledFunction, LabelsFunction;
    var t := StmtNode(s);
    LabelsFunctionMeaning(s.conseq);
    ExprCovered(s.test.expr, c, v);
    StmtCovered(s.conseq, c, v);
    assert Step(t, c, ExprNode(s.test.expr), c) && Step(t, c, StmtNode(s.conseq), c);
    if s.altern.Some? {
      LabelsFunctionMeaning(s.altern.value);
      StmtCovered(s.altern.value, c, v);
      assert Step(t, c, StmtNode(s.altern.value), c);
    }
  }

  lemma {:induction false} SwitchCovered(s: Stmt, c: Chain, v: Visit)
    requires s.Switch?
    ensures v in SwitchSites(s, c) <==> AccountedBelow(StmtNode(s), c, v)
    decreases s, 0
  {
    hide Accounted, ExprSites, CasesSites;
    var t, d := StmtNode(s), In(SwitchBody, c);
    ExprCovered(s.discriminant.expr, d, v);
    CasesCovered(s.cases, d, v);
    assert Step(t, c, ExprNode(s.discriminant.expr), d);
    if x :| x in s.cases && Accounted(CaseNode(x), d, v) { assert Step(t, c, CaseNode(x), d); }
  }

  lemma {:induction false} LoopCovered(s: Stmt, c: Chain, v: Visit)
    requires s.Loop?
    ensures v in LoopSites(s, c) <==> Checks(StmtNode(s), c, v) || AccountedBelow(StmtNode(s), c, v)
    decreases s, 0
  {
    hide Accounted, StmtSites, HeadsSites, IsLabeledFunction, LabelsFunction;
    var t, d := StmtNode(s), In(LoopBody, c);
    LabelsFunctionMeaning(s.loopBody);
    StmtCovered(s.loopBody, d, v);
    HeadsCovered(s.heads, d, v);
    assert Step(t, c, StmtNode(s.loopBody), d);
    if x :| x in s.heads && Accounted(HeadNode(x), d, v) { assert Step(t, c, HeadNode(x), d); }
  }

  lemma {:induction false} WithCovered(s: Stmt, c: Chain, v: Visit)
    requires s.With?
    ensures v in WithSites(s, c) <==> Checks(StmtNode(s), c, v) || AccountedBelow(StmtNode(s), c, v)
    decreases s, 0
  {
    hide Accounted, ExprSites, StmtSites, IsLabeledFunction, LabelsFunction;
    LabelsFunctionMeaning(s.withBody);
    ExprCovered(s.subject.expr, c, v);
    StmtCovered(s.withBody, c, v);
    TwoBelow(StmtNode(s), c, ExprNode(s.subject.expr), StmtNode(s.withBody), c, v);
    hide AccountedBelow;
  }

  lemma {:induction false} TryCovered(s: Stmt, c: Chain, v: Visit)
    requires s.Try?
    ensures v in TrySites(s, c) <==> AccountedBelow(StmtNode(s), c, v)
    decreases s, 0
  {
    hide Accounted, StmtSites, CatchSites;
    var t := StmtNode(s);
    StmtCovered(s.block, c, v);
    assert Step(t, c, StmtNode(s.block), c);
    if s.handler.Some? {
      CatchCovered(s.handler.value, c, v);
      assert Step(t, c, CatchNode(s.handler.value), c);
    }
    if s.finalizer.Some? {
      StmtCovered(s.finalizer.value, c, v);
      assert Step(t, c, StmtNode(s.finalizer.value), c);
    }
  }

  // Groups of labels.

  /** What is visited of a group below the labels `before`. */
  ghost predicate InRest(s: Stmt, before: seq<Name>, c: Chain, v: Visit) {
    var names, target := before + LabelNames(s), TargetOf(Unlabeled(s));
    var d := In(LabelSet(names, target), c);
    v in LabelSites(s, before, c) || (!target.OnOther? && v == Visit(ContinueTargets(names), d))
    || v in StmtSites(Unlabeled(s), d)
  }

  lemma {:induction false} GroupCovered(s: Stmt, c: Chain, v: Visit)
    requires s.Labeled?
    ensures
      v in GroupSites(s, c) + StmtSites(Unlabeled(s), LabeledPlace(s, c)) <==> Accounted(LabelsNode(s, []), c, v)
    decreases s, 0, 1
  {
    hide Accounted, StmtSites, LabelSites;
    RestCovered(s, [], c, v);
    assert [] + LabelNames(s) == LabelNames(s);
  }

  lemma {:induction false} RestCovered(s: Stmt, before: seq<Name>, c: Chain, v: Visit)
    requires s.Labeled?
    ensures InRest(s, before, c, v) <==> Accounted(LabelsNode(s, before), c, v)
    decreases s, 0, 0
  {
    var t, names := LabelsNode(s, before), before + [s.tag.name];
    Unfold(t, c, v);
    hide Accounted, AccountedBelow, InRest;
    if s.inner.Labeled? {
      RestCovered(s.inner, names, c, v);
      OneBelow(t, c, LabelsNode(s.inner, names), c, v);
      RestUnfold(s, before, c, v);
    } else {
      var d := In(LabelSet(names, BelowLabels(s.inner)), c);
      StmtCovered(s.inner, d, v);
      OneBelow(t, c, StmtNode(s.inner), d, v);
      RestOfLast(s, before, c, v);
    }
    hide StmtSites, LabelSites;
  }

  lemma RestUnfold(s: Stmt, before: seq<Name>, c: Chain, v: Visit)
    requires s.Labeled? && s.inner.Labeled?
    ensures
      InRest(s, before, c, v)
      <==> Checks(LabelsNode(s, before), c, v) || InRest(s.inner, before + [s.tag.name], c, v)
  {
    hide StmtSites;
    assert before + LabelNames(s) == before + [s.tag.name] + LabelNames(s.inner);
  }

  lemma RestOfLast(s: Stmt, before: seq<Name>, c: Chain, v: Visit)
    requires s.Labeled? && !s.inner.Labeled?
    ensures
      var d := In(LabelSet(before + [s.tag.name], BelowLabels(s.inner)), c);
      InRest(s, before, c, v) <==> Checks(LabelsNode(s, before), c, v) || v in StmtSites(s.inner, d)
  {
    hide StmtSites;
    assert LabelNames(s.inner) == [] && LabelNames(s) == [s.tag.name] && Unlabeled(s) == Unlabeled(s.inner) == s.inner;
    assert LabelSites(s.inner, before + [s.tag.name], c) == [];
  }

  // Parts of statements.

  lemma {:induction false} DeclCovered(x: Declarator, c: Chain, v: Visit)
    ensures v in DeclSites(x, c) <==> Accounted(DeclNode(x), c, v)
    decreases x, 3
  {
    var t := DeclNode(x);
    Unfold(t, c, v);
    hide Accounted, ExprSites, OptSites;
    ExprCovered(x.id, c, v);
    OuterCovered(x.init, c, v);
    assert Step(t, c, ExprNode(x.id), c);
    if x.init.Some? { assert Step(t, c, ExprNode(x.init.value.expr), c); }
  }

  lemma {:induction false} HeadCovered(x: Head, c: Chain, v: Visit)
    ensures v in HeadSites(x, c) <==> Accounted(HeadNode(x), c, v)
    decreases x, 1
  {
    var t := HeadNode(x);
    Unfold(t, c, v);
    hide Accounted, AccountedBelow, ExprSites, DeclsSites, SomeDecl;
    match x
    case HeadExpr(o) =>
      ExprCovered(o.expr, c, v);
      OneBelow(t, c, ExprNode(o.expr), c, v);
    case HeadDecl(decls) =>
      DeclsCovered(decls, c, v);
      DeclsBelow(t, decls, c, v);
    case HeadPattern(p, _) =>
      ExprCovered(p, c, v);
      OneBelow(t, c, ExprNode(p), c, v);
  }

  lemma {:induction false} CaseCovered(x: Case, c: Chain, v: Visit)
    ensures v in CaseSites(x, c) <==> Accounted(CaseNode(x), c, v)
    decreases x, 3
  {
    var t := CaseNode(x);
    Unfold(t, c, v);
    hide Accounted, OptSites, StmtsSites;
    OuterCovered(x.test, c, v);
    StmtsCovered(x.body, c, v);
    if x.test.Some? { assert Step(t, c, ExprNode(x.test.value.expr), c); }
    if s :| s in x.body && Accounted(StmtNode(s), c, v) { assert Step(t, c, StmtNode(s), c); }
  }

  lemma {:induction false} CatchCovered(x: Catch, c: Chain, v: Visit)
    ensures v in CatchSites(x, c) <==> Accounted(CatchNode(x), c, v)
    decreases x, 1
  {
    var t := CatchNode(x);
    Unfold(t, c, v);
    hide Accounted, ExprSites, StmtSites;
    if x.param.Some? {
      ExprCovered(x.param.value, c, v);
      assert Step(t, c, ExprNode(x.param.value), c);
    }
    StmtCovered(x.body, c, v);
    assert Step(t, c, StmtNode(x.body), c);
  }

  // Functions and classes.

  lemma {:induction false} FuncCovered(f: Func, info: FuncInfo, c: Chain, v: Visit)
    ensures v in FuncSites(f, info, c) <==> Accounted(FuncNode(f, info), c, v)
    decreases f, 1
  {
    var t, d := FuncNode(f, info), In(Function(info, f.isStrict), c);
    Unfold(t, c, v);
    hide Accounted, ParamsSites, BodySites;
    ParamsCovered(f.params, In(Parameters, d), v);
    BodyCovered(f.body, d, v);
    assert Step(t, c, BodyNode(f.body), d);
    if x :| x in f.params && Accounted(ParamNode(x), In(Parameters, d), v) {
      assert Step(t, c, ParamNode(x), In(Parameters, d));
    }
  }

  lemma {:induction false} ParamCovered(x: Param, c: Chain, v: Visit)
    ensures v in ParamSites(x, c) <==> Accounted(ParamNode(x), c, v)
    decreases x, 3
  {
    Unfold(ParamNode(x), c, v);
    hide Accounted, AccountedBelow, ExprSites;
    ExprCovered(x.pattern, c, v);
    OneBelow(ParamNode(x), c, ExprNode(x.pattern), c, v);
  }

  lemma {:induction false} BodyCovered(x: Body, c: Chain, v: Visit)
    ensures v in BodySites(x, c) <==> Accounted(BodyNode(x), c, v)
    decreases x, 1
  {
    var t := BodyNode(x);
    Unfold(t, c, v);
    hide Accounted, AccountedBelow, ExprSites, StmtsSites, SomeStmt;
    match x
    case BlockBody(stmts) =>
      StmtsCovered(stmts, c, v);
      StmtsBelow(t, stmts, c, c, v);
    case ExprBody(o) =>
      ExprCovered(o.expr, c, v);
      OneBelow(t, c, ExprNode(o.expr), c, v);
  }

  lemma {:induction false} ClassCovered(k: Class, c: Chain, v: Visit)
    ensures v in ClassSites(k, c) <==> Accounted(ClassNode(k), c, v)
    decreases k, 1
  {
    var t, d := ClassNode(k), In(ClassBody(k.elements, k.heritage.Some?), c);
    Unfold(t, c, v);
    hide Accounted, OptSites, ElementsSites;
    OuterCovered(k.heritage, In(Heritage, c), v);
    ElementsCovered(k.elements, k.heritage.Some?, d, v);
    if k.heritage.Some? { assert Step(t, c, ExprNode(k.heritage.value.expr), In(Heritage, c)); }
    if x :| x in k.elements && Accounted(ElementNode(x, k.heritage.Some?), d, v) {
      assert Step(t, c, ElementNode(x, k.heritage.Some?), d);
    }
  }

  lemma {:induction false} ElementCovered(x: Element, isDerived: bool, c: Chain, v: Visit)
    ensures v in ElementSites(x, isDerived, c) <==> Accounted(ElementNode(x, isDerived), c, v)
    decreases x, 1
  {
    var t := ElementNode(x, isDerived);
    Unfold(t, c, v);
    hide Accounted, KeySites, FuncSites, OptSites;
    KeyCovered(x.key, c, v);
    assert Step(t, c, KeyNode(x.key), c);
    match x
    case Method(_, _, _, f, _) =>
      FuncCovered(f, MethodInfo(x, isDerived), c, v);
      assert Step(t, c, FuncNode(f, MethodInfo(x, isDerived)), c);
    case Property(_, isStatic, value) =>
      OuterCovered(value, In(FieldInit(isStatic), c), v);
      if value.Some? { assert Step(t, c, ExprNode(value.value.expr), In(FieldInit(isStatic), c)); }
  }

  lemma {:induction false} KeyCovered(x: Key, c: Chain, v: Visit)
    ensures v in KeySites(x, c) <==> Accounted(KeyNode(x), c, v)
    decreases x, 1
  {
    Unfold(KeyNode(x), c, v);
    hide Accounted, AccountedBelow, ExprSites;
    if x.Computed? {
      ExprCovered(x.expr.expr, c, v);
      OneBelow(KeyNode(x), c, ExprNode(x.expr.expr), c, v);
    } else {
      NothingBelow(KeyNode(x), c, v);
    }
  }

  // Lists.

  lemma {:induction false} ExprsCovered(xs: seq<Expr>, c: Chain, v: Visit)
    ensures v in ExprsSites(xs, c) <==> SomeExpr(xs, c, v)
    decreases xs, 0
  {
    hide Accounted, ExprSites;
    if xs != [] {
      var n := |xs| - 1;
      ExprsCovered(xs[..n], c, v);
      ExprCovered(xs[n], c, v);
      assert xs == xs[..n] + [xs[n]];
    }
  }

  lemma {:induction false} StmtsCovered(xs: seq<Stmt>, c: Chain, v: Visit)
    ensures v in StmtsSites(xs, c) <==> SomeStmt(xs, c, v)
    decreases xs, 0
  {
    hide Accounted, StmtSites;
    if xs != [] {
      var n := |xs| - 1;
      StmtsCovered(xs[..n], c, v);
      StmtCovered(xs[n], c, v);
      assert xs == xs[..n] + [xs[n]];
    }
  }

  lemma {:induction false} DeclsCovered(xs: seq<Declarator>, c: Chain, v: Visit)
    ensures v in DeclsSites(xs, c) <==> SomeDecl(xs, c, v)
    decreases xs, 0
  {
    hide Accounted, DeclSites;
    if xs != [] {
      var n := |xs| - 1;
      DeclsCovered(xs[..n], c, v);
      DeclCovered(xs[n], c, v);
      assert xs == xs[..n] + [xs[n]];
    }
  }

  lemma {:induction false} HeadsCovered(xs: seq<Head>, c: Chain, v: Visit)
    ensures v in HeadsSites(xs, c) <==> SomeHead(xs, c, v)
    decreases xs, 0
  {
    hide Accounted, HeadSites;
    if xs != [] {
      var n := |xs| - 1;
      HeadsCovered(xs[..n], c, v);
      HeadCovered(xs[n], c, v);
      assert xs == xs[..n] + [xs[n]];
    }
  }

  lemma {:induction false} CasesCovered(xs: seq<Case>, c: Chain, v: Visit)
    ensures v in CasesSites(xs, c) <==> SomeCase(xs, c, v)
    decreases xs, 0
  {
    hide Accounted, CaseSites;
    if xs != [] {
      var n := |xs| - 1;
      CasesCovered(xs[..n], c, v);
      CaseCovered(xs[n], c, v);
      assert xs == xs[..n] + [xs[n]];
    }
  }

  lemma {:induction false} ParamsCovered(xs: seq<Param>, c: Chain, v: Visit)
    ensures v in ParamsSites(xs, c) <==> SomeParam(xs, c, v)
    decreases xs, 0
  {
    hide Accounted, ParamSites;
    if xs != [] {
      var n := |xs| - 1;
      ParamsCovered(xs[..n], c, v);
      ParamCovered(xs[n], c, v);
      assert xs == xs[..n] + [xs[n]];
    }
  }

  lemma {:induction false} ElementsCovered(xs: seq<Element>, isDerived: bool, c: Chain, v: Visit)
    ensures v in ElementsSites(xs, isDerived, c) <==> SomeElement(xs, isDerived, c, v)
    decreases xs, 0
  {
    hide Accounted, ElementSites;
    if xs != [] {
      var n := |xs| - 1;
      ElementsCovered(xs[..n], isDerived, c, v);
      ElementCovered(xs[n], isDerived, c, v);
      assert xs == xs[..n] + [xs[n]];
    }
  }

  // Programs.

  lemma ProgramCovered(p: Program, start: Start, v: Visit)
    ensures v in ProgramSites(p, start) <==> Accounted(ProgramNode(p), Root(start), v)
  {
    Unfold(ProgramNode(p), Root(start), v);
    hide Accounted, AccountedBelow, StmtsSites, SomeStmt;
    StmtsCovered(p.body, ProgramPlace(p, start), v);
    StmtsBelow(ProgramNode(p), p.body, Root(start), ProgramPlace(p, start), v);
  }
}
