/** The checked nodes of a tree stand within the place of the tree, those of a function or class behind its boundary. */
module SitePlaces {
  import opened Ast
  import opened Context
  import opened LabelHistory
  import opened Options
  import opened Sites

  predicate AllWithin(log: seq<Visit>, c: Chain) {
    forall i | 0 <= i < |log| :: Within(log[i].at, c)
  }

  lemma {:induction false} WithinOuter(p: Chain, f: Frame, c: Chain)
    requires Within(p, In(f, c))
    ensures Within(p, c)
  {
    if p != In(f, c) { WithinOuter(p.outer, f, c); }
  }

  lemma AllWithinOuter(log: seq<Visit>, f: Frame, c: Chain)
    requires AllWithin(log, In(f, c))
    ensures AllWithin(log, c)
  {
    forall i | 0 <= i < |log|
      ensures Within(log[i].at, c)
    {
      WithinOuter(log[i].at, f, c);
    }
  }

  lemma AllBeyondBoundary(log: seq<Visit>, f: Frame, c: Chain)
    requires AllWithin(log, In(f, c)) && IsBoundary(f)
    ensures AllBeyond(log, c)
  {
    hide Beyond;
    forall i | 0 <= i < |log|
      ensures Beyond(log[i].at, c)
    {
      WithinBoundary(log[i].at, f, c);
    }
  }

  lemma BothWithin(a: seq<Visit>, b: seq<Visit>, c: Chain)
    requires AllWithin(a, c) && AllWithin(b, c)
    ensures AllWithin(a + b, c)
  {
    hide Within;
  }

  // One lemma for each part of a tree.

  lemma {:induction false} ExprPlaces(e: Expr, c: Chain)
    ensures AllWithin(ExprSites(e, c), c)
    decreases e, 1
  {
    hide ExprsSites, FuncSites, ClassSites, UnarySites, CallSites;
    match e
    case Leaf =>
    case Id(_) =>
    case Binding(_) =>
    case NewTarget =>
    case Compound(children) => ExprsPlaces(children, c);
    case Assign(left, right) =>
      ExprPlaces(left, c);
      ExprPlaces(right, c);
      BothWithin(ExprSites(left, c), ExprSites(right, c), c);
    case FunctionExpr(f) => FuncPlaces(f, FunctionInfo(false, false), c);
    case Arrow(f) => FuncPlaces(f, FunctionInfo(true, false), c);
    case ObjectMethod(f) => FuncPlaces(f, FunctionInfo(false, true), c);
    case ClassExpr(k) => ClassPlaces(k, c);
    case Delete(_) => UnaryPlaces(e, c);
    case PrivateMember(_, _) => UnaryPlaces(e, c);
    case PrivateIn(_, _) => UnaryPlaces(e, c);
    case SuperMember(_, _) => UnaryPlaces(e, c);
    case Await(_) => UnaryPlaces(e, c);
    case SuperCall(_) => CallPlaces(e, c);
    case Yield(_) => CallPlaces(e, c);
    case EvalCall(_, _) => CallPlaces(e, c);
  }

  lemma {:induction false} UnaryPlaces(e: Expr, c: Chain)
    requires IsUnary(e)
    ensures AllWithin(UnarySites(e, c), c)
    decreases e, 0
  {
    hide ExprSites;
    ExprPlaces(Operand(e), c);
  }

  lemma {:induction false} CallPlaces(e: Expr, c: Chain)
    requires IsCall(e)
    ensures AllWithin(CallSites(e, c), c)
    decreases e, 0
  {
    hide ExprsSites;
    ExprsPlaces(e.args, c);
  }

  lemma {:induction false} OptPlaces(o: Option<Outer>, c: Chain)
    ensures AllWithin(OptSites(o, c), c)
    decreases o, 2
  {
    hide ExprSites;
    if o.Some? { ExprPlaces(o.value.expr, c); }
  }

  lemma {:induction false} StmtPlaces(s: Stmt, c: Chain)
    ensures AllWithin(StmtSites(s, c), c)
    decreases s, 1
  {
    hide ExprSites, DeclsSites, FuncSites, ClassSites, StmtsSites, IfSites, SwitchSites, LoopSites, WithSites, TrySites;
    hide OptSites, GroupSites, LabeledPlace, Unlabeled;
    match s
    case Empty =>
    case ExprStmt(x) => ExprPlaces(x.expr, c);
    case VarDecl(decls) => DeclsPlaces(decls, c);
    case FuncDecl(f) => FuncPlaces(f, FunctionInfo(false, false), c);
    case ClassDecl(k) => ClassPlaces(k, c);
    case Block(body) => StmtsPlaces(body, c);
    case If(_, _, _) => IfPlaces(s, c);
    case Switch(_, _) => SwitchPlaces(s, c);
    case Loop(_, _, _) => LoopPlaces(s, c);
    case With(_, _) => WithPlaces(s, c);
    case Try(_, _, _) => TryPlaces(s, c);
    case Labeled(_, _) => LabeledPlaces(s, c);
    case Throw(x) => ExprPlaces(x.expr, c);
    case Return(x) => OptPlaces(x, c);
    case Break(_) =>
    case Continue(_) =>
  }

  lemma {:induction false} LabeledPlaces(s: Stmt, c: Chain)
    requires s.Labeled?
    ensures AllWithin(GroupSites(s, c) + StmtSites(Unlabeled(s), LabeledPlace(s, c)), c)
    decreases s, 0
  {
    hide StmtSites, LabelSites;
    var inner := LabeledPlace(s, c);
    LabelPlaces(s, [], c);
    StmtPlaces(Unlabeled(s), inner);
    AllWithinOuter(StmtSites(Unlabeled(s), inner), inner.frame, c);
    WithinOuter(inner, inner.frame, c);
    BothWithin(GroupSites(s, c), StmtSites(Unlabeled(s), inner), c);
  }

  lemma {:induction false} LabelPlaces(s: Stmt, done: seq<Name>, c: Chain)
    ensures AllWithin(LabelSites(s, done, c), c)
  {
    if s.Labeled? {
      LabelPlaces(s.inner, done + [s.tag.name], c);
      WithinOuter(In(LabelSet(done, OnOther), c), LabelSet(done, OnOther), c);
      hide LabelSites;
      BothWithin([Visit(LabelDef(s.tag.name, s.inner.FuncDecl?), In(LabelSet(done, OnOther), c))],
                 LabelSites(s.inner, done + [s.tag.name], c), c);
    }
  }

  lemma {:induction false} IfPlaces(s: Stmt, c: Chain)
    requires s.If?
    ensures AllWithin(IfSites(s, c), c)
    decreases s, 0
  {
    hide ExprSites, StmtSites;
    ExprPlaces(s.test.expr, c);
    StmtPlaces(s.conseq, c);
    if s.altern.Some? { StmtPlaces(s.altern.value, c); }
  }

  lemma {:induction false} SwitchPlaces(s: Stmt, c: Chain)
    requires s.Switch?
    ensures AllWithin(SwitchSites(s, c), c)
    decreases s, 0
  {
    hide ExprSites, CasesSites;
    var inner := In(SwitchBody, c);
    ExprPlaces(s.discriminant.expr, inner);
    CasesPlaces(s.cases, inner);
    BothWithin(ExprSites(s.discriminant.expr, inner), CasesSites(s.cases, inner), inner);
    AllWithinOuter(SwitchSites(s, c), SwitchBody, c);
  }

  lemma {:induction false} LoopPlaces(s: Stmt, c: Chain)
    requires s.Loop?
    ensures AllWithin(LoopSites(s, c), c)
    decreases s, 0
  {
    hide HeadsSites, StmtSites;
    var inner := In(LoopBody, c);
    HeadsPlaces(s.heads, inner);
    StmtPlaces(s.loopBody, inner);
    assert AllWithin(LoopSites(s, c), inner);
    AllWithinOuter(LoopSites(s, c), LoopBody, c);
  }

  lemma {:induction false} WithPlaces(s: Stmt, c: Chain)
    requires s.With?
    ensures AllWithin(WithSites(s, c), c)
    decreases s, 0
  {
    hide ExprSites, StmtSites;
    ExprPlaces(s.subject.expr, c);
    StmtPlaces(s.withBody, c);
  }

  lemma {:induction false} TryPlaces(s: Stmt, c: Chain)
    requires s.Try?
    ensures AllWithin(TrySites(s, c), c)
    decreases s, 0
  {
    hide StmtSites, CatchSites;
    StmtPlaces(s.block, c);
    if s.handler.Some? { CatchPlaces(s.handler.value, c); }
    if s.finalizer.Some? { StmtPlaces(s.finalizer.value, c); }
  }

  lemma {:induction false} DeclPlaces(d: Declarator, c: Chain)
    ensures AllWithin(DeclSites(d, c), c)
    decreases d, 3
  {
    hide ExprSites, OptSites;
    ExprPlaces(d.id, c);
    OptPlaces(d.init, c);
  }

  lemma {:induction false} HeadPlaces(h: Head, c: Chain)
    ensures AllWithin(HeadSites(h, c), c)
    decreases h, 1
  {
    hide ExprSites, DeclsSites;
    match h
    case HeadExpr(x) => ExprPlaces(x.expr, c);
    case HeadDecl(decls) => DeclsPlaces(decls, c);
    case HeadPattern(p, _) => ExprPlaces(p, c);
  }

  lemma {:induction false} CasePlaces(k: Case, c: Chain)
    ensures AllWithin(CaseSites(k, c), c)
    decreases k, 3
  {
    hide OptSites, StmtsSites;
    OptPlaces(k.test, c);
    StmtsPlaces(k.body, c);
  }

  lemma {:induction false} CatchPlaces(h: Catch, c: Chain)
    ensures AllWithin(CatchSites(h, c), c)
    decreases h, 1
  {
    hide ExprSites, StmtSites;
    if h.param.Some? { ExprPlaces(h.param.value, c); }
    StmtPlaces(h.body, c);
  }

  lemma {:induction false} FuncPlaces(f: Func, info: FuncInfo, c: Chain)
    ensures AllWithin(FuncSites(f, info, c), c) && AllBeyond(FuncSites(f, info, c), c)
    decreases f, 1
  {
    hide FuncPartSites;
    var fc := FuncPlace(f, info, c);
    FuncPartPlaces(f, info, fc);
    AllWithinOuter(FuncSites(f, info, c), fc.frame, c);
    AllBeyondBoundary(FuncSites(f, info, c), fc.frame, c);
  }

  lemma {:induction false} FuncPartPlaces(f: Func, info: FuncInfo, fc: Chain)
    ensures AllWithin(FuncPartSites(f, info, fc), fc)
    decreases f, 0
  {
    hide ParamsSites, BodySites;
    ParamsPlaces(f.params, In(Parameters, fc));
    AllWithinOuter(ParamsSites(f.params, In(Parameters, fc)), Parameters, fc);
    BodyPlaces(f.body, fc);
  }

  lemma {:induction false} ParamPlaces(p: Param, c: Chain)
    ensures AllWithin(ParamSites(p, c), c)
    decreases p, 3
  {
    hide ExprSites;
    ExprPlaces(p.pattern, c);
  }

  lemma {:induction false} BodyPlaces(b: Body, c: Chain)
    ensures AllWithin(BodySites(b, c), c)
    decreases b, 1
  {
    hide ExprSites, StmtsSites;
    match b
    case BlockBody(stmts) => StmtsPlaces(stmts, c);
    case ExprBody(x) => ExprPlaces(x.expr, c);
  }

  lemma {:induction false} ClassPlaces(k: Class, c: Chain)
    ensures AllWithin(ClassSites(k, c), c)
    decreases k, 1
  {
    hide OptSites, ClassBodySites;
    ClassPartPlaces(k, c);
    WithinOuter(In(Strict, c), Strict, c);
  }

  /** Heritage and body of a class stand behind its boundary. */
  lemma {:induction false} ClassPartPlaces(k: Class, c: Chain)
    ensures
      var sites := OptSites(k.heritage, In(Heritage, c)) + ClassBodySites(k, c);
      AllWithin(sites, c) && AllBeyond(sites, c)
    decreases k, 0
  {
    hide OptSites, ElementsSites, ExprSites;
    var heritage := OptSites(k.heritage, In(Heritage, c));
    var body := ElementsSites(k.elements, k.heritage.Some?, ClassPlace(k, c));
    var defs := [Visit(PrivateDefs(k.elements), In(Heritage, c))];
    if k.heritage.Some? { ExprPlaces(k.heritage.value.expr, In(Heritage, c)); }
    assert AllWithin(heritage, In(Heritage, c)) by { OptOfExpr(k.heritage, In(Heritage, c)); }
    ElementsPlaces(k.elements, k.heritage.Some?, ClassPlace(k, c));
    AllWithinOuter(heritage, Heritage, c);
    AllWithinOuter(defs, Heritage, c);
    AllWithinOuter(body, ClassPlace(k, c).frame, c);
    AllBeyondBoundary(heritage, Heritage, c);
    AllBeyondBoundary(defs, Heritage, c);
    AllBeyondBoundary(body, ClassPlace(k, c).frame, c);
    hide Within, Beyond;
  }

  lemma OptOfExpr(o: Option<Outer>, c: Chain)
    requires o.Some? ==> AllWithin(ExprSites(o.value.expr, c), c)
    ensures AllWithin(OptSites(o, c), c)
  {
    hide ExprSites;
  }

  lemma {:induction false} ElementPlaces(e: Element, isDerived: bool, c: Chain)
    ensures AllWithin(ElementSites(e, isDerived, c), c)
    decreases e, 1
  {
    hide KeySites, FuncSites, OptSites;
    KeyPlaces(e.key, c);
    match e
    case Method(_, _, _, f, _) =>
      FuncPlaces(f, MethodInfo(e, isDerived), c);
    case Property(_, isStatic, value) =>
      OptPlaces(value, In(FieldInit(isStatic), c));
      AllWithinOuter(OptSites(value, In(FieldInit(isStatic), c)), FieldInit(isStatic), c);
  }

  lemma {:induction false} KeyPlaces(k: Key, c: Chain)
    ensures AllWithin(KeySites(k, c), c)
    decreases k, 1
  {
    hide ExprSites;
    if k.Computed? { ExprPlaces(k.expr.expr, c); }
  }

  lemma {:induction false} ExprsPlaces(xs: seq<Expr>, c: Chain)
    ensures AllWithin(ExprsSites(xs, c), c)
    decreases xs, 0
  {
    hide ExprSites;
    if xs != [] {
      var n := |xs| - 1;
      ExprsPlaces(xs[..n], c);
      ExprPlaces(xs[n], c);
      BothWithin(ExprsSites(xs[..n], c), ExprSites(xs[n], c), c);
    }
  }

  lemma {:induction false} StmtsPlaces(xs: seq<Stmt>, c: Chain)
    ensures AllWithin(StmtsSites(xs, c), c)
    decreases xs, 0
  {
    hide StmtSites;
    if xs != [] {
      var n := |xs| - 1;
      StmtsPlaces(xs[..n], c);
      StmtPlaces(xs[n], c);
      BothWithin(StmtsSites(xs[..n], c), StmtSites(xs[n], c), c);
    }
  }

  lemma {:induction false} DeclsPlaces(xs: seq<Declarator>, c: Chain)
    ensures AllWithin(DeclsSites(xs, c), c)
    decreases xs, 0
  {
    hide DeclSites;
    if xs != [] {
      var n := |xs| - 1;
      DeclsPlaces(xs[..n], c);
      DeclPlaces(xs[n], c);
      BothWithin(DeclsSites(xs[..n], c), DeclSites(xs[n], c), c);
    }
  }

  lemma {:induction false} HeadsPlaces(xs: seq<Head>, c: Chain)
    ensures AllWithin(HeadsSites(xs, c), c)
    decreases xs, 0
  {
    hide HeadSites;
    if xs != [] {
      var n := |xs| - 1;
      HeadsPlaces(xs[..n], c);
      HeadPlaces(xs[n], c);
      BothWithin(HeadsSites(xs[..n], c), HeadSites(xs[n], c), c);
    }
  }

  lemma {:induction false} CasesPlaces(xs: seq<Case>, c: Chain)
    ensures AllWithin(CasesSites(xs, c), c)
    decreases xs, 0
  {
    hide CaseSites;
    if xs != [] {
      var n := |xs| - 1;
      CasesPlaces(xs[..n], c);
      CasePlaces(xs[n], c);
      BothWithin(CasesSites(xs[..n], c), CaseSites(xs[n], c), c);
    }
  }

  lemma {:induction false} ParamsPlaces(xs: seq<Param>, c: Chain)
    ensures AllWithin(ParamsSites(xs, c), c)
    decreases xs, 0
  {
    hide ParamSites;
    if xs != [] {
      var n := |xs| - 1;
      ParamsPlaces(xs[..n], c);
      ParamPlaces(xs[n], c);
      BothWithin(ParamsSites(xs[..n], c), ParamSites(xs[n], c), c);
    }
  }

  lemma {:induction false} ElementsPlaces(xs: seq<Element>, isDerived: bool, c: Chain)
    ensures AllWithin(ElementsSites(xs, isDerived, c), c)
    decreases xs, 0
  {
    hide ElementSites;
    if xs != [] {
      var n := |xs| - 1;
      ElementsPlaces(xs[..n], isDerived, c);
      ElementPlaces(xs[n], isDerived, c);
      BothWithin(ElementsSites(xs[..n], isDerived, c), ElementSites(xs[n], isDerived, c), c);
    }
  }
}
