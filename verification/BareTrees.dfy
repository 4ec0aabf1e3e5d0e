/**
  An analysis fills in the annotations of a tree and changes nothing else: without its annotations the
  accepted tree is the one that was analyzed.
 */
module BareTrees {
  import opened Ast
  import opened Context
  import opened Options
  import opened Sites

  // Trees without label ids, assignment flags, contexts of evals, staticness of super members and marks of pairs.

  function BareExpr(e: Expr): Expr
    decreases e, 1
  {
    match e
    case Compound(children) => Compound(BareExprs(children))
    case Delete(x) => Delete(BareExpr(x))
    case Assign(left, right) => Assign(BareExpr(left), BareExpr(right))
    case PrivateMember(x, name) => PrivateMember(BareExpr(x), name)
    case PrivateIn(name, x) => PrivateIn(name, BareExpr(x))
    case SuperMember(x, _) => SuperMember(BareExpr(x), false)
    case SuperCall(args) => SuperCall(BareExprs(args))
    case Await(x) => Await(BareExpr(x))
    case Yield(args) => Yield(BareExprs(args))
    case EvalCall(args, _) => EvalCall(BareExprs(args), None)
    case FunctionExpr(f) => FunctionExpr(BareFunc(f))
    case Arrow(f) => Arrow(BareFunc(f))
    case ObjectMethod(f) => ObjectMethod(BareFunc(f))
    case ClassExpr(k) => ClassExpr(BareClass(k))
    case _ => e
  }

  function BareOuter(o: Outer): Outer
    decreases o, 2
  {
    Outer(BareExpr(o.expr), false)
  }

  function BareOpt(o: Option<Outer>): Option<Outer>
    decreases o, 3
  {
    if o.None? then None else Some(BareOuter(o.value))
  }

  function BareLabel(l: Option<Label>): Option<Label> {
    if l.None? then None else Some(Label(l.value.name, 0))
  }

  function BareStmt(s: Stmt): Stmt
    decreases s, 1
  {
    match s
    case Empty => s
    case ExprStmt(x) => ExprStmt(BareOuter(x))
    case VarDecl(decls) => VarDecl(BareDecls(decls))
    case FuncDecl(f) => FuncDecl(BareFunc(f))
    case ClassDecl(k) => ClassDecl(BareClass(k))
    case Block(body) => Block(BareStmts(body))
    case If(x, conseq, altern) =>
      If(BareOuter(x), BareStmt(conseq), if altern.Some? then Some(BareStmt(altern.value)) else None)
    case Switch(x, cases) => Switch(BareOuter(x), BareCases(cases))
    case Loop(kind, heads, body) => Loop(kind, BareHeads(heads), BareStmt(body))
    case With(x, body) => With(BareOuter(x), BareStmt(body))
    case Try(block, handler, finalizer) =>
      Try(BareStmt(block), if handler.Some? then Some(BareCatch(handler.value)) else None,
          if finalizer.Some? then Some(BareStmt(finalizer.value)) else None)
    case Throw(x) => Throw(BareOuter(x))
    case Return(x) => Return(BareOpt(x))
    case Break(target) => Break(BareLabel(target))
    case Continue(target) => Continue(BareLabel(target))
    case Labeled(tag, inner) => Labeled(Label(tag.name, 0), BareStmt(inner))
  }

  function BareDecl(x: Declarator): Declarator
    decreases x, 1
  {
    Declarator(BareExpr(x.id), false, BareOpt(x.init))
  }

  function BareHead(h: Head): Head
    decreases h, 1
  {
    match h
    case HeadExpr(x) => HeadExpr(BareOuter(x))
    case HeadDecl(decls) => HeadDecl(BareDecls(decls))
    case HeadPattern(p, _) => HeadPattern(BareExpr(p), false)
  }

  function BareCase(k: Case): Case
    decreases k, 1
  {
    Case(BareOpt(k.test), BareStmts(k.body))
  }

  function BareCatch(h: Catch): Catch
    decreases h, 1
  {
    Catch(if h.param.Some? then Some(BareExpr(h.param.value)) else None, false, BareStmt(h.body))
  }

  function BareFunc(f: Func): Func
    decreases f, 1
  {
    f.(params := BareParams(f.params), body := BareBody(f.body))
  }

  function BareParam(p: Param): Param
    decreases p, 3
  {
    Param(BareExpr(p.pattern), false)
  }

  function BareBody(b: Body): Body
    decreases b, 1
  {
    match b
    case BlockBody(stmts) => BlockBody(BareStmts(stmts))
    case ExprBody(x) => ExprBody(BareOuter(x))
  }

  function BareClass(k: Class): Class
    decreases k, 1
  {
    k.(heritage := BareOpt(k.heritage), elements := BareElements(k.elements))
  }

  function BareElement(e: Element): Element
    decreases e, 1
  {
    match e
    case Method(kind, key, isStatic, f, _) => Method(kind, BareKey(key), isStatic, BareFunc(f), false)
    case Property(key, isStatic, value) => Property(BareKey(key), isStatic, BareOpt(value))
  }

  function BareKey(k: Key): Key
    decreases k, 1
  {
    if k.Computed? then Computed(BareOuter(k.expr)) else k
  }

  function BareExprs(xs: seq<Expr>): seq<Expr>
    decreases xs, 0
  {
    if xs == [] then [] else BareExprs(xs[..|xs| - 1]) + [BareExpr(xs[|xs| - 1])]
  }

  function BareStmts(xs: seq<Stmt>): seq<Stmt>
    decreases xs, 0
  {
    if xs == [] then [] else BareStmts(xs[..|xs| - 1]) + [BareStmt(xs[|xs| - 1])]
  }

  function BareDecls(xs: seq<Declarator>): seq<Declarator>
    decreases xs, 0
  {
    if xs == [] then [] else BareDecls(xs[..|xs| - 1]) + [BareDecl(xs[|xs| - 1])]
  }

  function BareHeads(xs: seq<Head>): seq<Head>
    decreases xs, 0
  {
    if xs == [] then [] else BareHeads(xs[..|xs| - 1]) + [BareHead(xs[|xs| - 1])]
  }

  function BareCases(xs: seq<Case>): seq<Case>
    decreases xs, 0
  {
    if xs == [] then [] else BareCases(xs[..|xs| - 1]) + [BareCase(xs[|xs| - 1])]
  }

  function BareParams(xs: seq<Param>): seq<Param>
    decreases xs, 0
  {
    if xs == [] then [] else BareParams(xs[..|xs| - 1]) + [BareParam(xs[|xs| - 1])]
  }

  function BareElements(xs: seq<Element>): seq<Element>
    decreases xs, 0
  {
    if xs == [] then [] else BareElements(xs[..|xs| - 1]) + [BareElement(xs[|xs| - 1])]
  }

  // One lemma for each part of a tree.

  lemma {:induction false} ExprKept(e: Expr, c: Chain)
    ensures BareExpr(AnnotateExpr(e, c)) == BareExpr(e)
    decreases e, 1
  {
    if IsUnary(e) {
      UnaryKept(e, c);
    } else if IsCall(e) {
      CallKept(e, c);
    } else {
      OtherKept(e, c);
    }
    hide BareExpr, AnnotateUnary, AnnotateCall, AnnotateExprs, AnnotateFunc, AnnotateClass;
  }

  lemma {:induction false} UnaryKept(e: Expr, c: Chain)
    requires IsUnary(e)
    ensures BareExpr(AnnotateUnary(e, c)) == BareExpr(e)
    decreases e, 0
  {
    hide AnnotateExpr, BareExprs, BareFunc, BareClass;
    ExprKept(Operand(e), c);
  }

  lemma {:induction false} CallKept(e: Expr, c: Chain)
    requires IsCall(e)
    ensures BareExpr(AnnotateCall(e, c)) == BareExpr(e)
    decreases e, 0
  {
    hide AnnotateExprs, BareExprs, BareFunc, BareClass;
    ExprsKept(e.args, c);
  }

  lemma {:induction false} OtherKept(e: Expr, c: Chain)
    requires !IsUnary(e) && !IsCall(e)
    ensures BareExpr(AnnotateExpr(e, c)) == BareExpr(e)
    decreases e, 0
  {
    hide AnnotateExprs, AnnotateFunc, AnnotateClass, BareExprs, BareFunc, BareClass;
    match e
    case Compound(children) => ExprsKept(children, c);
    case Assign(left, right) => ExprKept(left, c); ExprKept(right, c);
    case FunctionExpr(f) => FuncKept(f, FunctionInfo(false, false), c);
    case Arrow(f) => FuncKept(f, FunctionInfo(true, false), c);
    case ObjectMethod(f) => FuncKept(f, FunctionInfo(false, true), c);
    case ClassExpr(k) => ClassKept(k, c);
    case _ =>
  }

  lemma {:induction false} OuterKept(o: Outer, c: Chain)
    ensures BareOuter(AnnotateOuter(o, c)) == BareOuter(o)
    decreases o, 2
  {
    hide AnnotateExpr, BareExpr, HasAssign;
    ExprKept(o.expr, c);
  }

  lemma {:induction false} OptKept(o: Option<Outer>, c: Chain)
    ensures BareOpt(AnnotateOpt(o, c)) == BareOpt(o)
    decreases o, 3
  {
    hide AnnotateOuter, BareOuter;
    if o.Some? { OuterKept(o.value, c); }
  }

  lemma {:induction false} StmtKept(s: Stmt, c: Chain)
    ensures BareStmt(AnnotateStmt(s, c)) == BareStmt(s)
    decreases s, 1
  {
    hide AnnotateExpr, AnnotateOuter, AnnotateOpt, AnnotateDecls, AnnotateFunc, AnnotateClass, AnnotateStmts;
    hide AnnotateIf, AnnotateSwitch, AnnotateLoop, AnnotateWith, AnnotateTry, BareExpr, BareOuter, BareOpt, BareDecls;
    hide BareFunc;
    hide BareClass, BareStmts, StatementHasAssign, Unlabeled, LabeledPlace, Relabel;
    match s
    case Empty =>
    case ExprStmt(x) => StatementKept(x, c);
    case VarDecl(decls) => DeclsKept(decls, c);
    case FuncDecl(f) => FuncKept(f, FunctionInfo(false, false), c);
    case ClassDecl(k) => ClassKept(k, c);
    case Block(body) => StmtsKept(body, c);
    case If(_, _, _) => IfKept(s, c);
    case Switch(_, _) => SwitchKept(s, c);
    case Loop(_, _, _) => LoopKept(s, c);
    case With(_, _) => WithKept(s, c);
    case Try(_, _, _) => TryKept(s, c);
    case Labeled(_, _) =>
      StmtKept(Unlabeled(s), LabeledPlace(s, c));
      RelabelKept(s, LabelId(LabeledPlace(s, c)), AnnotateStmt(Unlabeled(s), LabeledPlace(s, c)));
    case Throw(x) => OuterKept(x, c);
    case Return(x) => OptKept(x, c);
    case Break(_) => LabelKept(s, c);
    case Continue(_) => LabelKept(s, c);
  }

  lemma {:induction false} StatementKept(x: Outer, c: Chain)
    ensures BareOuter(Outer(AnnotateExpr(x.expr, c), StatementHasAssign(x.expr))) == BareOuter(x)
    decreases x, 2
  {
    hide AnnotateExpr, BareExpr, StatementHasAssign;
    ExprKept(x.expr, c);
  }

  lemma LabelKept(s: Stmt, c: Chain)
    requires s.Break? || s.Continue?
    ensures BareStmt(AnnotateStmt(s, c)) == BareStmt(s)
  {
    hide ContinueTarget, FindLabel, LabelId;
  }

  lemma {:induction false} RelabelKept(s: Stmt, id: nat, inner: Stmt)
    requires BareStmt(inner) == BareStmt(Unlabeled(s))
    ensures BareStmt(Relabel(s, id, inner)) == BareStmt(s)
  {
    if s.Labeled? { RelabelKept(s.inner, id, inner); }
  }

  lemma {:induction false} IfKept(s: Stmt, c: Chain)
    requires s.If?
    ensures BareStmt(AnnotateIf(s, c)) == BareStmt(s)
    decreases s, 0
  {
    hide AnnotateOuter, AnnotateStmt, BareOuter;
    OuterKept(s.test, c);
    StmtKept(s.conseq, c);
    if s.altern.Some? { StmtKept(s.altern.value, c); }
  }

  lemma {:induction false} SwitchKept(s: Stmt, c: Chain)
    requires s.Switch?
    ensures BareStmt(AnnotateSwitch(s, c)) == BareStmt(s)
    decreases s, 0
  {
    hide AnnotateOuter, AnnotateCases, BareOuter, BareCases;
    OuterKept(s.discriminant, In(SwitchBody, c));
    CasesKept(s.cases, In(SwitchBody, c));
  }

  lemma {:induction false} LoopKept(s: Stmt, c: Chain)
    requires s.Loop?
    ensures BareStmt(AnnotateLoop(s, c)) == BareStmt(s)
    decreases s, 0
  {
    hide AnnotateHeads, AnnotateStmt, BareHeads;
    HeadsKept(s.heads, In(LoopBody, c));
    StmtKept(s.loopBody, In(LoopBody, c));
  }

  lemma {:induction false} WithKept(s: Stmt, c: Chain)
    requires s.With?
    ensures BareStmt(AnnotateWith(s, c)) == BareStmt(s)
    decreases s, 0
  {
    hide AnnotateOuter, AnnotateStmt, BareOuter;
    OuterKept(s.subject, c);
    StmtKept(s.withBody, c);
  }

  lemma {:induction false} TryKept(s: Stmt, c: Chain)
    requires s.Try?
    ensures BareStmt(AnnotateTry(s, c)) == BareStmt(s)
    decreases s, 0
  {
    hide AnnotateCatch, AnnotateStmt, BareCatch;
    StmtKept(s.block, c);
    if s.handler.Some? { CatchKept(s.handler.value, c); }
    if s.finalizer.Some? { StmtKept(s.finalizer.value, c); }
  }

  lemma {:induction false} DeclKept(x: Declarator, c: Chain)
    ensures BareDecl(AnnotateDecl(x, c)) == BareDecl(x)
    decreases x, 4
  {
    hide AnnotateExpr, AnnotateOpt, BareExpr, BareOpt, HasAssign;
    ExprKept(x.id, c);
    OptKept(x.init, c);
  }

  lemma {:induction false} HeadKept(x: Head, c: Chain)
    ensures BareHead(AnnotateHead(x, c)) == BareHead(x)
    decreases x, 3
  {
    hide AnnotateExpr, AnnotateOuter, AnnotateDecls, BareExpr, BareOuter, BareDecls, HasAssign;
    match x
    case HeadExpr(o) => OuterKept(o, c);
    case HeadDecl(decls) => DeclsKept(decls, c);
    case HeadPattern(p, _) => ExprKept(p, c);
  }

  lemma {:induction false} CaseKept(x: Case, c: Chain)
    ensures BareCase(AnnotateCase(x, c)) == BareCase(x)
    decreases x, 4
  {
    hide AnnotateOpt, AnnotateStmts, BareOpt, BareStmts;
    OptKept(x.test, c);
    StmtsKept(x.body, c);
  }

  lemma {:induction false} CatchKept(x: Catch, c: Chain)
    ensures BareCatch(AnnotateCatch(x, c)) == BareCatch(x)
    decreases x, 1
  {
    hide AnnotateExpr, AnnotateStmt, BareExpr, BareStmt, HasAssign;
    if x.param.Some? { ExprKept(x.param.value, c); }
    StmtKept(x.body, c);
  }

  lemma {:induction false} FuncKept(f: Func, info: FuncInfo, c: Chain)
    ensures BareFunc(AnnotateFunc(f, info, c)) == BareFunc(f)
    decreases f, 1
  {
    hide AnnotateParams, AnnotateBody, BareParams, BareBody;
    ParamsKept(f.params, In(Parameters, FuncPlace(f, info, c)));
    BodyKept(f.body, FuncPlace(f, info, c));
  }

  lemma {:induction false} ParamKept(x: Param, c: Chain)
    ensures BareParam(AnnotateParam(x, c)) == BareParam(x)
    decreases x, 3
  {
    hide AnnotateExpr, BareExpr, HasAssign;
    ExprKept(x.pattern, c);
  }

  lemma {:induction false} BodyKept(x: Body, c: Chain)
    ensures BareBody(AnnotateBody(x, c)) == BareBody(x)
    decreases x, 3
  {
    hide AnnotateOuter, AnnotateStmts, BareOuter, BareStmts;
    match x
    case BlockBody(stmts) => StmtsKept(stmts, c);
    case ExprBody(o) => OuterKept(o, c);
  }

  lemma {:induction false} ClassKept(k: Class, c: Chain)
    ensures BareClass(AnnotateClass(k, c)) == BareClass(k)
    decreases k, 1
  {
    hide AnnotateOpt, AnnotateElements, BareOpt, BareElements;
    OptKept(k.heritage, In(Heritage, c));
    ElementsKept(k.elements, k.heritage.Some?, PairStarts(k.elements), ClassPlace(k, c));
  }

  lemma {:induction false} ElementKept(x: Element, isDerived: bool, start: bool, c: Chain)
    ensures BareElement(AnnotateElement(x, isDerived, start, c)) == BareElement(x)
    decreases x, 4
  {
    hide AnnotateKey, AnnotateFunc, AnnotateOpt, BareKey, BareFunc, BareOpt;
    KeyKept(x.key, c);
    match x
    case Method(_, _, _, f, _) => FuncKept(f, MethodInfo(x, isDerived), c);
    case Property(_, isStatic, value) => OptKept(value, In(FieldInit(isStatic), c));
  }

  lemma {:induction false} KeyKept(x: Key, c: Chain)
    ensures BareKey(AnnotateKey(x, c)) == BareKey(x)
    decreases x, 3
  {
    hide AnnotateOuter, BareOuter;
    if x.Computed? { OuterKept(x.expr, c); }
  }

  lemma {:induction false} ExprsKept(xs: seq<Expr>, c: Chain)
    ensures BareExprs(AnnotateExprs(xs, c)) == BareExprs(xs)
    decreases xs, 0
  {
    hide AnnotateExpr, BareExpr;
    if xs != [] {
      var n := |xs| - 1;
      ExprsKept(xs[..n], c);
      ExprKept(xs[n], c);
      assert AnnotateExprs(xs, c)[..|AnnotateExprs(xs, c)| - 1] == AnnotateExprs(xs[..n], c);
    }
  }

  lemma {:induction false} StmtsKept(xs: seq<Stmt>, c: Chain)
    ensures BareStmts(AnnotateStmts(xs, c)) == BareStmts(xs)
    decreases xs, 0
  {
    hide AnnotateStmt, BareStmt;
    if xs != [] {
      var n := |xs| - 1;
      StmtsKept(xs[..n], c);
      StmtKept(xs[n], c);
      assert AnnotateStmts(xs, c)[..|AnnotateStmts(xs, c)| - 1] == AnnotateStmts(xs[..n], c);
    }
  }

  lemma {:induction false} DeclsKept(xs: seq<Declarator>, c: Chain)
    ensures BareDecls(AnnotateDecls(xs, c)) == BareDecls(xs)
    decreases xs, 0
  {
    hide AnnotateDecl, BareDecl;
    if xs != [] {
      var n := |xs| - 1;
      DeclsKept(xs[..n], c);
      DeclKept(xs[n], c);
      assert AnnotateDecls(xs, c)[..|AnnotateDecls(xs, c)| - 1] == AnnotateDecls(xs[..n], c);
    }
  }

  lemma {:induction false} HeadsKept(xs: seq<Head>, c: Chain)
    ensures BareHeads(AnnotateHeads(xs, c)) == BareHeads(xs)
    decreases xs, 0
  {
    hide AnnotateHead, BareHead;
    if xs != [] {
      var n := |xs| - 1;
      HeadsKept(xs[..n], c);
      HeadKept(xs[n], c);
      assert AnnotateHeads(xs, c)[..|AnnotateHeads(xs, c)| - 1] == AnnotateHeads(xs[..n], c);
    }
  }

  lemma {:induction false} CasesKept(xs: seq<Case>, c: Chain)
    ensures BareCases(AnnotateCases(xs, c)) == BareCases(xs)
    decreases xs, 0
  {
    hide AnnotateCase, BareCase;
    if xs != [] {
      var n := |xs| - 1;
      CasesKept(xs[..n], c);
      CaseKept(xs[n], c);
      assert AnnotateCases(xs, c)[..|AnnotateCases(xs, c)| - 1] == AnnotateCases(xs[..n], c);
    }
  }

  lemma {:induction false} ParamsKept(xs: seq<Param>, c: Chain)
    ensures BareParams(AnnotateParams(xs, c)) == BareParams(xs)
    decreases xs, 0
  {
    hide AnnotateParam, BareParam;
    if xs != [] {
      var n := |xs| - 1;
      ParamsKept(xs[..n], c);
      ParamKept(xs[n], c);
      assert AnnotateParams(xs, c)[..|AnnotateParams(xs, c)| - 1] == AnnotateParams(xs[..n], c);
    }
  }

  lemma {:induction false} ElementsKept(xs: seq<Element>, isDerived: bool, starts: seq<bool>, c: Chain)
    requires |starts| == |xs|
    ensures BareElements(AnnotateElements(xs, isDerived, starts, c)) == BareElements(xs)
    decreases xs, 0
  {
    hide AnnotateElement, BareElement;
    if xs != [] {
      var n := |xs| - 1;
      var rest := AnnotateElements(xs[..n], isDerived, starts[..n], c);
      ElementsKept(xs[..n], isDerived, starts[..n], c);
      ElementKept(xs[n], isDerived, starts[n], c);
      assert AnnotateElements(xs, isDerived, starts, c)[..|rest|] == rest;
    }
  }

  lemma ProgramKept(p: Program, start: Start)
    ensures
      var r := AnnotateProgram(p, start);
      r.isStrict == p.isStrict && BareStmts(r.body) == BareStmts(p.body)
  {
    StmtsKept(p.body, ProgramPlace(p, start));
    hide AnnotateStmts, BareStmts;
  }
}
