/**
  The reference for one analysis: which checked nodes a tree contains, in source order and each with
  its place, and the tree with the annotations that its places determine.

  Nothing here keeps state. A child's place is its parent's place, extended by the frames between.
 */
module Sites {
  import opened Ast
  import opened PrivateNames
  import opened Context
  import opened Options

  // The places of the parts of a node.

  function FunctionInfo(isArrow: bool, isMethod: bool): FuncInfo {
    FuncInfo(isArrow, isMethod, false, false, false, false)
  }

  function MethodInfo(m: Element, isDerived: bool): FuncInfo
    requires m.Method?
  {
    FuncInfo(false, true, m.isStatic, m.kind.Constructor? && isDerived, m.kind.StaticInitializer?, false)
  }

  function FuncPlace(f: Func, info: FuncInfo, c: Chain): Chain {
    In(Function(info, f.isStrict), c)
  }

  function ClassPlace(k: Class, c: Chain): Chain {
    In(ClassBody(k.elements, k.heritage.Some?), c)
  }

  function LabeledPlace(s: Stmt, c: Chain): Chain {
    In(LabelSet(LabelNames(s), TargetOf(Unlabeled(s))), c)
  }

  function DeleteKindOf(e: Expr): DeleteKind {
    if e.Id? then DeleteId else if e.PrivateMember? then DeletePrivate else DeleteOther
  }

  predicate IsLabeledFunction(s: Stmt) {
    s.Labeled? && Unlabeled(s).FuncDecl?
  }

  // The checked nodes.

  function ExprSites(e: Expr, c: Chain): seq<Visit>
    decreases e, 1
  {
    match e
    case Leaf => []
    case Id(name) => [Visit(IdUse(name), c)]
    case Binding(name) => [Visit(BindingUse(name), c)]
    case Compound(children) => ExprsSites(children, c)
    case Assign(left, right) => ExprSites(left, c) + ExprSites(right, c)
    case NewTarget => [Visit(NewTargetUse, c)]
    case FunctionExpr(f) => FuncSites(f, FunctionInfo(false, false), c)
    case Arrow(f) => FuncSites(f, FunctionInfo(true, false), c)
    case ObjectMethod(f) => FuncSites(f, FunctionInfo(false, true), c)
    case ClassExpr(k) => ClassSites(k, c)
    case Delete(_) => UnarySites(e, c)
    case PrivateMember(_, _) => UnarySites(e, c)
    case PrivateIn(_, _) => UnarySites(e, c)
    case SuperMember(_, _) => UnarySites(e, c)
    case Await(_) => UnarySites(e, c)
    case SuperCall(_) => CallSites(e, c)
    case Yield(_) => CallSites(e, c)
    case EvalCall(_, _) => CallSites(e, c)
  }

  predicate IsUnary(e: Expr) {
    e.Delete? || e.PrivateMember? || e.PrivateIn? || e.SuperMember? || e.Await?
  }

  predicate IsCall(e: Expr) {
    e.SuperCall? || e.Yield? || e.EvalCall?
  }

  function Operand(e: Expr): (r: Expr)
    requires IsUnary(e)
    ensures r < e
  {
    match e
    case Delete(x) => x
    case PrivateMember(x, _) => x
    case PrivateIn(_, x) => x
    case SuperMember(x, _) => x
    case Await(x) => x
  }

  /** An expression with one operand is checked before its operand. */
  function UnarySites(e: Expr, c: Chain): seq<Visit>
    requires IsUnary(e)
    decreases e, 0
  {
    [Visit(match e
           case Delete(x) => DeleteUse(DeleteKindOf(x))
           case PrivateMember(_, name) => PrivateUse(name)
           case PrivateIn(name, _) => PrivateUse(name)
           case SuperMember(_, _) => SuperUse
           case Await(_) => AwaitUse, c)]
    + ExprSites(Operand(e), c)
  }

  function CallSites(e: Expr, c: Chain): seq<Visit>
    requires IsCall(e)
    decreases e, 0
  {
    [Visit(if e.SuperCall? then SuperCallUse else if e.Yield? then YieldUse else IdUse(EVAL), c)]
    + ExprsSites(e.args, c)
  }

  function ExprsSites(es: seq<Expr>, c: Chain): seq<Visit>
    decreases es, 0
  {
    if es == [] then [] else ExprsSites(es[..|es| - 1], c) + ExprSites(es[|es| - 1], c)
  }

  function OptSites(o: Option<Outer>, c: Chain): seq<Visit>
    decreases o, 2
  {
    if o.None? then [] else ExprSites(o.value.expr, c)
  }

  function StmtSites(s: Stmt, c: Chain): seq<Visit>
    decreases s, 1
  {
    match s
    case Empty => []
    case ExprStmt(x) => ExprSites(x.expr, c)
    case VarDecl(decls) => DeclsSites(decls, c)
    case FuncDecl(f) => FuncSites(f, FunctionInfo(false, false), c)
    case ClassDecl(k) => ClassSites(k, c)
    case Block(body) => StmtsSites(body, c)
    case If(_, _, _) => IfSites(s, c)
    case Switch(_, _) => SwitchSites(s, c)
    case Loop(_, _, _) => LoopSites(s, c)
    case With(_, _) => WithSites(s, c)
    case Try(_, _, _) => TrySites(s, c)
    case Labeled(_, _) => GroupSites(s, c) + StmtSites(Unlabeled(s), LabeledPlace(s, c))
    case Throw(x) => ExprSites(x.expr, c)
    case Return(x) => [Visit(ReturnUse, c)] + OptSites(x, c)
    case Break(target) => [Visit(BreakUse(TargetName(target)), c)]
    case Continue(target) => [Visit(ContinueUse(TargetName(target)), c)]
  }

  function IfSites(s: Stmt, c: Chain): seq<Visit>
    requires s.If?
    decreases s, 0
  {
    [Visit(Embedded(IsLabeledFunction(s.conseq)), c)]
    + (if s.altern.Some? then [Visit(Embedded(IsLabeledFunction(s.altern.value)), c)] else [])
    + ExprSites(s.test.expr, c)
    + StmtSites(s.conseq, c)
    + (if s.altern.Some? then StmtSites(s.altern.value, c) else [])
  }

  function SwitchSites(s: Stmt, c: Chain): seq<Visit>
    requires s.Switch?
    decreases s, 0
  {
    ExprSites(s.discriminant.expr, In(SwitchBody, c)) + CasesSites(s.cases, In(SwitchBody, c))
  }

  function LoopSites(s: Stmt, c: Chain): seq<Visit>
    requires s.Loop?
    decreases s, 0
  {
    [Visit(Embedded(IsLabeledFunction(s.loopBody)), In(LoopBody, c))]
    + HeadsSites(s.heads, In(LoopBody, c))
    + StmtSites(s.loopBody, In(LoopBody, c))
  }

  function WithSites(s: Stmt, c: Chain): seq<Visit>
    requires s.With?
    decreases s, 0
  {
    [Visit(WithUse, c)]
    + [Visit(Embedded(IsLabeledFunction(s.withBody)), c)]
    + ExprSites(s.subject.expr, c)
    + StmtSites(s.withBody, c)
  }

  function TrySites(s: Stmt, c: Chain): seq<Visit>
    requires s.Try?
    decreases s, 0
  {
    StmtSites(s.block, c)
    + (if s.handler.Some? then CatchSites(s.handler.value, c) else [])
    + (if s.finalizer.Some? then StmtSites(s.finalizer.value, c) else [])
  }

  function TargetName(target: Option<Label>): Option<Name> {
    if target.Some? then Some(target.value.name) else None
  }

  /** The labels of a group, of which `done` are already declared. */
  function LabelSites(s: Stmt, done: seq<Name>, c: Chain): seq<Visit> {
    if !s.Labeled? then []
    else
      [Visit(LabelDef(s.tag.name, s.inner.FuncDecl?), In(LabelSet(done, OnOther), c))]
      + LabelSites(s.inner, done + [s.tag.name], c)
  }

  /** All labels of a group, and the marking of those of a loop or switch. */
  function GroupSites(s: Stmt, c: Chain): seq<Visit> {
    LabelSites(s, [], c)
    + if TargetOf(Unlabeled(s)).OnOther? then [] else [Visit(ContinueTargets(LabelNames(s)), LabeledPlace(s, c))]
  }

  function StmtsSites(ss: seq<Stmt>, c: Chain): seq<Visit>
    decreases ss, 0
  {
    if ss == [] then [] else StmtsSites(ss[..|ss| - 1], c) + StmtSites(ss[|ss| - 1], c)
  }

  function DeclsSites(ds: seq<Declarator>, c: Chain): seq<Visit>
    decreases ds, 0
  {
    if ds == [] then [] else DeclsSites(ds[..|ds| - 1], c) + DeclSites(ds[|ds| - 1], c)
  }

  function DeclSites(d: Declarator, c: Chain): seq<Visit>
    decreases d, 3
  {
    ExprSites(d.id, c) + OptSites(d.init, c)
  }

  function HeadsSites(hs: seq<Head>, c: Chain): seq<Visit>
    decreases hs, 0
  {
    if hs == [] then [] else HeadsSites(hs[..|hs| - 1], c) + HeadSites(hs[|hs| - 1], c)
  }

  function HeadSites(h: Head, c: Chain): seq<Visit>
    decreases h, 1
  {
    match h
    case HeadExpr(x) => ExprSites(x.expr, c)
    case HeadDecl(decls) => DeclsSites(decls, c)
    case HeadPattern(p, _) => ExprSites(p, c)
  }

  function CasesSites(cs: seq<Case>, c: Chain): seq<Visit>
    decreases cs, 0
  {
    if cs == [] then [] else CasesSites(cs[..|cs| - 1], c) + CaseSites(cs[|cs| - 1], c)
  }

  function CaseSites(k: Case, c: Chain): seq<Visit>
    decreases k, 3
  {
    OptSites(k.test, c) + StmtsSites(k.body, c)
  }

  function CatchSites(h: Catch, c: Chain): seq<Visit>
    decreases h, 1
  {
    (if h.param.Some? then ExprSites(h.param.value, c) else []) + StmtSites(h.body, c)
  }

  function FuncSites(f: Func, info: FuncInfo, c: Chain): seq<Visit>
    decreases f, 1
  {
    FuncPartSites(f, info, FuncPlace(f, info, c))
  }

  /** The parts of a function, from inside of it. */
  function FuncPartSites(f: Func, info: FuncInfo, fc: Chain): seq<Visit>
    decreases f, 0
  {
    (if !info.isMethod && f.id.Some? then [Visit(NameDef(f.id.value), fc)] else [])
    + ParamsSites(f.params, In(Parameters, fc))
    + [Visit(ParamList(f.hasUseStrict, f.simpleParams, f.duplicateParams), fc)]
    + BodySites(f.body, fc)
  }

  function ParamsSites(ps: seq<Param>, c: Chain): seq<Visit>
    decreases ps, 0
  {
    if ps == [] then [] else ParamsSites(ps[..|ps| - 1], c) + ParamSites(ps[|ps| - 1], c)
  }

  function ParamSites(p: Param, c: Chain): seq<Visit>
    decreases p, 3
  {
    ExprSites(p.pattern, c)
  }

  function BodySites(b: Body, c: Chain): seq<Visit>
    decreases b, 1
  {
    match b
    case BlockBody(stmts) => StmtsSites(stmts, c)
    case ExprBody(x) => ExprSites(x.expr, c)
  }

  function ClassSites(k: Class, c: Chain): seq<Visit>
    decreases k, 1
  {
    (if k.id.Some? then [Visit(NameDef(k.id.value), In(Strict, c))] else [])
    + (OptSites(k.heritage, In(Heritage, c)) + ClassBodySites(k, c))
  }

  function ClassBodySites(k: Class, c: Chain): seq<Visit>
    decreases k, 0
  {
    [Visit(PrivateDefs(k.elements), In(Heritage, c))]
    + ElementsSites(k.elements, k.heritage.Some?, ClassPlace(k, c))
  }

  function ElementsSites(els: seq<Element>, isDerived: bool, c: Chain): seq<Visit>
    decreases els, 0
  {
    if els == [] then []
    else ElementsSites(els[..|els| - 1], isDerived, c) + ElementSites(els[|els| - 1], isDerived, c)
  }

  function ElementSites(e: Element, isDerived: bool, c: Chain): seq<Visit>
    decreases e, 1
  {
    KeySites(e.key, c)
    + (match e
       case Method(_, _, _, f, _) => FuncSites(f, MethodInfo(e, isDerived), c)
       case Property(_, isStatic, value) => OptSites(value, In(FieldInit(isStatic), c)))
  }

  function KeySites(k: Key, c: Chain): seq<Visit>
    decreases k, 1
  {
    if k.Computed? then ExprSites(k.expr.expr, c) else []
  }

  function ProgramPlace(p: Program, start: Start): Chain {
    if p.isStrict then In(Strict, Root(start)) else Root(start)
  }

  function ProgramSites(p: Program, start: Start): seq<Visit> {
    StmtsSites(p.body, ProgramPlace(p, start))
  }

  // The annotated tree.

  function AnnotateLabel(l: Label, c: Chain, isContinue: bool): Label {
    if (if isContinue then ContinueTarget(c, l.name) else FindLabel(c, l.name).Some?)
    then l.(id := LabelId(FindLabel(c, l.name).value))
    else l
  }

  function AnnotateExpr(e: Expr, c: Chain): Expr
    decreases e, 1
  {
    match e
    case Leaf => e
    case Id(_) => e
    case Binding(_) => e
    case NewTarget => e
    case Compound(children) => Compound(AnnotateExprs(children, c))
    case Assign(left, right) => Assign(AnnotateExpr(left, c), AnnotateExpr(right, c))
    case FunctionExpr(f) => FunctionExpr(AnnotateFunc(f, FunctionInfo(false, false), c))
    case Arrow(f) => Arrow(AnnotateFunc(f, FunctionInfo(true, false), c))
    case ObjectMethod(f) => ObjectMethod(AnnotateFunc(f, FunctionInfo(false, true), c))
    case ClassExpr(k) => ClassExpr(AnnotateClass(k, c))
    case Delete(_) => AnnotateUnary(e, c)
    case PrivateMember(_, _) => AnnotateUnary(e, c)
    case PrivateIn(_, _) => AnnotateUnary(e, c)
    case SuperMember(_, _) => AnnotateUnary(e, c)
    case Await(_) => AnnotateUnary(e, c)
    case SuperCall(_) => AnnotateCall(e, c)
    case Yield(_) => AnnotateCall(e, c)
    case EvalCall(_, _) => AnnotateCall(e, c)
  }

  function AnnotateUnary(e: Expr, c: Chain): Expr
    requires IsUnary(e)
    decreases e, 0
  {
    var x := AnnotateExpr(Operand(e), c);
    match e
    case Delete(_) => Delete(x)
    case PrivateMember(_, name) => PrivateMember(x, name)
    case PrivateIn(name, _) => PrivateIn(name, x)
    case SuperMember(_, isStatic) => SuperMember(x, if SuperHome(c).Some? then SuperHome(c).value else isStatic)
    case Await(_) => Await(x)
  }

  function AnnotateCall(e: Expr, c: Chain): Expr
    requires IsCall(e)
    decreases e, 0
  {
    var args := AnnotateExprs(e.args, c);
    match e
    case SuperCall(_) => SuperCall(args)
    case Yield(_) => Yield(args)
    case EvalCall(_, context) => EvalCall(args, if NearestNonArrow(c).Some? then NearestNonArrow(c) else context)
  }

  function AnnotateExprs(es: seq<Expr>, c: Chain): (r: seq<Expr>)
    decreases es, 0
  {
    if es == [] then [] else AnnotateExprs(es[..|es| - 1], c) + [AnnotateExpr(es[|es| - 1], c)]
  }

  function AnnotateOuter(o: Outer, c: Chain): Outer
    decreases o, 2
  {
    Outer(AnnotateExpr(o.expr, c), HasAssign(o.expr))
  }

  function AnnotateOpt(o: Option<Outer>, c: Chain): Option<Outer>
    decreases o, 3
  {
    if o.None? then None else Some(AnnotateOuter(o.value, c))
  }

  function AnnotateStmt(s: Stmt, c: Chain): Stmt
    decreases s, 1
  {
    match s
    case Empty => s
    case ExprStmt(x) => ExprStmt(Outer(AnnotateExpr(x.expr, c), StatementHasAssign(x.expr)))
    case VarDecl(decls) => VarDecl(AnnotateDecls(decls, c))
    case FuncDecl(f) => FuncDecl(AnnotateFunc(f, FunctionInfo(false, false), c))
    case ClassDecl(k) => ClassDecl(AnnotateClass(k, c))
    case Block(body) => Block(AnnotateStmts(body, c))
    case If(_, _, _) => AnnotateIf(s, c)
    case Switch(_, _) => AnnotateSwitch(s, c)
    case Loop(_, _, _) => AnnotateLoop(s, c)
    case With(_, _) => AnnotateWith(s, c)
    case Try(_, _, _) => AnnotateTry(s, c)
    case Throw(x) => Throw(AnnotateOuter(x, c))
    case Return(x) => Return(AnnotateOpt(x, c))
    case Break(target) => Break(if target.Some? then Some(AnnotateLabel(target.value, c, false)) else None)
    case Continue(target) => Continue(if target.Some? then Some(AnnotateLabel(target.value, c, true)) else None)
    case Labeled(_, _) => Relabel(s, LabelId(LabeledPlace(s, c)), AnnotateStmt(Unlabeled(s), LabeledPlace(s, c)))
  }

  function AnnotateIf(s: Stmt, c: Chain): Stmt
    requires s.If?
    decreases s, 0
  {
    If(AnnotateOuter(s.test, c), AnnotateStmt(s.conseq, c),
       if s.altern.Some? then Some(AnnotateStmt(s.altern.value, c)) else None)
  }

  function AnnotateSwitch(s: Stmt, c: Chain): Stmt
    requires s.Switch?
    decreases s, 0
  {
    Switch(AnnotateOuter(s.discriminant, In(SwitchBody, c)), AnnotateCases(s.cases, In(SwitchBody, c)))
  }

  function AnnotateLoop(s: Stmt, c: Chain): Stmt
    requires s.Loop?
    decreases s, 0
  {
    Loop(s.kind, AnnotateHeads(s.heads, In(LoopBody, c)), AnnotateStmt(s.loopBody, In(LoopBody, c)))
  }

  function AnnotateWith(s: Stmt, c: Chain): Stmt
    requires s.With?
    decreases s, 0
  {
    With(AnnotateOuter(s.subject, c), AnnotateStmt(s.withBody, c))
  }

  function AnnotateTry(s: Stmt, c: Chain): Stmt
    requires s.Try?
    decreases s, 0
  {
    Try(AnnotateStmt(s.block, c),
        if s.handler.Some? then Some(AnnotateCatch(s.handler.value, c)) else None,
        if s.finalizer.Some? then Some(AnnotateStmt(s.finalizer.value, c)) else None)
  }

  /** A group of labels that all carry `id`, on a new statement. */
  function Relabel(s: Stmt, id: nat, inner: Stmt): Stmt {
    if s.Labeled? then Labeled(s.tag.(id := id), Relabel(s.inner, id, inner)) else inner
  }

  function AnnotateStmts(ss: seq<Stmt>, c: Chain): seq<Stmt>
    decreases ss, 0
  {
    if ss == [] then [] else AnnotateStmts(ss[..|ss| - 1], c) + [AnnotateStmt(ss[|ss| - 1], c)]
  }

  function AnnotateDecl(d: Declarator, c: Chain): Declarator
    decreases d, 1
  {
    Declarator(AnnotateExpr(d.id, c), HasAssign(d.id), AnnotateOpt(d.init, c))
  }

  function AnnotateDecls(ds: seq<Declarator>, c: Chain): seq<Declarator>
    decreases ds, 0
  {
    if ds == [] then [] else AnnotateDecls(ds[..|ds| - 1], c) + [AnnotateDecl(ds[|ds| - 1], c)]
  }

  function AnnotateHead(h: Head, c: Chain): Head
    decreases h, 1
  {
    match h
    case HeadExpr(x) => HeadExpr(AnnotateOuter(x, c))
    case HeadDecl(decls) => HeadDecl(AnnotateDecls(decls, c))
    case HeadPattern(p, _) => HeadPattern(AnnotateExpr(p, c), HasAssign(p))
  }

  function AnnotateHeads(hs: seq<Head>, c: Chain): seq<Head>
    decreases hs, 0
  {
    if hs == [] then [] else AnnotateHeads(hs[..|hs| - 1], c) + [AnnotateHead(hs[|hs| - 1], c)]
  }

  function AnnotateCase(k: Case, c: Chain): Case
    decreases k, 1
  {
    Case(AnnotateOpt(k.test, c), AnnotateStmts(k.body, c))
  }

  function AnnotateCases(cs: seq<Case>, c: Chain): seq<Case>
    decreases cs, 0
  {
    if cs == [] then [] else AnnotateCases(cs[..|cs| - 1], c) + [AnnotateCase(cs[|cs| - 1], c)]
  }

  function AnnotateCatch(h: Catch, c: Chain): Catch
    decreases h, 1
  {
    match h.param
    case None => Catch(None, h.paramHasAssign, AnnotateStmt(h.body, c))
    case Some(p) => Catch(Some(AnnotateExpr(p, c)), HasAssign(p), AnnotateStmt(h.body, c))
  }

  function AnnotateFunc(f: Func, info: FuncInfo, c: Chain): Func
    decreases f, 1
  {
    AnnotateFuncParts(f, FuncPlace(f, info, c))
  }

  function AnnotateFuncParts(f: Func, fc: Chain): Func
    decreases f, 0
  {
    f.(params := AnnotateParams(f.params, In(Parameters, fc)), body := AnnotateBody(f.body, fc))
  }

  function AnnotateParams(ps: seq<Param>, c: Chain): seq<Param>
    decreases ps, 0
  {
    if ps == [] then [] else AnnotateParams(ps[..|ps| - 1], c) + [AnnotateParam(ps[|ps| - 1], c)]
  }

  function AnnotateParam(p: Param, c: Chain): Param
    decreases p, 3
  {
    Param(AnnotateExpr(p.pattern, c), HasAssign(p.pattern))
  }

  function AnnotateBody(b: Body, c: Chain): Body
    decreases b, 1
  {
    match b
    case BlockBody(stmts) => BlockBody(AnnotateStmts(stmts, c))
    case ExprBody(x) => ExprBody(AnnotateOuter(x, c))
  }

  function AnnotateClass(k: Class, c: Chain): Class
    decreases k, 1
  {
    k.(heritage := AnnotateOpt(k.heritage, In(Heritage, c)), elements := AnnotateClassBody(k, c))
  }

  function AnnotateClassBody(k: Class, c: Chain): seq<Element>
    decreases k, 0
  {
    AnnotateElements(k.elements, k.heritage.Some?, PairStarts(k.elements), ClassPlace(k, c))
  }

  function PairStarts(els: seq<Element>): seq<bool> {
    seq(|els|, i requires 0 <= i < |els| => StartsPair(els, i))
  }

  function AnnotateElements(els: seq<Element>, isDerived: bool, starts: seq<bool>, c: Chain): seq<Element>
    requires |starts| == |els|
    decreases els, 0
  {
    if els == [] then []
    else
      var n := |els| - 1;
      AnnotateElements(els[..n], isDerived, starts[..n], c) + [AnnotateElement(els[n], isDerived, starts[n], c)]
  }

  function AnnotateElement(e: Element, isDerived: bool, start: bool, c: Chain): Element
    decreases e, 1
  {
    match e
    case Method(kind, key, isStatic, f, pairStart) =>
      Method(kind, AnnotateKey(key, c), isStatic, AnnotateFunc(f, MethodInfo(e, isDerived), c), pairStart || start)
    case Property(key, isStatic, value) =>
      Property(AnnotateKey(key, c), isStatic, AnnotateOpt(value, In(FieldInit(isStatic), c)))
  }

  function AnnotateKey(k: Key, c: Chain): Key
    decreases k, 1
  {
    if k.Computed? then Computed(AnnotateOuter(k.expr, c)) else k
  }

  function AnnotateProgram(p: Program, start: Start): Program {
    p.(body := AnnotateStmts(p.body, ProgramPlace(p, start)))
  }
}
