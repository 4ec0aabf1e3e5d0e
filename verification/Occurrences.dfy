/**
  Which nodes occur in a tree, and where: one step leads from a node to a part of it and from the place
  of the node to that of the part, and a node occurs where steps lead.

  This describes the syntax alone. That the checks of the nodes that occur in a tree are exactly the
  visited ones is proved in `Coverage`.
 */
module Occurrences {
  import opened Ast
  import opened Context
  import opened Options

  /** `Labels` is what remains of a group of labels below the labels `before`; a function comes with its kind. */
  datatype Node =
    | ExprNode(expr: Expr)
    | DeclNode(decl: Declarator)
    | HeadNode(head: Head)
    | CaseNode(branch: Case)
    | CatchNode(handler: Catch)
    | StmtNode(stmt: Stmt)
    | LabelsNode(group: Stmt, before: seq<Name>)
    | ParamNode(param: Param)
    | BodyNode(body: Body)
    | FuncNode(func: Func, info: FuncInfo)
    | KeyNode(key: Key)
    | ElementNode(element: Element, isDerived: bool)
    | ClassNode(cls: Class)
    | ProgramNode(program: Program)

  // One step.

  predicate IsOuter(u: Node, o: Option<Outer>) {
    o.Some? && u == ExprNode(o.value.expr)
  }

  predicate ExprStep(e: Expr, u: Node) {
    match e
    case Compound(children) => u.ExprNode? && u.expr in children
    case Delete(x) => u == ExprNode(x)
    case Assign(left, right) => u == ExprNode(left) || u == ExprNode(right)
    case PrivateMember(x, _) => u == ExprNode(x)
    case PrivateIn(_, x) => u == ExprNode(x)
    case SuperMember(x, _) => u == ExprNode(x)
    case SuperCall(args) => u.ExprNode? && u.expr in args
    case Await(x) => u == ExprNode(x)
    case Yield(args) => u.ExprNode? && u.expr in args
    case EvalCall(args, _) => u.ExprNode? && u.expr in args
    case FunctionExpr(f) => u == FuncNode(f, FuncInfo(false, false, false, false, false, false))
    case Arrow(f) => u == FuncNode(f, FuncInfo(true, false, false, false, false, false))
    case ObjectMethod(f) => u == FuncNode(f, FuncInfo(false, true, false, false, false, false))
    case ClassExpr(k) => u == ClassNode(k)
    case _ => false
  }

  predicate StmtStep(s: Stmt, c: Chain, u: Node, d: Chain) {
    match s
    case ExprStmt(x) => d == c && u == ExprNode(x.expr)
    case VarDecl(decls) => d == c && u.DeclNode? && u.decl in decls
    case FuncDecl(f) => d == c && u == FuncNode(f, FuncInfo(false, false, false, false, false, false))
    case ClassDecl(k) => d == c && u == ClassNode(k)
    case Block(body) => d == c && u.StmtNode? && u.stmt in body
    case If(test, conseq, altern) =>
      d == c && (u == ExprNode(test.expr) || u == StmtNode(conseq) || (altern.Some? && u == StmtNode(altern.value)))
    case Switch(x, cases) => d == In(SwitchBody, c) && (u == ExprNode(x.expr) || (u.CaseNode? && u.branch in cases))
    case Loop(_, heads, body) =>
      d == In(LoopBody, c) && ((u.HeadNode? && u.head in heads) || u == StmtNode(body))
    case With(x, body) => d == c && (u == ExprNode(x.expr) || u == StmtNode(body))
    case Try(block, handler, finalizer) =>
      d == c && (|| u == StmtNode(block) || (handler.Some? && u == CatchNode(handler.value))
                 || (finalizer.Some? && u == StmtNode(finalizer.value)))
    case Throw(x) => d == c && u == ExprNode(x.expr)
    case Return(x) => d == c && IsOuter(u, x)
    case Labeled(_, _) => d == c && u == LabelsNode(s, [])
    case _ => false
  }

  function BelowLabels(s: Stmt): LabelTarget {
    match s
    case Loop(_, _, _) => OnLoop
    case Switch(_, _) => OnSwitch
    case _ => OnOther
  }

  /** Through a label: to the next one of its group, or to the statement below, which has all the labels. */
  predicate LabelsStep(s: Stmt, before: seq<Name>, c: Chain, u: Node, d: Chain) {
    s.Labeled? &&
    var names := before + [s.tag.name];
    if s.inner.Labeled? then u == LabelsNode(s.inner, names) && d == c
    else u == StmtNode(s.inner) && d == In(LabelSet(names, BelowLabels(s.inner)), c)
  }

  predicate HeadStep(h: Head, u: Node) {
    match h
    case HeadExpr(x) => u == ExprNode(x.expr)
    case HeadDecl(decls) => u.DeclNode? && u.decl in decls
    case HeadPattern(p, _) => u == ExprNode(p)
  }

  /** Parameters stand in a parameter list of the function, the body directly inside the function. */
  predicate FuncStep(f: Func, info: FuncInfo, c: Chain, u: Node, d: Chain) {
    var inside := In(Function(info, f.isStrict), c);
    (u.ParamNode? && u.param in f.params && d == In(Parameters, inside)) || (u == BodyNode(f.body) && d == inside)
  }

  predicate BodyStep(b: Body, u: Node) {
    match b
    case BlockBody(stmts) => u.StmtNode? && u.stmt in stmts
    case ExprBody(x) => u == ExprNode(x.expr)
  }

  /** A method is the constructor of a derived class, a static initializer, or neither; a value is an initializer. */
  predicate ElementStep(e: Element, isDerived: bool, c: Chain, u: Node, d: Chain) {
    || (d == c && u == KeyNode(e.key))
    || match e
       case Method(kind, _, isStatic, f, _) =>
         d == c && u == FuncNode(f, FuncInfo(false, true, isStatic, kind == Constructor && isDerived,
                                             kind == StaticInitializer, false))
       case Property(_, isStatic, value) => d == In(FieldInit(isStatic), c) && IsOuter(u, value)
  }

  predicate ClassStep(k: Class, c: Chain, u: Node, d: Chain) {
    || (d == In(Heritage, c) && IsOuter(u, k.heritage))
    || (d == In(ClassBody(k.elements, k.heritage.Some?), c)
        && u.ElementNode? && u.element in k.elements && u.isDerived == k.heritage.Some?)
  }

  /** `u` at `d` is a part of `t` at `c`. */
  predicate Step(t: Node, c: Chain, u: Node, d: Chain) {
    match t
    case ExprNode(e) => d == c && ExprStep(e, u)
    case DeclNode(x) => d == c && (u == ExprNode(x.id) || IsOuter(u, x.init))
    case HeadNode(h) => d == c && HeadStep(h, u)
    case CaseNode(k) => d == c && (IsOuter(u, k.test) || (u.StmtNode? && u.stmt in k.body))
    case CatchNode(h) => d == c && ((h.param.Some? && u == ExprNode(h.param.value)) || u == StmtNode(h.body))
    case StmtNode(s) => StmtStep(s, c, u, d)
    case LabelsNode(s, before) => LabelsStep(s, before, c, u, d)
    case ParamNode(p) => d == c && u == ExprNode(p.pattern)
    case BodyNode(b) => d == c && BodyStep(b, u)
    case FuncNode(f, info) => FuncStep(f, info, c, u, d)
    case KeyNode(k) => d == c && k.Computed? && u == ExprNode(k.expr.expr)
    case ElementNode(e, isDerived) => ElementStep(e, isDerived, c, u, d)
    case ClassNode(k) => ClassStep(k, c, u, d)
    case ProgramNode(p) => d == (if p.isStrict then In(Strict, c) else c) && u.StmtNode? && u.stmt in p.body
  }

  // Any number of steps.

  ghost predicate Leads(n: nat, t: Node, c: Chain, u: Node, d: Chain) {
    if n == 0 then t == u && c == d
    else exists m, e :: Step(t, c, m, e) && Leads(n - 1, m, e, u, d)
  }

  /** The node `u` occurs at place `d` in the tree `t`, which stands at `c`. */
  ghost predicate Occurs(t: Node, c: Chain, u: Node, d: Chain) {
    exists n: nat :: Leads(n, t, c, u, d)
  }

  lemma OccursItself(t: Node, c: Chain)
    ensures Occurs(t, c, t, c)
  {
    assert Leads(0, t, c, t, c);
  }

  lemma OccursBelow(t: Node, c: Chain, m: Node, e: Chain, u: Node, d: Chain)
    requires Step(t, c, m, e) && Occurs(m, e, u, d)
    ensures Occurs(t, c, u, d)
  {
    hide Step, Leads;
    var n: nat :| Leads(n, m, e, u, d);
    LeadsBelow(n, t, c, m, e, u, d);
  }

  lemma LeadsBelow(n: nat, t: Node, c: Chain, m: Node, e: Chain, u: Node, d: Chain)
    requires Step(t, c, m, e) && Leads(n, m, e, u, d)
    ensures Leads(n + 1, t, c, u, d)
  {
    hide Step;
  }

  lemma OccursUnfold(t: Node, c: Chain, u: Node, d: Chain)
    requires Occurs(t, c, u, d)
    ensures (t == u && c == d) || exists m, e :: Step(t, c, m, e) && Occurs(m, e, u, d)
  {
    hide Step;
    var n: nat :| Leads(n, t, c, u, d);
    if n > 0 {
      var m, e :| Step(t, c, m, e) && Leads(n - 1, m, e, u, d);
      assert Occurs(m, e, u, d);
    }
  }

  /** What occurs in an occurring node occurs. */
  lemma OccursTransitively(t: Node, c: Chain, m: Node, e: Chain, u: Node, d: Chain)
    requires Occurs(t, c, m, e) && Occurs(m, e, u, d)
    ensures Occurs(t, c, u, d)
  {
    hide Occurs, Step;
    var n: nat :| Leads(n, t, c, m, e) by { OccursMeans(t, c, m, e); }
    LeadsTransitively(n, t, c, m, e, u, d);
  }

  lemma OccursMeans(t: Node, c: Chain, u: Node, d: Chain)
    requires Occurs(t, c, u, d)
    ensures exists n: nat :: Leads(n, t, c, u, d)
  {
  }

  lemma {:induction false} LeadsTransitively(n: nat, t: Node, c: Chain, m: Node, e: Chain, u: Node, d: Chain)
    requires Leads(n, t, c, m, e) && Occurs(m, e, u, d)
    ensures Occurs(t, c, u, d)
  {
    hide Occurs, Step;
    if n > 0 {
      var m', e' :| Step(t, c, m', e') && Leads(n - 1, m', e', m, e);
      LeadsTransitively(n - 1, m', e', m, e, u, d);
      OccursBelow(t, c, m', e', u, d);
    }
  }

  // The checks of a node itself.

  predicate LabelsFunction(s: Stmt) {
    s.Labeled? && (s.inner.FuncDecl? || LabelsFunction(s.inner))
  }

  predicate ExprCheck(e: Expr, site: Site) {
    match e
    case Id(name) => site == IdUse(name)
    case Binding(name) => site == BindingUse(name)
    case Delete(x) =>
      site == DeleteUse(match x case Id(_) => DeleteId case PrivateMember(_, _) => DeletePrivate case _ => DeleteOther)
    case PrivateMember(_, name) => site == PrivateUse(name)
    case PrivateIn(name, _) => site == PrivateUse(name)
    case SuperMember(_, _) => site == SuperUse
    case SuperCall(_) => site == SuperCallUse
    case NewTarget => site == NewTargetUse
    case Await(_) => site == AwaitUse
    case Yield(_) => site == YieldUse
    case EvalCall(_, _) => site == IdUse(EVAL)
    case _ => false
  }

  predicate StmtCheck(s: Stmt, c: Chain, v: Visit) {
    match s
    case If(_, conseq, altern) =>
      || v == Visit(Embedded(LabelsFunction(conseq)), c)
      || (altern.Some? && v == Visit(Embedded(LabelsFunction(altern.value)), c))
    case Loop(_, _, body) => v == Visit(Embedded(LabelsFunction(body)), In(LoopBody, c))
    case With(_, body) => v == Visit(WithUse, c) || v == Visit(Embedded(LabelsFunction(body)), c)
    case Return(_) => v == Visit(ReturnUse, c)
    case Break(target) => v == Visit(BreakUse(if target.Some? then Some(target.value.name) else None), c)
    case Continue(target) => v == Visit(ContinueUse(if target.Some? then Some(target.value.name) else None), c)
    case _ => false
  }

  /** A label is checked below those before it; the last one of a loop or switch marks the whole group. */
  predicate LabelsCheck(s: Stmt, before: seq<Name>, c: Chain, v: Visit) {
    s.Labeled? &&
    var names := before + [s.tag.name];
    || v == Visit(LabelDef(s.tag.name, s.inner.FuncDecl?), In(LabelSet(before, OnOther), c))
    || ((s.inner.Loop? || s.inner.Switch?)
        && v == Visit(ContinueTargets(names), In(LabelSet(names, BelowLabels(s.inner)), c)))
  }

  predicate FuncCheck(f: Func, info: FuncInfo, c: Chain, v: Visit) {
    v.at == In(Function(info, f.isStrict), c)
    && (|| (!info.isMethod && f.id.Some? && v.site == NameDef(f.id.value))
        || v.site == ParamList(f.hasUseStrict, f.simpleParams, f.duplicateParams))
  }

  predicate ClassCheck(k: Class, c: Chain, v: Visit) {
    || (k.id.Some? && v == Visit(NameDef(k.id.value), In(Strict, c)))
    || v == Visit(PrivateDefs(k.elements), In(Heritage, c))
  }

  /** The node `u` at `d` calls for the check `v`. */
  predicate Checks(u: Node, d: Chain, v: Visit) {
    match u
    case ExprNode(e) => v.at == d && ExprCheck(e, v.site)
    case StmtNode(s) => StmtCheck(s, d, v)
    case LabelsNode(s, before) => LabelsCheck(s, before, d, v)
    case FuncNode(f, info) => FuncCheck(f, info, d, v)
    case ClassNode(k) => ClassCheck(k, d, v)
    case _ => false
  }

  /** The check belongs to a node that occurs in the tree. */
  ghost predicate Accounted(t: Node, c: Chain, v: Visit) {
    exists u, d :: Occurs(t, c, u, d) && Checks(u, d, v)
  }

  // Unfolding by one step.

  ghost predicate AccountedBelow(t: Node, c: Chain, v: Visit) {
    exists m, e :: Step(t, c, m, e) && Accounted(m, e, v)
  }

  lemma Unfold(t: Node, c: Chain, v: Visit)
    ensures Accounted(t, c, v) <==> Checks(t, c, v) || AccountedBelow(t, c, v)
  {
    hide Step, Checks, Occurs;
    if Checks(t, c, v) { OccursItself(t, c); }
    if AccountedBelow(t, c, v) {
      var m, e :| Step(t, c, m, e) && Accounted(m, e, v);
      var u, d :| Occurs(m, e, u, d) && Checks(u, d, v);
      OccursBelow(t, c, m, e, u, d);
    }
    if Accounted(t, c, v) {
      var u, d :| Occurs(t, c, u, d) && Checks(u, d, v);
      OccursUnfold(t, c, u, d);
      if !(t == u && c == d) {
        var m, e :| Step(t, c, m, e) && Occurs(m, e, u, d);
        assert Accounted(m, e, v);
      }
    }
  }

  lemma NothingBelow(t: Node, c: Chain, v: Visit)
    requires forall m, e :: !Step(t, c, m, e)
    ensures !AccountedBelow(t, c, v)
  {
    hide Step, Accounted;
  }

  /** A node with one part. */
  lemma OneBelow(t: Node, c: Chain, m: Node, e: Chain, v: Visit)
    requires forall u, d :: Step(t, c, u, d) <==> u == m && d == e
    ensures AccountedBelow(t, c, v) <==> Accounted(m, e, v)
  {
    hide Step, Accounted;
    assert Step(t, c, m, e);
  }

  lemma Below(t: Node, c: Chain, m: Node, e: Chain, v: Visit)
    requires Step(t, c, m, e) && Accounted(m, e, v)
    ensures AccountedBelow(t, c, v)
  {
  }
}
