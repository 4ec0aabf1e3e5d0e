/**
  The early errors, node by node: which nodes are wrong at which places.

  An analysis lists an error exactly when some node that occurs in the tree is wrong in that way. Neither
  the nodes of the tree nor their errors are taken from the visits here.
 */
module EarlyErrors {
  import opened Ast
  import opened Context
  import opened Occurrences
  import opened Options
  import opened ParseErrors
  import opened PrivateNames

  predicate IsWrongExpr(error: Error, e: Expr, d: Chain) {
    match error
    case ArgumentsInClassInitializer =>
      (e == Id(Name("arguments")) || e == Binding(Name("arguments"))) && !ArgumentsAllowed(d)
    case AssignEvalInStrictMode => e == Binding(Name("eval")) && InStrict(d)
    case AssignArgumentsInStrictMode => e == Binding(Name("arguments")) && InStrict(d) && ArgumentsAllowed(d)
    case DeleteIdentifierInStrictMode => e.Delete? && e.operand.Id? && InStrict(d)
    case DeletePrivateProperty => e.Delete? && e.operand.PrivateMember? && InStrict(d)
    case PrivateNameOutsideClass => (e.PrivateMember? || e.PrivateIn?) && !InClass(d)
    case SuperPropertyOutsideMethod => e.SuperMember? && SuperHome(d).None?
    case SuperCallOutsideDerivedConstructor =>
      e.SuperCall? && !(NearestNonArrow(d).Some? && NearestNonArrow(d).value.isDerivedConstructor)
    case NewTargetOutsideFunction => e.NewTarget? && NearestNonArrow(d).None?
    case AwaitInParameters => e.Await? && InParameters(d)
    case AwaitInStaticInitializer =>
      e.Await? && !InParameters(d) && NearestFunction(d).Some? && NearestFunction(d).value.isStaticInitializer
    case YieldInParameters => e.Yield? && InParameters(d)
    case _ => false
  }

  /** A use of a private name that no class around it declares. */
  ghost predicate IsUndefined(error: Error, e: Expr, d: Chain) {
    error.PrivateNameNotDefined? && (e.PrivateMember? || e.PrivateIn?) && e.name == error.name
    && InClass(d) && !PrivateDeclared(d, e.name)
  }

  /** A labelled function stands where sloppy code may not have one: as a branch, a loop body or the body of a with. */
  predicate EmbedsFunction(s: Stmt) {
    match s
    case If(_, conseq, altern) => LabelsFunction(conseq) || (altern.Some? && LabelsFunction(altern.value))
    case Loop(_, _, body) => LabelsFunction(body)
    case With(_, body) => LabelsFunction(body)
    case _ => false
  }

  predicate IsWrongStmt(error: Error, s: Stmt, d: Chain) {
    match error
    case WithInStrictMode => s.With? && InStrict(d)
    case ReturnOutsideFunction => s.Return? && !ReturnAllowed(d)
    case UnlabeledBreakOutsideBreakable => s == Break(None) && !InBreakable(d)
    case ContinueOutsideIterable => s.Continue? && !InIterable(d)
    case LabelNotFound =>
      || (s.Break? && s.target.Some? && FindLabel(d, s.target.value.name).None?)
      || (s.Continue? && s.target.Some? && !ContinueTarget(d, s.target.value.name))
    case InvalidLabeledFunction(always) =>
      !always && !InStrict(d) && EmbedsFunction(s)
    case _ => false
  }

  predicate IsWrongLabel(error: Error, s: Stmt, before: seq<Name>, d: Chain, annexB: bool) {
    s.Labeled? &&
    match error
    case DuplicateLabel => s.tag.name in before || FindLabel(d, s.tag.name).Some?
    case InvalidLabeledFunction(always) => always && s.inner.FuncDecl? && (!annexB || InStrict(d))
    case _ => false
  }

  /** A function is strict if it says so or stands in strict code. */
  predicate IsWrongFunction(error: Error, f: Func, info: FuncInfo, d: Chain) {
    var strict := f.isStrict || InStrict(d);
    match error
    case AssignEvalInStrictMode => !info.isMethod && f.id == Some(Name("eval")) && strict
    case AssignArgumentsInStrictMode => !info.isMethod && f.id == Some(Name("arguments")) && strict
    case UseStrictFunctionNonSimpleParameterList => f.hasUseStrict && !f.simpleParams
    case InvalidDuplicateParameters(reason) =>
      f.duplicateParams &&
      (match reason
       case StrictMode => strict
       case ArrowFunction => !strict && info.isArrow
       case MethodParameters => !strict && !info.isArrow && info.isMethod
       case NonSimpleParameters => !strict && !info.isArrow && !info.isMethod && !f.simpleParams)
    case _ => false
  }

  /** A class is strict code. */
  ghost predicate IsWrongClass(error: Error, k: Class) {
    match error
    case AssignEvalInStrictMode => k.id == Some(Name("eval"))
    case AssignArgumentsInStrictMode => k.id == Some(Name("arguments"))
    case PrivateNameConstructor => exists x :: x in k.elements && x.key == Private(Name("#constructor"))
    case DuplicatePrivateName(name) => !DeclaredOnce(k.elements, name)
    case _ => false
  }

  /** The node `u` at `d` is wrong: it gives rise to the error. */
  ghost predicate IsWrong(error: Error, u: Node, d: Chain, annexB: bool) {
    match u
    case ExprNode(e) => IsWrongExpr(error, e, d) || IsUndefined(error, e, d)
    case StmtNode(s) => IsWrongStmt(error, s, d)
    case LabelsNode(s, before) => IsWrongLabel(error, s, before, d, annexB)
    case FuncNode(f, info) => IsWrongFunction(error, f, info, d)
    case ClassNode(k) => IsWrongClass(error, k)
    case _ => false
  }

  /** Some node of the tree is wrong. */
  ghost predicate HasError(t: Node, c: Chain, error: Error, annexB: bool) {
    exists u, d :: Occurs(t, c, u, d) && IsWrong(error, u, d, annexB)
  }

  // The checks of a node find exactly its errors.

  ghost predicate Finds(u: Node, d: Chain, error: Error, annexB: bool) {
    exists v :: Checks(u, d, v) && error in SiteErrors(v, annexB)
  }

  /** A node with a single check. */
  lemma OneCheck(u: Node, d: Chain, v: Visit, error: Error, annexB: bool)
    requires forall w :: Checks(u, d, w) <==> w == v
    ensures Finds(u, d, error, annexB) <==> error in SiteErrors(v, annexB)
  {
    hide Checks, SiteErrors;
    assert Checks(u, d, v);
  }

  lemma TwoChecks(u: Node, d: Chain, v: Visit, w: Visit, error: Error, annexB: bool)
    requires forall x :: Checks(u, d, x) <==> x == v || x == w
    ensures Finds(u, d, error, annexB) <==> error in SiteErrors(v, annexB) || error in SiteErrors(w, annexB)
  {
    hide Checks, SiteErrors;
    assert Checks(u, d, v) && Checks(u, d, w);
  }

  lemma NoCheck(u: Node, d: Chain, error: Error, annexB: bool)
    requires forall w :: !Checks(u, d, w)
    ensures !Finds(u, d, error, annexB)
  {
    hide Checks, SiteErrors;
  }

  lemma ExprFinds(e: Expr, d: Chain, error: Error, annexB: bool)
    ensures Finds(ExprNode(e), d, error, annexB) <==> IsWrong(error, ExprNode(e), d, annexB)
  {
    hide Finds, SiteErrors, IsWrong;
    var u := ExprNode(e);
    match e
    case Id(name) => OneCheck(u, d, Visit(IdUse(name), d), error, annexB); NamesFound(e, d, error, annexB);
    case Binding(name) => OneCheck(u, d, Visit(BindingUse(name), d), error, annexB); NamesFound(e, d, error, annexB);
    case Delete(x) => DeleteFound(e, d, error, annexB);
    case PrivateMember(_, name) => PrivateFound(e, d, error, annexB);
    case PrivateIn(name, _) => PrivateFound(e, d, error, annexB);
    case SuperMember(_, _) => OneCheck(u, d, Visit(SuperUse, d), error, annexB); SuperFound(e, d, error, annexB);
    case SuperCall(_) => OneCheck(u, d, Visit(SuperCallUse, d), error, annexB); SuperFound(e, d, error, annexB);
    case NewTarget => OneCheck(u, d, Visit(NewTargetUse, d), error, annexB); SuperFound(e, d, error, annexB);
    case Await(_) => OneCheck(u, d, Visit(AwaitUse, d), error, annexB); AwaitFound(e, d, error, annexB);
    case Yield(_) => OneCheck(u, d, Visit(YieldUse, d), error, annexB); AwaitFound(e, d, error, annexB);
    case EvalCall(_, _) => OneCheck(u, d, Visit(IdUse(EVAL), d), error, annexB); NamesFound(e, d, error, annexB);
    case _ => NoCheck(u, d, error, annexB); NothingWrong(e, d, error, annexB);
  }

  lemma NothingWrong(e: Expr, d: Chain, error: Error, annexB: bool)
    requires e.Leaf? || e.Compound? || e.Assign? || e.FunctionExpr? || e.Arrow? || e.ObjectMethod? || e.ClassExpr?
    ensures !IsWrong(error, ExprNode(e), d, annexB)
  {
    hide ArgumentsAllowed, InStrict, InClass, SuperHome, NearestNonArrow, InParameters, NearestFunction;
    hide PrivateDeclared;
  }

  lemma NamesFound(e: Expr, d: Chain, error: Error, annexB: bool)
    requires e.Id? || e.Binding? || e.EvalCall?
    ensures
      var site := if e.Id? then IdUse(e.name) else if e.Binding? then BindingUse(e.name) else IdUse(EVAL);
      error in SiteErrors(Visit(site, d), annexB) <==> IsWrong(error, ExprNode(e), d, annexB)
  {
    hide ArgumentsAllowed, InStrict;
  }

  lemma DeleteFound(e: Expr, d: Chain, error: Error, annexB: bool)
    requires e.Delete?
    ensures Finds(ExprNode(e), d, error, annexB) <==> IsWrong(error, ExprNode(e), d, annexB)
  {
    var kind := match e.operand case Id(_) => DeleteId case PrivateMember(_, _) => DeletePrivate case _ => DeleteOther;
    DeleteErrors(kind, e, d, error, annexB);
    hide Finds, IsWrong, SiteErrors;
    OneCheck(ExprNode(e), d, Visit(DeleteUse(kind), d), error, annexB);
  }

  lemma DeleteErrors(kind: DeleteKind, e: Expr, d: Chain, error: Error, annexB: bool)
    requires e.Delete? && (kind.DeleteId? <==> e.operand.Id?) && (kind.DeletePrivate? <==> e.operand.PrivateMember?)
    ensures error in SiteErrors(Visit(DeleteUse(kind), d), annexB) <==> IsWrong(error, ExprNode(e), d, annexB)
  {
    hide InStrict;
  }

  lemma PrivateFound(e: Expr, d: Chain, error: Error, annexB: bool)
    requires e.PrivateMember? || e.PrivateIn?
    ensures Finds(ExprNode(e), d, error, annexB) <==> IsWrong(error, ExprNode(e), d, annexB)
  {
    hide Finds, InClass, PrivateDeclared;
    OneCheck(ExprNode(e), d, Visit(PrivateUse(e.name), d), error, annexB);
  }

  lemma SuperFound(e: Expr, d: Chain, error: Error, annexB: bool)
    requires e.SuperMember? || e.SuperCall? || e.NewTarget?
    ensures
      var site := if e.SuperMember? then SuperUse else if e.SuperCall? then SuperCallUse else NewTargetUse;
      error in SiteErrors(Visit(site, d), annexB) <==> IsWrong(error, ExprNode(e), d, annexB)
  {
    hide SuperHome, NearestNonArrow;
  }

  lemma AwaitFound(e: Expr, d: Chain, error: Error, annexB: bool)
    requires e.Await? || e.Yield?
    ensures
      var site := if e.Await? then AwaitUse else YieldUse;
      error in SiteErrors(Visit(site, d), annexB) <==> IsWrong(error, ExprNode(e), d, annexB)
  {
    hide InParameters, NearestFunction;
  }

  // Statements.

  /** The checks of statement bodies: none, one, or two for the branches of an `if`. */
  lemma EmbeddedErrors(s: Stmt, labeled: bool, place: Chain, d: Chain, error: Error, annexB: bool)
    requires InStrict(place) == InStrict(d)
    ensures
      error in SiteErrors(Visit(Embedded(labeled), place), annexB)
      <==> labeled && !InStrict(d) && error == InvalidLabeledFunction(false)
  {
    hide InStrict;
  }

  lemma IfFound(s: Stmt, d: Chain, error: Error, annexB: bool)
    requires s.If?
    ensures Finds(StmtNode(s), d, error, annexB) <==> IsWrong(error, StmtNode(s), d, annexB)
  {
    hide SiteErrors, LabelsFunction, InStrict, Finds;
    var v := Visit(Embedded(LabelsFunction(s.conseq)), d);
    EmbeddedErrors(s, LabelsFunction(s.conseq), d, d, error, annexB);
    if s.altern.Some? {
      EmbeddedErrors(s, LabelsFunction(s.altern.value), d, d, error, annexB);
      TwoChecks(StmtNode(s), d, v, Visit(Embedded(LabelsFunction(s.altern.value)), d), error, annexB);
    } else {
      OneCheck(StmtNode(s), d, v, error, annexB);
    }
    hide Checks;
  }

  lemma LoopFound(s: Stmt, d: Chain, error: Error, annexB: bool)
    requires s.Loop?
    ensures Finds(StmtNode(s), d, error, annexB) <==> IsWrong(error, StmtNode(s), d, annexB)
  {
    assert InStrict(In(LoopBody, d)) == InStrict(d);
    hide SiteErrors, LabelsFunction, InStrict, Finds;
    EmbeddedErrors(s, LabelsFunction(s.loopBody), In(LoopBody, d), d, error, annexB);
    OneCheck(StmtNode(s), d, Visit(Embedded(LabelsFunction(s.loopBody)), In(LoopBody, d)), error, annexB);
  }

  lemma WithFound(s: Stmt, d: Chain, error: Error, annexB: bool)
    requires s.With?
    ensures Finds(StmtNode(s), d, error, annexB) <==> IsWrong(error, StmtNode(s), d, annexB)
  {
    assert error in SiteErrors(Visit(WithUse, d), annexB) <==> error == WithInStrictMode && InStrict(d);
    hide SiteErrors, LabelsFunction, InStrict, Finds;
    EmbeddedErrors(s, LabelsFunction(s.withBody), d, d, error, annexB);
    TwoChecks(StmtNode(s), d, Visit(WithUse, d), Visit(Embedded(LabelsFunction(s.withBody)), d), error, annexB);
    hide Checks;
  }

  lemma JumpErrors(s: Stmt, d: Chain, error: Error, annexB: bool)
    requires s.Return? || s.Break? || s.Continue?
    ensures
      var name := if !s.Return? && s.target.Some? then Some(s.target.value.name) else None;
      var site := if s.Return? then ReturnUse else if s.Break? then BreakUse(name) else ContinueUse(name);
      error in SiteErrors(Visit(site, d), annexB) <==> IsWrong(error, StmtNode(s), d, annexB)
  {
    hide ReturnAllowed, InBreakable, InIterable, FindLabel, ContinueTarget, InStrict, LabelsFunction;
  }

  lemma StmtFinds(s: Stmt, d: Chain, error: Error, annexB: bool)
    ensures Finds(StmtNode(s), d, error, annexB) <==> IsWrong(error, StmtNode(s), d, annexB)
  {
    var u := StmtNode(s);
    if s.If? {
      IfFound(s, d, error, annexB);
    } else if s.Loop? {
      LoopFound(s, d, error, annexB);
    } else if s.With? {
      WithFound(s, d, error, annexB);
    } else if s.Return? || s.Break? || s.Continue? {
      JumpErrors(s, d, error, annexB);
      var name := if !s.Return? && s.target.Some? then Some(s.target.value.name) else None;
      var site := if s.Return? then ReturnUse else if s.Break? then BreakUse(name) else ContinueUse(name);
      hide Finds, SiteErrors, IsWrong;
      OneCheck(u, d, Visit(site, d), error, annexB);
    } else {
      NoCheck(u, d, error, annexB);
      hide Finds, SiteErrors;
    }
  }

  // Labels, functions and classes.

  lemma LabelErrors(s: Stmt, before: seq<Name>, d: Chain, error: Error, annexB: bool)
    requires s.Labeled?
    ensures
      error in SiteErrors(Visit(LabelDef(s.tag.name, s.inner.FuncDecl?), In(LabelSet(before, OnOther), d)), annexB)
      <==> IsWrong(error, LabelsNode(s, before), d, annexB)
  {
  }

  lemma LabelsFind(s: Stmt, before: seq<Name>, d: Chain, error: Error, annexB: bool)
    ensures Finds(LabelsNode(s, before), d, error, annexB) <==> IsWrong(error, LabelsNode(s, before), d, annexB)
  {
    var u := LabelsNode(s, before);
    if s.Labeled? {
      var names := before + [s.tag.name];
      var v := Visit(LabelDef(s.tag.name, s.inner.FuncDecl?), In(LabelSet(before, OnOther), d));
      var w := Visit(ContinueTargets(names), In(LabelSet(names, BelowLabels(s.inner)), d));
      LabelErrors(s, before, d, error, annexB);
      assert SiteErrors(w, annexB) == [];
      hide SiteErrors, IsWrong, Finds;
      if s.inner.Loop? || s.inner.Switch? {
        TwoChecks(u, d, v, w, error, annexB);
      } else {
        OneCheck(u, d, v, error, annexB);
      }
    } else {
      NoCheck(u, d, error, annexB);
      hide Finds;
    }
  }

  lemma NameErrors(name: Name, d: Chain, error: Error, annexB: bool)
    ensures
      error in SiteErrors(Visit(NameDef(name), d), annexB) <==>
        InStrict(d) && (|| (name == Name("eval") && error == AssignEvalInStrictMode)
                        || (name == Name("arguments") && error == AssignArgumentsInStrictMode))
  {
    hide InStrict;
  }

  lemma ParamErrors(f: Func, info: FuncInfo, d: Chain, error: Error, annexB: bool)
    ensures
      var site, strict := ParamList(f.hasUseStrict, f.simpleParams, f.duplicateParams), f.isStrict || InStrict(d);
      error in SiteErrors(Visit(site, In(Function(info, f.isStrict), d)), annexB) <==>
        (error.UseStrictFunctionNonSimpleParameterList? || error.InvalidDuplicateParameters?)
        && IsWrong(error, FuncNode(f, info), d, annexB)
  {
    var fc := In(Function(info, f.isStrict), d);
    assert InStrict(fc) == (f.isStrict || InStrict(d)) && NearestFunction(fc) == Some(info);
    hide InStrict, NearestFunction;
  }

  lemma FuncFinds(f: Func, info: FuncInfo, d: Chain, error: Error, annexB: bool)
    ensures Finds(FuncNode(f, info), d, error, annexB) <==> IsWrong(error, FuncNode(f, info), d, annexB)
  {
    var u, fc := FuncNode(f, info), In(Function(info, f.isStrict), d);
    var params := Visit(ParamList(f.hasUseStrict, f.simpleParams, f.duplicateParams), fc);
    assert InStrict(fc) == (f.isStrict || InStrict(d));
    ParamErrors(f, info, d, error, annexB);
    hide SiteErrors, InStrict, Finds;
    if !info.isMethod && f.id.Some? {
      NameErrors(f.id.value, fc, error, annexB);
      TwoChecks(u, d, Visit(NameDef(f.id.value), fc), params, error, annexB);
    } else {
      OneCheck(u, d, params, error, annexB);
    }
    hide Checks;
  }

  lemma PrivateNameErrors(k: Class, d: Chain, error: Error, annexB: bool)
    ensures
      error in SiteErrors(Visit(PrivateDefs(k.elements), d), annexB) <==>
        (error.PrivateNameConstructor? || error.DuplicatePrivateName?) && IsWrong(error, ClassNode(k), d, annexB)
  {
    PrivateErrorsMeaning(k.elements, error);
    hide PrivateErrors, DeclaredOnce;
  }

  lemma ClassFinds(k: Class, d: Chain, error: Error, annexB: bool)
    ensures Finds(ClassNode(k), d, error, annexB) <==> IsWrong(error, ClassNode(k), d, annexB)
  {
    hide SiteErrors, DeclaredOnce, Finds;
    var privates := Visit(PrivateDefs(k.elements), In(Heritage, d));
    PrivateNameErrors(k, In(Heritage, d), error, annexB);
    if k.id.Some? {
      NameErrors(k.id.value, In(Strict, d), error, annexB);
      TwoChecks(ClassNode(k), d, Visit(NameDef(k.id.value), In(Strict, d)), privates, error, annexB);
    } else {
      OneCheck(ClassNode(k), d, privates, error, annexB);
    }
    hide Checks;
  }

  /** The checks of a node find exactly what is wrong with it. */
  lemma NodeFinds(u: Node, d: Chain, error: Error, annexB: bool)
    ensures Finds(u, d, error, annexB) <==> IsWrong(error, u, d, annexB)
  {
    match u
    case ExprNode(e) => ExprFinds(e, d, error, annexB);
    case StmtNode(s) => StmtFinds(s, d, error, annexB);
    case LabelsNode(s, before) => LabelsFind(s, before, d, error, annexB);
    case FuncNode(f, info) => FuncFinds(f, info, d, error, annexB);
    case ClassNode(k) => ClassFinds(k, d, error, annexB);
    case _ => NoCheck(u, d, error, annexB);
    hide Finds, IsWrong;
  }

  // Whole trees.

  lemma {:induction false} ErrorsAreOfVisits(log: seq<Visit>, error: Error, annexB: bool)
    ensures error in ErrorsOf(log, annexB) <==> exists v :: v in log && error in SiteErrors(v, annexB)
  {
    hide SiteErrors;
    if log != [] {
      var n := |log| - 1;
      ErrorsAreOfVisits(log[..n], error, annexB);
      assert log == log[..n] + [log[n]];
    }
  }

  lemma AccountedHasError(t: Node, c: Chain, v: Visit, error: Error, annexB: bool)
    requires Accounted(t, c, v) && error in SiteErrors(v, annexB)
    ensures HasError(t, c, error, annexB)
  {
    hide SiteErrors, Occurs, Checks, IsWrong;
    var u, d :| Occurs(t, c, u, d) && Checks(u, d, v);
    assert Finds(u, d, error, annexB);
    hide Finds;
    NodeFinds(u, d, error, annexB);
  }

  lemma ErrorIsAccounted(t: Node, c: Chain, u: Node, d: Chain, error: Error, annexB: bool) returns (v: Visit)
    requires Occurs(t, c, u, d) && IsWrong(error, u, d, annexB)
    ensures Accounted(t, c, v) && error in SiteErrors(v, annexB)
  {
    hide SiteErrors, Occurs, Checks, IsWrong;
    NodeFinds(u, d, error, annexB);
    v :| Checks(u, d, v) && error in SiteErrors(v, annexB);
  }

  /** The checks of a tree find exactly what is wrong with its nodes. */
  lemma TreeFinds(t: Node, c: Chain, log: seq<Visit>, error: Error, annexB: bool)
    requires forall v :: v in log <==> Accounted(t, c, v)
    ensures error in ErrorsOf(log, annexB) <==> HasError(t, c, error, annexB)
  {
    hide SiteErrors, Occurs, IsWrong, Accounted;
    ErrorsAreOfVisits(log, error, annexB);
    if v :| v in log && error in SiteErrors(v, annexB) {
      AccountedHasError(t, c, v, error, annexB);
    }
    if u, d :| Occurs(t, c, u, d) && IsWrong(error, u, d, annexB) {
      var v := ErrorIsAccounted(t, c, u, d, error, annexB);
    }
  }

  // What an analysis reports.

  /** A break to a label that no statement around it declares. */
  ghost predicate HasLostBreak(t: Node, c: Chain) {
    exists label_, d :: Occurs(t, c, StmtNode(Break(Some(label_))), d) && FindLabel(d, label_.name).None?
  }

  /**
    A list holds exactly the errors of a tree. Only a labelled continue may be missed, and only in a tree
    with a duplicate label.
   */
  ghost predicate Lists(errors: seq<Error>, t: Node, c: Chain, annexB: bool) {
    && (errors == [] <==> forall error :: !HasError(t, c, error, annexB))
    && (forall error | error != LabelNotFound :: error in errors <==> HasError(t, c, error, annexB))
    && (LabelNotFound in errors ==> HasError(t, c, LabelNotFound, annexB))
    && (HasLostBreak(t, c) ==> LabelNotFound in errors)
    && (LabelNotFound !in errors && HasError(t, c, LabelNotFound, annexB) ==> DuplicateLabel in errors)
  }

  /** An await outside of all functions and classes. */
  ghost predicate HasOuterAwait(t: Node, c: Chain) {
    exists e, d :: Occurs(t, c, ExprNode(Await(e)), d) && NearestFunction(d).None? && !InClass(d)
  }

  lemma LostBreakIsVisited(t: Node, c: Chain) returns (v: Visit)
    requires HasLostBreak(t, c)
    ensures Accounted(t, c, v) && v.site.BreakUse? && forall annexB :: LabelNotFound in SiteErrors(v, annexB)
  {
    var label_, d :| Occurs(t, c, StmtNode(Break(Some(label_))), d) && FindLabel(d, label_.name).None?;
    v := Visit(BreakUse(Some(label_.name)), d);
    hide Occurs;
    assert Checks(StmtNode(Break(Some(label_))), d, v);
  }

  lemma OuterAwaitIsVisited(t: Node, c: Chain)
    ensures
      HasOuterAwait(t, c)
      <==> exists v :: Accounted(t, c, v) && v.site.AwaitUse? && AtTopLevel(v.at)
  {
    hide Occurs, NearestFunction, InClass;
    if e, d :| Occurs(t, c, ExprNode(Await(e)), d) && NearestFunction(d).None? && !InClass(d) {
      assert Checks(ExprNode(Await(e)), d, Visit(AwaitUse, d));
      assert Accounted(t, c, Visit(AwaitUse, d)) && AtTopLevel(Visit(AwaitUse, d).at);
    }
    if v :| Accounted(t, c, v) && v.site.AwaitUse? && AtTopLevel(v.at) {
      var u, d :| Occurs(t, c, u, d) && Checks(u, d, v);
      AwaitCheck(u, d, v);
      assert Occurs(t, c, ExprNode(Await(u.expr.argument)), d);
    }
  }

  lemma AwaitCheck(u: Node, d: Chain, v: Visit)
    requires Checks(u, d, v) && v.site.AwaitUse?
    ensures u.ExprNode? && u.expr.Await? && v.at == d
  {
  }
}
