/** What an analysis says about the nodes that occur in a tree, kind by kind. */
module Verdicts {
  import opened Analyze
  import opened Annotations
  import opened Ast
  import opened BareTrees
  import opened Context
  import opened EarlyErrors
  import opened Occurrences
  import opened Options
  import opened ParseErrors
  import opened Searches
  import opened Sites

  predicate Rejects<T>(r: Result<T>, error: Error) {
    r.Rejected? && error in r.errors
  }

  /** A tree with a wrong node is rejected. */
  lemma WrongIsRejected<T>(r: Result<T>, t: Node, c: Chain, u: Node, d: Chain, error: Error, annexB: bool)
    requires Judges(r, t, c, annexB) && Occurs(t, c, u, d) && IsWrong(error, u, d, annexB)
    ensures r.Rejected? && (error != LabelNotFound ==> Rejects(r, error))
  {
    hide Occurs, IsWrong, HasLostBreak;
    assert HasError(t, c, error, annexB);
  }

  /** Nothing else is: a listed error is that of a node which occurs. */
  lemma ListedIsWrong<T>(r: Result<T>, t: Node, c: Chain, error: Error, annexB: bool) returns (u: Node, d: Chain)
    requires Judges(r, t, c, annexB) && Rejects(r, error)
    ensures Occurs(t, c, u, d) && IsWrong(error, u, d, annexB)
  {
    hide Occurs, IsWrong, HasLostBreak;
    u, d :| Occurs(t, c, u, d) && IsWrong(error, u, d, annexB);
  }

  lemma StatementsAreJudged<T>(r: Result<T>, t: Node, c: Chain, s: Stmt, d: Chain, annexB: bool)
    requires Judges(r, t, c, annexB) && Occurs(t, c, StmtNode(s), d)
    ensures s.With? && InStrict(d) ==> Rejects(r, WithInStrictMode)
    ensures s.Return? && !ReturnAllowed(d) ==> Rejects(r, ReturnOutsideFunction)
    ensures s == Break(None) && !InBreakable(d) ==> Rejects(r, UnlabeledBreakOutsideBreakable)
    ensures s.Break? && s.target.Some? && FindLabel(d, s.target.value.name).None? ==> Rejects(r, LabelNotFound)
    ensures s.Continue? && !InIterable(d) ==> Rejects(r, ContinueOutsideIterable)
  {
    hide Judges, Occurs, InStrict, ReturnAllowed, InBreakable, InIterable;
    var u := StmtNode(s);
    if s.With? && InStrict(d) { WrongIsRejected(r, t, c, u, d, WithInStrictMode, annexB); }
    if s.Return? && !ReturnAllowed(d) { WrongIsRejected(r, t, c, u, d, ReturnOutsideFunction, annexB); }
    if s == Break(None) && !InBreakable(d) { WrongIsRejected(r, t, c, u, d, UnlabeledBreakOutsideBreakable, annexB); }
    if s.Break? && s.target.Some? && FindLabel(d, s.target.value.name).None? {
      LostBreakIsRejected(r, t, c, s.target.value, d, annexB);
    }
    if s.Continue? && !InIterable(d) { WrongIsRejected(r, t, c, u, d, ContinueOutsideIterable, annexB); }
  }

  lemma LostBreakIsRejected<T>(r: Result<T>, t: Node, c: Chain, l: Label, d: Chain, annexB: bool)
    requires Judges(r, t, c, annexB) && Occurs(t, c, StmtNode(Break(Some(l))), d) && FindLabel(d, l.name).None?
    ensures Rejects(r, LabelNotFound)
  {
    hide Occurs, HasError;
    assert HasLostBreak(t, c);
  }

  lemma ExpressionsAreJudged<T>(r: Result<T>, t: Node, c: Chain, e: Expr, d: Chain, annexB: bool)
    requires Judges(r, t, c, annexB) && Occurs(t, c, ExprNode(e), d)
    ensures e.SuperMember? && SuperHome(d).None? ==> Rejects(r, SuperPropertyOutsideMethod)
    ensures e.NewTarget? && NearestNonArrow(d).None? ==> Rejects(r, NewTargetOutsideFunction)
    ensures e.Await? && InParameters(d) ==> Rejects(r, AwaitInParameters)
    ensures e.Yield? && InParameters(d) ==> Rejects(r, YieldInParameters)
    ensures e.Delete? && e.operand.Id? && InStrict(d) ==> Rejects(r, DeleteIdentifierInStrictMode)
    ensures e.Delete? && e.operand.PrivateMember? && InStrict(d) ==> Rejects(r, DeletePrivateProperty)
    ensures (e.PrivateMember? || e.PrivateIn?) && !InClass(d) ==> Rejects(r, PrivateNameOutsideClass)
    ensures
      (e.PrivateMember? || e.PrivateIn?) && InClass(d) && !PrivateDeclared(d, e.name) ==>
        Rejects(r, PrivateNameNotDefined(e.name))
  {
    hide Judges, Occurs, InStrict, SuperHome, NearestNonArrow, InParameters, InClass, PrivateDeclared;
    var u := ExprNode(e);
    match e
    case SuperMember(_, _) =>
      if SuperHome(d).None? { WrongIsRejected(r, t, c, u, d, SuperPropertyOutsideMethod, annexB); }
    case NewTarget =>
      if NearestNonArrow(d).None? { WrongIsRejected(r, t, c, u, d, NewTargetOutsideFunction, annexB); }
    case Await(_) =>
      if InParameters(d) { WrongIsRejected(r, t, c, u, d, AwaitInParameters, annexB); }
    case Yield(_) =>
      if InParameters(d) { WrongIsRejected(r, t, c, u, d, YieldInParameters, annexB); }
    case Delete(x) =>
      if x.Id? && InStrict(d) { WrongIsRejected(r, t, c, u, d, DeleteIdentifierInStrictMode, annexB); }
      if x.PrivateMember? && InStrict(d) { WrongIsRejected(r, t, c, u, d, DeletePrivateProperty, annexB); }
    case PrivateMember(_, name) => PrivateUseIsJudged(r, t, c, e, d, annexB);
    case PrivateIn(name, _) => PrivateUseIsJudged(r, t, c, e, d, annexB);
    case _ =>
  }

  lemma PrivateUseIsJudged<T>(r: Result<T>, t: Node, c: Chain, e: Expr, d: Chain, annexB: bool)
    requires Judges(r, t, c, annexB) && Occurs(t, c, ExprNode(e), d) && (e.PrivateMember? || e.PrivateIn?)
    ensures !InClass(d) ==> Rejects(r, PrivateNameOutsideClass)
    ensures InClass(d) && !PrivateDeclared(d, e.name) ==> Rejects(r, PrivateNameNotDefined(e.name))
  {
    hide Judges, Occurs, InClass, PrivateDeclared;
    if !InClass(d) {
      WrongIsRejected(r, t, c, ExprNode(e), d, PrivateNameOutsideClass, annexB);
    } else if !PrivateDeclared(d, e.name) {
      WrongIsRejected(r, t, c, ExprNode(e), d, PrivateNameNotDefined(e.name), annexB);
    }
  }

  // Methods.

  /** The place `inside` is that of the body of a method of the class at `c`. */
  ghost predicate IsMethodBody(k: Class, c: Chain, m: Element, inside: Chain) {
    m.Method? && exists e, info ::
      && Step(ClassNode(k), c, ElementNode(m, k.heritage.Some?), e)
      && Step(ElementNode(m, k.heritage.Some?), e, FuncNode(m.func, info), e)
      && Step(FuncNode(m.func, info), e, BodyNode(m.func.body), inside)
  }

  /**
    A super call is right exactly in the constructor of a class with a heritage. Super members refer to
    the class itself in static methods and static initializers, and to its instances elsewhere. All of
    this holds within arrow functions as well. A method may return, a static initializer may not.
   */
  lemma {:induction false} MethodMeaning(k: Class, c: Chain, m: Element, inside: Chain, d: Chain)
    requires IsMethodBody(k, c, m, inside) && ThroughArrows(d, inside)
    ensures
      NearestNonArrow(d).Some? && NearestNonArrow(d).value.isDerivedConstructor
      <==> m.kind == Constructor && k.heritage.Some?
    ensures SuperHome(d) == Some(m.isStatic || m.kind == StaticInitializer)
    ensures SameBody(d, inside) ==> (ReturnAllowed(d) <==> m.kind != StaticInitializer)
  {
    if d != inside {
      MethodMeaning(k, c, m, inside, d.outer);
      hide IsMethodBody;
    }
  }

  lemma SuperCallIsFound(d: Chain, annexB: bool)
    ensures
      SiteErrors(Visit(SuperCallUse, d), annexB) == []
      <==> NearestNonArrow(d).Some? && NearestNonArrow(d).value.isDerivedConstructor
  {
    hide NearestNonArrow;
  }

  /** So a super call in any other method rejects the tree. */
  lemma SuperCallIsJudged<T>(
    r: Result<T>, t: Node, root: Chain, k: Class, c: Chain, m: Element, inside: Chain, args: seq<Expr>, d: Chain,
    annexB: bool)
    requires Judges(r, t, root, annexB)
    requires Occurs(t, root, ClassNode(k), c) && IsMethodBody(k, c, m, inside)
    requires Occurs(ClassNode(k), c, ExprNode(SuperCall(args)), d) && ThroughArrows(d, inside)
    ensures
      !IsWrong(SuperCallOutsideDerivedConstructor, ExprNode(SuperCall(args)), d, annexB)
      <==> m.kind == Constructor && k.heritage.Some?
    ensures !(m.kind == Constructor && k.heritage.Some?) ==> Rejects(r, SuperCallOutsideDerivedConstructor)
  {
    MethodMeaning(k, c, m, inside, d);
    OccursTransitively(t, root, ClassNode(k), c, ExprNode(SuperCall(args)), d);
    hide Judges, Occurs, IsMethodBody, NearestNonArrow;
    if !(m.kind == Constructor && k.heritage.Some?) {
      WrongIsRejected(r, t, root, ExprNode(SuperCall(args)), d, SuperCallOutsideDerivedConstructor, annexB);
    }
  }

  // Accepted programs.

  /** An accepted program is the analyzed one, with the annotations that its places determine. */
  lemma AcceptedProgram(r: Result<Program>, p: Program, start: Start, annexB: bool)
    requires Correct(r, ProgramSites(p, start), AnnotateProgram(p, start), annexB) && r.Accepted?
    ensures r.tree.isStrict == p.isStrict && BareStmts(r.tree.body) == BareStmts(p.body)
    ensures forall u, d | Occurs(ProgramNode(r.tree), Root(start), u, d) :: Carries(u, d)
  {
    hide AnnotateProgram, ProgramSites, BareStmts, Occurs, Carries;
    ProgramKept(p, start);
    forall u, d | Occurs(ProgramNode(r.tree), Root(start), u, d)
      ensures Carries(u, d)
    {
      ProgramCarries(p, start, u, d);
    }
  }
}
