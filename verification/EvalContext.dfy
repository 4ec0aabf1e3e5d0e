/**
  What a direct eval knows of its caller.

  The analyzer records at every possible direct eval which kind of function surrounds it, and later
  analyzes the evaluated code from that record. The lemma compares the two analyses.
 */
module EvalContext {
  import opened Analyze
  import opened AnalyzerState
  import opened Ast
  import opened Context
  import opened Options
  import opened PrivateNames
  import opened Sites

  /** Arrow functions are never methods or initializers. */
  predicate ProperArrows(c: Chain) {
    c.In? ==>
      && (c.frame.Function? && c.frame.info.isArrow ==> !c.frame.info.isMethod && !c.frame.info.isStaticInitializer)
      && (c.frame.Function? ==> !c.frame.info.isFieldInitializer)
      && ProperArrows(c.outer)
  }

  /** The start of evaluated code, from the flags that the context of a call holds. */
  function StartOfContext(context: Option<FuncInfo>, privates: Option<map<Name, Usage>>): Start {
    match context
    case None => EvalStart(privates, false, false, false, false, false, false)
    case Some(f) =>
      EvalStart(privates, true, f.isMethod, f.isStatic, f.isDerivedConstructor, f.isStaticInitializer,
                f.isFieldInitializer)
  }

  /** Where evaluated code starts when the analyzer has annotated its call at place `c`. */
  function StartAtCall(c: Chain, privates: Option<map<Name, Usage>>): Start {
    StartOfContext(AnnotateCall(EvalCall([], None), c).context, privates)
  }

  lemma {:induction false} NonArrowFound(c: Chain)
    ensures NearestNonArrow(c).Some? ==> !NearestNonArrow(c).value.isArrow
  {
    if c.In? { NonArrowFound(c.outer); }
  }

  /** The flags carry all that matters of the nearest non-arrow function. */
  lemma StartRecordsCaller(c: Chain, privates: Option<map<Name, Usage>>)
    ensures
      var start := StartAtCall(c, privates);
      && start.Eval? && start.privates == privates && start.caller == NearestNonArrow(c)
      && start.inFieldInitializer == (NearestNonArrow(c).Some? && NearestNonArrow(c).value.isFieldInitializer)
  {
    NonArrowFound(c);
  }

  /** The home object of an ordinary place: that of the nearest non-arrow function, static if the function is. */
  lemma {:induction false} HomeMeaning(c: Chain)
    requires StartOf(c).Ordinary? && ProperArrows(c) && SuperHome(c).Some?
    ensures NearestNonArrow(c).Some?
    ensures
      var f := NearestNonArrow(c).value;
      SuperHome(c) == Some(f.isStatic || f.isStaticInitializer)
  {
    if c.In? && SuperHome(c.outer).Some? { HomeMeaning(c.outer); }
  }

  /**
    Super members, super calls and new.target are allowed in evaluated code exactly where they would be
    allowed in its place. They refer to the same home object except directly within a static
    initializer that is not flagged as static. `arguments` is allowed as in its place, except directly
    within a static initializer, where only the evaluated code may use it.
   */
  lemma {:induction false} EvalAgrees(c: Chain, privates: Option<map<Name, Usage>>)
    requires StartOf(c).Ordinary? && ProperArrows(c)
    ensures
      var e, f := Root(StartAtCall(c, privates)), NearestNonArrow(c);
      && NearestNonArrow(e) == f
      && (SuperHome(e).Some? <==> SuperHome(c).Some?)
      && (SuperHome(e) == SuperHome(c)
          <==> !(SuperHome(c).Some? && f.Some? && f.value.isStaticInitializer && !f.value.isStatic))
      && (ArgumentsAllowed(e) == ArgumentsAllowed(c) <==> !(f.Some? && f.value.isStaticInitializer))
  {
    hide StartAtCall;
    StartRecordsCaller(c, privates);
    if SuperHome(c).Some? { HomeMeaning(c); }
    if c.In? {
      StartRecordsCaller(c.outer, privates);
      EvalAgrees(c.outer, privates);
    }
  }

  /** `class { static { .. } }`; the parser does not flag a static initializer as static. */
  const INITIALIZER: Element :=
    Method(StaticInitializer, Named(Name("")), false, Func(None, [], BlockBody([]), true, false, true, false), false)

  /** The place of a call directly in it. */
  function InInitializer(): Chain {
    FuncPlace(INITIALIZER.func, MethodInfo(INITIALIZER, false),
              ClassPlace(Class(None, None, [INITIALIZER]), Root(Ordinary)))
  }

  /** There the evaluated code may use `arguments`, which its place may not. */
  lemma ArgumentsInEvaluatedInitializer()
    ensures
      var c := InInitializer();
      StartOf(c).Ordinary? && ProperArrows(c) && !ArgumentsAllowed(c) && ArgumentsAllowed(Root(StartAtCall(c, None)))
  {
  }

  /** And its super members refer to the home object of instances instead of that of the class. */
  lemma HomeInEvaluatedInitializer()
    ensures
      var c := InInitializer();
      StartOf(c).Ordinary? && ProperArrows(c)
      && SuperHome(c) == Some(true) && SuperHome(Root(StartAtCall(c, None))) == Some(false)
  {
  }
}
