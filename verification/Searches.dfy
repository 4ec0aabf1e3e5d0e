/**
  What the searches along a chain answer, in terms of the places around a place: which of them can be
  seen through the constructs between.
 */
module Searches {
  import opened Ast
  import opened Context
  import opened LabelHistory
  import opened Options
  import PrivateNames

  /** `o` is around `c` with no function or class between. */
  predicate Unbroken(c: Chain, o: Chain) {
    || c == o
    || (c.In? && !c.frame.Function? && !c.frame.Heritage? && !c.frame.ClassBody? && Unbroken(c.outer, o))
  }

  /** `o` is around `c` with no function between. */
  predicate SameBody(c: Chain, o: Chain) {
    c == o || (c.In? && !c.frame.Function? && SameBody(c.outer, o))
  }

  /** `o` is around `c` with no function or initializer of a field between, but for arrow functions. */
  predicate ThroughArrows(c: Chain, o: Chain) {
    || c == o
    || (c.In? && (c.frame.Function? ==> c.frame.info.isArrow) && !c.frame.FieldInit? && ThroughArrows(c.outer, o))
  }

  /** `o` is around `c` with no function or initializer of a field between. */
  predicate SameCode(c: Chain, o: Chain) {
    c == o || (c.In? && !c.frame.Function? && !c.frame.FieldInit? && SameCode(c.outer, o))
  }

  /** Strict code: in a strict program, a strict function or a class. */
  lemma {:induction false} StrictMeaning(c: Chain)
    ensures
      InStrict(c) <==>
        exists f, o :: Within(c, In(f, o)) && (f == Strict || f == Heritage || f.ClassBody? || IsStrictFunction(f))
  {
    if c.In? {
      StrictMeaning(c.outer);
      assert Within(c, In(c.frame, c.outer));
    }
  }

  predicate IsStrictFunction(f: Frame) {
    f.Function? && f.isStrict
  }

  lemma {:induction false} BreakableMeaning(c: Chain)
    ensures InBreakable(c) <==> exists f, o :: Unbroken(c, In(f, o)) && (f == LoopBody || f == SwitchBody)
    ensures InIterable(c) <==> exists o :: Unbroken(c, In(LoopBody, o))
  {
    if c.In? {
      BreakableMeaning(c.outer);
      assert Unbroken(c, In(c.frame, c.outer));
    }
  }

  lemma {:induction false} LabelMeaning(c: Chain, name: Name)
    ensures
      FindLabel(c, name).Some?
      <==> exists names, target, o :: Unbroken(c, In(LabelSet(names, target), o)) && name in names
  {
    if c.In? {
      LabelMeaning(c.outer, name);
      assert Unbroken(c, In(c.frame, c.outer));
    }
  }

  lemma {:induction false} ParametersMeaning(c: Chain)
    ensures InParameters(c) <==> exists o :: SameBody(c, In(Parameters, o))
  {
    if c.In? {
      ParametersMeaning(c.outer);
      assert SameBody(c, In(c.frame, c.outer));
    }
  }

  /** A return belongs to the innermost function, which may be an arrow function but no static initializer. */
  lemma {:induction false} ReturnMeaning(c: Chain)
    ensures
      ReturnAllowed(c)
      <==> exists info, strict, o :: SameBody(c, In(Function(info, strict), o)) && !info.isStaticInitializer
  {
    if c.In? {
      ReturnMeaning(c.outer);
      assert SameBody(c, In(c.frame, c.outer));
    }
  }

  /** An initializer of a field counts as a method, static or not, and as a field initializer. */
  predicate IsFieldInfo(info: FuncInfo, isStatic: bool) {
    info == FuncInfo(false, true, isStatic, false, false, true)
  }

  /** The function or field initializer whose code this is; code of a direct eval belongs to the caller of it. */
  lemma {:induction false} FunctionMeaning(c: Chain, info: FuncInfo)
    ensures
      NearestFunction(c) == Some(info) <==>
        || (exists strict, o :: SameCode(c, In(Function(info, strict), o)))
        || (exists isStatic, o :: SameCode(c, In(FieldInit(isStatic), o)) && IsFieldInfo(info, isStatic))
        || (exists start :: SameCode(c, Root(start)) && start.Eval? && start.caller == Some(info))
  {
    if c.In? {
      FunctionMeaning(c.outer, info);
      assert SameCode(c, In(c.frame, c.outer));
    } else {
      assert SameCode(c, Root(c.start));
    }
  }

  /** The same, seen through arrow functions. */
  lemma {:induction false} NonArrowMeaning(c: Chain, info: FuncInfo)
    ensures
      NearestNonArrow(c) == Some(info) <==>
        || (!info.isArrow && exists strict, o :: ThroughArrows(c, In(Function(info, strict), o)))
        || (exists isStatic, o :: ThroughArrows(c, In(FieldInit(isStatic), o)) && IsFieldInfo(info, isStatic))
        || (exists start :: ThroughArrows(c, Root(start)) && start.Eval? && start.caller == Some(info))
  {
    if c.In? {
      NonArrowMeaning(c.outer, info);
      assert ThroughArrows(c, In(c.frame, c.outer));
    } else {
      assert ThroughArrows(c, Root(c.start));
    }
  }

  /** A static home object belongs to static methods, static initializers and initializers of static fields. */
  lemma {:induction false} HomeMeaning(c: Chain, isStatic: bool)
    ensures
      SuperHome(c) == Some(isStatic) <==>
        || (exists info, strict, o :: ThroughArrows(c, In(Function(info, strict), o)) && !info.isArrow
              && info.isMethod && isStatic == (info.isStatic || info.isStaticInitializer))
        || (exists o :: ThroughArrows(c, In(FieldInit(isStatic), o)))
        || (exists start :: ThroughArrows(c, Root(start)) && start.Eval? && start.caller.Some?
              && (start.caller.value.isMethod || start.caller.value.isFieldInitializer)
              && isStatic == start.caller.value.isStatic)
  {
    if c.In? {
      HomeMeaning(c.outer, isStatic);
      assert ThroughArrows(c, In(c.frame, c.outer));
    } else {
      assert ThroughArrows(c, Root(c.start));
    }
  }

  /** `arguments` is forbidden in field initializers and static initializers, arrow functions in them included. */
  lemma {:induction false} ArgumentsMeaning(c: Chain)
    ensures
      !ArgumentsAllowed(c) <==>
        || (exists isStatic, o :: ThroughArrows(c, In(FieldInit(isStatic), o)))
        || (exists info, strict, o :: ThroughArrows(c, In(Function(info, strict), o)) && info.isStaticInitializer)
        || (exists start :: ThroughArrows(c, Root(start)) && start.Eval? && start.inFieldInitializer)
  {
    if c.In? {
      ArgumentsMeaning(c.outer);
      assert ThroughArrows(c, In(c.frame, c.outer));
    } else {
      assert ThroughArrows(c, Root(c.start));
    }
  }

  /** A private name may be used within the body of any class that declares it, however deeply nested. */
  lemma {:induction false} PrivateMeaning(c: Chain, name: Name)
    ensures
      InClass(c) <==>
        || (exists els, isDerived, o :: Within(c, In(ClassBody(els, isDerived), o)))
        || (exists start :: Within(c, Root(start)) && start.Eval? && start.privates.Some?)
    ensures
      PrivateDeclared(c, name) <==>
        || (exists els, isDerived, o :: Within(c, In(ClassBody(els, isDerived), o)) && IsDeclared(els, name))
        || (exists start :: Within(c, Root(start)) && start.Eval? && start.privates.Some?
              && name in start.privates.value)
  {
    if c.In? {
      PrivateMeaning(c.outer, name);
      assert Within(c, In(c.frame, c.outer));
    } else {
      assert Within(c, Root(c.start));
    }
  }

  ghost predicate IsDeclared(els: seq<Element>, name: Name) {
    exists i :: PrivateNames.Declares(els, i, name)
  }
}
