/**
  The analyzer's state as a function of a place, and why its counters, stacks and label map answer
  the same questions as a search along the chain.
 */
module AnalyzerState {
  import opened Ast
  import opened ParseErrors
  import opened PrivateNames
  import opened Context
  import opened Labels
  import opened Options

  datatype ClassEntry = ClassEntry(privateNames: map<Name, Usage>, isDerived: bool)

  datatype SuperEntry = Allow(isStatic: bool) | Disallow

  function LabelMap(c: Chain): map<Name, LabelInfo> {
    if c.Root? || IsBoundary(c.frame) then map[]
    else if c.frame.LabelSet? then
      AddLabels(LabelMap(c.outer), c.frame.names, LabelInfo(LabelId(c), !c.frame.target.OnOther?))
    else LabelMap(c.outer)
  }

  function BreakableDepth(c: Chain): nat {
    if c.Root? || IsBoundary(c.frame) then 0
    else (if c.frame.LoopBody? || c.frame.SwitchBody? then 1 else 0) + BreakableDepth(c.outer)
  }

  function IterableDepth(c: Chain): nat {
    if c.Root? || IsBoundary(c.frame) then 0
    else (if c.frame.LoopBody? then 1 else 0) + IterableDepth(c.outer)
  }

  function StrictDepth(c: Chain): nat {
    if c.Root? then 0
    else
      (match c.frame
       case Strict => 1
       case Function(_, strict) => if strict then 1 else 0
       case Heritage => 1
       case ClassBody(_, _) => 1
       case _ => 0) + StrictDepth(c.outer)
  }

  function FunctionStack(c: Chain): seq<FuncInfo> {
    match c
    case Root(Ordinary) => []
    case Root(Eval(_, caller, _)) => if caller.Some? then [caller.value] else []
    case In(Function(info, _), outer) => FunctionStack(outer) + [info]
    case In(FieldInit(isStatic), outer) => FunctionStack(outer) + [FieldInfo(isStatic)]
    case In(_, outer) => FunctionStack(outer)
  }

  function ClassStack(c: Chain): seq<ClassEntry> {
    match c
    case Root(Ordinary) => []
    case Root(Eval(privates, _, _)) => if privates.Some? then [ClassEntry(privates.value, false)] else []
    case In(ClassBody(els, isDerived), outer) => ClassStack(outer) + [ClassEntry(Usages(els), isDerived)]
    case In(_, outer) => ClassStack(outer)
  }

  function ReturnStack(c: Chain): (r: seq<bool>)
    ensures |r| > 0
  {
    match c
    case Root(_) => [false]
    case In(Function(info, _), outer) => ReturnStack(outer) + [!info.isStaticInitializer]
    case In(_, outer) => ReturnStack(outer)
  }

  function SuperStack(c: Chain): seq<SuperEntry> {
    match c
    case Root(Ordinary) => []
    case Root(Eval(_, caller, _)) =>
      if caller.Some? && (caller.value.isMethod || caller.value.isFieldInitializer)
      then [Allow(caller.value.isStatic)] else []
    case In(Function(info, _), outer) => if info.isArrow then SuperStack(outer) else SuperStack(outer) + [SuperOf(info)]
    case In(FieldInit(isStatic), outer) => SuperStack(outer) + [Allow(isStatic)]
    case In(_, outer) => SuperStack(outer)
  }

  function SuperOf(info: FuncInfo): SuperEntry {
    if info.isMethod then Allow(info.isStatic || info.isStaticInitializer) else Disallow
  }

  function ParametersStack(c: Chain): seq<bool> {
    if c.Root? then []
    else if c.frame.Function? then ParametersStack(c.outer) + [false]
    else if c.frame.Parameters? then ParametersStack(c.outer) + [true]
    else ParametersStack(c.outer)
  }

  /** Everything in the analyzer's state that a place determines, apart from the label map. */
  datatype State = State(
    strictDepth: nat,
    labelDepth: nat,
    breakableDepth: nat,
    iterableDepth: nat,
    functionStack: seq<FuncInfo>,
    classStack: seq<ClassEntry>,
    allowArguments: bool,
    allowReturnStack: seq<bool>,
    superStack: seq<SuperEntry>,
    parametersStack: seq<bool>)

  function StateOf(c: Chain): State {
    State(StrictDepth(c), LabelId(c), BreakableDepth(c), IterableDepth(c), FunctionStack(c), ClassStack(c),
          ArgumentsAllowed(c), ReturnStack(c), SuperStack(c), ParametersStack(c))
  }

  /** No label is declared twice within a function or class around a place. */
  predicate DuplicateFree(c: Chain) {
    match c
    case Root(_) => true
    case In(LabelSet(names, _), outer) =>
      Distinct(names) && Disjoint(names, LabelMap(outer).Keys) && DuplicateFree(outer)
    case In(_, outer) => DuplicateFree(outer)
  }

  /** Only the label map and depth depend on a labelled statement. */
  lemma LabelSetState(names: seq<Name>, target: LabelTarget, c: Chain)
    ensures
      var id := (StateOf(c).labelDepth + 1) % LABEL_IDS;
      && StateOf(In(LabelSet(names, target), c)) == StateOf(c).(labelDepth := id)
      && id == LabelId(In(LabelSet(names, target), c)) == (LabelDepth(c) + 1) % LABEL_IDS
      && StateOf(c).labelDepth == (id + LABEL_IDS - 1) % LABEL_IDS
  {
    hide *;
    LabelSetKeeps(names, target, c);
    LabelSetId(names, target, c);
  }

  lemma LabelSetKeeps(names: seq<Name>, target: LabelTarget, c: Chain)
    ensures
      var inner := In(LabelSet(names, target), c);
      StateOf(inner) == StateOf(c).(labelDepth := LabelId(inner))
  {
    hide LabelId, SuperOf;
    var inner := In(LabelSet(names, target), c);
    assert StrictDepth(inner) == StrictDepth(c);
    assert FunctionStack(inner) == FunctionStack(c);
    assert ClassStack(inner) == ClassStack(c);
    assert ReturnStack(inner) == ReturnStack(c);
    assert SuperStack(inner) == SuperStack(c);
  }

  lemma LabelSetId(names: seq<Name>, target: LabelTarget, c: Chain)
    ensures
      var inner := LabelId(In(LabelSet(names, target), c));
      && inner == (LabelDepth(c) + 1) % LABEL_IDS == (StateOf(c).labelDepth + 1) % LABEL_IDS
      && StateOf(c).labelDepth == (inner + LABEL_IDS - 1) % LABEL_IDS
  {
    hide *;
    DepthAndId(c);
    DepthAndId(In(LabelSet(names, target), c));
    DepthInside(names, target, c);
    NextId(LabelDepth(c), StateOf(c).labelDepth, LabelId(In(LabelSet(names, target), c)));
  }

  lemma DepthInside(names: seq<Name>, target: LabelTarget, c: Chain)
    ensures LabelDepth(In(LabelSet(names, target), c)) == LabelDepth(c) + 1
  {
  }

  lemma DepthAndId(c: Chain)
    ensures StateOf(c).labelDepth == LabelId(c) == LabelDepth(c) % LABEL_IDS
  {
    hide LabelDepth;
  }

  lemma NextId(depth: nat, id: nat, inner: nat)
    requires id == depth % LABEL_IDS && inner == (depth + 1) % LABEL_IDS
    ensures inner == (id + 1) % LABEL_IDS && id == (inner + LABEL_IDS - 1) % LABEL_IDS
  {
  }

  // What the other frames change.

  lemma StrictState(c: Chain)
    ensures StateOf(In(Strict, c)) == StateOf(c).(strictDepth := StateOf(c).strictDepth + 1)
    ensures LabelMap(In(Strict, c)) == LabelMap(c) && DuplicateFree(In(Strict, c)) == DuplicateFree(c)
  {
  }

  lemma LoopState(c: Chain)
    ensures StateOf(In(LoopBody, c))
         == StateOf(c).(breakableDepth := StateOf(c).breakableDepth + 1, iterableDepth := StateOf(c).iterableDepth + 1)
    ensures LabelMap(In(LoopBody, c)) == LabelMap(c) && DuplicateFree(In(LoopBody, c)) == DuplicateFree(c)
  {
  }

  lemma SwitchState(c: Chain)
    ensures StateOf(In(SwitchBody, c)) == StateOf(c).(breakableDepth := StateOf(c).breakableDepth + 1)
    ensures LabelMap(In(SwitchBody, c)) == LabelMap(c) && DuplicateFree(In(SwitchBody, c)) == DuplicateFree(c)
  {
  }

  lemma ParametersState(c: Chain)
    ensures StateOf(In(Parameters, c)) == StateOf(c).(parametersStack := StateOf(c).parametersStack + [true])
    ensures LabelMap(In(Parameters, c)) == LabelMap(c) && DuplicateFree(In(Parameters, c)) == DuplicateFree(c)
  {
  }

  lemma FieldInitState(isStatic: bool, c: Chain)
    ensures
      var s := StateOf(c);
      StateOf(In(FieldInit(isStatic), c))
      == s.(functionStack := s.functionStack + [FieldInfo(isStatic)],
            superStack := s.superStack + [Allow(isStatic)], allowArguments := false)
    ensures
      LabelMap(In(FieldInit(isStatic), c)) == LabelMap(c)
      && DuplicateFree(In(FieldInit(isStatic), c)) == DuplicateFree(c)
  {
  }

  lemma HeritageState(c: Chain)
    ensures
      StateOf(In(Heritage, c))
      == StateOf(In(Strict, c)).(labelDepth := 0, breakableDepth := 0, iterableDepth := 0)
    ensures LabelMap(In(Heritage, c)) == map[] && DuplicateFree(In(Heritage, c)) == DuplicateFree(c)
  {
  }

  lemma ClassBodyState(els: seq<Element>, isDerived: bool, c: Chain)
    ensures
      var s := StateOf(In(Heritage, c));
      StateOf(In(ClassBody(els, isDerived), c))
      == s.(classStack := s.classStack + [ClassEntry(Usages(els), isDerived)])
    ensures
      LabelMap(In(ClassBody(els, isDerived), c)) == map[]
      && DuplicateFree(In(ClassBody(els, isDerived), c)) == DuplicateFree(c)
  {
  }

  /** The state inside of a function, from the one around it. */
  function Entered(s: State, info: FuncInfo, strict: bool): State {
    State(if strict then s.strictDepth + 1 else s.strictDepth, 0, 0, 0,
          s.functionStack + [info], s.classStack,
          if info.isStaticInitializer then false else if !info.isArrow then true else s.allowArguments,
          s.allowReturnStack + [!info.isStaticInitializer],
          if info.isArrow then s.superStack else s.superStack + [SuperOf(info)],
          s.parametersStack + [false])
  }

  /** What leaving a function takes away again. */
  lemma EnteredIsUndone(s: State, info: FuncInfo, strict: bool)
    ensures
      var e := Entered(s, info, strict);
      && e.strictDepth == (if strict then s.strictDepth + 1 else s.strictDepth) && e.classStack == s.classStack
      && e.functionStack != [] && e.functionStack[..|e.functionStack| - 1] == s.functionStack
      && e.allowReturnStack != [] && e.allowReturnStack[..|e.allowReturnStack| - 1] == s.allowReturnStack
      && e.parametersStack != [] && e.parametersStack[..|e.parametersStack| - 1] == s.parametersStack
      && if info.isArrow then e.superStack == s.superStack
         else e.superStack != [] && e.superStack[..|e.superStack| - 1] == s.superStack
  {
  }

  lemma FunctionState(info: FuncInfo, strict: bool, c: Chain)
    ensures StateOf(In(Function(info, strict), c)) == Entered(StateOf(c), info, strict)
    ensures
      LabelMap(In(Function(info, strict), c)) == map[]
      && DuplicateFree(In(Function(info, strict), c)) == DuplicateFree(c)
  {
  }

  lemma LabelSetMap(names: seq<Name>, target: LabelTarget, c: Chain)
    ensures LabelMap(In(LabelSet(names, target), c))
         == AddLabels(LabelMap(c), names, LabelInfo((LabelDepth(c) + 1) % LABEL_IDS, !target.OnOther?))
    ensures DuplicateFree(In(LabelSet(names, target), c)) <==>
      Distinct(names) && Disjoint(names, LabelMap(c).Keys) && DuplicateFree(c)
  {
    hide AddLabels, Distinct, Disjoint;
  }

  // The state answers the searches.

  lemma {:induction false} StrictAnswer(c: Chain)
    ensures StrictDepth(c) > 0 <==> InStrict(c)
  {
    if c.In? { StrictAnswer(c.outer); }
  }

  lemma {:induction false} BreakableAnswer(c: Chain)
    ensures BreakableDepth(c) > 0 <==> InBreakable(c)
    ensures IterableDepth(c) > 0 <==> InIterable(c)
  {
    if c.In? { BreakableAnswer(c.outer); }
  }

  lemma {:induction false} LabelAnswer(c: Chain, name: Name)
    ensures name in LabelMap(c) <==> FindLabel(c, name).Some?
    ensures DuplicateFree(c) && name in LabelMap(c) ==>
      LabelMap(c)[name] == LabelInfo(LabelId(FindLabel(c, name).value), ContinueTarget(c, name))
  {
    if c.In? { LabelAnswer(c.outer, name); }
  }

  lemma {:induction false} NearestFunctionAnswer(c: Chain)
    ensures FunctionStack(c) == [] <==> NearestFunction(c).None?
    ensures FunctionStack(c) != [] ==> NearestFunction(c) == Some(FunctionStack(c)[|FunctionStack(c)| - 1])
  {
    if c.In? { NearestFunctionAnswer(c.outer); }
  }

  /** The last entry of a function stack that is not an arrow function. */
  function LastNonArrow(stack: seq<FuncInfo>): Option<FuncInfo> {
    if stack == [] then None
    else
      var n := |stack| - 1;
      if !stack[n].isArrow then Some(stack[n]) else LastNonArrow(stack[..n])
  }

  lemma {:induction false} NonArrowAnswer(c: Chain)
    ensures LastNonArrow(FunctionStack(c)) == NearestNonArrow(c)
  {
    if c.In? {
      NonArrowAnswer(c.outer);
      var stack := FunctionStack(c.outer);
      assert forall info :: (stack + [info])[..|stack|] == stack;
    }
  }

  lemma {:induction false} ReturnAnswer(c: Chain)
    ensures ReturnStack(c)[|ReturnStack(c)| - 1] == ReturnAllowed(c)
  {
    if c.In? { ReturnAnswer(c.outer); }
  }

  lemma {:induction false} SuperAnswer(c: Chain)
    ensures
      var stack := SuperStack(c);
      SuperHome(c) == if stack != [] && stack[|stack| - 1].Allow? then Some(stack[|stack| - 1].isStatic) else None
  {
    if c.In? { SuperAnswer(c.outer); }
  }

  lemma {:induction false} ParametersAnswer(c: Chain)
    ensures
      var stack := ParametersStack(c);
      InParameters(c) <==> stack != [] && stack[|stack| - 1]
  {
    if c.In? { ParametersAnswer(c.outer); }
  }

  lemma {:induction false} PrivateAnswer(c: Chain, name: Name)
    ensures ClassStack(c) != [] <==> InClass(c)
    ensures (exists i | 0 <= i < |ClassStack(c)| :: name in ClassStack(c)[i].privateNames) <==> PrivateDeclared(c, name)
  {
    match c
    case Root(start) =>
      assert start.Eval? && start.privates.Some? ==> ClassStack(c)[0] == ClassEntry(start.privates.value, false);
    case In(f, outer) =>
      PrivateAnswer(outer, name);
      if f.ClassBody? {
        UsagesMeaning(f.elements, name);
        var n := |ClassStack(outer)|;
        assert ClassStack(c)[n] == ClassEntry(Usages(f.elements), f.isDerived);
        assert forall i | 0 <= i < n :: ClassStack(c)[i] == ClassStack(outer)[i];
        if i :| 0 <= i < n && name in ClassStack(outer)[i].privateNames {
          assert name in ClassStack(c)[i].privateNames;
        }
      }
  }

  function Last<T>(s: seq<T>): Option<T> {
    if s == [] then None else Some(s[|s| - 1])
  }

  /** The errors of a node as the analyzer decides them, from its state. Labels are treated apart. */
  ghost function StateErrors(site: Site, s: State): seq<Error> {
    var strict := s.strictDepth > 0;
    match site
    case BreakUse(_) => When(site.label_.None? && s.breakableDepth == 0, UnlabeledBreakOutsideBreakable)
    case ContinueUse(_) => When(s.iterableDepth == 0, ContinueOutsideIterable)
    case ReturnUse => When(Last(s.allowReturnStack) != Some(true), ReturnOutsideFunction)
    case WithUse => When(strict, WithInStrictMode)
    case Embedded(labeledFunction) => When(labeledFunction && !strict, InvalidLabeledFunction(false))
    case IdUse(name) => When(name == ARGUMENTS && !s.allowArguments, ArgumentsInClassInitializer)
    case BindingUse(name) =>
      if name == ARGUMENTS && !s.allowArguments then [ArgumentsInClassInitializer] else AssignErrors(name, strict)
    case NameDef(name) => AssignErrors(name, strict)
    case DeleteUse(kind) =>
      if !strict || kind.DeleteOther? then []
      else if kind.DeleteId? then [DeleteIdentifierInStrictMode]
      else [DeletePrivateProperty]
    case PrivateDefs(els) => PrivateErrors(els)
    case PrivateUse(name) =>
      if s.classStack == [] then [PrivateNameOutsideClass]
      else
        var isDeclared := exists i | 0 <= i < |s.classStack| :: name in s.classStack[i].privateNames;
        When(!isDeclared, PrivateNameNotDefined(name))
    case SuperUse =>
      When(!(Last(s.superStack).Some? && Last(s.superStack).value.Allow?), SuperPropertyOutsideMethod)
    case SuperCallUse =>
      var f := LastNonArrow(s.functionStack);
      When(!(f.Some? && f.value.isDerivedConstructor), SuperCallOutsideDerivedConstructor)
    case NewTargetUse => When(LastNonArrow(s.functionStack).None?, NewTargetOutsideFunction)
    case AwaitUse =>
      var f := Last(s.functionStack);
      if Last(s.parametersStack) == Some(true) then [AwaitInParameters]
      else When(f.Some? && f.value.isStaticInitializer, AwaitInStaticInitializer)
    case YieldUse => When(Last(s.parametersStack) == Some(true), YieldInParameters)
    case ParamList(useStrict, isSimple, duplicates) =>
      var f := Last(s.functionStack);
      When(useStrict && !isSimple, UseStrictFunctionNonSimpleParameterList)
      + (if !duplicates then []
         else if strict then [InvalidDuplicateParameters(StrictMode)]
         else if f.Some? && f.value.isArrow then [InvalidDuplicateParameters(ArrowFunction)]
         else if f.Some? && f.value.isMethod then [InvalidDuplicateParameters(MethodParameters)]
         else When(!isSimple, InvalidDuplicateParameters(NonSimpleParameters)))
    case LabelDef(_, _) => []
    case ContinueTargets(_) => []
  }

  /** The site does not look at the label map. */
  predicate Unlabelled(site: Site) {
    match site
    case LabelDef(_, _) => false
    case ContinueTargets(_) => false
    case BreakUse(l) => l.None?
    case ContinueUse(l) => l.None?
    case _ => true
  }

  lemma {:induction false} Answers(c: Chain)
    ensures
      var s := StateOf(c);
      && (s.strictDepth > 0 <==> InStrict(c))
      && (s.breakableDepth > 0 <==> InBreakable(c))
      && (s.iterableDepth > 0 <==> InIterable(c))
      && s.allowArguments == ArgumentsAllowed(c)
      && Last(s.functionStack) == NearestFunction(c)
      && LastNonArrow(s.functionStack) == NearestNonArrow(c)
      && Last(s.allowReturnStack) == Some(ReturnAllowed(c))
      && (Last(s.parametersStack) == Some(true) <==> InParameters(c))
      && SuperHome(c) == (if Last(s.superStack).Some? && Last(s.superStack).value.Allow?
                          then Some(Last(s.superStack).value.isStatic) else None)
  {
    hide InStrict, InBreakable, InIterable, FindLabel, NearestFunction, NearestNonArrow, ReturnAllowed;
    hide ArgumentsAllowed, InParameters, InClass, PrivateDeclared, SuperHome, StrictDepth, BreakableDepth;
    hide IterableDepth, FunctionStack;
    hide ClassStack, ReturnStack, SuperStack, ParametersStack, LabelDepth, LastNonArrow;
    StrictAnswer(c);
    BreakableAnswer(c);
    NearestFunctionAnswer(c);
    NonArrowAnswer(c);
    ReturnAnswer(c);
    SuperAnswer(c);
    ParametersAnswer(c);
  }

  /** The counters and stacks decide every check as a search along the chain does. */
  lemma StateDecides(site: Site, c: Chain, annexB: bool)
    requires Unlabelled(site)
    ensures SiteErrors(Visit(site, c), annexB) == StateErrors(site, StateOf(c))
  {
    hide InStrict, InBreakable, InIterable, FindLabel, NearestFunction, NearestNonArrow, ReturnAllowed;
    hide ArgumentsAllowed, InParameters, InClass, PrivateDeclared, SuperHome, StrictDepth, BreakableDepth;
    hide IterableDepth, FunctionStack;
    hide ClassStack, ReturnStack, SuperStack, ParametersStack, LabelDepth, LastNonArrow, PrivateErrors, Last;
    hide AssignErrors;
    Answers(c);
    if site.PrivateUse? { PrivateAnswer(c, site.name); }
  }

  // The super stack.

  function SuperEntries(stack: seq<FuncInfo>): seq<SuperEntry> {
    if stack == [] then []
    else
      var n := |stack| - 1;
      SuperEntries(stack[..n]) + (if stack[n].isArrow then [] else [SuperOf(stack[n])])
  }

  /**
    In ordinary code the super stack is a projection of the function stack: one entry per non-arrow
    function, which allows super exactly for methods.
   */
  lemma {:induction false} SuperStackIsProjection(c: Chain)
    requires StartOf(c).Ordinary?
    ensures SuperStack(c) == SuperEntries(FunctionStack(c))
  {
    if c.In? {
      SuperStackIsProjection(c.outer);
      var stack := FunctionStack(c.outer);
      assert forall info :: (stack + [info])[..|stack|] == stack;
    }
  }

  function StartOf(c: Chain): Start {
    if c.Root? then c.start else StartOf(c.outer)
  }

  /** A super member is allowed exactly when the nearest non-arrow function or field initializer is a method. */
  lemma {:induction false} SuperAllowedMeaning(c: Chain)
    requires StartOf(c).Ordinary?
    ensures SuperHome(c).Some? <==> NearestNonArrow(c).Some? && NearestNonArrow(c).value.isMethod
  {
    if c.In? { SuperAllowedMeaning(c.outer); }
  }
}
