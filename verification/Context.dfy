/**
  Where a node of the tree sits, and which early errors that place gives rise to.

  A place is the chain of the constructs around it, innermost first. Every check is stated as a
  search outwards along that chain, without any of the analyzer's counters, stacks or maps.
 */
module Context {
  import opened Ast
  import opened Options
  import opened ParseErrors
  import opened PrivateNames

  /** What the statement under a group of labels is. Only loops and switches accept a `continue`. */
  datatype LabelTarget = OnLoop | OnSwitch | OnOther

  datatype Frame =
    | Strict
    | LabelSet(names: seq<Name>, target: LabelTarget)
    | LoopBody
    | SwitchBody
    | Function(info: FuncInfo, isStrict: bool)
    | Parameters
    | Heritage
    | ClassBody(elements: seq<Element>, isDerived: bool)
    | FieldInit(isStatic: bool)

  /** What surrounds the outermost node. Code passed to a direct eval inherits part of its caller's place. */
  datatype Start =
    | Ordinary
    | Eval(privates: Option<map<Name, Usage>>, caller: Option<NonArrow>, inFieldInitializer: bool)

  /** The function recorded for a direct eval is never an arrow function. */
  type NonArrow = f: FuncInfo | !f.isArrow witness FuncInfo(false, false, false, false, false, false)

  datatype Chain = Root(start: Start) | In(frame: Frame, outer: Chain)

  /** Labels, loops and switches outside of a function or class are not visible inside it. */
  predicate IsBoundary(f: Frame) {
    f.Function? || f.Heritage? || f.ClassBody?
  }

  function FieldInfo(isStatic: bool): FuncInfo {
    FuncInfo(false, true, isStatic, false, false, true)
  }

  function TargetOf(s: Stmt): LabelTarget {
    if s.Loop? then OnLoop else if s.Switch? then OnSwitch else OnOther
  }

  // Searches along the chain.

  predicate InStrict(c: Chain) {
    c.In? && ((match c.frame
               case Strict => true
               case Function(_, strict) => strict
               case Heritage => true
               case ClassBody(_, _) => true
               case _ => false)
              || InStrict(c.outer))
  }

  predicate InBreakable(c: Chain) {
    c.In? && !IsBoundary(c.frame) && (c.frame.LoopBody? || c.frame.SwitchBody? || InBreakable(c.outer))
  }

  predicate InIterable(c: Chain) {
    c.In? && !IsBoundary(c.frame) && (c.frame.LoopBody? || InIterable(c.outer))
  }

  /** The chain from the labelled statement that declares a name outwards. */
  function FindLabel(c: Chain, name: Name): (r: Option<Chain>)
    ensures r.Some? ==> r.value.In? && r.value.frame.LabelSet? && name in r.value.frame.names
  {
    if c.Root? || IsBoundary(c.frame) then None
    else if c.frame.LabelSet? && name in c.frame.names then Some(c)
    else FindLabel(c.outer, name)
  }

  /** How many labelled statements surround a place within its function or class. */
  function LabelDepth(c: Chain): nat {
    if c.Root? || IsBoundary(c.frame) then 0
    else if c.frame.LabelSet? then LabelDepth(c.outer) + 1
    else LabelDepth(c.outer)
  }

  const LABEL_IDS: nat := 0x1_0000

  /** The 16-bit id shared by the labels of the innermost labelled statement of a chain. */
  function LabelId(c: Chain): nat {
    LabelDepth(c) % LABEL_IDS
  }

  function NearestFunction(c: Chain): Option<FuncInfo> {
    match c
    case Root(Ordinary) => None
    case Root(Eval(_, caller, _)) => caller
    case In(Function(info, _), _) => Some(info)
    case In(FieldInit(isStatic), _) => Some(FieldInfo(isStatic))
    case In(_, outer) => NearestFunction(outer)
  }

  function NearestNonArrow(c: Chain): Option<FuncInfo> {
    match c
    case Root(Ordinary) => None
    case Root(Eval(_, caller, _)) => caller
    case In(Function(info, _), outer) => if info.isArrow then NearestNonArrow(outer) else Some(info)
    case In(FieldInit(isStatic), _) => Some(FieldInfo(isStatic))
    case In(_, outer) => NearestNonArrow(outer)
  }

  predicate ReturnAllowed(c: Chain) {
    match c
    case Root(_) => false
    case In(Function(info, _), _) => !info.isStaticInitializer
    case In(_, outer) => ReturnAllowed(outer)
  }

  predicate ArgumentsAllowed(c: Chain) {
    match c
    case Root(Ordinary) => true
    case Root(Eval(_, _, inFieldInitializer)) => !inFieldInitializer
    case In(Function(info, _), outer) =>
      !info.isStaticInitializer && (!info.isArrow || ArgumentsAllowed(outer))
    case In(FieldInit(_), _) => false
    case In(_, outer) => ArgumentsAllowed(outer)
  }

  predicate InParameters(c: Chain) {
    c.In? && !c.frame.Function? && (c.frame.Parameters? || InParameters(c.outer))
  }

  /** Whether a class body or, in eval code, a class of the caller is in scope. */
  predicate InClass(c: Chain) {
    match c
    case Root(Ordinary) => false
    case Root(Eval(privates, _, _)) => privates.Some?
    case In(ClassBody(_, _), _) => true
    case In(_, outer) => InClass(outer)
  }

  ghost predicate PrivateDeclared(c: Chain, name: Name) {
    match c
    case Root(Ordinary) => false
    case Root(Eval(privates, _, _)) => privates.Some? && name in privates.value
    case In(ClassBody(els, _), outer) => (exists i :: Declares(els, i, name)) || PrivateDeclared(outer, name)
    case In(_, outer) => PrivateDeclared(outer, name)
  }

  /** The staticness of the home object that a super member refers to, if one is allowed here. */
  function SuperHome(c: Chain): Option<bool> {
    match c
    case Root(Ordinary) => None
    case Root(Eval(_, caller, _)) =>
      if caller.Some? && (caller.value.isMethod || caller.value.isFieldInitializer)
      then Some(caller.value.isStatic) else None
    case In(Function(info, _), outer) =>
      if info.isArrow then SuperHome(outer)
      else if info.isMethod then Some(info.isStatic || info.isStaticInitializer)
      else None
    case In(FieldInit(isStatic), _) => Some(isStatic)
    case In(_, outer) => SuperHome(outer)
  }

  predicate AtTopLevel(c: Chain) {
    NearestFunction(c).None? && !InClass(c)
  }

  // The checks.

  datatype DeleteKind = DeleteId | DeletePrivate | DeleteOther

  datatype Site =
    | LabelDef(name: Name, onFunction: bool)
    | ContinueTargets(names: seq<Name>)
    | BreakUse(label_: Option<Name>)
    | ContinueUse(label_: Option<Name>)
    | ReturnUse
    | WithUse
    | Embedded(labeledFunction: bool)
    | IdUse(name: Name)
    | BindingUse(name: Name)
    | NameDef(name: Name)
    | DeleteUse(kind: DeleteKind)
    | PrivateDefs(elements: seq<Element>)
    | PrivateUse(name: Name)
    | SuperUse
    | SuperCallUse
    | NewTargetUse
    | AwaitUse
    | YieldUse
    | ParamList(useStrict: bool, isSimple: bool, duplicates: bool)

  /** A node with a check, and its place. */
  datatype Visit = Visit(site: Site, at: Chain)

  function When(condition: bool, error: Error): seq<Error> {
    if condition then [error] else []
  }

  function AssignErrors(name: Name, strict: bool): seq<Error> {
    When(strict && name == EVAL, AssignEvalInStrictMode)
    + When(strict && name == ARGUMENTS, AssignArgumentsInStrictMode)
  }

  ghost function SiteErrors(v: Visit, annexB: bool): seq<Error> {
    var c := v.at;
    match v.site
    case LabelDef(name, onFunction) =>
      When(FindLabel(c, name).Some?, DuplicateLabel)
      + When(onFunction && (!annexB || InStrict(c)), InvalidLabeledFunction(true))
    case ContinueTargets(_) => []
    case BreakUse(None) => When(!InBreakable(c), UnlabeledBreakOutsideBreakable)
    case BreakUse(Some(name)) => When(FindLabel(c, name).None?, LabelNotFound)
    case ContinueUse(None) => When(!InIterable(c), ContinueOutsideIterable)
    case ContinueUse(Some(name)) =>
      When(!ContinueTarget(c, name), LabelNotFound) + When(!InIterable(c), ContinueOutsideIterable)
    case ReturnUse => When(!ReturnAllowed(c), ReturnOutsideFunction)
    case WithUse => When(InStrict(c), WithInStrictMode)
    case Embedded(labeledFunction) => When(labeledFunction && !InStrict(c), InvalidLabeledFunction(false))
    case IdUse(name) => When(name == ARGUMENTS && !ArgumentsAllowed(c), ArgumentsInClassInitializer)
    case BindingUse(name) =>
      if name == ARGUMENTS && !ArgumentsAllowed(c) then [ArgumentsInClassInitializer]
      else AssignErrors(name, InStrict(c))
    case NameDef(name) => AssignErrors(name, InStrict(c))
    case DeleteUse(kind) =>
      When(InStrict(c) && kind.DeleteId?, DeleteIdentifierInStrictMode)
      + When(InStrict(c) && kind.DeletePrivate?, DeletePrivateProperty)
    case PrivateDefs(els) => PrivateErrors(els)
    case PrivateUse(name) =>
      if !InClass(c) then [PrivateNameOutsideClass]
      else When(!PrivateDeclared(c, name), PrivateNameNotDefined(name))
    case SuperUse => When(SuperHome(c).None?, SuperPropertyOutsideMethod)
    case SuperCallUse =>
      var allowed := NearestNonArrow(c).Some? && NearestNonArrow(c).value.isDerivedConstructor;
      When(!allowed, SuperCallOutsideDerivedConstructor)
    case NewTargetUse => When(NearestNonArrow(c).None?, NewTargetOutsideFunction)
    case AwaitUse =>
      if InParameters(c) then [AwaitInParameters]
      else When(NearestFunction(c).Some? && NearestFunction(c).value.isStaticInitializer, AwaitInStaticInitializer)
    case YieldUse => When(InParameters(c), YieldInParameters)
    case ParamList(useStrict, isSimple, duplicates) =>
      When(useStrict && !isSimple, UseStrictFunctionNonSimpleParameterList)
      + (if duplicates then DuplicateParameterErrors(c, isSimple) else [])
  }

  predicate ContinueTarget(c: Chain, name: Name) {
    FindLabel(c, name).Some? && !FindLabel(c, name).value.frame.target.OnOther?
  }

  function DuplicateParameterErrors(c: Chain, isSimple: bool): seq<Error> {
    var f := NearestFunction(c);
    if InStrict(c) then [InvalidDuplicateParameters(StrictMode)]
    else if f.Some? && f.value.isArrow then [InvalidDuplicateParameters(ArrowFunction)]
    else if f.Some? && f.value.isMethod then [InvalidDuplicateParameters(MethodParameters)]
    else When(!isSimple, InvalidDuplicateParameters(NonSimpleParameters))
  }

  /** The errors of a list of visited nodes, in order. */
  ghost function ErrorsOf(log: seq<Visit>, annexB: bool): seq<Error> {
    if log == [] then [] else ErrorsOf(log[..|log| - 1], annexB) + SiteErrors(log[|log| - 1], annexB)
  }

  lemma {:induction false} ErrorFree(log: seq<Visit>, annexB: bool)
    ensures ErrorsOf(log, annexB) == [] <==> forall i | 0 <= i < |log| :: SiteErrors(log[i], annexB) == []
  {
    hide SiteErrors;
    if log != [] {
      var rest := log[..|log| - 1];
      ErrorFree(rest, annexB);
      assert forall i | 0 <= i < |rest| :: rest[i] == log[i];
    }
  }
}
