/**
  The early-error analyzer: one mutable visitor over the tree.

  Its label map, depth counters and stacks are pushed, popped, saved and restored along the way.
  `Matches(c)` says that they are what a node at place `c` calls for; every visit leaves them so.
  The ghost `log` lists the checked nodes visited so far, and the contracts tie it to `Sites`.
 */
module Analysis {
  import opened Ast
  import opened ParseErrors
  import opened PrivateNames
  import opened Context
  import opened Sites
  import opened AnalyzerState
  import opened LabelHistory
  import opened Labels
  import opened Options
  import SitePlaces

  datatype SavedState = SavedState(
    labels: map<Name, LabelInfo>,
    labelDepth: nat,
    breakableDepth: nat,
    iterableDepth: nat,
    allowArguments: bool,
    hasAssign: bool)

  /** What was saved, the labels aside, is what a state had. */
  predicate IsSaved(saved: SavedState, s: State) {
    && saved.labelDepth == s.labelDepth && saved.breakableDepth == s.breakableDepth
    && saved.iterableDepth == s.iterableDepth && saved.allowArguments == s.allowArguments
  }

  predicate Grown(before: seq<Error>, after: seq<Error>) {
    before <= after && (DuplicateLabel in before ==> DuplicateLabel in after)
  }

  /** Whether an await outside of any function or class body was visited. */
  predicate TopLevelAwait(v: Visit) {
    v.site.AwaitUse? && AtTopLevel(v.at)
  }

  predicate AnyTopLevelAwait(log: seq<Visit>) {
    log != [] && (AnyTopLevelAwait(log[..|log| - 1]) || TopLevelAwait(log[|log| - 1]))
  }

  /**
    The label map is the one for a place: it has the names declared there, its flags are those marked
    in what was visited, and without a duplicate label they are those of the place.
   */
  ghost predicate LabelsPlaced(labels: map<Name, LabelInfo>, errors: seq<Error>, log: seq<Visit>, c: Chain) {
    && labels.Keys == LabelMap(c).Keys
    && (DuplicateLabel !in errors ==> labels == LabelMap(c) && DuplicateFree(c))
    && FlagsPlaced(labels, log, c) && TargetsMarked(log, c)
  }

  lemma NoLabelYet(labels: LabelTable, errors: seq<Error>, log: seq<Visit>, c: Chain)
    requires LabelsPlaced(labels, errors, log, c)
    ensures LabelsPlaced(labels, errors, log, In(LabelSet([], OnOther), c))
  {
    hide LabelMap, DuplicateFree, AddLabels, FlagsPlaced, TargetsMarked;
    LabelSetMap([], OnOther, c);
    AddNone(LabelMap(c), LabelInfo((LabelDepth(c) + 1) % LABEL_IDS, false));
    FlagsOfNone(labels, log, c);
  }

  /** Declaring one more label of a group keeps the label map in place. */
  lemma OneMoreLabel(
    labels: LabelTable, errors: seq<Error>, log: seq<Visit>, names: seq<Name>, name: Name, onFunction: bool, c: Chain)
    requires
      var place := In(LabelSet(names, OnOther), c);
      LabelsPlaced(labels, errors, log + [Visit(LabelDef(name, onFunction), place)], place)
    requires name in labels ==> DuplicateLabel in errors
    ensures
      var now := log + [Visit(LabelDef(name, onFunction), In(LabelSet(names, OnOther), c))];
      var info := LabelInfo((LabelDepth(c) + 1) % LABEL_IDS, false);
      var labels' := if name in labels then labels else labels[name := info];
      LabelsPlaced(labels', errors, now, In(LabelSet(names + [name], OnOther), c))
  {
    hide LabelMap, DuplicateFree, AddLabels, Distinct, Disjoint, FlagsPlaced, TargetsMarked, Home, Marked;
    var place := In(LabelSet(names, OnOther), c);
    var now := log + [Visit(LabelDef(name, onFunction), place)];
    LabelSetMap(names, OnOther, c);
    LabelSetMap(names + [name], OnOther, c);
    AddOne(LabelMap(c), names, name, LabelInfo((LabelDepth(c) + 1) % LABEL_IDS, false));
    HomeAnswer(place, name);
    if name !in labels { NewIsUnmarked(log, names, name, onFunction, c); }
    FlagsOfOneMore(labels, now, names, name, c);
    TargetsOfOneMore(now, names, name, c);
  }

  lemma GroupKeys(labels: LabelTable, errors: seq<Error>, log: seq<Visit>, names: seq<Name>, c: Chain)
    requires LabelsPlaced(labels, errors, log, In(LabelSet(names, OnOther), c))
    ensures forall n | n in names :: n in labels
  {
    hide LabelMap, DuplicateFree, AddLabels;
    LabelSetMap(names, OnOther, c);
    AddKeys(LabelMap(c), names, LabelInfo((LabelDepth(c) + 1) % LABEL_IDS, false));
  }

  /** The labels of a loop or switch are in place once they are marked. */
  lemma MarkedLabels(
    labels: LabelTable, errors: seq<Error>, log: seq<Visit>, names: seq<Name>, target: LabelTarget, c: Chain)
    requires LabelsPlaced(labels, errors, log, In(LabelSet(names, OnOther), c)) && !target.OnOther?
    ensures
      var inner := In(LabelSet(names, target), c);
      LabelsPlaced(Mark(labels, names), errors, log + [Visit(ContinueTargets(names), inner)], inner)
  {
    hide LabelMap, DuplicateFree, AddLabels, Distinct, Disjoint, FlagsPlaced, TargetsMarked;
    var id := (LabelDepth(c) + 1) % LABEL_IDS;
    LabelSetMap(names, OnOther, c);
    LabelSetMap(names, target, c);
    AddKeys(LabelMap(c), names, LabelInfo(id, false));
    AddKeys(LabelMap(c), names, LabelInfo(id, true));
    GroupKeys(labels, errors, log, names, c);
    FlagsOfMarked(labels, log, names, target, c);
    if DuplicateLabel !in errors {
      MarkAdded(LabelMap(c), names, id);
    }
  }

  lemma OneMoreAwait(log: seq<Visit>, v: Visit)
    ensures AnyTopLevelAwait(log + [v]) == (AnyTopLevelAwait(log) || TopLevelAwait(v))
  {
    hide TopLevelAwait;
    assert (log + [v])[..|log|] == log;
  }

  lemma LabelsStayPlaced(labels: LabelTable, errors: seq<Error>, errs: seq<Error>, log: seq<Visit>, v: Visit, c: Chain)
    requires LabelsPlaced(labels, errors, log, c) && v.at == c && !v.site.ContinueTargets?
    ensures LabelsPlaced(labels, errors + errs, log + [v], c)
  {
    hide LabelMap, DuplicateFree, FlagsPlaced, TargetsMarked;
    FlagsStay(labels, log, v, c);
    TargetsStay(log, v, c);
  }

  lemma KeysPlaced(labels: LabelTable, errors: seq<Error>, log: seq<Visit>, c: Chain)
    requires LabelsPlaced(labels, errors, log, c)
    ensures labels.Keys == LabelMap(c).Keys
  {
  }

  lemma LabelDefErrors(
    labels: LabelTable, strictDepth: nat, errors: seq<Error>, log: seq<Visit>, name: Name, onFunction: bool,
    annexB: bool, c: Chain)
    requires LabelsPlaced(labels, errors, log, c) && strictDepth == StateOf(c).strictDepth
    ensures
      Emits(When(name in labels, DuplicateLabel)
            + When(onFunction && (!annexB || strictDepth > 0), InvalidLabeledFunction(true)),
            log, Visit(LabelDef(name, onFunction), c), annexB, DuplicateLabel in errors)
  {
    hide FlagsPlaced, TargetsMarked;
    LabelAnswer(c, name);
    StrictAnswer(c);
  }

  lemma BreakErrors(log: seq<Visit>, target: Option<Label>, c: Chain, annexB: bool, duplicated: bool)
    ensures
      Emits(When(target.Some? && FindLabel(c, target.value.name).None?, LabelNotFound)
            + When(target.None? && StateOf(c).breakableDepth == 0, UnlabeledBreakOutsideBreakable),
            log, Visit(BreakUse(TargetName(target)), c), annexB, duplicated)
  {
    BreakableAnswer(c);
  }

  lemma ContinueErrors(
    labels: LabelTable, errors: seq<Error>, log: seq<Visit>, target: Option<Label>, c: Chain, annexB: bool)
    requires LabelsPlaced(labels, errors, log, c)
    ensures
      Emits(When(target.Some? && !IsMarkedTarget(log, c, target.value.name), LabelNotFound)
            + When(StateOf(c).iterableDepth == 0, ContinueOutsideIterable),
            log, Visit(ContinueUse(TargetName(target)), c), annexB, DuplicateLabel in errors)
  {
    hide TargetsMarked, Home, Marked, LabelMap, FindLabel;
    BreakableAnswer(c);
    if target.Some? {
      var name := target.value.name;
      if ContinueTarget(c, name) { TargetIsMarked(log, c, name); }
      HomeAnswer(c, name);
      LabelAnswer(c, name);
    }
  }

  lemma TopLevelAnswer(c: Chain)
    ensures AtTopLevel(c) <==> StateOf(c).functionStack == [] && StateOf(c).classStack == []
  {
    NearestFunctionAnswer(c);
    PrivateAnswer(c, EVAL);
  }

  lemma EvalContextOf(c: Chain)
    ensures LastNonArrow(StateOf(c).functionStack) == NearestNonArrow(c)
  {
    NonArrowAnswer(c);
  }

  /** Inside of a function or class no label is visible. */
  lemma BoundaryLabels(labels: LabelTable, errors: seq<Error>, log: seq<Visit>, f: Frame, c: Chain)
    requires LabelsPlaced(labels, errors, log, c) && IsBoundary(f)
    ensures LabelsPlaced(map[], errors, log, In(f, c))
  {
  }

  /** Frames that are neither labels nor boundaries do not matter for the label map. */
  lemma SameLabels(labels: LabelTable, errors: seq<Error>, log: seq<Visit>, f: Frame, c: Chain)
    requires !f.LabelSet? && !IsBoundary(f)
    ensures LabelsPlaced(labels, errors, log, In(f, c)) <==> LabelsPlaced(labels, errors, log, c)
  {
    hide Marked;
    assert forall n :: Home(In(f, c), n) == Home(c, n);
  }

  /** The label map in front of a function or class still is in place when its inside was visited. */
  lemma LabelsGrow(
    labels: LabelTable, before: seq<Error>, after: seq<Error>, log: seq<Visit>, sites: seq<Visit>, c: Chain)
    requires LabelsPlaced(labels, before, log, c) && Grown(before, after) && AllBeyond(sites, c)
    ensures LabelsPlaced(labels, after, log + sites, c)
  {
    hide LabelMap, DuplicateFree, FlagsPlaced, TargetsMarked, AllBeyond;
    FlagsInFront(labels, log, sites, c);
    TargetsInFront(log, sites, c, c);
  }

  lemma PoppedLabels(
    labels: LabelTable, errors: seq<Error>, log: seq<Visit>, group: seq<(Name, bool)>, names: seq<Name>,
    target: LabelTarget, c: Chain)
    requires LabelsPlaced(labels, errors, log, In(LabelSet(names, target), c))
    requires IsGroup(group, names, LabelMap(c).Keys)
    ensures LabelsPlaced(labels - FreshNames(group), errors, log, c)
  {
    hide LabelMap, DuplicateFree, AddLabels, Distinct, Disjoint, IsGroup, FreshNames, FlagsPlaced, TargetsMarked;
    LabelSetMap(names, target, c);
    PopUndoesPush(LabelMap(c), names, LabelInfo((LabelDepth(c) + 1) % LABEL_IDS, !target.OnOther?), group);
    assert (labels - FreshNames(group)).Keys == labels.Keys - FreshNames(group);
    FlagsPopped(labels, labels - FreshNames(group), log, names, target, c);
  }

  lemma ClassStackGrows(k: Class, names: map<Name, Usage>, c: Chain)
    requires names == Usages(k.elements)
    ensures
      var s := StateOf(In(Heritage, c));
      StateOf(ClassPlace(k, c)) == s.(classStack := s.classStack + [ClassEntry(names, k.heritage.Some?)])
  {
    hide StateOf, LabelMap, DuplicateFree, Usages;
    ClassBodyState(k.elements, k.heritage.Some?, c);
  }

  lemma ClassBodyLabels(labels: LabelTable, errors: seq<Error>, log: seq<Visit>, k: Class, c: Chain)
    ensures LabelsPlaced(labels, errors, log, In(Heritage, c)) <==> LabelsPlaced(labels, errors, log, ClassPlace(k, c))
  {
  }

  lemma InnermostClass(c: Chain)
    requires c.In? && c.frame.ClassBody?
    ensures
      var stack := StateOf(c).classStack;
      stack != [] && stack[|stack| - 1].isDerived == c.frame.isDerived
  {
  }

  /** The visits of the parts of an if statement, one after the other. */
  lemma IfLog(log: seq<Visit>, s: Stmt, c: Chain)
    requires s.If?
    ensures
      var checked := log + [Visit(Embedded(IsLabeledFunction(s.conseq)), c)];
      var both :=
        checked + if s.altern.Some? then [Visit(Embedded(IsLabeledFunction(s.altern.value)), c)] else [];
      log + IfSites(s, c)
      == both + ExprSites(s.test.expr, c) + StmtSites(s.conseq, c)
         + if s.altern.Some? then StmtSites(s.altern.value, c) else []
  {
    hide ExprSites, StmtSites, IsLabeledFunction;
  }

  /** The errors emitted at one node are the reported ones, and without a duplicate label those of its place. */
  ghost predicate Emits(errs: seq<Error>, log: seq<Visit>, v: Visit, annexB: bool, duplicated: bool) {
    && errs == Emitted(log, v, annexB)
    && (!duplicated ==> errs == SiteErrors(v, annexB))
    && (v.site.ContinueUse? && v.site.label_.Some? && ContinueTarget(v.at, v.site.label_.value) ==>
          IsMarkedTarget(log, v.at, v.site.label_.value))
  }

  ghost predicate Records(errors: seq<Error>, log: seq<Visit>, annexB: bool) {
    && errors == Reported(log, annexB) && OmitsOnly(log)
    && (DuplicateLabel !in errors ==> errors == ErrorsOf(log, annexB))
  }

  lemma RecordsOneMore(errors: seq<Error>, log: seq<Visit>, annexB: bool, errs: seq<Error>, v: Visit)
    requires Records(errors, log, annexB)
    requires Emits(errs, log, v, annexB, DuplicateLabel in errors)
    ensures Records(errors + errs, log + [v], annexB)
  {
    hide SiteErrors, Emitted, IsMarkedTarget, ContinueTarget;
    var now := log + [v];
    assert now[..|log|] == log;
    assert forall i | 0 <= i < |log| :: now[i] == log[i] && now[..i] == log[..i];
  }

  /** A node without errors of its own. */
  lemma RecordsMarking(errors: seq<Error>, log: seq<Visit>, annexB: bool, v: Visit)
    requires Records(errors, log, annexB) && v.site.ContinueTargets?
    ensures Records(errors, log + [v], annexB)
  {
    RecordsOneMore(errors, log, annexB, [], v);
    assert errors + [] == errors;
  }

  class Analyzer {
    const annexB: bool
    var errors: seq<Error>
    var strictDepth: nat
    var labels: map<Name, LabelInfo>
    var labelDepth: nat
    var breakableDepth: nat
    var iterableDepth: nat
    var functionStack: seq<FuncInfo>
    var classStack: seq<ClassEntry>
    var allowArguments: bool
    var allowReturnStack: seq<bool>
    var superStack: seq<SuperEntry>
    var parametersStack: seq<bool>
    var hasAssign: bool
    var hasTopLevelAwait: bool
    ghost var log: seq<Visit>

    /**
      The state is the one for place `c`.
     */
    ghost predicate Placed(c: Chain)
      reads this
    {
      && LabelsPlaced(labels, errors, log, c)
      && Snapshot() == StateOf(c)
    }

    function Snapshot(): State
      reads `strictDepth, `labelDepth, `breakableDepth, `iterableDepth, `functionStack, `classStack
      reads `allowArguments, `allowReturnStack, `superStack, `parametersStack
    {
      State(strictDepth, labelDepth, breakableDepth, iterableDepth, functionStack, classStack,
            allowArguments, allowReturnStack, superStack, parametersStack)
    }

    /** The errors are those reported at the visited nodes, in order. */
    ghost predicate Recorded()
      reads this
    {
      Records(errors, log, annexB) && hasTopLevelAwait == AnyTopLevelAwait(log)
    }

    ghost predicate Matches(c: Chain)
      reads this
    {
      Placed(c) && Recorded()
    }

    constructor (start: Start, annexB: bool)
      ensures Matches(Root(start)) && errors == [] && log == []
      ensures this.annexB == annexB
    {
      this.annexB := annexB;
      errors, log := [], [];
      strictDepth, labels, labelDepth, breakableDepth, iterableDepth := 0, map[], 0, 0, 0;
      functionStack, classStack, superStack, parametersStack := [], [], [], [];
      allowReturnStack := [false];
      allowArguments := true;
      hasAssign, hasTopLevelAwait := false, false;
      if start.Eval? {
        if start.privates.Some? {
          classStack := [ClassEntry(start.privates.value, false)];
        }
        if start.caller.Some? {
          var caller := start.caller.value;
          functionStack := [caller];
          if caller.isMethod || caller.isFieldInitializer {
            superStack := [Allow(caller.isStatic)];
          }
        }
        if start.inFieldInitializer {
          allowArguments := false;
        }
      }
    }

    /** From the old state to the new one, exactly the given nodes were visited, all from place `c`. */
    twostate predicate Visited(new c: Chain, new sites: seq<Visit>)
      reads this
    {
      Matches(c) && Grown(old(errors), errors) && log == old(log) + sites
    }

    /** Emits the errors found at a node. */
    method Report(errs: seq<Error>, topLevelAwait: bool, ghost v: Visit, ghost c: Chain)
      requires Matches(c)
      requires Emits(errs, log, v, annexB, DuplicateLabel in errors) && v.at == c && !v.site.ContinueTargets?
      requires topLevelAwait == TopLevelAwait(v)
      modifies `errors, `log, `hasTopLevelAwait
      ensures Matches(c) && log == old(log) + [v] && errors == old(errors) + errs && Grown(old(errors), errors)
    {
      hide SiteErrors, AnyTopLevelAwait, TopLevelAwait, LabelsPlaced, StateOf, Records, Emits;
      RecordsOneMore(errors, log, annexB, errs, v);
      OneMoreAwait(log, v);
      LabelsStayPlaced(labels, errors, errs, log, v, c);
      errors := errors + errs;
      hasTopLevelAwait := hasTopLevelAwait || topLevelAwait;
      log := log + [v];
    }

    // Helpers.

    predicate IsInStrictMode()
      reads this
    {
      strictDepth > 0
    }

    /** The innermost function that is not an arrow function. */
    method EnclosingNonArrowFunction() returns (r: Option<FuncInfo>)
      ensures r == LastNonArrow(functionStack)
    {
      var i := |functionStack|;
      assert functionStack[..i] == functionStack;
      while i > 0
        invariant 0 <= i <= |functionStack|
        invariant LastNonArrow(functionStack) == LastNonArrow(functionStack[..i])
      {
        i := i - 1;
        assert functionStack[..i + 1][..i] == functionStack[..i];
        if !functionStack[i].isArrow {
          return Some(functionStack[i]);
        }
      }
      return None;
    }

    method SaveState() returns (saved: SavedState)
      modifies `labels, `labelDepth, `breakableDepth, `iterableDepth
      ensures saved == SavedState(
        old(labels), old(labelDepth), old(breakableDepth), old(iterableDepth), old(allowArguments), old(hasAssign))
      ensures labels == map[] && labelDepth == 0 && breakableDepth == 0 && iterableDepth == 0
    {
      saved := SavedState(labels, labelDepth, breakableDepth, iterableDepth, allowArguments, hasAssign);
      labels, labelDepth, breakableDepth, iterableDepth := map[], 0, 0, 0;
    }

    method RestoreState(saved: SavedState)
      modifies `labels, `labelDepth, `breakableDepth, `iterableDepth, `allowArguments, `hasAssign
      ensures saved == SavedState(labels, labelDepth, breakableDepth, iterableDepth, allowArguments, hasAssign)
    {
      labels, labelDepth := saved.labels, saved.labelDepth;
      breakableDepth, iterableDepth := saved.breakableDepth, saved.iterableDepth;
      allowArguments, hasAssign := saved.allowArguments, saved.hasAssign;
    }

    // Labels.

    method VisitLabelDef(name: Name, onFunction: bool, id: nat, ghost names: seq<Name>, ghost c: Chain)
      returns (isDuplicate: bool)
      requires Matches(In(LabelSet(names, OnOther), c))
      requires id == labelDepth
      modifies `errors, `log, `hasTopLevelAwait, `labels
      ensures Matches(In(LabelSet(names + [name], OnOther), c)) && Grown(old(errors), errors)
      ensures log == old(log) + [Visit(LabelDef(name, onFunction), In(LabelSet(names, OnOther), c))]
      ensures isDuplicate <==> name in old(labels)
      ensures labels.Keys == old(labels).Keys + {name}
    {
      hide SiteErrors, AnyTopLevelAwait, LabelsPlaced, StateOf, AtTopLevel, Records, Emits;
      ghost var place := In(LabelSet(names, OnOther), c);
      isDuplicate := name in labels;
      var errs := [];
      if isDuplicate {
        errs := [DuplicateLabel];
      }
      if (!annexB || IsInStrictMode()) && onFunction {
        errs := errs + [InvalidLabeledFunction(true)];
      }
      LabelDefErrors(labels, strictDepth, errors, log, name, onFunction, annexB, place);
      assert errs == When(name in labels, DuplicateLabel)
        + When(onFunction && (!annexB || strictDepth > 0), InvalidLabeledFunction(true));
      Report(errs, false, Visit(LabelDef(name, onFunction), place), place);
      OneMoreLabel(labels, errors, old(log), names, name, onFunction, c);
      LabelSetState(names, OnOther, c);
      LabelSetState(names + [name], OnOther, c);
      if !isDuplicate {
        labels := labels[name := LabelInfo(id, false)];
      }
    }

    /**
      Declares all labels of a group, and returns them with whether each was a duplicate, together
      with the statement below them.
     */
    method PushAllLabels(s: Stmt, ghost c: Chain) returns (group: seq<(Name, bool)>, id: nat, inner: Stmt)
      requires s.Labeled? && Matches(c)
      modifies `errors, `log, `hasTopLevelAwait, `labels, `labelDepth
      ensures Matches(LabeledPlace(s, c)) && Grown(old(errors), errors)
      ensures log == old(log) + GroupSites(s, c)
      ensures inner == Unlabeled(s) && id == LabelId(LabeledPlace(s, c))
      ensures IsGroup(group, LabelNames(s), LabelMap(c).Keys)
    {
      hide SiteErrors, AnyTopLevelAwait, LabelsPlaced, StateOf, AtTopLevel, Records, LabelMap, LabelId, Mark;
      ghost var names := LabelNames(s);
      LabelSetState([], OnOther, c);
      LabelSetState(names, OnOther, c);
      LabelSetState(names, TargetOf(Unlabeled(s)), c);
      NoLabelYet(labels, errors, log, c);
      KeysPlaced(labels, errors, log, c);
      id := (labelDepth + 1) % LABEL_IDS;
      labelDepth := id;
      group, inner := DeclareAll(s, id, c);
      if inner.Loop? || inner.Switch? {
        MarkGroup(group, names, TargetOf(inner), c);
      }
    }

    /** Marks the labels of a loop or switch. */
    method MarkGroup(group: seq<(Name, bool)>, ghost names: seq<Name>, ghost target: LabelTarget, ghost c: Chain)
      requires Matches(In(LabelSet(names, OnOther), c)) && !target.OnOther?
      requires |group| == |names| && forall i | 0 <= i < |group| :: group[i].0 == names[i]
      modifies `log, `labels
      ensures Matches(In(LabelSet(names, target), c))
      ensures log == old(log) + [Visit(ContinueTargets(names), In(LabelSet(names, target), c))]
    {
      hide AnyTopLevelAwait, LabelsPlaced, StateOf, Records, Mark, AtTopLevel;
      ghost var v := Visit(ContinueTargets(names), In(LabelSet(names, target), c));
      GroupKeys(labels, errors, log, names, c);
      MarkedLabels(labels, errors, log, names, target, c);
      RecordsMarking(errors, log, annexB, v);
      OneMoreAwait(log, v);
      LabelSetState(names, OnOther, c);
      LabelSetState(names, target, c);
      labels := MarkContinueTargets(labels, group, names);
      log := log + [v];
    }

    method DeclareAll(s: Stmt, id: nat, ghost c: Chain) returns (group: seq<(Name, bool)>, inner: Stmt)
      requires Matches(In(LabelSet([], OnOther), c))
      requires id == labelDepth
      modifies `errors, `log, `hasTopLevelAwait, `labels
      ensures Matches(In(LabelSet(LabelNames(s), OnOther), c)) && Grown(old(errors), errors)
      ensures log == old(log) + LabelSites(s, [], c)
      ensures inner == Unlabeled(s)
      ensures IsGroup(group, LabelNames(s), old(labels).Keys)
    {
      hide SiteErrors, AnyTopLevelAwait, LabelsPlaced, StateOf, AtTopLevel, Records, IsGroup, Snapshot;
      ghost var done: seq<Name> := [];
      group, inner := [], s;
      EmptyGroup(labels.Keys);
      while inner.Labeled?
        invariant LabelNames(s) == done + LabelNames(inner) && Unlabeled(inner) == Unlabeled(s)
        invariant IsGroup(group, done, old(labels).Keys)
        invariant labels.Keys == old(labels).Keys + set n | n in done
        invariant labelDepth == id
        invariant Matches(In(LabelSet(done, OnOther), c)) && Grown(old(errors), errors)
        invariant log + LabelSites(inner, done, c) == old(log) + LabelSites(s, [], c)
        decreases inner
      {
        var name := inner.tag.name;
        GroupExtends(group, done, name, old(labels).Keys);
        var isDuplicate := VisitLabelDef(name, inner.inner.FuncDecl?, id, done, c);
        group := group + [(name, isDuplicate)];
        done := done + [name];
        inner := inner.inner;
      }
      assert done == LabelNames(s);
    }

    method PopAllLabels(group: seq<(Name, bool)>)
      modifies `labels, `labelDepth
      ensures labels == old(labels) - FreshNames(group)
      ensures labelDepth == (old(labelDepth) + LABEL_IDS - 1) % LABEL_IDS
    {
      var i := |group|;
      while i > 0
        invariant 0 <= i <= |group|
        invariant labels == old(labels) - FreshNames(group[i..])
        invariant labelDepth == old(labelDepth)
      {
        i := i - 1;
        assert group[i..] == [group[i]] + group[i + 1..];
        if !group[i].1 {
          labels := labels - {group[i].0};
        }
      }
      labelDepth := (labelDepth + LABEL_IDS - 1) % LABEL_IDS;
    }

    // Checks.

    method Check(errs: seq<Error>, ghost site: Site, ghost c: Chain)
      requires Matches(c) && Unlabelled(site) && !site.AwaitUse?
      requires errs == StateErrors(site, Snapshot())
      modifies `errors, `log, `hasTopLevelAwait
      ensures Visited(c, [Visit(site, c)])
    {
      StateDecides(site, c, annexB);
      hide SiteErrors, StateErrors, AnyTopLevelAwait, LabelsPlaced, StateOf, AtTopLevel, Records;
      Report(errs, false, Visit(site, c), c);
    }

    method CheckIdentifier(name: Name, ghost c: Chain)
      requires Matches(c)
      modifies `errors, `log, `hasTopLevelAwait
      ensures Visited(c, [Visit(IdUse(name), c)])
    {
      hide AnyTopLevelAwait, LabelsPlaced, StateOf, Records;
      var errs := [];
      if name == ARGUMENTS && !allowArguments {
        errs := [ArgumentsInClassInitializer];
      }
      Check(errs, IdUse(name), c);
    }

    method CheckBinding(name: Name, ghost c: Chain)
      requires Matches(c)
      modifies `errors, `log, `hasTopLevelAwait
      ensures Visited(c, [Visit(BindingUse(name), c)])
    {
      hide AnyTopLevelAwait, LabelsPlaced, StateOf, Records;
      var errs;
      if name == ARGUMENTS && !allowArguments {
        errs := [ArgumentsInClassInitializer];
      } else {
        errs := ErrorIfStrictEvalOrArguments(name);
      }
      Check(errs, BindingUse(name), c);
    }

    method ErrorIfStrictEvalOrArguments(name: Name) returns (errs: seq<Error>)
      ensures errs == AssignErrors(name, strictDepth > 0)
    {
      errs := [];
      if !IsInStrictMode() { return; }
      if name == EVAL {
        errs := [AssignEvalInStrictMode];
      } else if name == ARGUMENTS {
        errs := [AssignArgumentsInStrictMode];
      }
    }

    /** The name of a function or class. */
    method CheckName(name: Name, ghost c: Chain)
      requires Matches(c)
      modifies `errors, `log, `hasTopLevelAwait
      ensures Visited(c, [Visit(NameDef(name), c)])
    {
      hide AnyTopLevelAwait, LabelsPlaced, StateOf, Records;
      var errs := ErrorIfStrictEvalOrArguments(name);
      Check(errs, NameDef(name), c);
    }

    method CheckForLabeledFunction(s: Stmt, ghost c: Chain)
      requires Matches(c)
      modifies `errors, `log, `hasTopLevelAwait
      ensures Visited(c, [Visit(Embedded(IsLabeledFunction(s)), c)])
    {
      hide AnyTopLevelAwait, LabelsPlaced, StateOf, Records;
      var errs := [];
      if s.Labeled? {
        var current := s;
        while current.inner.Labeled?
          invariant current.Labeled? && Unlabeled(current) == Unlabeled(s)
          decreases current
        {
          current := current.inner;
        }
        if current.inner.FuncDecl? && !IsInStrictMode() {
          errs := [InvalidLabeledFunction(false)];
        }
      }
      Check(errs, Embedded(IsLabeledFunction(s)), c);
    }

    method CheckDelete(operand: Expr, ghost c: Chain)
      requires Matches(c)
      modifies `errors, `log, `hasTopLevelAwait
      ensures Visited(c, [Visit(DeleteUse(DeleteKindOf(operand)), c)])
    {
      hide AnyTopLevelAwait, LabelsPlaced, StateOf, Records;
      var errs := [];
      if IsInStrictMode() {
        if operand.Id? {
          errs := [DeleteIdentifierInStrictMode];
        } else if operand.PrivateMember? {
          errs := [DeletePrivateProperty];
        }
      }
      Check(errs, DeleteUse(DeleteKindOf(operand)), c);
    }

    method VisitPrivateNameUse(name: Name, ghost c: Chain)
      requires Matches(c)
      modifies `errors, `log, `hasTopLevelAwait
      ensures Visited(c, [Visit(PrivateUse(name), c)])
    {
      hide AnyTopLevelAwait, LabelsPlaced, StateOf, Records;
      var errs := [];
      if classStack == [] {
        errs := [PrivateNameOutsideClass];
      } else {
        var isDefined := false;
        var i := |classStack|;
        while i > 0
          invariant 0 <= i <= |classStack|
          invariant isDefined <==> exists j | i <= j < |classStack| :: name in classStack[j].privateNames
        {
          i := i - 1;
          if name in classStack[i].privateNames {
            isDefined := true;
            break;
          }
        }
        if !isDefined {
          errs := [PrivateNameNotDefined(name)];
        }
      }
      Check(errs, PrivateUse(name), c);
    }

    /** Returns whether the home object of the super member is static. */
    method CheckSuperMember(isStatic: bool, ghost c: Chain) returns (home: bool)
      requires Matches(c)
      modifies `errors, `log, `hasTopLevelAwait
      ensures Visited(c, [Visit(SuperUse, c)])
      ensures home == if SuperHome(c).Some? then SuperHome(c).value else isStatic
    {
      hide AnyTopLevelAwait, LabelsPlaced, StateOf, Records, SuperHome;
      Answers(c);
      var errs := [];
      home := isStatic;
      if superStack != [] && superStack[|superStack| - 1].Allow? {
        home := superStack[|superStack| - 1].isStatic;
      } else {
        errs := [SuperPropertyOutsideMethod];
      }
      Check(errs, SuperUse, c);
    }

    method CheckSuperCall(ghost c: Chain)
      requires Matches(c)
      modifies `errors, `log, `hasTopLevelAwait
      ensures Visited(c, [Visit(SuperCallUse, c)])
    {
      hide AnyTopLevelAwait, LabelsPlaced, StateOf, Records;
      var errs := [];
      var f := EnclosingNonArrowFunction();
      if !(f.Some? && f.value.isDerivedConstructor) {
        errs := [SuperCallOutsideDerivedConstructor];
      }
      Check(errs, SuperCallUse, c);
    }

    method CheckNewTarget(ghost c: Chain)
      requires Matches(c)
      modifies `errors, `log, `hasTopLevelAwait
      ensures Visited(c, [Visit(NewTargetUse, c)])
    {
      hide AnyTopLevelAwait, LabelsPlaced, StateOf, Records;
      var errs := [];
      var f := EnclosingNonArrowFunction();
      if f.None? {
        errs := [NewTargetOutsideFunction];
      }
      Check(errs, NewTargetUse, c);
    }

    method CheckAwait(ghost c: Chain)
      requires Matches(c)
      modifies `errors, `log, `hasTopLevelAwait
      ensures Visited(c, [Visit(AwaitUse, c)])
    {
      hide AnyTopLevelAwait, LabelsPlaced, StateOf, Records, SiteErrors, AtTopLevel;
      StateDecides(AwaitUse, c, annexB);
      TopLevelAnswer(c);
      var errs := [];
      if parametersStack != [] && parametersStack[|parametersStack| - 1] {
        errs := [AwaitInParameters];
      } else if functionStack != [] && functionStack[|functionStack| - 1].isStaticInitializer {
        errs := [AwaitInStaticInitializer];
      }
      Report(errs, functionStack == [] && classStack == [], Visit(AwaitUse, c), c);
    }

    method CheckYield(ghost c: Chain)
      requires Matches(c)
      modifies `errors, `log, `hasTopLevelAwait
      ensures Visited(c, [Visit(YieldUse, c)])
    {
      hide AnyTopLevelAwait, LabelsPlaced, StateOf, Records;
      var errs := [];
      if parametersStack != [] && parametersStack[|parametersStack| - 1] {
        errs := [YieldInParameters];
      }
      Check(errs, YieldUse, c);
    }

    method CheckReturn(ghost c: Chain)
      requires Matches(c)
      modifies `errors, `log, `hasTopLevelAwait
      ensures Visited(c, [Visit(ReturnUse, c)])
    {
      hide AnyTopLevelAwait, LabelsPlaced, StateOf, Records;
      var errs := [];
      if !(allowReturnStack != [] && allowReturnStack[|allowReturnStack| - 1]) {
        errs := [ReturnOutsideFunction];
      }
      Check(errs, ReturnUse, c);
    }

    method CheckWith(ghost c: Chain)
      requires Matches(c)
      modifies `errors, `log, `hasTopLevelAwait
      ensures Visited(c, [Visit(WithUse, c)])
    {
      hide AnyTopLevelAwait, LabelsPlaced, StateOf, Records;
      var errs := [];
      if IsInStrictMode() {
        errs := [WithInStrictMode];
      }
      Check(errs, WithUse, c);
    }

    /** The checks on a parameter list, after its parameters were visited. */
    method CheckParameterList(f: Func, info: FuncInfo, ghost c: Chain)
      requires Matches(FuncPlace(f, info, c))
      modifies `errors, `log, `hasTopLevelAwait
      ensures
        var place := FuncPlace(f, info, c);
        Visited(place, [Visit(ParamList(f.hasUseStrict, f.simpleParams, f.duplicateParams), place)])
    {
      hide AnyTopLevelAwait, LabelsPlaced, Records, StrictDepth, ClassStack, ReturnStack, SuperStack, ParametersStack;
      var errs := [];
      if f.hasUseStrict && !f.simpleParams {
        errs := [UseStrictFunctionNonSimpleParameterList];
      }
      if f.duplicateParams {
        if IsInStrictMode() {
          errs := errs + [InvalidDuplicateParameters(StrictMode)];
        } else if info.isArrow {
          errs := errs + [InvalidDuplicateParameters(ArrowFunction)];
        } else if info.isMethod {
          errs := errs + [InvalidDuplicateParameters(MethodParameters)];
        } else if !f.simpleParams {
          errs := errs + [InvalidDuplicateParameters(NonSimpleParameters)];
        }
      }
      Check(errs, ParamList(f.hasUseStrict, f.simpleParams, f.duplicateParams), FuncPlace(f, info, c));
    }

    // Jumps.

    method VisitBreak(target: Option<Label>, ghost c: Chain) returns (r: Option<Label>)
      requires Matches(c)
      modifies `errors, `log, `hasTopLevelAwait
      ensures Visited(c, [Visit(BreakUse(TargetName(target)), c)])
      ensures DuplicateLabel !in errors ==> Break(r) == AnnotateStmt(Break(target), c)
    {
      hide AnyTopLevelAwait, LabelsPlaced, StateOf, Records, AtTopLevel, FindLabel, ContinueTarget, LabelId, Emits;
      hide SiteErrors, IsMarkedTarget, Home;
      var errs;
      r, errs := VisitLabelUse(target, false, c);
      BreakErrors(log, target, c, annexB, DuplicateLabel in errors);
      if target.None? && breakableDepth == 0 {
        errs := errs + [UnlabeledBreakOutsideBreakable];
      }
      assert errs == When(target.Some? && FindLabel(c, target.value.name).None?, LabelNotFound)
        + When(target.None? && StateOf(c).breakableDepth == 0, UnlabeledBreakOutsideBreakable);
      Report(errs, false, Visit(BreakUse(TargetName(target)), c), c);
    }

    method VisitContinue(target: Option<Label>, ghost c: Chain) returns (r: Option<Label>)
      requires Matches(c)
      modifies `errors, `log, `hasTopLevelAwait
      ensures Visited(c, [Visit(ContinueUse(TargetName(target)), c)])
      ensures DuplicateLabel !in errors ==> Continue(r) == AnnotateStmt(Continue(target), c)
    {
      hide AnyTopLevelAwait, LabelsPlaced, StateOf, Records, AtTopLevel, FindLabel, ContinueTarget, LabelId, Emits;
      hide SiteErrors, IsMarkedTarget, Home;
      var errs;
      r, errs := VisitLabelUse(target, true, c);
      ContinueErrors(labels, errors, log, target, c, annexB);
      if iterableDepth == 0 {
        errs := errs + [ContinueOutsideIterable];
      }
      assert errs == When(target.Some? && !IsMarkedTarget(log, c, target.value.name), LabelNotFound)
        + When(StateOf(c).iterableDepth == 0, ContinueOutsideIterable);
      Report(errs, false, Visit(ContinueUse(TargetName(target)), c), c);
    }

    method VisitLabelUse(target: Option<Label>, isContinue: bool, ghost c: Chain)
      returns (r: Option<Label>, errs: seq<Error>)
      requires Matches(c)
      ensures errs == When(
        target.Some?
        && !(if isContinue then IsMarkedTarget(log, c, target.value.name) else FindLabel(c, target.value.name).Some?),
        LabelNotFound)
      ensures r == if target.Some? && errs == [] then Some(OutermostLabel(target.value, c)) else target
      ensures DuplicateLabel !in errors ==>
        r == if target.Some? then Some(AnnotateLabel(target.value, c, isContinue)) else None
    {
      hide AnyTopLevelAwait, StateOf, Records, TargetsMarked, Marked, Home, LabelMap, FindLabel, Snapshot;
      r, errs := target, [];
      if target.Some? {
        var l := target.value;
        LabelAnswer(c, l.name);
        HomeAnswer(c, l.name);
        if l.name !in labels {
          errs := [LabelNotFound];
        } else if isContinue && !labels[l.name].isContinueTarget {
          errs := [LabelNotFound];
        } else {
          r := Some(l.(id := labels[l.name].id));
        }
      }
    }

    // Expressions.

    method VisitExpression(e: Expr, ghost c: Chain) returns (r: Expr)
      requires Matches(c)
      modifies this
      ensures Visited(c, ExprSites(e, c))
      ensures DuplicateLabel !in errors ==> r == AnnotateExpr(e, c)
      ensures hasAssign == (old(hasAssign) || HasAssign(e))
      decreases e, 2
    {
      hide AnyTopLevelAwait, LabelsPlaced, StateOf, Records, UnarySites, CallSites, AnnotateUnary, AnnotateCall;
      hide Snapshot, FuncSites, ClassSites, AnnotateFunc, AnnotateClass, ExprsSites, AnnotateExprs;
      match e
      case Leaf => r := e;
      case Id(name) =>
        CheckIdentifier(name, c);
        r := e;
      case Binding(name) =>
        CheckBinding(name, c);
        r := e;
      case NewTarget =>
        CheckNewTarget(c);
        r := e;
      case Compound(children) =>
        var children' := VisitExpressions(children, c);
        r := Compound(children');
      case ClassExpr(k) =>
        var k' := VisitClass(k, c);
        r := ClassExpr(k');
      case FunctionExpr(f) =>
        var f' := VisitFunctionCommon(f, FunctionInfo(false, false), c);
        r := FunctionExpr(f');
      case Arrow(f) =>
        var f' := VisitFunctionCommon(f, FunctionInfo(true, false), c);
        r := Arrow(f');
      case ObjectMethod(f) =>
        var f' := VisitFunctionCommon(f, FunctionInfo(false, true), c);
        r := ObjectMethod(f');
      case Assign(_, _) => r := VisitAssignment(e, c);
      case SuperCall(_) => r := VisitCall(e, c);
      case Yield(_) => r := VisitCall(e, c);
      case EvalCall(_, _) => r := VisitCall(e, c);
      case _ => r := VisitUnary(e, c);
    }

    /** Expressions with one operand and a check of their own. */
    method VisitUnary(e: Expr, ghost c: Chain) returns (r: Expr)
      requires IsUnary(e) && Matches(c)
      modifies this
      ensures Visited(c, UnarySites(e, c))
      ensures DuplicateLabel !in errors ==> r == AnnotateUnary(e, c)
      ensures hasAssign == (old(hasAssign) || HasAssign(e))
      decreases e, 1
    {
      hide AnyTopLevelAwait, LabelsPlaced, StateOf, Records, SuperHome, ExprSites, AnnotateExpr, DeleteKindOf, Snapshot;
      var isStaticHome := false;
      match e {
        case Delete(x) => CheckDelete(x, c);
        case PrivateMember(_, name) => VisitPrivateNameUse(name, c);
        case PrivateIn(name, _) => VisitPrivateNameUse(name, c);
        case SuperMember(_, isStatic) => isStaticHome := CheckSuperMember(isStatic, c);
        case Await(_) => CheckAwait(c);
      }
      var x' := VisitExpression(Operand(e), c);
      match e {
        case Delete(_) => r := Delete(x');
        case PrivateMember(_, name) => r := PrivateMember(x', name);
        case PrivateIn(name, _) => r := PrivateIn(name, x');
        case SuperMember(_, _) => r := SuperMember(x', isStaticHome);
        case Await(_) => r := Await(x');
      }
    }

    method VisitAssignment(e: Expr, ghost c: Chain) returns (r: Expr)
      requires e.Assign? && Matches(c)
      modifies this
      ensures Visited(c, ExprSites(e, c))
      ensures DuplicateLabel !in errors ==> r == AnnotateExpr(e, c)
      ensures hasAssign
      decreases e, 1
    {
      hide AnyTopLevelAwait, LabelsPlaced, StateOf, Records, Snapshot;
      hasAssign := true;
      r := DefaultVisitAssignment(e, c);
    }

    method DefaultVisitAssignment(e: Expr, ghost c: Chain) returns (r: Expr)
      requires e.Assign? && Matches(c)
      modifies this
      ensures Visited(c, ExprSites(e, c))
      ensures DuplicateLabel !in errors ==> r == AnnotateExpr(e, c)
      ensures hasAssign == (old(hasAssign) || HasAssign(e.left) || HasAssign(e.right))
      decreases e, 0
    {
      hide AnyTopLevelAwait, LabelsPlaced, StateOf, Records;
      var left := VisitExpression(e.left, c);
      var right := VisitExpression(e.right, c);
      r := Assign(left, right);
    }

    /** Expressions with a list of operands and a check of their own. */
    method VisitCall(e: Expr, ghost c: Chain) returns (r: Expr)
      requires IsCall(e) && Matches(c)
      modifies this
      ensures Visited(c, CallSites(e, c))
      ensures DuplicateLabel !in errors ==> r == AnnotateCall(e, c)
      ensures hasAssign == (old(hasAssign) || HasAssign(e))
      decreases e, 1
    {
      hide AnyTopLevelAwait, LabelsPlaced, StateOf, Records, NearestNonArrow, LastNonArrow, ExprsSites, AnnotateExprs;
      var context := None;
      match e {
        case SuperCall(_) => CheckSuperCall(c);
        case Yield(_) => CheckYield(c);
        case EvalCall(_, _) =>
          EvalContextOf(c);
          context := EnclosingNonArrowFunction();
          CheckIdentifier(EVAL, c);
      }
      var args' := VisitExpressions(e.args, c);
      match e {
        case SuperCall(_) => r := SuperCall(args');
        case Yield(_) => r := Yield(args');
        case EvalCall(_, oldContext) => r := EvalCall(args', if context.Some? then context else oldContext);
      }
    }

    method VisitExpressions(es: seq<Expr>, ghost c: Chain) returns (r: seq<Expr>)
      requires Matches(c)
      modifies this
      ensures Visited(c, ExprsSites(es, c))
      ensures DuplicateLabel !in errors ==> r == AnnotateExprs(es, c)
      ensures hasAssign == (old(hasAssign) || AnyHasAssign(es))
      decreases es, 0
    {
      hide AnyTopLevelAwait, LabelsPlaced, StateOf, Records, Snapshot, ExprSites, AnnotateExpr, HasAssign;
      r := [];
      for i := 0 to |es|
        invariant Visited(c, ExprsSites(es[..i], c))
        invariant DuplicateLabel !in errors ==> r == AnnotateExprs(es[..i], c)
        invariant hasAssign == (old(hasAssign) || exists j | 0 <= j < i :: HasAssign(es[j]))
      {
        assert es[..i + 1][..i] == es[..i];
        var x := VisitExpression(es[i], c);
        r := r + [x];
      }
      assert es[..|es|] == es;
    }

    method VisitOuter(o: Outer, ghost c: Chain) returns (r: Outer)
      requires Matches(c)
      modifies this
      ensures Visited(c, ExprSites(o.expr, c))
      ensures DuplicateLabel !in errors ==> r == AnnotateOuter(o, c)
      decreases o, 3
    {
      hide AnyTopLevelAwait, LabelsPlaced, StateOf, Records, Snapshot;
      hasAssign := false;
      var x := VisitExpression(o.expr, c);
      r := Outer(x, hasAssign);
      hasAssign := false;
    }

    method VisitOptional(o: Option<Outer>, ghost c: Chain) returns (r: Option<Outer>)
      requires Matches(c)
      modifies this
      ensures Visited(c, OptSites(o, c))
      ensures DuplicateLabel !in errors ==> r == AnnotateOpt(o, c)
      decreases o, 4
    {
      hide AnyTopLevelAwait, LabelsPlaced, StateOf, Records, Snapshot, ExprSites, AnnotateOuter;
      r := None;
      if o.Some? {
        var x := VisitOuter(o.value, c);
        r := Some(x);
      }
    }

    /** A pattern in an assignment context of its own. */
    method VisitPattern(p: Expr, ghost c: Chain) returns (r: Expr, assigns: bool)
      requires Matches(c)
      modifies this
      ensures Visited(c, ExprSites(p, c))
      ensures DuplicateLabel !in errors ==> r == AnnotateExpr(p, c)
      ensures assigns == HasAssign(p)
      decreases p, 3
    {
      hide AnyTopLevelAwait, LabelsPlaced, StateOf, Records, Snapshot, ExprSites, AnnotateExpr, HasAssign;
      hasAssign := false;
      r := VisitExpression(p, c);
      assigns := hasAssign;
      hasAssign := false;
    }

    // Functions and classes.

    /** Everything between pushing a function's entry and visiting its name. */
    method EnterFunction(isStrict: bool, info: FuncInfo) returns (saved: SavedState)
      modifies `strictDepth, `labels, `labelDepth, `breakableDepth, `iterableDepth, `functionStack
      modifies `allowArguments, `allowReturnStack, `superStack, `parametersStack
      ensures Snapshot() == Entered(old(Snapshot()), info, isStrict) && labels == map[]
      ensures saved == SavedState(
        old(labels), old(labelDepth), old(breakableDepth), old(iterableDepth), old(allowArguments), old(hasAssign))
    {
      functionStack := functionStack + [info];
      allowReturnStack := allowReturnStack + [!info.isStaticInitializer];
      parametersStack := parametersStack + [false];
      if !info.isArrow {
        superStack := superStack + [SuperOf(info)];
      }
      saved := SaveState();
      if isStrict {
        strictDepth := strictDepth + 1;
      }
      if info.isStaticInitializer {
        allowArguments := false;
      } else if !info.isArrow {
        allowArguments := true;
      }
    }

    /** Leaves a function that was entered from state `before`. */
    method ExitFunction(isStrict: bool, info: FuncInfo, saved: SavedState, ghost before: State)
      requires Snapshot() == Entered(before, info, isStrict)
      requires saved.labelDepth == before.labelDepth && saved.breakableDepth == before.breakableDepth
      requires saved.iterableDepth == before.iterableDepth && saved.allowArguments == before.allowArguments
      modifies `strictDepth, `labels, `labelDepth, `breakableDepth, `iterableDepth, `functionStack
      modifies `allowArguments, `allowReturnStack, `superStack, `parametersStack, `hasAssign
      ensures Snapshot() == before && labels == saved.labels && hasAssign == saved.hasAssign
    {
      EnteredIsUndone(before, info, isStrict);
      hide Entered;
      if isStrict {
        strictDepth := strictDepth - 1;
      }
      if !info.isArrow {
        superStack := superStack[..|superStack| - 1];
      }
      parametersStack := parametersStack[..|parametersStack| - 1];
      allowReturnStack := allowReturnStack[..|allowReturnStack| - 1];
      functionStack := functionStack[..|functionStack| - 1];
      RestoreState(saved);
    }

    method VisitFunctionCommon(f: Func, info: FuncInfo, ghost c: Chain) returns (r: Func)
      requires Matches(c)
      modifies this
      ensures Visited(c, FuncSites(f, info, c))
      ensures DuplicateLabel !in errors ==> r == AnnotateFunc(f, info, c)
      ensures hasAssign == old(hasAssign)
      decreases f, 2
    {
      hide AnyTopLevelAwait, LabelsPlaced, StateOf, Records, Entered, FuncPartSites, AnnotateFuncParts;
      FunctionState(info, f.isStrict, c);
      BoundaryLabels(labels, errors, log, Function(info, f.isStrict), c);
      var saved := EnterFunction(f.isStrict, info);
      r := VisitFunctionParts(f, info, c);
      SitePlaces.FuncPlaces(f, info, c);
      LabelsGrow(saved.labels, old(errors), errors, old(log), FuncSites(f, info, c), c);
      ExitFunction(f.isStrict, info, saved, StateOf(c));
    }

    method VisitFunctionParts(f: Func, info: FuncInfo, ghost c: Chain) returns (r: Func)
      requires Matches(FuncPlace(f, info, c))
      modifies this
      ensures Visited(FuncPlace(f, info, c), FuncPartSites(f, info, FuncPlace(f, info, c)))
      ensures DuplicateLabel !in errors ==> r == AnnotateFuncParts(f, FuncPlace(f, info, c))
      decreases f, 1
    {
      hide AnyTopLevelAwait, LabelsPlaced, StateOf, Records, Snapshot, ParamsSites, BodySites, AnnotateParams;
      hide AnnotateBody;
      ghost var fc := FuncPlace(f, info, c);
      if !info.isMethod && f.id.Some? {
        CheckName(f.id.value, fc);
      }
      var params' := VisitParameters(f.params, fc);
      CheckParameterList(f, info, c);
      var body' := VisitBody(f.body, fc);
      r := f.(params := params', body := body');
    }

    method VisitParameters(ps: seq<Param>, ghost c: Chain) returns (r: seq<Param>)
      requires Matches(c)
      modifies this
      ensures Visited(c, ParamsSites(ps, In(Parameters, c)))
      ensures DuplicateLabel !in errors ==> r == AnnotateParams(ps, In(Parameters, c))
      decreases ps, 1
    {
      hide AnyTopLevelAwait, LabelsPlaced, StateOf, Records;
      ghost var pc := In(Parameters, c);
      ParametersState(c);
      SameLabels(labels, errors, log, Parameters, c);
      parametersStack := parametersStack + [true];
      r := VisitParamList(ps, pc);
      SameLabels(labels, errors, log, Parameters, c);
      parametersStack := parametersStack[..|parametersStack| - 1];
    }

    method VisitParamList(ps: seq<Param>, ghost c: Chain) returns (r: seq<Param>)
      requires Matches(c)
      modifies this
      ensures Visited(c, ParamsSites(ps, c))
      ensures DuplicateLabel !in errors ==> r == AnnotateParams(ps, c)
      decreases ps, 0
    {
      hide AnyTopLevelAwait, LabelsPlaced, StateOf, Records, Snapshot, ParamSites, AnnotateParam;
      r := [];
      for i := 0 to |ps|
        invariant Visited(c, ParamsSites(ps[..i], c))
        invariant DuplicateLabel !in errors ==> r == AnnotateParams(ps[..i], c)
      {
        assert ps[..i + 1][..i] == ps[..i];
        var x := VisitParam(ps[i], c);
        r := r + [x];
      }
      assert ps[..|ps|] == ps;
    }

    method VisitParam(p: Param, ghost c: Chain) returns (r: Param)
      requires Matches(c)
      modifies this
      ensures Visited(c, ParamSites(p, c))
      ensures DuplicateLabel !in errors ==> r == AnnotateParam(p, c)
      decreases p, 4
    {
      hide AnyTopLevelAwait, LabelsPlaced, StateOf, Records, Snapshot, ExprSites, AnnotateExpr, HasAssign;
      var x, assigns := VisitPattern(p.pattern, c);
      r := Param(x, assigns);
    }

    method VisitBody(b: Body, ghost c: Chain) returns (r: Body)
      requires Matches(c)
      modifies this
      ensures Visited(c, BodySites(b, c))
      ensures DuplicateLabel !in errors ==> r == AnnotateBody(b, c)
      decreases b, 4
    {
      hide AnyTopLevelAwait, LabelsPlaced, StateOf, Records, Snapshot, StmtsSites, ExprSites, AnnotateStmts;
      hide AnnotateOuter;
      match b
      case BlockBody(stmts) =>
        var stmts' := VisitStatements(stmts, c);
        r := BlockBody(stmts');
      case ExprBody(x) =>
        var x' := VisitOuter(x, c);
        r := ExprBody(x');
    }

    method VisitClass(k: Class, ghost c: Chain) returns (r: Class)
      requires Matches(c)
      modifies this
      ensures Visited(c, ClassSites(k, c))
      ensures DuplicateLabel !in errors ==> r == AnnotateClass(k, c)
      ensures hasAssign == old(hasAssign)
      decreases k, 2
    {
      hide AnyTopLevelAwait, LabelsPlaced, StateOf, Records, ElementsSites, AnnotateElements, OptSites;
      hide AnnotateOpt, ClassBodySites, AnnotateClassBody;
      StrictState(c);
      SameLabels(labels, errors, log, Strict, c);
      strictDepth := strictDepth + 1;
      if k.id.Some? {
        CheckName(k.id.value, In(Strict, c));
      }
      var heritage', elements' := VisitClassParts(k, c);
      SameLabels(labels, errors, log, Strict, c);
      strictDepth := strictDepth - 1;
      r := k.(heritage := heritage', elements := elements');
    }

    /** Enters a heritage expression, which sees no labels and is in no loop or switch. */
    method EnterHeritage(ghost c: Chain) returns (saved: SavedState)
      requires Matches(In(Strict, c))
      modifies `labels, `labelDepth, `breakableDepth, `iterableDepth
      ensures Matches(In(Heritage, c)) && IsSaved(saved, StateOf(In(Strict, c)))
      ensures LabelsPlaced(saved.labels, errors, log, c) && saved.hasAssign == hasAssign
    {
      hide AnyTopLevelAwait, LabelsPlaced, StateOf, Records;
      HeritageState(c);
      SameLabels(labels, errors, log, Strict, c);
      BoundaryLabels(labels, errors, log, Heritage, c);
      saved := SaveState();
    }

    /** Leaves it, or the class body after it. */
    method LeaveHeritage(saved: SavedState, ghost c: Chain)
      requires Matches(In(Heritage, c)) && IsSaved(saved, StateOf(In(Strict, c)))
      requires LabelsPlaced(saved.labels, errors, log, c)
      modifies `labels, `labelDepth, `breakableDepth, `iterableDepth, `allowArguments, `hasAssign
      ensures Matches(In(Strict, c)) && hasAssign == saved.hasAssign
    {
      hide AnyTopLevelAwait, LabelsPlaced, StateOf, Records;
      HeritageState(c);
      SameLabels(saved.labels, errors, log, Strict, c);
      RestoreState(saved);
    }

    /** A class without its name, from its heritage on. */
    method VisitClassParts(k: Class, ghost c: Chain) returns (heritage': Option<Outer>, elements': seq<Element>)
      requires Matches(In(Strict, c))
      modifies this
      ensures Visited(In(Strict, c), OptSites(k.heritage, In(Heritage, c)) + ClassBodySites(k, c))
      ensures DuplicateLabel !in errors ==> heritage' == AnnotateOpt(k.heritage, In(Heritage, c))
      ensures DuplicateLabel !in errors ==> elements' == AnnotateClassBody(k, c)
      ensures hasAssign == old(hasAssign)
      decreases k, 1
    {
      hide AnyTopLevelAwait, LabelsPlaced, StateOf, Records, Snapshot, IsSaved;
      hide OptSites, AnnotateOpt, ClassBodySites, AnnotateClassBody;
      var saved := EnterHeritage(c);
      heritage' := VisitOptional(k.heritage, In(Heritage, c));
      elements' := VisitClassBody(k, c);
      SitePlaces.ClassPartPlaces(k, c);
      ghost var sites := OptSites(k.heritage, In(Heritage, c)) + ClassBodySites(k, c);
      assert log == old(log) + sites;
      LabelsGrow(saved.labels, old(errors), errors, old(log), sites, c);
      LeaveHeritage(saved, c);
    }

    /** The part of a class in which its private names are in scope. */
    method VisitClassBody(k: Class, ghost c: Chain) returns (r: seq<Element>)
      requires Matches(In(Heritage, c))
      modifies this
      ensures Visited(In(Heritage, c), ClassBodySites(k, c))
      ensures DuplicateLabel !in errors ==> r == AnnotateClassBody(k, c)
      decreases k, 0
    {
      hide AnyTopLevelAwait, LabelsPlaced, StateOf, Records, Usages, ElementsSites, AnnotateElements, PairStarts;
      var names, starts := CheckPrivateNames(k, c);
      ClassBodyLabels(labels, errors, log, k, c);
      ClassStackGrows(k, names, c);
      classStack := classStack + [ClassEntry(names, k.heritage.Some?)];
      r := VisitElements(k.elements, k.heritage.Some?, starts, ClassPlace(k, c));
      ClassBodyLabels(labels, errors, log, k, c);
      classStack := classStack[..|classStack| - 1];
    }

    /** Collects the private names of a class body, reports the errors in them and marks the accessor pairs. */
    method CheckPrivateNames(k: Class, ghost c: Chain) returns (names: map<Name, Usage>, starts: seq<bool>)
      requires Matches(In(Heritage, c))
      modifies `errors, `log, `hasTopLevelAwait
      ensures Visited(In(Heritage, c), [Visit(PrivateDefs(k.elements), In(Heritage, c))])
      ensures names == Usages(k.elements) && starts == PairStarts(k.elements) && |starts| == |k.elements|
    {
      hide AnyTopLevelAwait, LabelsPlaced, StateOf, Records, StartsPair, Usages;
      var errs;
      names, errs, starts := CollectClassPrivateNames(k.elements);
      assert starts == PairStarts(k.elements);
      hide PairStarts, PrivateErrors;
      Check(errs, PrivateDefs(k.elements), In(Heritage, c));
    }

    method VisitElements(els: seq<Element>, isDerived: bool, starts: seq<bool>, ghost c: Chain)
      returns (r: seq<Element>)
      requires Matches(c) && |starts| == |els|
      requires c.In? && c.frame.ClassBody? && c.frame.isDerived == isDerived
      modifies this
      ensures Visited(c, ElementsSites(els, isDerived, c))
      ensures DuplicateLabel !in errors ==> r == AnnotateElements(els, isDerived, starts, c)
      decreases els, 0
    {
      hide AnyTopLevelAwait, LabelsPlaced, StateOf, Records, Snapshot, ElementSites, AnnotateElement;
      r := [];
      for i := 0 to |els|
        invariant Visited(c, ElementsSites(els[..i], isDerived, c))
        invariant DuplicateLabel !in errors ==> r == AnnotateElements(els[..i], isDerived, starts[..i], c)
      {
        assert els[..i + 1][..i] == els[..i] && starts[..i + 1][..i] == starts[..i];
        var x := VisitElement(els[i], starts[i], c);
        r := r + [x];
      }
      assert els[..|els|] == els && starts[..|els|] == starts;
    }

    method VisitElement(e: Element, start: bool, ghost c: Chain) returns (r: Element)
      requires Matches(c)
      requires c.In? && c.frame.ClassBody?
      modifies this
      ensures Visited(c, ElementSites(e, c.frame.isDerived, c))
      ensures DuplicateLabel !in errors ==> r == AnnotateElement(e, c.frame.isDerived, start, c)
      decreases e, 5
    {
      hide AnyTopLevelAwait, LabelsPlaced, StateOf, Records, Snapshot, KeySites, OptSites, AnnotateKey;
      hide AnnotateOpt, FuncSites, AnnotateFunc;
      var key' := VisitKey(e.key, c);
      match e
      case Method(kind, _, isStatic, f, pairStart) =>
        var f' := VisitMethod(e, c);
        r := Method(kind, key', isStatic, f', pairStart || start);
      case Property(_, isStatic, value) =>
        var value' := VisitInitializer(value, isStatic, c);
        r := Property(key', isStatic, value');
    }

    method VisitMethod(m: Element, ghost c: Chain) returns (r: Func)
      requires m.Method? && Matches(c)
      requires c.In? && c.frame.ClassBody?
      modifies this
      ensures Visited(c, FuncSites(m.func, MethodInfo(m, c.frame.isDerived), c))
      ensures DuplicateLabel !in errors ==> r == AnnotateFunc(m.func, MethodInfo(m, c.frame.isDerived), c)
      decreases m, 4
    {
      hide AnyTopLevelAwait, LabelsPlaced, StateOf, Records, FuncSites, AnnotateFunc;
      InnermostClass(c);
      var isDerived := classStack[|classStack| - 1].isDerived;
      var info := FuncInfo(false, true, m.isStatic, m.kind.Constructor? && isDerived, m.kind.StaticInitializer?, false);
      r := VisitFunctionCommon(m.func, info, c);
    }

    method VisitKey(k: Key, ghost c: Chain) returns (r: Key)
      requires Matches(c)
      modifies this
      ensures Visited(c, KeySites(k, c))
      ensures DuplicateLabel !in errors ==> r == AnnotateKey(k, c)
      decreases k, 4
    {
      hide AnyTopLevelAwait, LabelsPlaced, StateOf, Records, Snapshot, ExprSites, AnnotateOuter;
      r := k;
      if k.Computed? {
        var x := VisitOuter(k.expr, c);
        r := Computed(x);
      }
    }

    /** A field initializer acts as a method of its own, in which `arguments` is not allowed. */
    method VisitInitializer(value: Option<Outer>, isStatic: bool, ghost c: Chain) returns (r: Option<Outer>)
      requires Matches(c)
      modifies this
      ensures Visited(c, OptSites(value, In(FieldInit(isStatic), c)))
      ensures DuplicateLabel !in errors ==> r == AnnotateOpt(value, In(FieldInit(isStatic), c))
      decreases value, 5
    {
      hide AnyTopLevelAwait, LabelsPlaced, StateOf, Records, OptSites, AnnotateOpt;
      FieldInitState(isStatic, c);
      SameLabels(labels, errors, log, FieldInit(isStatic), c);
      var oldAllowArguments := allowArguments;
      allowArguments := false;
      superStack := superStack + [Allow(isStatic)];
      functionStack := functionStack + [FuncInfo(false, true, isStatic, false, false, true)];
      r := VisitOptional(value, In(FieldInit(isStatic), c));
      SameLabels(labels, errors, log, FieldInit(isStatic), c);
      functionStack := functionStack[..|functionStack| - 1];
      superStack := superStack[..|superStack| - 1];
      allowArguments := oldAllowArguments;
    }

    // Statements.

    method VisitStatement(s: Stmt, ghost c: Chain) returns (r: Stmt)
      requires Matches(c)
      modifies this
      ensures Visited(c, StmtSites(s, c))
      ensures DuplicateLabel !in errors ==> r == AnnotateStmt(s, c)
      decreases s, 2
    {
      hide AnyTopLevelAwait, LabelsPlaced, StateOf, Records, AnnotateLabel, Snapshot, IfSites, SwitchSites;
      hide LoopSites, WithSites, TrySites, ExprSites, FuncSites, ClassSites, AnnotateIf, AnnotateSwitch;
      hide AnnotateLoop, AnnotateWith, AnnotateTry, AnnotateFunc, AnnotateClass, StmtsSites, DeclsSites;
      hide OptSites, AnnotateStmts, AnnotateDecls, AnnotateOpt, AnnotateOuter, AnnotateExpr, HasAssign;
      hide StatementHasAssign;
      match s
      case Empty => r := s;
      case ExprStmt(x) => r := VisitExpressionStatement(s, c);
      case VarDecl(decls) =>
        var decls' := VisitDeclarators(decls, c);
        r := VarDecl(decls');
      case FuncDecl(f) =>
        var f' := VisitFunctionCommon(f, FunctionInfo(false, false), c);
        r := FuncDecl(f');
      case ClassDecl(k) =>
        var k' := VisitClass(k, c);
        r := ClassDecl(k');
      case Block(body) =>
        var body' := VisitStatements(body, c);
        r := Block(body');
      case Break(target) =>
        var target' := VisitBreak(target, c);
        r := Break(target');
      case Continue(target) =>
        var target' := VisitContinue(target, c);
        r := Continue(target');
      case Throw(x) =>
        var x' := VisitOuter(x, c);
        r := Throw(x');
      case Return(x) =>
        CheckReturn(c);
        var x' := VisitOptional(x, c);
        r := Return(x');
      case If(_, _, _) => r := VisitIf(s, c);
      case Switch(_, _) => r := VisitSwitch(s, c);
      case Loop(_, _, _) => r := VisitLoop(s, c);
      case With(_, _) => r := VisitWith(s, c);
      case Try(_, _, _) => r := VisitTry(s, c);
      case Labeled(_, _) => r := VisitLabeled(s, c);
    }

    method VisitExpressionStatement(s: Stmt, ghost c: Chain) returns (r: Stmt)
      requires s.ExprStmt? && Matches(c)
      modifies this
      ensures Visited(c, StmtSites(s, c))
      ensures DuplicateLabel !in errors ==> r == AnnotateStmt(s, c)
      decreases s, 1
    {
      hide AnyTopLevelAwait, LabelsPlaced, StateOf, Records, Snapshot;
      if s.expr.expr.Assign? {
        hasAssign := false;
        var x := DefaultVisitAssignment(s.expr.expr, c);
        r := ExprStmt(Outer(x, hasAssign));
        hasAssign := false;
      } else {
        var x := VisitOuter(s.expr, c);
        r := ExprStmt(x);
      }
    }

    method VisitIf(s: Stmt, ghost c: Chain) returns (r: Stmt)
      requires s.If? && Matches(c)
      modifies this
      ensures Visited(c, IfSites(s, c))
      ensures DuplicateLabel !in errors ==> r == AnnotateIf(s, c)
      decreases s, 1
    {
      hide StmtSites, AnnotateStmt, AnyTopLevelAwait, LabelsPlaced, StateOf, Records, Snapshot, ExprSites;
      hide AnnotateExpr, IsLabeledFunction, AnnotateOuter, HasAssign;
      CheckForLabeledFunction(s.conseq, c);
      if s.altern.Some? {
        CheckForLabeledFunction(s.altern.value, c);
      }
      var test' := VisitOuter(s.test, c);
      var conseq' := VisitStatement(s.conseq, c);
      var altern' := VisitBranch(s.altern, c);
      IfLog(old(log), s, c);
      hide IfSites;
      r := If(test', conseq', altern');
    }

    /** The statement of a branch, if there is one. */
    method VisitBranch(o: Option<Stmt>, ghost c: Chain) returns (r: Option<Stmt>)
      requires Matches(c)
      modifies this
      ensures Visited(c, if o.Some? then StmtSites(o.value, c) else [])
      ensures DuplicateLabel !in errors ==> r == if o.Some? then Some(AnnotateStmt(o.value, c)) else None
      decreases o, 3
    {
      hide StmtSites, AnnotateStmt, AnyTopLevelAwait, LabelsPlaced, StateOf, Records, Snapshot;
      match o {
        case None => r := None;
        case Some(s) =>
          var x := VisitStatement(s, c);
          r := Some(x);
      }
    }

    /** Enters a switch. */
    method IncBreakableDepth(ghost c: Chain)
      requires Matches(c)
      modifies `breakableDepth
      ensures Matches(In(SwitchBody, c)) && breakableDepth == old(breakableDepth) + 1
    {
      hide AnyTopLevelAwait, LabelsPlaced, StateOf, Records;
      SwitchState(c);
      SameLabels(labels, errors, log, SwitchBody, c);
      breakableDepth := breakableDepth + 1;
    }

    method DecBreakableDepth(ghost c: Chain)
      requires Matches(In(SwitchBody, c))
      modifies `breakableDepth
      ensures Matches(c) && breakableDepth == old(breakableDepth) - 1
    {
      hide AnyTopLevelAwait, LabelsPlaced, StateOf, Records;
      SwitchState(c);
      SameLabels(labels, errors, log, SwitchBody, c);
      breakableDepth := breakableDepth - 1;
    }

    /** Enters a loop, which is also breakable. */
    method IncIterableDepth(ghost c: Chain)
      requires Matches(c)
      modifies `iterableDepth, `breakableDepth
      ensures Matches(In(LoopBody, c))
      ensures iterableDepth == old(iterableDepth) + 1 && breakableDepth == old(breakableDepth) + 1
    {
      hide AnyTopLevelAwait, LabelsPlaced, StateOf, Records;
      LoopState(c);
      SameLabels(labels, errors, log, LoopBody, c);
      iterableDepth := iterableDepth + 1;
      breakableDepth := breakableDepth + 1;
    }

    method DecIterableDepth(ghost c: Chain)
      requires Matches(In(LoopBody, c))
      modifies `iterableDepth, `breakableDepth
      ensures Matches(c)
      ensures iterableDepth == old(iterableDepth) - 1 && breakableDepth == old(breakableDepth) - 1
    {
      hide AnyTopLevelAwait, LabelsPlaced, StateOf, Records;
      LoopState(c);
      SameLabels(labels, errors, log, LoopBody, c);
      iterableDepth := iterableDepth - 1;
      breakableDepth := breakableDepth - 1;
    }

    method VisitSwitch(s: Stmt, ghost c: Chain) returns (r: Stmt)
      requires s.Switch? && Matches(c)
      modifies this
      ensures Visited(c, SwitchSites(s, c))
      ensures DuplicateLabel !in errors ==> r == AnnotateSwitch(s, c)
      decreases s, 1
    {
      hide StmtSites, AnnotateStmt, AnyTopLevelAwait, LabelsPlaced, StateOf, Records, Snapshot, CasesSites;
      hide AnnotateCases, ExprSites, AnnotateExpr, AnnotateOuter;
      IncBreakableDepth(c);
      var x := VisitOuter(s.discriminant, In(SwitchBody, c));
      var cases' := VisitCases(s.cases, In(SwitchBody, c));
      DecBreakableDepth(c);
      r := Switch(x, cases');
    }

    method VisitLoop(s: Stmt, ghost c: Chain) returns (r: Stmt)
      requires s.Loop? && Matches(c)
      modifies this
      ensures Visited(c, LoopSites(s, c))
      ensures DuplicateLabel !in errors ==> r == AnnotateLoop(s, c)
      decreases s, 1
    {
      hide StmtSites, AnnotateStmt, AnyTopLevelAwait, LabelsPlaced, StateOf, Records, Snapshot;
      hide HeadsSites, AnnotateHeads, IsLabeledFunction;
      IncIterableDepth(c);
      CheckForLabeledFunction(s.loopBody, In(LoopBody, c));
      var heads' := VisitHeads(s.heads, In(LoopBody, c));
      var body' := VisitStatement(s.loopBody, In(LoopBody, c));
      DecIterableDepth(c);
      r := Loop(s.kind, heads', body');
    }

    method VisitWith(s: Stmt, ghost c: Chain) returns (r: Stmt)
      requires s.With? && Matches(c)
      modifies this
      ensures Visited(c, WithSites(s, c))
      ensures DuplicateLabel !in errors ==> r == AnnotateWith(s, c)
      decreases s, 1
    {
      hide StmtSites, AnnotateStmt, AnyTopLevelAwait, LabelsPlaced, StateOf, Records, Snapshot, ExprSites;
      hide AnnotateExpr, AnnotateOuter, IsLabeledFunction;
      CheckWith(c);
      CheckForLabeledFunction(s.withBody, c);
      var x := VisitOuter(s.subject, c);
      var body' := VisitStatement(s.withBody, c);
      r := With(x, body');
    }

    method VisitTry(s: Stmt, ghost c: Chain) returns (r: Stmt)
      requires s.Try? && Matches(c)
      modifies this
      ensures Visited(c, TrySites(s, c))
      ensures DuplicateLabel !in errors ==> r == AnnotateTry(s, c)
      decreases s, 1
    {
      hide StmtSites, AnnotateStmt, AnyTopLevelAwait, LabelsPlaced, StateOf, Records, Snapshot, CatchSites;
      hide AnnotateCatch;
      var block' := VisitStatement(s.block, c);
      var handler' := None;
      if s.handler.Some? {
        var h := VisitCatch(s.handler.value, c);
        handler' := Some(h);
      }
      var finalizer' := VisitBranch(s.finalizer, c);
      r := Try(block', handler', finalizer');
    }

    method VisitCatch(h: Catch, ghost c: Chain) returns (r: Catch)
      requires Matches(c)
      modifies this
      ensures Visited(c, CatchSites(h, c))
      ensures DuplicateLabel !in errors ==> r == AnnotateCatch(h, c)
      decreases h, 4
    {
      hide AnyTopLevelAwait, LabelsPlaced, StateOf, Records, Snapshot, ExprSites, AnnotateExpr, StmtSites;
      hide AnnotateStmt, HasAssign;
      r := h;
      if h.param.Some? {
        var p, assigns := VisitPattern(h.param.value, c);
        r := r.(param := Some(p), paramHasAssign := assigns);
      }
      var body' := VisitStatement(h.body, c);
      r := r.(body := body');
    }

    method VisitLabeled(s: Stmt, ghost c: Chain) returns (r: Stmt)
      requires s.Labeled? && Matches(c)
      modifies this
      ensures Visited(c, StmtSites(s, c))
      ensures DuplicateLabel !in errors ==> r == AnnotateStmt(s, c)
      decreases s, 1
    {
      hide AnyTopLevelAwait, LabelsPlaced, StateOf, Records, IsGroup, LabelId, LabelMap, LabelSites, Relabel;
      hide LabelNames, Unlabeled;
      var group, id, inner := PushAllLabels(s, c);
      var inner' := VisitStatement(inner, LabeledPlace(s, c));
      PoppedLabels(labels, errors, log, group, LabelNames(s), TargetOf(Unlabeled(s)), c);
      LabelSetState(LabelNames(s), TargetOf(Unlabeled(s)), c);
      PopAllLabels(group);
      r := Relabel(s, id, inner');
    }

    method VisitStatements(ss: seq<Stmt>, ghost c: Chain) returns (r: seq<Stmt>)
      requires Matches(c)
      modifies this
      ensures Visited(c, StmtsSites(ss, c))
      ensures DuplicateLabel !in errors ==> r == AnnotateStmts(ss, c)
      decreases ss, 0
    {
      hide AnyTopLevelAwait, LabelsPlaced, StateOf, Records, Snapshot, StmtSites, AnnotateStmt;
      r := [];
      for i := 0 to |ss|
        invariant Visited(c, StmtsSites(ss[..i], c))
        invariant DuplicateLabel !in errors ==> r == AnnotateStmts(ss[..i], c)
      {
        assert ss[..i + 1][..i] == ss[..i];
        var x := VisitStatement(ss[i], c);
        r := r + [x];
      }
      assert ss[..|ss|] == ss;
    }

    method VisitDeclarators(ds: seq<Declarator>, ghost c: Chain) returns (r: seq<Declarator>)
      requires Matches(c)
      modifies this
      ensures Visited(c, DeclsSites(ds, c))
      ensures DuplicateLabel !in errors ==> r == AnnotateDecls(ds, c)
      decreases ds, 0
    {
      hide AnyTopLevelAwait, LabelsPlaced, StateOf, Records, Snapshot, DeclSites, AnnotateDecl;
      r := [];
      for i := 0 to |ds|
        invariant Visited(c, DeclsSites(ds[..i], c))
        invariant DuplicateLabel !in errors ==> r == AnnotateDecls(ds[..i], c)
      {
        assert ds[..i + 1][..i] == ds[..i];
        var x := VisitDeclarator(ds[i], c);
        r := r + [x];
      }
      assert ds[..|ds|] == ds;
    }

    method VisitDeclarator(d: Declarator, ghost c: Chain) returns (r: Declarator)
      requires Matches(c)
      modifies this
      ensures Visited(c, DeclSites(d, c))
      ensures DuplicateLabel !in errors ==> r == AnnotateDecl(d, c)
      decreases d, 5
    {
      hide AnyTopLevelAwait, LabelsPlaced, StateOf, Records, Snapshot, ExprSites, OptSites, AnnotateExpr;
      hide AnnotateOpt, HasAssign;
      var p, assigns := VisitPattern(d.id, c);
      var init' := VisitOptional(d.init, c);
      r := Declarator(p, assigns, init');
    }

    method VisitHeads(hs: seq<Head>, ghost c: Chain) returns (r: seq<Head>)
      requires Matches(c)
      modifies this
      ensures Visited(c, HeadsSites(hs, c))
      ensures DuplicateLabel !in errors ==> r == AnnotateHeads(hs, c)
      decreases hs, 0
    {
      hide AnyTopLevelAwait, LabelsPlaced, StateOf, Records, Snapshot, HeadSites, AnnotateHead;
      r := [];
      for i := 0 to |hs|
        invariant Visited(c, HeadsSites(hs[..i], c))
        invariant DuplicateLabel !in errors ==> r == AnnotateHeads(hs[..i], c)
      {
        assert hs[..i + 1][..i] == hs[..i];
        var x := VisitHead(hs[i], c);
        r := r + [x];
      }
      assert hs[..|hs|] == hs;
    }

    method VisitHead(h: Head, ghost c: Chain) returns (r: Head)
      requires Matches(c)
      modifies this
      ensures Visited(c, HeadSites(h, c))
      ensures DuplicateLabel !in errors ==> r == AnnotateHead(h, c)
      decreases h, 5
    {
      hide AnyTopLevelAwait, LabelsPlaced, StateOf, Records, Snapshot, ExprSites, DeclsSites, AnnotateOuter;
      hide AnnotateDecls, AnnotateExpr, HasAssign;
      match h
      case HeadExpr(x) =>
        var x' := VisitOuter(x, c);
        r := HeadExpr(x');
      case HeadDecl(decls) =>
        var decls' := VisitDeclarators(decls, c);
        r := HeadDecl(decls');
      case HeadPattern(p, _) =>
        var p', assigns := VisitPattern(p, c);
        r := HeadPattern(p', assigns);
    }

    method VisitCases(cs: seq<Case>, ghost c: Chain) returns (r: seq<Case>)
      requires Matches(c)
      modifies this
      ensures Visited(c, CasesSites(cs, c))
      ensures DuplicateLabel !in errors ==> r == AnnotateCases(cs, c)
      decreases cs, 0
    {
      hide AnyTopLevelAwait, LabelsPlaced, StateOf, Records, Snapshot, CaseSites, AnnotateCase;
      r := [];
      for i := 0 to |cs|
        invariant Visited(c, CasesSites(cs[..i], c))
        invariant DuplicateLabel !in errors ==> r == AnnotateCases(cs[..i], c)
      {
        assert cs[..i + 1][..i] == cs[..i];
        var x := VisitCase(cs[i], c);
        r := r + [x];
      }
      assert cs[..|cs|] == cs;
    }

    method VisitCase(k: Case, ghost c: Chain) returns (r: Case)
      requires Matches(c)
      modifies this
      ensures Visited(c, CaseSites(k, c))
      ensures DuplicateLabel !in errors ==> r == AnnotateCase(k, c)
      decreases k, 5
    {
      hide AnyTopLevelAwait, LabelsPlaced, StateOf, Records, Snapshot;
      hide OptSites, StmtsSites, AnnotateOpt, AnnotateStmts;
      var test' := VisitOptional(k.test, c);
      var body' := VisitStatements(k.body, c);
      r := Case(test', body');
    }

    // Programs.

    method VisitProgram(p: Program, ghost start: Start) returns (r: Program)
      requires Matches(Root(start))
      modifies this
      ensures Visited(Root(start), ProgramSites(p, start))
      ensures DuplicateLabel !in errors ==> r == AnnotateProgram(p, start)
    {
      hide AnyTopLevelAwait, LabelsPlaced, StateOf, Records, StmtsSites, AnnotateStmts;
      if p.isStrict {
        StrictState(Root(start));
        SameLabels(labels, errors, log, Strict, Root(start));
        strictDepth := strictDepth + 1;
      }
      var body' := VisitStatements(p.body, ProgramPlace(p, start));
      if p.isStrict {
        SameLabels(labels, errors, log, Strict, Root(start));
        strictDepth := strictDepth - 1;
      }
      r := p.(body := body');
    }
  }
}
