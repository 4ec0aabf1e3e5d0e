/** The analyses of whole programs, of code passed to a direct eval, and of function constructors. */
module Analyze {
  import opened Ast
  import opened ParseErrors
  import opened PrivateNames
  import opened Context
  import opened Coverage
  import opened EarlyErrors
  import opened Occurrences
  import opened Sites
  import opened AnalyzerState
  import opened Analysis
  import opened LabelHistory
  import opened Options

  datatype Result<+T> = Accepted(tree: T, hasTopLevelAwait: bool) | Rejected(errors: seq<Error>)

  /** No checked node of a tree is in a place that gives rise to an error. */
  ghost predicate AllFree(sites: seq<Visit>, annexB: bool) {
    forall i | 0 <= i < |sites| :: SiteErrors(sites[i], annexB) == []
  }

  predicate AwaitsAtTopLevel(sites: seq<Visit>) {
    exists i | 0 <= i < |sites| :: TopLevelAwait(sites[i])
  }

  /**
    What an analysis promises: it accepts exactly the trees without an erroneous place, and annotates
    them as their places determine. It rejects with the reported errors, in order: those of all places,
    except for labelled continues that are overlooked. So the errors are those of the places exactly
    when none is overlooked.
   */
  ghost predicate Correct<T>(r: Result<T>, sites: seq<Visit>, annotated: T, annexB: bool) {
    && (r.Accepted? <==> AllFree(sites, annexB))
    && (r.Accepted? ==> r.tree == annotated && r.hasTopLevelAwait == AwaitsAtTopLevel(sites))
    && (r.Rejected? ==>
          && r.errors == Reported(sites, annexB)
          && (r.errors == ErrorsOf(sites, annexB) <==> NoneOverlooked(sites))
          && (DuplicateLabel in r.errors <==> DuplicateLabel in ErrorsOf(sites, annexB))
          && (DuplicateLabel !in r.errors ==> NoneOverlooked(sites)))
  }

  method AnalyzeProgram(p: Program, annexB: bool) returns (r: Result<Program>)
    ensures Correct(r, ProgramSites(p, Ordinary), AnnotateProgram(p, Ordinary), annexB)
    ensures Judges(r, ProgramNode(p), Root(Ordinary), annexB)
  {
    hide Correct, Judges;
    r := Run(p, Ordinary, annexB);
  }

  /** The place around the code of a direct eval, from what the caller passes on. */
  function EvalStart(
    privateNames: Option<map<Name, Usage>>, inFunction: bool, inMethod: bool, inStatic: bool,
    inDerivedConstructor: bool, inStaticInitializer: bool, inFieldInitializer: bool): Start
  {
    var caller: NonArrow :=
      FuncInfo(false, inMethod, inStatic, inDerivedConstructor, inStaticInitializer, inFieldInitializer);
    Eval(privateNames, if inFunction then Some(caller) else None, inFieldInitializer)
  }

  method AnalyzeForEval(
    p: Program, annexB: bool, privateNames: Option<map<Name, Usage>>, inFunction: bool, inMethod: bool, inStatic: bool,
    inDerivedConstructor: bool, inStaticInitializer: bool, inFieldInitializer: bool)
    returns (r: Result<Program>)
    ensures
      var start := EvalStart(
        privateNames, inFunction, inMethod, inStatic, inDerivedConstructor, inStaticInitializer, inFieldInitializer);
      Correct(r, ProgramSites(p, start), AnnotateProgram(p, start), annexB)
      && Judges(r, ProgramNode(p), Root(start), annexB)
  {
    hide Correct, Judges;
    var start := EvalStart(
      privateNames, inFunction, inMethod, inStatic, inDerivedConstructor, inStaticInitializer, inFieldInitializer);
    r := Run(p, start, annexB);
  }

  method Run(p: Program, start: Start, annexB: bool) returns (r: Result<Program>)
    ensures Correct(r, ProgramSites(p, start), AnnotateProgram(p, start), annexB)
    ensures Judges(r, ProgramNode(p), Root(start), annexB)
  {
    hide SiteErrors, StateOf, AnnotateProgram, ProgramSites, Correct, Judges, Covers;
    var analyzer := new Analyzer(start, annexB);
    var tree := analyzer.VisitProgram(p, start);
    assert analyzer.log == ProgramSites(p, start);
    RunIsCorrect(analyzer.errors, analyzer.log, annexB, tree, AnnotateProgram(p, start));
    ProgramIsCovered(p, start);
    RunJudges(analyzer.errors, analyzer.log, annexB, tree, ProgramNode(p), Root(start));
    if analyzer.errors == [] {
      r := Accepted(tree, analyzer.hasTopLevelAwait);
    } else {
      r := Rejected(analyzer.errors);
    }
  }

  method AnalyzeFunctionConstructor(f: Func, annexB: bool) returns (r: Result<Func>)
    ensures
      var info := FunctionInfo(false, false);
      Correct(r, FuncSites(f, info, Root(Ordinary)), AnnotateFunc(f, info, Root(Ordinary)), annexB)
      && Judges(r, FuncNode(f, info), Root(Ordinary), annexB)
  {
    hide SiteErrors, StateOf, AnnotateFunc, FuncSites, Correct, Judges, Covers;
    var analyzer := new Analyzer(Ordinary, annexB);
    var tree := analyzer.VisitFunctionCommon(f, FunctionInfo(false, false), Root(Ordinary));
    assert analyzer.log == FuncSites(f, FunctionInfo(false, false), Root(Ordinary));
    RunIsCorrect(analyzer.errors, analyzer.log, annexB, tree,
                 AnnotateFunc(f, FunctionInfo(false, false), Root(Ordinary)));
    FunctionIsCovered(f, FunctionInfo(false, false), Root(Ordinary));
    RunJudges(analyzer.errors, analyzer.log, annexB, tree, FuncNode(f, FunctionInfo(false, false)), Root(Ordinary));
    if analyzer.errors == [] {
      r := Accepted(tree, analyzer.hasTopLevelAwait);
    } else {
      r := Rejected(analyzer.errors);
    }
  }

  lemma RunIsCorrect<T>(errors: seq<Error>, log: seq<Visit>, annexB: bool, tree: T, annotated: T)
    requires Records(errors, log, annexB)
    requires DuplicateLabel !in errors ==> tree == annotated
    ensures
      var r := if errors == [] then Accepted(tree, AnyTopLevelAwait(log)) else Rejected(errors);
      Correct(r, log, annotated, annexB)
  {
    hide SiteErrors, TopLevelAwait, Records, NoneOverlooked;
    RecordsMeaning(errors, log, annexB);
    ErrorFree(log, annexB);
    TopLevelAwaitMeaning(log);
  }

  lemma RecordsMeaning(errors: seq<Error>, log: seq<Visit>, annexB: bool)
    requires Records(errors, log, annexB)
    ensures errors == Reported(log, annexB)
    ensures errors == ErrorsOf(log, annexB) <==> NoneOverlooked(log)
    ensures DuplicateLabel in errors <==> DuplicateLabel in ErrorsOf(log, annexB)
    ensures DuplicateLabel !in errors ==> errors == ErrorsOf(log, annexB)
  {
    hide SiteErrors, Emitted, NoneOverlooked;
    ExactReport(log, annexB);
    OthersAreReported(log, DuplicateLabel, annexB);
  }

  /** An overlooked continue hides no other error. */
  lemma {:induction false} OthersAreReported(log: seq<Visit>, error: Error, annexB: bool)
    requires OmitsOnly(log)
    ensures error in Reported(log, annexB) ==> error in ErrorsOf(log, annexB)
    ensures error != LabelNotFound && error in ErrorsOf(log, annexB) ==> error in Reported(log, annexB)
  {
    hide SiteErrors, Emitted, IsMarkedTarget, ContinueTarget;
    if log != [] {
      var n := |log| - 1;
      var rest, v := log[..n], log[n];
      assert forall i | 0 <= i < n :: rest[i] == log[i] && rest[..i] == log[..i];
      OthersAreReported(rest, error, annexB);
      EmittedMeaning(rest, v, annexB);
    }
  }

  lemma NoContinueIsEmitted(log: seq<Visit>, v: Visit, annexB: bool)
    requires !v.site.ContinueUse?
    ensures Emitted(log, v, annexB) == SiteErrors(v, annexB)
  {
    hide SiteErrors;
  }

  /** Only a continue is overlooked. */
  lemma {:induction false} VisitIsReported(log: seq<Visit>, v: Visit, error: Error, annexB: bool)
    requires v in log && !v.site.ContinueUse? && error in SiteErrors(v, annexB)
    ensures error in Reported(log, annexB)
  {
    hide SiteErrors, Emitted;
    var n := |log| - 1;
    if v == log[n] {
      NoContinueIsEmitted(log[..n], v, annexB);
    } else {
      assert log == log[..n] + [log[n]];
      VisitIsReported(log[..n], v, error, annexB);
    }
  }

  lemma {:induction false} TopLevelAwaitMeaning(log: seq<Visit>)
    ensures AnyTopLevelAwait(log) <==> AwaitsAtTopLevel(log)
  {
    hide TopLevelAwait;
    if log != [] {
      var n := |log| - 1;
      TopLevelAwaitMeaning(log[..n]);
      if TopLevelAwait(log[n]) {
        assert AwaitsAtTopLevel(log);
      } else if i :| 0 <= i < |log| && TopLevelAwait(log[i]) {
        assert log[..n][i] == log[i];
      }
    }
  }

  // The outcome in terms of the nodes that occur.

  /** The visits are the checks of the nodes that occur in a tree. */
  ghost predicate Covers(log: seq<Visit>, t: Node, c: Chain) {
    forall v :: v in log <==> Accounted(t, c, v)
  }

  lemma ErrorIsListed(errors: seq<Error>, log: seq<Visit>, t: Node, c: Chain, error: Error, annexB: bool)
    requires Records(errors, log, annexB) && Covers(log, t, c)
    ensures error in ErrorsOf(log, annexB) <==> HasError(t, c, error, annexB)
    ensures error in errors ==> HasError(t, c, error, annexB)
    ensures error != LabelNotFound && HasError(t, c, error, annexB) ==> error in errors
  {
    hide SiteErrors, Emitted, Accounted, HasError;
    RecordsMeaning(errors, log, annexB);
    TreeFinds(t, c, log, error, annexB);
    OthersAreReported(log, error, annexB);
  }

  lemma LostBreakIsListed(errors: seq<Error>, log: seq<Visit>, t: Node, c: Chain, annexB: bool)
    requires Records(errors, log, annexB) && Covers(log, t, c) && HasLostBreak(t, c)
    ensures LabelNotFound in errors
  {
    hide SiteErrors, Emitted, Accounted, HasLostBreak;
    RecordsMeaning(errors, log, annexB);
    var v := LostBreakIsVisited(t, c);
    VisitIsReported(log, v, LabelNotFound, annexB);
  }

  lemma ErrorsAreListed(errors: seq<Error>, log: seq<Visit>, t: Node, c: Chain, annexB: bool)
    requires Records(errors, log, annexB) && Covers(log, t, c)
    ensures Lists(errors, t, c, annexB)
  {
    hide Records, Covers, Reported, ErrorsOf, HasError, HasLostBreak;
    RecordsMeaning(errors, log, annexB);
    if HasLostBreak(t, c) { LostBreakIsListed(errors, log, t, c, annexB); }
    forall error
      ensures error in ErrorsOf(log, annexB) <==> HasError(t, c, error, annexB)
      ensures error in errors ==> HasError(t, c, error, annexB)
      ensures error != LabelNotFound && HasError(t, c, error, annexB) ==> error in errors
    {
      ErrorIsListed(errors, log, t, c, error, annexB);
    }
    if errors != [] { assert errors[0] in errors; }
  }

  lemma AwaitIsListed(log: seq<Visit>, t: Node, c: Chain)
    requires Covers(log, t, c)
    ensures AnyTopLevelAwait(log) <==> HasOuterAwait(t, c)
  {
    hide Accounted, HasOuterAwait, AtTopLevel;
    TopLevelAwaitMeaning(log);
    OuterAwaitIsVisited(t, c);
    if i :| 0 <= i < |log| && TopLevelAwait(log[i]) { assert log[i] in log; }
  }

  /**
    What an analysis decides about a tree: it is rejected exactly if some node that occurs in it is wrong,
    and the list tells how.
   */
  ghost predicate Judges<T>(r: Result<T>, t: Node, c: Chain, annexB: bool) {
    && (r.Rejected? ==> r.errors != [])
    && Lists(if r.Accepted? then [] else r.errors, t, c, annexB)
    && (r.Accepted? ==> (r.hasTopLevelAwait <==> HasOuterAwait(t, c)))
  }

  lemma RunJudges<T>(errors: seq<Error>, log: seq<Visit>, annexB: bool, tree: T, t: Node, c: Chain)
    requires Records(errors, log, annexB) && Covers(log, t, c)
    ensures Judges(if errors == [] then Accepted(tree, AnyTopLevelAwait(log)) else Rejected(errors), t, c, annexB)
  {
    hide Records, Covers, Lists, HasOuterAwait;
    ErrorsAreListed(errors, log, t, c, annexB);
    AwaitIsListed(log, t, c);
  }

  lemma ProgramIsCovered(p: Program, start: Start)
    ensures Covers(ProgramSites(p, start), ProgramNode(p), Root(start))
  {
    hide Accounted;
    forall v
      ensures v in ProgramSites(p, start) <==> Accounted(ProgramNode(p), Root(start), v)
    {
      ProgramCovered(p, start, v);
    }
  }

  lemma FunctionIsCovered(f: Func, info: FuncInfo, c: Chain)
    ensures Covers(FuncSites(f, info, c), FuncNode(f, info), c)
  {
    hide Accounted;
    forall v
      ensures v in FuncSites(f, info, c) <==> Accounted(FuncNode(f, info), c, v)
    {
      FuncCovered(f, info, c, v);
    }
  }
}
