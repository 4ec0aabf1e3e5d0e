/** Programs and places for which the analyzer differs from what one would expect, with the exact outcome. */
module Divergences {
  import opened Analyze
  import opened Ast
  import opened Context
  import opened JumpTargets
  import opened LabelHistory
  import opened Options
  import opened ParseErrors
  import opened Sites

  function Forever(body: Stmt): Stmt {
    Loop(While, [HeadExpr(Outer(Leaf, false))], body)
  }

  // An overlooked continue.

  /** `L: { L: while(x); while(y) continue L; }` */
  function OverlookedProgram(l: Label): Program {
    Program([Labeled(l, Block([Labeled(l, Forever(Empty)), Forever(Continue(Some(l)))]))], false)
  }

  lemma LoopOnly(body: Stmt, c: Chain)
    requires !IsLabeledFunction(body)
    ensures StmtSites(Forever(body), c) == [Visit(Embedded(false), In(LoopBody, c))] + StmtSites(body, In(LoopBody, c))
  {
    var h := HeadExpr(Outer(Leaf, false));
    assert [h][..0] == [];
    assert HeadsSites([h], In(LoopBody, c)) == [];
  }

  lemma TwoStatements(a: Stmt, b: Stmt, c: Chain)
    ensures StmtsSites([a, b], c) == StmtSites(a, c) + StmtSites(b, c)
  {
    assert [a, b][..1] == [a];
    OneStatement(a, c);
  }

  lemma OneStatement(a: Stmt, c: Chain)
    ensures StmtsSites([a], c) == StmtSites(a, c)
  {
    assert [a][..0] == [];
  }

  lemma OneLabel(l: Label, s: Stmt, c: Chain)
    requires !s.Labeled? && !s.FuncDecl?
    ensures
      var inner := In(LabelSet([l.name], TargetOf(s)), c);
      StmtSites(Labeled(l, s), c)
      == [Visit(LabelDef(l.name, false), In(LabelSet([], OnOther), c))]
         + (if TargetOf(s).OnOther? then [] else [Visit(ContinueTargets([l.name]), inner)])
         + StmtSites(s, inner)
  {
    var labeled := Labeled(l, s);
    assert Unlabeled(labeled) == s && LabelNames(labeled) == [l.name];
    assert LabelSites(labeled, [], c) == [Visit(LabelDef(l.name, false), In(LabelSet([], OnOther), c))];
  }

  lemma OverlookedSites(l: Label)
    ensures
      var outer := In(LabelSet([l.name], OnOther), Root(Ordinary));
      var inner := In(LabelSet([l.name], OnLoop), outer);
      ProgramSites(OverlookedProgram(l), Ordinary)
      == [Visit(LabelDef(l.name, false), In(LabelSet([], OnOther), Root(Ordinary))),
          Visit(LabelDef(l.name, false), In(LabelSet([], OnOther), outer)),
          Visit(ContinueTargets([l.name]), inner),
          Visit(Embedded(false), In(LoopBody, inner)),
          Visit(Embedded(false), In(LoopBody, outer)),
          Visit(ContinueUse(Some(l.name)), In(LoopBody, outer))]
  {
    var outer := In(LabelSet([l.name], OnOther), Root(Ordinary));
    var inner := In(LabelSet([l.name], OnLoop), outer);
    var first, second := Labeled(l, Forever(Empty)), Forever(Continue(Some(l)));
    OneStatement(Labeled(l, Block([first, second])), Root(Ordinary));
    OneLabel(l, Block([first, second]), Root(Ordinary));
    TwoStatements(first, second, outer);
    OneLabel(l, Forever(Empty), outer);
    LoopOnly(Empty, inner);
    LoopOnly(Continue(Some(l)), outer);
  }

  lemma OneMoreError(log: seq<Visit>, v: Visit, annexB: bool)
    ensures ErrorsOf(log + [v], annexB) == ErrorsOf(log, annexB) + SiteErrors(v, annexB)
    ensures Reported(log + [v], annexB) == Reported(log, annexB) + Emitted(log, v, annexB)
  {
    assert (log + [v])[..|log|] == log;
  }

  /** A node other than a continue reports what its place says. */
  lemma PlainErrors(log: seq<Visit>, v: Visit, annexB: bool)
    requires !v.site.ContinueUse?
    ensures ErrorsOf(log + [v], annexB) == ErrorsOf(log, annexB) + SiteErrors(v, annexB)
    ensures Reported(log + [v], annexB) == Reported(log, annexB) + SiteErrors(v, annexB)
  {
    OneMoreError(log, v, annexB);
    hide SiteErrors, ErrorsOf, Reported;
  }

  lemma ErrorsBeforeJump(l: Label, annexB: bool)
    ensures
      var sites := ProgramSites(OverlookedProgram(l), Ordinary);
      && |sites| == 6 && forall i | 0 <= i < 5 ::
           !sites[i].site.ContinueUse? && SiteErrors(sites[i], annexB) == if i == 1 then [DuplicateLabel] else []
  {
    OverlookedSites(l);
    hide StmtSites, StmtsSites, ProgramSites;
    var outer := In(LabelSet([l.name], OnOther), Root(Ordinary));
    assert FindLabel(In(LabelSet([], OnOther), Root(Ordinary)), l.name).None?;
    assert FindLabel(In(LabelSet([], OnOther), outer), l.name) == Some(outer);
  }

  lemma ErrorsAtJump(l: Label, annexB: bool)
    ensures
      var sites := ProgramSites(OverlookedProgram(l), Ordinary);
      && |sites| == 6 && SiteErrors(sites[5], annexB) == [LabelNotFound] && Emitted(sites[..5], sites[5], annexB) == []
      && Overlooked(sites[..5], sites[5])
  {
    LabelIsMarked(l);
    OverlookedSites(l);
    hide StmtSites, StmtsSites, ProgramSites, IsMarkedTarget;
    var outer := In(LabelSet([l.name], OnOther), Root(Ordinary));
    var jump := In(LoopBody, outer);
    assert FindLabel(jump, l.name) == Some(outer) && InIterable(jump);
  }

  /** The places have two errors, of which the second is not reported. */
  lemma OverlookedContinue(l: Label, annexB: bool)
    ensures
      var sites := ProgramSites(OverlookedProgram(l), Ordinary);
      && ErrorsOf(sites, annexB) == [DuplicateLabel, LabelNotFound]
      && Reported(sites, annexB) == [DuplicateLabel] && !NoneOverlooked(sites)
  {
    hide ProgramSites, SiteErrors, Emitted, Overlooked, Reported, ErrorsOf;
    var sites := ProgramSites(OverlookedProgram(l), Ordinary);
    ErrorsBeforeJump(l, annexB);
    ErrorsAtJump(l, annexB);
    assert sites[..5] == sites[..4] + [sites[4]] && sites[..4] == sites[..3] + [sites[3]];
    assert sites[..3] == sites[..2] + [sites[2]] && sites[..2] == sites[..1] + [sites[1]];
    assert sites[..1] == [] + [sites[0]] && sites == sites[..5] + [sites[5]];
    NothingReported(annexB);
    PlainErrors([], sites[0], annexB);
    PlainErrors(sites[..1], sites[1], annexB);
    PlainErrors(sites[..2], sites[2], annexB);
    PlainErrors(sites[..3], sites[3], annexB);
    PlainErrors(sites[..4], sites[4], annexB);
    OneMoreError(sites[..5], sites[5], annexB);
  }

  lemma NothingReported(annexB: bool)
    ensures ErrorsOf([], annexB) == [] && Reported([], annexB) == []
  {
  }

  lemma LabelIsMarked(l: Label)
    ensures
      var sites := ProgramSites(OverlookedProgram(l), Ordinary);
      |sites| == 6 && IsMarkedTarget(sites[..5], sites[5].at, l.name)
  {
    OverlookedSites(l);
    var sites := ProgramSites(OverlookedProgram(l), Ordinary);
    var h := Root(Ordinary);
    assert Home(sites[2].at, l.name) == Some(h) && Home(sites[5].at, l.name) == Some(h);
    assert sites[..5] == sites[..4] + [sites[4]] && sites[..4] == sites[..3] + [sites[3]];
    assert sites[..3] == sites[..2] + [sites[2]];
    OneMoreVisit(sites[..2], sites[2], h, l.name);
    OneMoreVisit(sites[..3], sites[3], h, l.name);
    OneMoreVisit(sites[..4], sites[4], h, l.name);
  }

  /** `L: while(x) L: { continue L; }` */
  function ShadowedProgram(l: Label): Program {
    Program([Labeled(l, Forever(Labeled(l, Block([Continue(Some(l))]))))], false)
  }

  lemma ShadowedSites(l: Label)
    ensures
      var outer := In(LabelSet([l.name], OnLoop), Root(Ordinary));
      var body := In(LoopBody, outer);
      ProgramSites(ShadowedProgram(l), Ordinary)
      == [Visit(LabelDef(l.name, false), In(LabelSet([], OnOther), Root(Ordinary))),
          Visit(ContinueTargets([l.name]), outer),
          Visit(Embedded(false), body),
          Visit(LabelDef(l.name, false), In(LabelSet([], OnOther), body)),
          Visit(ContinueUse(Some(l.name)), In(LabelSet([l.name], OnOther), body))]
  {
    var outer := In(LabelSet([l.name], OnLoop), Root(Ordinary));
    var body, jump := In(LoopBody, outer), Continue(Some(l));
    var inner := Labeled(l, Block([jump]));
    OneStatement(Labeled(l, Forever(inner)), Root(Ordinary));
    OneLabel(l, Forever(inner), Root(Ordinary));
    LoopOnly(inner, outer);
    OneLabel(l, Block([jump]), body);
    OneStatement(jump, In(LabelSet([l.name], OnOther), body));
  }

  lemma ShadowedErrors(l: Label, annexB: bool)
    ensures
      var sites := ProgramSites(ShadowedProgram(l), Ordinary);
      && |sites| == 5
      && (forall i | 0 <= i < 4 ::
            !sites[i].site.ContinueUse? && SiteErrors(sites[i], annexB) == if i == 3 then [DuplicateLabel] else [])
      && SiteErrors(sites[4], annexB) == [LabelNotFound]
  {
    ShadowedSites(l);
    hide StmtSites, StmtsSites, ProgramSites;
    var outer := In(LabelSet([l.name], OnLoop), Root(Ordinary));
    var body := In(LoopBody, outer);
    var inner := In(LabelSet([l.name], OnOther), body);
    assert FindLabel(In(LabelSet([], OnOther), Root(Ordinary)), l.name).None?;
    assert FindLabel(body, l.name) == Some(outer);
    assert FindLabel(In(LabelSet([], OnOther), body), l.name) == Some(outer);
    assert FindLabel(inner, l.name) == Some(inner) && InIterable(inner);
  }

  lemma ShadowedIsMarked(l: Label)
    ensures
      var sites := ProgramSites(ShadowedProgram(l), Ordinary);
      |sites| == 5 && IsMarkedTarget(sites[..4], sites[4].at, l.name)
  {
    ShadowedSites(l);
    var sites := ProgramSites(ShadowedProgram(l), Ordinary);
    var h := Root(Ordinary);
    assert Home(sites[1].at, l.name) == Some(h) && Home(sites[4].at, l.name) == Some(h);
    assert sites[..4] == sites[..3] + [sites[3]] && sites[..3] == sites[..2] + [sites[2]];
    assert sites[..2] == sites[..1] + [sites[1]];
    OneMoreVisit(sites[..1], sites[1], h, l.name);
    OneMoreVisit(sites[..2], sites[2], h, l.name);
    OneMoreVisit(sites[..3], sites[3], h, l.name);
  }

  lemma ShadowedIsOverlooked(l: Label, annexB: bool)
    ensures
      var sites := ProgramSites(ShadowedProgram(l), Ordinary);
      |sites| == 5 && Overlooked(sites[..4], sites[4]) && Emitted(sites[..4], sites[4], annexB) == []
  {
    ShadowedIsMarked(l);
    ShadowedSites(l);
    hide StmtSites, StmtsSites, ProgramSites, IsMarkedTarget;
    var inner := In(LabelSet([l.name], OnOther), In(LoopBody, In(LabelSet([l.name], OnLoop), Root(Ordinary))));
    assert FindLabel(inner, l.name) == Some(inner) && InIterable(inner);
  }

  /** The same with the loop outside: it marks its own label, and the duplicate is the block in it. */
  lemma OverlookedInLoop(l: Label, annexB: bool)
    ensures
      var sites := ProgramSites(ShadowedProgram(l), Ordinary);
      && ErrorsOf(sites, annexB) == [DuplicateLabel, LabelNotFound]
      && Reported(sites, annexB) == [DuplicateLabel] && !NoneOverlooked(sites)
  {
    hide ProgramSites, SiteErrors, Emitted, Overlooked, Reported, ErrorsOf;
    var sites := ProgramSites(ShadowedProgram(l), Ordinary);
    ShadowedErrors(l, annexB);
    ShadowedIsOverlooked(l, annexB);
    assert sites[..4] == sites[..3] + [sites[3]] && sites[..3] == sites[..2] + [sites[2]];
    assert sites[..2] == sites[..1] + [sites[1]] && sites[..1] == [] + [sites[0]];
    assert sites == sites[..4] + [sites[4]];
    NothingReported(annexB);
    PlainErrors([], sites[0], annexB);
    PlainErrors(sites[..1], sites[1], annexB);
    PlainErrors(sites[..2], sites[2], annexB);
    PlainErrors(sites[..3], sites[3], annexB);
    OneMoreError(sites[..4], sites[4], annexB);
  }

  // A continue to a switch.

  /** `while(x) l: switch(x) { default: continue l; }` */
  function SwitchProgram(l: Label): Program {
    Program([Forever(Labeled(l, Switch(Outer(Leaf, false), [Case(None, [Continue(Some(l))])])))], false)
  }

  lemma OneCase(s: Stmt, c: Chain)
    ensures CasesSites([Case(None, [s])], c) == StmtSites(s, c)
  {
    var k := Case(None, [s]);
    OneStatement(s, c);
    assert [k][..0] == [] && CasesSites([], c) == [];
    assert CasesSites([k], c) == CasesSites([k][..0], c) + CaseSites(k, c);
  }

  lemma SwitchProgramSites(l: Label)
    ensures
      var loop := In(LoopBody, Root(Ordinary));
      var inner := In(LabelSet([l.name], OnSwitch), loop);
      ProgramSites(SwitchProgram(l), Ordinary)
      == [Visit(Embedded(false), loop),
          Visit(LabelDef(l.name, false), In(LabelSet([], OnOther), loop)),
          Visit(ContinueTargets([l.name]), inner),
          Visit(ContinueUse(Some(l.name)), In(SwitchBody, inner))]
  {
    var loop := In(LoopBody, Root(Ordinary));
    var inner := In(LabelSet([l.name], OnSwitch), loop);
    var jump := Continue(Some(l));
    var switch := Switch(Outer(Leaf, false), [Case(None, [jump])]);
    OneStatement(Forever(Labeled(l, switch)), Root(Ordinary));
    LoopOnly(Labeled(l, switch), Root(Ordinary));
    OneLabel(l, switch, loop);
    OneCase(jump, In(SwitchBody, inner));
    assert StmtSites(jump, In(SwitchBody, inner)) == [Visit(ContinueUse(Some(l.name)), In(SwitchBody, inner))];
    assert ExprSites(Leaf, In(SwitchBody, inner)) == [];
    assert SwitchSites(switch, inner) == CasesSites([Case(None, [jump])], In(SwitchBody, inner));
    assert StmtSites(switch, inner) == SwitchSites(switch, inner);
    assert ProgramPlace(SwitchProgram(l), Ordinary) == Root(Ordinary);
    assert StmtSites(Labeled(l, switch), loop)
        == [Visit(LabelDef(l.name, false), In(LabelSet([], OnOther), loop)),
            Visit(ContinueTargets([l.name]), inner),
            Visit(ContinueUse(Some(l.name)), In(SwitchBody, inner))];
  }

  /** An accepted program in which a continue is sent to a target that is not a loop. */
  lemma AcceptedContinueToSwitch(l: Label, annexB: bool)
    ensures
      var sites := ProgramSites(SwitchProgram(l), Ordinary);
      && AllFree(sites, annexB) && |sites| == 4 && sites[3].site == ContinueUse(Some(l.name))
      && TargetOfJump(sites[3].at, Some(l.name), false) == Some(JumpTarget(Some(1), OtherTarget))
  {
    SwitchProgramSites(l);
    ContinueToSwitch(l.name);
    var loop := In(LoopBody, Root(Ordinary));
    assert FindLabel(loop, l.name).None?;
    assert FindLabel(In(LabelSet([], OnOther), loop), l.name).None?;
  }

  // A jump out of too many labelled statements.

  /** Names of different lengths. */
  function NthName(n: nat): Name {
    Name(seq(n + 1, _ => 'x'))
  }

  /** Labelled statements inside each other, none of them a loop or switch, no name twice. */
  function Nested(n: nat): Chain {
    In(LabelSet([NthName(n)], OnOther), if n == 0 then Root(Ordinary) else Nested(n - 1))
  }

  lemma {:induction false} NestedDepth(n: nat)
    ensures LabelDepth(Nested(n)) == n + 1 && FindLabel(Nested(n), NthName(0)) == Some(Nested(0))
  {
    if n > 0 {
      NestedDepth(n - 1);
      assert |NthName(n).text| == n + 1 && |NthName(0).text| == 1;
    } else {
      assert NthName(0) in [NthName(0)];
    }
  }

  /** From the `k`-th label on: `Lk: { .. Ln: { break L0; } .. }` */
  function DeepBreak(k: nat, n: nat): Stmt
    requires k <= n
    decreases n - k
  {
    var inner := if k == n then Break(Some(Label(NthName(0), 0))) else DeepBreak(k + 1, n);
    Labeled(Label(NthName(k), 0), Block([inner]))
  }

  function DeepProgram(): Program {
    Program([DeepBreak(0, LABEL_IDS)], false)
  }

  function Around(k: nat): Chain {
    if k == 0 then Root(Ordinary) else Nested(k - 1)
  }

  lemma {:induction false} OtherNames(k: nat, m: nat)
    requires k < m
    ensures FindLabel(Nested(k), NthName(m)).None?
  {
    assert |NthName(k).text| == k + 1 && |NthName(m).text| == m + 1;
    if k > 0 { OtherNames(k - 1, m); }
  }

  /** A label of the program is no duplicate. */
  lemma FreshLabel(k: nat, annexB: bool)
    ensures SiteErrors(Visit(LabelDef(NthName(k), false), In(LabelSet([], OnOther), Around(k))), annexB) == []
  {
    if k > 0 { OtherNames(k - 1, k); }
    hide NthName, Nested;
    assert FindLabel(Around(k), NthName(k)).None?;
  }

  lemma BreakIsFree(n: nat, annexB: bool)
    ensures SiteErrors(Visit(BreakUse(Some(NthName(0))), Nested(n)), annexB) == []
  {
    NestedDepth(n);
    hide Nested, LabelDepth, NthName;
  }

  /** The sites of the program: one for each label, and the break in the place with all of them. */
  lemma {:induction false} DeepSites(k: nat, n: nat, annexB: bool)
    requires k <= n
    ensures
      var sites := StmtSites(DeepBreak(k, n), Around(k));
      && sites != [] && sites[|sites| - 1] == Visit(BreakUse(Some(NthName(0))), Nested(n))
      && AllFree(sites, annexB)
    decreases n - k
  {
    hide SiteErrors, StmtSites, StmtsSites, NthName;
    var inner := if k == n then Break(Some(Label(NthName(0), 0))) else DeepBreak(k + 1, n);
    var sites := StmtSites(DeepBreak(k, n), Around(k));
    FreshLabel(k, annexB);
    OneLabel(Label(NthName(k), 0), Block([inner]), Around(k));
    OneBlock(inner, Nested(k));
    var first := Visit(LabelDef(NthName(k), false), In(LabelSet([], OnOther), Around(k)));
    assert sites == [first] + StmtSites(inner, Nested(k));
    if k == n {
      BreakIsFree(n, annexB);
      OneBreak(Label(NthName(0), 0), Nested(n));
    } else {
      DeepSites(k + 1, n, annexB);
    }
    hide DeepBreak, Nested, Around;
  }

  lemma OneBlock(s: Stmt, c: Chain)
    ensures StmtSites(Block([s]), c) == StmtSites(s, c)
  {
    OneStatement(s, c);
  }

  lemma OneBreak(l: Label, c: Chain)
    ensures StmtSites(Break(Some(l)), c) == [Visit(BreakUse(Some(l.name)), c)]
  {
  }

  /** An accepted program whose break, past 65536 further labelled statements, is sent to another one. */
  lemma DeepBreakMisses(annexB: bool)
    ensures
      var sites := ProgramSites(DeepProgram(), Ordinary);
      && AllFree(sites, annexB) && sites != []
      && var v := sites[|sites| - 1];
         v.site == BreakUse(Some(NthName(0))) && !Resolves(v.at, Some(NthName(0)), true)
  {
    hide DeepBreak, StmtSites, StmtsSites, SiteErrors;
    DeepSites(0, LABEL_IDS, annexB);
    OneStatement(DeepBreak(0, LABEL_IDS), Root(Ordinary));
    NestedDepth(LABEL_IDS);
    NestedDepth(0);
    LabeledJumpFindsDeclaration(Nested(LABEL_IDS), NthName(0), true);
    hide Nested, LabelDepth, JumpStack;
  }
}
