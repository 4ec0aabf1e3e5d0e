/**
  Where the bytecode generator sends the jumps of an analyzed program.

  While it generates a statement the generator keeps a stack of jump targets, and finds the target of
  a break or continue by the id that the analyzer wrote into its label. Here that lookup by id is
  compared with the statement that the label's name refers to.
 */
module JumpTargets {
  import opened Ast
  import opened Context
  import opened Options

  datatype TargetKind = LoopTarget | SwitchTarget | OtherTarget

  datatype JumpTarget = JumpTarget(labelId: Option<nat>, kind: TargetKind)

  predicate IsLabeledLoop(c: Chain) {
    c.In? && c.frame.LabelSet? && c.frame.target.OnLoop?
  }

  /** The generator's target stack at a place. A labelled loop has a single target for both. */
  function JumpStack(c: Chain): seq<JumpTarget> {
    if c.Root? || IsBoundary(c.frame) then []
    else if c.frame.LabelSet? then
      JumpStack(c.outer)
      + [JumpTarget(Some(LabelId(c)), if c.frame.target.OnLoop? then LoopTarget else OtherTarget)]
    else if c.frame.LoopBody? && !IsLabeledLoop(c.outer) then JumpStack(c.outer) + [JumpTarget(None, LoopTarget)]
    else if c.frame.SwitchBody? then JumpStack(c.outer) + [JumpTarget(None, SwitchTarget)]
    else JumpStack(c.outer)
  }

  /** Whether a lookup stops at a target. */
  predicate Selects(t: JumpTarget, id: Option<nat>, isBreak: bool) {
    if id.Some? then t.labelId == id
    else t.kind.LoopTarget? || (isBreak && t.kind.SwitchTarget?)
  }

  /** The index of the innermost target that a lookup selects. */
  function Lookup(stack: seq<JumpTarget>, id: Option<nat>, isBreak: bool): (r: Option<nat>)
    ensures r.Some? ==> r.value < |stack| && Selects(stack[r.value], id, isBreak)
    ensures r.Some? ==> forall i | r.value < i < |stack| :: !Selects(stack[i], id, isBreak)
    ensures r.None? ==> forall i | 0 <= i < |stack| :: !Selects(stack[i], id, isBreak)
  {
    if stack == [] then None
    else
      var n := |stack| - 1;
      if Selects(stack[n], id, isBreak) then Some(n) else Lookup(stack[..n], id, isBreak)
  }

  /**
    The chain from the innermost loop, or for a break from the innermost loop or switch, outwards. A
    labelled loop starts at its labels.
   */
  function NearestTarget(c: Chain, isBreak: bool): Option<Chain> {
    if c.Root? || IsBoundary(c.frame) then None
    else if StartsTarget(c, isBreak) then Some(c)
    else NearestTarget(c.outer, isBreak)
  }

  predicate StartsTarget(c: Chain, isBreak: bool)
    requires c.In?
  {
    IsLabeledLoop(c) || (c.frame.LoopBody? && !IsLabeledLoop(c.outer)) || (isBreak && c.frame.SwitchBody?)
  }

  /** The index of the target of the innermost statement of a chain that has one. */
  function TopTarget(c: Chain): int {
    |JumpStack(c)| - 1
  }

  /** Extending the stack by a target that is not selected does not change a lookup. */
  lemma LookupSkips(stack: seq<JumpTarget>, t: JumpTarget, id: Option<nat>, isBreak: bool)
    ensures
      Lookup(stack + [t], id, isBreak)
      == if Selects(t, id, isBreak) then Some(|stack|) else Lookup(stack, id, isBreak)
  {
    assert (stack + [t])[..|stack|] == stack;
  }

  lemma {:induction false} FindLabelDepth(c: Chain, name: Name)
    requires FindLabel(c, name).Some?
    ensures 1 <= LabelDepth(FindLabel(c, name).value) <= LabelDepth(c)
    ensures
      var d := FindLabel(c, name).value;
      0 <= TopTarget(d) < |JumpStack(c)| && JumpStack(c)[TopTarget(d)] == JumpStack(d)[TopTarget(d)]
  {
    if !(c.frame.LabelSet? && name in c.frame.names) {
      FindLabelDepth(c.outer, name);
    }
  }

  /**
    A labelled jump is sent to the statement that declares its label exactly when fewer than 65536
    further labelled statements lie between the two; beyond that the 16-bit ids repeat.
   */
  lemma {:induction false} LabeledJumpFindsDeclaration(c: Chain, name: Name, isBreak: bool)
    requires FindLabel(c, name).Some?
    ensures
      var d := FindLabel(c, name).value;
      && Lookup(JumpStack(c), Some(LabelId(d)), isBreak).Some?
      && Lookup(JumpStack(c), Some(LabelId(d)), isBreak).value >= TopTarget(d)
      && (Lookup(JumpStack(c), Some(LabelId(d)), isBreak) == Some(TopTarget(d))
          <==> LabelDepth(c) - LabelDepth(d) < 0x1_0000)
  {
    var d := FindLabel(c, name).value;
    if c.frame.LabelSet? && name in c.frame.names {
      LookupSkips(JumpStack(c.outer), JumpStack(c)[TopTarget(c)], Some(LabelId(c)), isBreak);
    } else {
      FindLabelDepth(c.outer, name);
      LabeledJumpFindsDeclaration(c.outer, name, isBreak);
      if c.frame.LabelSet? {
        SameId(LabelDepth(c), LabelDepth(d));
      }
      if |JumpStack(c)| > |JumpStack(c.outer)| {
        var t := JumpStack(c)[TopTarget(c)];
        assert JumpStack(c) == JumpStack(c.outer) + [t];
        LookupSkips(JumpStack(c.outer), t, Some(LabelId(d)), isBreak);
      }
    }
  }

  lemma SameId(a: nat, b: nat)
    requires b < a
    ensures a - b < LABEL_IDS ==> a % LABEL_IDS != b % LABEL_IDS
    ensures a - b == LABEL_IDS ==> a % LABEL_IDS == b % LABEL_IDS
  {
  }

  /** An unlabelled jump that the analyzer accepts is sent to the innermost loop, or loop or switch. */
  lemma {:induction false} UnlabeledJumpFindsNearest(c: Chain, isBreak: bool)
    requires if isBreak then InBreakable(c) else InIterable(c)
    ensures NearestTarget(c, isBreak).Some?
    ensures Lookup(JumpStack(c), None, isBreak) == Some(TopTarget(NearestTarget(c, isBreak).value))
  {
    NearestExists(c, isBreak);
    NearestIsFound(c, isBreak);
  }

  lemma {:induction false} NearestExists(c: Chain, isBreak: bool)
    requires if isBreak then InBreakable(c) else InIterable(c)
    ensures NearestTarget(c, isBreak).Some?
  {
    if !c.frame.LoopBody? && !(isBreak && c.frame.SwitchBody?) {
      NearestExists(c.outer, isBreak);
    }
  }

  lemma {:induction false} NearestIsFound(c: Chain, isBreak: bool)
    requires NearestTarget(c, isBreak).Some?
    ensures Lookup(JumpStack(c), None, isBreak) == Some(TopTarget(NearestTarget(c, isBreak).value))
  {
    if !StartsTarget(c, isBreak) {
      NearestIsFound(c.outer, isBreak);
    }
    if |JumpStack(c)| > |JumpStack(c.outer)| {
      var t := JumpStack(c)[TopTarget(c)];
      assert JumpStack(c) == JumpStack(c.outer) + [t];
      LookupSkips(JumpStack(c.outer), t, None, isBreak);
    }
  }

  /** What the generator finds for a jump at a place, with the id that the analyzer wrote. */
  function TargetOfJump(c: Chain, name: Option<Name>, isBreak: bool): Option<JumpTarget> {
    var id :=
      if name.Some? && FindLabel(c, name.value).Some? then Some(LabelId(FindLabel(c, name.value).value)) else None;
    var k := Lookup(JumpStack(c), id, isBreak);
    if k.Some? then Some(JumpStack(c)[k.value]) else None
  }

  /**
    A continue that the analyzer accepts is sent to a loop exactly when its label, if any, is not on a
    switch. The analyzer accepts labels on switches as well, for which the generator has no block to
    continue at.
   */
  lemma ContinueReachesLoop(c: Chain, name: Option<Name>)
    requires LabelDepth(c) < 0x1_0000
    requires InIterable(c) && (name.Some? ==> ContinueTarget(c, name.value))
    ensures TargetOfJump(c, name, false).Some?
    ensures
      TargetOfJump(c, name, false).value.kind.LoopTarget?
      <==> (name.Some? ==> !FindLabel(c, name.value).value.frame.target.OnSwitch?)
  {
    match name
    case None => UnlabeledJumpFindsNearest(c, false);
    case Some(n) =>
      LabeledJumpFindsDeclaration(c, n, false);
      FindLabelDepth(c, n);
  }

  /** A program in which an accepted continue is sent to a target that is not a loop. */
  lemma ContinueToSwitch(name: Name)
    ensures
      var c := In(SwitchBody, In(LabelSet([name], OnSwitch), In(LoopBody, Root(Ordinary))));
      && InIterable(c) && ContinueTarget(c, name)
      && TargetOfJump(c, Some(name), false) == Some(JumpTarget(Some(1), OtherTarget))
  {
    var loop := In(LoopBody, Root(Ordinary));
    var l := In(LabelSet([name], OnSwitch), loop);
    var c := In(SwitchBody, l);
    assert LabelDepth(loop) == 0 && LabelDepth(l) == 1;
    assert JumpStack(loop) == [JumpTarget(None, LoopTarget)];
    assert JumpStack(l) == JumpStack(loop) + [JumpTarget(Some(1), OtherTarget)];
    assert name in [name] && FindLabel(c, name) == Some(l) && LabelDepth(c) == 1;
    LabeledJumpFindsDeclaration(c, name, false);
    assert JumpStack(c)[1] == JumpTarget(Some(LabelId(l)), OtherTarget);
  }

  /** The statement that the name of a jump refers to, or the nearest one for a jump without a name. */
  function IntendedTarget(c: Chain, name: Option<Name>, isBreak: bool): Option<Chain> {
    if name.Some? then FindLabel(c, name.value) else NearestTarget(c, isBreak)
  }

  /** The generator finds a target for a jump, and it is the intended one. */
  predicate Resolves(c: Chain, name: Option<Name>, isBreak: bool) {
    var d := IntendedTarget(c, name, isBreak);
    && d.Some?
    && Lookup(JumpStack(c), if name.Some? then Some(LabelId(d.value)) else None, isBreak) == Some(TopTarget(d.value))
  }

  /** Every jump without an error, less than 65536 labels deep, is sent to its intended target. */
  lemma AcceptedJumpResolves(v: Visit, annexB: bool)
    requires SiteErrors(v, annexB) == [] && LabelDepth(v.at) < 0x1_0000
    ensures v.site.BreakUse? ==> Resolves(v.at, v.site.label_, true)
    ensures v.site.ContinueUse? ==> Resolves(v.at, v.site.label_, false)
  {
    if v.site.BreakUse? || v.site.ContinueUse? {
      match v.site.label_
      case None => UnlabeledJumpFindsNearest(v.at, v.site.BreakUse?);
      case Some(name) =>
        assert FindLabel(v.at, name).Some?;
        LabeledJumpFindsDeclaration(v.at, name, v.site.BreakUse?);
    }
  }
}
