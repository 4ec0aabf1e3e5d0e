/**
  What the label map remembers beyond the places: which outer labels an inner duplicate has marked.

  The map keeps one entry for a name, that of the outermost statement declaring it, and marking a
  group as continue targets marks that entry even for a duplicate. So whether a name counts as a
  continue target depends on the nodes visited since its outermost declaration.
 */
module LabelHistory {
  import opened AnalyzerState
  import opened Ast
  import opened Context
  import opened Labels
  import opened Options
  import opened ParseErrors

  function Depth(c: Chain): nat {
    if c.Root? then 0 else Depth(c.outer) + 1
  }

  /** The place around the outermost labelled statement of the same function that declares a name. */
  function Home(c: Chain, name: Name): (h: Option<Chain>)
    ensures h.Some? ==> Depth(h.value) < Depth(c)
  {
    if c.Root? || IsBoundary(c.frame) then None
    else if Home(c.outer, name).Some? then Home(c.outer, name)
    else if c.frame.LabelSet? && name in c.frame.names then Some(c.outer)
    else None
  }

  /** A visited node that marks the name declared at `h`. */
  predicate Marks(v: Visit, h: Chain, name: Name) {
    v.site.ContinueTargets? && name in v.site.names && Home(v.at, name) == Some(h)
  }

  /** A visited node that declares the name at `h` anew. */
  predicate Declares(v: Visit, h: Chain, name: Name) {
    v.site.LabelDef? && v.site.name == name && v.at.In? && v.at.outer == h && Home(v.at, name).None?
  }

  /** Whether the name was marked since it was last declared at `h`. */
  predicate Marked(log: seq<Visit>, h: Chain, name: Name) {
    if log == [] then false
    else
      var v := log[|log| - 1];
      Marks(v, h, name) || (!Declares(v, h, name) && Marked(log[..|log| - 1], h, name))
  }

  /** Whether the analyzer takes a name for a continue target at a place. */
  predicate IsMarkedTarget(log: seq<Visit>, c: Chain, name: Name) {
    Home(c, name).Some? && Marked(log, Home(c, name).value, name)
  }

  /** A label with the id of the outermost statement that declares its name. */
  function OutermostLabel(l: Label, c: Chain): Label {
    if Home(c, l.name).Some? then l.(id := (LabelDepth(Home(c, l.name).value) + 1) % LABEL_IDS) else l
  }

  // The flags of the label map.

  /** The entries of the label map: the id of the outermost declaration, and whether it was marked since. */
  ghost predicate FlagsPlaced(labels: LabelTable, log: seq<Visit>, c: Chain) {
    forall n | n in labels ::
      Home(c, n).Some?
      && labels[n] == LabelInfo((LabelDepth(Home(c, n).value) + 1) % LABEL_IDS, Marked(log, Home(c, n).value, n))
  }

  /** Every label of an enclosing loop or switch is marked. */
  ghost predicate TargetsMarked(log: seq<Visit>, c: Chain) {
    c.In? && !IsBoundary(c.frame) ==>
      && TargetsMarked(log, c.outer)
      && (c.frame.LabelSet? && !c.frame.target.OnOther? ==>
            forall n | n in c.frame.names :: IsMarkedTarget(log, c, n))
  }

  lemma {:induction false} HomeAnswer(c: Chain, name: Name)
    ensures Home(c, name).Some? <==> FindLabel(c, name).Some?
    ensures name in LabelMap(c) <==> Home(c, name).Some?
  {
    if c.In? { HomeAnswer(c.outer, name); }
  }

  /** A continue target in the sense of its place is one in the sense of the analyzer. */
  lemma {:induction false} TargetIsMarked(log: seq<Visit>, c: Chain, name: Name)
    requires TargetsMarked(log, c) && ContinueTarget(c, name)
    ensures IsMarkedTarget(log, c, name)
  {
    hide Marked;
    if !(c.frame.LabelSet? && name in c.frame.names) {
      TargetIsMarked(log, c.outer, name);
    }
  }

  /** Visiting a node at a place where a name is declared marks it, or changes nothing. */
  lemma OneMoreVisit(log: seq<Visit>, v: Visit, h: Chain, name: Name)
    ensures Marked(log + [v], h, name) == (Marks(v, h, name) || (!Declares(v, h, name) && Marked(log, h, name)))
  {
    assert (log + [v])[..|log|] == log;
  }

  /** A visit that neither marks nor declares what is declared around it. */
  lemma FlagsStay(labels: LabelTable, log: seq<Visit>, v: Visit, c: Chain)
    requires FlagsPlaced(labels, log, c) && v.at == c && !v.site.ContinueTargets?
    ensures FlagsPlaced(labels, log + [v], c)
  {
    hide Home, Marked;
    forall n | n in labels
      ensures Marked(log + [v], Home(c, n).value, n) == Marked(log, Home(c, n).value, n)
    {
      OneMoreVisit(log, v, Home(c, n).value, n);
    }
  }

  /** Nothing undoes the mark of a label that encloses what is visited. */
  lemma MarkStays(log: seq<Visit>, v: Visit, c: Chain, name: Name)
    requires IsMarkedTarget(log, c, name) && Home(v.at, name) == Home(c, name)
    ensures IsMarkedTarget(log + [v], c, name)
  {
    hide Home;
    OneMoreVisit(log, v, Home(c, name).value, name);
  }

  /** A name declared outside of a labelled statement has the same home inside of it. */
  lemma {:induction false} HomeFromOutside(c: Chain, d: Chain, name: Name)
    requires SameFunction(d, c) && Home(c, name).Some?
    ensures Home(d, name) == Home(c, name)
  {
    if d != c { HomeFromOutside(c, d.outer, name); }
  }

  /** A place within another one, with no function or class boundary between. */
  predicate SameFunction(d: Chain, c: Chain) {
    d == c || (d.In? && !IsBoundary(d.frame) && SameFunction(d.outer, c))
  }

  lemma {:induction false} TargetsStay(log: seq<Visit>, v: Visit, c: Chain)
    requires TargetsMarked(log, c) && SameFunction(v.at, c)
    ensures TargetsMarked(log + [v], c)
  {
    if c.In? && !IsBoundary(c.frame) {
      SameFunctionOuter(v.at, c);
      TargetsStay(log, v, c.outer);
      if c.frame.LabelSet? && !c.frame.target.OnOther? {
        forall n | n in c.frame.names
          ensures IsMarkedTarget(log + [v], c, n)
        {
          HomeFromOutside(c, v.at, n);
          MarkStays(log, v, c, n);
        }
      }
    }
  }

  lemma {:induction false} SameFunctionOuter(d: Chain, c: Chain)
    requires SameFunction(d, c) && c.In? && !IsBoundary(c.frame)
    ensures SameFunction(d, c.outer)
  {
    if d != c { SameFunctionOuter(d.outer, c); }
  }

  // Groups of labels.

  lemma FlagsOfNone(labels: LabelTable, log: seq<Visit>, c: Chain)
    requires FlagsPlaced(labels, log, c) && TargetsMarked(log, c)
    ensures
      var inner := In(LabelSet([], OnOther), c);
      FlagsPlaced(labels, log, inner) && TargetsMarked(log, inner)
  {
    hide Marked;
  }

  /** One more label of a group, just visited: a new one is not marked, a duplicate keeps its entry. */
  lemma FlagsOfOneMore(labels: LabelTable, log: seq<Visit>, names: seq<Name>, name: Name, c: Chain)
    requires FlagsPlaced(labels, log, In(LabelSet(names, OnOther), c))
    requires name in labels <==> Home(In(LabelSet(names, OnOther), c), name).Some?
    requires name !in labels ==> !Marked(log, c, name)
    ensures
      var info := LabelInfo((LabelDepth(c) + 1) % LABEL_IDS, false);
      var labels' := if name in labels then labels else labels[name := info];
      FlagsPlaced(labels', log, In(LabelSet(names + [name], OnOther), c))
  {
    hide Marked, Home;
    assert forall n | n in labels :: Home(In(LabelSet(names, OnOther), c), n).Some?;
    hide FlagsPlaced;
    OneMoreHome(names, name, c);
    FlagsExtend(labels, log, In(LabelSet(names, OnOther), c), In(LabelSet(names + [name], OnOther), c), name, c);
  }

  lemma FlagsExtend(labels: LabelTable, log: seq<Visit>, before: Chain, after: Chain, name: Name, c: Chain)
    requires FlagsPlaced(labels, log, before) && forall n | n in labels :: Home(after, n) == Home(before, n)
    requires name !in labels ==> Home(after, name) == Some(c) && !Marked(log, c, name)
    ensures
      var info := LabelInfo((LabelDepth(c) + 1) % LABEL_IDS, false);
      var labels' := if name in labels then labels else labels[name := info];
      FlagsPlaced(labels', log, after)
  {
    hide Marked, Home, LabelDepth;
  }

  lemma TargetsOfOneMore(log: seq<Visit>, names: seq<Name>, name: Name, c: Chain)
    requires TargetsMarked(log, In(LabelSet(names, OnOther), c))
    ensures TargetsMarked(log, In(LabelSet(names + [name], OnOther), c))
  {
    hide Marked, Home;
    assert TargetsMarked(log, c);
  }

  lemma NewIsUnmarked(log: seq<Visit>, names: seq<Name>, name: Name, onFunction: bool, c: Chain)
    requires Home(In(LabelSet(names, OnOther), c), name).None?
    ensures !Marked(log + [Visit(LabelDef(name, onFunction), In(LabelSet(names, OnOther), c))], c, name)
  {
    OneMoreVisit(log, Visit(LabelDef(name, onFunction), In(LabelSet(names, OnOther), c)), c, name);
  }

  lemma OneMoreHome(names: seq<Name>, name: Name, c: Chain)
    ensures
      var place, inner := In(LabelSet(names, OnOther), c), In(LabelSet(names + [name], OnOther), c);
      (forall n | Home(place, n).Some? :: Home(inner, n) == Home(place, n))
      && (Home(place, name).None? ==> Home(inner, name) == Some(c))
  {
    assert forall n :: n in names + [name] <==> n in names || n == name;
  }

  /** The labels of a loop or switch, just marked. */
  lemma FlagsOfMarked(labels: LabelTable, log: seq<Visit>, names: seq<Name>, target: LabelTarget, c: Chain)
    requires
      var place := In(LabelSet(names, OnOther), c);
      FlagsPlaced(labels, log, place) && TargetsMarked(log, place)
    requires !target.OnOther? && forall n | n in names :: n in labels
    ensures
      var inner := In(LabelSet(names, target), c);
      var now := log + [Visit(ContinueTargets(names), inner)];
      FlagsPlaced(Mark(labels, names), now, inner) && TargetsMarked(now, inner)
  {
    var place, inner := In(LabelSet(names, OnOther), c), In(LabelSet(names, target), c);
    var v := Visit(ContinueTargets(names), inner);
    assert forall n :: Home(inner, n) == Home(place, n);
    assert SameFunction(inner, c) by { assert SameFunction(c, c); }
    TargetsStay(log, v, c);
    hide Home, Marked, SameFunction;
    forall n | n in labels
      ensures Marked(log + [v], Home(place, n).value, n) == (n in names || Marked(log, Home(place, n).value, n))
    {
      OneMoreVisit(log, v, Home(place, n).value, n);
    }
  }

  /** The entries that are left when a group is popped. */
  lemma FlagsPopped(
    labels: LabelTable, rest: LabelTable, log: seq<Visit>, names: seq<Name>, target: LabelTarget, c: Chain)
    requires
      var inner := In(LabelSet(names, target), c);
      FlagsPlaced(labels, log, inner) && TargetsMarked(log, inner)
    requires rest.Keys <= labels.Keys && rest.Keys <= LabelMap(c).Keys && forall n | n in rest :: rest[n] == labels[n]
    ensures FlagsPlaced(rest, log, c) && TargetsMarked(log, c)
  {
    hide Marked, LabelMap;
    forall n | n in rest
      ensures Home(c, n).Some?
    {
      HomeAnswer(c, n);
    }
  }

  // Functions and classes.

  predicate Within(p: Chain, c: Chain) {
    p == c || (p.In? && Within(p.outer, c))
  }

  /** A place within another one, behind a function or class boundary. */
  predicate Beyond(p: Chain, c: Chain) {
    p.In? && ((IsBoundary(p.frame) && Within(p.outer, c)) || Beyond(p.outer, c))
  }

  predicate AllBeyond(log: seq<Visit>, c: Chain) {
    forall i | 0 <= i < |log| :: Beyond(log[i].at, c)
  }

  lemma {:induction false} WithinIsDeeper(p: Chain, c: Chain)
    requires Within(p, c)
    ensures Depth(c) <= Depth(p)
  {
    if p != c { WithinIsDeeper(p.outer, c); }
  }

  /** From behind a boundary no label in front of it is visible. */
  lemma {:induction false} HomeIsBeyond(p: Chain, c: Chain, name: Name)
    requires Beyond(p, c)
    ensures Depth(c) < Depth(p)
    ensures Home(p, name).Some? ==> Depth(c) < Depth(Home(p, name).value)
  {
    if IsBoundary(p.frame) && Within(p.outer, c) {
      WithinIsDeeper(p.outer, c);
    } else {
      HomeIsBeyond(p.outer, c, name);
    }
  }

  lemma {:induction false} WithinBoundary(p: Chain, f: Frame, c: Chain)
    requires Within(p, In(f, c)) && IsBoundary(f)
    ensures Beyond(p, c)
  {
    if p != In(f, c) { WithinBoundary(p.outer, f, c); }
  }

  /** What is visited behind a boundary leaves the marks in front of it. */
  lemma {:induction false} MarksInFront(log: seq<Visit>, sites: seq<Visit>, c: Chain, h: Chain, name: Name)
    requires AllBeyond(sites, c) && Depth(h) < Depth(c)
    ensures Marked(log + sites, h, name) == Marked(log, h, name)
  {
    if sites == [] {
      assert log + sites == log;
    } else {
      var n := |sites| - 1;
      assert log + sites == (log + sites[..n]) + [sites[n]];
      MarksInFront(log, sites[..n], c, h, name);
      HomeIsBeyond(sites[n].at, c, name);
      OneMoreVisit(log + sites[..n], sites[n], h, name);
    }
  }

  lemma FlagsInFront(labels: LabelTable, log: seq<Visit>, sites: seq<Visit>, c: Chain)
    requires FlagsPlaced(labels, log, c) && AllBeyond(sites, c)
    ensures FlagsPlaced(labels, log + sites, c)
  {
    hide Marked, Beyond;
    forall n | n in labels
      ensures Marked(log + sites, Home(c, n).value, n) == Marked(log, Home(c, n).value, n)
    {
      MarksInFront(log, sites, c, Home(c, n).value, n);
    }
  }

  lemma {:induction false} TargetsInFront(log: seq<Visit>, sites: seq<Visit>, c: Chain, d: Chain)
    requires TargetsMarked(log, d) && AllBeyond(sites, c) && Depth(d) <= Depth(c)
    ensures TargetsMarked(log + sites, d)
  {
    hide Marked, Beyond;
    if d.In? && !IsBoundary(d.frame) {
      TargetsInFront(log, sites, c, d.outer);
      if d.frame.LabelSet? && !d.frame.target.OnOther? {
        forall n | n in d.frame.names
          ensures IsMarkedTarget(log + sites, d, n)
        {
          MarksInFront(log, sites, c, Home(d, n).value, n);
        }
      }
    }
  }

  // The reported errors.

  /** The errors that the analyzer reports at a node after the nodes in `log`. */
  ghost function Emitted(log: seq<Visit>, v: Visit, annexB: bool): seq<Error> {
    match v.site
    case ContinueUse(Some(name)) =>
      When(!IsMarkedTarget(log, v.at, name), LabelNotFound) + When(!InIterable(v.at), ContinueOutsideIterable)
    case _ => SiteErrors(v, annexB)
  }

  /** All the errors that the analyzer reports, in order. */
  ghost function Reported(log: seq<Visit>, annexB: bool): seq<Error> {
    if log == [] then []
    else Reported(log[..|log| - 1], annexB) + Emitted(log[..|log| - 1], log[|log| - 1], annexB)
  }

  /** A labelled continue that should be reported, but whose name was marked since its outermost declaration. */
  predicate Overlooked(log: seq<Visit>, v: Visit) {
    && v.site.ContinueUse? && v.site.label_.Some?
    && !ContinueTarget(v.at, v.site.label_.value) && IsMarkedTarget(log, v.at, v.site.label_.value)
  }

  /** Its innermost declaration is on no loop or switch; the mark is by another declaration of the name. */
  lemma OverlookedMeaning(log: seq<Visit>, v: Visit)
    requires v.site.ContinueUse? && v.site.label_.Some?
    ensures
      var name, innermost := v.site.label_.value, FindLabel(v.at, v.site.label_.value);
      Overlooked(log, v) <==>
        innermost.Some? && innermost.value.frame.target.OnOther? && IsMarkedTarget(log, v.at, name)
  {
    HomeAnswer(v.at, v.site.label_.value);
    hide Marked;
  }

  predicate NoneOverlooked(log: seq<Visit>) {
    forall i | 0 <= i < |log| :: !Overlooked(log[..i], log[i])
  }

  /** Every label of an enclosing loop or switch is a continue target for the analyzer. */
  predicate OmitsOnly(log: seq<Visit>) {
    forall i | 0 <= i < |log| && log[i].site.ContinueUse? && log[i].site.label_.Some? ::
      ContinueTarget(log[i].at, log[i].site.label_.value) ==>
        IsMarkedTarget(log[..i], log[i].at, log[i].site.label_.value)
  }

  lemma EmittedMeaning(log: seq<Visit>, v: Visit, annexB: bool)
    requires
      v.site.ContinueUse? && v.site.label_.Some? && ContinueTarget(v.at, v.site.label_.value) ==>
        IsMarkedTarget(log, v.at, v.site.label_.value)
    ensures Overlooked(log, v) ==> SiteErrors(v, annexB) == [LabelNotFound] + Emitted(log, v, annexB)
    ensures !Overlooked(log, v) ==> SiteErrors(v, annexB) == Emitted(log, v, annexB)
  {
  }

  /** The report lacks nothing but the overlooked labels, so it is exact exactly when there are none. */
  lemma {:induction false} ExactReport(log: seq<Visit>, annexB: bool)
    requires OmitsOnly(log)
    ensures |Reported(log, annexB)| <= |ErrorsOf(log, annexB)|
    ensures Reported(log, annexB) == ErrorsOf(log, annexB) <==> NoneOverlooked(log)
    ensures |Reported(log, annexB)| == |ErrorsOf(log, annexB)| ==> NoneOverlooked(log)
  {
    hide SiteErrors, Emitted, IsMarkedTarget, ContinueTarget;
    if log != [] {
      var n := |log| - 1;
      var rest, v := log[..n], log[n];
      assert forall i | 0 <= i < n :: rest[i] == log[i] && rest[..i] == log[..i];
      ExactReport(rest, annexB);
      EmittedMeaning(rest, v, annexB);
      assert NoneOverlooked(log) <==> NoneOverlooked(rest) && !Overlooked(rest, v);
    }
  }
}
