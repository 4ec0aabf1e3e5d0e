/** The nodes of a tree are visited in the order of the source: the parts of a node one after the other. */
module VisitOrder {
  import opened Ast
  import opened Context
  import opened Occurrences
  import opened Options
  import opened ParseErrors
  import opened Sites

  /** What is visited of an occurring node. */
  function SitesOf(t: Node, c: Chain): seq<Visit> {
    match t
    case ExprNode(e) => ExprSites(e, c)
    case DeclNode(x) => DeclSites(x, c)
    case HeadNode(h) => HeadSites(h, c)
    case CaseNode(k) => CaseSites(k, c)
    case CatchNode(h) => CatchSites(h, c)
    case StmtNode(s) => StmtSites(s, c)
    case LabelsNode(s, before) =>
      var names, target := before + LabelNames(s), TargetOf(Unlabeled(s));
      var d := In(LabelSet(names, target), c);
      LabelSites(s, before, c)
      + (if target.OnOther? then [] else [Visit(ContinueTargets(names), d)])
      + StmtSites(Unlabeled(s), d)
    case ParamNode(p) => ParamSites(p, c)
    case BodyNode(b) => BodySites(b, c)
    case FuncNode(f, info) => FuncSites(f, info, c)
    case KeyNode(k) => KeySites(k, c)
    case ElementNode(e, isDerived) => ElementSites(e, isDerived, c)
    case ClassNode(k) => ClassSites(k, c)
    case ProgramNode(p) => StmtsSites(p.body, if p.isStrict then In(Strict, c) else c)
  }

  // Which of two parts comes first in the source.

  predicate InList(xs: seq<Expr>, u: Node, w: Node) {
    exists i, j | 0 <= i < j < |xs| :: u == ExprNode(xs[i]) && w == ExprNode(xs[j])
  }

  predicate InBlock(xs: seq<Stmt>, u: Node, w: Node) {
    exists i, j | 0 <= i < j < |xs| :: u == StmtNode(xs[i]) && w == StmtNode(xs[j])
  }

  predicate InDecls(xs: seq<Declarator>, u: Node, w: Node) {
    exists i, j | 0 <= i < j < |xs| :: u == DeclNode(xs[i]) && w == DeclNode(xs[j])
  }

  predicate ExprOrder(e: Expr, u: Node, w: Node) {
    match e
    case Compound(children) => InList(children, u, w)
    case Assign(left, right) => u == ExprNode(left) && w == ExprNode(right)
    case SuperCall(args) => InList(args, u, w)
    case Yield(args) => InList(args, u, w)
    case EvalCall(args, _) => InList(args, u, w)
    case _ => false
  }

  predicate StmtOrder(s: Stmt, u: Node, w: Node) {
    match s
    case VarDecl(decls) => InDecls(decls, u, w)
    case Block(body) => InBlock(body, u, w)
    case If(test, conseq, altern) =>
      || (u == ExprNode(test.expr) && (w == StmtNode(conseq) || (altern.Some? && w == StmtNode(altern.value))))
      || (u == StmtNode(conseq) && altern.Some? && w == StmtNode(altern.value))
    case Switch(x, cases) =>
      || (u == ExprNode(x.expr) && w.CaseNode? && w.branch in cases)
      || (exists i, j | 0 <= i < j < |cases| :: u == CaseNode(cases[i]) && w == CaseNode(cases[j]))
    case Loop(_, heads, body) =>
      || (u.HeadNode? && u.head in heads && w == StmtNode(body))
      || (exists i, j | 0 <= i < j < |heads| :: u == HeadNode(heads[i]) && w == HeadNode(heads[j]))
    case With(x, body) => u == ExprNode(x.expr) && w == StmtNode(body)
    case Try(block, handler, finalizer) =>
      || (u == StmtNode(block) && handler.Some? && w == CatchNode(handler.value))
      || (u == StmtNode(block) && finalizer.Some? && w == StmtNode(finalizer.value))
      || (handler.Some? && u == CatchNode(handler.value) && finalizer.Some? && w == StmtNode(finalizer.value))
    case _ => false
  }

  predicate FuncOrder(f: Func, u: Node, w: Node) {
    || (u.ParamNode? && u.param in f.params && w == BodyNode(f.body))
    || (exists i, j | 0 <= i < j < |f.params| :: u == ParamNode(f.params[i]) && w == ParamNode(f.params[j]))
  }

  predicate ClassOrder(k: Class, u: Node, w: Node) {
    var isDerived := k.heritage.Some?;
    || (IsOuter(u, k.heritage) && w.ElementNode? && w.element in k.elements && w.isDerived == isDerived)
    || (exists i, j | 0 <= i < j < |k.elements| ::
          u == ElementNode(k.elements[i], isDerived) && w == ElementNode(k.elements[j], isDerived))
  }

  /** Of two parts of a node, `u` stands before `w` in the source. */
  predicate Precedes(t: Node, u: Node, w: Node) {
    match t
    case ExprNode(e) => ExprOrder(e, u, w)
    case DeclNode(x) => u == ExprNode(x.id) && IsOuter(w, x.init)
    case HeadNode(HeadDecl(decls)) => InDecls(decls, u, w)
    case CaseNode(k) => (IsOuter(u, k.test) && w.StmtNode? && w.stmt in k.body) || InBlock(k.body, u, w)
    case CatchNode(h) => h.param.Some? && u == ExprNode(h.param.value) && w == StmtNode(h.body)
    case StmtNode(s) => StmtOrder(s, u, w)
    case BodyNode(BlockBody(stmts)) => InBlock(stmts, u, w)
    case FuncNode(f, _) => FuncOrder(f, u, w)
    case ElementNode(e, isDerived) => u == KeyNode(e.key) && !w.KeyNode?
    case ClassNode(k) => ClassOrder(k, u, w)
    case ProgramNode(p) => InBlock(p.body, u, w)
    case _ => false
  }

  // Order among visits.

  ghost predicate Holds(log: seq<Visit>, a: seq<Visit>) {
    exists x, y :: log == x + a + y
  }

  /** First all of `a`, then all of `b`. */
  ghost predicate InOrder(log: seq<Visit>, a: seq<Visit>, b: seq<Visit>) {
    exists x, y, z :: log == x + a + y + b + z
  }

  lemma HoldsItself(a: seq<Visit>)
    ensures Holds(a, a)
  {
    assert a == [] + a + [];
  }

  lemma HoldsMore(x: seq<Visit>, log: seq<Visit>, y: seq<Visit>, a: seq<Visit>)
    requires Holds(log, a)
    ensures Holds(x + log + y, a) && Holds(x + log, a) && Holds(log + y, a)
  {
    var p, q :| log == p + a + q;
    assert x + log + y == (x + p) + a + (q + y);
    assert x + log == (x + p) + a + q;
    assert log + y == p + a + (q + y);
  }

  lemma OrderMore(x: seq<Visit>, log: seq<Visit>, y: seq<Visit>, a: seq<Visit>, b: seq<Visit>)
    requires InOrder(log, a, b)
    ensures InOrder(x + log + y, a, b) && InOrder(x + log, a, b) && InOrder(log + y, a, b)
  {
    var p, q, r :| log == p + a + q + b + r;
    assert x + log + y == (x + p) + a + q + b + (r + y);
    assert x + log == (x + p) + a + q + b + r;
    assert log + y == p + a + q + b + (r + y);
  }

  lemma HoldsBoth(m: seq<Visit>, n: seq<Visit>, a: seq<Visit>, b: seq<Visit>)
    requires Holds(m, a) && Holds(n, b)
    ensures InOrder(m + n, a, b)
  {
    var p, q :| m == p + a + q;
    var r, s :| n == r + b + s;
    assert m + n == p + a + (q + r) + b + s;
  }

  lemma {:induction false} ExprAmong(xs: seq<Expr>, i: nat, c: Chain)
    requires i < |xs|
    ensures Holds(ExprsSites(xs, c), ExprSites(xs[i], c))
  {
    hide ExprSites, Holds;
    var n := |xs| - 1;
    if i < n {
      ExprAmong(xs[..n], i, c);
      HoldsMore([], ExprsSites(xs[..n], c), ExprSites(xs[n], c), ExprSites(xs[i], c));
    } else {
      HoldsItself(ExprSites(xs[n], c));
      HoldsMore(ExprsSites(xs[..n], c), ExprSites(xs[n], c), [], ExprSites(xs[n], c));
    }
  }

  lemma {:induction false} ExprsInOrder(xs: seq<Expr>, i: nat, j: nat, c: Chain)
    requires i < j < |xs|
    ensures InOrder(ExprsSites(xs, c), ExprSites(xs[i], c), ExprSites(xs[j], c))
  {
    hide ExprSites, Holds, InOrder;
    var n := |xs| - 1;
    if j < n {
      ExprsInOrder(xs[..n], i, j, c);
      OrderMore([], ExprsSites(xs[..n], c), ExprSites(xs[n], c), ExprSites(xs[i], c), ExprSites(xs[j], c));
    } else {
      ExprAmong(xs[..n], i, c);
      HoldsItself(ExprSites(xs[n], c));
      HoldsBoth(ExprsSites(xs[..n], c), ExprSites(xs[n], c), ExprSites(xs[i], c), ExprSites(xs[n], c));
    }
  }

  lemma {:induction false} StmtAmong(xs: seq<Stmt>, i: nat, c: Chain)
    requires i < |xs|
    ensures Holds(StmtsSites(xs, c), StmtSites(xs[i], c))
  {
    hide StmtSites, Holds;
    var n := |xs| - 1;
    if i < n {
      StmtAmong(xs[..n], i, c);
      HoldsMore([], StmtsSites(xs[..n], c), StmtSites(xs[n], c), StmtSites(xs[i], c));
    } else {
      HoldsItself(StmtSites(xs[n], c));
      HoldsMore(StmtsSites(xs[..n], c), StmtSites(xs[n], c), [], StmtSites(xs[n], c));
    }
  }

  lemma {:induction false} StmtsInOrder(xs: seq<Stmt>, i: nat, j: nat, c: Chain)
    requires i < j < |xs|
    ensures InOrder(StmtsSites(xs, c), StmtSites(xs[i], c), StmtSites(xs[j], c))
  {
    hide StmtSites, Holds, InOrder;
    var n := |xs| - 1;
    if j < n {
      StmtsInOrder(xs[..n], i, j, c);
      OrderMore([], StmtsSites(xs[..n], c), StmtSites(xs[n], c), StmtSites(xs[i], c), StmtSites(xs[j], c));
    } else {
      StmtAmong(xs[..n], i, c);
      HoldsItself(StmtSites(xs[n], c));
      HoldsBoth(StmtsSites(xs[..n], c), StmtSites(xs[n], c), StmtSites(xs[i], c), StmtSites(xs[n], c));
    }
  }

  lemma {:induction false} DeclAmong(xs: seq<Declarator>, i: nat, c: Chain)
    requires i < |xs|
    ensures Holds(DeclsSites(xs, c), DeclSites(xs[i], c))
  {
    hide DeclSites, Holds;
    var n := |xs| - 1;
    if i < n {
      DeclAmong(xs[..n], i, c);
      HoldsMore([], DeclsSites(xs[..n], c), DeclSites(xs[n], c), DeclSites(xs[i], c));
    } else {
      HoldsItself(DeclSites(xs[n], c));
      HoldsMore(DeclsSites(xs[..n], c), DeclSites(xs[n], c), [], DeclSites(xs[n], c));
    }
  }

  lemma {:induction false} DeclsInOrder(xs: seq<Declarator>, i: nat, j: nat, c: Chain)
    requires i < j < |xs|
    ensures InOrder(DeclsSites(xs, c), DeclSites(xs[i], c), DeclSites(xs[j], c))
  {
    hide DeclSites, Holds, InOrder;
    var n := |xs| - 1;
    if j < n {
      DeclsInOrder(xs[..n], i, j, c);
      OrderMore([], DeclsSites(xs[..n], c), DeclSites(xs[n], c), DeclSites(xs[i], c), DeclSites(xs[j], c));
    } else {
      DeclAmong(xs[..n], i, c);
      HoldsItself(DeclSites(xs[n], c));
      HoldsBoth(DeclsSites(xs[..n], c), DeclSites(xs[n], c), DeclSites(xs[i], c), DeclSites(xs[n], c));
    }
  }

  lemma {:induction false} HeadAmong(xs: seq<Head>, i: nat, c: Chain)
    requires i < |xs|
    ensures Holds(HeadsSites(xs, c), HeadSites(xs[i], c))
  {
    hide HeadSites, Holds;
    var n := |xs| - 1;
    if i < n {
      HeadAmong(xs[..n], i, c);
      HoldsMore([], HeadsSites(xs[..n], c), HeadSites(xs[n], c), HeadSites(xs[i], c));
    } else {
      HoldsItself(HeadSites(xs[n], c));
      HoldsMore(HeadsSites(xs[..n], c), HeadSites(xs[n], c), [], HeadSites(xs[n], c));
    }
  }

  lemma {:induction false} HeadsInOrder(xs: seq<Head>, i: nat, j: nat, c: Chain)
    requires i < j < |xs|
    ensures InOrder(HeadsSites(xs, c), HeadSites(xs[i], c), HeadSites(xs[j], c))
  {
    hide HeadSites, Holds, InOrder;
    var n := |xs| - 1;
    if j < n {
      HeadsInOrder(xs[..n], i, j, c);
      OrderMore([], HeadsSites(xs[..n], c), HeadSites(xs[n], c), HeadSites(xs[i], c), HeadSites(xs[j], c));
    } else {
      HeadAmong(xs[..n], i, c);
      HoldsItself(HeadSites(xs[n], c));
      HoldsBoth(HeadsSites(xs[..n], c), HeadSites(xs[n], c), HeadSites(xs[i], c), HeadSites(xs[n], c));
    }
  }

  lemma {:induction false} CaseAmong(xs: seq<Case>, i: nat, c: Chain)
    requires i < |xs|
    ensures Holds(CasesSites(xs, c), CaseSites(xs[i], c))
  {
    hide CaseSites, Holds;
    var n := |xs| - 1;
    if i < n {
      CaseAmong(xs[..n], i, c);
      HoldsMore([], CasesSites(xs[..n], c), CaseSites(xs[n], c), CaseSites(xs[i], c));
    } else {
      HoldsItself(CaseSites(xs[n], c));
      HoldsMore(CasesSites(xs[..n], c), CaseSites(xs[n], c), [], CaseSites(xs[n], c));
    }
  }

  lemma {:induction false} CasesInOrder(xs: seq<Case>, i: nat, j: nat, c: Chain)
    requires i < j < |xs|
    ensures InOrder(CasesSites(xs, c), CaseSites(xs[i], c), CaseSites(xs[j], c))
  {
    hide CaseSites, Holds, InOrder;
    var n := |xs| - 1;
    if j < n {
      CasesInOrder(xs[..n], i, j, c);
      OrderMore([], CasesSites(xs[..n], c), CaseSites(xs[n], c), CaseSites(xs[i], c), CaseSites(xs[j], c));
    } else {
      CaseAmong(xs[..n], i, c);
      HoldsItself(CaseSites(xs[n], c));
      HoldsBoth(CasesSites(xs[..n], c), CaseSites(xs[n], c), CaseSites(xs[i], c), CaseSites(xs[n], c));
    }
  }

  lemma {:induction false} ParamAmong(xs: seq<Param>, i: nat, c: Chain)
    requires i < |xs|
    ensures Holds(ParamsSites(xs, c), ParamSites(xs[i], c))
  {
    hide ParamSites, Holds;
    var n := |xs| - 1;
    if i < n {
      ParamAmong(xs[..n], i, c);
      HoldsMore([], ParamsSites(xs[..n], c), ParamSites(xs[n], c), ParamSites(xs[i], c));
    } else {
      HoldsItself(ParamSites(xs[n], c));
      HoldsMore(ParamsSites(xs[..n], c), ParamSites(xs[n], c), [], ParamSites(xs[n], c));
    }
  }

  lemma {:induction false} ParamsInOrder(xs: seq<Param>, i: nat, j: nat, c: Chain)
    requires i < j < |xs|
    ensures InOrder(ParamsSites(xs, c), ParamSites(xs[i], c), ParamSites(xs[j], c))
  {
    hide ParamSites, Holds, InOrder;
    var n := |xs| - 1;
    if j < n {
      ParamsInOrder(xs[..n], i, j, c);
      OrderMore([], ParamsSites(xs[..n], c), ParamSites(xs[n], c), ParamSites(xs[i], c), ParamSites(xs[j], c));
    } else {
      ParamAmong(xs[..n], i, c);
      HoldsItself(ParamSites(xs[n], c));
      HoldsBoth(ParamsSites(xs[..n], c), ParamSites(xs[n], c), ParamSites(xs[i], c), ParamSites(xs[n], c));
    }
  }

  lemma {:induction false} ElementAmong(xs: seq<Element>, i: nat, isDerived: bool, c: Chain)
    requires i < |xs|
    ensures Holds(ElementsSites(xs, isDerived, c), ElementSites(xs[i], isDerived, c))
  {
    hide ElementSites, Holds;
    var n := |xs| - 1;
    if i < n {
      ElementAmong(xs[..n], i, isDerived, c);
      HoldsMore([], ElementsSites(xs[..n], isDerived, c), ElementSites(xs[n], isDerived, c),
                ElementSites(xs[i], isDerived, c));
    } else {
      HoldsItself(ElementSites(xs[n], isDerived, c));
      HoldsMore(ElementsSites(xs[..n], isDerived, c), ElementSites(xs[n], isDerived, c), [],
                ElementSites(xs[n], isDerived, c));
    }
  }

  lemma {:induction false} ElementsInOrder(xs: seq<Element>, i: nat, j: nat, isDerived: bool, c: Chain)
    requires i < j < |xs|
    ensures
      InOrder(ElementsSites(xs, isDerived, c), ElementSites(xs[i], isDerived, c), ElementSites(xs[j], isDerived, c))
  {
    hide ElementSites, Holds, InOrder;
    var n := |xs| - 1;
    if j < n {
      ElementsInOrder(xs[..n], i, j, isDerived, c);
      OrderMore([], ElementsSites(xs[..n], isDerived, c), ElementSites(xs[n], isDerived, c),
                ElementSites(xs[i], isDerived, c), ElementSites(xs[j], isDerived, c));
    } else {
      ElementAmong(xs[..n], i, isDerived, c);
      HoldsItself(ElementSites(xs[n], isDerived, c));
      HoldsBoth(ElementsSites(xs[..n], isDerived, c), ElementSites(xs[n], isDerived, c),
                ElementSites(xs[i], isDerived, c), ElementSites(xs[n], isDerived, c));
    }
  }

  // One lemma for each kind of node.

  /** Three sections in a row, of which the first and the second hold the parts. */
  lemma Sections(x: seq<Visit>, m: seq<Visit>, y: seq<Visit>, n: seq<Visit>, z: seq<Visit>)
    ensures InOrder(x + m + y + n + z, m, n)
  {
  }

  lemma ExprsPrecede(e: Expr, c: Chain, u: Node, w: Node)
    requires ExprOrder(e, u, w)
    ensures u.ExprNode? && w.ExprNode? && InOrder(ExprSites(e, c), ExprSites(u.expr, c), ExprSites(w.expr, c))
  {
    hide InOrder;
    if e.Assign? {
      Sections([], ExprSites(e.left, c), [], ExprSites(e.right, c), []);
      assert ExprSites(e, c) == [] + ExprSites(e.left, c) + [] + ExprSites(e.right, c) + [];
    } else {
      var args := if e.Compound? then e.children else e.args;
      var i, j :| 0 <= i < j < |args| && u == ExprNode(args[i]) && w == ExprNode(args[j]);
      ExprsInOrder(args, i, j, c);
      if !e.Compound? {
        var own := [Visit(if e.SuperCall? then SuperCallUse else if e.Yield? then YieldUse else IdUse(EVAL), c)];
        OrderMore(own, ExprsSites(args, c), [], ExprSites(u.expr, c), ExprSites(w.expr, c));
      }
    }
    hide ExprsSites;
  }

  lemma StmtsPrecede(xs: seq<Stmt>, c: Chain, u: Node, w: Node)
    requires InBlock(xs, u, w)
    ensures InOrder(StmtsSites(xs, c), SitesOf(u, c), SitesOf(w, c))
  {
    hide InOrder, StmtSites, StmtsSites;
    var i, j :| 0 <= i < j < |xs| && u == StmtNode(xs[i]) && w == StmtNode(xs[j]);
    StmtsInOrder(xs, i, j, c);
  }

  lemma DeclsPrecede(xs: seq<Declarator>, c: Chain, u: Node, w: Node)
    requires InDecls(xs, u, w)
    ensures InOrder(DeclsSites(xs, c), SitesOf(u, c), SitesOf(w, c))
  {
    hide InOrder, DeclSites, DeclsSites;
    var i, j :| 0 <= i < j < |xs| && u == DeclNode(xs[i]) && w == DeclNode(xs[j]);
    DeclsInOrder(xs, i, j, c);
  }

  lemma IfPrecedes(s: Stmt, c: Chain, u: Node, w: Node)
    requires s.If? && StmtOrder(s, u, w)
    ensures InOrder(IfSites(s, c), SitesOf(u, c), SitesOf(w, c))
  {
    hide InOrder, ExprSites, StmtSites, IsLabeledFunction;
    var own :=
      [Visit(Embedded(IsLabeledFunction(s.conseq)), c)]
      + (if s.altern.Some? then [Visit(Embedded(IsLabeledFunction(s.altern.value)), c)] else []);
    var test, conseq := ExprSites(s.test.expr, c), StmtSites(s.conseq, c);
    var altern := if s.altern.Some? then StmtSites(s.altern.value, c) else [];
    assert IfSites(s, c) == own + test + conseq + altern;
    Sections(own, test, [], conseq, altern);
    Sections(own, test, conseq, altern, []);
    Sections(own + test, conseq, [], altern, []);
    assert own + test + conseq + altern == own + test + [] + conseq + altern;
    assert own + test + conseq + altern == own + test + conseq + altern + [];
    assert own + test + conseq + altern == (own + test) + conseq + [] + altern + [];
    hide IfSites;
  }

  lemma SwitchPrecedes(s: Stmt, c: Chain, u: Node, w: Node)
    requires s.Switch? && StmtOrder(s, u, w)
    ensures InOrder(SwitchSites(s, c), SitesOf(u, In(SwitchBody, c)), SitesOf(w, In(SwitchBody, c)))
  {
    hide InOrder, Holds, ExprSites, CaseSites, CasesSites;
    var d := In(SwitchBody, c);
    var x, cases := ExprSites(s.discriminant.expr, d), CasesSites(s.cases, d);
    if u.ExprNode? {
      var j :| 0 <= j < |s.cases| && w.branch == s.cases[j];
      CaseAmong(s.cases, j, d);
      HoldsItself(x);
      HoldsBoth(x, cases, x, CaseSites(s.cases[j], d));
    } else {
      var i, j :| 0 <= i < j < |s.cases| && u == CaseNode(s.cases[i]) && w == CaseNode(s.cases[j]);
      CasesInOrder(s.cases, i, j, d);
      OrderMore(x, cases, [], CaseSites(s.cases[i], d), CaseSites(s.cases[j], d));
    }
  }

  lemma LoopPrecedes(s: Stmt, c: Chain, u: Node, w: Node)
    requires s.Loop? && StmtOrder(s, u, w)
    ensures InOrder(LoopSites(s, c), SitesOf(u, In(LoopBody, c)), SitesOf(w, In(LoopBody, c)))
  {
    hide InOrder, Holds, HeadSites, HeadsSites, StmtSites, IsLabeledFunction;
    var d := In(LoopBody, c);
    var own := [Visit(Embedded(IsLabeledFunction(s.loopBody)), d)];
    var heads, body := HeadsSites(s.heads, d), StmtSites(s.loopBody, d);
    if w.StmtNode? {
      var i :| 0 <= i < |s.heads| && u.head == s.heads[i];
      HeadAmong(s.heads, i, d);
      HoldsMore(own, heads, [], HeadSites(s.heads[i], d));
      HoldsItself(body);
      HoldsBoth(own + heads, body, HeadSites(s.heads[i], d), body);
    } else {
      var i, j :| 0 <= i < j < |s.heads| && u == HeadNode(s.heads[i]) && w == HeadNode(s.heads[j]);
      HeadsInOrder(s.heads, i, j, d);
      OrderMore(own, heads, body, HeadSites(s.heads[i], d), HeadSites(s.heads[j], d));
    }
  }

  lemma WithPrecedes(s: Stmt, c: Chain, u: Node, w: Node)
    requires s.With? && StmtOrder(s, u, w)
    ensures InOrder(WithSites(s, c), SitesOf(u, c), SitesOf(w, c))
  {
    hide InOrder, ExprSites, StmtSites, IsLabeledFunction;
    var own := [Visit(WithUse, c)] + [Visit(Embedded(IsLabeledFunction(s.withBody)), c)];
    var x, body := ExprSites(s.subject.expr, c), StmtSites(s.withBody, c);
    Sections(own, x, [], body, []);
    assert WithSites(s, c) == own + x + [] + body + [];
  }

  lemma ThreeSections(a: seq<Visit>, b: seq<Visit>, c: seq<Visit>)
    ensures InOrder(a + b + c, a, b) && InOrder(a + b + c, a, c) && InOrder(a + b + c, b, c)
  {
    hide InOrder;
    Sections([], a, [], b, c);
    assert [] + a + [] + b + c == a + b + c;
    Sections([], a, b, c, []);
    assert [] + a + b + c + [] == a + b + c;
    Sections(a, b, [], c, []);
    assert a + b + [] + c + [] == a + b + c;
  }

  lemma TryPrecedes(s: Stmt, c: Chain, u: Node, w: Node)
    requires s.Try? && StmtOrder(s, u, w)
    ensures InOrder(TrySites(s, c), SitesOf(u, c), SitesOf(w, c))
  {
    hide InOrder, StmtSites, CatchSites;
    var handler := if s.handler.Some? then CatchSites(s.handler.value, c) else [];
    var finalizer := if s.finalizer.Some? then StmtSites(s.finalizer.value, c) else [];
    ThreeSections(StmtSites(s.block, c), handler, finalizer);
  }

  /** The place of both parts of a statement. */
  function StmtInside(s: Stmt, c: Chain): Chain {
    if s.Switch? then In(SwitchBody, c) else if s.Loop? then In(LoopBody, c) else c
  }

  lemma StmtPrecedes(s: Stmt, c: Chain, u: Node, w: Node)
    requires StmtOrder(s, u, w)
    ensures InOrder(StmtSites(s, c), SitesOf(u, StmtInside(s, c)), SitesOf(w, StmtInside(s, c)))
  {
    hide InOrder, SitesOf, IfSites, SwitchSites, LoopSites, WithSites, TrySites, StmtsSites, DeclsSites;
    match s
    case VarDecl(decls) => DeclsPrecede(decls, c, u, w);
    case Block(body) => StmtsPrecede(body, c, u, w);
    case If(_, _, _) => IfPrecedes(s, c, u, w);
    case Switch(_, _) => SwitchPrecedes(s, c, u, w);
    case Loop(_, _, _) => LoopPrecedes(s, c, u, w);
    case With(_, _) => WithPrecedes(s, c, u, w);
    case Try(_, _, _) => TryPrecedes(s, c, u, w);
  }

  lemma CasePrecedes(k: Case, c: Chain, u: Node, w: Node)
    requires Precedes(CaseNode(k), u, w)
    ensures InOrder(CaseSites(k, c), SitesOf(u, c), SitesOf(w, c))
  {
    hide InOrder, Holds, ExprSites, StmtSites, StmtsSites;
    var test, body := OptSites(k.test, c), StmtsSites(k.body, c);
    if u.ExprNode? {
      var j :| 0 <= j < |k.body| && w.stmt == k.body[j];
      StmtAmong(k.body, j, c);
      HoldsItself(test);
      HoldsBoth(test, body, test, StmtSites(k.body[j], c));
    } else {
      StmtsPrecede(k.body, c, u, w);
      OrderMore(test, body, [], SitesOf(u, c), SitesOf(w, c));
    }
  }

  lemma DeclPrecedes(x: Declarator, c: Chain)
    requires x.init.Some?
    ensures InOrder(DeclSites(x, c), ExprSites(x.id, c), ExprSites(x.init.value.expr, c))
  {
    hide InOrder, ExprSites;
    var id, init := ExprSites(x.id, c), ExprSites(x.init.value.expr, c);
    Sections([], id, [], init, []);
    assert DeclSites(x, c) == id + init == [] + id + [] + init + [];
  }

  lemma CatchPrecedes(h: Catch, c: Chain)
    requires h.param.Some?
    ensures InOrder(CatchSites(h, c), ExprSites(h.param.value, c), StmtSites(h.body, c))
  {
    hide InOrder, ExprSites, StmtSites;
    var param, body := ExprSites(h.param.value, c), StmtSites(h.body, c);
    Sections([], param, [], body, []);
    assert CatchSites(h, c) == param + body == [] + param + [] + body + [];
  }

  lemma FuncPrecedes(f: Func, info: FuncInfo, c: Chain, u: Node, d: Chain, w: Node, e: Chain)
    requires FuncOrder(f, u, w) && FuncStep(f, info, c, u, d) && FuncStep(f, info, c, w, e)
    ensures InOrder(FuncSites(f, info, c), SitesOf(u, d), SitesOf(w, e))
  {
    hide InOrder, Holds, ParamSites, ParamsSites, BodySites;
    var fc := FuncPlace(f, info, c);
    var own := if !info.isMethod && f.id.Some? then [Visit(NameDef(f.id.value), fc)] else [];
    var params, body := ParamsSites(f.params, In(Parameters, fc)), BodySites(f.body, fc);
    var list := [Visit(ParamList(f.hasUseStrict, f.simpleParams, f.duplicateParams), fc)];
    assert FuncSites(f, info, c) == own + params + list + body;
    if w.BodyNode? {
      var i :| 0 <= i < |f.params| && u.param == f.params[i];
      ParamAmong(f.params, i, In(Parameters, fc));
      HoldsMore(own, params, list, ParamSites(f.params[i], In(Parameters, fc)));
      HoldsItself(body);
      HoldsBoth(own + params + list, body, ParamSites(f.params[i], In(Parameters, fc)), body);
    } else {
      var i, j :| 0 <= i < j < |f.params| && u == ParamNode(f.params[i]) && w == ParamNode(f.params[j]);
      ParamsInOrder(f.params, i, j, In(Parameters, fc));
      OrderMore(own, params, list + body, SitesOf(u, d), SitesOf(w, e));
      assert own + params + (list + body) == own + params + list + body;
    }
  }

  lemma ClassPrecedes(k: Class, c: Chain, u: Node, d: Chain, w: Node, e: Chain)
    requires ClassOrder(k, u, w) && ClassStep(k, c, u, d) && ClassStep(k, c, w, e)
    ensures InOrder(ClassSites(k, c), SitesOf(u, d), SitesOf(w, e))
  {
    hide InOrder, Holds, ExprSites, ElementSites, ElementsSites;
    var place, isDerived := ClassPlace(k, c), k.heritage.Some?;
    var own := if k.id.Some? then [Visit(NameDef(k.id.value), In(Strict, c))] else [];
    var heritage, defs := OptSites(k.heritage, In(Heritage, c)), [Visit(PrivateDefs(k.elements), In(Heritage, c))];
    var body := ElementsSites(k.elements, isDerived, place);
    assert ClassSites(k, c) == own + heritage + defs + body;
    if u.ExprNode? {
      var j :| 0 <= j < |k.elements| && w.element == k.elements[j];
      ElementAmong(k.elements, j, isDerived, place);
      HoldsItself(heritage);
      HoldsMore(own, heritage, defs, heritage);
      HoldsBoth(own + heritage + defs, body, heritage, ElementSites(k.elements[j], isDerived, place));
    } else {
      var i, j :| 0 <= i < j < |k.elements| && u == ElementNode(k.elements[i], isDerived)
        && w == ElementNode(k.elements[j], isDerived);
      ElementsInOrder(k.elements, i, j, isDerived, place);
      OrderMore(own + heritage + defs, body, [], SitesOf(u, d), SitesOf(w, e));
    }
  }

  lemma ElementPrecedes(x: Element, isDerived: bool, c: Chain, u: Node, d: Chain, w: Node, e: Chain)
    requires u == KeyNode(x.key) && !w.KeyNode?
    requires ElementStep(x, isDerived, c, u, d) && ElementStep(x, isDerived, c, w, e)
    ensures InOrder(ElementSites(x, isDerived, c), SitesOf(u, d), SitesOf(w, e))
  {
    hide InOrder, ExprSites, KeySites, FuncSites;
    Sections([], SitesOf(u, d), [], SitesOf(w, e), []);
    assert ElementSites(x, isDerived, c) == [] + SitesOf(u, d) + [] + SitesOf(w, e) + [];
  }

  lemma StmtPlaces(s: Stmt, c: Chain, u: Node, d: Chain, w: Node, e: Chain)
    requires StmtOrder(s, u, w) && StmtStep(s, c, u, d) && StmtStep(s, c, w, e)
    ensures d == e == StmtInside(s, c)
  {
  }

  lemma SinglePlace(t: Node, c: Chain, u: Node, d: Chain)
    requires Step(t, c, u, d)
    requires t.ExprNode? || t.DeclNode? || t.HeadNode? || t.CaseNode? || t.CatchNode? || t.BodyNode?
    ensures d == c
  {
    hide ExprStep, HeadStep, BodyStep;
  }

  /** Of two parts of a node the one that comes first is visited first, with all that occurs in it. */
  lemma PartsInOrder(t: Node, c: Chain, u: Node, d: Chain, w: Node, e: Chain)
    requires Step(t, c, u, d) && Step(t, c, w, e) && Precedes(t, u, w)
    ensures InOrder(SitesOf(t, c), SitesOf(u, d), SitesOf(w, e))
  {
    hide InOrder, ExprSites, DeclSites, CaseSites, CatchSites, StmtSites, FuncSites, ElementSites, ClassSites;
    hide StmtsSites, ParamSites, KeySites, DeclsSites, ExprOrder, StmtOrder, FuncOrder, ClassOrder, ExprStep, HeadStep;
    hide BodyStep;
    hide InBlock, InDecls, StmtStep, FuncStep, ClassStep, ElementStep, Unlabeled, LabelNames, LabelSites;
    if t.StmtNode? {
      StmtPlaces(t.stmt, c, u, d, w, e);
      StmtPrecedes(t.stmt, c, u, w);
    } else if t.FuncNode? {
      FuncPrecedes(t.func, t.info, c, u, d, w, e);
    } else if t.ElementNode? {
      ElementPrecedes(t.element, t.isDerived, c, u, d, w, e);
    } else if t.ClassNode? {
      ClassPrecedes(t.cls, c, u, d, w, e);
    } else if t.ProgramNode? {
      StmtsPrecede(t.program.body, d, u, w);
    } else {
      SinglePlace(t, c, u, d);
      SinglePlace(t, c, w, e);
      OtherPrecedes(t, c, u, w);
    }
  }

  lemma OtherPrecedes(t: Node, c: Chain, u: Node, w: Node)
    requires t.ExprNode? || t.DeclNode? || t.HeadNode? || t.CaseNode? || t.CatchNode? || t.BodyNode?
    requires Precedes(t, u, w)
    ensures InOrder(SitesOf(t, c), SitesOf(u, c), SitesOf(w, c))
  {
    hide InOrder, ExprSites, DeclSites, CaseSites, CatchSites, StmtSites, FuncSites, ElementSites, ClassSites;
    hide StmtsSites, ParamSites, KeySites, DeclsSites, ExprOrder, InBlock, InDecls, Unlabeled, LabelNames, LabelSites;
    match t
    case ExprNode(x) => ExprsPrecede(x, c, u, w);
    case DeclNode(x) => DeclPrecedes(x, c);
    case HeadNode(HeadDecl(decls)) => DeclsPrecede(decls, c, u, w);
    case CaseNode(k) => CasePrecedes(k, c, u, w);
    case CatchNode(h) => CatchPrecedes(h, c);
    case BodyNode(BlockBody(stmts)) => StmtsPrecede(stmts, c, u, w);
  }

  // Errors.

  lemma {:induction false} ErrorsOfBoth(a: seq<Visit>, b: seq<Visit>, annexB: bool)
    ensures ErrorsOf(a + b, annexB) == ErrorsOf(a, annexB) + ErrorsOf(b, annexB)
  {
    hide SiteErrors;
    if b == [] {
      assert a + b == a;
    } else {
      var n := |b| - 1;
      assert (a + b)[..|a| + n] == a + b[..n];
      ErrorsOfBoth(a, b[..n], annexB);
    }
  }

  ghost predicate ErrorsInOrder(errors: seq<Error>, a: seq<Error>, b: seq<Error>) {
    exists x, y, z :: errors == x + a + y + b + z
  }

  /** So the errors of the part that comes first come first. */
  lemma PartErrorsInOrder(t: Node, c: Chain, u: Node, d: Chain, w: Node, e: Chain, annexB: bool)
    requires Step(t, c, u, d) && Step(t, c, w, e) && Precedes(t, u, w)
    ensures
      ErrorsInOrder(ErrorsOf(SitesOf(t, c), annexB), ErrorsOf(SitesOf(u, d), annexB), ErrorsOf(SitesOf(w, e), annexB))
  {
    hide Step, Precedes, SitesOf, ErrorsOf;
    PartsInOrder(t, c, u, d, w, e);
    var a, b := SitesOf(u, d), SitesOf(w, e);
    var x, y, z :| SitesOf(t, c) == x + a + y + b + z;
    ErrorsOfBoth(x, a, annexB);
    ErrorsOfBoth(x + a, y, annexB);
    ErrorsOfBoth(x + a + y, b, annexB);
    ErrorsOfBoth(x + a + y + b, z, annexB);
  }
}
