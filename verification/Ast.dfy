/**
  The part of the syntax tree that the early-error analyzer looks at.

  Patterns and expressions share one type: the analyzer treats an array, object or default pattern
  as the traversal of its parts, and only identifier patterns get a check of their own (`Binding`).
  `Compound` stands for every node that is merely traversed, children in source order.
 */
module Ast {
  import opened Options

  datatype Name = Name(text: string)

  const EVAL := Name("eval")
  const ARGUMENTS := Name("arguments")
  const HASH_CONSTRUCTOR := Name("#constructor")

  /** The name of a label and the id the analyzer writes into it. Ids are 16 bits wide. */
  datatype Label = Label(name: Name, id: nat)

  /** What the analyzer remembers about a function it is inside. */
  datatype FuncInfo = FuncInfo(
    isArrow: bool,
    isMethod: bool,
    isStatic: bool,
    isDerivedConstructor: bool,
    isStaticInitializer: bool,
    isFieldInitializer: bool)

  /** An entire expression held by a statement, with the flag the analyzer computes for it. */
  datatype Outer = Outer(expr: Expr, hasAssign: bool)

  datatype Expr =
    | Leaf
    | Id(name: Name)
    | Binding(name: Name)
    | Compound(children: seq<Expr>)
    | Delete(operand: Expr)
    | Assign(left: Expr, right: Expr)
    | PrivateMember(receiver: Expr, name: Name)
    | PrivateIn(name: Name, right: Expr)
    | SuperMember(property: Expr, isStatic: bool)
    | SuperCall(args: seq<Expr>)
    | NewTarget
    | Await(argument: Expr)
    | Yield(args: seq<Expr>)
    | EvalCall(args: seq<Expr>, context: Option<FuncInfo>)
    | FunctionExpr(func: Func)
    | Arrow(func: Func)
    | ObjectMethod(func: Func)
    | ClassExpr(cls: Class)

  datatype Declarator = Declarator(id: Expr, idHasAssign: bool, init: Option<Outer>)

  /** The parts of a loop header, in the order they are visited. */
  datatype Head =
    | HeadExpr(expr: Outer)
    | HeadDecl(decls: seq<Declarator>)
    | HeadPattern(pattern: Expr, hasAssign: bool)

  datatype LoopKind = While | DoWhile | For | ForEach

  datatype Case = Case(test: Option<Outer>, body: seq<Stmt>)

  datatype Catch = Catch(param: Option<Expr>, paramHasAssign: bool, body: Stmt)

  datatype Stmt =
    | Empty
    | ExprStmt(expr: Outer)
    | VarDecl(decls: seq<Declarator>)
    | FuncDecl(func: Func)
    | ClassDecl(cls: Class)
    | Block(body: seq<Stmt>)
    | If(test: Outer, conseq: Stmt, altern: Option<Stmt>)
    | Switch(discriminant: Outer, cases: seq<Case>)
    | Loop(kind: LoopKind, heads: seq<Head>, loopBody: Stmt)
    | With(subject: Outer, withBody: Stmt)
    | Try(block: Stmt, handler: Option<Catch>, finalizer: Option<Stmt>)
    | Throw(argument: Outer)
    | Return(result: Option<Outer>)
    | Break(target: Option<Label>)
    | Continue(target: Option<Label>)
    | Labeled(tag: Label, inner: Stmt)

  datatype Param = Param(pattern: Expr, hasAssign: bool)

  datatype Body = BlockBody(stmts: seq<Stmt>) | ExprBody(expr: Outer)

  /** The flags are set by the parser. */
  datatype Func = Func(
    id: Option<Name>,
    params: seq<Param>,
    body: Body,
    isStrict: bool,
    hasUseStrict: bool,
    simpleParams: bool,
    duplicateParams: bool)

  datatype Key = Named(name: Name) | Private(name: Name) | Computed(expr: Outer)

  datatype MethodKind = Plain | Constructor | Get | Set | StaticInitializer

  datatype Element =
    | Method(kind: MethodKind, key: Key, isStatic: bool, func: Func, pairStart: bool)
    | Property(key: Key, isStatic: bool, value: Option<Outer>)

  datatype Class = Class(id: Option<Name>, heritage: Option<Outer>, elements: seq<Element>)

  datatype Program = Program(body: seq<Stmt>, isStrict: bool)

  /** The statement under a group of directly nested labels. */
  function Unlabeled(s: Stmt): (r: Stmt)
    ensures !r.Labeled?
    ensures s.Labeled? ==> r < s
    ensures !s.Labeled? ==> r == s
  {
    if s.Labeled? then Unlabeled(s.inner) else s
  }

  /** The names of a group of directly nested labels, outermost first. */
  function LabelNames(s: Stmt): seq<Name> {
    if s.Labeled? then [s.tag.name] + LabelNames(s.inner) else []
  }

  /**
    Whether an assignment occurs in an expression outside of the functions and classes nested in it.
   */
  predicate HasAssign(e: Expr) {
    match e
    case Assign(_, _) => true
    case Compound(children) => exists i | 0 <= i < |children| :: HasAssign(children[i])
    case Delete(x) => HasAssign(x)
    case PrivateMember(x, _) => HasAssign(x)
    case PrivateIn(_, x) => HasAssign(x)
    case SuperMember(x, _) => HasAssign(x)
    case SuperCall(args) => exists i | 0 <= i < |args| :: HasAssign(args[i])
    case Await(x) => HasAssign(x)
    case Yield(args) => exists i | 0 <= i < |args| :: HasAssign(args[i])
    case EvalCall(args, _) => exists i | 0 <= i < |args| :: HasAssign(args[i])
    case _ => false
  }

  predicate AnyHasAssign(es: seq<Expr>) {
    exists i | 0 <= i < |es| :: HasAssign(es[i])
  }

  /**
    The flag of an expression statement. A statement that is itself an assignment does not count
    that assignment, only those within its two sides.
   */
  predicate StatementHasAssign(e: Expr) {
    if e.Assign? then HasAssign(e.left) || HasAssign(e.right) else HasAssign(e)
  }
}
