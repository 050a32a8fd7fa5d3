/** The trees the translator reads (Fortran) and builds (C). As in ROSE, one expression
    type serves both languages: the translator sometimes moves a Fortran node into the C
    tree unchanged. */
module Ast {
  import opened Wrappers

  /** Types of the C tree. */
  datatype CType =
    | CVoid | CChar | CShort | CInt | CLong | CFloat | CDouble
    | CString                                 // a string type with a null length
    | CArray(elem: CType, size: Option<Expr>) // `None`: no size expression
    | CPointer(target: CType)

  /** Types of the Fortran tree; `kind` is the kind-selector expression, if any. */
  datatype FType =
    | FVoid | FBool | FChar
    | FInt(kind: Option<Expr>)
    | FReal(kind: Option<Expr>)
    | FString
    | FArray(base: FType, dims: seq<Dim>)
    | FOtherType(typeName: string)

  /** One dimension of a Fortran array declaration. */
  datatype Dim =
    | Bounded(lo: Expr, hi: Expr)   // lo:hi
    | AssumedSize(lo: Expr)         // lo:*
    | Extent(size: Expr)            // n
    | Star                          // *

  /** Binary operators that are rebuilt one to one; `OtherBinOp` has no lowering. */
  datatype BinOp =
    | AndAssign | And | Assign | BitAnd | BitOr | BitXor | DivAssign | Divide
    | Equality | GreaterOrEqual | GreaterThan | LessOrEqual | LessThan
    | MinusAssign | MultAssign | Or | NotEqual | PlusAssign | XorAssign
    | OtherBinOp(opName: string)

  datatype UnOp = Inc | Dec | Not | BitNot | UPlus | UMinus | OtherUnOp(opName: string)

  /** Literal kinds other than `int`, `bool` and strings; values are carried as text. */
  datatype ConstKind =
    | ShortConst | LongConst | LongLongConst
    | FloatConst | DoubleConst | LongDoubleConst
    | CharConst | ComplexConst

  datatype Expr =
    | IntLit(n: int)
    | BoolLit(b: bool)
    | Const(kind: ConstKind, text: string)
    | StrLit(s: string)
    | Var(name: string)
    | Add(l: Expr, r: Expr)
    | Sub(l: Expr, r: Expr)
    | Mul(l: Expr, r: Expr)
    | Bin(op: BinOp, l: Expr, r: Expr)
    | Pow(l: Expr, r: Expr, integral: bool)   // Fortran `**`; `integral`: integer result type
    | Un(uop: UnOp, e: Expr, postfix: bool)
    | ArrRef(arr: Expr, subs: seq<Expr>)      // Fortran `a(i, j, ...)`
    | Index(base: Expr, offset: Expr)         // C `a[offset]`
    | Deref(e: Expr)
    | AddrOf(e: Expr)
    | FunRef(fname: string)                   // a procedure name used as a value
    | Call(fn: string, args: seq<Expr>)
    | Cast(e: Expr, to: CType)
    | Cond(c: Expr, t: Expr, f: Expr)
    | NullExpr
    | OtherExpr(exprName: string)

  /** Per-declaration array layout: one lower bound per dimension and the cumulative
      size of the dimensions before each dimension after the first. */
  datatype DimInfo = DimInfo(lbounds: seq<Expr>, sizes: seq<Expr>)

  datatype Param = Param(name: string, ty: CType, dim: Option<DimInfo>)

  /** Statements of the C tree. */
  datatype Stmt =
    | ExprStmt(expr: Expr)
    | VarDecl(name: string, ty: CType, init: Option<Expr>, dim: Option<DimInfo>)
    | ExternDecl(name: string, ty: CType)
    | FunDef(name: string, ret: CType, params: seq<Param>, body: seq<Stmt>)
    | FunProto(name: string, ret: CType, params: seq<Param>)
    | For(test: Expr, step: Expr, body: seq<Stmt>)
    | If(cond: Expr, thenBody: seq<Stmt>, elseBody: seq<Stmt>, hasElse: bool) // !hasElse: null false branch
    | Return(value: Option<Expr>)
    | Block(body: seq<Stmt>)
    | GlobalScope(body: seq<Stmt>)

  /** Fortran declarations and statements. */
  datatype Qualifier = IntentIn | IntentOut | IntentInOut | Unqualified

  datatype Initializer = AssignInit(value: Expr) | OtherInit

  datatype VarInit = VarInit(name: string, ty: FType, init: Option<Initializer>)

  datatype FParam = FParam(name: string, ty: FType)

  /** A subroutine (`result == None`) or a function with its result type. */
  datatype ProcDecl = ProcDecl(name: string, params: seq<FParam>, result: Option<FType>, body: seq<Node>)

  datatype Node =
    | Global(children: seq<Node>)
    | Module(modName: string, children: seq<Node>)
    | Use(usedName: string)
    | ProcNode(proc: ProcDecl)
    | VarDeclNode(qual: Qualifier, vars: seq<VarInit>)
    | ExprStmtNode(expr: Expr)
    | DoNode(initExpr: Expr, bound: Expr, step: Option<Expr>, body: seq<Node>)
    | ReturnNode
    | IfNode(cond: Expr, thenBody: seq<Node>, elseBody: seq<Node>, hasElse: bool) // !hasElse: no ELSE
    | PrintNode(starFormat: bool, items: seq<Expr>)
    | OpenNode(unitId: Expr, file: Expr)
    | CloseNode(unitId: Expr)
    | ReadNode(unitId: Expr, starFormat: bool, items: seq<Expr>)
    | BlockNode(children: seq<Node>)
    | ContainsNode(children: seq<Node>)
    | ClassDefNode(children: seq<Node>)
    | ImplicitNode
    | OtherNode(kindName: string, children: seq<Node>)

  /** The nodes a pre-order traversal visits below `n`, in order. */
  function Kids(n: Node): (r: seq<Node>)
    ensures forall k :: k in r ==> k < n
  {
    match n
    case Global(cs) => cs
    case Module(_, cs) => cs
    case BlockNode(cs) => cs
    case ContainsNode(cs) => cs
    case ClassDefNode(cs) => cs
    case OtherNode(_, cs) => cs
    case ProcNode(p) => p.body
    case DoNode(_, _, _, body) => body
    case IfNode(_, t, f, _) => t + f
    case _ => []
  }

  /** Values in a run of the C program: an environment gives each atom (a variable,
      a dereference, a call, ...) a value; arithmetic and comparisons are computed. */
  type Env = Expr -> int

  function B2I(b: bool): int { if b then 1 else 0 }

  function Eval(e: Expr, env: Env): int {
    match e
    case IntLit(n) => n
    case BoolLit(b) => B2I(b)
    case Add(l, r) => Eval(l, env) + Eval(r, env)
    case Sub(l, r) => Eval(l, env) - Eval(r, env)
    case Mul(l, r) => Eval(l, env) * Eval(r, env)
    case Un(UMinus, x, _) => - Eval(x, env)
    case Un(UPlus, x, _) => Eval(x, env)
    case Bin(op, l, r) =>
      (match op
       case LessOrEqual => B2I(Eval(l, env) <= Eval(r, env))
       case GreaterOrEqual => B2I(Eval(l, env) >= Eval(r, env))
       case LessThan => B2I(Eval(l, env) < Eval(r, env))
       case GreaterThan => B2I(Eval(l, env) > Eval(r, env))
       case Equality => B2I(Eval(l, env) == Eval(r, env))
       case NotEqual => B2I(Eval(l, env) != Eval(r, env))
       case _ => env(e))
    case Cond(c, t, f) => if Eval(c, env) != 0 then Eval(t, env) else Eval(f, env)
    case _ => env(e)
  }
}
