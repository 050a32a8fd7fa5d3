/** The local rules of expression translation, each applied to operands that are already
    translated: literals (`xf_value_exp`, src/translator.cpp:364-392), unary operators
    (`xf_unop_exp`, 397-435), the operator rebuild and `**` of `xf_binop_exp` (440-491,
    565-570), variable references (`xf_expr`, 639-667) and the intrinsics recognised
    when no procedure of that name is declared (713-755). */
module ExprRules {
  import opened Wrappers
  import opened Ast

  const MsgValue := "Unhandled Value type in tcf::xf_expr::xf_value_exp :: SgValueExp* -> SgValueExp*"
  const MsgUnop := "Unhandled UnaryOp type in tcf::xf_expr::xf_unop_exp :: SgUnaryOp* -> SgUnaryOp*"
  const MsgBinop := "Unhandled BinaryOp type in tcf::xf_expr::xf_binop_exp :: SgBinaryOp* -> SgBinaryOp*"
  const MsgExpr := "Unhandled SgExpression in tcf::xf_expr :: SgExpression* -> SgExpression*"

  /** The variable that holds a function's result (declared by `xf_fn_decl`). */
  const RetvName := "__retv"

  /** A C variable symbol: its type and, for arrays, the layout recorded with it. */
  datatype Sym = Sym(ty: CType, dim: Option<DimInfo>)

  predicate IsValue(v: Expr)
  {
    v.IntLit? || v.BoolLit? || v.Const? || v.StrLit?
  }

  /** `xf_value_exp`: logicals become the integers 0 and 1, integer, real and string
      literals are kept, character and complex literals are rejected. The value is
      never changed. */
  function XfValue(v: Expr): (r: Result<Expr>)
    requires IsValue(v)
    ensures r.Ok? <==> !(v.Const? && (v.kind.CharConst? || v.kind.ComplexConst?))
    ensures r.Ok? ==> IsValue(r.value) && !r.value.BoolLit?
    ensures r.Ok? ==> forall env :: Eval(r.value, env) == Eval(v, env)
    ensures v.BoolLit? ==> r == Ok(IntLit(B2I(v.b)))
    ensures !r.Ok? ==> r == Fail(MsgValue)
  {
    match v
    case BoolLit(b) => Ok(IntLit(B2I(b)))
    case Const(kind, _) =>
      if kind.CharConst? || kind.ComplexConst? then Fail(MsgValue) else Ok(v)
    case _ => Ok(v)
  }

  /** The text of a real literal with its sign flipped. */
  function NegText(t: string): string
  {
    if |t| > 0 && t[0] == '-' then t[1..] else "-" + t
  }

  /** `xf_unop_exp` on a translated operand `x`: `++`, `--`, `!` and `~` are rebuilt with
      the prefix/postfix mode kept, unary `+` disappears, unary `-` is folded into an
      integer or `float` literal. Other operators are rejected. Except for the folded
      `float` literal, the value is always that of the operator applied to `x`. */
  function XfUnop(op: UnOp, postfix: bool, x: Expr): (r: Result<Expr>)
    ensures r.Ok? <==> !op.OtherUnOp?
    ensures !r.Ok? ==> r == Fail(MsgUnop)
    ensures (op.Inc? || op.Dec? || op.Not? || op.BitNot?) ==> r == Ok(Un(op, x, postfix))
    ensures op.UPlus? ==> r == Ok(x)
    ensures op.UMinus? && !(x.Const? && x.kind.FloatConst?) ==>
      r.Ok? && forall env :: Eval(r.value, env) == - Eval(x, env)
  {
    match op
    case UPlus => Ok(x)
    case UMinus =>
      if x.IntLit? then Ok(IntLit(- x.n))
      else if x.Const? && x.kind.FloatConst? then Ok(Const(FloatConst, NegText(x.text)))
      else Ok(Un(UMinus, x, postfix))
    case OtherUnOp(_) => Fail(MsgUnop)
    case _ => Ok(Un(op, x, postfix))
  }

  /** The C operator rebuilt over translated operands; an operator outside the list is
      rejected. */
  function Rebuild(e: Expr, l: Expr, r: Expr): (res: Result<Expr>)
    requires e.Add? || e.Sub? || e.Mul? || e.Bin?
    ensures res.Ok? <==> !(e.Bin? && e.op.OtherBinOp?)
    ensures res.Ok? ==> res.value == SameOp(e, l, r)
    ensures !res.Ok? ==> res == Fail(MsgBinop)
  {
    if e.Bin? && e.op.OtherBinOp? then Fail(MsgBinop) else Ok(SameOp(e, l, r))
  }

  /** The operator node of `e` over the operands `l` and `r`. */
  function SameOp(e: Expr, l: Expr, r: Expr): Expr
    requires e.Add? || e.Sub? || e.Mul? || e.Bin?
  {
    match e
    case Add(_, _) => Add(l, r)
    case Sub(_, _) => Sub(l, r)
    case Mul(_, _) => Mul(l, r)
    case Bin(op, _, _) => Bin(op, l, r)
  }

  /** Fortran `**`: a call to `pow`, cast back to `int` when the result type is integral. */
  function PowCall(l: Expr, r: Expr, integral: bool): Expr
  {
    var call := Call("pow", [l, r]);
    if integral then Cast(call, CInt) else call
  }

  /** Whether a symbol is a pointer that stands for a scalar passed by reference (a
      pointer with a layout is an array passed by reference). */
  predicate ByRefScalar(s: Sym)
  {
    s.ty.CPointer? && s.dim.None?
  }

  /** A variable reference: a name with no C symbol is kept, a by-reference scalar is
      read through its pointer, anything else is referenced directly. */
  function VarRef(syms: map<string, Sym>, x: string): (r: Expr)
    ensures x in syms && ByRefScalar(syms[x]) ==> r == Deref(Var(x))
    ensures !(x in syms && ByRefScalar(syms[x])) ==> r == Var(x)
  {
    if x in syms && ByRefScalar(syms[x]) then Deref(Var(x)) else Var(x)
  }

  const AssertOneArg := "fn_args->get_expressions().size()==1"
  const AssertTwoArgs := "args.size()==2"
  const GetEnvName := "get_environment_variable"

  predicate IsConversion(fn: string)
  {
    fn == "int" || fn == "logical" || fn == "ichar"
  }

  /** A call to a procedure not declared in the file, with translated arguments: `abs` of
      a non-`int` argument is redirected to `fabs`; `int`, `logical` and `ichar` become a
      cast to `int` and `real` a cast to `double`; `get_environment_variable(name, value)`
      becomes `value = getenv(name)`; any other name is called as it is. Each
      recognised intrinsic asserts its arity. */
  function Intrinsic(fn: string, args: seq<Expr>, isInt: Expr -> bool): (r: Result<Expr>)
    ensures !r.Fail?
    ensures fn == "abs" ==>
      r == (if |args| != 1 then Abort(AssertOneArg)
            else Ok(Call(if isInt(args[0]) then "abs" else "fabs", args)))
    ensures IsConversion(fn) || fn == "real" ==>
      r == (if |args| != 1 then Abort(AssertOneArg)
            else Ok(Cast(args[0], if fn == "real" then CDouble else CInt)))
    ensures fn == GetEnvName ==>
      r == (if |args| != 2 then Abort(AssertTwoArgs)
            else Ok(Bin(Assign, args[1], Call("getenv", [args[0]]))))
    ensures fn != "abs" && !IsConversion(fn) && fn != "real" && fn != GetEnvName ==> r == Ok(Call(fn, args))
  {
    if fn == "abs" then
      if |args| != 1 then Abort(AssertOneArg)
      else Ok(Call(if isInt(args[0]) then "abs" else "fabs", args))
    else if IsConversion(fn) then
      if |args| != 1 then Abort(AssertOneArg) else Ok(Cast(args[0], CInt))
    else if fn == "real" then
      if |args| != 1 then Abort(AssertOneArg) else Ok(Cast(args[0], CDouble))
    else if fn == GetEnvName then
      if |args| != 2 then Abort(AssertTwoArgs)
      else Ok(Bin(Assign, args[1], Call("getenv", [args[0]])))
    else Ok(Call(fn, args))
  }
}
