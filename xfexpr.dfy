/** `xf_expr` (src/translator.cpp:630-859): the recursive translation of a Fortran
    expression into a C one. It is not pure: building a call may declare temporaries in
    the current scope and bump the global name counter, and `getenv` adds a header. Here
    that state is threaded through explicitly: `XfE` takes the state before and returns
    the result with the state after. */
module XfExpr {
  import opened Wrappers
  import opened Ast
  import opened Names
  import opened Walk
  import opened Trees
  import opened Intents
  import opened Linearize
  import opened CallArgs
  import opened ExprRules

  /** What translating an expression changes: the name counter, the temporaries appended
      to the current scope, and the headers to include. */
  datatype St = St(counter: nat, temps: seq<Stmt>, includes: set<string>)

  /** What it reads: the C symbols visible from the current scope (innermost wins), the
      Fortran tree of the file being translated, and ROSE's typing of C expressions. */
  datatype Ctx = Ctx(syms: map<string, Sym>, unit: Node, typeOf: Expr -> CType)

  datatype Xf<T> = Xf(r: Result<T>, st: St)

  /** An error passed on unchanged. */
  function Pass<A, B>(r: Result<A>): Result<B>
    requires !r.Ok?
  {
    if r.Fail? then Fail(r.msg) else Abort(r.why)
  }

  const AssertVarRef := "isSgVarRefExp(lexp)"
  const AssertDim := "decl->attributeExists(\"dim\")"
  const UbIntents := "intents shorter than the argument list"

  /** `b` is `a` with some temporaries appended, numbered on from `a`'s counter, and
      perhaps more headers. */
  predicate Extends(a: St, b: St)
  {
    a.counter <= b.counter && |b.temps| == |a.temps| + (b.counter - a.counter) &&
    b.temps[..|a.temps|] == a.temps && a.includes <= b.includes &&
    forall j :: |a.temps| <= j < |b.temps| ==>
      b.temps[j].VarDecl? && b.temps[j].name == GenName(ArgPrefix, a.counter + (j - |a.temps|))
  }

  lemma ExtendsTrans(a: St, b: St, c: St)
    requires Extends(a, b) && Extends(b, c)
    ensures Extends(a, c)
  {
    assert c.temps[..|a.temps|] == c.temps[..|b.temps|][..|a.temps|];
    forall j | |a.temps| <= j < |c.temps|
      ensures c.temps[j].VarDecl? && c.temps[j].name == GenName(ArgPrefix, a.counter + (j - |a.temps|))
    {
      if j < |b.temps| {
        assert c.temps[j] == c.temps[..|b.temps|][j] == b.temps[j];
      }
    }
  }

  /** FFinder's test: a procedure with the given name. */
  function FindDir(name: string): Node -> Directive
  {
    (n: Node) => if n.ProcNode? && n.proc.name == name then Handle else Descend
  }

  /** `xf_get_fn_decl`: the first procedure of that name in pre-order. */
  function FindIn(name: string, t: Tree<Node>): Option<ProcDecl>
    decreases t, 1
  {
    if t.node.ProcNode? && t.node.proc.name == name then Some(t.node.proc) else FindOf(name, t.kids)
  }

  function FindOf(name: string, ts: seq<Tree<Node>>): Option<ProcDecl>
    decreases ts, 0
  {
    if ts == [] then None
    else
      var f := FindIn(name, ts[0]);
      if f.Some? then f else FindOf(name, ts[1..])
  }

  function FindProc(name: string, unit: Node): Option<ProcDecl>
  {
    FindIn(name, NodeTree(unit))
  }

  /** The C expression for a subscripted array: the array must be a variable with a
      layout, and the subscripts are linearized against that layout. */
  function ArrayIndex(syms: map<string, Sym>, lexp: Expr, idx: seq<Expr>): Result<Expr>
  {
    if !lexp.Var? then Abort(AssertVarRef)
    else if lexp.name !in syms || syms[lexp.name].dim.None? then Abort(AssertDim)
    else if !Fits(idx, syms[lexp.name].dim.value) then Abort(UbSubscripts)
    else Ok(Index(lexp, LinearIndex(idx, syms[lexp.name].dim.value)))
  }

  /** `xf_expr`. Operands are translated left to right before the node itself is
      built; the first error ends the translation, with the state reached so far. */
  function XfE(ctx: Ctx, e: Expr, st: St): (o: Xf<Expr>)
    ensures Extends(st, o.st)
    decreases e, 1
  {
    match e
    case Var(x) => Xf(Ok(VarRef(ctx.syms, x)), st)
    case Un(op, x, postfix) =>
      var a := XfE(ctx, x, st);
      if !a.r.Ok? then a else Xf(XfUnop(op, postfix, a.r.value), a.st)
    case Deref(x) =>
      var a := XfE(ctx, x, st);
      if !a.r.Ok? then a else Xf(Fail(MsgUnop), a.st)
    case AddrOf(x) =>
      var a := XfE(ctx, x, st);
      if !a.r.Ok? then a else Xf(Fail(MsgUnop), a.st)
    case Cast(x, _) =>
      var a := XfE(ctx, x, st);
      if !a.r.Ok? then a else Xf(Fail(MsgUnop), a.st)
    case Pow(l, r, integral) =>
      var a := XfE(ctx, l, st);
      if !a.r.Ok? then a
      else
        var b := XfE(ctx, r, a.st);
        ExtendsTrans(st, a.st, b.st);
        if !b.r.Ok? then b else Xf(Ok(PowCall(a.r.value, b.r.value, integral)), b.st)
    case ArrRef(arr, subs) =>
      var a := XfE(ctx, arr, st);
      if !a.r.Ok? then a
      else
        var b := XfList(ctx, subs, a.st);
        ExtendsTrans(st, a.st, b.st);
        if !b.r.Ok? then Xf(Pass(b.r), b.st)
        else Xf(ArrayIndex(ctx.syms, a.r.value, b.r.value), b.st)
    case FunRef(_) => Xf(Ok(Var(RetvName)), st)
    case Call(fn, args) =>
      var p := FindProc(fn, ctx.unit);
      if p.Some? then
        var ord := OrderedOf(p.value);
        if !ord.Ok? then Xf(Pass(ord), st)
        else
          var l := XfArgs(ctx, args, Some(ord.value), st);
          if !l.r.Ok? then Xf(Pass(l.r), l.st) else Xf(Ok(Call(fn, l.r.value)), l.st)
      else
        var l := XfArgs(ctx, args, None, st);
        if !l.r.Ok? then Xf(Pass(l.r), l.st)
        else
          var r := Intrinsic(fn, l.r.value, x => ctx.typeOf(x) == CInt);
          Xf(r, if fn == GetEnvName && r.Ok? then l.st.(includes := l.st.includes + {"stdlib.h"}) else l.st)
    case IntLit(_) => Xf(XfValue(e), st)
    case BoolLit(_) => Xf(XfValue(e), st)
    case Const(_, _) => Xf(XfValue(e), st)
    case StrLit(_) => Xf(XfValue(e), st)
    case Add(_, _) => Binary(ctx, e, st)
    case Sub(_, _) => Binary(ctx, e, st)
    case Mul(_, _) => Binary(ctx, e, st)
    case Bin(_, _, _) => Binary(ctx, e, st)
    case Index(_, _) => Xf(Fail(MsgExpr), st)
    case Cond(_, _, _) => Xf(Fail(MsgExpr), st)
    case NullExpr => Xf(Fail(MsgExpr), st)
    case OtherExpr(_) => Xf(Fail(MsgExpr), st)
  }

  /** `xf_binop_exp` for the operators rebuilt one to one: both operands, then the
      operator. */
  function Binary(ctx: Ctx, e: Expr, st: St): (o: Xf<Expr>)
    requires e.Add? || e.Sub? || e.Mul? || e.Bin?
    ensures Extends(st, o.st)
    decreases e, 0
  {
    var a := XfE(ctx, e.l, st);
    if !a.r.Ok? then a
    else
      var b := XfE(ctx, e.r, a.st);
      ExtendsTrans(st, a.st, b.st);
      if !b.r.Ok? then b else Xf(Rebuild(e, a.r.value, b.r.value), b.st)
  }

  /** An argument list: every argument is translated once, in order; then, given the
      callee's intents, temporaries are declared and references taken as `Plan` says
      (`XfArgsFollowsPlan`). */
  function XfArgs(ctx: Ctx, args: seq<Expr>, intents: Option<seq<Intent>>, st: St): (o: Xf<seq<Expr>>)
    ensures Extends(st, o.st)
    ensures o.r.Ok? ==> |o.r.value| == |args|
    decreases args, 1
  {
    var l := XfList(ctx, args, st);
    if !l.r.Ok? then l
    else
      var texprs := l.r.value;
      if intents.Some? && |intents.value| < |texprs| then Xf(Abort(UbIntents), l.st)
      else
        var low := Plan(texprs, TypesOf(ctx, texprs), intents, l.st.counter);
        var st' := St(low.next, l.st.temps + low.decls, l.st.includes);
        assert Extends(l.st, st') by {
          assert st'.temps[..|l.st.temps|] == l.st.temps;
        }
        ExtendsTrans(st, l.st, st');
        Xf(Ok(low.args), st')
  }

  /** ROSE's C types of the translated arguments. */
  function TypesOf(ctx: Ctx, texprs: seq<Expr>): (tys: seq<CType>)
    ensures |tys| == |texprs|
  {
    seq(|texprs|, k requires 0 <= k < |texprs| => ctx.typeOf(texprs[k]))
  }

  /** The arguments of a call are the ones `Plan` builds from the translated list, and the
      temporaries it declares follow those the arguments' own translation declared. */
  lemma XfArgsFollowsPlan(ctx: Ctx, args: seq<Expr>, intents: Option<seq<Intent>>, st: St)
    requires intents.Some? ==> |intents.value| >= |args|
    ensures var l := XfList(ctx, args, st);
      var o := XfArgs(ctx, args, intents, st);
      (!l.r.Ok? ==> o == l) &&
      (l.r.Ok? ==>
        var low := Plan(l.r.value, TypesOf(ctx, l.r.value), intents, l.st.counter);
        o.r == Ok(low.args) && o.st == St(low.next, l.st.temps + low.decls, l.st.includes))
  {
  }

  /** The first loop over an argument (or subscript) list: each expression translated
      once, left to right. */
  function XfList(ctx: Ctx, es: seq<Expr>, st: St): (o: Xf<seq<Expr>>)
    ensures Extends(st, o.st)
    ensures o.r.Ok? ==> |o.r.value| == |es|
    decreases es, 0
  {
    if es == [] then Xf(Ok([]), st)
    else
      var h := XfE(ctx, es[0], st);
      if !h.r.Ok? then Xf(Pass(h.r), h.st)
      else
        var t := XfList(ctx, es[1..], h.st);
        ExtendsTrans(st, h.st, t.st);
        if !t.r.Ok? then t else Xf(Ok([h.r.value] + t.r.value), t.st)
  }

  /** A list of two expressions: the first, then the second, stopping at an error. */
  lemma XfListPair(ctx: Ctx, u: Expr, f: Expr, st: St)
    ensures var a := XfE(ctx, u, st);
      var b := XfE(ctx, f, a.st);
      XfList(ctx, [u, f], st) ==
        if !a.r.Ok? then Xf(Pass(a.r), a.st)
        else if !b.r.Ok? then Xf(Pass(b.r), b.st)
        else Xf(Ok([a.r.value, b.r.value]), b.st)
  {
    assert [u, f][0] == u && [u, f][1..] == [f] && [f][0] == f && [f][1..] == [];
    var a := XfE(ctx, u, st);
    if a.r.Ok? {
      var b := XfE(ctx, f, a.st);
      if b.r.Ok? {
        assert XfList(ctx, [f][1..], b.st) == Xf(Ok([]), b.st);
        assert [b.r.value] + [] == [b.r.value];
        assert XfList(ctx, [f], a.st) == Xf(Ok([b.r.value]), b.st);
        assert [a.r.value] + [b.r.value] == [a.r.value, b.r.value];
      } else {
        assert XfList(ctx, [f], a.st) == Xf(Pass(b.r), b.st);
      }
    }
  }

  /** No temporary name repeats: those declared during one translation differ from each
      other and from every name the counter gave out before. */
  lemma TempsFresh(a: St, b: St)
    requires Extends(a, b)
    ensures forall i, j :: |a.temps| <= i < j < |b.temps| ==> b.temps[i].name != b.temps[j].name
    ensures forall j, m: nat :: |a.temps| <= j < |b.temps| && m < a.counter ==> b.temps[j].name != GenName(ArgPrefix, m)
  {
    forall i, j | |a.temps| <= i < j < |b.temps| ensures b.temps[i].name != b.temps[j].name {
      if b.temps[i].name == b.temps[j].name {
        GenNameInjective(ArgPrefix, a.counter + (i - |a.temps|), a.counter + (j - |a.temps|));
      }
    }
    forall j, m: nat | |a.temps| <= j < |b.temps| && m < a.counter ensures b.temps[j].name != GenName(ArgPrefix, m) {
      if b.temps[j].name == GenName(ArgPrefix, m) {
        GenNameInjective(ArgPrefix, a.counter + (j - |a.temps|), m);
      }
    }
  }

  predicate Relational(op: BinOp)
  {
    op.LessOrEqual? || op.GreaterOrEqual? || op.LessThan? || op.GreaterThan? || op.Equality? || op.NotEqual?
  }

  /** Integer and logical arithmetic: literals, variables, `+ - *`, comparisons and the
      unary signs. */
  predicate IsArith(e: Expr)
  {
    match e
    case IntLit(_) => true
    case BoolLit(_) => true
    case Var(_) => true
    case Add(l, r) => IsArith(l) && IsArith(r)
    case Sub(l, r) => IsArith(l) && IsArith(r)
    case Mul(l, r) => IsArith(l) && IsArith(r)
    case Bin(op, l, r) => Relational(op) && IsArith(l) && IsArith(r)
    case Un(op, x, _) => (op.UMinus? || op.UPlus?) && IsArith(x)
    case _ => false
  }

  /** The C program sees the Fortran program's variables: a variable reference as
      translated holds the value of the Fortran variable. */
  ghost predicate Reads(syms: map<string, Sym>, fenv: Env, cenv: Env)
  {
    forall x: string :: cenv(VarRef(syms, x)) == fenv(Var(x))
  }

  /** Arithmetic translates without declaring anything, and the C expression has the
      Fortran expression's value, by-reference parameters being read through their
      pointers. */
  lemma {:induction false} ArithPreserved(ctx: Ctx, e: Expr, st: St, fenv: Env, cenv: Env)
    requires IsArith(e) && Reads(ctx.syms, fenv, cenv)
    ensures var o := XfE(ctx, e, st);
      o.r.Ok? && o.st == st && !o.r.value.Const? && Eval(o.r.value, cenv) == Eval(e, fenv)
    decreases e, 1
  {
    match e
    case IntLit(_) =>
    case BoolLit(_) =>
    case Var(x) =>
      assert cenv(VarRef(ctx.syms, x)) == fenv(Var(x));
    case Add(_, _) => ArithBinary(ctx, e, st, fenv, cenv);
    case Sub(_, _) => ArithBinary(ctx, e, st, fenv, cenv);
    case Mul(_, _) => ArithBinary(ctx, e, st, fenv, cenv);
    case Bin(_, _, _) => ArithBinary(ctx, e, st, fenv, cenv);
    case Un(op, x, _) =>
      ArithPreserved(ctx, x, st, fenv, cenv);
  }

  /** The binary case of `ArithPreserved`: both operands keep their values, and so does
      the rebuilt operator. */
  lemma {:induction false} ArithBinary(ctx: Ctx, e: Expr, st: St, fenv: Env, cenv: Env)
    requires (e.Add? || e.Sub? || e.Mul? || e.Bin?) && IsArith(e) && Reads(ctx.syms, fenv, cenv)
    ensures var o := Binary(ctx, e, st);
      o.r.Ok? && o.st == st && !o.r.value.Const? && Eval(o.r.value, cenv) == Eval(e, fenv)
    decreases e, 0
  {
    ArithPreserved(ctx, e.l, st, fenv, cenv);
    ArithPreserved(ctx, e.r, st, fenv, cenv);
    var a, b := XfE(ctx, e.l, st), XfE(ctx, e.r, st);
    SameOpEval(e, a.r.value, b.r.value, fenv, cenv);
  }

  /** An arithmetic operator rebuilt over operands that keep their values keeps its
      value. */
  lemma SameOpEval(e: Expr, l: Expr, r: Expr, fenv: Env, cenv: Env)
    requires (e.Add? || e.Sub? || e.Mul? || e.Bin?) && IsArith(e)
    requires Eval(l, cenv) == Eval(e.l, fenv) && Eval(r, cenv) == Eval(e.r, fenv)
    ensures Rebuild(e, l, r) == Ok(SameOp(e, l, r)) && !SameOp(e, l, r).Const?
    ensures Eval(SameOp(e, l, r), cenv) == Eval(e, fenv)
  {
  }

  /** The first of the nodes a walk acted on, read as a procedure. */
  function FirstProc(acted: seq<Node>): Option<ProcDecl>
  {
    if acted == [] || !acted[0].ProcNode? then None else Some(acted[0].proc)
  }

  /** The procedure `xf_get_fn_decl` finds is the first one of that name a pre-order walk
      reaches (the walk that does not look inside a match); none is found exactly when
      that walk reaches none. */
  lemma {:induction false} FindIsFirstFound(name: string, t: Tree<Node>)
    ensures FindIn(name, t) == FirstProc(Acted(FindDir(name), t).acted)
    ensures Acted(FindDir(name), t).ok
    ensures forall n :: n in Acted(FindDir(name), t).acted ==> n.ProcNode? && n.proc.name == name
    decreases t, 1
  {
    if !(t.node.ProcNode? && t.node.proc.name == name) {
      FindOfIsFirstFound(name, t.kids);
    }
  }

  lemma {:induction false} FindOfIsFirstFound(name: string, ts: seq<Tree<Node>>)
    ensures FindOf(name, ts) == FirstProc(ActedOf(FindDir(name), ts).acted)
    ensures ActedOf(FindDir(name), ts).ok
    ensures forall n :: n in ActedOf(FindDir(name), ts).acted ==> n.ProcNode? && n.proc.name == name
    decreases ts, 0
  {
    if ts != [] {
      FindIsFirstFound(name, ts[0]);
      FindOfIsFirstFound(name, ts[1..]);
      var a := Acted(FindDir(name), ts[0]).acted;
      var b := ActedOf(FindDir(name), ts[1..]).acted;
      assert ActedOf(FindDir(name), ts).acted == a + b;
      if a != [] {
        assert (a + b)[0] == a[0];
      } else {
        assert a + b == b;
      }
    }
  }
}
