/** The parts of the statement handlers of `XfVisitor` that compute a value from the
    translation state: the symbols visible from the scope stack, `xf_type` with the
    translation of array bounds (src/translator.cpp:199-259), and the item lists of the
    PRINT and READ handlers (src/translator.cpp:1356-1466). Each threads the state of
    `xf_expr` (`St`) through its translations in source order and stops at the first
    error. */
module Lowering {
  import opened Wrappers
  import opened Ast
  import opened Types
  import opened ExprRules
  import opened XfExpr
  import opened Format
  import opened CallArgs

  /** One entry of the scope stack: the statements appended to it and the symbols its
      declarations introduced. */
  datatype Scope = Scope(stmts: seq<Stmt>, syms: map<string, Sym>)

  /** The symbols visible from the innermost scope, looking outwards: an inner
      declaration hides an outer one of the same name. */
  function Visible(scopes: seq<Scope>): map<string, Sym>
  {
    if scopes == [] then map[] else Visible(scopes[..|scopes| - 1]) + scopes[|scopes| - 1].syms
  }

  /** A name is visible exactly when some scope declares it, and it resolves to the
      declaration of the innermost such scope. */
  lemma {:induction false} VisibleInnermost(scopes: seq<Scope>, x: string)
    ensures x in Visible(scopes) <==> exists i :: 0 <= i < |scopes| && x in scopes[i].syms
    ensures x in Visible(scopes) ==>
      exists i :: 0 <= i < |scopes| && Declares(scopes, i, x) && Visible(scopes)[x] == scopes[i].syms[x]
    decreases |scopes|
  {
    if scopes != [] {
      var n := |scopes| - 1;
      var pre := scopes[..n];
      VisibleInnermost(pre, x);
      if x in scopes[n].syms {
        assert Declares(scopes, n, x);
      } else if x in Visible(pre) {
        var i :| 0 <= i < n && Declares(pre, i, x) && Visible(pre)[x] == pre[i].syms[x];
        assert pre[i] == scopes[i];
        assert Declares(scopes, i, x);
      } else {
        forall i | 0 <= i < |scopes| ensures x !in scopes[i].syms {
          if i < n {
            assert pre[i] == scopes[i];
          }
        }
      }
    }
  }

  /** Scope `i` declares `x` and no scope inside it does. */
  predicate Declares(scopes: seq<Scope>, i: nat, x: string)
    requires i < |scopes|
  {
    x in scopes[i].syms && forall j :: i < j < |scopes| ==> x !in scopes[j].syms
  }

  /** `xf_type` on one dimension: the lower bound, then the upper bound unless it is `*`,
      go through `xf_expr`; a plain extent is kept as the Fortran expression it is. */
  function XfDim(ctx: Ctx, d: Dim, st: St): (o: Xf<Dim>)
    ensures Extends(st, o.st)
    ensures o.r.Ok? ==>
      d.Bounded? == o.r.value.Bounded? && d.AssumedSize? == o.r.value.AssumedSize? &&
      d.Extent? == o.r.value.Extent? && d.Star? == o.r.value.Star?
  {
    match d
    case Bounded(lo, hi) =>
      var a := XfE(ctx, lo, st);
      if !a.r.Ok? then Xf(Pass(a.r), a.st)
      else
        var b := XfE(ctx, hi, a.st);
        ExtendsTrans(st, a.st, b.st);
        if !b.r.Ok? then Xf(Pass(b.r), b.st) else Xf(Ok(Bounded(a.r.value, b.r.value)), b.st)
    case AssumedSize(lo) =>
      var a := XfE(ctx, lo, st);
      if !a.r.Ok? then Xf(Pass(a.r), a.st) else Xf(Ok(AssumedSize(a.r.value)), a.st)
    case Extent(_) => Xf(Ok(d), st)
    case Star => Xf(Ok(d), st)
  }

  /** The dimensions in order, each translated after the ones before it. */
  function XfDims(ctx: Ctx, dims: seq<Dim>, st: St): (o: Xf<seq<Dim>>)
    ensures Extends(st, o.st)
    ensures o.r.Ok? ==> |o.r.value| == |dims|
  {
    if dims == [] then Xf(Ok([]), st)
    else
      var p := XfDims(ctx, dims[..|dims| - 1], st);
      if !p.r.Ok? then p
      else
        var d := XfDim(ctx, dims[|dims| - 1], p.st);
        ExtendsTrans(st, p.st, d.st);
        if !d.r.Ok? then Xf(Pass(d.r), d.st) else Xf(Ok(p.r.value + [d.r.value]), d.st)
  }

  /** An error in the first dimensions is the error of the whole list. */
  lemma {:induction false} DimsStop(ctx: Ctx, dims: seq<Dim>, k: nat, st: St)
    requires k <= |dims| && !XfDims(ctx, dims[..k], st).r.Ok?
    ensures XfDims(ctx, dims, st) == XfDims(ctx, dims[..k], st)
    decreases |dims|
  {
    if k < |dims| {
      var n := |dims| - 1;
      assert dims[..n][..k] == dims[..k];
      DimsStop(ctx, dims[..n], k, st);
    } else {
      assert dims[..k] == dims;
    }
  }

  /** `xf_type`: the C type of a Fortran type and, for an array, the layout attribute. The
      element type is lowered first (with no parameter flag and no attribute), then the
      dimensions; an array parameter becomes a pointer to its element type, a local array
      an array sized by the product of its extents. */
  function XfTypeOf(ctx: Ctx, t: FType, param: bool, st: St): (o: Xf<(CType, Option<DimInfo>)>)
    ensures Extends(st, o.st)
    ensures !t.FArray? ==> o.st == st
    ensures !t.FArray? && LowerScalar(t).Ok? ==> o.r == Ok((LowerScalar(t).value, None))
    ensures !t.FArray? && !LowerScalar(t).Ok? ==> o.r == Pass(LowerScalar(t))
    ensures t.FArray? && o.r.Ok? ==>
      o.r.value.1.Some? && |o.r.value.1.value.lbounds| == |t.dims| &&
      (param ==> o.r.value.0.CPointer?) && (!param ==> o.r.value.0.CArray?)
    decreases t
  {
    if t.FArray? then
      var b := XfTypeOf(ctx, t.base, false, st);
      if !b.r.Ok? then Xf(Pass(b.r), b.st)
      else
        var ds := XfDims(ctx, t.dims, b.st);
        ExtendsTrans(st, b.st, ds.st);
        if !ds.r.Ok? then Xf(Pass(ds.r), ds.st)
        else
          var l := LayoutOf(ds.r.value);
          LayoutBounds(ds.r.value);
          var ty := if param then CPointer(b.r.value.0) else CArray(b.r.value.0, l.size);
          Xf(Ok((ty, Some(DimInfo(l.lbounds, l.sizes)))), ds.st)
    else
      var s := LowerScalar(t);
      if s.Ok? then Xf(Ok((s.value, None)), st) else Xf(Pass(s), st)
  }

  /** A dimension whose bounds are integer arithmetic. */
  predicate ArithDim(d: Dim)
  {
    match d
    case Bounded(lo, hi) => IsArith(lo) && IsArith(hi)
    case AssumedSize(lo) => IsArith(lo)
    case Extent(_) => true
    case Star => true
  }

  /** Dimensions with arithmetic bounds translate without declaring anything, and each
      translated lower bound has the value of the Fortran one. */
  lemma {:induction false} ArithDims(ctx: Ctx, dims: seq<Dim>, st: St, fenv: Env, cenv: Env)
    requires forall i :: 0 <= i < |dims| ==> ArithDim(dims[i])
    requires Reads(ctx.syms, fenv, cenv)
    ensures var o := XfDims(ctx, dims, st);
      o.r.Ok? && o.st == st &&
      forall i :: 0 <= i < |dims| ==> Eval(LowerBound(o.r.value[i]), cenv) == Eval(LowerBound(dims[i]), fenv)
    decreases |dims|
  {
    if dims != [] {
      var n := |dims| - 1;
      ArithDims(ctx, dims[..n], st, fenv, cenv);
      var p := XfDims(ctx, dims[..n], st);
      ArithDimOne(ctx, dims[n], st, fenv, cenv);
      var d := XfDim(ctx, dims[n], st);
      assert XfDims(ctx, dims, st).r == Ok(p.r.value + [d.r.value]);
    }
  }

  /** The dimensions of `ArithDims` keep their extents: a bounded dimension spans as many
      elements in C as in Fortran, and a plain extent, kept as written, spans as many as
      its expression evaluates to in C. */
  lemma {:induction false} ArithExtents(ctx: Ctx, dims: seq<Dim>, st: St, fenv: Env, cenv: Env)
    requires forall i :: 0 <= i < |dims| ==> ArithDim(dims[i]) && HasExtent(dims[i])
    requires forall i :: 0 <= i < |dims| && dims[i].Extent? ==> Eval(dims[i].size, cenv) == Eval(dims[i].size, fenv)
    requires Reads(ctx.syms, fenv, cenv)
    ensures var o := XfDims(ctx, dims, st);
      o.r.Ok? && o.st == st && |o.r.value| == |dims| &&
      forall i :: 0 <= i < |dims| ==>
        HasExtent(o.r.value[i]) && ExtentValue(o.r.value[i], cenv) == ExtentValue(dims[i], fenv)
    decreases |dims|
  {
    if dims != [] {
      var n := |dims| - 1;
      ArithExtents(ctx, dims[..n], st, fenv, cenv);
      var p := XfDims(ctx, dims[..n], st);
      ArithDimOne(ctx, dims[n], st, fenv, cenv);
      var d := XfDim(ctx, dims[n], st);
      assert XfDims(ctx, dims, st).r == Ok(p.r.value + [d.r.value]);
      match dims[n]
      case Bounded(lo, hi) =>
        ArithPreserved(ctx, lo, st, fenv, cenv);
        ArithPreserved(ctx, hi, st, fenv, cenv);
      case Extent(_) =>
    }
  }

  /** Dimensions whose extents match one for one span the same number of elements. */
  lemma {:induction false} ProdSame(ds: seq<Dim>, dims: seq<Dim>, cenv: Env, fenv: Env)
    requires |ds| == |dims|
    requires forall i :: 0 <= i < |ds| ==> HasExtent(ds[i]) && HasExtent(dims[i])
    requires forall i :: 0 <= i < |ds| ==> ExtentValue(ds[i], cenv) == ExtentValue(dims[i], fenv)
    ensures Prod(ds, cenv) == Prod(dims, fenv)
    decreases |ds|
  {
    if ds != [] {
      var n := |ds| - 1;
      ProdSame(ds[..n], dims[..n], cenv, fenv);
    }
  }

  /** One dimension of `ArithDims`. */
  lemma ArithDimOne(ctx: Ctx, d: Dim, st: St, fenv: Env, cenv: Env)
    requires ArithDim(d) && Reads(ctx.syms, fenv, cenv)
    ensures var o := XfDim(ctx, d, st);
      o.r.Ok? && o.st == st && Eval(LowerBound(o.r.value), cenv) == Eval(LowerBound(d), fenv)
  {
    match d
    case Bounded(lo, hi) =>
      ArithPreserved(ctx, lo, st, fenv, cenv);
      ArithPreserved(ctx, hi, st, fenv, cenv);
    case AssumedSize(lo) =>
      ArithPreserved(ctx, lo, st, fenv, cenv);
    case Extent(_) =>
    case Star =>
  }

  /** An array of a scalar element type with arithmetic bounds lowers without declaring
      anything: its layout attribute has one lower bound per dimension, each with the
      value of the declared lower bound (1 where none is given). */
  lemma ArrayLowerBounds(ctx: Ctx, t: FType, param: bool, st: St, fenv: Env, cenv: Env)
    requires t.FArray? && !t.base.FArray? && LowerScalar(t.base).Ok?
    requires forall i :: 0 <= i < |t.dims| ==> ArithDim(t.dims[i])
    requires Reads(ctx.syms, fenv, cenv)
    ensures var o := XfTypeOf(ctx, t, param, st);
      o.r.Ok? && o.st == st &&
      forall i :: 0 <= i < |t.dims| ==>
        Eval(o.r.value.1.value.lbounds[i], cenv) == Eval(LowerBound(t.dims[i]), fenv)
  {
    ArithDims(ctx, t.dims, st, fenv, cenv);
    LayoutBounds(XfDims(ctx, t.dims, st).r.value);
  }

  /** An array of a scalar element type whose every dimension has a known extent: as a
      parameter it becomes a pointer to the element type, otherwise a C array of the
      element type sized by the product of the extents; the stride of dimension i + 1 is
      the product of the extents of dimensions 0..i. */
  lemma ArrayExtents(ctx: Ctx, t: FType, param: bool, st: St, fenv: Env, cenv: Env)
    requires t.FArray? && !t.base.FArray? && LowerScalar(t.base).Ok? && |t.dims| > 0
    requires forall i :: 0 <= i < |t.dims| ==> ArithDim(t.dims[i]) && HasExtent(t.dims[i])
    requires forall i :: 0 <= i < |t.dims| && t.dims[i].Extent? ==> Eval(t.dims[i].size, cenv) == Eval(t.dims[i].size, fenv)
    requires Reads(ctx.syms, fenv, cenv)
    ensures var o := XfTypeOf(ctx, t, param, st);
      var elem := LowerScalar(t.base).value;
      o.r.Ok? && o.st == st &&
      (param ==> o.r.value.0 == CPointer(elem)) &&
      (!param ==>
         o.r.value.0.CArray? && o.r.value.0.elem == elem && o.r.value.0.size.Some? &&
         Eval(o.r.value.0.size.value, cenv) == Prod(t.dims, fenv)) &&
      var sizes := o.r.value.1.value.sizes;
      |sizes| == |t.dims| - 1 &&
      forall i :: 0 <= i < |sizes| ==> Eval(sizes[i], cenv) == Prod(t.dims[..i + 1], fenv)
  {
    ArithExtents(ctx, t.dims, st, fenv, cenv);
    var ds := XfDims(ctx, t.dims, st).r.value;
    FullLayout(ds);
    ProdSame(ds, t.dims, cenv, fenv);
    var sizes := LayoutOf(ds).sizes;
    forall i | 0 <= i < |sizes| ensures Eval(sizes[i], cenv) == Prod(t.dims[..i + 1], fenv) {
      ProdSame(ds[..i + 1], t.dims[..i + 1], cenv, fenv);
    }
  }

  /** One item of PRINT (`read == false`) or READ: its conversion, then the item
      translated (and, for READ, replaced by its address). */
  function ItemXf(ctx: Ctx, ftypeOf: Expr -> FType, item: Expr, read: bool, st: St): (o: Xf<(string, Expr)>)
    ensures Extends(st, o.st)
  {
    var f := FormatOf(ftypeOf(item));
    if !f.Ok? then Xf(Pass(f), st)
    else
      var e := XfE(ctx, item, st);
      if !e.r.Ok? then Xf(Pass(e.r), e.st)
      else Xf(Ok((f.value, if read then RefTo(e.r.value) else e.r.value)), e.st)
  }

  /** The loop over the items of PRINT or READ: the conversions are appended to the
      format and the translated items to the arguments, in order. */
  function XfItems(ctx: Ctx, ftypeOf: Expr -> FType, items: seq<Expr>, read: bool, st: St): (o: Xf<(string, seq<Expr>)>)
    ensures Extends(st, o.st)
    ensures o.r.Ok? ==> |o.r.value.1| == |items|
  {
    if items == [] then Xf(Ok(("", [])), st)
    else
      var n := |items| - 1;
      var p := XfItems(ctx, ftypeOf, items[..n], read, st);
      if !p.r.Ok? then p
      else
        var q := ItemXf(ctx, ftypeOf, items[n], read, p.st);
        ExtendsTrans(st, p.st, q.st);
        if !q.r.Ok? then Xf(Pass(q.r), q.st)
        else Xf(Ok((p.r.value.0 + q.r.value.0, p.r.value.1 + [q.r.value.1])), q.st)
  }

  /** One more item: the items before it, then the item. */
  lemma ItemsStep(ctx: Ctx, ftypeOf: Expr -> FType, items: seq<Expr>, i: nat, read: bool, st: St)
    requires i < |items| && XfItems(ctx, ftypeOf, items[..i], read, st).r.Ok?
    ensures var p := XfItems(ctx, ftypeOf, items[..i], read, st);
      var q := ItemXf(ctx, ftypeOf, items[i], read, p.st);
      XfItems(ctx, ftypeOf, items[..i + 1], read, st) ==
        if !q.r.Ok? then Xf(Pass(q.r), q.st)
        else Xf(Ok((p.r.value.0 + q.r.value.0, p.r.value.1 + [q.r.value.1])), q.st)
  {
    assert items[..i + 1][..i] == items[..i];
  }

  /** An error in the first items is the error of the whole statement. */
  lemma {:induction false} ItemsStop(ctx: Ctx, ftypeOf: Expr -> FType, items: seq<Expr>, read: bool, k: nat, st: St)
    requires k <= |items| && !XfItems(ctx, ftypeOf, items[..k], read, st).r.Ok?
    ensures XfItems(ctx, ftypeOf, items, read, st) == XfItems(ctx, ftypeOf, items[..k], read, st)
    decreases |items|
  {
    if k < |items| {
      var n := |items| - 1;
      assert items[..n][..k] == items[..k];
      ItemsStop(ctx, ftypeOf, items[..n], read, k, st);
    } else {
      assert items[..k] == items;
    }
  }

  function ItemTypes(ftypeOf: Expr -> FType, items: seq<Expr>): (tys: seq<FType>)
    ensures |tys| == |items| && forall k :: 0 <= k < |items| ==> tys[k] == ftypeOf(items[k])
  {
    seq(|items|, k requires 0 <= k < |items| => ftypeOf(items[k]))
  }

  /** The format built over the items is the format of their types; an item without a
      conversion ends the statement with the format error. */
  lemma {:induction false} ItemsFormat(ctx: Ctx, ftypeOf: Expr -> FType, items: seq<Expr>, read: bool, st: St)
    ensures var o := XfItems(ctx, ftypeOf, items, read, st);
      o.r.Ok? ==> FormatString(ItemTypes(ftypeOf, items)) == Ok(o.r.value.0)
    ensures var o := XfItems(ctx, ftypeOf, items, read, st);
      !FormatString(ItemTypes(ftypeOf, items)).Ok? ==> !o.r.Ok?
    decreases |items|
  {
    if items != [] {
      var n := |items| - 1;
      ItemsFormat(ctx, ftypeOf, items[..n], read, st);
      assert ItemTypes(ftypeOf, items)[..n] == ItemTypes(ftypeOf, items[..n]);
    }
  }

  /** PRINT and READ pass `printf` and `fscanf` a format with exactly one conversion per
      argument that follows it. */
  lemma FormatMatchesArgs(ctx: Ctx, ftypeOf: Expr -> FType, items: seq<Expr>, read: bool, st: St)
    requires XfItems(ctx, ftypeOf, items, read, st).r.Ok?
    ensures var v := XfItems(ctx, ftypeOf, items, read, st).r.value;
      Conversions(v.0 + Newline) == |v.1|
  {
    ItemsFormat(ctx, ftypeOf, items, read, st);
    FormatCountsItems(ItemTypes(ftypeOf, items));
  }

  /** What READ passes for the variable `x`: the pointer a by-reference parameter already
      is, or the address of any other variable. */
  function ReadArg(syms: map<string, Sym>, x: string): Expr
  {
    if x in syms && ByRefScalar(syms[x]) then Var(x) else AddrOf(Var(x))
  }

  /** One more variable read: the items before it are kept and its pointer is appended. */
  lemma ReadStep(ctx: Ctx, ftypeOf: Expr -> FType, front: seq<Expr>, x: string, st: St)
    requires FormatOf(ftypeOf(Var(x))).Ok?
    requires var p := XfItems(ctx, ftypeOf, front, true, st); p.r.Ok? && p.st == st
    ensures var p := XfItems(ctx, ftypeOf, front, true, st);
      var o := XfItems(ctx, ftypeOf, front + [Var(x)], true, st);
      o.r.Ok? && o.st == st && o.r.value.1 == p.r.value.1 + [ReadArg(ctx.syms, x)]
  {
    assert (front + [Var(x)])[..|front|] == front;
    assert XfE(ctx, Var(x), st) == Xf(Ok(VarRef(ctx.syms, x)), st);
    assert RefTo(VarRef(ctx.syms, x)) == ReadArg(ctx.syms, x);
  }

  /** What READ passes for each of the variables `items`, in order. */
  function ReadArgs(syms: map<string, Sym>, items: seq<Expr>): (r: seq<Expr>)
    requires forall k :: 0 <= k < |items| ==> items[k].Var?
    ensures |r| == |items| && forall k :: 0 <= k < |items| ==> r[k] == ReadArg(syms, items[k].name)
  {
    seq(|items|, k requires 0 <= k < |items| => ReadArg(syms, items[k].name))
  }

  /** READ into variables hands `fscanf` a pointer to each one: a by-reference parameter
      is passed as the pointer it already is, any other variable by its address. */
  lemma {:induction false} ReadPassesPointers(ctx: Ctx, ftypeOf: Expr -> FType, items: seq<Expr>, st: St)
    requires forall k :: 0 <= k < |items| ==> items[k].Var? && FormatOf(ftypeOf(items[k])).Ok?
    ensures var o := XfItems(ctx, ftypeOf, items, true, st);
      o.r.Ok? && o.st == st && o.r.value.1 == ReadArgs(ctx.syms, items)
    decreases |items|
  {
    if items != [] {
      var n := |items| - 1;
      var front, x := items[..n], items[n].name;
      assert items == front + [Var(x)];
      ReadPassesPointers(ctx, ftypeOf, front, st);
      ReadStep(ctx, ftypeOf, front, x, st);
      assert ReadArgs(ctx.syms, items) == ReadArgs(ctx.syms, front) + [ReadArg(ctx.syms, x)];
    }
  }
}
