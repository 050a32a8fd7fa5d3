/** Subscript linearization, the array-reference case of `xf_binop_exp`
    (src/translator.cpp:493-538): `a(i1, ..., in)` becomes `a[offset]` with
    offset = (i1-lb1) + sum over k >= 2 of (ik-lbk) * sizes[k-2], built with literal
    folding and with `*1`, `+0` and `-0` left out. This is the array element order of
    ISO/IEC 1539-1:2010 section 6.5.3.2 (the first subscript varies fastest). */
module Linearize {
  import opened Wrappers
  import opened Ast
  import opened Types

  /** `ind - lbound`, folded for two literals and left as `ind` for a literal 0 bound. */
  function SubIndex(ind: Expr, lbound: Expr): (r: Expr)
    ensures forall env :: Eval(r, env) == Eval(ind, env) - Eval(lbound, env)
  {
    if ind.IntLit? && lbound.IntLit? then IntLit(ind.n - lbound.n)
    else if !lbound.IntLit? || lbound.n != 0 then Sub(ind, lbound)
    else ind
  }

  /** `sub * size`, folded for two literals and left as `sub` for a literal 1 size. */
  function Scale(sub: Expr, size: Expr): (r: Expr)
    ensures forall env :: Eval(r, env) == Eval(sub, env) * Eval(size, env)
  {
    if size.IntLit? && sub.IntLit? then IntLit(sub.n * size.n)
    else if !size.IntLit? || size.n != 1 then Mul(sub, size)
    else sub
  }

  /** `index + sub`, folded for two literals, and with a literal 0 on either side left
      out. */
  function Accumulate(index: Expr, sub: Expr): (r: Expr)
    ensures forall env :: Eval(r, env) == Eval(index, env) + Eval(sub, env)
  {
    if index.IntLit? && sub.IntLit? then IntLit(index.n + sub.n)
    else if index.IntLit? && index.n == 0 then sub
    else if !sub.IntLit? || sub.n != 0 then Add(index, sub)
    else index
  }

  /** The subscripts can be read against the layout: a lower bound for each, and a
      stride for each after the first. The source indexes its vectors unchecked, which
      is undefined behaviour otherwise. */
  predicate Fits(idx: seq<Expr>, dim: DimInfo)
  {
    |idx| <= |dim.lbounds| && |idx| <= |dim.sizes| + 1
  }

  function Stride(sizes: seq<Expr>, i: nat, env: Env): int
    requires i <= |sizes|
  {
    if i == 0 then 1 else Eval(sizes[i - 1], env)
  }

  /** The offset the linearized subscript should evaluate to. */
  function Offset(idx: seq<Expr>, dim: DimInfo, env: Env): int
    requires Fits(idx, dim)
  {
    if idx == [] then 0
    else
      var k := |idx| - 1;
      Offset(idx[..k], dim, env) + (Eval(idx[k], env) - Eval(dim.lbounds[k], env)) * Stride(dim.sizes, k, env)
  }

  /** The term built for subscript `k`: its distance from the lower bound, scaled by the
      stride for every subscript after the first. */
  function Term(idx: seq<Expr>, dim: DimInfo, k: nat): (r: Expr)
    requires Fits(idx, dim) && k < |idx|
    ensures forall env :: Eval(r, env) == (Eval(idx[k], env) - Eval(dim.lbounds[k], env)) * Stride(dim.sizes, k, env)
  {
    var sub := SubIndex(idx[k], dim.lbounds[k]);
    if k == 0 then sub else Scale(sub, dim.sizes[k - 1])
  }

  /** The index expression the subscript loop leaves behind: the terms accumulated left
      to right, or NULL (`NullExpr`) for no subscripts. It evaluates to the offset. */
  function LinearIndex(idx: seq<Expr>, dim: DimInfo): (r: Expr)
    requires Fits(idx, dim)
    ensures idx == [] ==> r == NullExpr
    ensures idx != [] ==> forall env :: Eval(r, env) == Offset(idx, dim, env)
    decreases |idx|
  {
    if idx == [] then NullExpr
    else
      var k := |idx| - 1;
      assert forall i :: 0 <= i < k ==> idx[..k][i] == idx[i];
      if k == 0 then Term(idx, dim, 0)
      else Accumulate(LinearIndex(idx[..k], dim), Term(idx, dim, k))
  }

  /** Indexing `lbounds` or `sizes` past their end is undefined in the source; the model
      ends the run there. */
  const UbSubscripts := "subscripts past the array's dimension attribute"

  /** The source's loop over the subscripts. */
  method Linearize(idx: seq<Expr>, dim: DimInfo) returns (r: Result<Expr>)
    ensures r.Ok? <==> Fits(idx, dim)
    ensures !r.Ok? ==> r == Abort(UbSubscripts)
    ensures r.Ok? ==> r.value == LinearIndex(idx, dim)
    ensures r.Ok? && idx != [] ==> forall env :: Eval(r.value, env) == Offset(idx, dim, env)
  {
    var index: Option<Expr> := None;
    var i := 0;
    while i < |idx|
      invariant 0 <= i <= |idx|
      invariant i <= |dim.lbounds| && i <= |dim.sizes| + 1
      invariant index.None? <==> i == 0
      invariant index.Some? ==> index.value == LinearIndex(idx[..i], dim)
    {
      if i >= |dim.lbounds| || (i != 0 && i - 1 >= |dim.sizes|) {
        return Abort(UbSubscripts);
      }
      assert idx[..i + 1][..i] == idx[..i];
      var sub := SubIndex(idx[i], dim.lbounds[i]);
      if i != 0 {
        sub := Scale(sub, dim.sizes[i - 1]);
      }
      assert sub == Term(idx[..i + 1], dim, i);
      if index.None? {
        index := Some(sub);
      } else {
        index := Some(Accumulate(index.value, sub));
      }
      i := i + 1;
    }
    assert idx[..i] == idx;
    if index.None? {
      return Ok(NullExpr);
    }
    return Ok(index.value);
  }

  /** Subscripts equal to the lower bounds address the first element. */
  lemma {:induction false} LowerBoundsGiveZero(idx: seq<Expr>, dim: DimInfo, env: Env)
    requires Fits(idx, dim)
    requires forall k :: 0 <= k < |idx| ==> Eval(idx[k], env) == Eval(dim.lbounds[k], env)
    ensures Offset(idx, dim, env) == 0
    decreases |idx|
  {
    if idx != [] {
      LowerBoundsGiveZero(idx[..|idx| - 1], dim, env);
    }
  }

  /** The first subscript has stride 1: moving it by one moves the offset by one. */
  lemma {:induction false} FirstSubscriptStrideOne(idx: seq<Expr>, idx2: seq<Expr>, dim: DimInfo, env: Env)
    requires Fits(idx, dim) && 0 < |idx| == |idx2|
    requires Eval(idx2[0], env) == Eval(idx[0], env) + 1
    requires forall k :: 1 <= k < |idx| ==> Eval(idx2[k], env) == Eval(idx[k], env)
    ensures Offset(idx2, dim, env) == Offset(idx, dim, env) + 1
    decreases |idx|
  {
    if |idx| > 1 {
      FirstSubscriptStrideOne(idx[..|idx| - 1], idx2[..|idx| - 1], dim, env);
    }
  }

  /** The subscript order value of ISO/IEC 1539-1:2010 section 6.5.3.2, less one: each
      subscript's distance from its lower bound times the product of the extents of the
      dimensions before it. */
  function ElementOrder(idx: seq<Expr>, dims: seq<Dim>, env: Env): int
    requires |idx| <= |dims| && forall i :: 0 <= i < |idx| - 1 ==> HasExtent(dims[i])
  {
    if idx == [] then 0
    else
      var k := |idx| - 1;
      ElementOrder(idx[..k], dims, env) + (Eval(idx[k], env) - Eval(LowerBound(dims[k]), env)) * Prod(dims[..k], env)
  }

  /** Linearizing against the layout `xf_type` built for the declaration gives the
      standard's array element order. */
  lemma {:induction false} ColumnMajor(idx: seq<Expr>, dims: seq<Dim>, env: Env)
    requires 0 < |idx| == |dims| && forall i :: 0 <= i < |dims| - 1 ==> HasExtent(dims[i])
    ensures var l := LayoutOf(dims);
      Fits(idx, DimInfo(l.lbounds, l.sizes)) &&
      Offset(idx, DimInfo(l.lbounds, l.sizes), env) == ElementOrder(idx, dims, env)
  {
    var l := LayoutOf(dims);
    LayoutBounds(dims);
    Strides(dims);
    PrefixOrder(idx, dims, DimInfo(l.lbounds, l.sizes), env, |idx|);
    assert idx[..|idx|] == idx;
  }

  lemma {:induction false} PrefixOrder(idx: seq<Expr>, dims: seq<Dim>, dim: DimInfo, env: Env, n: nat)
    requires n <= |idx| && 0 < |idx| == |dims| && forall i :: 0 <= i < |dims| - 1 ==> HasExtent(dims[i])
    requires |dim.lbounds| == |dims| && forall i :: 0 <= i < |dims| ==> dim.lbounds[i] == LowerBound(dims[i])
    requires |dim.sizes| == |dims| - 1
    requires forall i, e :: 0 <= i < |dim.sizes| ==> Eval(dim.sizes[i], e) == Prod(dims[..i + 1], e)
    ensures Fits(idx[..n], dim) && Offset(idx[..n], dim, env) == ElementOrder(idx[..n], dims, env)
    decreases n
  {
    if n > 0 {
      var k := n - 1;
      PrefixOrder(idx, dims, dim, env, k);
      assert idx[..n][..k] == idx[..k] && idx[..n][k] == idx[k];
      if k == 0 {
        assert Stride(dim.sizes, 0, env) == 1 == Prod(dims[..0], env);
      } else {
        assert Stride(dim.sizes, k, env) == Prod(dims[..k], env);
      }
      assert Eval(dim.lbounds[k], env) == Eval(LowerBound(dims[k]), env);
    }
  }
}
