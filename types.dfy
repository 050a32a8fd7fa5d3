/** Type lowering, `xf_type` (src/translator.cpp:199-357): scalar Fortran types become C
    types by kind, and an array type becomes a pointer (parameters) or a sized C array
    (locals), together with the per-declaration layout the subscript linearizer uses. */
module Types {
  import opened Wrappers
  import opened Ast

  const MsgIntKind := "Integer type with non integral kind?"
  const MsgRealKind := "Floating type with non integral kind?"
  const MsgUnhandledType := "Unhandled SgType in tcf::xf_type :: SgType* -> SgType*"

  /** Storage size in bytes of the C arithmetic types on the LP64 targets the generated
      code is compiled for. */
  function ByteWidth(t: CType): nat
  {
    match t
    case CChar => 1
    case CShort => 2
    case CInt => 4
    case CLong => 8
    case CFloat => 4
    case CDouble => 8
    case _ => 0
  }

  /** The scalar branches of `xf_type`. A literal integer kind names the width in bytes
      (1, 2, 4, 8), a literal real kind 4 or 8; other literal kinds, and any type not
      listed, fall through to the "Unhandled SgType" error; a kind that is not a literal
      is an error of its own. */
  function LowerScalar(t: FType): (r: Result<CType>)
    requires !t.FArray?
    ensures t.FVoid? ==> r == Ok(CVoid)
    ensures t.FBool? ==> r == Ok(CInt)
    ensures t.FChar? ==> r == Ok(CChar)
    ensures t.FString? ==> r == Ok(CString)
    ensures (t.FInt? || t.FReal?) && t.kind.Some? && t.kind.value.IntLit? ==>
      var k := t.kind.value.n;
      (r.Ok? <==> (if t.FInt? then k in {1, 2, 4, 8} else k in {4, 8})) &&
      (r.Ok? ==> ByteWidth(r.value) == k && (r.value.CFloat? || r.value.CDouble? <==> t.FReal?)) &&
      (r.Fail? ==> r.msg == MsgUnhandledType)
    ensures (t.FInt? || t.FReal?) && t.kind.Some? && !t.kind.value.IntLit? ==>
      r == Fail(if t.FInt? then MsgIntKind else MsgRealKind)
    ensures t.FInt? && t.kind.None? ==> r == Ok(CInt)
    ensures t.FReal? && t.kind.None? ==> r == Ok(CFloat)
    ensures t.FOtherType? ==> r == Fail(MsgUnhandledType)
  {
    match t
    case FVoid => Ok(CVoid)
    case FBool => Ok(CInt)
    case FChar => Ok(CChar)
    case FInt(kind) =>
      (match kind
       case None => Ok(CInt)
       case Some(IntLit(k)) =>
         if k == 1 then Ok(CChar)
         else if k == 2 then Ok(CShort)
         else if k == 4 then Ok(CInt)
         else if k == 8 then Ok(CLong)
         else Fail(MsgUnhandledType)
       case Some(_) => Fail(MsgIntKind))
    case FReal(kind) =>
      (match kind
       case None => Ok(CFloat)
       case Some(IntLit(k)) =>
         if k == 4 then Ok(CFloat)
         else if k == 8 then Ok(CDouble)
         else Fail(MsgUnhandledType)
       case Some(_) => Fail(MsgRealKind))
    case FString => Ok(CString)
    case FOtherType(_) => Fail(MsgUnhandledType)
  }

  /** The lower bound recorded for a dimension: the given one, or 1. */
  function LowerBound(d: Dim): Expr
  {
    match d
    case Bounded(lo, _) => lo
    case AssumedSize(lo) => lo
    case Extent(_) => IntLit(1)
    case Star => IntLit(1)
  }

  predicate HasExtent(d: Dim)
  {
    d.Bounded? || d.Extent?
  }

  /** The number of elements a dimension spans, in a run of the program. */
  function ExtentValue(d: Dim, env: Env): int
    requires HasExtent(d)
  {
    match d
    case Bounded(lo, hi) => Eval(hi, env) - Eval(lo, env) + 1
    case Extent(n) => Eval(n, env)
  }

  /** The extent expression built for a dimension: `hi-lo+1` folded when both bounds are
      literals, `1+hi` when the lower bound is the literal 0, `1+(hi-lo)` otherwise; the
      given expression for a plain extent; none for an assumed size. Folding never
      changes the value. */
  function Subsize(d: Dim): (r: Option<Expr>)
    ensures r.Some? <==> HasExtent(d)
    ensures r.Some? ==> forall env :: Eval(r.value, env) == ExtentValue(d, env)
  {
    match d
    case Bounded(lo, hi) =>
      if lo.IntLit? && hi.IntLit? then Some(IntLit(hi.n - lo.n + 1))
      else if !lo.IntLit? || lo.n != 0 then Some(Add(IntLit(1), Sub(hi, lo)))
      else Some(Add(IntLit(1), hi))
    case Extent(n) => Some(n)
    case _ => None
  }

  /** `size * subsize`, folded when both are literals. */
  function MulFold(a: Expr, b: Expr): (r: Expr)
    ensures forall env :: Eval(r, env) == Eval(a, env) * Eval(b, env)
  {
    if a.IntLit? && b.IntLit? then IntLit(a.n * b.n) else Mul(a, b)
  }

  /** The state of the dimension loop: lower bounds and strides pushed so far, and the
      running `size` (`None` while it is NULL). */
  datatype Layout = Layout(lbounds: seq<Expr>, sizes: seq<Expr>, size: Option<Expr>)

  /** One iteration of the dimension loop: the running size is pushed as the stride of
      this dimension (if there is one yet) before this dimension's extent is folded in. */
  function StepDim(st: Layout, d: Dim): Layout
  {
    var sub := Subsize(d);
    var sizes := if st.size.Some? then st.sizes + [st.size.value] else st.sizes;
    var size :=
      if st.size.Some? then (if sub.Some? then Some(MulFold(st.size.value, sub.value)) else st.size)
      else sub;
    Layout(st.lbounds + [LowerBound(d)], sizes, size)
  }

  function LayoutOf(dims: seq<Dim>): Layout
  {
    if dims == [] then Layout([], [], None) else StepDim(LayoutOf(dims[..|dims| - 1]), dims[|dims| - 1])
  }

  /** The array branch's loop over the dimensions (src/translator.cpp:216-254), with its
      bound expressions already translated. */
  method ArrayLayout(dims: seq<Dim>) returns (lbounds: seq<Expr>, sizes: seq<Expr>, size: Option<Expr>)
    ensures Layout(lbounds, sizes, size) == LayoutOf(dims)
  {
    lbounds, sizes, size := [], [], None;
    var i := 0;
    while i < |dims|
      invariant 0 <= i <= |dims|
      invariant Layout(lbounds, sizes, size) == LayoutOf(dims[..i])
    {
      assert dims[..i + 1][..i] == dims[..i];
      var dim := dims[i];
      var subsize := Subsize(dim);
      var lbound := LowerBound(dim);
      if size.Some? {
        sizes := sizes + [size.value];
        if subsize.Some? {
          size := Some(MulFold(size.value, subsize.value));
        }
      } else if subsize.Some? {
        size := subsize;
      }
      lbounds := lbounds + [lbound];
      i := i + 1;
    }
    assert dims[..i] == dims;
  }

  /** The product of the extents of the given dimensions. */
  function Prod(dims: seq<Dim>, env: Env): int
    requires forall i :: 0 <= i < |dims| ==> HasExtent(dims[i])
  {
    if dims == [] then 1 else Prod(dims[..|dims| - 1], env) * ExtentValue(dims[|dims| - 1], env)
  }

  /** One lower bound per dimension, 1 where none is given. */
  lemma {:induction false} LayoutBounds(dims: seq<Dim>)
    ensures |LayoutOf(dims).lbounds| == |dims|
    ensures forall i :: 0 <= i < |dims| ==> LayoutOf(dims).lbounds[i] == LowerBound(dims[i])
    decreases |dims|
  {
    if dims != [] {
      var dims' := dims[..|dims| - 1];
      LayoutBounds(dims');
      assert forall i :: 0 <= i < |dims'| ==> dims'[i] == dims[i];
    }
  }

  /** With every dimension's extent known, the running size is their product and the
      stride pushed for dimension i (i >= 1) is the product of the extents before it. */
  lemma {:induction false} FullLayout(dims: seq<Dim>)
    requires forall i :: 0 <= i < |dims| ==> HasExtent(dims[i])
    ensures var l := LayoutOf(dims);
      (l.size.Some? <==> |dims| > 0) &&
      (l.size.Some? ==> forall env :: Eval(l.size.value, env) == Prod(dims, env)) &&
      |l.sizes| == (if |dims| == 0 then 0 else |dims| - 1) &&
      forall i, env :: 0 <= i < |l.sizes| ==> Eval(l.sizes[i], env) == Prod(dims[..i + 1], env)
    decreases |dims|
  {
    if dims != [] {
      var dims' := dims[..|dims| - 1];
      FullLayout(dims');
      var l' := LayoutOf(dims');
      var l := LayoutOf(dims);
      forall i, env | 0 <= i < |l.sizes| ensures Eval(l.sizes[i], env) == Prod(dims[..i + 1], env) {
        assert dims[..i + 1] == dims'[..i + 1] || i + 1 == |dims|;
        if i < |l'.sizes| {
          assert dims'[..i + 1] == dims[..i + 1];
        } else {
          assert dims[..i + 1] == dims';
        }
      }
      if dims' == [] {
        forall env ensures Prod(dims, env) == ExtentValue(dims[0], env) { }
      }
    }
  }

  /** The strides of an array whose last dimension may be assumed-size (`*`): every
      dimension after the first still gets the product of the extents before it. */
  lemma Strides(dims: seq<Dim>)
    requires |dims| > 0 && forall i :: 0 <= i < |dims| - 1 ==> HasExtent(dims[i])
    ensures var l := LayoutOf(dims);
      |l.sizes| == |dims| - 1 &&
      forall i, env :: 0 <= i < |l.sizes| ==> Eval(l.sizes[i], env) == Prod(dims[..i + 1], env)
  {
    var dims' := dims[..|dims| - 1];
    FullLayout(dims');
    forall i, env | 0 <= i < |dims'| ensures Eval(LayoutOf(dims).sizes[i], env) == Prod(dims[..i + 1], env) {
      if i < |dims'| - 1 {
        assert dims'[..i + 1] == dims[..i + 1];
      } else {
        assert dims[..i + 1] == dims';
      }
    }
  }
}
