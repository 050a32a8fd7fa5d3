/** Format strings for list-directed PRINT and READ: `xf_format`
    (src/translator.cpp:1179-1194) picks one conversion specification per item from the
    item's Fortran type, and the PRINT and READ handlers (1356-1466) join them into the
    format argument of `printf` and `fscanf`. */
module Format {
  import opened Wrappers
  import opened Ast
  import opened Types

  const MsgFormat := "Unhandled expression type in xf_format"

  /** The two characters backslash and `n`, which the unparser writes into the C string
      literal as the newline escape. */
  const Newline := "\\n"

  /** `xf_format` as written: strings `%s`, every integer `%d`, a real of literal kind 8
      `%lf` and any other real `%f`, characters `%c`; no other type is handled. */
  function FormatOf(t: FType): (r: Result<string>)
    ensures r.Ok? <==> t.FString? || t.FInt? || t.FReal? || t.FChar?
    ensures !r.Ok? ==> r == Fail(MsgFormat)
    ensures r.Ok? ==> Single(r.value)
  {
    match t
    case FString => Ok("%s")
    case FInt(_) => Ok("%d")
    case FReal(kind) => Ok(if kind == Some(IntLit(8)) then "%lf" else "%f")
    case FChar => Ok("%c")
    case _ => Fail(MsgFormat)
  }

  /** The conversion with the length modifier for the C type the item is declared with:
      `%hhd`, `%hd`, `%d` and `%ld` for the four integer widths, the reals and the other
      types as in `FormatOf`. An integer whose kind has no C type keeps `%d` (its
      declaration is itself rejected). */
  function FixedFormat(t: FType): (r: Result<string>)
    ensures r.Ok? <==> FormatOf(t).Ok?
    ensures !r.Ok? ==> r == Fail(MsgFormat)
    ensures r.Ok? ==> Single(r.value)
    ensures !t.FInt? ==> r == FormatOf(t)
  {
    match t
    case FInt(_) =>
      (match LowerScalar(t)
       case Ok(CChar) => Ok("%hhd")
       case Ok(CShort) => Ok("%hd")
       case Ok(CLong) => Ok("%ld")
       case _ => Ok("%d"))
    case _ => FormatOf(t)
  }

  /** The conversions of section 7.21.6.2 of ISO/IEC 9899:2011 that store into an object of
      the given C type (for `printf`, section 7.21.6.1, the same pairs are correct). */
  predicate Agrees(spec: string, ty: CType)
  {
    match ty
    case CChar => spec == "%hhd" || spec == "%c"
    case CShort => spec == "%hd"
    case CInt => spec == "%d"
    case CLong => spec == "%ld"
    case CFloat => spec == "%f"
    case CDouble => spec == "%lf"
    case CString => spec == "%s"
    case _ => false
  }

  /** With the length modifier, the conversion always agrees with the type the item's
      declaration is lowered to. */
  lemma FixedAgrees(t: FType)
    requires !t.FArray? && LowerScalar(t).Ok? && FixedFormat(t).Ok?
    ensures Agrees(FixedFormat(t).value, LowerScalar(t).value)
  {
  }

  /** As written, an `integer(kind=8)` item, declared `long`, is read and printed with
      `%d`, which section 7.21.6.2 of ISO/IEC 9899:2011 pairs with `int`. */
  lemma LongItemAsWritten()
    ensures LowerScalar(FInt(Some(IntLit(8)))) == Ok(CLong)
    ensures FormatOf(FInt(Some(IntLit(8)))) == Ok("%d")
    ensures !Agrees(FormatOf(FInt(Some(IntLit(8)))).value, CLong)
    ensures FixedFormat(FInt(Some(IntLit(8)))) == Ok("%ld")
  {
  }

  /** One conversion specification: a `%` and no other. */
  predicate Single(spec: string)
  {
    |spec| > 0 && spec[0] == '%' && forall i :: 1 <= i < |spec| ==> spec[i] != '%'
  }

  /** The number of conversion specifications in a format: its `%` characters. */
  function Conversions(s: string): nat
  {
    if s == [] then 0 else Conversions(s[..|s| - 1]) + (if s[|s| - 1] == '%' then 1 else 0)
  }

  lemma {:induction false} ConversionsAppend(a: string, b: string)
    ensures Conversions(a + b) == Conversions(a) + Conversions(b)
    decreases |b|
  {
    if b == [] {
      assert a + b == a;
    } else {
      var b' := b[..|b| - 1];
      assert (a + b)[..|a + b| - 1] == a + b';
      ConversionsAppend(a, b');
    }
  }

  lemma {:induction false} NoConversions(s: string)
    requires forall i :: 0 <= i < |s| ==> s[i] != '%'
    ensures Conversions(s) == 0
    decreases |s|
  {
    if s != [] {
      NoConversions(s[..|s| - 1]);
    }
  }

  lemma SingleCounts(spec: string)
    requires Single(spec)
    ensures Conversions(spec) == 1
  {
    assert spec == [spec[0]] + spec[1..];
    ConversionsAppend([spec[0]], spec[1..]);
    NoConversions(spec[1..]);
    assert Conversions([spec[0]]) == Conversions([]) + 1;
  }

  /** The format the handlers accumulate: one conversion per item, in order; the first
      item without one ends the accumulation. */
  function FormatString(tys: seq<FType>): (r: Result<string>)
    ensures r.Ok? <==> forall i :: 0 <= i < |tys| ==> FormatOf(tys[i]).Ok?
    ensures !r.Ok? ==> r == Fail(MsgFormat)
  {
    if tys == [] then Ok("")
    else
      var p := FormatString(tys[..|tys| - 1]);
      var f := FormatOf(tys[|tys| - 1]);
      assert forall i :: 0 <= i < |tys| - 1 ==> tys[..|tys| - 1][i] == tys[i];
      if !p.Ok? then p else if !f.Ok? then f else Ok(p.value + f.value)
  }

  /** The format passed to `printf` or `fscanf` holds one conversion per item: as many
      as the arguments that follow it. */
  lemma {:induction false} FormatCountsItems(tys: seq<FType>)
    requires FormatString(tys).Ok?
    ensures Conversions(FormatString(tys).value + Newline) == |tys|
    decreases |tys|
  {
    if tys == [] {
      assert Conversions(Newline) == 0;
    } else {
      var n := |tys| - 1;
      FormatCountsItems(tys[..n]);
      var p, f := FormatString(tys[..n]).value, FormatOf(tys[n]).value;
      SingleCounts(f);
      NoConversions(Newline);
      ConversionsAppend(p, f);
      ConversionsAppend(p, Newline);
      ConversionsAppend(p + f, Newline);
    }
  }

  /** `printf(format, items...)`. */
  function PrintCall(fmt: string, args: seq<Expr>): Expr
  {
    Call("printf", [StrLit(fmt + Newline)] + args)
  }

  /** `fscanf(ftc__get_file(unit), format, addresses...)`. */
  function ReadCall(unit: Expr, fmt: string, refs: seq<Expr>): Expr
  {
    Call("fscanf", [Call("ftc__get_file", [unit]), StrLit(fmt + Newline)] + refs)
  }
}
