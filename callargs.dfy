/** Call-argument lowering, the expression-list case of `xf_expr`
    (src/translator.cpp:761-855). Each argument is translated once; an argument passed
    by reference (intent other than `in`) that is neither a dereference nor a variable
    has no storage to point at and needs a temporary, and if any argument does, every
    argument is evaluated into a fresh `__argN` temporary first so that evaluation order
    stays defined.

    `Plan` is the rule as the source writes it, and the one the expression translator
    uses; `FixedPlan` is a corrected rule (see `ValueTempForReference`). */
module CallArgs {
  import opened Wrappers
  import opened Ast
  import opened Names
  import opened Intents

  const ArgPrefix := "__arg"

  /** A by-reference argument with no storage of its own. */
  predicate NeedsTemp(ex: Expr, i: Intent)
  {
    i != In && !ex.Deref? && !ex.Var?
  }

  /** The intents, when the callee is a procedure of the same file, cover the arguments. */
  predicate Covered(texprs: seq<Expr>, intents: Option<seq<Intent>>)
  {
    intents.Some? ==> |intents.value| >= |texprs|
  }

  /** `pointer_arg` of the source's first loop. */
  function Flags(texprs: seq<Expr>, intents: Option<seq<Intent>>): (fl: seq<bool>)
    requires Covered(texprs, intents)
    ensures |fl| == |texprs|
    ensures forall k :: 0 <= k < |texprs| ==> (fl[k] <==> intents.Some? && NeedsTemp(texprs[k], intents.value[k]))
  {
    seq(|texprs|, k requires 0 <= k < |texprs| => intents.Some? && NeedsTemp(texprs[k], intents.value[k]))
  }

  /** `any` of the source's first loop. */
  predicate AnyFlagged(fl: seq<bool>)
  {
    exists k :: 0 <= k < |fl| && fl[k]
  }

  /** The address a by-reference argument is passed as: the operand of a dereference,
      or the address of the expression. */
  function RefTo(ex: Expr): (r: Expr)
    ensures ex.Deref? ==> r == ex.e
    ensures !ex.Deref? ==> r == AddrOf(ex)
  {
    if ex.Deref? then ex.e else AddrOf(ex)
  }

  predicate ByRef(intents: Option<seq<Intent>>, k: nat)
  {
    intents.Some? && k < |intents.value| && intents.value[k] != In
  }

  /** The temporaries declared and the argument list built for a call, and the counter
      after it. */
  datatype Lowered = Lowered(decls: seq<Stmt>, args: seq<Expr>, next: nat)

  function TempDecl(name: string, ty: CType, ex: Expr): Stmt
  {
    VarDecl(name, ty, Some(ex), None)
  }

  /** The source's second loop. `tys[k]` is the C type of `texprs[k]`; `c` is the name
      counter. Every argument gets a temporary when any is flagged; then only the
      flagged ones are passed by address. */
  function Plan(texprs: seq<Expr>, tys: seq<CType>, intents: Option<seq<Intent>>, c: nat): (r: Lowered)
    requires Covered(texprs, intents) && |tys| == |texprs|
    ensures |r.args| == |texprs| && r.next == c + |r.decls|
    ensures forall j :: 0 <= j < |r.decls| ==> r.decls[j].VarDecl? && r.decls[j].name == GenName(ArgPrefix, c + j)
  {
    var fl := Flags(texprs, intents);
    if AnyFlagged(fl) then
      Lowered(
        seq(|texprs|, k requires 0 <= k < |texprs| => TempDecl(GenName(ArgPrefix, c + k), tys[k], texprs[k])),
        seq(|texprs|, k requires 0 <= k < |texprs| =>
          if fl[k] then AddrOf(Var(GenName(ArgPrefix, c + k))) else Var(GenName(ArgPrefix, c + k))),
        c + |texprs|)
    else
      Lowered([], seq(|texprs|, k requires 0 <= k < |texprs| =>
        if ByRef(intents, k) then RefTo(texprs[k]) else texprs[k]), c)
  }

  /** The corrected rule: when temporaries are needed, a by-reference argument that is a
      variable or a dereference is still passed by reference (its address has no side
      effects to order), and only the others are evaluated into temporaries. */
  function FixedPlan(texprs: seq<Expr>, tys: seq<CType>, intents: Option<seq<Intent>>, c: nat): (r: Lowered)
    requires Covered(texprs, intents) && |tys| == |texprs|
    ensures |r.args| == |texprs| && r.next == c + |r.decls|
    ensures forall j :: 0 <= j < |r.decls| ==> r.decls[j].VarDecl? && r.decls[j].name == GenName(ArgPrefix, c + j)
  {
    var fl := Flags(texprs, intents);
    if !AnyFlagged(fl) then Plan(texprs, tys, intents, c)
    else FixedFrom(texprs, tys, intents, fl, c, |texprs|)
  }

  /** The corrected rule applied to the first `n` arguments of a call that needs
      temporaries. The temporaries are numbered consecutively from `c`. */
  function FixedFrom(texprs: seq<Expr>, tys: seq<CType>, intents: Option<seq<Intent>>, fl: seq<bool>, c: nat, n: nat): (r: Lowered)
    requires Covered(texprs, intents) && |tys| == |texprs| && fl == Flags(texprs, intents) && n <= |texprs|
    ensures |r.args| == n && r.next == c + |r.decls|
    ensures forall j :: 0 <= j < |r.decls| ==> r.decls[j].VarDecl? && r.decls[j].name == GenName(ArgPrefix, c + j)
    decreases n
  {
    if n == 0 then Lowered([], [], c)
    else
      var prev := FixedFrom(texprs, tys, intents, fl, c, n - 1);
      var k := n - 1;
      if ByRef(intents, k) && !fl[k] then
        Lowered(prev.decls, prev.args + [RefTo(texprs[k])], prev.next)
      else
        var name := GenName(ArgPrefix, prev.next);
        Lowered(prev.decls + [TempDecl(name, tys[k], texprs[k])],
                prev.args + [if fl[k] then AddrOf(Var(name)) else Var(name)],
                prev.next + 1)
  }

  /** The source's first loop over the translated arguments: it fills `pointer_arg`
      and sets `any` when an argument is flagged. */
  method FlagArgs(texprs: seq<Expr>, intents: Option<seq<Intent>>) returns (pointerArg: seq<bool>, any: bool)
    requires Covered(texprs, intents)
    ensures pointerArg == Flags(texprs, intents)
    ensures any <==> AnyFlagged(pointerArg)
  {
    pointerArg := [];
    any := false;
    var i := 0;
    while i < |texprs|
      invariant 0 <= i <= |texprs|
      invariant pointerArg == Flags(texprs, intents)[..i]
      invariant any <==> AnyFlagged(pointerArg)
    {
      var parg := intents.Some? && NeedsTemp(texprs[i], intents.value[i]);
      if parg {
        any := true;
      }
      pointerArg := pointerArg + [parg];
      i := i + 1;
    }
  }

  /** The source's two loops over the translated arguments: `FlagArgs`, then
      `BuildArgs`. `c` is the name counter on entry. */
  method LowerArgs(texprs: seq<Expr>, tys: seq<CType>, intents: Option<seq<Intent>>, c: nat) returns (low: Lowered)
    requires Covered(texprs, intents) && |tys| == |texprs|
    ensures low == Plan(texprs, tys, intents, c)
  {
    var pointerArg, any := FlagArgs(texprs, intents);
    var decls, args := BuildArgs(texprs, tys, intents, pointerArg, any, c);
    low := Lowered(decls, args, if any then c + |texprs| else c);
    PlanPointwise(texprs, tys, intents, c, low);
  }

  /** The source's second loop: with `any` set, every argument is declared into the
      temporary `__arg` of the next counter value and passed as that temporary, by
      address when flagged; otherwise each argument is passed directly. */
  method BuildArgs(texprs: seq<Expr>, tys: seq<CType>, intents: Option<seq<Intent>>, pointerArg: seq<bool>, any: bool, c: nat)
    returns (decls: seq<Stmt>, args: seq<Expr>)
    requires |tys| == |texprs| == |pointerArg|
    ensures |args| == |texprs|
    ensures any ==> |decls| == |texprs|
    ensures !any ==> decls == []
    ensures any ==> forall k :: 0 <= k < |texprs| ==> decls[k] == TempDecl(GenName(ArgPrefix, c + k), tys[k], texprs[k])
    ensures any ==> forall k :: 0 <= k < |texprs| ==> args[k] == TempArg(pointerArg[k], c + k)
    ensures !any ==> forall k :: 0 <= k < |texprs| ==> args[k] == DirectArg(texprs, intents, k)
  {
    decls, args := [], [];
    var i := 0;
    while i < |texprs|
      invariant 0 <= i <= |texprs|
      invariant |args| == i
      invariant any ==> |decls| == i
      invariant !any ==> decls == []
      invariant any ==> forall k :: 0 <= k < i ==> decls[k] == TempDecl(GenName(ArgPrefix, c + k), tys[k], texprs[k])
      invariant any ==> forall k :: 0 <= k < i ==> args[k] == TempArg(pointerArg[k], c + k)
      invariant !any ==> forall k :: 0 <= k < i ==> args[k] == DirectArg(texprs, intents, k)
    {
      var ex := texprs[i];
      if any {
        var name := GenName(ArgPrefix, c + i);
        decls := decls + [TempDecl(name, tys[i], ex)];
        args := args + [if pointerArg[i] then AddrOf(Var(name)) else Var(name)];
      } else if ByRef(intents, i) {
        args := args + [RefTo(ex)];
      } else {
        args := args + [ex];
      }
      i := i + 1;
    }
  }

  /** The `k`-th argument when every argument has a temporary. */
  function TempArg(flagged: bool, n: nat): Expr
  {
    if flagged then AddrOf(Var(GenName(ArgPrefix, n))) else Var(GenName(ArgPrefix, n))
  }

  /** The `k`-th argument when no argument has a temporary. */
  function DirectArg(texprs: seq<Expr>, intents: Option<seq<Intent>>, k: nat): Expr
    requires k < |texprs|
  {
    if ByRef(intents, k) then RefTo(texprs[k]) else texprs[k]
  }

  /** `Plan`, argument by argument. */
  lemma PlanPointwise(texprs: seq<Expr>, tys: seq<CType>, intents: Option<seq<Intent>>, c: nat, low: Lowered)
    requires Covered(texprs, intents) && |tys| == |texprs| && |low.args| == |texprs|
    requires AnyFlagged(Flags(texprs, intents)) ==>
      low.next == c + |texprs| && |low.decls| == |texprs| &&
      (forall k :: 0 <= k < |texprs| ==> low.decls[k] == TempDecl(GenName(ArgPrefix, c + k), tys[k], texprs[k])) &&
      (forall k :: 0 <= k < |texprs| ==> low.args[k] == TempArg(Flags(texprs, intents)[k], c + k))
    requires !AnyFlagged(Flags(texprs, intents)) ==>
      low.next == c && low.decls == [] &&
      forall k :: 0 <= k < |texprs| ==> low.args[k] == DirectArg(texprs, intents, k)
    ensures low == Plan(texprs, tys, intents, c)
  {
  }

  /** As written, a call that needs temporaries evaluates every argument into its own
      temporary, in argument order, and passes the address of a temporary exactly for
      the flagged arguments: a by-reference argument that is a variable or a dereference
      is passed as a temporary's value, not as an address. */
  lemma PlanCopiesInOrder(texprs: seq<Expr>, tys: seq<CType>, intents: Option<seq<Intent>>, c: nat, k: nat)
    requires Covered(texprs, intents) && |tys| == |texprs| && k < |texprs|
    requires AnyFlagged(Flags(texprs, intents))
    ensures var r := Plan(texprs, tys, intents, c);
      |r.decls| == |texprs| &&
      r.decls[k].init == Some(texprs[k]) && r.decls[k].ty == tys[k] &&
      (r.args[k].AddrOf? <==> Flags(texprs, intents)[k]) &&
      (ByRef(intents, k) && !Flags(texprs, intents)[k] ==> r.args[k] == Var(r.decls[k].name))
  {
  }

  /** The temporaries of one call have pairwise distinct names. */
  lemma PlanNamesDistinct(texprs: seq<Expr>, tys: seq<CType>, intents: Option<seq<Intent>>, c: nat, j: nat, k: nat)
    requires Covered(texprs, intents) && |tys| == |texprs|
    requires j < k < |Plan(texprs, tys, intents, c).decls|
    ensures Plan(texprs, tys, intents, c).decls[j].name != Plan(texprs, tys, intents, c).decls[k].name
  {
    if GenName(ArgPrefix, c + j) == GenName(ArgPrefix, c + k) {
      GenNameInjective(ArgPrefix, c + j, c + k);
    }
  }

  /** Without intents (an intrinsic or a procedure of another file), or with only `in`
      arguments, the arguments pass through unchanged. */
  lemma NoReferencePassesThrough(texprs: seq<Expr>, tys: seq<CType>, intents: Option<seq<Intent>>, c: nat)
    requires Covered(texprs, intents) && |tys| == |texprs|
    requires intents.Some? ==> forall k :: 0 <= k < |texprs| ==> intents.value[k] == In
    ensures Plan(texprs, tys, intents, c) == Lowered([], texprs, c)
  {
    var fl := Flags(texprs, intents);
    assert !AnyFlagged(fl);
  }

  /** Lowering more arguments keeps the lowering of the earlier ones and their
      temporaries. */
  lemma {:induction false} FixedPrefix(texprs: seq<Expr>, tys: seq<CType>, intents: Option<seq<Intent>>, fl: seq<bool>, c: nat, k: nat, n: nat)
    requires Covered(texprs, intents) && |tys| == |texprs| && fl == Flags(texprs, intents) && k <= n <= |texprs|
    ensures FixedFrom(texprs, tys, intents, fl, c, n).args[..k] == FixedFrom(texprs, tys, intents, fl, c, k).args
    ensures forall d :: d in FixedFrom(texprs, tys, intents, fl, c, k).decls ==> d in FixedFrom(texprs, tys, intents, fl, c, n).decls
    decreases n - k
  {
    if k < n {
      FixedPrefix(texprs, tys, intents, fl, c, k, n - 1);
      var prev := FixedFrom(texprs, tys, intents, fl, c, n - 1);
      var r := FixedFrom(texprs, tys, intents, fl, c, n);
      assert r.args[..n - 1] == prev.args;
      assert r.args[..k] == prev.args[..k];
    }
  }

  /** The corrected rule, for a call that needs temporaries: every by-reference argument
      is passed as an address, of its own storage or of a temporary holding it; a value
      argument is passed through a temporary holding it. */
  lemma FixedPassesReferences(texprs: seq<Expr>, tys: seq<CType>, intents: Option<seq<Intent>>, c: nat, k: nat)
    requires Covered(texprs, intents) && |tys| == |texprs| && k < |texprs|
    requires AnyFlagged(Flags(texprs, intents))
    ensures var r := FixedPlan(texprs, tys, intents, c);
      var fl := Flags(texprs, intents);
      (ByRef(intents, k) && !fl[k] ==> r.args[k] == RefTo(texprs[k])) &&
      (fl[k] ==> r.args[k].AddrOf? && r.args[k].e.Var? &&
                 TempDecl(r.args[k].e.name, tys[k], texprs[k]) in r.decls) &&
      (!ByRef(intents, k) ==> r.args[k].Var? && TempDecl(r.args[k].name, tys[k], texprs[k]) in r.decls)
  {
    var fl := Flags(texprs, intents);
    FixedPrefix(texprs, tys, intents, fl, c, k + 1, |texprs|);
    var r := FixedFrom(texprs, tys, intents, fl, c, |texprs|);
    var rk := FixedFrom(texprs, tys, intents, fl, c, k + 1);
    assert r.args[k] == r.args[..k + 1][k] == rk.args[k];
  }

  /** The temporaries of one call, under either rule, have pairwise distinct names. */
  lemma FixedNamesDistinct(texprs: seq<Expr>, tys: seq<CType>, intents: Option<seq<Intent>>, c: nat, j: nat, k: nat)
    requires Covered(texprs, intents) && |tys| == |texprs|
    requires j < k < |FixedPlan(texprs, tys, intents, c).decls|
    ensures FixedPlan(texprs, tys, intents, c).decls[j].name != FixedPlan(texprs, tys, intents, c).decls[k].name
  {
    var fl := Flags(texprs, intents);
    if AnyFlagged(fl) {
      if GenName(ArgPrefix, c + j) == GenName(ArgPrefix, c + k) {
        GenNameInjective(ArgPrefix, c + j, c + k);
      }
    } else {
      PlanNamesDistinct(texprs, tys, intents, c, j, k);
    }
  }

  /** The finding: `s(x, 1 + 2)` with both parameters `intent(out)`. The second argument
      needs a temporary, so the source also copies `x` into `__arg0` and passes
      `__arg0` by value, where `xf_fn_decl` declared the parameter as a pointer; the
      callee's write never reaches `x`. The corrected rule passes `&x`. */
  lemma ValueTempForReference()
    ensures var texprs := [Var("x"), Add(IntLit(1), IntLit(2))];
      var tys := [CInt, CInt];
      var intents := Some([Out, Out]);
      Plan(texprs, tys, intents, 0).args[0] == Var(GenName(ArgPrefix, 0)) &&
      Plan(texprs, tys, intents, 0).decls[0] == TempDecl(GenName(ArgPrefix, 0), CInt, Var("x")) &&
      FixedPlan(texprs, tys, intents, 0).args[0] == AddrOf(Var("x"))
  {
    var texprs := [Var("x"), Add(IntLit(1), IntLit(2))];
    var intents := Some([Out, Out]);
    var fl := Flags(texprs, intents);
    assert fl[1];
    assert AnyFlagged(fl);
    assert !fl[0];
  }
}
