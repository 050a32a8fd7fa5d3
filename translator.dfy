/** The translation of one Fortran file into C: the global state of `translator.cpp`
    (the name counter, the headers to include, the module map and the use edges), ROSE's
    scope stack as a stack of `Scope`s, and the statement handlers of `XfVisitor`
    (src/translator.cpp:1210-1474) with `xf_fn_decl`, `xf_var_decl` and `xf_fortran_do`
    (src/translator.cpp:947-1173), driven by `xf_file` (src/translator.cpp:1480-1535).

    An error ends the translation where it happens, as an exception does: the handlers
    return at once, leaving the state as it then is. */
module Translator {
  import opened Wrappers
  import opened Ast
  import opened Names
  import opened FileNames
  import opened Walk
  import opened Trees
  import opened Intents
  import opened Types
  import opened ExprRules
  import opened XfExpr
  import opened DoLoop
  import opened Format
  import opened Lowering
  import opened CallArgs

  const MsgNotFortran := "Input file was not a Fortran file in tcf::xf_file :: SgFile* -> SgProject** -> SgFile*"
  const MsgUnhandledNode := "XfVisitor::preOrderVisit non handled node type"
  const AssertAssignInit := "isSgAssignInitializer(init)"
  const AssertIntent := "intents.find(arg_name.getString())!=intents.end()"
  const AssertEnclosingFn := "fn_decl!=NULL"
  const AssertPrintStar := "isSgAsteriskShapeExp(lhs)"
  const AssertReadStar := "isSgAsteriskShapeExp(read->get_format())"
  /** What `std::string::erase` throws when `find_last_of` finds no '.'. */
  const OutOfRange := "std::out_of_range"
  const FileIoHeader := "ftc_file_io.h"

  /** The C file being built for an input file: its position among the project's files
      and its output file name. */
  datatype UnitRef = UnitRef(index: nat, outName: string)

  /** A translated file: its global scope and the headers inserted into it. */
  datatype CFile = CFile(unit: UnitRef, body: seq<Stmt>, includes: set<string>)

  /** Whether `x` is one of the procedure arguments a variable declaration skips. */
  predicate IsArg(args: Option<seq<string>>, x: string)
  {
    args.Some? && x in args.value
  }

  /** The names a variable declaration statement declares. */
  function DeclaredNames(vars: seq<VarInit>, args: Option<seq<string>>): set<string>
  {
    set v | v in vars && !IsArg(args, v.name) :: v.name
  }

  lemma VisibleTop(below: seq<Scope>, top: Scope)
    ensures Visible(below + [top]) == Visible(below) + top.syms
  {
    assert (below + [top])[..|below|] == below;
  }

  /** The walk over one more sibling: the walk over the ones before, then this one. */
  lemma {:induction false} ActedOfSnoc<L>(dir: L -> Directive, ts: seq<Tree<L>>, t: Tree<L>)
    ensures ActedOf(dir, ts + [t]) == Then(ActedOf(dir, ts), Acted(dir, t))
    decreases |ts|
  {
    if ts == [] {
      assert [t][1..] == [];
    } else {
      assert (ts + [t])[1..] == ts[1..] + [t];
      ActedOfSnoc(dir, ts[1..], t);
      ThenAssoc(Acted(dir, ts[0]), ActedOf(dir, ts[1..]), Acted(dir, t));
    }
  }

  lemma NodeTreesSnoc(ns: seq<Node>, i: nat)
    requires i < |ns|
    ensures NodeTrees(ns[..i + 1]) == NodeTrees(ns[..i]) + [NodeTree(ns[i])]
  {
  }

  /** The reference walk at one node: what its directive does, then, unless it sets
      `sync`, the walk over its children. */
  lemma ActedNode(n: Node)
    ensures XfDirective(n) == Descend ==> Acted(XfDirective, NodeTree(n)) == ActedOf(XfDirective, NodeTrees(Kids(n)))
    ensures XfDirective(n) == Visit ==>
      Acted(XfDirective, NodeTree(n)) == Then(Walked([n], true), ActedOf(XfDirective, NodeTrees(Kids(n))))
    ensures XfDirective(n) == Handle ==> Acted(XfDirective, NodeTree(n)) == Walked([n], true)
    ensures XfDirective(n) == Reject ==> Acted(XfDirective, NodeTree(n)) == Walked([], false)
  {
    assert NodeTree(n).kids == NodeTrees(Kids(n));
  }

  /** A translated assignment is an assignment. */
  lemma AssignStaysAssign(ctx: Ctx, l: Expr, rhs: Expr, st: St)
    ensures var o := XfE(ctx, Bin(Assign, l, rhs), st);
      o.r.Ok? ==> o.r.value.Bin? && o.r.value.op == Assign
  {
    var a := XfE(ctx, l, st);
    if a.r.Ok? {
      var b := XfE(ctx, rhs, a.st);
      if b.r.Ok? {
        assert Rebuild(Bin(Assign, l, rhs), a.r.value, b.r.value) == Ok(Bin(Assign, a.r.value, b.r.value));
      }
    }
  }

  lemma DeclaredNamesSnoc(vars: seq<VarInit>, args: Option<seq<string>>, i: nat)
    requires i < |vars|
    ensures DeclaredNames(vars[..i + 1], args) ==
      DeclaredNames(vars[..i], args) + (if IsArg(args, vars[i].name) then {} else {vars[i].name})
  {
    assert vars[..i + 1] == vars[..i] + [vars[i]];
  }

  /** One more variable of a declaration statement: the names bound and the statements
      declared so far grow by what that variable declares. */
  lemma VarDeclStep(vars: seq<VarInit>, args: Option<seq<string>>, i: nat, s0: seq<Stmt>, ss: seq<Stmt>, ss': seq<Stmt>,
                    keys0: set<string>, keys: set<string>, keys': set<string>)
    requires i < |vars| && |s0| <= |ss| && ss <= ss'
    requires keys == keys0 + DeclaredNames(vars[..i], args)
    requires DeclaresOnly(ss, |s0|, DeclaredNames(vars[..i], args))
    requires keys' == keys + (if IsArg(args, vars[i].name) then {} else {vars[i].name})
    requires DeclaresOnly(ss', |ss|, if IsArg(args, vars[i].name) then {} else {vars[i].name})
    ensures keys' == keys0 + DeclaredNames(vars[..i + 1], args)
    ensures DeclaresOnly(ss', |s0|, DeclaredNames(vars[..i + 1], args))
  {
    DeclaredNamesSnoc(vars, args, i);
    assert ss'[..|ss|] == ss;
    DeclaresOnlyJoin(ss', |s0|, |ss|, DeclaredNames(vars[..i], args),
      if IsArg(args, vars[i].name) then {} else {vars[i].name}, DeclaredNames(vars[..i + 1], args));
  }

  /** What the declarations of a statement change: the context later expressions are
      translated in, the state of the innermost scope, and that scope's symbols. */
  datatype Decls = Decls(ctx: Ctx, st: St, syms: map<string, Sym>)

  /** The initial value of a variable translated, if it has one; an initializer that
      is not an assignment fails the assertion. */
  ghost function InitXf(ctx: Ctx, init: Option<Initializer>, st: St): (o: Xf<Option<Expr>>)
    ensures Extends(st, o.st)
    ensures o.r.Ok? <==> init.None? || (init.value.AssignInit? && XfE(ctx, init.value.value, st).r.Ok?)
    ensures o.r.Ok? ==> (o.r.value.Some? <==> init.Some?)
  {
    match init
    case None => Xf(Ok(None), st)
    case Some(OtherInit) => Xf(Abort(AssertAssignInit), st)
    case Some(AssignInit(e)) =>
      var x := XfE(ctx, e, st);
      if x.r.Ok? then Xf(Ok(Some(x.r.value)), x.st) else Xf(Pass(x.r), x.st)
  }

  /** `xf_var_decl` on one variable `v`, from `d`: skipped if it is an argument of the
      enclosing procedure; otherwise its initial value translated, then its C type, and
      its declaration appended, its name entering the scope and so the context. */
  ghost function VarXf(v: VarInit, args: Option<seq<string>>, d: Decls): (o: Result<Decls>)
    ensures IsArg(args, v.name) ==> o == Ok(d)
    ensures o.Ok? ==> o.value.syms.Keys == d.syms.Keys + (if IsArg(args, v.name) then {} else {v.name})
    ensures o.Ok? && !IsArg(args, v.name) ==>
      |o.value.st.temps| > |d.st.temps| &&
      var last := o.value.st.temps[|o.value.st.temps| - 1];
      last.VarDecl? && last.name == v.name && (last.init.Some? <==> v.init.Some?) &&
      o.value.syms == d.syms[v.name := Sym(last.ty, last.dim)] &&
      o.value.ctx.syms == d.ctx.syms[v.name := Sym(last.ty, last.dim)]
  {
    if IsArg(args, v.name) then Ok(d)
    else
      var i := InitXf(d.ctx, v.init, d.st);
      if !i.r.Ok? then Pass(i.r)
      else
        var t := XfTypeOf(d.ctx, v.ty, false, i.st);
        if !t.r.Ok? then Pass(t.r)
        else
          var sym := Sym(t.r.value.0, t.r.value.1);
          var decl := VarDecl(v.name, t.r.value.0, i.r.value, t.r.value.1);
          Ok(Decls(d.ctx.(syms := d.ctx.syms[v.name := sym]), t.st.(temps := t.st.temps + [decl]), d.syms[v.name := sym]))
  }

  /** `xf_var_decl`: the variables in order, each from what the ones before it left; the
      first error ends the statement. */
  ghost function VarsXf(vars: seq<VarInit>, args: Option<seq<string>>, d: Decls): (o: Result<Decls>)
    ensures o.Ok? ==> o.value.syms.Keys == d.syms.Keys + DeclaredNames(vars, args)
  {
    if vars == [] then Ok(d)
    else
      var n := |vars| - 1;
      var p := VarsXf(vars[..n], args, d);
      DeclaredNamesSnoc(vars, args, n);
      assert vars[..n + 1] == vars;
      if !p.Ok? then p else VarXf(vars[n], args, p.value)
  }

  /** A variable other than an argument whose initializer is not an assignment makes
      the whole statement fail, wherever it stands. */
  lemma VarsOtherInitFails(vars: seq<VarInit>, args: Option<seq<string>>, d: Decls, k: nat)
    requires k < |vars| && !IsArg(args, vars[k].name) && vars[k].init.Some? && vars[k].init.value.OtherInit?
    ensures !VarsXf(vars, args, d).Ok?
  {
    var p := VarsXf(vars[..k], args, d);
    if p.Ok? {
      VarsStep(vars, args, d, k);
      VarOtherInitFails(vars[k], args, p.value);
    } else {
      assert vars[..k + 1][..k] == vars[..k];
      VarsStop(vars[..k + 1], args, d, k);
    }
    VarsStop(vars, args, d, k + 1);
  }

  /** A variable that is not an argument and whose initializer is not an assignment
      fails. */
  lemma VarOtherInitFails(v: VarInit, args: Option<seq<string>>, d: Decls)
    requires !IsArg(args, v.name) && v.init.Some? && v.init.value.OtherInit?
    ensures !VarXf(v, args, d).Ok?
  {
    assert !InitXf(d.ctx, v.init, d.st).r.Ok?;
  }

  /** One more variable: the ones before it, then this one. */
  lemma VarsStep(vars: seq<VarInit>, args: Option<seq<string>>, d: Decls, i: nat)
    requires i < |vars| && VarsXf(vars[..i], args, d).Ok?
    ensures VarsXf(vars[..i + 1], args, d) == VarXf(vars[i], args, VarsXf(vars[..i], args, d).value)
  {
    assert vars[..i + 1][..i] == vars[..i];
  }

  /** An error in the first variables is the error of the whole statement. */
  lemma {:induction false} VarsStop(vars: seq<VarInit>, args: Option<seq<string>>, d: Decls, k: nat)
    requires k <= |vars| && !VarsXf(vars[..k], args, d).Ok?
    ensures VarsXf(vars, args, d) == VarsXf(vars[..k], args, d)
    decreases |vars|
  {
    if k < |vars| {
      var n := |vars| - 1;
      assert vars[..n][..k] == vars[..k];
      VarsStop(vars[..n], args, d, k);
    } else {
      assert vars[..k] == vars;
    }
  }

  /** A name generated for an argument temporary. */
  ghost predicate IsTemp(x: string)
  {
    exists k :: x == GenName(ArgPrefix, k)
  }

  /** Everything from position `from` on declares a variable: one of `names`, or an
      argument temporary. */
  ghost predicate DeclaresOnly(ss: seq<Stmt>, from: nat, names: set<string>)
  {
    forall j :: from <= j < |ss| ==> ss[j].VarDecl? && (ss[j].name in names || IsTemp(ss[j].name))
  }

  /** A translation only adds to the state: the temporaries before it stay in front. */
  lemma Grows(a: St, b: St)
    requires Extends(a, b)
    ensures a.temps <= b.temps && a.counter <= b.counter && a.includes <= b.includes
  {
  }

  /** What an expression or a type translation appends are temporaries. */
  lemma TempsOnly(a: St, b: St)
    requires Extends(a, b)
    ensures DeclaresOnly(b.temps, |a.temps|, {})
  {
    forall j | |a.temps| <= j < |b.temps|
      ensures b.temps[j].VarDecl? && IsTemp(b.temps[j].name)
    {
      assert b.temps[j].name == GenName(ArgPrefix, a.counter + (j - |a.temps|));
    }
  }

  lemma DeclaresOnlySnoc(ss: seq<Stmt>, from: nat, d: Stmt)
    requires DeclaresOnly(ss, from, {}) && d.VarDecl?
    ensures DeclaresOnly(ss + [d], from, {d.name})
  {
    forall k | from <= k < |ss| + 1
      ensures (ss + [d])[k].VarDecl? && ((ss + [d])[k].name in {d.name} || IsTemp((ss + [d])[k].name))
    {
      if k < |ss| {
        assert (ss + [d])[k] == ss[k];
      }
    }
  }

  lemma DeclaresOnlyJoin(ss: seq<Stmt>, i: nat, j: nat, a: set<string>, b: set<string>, c: set<string>)
    requires i <= j <= |ss| && a + b <= c
    requires DeclaresOnly(ss[..j], i, a) && DeclaresOnly(ss, j, b)
    ensures DeclaresOnly(ss, i, c)
  {
    forall k | i <= k < |ss|
      ensures ss[k].VarDecl? && (ss[k].name in c || IsTemp(ss[k].name))
    {
      if k < j {
        assert ss[..j][k] == ss[k];
      }
    }
  }

  /** The C parameter `xf_fn_decl` builds for the `j`-th argument of `p`: the same name,
      an intent on record, the argument's C type made a pointer unless the intent is IN,
      and array dimensions exactly for an array argument. */
  predicate ParamFits(p: ProcDecl, j: nat, q: Param)
    requires j < |p.params|
  {
    var a := p.params[j];
    var intents := ScanOf(p).result;
    q.name == a.name && a.name in intents &&
    (intents[a.name] != In ==> q.ty.CPointer?) &&
    (q.dim.Some? <==> a.ty.FArray?) &&
    (!a.ty.FArray? ==>
      LowerScalar(a.ty).Ok? &&
      q.ty == (if intents[a.name] == In then LowerScalar(a.ty).value else CPointer(LowerScalar(a.ty).value)))
  }

  /** One argument `a` of `xf_fn_decl` from state `st`: its C type translated as a
      parameter's, made a pointer unless its intent is IN, with the array layout as its
      dimensions; an argument without an intent on record fails the assertion. */
  ghost function ParamXf(ctx: Ctx, a: FParam, intents: map<string, Intent>, st: St): (o: Xf<Param>)
    ensures Extends(st, o.st)
    ensures o.r.Ok? ==> o.r.value.name == a.name && a.name in intents
  {
    var t := XfTypeOf(ctx, a.ty, true, st);
    if !t.r.Ok? then Xf(Pass(t.r), t.st)
    else if a.name !in intents then Xf(Abort(AssertIntent), t.st)
    else Xf(Ok(Param(a.name, if intents[a.name] == In then t.r.value.0 else CPointer(t.r.value.0), t.r.value.1)), t.st)
  }

  /** The loop over the arguments of `xf_fn_decl`: each translated after the ones before
      it; the first error ends it. */
  ghost function ParamsXf(ctx: Ctx, ps: seq<FParam>, intents: map<string, Intent>, st: St): (o: Xf<seq<Param>>)
    ensures Extends(st, o.st)
    ensures o.r.Ok? ==> |o.r.value| == |ps| && forall j :: 0 <= j < |ps| ==> o.r.value[j].name == ps[j].name
  {
    if ps == [] then Xf(Ok([]), st)
    else
      var n := |ps| - 1;
      var p := ParamsXf(ctx, ps[..n], intents, st);
      if !p.r.Ok? then p
      else
        var q := ParamXf(ctx, ps[n], intents, p.st);
        ExtendsTrans(st, p.st, q.st);
        if !q.r.Ok? then Xf(Pass(q.r), q.st) else Xf(Ok(p.r.value + [q.r.value]), q.st)
  }

  /** One more argument: the ones before it, then this one. */
  lemma ParamsStep(ctx: Ctx, ps: seq<FParam>, intents: map<string, Intent>, st: St, i: nat)
    requires i < |ps| && ParamsXf(ctx, ps[..i], intents, st).r.Ok?
    ensures var p := ParamsXf(ctx, ps[..i], intents, st);
      var q := ParamXf(ctx, ps[i], intents, p.st);
      ParamsXf(ctx, ps[..i + 1], intents, st) ==
        if q.r.Ok? then Xf(Ok(p.r.value + [q.r.value]), q.st) else Xf(Pass(q.r), q.st)
  {
    assert ps[..i + 1][..i] == ps[..i];
  }

  /** An error in the first arguments is the error of the whole list. */
  lemma {:induction false} ParamsStop(ctx: Ctx, ps: seq<FParam>, intents: map<string, Intent>, st: St, k: nat)
    requires k <= |ps| && !ParamsXf(ctx, ps[..k], intents, st).r.Ok?
    ensures ParamsXf(ctx, ps, intents, st) == ParamsXf(ctx, ps[..k], intents, st)
    decreases |ps|
  {
    if k < |ps| {
      var n := |ps| - 1;
      assert ps[..n][..k] == ps[..k];
      ParamsStop(ctx, ps[..n], intents, st, k);
    } else {
      assert ps[..k] == ps;
    }
  }

  /** Each parameter the loop builds fits its argument as `ParamFits` says. */
  lemma {:induction false} ParamsFit(ctx: Ctx, p: ProcDecl, st: St)
    ensures var o := ParamsXf(ctx, p.params, ScanOf(p).result, st);
      o.r.Ok? ==> forall j :: 0 <= j < |p.params| ==> ParamFits(p, j, o.r.value[j])
  {
    var intents := ScanOf(p).result;
    var o := ParamsXf(ctx, p.params, intents, st);
    if o.r.Ok? {
      forall j | 0 <= j < |p.params| ensures ParamFits(p, j, o.r.value[j]) {
        ParamsPrefix(ctx, p.params, intents, st, j);
        var pre := ParamsXf(ctx, p.params[..j], intents, st);
        ParamsStep(ctx, p.params, intents, st, j);
        ParamsPrefix(ctx, p.params, intents, st, j + 1);
        ParamFitsOf(ctx, p, j, pre.st);
      }
    }
  }

  /** When the whole list translates, so does every prefix, and its parameters are the
      first ones of the whole. */
  lemma {:induction false} ParamsPrefix(ctx: Ctx, ps: seq<FParam>, intents: map<string, Intent>, st: St, k: nat)
    requires k <= |ps| && ParamsXf(ctx, ps, intents, st).r.Ok?
    ensures var pre := ParamsXf(ctx, ps[..k], intents, st);
      pre.r.Ok? && pre.r.value == ParamsXf(ctx, ps, intents, st).r.value[..k]
    decreases |ps|
  {
    if k < |ps| {
      var n := |ps| - 1;
      assert ps[..n][..k] == ps[..k];
      ParamsPrefix(ctx, ps[..n], intents, st, k);
    } else {
      assert ps[..k] == ps;
    }
  }

  /** One argument translated as `ParamXf` says fits it. */
  lemma ParamFitsOf(ctx: Ctx, p: ProcDecl, j: nat, st: St)
    requires j < |p.params|
    ensures var o := ParamXf(ctx, p.params[j], ScanOf(p).result, st);
      o.r.Ok? ==> ParamFits(p, j, o.r.value)
  {
  }

  /** The symbols of a function's parameters, entered in order. */
  function ParamSyms(ps: seq<Param>): (m: map<string, Sym>)
    ensures m.Keys == set q | q in ps :: q.name
  {
    if ps == [] then map[]
    else ParamSyms(ps[..|ps| - 1])[ps[|ps| - 1].name := Sym(ps[|ps| - 1].ty, ps[|ps| - 1].dim)]
  }

  /** Where the parts of a translated DO loop are: the counter, the statement assigning
      its start, the copies of bound, step and direction with the counter values their
      names were made from, their positions and the states their translations started
      from. */
  datatype DoParts = DoParts(
    counter: Expr, init: Expr, initAt: nat,
    bound: string, kb: nat, boundAt: nat, bst: St,
    step: string, ks: nat, stepAt: nat, sst: St,
    dir: string, kd: nat)

  /** A copy of a DO loop's bound or step, named `name`, as `xf_fortran_do` declares it
      from state `st`: the C type of `ty` translated first, then `e`, whose translation
      initializes the copy; the declaration follows the temporaries of both. */
  ghost function CopyXf(ctx: Ctx, ty: FType, e: Expr, name: string, st: St): (o: Xf<Stmt>)
    ensures o.r.Ok? ==>
      o.r.value.VarDecl? && o.r.value.name == name && o.r.value.init.Some? && o.r.value.dim.None? &&
      |o.st.temps| > |st.temps| && o.st.temps[|o.st.temps| - 1] == o.r.value
    ensures o.r.Ok? && !ty.FArray? ==> LowerScalar(ty).Ok? && o.r.value.ty == LowerScalar(ty).value
  {
    var t := XfTypeOf(ctx, ty, false, st);
    if !t.r.Ok? then Xf(Pass(t.r), t.st)
    else
      var x := XfE(ctx, e, t.st);
      Grows(st, t.st);
      Grows(t.st, x.st);
      if !x.r.Ok? then Xf(Pass(x.r), x.st)
      else
        var d := VarDecl(name, t.r.value.0, Some(x.r.value), None);
        Xf(Ok(d), x.st.(temps := x.st.temps + [d]))
  }

  /** The test of the loop built for DO node `n`. */
  function DoTest(n: Node, parts: DoParts): Expr
    requires n.DoNode?
  {
    if n.step.None? then PlainTest(parts.counter, parts.bound)
    else StepTest(parts.counter, parts.bound, parts.dir)
  }

  /** The update of the loop built for DO node `n`. */
  function DoUpdate(n: Node, parts: DoParts): Expr
    requires n.DoNode?
  {
    if n.step.None? then PlainUpdate(parts.counter) else StepUpdate(parts.counter, parts.step)
  }

  /** The statements `ss` from position `from` on, with names made from counter values
      from `counter0` on, are the head of the loop for DO node `n` in context `ctx`,
      whose bound has Fortran type `bty`: the start and the bound's copy, then, with a
      step, the direction and the step's copy. */
  ghost predicate DoHead(n: Node, ctx: Ctx, bty: FType, from: nat, counter0: nat, ss: seq<Stmt>, parts: DoParts)
    requires n.DoNode?
  {
    DoStart(n, ctx, bty, from, counter0, ss, parts) &&
    (n.step.None? ==> parts.boundAt == |ss| - 1) &&
    (n.step.Some? ==> DoStep(n, ctx, bty, ss, parts))
  }

  /** The assignment `parts.init` of the start to the counter variable, then a copy of
      the bound, named from a fresh counter value and translated from the state right
      after the name was made. */
  ghost predicate DoStart(n: Node, ctx: Ctx, bty: FType, from: nat, counter0: nat, ss: seq<Stmt>, parts: DoParts)
    requires n.DoNode?
  {
    var c := parts.counter;
    c.Var? &&
    parts.init.Bin? && parts.init.op == Assign && parts.init.l == c &&
    from <= parts.initAt < parts.boundAt < |ss| &&
    ss[parts.initAt] == ExprStmt(parts.init) &&
    parts.bound == GenName(BoundPrefix, parts.kb) && counter0 <= parts.kb &&
    parts.bst.counter == parts.kb + 1 &&
    CopyXf(ctx, bty, n.bound, parts.bound, parts.bst).r == Ok(ss[parts.boundAt])
  }

  /** With a step: the direction `counter <= bound` right after the bound's copy, then,
      last, a copy of the step typed as the bound, each named from a fresh counter value;
      the copy translates from the state right after its name was made. */
  ghost predicate DoStep(n: Node, ctx: Ctx, bty: FType, ss: seq<Stmt>, parts: DoParts)
    requires n.DoNode? && n.step.Some?
  {
    parts.boundAt + 1 < parts.stepAt == |ss| - 1 &&
    parts.dir == GenName(DirPrefix, parts.kd) && parts.step == GenName(StepPrefix, parts.ks) &&
    parts.kb < parts.kd < parts.ks &&
    ss[parts.boundAt + 1] == VarDecl(parts.dir, CInt, Some(AsWrittenDir(parts.counter, parts.bound)), None) &&
    parts.sst.counter == parts.ks + 1 &&
    CopyXf(ctx, bty, n.step.value, parts.step, parts.sst).r == Ok(ss[parts.stepAt])
  }

  /** The start of a loop's head stays in place when statements follow it and the step's
      parts are filled in. */
  lemma DoStartLater(n: Node, ctx: Ctx, bty: FType, from: nat, counter0: nat, ss: seq<Stmt>, ss': seq<Stmt>, p: DoParts, p': DoParts)
    requires n.DoNode? && DoStart(n, ctx, bty, from, counter0, ss, p) && ss <= ss'
    requires p'.counter == p.counter && p'.init == p.init && p'.initAt == p.initAt
    requires p'.bound == p.bound && p'.kb == p.kb && p'.boundAt == p.boundAt && p'.bst == p.bst
    ensures DoStart(n, ctx, bty, from, counter0, ss', p')
  {
    assert ss'[p.initAt] == ss[p.initAt] && ss'[p.boundAt] == ss[p.boundAt];
  }

  class Translator {
    /** ROSE's typing of C expressions (for argument temporaries and intrinsics). */
    const typeOf: Expr -> CType
    /** ROSE's typing of Fortran expressions (for formats and DO bounds). */
    const ftypeOf: Expr -> FType
    /** `FOR_VARIABLE_NAME`: never reset, so names stay unique across files. */
    var counter: nat
    /** The global `includes` set. */
    var includes: set<string>
    /** The scope stack, innermost last; statements are appended to the innermost. */
    var scopes: seq<Scope>
    /** `module_map`: module name to the C file of the unit defining it. */
    var moduleMap: map<string, UnitRef>
    /** `use_statements`: the C file of the using unit and the module name, in order. */
    var uses: seq<(UnitRef, string)>
    /** The C file being built. */
    var unit: UnitRef
    /** The Fortran file being translated: where `xf_get_fn_decl` searches. */
    var fortran: Node

    constructor (typeOf: Expr -> CType, ftypeOf: Expr -> FType)
      ensures this.typeOf == typeOf && this.ftypeOf == ftypeOf
      ensures counter == 0 && includes == {} && moduleMap == map[] && uses == [] && scopes == []
    {
      this.typeOf := typeOf;
      this.ftypeOf := ftypeOf;
      counter := 0;
      includes := {};
      scopes := [];
      moduleMap := map[];
      uses := [];
      unit := UnitRef(0, "");
      fortran := Global([]);
    }

    function Top(): Scope
      reads this
      requires |scopes| > 0
    {
      scopes[|scopes| - 1]
    }

    function Below(): seq<Scope>
      reads this
      requires |scopes| > 0
    {
      scopes[..|scopes| - 1]
    }

    /** What an expression translation reads. */
    function Context(): Ctx
      reads this
    {
      Ctx(Visible(scopes), fortran, typeOf)
    }

    /** What an expression translation changes: temporaries go to the innermost scope. */
    function State(): St
      reads this
      requires |scopes| > 0
    {
      St(counter, Top().stmts, includes)
    }

    /** `appendStatement`. */
    method Append(s: Stmt)
      requires |scopes| > 0
      modifies this
      ensures |scopes| == |old(scopes)| && Below() == old(Below())
      ensures Top() == Scope(old(Top()).stmts + [s], old(Top()).syms)
      ensures counter == old(counter) && includes == old(includes) && Context() == old(Context())
      ensures moduleMap == old(moduleMap) && uses == old(uses) && unit == old(unit) && fortran == old(fortran)
    {
      var below, top := Below(), Top();
      scopes := below + [Scope(top.stmts + [s], top.syms)];
      VisibleTop(below, top);
      VisibleTop(below, Scope(top.stmts + [s], top.syms));
    }

    /** `pushScopeStack` on a scope holding `stmts` and knowing `syms`. */
    method Push(stmts: seq<Stmt>, syms: map<string, Sym>)
      modifies this
      ensures scopes == old(scopes) + [Scope(stmts, syms)]
      ensures counter == old(counter) && includes == old(includes)
      ensures moduleMap == old(moduleMap) && uses == old(uses) && unit == old(unit) && fortran == old(fortran)
    {
      scopes := scopes + [Scope(stmts, syms)];
    }

    /** `popScopeStack`, handing back what was appended to the popped scope. */
    method Pop() returns (stmts: seq<Stmt>)
      requires |scopes| > 1
      modifies this
      ensures scopes == old(Below()) && stmts == old(Top()).stmts
      ensures counter == old(counter) && includes == old(includes)
      ensures moduleMap == old(moduleMap) && uses == old(uses) && unit == old(unit) && fortran == old(fortran)
    {
      stmts := Top().stmts;
      scopes := Below();
    }

    /** `xf_expr` on the current scope. */
    method Expr(e: Expr) returns (r: Result<Expr>)
      requires |scopes| > 0
      modifies this
      ensures |scopes| == |old(scopes)| && Below() == old(Below()) && Top().syms == old(Top().syms)
      ensures var o := XfE(old(Context()), e, old(State()));
        r == o.r && State() == o.st
      ensures Context() == old(Context())
      ensures moduleMap == old(moduleMap) && uses == old(uses) && unit == old(unit) && fortran == old(fortran)
    {
      var o := XfE(Context(), e, State());
      r := o.r;
      counter := o.st.counter;
      includes := o.st.includes;
      var below, syms := Below(), Top().syms;
      scopes := below + [Scope(o.st.temps, syms)];
      VisibleTop(below, Scope(o.st.temps, syms));
      VisibleTop(below, old(Top()));
    }

    /** One dimension of the array loop: its lower bound, then its upper bound. */
    method XfDimension(d: Dim) returns (r: Result<Dim>)
      requires |scopes| > 0
      modifies this
      ensures |scopes| == |old(scopes)| && Below() == old(Below()) && Top().syms == old(Top().syms)
      ensures var o := XfDim(old(Context()), d, old(State()));
        r == o.r && State() == o.st
      ensures Context() == old(Context())
      ensures moduleMap == old(moduleMap) && uses == old(uses) && unit == old(unit) && fortran == old(fortran)
    {
      match d {
        case Bounded(lo, hi) =>
          var a := Expr(lo);
          if !a.Ok? {
            r := Pass(a);
            return;
          }
          var c := Expr(hi);
          r := if c.Ok? then Ok(Bounded(a.value, c.value)) else Pass(c);
        case AssumedSize(lo) =>
          var a := Expr(lo);
          r := if a.Ok? then Ok(AssumedSize(a.value)) else Pass(a);
        case Extent(_) =>
          r := Ok(d);
        case Star =>
          r := Ok(d);
      }
    }

    /** The loop over the dimensions of an array type. */
    method XfDimensions(ds: seq<Dim>) returns (r: Result<seq<Dim>>)
      requires |scopes| > 0
      modifies this
      ensures |scopes| == |old(scopes)| && Below() == old(Below()) && Top().syms == old(Top().syms)
      ensures var o := XfDims(old(Context()), ds, old(State()));
        r == o.r && State() == o.st
      ensures Context() == old(Context())
      ensures moduleMap == old(moduleMap) && uses == old(uses) && unit == old(unit) && fortran == old(fortran)
    {
      ghost var ctx, st0 := Context(), State();
      var dims: seq<Dim> := [];
      var i := 0;
      while i < |ds|
        invariant 0 <= i <= |ds|
        invariant |scopes| == |old(scopes)| && Below() == old(Below()) && Top().syms == old(Top().syms)
        invariant Context() == ctx == old(Context())
        invariant moduleMap == old(moduleMap) && uses == old(uses) && unit == old(unit)
        invariant XfDims(ctx, ds[..i], st0) == Xf(Ok(dims), State())
      {
        assert ds[..i + 1][..i] == ds[..i];
        var d := XfDimension(ds[i]);
        if !d.Ok? {
          r := Pass(d);
          DimsStop(ctx, ds, i + 1, st0);
          return;
        }
        dims := dims + [d.value];
        i := i + 1;
      }
      assert ds[..i] == ds;
      r := Ok(dims);
    }

    /** `xf_type`: the array loop translates each bound on the current scope, in order,
        then lays the dimensions out. */
    method XfType(t: FType, param: bool) returns (r: Result<(CType, Option<DimInfo>)>)
      requires |scopes| > 0
      modifies this
      ensures |scopes| == |old(scopes)| && Below() == old(Below()) && Top().syms == old(Top().syms)
      ensures var o := XfTypeOf(old(Context()), t, param, old(State()));
        r == o.r && State() == o.st
      ensures Context() == old(Context())
      ensures moduleMap == old(moduleMap) && uses == old(uses) && unit == old(unit) && fortran == old(fortran)
      decreases t
    {
      if !t.FArray? {
        var s := LowerScalar(t);
        r := if s.Ok? then Ok((s.value, None)) else Pass(s);
        return;
      }
      var b := XfType(t.base, false);
      if !b.Ok? {
        r := Pass(b);
        return;
      }
      var ds := XfDimensions(t.dims);
      if !ds.Ok? {
        r := Pass(ds);
        return;
      }
      var dims := ds.value;
      var lbounds, sizes, size := ArrayLayout(dims);
      LayoutBounds(dims);
      var ty := if param then CPointer(b.value.0) else CArray(b.value.0, size);
      r := Ok((ty, Some(DimInfo(lbounds, sizes))));
    }
  
    /** An expression statement: the expression, then the statement. */
    method XfExprStmt(e: Expr) returns (r: Result<()>)
      requires |scopes| > 0
      modifies this
      ensures |scopes| == |old(scopes)| && Below() == old(Below()) && Top().syms == old(Top().syms)
      ensures var o := XfE(old(Context()), e, old(State()));
        counter == o.st.counter && includes == o.st.includes &&
        Top().stmts == o.st.temps + (if o.r.Ok? then [ExprStmt(o.r.value)] else []) &&
        r == (if o.r.Ok? then Ok(()) else Pass(o.r))
      ensures moduleMap == old(moduleMap) && uses == old(uses) && unit == old(unit) && fortran == old(fortran)
    {
      var e' := Expr(e);
      if !e'.Ok? {
        r := Pass(e');
        return;
      }
      Append(ExprStmt(e'.value));
      r := Ok(());
    }

    /** RETURN: the result variable of a function, nothing for a subroutine; outside a
        procedure there is no enclosing declaration. */
    method XfReturn(proc: Option<ProcDecl>) returns (r: Result<()>)
      requires |scopes| > 0
      modifies this
      ensures proc.None? ==> r == Abort(AssertEnclosingFn) && scopes == old(scopes)
      ensures proc.Some? ==>
        r == Ok(()) && |scopes| == |old(scopes)| && Below() == old(Below()) &&
        Top() == Scope(old(Top()).stmts + [Return(if proc.value.result.Some? then Some(Var(RetvName)) else None)], old(Top()).syms)
      ensures counter == old(counter) && includes == old(includes)
      ensures moduleMap == old(moduleMap) && uses == old(uses) && unit == old(unit) && fortran == old(fortran)
    {
      if proc.None? {
        r := Abort(AssertEnclosingFn);
        return;
      }
      Append(Return(if proc.value.result.Some? then Some(Var(RetvName)) else None));
      r := Ok(());
    }

    /** OPEN: the file-table header, then the unit and the file name, then the call. */
    method XfOpen(u: Expr, f: Expr) returns (r: Result<()>)
      requires |scopes| > 0
      modifies this
      ensures |scopes| == |old(scopes)| && Below() == old(Below()) && Top().syms == old(Top().syms)
      ensures var o := XfList(old(Context()), [u, f], old(State()).(includes := old(includes) + {FileIoHeader}));
        counter == o.st.counter && includes == o.st.includes &&
        Top().stmts == o.st.temps + (if o.r.Ok? then [ExprStmt(Call("ftc__open_file", o.r.value))] else []) &&
        r == (if o.r.Ok? then Ok(()) else Pass(o.r))
      ensures moduleMap == old(moduleMap) && uses == old(uses) && unit == old(unit) && fortran == old(fortran)
    {
      ghost var ctx := Context();
      includes := includes + {FileIoHeader};
      ghost var st0 := State();
      XfListPair(ctx, u, f, st0);
      var a := Expr(u);
      if !a.Ok? {
        r := Pass(a);
        return;
      }
      var b := Expr(f);
      if !b.Ok? {
        r := Pass(b);
        return;
      }
      Append(ExprStmt(Call("ftc__open_file", [a.value, b.value])));
      r := Ok(());
    }

    /** CLOSE: the unit, the call, then the file-table header. */
    method XfClose(u: Expr) returns (r: Result<()>)
      requires |scopes| > 0
      modifies this
      ensures |scopes| == |old(scopes)| && Below() == old(Below()) && Top().syms == old(Top().syms)
      ensures var o := XfE(old(Context()), u, old(State()));
        counter == o.st.counter &&
        includes == (if o.r.Ok? then o.st.includes + {FileIoHeader} else o.st.includes) &&
        Top().stmts == o.st.temps + (if o.r.Ok? then [ExprStmt(Call("ftc__close_file", [o.r.value]))] else []) &&
        r == (if o.r.Ok? then Ok(()) else Pass(o.r))
      ensures moduleMap == old(moduleMap) && uses == old(uses) && unit == old(unit) && fortran == old(fortran)
    {
      var a := Expr(u);
      if !a.Ok? {
        r := Pass(a);
        return;
      }
      Append(ExprStmt(Call("ftc__close_file", [a.value])));
      includes := includes + {FileIoHeader};
      r := Ok(());
    }

    /** One item of PRINT or READ: its conversion, then the item. */
    method XfItem(item: Expr, read: bool) returns (r: Result<(string, Expr)>)
      requires |scopes| > 0
      modifies this
      ensures |scopes| == |old(scopes)| && Below() == old(Below()) && Top().syms == old(Top().syms)
      ensures var o := ItemXf(old(Context()), ftypeOf, item, read, old(State()));
        r == o.r && State() == o.st
      ensures Context() == old(Context())
      ensures moduleMap == old(moduleMap) && uses == old(uses) && unit == old(unit) && fortran == old(fortran)
    {
      var f := FormatOf(ftypeOf(item));
      if !f.Ok? {
        r := Pass(f);
        return;
      }
      var e := Expr(item);
      if !e.Ok? {
        r := Pass(e);
        return;
      }
      r := Ok((f.value, if read then RefTo(e.value) else e.value));
    }

    /** The item loop of PRINT and READ: the format grows by each item's conversion and
        the arguments by each translated item. */
    method XfItemList(items: seq<Expr>, read: bool) returns (r: Result<(string, seq<Expr>)>)
      requires |scopes| > 0
      modifies this
      ensures |scopes| == |old(scopes)| && Below() == old(Below()) && Top().syms == old(Top().syms)
      ensures var o := XfItems(old(Context()), ftypeOf, items, read, old(State()));
        r == o.r && State() == o.st
      ensures Context() == old(Context())
      ensures moduleMap == old(moduleMap) && uses == old(uses) && unit == old(unit) && fortran == old(fortran)
    {
      ghost var st0 := State();
      var format := "";
      var args: seq<Expr> := [];
      var i := 0;
      while i < |items|
        invariant 0 <= i <= |items|
        invariant |scopes| == |old(scopes)| && Below() == old(Below()) && Top().syms == old(Top().syms)
        invariant Context() == old(Context())
        invariant moduleMap == old(moduleMap) && uses == old(uses) && unit == old(unit) && fortran == old(fortran)
        invariant XfItems(Context(), ftypeOf, items[..i], read, st0) == Xf(Ok((format, args)), State())
      {
        var q := XfNextItem(items, i, read, st0, format, args);
        if !q.Ok? {
          r := Pass(q);
          return;
        }
        format := format + q.value.0;
        args := args + [q.value.1];
        i := i + 1;
      }
      assert items[..i] == items;
      r := Ok((format, args));
    }

    /** One pass of the item loop: the item after the first `i`, whose translation so far
        is `format` and `args`. */
    method XfNextItem(items: seq<Expr>, i: nat, read: bool, ghost st0: St, format: string, args: seq<Expr>)
      returns (q: Result<(string, Expr)>)
      requires |scopes| > 0 && i < |items|
      requires XfItems(Context(), ftypeOf, items[..i], read, st0) == Xf(Ok((format, args)), State())
      modifies this
      ensures |scopes| == |old(scopes)| && Below() == old(Below()) && Top().syms == old(Top().syms)
      ensures Context() == old(Context())
      ensures moduleMap == old(moduleMap) && uses == old(uses) && unit == old(unit) && fortran == old(fortran)
      ensures q.Ok? ==>
        XfItems(Context(), ftypeOf, items[..i + 1], read, st0) == Xf(Ok((format + q.value.0, args + [q.value.1])), State())
      ensures !q.Ok? ==> XfItems(Context(), ftypeOf, items, read, st0) == Xf(Pass(q), State())
    {
      ItemsStep(Context(), ftypeOf, items, i, read, st0);
      q := XfItem(items[i], read);
      if !q.Ok? {
        ItemsStop(Context(), ftypeOf, items, read, i + 1, st0);
      }
    }

    /** PRINT with list-directed format: `printf` of the items' format and the items. */
    method XfPrint(star: bool, items: seq<Expr>) returns (r: Result<()>)
      requires |scopes| > 0
      modifies this
      ensures |scopes| == |old(scopes)| && Below() == old(Below()) && Top().syms == old(Top().syms)
      ensures !star ==> r == Abort(AssertPrintStar) && State() == old(State())
      ensures star ==> var o := XfItems(old(Context()), ftypeOf, items, false, old(State()));
        counter == o.st.counter &&
        includes == (if o.r.Ok? then o.st.includes + {"stdio.h"} else o.st.includes) &&
        Top().stmts == o.st.temps + (if o.r.Ok? then [ExprStmt(PrintCall(o.r.value.0, o.r.value.1))] else []) &&
        r == (if o.r.Ok? then Ok(()) else Pass(o.r))
      ensures moduleMap == old(moduleMap) && uses == old(uses) && unit == old(unit) && fortran == old(fortran)
    {
      if !star {
        r := Abort(AssertPrintStar);
        return;
      }
      var l := XfItemList(items, false);
      if !l.Ok? {
        r := Pass(l);
        return;
      }
      Append(ExprStmt(PrintCall(l.value.0, l.value.1)));
      includes := includes + {"stdio.h"};
      r := Ok(());
    }

    /** READ with list-directed format: `fscanf` on the unit's stream, with the items'
        format and addresses; the unit is translated after the items. */
    method XfRead(u: Expr, star: bool, items: seq<Expr>) returns (r: Result<()>)
      requires |scopes| > 0
      modifies this
      ensures |scopes| == |old(scopes)| && Below() == old(Below()) && Top().syms == old(Top().syms)
      ensures !star ==> r == Abort(AssertReadStar) && State() == old(State())
      ensures star ==> var o := XfItems(old(Context()), ftypeOf, items, true, old(State()));
        var q := XfE(old(Context()), u, o.st);
        var fin := if o.r.Ok? then q.st else o.st;
        var done := o.r.Ok? && q.r.Ok?;
        counter == fin.counter &&
        includes == (if done then fin.includes + {"stdio.h", FileIoHeader} else fin.includes) &&
        Top().stmts == fin.temps + (if done then [ExprStmt(ReadCall(q.r.value, o.r.value.0, o.r.value.1))] else []) &&
        r == (if !o.r.Ok? then Pass(o.r) else if !q.r.Ok? then Pass(q.r) else Ok(()))
      ensures moduleMap == old(moduleMap) && uses == old(uses) && unit == old(unit) && fortran == old(fortran)
    {
      if !star {
        r := Abort(AssertReadStar);
        return;
      }
      var l := XfItemList(items, true);
      if !l.Ok? {
        r := Pass(l);
        return;
      }
      var ue := Expr(u);
      if !ue.Ok? {
        r := Pass(ue);
        return;
      }
      Append(ExprStmt(ReadCall(ue.value, l.value.0, l.value.1)));
      includes := includes + {"stdio.h", FileIoHeader};
      r := Ok(());
    }

    /** `buildVariableDeclaration` in the current scope, then `appendStatement`: the
        declaration is appended and its name enters the scope's symbol table. */
    method Declare(d: Stmt, sym: Sym)
      requires |scopes| > 0 && d.VarDecl?
      modifies this
      ensures |scopes| == |old(scopes)| && Below() == old(Below())
      ensures Top() == Scope(old(Top()).stmts + [d], old(Top()).syms[d.name := sym])
      ensures Context() == old(Context()).(syms := old(Context()).syms[d.name := sym])
      ensures counter == old(counter) && includes == old(includes)
      ensures moduleMap == old(moduleMap) && uses == old(uses) && unit == old(unit) && fortran == old(fortran)
    {
      var below, top := Below(), Top();
      scopes := below + [Scope(top.stmts + [d], top.syms[d.name := sym])];
      VisibleTop(below, top);
      VisibleTop(below, Top());
      assert Visible(below) + top.syms[d.name := sym] == (Visible(below) + top.syms)[d.name := sym];
    }

    /** The initial value of a variable of `xf_var_decl`, translated on the current
        scope. */
    method XfVarInit(init: Option<Initializer>) returns (r: Result<Option<Expr>>)
      requires |scopes| > 0
      modifies this
      ensures |scopes| == |old(scopes)| && Below() == old(Below()) && Top().syms == old(Top().syms)
      ensures var o := InitXf(old(Context()), init, old(State()));
        r == o.r && State() == o.st
      ensures Context() == old(Context())
      ensures moduleMap == old(moduleMap) && uses == old(uses) && unit == old(unit) && fortran == old(fortran)
    {
      if init.None? {
        r := Ok(None);
        return;
      }
      if init.value.OtherInit? {
        r := Abort(AssertAssignInit);
        return;
      }
      var e := Expr(init.value.value);
      r := if e.Ok? then Ok(Some(e.value)) else Pass(e);
    }

    /** One variable of `xf_var_decl`: skipped if it is an argument of the enclosing
        procedure, otherwise declared with its initial value and its C type, translated
        in that order; an initializer that is not an assignment fails the assertion. */
    method XfVar(v: VarInit, args: Option<seq<string>>) returns (r: Result<()>)
      requires |scopes| > 0
      modifies this
      ensures |scopes| == |old(scopes)| && Below() == old(Below())
      ensures old(Top()).stmts <= Top().stmts && old(Top()).syms.Keys <= Top().syms.Keys
      ensures old(counter) <= counter && old(includes) <= includes
      ensures moduleMap == old(moduleMap) && uses == old(uses) && unit == old(unit) && fortran == old(fortran)
      ensures IsArg(args, v.name) ==> r == Ok(()) && scopes == old(scopes)
      ensures !IsArg(args, v.name) && v.init.Some? && v.init.value.OtherInit? ==> r == Abort(AssertAssignInit)
      ensures r.Ok? ==>
        Top().syms.Keys == old(Top()).syms.Keys + (if IsArg(args, v.name) then {} else {v.name}) &&
        DeclaresOnly(Top().stmts, |old(Top()).stmts|, if IsArg(args, v.name) then {} else {v.name})
      ensures var o := VarXf(v, args, Decls(old(Context()), old(State()), old(Top()).syms));
        (r.Ok? <==> o.Ok?) && (!r.Ok? ==> r == Pass(o)) &&
        (r.Ok? ==> Context() == o.value.ctx && State() == o.value.st && Top().syms == o.value.syms)
    {
      if IsArg(args, v.name) {
        r := Ok(());
        return;
      }
      ghost var st0 := State();
      var init := XfVarInit(v.init);
      if !init.Ok? {
        r := Pass(init);
        return;
      }
      ghost var mid := State();
      var t := XfType(v.ty, false);
      if !t.Ok? {
        r := Pass(t);
        return;
      }
      ExtendsTrans(st0, mid, State());
      TempsOnly(st0, State());
      ghost var before := Top().stmts;
      Declare(VarDecl(v.name, t.value.0, init.value, t.value.1), Sym(t.value.0, t.value.1));
      DeclaresOnlySnoc(before, |st0.temps|, VarDecl(v.name, t.value.0, init.value, t.value.1));
      r := Ok(());
    }

    /** `xf_var_decl`: the variables of a declaration statement, in order. */
    method XfVarDecl(vars: seq<VarInit>, args: Option<seq<string>>) returns (r: Result<()>)
      requires |scopes| > 0
      modifies this
      ensures |scopes| == |old(scopes)| && Below() == old(Below())
      ensures old(Top()).stmts <= Top().stmts && old(Top()).syms.Keys <= Top().syms.Keys
      ensures old(counter) <= counter && old(includes) <= includes
      ensures moduleMap == old(moduleMap) && uses == old(uses) && unit == old(unit) && fortran == old(fortran)
      ensures r.Ok? ==> Top().syms.Keys == old(Top()).syms.Keys + DeclaredNames(vars, args)
      ensures r.Ok? ==> DeclaresOnly(Top().stmts, |old(Top()).stmts|, DeclaredNames(vars, args))
      ensures (forall k :: 0 <= k < |vars| ==> IsArg(args, vars[k].name)) ==> r == Ok(()) && scopes == old(scopes)
      ensures (exists k :: 0 <= k < |vars| && !IsArg(args, vars[k].name) && vars[k].init.Some? && vars[k].init.value.OtherInit?) ==> !r.Ok?
      ensures var o := VarsXf(vars, args, Decls(old(Context()), old(State()), old(Top()).syms));
        (r.Ok? <==> o.Ok?) && (!r.Ok? ==> r == Pass(o)) &&
        (r.Ok? ==> Context() == o.value.ctx && State() == o.value.st && Top().syms == o.value.syms)
    {
      ghost var d0 := Decls(Context(), State(), Top().syms);
      var i := 0;
      while i < |vars|
        invariant 0 <= i <= |vars|
        invariant |scopes| == |old(scopes)| && Below() == old(Below())
        invariant old(Top()).stmts <= Top().stmts && old(Top()).syms.Keys <= Top().syms.Keys
        invariant old(counter) <= counter && old(includes) <= includes
        invariant moduleMap == old(moduleMap) && uses == old(uses) && unit == old(unit) && fortran == old(fortran)
        invariant DeclaresOnly(Top().stmts, |old(Top()).stmts|, DeclaredNames(vars[..i], args))
        invariant (forall k :: 0 <= k < i ==> IsArg(args, vars[k].name)) ==> scopes == old(scopes)
        invariant VarsXf(vars[..i], args, d0) == Ok(Decls(Context(), State(), Top().syms))
      {
        r := XfVarNext(vars, args, i, d0, old(Top()).stmts);
        if !r.Ok? {
          VarsStop(vars, args, d0, i + 1);
          return;
        }
        i := i + 1;
      }
      assert vars[..i] == vars;
      if k :| 0 <= k < |vars| && !IsArg(args, vars[k].name) && vars[k].init.Some? && vars[k].init.value.OtherInit? {
        VarsOtherInitFails(vars, args, d0, k);
      }
      r := Ok(());
    }

    /** One pass of the loop of `xf_var_decl`: the variable `vars[i]`, after the ones
        before it, which declared what `d0` and the names before it say. */
    method XfVarNext(vars: seq<VarInit>, args: Option<seq<string>>, i: nat, ghost d0: Decls, ghost s0: seq<Stmt>)
      returns (r: Result<()>)
      requires i < |vars| && |scopes| > 0
      requires VarsXf(vars[..i], args, d0) == Ok(Decls(Context(), State(), Top().syms))
      requires |s0| <= |Top().stmts| && DeclaresOnly(Top().stmts, |s0|, DeclaredNames(vars[..i], args))
      modifies this
      ensures |scopes| == |old(scopes)| && Below() == old(Below())
      ensures old(Top()).stmts <= Top().stmts && old(Top()).syms.Keys <= Top().syms.Keys
      ensures old(counter) <= counter && old(includes) <= includes
      ensures moduleMap == old(moduleMap) && uses == old(uses) && unit == old(unit) && fortran == old(fortran)
      ensures IsArg(args, vars[i].name) ==> r == Ok(()) && scopes == old(scopes)
      ensures !IsArg(args, vars[i].name) && vars[i].init.Some? && vars[i].init.value.OtherInit? ==> !r.Ok?
      ensures var o := VarsXf(vars[..i + 1], args, d0);
        (r.Ok? <==> o.Ok?) && (!r.Ok? ==> r == Pass(o)) &&
        (r.Ok? ==> o.value == Decls(Context(), State(), Top().syms))
      ensures r.Ok? ==> DeclaresOnly(Top().stmts, |s0|, DeclaredNames(vars[..i + 1], args))
    {
      ghost var ss, keys := Top().stmts, Top().syms.Keys;
      VarsStep(vars, args, d0, i);
      r := XfVar(vars[i], args);
      if r.Ok? {
        VarDeclStep(vars, args, i, s0, ss, Top().stmts, d0.syms.Keys, keys, Top().syms.Keys);
      }
    }

    /** One pass of the argument loop of `xf_fn_decl`: argument `i` translated after
        `params`, or the list ended with its error. */
    method XfParamNext(p: ProcDecl, intents: map<string, Intent>, i: nat, ghost params: seq<Param>, ghost ctx0: Ctx, ghost st0: St)
      returns (r: Result<Param>)
      requires |scopes| > 0 && i < |p.params| && intents == ScanOf(p).result
      requires Context() == ctx0 && ParamsXf(ctx0, p.params[..i], intents, st0) == Xf(Ok(params), State())
      modifies this
      ensures |scopes| == |old(scopes)| && Below() == old(Below()) && Top().syms == old(Top()).syms
      ensures old(Top()).stmts <= Top().stmts
      ensures old(counter) <= counter && old(includes) <= includes
      ensures moduleMap == old(moduleMap) && uses == old(uses) && unit == old(unit) && fortran == old(fortran)
      ensures Context() == ctx0
      ensures r.Ok? ==> ParamsXf(ctx0, p.params[..i + 1], intents, st0) == Xf(Ok(params + [r.value]), State())
      ensures !r.Ok? ==> ParamsXf(ctx0, p.params, intents, st0) == Xf(Pass(r), State())
    {
      ParamsStep(ctx0, p.params, intents, st0, i);
      r := XfParam(p, intents, i);
      if !r.Ok? {
        ParamsStop(ctx0, p.params, intents, st0, i + 1);
      }
    }

    /** One argument of `xf_fn_decl`: its C type translated as a parameter's in the
        enclosing scope, made a pointer unless its intent is IN; an argument without an
        intent on record fails the assertion. */
    method XfParam(p: ProcDecl, intents: map<string, Intent>, j: nat) returns (r: Result<Param>)
      requires |scopes| > 0 && j < |p.params| && intents == ScanOf(p).result
      modifies this
      ensures |scopes| == |old(scopes)| && Below() == old(Below()) && Top().syms == old(Top()).syms
      ensures old(Top()).stmts <= Top().stmts
      ensures old(counter) <= counter && old(includes) <= includes
      ensures moduleMap == old(moduleMap) && uses == old(uses) && unit == old(unit) && fortran == old(fortran)
      ensures r.Ok? ==> ParamFits(p, j, r.value)
      ensures p.params[j].name !in intents ==> !r.Ok?
      ensures Context() == old(Context())
      ensures var o := ParamXf(old(Context()), p.params[j], intents, old(State()));
        r == o.r && State() == o.st
    {
      var a := p.params[j];
      var t := XfType(a.ty, true);
      if !t.Ok? {
        r := Pass(t);
        return;
      }
      if a.name !in intents {
        r := Abort(AssertIntent);
        return;
      }
      var ty := if intents[a.name] == In then t.value.0 else CPointer(t.value.0);
      r := Ok(Param(a.name, ty, t.value.1));
    }

    /** The loop over the arguments of `xf_fn_decl`. */
    method XfParams(p: ProcDecl, intents: map<string, Intent>) returns (r: Result<seq<Param>>)
      requires |scopes| > 0 && intents == ScanOf(p).result
      modifies this
      ensures |scopes| == |old(scopes)| && Below() == old(Below()) && Top().syms == old(Top()).syms
      ensures old(Top()).stmts <= Top().stmts
      ensures old(counter) <= counter && old(includes) <= includes
      ensures moduleMap == old(moduleMap) && uses == old(uses) && unit == old(unit) && fortran == old(fortran)
      ensures r.Ok? ==> |r.value| == |p.params| && forall j :: 0 <= j < |p.params| ==> ParamFits(p, j, r.value[j])
      ensures Context() == old(Context())
      ensures var o := ParamsXf(old(Context()), p.params, intents, old(State()));
        r == o.r && State() == o.st
    {
      var params: seq<Param> := [];
      var i := 0;
      while i < |p.params|
        invariant 0 <= i <= |p.params| && |params| == i
        invariant |scopes| == |old(scopes)| && Below() == old(Below()) && Top().syms == old(Top()).syms
        invariant old(Top()).stmts <= Top().stmts
        invariant old(counter) <= counter && old(includes) <= includes
        invariant moduleMap == old(moduleMap) && uses == old(uses) && unit == old(unit) && fortran == old(fortran)
        invariant Context() == old(Context())
        invariant ParamsXf(old(Context()), p.params[..i], intents, old(State())) == Xf(Ok(params), State())
      {
        var q := XfParamNext(p, intents, i, params, old(Context()), old(State()));
        if !q.Ok? {
          r := Pass(q);
          return;
        }
        params := params + [q.value];
        i := i + 1;
      }
      assert p.params[..i] == p.params;
      ParamsFit(old(Context()), p, old(State()));
      r := Ok(params);
    }

    /** `xf_block`: the nodes translated into a scope of their own, which starts with
        `first` and knows `syms`; the scope's statements are handed back. */
    method XfBlock(ns: seq<Node>, first: seq<Stmt>, syms: map<string, Sym>, args: Option<seq<string>>, proc: Option<ProcDecl>)
      returns (r: Result<seq<Stmt>>, ghost acted: seq<Node>)
      requires |scopes| > 0
      modifies this
      ensures old(counter) <= counter && old(includes) <= includes
      ensures unit == old(unit) && fortran == old(fortran)
      ensures old(uses) <= uses && forall k :: |old(uses)| <= k < |uses| ==> uses[k].0 == unit
      ensures old(moduleMap).Keys <= moduleMap.Keys
      ensures forall m :: m in moduleMap ==> (m in old(moduleMap) && moduleMap[m] == old(moduleMap)[m]) || moduleMap[m] == unit
      ensures r.Ok? ==> scopes == old(scopes) && first <= r.value
      ensures r.Ok? ==> ActedOf(XfDirective, NodeTrees(ns)) == Walked(acted, true)
      decreases ns, 1
    {
      Push(first, syms);
      var res;
      res, acted := XfTrees(ns, args, proc);
      if !res.Ok? {
        r := Pass(res);
        return;
      }
      var body := Pop();
      r := Ok(body);
    }

    /** `xf_fn_decl`: the C parameters (each argument's type translated in the enclosing
        scope, made a pointer unless its intent is IN), the return type, then the body in
        a scope of its own holding the parameters (and `__retv` for a function), where
        declarations of the arguments are skipped. */
    method XfFnDecl(p: ProcDecl) returns (r: Result<()>, ghost acted: seq<Node>)
      requires |scopes| > 0
      modifies this
      ensures old(counter) <= counter && old(includes) <= includes
      ensures unit == old(unit) && fortran == old(fortran)
      ensures old(uses) <= uses && forall k :: |old(uses)| <= k < |uses| ==> uses[k].0 == unit
      ensures old(moduleMap).Keys <= moduleMap.Keys
      ensures forall m :: m in moduleMap ==> (m in old(moduleMap) && moduleMap[m] == old(moduleMap)[m]) || moduleMap[m] == unit
      ensures r.Ok? ==> |scopes| == |old(scopes)| && Below() == old(Below()) && old(Top()).stmts <= Top().stmts
      ensures r.Ok? ==>
        |Top().stmts| > |old(Top()).stmts| && Top().syms == old(Top()).syms &&
        var f := Top().stmts[|Top().stmts| - 1];
        f.FunDef? && f.name == p.name && |f.params| == |p.params| &&
        (forall j :: 0 <= j < |p.params| ==> ParamFits(p, j, f.params[j])) &&
        (p.result.None? ==> f.ret == CVoid) &&
        (p.result.Some? ==> |f.body| > 0 && f.body[0] == VarDecl(RetvName, f.ret, None, None))
      ensures r.Ok? ==>
        var o := ParamsXf(old(Context()), p.params, ScanOf(p).result, old(State()));
        var f := Top().stmts[|Top().stmts| - 1];
        o.r == Ok(f.params) &&
        (p.result.Some? ==> var t := XfTypeOf(old(Context()), p.result.value, false, o.st); t.r.Ok? && f.ret == t.r.value.0)
      ensures r.Ok? ==> ActedOf(XfDirective, NodeTrees(p.body)) == Walked(acted, true)
      decreases p, 1
    {
      acted := [];
      var head := XfFnHead(p);
      if !head.Ok? {
        r := Pass(head);
        return;
      }
      var (params, ret) := head.value;
      var first := if p.result.Some? then [VarDecl(RetvName, ret, None, None)] else [];
      var body;
      body, acted := XfBlock(p.body, first, ParamSyms(params), Some(ParamNames(p.params)), Some(p));
      if !body.Ok? {
        r := Pass(body);
        return;
      }
      Append(FunDef(p.name, ret, params, body.value));
      r := Ok(());
    }

    /** The head of `xf_fn_decl`: the arguments' intents, then the parameters, then the
        return type, each translated after the one before. */
    method XfFnHead(p: ProcDecl) returns (r: Result<(seq<Param>, CType)>)
      requires |scopes| > 0
      modifies this
      ensures |scopes| == |old(scopes)| && Below() == old(Below()) && Top().syms == old(Top()).syms
      ensures old(Top()).stmts <= Top().stmts && old(counter) <= counter && old(includes) <= includes
      ensures moduleMap == old(moduleMap) && uses == old(uses) && unit == old(unit) && fortran == old(fortran)
      ensures r.Ok? ==> |r.value.0| == |p.params| && forall j :: 0 <= j < |p.params| ==> ParamFits(p, j, r.value.0[j])
      ensures r.Ok? ==> p.result.None? ==> r.value.1 == CVoid
      ensures r.Ok? ==>
        var o := ParamsXf(old(Context()), p.params, ScanOf(p).result, old(State()));
        o.r == Ok(r.value.0) &&
        (p.result.Some? ==> var t := XfTypeOf(old(Context()), p.result.value, false, o.st); t.r.Ok? && r.value.1 == t.r.value.0)
    {
      var m := FnDeclIntents(p);
      var params := XfParams(p, m);
      if !params.Ok? {
        r := Pass(params);
        return;
      }
      var ret := XfResult(p);
      if !ret.Ok? {
        r := Pass(ret);
        return;
      }
      r := Ok((params.value, ret.value));
    }

    /** The return type of `xf_fn_decl`: `void` for a subroutine, the result's type
        translated for a function. */
    method XfResult(p: ProcDecl) returns (r: Result<CType>)
      requires |scopes| > 0
      modifies this
      ensures |scopes| == |old(scopes)| && Below() == old(Below()) && Top().syms == old(Top()).syms
      ensures old(Top()).stmts <= Top().stmts && old(counter) <= counter && old(includes) <= includes
      ensures moduleMap == old(moduleMap) && uses == old(uses) && unit == old(unit) && fortran == old(fortran)
      ensures p.result.None? ==> r == Ok(CVoid) && scopes == old(scopes) && counter == old(counter)
      ensures p.result.Some? ==>
        var o := XfTypeOf(old(Context()), p.result.value, false, old(State()));
        (r.Ok? <==> o.r.Ok?) && (r.Ok? ==> r.value == o.r.value.0) && State() == o.st
    {
      if p.result.None? {
        r := Ok(CVoid);
        return;
      }
      ghost var st0 := State();
      var t := XfType(p.result.value, false);
      Grows(st0, State());
      r := if t.Ok? then Ok(t.value.0) else Pass(t);
    }

    /** A copy of a DO loop's bound or step: a name made from the counter, the C type
        `ty` translated, then the declaration of the copy, as `CopyXf` says. */
    method Copy(prefix: string, ty: FType, e: Expr) returns (r: Result<string>)
      requires |scopes| > 0
      modifies this
      ensures |scopes| == |old(scopes)| && Below() == old(Below()) && Top().syms == old(Top()).syms
      ensures Context() == old(Context())
      ensures old(Top()).stmts <= Top().stmts
      ensures old(counter) < counter && old(includes) <= includes
      ensures moduleMap == old(moduleMap) && uses == old(uses) && unit == old(unit) && fortran == old(fortran)
      ensures var o := CopyXf(old(Context()), ty, e, GenName(prefix, old(counter)), old(State()).(counter := old(counter) + 1));
        State() == o.st && (r.Ok? <==> o.r.Ok?) &&
        (r.Ok? ==> r.value == GenName(prefix, old(counter)) && Top().stmts[|Top().stmts| - 1] == o.r.value)
    {
      var name := GenName(prefix, counter);
      counter := counter + 1;
      assert State() == old(State()).(counter := old(counter) + 1) && Context() == old(Context());
      r := CopyAs(name, ty, e);
    }

    /** A copy under a name already taken: the expression's type translated, then the
        expression declared into the name, as `CopyXf` builds it. */
    method CopyAs(name: string, ty: FType, e: Expr) returns (r: Result<string>)
      requires |scopes| > 0
      modifies this
      ensures |scopes| == |old(scopes)| && Below() == old(Below()) && Top().syms == old(Top()).syms
      ensures Context() == old(Context())
      ensures old(Top()).stmts <= Top().stmts
      ensures old(counter) <= counter && old(includes) <= includes
      ensures moduleMap == old(moduleMap) && uses == old(uses) && unit == old(unit) && fortran == old(fortran)
      ensures var o := CopyXf(old(Context()), ty, e, name, old(State()));
        State() == o.st && (r.Ok? <==> o.r.Ok?) &&
        (r.Ok? ==> r.value == name && Top().stmts[|Top().stmts| - 1] == o.r.value)
    {
      ghost var st0 := State();
      var t := XfType(ty, false);
      Grows(st0, State());
      if !t.Ok? {
        r := Pass(t);
        return;
      }
      r := DeclareCopy(name, t.value.0, e);
    }

    /** The declaration of a copy: the expression translated, after its temporaries, as
        the initializer of the variable `name` of C type `ty`. */
    method DeclareCopy(name: string, ty: CType, e: Expr) returns (r: Result<string>)
      requires |scopes| > 0
      modifies this
      ensures |scopes| == |old(scopes)| && Below() == old(Below()) && Top().syms == old(Top()).syms
      ensures Context() == old(Context())
      ensures old(Top()).stmts <= Top().stmts
      ensures old(counter) <= counter && old(includes) <= includes
      ensures moduleMap == old(moduleMap) && uses == old(uses) && unit == old(unit) && fortran == old(fortran)
      ensures var x := XfE(old(Context()), e, old(State()));
        (r.Ok? <==> x.r.Ok?) && (!r.Ok? ==> State() == x.st) &&
        (r.Ok? ==> r.value == name && State() == x.st.(temps := x.st.temps + [VarDecl(name, ty, Some(x.r.value), None)]))
    {
      ghost var st0 := State();
      var x := Expr(e);
      Grows(st0, State());
      if !x.Ok? {
        r := Pass(x);
        return;
      }
      Append(VarDecl(name, ty, Some(x.value), None));
      r := Ok(name);
    }

    /** The start of `xf_fortran_do`: the initialization must be an assignment, and once
        translated its left side a variable, the counter; the assignment is appended. */
    method XfDoInit(n: Node) returns (r: Result<Expr>, ghost init: Expr)
      requires n.DoNode? && |scopes| > 0
      modifies this
      ensures old(counter) <= counter && old(includes) <= includes
      ensures moduleMap == old(moduleMap) && uses == old(uses) && unit == old(unit) && fortran == old(fortran)
      ensures !(n.initExpr.Bin? && n.initExpr.op == Assign) ==>
        r == Fail(MsgDoInit) && scopes == old(scopes) && counter == old(counter)
      ensures r.Ok? ==> Context() == old(Context())
      ensures r.Ok? ==>
        var o := XfE(old(Context()), n.initExpr, old(State()));
        |scopes| == |old(scopes)| && Below() == old(Below()) && Top().syms == old(Top()).syms &&
        o.r == Ok(init) && init.Bin? && init.op == Assign && init.l == r.value && r.value.Var? &&
        Top().stmts == o.st.temps + [ExprStmt(init)] && counter == o.st.counter
    {
      init := NullExpr;
      if !(n.initExpr.Bin? && n.initExpr.op == Assign) {
        r := Fail(MsgDoInit);
        return;
      }
      ghost var ctx0, st0 := Context(), State();
      var e := Expr(n.initExpr);
      if !e.Ok? {
        r := Pass(e);
        return;
      }
      AssignStaysAssign(ctx0, n.initExpr.l, n.initExpr.r, st0);
      var c := e.value.l;
      if !c.Var? {
        r := Fail(MsgDoCounter);
        return;
      }
      Append(ExprStmt(e.value));
      r, init := Ok(c), e.value;
    }

    /** The step part of `xf_fortran_do`, once the bound is copied as `p` says: the
        direction, whether the counter `c` starts at or below the bound copy `bound`, then
        a copy of the step, typed as the bound; their names are handed back. */
    method XfDoStep(n: Node, c: Expr, bound: string, ghost p: DoParts) returns (r: Result<(string, string)>, ghost parts: DoParts)
      requires n.DoNode? && n.step.Some? && |scopes| > 0
      requires p.boundAt == |Top().stmts| - 1 && p.kb < counter && c == p.counter && bound == p.bound
      modifies this
      ensures old(counter) + 1 < counter && old(includes) <= includes
      ensures moduleMap == old(moduleMap) && uses == old(uses) && unit == old(unit) && fortran == old(fortran)
      ensures |scopes| == |old(scopes)| && Below() == old(Below()) && Top().syms == old(Top()).syms
      ensures old(Top()).stmts <= Top().stmts
      ensures var ss, o := Top().stmts, |old(Top()).stmts|;
        |ss| > o && ss[o] == VarDecl(GenName(DirPrefix, old(counter)), CInt, Some(AsWrittenDir(c, bound)), None)
      ensures r.Ok? ==>
        r.value == (parts.step, parts.dir) && parts.kd == old(counter) && parts.ks < counter &&
        parts.counter == p.counter && parts.init == p.init && parts.initAt == p.initAt &&
        parts.bound == p.bound && parts.kb == p.kb && parts.boundAt == p.boundAt && parts.bst == p.bst &&
        DoStep(n, old(Context()), ftypeOf(n.bound), Top().stmts, parts)
    {
      parts := p;
      ghost var kd := counter;
      var dn := GenName(DirPrefix, counter);
      counter := counter + 1;
      Append(VarDecl(dn, CInt, Some(AsWrittenDir(c, bound)), None));
      ghost var s1 := Top().stmts;
      ghost var sst := State().(counter := counter + 1);
      var sn := Copy(StepPrefix, ftypeOf(n.bound), n.step.value);
      assert Top().stmts[|s1| - 1] == s1[|s1| - 1];
      if !sn.Ok? {
        r := Pass(sn);
        return;
      }
      parts := DoParts(c, p.init, p.initAt, bound, p.kb, p.boundAt, p.bst, sn.value, kd + 1, |Top().stmts| - 1, sst, dn, kd);
      r := Ok((sn.value, dn));
    }

    /** The statements of `xf_fortran_do` after the start assignment `init` of the
        counter `c`: a copy of the bound, then, with a step, a copy of the step and the
        direction of the step; the loop's test and update are handed back. */
    method XfDoHead(n: Node, c: Expr, ghost init: Expr) returns (r: Result<(Expr, Expr)>, ghost parts: DoParts)
      requires n.DoNode? && |scopes| > 0 && |Top().stmts| > 0
      requires c.Var? && init.Bin? && init.op == Assign && init.l == c
      requires Top().stmts[|Top().stmts| - 1] == ExprStmt(init)
      modifies this
      ensures old(counter) <= counter && old(includes) <= includes
      ensures moduleMap == old(moduleMap) && uses == old(uses) && unit == old(unit) && fortran == old(fortran)
      ensures r.Ok? ==>
        |scopes| == |old(scopes)| && Below() == old(Below()) && Top().syms == old(Top()).syms &&
        old(Top()).stmts <= Top().stmts
      ensures r.Ok? ==>
        parts.init == init &&
        DoHead(n, old(Context()), ftypeOf(n.bound), |old(Top()).stmts| - 1, old(counter), Top().stmts, parts) &&
        parts.kb < counter && (n.step.Some? ==> parts.kd < counter && parts.ks < counter) &&
        r.value == (DoTest(n, parts), DoUpdate(n, parts))
    {
      var b;
      b, parts := XfDoBound(n, c, init);
      if !b.Ok? {
        r := Pass(b);
        return;
      }
      if n.step.None? {
        r := Ok((PlainTest(c, b.value), PlainUpdate(c)));
        return;
      }
      ghost var p, s2 := parts, Top().stmts;
      var sd;
      sd, parts := XfDoStep(n, c, b.value, parts);
      if !sd.Ok? {
        r := Pass(sd);
        return;
      }
      DoStartLater(n, old(Context()), ftypeOf(n.bound), |old(Top()).stmts| - 1, old(counter), s2, Top().stmts, p, parts);
      r := Ok((StepTest(c, b.value, sd.value.1), StepUpdate(c, sd.value.0)));
    }

    /** The copy of the bound after the start assignment `init` of the counter `c`; its
        name is handed back. */
    method XfDoBound(n: Node, c: Expr, ghost init: Expr) returns (r: Result<string>, ghost parts: DoParts)
      requires n.DoNode? && |scopes| > 0 && |Top().stmts| > 0
      requires c.Var? && init.Bin? && init.op == Assign && init.l == c
      requires Top().stmts[|Top().stmts| - 1] == ExprStmt(init)
      modifies this
      ensures old(counter) <= counter && old(includes) <= includes
      ensures moduleMap == old(moduleMap) && uses == old(uses) && unit == old(unit) && fortran == old(fortran)
      ensures |scopes| == |old(scopes)| && Below() == old(Below()) && Top().syms == old(Top()).syms
      ensures old(Top()).stmts <= Top().stmts && Context() == old(Context())
      ensures r.Ok? ==>
        parts.counter == c && parts.init == init && parts.bound == r.value &&
        parts.boundAt == |Top().stmts| - 1 && parts.kb < counter &&
        DoStart(n, old(Context()), ftypeOf(n.bound), |old(Top()).stmts| - 1, old(counter), Top().stmts, parts)
    {
      parts := DoParts(NullExpr, NullExpr, 0, "", 0, 0, State(), "", 0, 0, State(), "", 0);
      ghost var initAt := |Top().stmts| - 1;
      ghost var bst := old(State()).(counter := old(counter) + 1);
      r := Copy(BoundPrefix, ftypeOf(n.bound), n.bound);
      if !r.Ok? {
        return;
      }
      assert Top().stmts[initAt] == old(Top()).stmts[initAt];
      parts := DoParts(c, init, initAt, r.value, old(counter), |Top().stmts| - 1, bst, "", 0, 0, bst, "", 0);
      assert CopyXf(old(Context()), ftypeOf(n.bound), n.bound, r.value, bst).r == Ok(Top().stmts[parts.boundAt]);
    }

    /** The statements `xf_fortran_do` emits before the loop: the start assignment, then
        the copies; the loop's test and update are handed back. */
    method XfDoFront(n: Node) returns (r: Result<(Expr, Expr)>, ghost parts: DoParts)
      requires n.DoNode? && |scopes| > 0
      modifies this
      ensures old(counter) <= counter && old(includes) <= includes
      ensures moduleMap == old(moduleMap) && uses == old(uses) && unit == old(unit) && fortran == old(fortran)
      ensures r.Ok? ==> |scopes| == |old(scopes)| && Below() == old(Below()) && old(Top()).stmts <= Top().stmts
      ensures !(n.initExpr.Bin? && n.initExpr.op == Assign) ==>
        r == Fail(MsgDoInit) && scopes == old(scopes) && counter == old(counter)
      ensures r.Ok? ==>
        XfE(old(Context()), n.initExpr, old(State())).r == Ok(parts.init) &&
        DoHead(n, old(Context()), ftypeOf(n.bound), |old(Top()).stmts|, old(counter), Top().stmts, parts) &&
        parts.kb < counter && (n.step.Some? ==> parts.kd < counter && parts.ks < counter) &&
        r.value == (DoTest(n, parts), DoUpdate(n, parts))
    {
      parts := DoParts(NullExpr, NullExpr, 0, "", 0, 0, State(), "", 0, 0, State(), "", 0);
      ghost var init;
      var c;
      c, init := XfDoInit(n);
      if !c.Ok? {
        r := Pass(c);
        return;
      }
      r, parts := XfDoHead(n, c.value, init);
    }

    /** `xf_fortran_do`: the statements before the loop, then a `for` loop over the body
        in a scope of its own. */
    method XfDo(n: Node, proc: Option<ProcDecl>) returns (r: Result<()>, ghost parts: DoParts, ghost body: seq<Stmt>, ghost acted: seq<Node>)
      requires n.DoNode? && |scopes| > 0
      modifies this
      ensures old(counter) <= counter && old(includes) <= includes
      ensures unit == old(unit) && fortran == old(fortran)
      ensures old(uses) <= uses && forall k :: |old(uses)| <= k < |uses| ==> uses[k].0 == unit
      ensures old(moduleMap).Keys <= moduleMap.Keys
      ensures forall m :: m in moduleMap ==> (m in old(moduleMap) && moduleMap[m] == old(moduleMap)[m]) || moduleMap[m] == unit
      ensures r.Ok? ==> |scopes| == |old(scopes)| && Below() == old(Below()) && old(Top()).stmts <= Top().stmts
      ensures !(n.initExpr.Bin? && n.initExpr.op == Assign) ==>
        r == Fail(MsgDoInit) && scopes == old(scopes) && counter == old(counter)
      ensures r.Ok? ==>
        var ss := Top().stmts;
        |ss| > 0 &&
        XfE(old(Context()), n.initExpr, old(State())).r == Ok(parts.init) &&
        DoHead(n, old(Context()), ftypeOf(n.bound), |old(Top()).stmts|, old(counter), ss[..|ss| - 1], parts) &&
        parts.kb < counter && (n.step.Some? ==> parts.kd < counter && parts.ks < counter) &&
        ss[|ss| - 1] == For(DoTest(n, parts), DoUpdate(n, parts), body)
      ensures r.Ok? ==> ActedOf(XfDirective, NodeTrees(n.body)) == Walked(acted, true)
      decreases n, 1
    {
      body, acted := [], [];
      var h;
      h, parts := XfDoFront(n);
      if !h.Ok? {
        r := Pass(h);
        return;
      }
      ghost var before := Top().stmts;
      var b;
      b, acted := XfBlock(n.body, [], map[], None, proc);
      if !b.Ok? {
        r := Pass(b);
        return;
      }
      Append(For(h.value.0, h.value.1, b.value));
      body := b.value;
      assert Top().stmts[..|Top().stmts| - 1] == before;
      r := Ok(());
    }

    /** IF: the condition, then each branch in a scope of its own; without ELSE the
        false branch is a null statement. */
    method XfIf(n: Node, proc: Option<ProcDecl>) returns (r: Result<()>, ghost thenActed: seq<Node>, ghost elseActed: seq<Node>)
      requires n.IfNode? && |scopes| > 0
      modifies this
      ensures old(counter) <= counter && old(includes) <= includes
      ensures unit == old(unit) && fortran == old(fortran)
      ensures old(uses) <= uses && forall k :: |old(uses)| <= k < |uses| ==> uses[k].0 == unit
      ensures old(moduleMap).Keys <= moduleMap.Keys
      ensures forall m :: m in moduleMap ==> (m in old(moduleMap) && moduleMap[m] == old(moduleMap)[m]) || moduleMap[m] == unit
      ensures r.Ok? ==> |scopes| == |old(scopes)| && Below() == old(Below()) && old(Top()).stmts <= Top().stmts
      ensures r.Ok? ==>
        var o := XfE(old(Context()), n.cond, old(State()));
        var ss := Top().stmts;
        o.r.Ok? && |ss| > 0 && ss[..|ss| - 1] == o.st.temps &&
        ss[|ss| - 1].If? && ss[|ss| - 1].cond == o.r.value && ss[|ss| - 1].hasElse == n.hasElse &&
        (!n.hasElse ==> ss[|ss| - 1].elseBody == [])
      ensures r.Ok? ==>
        ActedOf(XfDirective, NodeTrees(n.thenBody)) == Walked(thenActed, true) &&
        (n.hasElse ==> ActedOf(XfDirective, NodeTrees(n.elseBody)) == Walked(elseActed, true)) &&
        (!n.hasElse ==> elseActed == [])
      decreases n, 1
    {
      thenActed, elseActed := [], [];
      var cond := Expr(n.cond);
      if !cond.Ok? {
        r := Pass(cond);
        return;
      }
      ghost var temps := Top().stmts;
      var tb;
      tb, thenActed := XfBlock(n.thenBody, [], map[], None, proc);
      if !tb.Ok? {
        r := Pass(tb);
        return;
      }
      var fb: seq<Stmt> := [];
      if n.hasElse {
        var eb;
        eb, elseActed := XfBlock(n.elseBody, [], map[], None, proc);
        if !eb.Ok? {
          r := Pass(eb);
          return;
        }
        fb := eb.value;
      }
      assert Top().stmts == temps;
      Append(If(cond.value, tb.value, fb, n.hasElse));
      r := Ok(());
    }

    /** `XfVisitor::preOrderVisit` on one node and, where it does not set `sync`, the
        nodes below it. */
    method XfTree(n: Node, args: Option<seq<string>>, proc: Option<ProcDecl>) returns (r: Result<()>, ghost acted: seq<Node>)
      requires |scopes| > 0
      modifies this
      ensures old(counter) <= counter && old(includes) <= includes
      ensures unit == old(unit) && fortran == old(fortran)
      ensures old(uses) <= uses && forall k :: |old(uses)| <= k < |uses| ==> uses[k].0 == unit
      ensures old(moduleMap).Keys <= moduleMap.Keys
      ensures forall m :: m in moduleMap ==> (m in old(moduleMap) && moduleMap[m] == old(moduleMap)[m]) || moduleMap[m] == unit
      ensures r.Ok? ==> |scopes| == |old(scopes)| && Below() == old(Below()) && old(Top()).stmts <= Top().stmts
      ensures r.Ok? ==> Acted(XfDirective, NodeTree(n)) == Walked(acted, true)
      ensures XfDirective(n) == Reject ==> r == Fail(MsgUnhandledNode) && scopes == old(scopes)
      decreases n, 3
    {
      ActedNode(n);
      match n {
        case Global(cs) =>
          assert Kids(n) == cs;
          r, acted := XfTrees(cs, args, proc);
        case ContainsNode(cs) =>
          assert Kids(n) == cs;
          r, acted := XfTrees(cs, args, proc);
        case ClassDefNode(cs) =>
          assert Kids(n) == cs;
          r, acted := XfTrees(cs, args, proc);
        case BlockNode(cs) =>
          assert Kids(n) == cs;
          r, acted := XfTrees(cs, args, proc);
        case ImplicitNode =>
          assert Kids(n) == [];
          r, acted := Ok(()), [];
        case Module(name, cs) =>
          assert Kids(n) == cs;
          moduleMap := moduleMap[name := unit];
          ghost var a;
          r, a := XfTrees(cs, args, proc);
          acted := [n] + a;
        case OtherNode(_, _) =>
          r, acted := Fail(MsgUnhandledNode), [];
        case _ =>
          r := XfStmt(n, args, proc);
          acted := [n];
      }
    }

    /** The statements `preOrderVisit` translates whole, setting `sync`. */
    method XfStmt(n: Node, args: Option<seq<string>>, proc: Option<ProcDecl>) returns (r: Result<()>)
      requires |scopes| > 0 && XfDirective(n) == Handle
      modifies this
      ensures old(counter) <= counter && old(includes) <= includes
      ensures unit == old(unit) && fortran == old(fortran)
      ensures old(uses) <= uses && forall k :: |old(uses)| <= k < |uses| ==> uses[k].0 == unit
      ensures old(moduleMap).Keys <= moduleMap.Keys
      ensures forall m :: m in moduleMap ==> (m in old(moduleMap) && moduleMap[m] == old(moduleMap)[m]) || moduleMap[m] == unit
      ensures r.Ok? ==> |scopes| == |old(scopes)| && Below() == old(Below()) && old(Top()).stmts <= Top().stmts
      decreases n, 2
    {
      match n {
        case Use(name) =>
          uses := uses + [(unit, name)];
          r := Ok(());
        case ProcNode(p) =>
          ghost var a;
          r, a := XfFnDecl(p);
        case VarDeclNode(_, vars) =>
          r := XfVarDecl(vars, args);
        case DoNode(_, _, _, _) =>
          ghost var parts, body;
          ghost var a;
          r, parts, body, a := XfDo(n, proc);
        case ReturnNode =>
          r := XfReturn(proc);
        case IfNode(_, _, _, _) =>
          ghost var a, b;
          r, a, b := XfIf(n, proc);
        case ExprStmtNode(_) =>
          r := XfIo(n);
        case PrintNode(_, _) =>
          r := XfIo(n);
        case OpenNode(_, _) =>
          r := XfIo(n);
        case CloseNode(_) =>
          r := XfIo(n);
        case ReadNode(_, _, _) =>
          r := XfIo(n);
      }
    }

    /** The expression and input/output statements. */
    method XfIo(n: Node) returns (r: Result<()>)
      requires |scopes| > 0 && (n.ExprStmtNode? || n.PrintNode? || n.OpenNode? || n.CloseNode? || n.ReadNode?)
      modifies this
      ensures old(counter) <= counter && old(includes) <= includes
      ensures moduleMap == old(moduleMap) && uses == old(uses) && unit == old(unit) && fortran == old(fortran)
      ensures |scopes| == |old(scopes)| && Below() == old(Below()) && old(Top()).stmts <= Top().stmts
    {
      match n {
        case ExprStmtNode(e) =>
          r := XfExprStmt(e);
        case PrintNode(star, items) =>
          r := XfPrint(star, items);
        case OpenNode(u, f) =>
          r := XfOpen(u, f);
        case CloseNode(u) =>
          r := XfClose(u);
        case ReadNode(u, star, items) =>
          r := XfRead(u, star, items);
      }
    }

    /** The traversal over a sequence of siblings, stopping at the first error. */
    method XfTrees(ns: seq<Node>, args: Option<seq<string>>, proc: Option<ProcDecl>) returns (r: Result<()>, ghost acted: seq<Node>)
      requires |scopes| > 0
      modifies this
      ensures old(counter) <= counter && old(includes) <= includes
      ensures unit == old(unit) && fortran == old(fortran)
      ensures old(uses) <= uses && forall k :: |old(uses)| <= k < |uses| ==> uses[k].0 == unit
      ensures old(moduleMap).Keys <= moduleMap.Keys
      ensures forall m :: m in moduleMap ==> (m in old(moduleMap) && moduleMap[m] == old(moduleMap)[m]) || moduleMap[m] == unit
      ensures r.Ok? ==> |scopes| == |old(scopes)| && Below() == old(Below()) && old(Top()).stmts <= Top().stmts
      ensures r.Ok? ==> ActedOf(XfDirective, NodeTrees(ns)) == Walked(acted, true)
      decreases ns, 0
    {
      acted := [];
      var i := 0;
      while i < |ns|
        invariant 0 <= i <= |ns|
        invariant old(counter) <= counter && old(includes) <= includes
        invariant unit == old(unit) && fortran == old(fortran)
        invariant old(uses) <= uses && forall k :: |old(uses)| <= k < |uses| ==> uses[k].0 == unit
        invariant old(moduleMap).Keys <= moduleMap.Keys
        invariant forall m :: m in moduleMap ==> (m in old(moduleMap) && moduleMap[m] == old(moduleMap)[m]) || moduleMap[m] == unit
        invariant |scopes| == |old(scopes)| && Below() == old(Below()) && old(Top()).stmts <= Top().stmts
        invariant ActedOf(XfDirective, NodeTrees(ns[..i])) == Walked(acted, true)
      {
        ghost var a;
        r, a := XfTree(ns[i], args, proc);
        if !r.Ok? {
          return;
        }
        ActedOfSnoc(XfDirective, NodeTrees(ns[..i]), NodeTree(ns[i]));
        NodeTreesSnoc(ns, i);
        acted := acted + a;
        i := i + 1;
      }
      assert ns[..i] == ns;
      r := Ok(());
    }

    /** `xf_file`: a file that is not Fortran is refused; the output name is the input's
        with the extension replaced by ".c" (without a '.' the `erase` throws); the tree
        is walked from its global scope into a fresh C global scope, then the headers
        gathered so far and "math.h" go into the file and the header set is cleared. An
        error leaves the headers gathered in place, to be inserted into the next file. */
    method XfFile(index: nat, root: Node, fileName: string, isFortran: bool) returns (r: Result<CFile>, ghost acted: seq<Node>)
      modifies this
      ensures !isFortran ==> r == Fail(MsgNotFortran)
      ensures isFortran && '.' !in fileName ==> r == Abort(OutOfRange)
      ensures !(isFortran && '.' in fileName) ==>
        counter == old(counter) && includes == old(includes) && moduleMap == old(moduleMap) && uses == old(uses)
      ensures isFortran && '.' in fileName ==> unit == UnitRef(index, ReplaceExt(fileName, ".c")) && fortran == root
      ensures old(counter) <= counter
      ensures old(uses) <= uses && forall k :: |old(uses)| <= k < |uses| ==> uses[k].0 == unit
      ensures old(moduleMap).Keys <= moduleMap.Keys
      ensures forall m :: m in moduleMap ==> (m in old(moduleMap) && moduleMap[m] == old(moduleMap)[m]) || moduleMap[m] == unit
      ensures r.Ok? ==>
        r.value.unit == unit && old(includes) + {"math.h"} <= r.value.includes && includes == {} &&
        Acted(XfDirective, NodeTree(root)) == Walked(acted, true)
      ensures !r.Ok? ==> old(includes) <= includes
    {
      acted := [];
      if !isFortran {
        r := Fail(MsgNotFortran);
        return;
      }
      if '.' !in fileName {
        r := Abort(OutOfRange);
        return;
      }
      unit := UnitRef(index, ReplaceExt(fileName, ".c"));
      fortran := root;
      scopes := [Scope([], map[])];
      var w;
      w, acted := XfTree(root, None, None);
      if !w.Ok? {
        r := Pass(w);
        return;
      }
      var file := CFile(unit, scopes[0].stmts, includes + {"math.h"});
      includes := {};
      r := Ok(file);
    }
  }
}
