/** Parameter intents (src/translator.cpp:53-162): `IntentVisitor` scans a procedure body
    in pre-order for declarations of the procedure's parameters and records each one's
    intent, stopping (`throw 0`) once it has recorded as many declarations as there are
    parameters; `xf_fn_decl_ordered_intents` then lists the intents in parameter order. */
module Intents {
  import opened Wrappers
  import opened Ast
  import opened Walk
  import opened Trees

  datatype Intent = In | Out | InOut | Default

  /** `intent(in)`, `intent(out)`, `intent(inout)` and no intent attribute. */
  function IntentOf(q: Qualifier): Intent
  {
    match q
    case IntentIn => In
    case IntentOut => Out
    case IntentInOut => InOut
    case Unqualified => Default
  }

  /** One declared variable as the visitor sees it. */
  datatype Entry = Entry(name: string, qual: Qualifier, isArray: bool)

  /** The intent recorded for a declared variable: arrays are coerced to `In`, since
      they are passed as pointers anyway. */
  function EntryIntent(e: Entry): (i: Intent)
    ensures e.isArray ==> i == In
    ensures !e.isArray ==> i == IntentOf(e.qual)
  {
    if e.isArray then In else IntentOf(e.qual)
  }

  function EntryOf(q: Qualifier, v: VarInit): Entry
  {
    Entry(v.name, q, v.ty.FArray?)
  }

  function DeclEntries(q: Qualifier, vars: seq<VarInit>): (es: seq<Entry>)
    ensures |es| == |vars|
  {
    seq(|vars|, i requires 0 <= i < |vars| => EntryOf(q, vars[i]))
  }

  /** A variable declaration's qualifier and variables. */
  datatype Decl = Decl(qual: Qualifier, vars: seq<VarInit>)

  /** The variable declarations of a tree, in the pre-order ROSE visits them. */
  function DeclsIn(t: Tree<Node>): seq<Decl>
    decreases t, 1
  {
    (match t.node
     case VarDeclNode(q, vars) => [Decl(q, vars)]
     case _ => [])
    + DeclsOf(t.kids)
  }

  function DeclsOf(ts: seq<Tree<Node>>): seq<Decl>
    decreases ts, 0
  {
    if ts == [] then [] else DeclsIn(ts[0]) + DeclsOf(ts[1..])
  }

  /** The declarations a traversal of a procedure body visits. */
  function BodyDecls(p: ProcDecl): seq<Decl>
  {
    DeclsOf(NodeTrees(p.body))
  }

  /** All declared variables of a list of declarations, in order. */
  function Flatten(ds: seq<Decl>): seq<Entry>
  {
    if ds == [] then []
    else Flatten(ds[..|ds| - 1]) + DeclEntries(ds[|ds| - 1].qual, ds[|ds| - 1].vars)
  }

  function ParamNames(ps: seq<FParam>): (ns: seq<string>)
    ensures |ns| == |ps|
  {
    seq(|ps|, i requires 0 <= i < |ps| => ps[i].name)
  }

  /** The visitor's state: the countdown, the intents recorded and whether it stopped. */
  datatype Scan = Scan(cnt: int, result: map<string, Intent>, stopped: bool)

  function Start(args: seq<string>): Scan
  {
    Scan(|args|, map[], false)
  }

  /** One declared variable: a parameter's is recorded and counted down. */
  function Step(args: seq<string>, s: Scan, e: Entry): Scan
  {
    if s.stopped || e.name !in args then s
    else Scan(s.cnt - 1, s.result[e.name := EntryIntent(e)], s.cnt - 1 == 0)
  }

  function Steps(args: seq<string>, s: Scan, es: seq<Entry>): Scan
  {
    if es == [] then s else Step(args, Steps(args, s, es[..|es| - 1]), es[|es| - 1])
  }

  /** What `xf_fn_decl_intents` returns for a procedure. */
  function ScanOf(p: ProcDecl): Scan
  {
    Steps(ParamNames(p.params), Start(ParamNames(p.params)), Flatten(BodyDecls(p)))
  }

  lemma {:induction false} StepsAppend(args: seq<string>, s: Scan, a: seq<Entry>, b: seq<Entry>)
    ensures Steps(args, s, a + b) == Steps(args, Steps(args, s, a), b)
    decreases |b|
  {
    if b == [] {
      assert a + b == a;
    } else {
      var b' := b[..|b| - 1];
      assert (a + b)[..|a + b| - 1] == a + b';
      StepsAppend(args, s, a, b');
    }
  }

  lemma {:induction false} StepsStopped(args: seq<string>, s: Scan, es: seq<Entry>)
    requires s.stopped
    ensures Steps(args, s, es) == s
    decreases |es|
  {
    if es != [] { StepsStopped(args, s, es[..|es| - 1]); }
  }

  /** The entries of the parameters, in the order the body declares them. */
  function Matching(args: seq<string>, es: seq<Entry>): (ms: seq<Entry>)
    ensures forall e :: e in ms ==> e in es && e.name in args
    ensures forall e :: e in es && e.name in args ==> e in ms
  {
    if es == [] then []
    else Matching(args, es[..|es| - 1]) + (if es[|es| - 1].name in args then [es[|es| - 1]] else [])
  }

  /** The map a sequence of assignments `m[name] = intent` leaves behind. */
  function Updates(m: map<string, Intent>, es: seq<Entry>): map<string, Intent>
  {
    if es == [] then m else Updates(m, es[..|es| - 1])[es[|es| - 1].name := EntryIntent(es[|es| - 1])]
  }

  /** The early exit loses nothing: when the countdown starts at least at the number of
      parameter declarations still to come, the scan records every one of them, as
      plain assignments in order would. */
  lemma {:induction false} EarlyExitIsSafe(args: seq<string>, s: Scan, es: seq<Entry>)
    requires !s.stopped && s.cnt >= |Matching(args, es)|
    ensures Steps(args, s, es).result == Updates(s.result, Matching(args, es))
    ensures Steps(args, s, es).stopped ==> s.cnt == |Matching(args, es)|
    ensures !Steps(args, s, es).stopped ==> Steps(args, s, es).cnt == s.cnt - |Matching(args, es)|
    decreases |es|
  {
    if es != [] {
      var es', e := es[..|es| - 1], es[|es| - 1];
      var ms' := Matching(args, es');
      var t := Steps(args, s, es');
      assert Steps(args, s, es) == Step(args, t, e);
      if e.name in args {
        var ms := ms' + [e];
        assert Matching(args, es) == ms;
        EarlyExitIsSafe(args, s, es');
        assert ms[..|ms| - 1] == ms' && ms[|ms| - 1] == e;
        assert Updates(s.result, ms) == Updates(s.result, ms')[e.name := EntryIntent(e)];
      } else {
        assert Matching(args, es) == ms';
        EarlyExitIsSafe(args, s, es');
      }
    }
  }

  /** The last intent a list of entries assigns to `name`. */
  function LastIntent(es: seq<Entry>, name: string): Option<Intent>
  {
    if es == [] then None
    else if es[|es| - 1].name == name then Some(EntryIntent(es[|es| - 1]))
    else LastIntent(es[..|es| - 1], name)
  }

  lemma {:induction false} UpdatesLookup(m: map<string, Intent>, es: seq<Entry>, name: string)
    ensures LastIntent(es, name).Some? ==> name in Updates(m, es) && Updates(m, es)[name] == LastIntent(es, name).value
    ensures LastIntent(es, name).None? ==> (name in Updates(m, es) <==> name in m)
    ensures LastIntent(es, name).None? && name in m ==> Updates(m, es)[name] == m[name]
    decreases |es|
  {
    if es != [] { UpdatesLookup(m, es[..|es| - 1], name); }
  }

  lemma {:induction false} LastIntentFound(es: seq<Entry>, name: string)
    requires exists e :: e in es && e.name == name
    ensures LastIntent(es, name).Some?
    decreases |es|
  {
    var e :| e in es && e.name == name;
    if es[|es| - 1].name != name {
      assert e in es[..|es| - 1] by {
        var k :| 0 <= k < |es| && es[k] == e;
        assert k < |es| - 1;
        assert es[..|es| - 1][k] == e;
      }
      LastIntentFound(es[..|es| - 1], name);
    }
  }

  lemma {:induction false} LastIntentMatching(args: seq<string>, es: seq<Entry>, name: string)
    requires name in args
    ensures LastIntent(Matching(args, es), name) == LastIntent(es, name)
    decreases |es|
  {
    if es != [] {
      var es' := es[..|es| - 1];
      var ms' := Matching(args, es');
      LastIntentMatching(args, es', name);
      if es[|es| - 1].name in args {
        assert (ms' + [es[|es| - 1]])[..|ms'|] == ms';
      } else {
        assert ms' + [] == ms';
      }
    }
  }

  /** The visitor of the source: the parameter names, the countdown `cnt`, the `result`
      map and whether the `throw 0` has ended the traversal. */
  class IntentVisitor {
    const arguments: seq<string>
    var cnt: int
    var result: map<string, Intent>
    var stopped: bool

    function State(): Scan
      reads this
    {
      Scan(cnt, result, stopped)
    }

    constructor (arguments: seq<string>)
      ensures this.arguments == arguments && State() == Start(arguments)
    {
      this.arguments := arguments;
      cnt := |arguments|;
      result := map[];
      stopped := false;
    }

    /** `visit` on a variable declaration: each declared parameter is recorded, and the
        visit stops at the declaration that brings the countdown to zero. */
    method VisitDecl(d: Decl)
      requires !stopped
      modifies this
      ensures State() == Steps(arguments, old(State()), DeclEntries(d.qual, d.vars))
    {
      ghost var s0 := State();
      var es := DeclEntries(d.qual, d.vars);
      var i := 0;
      while i < |d.vars|
        invariant 0 <= i <= |d.vars|
        invariant State() == Steps(arguments, s0, es[..i])
        invariant !stopped
      {
        assert es[..i + 1][..i] == es[..i];
        var v := d.vars[i];
        if v.name in arguments {
          result := result[v.name := if v.ty.FArray? then In else IntentOf(d.qual)];
          cnt := cnt - 1;
          if cnt == 0 {
            stopped := true;
            StepsAppend(arguments, s0, es[..i + 1], es[i + 1..]);
            assert es[..i + 1] + es[i + 1..] == es;
            StepsStopped(arguments, State(), es[i + 1..]);
            return;
          }
        }
        i := i + 1;
      }
      assert es[..i] == es;
    }
  }

  /** `xf_fn_decl_intents`: run the visitor over the body's declarations in pre-order
      until it stops. */
  method FnDeclIntents(p: ProcDecl) returns (m: map<string, Intent>)
    ensures m == ScanOf(p).result
  {
    var args := ParamNames(p.params);
    var v := new IntentVisitor(args);
    var ds := BodyDecls(p);
    var k := 0;
    while k < |ds| && !v.stopped
      invariant 0 <= k <= |ds|
      invariant v.arguments == args
      invariant v.State() == Steps(args, Start(args), Flatten(ds[..k]))
    {
      assert ds[..k + 1][..k] == ds[..k];
      v.VisitDecl(ds[k]);
      StepsAppend(args, Start(args), Flatten(ds[..k]), DeclEntries(ds[k].qual, ds[k].vars));
      k := k + 1;
    }
    FlattenAppend(ds[..k], ds[k..]);
    assert ds[..k] + ds[k..] == ds;
    StepsAppend(args, Start(args), Flatten(ds[..k]), Flatten(ds[k..]));
    if v.stopped {
      StepsStopped(args, v.State(), Flatten(ds[k..]));
    } else {
      assert ds[k..] == [];
    }
    m := v.result;
  }

  lemma {:induction false} FlattenAppend(a: seq<Decl>, b: seq<Decl>)
    ensures Flatten(a + b) == Flatten(a) + Flatten(b)
    decreases |b|
  {
    if b == [] {
      assert a + b == a;
    } else {
      var b' := b[..|b| - 1];
      assert (a + b)[..|a + b| - 1] == a + b';
      FlattenAppend(a, b');
    }
  }

  const AssertIntentFound := "intents.find(arg_name)!=intents.end()"

  /** `xf_fn_decl_ordered_intents`: the recorded intents in parameter order, or the
      assertion failure for the first parameter that has none. */
  function OrderedOf(p: ProcDecl): Result<seq<Intent>>
  {
    var m := ScanOf(p).result;
    if forall i :: 0 <= i < |p.params| ==> p.params[i].name in m then
      Ok(seq(|p.params|, i requires 0 <= i < |p.params| && p.params[i].name in m => m[p.params[i].name]))
    else Abort(AssertIntentFound)
  }

  /** The loop of `xf_fn_decl_ordered_intents` over the parameters. */
  method OrderedIntents(p: ProcDecl) returns (r: Result<seq<Intent>>)
    ensures r == OrderedOf(p)
    ensures var m := ScanOf(p).result;
      r.Ok? <==> forall i :: 0 <= i < |p.params| ==> p.params[i].name in m
    ensures var m := ScanOf(p).result;
      r.Ok? ==> (|r.value| == |p.params| &&
                 forall i :: 0 <= i < |p.params| ==> r.value[i] == m[p.params[i].name])
  {
    var m := FnDeclIntents(p);
    var ret: seq<Intent> := [];
    var i := 0;
    while i < |p.params|
      invariant 0 <= i <= |p.params|
      invariant |ret| == i
      invariant forall j :: 0 <= j < i ==> p.params[j].name in m && ret[j] == m[p.params[j].name]
    {
      var name := p.params[i].name;
      if name !in m {
        return Abort(AssertIntentFound);
      }
      ret := ret + [m[name]];
      i := i + 1;
    }
    assert ret == OrderedOf(p).value;
    return Ok(ret);
  }

  function EntryNames(es: seq<Entry>): (ns: seq<string>)
    ensures |ns| == |es| && forall i :: 0 <= i < |es| ==> ns[i] == es[i].name
  {
    seq(|es|, i requires 0 <= i < |es| => es[i].name)
  }

  /** A procedure whose body declares each parameter exactly once, in whatever order
      (the parameter declarations are a permutation of the parameter list): the scan
      records every parameter, with the intent of its declaration, so the ordered list
      has one entry per parameter, in parameter order, and the assertion holds. */
  lemma {:induction false} EveryDeclaredParamRecorded(p: ProcDecl)
    requires var args := ParamNames(p.params);
      multiset(EntryNames(Matching(args, Flatten(BodyDecls(p))))) == multiset(args)
    ensures forall i :: 0 <= i < |p.params| ==>
      var es := Flatten(BodyDecls(p));
      var name := p.params[i].name;
      LastIntent(es, name).Some? &&
      name in ScanOf(p).result && ScanOf(p).result[name] == LastIntent(es, name).value
  {
    var args := ParamNames(p.params);
    var es := Flatten(BodyDecls(p));
    var ms := Matching(args, es);
    assert |ms| == |args| by {
      assert |multiset(EntryNames(ms))| == |EntryNames(ms)|;
      assert |multiset(args)| == |args|;
    }
    EarlyExitIsSafe(args, Start(args), es);
    forall i | 0 <= i < |p.params|
      ensures LastIntent(es, p.params[i].name).Some? &&
        p.params[i].name in ScanOf(p).result &&
        ScanOf(p).result[p.params[i].name] == LastIntent(es, p.params[i].name).value
    {
      var name := p.params[i].name;
      assert args[i] == name;
      assert name in multiset(EntryNames(ms));
      var k :| 0 <= k < |ms| && EntryNames(ms)[k] == name;
      assert ms[k] in es;
      LastIntentFound(es, name);
      LastIntentMatching(args, es, name);
      UpdatesLookup(map[], ms, name);
    }
  }

  /** For such a procedure the ordered list exists and gives each parameter the intent
      of its declaration. */
  lemma WellDeclaredOrdered(p: ProcDecl)
    requires var args := ParamNames(p.params);
      multiset(EntryNames(Matching(args, Flatten(BodyDecls(p))))) == multiset(args)
    ensures OrderedOf(p).Ok? && |OrderedOf(p).value| == |p.params|
    ensures forall i :: 0 <= i < |p.params| ==>
      Some(OrderedOf(p).value[i]) == LastIntent(Flatten(BodyDecls(p)), p.params[i].name)
  {
    EveryDeclaredParamRecorded(p);
  }

  /** Every value the scan records is the intent of a declaration of that name. */
  lemma {:induction false} RecordedFromDecl(args: seq<string>, s: Scan, es: seq<Entry>, x: string)
    requires x in Steps(args, s, es).result
    ensures (x in s.result && Steps(args, s, es).result[x] == s.result[x]) ||
      exists e :: e in es && e.name == x && EntryIntent(e) == Steps(args, s, es).result[x]
    decreases |es|
  {
    if es != [] {
      var es' := es[..|es| - 1];
      var t := Steps(args, s, es');
      if x in t.result && Steps(args, s, es).result[x] == t.result[x] {
        RecordedFromDecl(args, s, es', x);
        if !(x in s.result && t.result[x] == s.result[x]) {
          var e :| e in es' && e.name == x && EntryIntent(e) == t.result[x];
          assert e in es;
        }
      } else {
        assert es[|es| - 1] in es;
      }
    }
  }

  /** An array parameter is recorded as `In`, whatever intent its declaration gives. */
  lemma ArrayParamIsIn(p: ProcDecl, x: string)
    requires forall e :: e in Flatten(BodyDecls(p)) && e.name == x ==> e.isArray
    requires x in ScanOf(p).result
    ensures ScanOf(p).result[x] == In
  {
    var args := ParamNames(p.params);
    RecordedFromDecl(args, Start(args), Flatten(BodyDecls(p)), x);
  }
}
