/** Header generation, `xf_gen_header` with its `GenVisitor`
    (src/translator.cpp:1537-1697): every variable and function declared at file scope of
    a translated C file is re-declared in a companion header, a variable as `extern` and
    a function as a prototype; nothing inside a block is looked at. */
module Header {
  import opened Wrappers
  import opened Ast
  import opened Walk
  import opened Trees
  import opened FileNames

  /** The declarations directly at file scope, in order: what the walk should act on. */
  function TopDecls(stmts: seq<Stmt>): (r: seq<Stmt>)
    ensures forall d :: d in r ==> d.VarDecl? || d.ExternDecl? || d.FunDef? || d.FunProto?
    decreases stmts, 0
  {
    if stmts == [] then [] else TopDecl(stmts[0]) + TopDecls(stmts[1..])
  }

  function TopDecl(s: Stmt): (r: seq<Stmt>)
    ensures forall d :: d in r ==> d.VarDecl? || d.ExternDecl? || d.FunDef? || d.FunProto?
    decreases s, 1
  {
    match s
    case VarDecl(_, _, _, _) => [s]
    case ExternDecl(_, _) => [s]
    case FunDef(_, _, _, _) => [s]
    case FunProto(_, _, _) => [s]
    case GlobalScope(body) => TopDecls(body)
    case _ => []
  }

  /** The header counterpart of a declaration: the same variable with no initializer,
      marked `extern`; the same function with no body. The types are reused as they are;
      the layout attribute of array parameters is not carried over. */
  function Redeclare(d: Stmt): (r: Stmt)
    requires d.VarDecl? || d.ExternDecl? || d.FunDef? || d.FunProto?
    ensures r.ExternDecl? || r.FunProto?
    ensures r.name == d.name
    ensures (d.VarDecl? || d.ExternDecl?) <==> r.ExternDecl?
    ensures r.ExternDecl? ==> r.ty == d.ty
    ensures r.FunProto? ==>
      r.ret == d.ret && |r.params| == |d.params| &&
      forall i :: 0 <= i < |r.params| ==> r.params[i].name == d.params[i].name && r.params[i].ty == d.params[i].ty
  {
    match d
    case VarDecl(n, t, _, _) => ExternDecl(n, t)
    case ExternDecl(n, t) => ExternDecl(n, t)
    case FunDef(n, ret, ps, _) => FunProto(n, ret, Unattributed(ps))
    case FunProto(n, ret, ps) => FunProto(n, ret, Unattributed(ps))
  }

  function Unattributed(ps: seq<Param>): (r: seq<Param>)
    ensures |r| == |ps| && forall i :: 0 <= i < |ps| ==> r[i] == Param(ps[i].name, ps[i].ty, None)
  {
    seq(|ps|, i requires 0 <= i < |ps| => Param(ps[i].name, ps[i].ty, None))
  }

  /** The `GenVisitor` walk over a file scope acts on exactly its top-level declarations:
      blocks are skipped whole and no declaration is looked into. */
  lemma {:induction false} GenActsOnTopDecls(stmts: seq<Stmt>)
    ensures ActedOf(GenDirective, StmtTrees(stmts)) == Walked(TopDecls(stmts), true)
    decreases stmts, 0
  {
    if stmts != [] {
      var ts := StmtTrees(stmts);
      assert ts[1..] == StmtTrees(stmts[1..]);
      GenActsOnTopDecl(stmts[0]);
      GenActsOnTopDecls(stmts[1..]);
    }
  }

  lemma {:induction false} GenActsOnTopDecl(s: Stmt)
    ensures Acted(GenDirective, StmtTree(s)) == Walked(TopDecl(s), true)
    decreases s, 1
  {
    match s
    case GlobalScope(body) =>
      GenActsOnTopDecls(body);
    case For(_, _, body) =>
      assert BlockTree(body).node == Block(body);
      SkipBlocks(StmtTree(s).kids);
    case If(_, t, f, hasElse) =>
      assert BlockTree(t).node == Block(t) && BlockTree(f).node == Block(f);
      SkipBlocks(StmtTree(s).kids);
    case FunDef(_, _, _, _) =>
    case Block(body) =>
    case _ =>
  }

  /** Bodies under a loop or a conditional are basic blocks, which the walk skips. */
  lemma {:induction false} SkipBlocks(ks: seq<Tree<Stmt>>)
    requires forall i :: 0 <= i < |ks| ==> ks[i].node.Block?
    ensures ActedOf(GenDirective, ks) == Walked([], true)
    decreases |ks|
  {
    if ks != [] {
      SkipBlocks(ks[1..]);
    }
  }

  /** `xf_gen_header`: walk the file scope with the sync visitor and re-declare what it
      acts on. The header is named after the C file with its extension replaced. */
  method GenHeader(outName: string, stmts: seq<Stmt>) returns (hname: string, decls: seq<Stmt>)
    requires '.' in outName
    ensures hname == ReplaceExt(outName, ".h")
    ensures |decls| == |TopDecls(stmts)|
    ensures forall i :: 0 <= i < |decls| ==> decls[i] == Redeclare(TopDecls(stmts)[i])
  {
    hname := ReplaceExt(outName, ".h");
    var visitor := new SyncVisitor<Stmt>(GenDirective);
    var t := StmtTree(GlobalScope(stmts));
    visitor.Traverse(t);
    GenActsOnTopDecls(stmts);
    var acted := visitor.acted;
    assert acted == TopDecls(stmts);
    decls := seq(|acted|, i requires 0 <= i < |acted| => Redeclare(acted[i]));
  }
}
