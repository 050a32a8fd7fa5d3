/** The two trees the walks run over, and what each visitor does with a node:
    `XfVisitor::preOrderVisit` (src/translator.cpp:1210-1470) over the Fortran tree and
    `GenVisitor::preOrderVisit` (src/translator.cpp:1562-1635) over the C tree. */
module Trees {
  import opened Ast
  import opened Walk

  /** A Fortran node with the nodes below it, in the order ROSE visits them. */
  function NodeTree(n: Node): (t: Tree<Node>)
    ensures t.node == n && |t.kids| == |Kids(n)|
    decreases n
  {
    var ks := Kids(n);
    Tree(n, seq(|ks|, i requires 0 <= i < |ks| => NodeTree(ks[i])))
  }

  function NodeTrees(ns: seq<Node>): (ts: seq<Tree<Node>>)
    ensures |ts| == |ns| && forall i :: 0 <= i < |ns| ==> ts[i] == NodeTree(ns[i])
  {
    seq(|ns|, i requires 0 <= i < |ns| => NodeTree(ns[i]))
  }

  /** A C statement with the statements below it. A function definition, a `for` and an
      `if` hold their bodies as basic blocks, as ROSE builds them. */
  function StmtTree(s: Stmt): Tree<Stmt>
    decreases s, 1
  {
    match s
    case FunDef(_, _, _, body) => Tree(s, [BlockTree(body)])
    case For(_, _, body) => Tree(s, [BlockTree(body)])
    case If(_, t, f, hasElse) => Tree(s, [BlockTree(t)] + (if hasElse then [BlockTree(f)] else []))
    case Block(body) => BlockTree(body)
    case GlobalScope(body) => Tree(s, StmtTrees(body))
    case _ => Tree(s, [])
  }

  function BlockTree(body: seq<Stmt>): Tree<Stmt>
    decreases body, 2
  {
    Tree(Block(body), StmtTrees(body))
  }

  function StmtTrees(body: seq<Stmt>): seq<Tree<Stmt>>
    decreases body, 0
  {
    seq(|body|, i requires 0 <= i < |body| => StmtTree(body[i]))
  }

  /** `XfVisitor`: the ignore list descends silently, a module statement is recorded
      without setting `sync`, each handled statement is translated as a whole and sets
      `sync`, and any other node throws. */
  function XfDirective(n: Node): Directive
  {
    match n
    case Global(_) => Descend
    case ContainsNode(_) => Descend
    case ClassDefNode(_) => Descend
    case ImplicitNode => Descend
    case BlockNode(_) => Descend
    case Module(_, _) => Visit
    case OtherNode(_, _) => Reject
    case _ => Handle
  }

  /** `GenVisitor`: basic blocks are skipped whole, variable and function declarations
      are re-declared and set `sync`, every other node is passed through silently. */
  function GenDirective(s: Stmt): Directive
  {
    match s
    case Block(_) => Prune
    case VarDecl(_, _, _, _) => Handle
    case ExternDecl(_, _) => Handle
    case FunDef(_, _, _, _) => Handle
    case FunProto(_, _, _) => Handle
    case _ => Descend
  }
}
