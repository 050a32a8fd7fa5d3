/** The subtree-skipping walk shared by `XfVisitor` (src/translator.cpp:881-898, 1210-1474) and
    `GenVisitor` (src/translator.cpp:1547-1639). ROSE calls `preOrderVisit` on entering
    each node and `postOrderVisit` on leaving it; once a visit stores a node in `sync`,
    every `preOrderVisit` is ignored until `postOrderVisit` is called with that same node.

    `Run` is that state machine over the stream of enter/leave events, `SyncVisitor` the
    object that runs it, and `Acted` the plain recursive reading of the same walk; the
    lemmas prove that the state machine and the recursion agree on every tree. */
module Walk {
  import opened Wrappers

  datatype Tree<L> = Tree(node: L, kids: seq<Tree<L>>)

  /** `Pre(t)`: the traversal enters `t`; `Post(t)`: it leaves `t`. */
  datatype Event<L> = Pre(t: Tree<L>) | Post(t: Tree<L>)

  /** What a `preOrderVisit` that is not skipping does with a node. */
  datatype Directive =
    | Descend   // on the ignore list: no action, children are visited
    | Visit     // act without setting `sync`: children are visited
    | Handle    // act and set `sync`: children are skipped
    | Prune     // set `sync` without acting: children are skipped
    | Reject    // throw: the traversal ends

  /** The nodes acted on, in order, and whether the walk ended without a throw. */
  datatype Walked<L> = Walked(acted: seq<L>, ok: bool)

  /** The events ROSE's pre/post-order traversal produces for a tree. */
  function Events<L>(t: Tree<L>): seq<Event<L>>
    decreases t
  {
    [Pre(t)] + EventsOf(t.kids) + [Post(t)]
  }

  function EventsOf<L>(ts: seq<Tree<L>>): seq<Event<L>>
    decreases ts
  {
    if ts == [] then [] else Events(ts[0]) + EventsOf(ts[1..])
  }

  function Size<L>(t: Tree<L>): nat
    decreases t
  {
    1 + SizeOf(t.kids)
  }

  function SizeOf<L>(ts: seq<Tree<L>>): nat
    decreases ts
  {
    if ts == [] then 0 else Size(ts[0]) + SizeOf(ts[1..])
  }

  /** One walk after another: the second runs only if the first did not throw. */
  function Then<L>(a: Walked<L>, b: Walked<L>): Walked<L>
  {
    if a.ok then Walked(a.acted + b.acted, b.ok) else a
  }

  /** The reference reading of the walk: act where the directive says so, descend into
      the children only of nodes that do not set `sync`. */
  function Acted<L>(dir: L -> Directive, t: Tree<L>): Walked<L>
    decreases t
  {
    match dir(t.node)
    case Descend => ActedOf(dir, t.kids)
    case Visit => Then(Walked([t.node], true), ActedOf(dir, t.kids))
    case Handle => Walked([t.node], true)
    case Prune => Walked([], true)
    case Reject => Walked([], false)
  }

  function ActedOf<L>(dir: L -> Directive, ts: seq<Tree<L>>): Walked<L>
    decreases ts
  {
    if ts == [] then Walked([], true) else Then(Acted(dir, ts[0]), ActedOf(dir, ts[1..]))
  }

  /** What `preOrderVisit` does to the state when it is not skipping. */
  function Enter<L>(dir: L -> Directive, t: Tree<L>): (Walked<L>, Option<Tree<L>>)
  {
    match dir(t.node)
    case Descend => (Walked([], true), None)
    case Visit => (Walked([t.node], true), None)
    case Handle => (Walked([t.node], true), Some(t))
    case Prune => (Walked([], true), Some(t))
    case Reject => (Walked([], false), None)
  }

  /** The `sync` state machine over an event stream, starting with `sync` as given. */
  function Run<L(==)>(dir: L -> Directive, evs: seq<Event<L>>, sync: Option<Tree<L>>): Walked<L>
    decreases |evs|
  {
    if evs == [] then Walked([], true)
    else
      match evs[0]
      case Pre(t) =>
        if sync.Some? then Run(dir, evs[1..], sync)
        else
          var (w, s) := Enter(dir, t);
          Then(w, Run(dir, evs[1..], s))
      case Post(t) => Run(dir, evs[1..], if sync == Some(t) then None else sync)
  }

  lemma ThenAssoc<L>(a: Walked<L>, b: Walked<L>, c: Walked<L>)
    ensures Then(Then(a, b), c) == Then(a, Then(b, c))
  {
  }

  lemma {:induction false} SizeOfFirst<L>(ts: seq<Tree<L>>)
    requires ts != []
    ensures Size(ts[0]) <= SizeOf(ts) && SizeOf(ts[1..]) < SizeOf(ts)
  {
  }

  /** While `sync` holds a larger tree, a whole subtree's events change nothing: its own
      `Post` cannot match `sync`, and neither can any of its descendants'. */
  lemma {:induction false} SkipTree<L>(dir: L -> Directive, u: Tree<L>, rest: seq<Event<L>>, s: Tree<L>)
    requires Size(u) < Size(s)
    ensures Run(dir, Events(u) + rest, Some(s)) == Run(dir, rest, Some(s))
    decreases u, 1
  {
    var evs := Events(u) + rest;
    assert evs == [Pre(u)] + (EventsOf(u.kids) + ([Post(u)] + rest));
    assert evs[1..] == EventsOf(u.kids) + ([Post(u)] + rest);
    SkipTrees(dir, u.kids, [Post(u)] + rest, s);
    assert u != s;
    assert ([Post(u)] + rest)[1..] == rest;
  }

  lemma {:induction false} SkipTrees<L>(dir: L -> Directive, us: seq<Tree<L>>, rest: seq<Event<L>>, s: Tree<L>)
    requires SizeOf(us) < Size(s)
    ensures Run(dir, EventsOf(us) + rest, Some(s)) == Run(dir, rest, Some(s))
    decreases us, 0
  {
    if us != [] {
      SizeOfFirst(us);
      assert EventsOf(us) + rest == Events(us[0]) + (EventsOf(us[1..]) + rest);
      SkipTree(dir, us[0], EventsOf(us[1..]) + rest, s);
      SkipTrees(dir, us[1..], rest, s);
    } else {
      assert EventsOf(us) + rest == rest;
    }
  }

  /** Walking a tree and then the rest of the stream is the reference walk of the tree
      followed by the walk of the rest. */
  lemma {:induction false} RunTree<L>(dir: L -> Directive, t: Tree<L>, rest: seq<Event<L>>)
    ensures Run(dir, Events(t) + rest, None) == Then(Acted(dir, t), Run(dir, rest, None))
    decreases t, 1
  {
    var evs := Events(t) + rest;
    var tail := [Post(t)] + rest;
    assert evs == [Pre(t)] + (EventsOf(t.kids) + tail);
    assert evs[1..] == EventsOf(t.kids) + tail;
    assert tail[1..] == rest;
    match dir(t.node)
    case Descend =>
      RunTrees(dir, t.kids, tail);
    case Visit =>
      RunTrees(dir, t.kids, tail);
      ThenAssoc(Walked([t.node], true), ActedOf(dir, t.kids), Run(dir, rest, None));
    case Handle =>
      SkipTrees(dir, t.kids, tail, t);
    case Prune =>
      SkipTrees(dir, t.kids, tail, t);
    case Reject =>
  }

  lemma {:induction false} RunTrees<L>(dir: L -> Directive, ts: seq<Tree<L>>, rest: seq<Event<L>>)
    ensures Run(dir, EventsOf(ts) + rest, None) == Then(ActedOf(dir, ts), Run(dir, rest, None))
    decreases ts, 0
  {
    if ts == [] {
      assert EventsOf(ts) + rest == rest;
    } else {
      assert EventsOf(ts) + rest == Events(ts[0]) + (EventsOf(ts[1..]) + rest);
      RunTree(dir, ts[0], EventsOf(ts[1..]) + rest);
      RunTrees(dir, ts[1..], rest);
      ThenAssoc(Acted(dir, ts[0]), ActedOf(dir, ts[1..]), Run(dir, rest, None));
    }
  }

  /** The `sync` state machine run over a whole traversal acts on exactly the nodes the
      reference walk acts on, in the same order, and throws exactly when it does. */
  lemma RunIsActed<L>(dir: L -> Directive, t: Tree<L>)
    ensures Run(dir, Events(t), None) == Acted(dir, t)
  {
    RunTree(dir, t, []);
    assert Events(t) + [] == Events(t);
  }

  lemma RunOfIsActedOf<L>(dir: L -> Directive, ts: seq<Tree<L>>)
    ensures Run(dir, EventsOf(ts), None) == ActedOf(dir, ts)
  {
    RunTrees(dir, ts, []);
    assert EventsOf(ts) + [] == EventsOf(ts);
  }

  /** The visitor object: `sync` as in the source, the nodes acted on so far, and whether
      a visit has thrown (which ends ROSE's traversal). */
  class SyncVisitor<L(==)> {
    const dir: L -> Directive
    var sync: Option<Tree<L>>
    var acted: seq<L>
    var failed: bool

    constructor (dir: L -> Directive)
      ensures this.dir == dir && sync == None && acted == [] && !failed
    {
      this.dir := dir;
      sync := None;
      acted := [];
      failed := false;
    }

    method PreOrderVisit(t: Tree<L>)
      requires !failed
      modifies this
      ensures old(sync).Some? ==> sync == old(sync) && acted == old(acted) && !failed
      ensures old(sync).None? ==>
        acted == old(acted) + Enter(dir, t).0.acted &&
        failed == !Enter(dir, t).0.ok &&
        sync == Enter(dir, t).1
    {
      if sync.Some? { return; }
      match dir(t.node)
      case Descend =>
      case Visit =>
        acted := acted + [t.node];
      case Handle =>
        acted := acted + [t.node];
        sync := Some(t);
      case Prune =>
        sync := Some(t);
      case Reject =>
        failed := true;
    }

    method PostOrderVisit(t: Tree<L>)
      modifies this
      ensures sync == (if old(sync) == Some(t) then None else old(sync))
      ensures acted == old(acted) && failed == old(failed)
    {
      if sync == Some(t) { sync := None; }
    }

    /** ROSE's `traverse`: the events of `t` in order, stopping at the first throw. */
    method Traverse(t: Tree<L>)
      requires sync == None && acted == [] && !failed
      modifies this
      ensures Walked(acted, !failed) == Acted(dir, t)
    {
      var evs := Events(t);
      var i := 0;
      while i < |evs| && !failed
        invariant 0 <= i <= |evs|
        invariant !failed ==> Then(Walked(acted, true), Run(dir, evs[i..], sync)) == Run(dir, evs, None)
        invariant failed ==> Walked(acted, false) == Run(dir, evs, None)
      {
        ghost var before := Walked(acted, true);
        ghost var s0 := sync;
        assert evs[i..][1..] == evs[i + 1..];
        match evs[i] {
          case Pre(u) =>
            PreOrderVisit(u);
            if s0.None? {
              ThenAssoc(before, Enter(dir, u).0, Run(dir, evs[i + 1..], sync));
            }
          case Post(u) =>
            PostOrderVisit(u);
        }
        i := i + 1;
      }
      if !failed {
        assert evs[i..] == [];
      }
      RunIsActed(dir, t);
    }
  }
}
