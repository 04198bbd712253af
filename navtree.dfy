/**
 * The navigation data shape and the resolution of a source tree.
 *
 * A node is the source's `[name, href, kids]` tuple. The third slot is `null` (a leaf), an array
 * of nodes, or a string naming a data chunk that still has to be loaded (`Deferred`).
 */
module NavTree {
  import opened Wrappers
  import Text

  datatype Kids = Leaf | Children(nodes: seq<Node>) | Deferred(chunk: string)
  datatype Node = Node(name: string, href: Option<string>, kids: Kids)

  /** No `Deferred` slot anywhere in the forest. */
  predicate Resolved(tree: seq<Node>)
    decreases tree
  {
    forall i :: 0 <= i < |tree| ==> NodeResolved(tree[i])
  }

  predicate NodeResolved(n: Node)
    decreases n
  {
    match n.kids
    case Leaf => true
    case Children(k) => Resolved(k)
    case Deferred(_) => false
  }

  /** `cloneTree`: rebuilds every tuple and every child array; the copy equals the original. */
  function CloneTree(tree: seq<Node>): (r: seq<Node>)
    ensures r == tree
    decreases tree
  {
    if tree == [] then []
    else
      var n := tree[0];
      var kids := match n.kids
        case Children(k) => Children(CloneTree(k))
        case other => other;
      [Node(n.name, n.href, kids)] + CloneTree(tree[1..])
  }

  /**
   * What the page offers the chunk loader: `loads` holds the chunk names whose script
   * `<name>.js` loads without error, and `globals` the global arrays those scripts define.
   */
  datatype ChunkEnv = ChunkEnv(loads: set<string>, globals: map<string, seq<Node>>)

  /**
   * The children a deferred slot `c` receives: `window[c]`, else `window[last segment of c]`,
   * else `[]`; and `[]` when the script fails to load.
   */
  function Fetch(env: ChunkEnv, c: string): (r: seq<Node>)
    ensures c !in env.loads ==> r == []
    ensures c in env.loads && c in env.globals ==> r == env.globals[c]
    ensures c in env.loads && c !in env.globals && Text.LastSegment(c) in env.globals ==>
              r == env.globals[Text.LastSegment(c)]
    ensures c in env.loads && c !in env.globals && Text.LastSegment(c) !in env.globals ==> r == []
    ensures r == [] || r in env.globals.Values
  {
    if c !in env.loads then []
    else if c in env.globals then env.globals[c]
    else if Text.LastSegment(c) in env.globals then env.globals[Text.LastSegment(c)]
    else []
  }

  /**
   * The forest `loadChildren` leaves behind. `fuel` bounds how many chunk loads may nest; a
   * chunk met with no fuel left is treated like one that failed to load.
   */
  function ResolveNodes(tree: seq<Node>, env: ChunkEnv, fuel: nat): (r: seq<Node>)
    ensures |r| == |tree|
    ensures Resolved(r)
    ensures forall i :: 0 <= i < |tree| ==> r[i] == ResolveNode(tree[i], env, fuel)
    decreases fuel, tree
  {
    if tree == [] then [] else [ResolveNode(tree[0], env, fuel)] + ResolveNodes(tree[1..], env, fuel)
  }

  function ResolveNode(n: Node, env: ChunkEnv, fuel: nat): (r: Node)
    ensures r.name == n.name && r.href == n.href
    ensures n.kids.Leaf? ==> r == n
    ensures !n.kids.Leaf? ==> r.kids.Children?
    ensures n.kids.Children? ==> |r.kids.nodes| == |n.kids.nodes|
    ensures n.kids.Children? ==> r.kids == Children(ResolveNodes(n.kids.nodes, env, fuel))
    ensures n.kids.Deferred? && fuel > 0 ==> r.kids == Children(ResolveNodes(Fetch(env, n.kids.chunk), env, fuel - 1))
    ensures n.kids.Deferred? && fuel == 0 ==> r.kids == Children([])
    ensures NodeResolved(r)
    decreases fuel, n
  {
    match n.kids
    case Leaf => n
    case Children(k) => Node(n.name, n.href, Children(ResolveNodes(k, env, fuel)))
    case Deferred(c) =>
      if fuel == 0 then Node(n.name, n.href, Children([]))
      else Node(n.name, n.href, Children(ResolveNodes(Fetch(env, c), env, fuel - 1)))
  }

  /** A forest without deferred slots is left exactly as it is. */
  lemma {:induction false} ResolveNodesIdentity(tree: seq<Node>, env: ChunkEnv, fuel: nat)
    requires Resolved(tree)
    ensures ResolveNodes(tree, env, fuel) == tree
    decreases tree
  {
    var r := ResolveNodes(tree, env, fuel);
    forall i | 0 <= i < |tree| ensures r[i] == tree[i] {
      var n := tree[i];
      assert NodeResolved(n);
      if n.kids.Children? { ResolveNodesIdentity(n.kids.nodes, env, fuel); }
    }
  }

  /**
   * When every chunk the page defines is already free of deferred slots, a deferred slot receives
   * exactly the array its chunk defines (or `[]` when the chunk fails to load or defines nothing).
   */
  lemma ResolvedChunkKept(n: Node, env: ChunkEnv, fuel: nat)
    requires n.kids.Deferred? && fuel > 0
    requires forall v :: v in env.globals.Values ==> Resolved(v)
    ensures ResolveNode(n, env, fuel) == Node(n.name, n.href, Children(Fetch(env, n.kids.chunk)))
  {
    var chunk := Fetch(env, n.kids.chunk);
    assert Resolved(chunk);
    ResolveNodesIdentity(chunk, env, fuel - 1);
  }

  /** Resolving twice gives what resolving once gives. */
  lemma ResolveIdempotent(tree: seq<Node>, env: ChunkEnv, fuel: nat)
    ensures ResolveNodes(ResolveNodes(tree, env, fuel), env, fuel) == ResolveNodes(tree, env, fuel)
  {
    ResolveNodesIdentity(ResolveNodes(tree, env, fuel), env, fuel);
  }

  /**
   * `loadChildren`: visits the siblings in order (the `forEach`), handing each to `LoadNode`; the
   * fan-out of `Promise.all` is taken one sibling after the other.
   */
  method LoadChildren(tree: seq<Node>, env: ChunkEnv, fuel: nat) returns (r: seq<Node>)
    ensures r == ResolveNodes(tree, env, fuel)
    decreases fuel, tree
  {
    r := [];
    var i := 0;
    while i < |tree|
      invariant 0 <= i <= |tree|
      invariant |r| == i
      invariant forall j :: 0 <= j < i ==> r[j] == ResolveNode(tree[j], env, fuel)
    {
      var node := LoadNode(tree[i], env, fuel);
      r := r + [node];
      i := i + 1;
    }
  }

  /**
   * One sibling: a deferred slot is overwritten with the loaded chunk (or `[]`), which is then
   * visited in turn; a child array is visited in place; a leaf is left alone.
   */
  method LoadNode(n: Node, env: ChunkEnv, fuel: nat) returns (m: Node)
    ensures m == ResolveNode(n, env, fuel)
    decreases fuel, n
  {
    match n.kids {
      case Leaf =>
        m := n;
      case Children(k) =>
        var loaded := LoadChildren(k, env, fuel);
        m := Node(n.name, n.href, Children(loaded));
        assert ResolveNode(n, env, fuel) == Node(n.name, n.href, Children(ResolveNodes(k, env, fuel)));
      case Deferred(c) =>
        if fuel == 0 {
          m := Node(n.name, n.href, Children([]));
        } else {
          var chunk := Fetch(env, c);
          var loaded := LoadChildren(chunk, env, fuel - 1);
          m := Node(n.name, n.href, Children(loaded));
          assert ResolveNode(n, env, fuel) == Node(n.name, n.href, Children(ResolveNodes(chunk, env, fuel - 1)));
        }
    }
  }

  /**
   * `genDefTree` once its wait has ended: `navtree` is `window.NAVTREE` as it then stands
   * (`None` when the global never appeared). The result is the resolved copy of `NAVTREE[0][2]`,
   * or `None` (the source's `null` after a time-out) when that slot is not an array.
   */
  function DefTree(navtree: Option<seq<Node>>, env: ChunkEnv, fuel: nat): (r: Option<seq<Node>>)
    ensures r.Some? <==> navtree.Some? && |navtree.value| > 0 && navtree.value[0].kids.Children?
    ensures r.Some? ==> Resolved(r.value) && |r.value| == |navtree.value[0].kids.nodes|
    ensures r.Some? ==> r.value == ResolveNodes(navtree.value[0].kids.nodes, env, fuel)
  {
    if navtree.Some? && |navtree.value| > 0 && navtree.value[0].kids.Children? then
      Some(ResolveNodes(CloneTree(navtree.value[0].kids.nodes), env, fuel))
    else None
  }

  method GenDefTree(navtree: Option<seq<Node>>, env: ChunkEnv, fuel: nat) returns (r: Option<seq<Node>>)
    ensures r == DefTree(navtree, env, fuel)
  {
    if navtree.Some? && |navtree.value| > 0 && navtree.value[0].kids.Children? {
      var copy := CloneTree(navtree.value[0].kids.nodes);
      var loaded := LoadChildren(copy, env, fuel);
      r := Some(loaded);
    } else {
      r := None;
    }
  }
}
