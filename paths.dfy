/**
 * Index paths into a forest. An item's path is the list of sibling indices leading to it from the
 * top level (the source's `thisLevel`, e.g. `[1, 2, 0]`); document order is depth-first pre-order.
 */
module TreePaths {
  import opened Wrappers
  import opened NavTree

  type Path = seq<nat>

  /** The child array reached by following `l` (the forest itself for the empty path). */
  function ChildrenAt(forest: seq<Node>, l: Path): Option<seq<Node>>
    decreases l
  {
    if l == [] then Some(forest)
    else if l[0] < |forest| && forest[l[0]].kids.Children? then ChildrenAt(forest[l[0]].kids.nodes, l[1..])
    else None
  }

  /** The node an index path names, if any. */
  function NodeAt(forest: seq<Node>, p: Path): Option<Node> {
    if p == [] then None
    else match ChildrenAt(forest, p[..|p| - 1])
      case Some(c) => if p[|p| - 1] < |c| then Some(c[p[|p| - 1]]) else None
      case None => None
  }

  /**
   * The paths of the nodes of `b` and all their descendants in depth-first pre-order, when `b`
   * sits under `l` and its first node has index `off` there.
   */
  function Preorder(b: seq<Node>, l: Path, off: nat): (r: seq<Path>)
    ensures forall i :: 0 <= i < |r| ==> |r[i]| > |l| && r[i][..|l|] == l && r[i][|l|] >= off
    decreases b
  {
    if b == [] then []
    else
      [l + [off]]
      + (if b[0].kids.Children? then Preorder(b[0].kids.nodes, l + [off], 0) else [])
      + Preorder(b[1..], l, off + 1)
  }

  /** The paths of every item of the forest, in document order. */
  function Items(forest: seq<Node>): seq<Path> {
    Preorder(forest, [], 0)
  }

  /** One step of `Preorder` over a suffix of a child array. */
  lemma PreorderUnfold(c: seq<Node>, l: Path, i: nat)
    requires i < |c|
    ensures Preorder(c[i..], l, i) ==
      [l + [i]]
      + (if c[i].kids.Children? then Preorder(c[i].kids.nodes, l + [i], 0) else [])
      + Preorder(c[i + 1..], l, i + 1)
  {
    assert c[i..][0] == c[i];
    assert c[i..][1..] == c[i + 1..];
  }

  lemma {:induction false} ChildrenAtExtend(forest: seq<Node>, l: Path, i: nat)
    requires ChildrenAt(forest, l).Some?
    requires i < |ChildrenAt(forest, l).value|
    ensures var n := ChildrenAt(forest, l).value[i];
      ChildrenAt(forest, l + [i]) == if n.kids.Children? then Some(n.kids.nodes) else None
    decreases l
  {
    if l != [] {
      assert (l + [i])[0] == l[0];
      assert (l + [i])[1..] == l[1..] + [i];
      ChildrenAtExtend(forest[l[0]].kids.nodes, l[1..], i);
    }
  }

  lemma NodeAtExtend(forest: seq<Node>, l: Path, i: nat)
    requires ChildrenAt(forest, l).Some?
    requires i < |ChildrenAt(forest, l).value|
    ensures NodeAt(forest, l + [i]) == Some(ChildrenAt(forest, l).value[i])
  {
    assert (l + [i])[..|l + [i]| - 1] == l;
  }

  /** The proper ancestors of `p`: every non-empty proper prefix. */
  function Ancestors(p: Path): (r: set<Path>)
    ensures forall q :: q in r <==> |q| > 0 && |q| < |p| && q == p[..|q|]
  {
    set k | 1 <= k < |p| :: p[..k]
  }

  /** The node has a child array with at least one entry (`Array.isArray(kids) && kids.length`). */
  predicate HasKids(n: Node) {
    n.kids.Children? && |n.kids.nodes| > 0
  }

  /** Every prefix of a path that `ChildrenAt` follows passes through a child array entry that has children. */
  lemma {:induction false} ChildrenAtPrefix(forest: seq<Node>, l: Path, k: nat)
    requires ChildrenAt(forest, l).Some?
    requires k < |l|
    ensures ChildrenAt(forest, l[..k]).Some?
    ensures l[k] < |ChildrenAt(forest, l[..k]).value|
    ensures ChildrenAt(forest, l[..k]).value[l[k]].kids.Children?
    decreases l
  {
    if k > 0 {
      var sub := forest[l[0]].kids.nodes;
      ChildrenAtPrefix(sub, l[1..], k - 1);
      assert l[..k][0] == l[0] && l[..k][1..] == l[1..][..k - 1];
    }
  }

  /** Pre-order lists every prefix of a listed path that is longer than the level it starts at. */
  lemma {:induction false} PreorderPrefix(b: seq<Node>, l: Path, off: nat, q: Path, k: nat)
    requires q in Preorder(b, l, off)
    requires |l| < k <= |q|
    ensures q[..k] in Preorder(b, l, off)
    decreases b
  {
    var head := l + [off];
    var kids := if b[0].kids.Children? then Preorder(b[0].kids.nodes, head, 0) else [];
    var rest := Preorder(b[1..], l, off + 1);
    assert Preorder(b, l, off) == [head] + kids + rest;
    if q == head {
      assert q[..k] == q;
    } else if q in kids {
      if k == |head| {
        assert q[..k] == head;
      } else {
        PreorderPrefix(b[0].kids.nodes, head, 0, q, k);
      }
    } else {
      assert q in rest;
      PreorderPrefix(b[1..], l, off + 1, q, k);
    }
  }

  /** The proper ancestors of an item are items. */
  lemma AncestorsAreItems(forest: seq<Node>, q: Path)
    requires q in Items(forest)
    ensures forall a :: a in Ancestors(q) ==> a in Items(forest)
  {
    forall a | a in Ancestors(q)
      ensures a in Items(forest)
    {
      PreorderPrefix(forest, [], 0, q, |a|);
    }
  }

  /** Every listed path names a node. */
  lemma {:induction false} PreorderNodes(forest: seq<Node>, l: Path, c: seq<Node>, off: nat, q: Path)
    requires ChildrenAt(forest, l) == Some(c)
    requires off <= |c|
    requires q in Preorder(c[off..], l, off)
    ensures NodeAt(forest, q).Some?
    decreases c, |c| - off
  {
    if off < |c| {
      var p := l + [off];
      var kids := if c[off].kids.Children? then Preorder(c[off].kids.nodes, p, 0) else [];
      PreorderUnfold(c, l, off);
      if q == p {
        NodeAtExtend(forest, l, off);
      } else if q in kids {
        ChildrenAtExtend(forest, l, off);
        assert c[off].kids.nodes[0..] == c[off].kids.nodes;
        PreorderNodes(forest, p, c[off].kids.nodes, 0, q);
      } else {
        PreorderNodes(forest, l, c, off + 1, q);
      }
    }
  }

  /** Every item names a node. */
  lemma ItemsAreNodes(forest: seq<Node>, q: Path)
    requires q in Items(forest)
    ensures NodeAt(forest, q).Some?
  {
    assert forest[0..] == forest;
    PreorderNodes(forest, [], forest, 0, q);
  }

  /** The node at a proper ancestor of a node has a non-empty child array. */
  lemma AncestorHasKids(forest: seq<Node>, q: Path, a: Path)
    requires NodeAt(forest, q).Some?
    requires a in Ancestors(q)
    ensures NodeAt(forest, a).Some? && HasKids(NodeAt(forest, a).value)
  {
    var k := |a|;
    var l := q[..|q| - 1];
    assert a == l[..k];
    ChildrenAtPrefix(forest, l, k - 1);
    assert a[..k - 1] == l[..k - 1];
    NodeAtExtend(forest, a[..k - 1], a[k - 1]);
    ChildrenAtExtend(forest, a[..k - 1], a[k - 1]);
    assert a[..k - 1] + [a[k - 1]] == a;
    if k < |l| {
      ChildrenAtPrefix(forest, l, k);
    } else {
      assert a == l;
    }
  }
}

