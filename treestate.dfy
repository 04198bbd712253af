/**
 * The state `buildTrees` keeps for a rendered tree, without the DOM: item ids, the open state each
 * item is seeded with, and the live set of ids whose state differs from the tree's default.
 * Items are named by their index paths; document order is the pre-order of `TreePaths.Items`.
 */
module TreeState {
  import opened Wrappers
  import opened NavTree
  import opened TreePaths
  import Text
  import Seqs
  import Storage

  /** The two trees `buildTrees` renders. */
  datatype Kind = Primary | Secondary

  /** The id prefix of each tree. */
  function Prefix(kind: Kind): string {
    if kind == Primary then "P:" else "S:"
  }

  /** A path slot that yields a link: a non-empty string. */
  predicate HasLink(href: Option<string>) {
    href.Some? && |href.value| > 0
  }

  /**
   * `fileBase`: for the primary tree the last `/` segment of the path with everything from its
   * first `.` on removed, for the secondary tree the path itself, and the text `null` without one.
   */
  function FileBase(kind: Kind, href: Option<string>): string {
    if !HasLink(href) then "null"
    else if kind == Primary then Text.StripExtension(Text.LastSegment(href.value))
    else href.value
  }

  /** The `dp-item-id` of the item at `p`: the prefix, the dotted index path, `.` and the base. */
  function ItemId(kind: Kind, p: Path, href: Option<string>): string {
    Prefix(kind) + Text.JoinPath(p) + "." + FileBase(kind, href)
  }

  /**
   * The id names its tree: it starts with `P:` exactly for the primary tree, which is how
   * `clickHandler` picks the configuration to record a toggle in.
   */
  lemma IdNamesTree(kind: Kind, p: Path, href: Option<string>)
    ensures "P:" <= ItemId(kind, p, href) <==> kind == Primary
  {
    var id := ItemId(kind, p, href);
    assert id[..2] == Prefix(kind);
    if kind == Secondary {
      assert id[0] == 'S';
    }
  }

  /** The link an item's anchor carries: `DOC_ROOT + path` (primary) or the path (secondary). */
  function LinkOf(kind: Kind, docRoot: string, href: Option<string>): (r: Option<string>)
    ensures r.Some? <==> HasLink(href)
    ensures r.Some? && kind == Secondary ==> r == href
    ensures r.Some? && kind == Primary ==> r.value == docRoot + href.value
  {
    if !HasLink(href) then None
    else if kind == Primary then Some(docRoot + href.value)
    else Some(href.value)
  }

  /** Primary items start closed, secondary items start open. */
  function DefaultOpen(kind: Kind): bool {
    kind == Secondary
  }

  /** `isOpen` at build time: the stored set names exactly the items whose state is not the default. */
  predicate SeededOpen(kind: Kind, prv: set<string>, id: string) {
    (id in prv) != DefaultOpen(kind)
  }

  /**
   * `cfg.setOpen(id, isOpen)`: the primary set holds open ids, the secondary set closed ids, so
   * afterwards `id` is in the set exactly when its state differs from the default.
   */
  function SetOpen(kind: Kind, live: set<string>, id: string, isOpen: bool): (r: set<string>)
    ensures id in r <==> isOpen != DefaultOpen(kind)
    ensures forall x :: x != id ==> (x in r <==> x in live)
  {
    if isOpen == (kind == Primary) then live + {id} else live - {id}
  }

  /** `setOpen(id, true)` for every id of `ids`, as the ancestor walk of `setCurrentTreeItem` does. */
  function OpenAll(kind: Kind, live: set<string>, ids: set<string>): (r: set<string>)
    ensures forall x :: x in ids ==> (x in r <==> !DefaultOpen(kind))
    ensures forall x :: x !in ids ==> (x in r <==> x in live)
  {
    if kind == Primary then live + ids else live - ids
  }

  // ---------------------------------------------------------------------------------------------
  // Items of a forest

  /** The item at `p` has a non-empty child array (`dp-has-children`). */
  predicate IsParent(forest: seq<Node>, p: Path) {
    NodeAt(forest, p).Some? && HasKids(NodeAt(forest, p).value)
  }

  /** The id of the item at `p`. */
  function IdAt(kind: Kind, forest: seq<Node>, p: Path): string {
    match NodeAt(forest, p)
    case Some(n) => ItemId(kind, p, n.href)
    case None => ""
  }

  /** The item at `p` exists and has a link. */
  predicate LinkedAt(forest: seq<Node>, p: Path) {
    NodeAt(forest, p).Some? && HasLink(NodeAt(forest, p).value.href)
  }

  /** The link of the item at `p`, if it has one. */
  function LinkAt(kind: Kind, docRoot: string, forest: seq<Node>, p: Path): (r: Option<string>)
    ensures r.Some? <==> LinkedAt(forest, p)
  {
    match NodeAt(forest, p)
    case Some(n) => LinkOf(kind, docRoot, n.href)
    case None => None
  }

  /** The parent items among `ps` that start open when `prv` is the stored set. */
  function OpenIn(kind: Kind, prv: set<string>, forest: seq<Node>, ps: seq<Path>): set<Path> {
    set p | p in ps && IsParent(forest, p) && SeededOpen(kind, prv, IdAt(kind, forest, p))
  }

  /** The ids the live set holds after seeding the parent items among `ps`. */
  function LiveIn(kind: Kind, prv: set<string>, forest: seq<Node>, ps: seq<Path>): set<string> {
    set p | p in ps && IsParent(forest, p) && IdAt(kind, forest, p) in prv :: IdAt(kind, forest, p)
  }

  /** The open items right after `build`: its parent items whose id is seeded open. */
  function OpenAtBuild(kind: Kind, forest: seq<Node>, prv: set<string>): set<Path> {
    OpenIn(kind, prv, forest, Items(forest))
  }

  /** The live set right after `build`: the stored ids that name one of its parent items. */
  function LiveAtBuild(kind: Kind, forest: seq<Node>, prv: set<string>): set<string> {
    LiveIn(kind, prv, forest, Items(forest))
  }

  lemma OpenInAppend3(kind: Kind, prv: set<string>, forest: seq<Node>, a: seq<Path>, b: seq<Path>, c: seq<Path>)
    ensures OpenIn(kind, prv, forest, a + b + c)
         == OpenIn(kind, prv, forest, a) + OpenIn(kind, prv, forest, b) + OpenIn(kind, prv, forest, c)
    ensures LiveIn(kind, prv, forest, a + b + c)
         == LiveIn(kind, prv, forest, a) + LiveIn(kind, prv, forest, b) + LiveIn(kind, prv, forest, c)
  {
    var all := a + b + c;
    assert forall p :: p in all <==> p in a || p in b || p in c;
  }

  // ---------------------------------------------------------------------------------------------
  // Seeding as `build` performs it, one branch at a time

  /** What seeding the nodes of `b` (under `l`, from index `off`) and their descendants opens. */
  function SeedOpen(kind: Kind, prv: set<string>, b: seq<Node>, l: Path, off: nat): set<Path>
    decreases b
  {
    if b == [] then {}
    else
      var p := l + [off];
      (if HasKids(b[0]) && SeededOpen(kind, prv, ItemId(kind, p, b[0].href)) then {p} else {})
      + (if HasKids(b[0]) then SeedOpen(kind, prv, b[0].kids.nodes, p, 0) else {})
      + SeedOpen(kind, prv, b[1..], l, off + 1)
  }

  /** What seeding the nodes of `b` and their descendants adds to the (cleared) live set. */
  function SeedLive(kind: Kind, prv: set<string>, b: seq<Node>, l: Path, off: nat): set<string>
    decreases b
  {
    if b == [] then {}
    else
      var id := ItemId(kind, l + [off], b[0].href);
      (if HasKids(b[0]) && id in prv then {id} else {})
      + (if HasKids(b[0]) then SeedLive(kind, prv, b[0].kids.nodes, l + [off], 0) else {})
      + SeedLive(kind, prv, b[1..], l, off + 1)
  }

  lemma SeedUnfold(kind: Kind, prv: set<string>, b: seq<Node>, l: Path, i: nat)
    requires i < |b|
    ensures var p := l + [i];
      SeedOpen(kind, prv, b[i..], l, i) ==
        (if HasKids(b[i]) && SeededOpen(kind, prv, ItemId(kind, p, b[i].href)) then {p} else {})
        + (if HasKids(b[i]) then SeedOpen(kind, prv, b[i].kids.nodes, p, 0) else {})
        + SeedOpen(kind, prv, b[i + 1..], l, i + 1)
    ensures var id := ItemId(kind, l + [i], b[i].href);
      SeedLive(kind, prv, b[i..], l, i) ==
        (if HasKids(b[i]) && id in prv then {id} else {})
        + (if HasKids(b[i]) then SeedLive(kind, prv, b[i].kids.nodes, l + [i], 0) else {})
        + SeedLive(kind, prv, b[i + 1..], l, i + 1)
  {
    assert b[i..][0] == b[i];
    assert b[i..][1..] == b[i + 1..];
  }

  /** The reference sets of the single item `l + [off]`. */
  lemma SeedHead(kind: Kind, prv: set<string>, forest: seq<Node>, l: Path, c: seq<Node>, off: nat)
    requires ChildrenAt(forest, l) == Some(c)
    requires off < |c|
    ensures var p := l + [off];
      OpenIn(kind, prv, forest, [p])
        == if HasKids(c[off]) && SeededOpen(kind, prv, ItemId(kind, p, c[off].href)) then {p} else {}
    ensures var id := ItemId(kind, l + [off], c[off].href);
      LiveIn(kind, prv, forest, [l + [off]]) == if HasKids(c[off]) && id in prv then {id} else {}
  {
    var p := l + [off];
    NodeAtExtend(forest, l, off);
    assert IsParent(forest, p) == HasKids(c[off]);
    assert IdAt(kind, forest, p) == ItemId(kind, p, c[off].href);
    assert forall q :: q in [p] <==> q == p;
  }

  /** Seeding a branch opens exactly the reference set of its items. */
  lemma {:induction false} SeedOpenMatch(kind: Kind, prv: set<string>, forest: seq<Node>, l: Path, c: seq<Node>, off: nat)
    requires ChildrenAt(forest, l) == Some(c)
    requires off <= |c|
    ensures SeedOpen(kind, prv, c[off..], l, off) == OpenIn(kind, prv, forest, Preorder(c[off..], l, off))
    decreases c, |c| - off
  {
    if off < |c| {
      var n := c[off];
      var p := l + [off];
      var kidsPre := if n.kids.Children? then Preorder(n.kids.nodes, p, 0) else [];
      PreorderUnfold(c, l, off);
      SeedUnfold(kind, prv, c, l, off);
      OpenInAppend3(kind, prv, forest, [p], kidsPre, Preorder(c[off + 1..], l, off + 1));
      SeedHead(kind, prv, forest, l, c, off);
      if n.kids.Children? {
        ChildrenAtExtend(forest, l, off);
        assert n.kids.nodes[0..] == n.kids.nodes;
        SeedOpenMatch(kind, prv, forest, p, n.kids.nodes, 0);
      }
      SeedOpenMatch(kind, prv, forest, l, c, off + 1);
    }
  }

  /** Seeding a branch records exactly the reference set of its ids. */
  lemma {:induction false} SeedLiveMatch(kind: Kind, prv: set<string>, forest: seq<Node>, l: Path, c: seq<Node>, off: nat)
    requires ChildrenAt(forest, l) == Some(c)
    requires off <= |c|
    ensures SeedLive(kind, prv, c[off..], l, off) == LiveIn(kind, prv, forest, Preorder(c[off..], l, off))
    decreases c, |c| - off
  {
    if off < |c| {
      var n := c[off];
      var p := l + [off];
      var kidsPre := if n.kids.Children? then Preorder(n.kids.nodes, p, 0) else [];
      PreorderUnfold(c, l, off);
      SeedUnfold(kind, prv, c, l, off);
      OpenInAppend3(kind, prv, forest, [p], kidsPre, Preorder(c[off + 1..], l, off + 1));
      SeedHead(kind, prv, forest, l, c, off);
      if n.kids.Children? {
        ChildrenAtExtend(forest, l, off);
        assert n.kids.nodes[0..] == n.kids.nodes;
        SeedLiveMatch(kind, prv, forest, p, n.kids.nodes, 0);
      }
      SeedLiveMatch(kind, prv, forest, l, c, off + 1);
    }
  }

  /** Seeding the whole forest gives the reference open and live sets. */
  lemma SeedForest(kind: Kind, prv: set<string>, forest: seq<Node>)
    ensures SeedOpen(kind, prv, forest, [], 0) == OpenAtBuild(kind, forest, prv)
    ensures SeedLive(kind, prv, forest, [], 0) == LiveAtBuild(kind, forest, prv)
  {
    assert forest[0..] == forest;
    SeedOpenMatch(kind, prv, forest, [], forest, 0);
    SeedLiveMatch(kind, prv, forest, [], forest, 0);
  }

  /** Within `build`, `setOpen(id, isOpen)` only ever adds a stored id to the cleared set. */
  lemma SeedSetOpen(kind: Kind, prv: set<string>, live: set<string>, id: string)
    requires live <= prv
    ensures SetOpen(kind, live, id, SeededOpen(kind, prv, id)) == if id in prv then live + {id} else live
  {
  }

  // ---------------------------------------------------------------------------------------------
  // The work stack of `build`

  /** A pending `{ branch, level }` entry of the stack. */
  datatype Frame = Frame(branch: seq<Node>, level: Path)

  /** The number of nodes in `b`, counting descendants. */
  function NodesSize(b: seq<Node>): nat
    decreases b
  {
    if b == [] then 0 else NodeSize(b[0]) + NodesSize(b[1..])
  }

  function NodeSize(n: Node): nat
    decreases n, 0
  {
    1 + if n.kids.Children? then NodesSize(n.kids.nodes) else 0
  }

  /** A bound on the work left in a stack: one per entry plus the nodes it still has to visit. */
  function StackWeight(stack: seq<Frame>): nat
    decreases |stack|
  {
    if stack == [] then 0
    else StackWeight(stack[..|stack| - 1]) + 1 + NodesSize(stack[|stack| - 1].branch)
  }

  /** The items the pending entries will open. */
  function StackOpen(kind: Kind, prv: set<string>, stack: seq<Frame>): set<Path>
    decreases |stack|
  {
    if stack == [] then {}
    else
      var f := stack[|stack| - 1];
      StackOpen(kind, prv, stack[..|stack| - 1]) + SeedOpen(kind, prv, f.branch, f.level, 0)
  }

  /** The ids the pending entries will record. */
  function StackLive(kind: Kind, prv: set<string>, stack: seq<Frame>): set<string>
    decreases |stack|
  {
    if stack == [] then {}
    else
      var f := stack[|stack| - 1];
      StackLive(kind, prv, stack[..|stack| - 1]) + SeedLive(kind, prv, f.branch, f.level, 0)
  }

  /** Pushing an entry onto the stack. */
  lemma StackPush(kind: Kind, prv: set<string>, stack: seq<Frame>, f: Frame)
    ensures StackOpen(kind, prv, stack + [f]) == StackOpen(kind, prv, stack) + SeedOpen(kind, prv, f.branch, f.level, 0)
    ensures StackLive(kind, prv, stack + [f]) == StackLive(kind, prv, stack) + SeedLive(kind, prv, f.branch, f.level, 0)
    ensures StackWeight(stack + [f]) == StackWeight(stack) + 1 + NodesSize(f.branch)
  {
    assert (stack + [f])[..|stack|] == stack;
  }

  lemma NodesSizeUnfold(b: seq<Node>, i: nat)
    requires i < |b|
    ensures NodesSize(b[i..]) == NodeSize(b[i]) + NodesSize(b[i + 1..])
  {
    assert b[i..][0] == b[i];
    assert b[i..][1..] == b[i + 1..];
  }

  /** One item of `build` keeps what is opened so far plus what is still to come unchanged. */
  lemma SeedItemOpen(kind: Kind, prv: set<string>, b: seq<Node>, l: Path, i: nat, open: set<Path>, stack: seq<Frame>)
    requires i < |b|
    ensures var p := l + [i];
      HasKids(b[i]) ==>
        (if SeededOpen(kind, prv, ItemId(kind, p, b[i].href)) then open + {p} else open)
        + SeedOpen(kind, prv, b[i + 1..], l, i + 1) + StackOpen(kind, prv, stack + [Frame(b[i].kids.nodes, p)])
        == open + SeedOpen(kind, prv, b[i..], l, i) + StackOpen(kind, prv, stack)
    ensures !HasKids(b[i]) ==> SeedOpen(kind, prv, b[i + 1..], l, i + 1) == SeedOpen(kind, prv, b[i..], l, i)
  {
    var p := l + [i];
    SeedUnfold(kind, prv, b, l, i);
    if HasKids(b[i]) {
      var f := Frame(b[i].kids.nodes, p);
      StackPush(kind, prv, stack, f);
      var x: set<Path> := if SeededOpen(kind, prv, ItemId(kind, p, b[i].href)) then {p} else {};
      Seqs.UnionShuffle(open, x, SeedOpen(kind, prv, f.branch, p, 0),
        SeedOpen(kind, prv, b[i + 1..], l, i + 1), StackOpen(kind, prv, stack));
    }
  }

  /** One item of `build` keeps what is recorded so far plus what is still to come unchanged. */
  lemma SeedItemLive(kind: Kind, prv: set<string>, b: seq<Node>, l: Path, i: nat, live: set<string>, stack: seq<Frame>)
    requires i < |b|
    requires live <= prv
    ensures var p := l + [i]; var id := ItemId(kind, p, b[i].href);
      HasKids(b[i]) ==>
        var live' := SetOpen(kind, live, id, SeededOpen(kind, prv, id));
        live' <= prv &&
        live' + SeedLive(kind, prv, b[i + 1..], l, i + 1) + StackLive(kind, prv, stack + [Frame(b[i].kids.nodes, p)])
        == live + SeedLive(kind, prv, b[i..], l, i) + StackLive(kind, prv, stack)
    ensures !HasKids(b[i]) ==> SeedLive(kind, prv, b[i + 1..], l, i + 1) == SeedLive(kind, prv, b[i..], l, i)
  {
    var p := l + [i];
    var id := ItemId(kind, p, b[i].href);
    SeedUnfold(kind, prv, b, l, i);
    if HasKids(b[i]) {
      var f := Frame(b[i].kids.nodes, p);
      StackPush(kind, prv, stack, f);
      SeedSetOpen(kind, prv, live, id);
      var x: set<string> := if id in prv then {id} else {};
      Seqs.UnionShuffle(live, x, SeedLive(kind, prv, f.branch, p, 0),
        SeedLive(kind, prv, b[i + 1..], l, i + 1), StackLive(kind, prv, stack));
    }
  }

  /** One item of `build` does not increase the work left. */
  lemma SeedItemWeight(b: seq<Node>, l: Path, i: nat, stack: seq<Frame>)
    requires i < |b|
    ensures HasKids(b[i]) ==>
      StackWeight(stack + [Frame(b[i].kids.nodes, l + [i])]) + NodesSize(b[i + 1..]) <= StackWeight(stack) + NodesSize(b[i..])
    ensures StackWeight(stack) + NodesSize(b[i + 1..]) <= StackWeight(stack) + NodesSize(b[i..])
  {
    NodesSizeUnfold(b, i);
    if HasKids(b[i]) {
      assert (stack + [Frame(b[i].kids.nodes, l + [i])])[..|stack|] == stack;
    }
  }

  // ---------------------------------------------------------------------------------------------
  // Visible items (`getVisibleSecTreeItems`)

  /** `walk(ul)` over the nodes of `b`: each item with a link, then the walk of its children if it is an open parent. */
  function VisibleFrom(open: set<Path>, b: seq<Node>, l: Path, off: nat): seq<Path>
    decreases b
  {
    if b == [] then []
    else
      var p := l + [off];
      (if HasLink(b[0].href) then [p] else [])
      + (if HasKids(b[0]) && p in open then VisibleFrom(open, b[0].kids.nodes, p, 0) else [])
      + VisibleFrom(open, b[1..], l, off + 1)
  }

  /** The visible items of the forest, in document order. */
  function Visible(forest: seq<Node>, open: set<Path>): seq<Path> {
    VisibleFrom(open, forest, [], 0)
  }

  lemma VisibleUnfold(open: set<Path>, b: seq<Node>, l: Path, i: nat)
    requires i < |b|
    ensures var p := l + [i];
      VisibleFrom(open, b[i..], l, i) ==
        (if HasLink(b[i].href) then [p] else [])
        + (if HasKids(b[i]) && p in open then VisibleFrom(open, b[i].kids.nodes, p, 0) else [])
        + VisibleFrom(open, b[i + 1..], l, i + 1)
  {
    assert b[i..][0] == b[i];
    assert b[i..][1..] == b[i + 1..];
  }

  /** The item at `q` has a link and every ancestor of it deeper than `l` is open. */
  predicate ShownBelow(forest: seq<Node>, open: set<Path>, l: Path, q: Path) {
    LinkedAt(forest, q) &&
    forall k :: |l| < k < |q| ==> q[..k] in open
  }

  /** The items of `qs` shown below `l`, in their order. */
  function ShownIn(forest: seq<Node>, open: set<Path>, l: Path, qs: seq<Path>): seq<Path> {
    if qs == [] then []
    else (if ShownBelow(forest, open, l, qs[0]) then [qs[0]] else []) + ShownIn(forest, open, l, qs[1..])
  }

  lemma {:induction false} ShownAppend(forest: seq<Node>, open: set<Path>, l: Path, a: seq<Path>, b: seq<Path>)
    ensures ShownIn(forest, open, l, a + b) == ShownIn(forest, open, l, a) + ShownIn(forest, open, l, b)
    decreases |a|
  {
    if a != [] {
      assert (a + b)[0] == a[0] && (a + b)[1..] == a[1..] + b;
      ShownAppend(forest, open, l, a[1..], b);
      Seqs.Append3(if ShownBelow(forest, open, l, a[0]) then [a[0]] else [],
        ShownIn(forest, open, l, a[1..]), ShownIn(forest, open, l, b));
    } else {
      assert a + b == b;
    }
  }

  /** Below an open item `p` one level under `l`, being shown below `l` and below `p` agree. */
  lemma {:induction false} ShownLift(forest: seq<Node>, open: set<Path>, l: Path, p: Path, qs: seq<Path>)
    requires |p| == |l| + 1
    requires forall i :: 0 <= i < |qs| ==> |qs[i]| > |p| && qs[i][..|p|] == p
    ensures p in open ==> ShownIn(forest, open, l, qs) == ShownIn(forest, open, p, qs)
    ensures p !in open ==> ShownIn(forest, open, l, qs) == []
    decreases |qs|
  {
    if qs != [] {
      var q := qs[0];
      assert q[..|p|] == p;
      assert p in open ==> (ShownBelow(forest, open, l, q) <==> ShownBelow(forest, open, p, q));
      ShownLift(forest, open, l, p, qs[1..]);
    }
  }

  /** The single item `l + [off]` is shown below `l` exactly when it has a link. */
  lemma ShownHead(forest: seq<Node>, open: set<Path>, l: Path, c: seq<Node>, off: nat)
    requires ChildrenAt(forest, l) == Some(c)
    requires off < |c|
    ensures ShownIn(forest, open, l, [l + [off]]) == if HasLink(c[off].href) then [l + [off]] else []
  {
    NodeAtExtend(forest, l, off);
    assert [l + [off]][1..] == [];
  }

  /** The walk visits, in document order, exactly the items with a link whose ancestors under `l` are open. */
  lemma {:induction false} VisibleMatch(forest: seq<Node>, open: set<Path>, l: Path, c: seq<Node>, off: nat)
    requires ChildrenAt(forest, l) == Some(c)
    requires off <= |c|
    ensures VisibleFrom(open, c[off..], l, off) == ShownIn(forest, open, l, Preorder(c[off..], l, off))
    decreases c, |c| - off
  {
    if off < |c| {
      var n := c[off];
      var p := l + [off];
      var kidsPre := if n.kids.Children? then Preorder(n.kids.nodes, p, 0) else [];
      var rest := Preorder(c[off + 1..], l, off + 1);
      PreorderUnfold(c, l, off);
      VisibleUnfold(open, c, l, off);
      ShownAppend(forest, open, l, [p] + kidsPre, rest);
      ShownAppend(forest, open, l, [p], kidsPre);
      ShownHead(forest, open, l, c, off);
      if n.kids.Children? {
        ChildrenAtExtend(forest, l, off);
        assert n.kids.nodes[0..] == n.kids.nodes;
        VisibleMatch(forest, open, p, n.kids.nodes, 0);
        ShownLift(forest, open, l, p, kidsPre);
      }
      VisibleMatch(forest, open, l, c, off + 1);
    }
  }

  /**
   * `getVisibleSecTreeItems` returns, in document order, exactly the items that have a link and
   * all of whose ancestors are open.
   */
  lemma VisibleIsShown(forest: seq<Node>, open: set<Path>)
    ensures Visible(forest, open) == ShownIn(forest, open, [], Items(forest))
  {
    assert forest[0..] == forest;
    VisibleMatch(forest, open, [], forest, 0);
  }

  /** Membership in a filtered list. */
  lemma {:induction false} ShownInMembers(forest: seq<Node>, open: set<Path>, l: Path, qs: seq<Path>)
    ensures forall q :: q in ShownIn(forest, open, l, qs) <==> q in qs && ShownBelow(forest, open, l, q)
    decreases |qs|
  {
    if qs != [] {
      ShownInMembers(forest, open, l, qs[1..]);
      assert qs == [qs[0]] + qs[1..];
    }
  }

  /** An item is visible exactly when it is an item with a link and all its ancestors are open. */
  lemma VisibleMembers(forest: seq<Node>, open: set<Path>, q: Path)
    ensures q in Visible(forest, open) <==> q in Items(forest) && LinkedAt(forest, q) && Ancestors(q) <= open
  {
    VisibleIsShown(forest, open);
    ShownInMembers(forest, open, [], Items(forest));
  }

  // ---------------------------------------------------------------------------------------------
  // The current item (`setCurrentTreeItem`)

  /** The first index from `i` on whose item's link is `target`. */
  function FirstLinked(kind: Kind, docRoot: string, forest: seq<Node>, items: seq<Path>, target: string, i: nat): (r: Option<nat>)
    ensures r.Some? ==> i <= r.value < |items| && LinkAt(kind, docRoot, forest, items[r.value]) == Some(target)
    ensures r.Some? ==> forall j :: i <= j < r.value ==> LinkAt(kind, docRoot, forest, items[j]) != Some(target)
    ensures r.None? ==> forall j :: i <= j < |items| ==> LinkAt(kind, docRoot, forest, items[j]) != Some(target)
    decreases |items| - i
  {
    if i >= |items| then None
    else if LinkAt(kind, docRoot, forest, items[i]) == Some(target) then Some(i)
    else FirstLinked(kind, docRoot, forest, items, target, i + 1)
  }

  /**
   * The item `setCurrentTreeItem` marks for `target` (the page URL without its hash for the
   * primary tree, the hash for the secondary one): none for an empty target, else the first item
   * in document order whose link is the target.
   */
  function CurrentFor(kind: Kind, docRoot: string, forest: seq<Node>, target: string): (r: Option<Path>)
    ensures r.Some? ==> target != "" && r.value in Items(forest) && LinkAt(kind, docRoot, forest, r.value) == Some(target)
    ensures r.None? && target != "" ==> forall q :: q in Items(forest) ==> LinkAt(kind, docRoot, forest, q) != Some(target)
  {
    if target == "" then None
    else match FirstLinked(kind, docRoot, forest, Items(forest), target, 0)
      case Some(i) => Some(Items(forest)[i])
      case None => None
  }

  /** The ids of the proper ancestors of `p`. */
  function AncestorIds(kind: Kind, forest: seq<Node>, p: Path): set<string> {
    set a | a in Ancestors(p) :: IdAt(kind, forest, a)
  }

  /** The ancestors of `p` longer than `k`: those the upward walk has reached when it is at length `k`. */
  function AncestorsAbove(p: Path, k: int): set<Path> {
    set j | 1 <= j < |p| && k < j :: p[..j]
  }

  /** Their ids. */
  function AncestorIdsAbove(kind: Kind, forest: seq<Node>, p: Path, k: int): set<string> {
    set a | a in AncestorsAbove(p, k) :: IdAt(kind, forest, a)
  }

  /** One step of the upward walk adds the ancestor of length `k`. */
  lemma AncestorsAboveStep(kind: Kind, forest: seq<Node>, p: Path, k: int)
    requires 1 <= k < |p|
    ensures AncestorsAbove(p, k - 1) == AncestorsAbove(p, k) + {p[..k]}
    ensures AncestorIdsAbove(kind, forest, p, k - 1) == AncestorIdsAbove(kind, forest, p, k) + {IdAt(kind, forest, p[..k])}
  {
    assert AncestorsAbove(p, k - 1) == AncestorsAbove(p, k) + {p[..k]};
  }

  /** The walk starts with nothing. */
  lemma AncestorsAboveStart(kind: Kind, forest: seq<Node>, p: Path)
    ensures AncestorsAbove(p, |p| - 1) == {} && AncestorIdsAbove(kind, forest, p, |p| - 1) == {}
  {
  }

  /** Opening one more id is `OpenAll` over one more id. */
  lemma OpenAllStep(kind: Kind, live: set<string>, ids: set<string>, id: string)
    ensures OpenAll(kind, live, ids + {id}) == SetOpen(kind, OpenAll(kind, live, ids), id, true)
  {
  }

  /** One step of `openAncestors`: opening the ancestor of length `k` extends the walk by it. */
  lemma OpenAncestorStep(kind: Kind, forest: seq<Node>, p: Path, k: int,
                         open0: set<Path>, live0: set<string>, open: set<Path>, live: set<string>)
    requires 1 <= k < |p|
    requires open == open0 + AncestorsAbove(p, k)
    requires live == OpenAll(kind, live0, AncestorIdsAbove(kind, forest, p, k))
    ensures open + {p[..k]} == open0 + AncestorsAbove(p, k - 1)
    ensures SetOpen(kind, live, IdAt(kind, forest, p[..k]), true) == OpenAll(kind, live0, AncestorIdsAbove(kind, forest, p, k - 1))
  {
    AncestorsAboveStep(kind, forest, p, k);
    OpenAllStep(kind, live0, AncestorIdsAbove(kind, forest, p, k), IdAt(kind, forest, p[..k]));
  }

  /** Where `openAncestors` stops, every ancestor has been reached. */
  lemma OpenAncestorsDone(kind: Kind, forest: seq<Node>, p: Path, k: int)
    requires -1 <= k <= 0
    ensures AncestorsAbove(p, k) == Ancestors(p) && AncestorIdsAbove(kind, forest, p, k) == AncestorIds(kind, forest, p)
  {
    assert AncestorsAbove(p, k) == Ancestors(p);
  }

  // ---------------------------------------------------------------------------------------------
  // Keyboard navigation (`keyHandler`)

  /** The keys the secondary tree reacts to; any other key is `OtherKey`. */
  datatype Key = ArrowDown | ArrowUp | ArrowRight | ArrowLeft | Home | End | OtherKey

  /** The parts of the tree state a key can change. */
  datatype View = View(open: set<Path>, live: set<string>, visited: set<Path>)

  /** A key's effect: the new view, whether the live set was saved, and where the page navigates. */
  datatype KeyResult = KeyResult(view: View, saved: bool, nav: Option<string>)

  /** `focusables.indexOf(current)`: the first position of `p`, or -1. */
  function IndexOf(vis: seq<Path>, p: Path): (r: int)
    ensures -1 <= r < |vis|
    ensures r == -1 <==> p !in vis
    ensures r >= 0 ==> vis[r] == p && forall j :: 0 <= j < r ==> vis[j] != p
  {
    if |vis| == 0 then -1
    else if vis[0] == p then 0
    else var k := IndexOf(vis[1..], p); if k == -1 then -1 else k + 1
  }

  /** A simulated click on the link of `p`: the item becomes visited and the page navigates to its link. */
  function ClickLinkOf(kind: Kind, docRoot: string, forest: seq<Node>, v: View, p: Path): KeyResult {
    var nav := LinkAt(kind, docRoot, forest, p);
    KeyResult(View(v.open, v.live, if nav.Some? then v.visited + {p} else v.visited), false, nav)
  }

  /** Closing the open item `p` and recording it in the live set. */
  function CloseItem(kind: Kind, forest: seq<Node>, v: View, p: Path): View {
    View(v.open - {p}, SetOpen(kind, v.live, IdAt(kind, forest, p), false), v.visited)
  }

  /** Opening the item `p` and recording it in the live set. */
  function OpenItem(kind: Kind, forest: seq<Node>, v: View, p: Path): View {
    View(v.open + {p}, SetOpen(kind, v.live, IdAt(kind, forest, p), true), v.visited)
  }

  /** What `keyHandler` does for `pressed`, given the current item. */
  function KeyStep(kind: Kind, docRoot: string, forest: seq<Node>, v: View, current: Option<Path>, pressed: Key): KeyResult {
    var vis := Visible(forest, v.open);
    var idx := if current.Some? then IndexOf(vis, current.value) else -1;
    if |vis| < 2 || idx == -1 then KeyResult(v, false, None)
    else KeyAt(kind, docRoot, forest, v, vis, idx, pressed)
  }

  /** The effect of `pressed` when the current item is `vis[idx]` among the focusable items `vis`. */
  function KeyAt(kind: Kind, docRoot: string, forest: seq<Node>, v: View, vis: seq<Path>, idx: nat, pressed: Key): KeyResult
    requires idx < |vis|
  {
    var none := KeyResult(v, false, None);
    var cur := vis[idx];
    match pressed
    case ArrowDown => if idx + 1 < |vis| then ClickLinkOf(kind, docRoot, forest, v, vis[idx + 1]) else none
    case ArrowUp => if idx >= 1 then ClickLinkOf(kind, docRoot, forest, v, vis[idx - 1]) else none
    case ArrowRight =>
      if IsParent(forest, cur) && cur !in v.open then KeyResult(OpenItem(kind, forest, v, cur), true, None) else none
    case ArrowLeft => LeftOf(kind, docRoot, forest, v, cur)
    case Home => ClickLinkOf(kind, docRoot, forest, v, vis[0])
    case End => ClickLinkOf(kind, docRoot, forest, v, vis[|vis| - 1])
    case OtherKey => none
  }

  /** `ArrowLeft` on `cur`: close it if it is an open parent, else close its open parent and go there. */
  function LeftOf(kind: Kind, docRoot: string, forest: seq<Node>, v: View, cur: Path): KeyResult {
    if IsParent(forest, cur) && cur in v.open then KeyResult(CloseItem(kind, forest, v, cur), true, None)
    else if |cur| > 1 && IsParent(forest, cur[..|cur| - 1]) && cur[..|cur| - 1] in v.open then
      var par := cur[..|cur| - 1];
      KeyResult(CloseItem(kind, forest, v, par), true, LinkAt(kind, docRoot, forest, par))
    else KeyResult(v, false, None)
  }

  // ---------------------------------------------------------------------------------------------
  // Consistency of the open items with the live set, and what survives a reload

  /**
   * Ids need not be distinct: in the secondary tree the base keeps its dots, so the item at `[1]`
   * linking to `2.x` and the item at `[1, 2]` linking to `x` both get `S:1.2.x`.
   */
  lemma IdCollision()
    ensures ItemId(Secondary, [1], Some("2.x")) == ItemId(Secondary, [1, 2], Some("x")) == "S:1.2.x"
  {
    assert Text.JoinPath([1, 2][1..]) == Text.NatToString(2);
  }

  /** Distinct parent items carry distinct ids (true when no two links share a base in one place). */
  predicate DistinctIds(kind: Kind, forest: seq<Node>) {
    forall p, q :: p in Items(forest) && q in Items(forest) && IsParent(forest, p) && IsParent(forest, q) && p != q
      ==> IdAt(kind, forest, p) != IdAt(kind, forest, q)
  }

  /**
   * The live set describes the open items: only parent items are open, and a parent item is open
   * exactly when its id's presence in the live set differs from the tree's default.
   */
  predicate Consistent(kind: Kind, forest: seq<Node>, open: set<Path>, live: set<string>) {
    (forall p :: p in open ==> p in Items(forest) && IsParent(forest, p)) &&
    (forall p :: p in Items(forest) && IsParent(forest, p) ==> (p in open <==> SeededOpen(kind, live, IdAt(kind, forest, p))))
  }

  /** `build` leaves the tree consistent with the live set it rebuilt, whatever the stored set held. */
  lemma BuildConsistent(kind: Kind, forest: seq<Node>, prv: set<string>)
    ensures Consistent(kind, forest, OpenAtBuild(kind, forest, prv), LiveAtBuild(kind, forest, prv))
  {
    var live := LiveAtBuild(kind, forest, prv);
    forall p | p in Items(forest) && IsParent(forest, p)
      ensures IdAt(kind, forest, p) in live <==> IdAt(kind, forest, p) in prv
    {
      if IdAt(kind, forest, p) in live {
        var q :| q in Items(forest) && IsParent(forest, q) && IdAt(kind, forest, q) in prv && IdAt(kind, forest, q) == IdAt(kind, forest, p);
      }
    }
  }

  /** `build` drops stored ids that name no parent item of the tree, and keeps all others. */
  lemma BuildKeepsOnlyParents(kind: Kind, forest: seq<Node>, prv: set<string>, x: string)
    ensures x in LiveAtBuild(kind, forest, prv) <==>
      x in prv && exists p :: p in Items(forest) && IsParent(forest, p) && IdAt(kind, forest, p) == x
  {
    if x in prv && exists p :: p in Items(forest) && IsParent(forest, p) && IdAt(kind, forest, p) == x {
      var p :| p in Items(forest) && IsParent(forest, p) && IdAt(kind, forest, p) == x;
      assert IdAt(kind, forest, p) in LiveAtBuild(kind, forest, prv);
    }
  }

  /**
   * The round trip through the store: saving a consistent live set and building the tree again
   * from it opens exactly the items that were open.
   */
  lemma ReloadRestores(kind: Kind, forest: seq<Node>, open: set<Path>, live: set<string>, store: Storage.Store, key: string)
    requires Consistent(kind, forest, open, live)
    ensures OpenAtBuild(kind, forest, Storage.LoadIds(Storage.Save(store, key, Some(Storage.SIds(live))), key)) == open
  {
    Storage.IdsRoundTrip(store, key, key, live);
  }

  /** The proper ancestors of an item are parent items. */
  lemma AncestorsAreParents(forest: seq<Node>, q: Path)
    requires q in Items(forest)
    ensures forall a :: a in Ancestors(q) ==> a in Items(forest) && IsParent(forest, a)
  {
    AncestorsAreItems(forest, q);
    ItemsAreNodes(forest, q);
    forall a | a in Ancestors(q)
      ensures IsParent(forest, a)
    {
      AncestorHasKids(forest, q, a);
    }
  }

  /** Opening or closing one parent item and recording it keeps the tree consistent. */
  lemma ToggleConsistent(kind: Kind, forest: seq<Node>, open: set<Path>, live: set<string>, p: Path, isOpen: bool)
    requires DistinctIds(kind, forest)
    requires Consistent(kind, forest, open, live)
    requires p in Items(forest) && IsParent(forest, p)
    ensures Consistent(kind, forest, if isOpen then open + {p} else open - {p}, SetOpen(kind, live, IdAt(kind, forest, p), isOpen))
  {
    var open1 := if isOpen then open + {p} else open - {p};
    var id := IdAt(kind, forest, p);
    var live1 := SetOpen(kind, live, id, isOpen);
    forall q | q in open1
      ensures q in Items(forest) && IsParent(forest, q)
    {
      assert q == p || q in open;
    }
    forall q | q in Items(forest) && IsParent(forest, q)
      ensures q in open1 <==> SeededOpen(kind, live1, IdAt(kind, forest, q))
    {
      if q == p {
        assert (id in live1) == (isOpen != DefaultOpen(kind));
      } else {
        assert IdAt(kind, forest, q) != id;
        assert (IdAt(kind, forest, q) in live1) == (IdAt(kind, forest, q) in live);
        assert (q in open1) == (q in open);
      }
    }
  }

  /** The ancestor walk of `setCurrentTreeItem` keeps the tree consistent. */
  lemma OpenAncestorsConsistent(kind: Kind, forest: seq<Node>, open: set<Path>, live: set<string>, q: Path)
    requires DistinctIds(kind, forest)
    requires Consistent(kind, forest, open, live)
    requires q in Items(forest)
    ensures Consistent(kind, forest, open + Ancestors(q), OpenAll(kind, live, AncestorIds(kind, forest, q)))
  {
    AncestorsAreParents(forest, q);
    var live1 := OpenAll(kind, live, AncestorIds(kind, forest, q));
    forall p | p in Items(forest) && IsParent(forest, p)
      ensures p in open + Ancestors(q) <==> SeededOpen(kind, live1, IdAt(kind, forest, p))
    {
      if p !in Ancestors(q) {
        assert IdAt(kind, forest, p) !in AncestorIds(kind, forest, q);
      }
    }
  }

  /** Marking the current item keeps the tree consistent. */
  lemma SetCurrentConsistent(kind: Kind, docRoot: string, forest: seq<Node>, open: set<Path>, live: set<string>, target: string)
    requires DistinctIds(kind, forest)
    requires Consistent(kind, forest, open, live)
    ensures var hit := CurrentFor(kind, docRoot, forest, target);
      hit.Some? ==> Consistent(kind, forest, open + Ancestors(hit.value), OpenAll(kind, live, AncestorIds(kind, forest, hit.value)))
  {
    var hit := CurrentFor(kind, docRoot, forest, target);
    if hit.Some? {
      OpenAncestorsConsistent(kind, forest, open, live, hit.value);
    }
  }

  /** Marking the current item makes it visible: it has a link and all its ancestors are open. */
  lemma SetCurrentShows(kind: Kind, docRoot: string, forest: seq<Node>, open: set<Path>, target: string)
    ensures var hit := CurrentFor(kind, docRoot, forest, target);
      hit.Some? ==> hit.value in Visible(forest, open + Ancestors(hit.value))
  {
    var hit := CurrentFor(kind, docRoot, forest, target);
    if hit.Some? {
      VisibleMembers(forest, open + Ancestors(hit.value), hit.value);
    }
  }

  /** One toggle of `clickHandler`. */
  function ToggleItem(kind: Kind, forest: seq<Node>, v: View, p: Path): View {
    if p in v.open then CloseItem(kind, forest, v, p) else OpenItem(kind, forest, v, p)
  }

  /**
   * Clicking an item's toggle twice restores its open state and the live set, when the live set
   * agrees with that item's state (as it does for every parent item of a consistent tree).
   */
  lemma ToggleTwice(kind: Kind, forest: seq<Node>, v: View, p: Path)
    requires p in v.open <==> SeededOpen(kind, v.live, IdAt(kind, forest, p))
    ensures ToggleItem(kind, forest, ToggleItem(kind, forest, v, p), p) == v
  {
    var id := IdAt(kind, forest, p);
    var w := ToggleItem(kind, forest, ToggleItem(kind, forest, v, p), p);
    assert w.open == v.open;
    assert w.live == v.live;
  }

  // ---------------------------------------------------------------------------------------------
  // What the keys do

  /** Opening more items never hides an item. */
  lemma {:induction false} ShownInGrows(forest: seq<Node>, open: set<Path>, open1: set<Path>, l: Path, qs: seq<Path>)
    requires open <= open1
    ensures |ShownIn(forest, open, l, qs)| <= |ShownIn(forest, open1, l, qs)|
    decreases |qs|
  {
    if qs != [] {
      ShownInGrows(forest, open, open1, l, qs[1..]);
    }
  }

  lemma VisibleGrows(forest: seq<Node>, open: set<Path>, open1: set<Path>)
    requires open <= open1
    ensures |Visible(forest, open)| <= |Visible(forest, open1)|
  {
    VisibleIsShown(forest, open);
    VisibleIsShown(forest, open1);
    ShownInGrows(forest, open, open1, [], Items(forest));
  }

  /** Following the link of a visible item always navigates and marks it visited. */
  lemma ClickVisible(kind: Kind, docRoot: string, forest: seq<Node>, v: View, i: nat)
    requires i < |Visible(forest, v.open)|
    ensures var q := Visible(forest, v.open)[i];
      ClickLinkOf(kind, docRoot, forest, v, q)
        == KeyResult(View(v.open, v.live, v.visited + {q}), false, LinkAt(kind, docRoot, forest, q)) &&
      LinkAt(kind, docRoot, forest, q).Some?
  {
    VisibleMembers(forest, v.open, Visible(forest, v.open)[i]);
  }

  /** The position of the current item among the visible ones, or -1. */
  function CurrentIndex(forest: seq<Node>, open: set<Path>, current: Option<Path>): int {
    if current.Some? then IndexOf(Visible(forest, open), current.value) else -1
  }

  /**
   * `ArrowDown` follows the next visible item's link when the current item is visible, there are
   * at least two visible items and it is not the last; otherwise nothing changes.
   */
  lemma KeyDown(kind: Kind, docRoot: string, forest: seq<Node>, v: View, current: Option<Path>)
    ensures var vis := Visible(forest, v.open);
      var idx := CurrentIndex(forest, v.open, current);
      var r := KeyStep(kind, docRoot, forest, v, current, ArrowDown);
      !r.saved &&
      (r.nav.Some? <==> |vis| >= 2 && 0 <= idx && idx + 1 < |vis|) &&
      (r.nav.Some? ==> r.nav == LinkAt(kind, docRoot, forest, vis[idx + 1]) &&
                       r.view == View(v.open, v.live, v.visited + {vis[idx + 1]})) &&
      (r.nav.None? ==> r.view == v)
  {
    var vis := Visible(forest, v.open);
    var idx := CurrentIndex(forest, v.open, current);
    if |vis| >= 2 && 0 <= idx && idx + 1 < |vis| {
      ClickVisible(kind, docRoot, forest, v, idx + 1);
    }
  }

  /**
   * `ArrowUp` follows the previous visible item's link when the current item is visible, there are
   * at least two visible items and it is not the first; otherwise nothing changes.
   */
  lemma KeyUp(kind: Kind, docRoot: string, forest: seq<Node>, v: View, current: Option<Path>)
    ensures var vis := Visible(forest, v.open);
      var idx := CurrentIndex(forest, v.open, current);
      var r := KeyStep(kind, docRoot, forest, v, current, ArrowUp);
      !r.saved &&
      (r.nav.Some? <==> |vis| >= 2 && 1 <= idx) &&
      (r.nav.Some? ==> r.nav == LinkAt(kind, docRoot, forest, vis[idx - 1]) &&
                       r.view == View(v.open, v.live, v.visited + {vis[idx - 1]})) &&
      (r.nav.None? ==> r.view == v)
  {
    var vis := Visible(forest, v.open);
    var idx := CurrentIndex(forest, v.open, current);
    if |vis| >= 2 && 1 <= idx {
      ClickVisible(kind, docRoot, forest, v, idx - 1);
    }
  }

  /** `Home` and `End` follow the first and the last visible item's link, under the same guard. */
  lemma KeyHomeEnd(kind: Kind, docRoot: string, forest: seq<Node>, v: View, current: Option<Path>)
    ensures var vis := Visible(forest, v.open);
      var idx := CurrentIndex(forest, v.open, current);
      var home := KeyStep(kind, docRoot, forest, v, current, Home);
      var end := KeyStep(kind, docRoot, forest, v, current, End);
      !home.saved && !end.saved &&
      (home.nav.Some? <==> |vis| >= 2 && 0 <= idx) && (end.nav.Some? <==> |vis| >= 2 && 0 <= idx) &&
      (home.nav.Some? ==> home.nav == LinkAt(kind, docRoot, forest, vis[0]) &&
                          home.view == View(v.open, v.live, v.visited + {vis[0]})) &&
      (end.nav.Some? ==> end.nav == LinkAt(kind, docRoot, forest, vis[|vis| - 1]) &&
                         end.view == View(v.open, v.live, v.visited + {vis[|vis| - 1]})) &&
      (home.nav.None? ==> home.view == v) && (end.nav.None? ==> end.view == v)
  {
    var vis := Visible(forest, v.open);
    var idx := CurrentIndex(forest, v.open, current);
    if |vis| >= 2 && 0 <= idx {
      ClickVisible(kind, docRoot, forest, v, 0);
      ClickVisible(kind, docRoot, forest, v, |vis| - 1);
    }
  }

  /** `ArrowLeft` on an item keeps the tree consistent. */
  lemma LeftConsistent(kind: Kind, docRoot: string, forest: seq<Node>, v: View, cur: Path)
    requires DistinctIds(kind, forest)
    requires Consistent(kind, forest, v.open, v.live)
    requires cur in Items(forest)
    ensures var r := LeftOf(kind, docRoot, forest, v, cur);
      Consistent(kind, forest, r.view.open, r.view.live)
  {
    if IsParent(forest, cur) && cur in v.open {
      ToggleConsistent(kind, forest, v.open, v.live, cur, false);
    } else if |cur| > 1 && IsParent(forest, cur[..|cur| - 1]) && cur[..|cur| - 1] in v.open {
      AncestorsAreParents(forest, cur);
      assert cur[..|cur| - 1] in Ancestors(cur);
      ToggleConsistent(kind, forest, v.open, v.live, cur[..|cur| - 1], false);
    }
  }

  /** Any key on an item keeps the tree consistent. */
  lemma KeyAtConsistent(kind: Kind, docRoot: string, forest: seq<Node>, v: View, vis: seq<Path>, idx: nat, pressed: Key)
    requires DistinctIds(kind, forest)
    requires Consistent(kind, forest, v.open, v.live)
    requires idx < |vis| && vis[idx] in Items(forest)
    ensures var r := KeyAt(kind, docRoot, forest, v, vis, idx, pressed);
      Consistent(kind, forest, r.view.open, r.view.live)
  {
    var cur := vis[idx];
    match pressed {
      case ArrowRight =>
        if IsParent(forest, cur) && cur !in v.open {
          ToggleConsistent(kind, forest, v.open, v.live, cur, true);
        }
      case ArrowLeft =>
        LeftConsistent(kind, docRoot, forest, v, cur);
      case _ =>
    }
  }

  /** Every key keeps the tree consistent. */
  lemma KeyConsistent(kind: Kind, docRoot: string, forest: seq<Node>, v: View, current: Option<Path>, pressed: Key)
    requires DistinctIds(kind, forest)
    requires Consistent(kind, forest, v.open, v.live)
    ensures var r := KeyStep(kind, docRoot, forest, v, current, pressed);
      Consistent(kind, forest, r.view.open, r.view.live)
  {
    var vis := Visible(forest, v.open);
    var idx := CurrentIndex(forest, v.open, current);
    if |vis| >= 2 && idx != -1 {
      VisibleMembers(forest, v.open, vis[idx]);
      KeyAtConsistent(kind, docRoot, forest, v, vis, idx, pressed);
    }
  }

  /** `ArrowLeft` right after the current item was opened closes it again. */
  lemma LeftAfterRight(kind: Kind, docRoot: string, forest: seq<Node>, v: View, cur: Path)
    requires !SeededOpen(kind, v.live, IdAt(kind, forest, cur))
    requires IsParent(forest, cur) && cur !in v.open
    ensures LeftOf(kind, docRoot, forest, OpenItem(kind, forest, v, cur), cur) == KeyResult(v, true, None)
  {
    ToggleTwice(kind, forest, v, cur);
  }

  /** `ArrowRight` saves only when it opened a closed, visible parent item that is current. */
  lemma RightShape(kind: Kind, docRoot: string, forest: seq<Node>, v: View, current: Option<Path>)
    ensures var r := KeyStep(kind, docRoot, forest, v, current, ArrowRight);
      r.saved ==> (current.Some? && current.value in Visible(forest, v.open) && |Visible(forest, v.open)| >= 2 &&
                   IsParent(forest, current.value) && current.value !in v.open &&
                   r == KeyResult(OpenItem(kind, forest, v, current.value), true, None))
  {
  }

  /** With the current item among at least two visible ones, a key acts on it. */
  lemma KeyOnCurrent(kind: Kind, docRoot: string, forest: seq<Node>, v: View, cur: Path, pressed: Key)
    requires cur in Visible(forest, v.open) && |Visible(forest, v.open)| >= 2
    ensures var vis := Visible(forest, v.open);
      KeyStep(kind, docRoot, forest, v, Some(cur), pressed) == KeyAt(kind, docRoot, forest, v, vis, IndexOf(vis, cur), pressed)
  {
  }

  /** `ArrowLeft` on a visible item that was just opened closes it again. */
  lemma LeftAfterOpen(kind: Kind, docRoot: string, forest: seq<Node>, v: View, cur: Path)
    requires !SeededOpen(kind, v.live, IdAt(kind, forest, cur))
    requires cur in Visible(forest, v.open) && |Visible(forest, v.open)| >= 2
    requires IsParent(forest, cur) && cur !in v.open
    ensures KeyStep(kind, docRoot, forest, OpenItem(kind, forest, v, cur), Some(cur), ArrowLeft) == KeyResult(v, true, None)
  {
    var v1 := OpenItem(kind, forest, v, cur);
    StillVisible(forest, v.open, cur);
    KeyOnCurrent(kind, docRoot, forest, v1, cur, ArrowLeft);
    LeftAfterRight(kind, docRoot, forest, v, cur);
  }

  /** A visible item stays visible when one more item opens, and no visible item disappears. */
  lemma StillVisible(forest: seq<Node>, open: set<Path>, p: Path)
    requires p in Visible(forest, open)
    ensures p in Visible(forest, open + {p}) && |Visible(forest, open)| <= |Visible(forest, open + {p})|
  {
    VisibleMembers(forest, open, p);
    VisibleMembers(forest, open + {p}, p);
    VisibleGrows(forest, open, open + {p});
  }

  /** `ArrowRight` that opened the current item, followed by `ArrowLeft`, restores the view. */
  lemma RightThenLeft(kind: Kind, docRoot: string, forest: seq<Node>, v: View, current: Option<Path>)
    requires Consistent(kind, forest, v.open, v.live)
    ensures var r := KeyStep(kind, docRoot, forest, v, current, ArrowRight);
      r.saved ==> KeyStep(kind, docRoot, forest, r.view, current, ArrowLeft) == KeyResult(v, true, None)
  {
    RightShape(kind, docRoot, forest, v, current);
    if KeyStep(kind, docRoot, forest, v, current, ArrowRight).saved {
      VisibleMembers(forest, v.open, current.value);
      LeftAfterOpen(kind, docRoot, forest, v, current.value);
    }
  }
}

