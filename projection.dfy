/**
 * Projection of a resolved navigation subtree into flat `[label, href, null]` entries, and the
 * two extraction rules applied to projected lists: siphoning anonymous-namespace entries into a
 * sorted side list, and lifting the `All` entry out as a section's own reference.
 */
module Projection {
  import opened Wrappers
  import opened NavTree
  import opened TreePaths
  import Text
  import Seqs

  /**
   * The entry test of `flatAndPrune`: the href is a string whose last `/` segment contains no `#`,
   * ends in `.html` or `.xhtml` in any case, and, when `filters` is non-empty, starts with one of them.
   */
  predicate IsPage(href: Option<string>, filters: seq<string>) {
    href.Some? &&
    var htmlName := Text.LastSegment(href.value);
    '#' !in htmlName && Text.IsHtmlEnd(htmlName) &&
    (|filters| == 0 || StartsWithAny(htmlName, filters))
  }

  /** `filters.some(f => htmlName.startsWith(f))`. */
  predicate StartsWithAny(htmlName: string, filters: seq<string>) {
    exists f :: f in filters && f <= htmlName
  }

  /** Every entry is a leaf whose href passes the test. */
  predicate AllPages(r: seq<Node>, filters: seq<string>) {
    forall i :: 0 <= i < |r| ==> r[i].kids == Leaf && IsPage(r[i].href, filters)
  }

  lemma AllPagesAppend(a: seq<Node>, b: seq<Node>, filters: seq<string>)
    requires AllPages(a, filters) && AllPages(b, filters)
    ensures AllPages(a + b, filters)
  {
    forall i | 0 <= i < |a + b|
      ensures (a + b)[i].kids == Leaf && IsPage((a + b)[i].href, filters)
    {
      if i < |a| {
        assert (a + b)[i] == a[i];
      } else {
        assert (a + b)[i] == b[i - |a|];
      }
    }
  }

  /** The entry, if any, that `collect` pushes for node `n` under the name `full`. */
  function EntryOf(n: Node, full: string, filters: seq<string>): seq<Node> {
    if IsPage(n.href, filters) then [Node(full, n.href, Leaf)] else []
  }

  /** The hierarchical name: `prefix + sep + name`, or just `name` under an empty prefix. */
  function Compose(prefix: string, sep: string, name: string): string {
    if prefix != "" then prefix + sep + name else name
  }

  /**
   * What the recursive `collect` closure appends for `branch` under `prefix`: an entry for every
   * node that passes the test, and, whether or not it did, the entries of its children.
   */
  function Collect(branch: seq<Node>, prefix: string, sep: string, filters: seq<string>): (r: seq<Node>)
    ensures AllPages(r, filters)
    decreases branch
  {
    if branch == [] then []
    else
      var n := branch[0];
      var full := Compose(prefix, sep, n.name);
      var entry := EntryOf(n, full, filters);
      var kids := KidsEntries(n, full, sep, filters);
      var rest := Collect(branch[1..], prefix, sep, filters);
      AllPagesAppend(entry, kids, filters);
      AllPagesAppend(entry + kids, rest, filters);
      entry + kids + rest
  }

  lemma CollectUnfold(branch: seq<Node>, i: nat, prefix: string, sep: string, filters: seq<string>)
    requires i < |branch|
    ensures var n := branch[i];
      var full := Compose(prefix, sep, n.name);
      Collect(branch[i..], prefix, sep, filters) ==
        EntryOf(n, full, filters)
        + KidsEntries(n, full, sep, filters)
        + Collect(branch[i + 1..], prefix, sep, filters)
  {
    assert branch[i..][0] == branch[i] && branch[i..][1..] == branch[i + 1..];
  }

  /** The value `flatAndPrune(tree, sep, filters)` returns; `[]` for a non-array slot. */
  function Flat(tree: Kids, sep: string, filters: seq<string>): seq<Node> {
    if tree.Children? then Collect(tree.nodes, "", sep, filters) else []
  }

  /** `collect(branch, prefix)`, pushing onto the shared `result` (passed in as `acc`). */
  method CollectInto(branch: seq<Node>, prefix: string, sep: string, filters: seq<string>, acc: seq<Node>)
    returns (result: seq<Node>)
    ensures result == acc + Collect(branch, prefix, sep, filters)
    decreases branch, 1
  {
    result := acc;
    var i := 0;
    while i < |branch|
      invariant 0 <= i <= |branch|
      invariant result + Collect(branch[i..], prefix, sep, filters) == acc + Collect(branch, prefix, sep, filters)
    {
      CollectUnfold(branch, i, prefix, sep, filters);
      ghost var before := result;
      result := CollectNode(branch[i], prefix, sep, filters, result);
      Seqs.Append4(before, EntryOf(branch[i], Compose(prefix, sep, branch[i].name), filters),
        KidsEntries(branch[i], Compose(prefix, sep, branch[i].name), sep, filters),
        Collect(branch[i + 1..], prefix, sep, filters));
      i := i + 1;
    }
  }

  /** The entries `collect` contributes below node `n` named `full`. */
  function KidsEntries(n: Node, full: string, sep: string, filters: seq<string>): (r: seq<Node>)
    ensures AllPages(r, filters)
    decreases n, 0
  {
    if n.kids.Children? then Collect(n.kids.nodes, full, sep, filters) else []
  }

  /** One iteration of `collect`'s loop: push `n` if it passes the test, then recurse into its kids. */
  method CollectNode(n: Node, prefix: string, sep: string, filters: seq<string>, acc: seq<Node>)
    returns (result: seq<Node>)
    ensures var full := Compose(prefix, sep, n.name);
      result == acc + EntryOf(n, full, filters) + KidsEntries(n, full, sep, filters)
    decreases n, 2
  {
    var prefixedName := if prefix != "" then prefix + sep + n.name else n.name;
    assert prefixedName == Compose(prefix, sep, n.name);
    result := PushEntry(n, prefixedName, filters, acc);
    if n.kids.Children? && |n.kids.nodes| > 0 {
      result := CollectInto(n.kids.nodes, prefixedName, sep, filters, result);
    } else {
      assert KidsEntries(n, prefixedName, sep, filters) == [];
      assert result == result + [];
    }
  }

  /** The test of `collect`: the entry `[prefixedName, href, null]` is pushed when `n` passes it. */
  method PushEntry(n: Node, prefixedName: string, filters: seq<string>, acc: seq<Node>) returns (result: seq<Node>)
    ensures result == acc + EntryOf(n, prefixedName, filters)
  {
    result := acc;
    var hasFilter := |filters| > 0;
    var passes := false;
    if n.href.Some? {
      var htmlName := Text.LastSegment(n.href.value);
      passes := '#' !in htmlName && Text.IsHtmlEnd(htmlName) && (!hasFilter || StartsWithAny(htmlName, filters));
    }
    assert passes == IsPage(n.href, filters);
    if passes {
      result := result + [Node(prefixedName, n.href, Leaf)];
    } else {
      assert result == acc + [];
    }
  }

  /** `flatAndPrune`: `[]` for a non-array or empty slot, else the depth-first projection. */
  method FlatAndPrune(tree: Kids, sep: string, filters: seq<string>) returns (result: seq<Node>)
    ensures result == Flat(tree, sep, filters)
    ensures !tree.Children? || tree.nodes == [] ==> result == []
    ensures forall i :: 0 <= i < |result| ==> result[i].kids == Leaf && IsPage(result[i].href, filters)
  {
    result := [];
    if !tree.Children? || |tree.nodes| == 0 {
      return;
    }
    result := CollectInto(tree.nodes, "", sep, filters, result);
  }

  /** The composite label of the node at `p`: the names along the path, composed with `sep`. */
  function LabelAt(forest: seq<Node>, p: Path, sep: string): string
    decreases |p|
  {
    if p == [] then ""
    else match NodeAt(forest, p)
      case Some(n) => Compose(LabelAt(forest, p[..|p| - 1], sep), sep, n.name)
      case None => ""
  }

  /** The reference projection: an entry for each listed path whose node passes the test. */
  function Project(forest: seq<Node>, ps: seq<Path>, sep: string, filters: seq<string>): seq<Node> {
    Seqs.Concat(EntriesOf(forest, ps, sep, filters))
  }

  /** The entries of each listed path, one list per path. */
  function EntriesOf(forest: seq<Node>, ps: seq<Path>, sep: string, filters: seq<string>): (r: seq<seq<Node>>)
    ensures |r| == |ps|
    ensures forall i :: 0 <= i < |ps| ==> r[i] == ProjectOne(forest, ps[i], sep, filters)
  {
    seq(|ps|, i requires 0 <= i < |ps| => ProjectOne(forest, ps[i], sep, filters))
  }

  function ProjectOne(forest: seq<Node>, p: Path, sep: string, filters: seq<string>): seq<Node> {
    match NodeAt(forest, p)
    case Some(n) => EntryOf(n, LabelAt(forest, p, sep), filters)
    case None => []
  }

  lemma ProjectAppend(forest: seq<Node>, a: seq<Path>, b: seq<Path>, sep: string, filters: seq<string>)
    ensures Project(forest, a + b, sep, filters) == Project(forest, a, sep, filters) + Project(forest, b, sep, filters)
  {
    var ea, eb := EntriesOf(forest, a, sep, filters), EntriesOf(forest, b, sep, filters);
    var eab := EntriesOf(forest, a + b, sep, filters);
    forall i | 0 <= i < |a + b|
      ensures eab[i] == (ea + eb)[i]
    {
      if i < |a| {
        assert (a + b)[i] == a[i];
      } else {
        assert (a + b)[i] == b[i - |a|];
      }
    }
    assert eab == ea + eb;
    Seqs.ConcatAppend(ea, eb);
  }

  /** `Project` over three consecutive path lists. */
  lemma ProjectAppend3(forest: seq<Node>, a: seq<Path>, b: seq<Path>, c: seq<Path>, sep: string, filters: seq<string>)
    ensures Project(forest, a + b + c, sep, filters)
         == Project(forest, a, sep, filters) + Project(forest, b, sep, filters) + Project(forest, c, sep, filters)
  {
    ProjectAppend(forest, a + b, c, sep, filters);
    ProjectAppend(forest, a, b, sep, filters);
  }

  /** The label and the projection of the item at `l + [off]`. */
  lemma ProjectStep(forest: seq<Node>, l: Path, c: seq<Node>, off: nat, sep: string, filters: seq<string>)
    requires ChildrenAt(forest, l) == Some(c)
    requires off < |c|
    ensures LabelAt(forest, l + [off], sep) == Compose(LabelAt(forest, l, sep), sep, c[off].name)
    ensures Project(forest, [l + [off]], sep, filters)
         == EntryOf(c[off], Compose(LabelAt(forest, l, sep), sep, c[off].name), filters)
  {
    var p: Path := l + [off];
    NodeAtExtend(forest, l, off);
    assert p[..|p| - 1] == l;
    assert EntriesOf(forest, [p], sep, filters) == [ProjectOne(forest, p, sep, filters)];
    Seqs.ConcatSingle(ProjectOne(forest, p, sep, filters));
  }

  /** `Collect` over the tail `c[off..]` of the child array at `l` is the projection of its pre-order. */
  lemma {:induction false} CollectIsPreorder(forest: seq<Node>, l: Path, c: seq<Node>, off: nat, sep: string, filters: seq<string>)
    requires ChildrenAt(forest, l) == Some(c)
    requires off <= |c|
    ensures Collect(c[off..], LabelAt(forest, l, sep), sep, filters) ==
            Project(forest, Preorder(c[off..], l, off), sep, filters)
    decreases c, |c| - off
  {
    if off < |c| {
      var n := c[off];
      var p := l + [off];
      var full := Compose(LabelAt(forest, l, sep), sep, n.name);
      var kidsPre := if n.kids.Children? then Preorder(n.kids.nodes, p, 0) else [];
      var rest := Preorder(c[off + 1..], l, off + 1);
      PreorderUnfold(c, l, off);
      CollectUnfold(c, off, LabelAt(forest, l, sep), sep, filters);
      ProjectAppend3(forest, [p], kidsPre, rest, sep, filters);
      ProjectStep(forest, l, c, off, sep, filters);
      if n.kids.Children? {
        ChildrenAtExtend(forest, l, off);
        assert n.kids.nodes[0..] == n.kids.nodes;
        CollectIsPreorder(forest, p, n.kids.nodes, 0, sep, filters);
      }
      assert KidsEntries(n, full, sep, filters) == Project(forest, kidsPre, sep, filters);
      CollectIsPreorder(forest, l, c, off + 1, sep, filters);
    }
  }

  /**
   * `flatAndPrune` walks the tree depth-first in pre-order: its result is, in document order, one
   * entry per node that passes the test, labelled with its ancestors' names joined by `sep`.
   */
  lemma FlatAndPruneIsPreorder(tree: seq<Node>, sep: string, filters: seq<string>)
    ensures Flat(Children(tree), sep, filters) == Project(tree, Items(tree), sep, filters)
  {
    assert tree[0..] == tree;
    CollectIsPreorder(tree, [], tree, 0, sep, filters);
  }
}
