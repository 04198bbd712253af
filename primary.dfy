/**
 * The primary navigation forest: the indentation test, the seven sections `genPriTree` assembles
 * from the default tree in their fixed order, and the cache that lets a page reuse the forest a
 * previous page built for the same Doxygen run.
 */
module Primary {
  import opened Wrappers
  import opened NavTree
  import Text
  import Projection
  import opened Extract
  import opened Storage
  import Seqs

  // ---------------------------------------------------------------------------------------------
  // isTreeIndented

  /** A top-level entry with a non-empty child array none of whose children has a kids slot. */
  predicate TwoLevelBranch(n: Node) {
    n.kids.Children? && |n.kids.nodes| > 0 &&
    forall j :: 0 <= j < |n.kids.nodes| ==> n.kids.nodes[j].kids.Leaf?
  }

  /** The only shape that may go without indentation: non-empty, and two levels everywhere. */
  predicate TwoLevel(tree: seq<Node>) {
    |tree| > 0 && forall i :: 0 <= i < |tree| ==> TwoLevelBranch(tree[i])
  }

  /**
   * `isTreeIndented`: `false` exactly for a two-level tree; an empty tree, a childless top-level
   * entry, or a child whose slot holds anything (even an empty array) needs indentation.
   */
  method IsTreeIndented(tree: seq<Node>) returns (r: bool)
    ensures r == !TwoLevel(tree)
  {
    if |tree| == 0 {
      return true;
    }
    var ii := 0;
    while ii < |tree|
      invariant 0 <= ii <= |tree|
      invariant forall i :: 0 <= i < ii ==> TwoLevelBranch(tree[i])
    {
      var kids := tree[ii].kids;
      if kids.Children? && |kids.nodes| > 0 {
        var jj := 0;
        while jj < |kids.nodes|
          invariant 0 <= jj <= |kids.nodes|
          invariant forall j :: 0 <= j < jj ==> kids.nodes[j].kids.Leaf?
        {
          if !kids.nodes[jj].kids.Leaf? {
            return true;
          }
          jj := jj + 1;
        }
      } else {
        return true;
      }
      ii := ii + 1;
    }
    return false;
  }

  // ---------------------------------------------------------------------------------------------
  // The sections

  /** `typeof href === 'string' && IS_HTML_END.test(href)`. */
  predicate HtmlHref(href: Option<string>) {
    href.Some? && Text.IsHtmlEnd(href.value)
  }

  /** The Namespace List entries: the kept entries, then a header and the sorted anonymous ones. */
  function WithAnonymousTail(list: seq<Node>): seq<Node> {
    var anon := SortEntries(Rev(Renamed(list)));
    Kept(list) + (if |anon| > 0 then [Node("-- ANONYMOUS --", None, Leaf)] + anon else [])
  }

  /** `Namespaces`, from `Namespaces -> Namespace List`, filtered to `namespace*` pages. */
  function NamespacesSection(def: seq<Node>): (r: Option<Node>)
    ensures r.Some? ==> r.value.name == "Namespaces"
  {
    match Find(def, ["Namespaces", "Namespace List"])
    case None => None
    case Some(n) =>
      if HtmlHref(n.href) && n.kids.Children? then
        var list := WithAnonymousTail(Projection.Flat(n.kids, "::", ["namespace"]));
        if |list| > 0 then Some(Node("Namespaces", n.href, Children(list))) else None
      else None
  }

  /** A members section (`Globals`, `Class Members`, `File Members`): the list with `All` lifted out. */
  function MembersSection(def: seq<Node>, group: string, item: string, title: string): (r: Option<Node>)
    ensures r.Some? ==> r.value.name == title
  {
    match Find(def, [group, item])
    case None => None
    case Some(n) =>
      if n.kids.Children? && |n.kids.nodes| > 0 then
        var temp := Projection.Flat(n.kids, "::", []);
        if |temp| > 0 then Lifted(title, temp) else None
      else None
  }

  /** A list section (`Concepts`, `Classes`, `Files`): the node's own page and its filtered entries. */
  function ListSection(def: seq<Node>, names: seq<string>, title: string, sep: string, filters: seq<string>): (r: Option<Node>)
    ensures r.Some? ==> r.value.name == title
  {
    match Find(def, names)
    case None => None
    case Some(n) =>
      var list := Projection.Flat(n.kids, sep, filters);
      if HtmlHref(n.href) && |list| > 0 then Some(Node(title, n.href, Children(list))) else None
  }

  /** The `[Hierarchy]` or `[Index]` link added under `Classes`, when that page exists. */
  function ClassesExtra(def: seq<Node>, item: string, caption: string): seq<Node> {
    match Find(def, ["Classes", item])
    case None => []
    case Some(n) => if HtmlHref(n.href) then [Node(caption, n.href, Leaf)] else []
  }

  /** `Classes` followed, when it was added, by its two extra links. */
  function ClassesSection(def: seq<Node>): (r: Option<Node>)
    ensures r.Some? ==> r.value.name == "Classes"
  {
    match ListSection(def, ["Classes", "Class List"], "Classes", "::", ["class", "struct"])
    case None => None
    case Some(c) =>
      Some(Node(c.name, c.href, Children(c.kids.nodes
        + ClassesExtra(def, "Class Hierarchy", "[Hierarchy]")
        + ClassesExtra(def, "Class Index", "[Index]"))))
  }

  /** The number of section blocks in `genPriTree`. */
  const SectionCount: nat := 7

  /** The four kinds of block the rebuild runs, with the names, separator and filters each uses. */
  datatype Block =
    | NamespacesBlock
    | MembersBlock(group: string, item: string, title: string)
    | ListBlock(names: seq<string>, title: string, sep: string, filters: seq<string>)
    | ClassesBlock

  /**
   * The seven blocks in build order: Namespaces, Globals, Concepts, Classes, Class Members,
   * Files, File Members.
   */
  const Blocks: seq<Block> := [
    NamespacesBlock,
    MembersBlock("Namespaces", "Namespace Members", "Globals"),
    ListBlock(["Concepts"], "Concepts", "::", ["concept"]),
    ClassesBlock,
    MembersBlock("Classes", "Class Members", "Class Members"),
    ListBlock(["Files", "File List"], "Files", "/", ["_", "dir_"]),
    MembersBlock("Files", "File Members", "File Members")]

  /** The entries of `Blocks`, one by one. */
  lemma BlocksAre()
    ensures |Blocks| == SectionCount
    ensures Blocks[0] == NamespacesBlock
    ensures Blocks[1] == MembersBlock("Namespaces", "Namespace Members", "Globals")
    ensures Blocks[2] == ListBlock(["Concepts"], "Concepts", "::", ["concept"])
    ensures Blocks[3] == ClassesBlock
    ensures Blocks[4] == MembersBlock("Classes", "Class Members", "Class Members")
    ensures Blocks[5] == ListBlock(["Files", "File List"], "Files", "/", ["_", "dir_"])
    ensures Blocks[6] == MembersBlock("Files", "File Members", "File Members")
  {
  }

  lemma NamespacesIsFirst(def: seq<Node>)
    ensures Section(def, 0) == NamespacesSection(def)
  {
    BlocksAre();
  }

  /** The title a block gives its section. */
  function BlockTitle(b: Block): string {
    match b
    case NamespacesBlock => "Namespaces"
    case MembersBlock(_, _, title) => title
    case ListBlock(_, title, _, _) => title
    case ClassesBlock => "Classes"
  }

  /** The section one block yields, if the default tree supports it; it carries the block's title. */
  function Run(def: seq<Node>, b: Block): (r: Option<Node>)
    ensures r.Some? ==> r.value.name == BlockTitle(b)
  {
    match b
    case NamespacesBlock => NamespacesSection(def)
    case MembersBlock(group, item, title) => MembersSection(def, group, item, title)
    case ListBlock(names, title, sep, filters) => ListSection(def, names, title, sep, filters)
    case ClassesBlock => ClassesSection(def)
  }

  /** The `k`-th section of the rebuilt forest, if the default tree supports it. */
  function Section(def: seq<Node>, k: nat): (r: Option<Node>)
    requires k < SectionCount
  {
    Run(def, Blocks[k])
  }

  /** The `k`-th section carries the `k`-th title. */
  lemma SectionTitle(def: seq<Node>, k: nat)
    requires k < SectionCount
    ensures Section(def, k).Some? ==> Rank(Section(def, k).value.name) == k
  {
    TitleRank(k);
  }

  /** The titles are told apart by `Rank`. */
  lemma TitleRank(k: nat)
    requires k < SectionCount
    ensures Rank(BlockTitle(Blocks[k])) == k
  {
    if k == 0 {
    } else if k == 1 {
    } else if k == 2 {
    } else if k == 3 {
    } else if k == 4 {
    } else if k == 5 {
    } else {
    }
  }

  function Opt(o: Option<Node>): seq<Node> {
    if o.Some? then [o.value] else []
  }

  /** `tree` with `extra` appended to the entries of its last section. */
  function PatchLast(tree: seq<Node>, extra: seq<Node>): seq<Node>
    requires |tree| > 0 && tree[|tree| - 1].kids.Children?
  {
    var last := tree[|tree| - 1];
    tree[..|tree| - 1] + [Node(last.name, last.href, Children(last.kids.nodes + extra))]
  }

  lemma PatchPushed(done: seq<Node>, c: Node, extra: seq<Node>)
    requires c.kids.Children?
    ensures PatchLast(done + [c], extra) == done + [Node(c.name, c.href, Children(c.kids.nodes + extra))]
  {
    assert (done + [c])[..|done|] == done;
  }

  /** The sections from the `k`-th on. */
  function Assemble(def: seq<Node>, k: nat): seq<Node>
    requires k <= SectionCount
    decreases SectionCount - k
  {
    if k == SectionCount then [] else Opt(Section(def, k)) + Assemble(def, k + 1)
  }

  /** The forest a rebuild produces from a non-empty default tree. */
  function Forest(def: seq<Node>): seq<Node> {
    Assemble(def, 0)
  }

  /** The sections of the first `k` blocks, in the order the blocks push them. */
  function Built(def: seq<Node>, k: nat): seq<Node>
    requires k <= SectionCount
  {
    if k == 0 then [] else Built(def, k - 1) + Opt(Section(def, k - 1))
  }

  /** The `k`-th block pushes its section, if any, behind those of the blocks before it. */
  lemma BuiltStep(def: seq<Node>, k: nat, done: seq<Node>)
    requires k < SectionCount
    requires done == Built(def, k)
    ensures done + Opt(Section(def, k)) == Built(def, k + 1)
  {
  }

  /** What the first `k` blocks push, followed by what the rest yield, does not depend on `k`. */
  lemma {:induction false} BuiltShift(def: seq<Node>, k: nat, m: nat)
    requires k <= m <= SectionCount
    ensures Built(def, k) + Assemble(def, k) == Built(def, m) + Assemble(def, m)
    decreases m - k
  {
    if k < m {
      BuiltShift(def, k + 1, m);
      AssembleUnfold(def, k);
      var done, sec, rest := Built(def, k), Opt(Section(def, k)), Assemble(def, k + 1);
      assert Built(def, k + 1) == done + sec;
      Seqs.Append3(done, sec, rest);
    }
  }

  /** After all seven blocks, the pushed sections are the forest. */
  lemma BuiltForest(def: seq<Node>)
    ensures Built(def, SectionCount) == Forest(def)
  {
    BuiltShift(def, 0, SectionCount);
    var all := Built(def, SectionCount);
    assert Assemble(def, SectionCount) == [];
    assert all + [] == all;
    Seqs.EmptyAppend(Assemble(def, 0));
  }

  // ---------------------------------------------------------------------------------------------
  // The steps of a rebuild, as the source performs them

  /** `Namespaces -> Namespace List`: flatten, siphon, append the anonymous tail, push if non-empty. */
  method NamespacesStep(def: seq<Node>) returns (sec: Option<Node>)
    ensures sec == Section(def, 0)
  {
    NamespacesIsFirst(def);
    sec := None;
    var nsListNode := FindNodeByNameList(def, ["Namespaces", "Namespace List"]);
    if nsListNode.Some? {
      var n := nsListNode.value;
      if n.href.Some? && Text.IsHtmlEnd(n.href.value) && n.kids.Children? {
        var flat := Projection.FlatAndPrune(n.kids, "::", ["namespace"]);
        var list := AnonymousTailStep(flat);
        if |list| > 0 {
          sec := Some(Node("Namespaces", n.href, Children(list)));
        }
      }
    }
  }

  /** Siphons the anonymous namespaces out of `list` and appends them under their header. */
  method AnonymousTailStep(flat: seq<Node>) returns (list: seq<Node>)
    ensures list == WithAnonymousTail(flat)
  {
    var anon;
    list, anon := SiphonAnonymousNamespaces(flat);
    if |anon| > 0 {
      list := list + [Node("-- ANONYMOUS --", None, Leaf)];
      list := PushEach(list, anon);
      Seqs.Append3(Kept(flat), [Node("-- ANONYMOUS --", None, Leaf)], anon);
    }
  }

  /** `list.push(...items)`, one copied entry at a time. */
  method PushEach(list0: seq<Node>, items: seq<Node>) returns (list: seq<Node>)
    ensures list == list0 + items
  {
    list := list0;
    var ii := 0;
    while ii < |items|
      invariant 0 <= ii <= |items|
      invariant list == list0 + items[..ii]
    {
      list := list + [Node(items[ii].name, items[ii].href, items[ii].kids)];
      assert items[..ii + 1] == items[..ii] + [items[ii]];
      Seqs.Append3(list0, items[..ii], [items[ii]]);
      ii := ii + 1;
    }
    assert items[..|items|] == items;
  }

  /** A members section: flatten the node's children, lift `All`, push on success. */
  method MembersStep(def: seq<Node>, group: string, item: string, title: string) returns (sec: Option<Node>)
    ensures sec == MembersSection(def, group, item, title)
  {
    sec := None;
    var node := FindNodeByNameList(def, [group, item]);
    if node.Some? {
      var kids := node.value.kids;
      if kids.Children? && |kids.nodes| > 0 {
        var temp := Projection.FlatAndPrune(kids, "::", []);
        if |temp| > 0 {
          sec := LiftAll(title, temp);
        }
      }
    }
  }

  /** A list section: flatten with the section's filters, push when the page and entries exist. */
  method ListStep(def: seq<Node>, names: seq<string>, title: string, sep: string, filters: seq<string>)
    returns (sec: Option<Node>)
    ensures sec == ListSection(def, names, title, sep, filters)
  {
    sec := None;
    var node := FindNodeByNameList(def, names);
    if node.Some? {
      var n := node.value;
      var list := Projection.FlatAndPrune(n.kids, sep, filters);
      if n.href.Some? && Text.IsHtmlEnd(n.href.value) && |list| > 0 {
        sec := Some(Node(title, n.href, Children(list)));
      }
    }
  }

  /** The `[Hierarchy]` / `[Index]` lookup. */
  method ExtraStep(def: seq<Node>, item: string, caption: string) returns (extra: seq<Node>)
    ensures extra == ClassesExtra(def, item, caption)
  {
    extra := [];
    var node := FindNodeByNameList(def, ["Classes", item]);
    if node.Some? && node.value.href.Some? && Text.IsHtmlEnd(node.value.href.value) {
      extra := [Node(caption, node.value.href, Leaf)];
    }
  }

  // ---------------------------------------------------------------------------------------------
  // The cache and the rebuild

  /** What `genPriTree` leaves behind: the forest, the indentation flag and the store. */
  datatype PriState = PriState(tree: seq<Node>, indented: bool, store: Store)

  /**
   * The stored token is present and equals the current Doxygen time stamp (`docTime`, `None`
   * when the page defines none), and the stored forest is a non-empty array.
   */
  predicate CacheHit(store: Store, docTime: Option<string>) {
    docTime.Some? && LoadToken(store) == docTime &&
    LoadTree(store).Some? && |LoadTree(store).value| > 0
  }

  /** The three saves that end both the cache path and the rebuild path. */
  function SaveAll(store: Store, docTime: Option<string>, tree: seq<Node>, indented: bool): Store {
    var token := if docTime.Some? then Some(SToken(docTime.value)) else None;
    Save(Save(Save(store, KeyGenData, token), KeyPriTree, Some(STree(tree))), KeyPriTreeIndented, Some(SFlag(indented)))
  }

  /**
   * One run of `genPriTree` given the default tree `genDefTree` would return (`None` for its
   * `null`): the cached forest on a hit; otherwise nothing changes but the emptied forest when the
   * default tree is missing or empty, and the rebuilt forest with its flag saved when it is not.
   */
  function GenPriTreeSpec(s: PriState, docTime: Option<string>, def: Option<seq<Node>>): PriState {
    if CacheHit(s.store, docTime) then
      var t := LoadTree(s.store).value;
      var f := LoadFlag(s.store);
      PriState(t, f, SaveAll(s.store, docTime, t, f))
    else if def.None? || def.value == [] then
      PriState([], s.indented, s.store)
    else
      var t := Forest(def.value);
      var f := !TwoLevel(t);
      PriState(t, f, SaveAll(s.store, docTime, t, f))
  }

  /** The module state `genPriTree` works on: `_priTree`, `_priTreeIndented` and the store. */
  class PriNav {
    var priTree: seq<Node>
    var priTreeIndented: bool
    var store: Store

    constructor (store0: Store)
      ensures priTree == [] && !priTreeIndented && store == store0
    {
      priTree := [];
      priTreeIndented := false;
      store := store0;
    }

    /** `genPriTree()` with `window.DOXY_PLUS_DATE_TIME == docTime` and `window.NAVTREE == navtree`. */
    method GenPriTree(docTime: Option<string>, navtree: Option<seq<Node>>, env: ChunkEnv, fuel: nat)
      modifies this
      ensures PriState(priTree, priTreeIndented, store)
           == GenPriTreeSpec(old(PriState(priTree, priTreeIndented, store)), docTime, DefTree(navtree, env, fuel))
    {
      priTree := [];
      var prvDoxyTime := LoadToken(store);
      if prvDoxyTime.Some? && docTime.Some? && prvDoxyTime.value == docTime.value {
        var cached := LoadTree(store);
        if cached.Some? && |cached.value| > 0 {
          priTree := priTree + cached.value;
          assert priTree == cached.value;
          priTreeIndented := LoadFlag(store);
          SaveState(docTime);
          return;
        }
      }
      var defTree := GenDefTree(navtree, env, fuel);
      if defTree.None? || |defTree.value| == 0 {
        return;
      }
      PushSections(defTree.value);
      priTreeIndented := IsTreeIndented(priTree);
      SaveState(docTime);
    }

    /** The seven section blocks of `genPriTree`, each pushing its section when it has one. */
    method PushSections(def: seq<Node>)
      requires priTree == []
      modifies this
      ensures priTree == Forest(def)
      ensures priTreeIndented == old(priTreeIndented) && store == old(store)
    {
      PushNamespaces(def);
      PushGlobals(def);
      PushConcepts(def);
      PushClasses(def);
      PushClassMembers(def);
      PushFiles(def);
      PushFileMembers(def);
      BuiltForest(def);
    }

    /** Pushes the `k`-th section, if the default tree supports it. */
    method PushSection(def: seq<Node>, k: nat, sec: Option<Node>)
      requires k < SectionCount
      requires priTree == Built(def, k)
      requires sec == Section(def, k)
      modifies this
      ensures priTree == Built(def, k + 1)
      ensures priTreeIndented == old(priTreeIndented) && store == old(store)
    {
      BuiltStep(def, k, priTree);
      priTree := priTree + Opt(sec);
    }

    /** The `Namespaces -> Namespace List` block. */
    method PushNamespaces(def: seq<Node>)
      requires priTree == []
      modifies this
      ensures priTree == Built(def, 1)
      ensures priTreeIndented == old(priTreeIndented) && store == old(store)
    {
      var sec := NamespacesStep(def);
      PushSection(def, 0, sec);
    }

    /** The `Namespaces -> Namespace Members` block, pushed as `Globals`. */
    method PushGlobals(def: seq<Node>)
      requires priTree == Built(def, 1)
      modifies this
      ensures priTree == Built(def, 2)
      ensures priTreeIndented == old(priTreeIndented) && store == old(store)
    {
      var sec := MembersStep(def, "Namespaces", "Namespace Members", "Globals");
      BlocksAre();
      PushSection(def, 1, sec);
    }

    /** The `Concepts` block. */
    method PushConcepts(def: seq<Node>)
      requires priTree == Built(def, 2)
      modifies this
      ensures priTree == Built(def, 3)
      ensures priTreeIndented == old(priTreeIndented) && store == old(store)
    {
      var sec := ListStep(def, ["Concepts"], "Concepts", "::", ["concept"]);
      BlocksAre();
      PushSection(def, 2, sec);
    }

    /** The `Classes -> Class Members` block. */
    method PushClassMembers(def: seq<Node>)
      requires priTree == Built(def, 4)
      modifies this
      ensures priTree == Built(def, 5)
      ensures priTreeIndented == old(priTreeIndented) && store == old(store)
    {
      var sec := MembersStep(def, "Classes", "Class Members", "Class Members");
      BlocksAre();
      PushSection(def, 4, sec);
    }

    /** The `Files -> File List` block, with `/` between path parts. */
    method PushFiles(def: seq<Node>)
      requires priTree == Built(def, 5)
      modifies this
      ensures priTree == Built(def, 6)
      ensures priTreeIndented == old(priTreeIndented) && store == old(store)
    {
      var sec := ListStep(def, ["Files", "File List"], "Files", "/", ["_", "dir_"]);
      BlocksAre();
      PushSection(def, 5, sec);
    }

    /** The `Files -> File Members` block. */
    method PushFileMembers(def: seq<Node>)
      requires priTree == Built(def, 6)
      modifies this
      ensures priTree == Built(def, 7)
      ensures priTreeIndented == old(priTreeIndented) && store == old(store)
    {
      var sec := MembersStep(def, "Files", "File Members", "File Members");
      BlocksAre();
      PushSection(def, 6, sec);
    }

    /** The `Classes` block. */
    method PushClasses(def: seq<Node>)
      requires priTree == Built(def, 3)
      modifies this
      ensures priTree == Built(def, 4)
      ensures priTreeIndented == old(priTreeIndented) && store == old(store)
    {
      ghost var done := priTree;
      PushClassList(def);
      BlocksAre();
      BuiltStep(def, 3, done);
    }

    /** Pushes the class list, then adds `[Hierarchy]` and `[Index]` to it in place. */
    method PushClassList(def: seq<Node>)
      modifies this
      ensures priTree == old(priTree) + Opt(ClassesSection(def))
      ensures priTreeIndented == old(priTreeIndented) && store == old(store)
    {
      var sec := ListStep(def, ["Classes", "Class List"], "Classes", "::", ["class", "struct"]);
      ghost var done := priTree;
      if sec.Some? {
        priTree := priTree + [sec.value];
        var hierarchy := ExtraStep(def, "Class Hierarchy", "[Hierarchy]");
        var index := ExtraStep(def, "Class Index", "[Index]");
        AppendToLast(hierarchy);
        PatchPushed(done, sec.value, hierarchy);
        AppendToLast(index);
        PatchPushed(done, Node(sec.value.name, sec.value.href, Children(sec.value.kids.nodes + hierarchy)), index);
        Seqs.Append3(sec.value.kids.nodes, hierarchy, index);
      }
    }

    /** `_priTree[_priTree.length - 1][2].push(...extra)`: extends the last section's entries. */
    method AppendToLast(extra: seq<Node>)
      requires |priTree| > 0 && priTree[|priTree| - 1].kids.Children?
      modifies this
      ensures priTree == PatchLast(old(priTree), extra)
      ensures priTreeIndented == old(priTreeIndented) && store == old(store)
    {
      var last := priTree[|priTree| - 1];
      priTree := priTree[..|priTree| - 1] + [Node(last.name, last.href, Children(last.kids.nodes + extra))];
    }

    /** The closing `save` calls: token, forest and flag. */
    method SaveState(docTime: Option<string>)
      modifies this
      ensures store == SaveAll(old(store), docTime, priTree, priTreeIndented)
      ensures priTree == old(priTree) && priTreeIndented == old(priTreeIndented)
    {
      var token := if docTime.Some? then Some(SToken(docTime.value)) else None;
      store := Save(store, KeyGenData, token);
      store := Save(store, KeyPriTree, Some(STree(priTree)));
      store := Save(store, KeyPriTreeIndented, Some(SFlag(priTreeIndented)));
    }
  }

  // ---------------------------------------------------------------------------------------------
  // Properties of the forest and the cache

  /** Every section carries its own HTML page and at least one entry, and every entry is a leaf. */
  predicate WellFormedSection(n: Node) {
    HtmlHref(n.href) && n.kids.Children? && |n.kids.nodes| > 0 &&
    forall j :: 0 <= j < |n.kids.nodes| ==> n.kids.nodes[j].kids.Leaf?
  }

  lemma SectionWellFormed(def: seq<Node>, k: nat)
    requires k < SectionCount
    ensures Section(def, k).Some? ==> WellFormedSection(Section(def, k).value)
  {
    RunWellFormed(def, Blocks[k]);
  }

  lemma RunWellFormed(def: seq<Node>, b: Block)
    ensures Run(def, b).Some? ==> WellFormedSection(Run(def, b).value)
  {
    match b
    case NamespacesBlock => NamespacesWellFormed(def);
    case MembersBlock(group, item, title) => MembersWellFormed(def, group, item, title);
    case ListBlock(names, title, sep, filters) => ListWellFormed(def, names, title, sep, filters);
    case ClassesBlock => ClassesWellFormed(def);
  }

  /** Every entry `flatAndPrune` returns is a leaf. */
  lemma FlatLeaves(kids: Kids, sep: string, filters: seq<string>)
    ensures forall i :: 0 <= i < |Projection.Flat(kids, sep, filters)| ==> Projection.Flat(kids, sep, filters)[i].kids.Leaf?
  {
  }

  lemma NamespacesWellFormed(def: seq<Node>)
    ensures NamespacesSection(def).Some? ==> WellFormedSection(NamespacesSection(def).value)
  {
    match Find(def, ["Namespaces", "Namespace List"]) {
      case None =>
      case Some(n) =>
        if HtmlHref(n.href) && n.kids.Children? {
          FlatLeaves(n.kids, "::", ["namespace"]);
          AnonTailLeaves(Projection.Flat(n.kids, "::", ["namespace"]));
        }
    }
  }

  lemma MembersWellFormed(def: seq<Node>, group: string, item: string, title: string)
    ensures MembersSection(def, group, item, title).Some? ==> WellFormedSection(MembersSection(def, group, item, title).value)
  {
    match Find(def, [group, item]) {
      case None =>
      case Some(n) =>
        FlatLeaves(n.kids, "::", []);
        LiftedLeaves(title, Projection.Flat(n.kids, "::", []));
    }
  }

  /** Lifting `All` out of a list of leaves leaves a list of leaves. */
  lemma LiftedLeaves(title: string, temp: seq<Node>)
    requires forall i :: 0 <= i < |temp| ==> temp[i].kids.Leaf?
    ensures Lifted(title, temp).Some? ==> forall j :: 0 <= j < |Lifted(title, temp).value.kids.nodes| ==>
      Lifted(title, temp).value.kids.nodes[j].kids.Leaf?
  {
    var r := Lifted(title, temp);
    if r.Some? {
      var k :| 0 <= k < |temp| && temp[k].name == "All" &&
        (forall j :: 0 <= j < k ==> temp[j].name != "All") &&
        r.value.href == temp[k].href && r.value.kids.nodes == temp[..k] + temp[k + 1..];
      assert forall j :: 0 <= j < |r.value.kids.nodes| ==> r.value.kids.nodes[j] in temp;
    }
  }

  lemma ListWellFormed(def: seq<Node>, names: seq<string>, title: string, sep: string, filters: seq<string>)
    ensures ListSection(def, names, title, sep, filters).Some? ==> WellFormedSection(ListSection(def, names, title, sep, filters).value)
  {
    match Find(def, names) {
      case None =>
      case Some(n) =>
        FlatLeaves(n.kids, sep, filters);
    }
  }

  lemma ClassesWellFormed(def: seq<Node>)
    ensures ClassesSection(def).Some? ==> WellFormedSection(ClassesSection(def).value)
  {
    var list := ListSection(def, ["Classes", "Class List"], "Classes", "::", ["class", "struct"]);
    ListWellFormed(def, ["Classes", "Class List"], "Classes", "::", ["class", "struct"]);
    if list.Some? {
      var c := list.value;
      var e1 := ClassesExtra(def, "Class Hierarchy", "[Hierarchy]");
      var e2 := ClassesExtra(def, "Class Index", "[Index]");
      var all := c.kids.nodes + e1 + e2;
      assert ClassesSection(def) == Some(Node(c.name, c.href, Children(all)));
      forall j | 0 <= j < |all| ensures all[j].kids.Leaf? {
        if j < |c.kids.nodes| {
          assert all[j] == c.kids.nodes[j];
        } else if j < |c.kids.nodes| + |e1| {
          assert all[j] == e1[j - |c.kids.nodes|];
        } else {
          assert all[j] == e2[j - |c.kids.nodes| - |e1|];
        }
      }
    }
  }

  /** The Namespace List entries of a list of leaves are leaves. */
  lemma AnonTailLeaves(list: seq<Node>)
    requires forall i :: 0 <= i < |list| ==> list[i].kids.Leaf?
    ensures forall i :: 0 <= i < |WithAnonymousTail(list)| ==> WithAnonymousTail(list)[i].kids.Leaf?
  {
    KeptLeaves(list);
    RenamedLeaves(list);
    SortedLeaves(Rev(Renamed(list)));
  }

  /** The kept entries of a list of leaves are leaves. */
  lemma {:induction false} KeptLeaves(list: seq<Node>)
    requires forall i :: 0 <= i < |list| ==> list[i].kids.Leaf?
    ensures forall i :: 0 <= i < |Kept(list)| ==> Kept(list)[i].kids.Leaf?
  {
    if list != [] {
      KeptLeaves(list[1..]);
    }
  }

  lemma {:induction false} RenamedLeaves(list: seq<Node>)
    ensures forall i :: 0 <= i < |Rev(Renamed(list))| ==> Rev(Renamed(list))[i].kids.Leaf?
  {
    if list != [] {
      RenamedLeaves(list[1..]);
      var head := if AnonMatch(list[0].name).Some? then [Rename(list[0])] else [];
      RevAppend(head, Renamed(list[1..]));
    }
  }

  lemma SortedLeaves(s: seq<Node>)
    requires forall i :: 0 <= i < |s| ==> s[i].kids.Leaf?
    ensures forall i :: 0 <= i < |SortEntries(s)| ==> SortEntries(s)[i].kids.Leaf?
  {
    var r := SortEntries(s);
    forall i | 0 <= i < |r|
      ensures r[i].kids.Leaf?
    {
      assert r[i] in multiset(r);
      var k :| 0 <= k < |s| && s[k] == r[i];
    }
  }

  /** The position of a section title in the build order (`SectionCount` for any other name). */
  function Rank(name: string): nat {
    if name == "Namespaces" then 0
    else if name == "Globals" then 1
    else if name == "Concepts" then 2
    else if name == "Classes" then 3
    else if name == "Class Members" then 4
    else if name == "Files" then 5
    else if name == "File Members" then 6
    else SectionCount
  }

  /** Well-formed sections of rank `k` and above, in strictly increasing rank. */
  predicate OrderedFrom(s: seq<Node>, k: nat) {
    (forall i :: 0 <= i < |s| ==> k <= Rank(s[i].name) < SectionCount && WellFormedSection(s[i])) &&
    (forall i, j :: 0 <= i < j < |s| ==> Rank(s[i].name) < Rank(s[j].name))
  }

  /** The sections from the `k`-th on are well formed and come in strictly increasing title order. */
  lemma {:induction false} AssembleOrdered(def: seq<Node>, k: nat)
    requires k <= SectionCount
    ensures OrderedFrom(Assemble(def, k), k)
    decreases SectionCount - k
  {
    if k < SectionCount {
      AssembleOrdered(def, k + 1);
      HeadRank(def, k);
      OrderedConcat(Opt(Section(def, k)), Assemble(def, k + 1), k);
      AssembleUnfold(def, k);
    }
  }

  lemma AssembleUnfold(def: seq<Node>, k: nat)
    requires k < SectionCount
    ensures Assemble(def, k) == Opt(Section(def, k)) + Assemble(def, k + 1)
  {
  }

  /** The `k`-th block contributes at most one section, well formed and of rank `k`. */
  lemma HeadRank(def: seq<Node>, k: nat)
    requires k < SectionCount
    ensures var head := Opt(Section(def, k));
      |head| <= 1 && forall i :: 0 <= i < |head| ==> Rank(head[i].name) == k && WellFormedSection(head[i])
  {
    SectionWellFormed(def, k);
    SectionTitle(def, k);
  }

  /** A head of rank-`k` sections before sections of rank above `k` keeps the order. */
  lemma OrderedConcat(head: seq<Node>, rest: seq<Node>, k: nat)
    requires forall i :: 0 <= i < |head| ==> Rank(head[i].name) == k && WellFormedSection(head[i])
    requires |head| <= 1
    requires OrderedFrom(rest, k + 1)
    requires k < SectionCount
    ensures OrderedFrom(head + rest, k)
  {
    var all := head + rest;
    forall i | 0 <= i < |all|
      ensures k <= Rank(all[i].name) < SectionCount && WellFormedSection(all[i])
    {
      if i >= |head| {
        assert all[i] == rest[i - |head|];
      }
    }
    forall i, j | 0 <= i < j < |all|
      ensures Rank(all[i].name) < Rank(all[j].name)
    {
      if i >= |head| {
        assert all[i] == rest[i - |head|] && all[j] == rest[j - |head|];
      } else {
        assert all[j] == rest[j - |head|];
      }
    }
  }

  /** The rebuilt forest lists each section at most once, in the build order. */
  lemma ForestOrdered(def: seq<Node>)
    ensures forall i, j :: 0 <= i < j < |Forest(def)| ==>
      Rank(Forest(def)[i].name) < Rank(Forest(def)[j].name)
    ensures forall i :: 0 <= i < |Forest(def)| ==> WellFormedSection(Forest(def)[i])
  {
    AssembleOrdered(def, 0);
  }

  /** After a rebuild the indentation flag is set exactly when the forest came out empty. */
  lemma IndentedIffEmpty(def: seq<Node>)
    ensures !TwoLevel(Forest(def)) <==> Forest(def) == []
  {
    ForestOrdered(def);
  }

  /** On a cache hit the stored forest and flag come back and the default tree is not consulted. */
  lemma CacheReuse(s: PriState, docTime: Option<string>, def: Option<seq<Node>>, other: Option<seq<Node>>)
    requires CacheHit(s.store, docTime)
    ensures GenPriTreeSpec(s, docTime, def).tree == LoadTree(s.store).value
    ensures GenPriTreeSpec(s, docTime, def).indented == LoadFlag(s.store)
    ensures GenPriTreeSpec(s, docTime, def) == GenPriTreeSpec(s, docTime, other)
  {
  }

  /** A rebuild from a non-empty default tree stores the token, the forest and its flag. */
  lemma RebuildSaves(s: PriState, docTime: Option<string>, def: seq<Node>)
    requires !CacheHit(s.store, docTime) && def != []
    ensures var r := GenPriTreeSpec(s, docTime, Some(def));
      r.tree == Forest(def) && (r.indented <==> r.tree == []) &&
      LoadToken(r.store) == docTime && LoadTree(r.store) == Some(r.tree) && LoadFlag(r.store) == r.indented
  {
    IndentedIffEmpty(def);
  }

  /** Without a default tree the run empties the forest and changes nothing else. */
  lemma EmptyDefaultChangesNothing(s: PriState, docTime: Option<string>, def: Option<seq<Node>>)
    requires !CacheHit(s.store, docTime) && (def.None? || def.value == [])
    ensures GenPriTreeSpec(s, docTime, def) == PriState([], s.indented, s.store)
  {
  }

  /** Running `genPriTree` twice on the same page and default tree gives the state of one run. */
  lemma GenPriTreeIdempotent(s: PriState, docTime: Option<string>, def: Option<seq<Node>>)
    ensures var once := GenPriTreeSpec(s, docTime, def);
      GenPriTreeSpec(once, docTime, def) == once
  {
    var once := GenPriTreeSpec(s, docTime, def);
    if once.store != s.store {
      SaveAllLoads(s.store, docTime, once.tree, once.indented);
      SaveAllTwice(s.store, docTime, once.tree, once.indented);
    }
  }

  /** After the three saves, the loads return what was saved. */
  lemma SaveAllLoads(store: Store, docTime: Option<string>, tree: seq<Node>, indented: bool)
    ensures var st := SaveAll(store, docTime, tree, indented);
      LoadToken(st) == docTime && LoadTree(st) == Some(tree) && LoadFlag(st) == indented
  {
  }

  /** Saving the same three values again changes nothing. */
  lemma SaveAllTwice(store: Store, docTime: Option<string>, tree: seq<Node>, indented: bool)
    ensures var st := SaveAll(store, docTime, tree, indented);
      SaveAll(st, docTime, tree, indented) == st
  {
  }
}
