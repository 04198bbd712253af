# doxy-plus navigation engine, modelled in Dafny

This project models the navigation-tree engine of `doxy-plus.js`, a script that adds a dual
navigation pane to Doxygen HTML output. The engine has four parts:

- **Default tree resolution** (`genDefTree`). It deep-copies Doxygen's `NAVTREE` and replaces
  every deferred child slot with the chunk that the slot names.
- **Projection** (`flatAndPrune`, `findNodeByNameList`, `siphonAnonymousNamespaces`, the `All`
  lift). These turn parts of the default tree into flat lists of page entries.
- **The primary forest and its cache** (`genPriTree`, `isTreeIndented`). The seven sections are
  built in a fixed order. A forest stored for the same Doxygen run is reused.
- **The tree widget** (`buildTrees`). It keeps each rendered tree's item ids, its open, visited
  and current items, and the live set of ids saved to storage. It also covers the click,
  current-item and keyboard behaviour.

A node is the source's `[name, href, kids]` tuple: `NavTree.Node(name, href, kids)`. The kids
slot is `Leaf` (null), `Children(nodes)` or `Deferred(chunk)` (a string that names a script).

The store is a map from keys to typed values (`Storage.Stored`). An item is named by its index
path (`TreePaths.Path`, the source's `thisLevel`). Document order is the depth-first pre-order
`TreePaths.Items`.

The modules are:

- `Text`: the JavaScript string operations used.
- `NavTree`: nodes, cloning and chunk resolution.
- `TreePaths`: index paths and pre-order.
- `Projection`: `flatAndPrune`.
- `Extract`: the name lookup, the anonymous-namespace siphon and the `All` lift.
- `Storage`: the store.
- `Primary`: `isTreeIndented`, the sections and `genPriTree` as the class `PriNav`.
- `TreeState`: the widget's state as functions, with its lemmas.
- `Widget`: the class `TreeWidget`, whose methods mirror `build`, `setCurrentTreeItem`,
  `clickHandler`, `getVisibleSecTreeItems` and `keyHandler`.

Imperative code in the source is imperative here:

- loops and pushes become methods with loop invariants;
- the module array `_priTree` and the widget's sets become class fields.

Each such method is proved equal to a specification function, and the properties are lemmas
about those functions.

## Model

| member | source | states |
|---|---|---|
| Text.LastSegment | doxy-plus.js:918 | `split('/').pop()`: the result is a suffix without `/`, preceded by a `/` when it is shorter than the input |
| Text.StripExtension | doxy-plus.js:1929 | `replace(/\..*$/, '')`: a prefix of the input, cut exactly at the leftmost `.` that has no line terminator after it |
| Text.StripExtensionHasNoDot | doxy-plus.js:1929 | without line terminators, the stripped base holds no `.` |
| Text.StrLessIrreflexive | doxy-plus.js:1023-1029 | JavaScript string `<` is irreflexive |
| Text.StrLessTransitive | doxy-plus.js:1023-1029 | JavaScript string `<` is transitive |
| Text.StrLessTotal | doxy-plus.js:1023-1029 | distinct strings are ordered one way or the other |
| Text.StrLess | doxy-plus.js:1023-1029 | the string `<` of the comparator, defined as lexicographic order on characters with a proper prefix smaller; StrLessIrreflexive, StrLessTransitive and StrLessTotal make it a strict total order |
| Text.Lower | doxy-plus.js:1021-1022 | `toLowerCase` on a label, as ASCII lower-casing: the same length, each character lower-cased on its own |
| Text.IsHtmlEnd | doxy-plus.js:36 | `IS_HTML_END.test`, defined as ending in `.html` or `.xhtml` in any letter case; the page test of Projection.PushEntry and of Extract.Lifted |
| Text.NatToString | doxy-plus.js:1930 | the decimal text of an index: non-empty and made only of digits |
| Text.JoinPath | doxy-plus.js:1930 | `thisLevel.join('.')`: empty exactly for the empty path, and made only of digits and dots |
| NavTree.CloneTree | doxy-plus.js:802-807 | the deep copy equals the original tree |
| NavTree.Fetch | doxy-plus.js:826-836 | a chunk is `[]` or one of the arrays the loaded scripts define; a failed load gives `[]`; the global named by the full chunk name wins over the one named by its last segment |
| NavTree.ResolveNodes | doxy-plus.js:821-843 | one result per sibling, each resolved by `ResolveNode`, and none of them deferred |
| NavTree.ResolveNode | doxy-plus.js:821-848 | names and hrefs are kept and leaves are untouched; an array slot becomes its resolved children (same length); a deferred slot becomes its fetched chunk, resolved, or `[]` with no fuel left; no deferred slot is left below |
| NavTree.ResolvedChunkKept | doxy-plus.js:826-836 | when every chunk is already resolved, a deferred slot receives exactly the array its chunk defines (or `[]`) |
| NavTree.ResolveNodesIdentity | doxy-plus.js:821-848 | a tree without deferred slots is left as it is |
| NavTree.ResolveIdempotent | doxy-plus.js:821-848 | resolving twice equals resolving once |
| NavTree.LoadChildren | doxy-plus.js:821-843 | the walk over the siblings computes `ResolveNodes` |
| NavTree.LoadNode | doxy-plus.js:823-840 | one sibling: a deferred slot is replaced by its loaded chunk (or `[]`) and resolved, a child array is resolved, a leaf is kept: `ResolveNode` |
| NavTree.DefTree | doxy-plus.js:774-850 | a result exists exactly when `NAVTREE[0][2]` is an array; it is that array with every sibling resolved, so it is resolved and has that array's length |
| NavTree.GenDefTree | doxy-plus.js:842-849 | clone then load computes `DefTree` |
| TreePaths.Preorder | doxy-plus.js:911-929 | every listed path extends the level it starts at, from the given offset on |
| TreePaths.Ancestors | doxy-plus.js:2052-2070 | exactly the non-empty proper prefixes of a path |
| TreePaths.PreorderPrefix | doxy-plus.js:1911-2010 | pre-order lists every prefix of a listed path that is deeper than the start level |
| TreePaths.AncestorsAreItems | doxy-plus.js:2052-2070 | every proper ancestor of an item is an item |
| TreePaths.ItemsAreNodes | doxy-plus.js:1911-2010 | every item names a node of the forest |
| TreePaths.AncestorHasKids | doxy-plus.js:2052-2070 | the node at a proper ancestor of a node has a non-empty child array |
| Projection.Collect | doxy-plus.js:909-927 | every entry is a leaf whose href passes the page test |
| Projection.CollectInto | doxy-plus.js:909-927 | the recursive closure that pushes onto `result` appends `Collect` |
| Projection.CollectNode | doxy-plus.js:911-926 | one node pushes its entry when it passes, then its children's entries, whether or not it passed |
| Projection.PushEntry | doxy-plus.js:916-921 | the entry `[prefixedName, path, null]` is pushed exactly when the path is a page that passes the filters |
| Projection.IsPage | doxy-plus.js:916-921 | the page test, defined as: the href is a string whose last `/` segment has no `#`, ends in `.html`/`.xhtml` in any case, and starts with a filter when filters are given; PushEntry pushes exactly the entries that pass it |
| Projection.FlatAndPrune | doxy-plus.js:901-929 | `[]` for a non-array or empty input; otherwise leaf entries whose last href segment has no `#`, ends in `.html`/`.xhtml` in any case, and starts with a filter when filters are given |
| Projection.Flat | doxy-plus.js:901-929 | the value `flatAndPrune` returns, defined as the collection over a child array and `[]` for a non-array slot; FlatAndPrune computes it and FlatAndPruneIsPreorder equates it with the pre-order projection |
| Projection.Project | doxy-plus.js:909-927 | the reference projection, defined as one entry for each listed path whose node passes the page test, labelled with its ancestors' names; ProjectAppend and CollectIsPreorder relate it to the collection |
| Projection.CollectIsPreorder | doxy-plus.js:909-927 | the collected entries over a child array's tail project its pre-order |
| Projection.FlatAndPruneIsPreorder | doxy-plus.js:901-929 | output in depth-first pre-order, one entry per passing node, labelled with its ancestors' names joined by `sep` |
| Projection.ProjectAppend | doxy-plus.js:909-927 | projection distributes over concatenation of path lists |
| Extract.FirstNamed | doxy-plus.js:970 | `level.find` by exact name: the first index carrying the name, or none when no entry carries it |
| Extract.FindIn | doxy-plus.js:965-975 | a node found by a name chain carries the chain's last name |
| Extract.FindNodeByNameList | doxy-plus.js:965-975 | the loop computes `Find`; an empty chain finds nothing |
| Extract.FindOneName | doxy-plus.js:965-975 | one name finds a node exactly when some top-level node has it, and then the first such |
| Extract.FindTwoNames | doxy-plus.js:965-975 | two names find the first second-name match below the first first-name match, with a missing child array read as `[]` |
| Extract.Find | doxy-plus.js:965-975 | what `findNodeByNameList` returns, defined as nothing for an empty chain and otherwise the descent `FindIn`; FindNodeByNameList computes it, FindOneName and FindTwoNames characterise it |
| Extract.AnonFrom | doxy-plus.js:1000-1010 | `reAnon.exec`: the leftmost match position of `/anonymous_namespace\{([^}]+)\}$/`, or none |
| Extract.AnonMatch | doxy-plus.js:1009 | `reAnon.exec(label)`, defined as the search from position 0; RenameShape, EmptyGroupShape and the two examples say when it matches and where |
| Extract.Pretty | doxy-plus.js:1012-1014 | `pretty`, defined as the captured file followed by ` (prefix)` when text precedes the match; RenameShape, AnonExampleBare and AnonExampleNested give its value |
| Extract.Rename | doxy-plus.js:1016 | the entry `[pretty, href, null]` pushed onto `out` for a matching entry; SiphonSplit shows every match reappears this way |
| Extract.Kept | doxy-plus.js:1002-1018 | what `list` holds after the splices, defined as the entries whose label does not match, in order; SiphonAnonymousNamespaces computes it, SiphonSplit characterises it |
| Extract.Renamed | doxy-plus.js:1002-1018 | the renamed matches in list order, defined by recursion (`out` before sorting is their reversal); SiphonSplit and SiphonSorted characterise it |
| Extract.Insert | doxy-plus.js:1020-1031 | insertion keeps the multiset plus the new entry, and keeps a sorted list sorted |
| Extract.KeyLess | doxy-plus.js:1020-1031 | the comparator returning -1, defined as: lower-cased label `<`, and on equal labels `String(href ?? "")` `<`; KeyLessIrreflexive and KeyLessTransitive make it a strict order |
| Extract.KeyLessIrreflexive | doxy-plus.js:1020-1031 | no entry compares below itself |
| Extract.SameKey | doxy-plus.js:1020-1031 | the comparator returning 0, defined as equal lower-cased labels and equal `String(href ?? "")`; the tie relation of InsertStable and SortStable |
| Extract.Sorted | doxy-plus.js:1020-1031 | the order `out.sort` leaves, defined as: no entry compares below an earlier one; SortEntries and Insert ensure it |
| Extract.SortEntries | doxy-plus.js:1020-1031 | the sort is a permutation and sorted by lower-cased label, then href |
| Extract.InsertStable | doxy-plus.js:1020-1031 | inserting into a sorted list places the new entry after every entry that compares equal to it, and keeps the order of the tied entries |
| Extract.SortStable | doxy-plus.js:1020-1031 | the sort is stable: for every key, the entries comparing equal to it keep their relative order |
| Extract.KeyLessTransitive | doxy-plus.js:1020-1031 | the comparator is transitive |
| Extract.SiphonAnonymousNamespaces | doxy-plus.js:996-1034 | the backward loop with `splice` leaves `Kept(list)` and returns the renamed matches, reversed, then sorted |
| Extract.SiphonSplit | doxy-plus.js:996-1034 | an entry stays exactly when its label does not match; every match reappears renamed; the two parts count the list |
| Extract.SiphonSorted | doxy-plus.js:1020-1031 | the side list is sorted and holds exactly the renamed matches |
| Extract.RevAppend | doxy-plus.js:1000-1018 | reversal of a concatenation, as the backward walk produces it |
| Extract.RenameShape | doxy-plus.js:1012-1016 | a scope free of `{`, the marker, a file and `}` match right after the scope and become `file (scope)`, or `file` without a scope |
| Extract.AnonExampleBare | doxy-plus.js:1012-1016 | `anonymous_namespace{file.cpp}` becomes `file.cpp` |
| Extract.AnonExampleNested | doxy-plus.js:1012-1016 | `npi::anonymous_namespace{file.cpp}` becomes `file.cpp (npi::)` |
| Extract.EmptyGroupShape | doxy-plus.js:1000 | any scope free of `{`, followed by the marker and `}` at once (as in `npi::anonymous_namespace{}`), does not match |
| Extract.FindAll | doxy-plus.js:1064-1070 | the loop finds the first `All` index, or -1 |
| Extract.Lifted | doxy-plus.js:1064-1077 | a section comes out exactly when a first `All` entry exists, its href is an HTML page and an entry remains; it then has that href and the list without that entry |
| Extract.LiftAll | doxy-plus.js:1063-1077 | the search, splice, test and push compute `Lifted` |
| Storage.Save | doxy-plus.js:164-167 | the key gets the value, or is removed for `undefined`; other keys are unchanged |
| Storage.LoadToken | doxy-plus.js:173-178 | a token is read exactly when one is stored under `gen_data` |
| Storage.LoadTree | doxy-plus.js:173-178 | a forest is read exactly when one is stored under `pri_tree` |
| Storage.LoadFlag | doxy-plus.js:173-178 | `load(KEY__PRI_TREE_INDENTED, false)` is true exactly when `true` is stored |
| Storage.LoadIds | doxy-plus.js:1899-1902 | `new Set(load(key, []))`, defined as the stored id set, or empty when none is stored; IdsRoundTrip characterises it |
| Storage.IdsRoundTrip | doxy-plus.js:164-178 | saved ids read back as saved; other keys keep their ids |
| Primary.IsTreeIndented | doxy-plus.js:297-338 | false exactly for a non-empty tree whose every top entry has a non-empty child array of leaves |
| Primary.TwoLevel | doxy-plus.js:297-338 | the shape `isTreeIndented` answers `false` for, defined as a non-empty tree whose every top entry has a non-empty child array of leaves; IsTreeIndented computes its negation |
| Primary.NamespacesStep | doxy-plus.js:1037-1055 | the Namespaces block computes the first of the seven sections, `NamespacesSection` |
| Primary.NamespacesSection | doxy-plus.js:1037-1055 | the Namespaces section: from `Namespaces -> Namespace List` with an HTML href and a child array, the `namespace` pages with their anonymous tail, when that list is non-empty; it is titled `Namespaces` |
| Primary.WithAnonymousTail | doxy-plus.js:1042-1050 | the Namespace List entries, defined as the kept entries, then `-- ANONYMOUS --` and the sorted renamed ones when there are any; AnonymousTailStep computes it |
| Primary.Run | doxy-plus.js:1037-1184 | a section a block yields is titled after that block |
| Primary.AnonymousTailStep | doxy-plus.js:1042-1050 | kept entries, then `-- ANONYMOUS --` and the sorted anonymous entries when there are any |
| Primary.MembersStep | doxy-plus.js:1058-1079 | a members block computes `MembersSection` |
| Primary.MembersSection | doxy-plus.js:1058-1080 | a members section: from `group -> item` with a non-empty child array, the flattened list with its `All` entry lifted out; it carries the given title |
| Primary.ListStep | doxy-plus.js:1083-1103 | a list block computes `ListSection` |
| Primary.ListSection | doxy-plus.js:1083-1091 | a list section: the node's own HTML page with its filtered entries, when there are any; it carries the given title |
| Primary.ExtraStep | doxy-plus.js:1106-1125 | the `[Hierarchy]`/`[Index]` lookup computes `ClassesExtra` |
| Primary.ClassesExtra | doxy-plus.js:1106-1125 | the `[Hierarchy]` or `[Index]` link, defined as a leaf with the page's href when `Classes -> item` has an HTML href, else nothing; ExtraStep computes it |
| Primary.ClassesSection | doxy-plus.js:1094-1125 | the Classes section followed by its extra links; it is titled `Classes` |
| Primary.SectionTitle | doxy-plus.js:1037-1184 | the `k`-th block's section carries the `k`-th title |
| Primary.Section | doxy-plus.js:1037-1184 | the section the `k`-th block yields, defined through the block table; SectionTitle and SectionWellFormed characterise it |
| Primary.Forest | doxy-plus.js:1037-1184 | the rebuilt forest, defined as the seven blocks' sections in block order; ForestOrdered characterises it and PriNav.PushSections pushes it |
| Primary.SectionWellFormed | doxy-plus.js:1037-1184 | every pushed section has an HTML href and a non-empty list of leaf entries |
| Primary.ForestOrdered | doxy-plus.js:1037-1184 | the rebuilt forest lists each section at most once, in the order Namespaces, Globals, Concepts, Classes, Class Members, Files, File Members |
| Primary.AssembleOrdered | doxy-plus.js:1037-1184 | the sections from the `k`-th on are well formed and in strictly increasing order |
| Primary.IndentedIffEmpty | doxy-plus.js:1233 | after a rebuild the indentation flag is set exactly when the forest is empty |
| Primary.PriNav.GenPriTree | doxy-plus.js:858-1243 | the state after `genPriTree` is `GenPriTreeSpec` of the state before |
| Primary.GenPriTreeSpec | doxy-plus.js:858-1243 | the specification of `genPriTree`, defined as: on a cache hit the stored forest and flag, saved again; with no or an empty default tree the emptied forest and the store as it was; otherwise `Forest(def)` with flag `!TwoLevel`, saved; CacheReuse, EmptyDefaultChangesNothing, RebuildSaves and GenPriTreeIdempotent characterise it |
| Primary.CacheHit | doxy-plus.js:874-879 | the cache test, defined as: the stored token equals the page's `DOXY_PLUS_DATE_TIME` and the stored forest is a non-empty array; CacheReuse says what a hit returns |
| Primary.PriNav.constructor | doxy-plus.js:145-148 | the module state starts with an empty `_priTree`, no indentation and the given store |
| Primary.PriNav.PushSections | doxy-plus.js:1037-1184 | the seven blocks push exactly `Forest(def)` onto the emptied `_priTree` |
| Primary.PriNav.PushSection | doxy-plus.js:1037-1184 | a block's push: `_priTree` grows from the sections of the first `k` blocks to those of the first `k + 1`; flag and store are unchanged |
| Primary.PriNav.PushNamespaces | doxy-plus.js:1037-1055 | pushes the Namespaces section, if any, onto the empty `_priTree` |
| Primary.PriNav.PushGlobals | doxy-plus.js:1058-1080 | pushes the Globals section, if any, after the first block's |
| Primary.PriNav.PushConcepts | doxy-plus.js:1083-1091 | pushes the Concepts section, if any, after the first two blocks' |
| Primary.PriNav.PushClasses | doxy-plus.js:1094-1125 | pushes the Classes section with its extra links, if any, after the first three blocks' |
| Primary.PriNav.PushClassMembers | doxy-plus.js:1128-1150 | pushes the Class Members section, if any, after the first four blocks' |
| Primary.PriNav.PushFiles | doxy-plus.js:1153-1161 | pushes the Files section, if any, after the first five blocks' |
| Primary.PriNav.PushFileMembers | doxy-plus.js:1163-1184 | pushes the File Members section, if any, after the first six blocks' |
| Primary.PriNav.PushClassList | doxy-plus.js:1094-1125 | `Classes` is pushed, then its two extra links are appended to it in place |
| Primary.PriNav.AppendToLast | doxy-plus.js:1113 | `_priTree[_priTree.length - 1][2].push(...)` extends the last section only |
| Primary.PriNav.SaveState | doxy-plus.js:1238-1240 | the three closing saves |
| Primary.SaveAll | doxy-plus.js:1238-1240 | the three closing saves, defined as saving token, forest and flag in turn; SaveAllLoads and SaveAllTwice characterise it |
| Primary.SaveAllLoads | doxy-plus.js:1238-1240 | after the three saves the loads return the token, the forest and the flag that were saved |
| Primary.SaveAllTwice | doxy-plus.js:1238-1240 | saving the same three values again changes nothing |
| Primary.CacheReuse | doxy-plus.js:871-894 | on a cache hit the stored forest and flag come back, whatever the default tree is |
| Primary.RebuildSaves | doxy-plus.js:978-1240 | a rebuild from a non-empty default tree yields `Forest(def)` and saves token, forest and flag, which read back |
| Primary.EmptyDefaultChangesNothing | doxy-plus.js:978-982 | with no default tree the forest is emptied and nothing is saved |
| Primary.GenPriTreeIdempotent | doxy-plus.js:858-1243 | a second run on the same page gives the state of the first |
| TreeState.IdNamesTree | doxy-plus.js:2120 | an id starts with `P:` exactly for the primary tree |
| TreeState.IdCollision | doxy-plus.js:1926-1930 | the id is not unique as the comment there says: two different items of the secondary tree can receive the same `dp-item-id` (`S:1.2.x`) |
| TreeState.FileBase | doxy-plus.js:1928 | `fileBase`, defined as the text `null` without a non-empty path, else the last `/` segment cut at its first `.` for the primary tree and the whole path for the secondary tree; IdCollision shows what keeping the dots does |
| TreeState.ItemId | doxy-plus.js:1927-1930 | the `dp-item-id`, defined as prefix, dotted index path, `.` and file base; IdNamesTree and IdCollision characterise it |
| TreeState.DefaultOpen | doxy-plus.js:1860-1869 | `cfg.defaultOpen`: primary items start closed, secondary items open; `SetOpen` is stated against it |
| TreeState.SeededOpen | doxy-plus.js:1967 | `isOpen` at build, defined as: a stored id flips the default; SeedSetOpen and BuildConsistent characterise it |
| TreeState.IsParent | doxy-plus.js:1983 | `dp-has-children`, defined as an existing item with a non-empty child array; AncestorsAreParents and BuildKeepsOnlyParents use it |
| TreeState.Consistent | doxy-plus.js:1855-1872 | the invariant tying the view to `_priExpNodes`/`_secColNodes`, defined as: only parent items are open, and a parent item is open exactly when its id's presence differs from the default; BuildConsistent establishes it and ToggleConsistent, KeyConsistent and SetCurrentConsistent preserve it |
| TreeState.LinkOf | doxy-plus.js:1953 | a link exists exactly for a non-empty path: `DOC_ROOT + path` for primary, the path for secondary |
| TreeState.SetOpen | doxy-plus.js:1855-1872 | after `setOpen` the id is in the set exactly when its state differs from the default; other ids are unchanged |
| TreeState.OpenAll | doxy-plus.js:2052-2070 | opening a set of ids puts each in the set exactly when open is not the default; other ids are unchanged |
| TreeState.LinkAt | doxy-plus.js:1953-1961 | an item has a link exactly when it exists and its path is non-empty |
| TreeState.SeedForest | doxy-plus.js:1911-2010 | the stack walk's seeding equals seeding every parent item of the forest |
| TreeState.SeedSetOpen | doxy-plus.js:1967-1988 | recording the seeded state adds the id exactly when it was stored |
| TreeState.VisibleIsShown | doxy-plus.js:2137-2169 | the walk lists, in document order, exactly the items with a link all of whose ancestors are open |
| TreeState.VisibleMembers | doxy-plus.js:2137-2169 | an item is visible exactly when it has a link and every ancestor is open |
| TreeState.Visible | doxy-plus.js:2137-2169 | `getVisibleSecTreeItems`, defined as the walk over the whole forest; VisibleIsShown and VisibleMembers characterise it |
| TreeState.VisibleFrom | doxy-plus.js:2144-2160 | `walk(ul)` over one list, defined as: each item with a link, then the walk of its children when it is an open parent, then its later siblings; Widget.TreeWidget.Walk computes it |
| TreeState.FirstLinked | doxy-plus.js:2038-2046 | the first index from `i` whose link is the target, or none |
| TreeState.CurrentFor | doxy-plus.js:2034-2046 | none for an empty target; otherwise the current item is the first item whose link equals the target, and none when no item's link does |
| TreeState.IndexOf | doxy-plus.js:2186 | `indexOf`: the first position of an item, or -1 exactly when it is absent |
| TreeState.BuildConsistent | doxy-plus.js:1895-2012 | after `build` every parent item is open exactly when its id's presence in the live set differs from the default |
| TreeState.BuildKeepsOnlyParents | doxy-plus.js:1895-2012 | `build` keeps exactly the stored ids that name a parent item |
| TreeState.ReloadRestores | doxy-plus.js:1895-2012 | saving a consistent live set and building again opens exactly the items that were open |
| TreeState.AncestorsAreParents | doxy-plus.js:2052-2070 | the ancestors of an item are parent items |
| TreeState.ToggleConsistent | doxy-plus.js:2093-2127 | a toggle of one parent item keeps the tree consistent, given distinct ids |
| TreeState.OpenAncestorsConsistent | doxy-plus.js:2052-2070 | the ancestor walk keeps the tree consistent, given distinct ids |
| TreeState.SetCurrentConsistent | doxy-plus.js:2017-2084 | marking the current item keeps the tree consistent, given distinct ids |
| TreeState.SetCurrentShows | doxy-plus.js:2038-2070 | the marked current item is visible afterwards |
| TreeState.ToggleTwice | doxy-plus.js:2093-2127 | two toggles of the same item restore its open state and the live set |
| TreeState.ToggleItem | doxy-plus.js:2103-2124 | one toggle of `clickHandler`, defined as closing an open item or opening a closed one, recording its id with `setOpen`; ToggleTwice characterises it and Widget.TreeWidget.ClickNode performs it on parent items |
| TreeState.ClickLinkOf | doxy-plus.js:2128-2134 | a simulated click on an item's link, defined as marking it visited and navigating when it has a link; ClickVisible characterises it |
| TreeState.VisibleGrows | doxy-plus.js:2137-2169 | opening more items never shortens the visible list |
| TreeState.ClickVisible | doxy-plus.js:2128-2134 | clicking a visible item's link always navigates and marks that item visited |
| TreeState.KeyDown | doxy-plus.js:2196-2207 | ArrowDown navigates exactly when the current item is visible, at least two items are visible and a next one exists; it then goes to the next visible item without wrap; otherwise nothing changes |
| TreeState.KeyUp | doxy-plus.js:2208-2219 | ArrowUp navigates exactly when a previous visible item exists, going there without wrap; otherwise nothing changes |
| TreeState.KeyHomeEnd | doxy-plus.js:2323-2342 | Home and End go to the first and the last visible item under the same guard, and never save |
| TreeState.KeyConsistent | doxy-plus.js:2171-2344 | every key keeps the tree consistent, given distinct ids |
| TreeState.LeftConsistent | doxy-plus.js:2253-2322 | ArrowLeft keeps the tree consistent, whether it closes the item or its parent |
| TreeState.RightThenLeft | doxy-plus.js:2220-2322 | an ArrowRight that opened the current item, followed by ArrowLeft, restores the view and saves |
| TreeState.RightShape | doxy-plus.js:2220-2252 | ArrowRight saves only when it opened a closed, visible, current parent item |
| TreeState.KeyStep | doxy-plus.js:2171-2344 | `keyHandler`, defined as: nothing unless at least two items are visible and the current one is among them, else the key's effect `KeyAt`; KeyDown, KeyUp, KeyHomeEnd, RightShape, RightThenLeft and KeyConsistent characterise it; Widget.TreeWidget.KeyHandler computes it |
| TreeState.KeyAt | doxy-plus.js:2193-2343 | the `switch (evt.key)`, defined as: ArrowDown and ArrowUp click the next or previous visible link without wrap, ArrowRight opens a closed current parent, ArrowLeft is `LeftOf`, Home and End click the first and last visible link, any other key does nothing; the key lemmas characterise it; Widget.TreeWidget.KeyOn computes it |
| TreeState.LeftOf | doxy-plus.js:2253-2322 | the ArrowLeft case, defined as: close the current item if it is an open parent, else close its open parent and go to that parent's link, else nothing; LeftConsistent and RightThenLeft characterise it; Widget.TreeWidget.KeyLeft computes it |
| Widget.TreeWidget.Persist | doxy-plus.js:1855-1872 | the live set is written under the tree's key |
| Widget.TreeWidget.constructor | doxy-plus.js:150-151 | a tree starts with nothing open, visited or current, and an empty live set |
| Widget.TreeWidget.Build | doxy-plus.js:1876-2014 | nothing is visited or current; an empty forest stops there; otherwise open items and live set are the seeded ones for the stored set, and the live set is saved |
| Widget.TreeWidget.BuildBranch | doxy-plus.js:1914-2010 | one popped entry contributes its seeding and pushes its children |
| Widget.TreeWidget.BuildItem | doxy-plus.js:1920-2007 | one node is seeded open when stored differs from default, and a parent item's children are pushed |
| Widget.TreeWidget.SetCurrent | doxy-plus.js:2017-2084 | current becomes `CurrentFor(target)`, which is also visited; its ancestors are opened and recorded; the set is saved unless the target is empty |
| Widget.TreeWidget.OpenAncestors | doxy-plus.js:2052-2070 | every ancestor is opened and its id recorded as open |
| Widget.TreeWidget.ClickNode | doxy-plus.js:2093-2127 | only a parent item flips; its single id is recorded with the new state and the set saved; anything else changes nothing |
| Widget.TreeWidget.ClickLink | doxy-plus.js:2128-2134 | an item with a link becomes visited and is navigated to |
| Widget.TreeWidget.VisibleItems | doxy-plus.js:2137-2169 | the walk returns `Visible(forest, open)` |
| Widget.TreeWidget.Walk | doxy-plus.js:2144-2160 | the walk of one list appends its visible part |
| Widget.TreeWidget.WalkItem | doxy-plus.js:2148-2159 | one item of `walk`: appends the item when it has a link, then the walk of its children when it is an open parent |
| Widget.TreeWidget.KeyHandler | doxy-plus.js:2171-2344 | the new open, live and visited state, the navigation and the save are those of `KeyStep` |
| Widget.TreeWidget.KeyOn | doxy-plus.js:2193-2343 | the new open, live and visited state, the navigation and the save are those of `KeyAt`; the current item is unchanged |
| Widget.TreeWidget.KeyLeft | doxy-plus.js:2253-2322 | ArrowLeft closes the current item, or else its open parent item and goes to its link |

## Left out

- The DOM is not modelled: elements, classes, aria attributes, glyphs, `scrollIntoView`,
  styling and fragments. Only ids, open, visited and current state are kept.
- Timers are not modelled: `waitFor`, `requestAnimationFrame` polling and the debounce of
  `saveDebounced`. A debounced save is modelled as happening at once, when it is scheduled.
- The store.js layer is a map without expiry, `purgeExpiredData` is left out, and `loadScript`
  is replaced by the chunk environment `NavTree.ChunkEnv`.
- NavTree.ResolveNodes: chunk resolution carries a fuel bound. A chunk met with no fuel left
  resolves to `[]`, as a failed load does. A page whose chunks nest deeper than the fuel is
  therefore not modelled exactly.
- The `Promise.all` fan-out of `loadChildren` is modelled sequentially. The siblings do not
  depend on each other.
- The stored id array is kept as a set: its order is never read back.
- Extract.KeyLess: `toLowerCase` is modelled as ASCII lower-casing, and string `<` per character
  rather than per UTF-16 code unit.
- In-place aliasing of node arrays is not modelled: `_priTree` entries are values.
- `genSecTree`, which builds the secondary tree data from the page, is not part of this model.
  The widget takes that forest as a parameter.
- Not modelled: `checkDualNavLayout`, `checkReload`, the `PROJ_NAMESPACE` slug, the resizers
  and the page cosmetics.
- The `hashchange`, `mousedown` and `keydown` listener wiring is not modelled. `KeyHandler` is
  the handler for the six keys it reacts to; `OtherKey` does nothing.
- `link.href` resolving a relative URL against the page is not modelled. A link is the string
  that was assigned to it, and the current-item match compares that attribute.
- TreeState.KeyConsistent, TreeState.ToggleConsistent, TreeState.SetCurrentConsistent:
  preserving consistency needs distinct parent items to have distinct ids (`DistinctIds`). The
  source does not check this, and it can fail: `TreeState.IdCollision` shows two items of the
  secondary tree with the same id.
- The doc comment at doxy-plus.js:986-990 gives the renamed label as `file.cpp npi::`. The code
  produces `file.cpp (npi::)`, and the model follows the code.
