/**
 * One rendered navigation tree of `buildTrees` as an object: the forest it shows, which items are
 * open, visited and current, the live set `cfg.mainSet`, and the store it persists that set to.
 */
module Widget {
  import opened Wrappers
  import opened NavTree
  import opened TreePaths
  import opened TreeState
  import opened Storage
  import Seqs

  class TreeWidget {
    /** Which tree this is (`primary` or `secondary`). */
    const kind: Kind
    /** The data it is built from (`_priTree` or `_secTree`). */
    const forest: seq<Node>
    /** `DOC_ROOT`, the prefix of every primary link. */
    const docRoot: string
    /** The store key of the live set (`KEY__PRI_NAV_EXPANDED_NODES` or the page's `HTML_NAME`). */
    const key: string

    /** The items carrying `dp-node-open`. */
    var open: set<Path>
    /** The items carrying `dp-visited`. */
    var visited: set<Path>
    /** The item carrying `dp-current`, if any. */
    var current: Option<Path>
    /** `_priExpNodes` (open ids) or `_secColNodes` (closed ids). */
    var live: set<string>
    var store: Store

    constructor (kind0: Kind, forest0: seq<Node>, docRoot0: string, key0: string, store0: Store)
      ensures kind == kind0 && forest == forest0 && docRoot == docRoot0 && key == key0 && store == store0
      ensures open == {} && visited == {} && current == None && live == {}
    {
      kind, forest, docRoot, key := kind0, forest0, docRoot0, key0;
      open, visited, current, live := {}, {}, None, {};
      store := store0;
    }

    /** `cfg.saveDebounced()`, taken to have fired: the live set is written under the tree's key. */
    method Persist()
      modifies this
      ensures store == Save(old(store), key, Some(SIds(live)))
      ensures open == old(open) && visited == old(visited) && current == old(current) && live == old(live)
    {
      store := Save(store, key, Some(SIds(live)));
    }

    /**
     * `build(kind)`: fresh items, none visited or current. An empty forest stops there; otherwise
     * the live set is cleared and every parent item is seeded from the stored set, open exactly
     * when its id's presence there differs from the default, and the live set is saved.
     */
    method Build()
      modifies this
      ensures visited == {} && current == None
      ensures forest == [] ==> open == {} && live == old(live) && store == old(store)
      ensures forest != [] ==>
        var prv := LoadIds(old(store), key);
        open == OpenAtBuild(kind, forest, prv) && live == LiveAtBuild(kind, forest, prv) &&
        store == Save(old(store), key, Some(SIds(live)))
    {
      open, visited, current := {}, {}, None;
      if |forest| == 0 {
        return;
      }
      live := {};
      var prv := LoadIds(store, key);
      var stack := [Frame(forest, [])];
      assert StackOpen(kind, prv, stack) == SeedOpen(kind, prv, forest, [], 0);
      assert StackLive(kind, prv, stack) == SeedLive(kind, prv, forest, [], 0);
      while |stack| > 0
        invariant open + StackOpen(kind, prv, stack) == SeedOpen(kind, prv, forest, [], 0)
        invariant live + StackLive(kind, prv, stack) == SeedLive(kind, prv, forest, [], 0)
        invariant live <= prv
        invariant visited == {} && current == None && store == old(store)
        decreases StackWeight(stack)
      {
        var frame := stack[|stack| - 1];
        stack := stack[..|stack| - 1];
        stack := BuildBranch(prv, frame.branch, frame.level, stack);
      }
      SeedForest(kind, prv, forest);
      Persist();
    }

    /** `branch.forEach(...)`: seeds each node of one popped entry and pushes its children. */
    method BuildBranch(prv: set<string>, b: seq<Node>, l: Path, stack0: seq<Frame>) returns (stack: seq<Frame>)
      requires live <= prv
      modifies this
      ensures open + StackOpen(kind, prv, stack) == old(open) + SeedOpen(kind, prv, b, l, 0) + StackOpen(kind, prv, stack0)
      ensures live + StackLive(kind, prv, stack) == old(live) + SeedLive(kind, prv, b, l, 0) + StackLive(kind, prv, stack0)
      ensures live <= prv
      ensures StackWeight(stack) <= StackWeight(stack0) + NodesSize(b)
      ensures visited == old(visited) && current == old(current) && store == old(store)
    {
      stack := stack0;
      var idx := 0;
      assert b[0..] == b;
      while idx < |b|
        invariant 0 <= idx <= |b|
        invariant open + SeedOpen(kind, prv, b[idx..], l, idx) + StackOpen(kind, prv, stack)
               == old(open) + SeedOpen(kind, prv, b, l, 0) + StackOpen(kind, prv, stack0)
        invariant live + SeedLive(kind, prv, b[idx..], l, idx) + StackLive(kind, prv, stack)
               == old(live) + SeedLive(kind, prv, b, l, 0) + StackLive(kind, prv, stack0)
        invariant live <= prv
        invariant StackWeight(stack) + NodesSize(b[idx..]) <= StackWeight(stack0) + NodesSize(b)
        invariant visited == old(visited) && current == old(current) && store == old(store)
      {
        stack := BuildItem(prv, b, l, idx, stack);
        idx := idx + 1;
      }
    }

    /** One node of `forEach`: its id, its seeded state and, for a parent item, its pending children. */
    method BuildItem(prv: set<string>, b: seq<Node>, l: Path, idx: nat, stack0: seq<Frame>) returns (stack: seq<Frame>)
      requires idx < |b|
      requires live <= prv
      modifies this
      ensures open + SeedOpen(kind, prv, b[idx + 1..], l, idx + 1) + StackOpen(kind, prv, stack)
           == old(open) + SeedOpen(kind, prv, b[idx..], l, idx) + StackOpen(kind, prv, stack0)
      ensures live + SeedLive(kind, prv, b[idx + 1..], l, idx + 1) + StackLive(kind, prv, stack)
           == old(live) + SeedLive(kind, prv, b[idx..], l, idx) + StackLive(kind, prv, stack0)
      ensures live <= prv
      ensures StackWeight(stack) + NodesSize(b[idx + 1..]) <= StackWeight(stack0) + NodesSize(b[idx..])
      ensures visited == old(visited) && current == old(current) && store == old(store)
    {
      var node := b[idx];
      var thisLevel := l + [idx];
      var id := ItemId(kind, thisLevel, node.href);
      var isOpen := (id in prv) != DefaultOpen(kind);
      SeedItemOpen(kind, prv, b, l, idx, open, stack0);
      SeedItemLive(kind, prv, b, l, idx, live, stack0);
      SeedItemWeight(b, l, idx, stack0);
      stack := stack0;
      if node.kids.Children? && |node.kids.nodes| > 0 {
        if isOpen {
          open := open + {thisLevel};
        }
        live := SetOpen(kind, live, id, isOpen);
        stack := stack + [Frame(node.kids.nodes, thisLevel)];
      }
    }
  
    /**
     * `setCurrentTreeItem(container, kind)`: clears the current item; for a non-empty target the
     * first item in document order whose link is the target becomes current and visited, all its
     * ancestors are opened and recorded, and the live set is saved whether or not one matched.
     */
    method SetCurrent(target: string)
      modifies this
      ensures var hit := CurrentFor(kind, docRoot, forest, target);
        current == hit &&
        visited == old(visited) + (if hit.Some? then {hit.value} else {}) &&
        open == old(open) + (if hit.Some? then Ancestors(hit.value) else {}) &&
        live == if hit.Some? then OpenAll(kind, old(live), AncestorIds(kind, forest, hit.value)) else old(live)
      ensures store == if target == "" then old(store) else Save(old(store), key, Some(SIds(live)))
    {
      current := None;
      if target == "" {
        return;
      }
      var items := Items(forest);
      var i := 0;
      while i < |items|
        invariant 0 <= i <= |items|
        invariant FirstLinked(kind, docRoot, forest, items, target, 0) == FirstLinked(kind, docRoot, forest, items, target, i)
        invariant current == None && open == old(open) && live == old(live) && visited == old(visited) && store == old(store)
      {
        if LinkAt(kind, docRoot, forest, items[i]) == Some(target) {
          var item := items[i];
          current := Some(item);
          visited := visited + {item};
          OpenAncestors(item);
          Persist();
          return;
        }
        i := i + 1;
      }
      Persist();
    }

    /** The ancestor walk: every enclosing item, innermost first, is opened and recorded as open. */
    method OpenAncestors(p: Path)
      modifies this
      ensures open == old(open) + Ancestors(p)
      ensures live == OpenAll(kind, old(live), AncestorIds(kind, forest, p))
      ensures visited == old(visited) && current == old(current) && store == old(store)
    {
      var k := |p| - 1;
      AncestorsAboveStart(kind, forest, p);
      while k >= 1
        invariant -1 <= k < |p|
        invariant open == old(open) + AncestorsAbove(p, k)
        invariant live == OpenAll(kind, old(live), AncestorIdsAbove(kind, forest, p, k))
        invariant visited == old(visited) && current == old(current) && store == old(store)
      {
        var parent := p[..k];
        OpenAncestorStep(kind, forest, p, k, old(open), old(live), open, live);
        open := open + {parent};
        live := SetOpen(kind, live, IdAt(kind, forest, parent), true);
        k := k - 1;
      }
      OpenAncestorsDone(kind, forest, p, k);
    }

    /**
     * `clickHandler` on an item's toggle button: only a parent item reacts; its open state flips,
     * the live set records the new state of that one id, and the set is saved.
     */
    method ClickNode(p: Path)
      modifies this
      ensures IsParent(forest, p) ==>
        open == (if p in old(open) then old(open) - {p} else old(open) + {p}) &&
        live == SetOpen(kind, old(live), IdAt(kind, forest, p), p !in old(open)) &&
        store == Save(old(store), key, Some(SIds(live)))
      ensures !IsParent(forest, p) ==> open == old(open) && live == old(live) && store == old(store)
      ensures visited == old(visited) && current == old(current)
    {
      var n := NodeAt(forest, p);
      if n.None? || !(n.value.kids.Children? && |n.value.kids.nodes| > 0) {
        return;
      }
      var id := ItemId(kind, p, n.value.href);
      var isOpen := p !in open;
      open := if isOpen then open + {p} else open - {p};
      live := SetOpen(kind, live, id, isOpen);
      Persist();
    }

    /** `clickHandler` on an item's link: an item with a link becomes visited and the page follows it. */
    method ClickLink(p: Path) returns (nav: Option<string>)
      modifies this
      ensures nav == LinkAt(kind, docRoot, forest, p)
      ensures visited == if nav.Some? then old(visited) + {p} else old(visited)
      ensures open == old(open) && live == old(live) && current == old(current) && store == old(store)
    {
      nav := LinkAt(kind, docRoot, forest, p);
      if nav.Some? {
        visited := visited + {p};
      }
    }

    /** `getVisibleSecTreeItems()`: the walk over the top-level list. */
    method VisibleItems() returns (result: seq<Path>)
      ensures result == Visible(forest, open)
    {
      result := Walk(forest, [], []);
    }

    /** `walk(ul)` for the list holding `b` under `l`, pushing onto the shared `result`. */
    method Walk(b: seq<Node>, l: Path, acc: seq<Path>) returns (result: seq<Path>)
      ensures result == acc + VisibleFrom(open, b, l, 0)
      decreases b, 1
    {
      result := acc;
      var idx := 0;
      assert b[0..] == b;
      while idx < |b|
        invariant 0 <= idx <= |b|
        invariant result + VisibleFrom(open, b[idx..], l, idx) == acc + VisibleFrom(open, b, l, 0)
      {
        VisibleUnfold(open, b, l, idx);
        ghost var before := result;
        result := WalkItem(b[idx], l + [idx], result);
        Seqs.Append4(before, if HasLink(b[idx].href) then [l + [idx]] else [],
          if HasKids(b[idx]) && l + [idx] in open then VisibleFrom(open, b[idx].kids.nodes, l + [idx], 0) else [],
          VisibleFrom(open, b[idx + 1..], l, idx + 1));
        idx := idx + 1;
      }
    }

    /** One item of `walk`: push it if it has a link, then walk its children if it is open. */
    method WalkItem(n: Node, p: Path, acc: seq<Path>) returns (result: seq<Path>)
      ensures result == acc + (if HasLink(n.href) then [p] else [])
        + (if HasKids(n) && p in open then VisibleFrom(open, n.kids.nodes, p, 0) else [])
      decreases n, 2
    {
      result := acc;
      if n.href.Some? && |n.href.value| > 0 {
        result := result + [p];
      }
      ghost var mid := result;
      if n.kids.Children? && |n.kids.nodes| > 0 && p in open {
        result := Walk(n.kids.nodes, p, result);
      } else {
        assert result == mid + [];
      }
    }

    /**
     * `keyHandler(evt)`, installed for the secondary tree only: the effect `KeyStep` describes,
     * saving the live set when an item was opened or closed; the result is the link the page
     * navigates to, if any.
     */
    method KeyHandler(pressed: Key) returns (nav: Option<string>)
      requires kind == Secondary
      modifies this
      ensures var r := KeyStep(kind, docRoot, forest, old(View(open, live, visited)), current, pressed);
        View(open, live, visited) == r.view && nav == r.nav &&
        store == if r.saved then Save(old(store), key, Some(SIds(live))) else old(store)
      ensures current == old(current)
    {
      nav := None;
      var focusables := VisibleItems();
      if |focusables| < 2 {
        return;
      }
      var idx := if current.Some? then IndexOf(focusables, current.value) else -1;
      if idx == -1 {
        return;
      }
      nav := KeyOn(focusables, idx, pressed);
    }

    /** The `switch (evt.key)` of `keyHandler`, with `focusables[idx]` the current item. */
    method KeyOn(focusables: seq<Path>, idx: nat, pressed: Key) returns (nav: Option<string>)
      requires idx < |focusables|
      modifies this
      ensures var r := KeyAt(kind, docRoot, forest, old(View(open, live, visited)), focusables, idx, pressed);
        View(open, live, visited) == r.view && nav == r.nav &&
        store == if r.saved then Save(old(store), key, Some(SIds(live))) else old(store)
      ensures current == old(current)
    {
      nav := None;
      var cur := focusables[idx];
      match pressed {
        case ArrowDown =>
          if idx + 1 < |focusables| {
            nav := ClickLink(focusables[idx + 1]);
          }
        case ArrowUp =>
          if idx >= 1 {
            nav := ClickLink(focusables[idx - 1]);
          }
        case ArrowRight =>
          if IsParent(forest, cur) && cur !in open {
            open := open + {cur};
            live := SetOpen(kind, live, IdAt(kind, forest, cur), true);
            Persist();
          }
        case ArrowLeft =>
          nav := KeyLeft(cur);
        case Home =>
          nav := ClickLink(focusables[0]);
        case End =>
          nav := ClickLink(focusables[|focusables| - 1]);
        case OtherKey =>
      }
    }

    /** The `ArrowLeft` case of `keyHandler` on the current item `cur`. */
    method KeyLeft(cur: Path) returns (nav: Option<string>)
      modifies this
      ensures var r := LeftOf(kind, docRoot, forest, old(View(open, live, visited)), cur);
        View(open, live, visited) == r.view && nav == r.nav &&
        store == if r.saved then Save(old(store), key, Some(SIds(live))) else old(store)
      ensures current == old(current)
    {
      nav := None;
      if IsParent(forest, cur) && cur in open {
        open := open - {cur};
        live := SetOpen(kind, live, IdAt(kind, forest, cur), false);
        Persist();
      } else if |cur| > 1 && IsParent(forest, cur[..|cur| - 1]) && cur[..|cur| - 1] in open {
        var par := cur[..|cur| - 1];
        open := open - {par};
        live := SetOpen(kind, live, IdAt(kind, forest, par), false);
        Persist();
        nav := LinkAt(kind, docRoot, forest, par);
      }
    }
  }
}
