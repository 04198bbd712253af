/**
 * The lookups and list rewrites `genPriTree` applies to the default tree and to flattened lists:
 * finding a node by a chain of section names, siphoning anonymous-namespace entries into a sorted
 * side list, and lifting a list's `All` entry out as the section's own reference.
 */
module Extract {
  import opened Wrappers
  import opened NavTree
  import Text
  import Seqs

  // ---------------------------------------------------------------------------------------------
  // findNodeByNameList

  /** `level.find(item => item[0] === name)`, as the index of the first node carrying `name`. */
  function FirstNamed(level: seq<Node>, name: string): (r: Option<nat>)
    ensures r.Some? ==> r.value < |level| && level[r.value].name == name
    ensures r.Some? ==> forall k :: 0 <= k < r.value ==> level[k].name != name
    ensures r.None? ==> forall k :: 0 <= k < |level| ==> level[k].name != name
  {
    if level == [] then None
    else if level[0].name == name then Some(0)
    else match FirstNamed(level[1..], name)
      case None => None
      case Some(k) => Some(k + 1)
  }

  /** The level below a node: its child array, or `[]` when its kids slot holds no array. */
  function KidsOrEmpty(n: Node): seq<Node> {
    if n.kids.Children? then n.kids.nodes else []
  }

  /** Descends from `level` by the non-empty name chain `names`, taking the first match each time. */
  function FindIn(level: seq<Node>, names: seq<string>): (r: Option<Node>)
    requires |names| > 0
    ensures r.Some? ==> r.value.name == names[|names| - 1]
    decreases |names|
  {
    match FirstNamed(level, names[0])
    case None => None
    case Some(k) =>
      if |names| == 1 then Some(level[k])
      else FindIn(KidsOrEmpty(level[k]), names[1..])
  }

  /** The node `findNodeByNameList(tree, ...names)` returns; an empty chain finds nothing. */
  function Find(tree: seq<Node>, names: seq<string>): Option<Node> {
    if names == [] then None else FindIn(tree, names)
  }

  /** `findNodeByNameList`: walks the levels one name at a time and gives up at the first miss. */
  method FindNodeByNameList(tree: seq<Node>, names: seq<string>) returns (r: Option<Node>)
    ensures r == Find(tree, names)
    ensures r.Some? ==> |names| > 0 && r.value.name == names[|names| - 1]
  {
    if |names| == 0 {
      return None;
    }
    var level := tree;
    var node: Option<Node> := None;
    var k := 0;
    while k < |names|
      invariant 0 <= k <= |names|
      invariant k < |names| ==> Find(tree, names) == FindIn(level, names[k..])
      invariant k == |names| ==> Find(tree, names) == node
    {
      assert names[k..][0] == names[k];
      match FirstNamed(level, names[k]) {
        case None =>
          return None;
        case Some(i) =>
          node := Some(level[i]);
          if k + 1 < |names| {
            assert names[k..][1..] == names[k + 1..];
          }
          level := KidsOrEmpty(level[i]);
      }
      k := k + 1;
    }
    r := node;
  }

  /** Following a single section name finds the first top-level node with that name. */
  lemma FindOneName(tree: seq<Node>, name: string)
    ensures Find(tree, [name]).Some? <==> exists k :: 0 <= k < |tree| && tree[k].name == name
    ensures Find(tree, [name]).Some? ==> Find(tree, [name]).value == tree[FirstNamed(tree, name).value]
  {
  }

  /** Following `a` then `b` finds the first `b` below the first `a`. */
  lemma FindTwoNames(tree: seq<Node>, a: string, b: string)
    ensures Find(tree, [a, b]) ==
      match FirstNamed(tree, a)
      case None => None
      case Some(i) =>
        match FirstNamed(KidsOrEmpty(tree[i]), b)
        case None => None
        case Some(j) => Some(KidsOrEmpty(tree[i])[j])
  {
    assert [a, b][0] == a && [a, b][1..] == [b];
    match FirstNamed(tree, a) {
      case None =>
      case Some(i) =>
        assert Find(tree, [a, b]) == FindIn(KidsOrEmpty(tree[i]), [b]);
    }
  }

  // ---------------------------------------------------------------------------------------------
  // siphonAnonymousNamespaces

  /** The literal part of `/anonymous_namespace\{([^}]+)\}$/` up to the capture group. */
  const AnonMarker: string := "anonymous_namespace{"

  /**
   * `/anonymous_namespace\{([^}]+)\}$/` matches `s` at position `p`: the marker sits at `p`,
   * `s` ends in `}`, and between them lies a non-empty run free of `}`.
   */
  predicate AnonAt(s: string, p: int) {
    0 <= p && p + |AnonMarker| + 1 < |s| &&
    s[p..p + |AnonMarker|] == AnonMarker && s[|s| - 1] == '}' &&
    forall j :: p + |AnonMarker| <= j < |s| - 1 ==> s[j] != '}'
  }

  /** `exec` from position `i` on: the leftmost match position at or after `i`. */
  function AnonFrom(s: string, i: nat): (r: Option<nat>)
    ensures r.Some? ==> i <= r.value && AnonAt(s, r.value)
    ensures r.Some? ==> forall q :: i <= q < r.value ==> !AnonAt(s, q)
    ensures r.None? ==> forall q :: i <= q ==> !AnonAt(s, q)
    decreases |s| - i
  {
    if i + |AnonMarker| + 1 >= |s| then None
    else if AnonAt(s, i) then Some(i)
    else AnonFrom(s, i + 1)
  }

  /** `reAnon.exec(label)`: the index of the match, if any. */
  function AnonMatch(s: string): Option<nat> {
    AnonFrom(s, 0)
  }

  /** The pretty label for a match at `p`: the file, followed by ` (prefix)` when a prefix exists. */
  function Pretty(s: string, p: nat): string
    requires AnonAt(s, p)
  {
    var file := s[p + |AnonMarker|..|s| - 1];
    var prefix := s[..p];
    if prefix != "" then file + " (" + prefix + ")" else file
  }

  /** The entries of `list` whose label does not match, in their order. */
  function Kept(list: seq<Node>): seq<Node> {
    if list == [] then []
    else (if AnonMatch(list[0].name).None? then [list[0]] else []) + Kept(list[1..])
  }

  /** The entry pushed onto `out` for a matching entry `n`. */
  function Rename(n: Node): Node
    requires AnonMatch(n.name).Some?
  {
    Node(Pretty(n.name, AnonMatch(n.name).value), n.href, Leaf)
  }

  /** The renamed entries of the matching labels of `list`, in list order. */
  function Renamed(list: seq<Node>): seq<Node> {
    if list == [] then []
    else (if AnonMatch(list[0].name).Some? then [Rename(list[0])] else []) + Renamed(list[1..])
  }

  function Rev<T>(s: seq<T>): (r: seq<T>)
    ensures |r| == |s|
  {
    if s == [] then [] else Rev(s[1..]) + [s[0]]
  }

  lemma {:induction false} RevAppend<T>(a: seq<T>, b: seq<T>)
    ensures Rev(a + b) == Rev(b) + Rev(a)
  {
    if a == [] {
      assert a + b == b;
    } else {
      assert (a + b)[0] == a[0] && (a + b)[1..] == a[1..] + b;
      RevAppend(a[1..], b);
      Seqs.Append3(Rev(b), Rev(a[1..]), [a[0]]);
    }
  }

  /** The comparator of `out.sort`: lower-cased label first, then the href (`null` as `""`). */
  predicate KeyLess(a: Node, b: Node) {
    var la := Text.Lower(a.name);
    var lb := Text.Lower(b.name);
    Text.StrLess(la, lb) || (la == lb && Text.StrLess(a.href.GetOr(""), b.href.GetOr("")))
  }

  lemma KeyLessIrreflexive(a: Node)
    ensures !KeyLess(a, a)
  {
    Text.StrLessIrreflexive(Text.Lower(a.name));
    Text.StrLessIrreflexive(a.href.GetOr(""));
  }

  lemma KeyLessTransitive(a: Node, b: Node, c: Node)
    requires KeyLess(a, b) && KeyLess(b, c)
    ensures KeyLess(a, c)
  {
    var la, lb, lc := Text.Lower(a.name), Text.Lower(b.name), Text.Lower(c.name);
    if Text.StrLess(la, lb) && Text.StrLess(lb, lc) {
      Text.StrLessTransitive(la, lb, lc);
    } else if la == lb && lb == lc {
      Text.StrLessTransitive(a.href.GetOr(""), b.href.GetOr(""), c.href.GetOr(""));
    }
  }

  /** No entry sorts before an earlier one. */
  predicate Sorted(s: seq<Node>) {
    forall i, j :: 0 <= i < j < |s| ==> !KeyLess(s[j], s[i])
  }

  /** Inserts `x` after every entry of `t` that does not sort after it (keeps equal keys in order). */
  function Insert(x: Node, t: seq<Node>): (r: seq<Node>)
    ensures multiset(r) == multiset(t) + multiset{x}
    ensures Sorted(t) ==> Sorted(r)
  {
    if t == [] then [x]
    else if KeyLess(x, t[0]) then
      InsertFrontSorted(x, t);
      [x] + t
    else
      var r := [t[0]] + Insert(x, t[1..]);
      assert t == [t[0]] + t[1..];
      InsertBehindSorted(x, t, Insert(x, t[1..]));
      r
  }

  lemma InsertFrontSorted(x: Node, t: seq<Node>)
    requires t != [] && KeyLess(x, t[0])
    ensures Sorted(t) ==> Sorted([x] + t)
  {
    if Sorted(t) {
      forall j | 1 <= j < |t| + 1
        ensures !KeyLess(([x] + t)[j], x)
      {
        if KeyLess(t[j - 1], x) {
          KeyLessTransitive(t[j - 1], x, t[0]);
          if j == 1 {
            KeyLessIrreflexive(t[0]);
          }
        }
      }
    }
  }

  lemma InsertBehindSorted(x: Node, t: seq<Node>, tail: seq<Node>)
    requires t != [] && !KeyLess(x, t[0])
    requires multiset(tail) == multiset(t[1..]) + multiset{x}
    requires Sorted(t[1..]) ==> Sorted(tail)
    ensures Sorted(t) ==> Sorted([t[0]] + tail)
  {
    if Sorted(t) {
      assert Sorted(t[1..]);
      forall j | 0 <= j < |tail|
        ensures !KeyLess(tail[j], t[0])
      {
        assert tail[j] in multiset(tail);
        if tail[j] != x {
          assert tail[j] in multiset(t[1..]);
          var k :| 0 <= k < |t[1..]| && t[1..][k] == tail[j];
          assert t[k + 1] == tail[j];
        }
      }
    }
  }

  /** The stable sort `out.sort` performs, as an insertion sort. */
  function SortEntries(s: seq<Node>): (r: seq<Node>)
    ensures multiset(r) == multiset(s)
    ensures Sorted(r)
  {
    if s == [] then []
    else
      assert s == s[..|s| - 1] + [s[|s| - 1]];
      Insert(s[|s| - 1], SortEntries(s[..|s| - 1]))
  }

  /** `a` and `b` compare equal under the comparator of `out.sort`. */
  predicate SameKey(a: Node, b: Node) {
    Text.Lower(a.name) == Text.Lower(b.name) && a.href.GetOr("") == b.href.GetOr("")
  }

  /** The entries of `s` that compare equal to `e`, in their order in `s`. */
  function Ties(s: seq<Node>, e: Node): seq<Node> {
    if s == [] then []
    else (if SameKey(s[0], e) then [s[0]] else []) + Ties(s[1..], e)
  }

  lemma {:induction false} TiesAppend(a: seq<Node>, l: Node, e: Node)
    ensures Ties(a + [l], e) == Ties(a, e) + (if SameKey(l, e) then [l] else [])
  {
    if a == [] {
      assert [l][1..] == [];
    } else {
      assert (a + [l])[0] == a[0] && (a + [l])[1..] == a[1..] + [l];
      TiesAppend(a[1..], l, e);
    }
  }

  lemma {:induction false} TiesNone(t: seq<Node>, e: Node)
    requires forall j :: 0 <= j < |t| ==> !SameKey(t[j], e)
    ensures Ties(t, e) == []
  {
    if t != [] {
      TiesNone(t[1..], e);
    }
  }

  /**
   * Inserting `x` into a sorted `t` puts it after every entry that compares equal to it: among
   * the entries tied with any `e`, the order of `t` is kept and `x` (if tied) comes last.
   */
  lemma {:induction false} InsertStable(x: Node, t: seq<Node>, e: Node)
    requires Sorted(t)
    ensures Ties(Insert(x, t), e) == Ties(t, e) + (if SameKey(x, e) then [x] else [])
  {
    if t == [] {
      TiesCons(x, [], e);
    } else if KeyLess(x, t[0]) {
      TiesCons(x, t, e);
      if SameKey(x, e) {
        AboveNoTies(x, t, e);
      }
    } else {
      SortedTail(t);
      InsertStable(x, t[1..], e);
      InsertBehind(x, t);
      TiesShift(x, t, Insert(x, t[1..]), e);
    }
  }

  /** Putting the head of `t` back in front of a list tied like `t`'s tail, plus `x`, ties like `t`, plus `x`. */
  lemma TiesShift(x: Node, t: seq<Node>, r: seq<Node>, e: Node)
    requires t != []
    requires Ties(r, e) == Ties(t[1..], e) + (if SameKey(x, e) then [x] else [])
    ensures Ties([t[0]] + r, e) == Ties(t, e) + (if SameKey(x, e) then [x] else [])
  {
    TiesCons(t[0], r, e);
    Seqs.Append3(if SameKey(t[0], e) then [t[0]] else [], Ties(t[1..], e), if SameKey(x, e) then [x] else []);
  }

  lemma InsertBehind(x: Node, t: seq<Node>)
    requires t != [] && !KeyLess(x, t[0])
    ensures Insert(x, t) == [t[0]] + Insert(x, t[1..])
  {
  }

  lemma TiesCons(h: Node, r: seq<Node>, e: Node)
    ensures Ties([h] + r, e) == (if SameKey(h, e) then [h] else []) + Ties(r, e)
  {
    assert ([h] + r)[0] == h && ([h] + r)[1..] == r;
  }

  lemma SortedTail(t: seq<Node>)
    requires Sorted(t) && t != []
    ensures Sorted(t[1..])
  {
    forall i, j | 0 <= i < j < |t| - 1
      ensures !KeyLess(t[1..][j], t[1..][i])
    {
      assert t[1..][j] == t[j + 1] && t[1..][i] == t[i + 1];
    }
  }

  /** Nothing in a sorted `t` whose head sorts after `x` compares equal to `x`. */
  lemma AboveNoTies(x: Node, t: seq<Node>, e: Node)
    requires Sorted(t) && t != [] && KeyLess(x, t[0]) && SameKey(x, e)
    ensures Ties(t, e) == []
  {
    forall j | 0 <= j < |t|
      ensures !SameKey(t[j], e)
    {
      if j == 0 {
        KeyLessIrreflexive(x);
      } else {
        assert !KeyLess(t[j], t[0]);
      }
    }
    TiesNone(t, e);
  }

  /** `SortEntries` is stable: entries that compare equal keep their relative order. */
  lemma {:induction false} SortStable(s: seq<Node>, e: Node)
    ensures Ties(SortEntries(s), e) == Ties(s, e)
  {
    if s != [] {
      var init, l := s[..|s| - 1], s[|s| - 1];
      assert s == init + [l];
      SortStable(init, e);
      InsertStable(l, SortEntries(init), e);
      TiesAppend(init, l, e);
    }
  }

  /** One step of the backward walk, seen from the suffix `list[i..]`: the side list grows at its end. */
  lemma SiphonStep(list: seq<Node>, i: nat)
    requires i < |list|
    ensures Rev(Renamed(list[i..])) ==
      Rev(Renamed(list[i + 1..])) + (if AnonMatch(list[i].name).Some? then [Rename(list[i])] else [])
  {
    assert list[i..][0] == list[i] && list[i..][1..] == list[i + 1..];
    var head := if AnonMatch(list[i].name).Some? then [Rename(list[i])] else [];
    RevAppend(head, Renamed(list[i + 1..]));
  }

  /**
   * `siphonAnonymousNamespaces(list)`: walks `list` from the back, moving every entry whose label
   * matches into `anon` under its pretty label, and finally sorts `anon`; `rest` is what is left
   * of `list` after the removals.
   */
  method SiphonAnonymousNamespaces(list: seq<Node>) returns (rest: seq<Node>, anon: seq<Node>)
    ensures rest == Kept(list)
    ensures anon == SortEntries(Rev(Renamed(list)))
  {
    rest := list;
    anon := [];
    if |list| == 0 {
      return;
    }
    var i := |list|;
    while i > 0
      invariant 0 <= i <= |list|
      invariant rest == list[..i] + Kept(list[i..])
      invariant anon == Rev(Renamed(list[i..]))
    {
      i := i - 1;
      SiphonStep(list, i);
      SiphonRest(list, i, rest);
      var item := rest[i];
      var m := AnonMatch(item.name);
      if m.Some? {
        var pretty := Pretty(item.name, m.value);
        anon := anon + [Node(pretty, item.href, Leaf)];
        rest := rest[..i] + rest[i + 1..];
      }
    }
    assert list[0..] == list;
    anon := SortEntries(anon);
  }

  /**
   * The siphon splits the list: an entry stays exactly when its label does not match, every
   * matching entry reappears renamed in the side list, and nothing else is added.
   */
  lemma {:induction false} SiphonSplit(list: seq<Node>)
    ensures forall n :: n in Kept(list) <==> n in list && AnonMatch(n.name).None?
    ensures forall n :: n in list && AnonMatch(n.name).Some? ==> Rename(n) in Renamed(list)
    ensures |Kept(list)| + |Renamed(list)| == |list|
  {
    if list != [] {
      SiphonSplit(list[1..]);
      assert list == [list[0]] + list[1..];
    }
  }

  /**
   * A label made of a scope free of `{` (such as `npi::` or `data::`), the marker, a non-empty file
   * name free of `}` and the closing `}` matches right after the scope, and is renamed to the file
   * followed by the scope in parentheses (or to the bare file when there is no scope).
   */
  lemma RenameShape(prefix: string, file: string)
    requires |file| > 0 && '}' !in file && '{' !in prefix
    ensures var s := prefix + AnonMarker + file + "}";
      AnonMatch(s) == Some(|prefix|) &&
      Pretty(s, |prefix|) == if prefix != "" then file + " (" + prefix + ")" else file
  {
    var s := prefix + AnonMarker + file + "}";
    var p := |prefix|;
    assert s[p..p + |AnonMarker|] == AnonMarker;
    assert s[..p] == prefix;
    assert s[p + |AnonMarker|..|s| - 1] == file;
    forall j | p + |AnonMarker| <= j < |s| - 1
      ensures s[j] != '}'
    {
      assert s[j] == file[j - p - |AnonMarker|];
    }
    assert AnonAt(s, p);
    NoMarkerInScope(prefix, s);
    var r := AnonFrom(s, 0);
    assert r.Some?;
    assert !(p < r.value);
    assert !(r.value < p);
  }

  /** A bare anonymous namespace is renamed to its file. */
  lemma AnonExampleBare()
    ensures AnonMatch("anonymous_namespace{file.cpp}") == Some(0)
    ensures Pretty("anonymous_namespace{file.cpp}", 0) == "file.cpp"
  {
    RenameShape("", "file.cpp");
    assert "anonymous_namespace{file.cpp}" == "" + AnonMarker + "file.cpp" + "}";
  }

  /** A nested anonymous namespace is renamed to its file, followed by the enclosing scope in parentheses. */
  lemma AnonExampleNested()
    ensures AnonMatch("npi::anonymous_namespace{file.cpp}") == Some(5)
    ensures Pretty("npi::anonymous_namespace{file.cpp}", 5) == "file.cpp (npi::)"
  {
    NestedLabel();
    RenameShape("npi::", "file.cpp");
    NestedPretty();
  }

  lemma NestedLabel()
    ensures "npi::anonymous_namespace{file.cpp}" == "npi::" + AnonMarker + "file.cpp" + "}"
  {
  }

  lemma NestedPretty()
    ensures "file.cpp" + " (" + "npi::" + ")" == "file.cpp (npi::)"
  {
  }

  /** A scope followed by the marker and `}` at once has no match: the file group must be non-empty. */
  lemma EmptyGroupShape(prefix: string)
    requires '{' !in prefix
    ensures AnonMatch(prefix + AnonMarker + "}").None?
  {
    var s := prefix + AnonMarker + "}";
    NoMarkerInScope(prefix, s);
    assert AnonFrom(s, 0).None?;
  }

  /**
   * No match starts inside a scope free of `{` that the marker follows: the marker's only `{` is
   * its last character, and that position would fall inside the scope or on an earlier character
   * of the marker.
   */
  lemma NoMarkerInScope(prefix: string, s: string)
    requires '{' !in prefix
    requires |prefix| + |AnonMarker| <= |s| && s[..|prefix| + |AnonMarker|] == prefix + AnonMarker
    ensures forall q :: 0 <= q < |prefix| ==> !AnonAt(s, q)
  {
    var p := |prefix|;
    forall q | 0 <= q < p
      ensures !AnonAt(s, q)
    {
      var j := q + |AnonMarker| - 1;
      assert s[j] == (prefix + AnonMarker)[j];
      if j < p {
        assert s[j] == prefix[j];
      } else {
        assert s[j] == AnonMarker[j - p];
        MarkerBraceLast(j - p);
      }
      NoMarkerAt(s, q);
    }
  }

  /** `{` occurs in the marker only as its last character. */
  lemma MarkerBraceLast(k: nat)
    requires k < |AnonMarker| - 1
    ensures AnonMarker[k] != '{'
  {
  }

  /** The marker cannot start at `q` unless `s` holds `{` where the marker ends. */
  lemma NoMarkerAt(s: string, q: nat)
    requires q + |AnonMarker| <= |s| && s[q + |AnonMarker| - 1] != '{'
    ensures !AnonAt(s, q)
  {
    assert s[q..q + |AnonMarker|][|AnonMarker| - 1] == s[q + |AnonMarker| - 1];
  }

  /** How one step of the backward walk leaves `rest` covering `list[..i]` and the kept `list[i..]`. */
  lemma SiphonRest(list: seq<Node>, i: nat, rest: seq<Node>)
    requires i < |list| && rest == list[..i + 1] + Kept(list[i + 1..])
    ensures i < |rest| && rest[i] == list[i]
    ensures AnonMatch(list[i].name).Some? ==> rest[..i] + rest[i + 1..] == list[..i] + Kept(list[i..])
    ensures AnonMatch(list[i].name).None? ==> rest == list[..i] + Kept(list[i..])
  {
    assert list[..i + 1][i] == list[i];
    KeptStep(list, i);
    if AnonMatch(list[i].name).Some? {
      SpliceOut(list[..i + 1], Kept(list[i + 1..]), i);
      assert list[..i + 1][..i] == list[..i];
    } else {
      SplitLast(list, i, Kept(list[i + 1..]));
    }
  }

  /** One step of the backward walk, seen from the suffix `list[i..]`: the entry stays unless it matches. */
  lemma KeptStep(list: seq<Node>, i: nat)
    requires i < |list|
    ensures Kept(list[i..]) == (if AnonMatch(list[i].name).None? then [list[i]] else []) + Kept(list[i + 1..])
  {
    assert list[i..][0] == list[i] && list[i..][1..] == list[i + 1..];
  }

  /** Removing the last element of the first part of `a + b`. */
  lemma SpliceOut<T>(a: seq<T>, b: seq<T>, i: nat)
    requires |a| == i + 1
    ensures (a + b)[..i] + (a + b)[i + 1..] == a[..i] + b
  {
    assert (a + b)[..i] == a[..i];
    assert (a + b)[i + 1..] == b;
  }

  lemma SplitLast<T>(list: seq<T>, i: nat, b: seq<T>)
    requires i < |list|
    ensures list[..i + 1] + b == list[..i] + ([list[i]] + b)
  {
    assert list[..i + 1] == list[..i] + [list[i]];
  }

  /** The side list holds exactly the renamed matches, sorted. */
  lemma SiphonSorted(list: seq<Node>)
    ensures Sorted(SortEntries(Rev(Renamed(list))))
    ensures multiset(SortEntries(Rev(Renamed(list)))) == multiset(Renamed(list))
  {
    assert multiset(Rev(Renamed(list))) == multiset(Renamed(list)) by {
      RevMultiset(Renamed(list));
    }
  }

  lemma {:induction false} RevMultiset<T>(s: seq<T>)
    ensures multiset(Rev(s)) == multiset(s)
  {
    if s != [] {
      RevMultiset(s[1..]);
      assert s == [s[0]] + s[1..];
    }
  }

  // ---------------------------------------------------------------------------------------------
  // Lifting the `All` entry (Globals, Class Members, File Members)

  /** The index `genPriTree`'s loop finds: the first entry labelled `All`, or -1. */
  method FindAll(temp: seq<Node>) returns (idx: int)
    ensures idx == match FirstNamed(temp, "All") case Some(k) => k as int case None => -1
  {
    idx := -1;
    var ii := 0;
    while ii < |temp|
      invariant 0 <= ii <= |temp|
      invariant forall k :: 0 <= k < ii ==> temp[k].name != "All"
    {
      if temp[ii].name == "All" {
        idx := ii;
        break;
      }
      ii := ii + 1;
    }
  }

  /**
   * The section `genPriTree` pushes for a members list `temp`: its first `All` entry is removed and
   * its href becomes the section's own, provided that href is an HTML page and entries remain.
   */
  function Lifted(title: string, temp: seq<Node>): (r: Option<Node>)
    ensures (forall k :: 0 <= k < |temp| ==> temp[k].name != "All") ==> r.None?
    ensures r.Some? ==> r.value.name == title && r.value.kids.Children? && |r.value.kids.nodes| + 1 == |temp|
    ensures r.Some? ==> exists k :: (0 <= k < |temp| && temp[k].name == "All" &&
      (forall j :: 0 <= j < k ==> temp[j].name != "All") &&
      r.value.href == temp[k].href && r.value.kids.nodes == temp[..k] + temp[k + 1..])
    ensures r.Some? ==> r.value.href.Some? && Text.IsHtmlEnd(r.value.href.value) && |r.value.kids.nodes| > 0
    ensures var k := FirstNamed(temp, "All");
      k.Some? && temp[k.value].href.Some? && Text.IsHtmlEnd(temp[k.value].href.value) && |temp| > 1 ==> r.Some?
  {
    match FirstNamed(temp, "All")
    case None => None
    case Some(k) =>
      var rest := temp[..k] + temp[k + 1..];
      var h := temp[k].href;
      if h.Some? && Text.IsHtmlEnd(h.value) && |rest| > 0 then Some(Node(title, h, Children(rest)))
      else None
  }

  /** The lift step as the source writes it: search, splice, test, push. */
  method LiftAll(title: string, temp: seq<Node>) returns (r: Option<Node>)
    ensures r == Lifted(title, temp)
  {
    r := None;
    if |temp| > 0 {
      var idx := FindAll(temp);
      if idx > -1 {
        var tempHref := temp[idx].href;
        var rest := temp[..idx] + temp[idx + 1..];
        if tempHref.Some? && Text.IsHtmlEnd(tempHref.value) && |rest| > 0 {
          r := Some(Node(title, tempHref, Children(rest)));
        }
      }
    }
  }
}
