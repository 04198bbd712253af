/**
 * The persistent key/value store behind `save` and `load`, as a plain map from project keys to
 * the values the engine keeps there. Expiry is not modelled: an expired key reads as a missing one.
 */
module Storage {
  import opened Wrappers
  import opened NavTree

  /** The kinds of value the navigation engine stores. */
  datatype Stored =
    | SToken(token: string)      // the Doxygen generation time stamp
    | STree(tree: seq<Node>)     // the serialised primary forest
    | SFlag(flag: bool)          // the primary indentation flag
    | SIds(ids: set<string>)     // the open (primary) or closed (secondary) item ids

  type Store = map<string, Stored>

  const KeyGenData: string := "gen_data"
  const KeyPriTree: string := "pri_tree"
  const KeyPriTreeIndented: string := "pri_tree_indented"
  const KeyPriNavExpandedNodes: string := "pri_nav_expanded_nodes"

  /** `save(key, val)`; saving `undefined` (here `None`) deletes the key. */
  function Save(store: Store, key: string, val: Option<Stored>): (r: Store)
    ensures val.Some? ==> key in r && r[key] == val.value
    ensures val.None? ==> key !in r
    ensures forall k :: k != key ==> (k in r <==> k in store) && (k in r ==> r[k] == store[k])
  {
    match val
    case Some(v) => store[key := v]
    case None => store - {key}
  }

  /** `load(KEY__GEN_DATA)`: the stored token, if there is one. */
  function LoadToken(store: Store): (r: Option<string>)
    ensures r.Some? <==> KeyGenData in store && store[KeyGenData].SToken?
    ensures r.Some? ==> store[KeyGenData] == SToken(r.value)
  {
    if KeyGenData in store && store[KeyGenData].SToken? then Some(store[KeyGenData].token) else None
  }

  /** `load(KEY__PRI_TREE)`, when it is an array. */
  function LoadTree(store: Store): (r: Option<seq<Node>>)
    ensures r.Some? <==> KeyPriTree in store && store[KeyPriTree].STree?
    ensures r.Some? ==> store[KeyPriTree] == STree(r.value)
  {
    if KeyPriTree in store && store[KeyPriTree].STree? then Some(store[KeyPriTree].tree) else None
  }

  /** `load(KEY__PRI_TREE_INDENTED, false)`. */
  function LoadFlag(store: Store): (r: bool)
    ensures r <==> KeyPriTreeIndented in store && store[KeyPriTreeIndented] == SFlag(true)
  {
    KeyPriTreeIndented in store && store[KeyPriTreeIndented].SFlag? && store[KeyPriTreeIndented].flag
  }

  /**
   * `new Set(load(key, []))`, when the stored value is an id array; anything else reads as empty.
   * The array is kept as the set it is read back as: its order is never observed.
   */
  function LoadIds(store: Store, key: string): set<string> {
    if key in store && store[key].SIds? then store[key].ids else {}
  }

  /** Saved ids read back unchanged, and saving under one key leaves the other keys' ids alone. */
  lemma IdsRoundTrip(store: Store, key: string, other: string, ids: set<string>)
    ensures LoadIds(Save(store, key, Some(SIds(ids))), key) == ids
    ensures other != key ==> LoadIds(Save(store, key, Some(SIds(ids))), other) == LoadIds(store, other)
  {
  }
}
