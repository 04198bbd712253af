/** Small facts about sequence concatenation and set union that proofs elsewhere cite instead of rediscovering. */
module Seqs {
  lemma EmptyAppend<T>(a: seq<T>)
    ensures [] + a == a
  {
  }

  lemma Append3<T>(a: seq<T>, b: seq<T>, c: seq<T>)
    ensures (a + b) + c == a + (b + c)
  {
  }

  lemma Append4<T>(a: seq<T>, b: seq<T>, c: seq<T>, d: seq<T>)
    ensures a + b + c + d == a + (b + c + d)
  {
  }

  /** The concatenation of a list of lists, front to back. */
  function Concat<T>(ss: seq<seq<T>>): seq<T> {
    if ss == [] then [] else ss[0] + Concat(ss[1..])
  }

  lemma {:induction false} ConcatAppend<T>(u: seq<seq<T>>, v: seq<seq<T>>)
    ensures Concat(u + v) == Concat(u) + Concat(v)
    decreases |u|
  {
    if u == [] {
      assert u + v == v;
    } else {
      assert (u + v)[0] == u[0];
      assert (u + v)[1..] == u[1..] + v;
      ConcatAppend(u[1..], v);
      Append3(u[0], Concat(u[1..]), Concat(v));
    }
  }

  lemma ConcatSingle<T>(x: seq<T>)
    ensures Concat([x]) == x
  {
    assert [x][1..] == [];
  }

  /** Regrouping the union that one step of a walk over a tree produces. */
  lemma UnionShuffle<T>(o: set<T>, x: set<T>, y: set<T>, a: set<T>, s0: set<T>)
    ensures (o + x) + a + (s0 + y) == o + (x + y + a) + s0
  {
  }
}
