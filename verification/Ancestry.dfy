/** Facts about the ancestor relation and about keeping parent chains finite when
    links change. */
module Ancestry {
  import opened Forest

  ghost function Subtree(m: Nodes, a: Uuid): set<Uuid>
    requires Acyclic(m)
  {
    set x | x in m && Contains(m, a, x)
  }

  lemma {:induction false} ContainsInForest(m: Nodes, a: Uuid, d: Uuid)
    requires Acyclic(m) && Linked(m) && d in m && Contains(m, a, d)
    ensures a in m && Rank(m)[d] <= Rank(m)[a]
    ensures a != d ==> Rank(m)[d] < Rank(m)[a]
    decreases Above(m, d)
  {
    if a != d {
      assert m[d].parent in Above(m, d);
      ContainsInForest(m, a, m[d].parent);
    }
  }

  lemma {:induction false} ContainsTransitive(m: Nodes, a: Uuid, b: Uuid, c: Uuid)
    requires Acyclic(m) && Linked(m) && c in m
    requires Contains(m, a, b) && Contains(m, b, c)
    ensures Contains(m, a, c)
    decreases Above(m, c)
  {
    if b != c {
      assert m[c].parent in Above(m, c);
      ContainsTransitive(m, a, b, m[c].parent);
    }
  }

  /** Two ancestors of one node are comparable. */
  lemma {:induction false} AncestorsComparable(m: Nodes, a: Uuid, b: Uuid, x: Uuid)
    requires Acyclic(m) && Linked(m) && x in m
    requires Contains(m, a, x) && Contains(m, b, x)
    ensures Contains(m, a, b) || Contains(m, b, a)
    decreases Above(m, x)
  {
    if a != x && b != x {
      assert m[x].parent in Above(m, x);
      AncestorsComparable(m, a, b, m[x].parent);
    }
  }

  /** Subtrees of siblings do not meet. */
  lemma SiblingsDisjoint(m: Nodes, a: Uuid, b: Uuid, x: Uuid)
    requires Acyclic(m) && Linked(m) && x in m && a in m && b in m
    requires a != b && m[a].parent == m[b].parent
    ensures !(Contains(m, a, x) && Contains(m, b, x))
  {
    if Contains(m, a, x) && Contains(m, b, x) {
      AncestorsComparable(m, a, b, x);
      if Contains(m, a, b) {
        NotBelowSibling(m, a, b);
      } else {
        NotBelowSibling(m, b, a);
      }
    }
  }

  lemma NotBelowSibling(m: Nodes, a: Uuid, b: Uuid)
    requires Acyclic(m) && Linked(m) && a in m && b in m
    requires a != b && m[a].parent == m[b].parent
    ensures !Contains(m, a, b)
  {
    if Contains(m, a, b) {
      ContainsInForest(m, a, b);
      ContainsInForest(m, a, m[b].parent);
    }
  }

  /** A node below `a` other than `a` itself is below one of the children of `a`. */
  lemma {:induction false} BelowSomeChild(m: Nodes, a: Uuid, d: Uuid) returns (i: nat)
    requires Acyclic(m) && Linked(m) && d in m && Contains(m, a, d) && a != d
    ensures a in m && i < |Kids(m[a].data)| && Contains(m, Kids(m[a].data)[i].id, d)
    decreases Above(m, d)
  {
    ContainsInForest(m, a, d);
    if m[d].parent == a {
      i := IndexOf(Kids(m[a].data), d);
    } else {
      assert m[d].parent in Above(m, d);
      i := BelowSomeChild(m, a, m[d].parent);
    }
  }

  lemma BelowItself(m: Nodes, a: Uuid)
    requires Acyclic(m) && Linked(m) && a in m
    ensures Contains(m, a, a)
  {
  }

  lemma ChildBelow(m: Nodes, a: Uuid, i: nat)
    requires Acyclic(m) && Linked(m) && a in m && i < |Kids(m[a].data)|
    ensures Contains(m, a, Kids(m[a].data)[i].id)
    ensures Rank(m)[Kids(m[a].data)[i].id] < Rank(m)[a]
  {
    var c := Kids(m[a].data)[i].id;
    assert m[c].parent == a;
    assert Contains(m, a, a);
  }

  // ---------------------------------------------------------------- finite chains

  lemma {:induction false} RanksBounded(r: map<Uuid, nat>) returns (k: nat)
    ensures forall x :: x in r ==> r[x] < k
    decreases |r|
  {
    if r == map[] {
      k := 0;
    } else {
      var x :| x in r;
      var rest := r - {x};
      assert rest.Keys == r.Keys - {x};
      var j := RanksBounded(rest);
      k := if r[x] < j then j else r[x] + 1;
      forall y | y in r ensures r[y] < k {
        if y != x { assert y in rest && rest[y] == r[y]; }
      }
    }
  }

  /** Chains stay finite when every changed parent link leads out of a set `low`
      that is closed under taking children: everything outside `low` is lifted
      above it. */
  lemma AcyclicByLift(m: Nodes, n: Nodes, low: set<Uuid>)
    requires Acyclic(m) && n.Keys <= m.Keys
    requires forall x :: x in n && n[x].parent in n ==>
      || (n[x].parent == m[x].parent && (n[x].parent in low ==> x in low))
      || (x in low && n[x].parent !in low)
    ensures Acyclic(n)
  {
    var r := Rank(m);
    var k := RanksBounded(r);
    var q: map<Uuid, nat> := map x | x in n :: if x in low then r[x] else r[x] + k;
    assert Ranked(n, q);
  }

  /** The chain from `d` upwards is the same in both forests when no parent link
      inside a set closed under taking parents changed. */
  lemma {:induction false} ContainsSame(m: Nodes, n: Nodes, up: set<Uuid>, a: Uuid, d: Uuid)
    requires Acyclic(m) && Acyclic(n) && d in up
    requires forall x :: x in up ==> x in m && x in n && n[x].parent == m[x].parent
    requires forall x :: x in up && m[x].parent != NIL ==> m[x].parent in up
    requires NIL !in m && NIL !in n
    ensures Contains(m, a, d) == Contains(n, a, d)
    decreases Above(m, d)
  {
    if a != d && m[d].parent != NIL {
      assert m[d].parent in up;
      assert m[d].parent in Above(m, d);
      ContainsSame(m, n, up, a, m[d].parent);
    }
  }
}
