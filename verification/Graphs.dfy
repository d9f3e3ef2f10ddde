/** Directed graphs as topsort.py holds them: a table from each parent to the list of its children. */
module Graphs {
  import opened Sequences

  // The elements being sorted: anything that can be compared and hashed.
  type Item(==,!new)

  type Graph = map<Item, seq<Item>>

  ghost predicate Edge(g: Graph, u: Item, v: Item) {
    u in g && v in g[u]
  }

  ghost function Nodes(g: Graph): set<Item> {
    g.Keys + set u, v | u in g && v in g[u] :: v
  }

  ghost predicate Walk(g: Graph, p: seq<Item>) {
    && p != []
    && forall i, j :: 0 <= i < j < |p| && j == i + 1 ==> Edge(g, p[i], p[j])
  }

  ghost predicate SimplePath(g: Graph, p: seq<Item>) {
    Walk(g, p) && Distinct(p)
  }

  /** A simple cycle, written without repeating its first item at the end. */
  ghost predicate Cycle(g: Graph, c: seq<Item>) {
    SimplePath(g, c) && Edge(g, Last(c), c[0])
  }

  ghost predicate HasCycle(g: Graph) {
    exists c :: Cycle(g, c)
  }

  ghost predicate Joins(g: Graph, p: seq<Item>, u: Item, v: Item) {
    Walk(g, p) && p[0] == u && Last(p) == v
  }

  ghost predicate Reaches(g: Graph, u: Item, v: Item) {
    exists p :: Joins(g, p, u, v)
  }

  /** `x` lies on a cycle or downstream of one. */
  ghost predicate FromCycle(g: Graph, x: Item) {
    exists c :: Cycle(g, c) && Reaches(g, c[0], x)
  }

  lemma ReachesSelf(g: Graph, u: Item)
    ensures Reaches(g, u, u)
  {
    assert Joins(g, [u], u, u);
  }

  lemma WalkConcat(g: Graph, p: seq<Item>, q: seq<Item>)
    requires Walk(g, p) && Walk(g, q) && Edge(g, Last(p), q[0])
    ensures Walk(g, p + q)
  {
  }

  lemma ReachesTrans(g: Graph, u: Item, v: Item, w: Item)
    requires Reaches(g, u, v) && Reaches(g, v, w)
    ensures Reaches(g, u, w)
  {
    var p :| Joins(g, p, u, v);
    var q :| Joins(g, q, v, w);
    if |q| > 1 {
      WalkConcat(g, p, q[1..]);
      assert Joins(g, p + q[1..], u, w);
    }
  }

  /** Every item of a walk is a node, once its first one is. */
  lemma WalkInNodes(g: Graph, p: seq<Item>)
    requires Walk(g, p) && p[0] in Nodes(g)
    ensures Items(p) <= Nodes(g)
  {
    forall i | 0 <= i < |p| ensures p[i] in Nodes(g) {
      if i > 0 {
        assert Edge(g, p[i - 1], p[i]);
      }
    }
  }

  // ----- rotations ------------------------------------------------------

  function Rotate<T>(s: seq<T>, k: nat): (r: seq<T>)
    requires k <= |s|
  {
    s[k..] + s[..k]
  }

  ghost predicate IsRotation<T(!new)>(a: seq<T>, b: seq<T>) {
    exists k :: 0 <= k <= |a| && b == Rotate(a, k)
  }

  lemma RotationReflexive<T(!new)>(a: seq<T>)
    ensures IsRotation(a, a)
  {
    assert a == Rotate(a, 0);
  }

  lemma RotationSymmetric<T(!new)>(a: seq<T>, b: seq<T>)
    requires IsRotation(a, b)
    ensures IsRotation(b, a)
  {
    var k :| 0 <= k <= |a| && b == Rotate(a, k);
    assert a == Rotate(b, |a| - k);
  }

  lemma RotateTwice<T>(a: seq<T>, i: nat, j: nat)
    requires i <= |a| && j <= |a|
    ensures Rotate(Rotate(a, i), j) == Rotate(a, if i + j <= |a| then i + j else i + j - |a|)
  {
    var b := Rotate(a, i);
    if i + j <= |a| {
      assert b[j..] == a[i + j..] + a[..i];
      assert b[..j] == a[i..i + j];
      assert a[..i + j] == a[..i] + a[i..i + j];
    } else {
      var m := i + j - |a|;
      assert b[j..] == a[m..i];
      assert b[..j] == a[i..] + a[..m];
      assert a[m..] == a[m..i] + a[i..];
    }
  }

  lemma RotationTransitive<T(!new)>(a: seq<T>, b: seq<T>, c: seq<T>)
    requires IsRotation(a, b) && IsRotation(b, c)
    ensures IsRotation(a, c)
  {
    var i :| 0 <= i <= |a| && b == Rotate(a, i);
    var j :| 0 <= j <= |b| && c == Rotate(b, j);
    RotateTwice(a, i, j);
  }

  lemma RotateCycle(g: Graph, c: seq<Item>, k: nat)
    requires Cycle(g, c) && k < |c|
    ensures Cycle(g, Rotate(c, k))
  {
    var r := Rotate(c, k);
    if k > 0 {
      assert Walk(g, c[k..]) && Walk(g, c[..k]);
      WalkConcat(g, c[k..], c[..k]);
      assert Last(r) == c[k - 1] && r[0] == c[k];
      assert Edge(g, c[k - 1], c[k - 1 + 1]);
    } else {
      assert r == c;
    }
  }
}
