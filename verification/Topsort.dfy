/** `topsort` of topsort.py: Kahn's algorithm over two tables that it consumes. */
module DependencySort {
  import opened Results
  import opened Sequences
  import opened Graphs

  /** The details of a CycleError: what was sorted, and the two tables as they were left. */
  datatype CycleError = CycleError(answer: seq<Item>, numParents: map<Item, int>, children: Graph)

  // ----- the tables --------------------------------------------------------

  ghost function Count(s: seq<Item>, x: Item): nat {
    multiset(s)[x]
  }

  /** How often `x` is listed as a child, over all parents. */
  ghost function InDegree(g: Graph, x: Item): nat
    decreases |g|
  {
    if g.Keys == {} then 0
    else var p :| p in g; Count(g[p], x) + InDegree(g - {p}, x)
  }

  /** `numParents` counts exactly the parents listed in `children`. */
  ghost predicate Consistent(numParents: map<Item, int>, children: Graph) {
    && children.Keys <= numParents.Keys
    && (forall p, c :: Edge(children, p, c) ==> c in numParents)
    && (forall x :: x in numParents ==> numParents[x] == InDegree(children, x))
  }

  /** Which parent is taken first does not matter. */
  lemma {:induction false} InDegreeWithout(g: Graph, p: Item, x: Item)
    requires p in g
    ensures InDegree(g, x) == Count(g[p], x) + InDegree(g - {p}, x)
    decreases |g|
  {
    var q :| q in g && InDegree(g, x) == Count(g[q], x) + InDegree(g - {q}, x);
    if q != p {
      InDegreeWithout(g - {q}, p, x);
      InDegreeWithout(g - {p}, q, x);
      assert g - {q} - {p} == g - {p} - {q};
    }
  }

  lemma {:induction false} InDegreeZero(g: Graph, x: Item)
    ensures InDegree(g, x) == 0 <==> forall p :: !Edge(g, p, x)
    decreases |g|
  {
    if g.Keys != {} {
      var q :| q in g && InDegree(g, x) == Count(g[q], x) + InDegree(g - {q}, x);
      InDegreeZero(g - {q}, x);
      if x in g[q] {
        assert Edge(g, q, x) && Count(g[q], x) > 0;
      } else {
        assert Count(g[q], x) == 0;
        assert forall p :: Edge(g, p, x) <==> Edge(g - {q}, p, x);
      }
    }
  }

  // ----- the pair list -----------------------------------------------------

  ghost function Elements(pairs: seq<(Item, Item)>): set<Item> {
    (set pair | pair in pairs :: pair.0) + (set pair | pair in pairs :: pair.1)
  }

  /** The children that `pairs` gives to `p`, in order. */
  ghost function Successors(pairs: seq<(Item, Item)>, p: Item): seq<Item> {
    if pairs == [] then []
    else Successors(pairs[..|pairs| - 1], p) + if Last(pairs).0 == p then [Last(pairs).1] else []
  }

  ghost function Children(pairs: seq<(Item, Item)>): Graph {
    map p | p in (set pair | pair in pairs :: pair.0) :: Successors(pairs, p)
  }

  lemma {:induction false} SuccessorsMeaning(pairs: seq<(Item, Item)>, p: Item, c: Item)
    ensures c in Successors(pairs, p) <==> (p, c) in pairs
  {
    if pairs != [] {
      SuccessorsMeaning(pairs[..|pairs| - 1], p, c);
      assert pairs == pairs[..|pairs| - 1] + [Last(pairs)];
    }
  }

  lemma ChildrenMeaning(pairs: seq<(Item, Item)>)
    ensures forall p, c :: Edge(Children(pairs), p, c) <==> (p, c) in pairs
    ensures Nodes(Children(pairs)) == Elements(pairs)
  {
    var g := Children(pairs);
    forall p, c ensures Edge(g, p, c) <==> (p, c) in pairs {
      SuccessorsMeaning(pairs, p, c);
    }
    forall x | x in Elements(pairs) ensures x in Nodes(g) {
      if pair :| pair in pairs && pair.1 == x {
        assert Edge(g, pair.0, x);
      }
    }
    forall x | x in Nodes(g) ensures x in Elements(pairs) {
      if u :| u in g && x in g[u] {
        assert Edge(g, u, x);
        assert (u, x) in pairs;
      }
    }
  }

  lemma ChildrenAppend(pairs: seq<(Item, Item)>, parent: Item, child: Item)
    ensures var g := Children(pairs);
            Children(pairs + [(parent, child)]) ==
            g[parent := (if parent in g then g[parent] else []) + [child]]
  {
    var more := pairs + [(parent, child)];
    var g := Children(pairs);
    var h := g[parent := (if parent in g then g[parent] else []) + [child]];
    assert more[..|more| - 1] == pairs && Last(more) == (parent, child);
    assert forall pair :: pair in more <==> pair in pairs || pair == (parent, child);
    assert Children(more).Keys == h.Keys;
    forall p | p in h ensures Children(more)[p] == h[p] {
      if p == parent && parent !in g {
        NoSuccessors(pairs, parent);
      }
    }
  }

  lemma NoSuccessors(pairs: seq<(Item, Item)>, p: Item)
    requires p !in Children(pairs)
    ensures Successors(pairs, p) == []
  {
  }

  lemma ElementsAppend(pairs: seq<(Item, Item)>, parent: Item, child: Item)
    ensures Elements(pairs + [(parent, child)]) == Elements(pairs) + {parent, child}
  {
  }

  lemma InDegreeAppend(g: Graph, parent: Item, child: Item, x: Item)
    ensures var kids := if parent in g then g[parent] else [];
            InDegree(g[parent := kids + [child]], x) == InDegree(g, x) + if x == child then 1 else 0
  {
    var kids := if parent in g then g[parent] else [];
    var h := g[parent := kids + [child]];
    InDegreeWithout(h, parent, x);
    assert h - {parent} == g - {parent};
    if parent in g {
      InDegreeWithout(g, parent, x);
    } else {
      assert g - {parent} == g;
    }
  }

  /** A pair more: the child is counted once more, and listed under its parent. */
  lemma TablesAppend(numParents: map<Item, int>, g: Graph, parent: Item, child: Item)
    requires Consistent(numParents, g) && parent in numParents && child in numParents
    ensures var h := g[parent := (if parent in g then g[parent] else []) + [child]];
            Consistent(numParents[child := numParents[child] + 1], h)
  {
    var h := g[parent := (if parent in g then g[parent] else []) + [child]];
    forall x | x in numParents
      ensures InDegree(h, x) == numParents[x] + if x == child then 1 else 0
    {
      InDegreeAppend(g, parent, child, x);
    }
    assert forall p, c :: Edge(h, p, c) ==> Edge(g, p, c) || c == child;
  }

  /** An element with no edges yet. */
  lemma TablesNewItem(numParents: map<Item, int>, g: Graph, x: Item)
    requires Consistent(numParents, g)
    ensures Consistent(if x in numParents then numParents else numParents[x := 0], g)
  {
    InDegreeZero(g, x);
  }

  /** The first loop of `topsort` and of `topsort_levels`. */
  method BuildTables(pairs: seq<(Item, Item)>) returns (numParents: map<Item, int>, children: Graph)
    ensures children == Children(pairs)
    ensures numParents.Keys == Elements(pairs)
    ensures Consistent(numParents, children)
  {
    numParents, children := map[], map[];
    assert Consistent(numParents, children) && children == Children([]) && Elements([]) == {};
    hide Consistent, Children, Elements;
    for i := 0 to |pairs|
      invariant children == Children(pairs[..i])
      invariant numParents.Keys == Elements(pairs[..i])
      invariant Consistent(numParents, children)
    {
      var (parent, child) := pairs[i];
      assert pairs[..i + 1] == pairs[..i] + [(parent, child)];
      ChildrenAppend(pairs[..i], parent, child);
      ElementsAppend(pairs[..i], parent, child);
      TablesNewItem(numParents, children, parent);
      if parent !in numParents {
        numParents := numParents[parent := 0];
      }
      TablesNewItem(numParents, children, child);
      if child !in numParents {
        numParents := numParents[child := 0];
      }
      TablesAppend(numParents, children, parent, child);
      numParents := numParents[child := numParents[child] + 1];
      children := children[parent := (if parent in children then children[parent] else []) + [child]];
    }
    assert pairs[..|pairs|] == pairs;
  }

  // ----- order and cycles --------------------------------------------------

  ghost predicate ParentsFirst(g: Graph, answer: seq<Item>) {
    forall k, p :: 0 <= k < |answer| && Edge(g, p, answer[k]) ==> p in answer[..k]
  }

  /** Whatever is downstream of a cycle has a parent that is, too. */
  lemma FromCycleParent(g: Graph, x: Item) returns (y: Item)
    requires FromCycle(g, x)
    ensures Edge(g, y, x) && FromCycle(g, y)
  {
    var c :| Cycle(g, c) && Reaches(g, c[0], x);
    var p :| Joins(g, p, c[0], x);
    if |p| > 1 {
      y := p[|p| - 2];
      assert Edge(g, p[|p| - 2], p[|p| - 2 + 1]);
      assert Joins(g, p[..|p| - 1], c[0], y);
    } else {
      y := Last(c);
      assert Joins(g, c, c[0], y);
    }
  }

  lemma {:induction false} SortedNotFromCycle(g: Graph, answer: seq<Item>, k: nat)
    requires ParentsFirst(g, answer) && k < |answer|
    ensures !FromCycle(g, answer[k])
  {
    if FromCycle(g, answer[k]) {
      var y := FromCycleParent(g, answer[k]);
      var j :| 0 <= j < k && answer[j] == y;
      SortedNotFromCycle(g, answer, j);
    }
  }

  ghost predicate HasParentIn(g: Graph, rest: set<Item>, x: Item) {
    exists y :: y in rest && Edge(g, y, x)
  }

  ghost predicate EveryoneHasParent(g: Graph, rest: set<Item>) {
    forall x {:trigger HasParentIn(g, rest, x)} :: x in rest ==> HasParentIn(g, rest, x)
  }

  /** Walking back inside a set where everybody has a parent ends in a cycle. */
  lemma {:induction false} WalkBack(g: Graph, rest: set<Item>, p: seq<Item>)
    requires SimplePath(g, p) && Items(p) <= rest
    requires EveryoneHasParent(g, rest)
    ensures FromCycle(g, Last(p))
    decreases |rest| - |p|
  {
    assert p[0] in Items(p) && HasParentIn(g, rest, p[0]);
    var y :| y in rest && Edge(g, y, p[0]);
    if k :| 0 <= k < |p| && p[k] == y {
      var c := p[..k + 1];
      assert Cycle(g, c);
      assert Joins(g, p, c[0], Last(p));
    } else {
      WalkConcat(g, [y], p);
      var longer := [y] + p;
      assert Items(longer) == {y} + Items(p);
      DistinctBound(longer, rest);
      WalkBack(g, rest, longer);
    }
  }

  lemma StuckFromCycle(g: Graph, rest: set<Item>)
    requires EveryoneHasParent(g, rest)
    ensures forall x :: x in rest ==> FromCycle(g, x)
  {
    forall x | x in rest ensures FromCycle(g, x) {
      WalkBack(g, rest, [x]);
    }
  }

  lemma CycleIsFromCycle(g: Graph)
    requires HasCycle(g)
    ensures exists x :: x in g && FromCycle(g, x)
  {
    var c :| Cycle(g, c);
    ReachesSelf(g, c[0]);
    if |c| > 1 {
      assert Edge(g, c[0], c[0 + 1]);
    }
    assert c[0] in g && FromCycle(g, c[0]);
  }

  // ----- taking a parent out of the tables ---------------------------------

  /** The tables while `parent` (already out of `numParents`) still has the
      children `kids` to be discounted. */
  ghost predicate Releasing(numParents: map<Item, int>, children: Graph, kids: seq<Item>) {
    && children.Keys <= numParents.Keys
    && (forall p, c :: Edge(children, p, c) ==> c in numParents)
    && (forall c :: c in kids ==> c in numParents)
    && (forall x :: x in numParents ==> numParents[x] == InDegree(children, x) + Count(kids, x))
  }

  ghost function ChildrenOf(children: Graph, parent: Item): seq<Item> {
    if parent in children then children[parent] else []
  }

  lemma ReleaseStart(numParents: map<Item, int>, children: Graph, parent: Item)
    requires Consistent(numParents, children) && parent in numParents && numParents[parent] == 0
    ensures Releasing(numParents - {parent}, children - {parent}, ChildrenOf(children, parent))
  {
    InDegreeZero(children, parent);
    forall x | x in numParents - {parent}
      ensures numParents[x] == InDegree(children - {parent}, x) + Count(ChildrenOf(children, parent), x)
    {
      if parent in children {
        InDegreeWithout(children, parent, x);
      } else {
        assert children - {parent} == children;
      }
    }
    forall c | c in ChildrenOf(children, parent) ensures c in numParents - {parent} {
      assert Edge(children, parent, c);
    }
    assert forall p, c :: Edge(children - {parent}, p, c) ==> Edge(children, p, c);
  }

  lemma ReleaseStep(numParents: map<Item, int>, children: Graph, kids: seq<Item>)
    requires kids != [] && Releasing(numParents, children, kids)
    ensures kids[0] in numParents && numParents[kids[0]] > 0
    ensures Releasing(numParents[kids[0] := numParents[kids[0]] - 1], children, kids[1..])
  {
    assert kids == [kids[0]] + kids[1..];
    assert Count(kids, kids[0]) == 1 + Count(kids[1..], kids[0]);
    assert forall x :: Count(kids, x) == Count([kids[0]], x) + Count(kids[1..], x);
  }

  lemma ReleaseEnd(numParents: map<Item, int>, children: Graph)
    requires Releasing(numParents, children, [])
    ensures Consistent(numParents, children)
  {
  }

  /** Nobody that is still in the tables is a parent of `x`. */
  lemma NoParentLeft(numParents: map<Item, int>, children: Graph, kids: seq<Item>, x: Item)
    requires Releasing(numParents, children, kids) && x in numParents && numParents[x] == 0
    ensures forall p :: !Edge(children, p, x)
  {
    InDegreeZero(children, x);
  }

  // ----- the sort ----------------------------------------------------------

  /** The state of the main loop when the first `done` answers have been taken out of
      the tables, and the last of them still has the children `kids` to be discounted. */
  ghost predicate Sorting(g: Graph, items: set<Item>, answer: seq<Item>, done: nat,
                          numParents: map<Item, int>, children: Graph, kids: seq<Item>)
  {
    && done <= |answer|
    && Distinct(answer)
    && Items(answer) <= items
    && ParentsFirst(g, answer)
    && children == g - Items(answer[..done])
    && numParents.Keys == items - Items(answer[..done])
    && Releasing(numParents, children, kids)
    && forall x :: x in numParents ==> (numParents[x] == 0 <==> x in answer[done..])
  }

  lemma SortingStart(g: Graph, answer: seq<Item>, numParents: map<Item, int>)
    requires Consistent(numParents, g) && Distinct(answer)
    requires forall x :: x in answer <==> x in numParents && numParents[x] == 0
    ensures Sorting(g, numParents.Keys, answer, 0, numParents, g, [])
  {
    forall k | 0 <= k < |answer| ensures forall p :: !Edge(g, p, answer[k]) {
      assert answer[k] in answer;
      InDegreeZero(g, answer[k]);
    }
    assert g == g - Items(answer[..0]);
  }

  lemma TakeParent(g: Graph, items: set<Item>, answer: seq<Item>, done: nat,
                   numParents: map<Item, int>, children: Graph)
    requires Sorting(g, items, answer, done, numParents, children, []) && done < |answer|
    ensures answer[done] in numParents
    ensures var parent := answer[done];
            Sorting(g, items, answer, done + 1, numParents - {parent}, children - {parent},
                    ChildrenOf(children, parent))
  {
    var parent := answer[done];
    assert Items(answer[..done + 1]) == Items(answer[..done]) + {parent};
    assert parent in answer[done..];
    assert parent in numParents;
    ReleaseEnd(numParents, children);
    ReleaseStart(numParents, children, parent);
    assert forall x :: x in answer[done..] <==> x == parent || x in answer[done + 1..];
  }

  lemma DiscountChild(g: Graph, items: set<Item>, answer: seq<Item>, done: nat,
                      numParents: map<Item, int>, children: Graph, kids: seq<Item>)
    requires Sorting(g, items, answer, done, numParents, children, kids) && kids != []
    ensures kids[0] in numParents
    ensures var fewer := numParents[kids[0] := numParents[kids[0]] - 1];
            var more := if fewer[kids[0]] == 0 then answer + [kids[0]] else answer;
            Sorting(g, items, more, done, fewer, children, kids[1..])
  {
    var child := kids[0];
    ReleaseStep(numParents, children, kids);
    var fewer := numParents[child := numParents[child] - 1];
    if fewer[child] == 0 {
      var more := answer + [child];
      assert answer == answer[..done] + answer[done..];
      assert child !in answer;
      NoParentLeft(fewer, children, kids[1..], child);
      forall p | Edge(g, p, child) ensures p in answer {
        assert !Edge(children, p, child);
      }
      assert forall k :: 0 <= k < |answer| ==> more[..k] == answer[..k];
      assert more[..done] == answer[..done] && more[done..] == answer[done..] + [child];
      assert more[..|answer|] == answer;
    }
  }

  lemma SortingEnd(g: Graph, items: set<Item>, answer: seq<Item>, numParents: map<Item, int>, children: Graph)
    requires Sorting(g, items, answer, |answer|, numParents, children, [])
    requires Nodes(g) <= items
    ensures numParents.Keys == set x | x in items && FromCycle(g, x)
    ensures Items(answer) == set x | x in items && !FromCycle(g, x)
    ensures Consistent(numParents, children) && children == g - Items(answer)
  {
    hide EveryoneHasParent;
    assert answer[..|answer|] == answer;
    forall x | x in answer ensures !FromCycle(g, x) {
      var k :| 0 <= k < |answer| && answer[k] == x;
      SortedNotFromCycle(g, answer, k);
    }
    LeftoverFromCycle(g, numParents, children);
    ReleaseEnd(numParents, children);
  }

  lemma LeftoverFromCycle(g: Graph, numParents: map<Item, int>, children: Graph)
    requires Releasing(numParents, children, [])
    requires forall x :: x in numParents ==> numParents[x] != 0
    requires forall p, c :: Edge(children, p, c) ==> Edge(g, p, c)
    ensures EveryoneHasParent(children, numParents.Keys)
    ensures forall x :: x in numParents ==> FromCycle(g, x)
  {
    forall x | x in numParents
      ensures HasParentIn(children, numParents.Keys, x) && HasParentIn(g, numParents.Keys, x)
    {
      InDegreeZero(children, x);
      var p :| Edge(children, p, x);
      assert Edge(g, p, x) && p in numParents.Keys;
    }
    StuckFromCycle(g, numParents.Keys);
  }

  lemma LeftoverMeansCycle(g: Graph, items: set<Item>)
    requires Nodes(g) <= items
    ensures (set x | x in items && FromCycle(g, x)) == {} <==> !HasCycle(g)
  {
    var leftover := set x | x in items && FromCycle(g, x);
    if HasCycle(g) {
      CycleIsFromCycle(g);
      var x :| x in g && FromCycle(g, x);
      assert x in Nodes(g) && x in leftover;
    }
    if leftover != {} {
      var x :| x in leftover;
      assert FromCycle(g, x);
    }
  }

  lemma AnswerBound(g: Graph, items: set<Item>, answer: seq<Item>, done: nat,
                    numParents: map<Item, int>, children: Graph, kids: seq<Item>)
    requires Sorting(g, items, answer, done, numParents, children, kids)
    ensures |answer| <= |items|
  {
    DistinctBound(answer, items);
  }

  /** The items with no parent, in an arbitrary order. */
  method Parentless(numParents: map<Item, int>) returns (xs: seq<Item>)
    ensures Distinct(xs)
    ensures forall x :: x in xs <==> x in numParents && numParents[x] == 0
  {
    xs := [];
    var keys := numParents.Keys;
    while keys != {}
      invariant keys <= numParents.Keys
      invariant Distinct(xs)
      invariant forall x :: x in xs <==> x in numParents && x !in keys && numParents[x] == 0
      decreases |keys|
    {
      var x :| x in keys;
      keys := keys - {x};
      if numParents[x] == 0 {
        xs := xs + [x];
      }
    }
  }

  /** Each pair's parent stands before its child. */
  ghost predicate InDependencyOrder(pairs: seq<(Item, Item)>, answer: seq<Item>) {
    forall i, j :: 0 <= i < |answer| && 0 <= j < |answer| && (answer[i], answer[j]) in pairs ==> i < j
  }

  lemma ParentsFirstInOrder(pairs: seq<(Item, Item)>, answer: seq<Item>)
    requires ParentsFirst(Children(pairs), answer) && Distinct(answer)
    ensures InDependencyOrder(pairs, answer)
  {
    ChildrenMeaning(pairs);
    forall i, j | 0 <= i < |answer| && 0 <= j < |answer| && (answer[i], answer[j]) in pairs ensures i < j {
      assert Edge(Children(pairs), answer[i], answer[j]);
      assert answer[i] in answer[..j];
    }
  }

  /** The items that `topsort` can and cannot sort. */
  ghost function Sortable(pairs: seq<(Item, Item)>): set<Item> {
    set x | x in Elements(pairs) && !FromCycle(Children(pairs), x)
  }

  ghost function Unsortable(pairs: seq<(Item, Item)>): set<Item> {
    set x | x in Elements(pairs) && FromCycle(Children(pairs), x)
  }

  ghost predicate SortResult(pairs: seq<(Item, Item)>, r: Result<seq<Item>, CycleError>) {
    var answer := if r.Ok? then r.value else r.error.answer;
    && Distinct(answer)
    && Items(answer) == Sortable(pairs)
    && InDependencyOrder(pairs, answer)
    && (r.Err? ==>
        && r.error.numParents.Keys == Unsortable(pairs)
        && r.error.children == Children(pairs) - Sortable(pairs)
        && Consistent(r.error.numParents, r.error.children))
  }

  lemma SortFinished(pairs: seq<(Item, Item)>, answer: seq<Item>, numParents: map<Item, int>, children: Graph)
    requires Sorting(Children(pairs), Elements(pairs), answer, |answer|, numParents, children, [])
    ensures SortResult(pairs, if numParents.Keys == {} then Ok(answer)
                              else Err(CycleError(answer, numParents, children)))
    ensures numParents.Keys == {} <==> !HasCycle(Children(pairs))
    ensures numParents.Keys == {} ==> Items(answer) == Elements(pairs)
  {
    ChildrenMeaning(pairs);
    SortingEnd(Children(pairs), Elements(pairs), answer, numParents, children);
    LeftoverMeansCycle(Children(pairs), Elements(pairs));
    ParentsFirstInOrder(pairs, answer);
    assert numParents.Keys == Elements(pairs) - Items(answer[..|answer|]) && answer[..|answer|] == answer;
  }

  /** The inner loop of `topsort`: discount the children of a parent that has just been sorted. */
  method KnockDown(ghost g: Graph, ghost items: set<Item>, ghost done: nat, ghost left: Graph, kids: seq<Item>,
                   answer0: seq<Item>, numParents0: map<Item, int>)
    returns (answer: seq<Item>, numParents: map<Item, int>)
    requires Sorting(g, items, answer0, done, numParents0, left, kids)
    ensures Sorting(g, items, answer, done, numParents, left, [])
    ensures answer0 <= answer
  {
    hide Sorting;
    answer, numParents := answer0, numParents0;
    ghost var rest := kids;
    for j := 0 to |kids|
      invariant rest == kids[j..]
      invariant answer0 <= answer
      invariant Sorting(g, items, answer, done, numParents, left, rest)
    {
      var child := kids[j];
      assert rest[0] == child && rest[1..] == kids[j + 1..];
      DiscountChild(g, items, answer, done, numParents, left, rest);
      numParents := numParents[child := numParents[child] - 1];
      if numParents[child] == 0 {
        answer := answer + [child];
      }
      rest := rest[1..];
    }
  }

  method Topsort(pairs: seq<(Item, Item)>) returns (r: Result<seq<Item>, CycleError>)
    ensures SortResult(pairs, r)
    ensures r.Ok? <==> !HasCycle(Children(pairs))
    ensures r.Ok? ==> Items(r.value) == Elements(pairs)
  {
    hide Sorting, SortResult, Distinct, Consistent, Elements, Children, HasCycle, Items;
    var numParents, children := BuildTables(pairs);
    var answer := Parentless(numParents);
    ghost var g, items := Children(pairs), Elements(pairs);
    SortingStart(g, answer, numParents);
    var i := 0;
    while i < |answer|
      invariant i <= |answer|
      invariant Sorting(g, items, answer, i, numParents, children, [])
      decreases |items| - i
    {
      var parent := answer[i];
      TakeParent(g, items, answer, i, numParents, children);
      AnswerBound(g, items, answer, i, numParents, children, []);
      numParents := numParents - {parent};
      ghost var left := children - {parent};
      if parent in children {
        answer, numParents := KnockDown(g, items, i + 1, left, children[parent], answer, numParents);
        children := children - {parent};
      }
      assert children == left;
      i := i + 1;
    }
    SortFinished(pairs, answer, numParents, children);
    if numParents.Keys != {} {
      return Err(CycleError(answer, numParents, children));
    }
    return Ok(answer);
  }
}
