/** `topsort_levels` and `topsort_levels_core` of topsort.py, and how the three functions of that file agree. */
module LevelSort {
  import opened Results
  import opened Sequences
  import opened Graphs
  import opened DependencySort
  import CycleSearch

  /** The details of a CycleError, the two tables as they were left; or the KeyError for a child that is
      not in the table. */
  datatype LevelsError = Leftover(numParents: map<Item, int>, children: Graph) | MissingChild(item: Item)

  // ----- depth -------------------------------------------------------------

  ghost predicate WalkOf(g: Graph, p: seq<Item>, k: nat, x: Item) {
    Walk(g, p) && |p| == k + 1 && Last(p) == x
  }

  /** Some walk of `k` edges ends in `x`. */
  ghost predicate WalkInto(g: Graph, x: Item, k: nat) {
    exists p :: WalkOf(g, p, k, x)
  }

  /** The longest walk that ends in `x` has `k` edges. */
  ghost predicate LongestWalkInto(g: Graph, x: Item, k: nat) {
    WalkInto(g, x, k) && !WalkInto(g, x, k + 1)
  }

  lemma WalkIntoStart(g: Graph, x: Item)
    ensures WalkInto(g, x, 0)
  {
    assert WalkOf(g, [x], 0, x);
  }

  lemma WalkIntoStep(g: Graph, x: Item, k: nat)
    ensures WalkInto(g, x, k + 1) <==> exists p :: Edge(g, p, x) && WalkInto(g, p, k)
  {
    if WalkInto(g, x, k + 1) {
      var w :| WalkOf(g, w, k + 1, x);
      assert Edge(g, w[k], w[k + 1]);
      assert WalkOf(g, w[..k + 1], k, w[k]);
    }
    if p :| Edge(g, p, x) && WalkInto(g, p, k) {
      var w :| WalkOf(g, w, k, p);
      WalkConcat(g, w, [x]);
      assert WalkOf(g, w + [x], k + 1, x);
    }
  }

  lemma WalkIntoShorter(g: Graph, x: Item, k: nat)
    requires WalkInto(g, x, k + 1)
    ensures WalkInto(g, x, k)
  {
    var w :| WalkOf(g, w, k + 1, x);
    var v := w[1..];
    forall i | 0 <= i < |v| - 1 ensures Edge(g, v[i], v[i + 1]) {
      assert Edge(g, w[i + 1], w[i + 1 + 1]);
    }
    assert WalkOf(g, v, k, x);
  }

  lemma {:induction false} FromCycleWalks(g: Graph, x: Item, k: nat)
    requires FromCycle(g, x)
    ensures WalkInto(g, x, k)
  {
    if k == 0 {
      WalkIntoStart(g, x);
    } else {
      var y := FromCycleParent(g, x);
      FromCycleWalks(g, y, k - 1);
      WalkIntoStep(g, x, k - 1);
    }
  }

  lemma {:induction false} DepthBelow(g: Graph, x: Item, bound: nat) returns (k: nat)
    requires !WalkInto(g, x, bound)
    ensures k < bound && LongestWalkInto(g, x, k)
  {
    if bound == 0 {
      WalkIntoStart(g, x);
    } else if WalkInto(g, x, bound - 1) {
      k := bound - 1;
    } else {
      k := DepthBelow(g, x, bound - 1);
    }
  }

  // ----- one level ---------------------------------------------------------

  ghost function Deep(g: Graph, items: set<Item>, k: nat): set<Item> {
    set x | x in items && WalkInto(g, x, k)
  }

  /** After `k` levels the tables hold exactly the items that a walk of `k` edges reaches. */
  ghost predicate Layered(g: Graph, items: set<Item>, k: nat, numParents: map<Item, int>, children: Graph) {
    && Consistent(numParents, children)
    && numParents.Keys == Deep(g, items, k)
    && children == g - (items - Deep(g, items, k))
  }

  /** The items of one level, from the `m`-th on, are still in the tables. */
  ghost predicate Removing(np0: map<Item, int>, ch0: Graph, level: seq<Item>, m: nat,
                           numParents: map<Item, int>, children: Graph)
  {
    && m <= |level|
    && Consistent(numParents, children)
    && numParents.Keys == np0.Keys - Items(level[..m])
    && children == ch0 - Items(level[..m])
    && forall i :: m <= i < |level| ==> level[i] in numParents && numParents[level[i]] == 0
  }

  lemma LayeredStart(g: Graph, numParents: map<Item, int>)
    requires Consistent(numParents, g)
    ensures Layered(g, numParents.Keys, 0, numParents, g)
    ensures AreLevels(g, numParents.Keys, [])
  {
    forall x ensures WalkInto(g, x, 0) {
      WalkIntoStart(g, x);
    }
    assert Deep(g, numParents.Keys, 0) == numParents.Keys;
    assert g == g - {};
  }

  lemma LevelMeaning(g: Graph, items: set<Item>, k: nat, numParents: map<Item, int>, children: Graph, x: Item)
    requires Layered(g, items, k, numParents, children) && g.Keys <= items && x in numParents
    ensures numParents[x] == 0 <==> LongestWalkInto(g, x, k)
  {
    InDegreeZero(children, x);
    WalkIntoStep(g, x, k);
    assert WalkInto(g, x, k);
    forall p ensures Edge(children, p, x) <==> Edge(g, p, x) && WalkInto(g, p, k) {
      if p in g {
        assert p in items;
        assert WalkInto(g, p, k) <==> p in Deep(g, items, k);
      }
    }
  }

  ghost predicate IsLevel(g: Graph, items: set<Item>, k: nat, level: seq<Item>) {
    Distinct(level) && Items(level) == set x | x in items && LongestWalkInto(g, x, k)
  }

  lemma LevelFound(g: Graph, items: set<Item>, k: nat, numParents: map<Item, int>, children: Graph, level: seq<Item>)
    requires Layered(g, items, k, numParents, children) && g.Keys <= items
    requires Distinct(level)
    requires forall x :: x in level <==> x in numParents && numParents[x] == 0
    ensures IsLevel(g, items, k, level)
    ensures Removing(numParents, children, level, 0, numParents, children)
  {
    forall x | x in items ensures x in level <==> LongestWalkInto(g, x, k) {
      if x in numParents {
        LevelMeaning(g, items, k, numParents, children, x);
      }
    }
    assert children == children - Items(level[..0]);
    assert forall i :: 0 <= i < |level| ==> level[i] in level;
  }

  lemma LevelRemoved(g: Graph, items: set<Item>, k: nat, np0: map<Item, int>, ch0: Graph, level: seq<Item>,
                     numParents: map<Item, int>, children: Graph)
    requires Layered(g, items, k, np0, ch0) && g.Keys <= items && IsLevel(g, items, k, level)
    requires Removing(np0, ch0, level, |level|, numParents, children)
    ensures Layered(g, items, k + 1, numParents, children)
    ensures level != [] ==> numParents.Keys < np0.Keys
  {
    assert level[..|level|] == level;
    forall x | x in items
      ensures x in Deep(g, items, k + 1) <==> x in Deep(g, items, k) && x !in level
    {
      if WalkInto(g, x, k + 1) {
        WalkIntoShorter(g, x, k);
      }
      assert x in Items(level) <==> LongestWalkInto(g, x, k);
    }
    assert children.Keys == (g - (items - Deep(g, items, k + 1))).Keys;
    if level != [] {
      assert level[0] in Items(level);
      assert LongestWalkInto(g, level[0], k);
    }
  }

  // ----- the tables, whatever they hold -----------------------------------------

  /** How often the items released list `x` as a child. */
  ghost function Mentions(children: Graph, released: seq<Item>, x: Item): nat {
    if released == [] then 0
    else Mentions(children, released[..|released| - 1], x) + Count(ChildrenOf(children, Last(released)), x)
  }

  ghost function Remaining(np0: map<Item, int>, released: seq<Item>): set<Item> {
    np0.Keys - Items(released)
  }

  /** What is left of the tables when some items have been released, in this order. */
  ghost predicate TablesAfter(np0: map<Item, int>, ch0: Graph, released: seq<Item>,
                              numParents: map<Item, int>, children: Graph) {
    && numParents.Keys == Remaining(np0, released)
    && children == ch0 - Items(released)
    && forall x :: x in numParents ==> numParents[x] == np0[x] - Mentions(ch0, released, x)
  }

  /** The `m`-th item released lists a child that is not in the table, or no longer. */
  ghost predicate StrayAt(np0: map<Item, int>, ch0: Graph, released: seq<Item>, m: nat, child: Item)
    requires m < |released|
  {
    child in ChildrenOf(ch0, released[m]) && child !in Remaining(np0, released[..m + 1])
  }

  /** The first of these children that is not there. */
  ghost predicate FirstMissing(kids: seq<Item>, there: set<Item>, child: Item) {
    exists k :: 0 <= k < |kids| && kids[k] == child && child !in there && forall i :: 0 <= i < k ==> kids[i] in there
  }

  /** The `m`-th item released is the first that lists a stray child, and this is the first that it lists. */
  ghost predicate FirstStray(np0: map<Item, int>, ch0: Graph, released: seq<Item>, m: nat, child: Item)
    requires m < |released|
  {
    && NoStray(np0, ch0, released[..m])
    && FirstMissing(ChildrenOf(ch0, released[m]), Remaining(np0, released[..m + 1]), child)
  }

  ghost predicate NoStray(np0: map<Item, int>, ch0: Graph, released: seq<Item>) {
    forall m: nat, child :: m < |released| ==> !StrayAt(np0, ch0, released, m, child)
  }

  lemma ReleasedMore(np0: map<Item, int>, ch0: Graph, released: seq<Item>, parent: Item,
                     np1: map<Item, int>, ch1: Graph, numParents: map<Item, int>, children: Graph)
    requires TablesAfter(np0, ch0, released, np1, ch1) && parent in np1
    requires numParents.Keys == np1.Keys - {parent} && children == ch1 - {parent}
    requires forall x :: x in numParents ==> numParents[x] == np1[x] - Count(ChildrenOf(ch1, parent), x)
    ensures TablesAfter(np0, ch0, released + [parent], numParents, children)
  {
    var more := released + [parent];
    assert more[..|released|] == released && Last(more) == parent;
    assert Items(more) == Items(released) + {parent};
    assert ChildrenOf(ch1, parent) == ChildrenOf(ch0, parent);
  }

  lemma StrayKept(np0: map<Item, int>, ch0: Graph, released: seq<Item>, more: seq<Item>, m: nat, child: Item)
    requires m < |released|
    ensures StrayAt(np0, ch0, released + more, m, child) <==> StrayAt(np0, ch0, released, m, child)
  {
    assert (released + more)[..m + 1] == released[..m + 1];
  }

  lemma NoStrayMore(np0: map<Item, int>, ch0: Graph, released: seq<Item>, parent: Item)
    requires NoStray(np0, ch0, released)
    requires forall c :: c in ChildrenOf(ch0, parent) ==> c in Remaining(np0, released + [parent])
    ensures NoStray(np0, ch0, released + [parent])
  {
    var more := released + [parent];
    forall m: nat, child | m < |more| ensures !StrayAt(np0, ch0, more, m, child) {
      if m < |released| {
        StrayKept(np0, ch0, released, [parent], m, child);
      } else {
        assert more[..m + 1] == more;
      }
    }
  }

  lemma NoCount()
    ensures forall x :: Count([], x) == 0
  {
  }

  lemma CountMore(s: seq<Item>, j: nat)
    requires j < |s|
    ensures forall x :: Count(s[..j + 1], x) == Count(s[..j], x) + if x == s[j] then 1 else 0
  {
    assert s[..j + 1] == s[..j] + [s[j]];
  }

  /** Deleting one parent and discounting its children; the first child not in the table is missing. */
  method ReleaseParent(numParents0: map<Item, int>, children0: Graph, parent: Item)
    returns (numParents: map<Item, int>, children: Graph, missing: Option<Item>)
    requires parent in numParents0
    ensures missing.None? <==> forall c :: c in ChildrenOf(children0, parent) ==> c in numParents0.Keys - {parent}
    ensures missing.Some? ==> FirstMissing(ChildrenOf(children0, parent), numParents0.Keys - {parent}, missing.value)
    ensures missing.None? ==>
      && numParents.Keys == numParents0.Keys - {parent} && children == children0 - {parent}
      && forall x :: x in numParents ==> numParents[x] == numParents0[x] - Count(ChildrenOf(children0, parent), x)
  {
    hide Count;
    numParents, children, missing := numParents0 - {parent}, children0, None;
    NoCount();
    if parent in children {
      var kids := children[parent];
      for j := 0 to |kids|
        invariant numParents.Keys == numParents0.Keys - {parent}
        invariant forall i :: 0 <= i < j ==> kids[i] in numParents0.Keys - {parent}
        invariant forall x :: x in numParents ==> numParents[x] == numParents0[x] - Count(kids[..j], x)
      {
        var child := kids[j];
        if child !in numParents {
          return numParents, children, Some(child);
        }
        CountMore(kids, j);
        numParents := numParents[child := numParents[child] - 1];
      }
      assert kids[..|kids|] == kids;
      children := children - {parent};
    }
  }

  /** In tables that agree no child is missing, and the tables still agree afterwards. */
  lemma ReleaseConsistent(np0: map<Item, int>, ch0: Graph, parent: Item)
    requires Consistent(np0, ch0) && parent in np0 && np0[parent] == 0
    ensures forall c :: c in ChildrenOf(ch0, parent) ==> c in np0.Keys - {parent}
    ensures forall numParents: map<Item, int> ::
      && numParents.Keys == np0.Keys - {parent}
      && (forall x :: x in numParents ==> numParents[x] == np0[x] - Count(ChildrenOf(ch0, parent), x))
      ==> Consistent(numParents, ch0 - {parent})
  {
    ReleaseStart(np0, ch0, parent);
    forall numParents: map<Item, int>
      | numParents.Keys == np0.Keys - {parent}
        && forall x :: x in numParents ==> numParents[x] == np0[x] - Count(ChildrenOf(ch0, parent), x)
      ensures Consistent(numParents, ch0 - {parent})
    {
      assert forall x :: x in numParents ==> x in np0 - {parent};
    }
  }

  lemma RemovingStep(np0: map<Item, int>, ch0: Graph, level: seq<Item>, m: nat,
                     np1: map<Item, int>, ch1: Graph, numParents: map<Item, int>, children: Graph)
    requires Distinct(level) && m < |level| && Removing(np0, ch0, level, m, np1, ch1)
    requires Consistent(numParents, children)
    requires numParents.Keys == np1.Keys - {level[m]} && children == ch1 - {level[m]}
    ensures Removing(np0, ch0, level, m + 1, numParents, children)
  {
    assert Items(level[..m + 1]) == Items(level[..m]) + {level[m]};
    forall i | m < i < |level| ensures level[i] in numParents && numParents[level[i]] == 0 {
      InDegreeZero(ch1, level[i]);
      InDegreeZero(children, level[i]);
      assert forall p :: Edge(children, p, level[i]) ==> Edge(ch1, p, level[i]);
    }
  }

  /** Releasing one level. The last item released may have a child that is missing. */
  method RemoveLevel(ghost np0: map<Item, int>, ghost ch0: Graph, ghost released: seq<Item>,
                     np1: map<Item, int>, ch1: Graph, level: seq<Item>)
    returns (numParents: map<Item, int>, children: Graph, missing: Option<Item>)
    requires TablesAfter(np0, ch0, released, np1, ch1) && NoStray(np0, ch0, released)
    requires Distinct(level) && Items(level) <= np1.Keys
    ensures missing.None? ==>
      TablesAfter(np0, ch0, released + level, numParents, children) && NoStray(np0, ch0, released + level)
    ensures missing.Some? ==>
      exists m: nat :: m < |released + level| && FirstStray(np0, ch0, released + level, m, missing.value)
    ensures Removing(np1, ch1, level, 0, np1, ch1) ==>
      missing.None? && Removing(np1, ch1, level, |level|, numParents, children)
  {
    hide Consistent, Mentions, TablesAfter, NoStray, FirstStray, FirstMissing;
    numParents, children, missing := np1, ch1, None;
    ghost var agree := Removing(np1, ch1, level, 0, np1, ch1);
    assert released + level[..0] == released;
    for m := 0 to |level|
      invariant missing.None? && numParents.Keys == np1.Keys - Items(level[..m])
      invariant TablesAfter(np0, ch0, released + level[..m], numParents, children)
      invariant NoStray(np0, ch0, released + level[..m])
      invariant agree ==> Removing(np1, ch1, level, m, numParents, children)
    {
      ghost var before, np2, ch2 := released + level[..m], numParents, children;
      assert level[m] in Items(level);
      assert before + [level[m]] == released + level[..m + 1];
      if agree {
        ReleaseConsistent(numParents, children, level[m]);
      }
      numParents, children, missing := ReleaseParent(numParents, children, level[m]);
      KidsBefore(np0, ch0, before, np2, ch2, level[m]);
      if missing.Some? {
        MissingIsFirst(np0, ch0, before, level[m], level[m + 1..], missing.value);
        assert before + [level[m]] + level[m + 1..] == released + level;
        assert FirstStray(np0, ch0, released + level, |before|, missing.value);
        return;
      }
      ReleasedMore(np0, ch0, before, level[m], np2, ch2, numParents, children);
      NoStrayMore(np0, ch0, before, level[m]);
      assert Items(level[..m + 1]) == Items(level[..m]) + {level[m]};
      if agree {
        RemovingStep(np1, ch1, level, m, np2, ch2, numParents, children);
      }
    }
    assert level[..|level|] == level;
  }

  lemma KidsBefore(np0: map<Item, int>, ch0: Graph, released: seq<Item>,
                   numParents: map<Item, int>, children: Graph, parent: Item)
    requires TablesAfter(np0, ch0, released, numParents, children) && parent in numParents
    ensures ChildrenOf(children, parent) == ChildrenOf(ch0, parent)
    ensures numParents.Keys - {parent} == Remaining(np0, released + [parent])
  {
  }

  lemma MissingIsFirst(np0: map<Item, int>, ch0: Graph, released: seq<Item>, parent: Item, more: seq<Item>, child: Item)
    requires NoStray(np0, ch0, released)
    requires FirstMissing(ChildrenOf(ch0, parent), Remaining(np0, released + [parent]), child)
    ensures FirstStray(np0, ch0, released + [parent] + more, |released|, child)
  {
    assert (released + [parent] + more)[..|released| + 1] == released + [parent];
    assert (released + [parent] + more)[..|released|] == released;
  }

  // ----- all levels --------------------------------------------------------

  ghost predicate AreLevels(g: Graph, items: set<Item>, levels: seq<seq<Item>>) {
    forall k :: 0 <= k < |levels| ==> levels[k] != [] && IsLevel(g, items, k, levels[k])
  }

  /** Level k holds the items whose longest incoming path has k edges; the levels hold exactly what is
      not downstream of a cycle; the leftover tables hold exactly the rest. */
  ghost predicate LevelsResult(g: Graph, items: set<Item>, levels: seq<seq<Item>>, r: Option<LevelsError>) {
    && AreLevels(g, items, levels)
    && (forall x :: x in items ==> (!FromCycle(g, x) <==> exists k :: 0 <= k < |levels| && x in levels[k]))
    && (r.Some? <==> HasCycle(g))
    && (r.Some? ==>
        && r.value.Leftover?
        && r.value.numParents.Keys == (set x | x in items && FromCycle(g, x))
        && r.value.children == g - (set x | x in items && !FromCycle(g, x))
        && Consistent(r.value.numParents, r.value.children))
  }

  lemma LevelsFinished(g: Graph, items: set<Item>, levels: seq<seq<Item>>,
                       numParents: map<Item, int>, children: Graph)
    requires Nodes(g) <= items && AreLevels(g, items, levels)
    requires Layered(g, items, |levels|, numParents, children)
    requires forall x :: x in numParents ==> numParents[x] != 0
    ensures LevelsResult(g, items, levels,
                         if numParents.Keys == {} then None else Some(Leftover(numParents, children)))
  {
    hide AreLevels, Layered, Consistent, EveryoneHasParent;
    NothingDue(g, items, levels, numParents, children);
    LeftoverMeansCycle(g, items);
    assert Deep(g, items, |levels|) == set x | x in items && FromCycle(g, x);
    assert items - Deep(g, items, |levels|) == set x | x in items && !FromCycle(g, x);
    LayeredFacts(g, items, |levels|, numParents, children);
  }

  lemma NothingDue(g: Graph, items: set<Item>, levels: seq<seq<Item>>, numParents: map<Item, int>, children: Graph)
    requires Nodes(g) <= items && AreLevels(g, items, levels)
    requires Layered(g, items, |levels|, numParents, children)
    requires forall x :: x in numParents ==> numParents[x] != 0
    ensures forall x :: x in items ==> (FromCycle(g, x) <==> WalkInto(g, x, |levels|))
    ensures forall x :: x in items ==> (!FromCycle(g, x) <==> exists k :: 0 <= k < |levels| && x in levels[k])
  {
    hide EveryoneHasParent, Nodes, WalkInto, FromCycle, LongestWalkInto;
    LeftoverFromCycle(g, numParents, children);
    forall x | x in items
      ensures FromCycle(g, x) <==> WalkInto(g, x, |levels|)
      ensures !FromCycle(g, x) <==> exists k :: 0 <= k < |levels| && x in levels[k]
    {
      if FromCycle(g, x) {
        FromCycleWalks(g, x, |levels|);
        forall k | 0 <= k < |levels| ensures x !in levels[k] {
          FromCycleWalks(g, x, k + 1);
          LongestStops(g, x, k);
          assert x in Items(levels[k]) <==> LongestWalkInto(g, x, k);
        }
      } else {
        assert x !in Deep(g, items, |levels|);
        var k := DepthBelow(g, x, |levels|);
        assert x in Items(levels[k]);
      }
    }
  }

  lemma LongestStops(g: Graph, x: Item, k: nat)
    ensures WalkInto(g, x, k + 1) ==> !LongestWalkInto(g, x, k)
  {
  }

  lemma LayeredFacts(g: Graph, items: set<Item>, k: nat, numParents: map<Item, int>, children: Graph)
    requires Layered(g, items, k, numParents, children)
    ensures Consistent(numParents, children) && numParents.Keys == Deep(g, items, k)
    ensures children == g - (items - Deep(g, items, k))
  {
  }

  ghost function Concat(levels: seq<seq<Item>>): seq<Item> {
    if levels == [] then [] else Concat(levels[..|levels| - 1]) + Last(levels)
  }

  /** All that is left with as many parents as have been released. */
  ghost predicate IsNext(np0: map<Item, int>, ch0: Graph, released: seq<Item>, level: seq<Item>) {
    && Distinct(level)
    && Items(level) == set x | x in Remaining(np0, released) && np0[x] == Mentions(ch0, released, x)
  }

  ghost predicate AreNext(np0: map<Item, int>, ch0: Graph, levels: seq<seq<Item>>) {
    forall k :: 0 <= k < |levels| ==> levels[k] != [] && IsNext(np0, ch0, Concat(levels[..k]), levels[k])
  }

  /** What any two tables give, whether or not they agree: each level is all that is due after the levels before
      it; a KeyError, in the last level, for the first child that an item released lists and that is not there, or
      no longer; otherwise nothing more is due, and a CycleError if anything is left. */
  ghost predicate TablesResult(np0: map<Item, int>, ch0: Graph, levels: seq<seq<Item>>, r: Option<LevelsError>) {
    && AreNext(np0, ch0, levels)
    && var released := Concat(levels);
      if r.Some? && r.value.MissingChild? then
        && levels != [] && NoStray(np0, ch0, Concat(levels[..|levels| - 1]))
        && exists m: nat :: m < |released| && FirstStray(np0, ch0, released, m, r.value.item)
      else
        && NoStray(np0, ch0, released) && IsNext(np0, ch0, released, [])
        && (r.None? <==> Remaining(np0, released) == {})
        && (r.Some? ==> TablesAfter(np0, ch0, released, r.value.numParents, r.value.children))
  }

  lemma NextFound(np0: map<Item, int>, ch0: Graph, released: seq<Item>,
                  numParents: map<Item, int>, children: Graph, level: seq<Item>)
    requires TablesAfter(np0, ch0, released, numParents, children)
    requires Distinct(level) && forall x :: x in level <==> x in numParents && numParents[x] == 0
    ensures IsNext(np0, ch0, released, level) && Items(level) <= numParents.Keys
  {
    hide Mentions;
    forall x ensures x in level <==> x in Remaining(np0, released) && np0[x] == Mentions(ch0, released, x) {
    }
  }

  lemma NextAdded(np0: map<Item, int>, ch0: Graph, levels: seq<seq<Item>>, level: seq<Item>)
    requires AreNext(np0, ch0, levels) && level != [] && IsNext(np0, ch0, Concat(levels), level)
    ensures AreNext(np0, ch0, levels + [level])
    ensures Concat(levels + [level]) == Concat(levels) + level
  {
    hide IsNext;
    var more := levels + [level];
    assert more[..|levels|] == levels;
    forall k | 0 <= k < |more| ensures more[k] != [] && IsNext(np0, ch0, Concat(more[..k]), more[k]) {
      if k < |levels| {
        assert more[..k] == levels[..k];
      }
    }
  }

  /** The generator `topsort_levels_core`: what it yields, and the exception it may end with. */
  method TopsortLevelsCore(numParents0: map<Item, int>, children0: Graph)
    returns (levels: seq<seq<Item>>, r: Option<LevelsError>)
    ensures TablesResult(numParents0, children0, levels, r)
    ensures Consistent(numParents0, children0) ==> LevelsResult(children0, numParents0.Keys, levels, r)
  {
    hide Layered, LevelsResult, Consistent, Removing, IsLevel, Distinct, Nodes, IsNext, AreNext, NoStray, TablesAfter,
      FirstStray, AreLevels;
    ghost var g, items := children0, numParents0.Keys;
    ghost var agree := Consistent(numParents0, children0);
    if agree {
      NodesInTable(numParents0, children0);
      LayeredStart(g, numParents0);
    }
    var numParents, children := numParents0, children0;
    levels := [];
    NothingReleased(numParents0, children0);
    while true
      invariant TablesAfter(numParents0, children0, Concat(levels), numParents, children)
      invariant NoStray(numParents0, children0, Concat(levels)) && AreNext(numParents0, children0, levels)
      invariant agree ==> Layered(g, items, |levels|, numParents, children) && AreLevels(g, items, levels)
      decreases numParents.Keys
    {
      var levelParents := Parentless(numParents);
      ghost var released := Concat(levels);
      NextFound(numParents0, children0, released, numParents, children, levelParents);
      if agree {
        LevelFound(g, items, |levels|, numParents, children, levelParents);
      }
      if levelParents == [] {
        break;
      }
      ghost var np0, ch0 := numParents, children;
      var missing;
      numParents, children, missing :=
        RemoveLevel(numParents0, children0, released, numParents, children, levelParents);
      NextAdded(numParents0, children0, levels, levelParents);
      if agree {
        LevelRemoved(g, items, |levels|, np0, ch0, levelParents, numParents, children);
        LevelAdded(g, items, levels, levelParents);
      }
      ghost var front := levels;
      levels := levels + [levelParents];
      if missing.Some? {
        assert levels[..|levels| - 1] == front;
        return levels, Some(MissingChild(missing.value));
      }
      FewerLeft(numParents0, children0, released, levelParents, np0, ch0, numParents, children);
    }
    if agree {
      LevelsFinished(g, items, levels, numParents, children);
    }
    KeysLeft(numParents0, children0, Concat(levels), numParents, children);
    r := if numParents.Keys == {} then None else Some(Leftover(numParents, children));
  }

  lemma NodesInTable(numParents: map<Item, int>, children: Graph)
    requires Consistent(numParents, children)
    ensures Nodes(children) <= numParents.Keys && children.Keys <= numParents.Keys
  {
    forall x | x in Nodes(children) ensures x in numParents.Keys {
      if u :| u in children && x in children[u] {
        assert Edge(children, u, x);
      }
    }
  }

  lemma NothingReleased(numParents: map<Item, int>, children: Graph)
    ensures TablesAfter(numParents, children, [], numParents, children)
    ensures NoStray(numParents, children, []) && AreNext(numParents, children, [])
  {
    assert children == children - {};
  }

  lemma LevelAdded(g: Graph, items: set<Item>, levels: seq<seq<Item>>, level: seq<Item>)
    requires AreLevels(g, items, levels) && level != [] && IsLevel(g, items, |levels|, level)
    ensures AreLevels(g, items, levels + [level])
  {
  }

  lemma KeysLeft(np0: map<Item, int>, ch0: Graph, released: seq<Item>, numParents: map<Item, int>, children: Graph)
    requires TablesAfter(np0, ch0, released, numParents, children)
    ensures numParents.Keys == Remaining(np0, released)
  {
  }

  lemma FewerLeft(np0: map<Item, int>, ch0: Graph, released: seq<Item>, level: seq<Item>, np1: map<Item, int>,
                  ch1: Graph, numParents: map<Item, int>, children: Graph)
    requires TablesAfter(np0, ch0, released, np1, ch1)
    requires TablesAfter(np0, ch0, released + level, numParents, children)
    requires level != [] && Items(level) <= np1.Keys
    ensures numParents.Keys < np1.Keys
  {
    hide Mentions;
    assert level[0] in Items(level) && level[0] in released + level;
  }

  method TopsortLevels(pairs: seq<(Item, Item)>) returns (levels: seq<seq<Item>>, r: Option<LevelsError>)
    ensures LevelsResult(Children(pairs), Elements(pairs), levels, r)
    ensures forall x :: x in Sortable(pairs) <==> exists k :: 0 <= k < |levels| && x in levels[k]
  {
    var numParents, children := BuildTables(pairs);
    levels, r := TopsortLevelsCore(numParents, children);
    forall k, x | 0 <= k < |levels| && x in levels[k] ensures x in Elements(pairs) {
      assert x in Items(levels[k]);
    }
  }

  /** For the same pairs, `topsort` raises CycleError exactly when `topsort_levels` does, and exactly
      when `find_cycles` on the children table yields a cycle; and the levels hold what `topsort` sorts. */
  method SortersAgree(pairs: seq<(Item, Item)>)
    returns (sorted: Result<seq<Item>, CycleError>, levels: seq<seq<Item>>, r: Option<LevelsError>,
             cycles: seq<seq<Item>>)
    ensures SortResult(pairs, sorted) && LevelsResult(Children(pairs), Elements(pairs), levels, r)
    ensures sorted.Err? <==> r.Some?
    ensures sorted.Err? <==> cycles != []
    ensures forall x :: x in Sortable(pairs) <==> exists k :: 0 <= k < |levels| && x in levels[k]
  {
    hide SortResult, LevelsResult, Sortable, Children, Elements, HasCycle, Cycle, CycleSearch.Reported;
    sorted := Topsort(pairs);
    levels, r := TopsortLevels(pairs);
    LevelsRaise(Children(pairs), Elements(pairs), levels, r);
    var numParents, children := BuildTables(pairs);
    cycles := CycleSearch.FindCycles(children);
    FoundIffCycle(children, cycles);
  }

  lemma LevelsRaise(g: Graph, items: set<Item>, levels: seq<seq<Item>>, r: Option<LevelsError>)
    requires LevelsResult(g, items, levels, r)
    ensures r.Some? <==> HasCycle(g)
  {
  }

  lemma FoundIffCycle(g: Graph, cycles: seq<seq<Item>>)
    requires forall i :: 0 <= i < |cycles| ==> Cycle(g, cycles[i])
    requires forall c :: Cycle(g, c) ==> CycleSearch.Reported(cycles, c)
    ensures cycles != [] <==> HasCycle(g)
  {
    hide Cycle;
    if c :| Cycle(g, c) {
      assert CycleSearch.Reported(cycles, c);
    }
    if cycles != [] {
      assert Cycle(g, cycles[0]);
    }
  }
}
