/** `find_cycles` of topsort.py: every simple cycle, once up to rotation. */
module CycleSearch {
  import opened Sequences
  import opened Graphs
  import RotationTest

  // ----- what has been found, and what the stack still has to find -------

  ghost predicate Reported(cycles: seq<seq<Item>>, c: seq<Item>) {
    exists i :: 0 <= i < |cycles| && IsRotation(cycles[i], c)
  }

  /** A simple path from `root` whose last item has an edge back to its `k`-th item. */
  ghost predicate Lasso(g: Graph, root: Item, q: seq<Item>, k: nat) {
    && SimplePath(g, q)
    && q[0] == root
    && k < |q|
    && Edge(g, Last(q), q[k])
  }

  ghost predicate Pending(stack: seq<seq<Item>>, q: seq<Item>) {
    exists i :: 0 <= i < |stack| && stack[i] <= q
  }

  /** The child by which the lasso leaves its prefix `path`. */
  ghost function NextChild(path: seq<Item>, q: seq<Item>, k: nat): Item
    requires path <= q && k < |q|
  {
    if |q| == |path| then q[k] else q[|path|]
  }

  /** Every lasso is reported, or extends a path on the stack, or extends
      `path` by one of the children in `rest`. */
  ghost predicate Complete(g: Graph, root: Item, stack: seq<seq<Item>>, cycles: seq<seq<Item>>,
                           path: seq<Item>, rest: seq<Item>)
  {
    forall q, k: nat :: Lasso(g, root, q, k) ==>
      || Reported(cycles, q[k..])
      || Pending(stack, q)
      || (path <= q && NextChild(path, q, k) in rest)
  }

  /** All cycles that can be reached from `v` are reported. */
  ghost predicate AllFrom(g: Graph, v: Item, cycles: seq<seq<Item>>) {
    forall c :: Cycle(g, c) && Reaches(g, v, c[0]) ==> Reported(cycles, c)
  }

  ghost predicate PairwiseDifferent(cycles: seq<seq<Item>>) {
    forall i, j :: 0 <= i < j < |cycles| ==> !IsRotation(cycles[i], cycles[j])
  }

  lemma PendingMore(stack: seq<seq<Item>>, q: seq<Item>, extra: seq<seq<Item>>)
    requires Pending(stack, q)
    ensures Pending(stack + extra, q)
  {
    var i :| 0 <= i < |stack| && stack[i] <= q;
    assert (stack + extra)[i] == stack[i];
  }

  // ----- steps of the search keep it complete ----------------------------

  lemma CompleteAtRoot(g: Graph, root: Item, cycles: seq<seq<Item>>)
    ensures Complete(g, root, [[root]], cycles, [root], [])
  {
    forall q, k: nat | Lasso(g, root, q, k) ensures Pending([[root]], q) {
      assert [[root]][0] <= q;
    }
  }

  lemma CompletePop(g: Graph, root: Item, stack: seq<seq<Item>>, cycles: seq<seq<Item>>, lastPath: seq<Item>)
    requires stack != [] && Last(stack) != []
    requires Complete(g, root, stack, cycles, lastPath, [])
    ensures var path := Last(stack);
            Complete(g, root, stack[..|stack| - 1], cycles, path,
                     if Last(path) in g then g[Last(path)] else [])
  {
  }

  lemma CompletePush(g: Graph, root: Item, stack: seq<seq<Item>>, cycles: seq<seq<Item>>,
                     path: seq<Item>, rest: seq<Item>)
    requires rest != [] && rest[0] !in path
    requires Complete(g, root, stack, cycles, path, rest)
    ensures Complete(g, root, stack + [path + [rest[0]]], cycles, path, rest[1..])
  {
    var more := stack + [path + [rest[0]]];
    forall q, k: nat | Lasso(g, root, q, k)
      ensures Reported(cycles, q[k..]) || Pending(more, q) || (path <= q && NextChild(path, q, k) in rest[1..])
    {
      if Pending(stack, q) {
        PendingMore(stack, q, [path + [rest[0]]]);
      } else if !Reported(cycles, q[k..]) && NextChild(path, q, k) == rest[0] {
        assert |q| > |path|;
        assert path + [rest[0]] <= q;
        assert more[|stack|] <= q;
      }
    }
  }

  lemma CompleteReport(g: Graph, root: Item, stack: seq<seq<Item>>, cycles: seq<seq<Item>>,
                       more: seq<seq<Item>>, path: seq<Item>, rest: seq<Item>, at: nat)
    requires rest != [] && at < |path| && path[at] == rest[0]
    requires Distinct(path) && cycles <= more && Reported(more, path[at..])
    requires Complete(g, root, stack, cycles, path, rest)
    ensures Complete(g, root, stack, more, path, rest[1..])
  {
  }

  lemma AllFromDownstream(g: Graph, u: Item, v: Item, cycles: seq<seq<Item>>)
    requires AllFrom(g, u, cycles) && Reaches(g, u, v)
    ensures AllFrom(g, v, cycles)
  {
    forall c | Cycle(g, c) && Reaches(g, v, c[0]) ensures Reported(cycles, c) {
      ReachesTrans(g, u, v, c[0]);
    }
  }

  // ----- every cycle that a root reaches is the loop of some lasso -------

  /** A walk with a repeated item can be cut short. */
  lemma CutRepeat(g: Graph, p: seq<Item>, i: nat, j: nat)
    requires Walk(g, p) && i < j < |p| && p[i] == p[j]
    ensures Walk(g, p[..i] + p[j..])
    ensures (p[..i] + p[j..])[0] == p[0]
  {
  }

  /** A walk that ends on the cycle yields a simple path that meets the cycle only in its last item. */
  lemma {:induction false} FirstMeeting(g: Graph, c: seq<Item>, p: seq<Item>) returns (s: seq<Item>)
    requires Walk(g, p) && Last(p) in c
    ensures SimplePath(g, s) && s[0] == p[0] && Last(s) in c
    ensures forall i :: 0 <= i < |s| - 1 ==> s[i] !in c
    decreases |p|
  {
    if i :| 0 <= i < |p| - 1 && p[i] in c {
      s := FirstMeeting(g, c, p[..i + 1]);
    } else if i, j :| 0 <= i < j < |p| && p[i] == p[j] {
      CutRepeat(g, p, i, j);
      s := FirstMeeting(g, c, p[..i] + p[j..]);
    } else {
      s := p;
    }
  }

  lemma LassoAround(g: Graph, root: Item, c: seq<Item>) returns (q: seq<Item>, k: nat)
    requires Cycle(g, c) && Reaches(g, root, c[0])
    ensures Lasso(g, root, q, k) && IsRotation(q[k..], c)
  {
    var p :| Joins(g, p, root, c[0]);
    var s := FirstMeeting(g, c, p);
    var at :| 0 <= at < |c| && c[at] == Last(s);
    var turn := TurnAround(g, c, at);
    JoinLasso(g, s, turn);
    k := |s| - 1;
    q := s[..k] + turn;
    assert q[k..] == turn;
  }

  /** The cycle, started at its `at`-th item. */
  lemma TurnAround(g: Graph, c: seq<Item>, at: nat) returns (turn: seq<Item>)
    requires Cycle(g, c) && at < |c|
    ensures Cycle(g, turn) && turn[0] == c[at] && IsRotation(turn, c)
    ensures forall x :: x in turn ==> x in c
  {
    turn := Rotate(c, at);
    RotateCycle(g, c, at);
    assert IsRotation(c, turn);
    RotationSymmetric(c, turn);
  }

  /** A path up to the cycle, followed by one turn around it. */
  lemma JoinLasso(g: Graph, s: seq<Item>, turn: seq<Item>)
    requires SimplePath(g, s) && Cycle(g, turn) && Last(s) == turn[0]
    requires forall i :: 0 <= i < |s| - 1 ==> s[i] !in turn
    ensures Lasso(g, s[0], s[..|s| - 1] + turn, |s| - 1)
  {
  }

  /** Once the stack is empty the whole region below the root has been searched. */
  lemma SearchedFrom(g: Graph, root: Item, cycles: seq<seq<Item>>, path: seq<Item>)
    requires Complete(g, root, [], cycles, path, [])
    ensures AllFrom(g, root, cycles)
  {
    forall c | Cycle(g, c) && Reaches(g, root, c[0]) ensures Reported(cycles, c) {
      var q, k := LassoAround(g, root, c);
      assert Reported(cycles, q[k..]);
      var i :| 0 <= i < |cycles| && IsRotation(cycles[i], q[k..]);
      RotationTransitive(cycles[i], q[k..], c);
    }
  }

  // ----- termination -----------------------------------------------------

  /** `k` times `unit`, by repeated addition. */
  ghost function Times(k: nat, unit: nat): nat {
    if k == 0 then 0 else Times(k - 1, unit) + unit
  }

  /** `b` to the power `k`; 0 for a negative exponent. */
  ghost function Power(b: nat, k: int): nat {
    if k < 0 then 0 else if k == 0 then 1 else Times(b, Power(b, k - 1))
  }

  /** What is left to do: a path of length L among `n` nodes counts (d + 1)^(n - L). */
  ghost function Weight(stack: seq<seq<Item>>, n: nat, d: nat): nat {
    if stack == [] then 0
    else Weight(stack[..|stack| - 1], n, d) + Power(d + 1, n - |Last(stack)|)
  }

  lemma WeightPush(stack: seq<seq<Item>>, p: seq<Item>, n: nat, d: nat)
    ensures Weight(stack + [p], n, d) == Weight(stack, n, d) + Power(d + 1, n - |p|)
  {
  }

  lemma {:induction false} TimesBound(k: nat, d: nat, unit: nat)
    requires k <= d
    ensures Times(k, unit) <= Times(d, unit)
    decreases d
  {
    if k < d {
      TimesBound(k, d - 1, unit);
    }
  }

  lemma {:induction false} PowerPositive(b: nat, k: nat)
    requires b > 0
    ensures Power(b, k) > 0
  {
    if k > 0 {
      PowerPositive(b, k - 1);
      TimesBound(1, b, Power(b, k - 1));
    }
  }

  /** Replacing a path by at most `d` paths one longer makes the stack lighter. */
  lemma ChildrenWeighLess(n: nat, d: nat, length: nat, kids: nat)
    requires length <= n && kids <= d
    ensures Times(kids, Power(d + 1, n - length - 1)) < Power(d + 1, n - length)
  {
    PowerPositive(d + 1, n - length);
    if length < n {
      PowerPositive(d + 1, n - length - 1);
      TimesBound(kids, d, Power(d + 1, n - length - 1));
    } else {
      TimesZero(kids);
    }
  }

  lemma {:induction false} TimesZero(k: nat)
    ensures Times(k, 0) == 0
  {
    if k > 0 {
      TimesZero(k - 1);
    }
  }

  lemma {:induction false} DegreeBound(g: Graph) returns (d: nat)
    ensures forall u :: u in g ==> |g[u]| <= d
    decreases |g|
  {
    if g.Keys == {} {
      d := 0;
    } else {
      var u :| u in g;
      var e := DegreeBound(g - {u});
      d := if |g[u]| > e then |g[u]| else e;
      forall v | v in g ensures |g[v]| <= d {
        if v != u {
          assert v in g - {u};
        }
      }
    }
  }

  lemma PathFits(g: Graph, p: seq<Item>)
    requires SimplePath(g, p) && p[0] in g
    ensures |p| <= |Nodes(g)|
  {
    WalkInNodes(g, p);
    DistinctBound(p, Nodes(g));
  }

  lemma ExtendPath(g: Graph, path: seq<Item>, child: Item)
    requires SimplePath(g, path) && Edge(g, Last(path), child) && child !in path
    ensures SimplePath(g, path + [child])
  {
  }

  lemma ClosePath(g: Graph, path: seq<Item>, at: nat)
    requires SimplePath(g, path) && at < |path| && Edge(g, Last(path), path[at])
    ensures Cycle(g, path[at..])
  {
  }

  // ----- the search itself -----------------------------------------------

  method IndexOf(path: seq<Item>, child: Item) returns (at: nat)
    requires child in path
    ensures at < |path| && path[at] == child && child !in path[..at]
  {
    at := 0;
    while path[at] != child
      invariant at < |path|
      invariant child !in path[..at]
      decreases |path| - at
    {
      at := at + 1;
    }
  }

  /** The duplicate check of the inner loop. */
  method IsDuplicate(cycles: seq<seq<Item>>, cycle: seq<Item>) returns (isDup: bool)
    requires cycle != []
    ensures isDup <==> Reported(cycles, cycle)
  {
    isDup := false;
    for i := 0 to |cycles|
      invariant forall j :: 0 <= j < i ==> !IsRotation(cycles[j], cycle)
    {
      var rotated := RotationTest.IsRotated(cycles[i], cycle);
      if rotated.value {
        return true;
      }
    }
  }

  ghost predicate Sound(g: Graph, cycles: seq<seq<Item>>) {
    && (forall i :: 0 <= i < |cycles| ==> Cycle(g, cycles[i]))
    && PairwiseDifferent(cycles)
  }

  ghost predicate PathsFrom(g: Graph, root: Item, paths: seq<seq<Item>>) {
    forall i :: 0 <= i < |paths| ==> SimplePath(g, paths[i]) && paths[i][0] == root
  }

  ghost predicate Settled(g: Graph, vs: set<Item>, cycles: seq<seq<Item>>) {
    forall v :: v in vs ==> AllFrom(g, v, cycles)
  }

  ghost predicate Visited(g: Graph, root: Item, settled: set<Item>, visitedNodes: set<Item>) {
    forall v :: v in visitedNodes ==> v in settled || Reaches(g, root, v)
  }

  lemma SettledMore(g: Graph, vs: set<Item>, cycles: seq<seq<Item>>, more: seq<seq<Item>>)
    requires Settled(g, vs, cycles) && cycles <= more
    ensures Settled(g, vs, more)
  {
  }

  lemma SettledBelow(g: Graph, root: Item, settled: set<Item>, visitedNodes: set<Item>, cycles: seq<seq<Item>>)
    requires Settled(g, settled, cycles) && AllFrom(g, root, cycles) && Visited(g, root, settled, visitedNodes)
    ensures Settled(g, visitedNodes, cycles)
  {
    forall v | v in visitedNodes && v !in settled ensures AllFrom(g, v, cycles) {
      AllFromDownstream(g, root, v, cycles);
    }
  }

  lemma SettledEverywhere(g: Graph, cycles: seq<seq<Item>>)
    requires Settled(g, g.Keys, cycles)
    ensures forall c :: Cycle(g, c) ==> Reported(cycles, c)
  {
    forall c | Cycle(g, c) ensures Reported(cycles, c) {
      if |c| > 1 {
        assert Edge(g, c[0], c[0 + 1]);
      }
      ReachesSelf(g, c[0]);
    }
  }

  lemma SoundMore(g: Graph, cycles: seq<seq<Item>>, cycle: seq<Item>)
    requires Sound(g, cycles) && Cycle(g, cycle) && !Reported(cycles, cycle)
    ensures Sound(g, cycles + [cycle]) && Reported(cycles + [cycle], cycle)
  {
    RotationReflexive(cycle);
    assert (cycles + [cycle])[|cycles|] == cycle;
  }

  lemma PathsMore(g: Graph, root: Item, paths: seq<seq<Item>>, path: seq<Item>, child: Item)
    requires PathsFrom(g, root, paths) && SimplePath(g, path) && path[0] == root
    requires Edge(g, Last(path), child) && child !in path
    ensures PathsFrom(g, root, paths + [path + [child]]) && Reaches(g, root, child)
  {
    ExtendPath(g, path, child);
    assert Joins(g, path + [child], root, child);
  }

  /** The state of the search below `root`, with `path` still to be extended by the children in `rest`. */
  ghost predicate Searching(g: Graph, root: Item, settled: set<Item>, paths: seq<seq<Item>>, cycles: seq<seq<Item>>,
                            visitedNodes: set<Item>, path: seq<Item>, rest: seq<Item>)
  {
    && PathsFrom(g, root, paths)
    && Sound(g, cycles)
    && Settled(g, settled, cycles)
    && Visited(g, root, settled, visitedNodes)
    && Complete(g, root, paths, cycles, path, rest)
  }

  lemma PushStep(g: Graph, root: Item, settled: set<Item>, paths: seq<seq<Item>>, cycles: seq<seq<Item>>,
                 visitedNodes: set<Item>, path: seq<Item>, rest: seq<Item>)
    requires Searching(g, root, settled, paths, cycles, visitedNodes, path, rest)
    requires SimplePath(g, path) && path[0] == root
    requires rest != [] && rest[0] !in path && Edge(g, Last(path), rest[0])
    ensures Searching(g, root, settled, paths + [path + [rest[0]]], cycles, visitedNodes + {rest[0]}, path, rest[1..])
  {
    CompletePush(g, root, paths, cycles, path, rest);
    PathsMore(g, root, paths, path, rest[0]);
  }

  lemma ReportStep(g: Graph, root: Item, settled: set<Item>, paths: seq<seq<Item>>, cycles: seq<seq<Item>>,
                   visitedNodes: set<Item>, path: seq<Item>, rest: seq<Item>, at: nat)
    requires Searching(g, root, settled, paths, cycles, visitedNodes, path, rest)
    requires SimplePath(g, path) && at < |path| && rest != [] && path[at] == rest[0] && Edge(g, Last(path), rest[0])
    ensures var more := if Reported(cycles, path[at..]) then cycles else cycles + [path[at..]];
            Searching(g, root, settled, paths, more, visitedNodes, path, rest[1..])
  {
    var cycle := path[at..];
    var more := if Reported(cycles, cycle) then cycles else cycles + [cycle];
    ClosePath(g, path, at);
    if !Reported(cycles, cycle) {
      SoundMore(g, cycles, cycle);
      SettledMore(g, settled, cycles, more);
    }
    CompleteReport(g, root, paths, cycles, more, path, rest, at);
  }

  /** The inner `for` loop: report the cycles that `path` closes and push its extensions. */
  method ExpandPath(g: Graph, root: Item, path: seq<Item>, ghost settled: set<Item>, ghost n: nat, ghost d: nat,
                    paths0: seq<seq<Item>>, cycles0: seq<seq<Item>>, visited0: set<Item>)
    returns (paths: seq<seq<Item>>, cycles: seq<seq<Item>>, visitedNodes: set<Item>)
    requires SimplePath(g, path) && path[0] == root && Last(path) in g && |g[Last(path)]| <= d && |path| <= n
    requires Searching(g, root, settled, paths0, cycles0, visited0, path, g[Last(path)])
    ensures Searching(g, root, settled, paths, cycles, visitedNodes, path, [])
    ensures Weight(paths, n, d) < Weight(paths0, n, d) + Power(d + 1, n - |path|)
  {
    hide Searching;
    paths, cycles, visitedNodes := paths0, cycles0, visited0;
    var children := g[Last(path)];
    ghost var rest, unit := children, Power(d + 1, n - |path| - 1);
    for next := 0 to |children|
      invariant rest == children[next..]
      invariant Searching(g, root, settled, paths, cycles, visitedNodes, path, rest)
      invariant Weight(paths, n, d) <= Weight(paths0, n, d) + Times(next, unit)
    {
      var child := children[next];
      assert rest[0] == child && rest[1..] == children[next + 1..];
      if child in path {
        var at := IndexOf(path, child);
        var cycle := path[at..];
        ReportStep(g, root, settled, paths, cycles, visitedNodes, path, rest, at);
        var isDup := IsDuplicate(cycles, cycle);
        if !isDup {
          cycles := cycles + [cycle];
        }
      } else {
        PushStep(g, root, settled, paths, cycles, visitedNodes, path, rest);
        WeightPush(paths, path + [child], n, d);
        paths := paths + [path + [child]];
        visitedNodes := visitedNodes + {child};
      }
      rest := rest[1..];
    }
    ChildrenWeighLess(n, d, |path|, |children|);
  }

  /** The `while` loop: empty the stack of paths that start at `root`. */
  method SearchFrom(g: Graph, root: Item, ghost settled: set<Item>, cycles0: seq<seq<Item>>, visited0: set<Item>)
    returns (cycles: seq<seq<Item>>, visitedNodes: set<Item>)
    requires root in g && Sound(g, cycles0) && Settled(g, settled, cycles0) && visited0 <= settled
    ensures Sound(g, cycles) && Settled(g, settled + {root} + visitedNodes, cycles)
  {
    ghost var n := |Nodes(g)|;
    ghost var d := DegreeBound(g);
    cycles, visitedNodes := cycles0, visited0;
    var paths := [[root]];
    var path := [root];
    CompleteAtRoot(g, root, cycles);
    while paths != []
      invariant PathsFrom(g, root, paths) && Sound(g, cycles) && Settled(g, settled, cycles)
      invariant Visited(g, root, settled, visitedNodes)
      invariant Complete(g, root, paths, cycles, path, [])
      decreases Weight(paths, n, d)
    {
      CompletePop(g, root, paths, cycles, path);
      path := Last(paths);
      paths := paths[..|paths| - 1];
      PathFits(g, path);
      if Last(path) !in g {
        PowerPositive(d + 1, n - |path|);
        continue;
      }
      paths, cycles, visitedNodes := ExpandPath(g, root, path, settled, n, d, paths, cycles, visitedNodes);
    }
    SearchedFrom(g, root, cycles, path);
    SettledBelow(g, root, settled, visitedNodes, cycles);
  }

  /** The generator `find_cycles`, as the list of all it yields. The keys of the
      table are taken in an arbitrary order. */
  method FindCycles(parentChildren: Graph) returns (cycles: seq<seq<Item>>)
    ensures forall i :: 0 <= i < |cycles| ==> Cycle(parentChildren, cycles[i])
    ensures PairwiseDifferent(cycles)
    ensures forall c :: Cycle(parentChildren, c) ==> Reported(cycles, c)
  {
    cycles := [];
    var visitedNodes: set<Item> := {};
    var keys := parentChildren.Keys;
    while keys != {}
      invariant keys <= parentChildren.Keys
      invariant Sound(parentChildren, cycles)
      invariant Settled(parentChildren, visitedNodes + (parentChildren.Keys - keys), cycles)
      decreases |keys|
    {
      var parent :| parent in keys;
      if parent !in visitedNodes {
        cycles, visitedNodes := SearchFrom(parentChildren, parent, visitedNodes + (parentChildren.Keys - keys),
                                           cycles, visitedNodes);
      }
      keys := keys - {parent};
    }
    SettledEverywhere(parentChildren, cycles);
  }

  /** What the three promises of `FindCycles` add up to: each rotation class of
      simple cycles has exactly one representative in the output. */
  lemma OneRepresentative(g: Graph, cycles: seq<seq<Item>>, c: seq<Item>) returns (i: nat)
    requires PairwiseDifferent(cycles) && Reported(cycles, c)
    ensures i < |cycles| && IsRotation(cycles[i], c)
    ensures forall j :: 0 <= j < |cycles| && IsRotation(cycles[j], c) ==> j == i
  {
    i :| 0 <= i < |cycles| && IsRotation(cycles[i], c);
    forall j | 0 <= j < |cycles| && IsRotation(cycles[j], c) ensures j == i {
      RotationSymmetric(cycles[i], c);
      RotationSymmetric(cycles[j], c);
      RotationTransitive(cycles[i], c, cycles[j]);
      RotationTransitive(cycles[j], c, cycles[i]);
    }
  }
}
