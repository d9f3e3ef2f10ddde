/** `StaticInformation` of print-introspected-doxygen.cc: every configuration path from a type, by
    backtracking over two stacks. */
module TypeGather {
  import opened Sequences

  type TypeId(==,!new)

  /** What the checker of an attribute says about it. */
  datatype Attribute =
    | PointerTo(name: string, pointee: TypeId)
    | ContainerOf(name: string, item: TypeId)
    | Plain(name: string)

  /** The type registry. `childOf` holds (child, ancestor). */
  datatype Types = Types(
    attributes: map<TypeId, seq<Attribute>>,
    registered: seq<TypeId>,
    childOf: set<(TypeId, TypeId)>,
    names: map<TypeId, string>,
    objectType: TypeId)

  /** The registry and the aggregation relations recorded so far. */
  datatype Net = Net(types: Types, aggregates: seq<(TypeId, TypeId)>)

  /** One way to go on from a type, and how it is written in a path. */
  datatype Link = Link(text: string, target: TypeId)

  function DollarName(types: Types, tid: TypeId): string {
    "$" + if tid in types.names then types.names[tid] else ""
  }

  function AttributesOf(types: Types, tid: TypeId): seq<Attribute> {
    if tid in types.attributes then types.attributes[tid] else []
  }

  /** Pointers to plain objects are not followed. */
  function AttributeLinks(types: Types, attributes: seq<Attribute>): seq<Link> {
    if attributes == [] then []
    else
      AttributeLinks(types, attributes[..|attributes| - 1]) +
      match attributes[|attributes| - 1]
      case PointerTo(name, pointee) => if pointee == types.objectType then [] else [Link(name, pointee)]
      case ContainerOf(name, item) => [Link(name + "/[i]", item)]
      case Plain(_) => []
  }

  function ChildLinks(types: Types, registered: seq<TypeId>, tid: TypeId): seq<Link> {
    if registered == [] then []
    else
      var child := registered[|registered| - 1];
      ChildLinks(types, registered[..|registered| - 1], tid) +
      if (child, tid) in types.childOf then [Link(DollarName(types, child), child)] else []
  }

  /** The other end of an aggregation. */
  function OtherEnd(pair: (TypeId, TypeId), tid: TypeId): TypeId {
    if pair.1 == tid then pair.0 else pair.1
  }

  function AggregateLinks(types: Types, aggregates: seq<(TypeId, TypeId)>, tid: TypeId): seq<Link> {
    if aggregates == [] then []
    else
      var pair := aggregates[|aggregates| - 1];
      AggregateLinks(types, aggregates[..|aggregates| - 1], tid) +
      if pair.0 == tid || pair.1 == tid then [Link(DollarName(types, OtherEnd(pair, tid)), OtherEnd(pair, tid))] else []
  }

  function Links(net: Net, tid: TypeId): seq<Link> {
    AttributeLinks(net.types, AttributesOf(net.types, tid))
    + ChildLinks(net.types, net.types.registered, tid)
    + AggregateLinks(net.types, net.aggregates, tid)
  }

  /** Every type that is mentioned is in the registry. */
  ghost predicate Closed(net: Net) {
    forall tid, i :: tid in net.types.attributes && 0 <= i < |Links(net, tid)| ==>
      Links(net, tid)[i].target in net.types.attributes
  }

  // ----- walks: a choice of link at each type --------------------------------

  ghost predicate IsWalk(net: Net, tid: TypeId, w: seq<nat>)
    decreases |w|
  {
    w == [] || (w[0] < |Links(net, tid)| && IsWalk(net, Links(net, tid)[w[0]].target, w[1..]))
  }

  /** The types that a walk visits. */
  ghost function Visited(net: Net, tid: TypeId, w: seq<nat>): seq<TypeId>
    requires IsWalk(net, tid, w)
    decreases |w|
  {
    [tid] + if w == [] then [] else Visited(net, Links(net, tid)[w[0]].target, w[1..])
  }

  ghost function Labels(net: Net, tid: TypeId, w: seq<nat>): seq<string>
    requires IsWalk(net, tid, w)
    decreases |w|
  {
    if w == [] then [] else [Links(net, tid)[w[0]].text] + Labels(net, Links(net, tid)[w[0]].target, w[1..])
  }

  ghost function End(net: Net, tid: TypeId, w: seq<nat>): TypeId
    requires IsWalk(net, tid, w)
  {
    Last(Visited(net, tid, w))
  }

  /** A walk that visits no type twice, and none that is on the stack. */
  ghost predicate SimpleWalk(net: Net, tid: TypeId, stack: seq<TypeId>, w: seq<nat>) {
    && IsWalk(net, tid, w)
    && Distinct(Visited(net, tid, w))
    && forall t :: t in Visited(net, tid, w) ==> t !in stack
  }

  function PathString(path: seq<string>): string {
    if path == [] then "" else PathString(path[..|path| - 1]) + "/" + path[|path| - 1]
  }

  // ----- the enumeration --------------------------------------------------------

  ghost function Prepend(i: nat, ws: seq<seq<nat>>): seq<seq<nat>> {
    seq(|ws|, k requires 0 <= k < |ws| => [i] + ws[k])
  }

  ghost function Free(net: Net, stack: seq<TypeId>): set<TypeId> {
    net.types.attributes.Keys - Items(stack)
  }

  /** The simple walks from `tid`, in the order of a depth-first search. */
  ghost function Walks(net: Net, tid: TypeId, stack: seq<TypeId>): seq<seq<nat>>
    requires Closed(net) && tid in net.types.attributes
    decreases Free(net, stack), 1, 0
  {
    if tid in stack then [] else [[]] + WalksVia(net, tid, |Links(net, tid)|, stack)
  }

  /** Those that begin with one of the first `n` links. */
  ghost function WalksVia(net: Net, tid: TypeId, n: nat, stack: seq<TypeId>): seq<seq<nat>>
    requires Closed(net) && tid in net.types.attributes && tid !in stack && n <= |Links(net, tid)|
    decreases Free(net, stack), 0, n
  {
    if n == 0 then []
    else
      assert Free(net, stack + [tid]) == Free(net, stack) - {tid};
      assert tid in Free(net, stack);
      WalksVia(net, tid, n - 1, stack) + Prepend(n - 1, Walks(net, Links(net, tid)[n - 1].target, stack + [tid]))
  }

  lemma {:induction false} WalksExact(net: Net, tid: TypeId, stack: seq<TypeId>)
    requires Closed(net) && tid in net.types.attributes
    ensures Distinct(Walks(net, tid, stack))
    ensures forall w :: w in Walks(net, tid, stack) <==> SimpleWalk(net, tid, stack, w)
    decreases Free(net, stack), 1, 0
  {
    if tid !in stack {
      var n := |Links(net, tid)|;
      WalksViaExact(net, tid, n, stack);
      forall w ensures w in Walks(net, tid, stack) <==> SimpleWalk(net, tid, stack, w) {
        if w == [] {
          assert [[]][0] == w && w in [w];
          assert Visited(net, tid, w) == [tid];
        }
      }
      var via := WalksVia(net, tid, n, stack);
      assert Walks(net, tid, stack) == [[]] + via;
      forall i, j | 0 <= i < j < |via| + 1 ensures ([[]] + via)[i] != ([[]] + via)[j] {
        assert via[j - 1] in via;
      }
    } else {
      forall w | IsWalk(net, tid, w) ensures !SimpleWalk(net, tid, stack, w) {
        assert Visited(net, tid, w)[0] == tid;
      }
    }
  }

  lemma {:induction false} WalksViaExact(net: Net, tid: TypeId, n: nat, stack: seq<TypeId>)
    requires Closed(net) && tid in net.types.attributes && tid !in stack && n <= |Links(net, tid)|
    ensures Distinct(WalksVia(net, tid, n, stack))
    ensures forall w :: w in WalksVia(net, tid, n, stack) <==> w != [] && w[0] < n && SimpleWalk(net, tid, stack, w)
    decreases Free(net, stack), 0, n
  {
    if n > 0 {
      assert Free(net, stack + [tid]) == Free(net, stack) - {tid};
      assert tid in Free(net, stack);
      var target := Links(net, tid)[n - 1].target;
      var front, back := WalksVia(net, tid, n - 1, stack), Walks(net, target, stack + [tid]);
      WalksViaExact(net, tid, n - 1, stack);
      WalksExact(net, target, stack + [tid]);
      var all := front + Prepend(n - 1, back);
      assert WalksVia(net, tid, n, stack) == all;
      forall w ensures w in all <==> w != [] && w[0] < n && SimpleWalk(net, tid, stack, w) {
        InPrepend(n - 1, back, w);
        if w != [] && w[0] == n - 1 {
          FirstStep(net, tid, stack, w);
        }
      }
      PrependDistinct(n - 1, back);
      forall i, j | 0 <= i < j < |all| ensures all[i] != all[j] {
        if i < |front| <= j {
          assert front[i] in front;
        }
      }
    }
  }

  lemma InPrepend(i: nat, ws: seq<seq<nat>>, w: seq<nat>)
    ensures w in Prepend(i, ws) <==> w != [] && w[0] == i && w[1..] in ws
  {
    if w in Prepend(i, ws) {
      var k :| 0 <= k < |ws| && w == [i] + ws[k];
      assert w[1..] == ws[k];
    }
    if w != [] && w[0] == i && w[1..] in ws {
      var k :| 0 <= k < |ws| && w[1..] == ws[k];
      assert w == [i] + ws[k] == Prepend(i, ws)[k];
    }
  }

  lemma PrependDistinct(i: nat, ws: seq<seq<nat>>)
    requires Distinct(ws)
    ensures Distinct(Prepend(i, ws))
  {
    forall j, k | 0 <= j < k < |ws| ensures [i] + ws[j] != [i] + ws[k] {
      assert ([i] + ws[j])[1..] == ws[j] && ([i] + ws[k])[1..] == ws[k];
    }
  }

  /** A walk is simple exactly when the rest of it is, with its first type on the stack. */
  lemma FirstStep(net: Net, tid: TypeId, stack: seq<TypeId>, w: seq<nat>)
    requires w != [] && w[0] < |Links(net, tid)| && tid !in stack
    ensures SimpleWalk(net, tid, stack, w) <==> SimpleWalk(net, Links(net, tid)[w[0]].target, stack + [tid], w[1..])
  {
    var target := Links(net, tid)[w[0]].target;
    if IsWalk(net, target, w[1..]) {
      var rest := Visited(net, target, w[1..]);
      var visited := Visited(net, tid, w);
      assert visited == [tid] + rest;
      if SimpleWalk(net, tid, stack, w) {
        forall t | t in rest ensures t !in stack + [tid] {
          var i :| 0 <= i < |rest| && rest[i] == t;
          assert visited[i + 1] == t && visited[0] == tid;
        }
        forall i, j | 0 <= i < j < |rest| ensures rest[i] != rest[j] {
          assert visited[i + 1] == rest[i] && visited[j + 1] == rest[j];
        }
      }
      if SimpleWalk(net, target, stack + [tid], w[1..]) {
        forall t | t in rest ensures t != tid && t !in stack {
          assert t !in stack + [tid] && (stack + [tid])[|stack|] == tid;
        }
        forall i, j | 0 <= i < j < |visited| ensures visited[i] != visited[j] {
          assert visited[j] == rest[j - 1] && (i > 0 ==> visited[i] == rest[i - 1]);
        }
      }
    }
  }

  // ----- what is recorded ---------------------------------------------------------

  /** The entry that a walk leaves in the output, below the path `base`. */
  ghost function Entry(net: Net, tid: TypeId, base: seq<string>, w: seq<nat>): (TypeId, string) {
    if IsWalk(net, tid, w) then (End(net, tid, w), PathString(base + Labels(net, tid, w))) else (tid, "")
  }

  ghost function Entries(net: Net, tid: TypeId, base: seq<string>, ws: seq<seq<nat>>): seq<(TypeId, string)> {
    seq(|ws|, k requires 0 <= k < |ws| => Entry(net, tid, base, ws[k]))
  }

  lemma EntryStep(net: Net, tid: TypeId, base: seq<string>, i: nat, w: seq<nat>)
    requires i < |Links(net, tid)| && IsWalk(net, Links(net, tid)[i].target, w)
    ensures Entry(net, tid, base, [i] + w) == Entry(net, Links(net, tid)[i].target, base + [Links(net, tid)[i].text], w)
  {
    var link := Links(net, tid)[i];
    var all := [i] + w;
    assert all[1..] == w;
    assert Visited(net, tid, all) == [tid] + Visited(net, link.target, w);
    assert base + Labels(net, tid, all) == base + [link.text] + Labels(net, link.target, w);
  }

  lemma EntriesPrepend(net: Net, tid: TypeId, base: seq<string>, i: nat, stack: seq<TypeId>)
    requires Closed(net) && tid in net.types.attributes && i < |Links(net, tid)|
    ensures var link := Links(net, tid)[i];
      var ws := Walks(net, link.target, stack);
      Entries(net, tid, base, Prepend(i, ws)) == Entries(net, link.target, base + [link.text], ws)
  {
    var link := Links(net, tid)[i];
    var ws := Walks(net, link.target, stack);
    WalksExact(net, link.target, stack);
    forall k | 0 <= k < |ws|
      ensures Entry(net, tid, base, [i] + ws[k]) == Entry(net, link.target, base + [link.text], ws[k])
    {
      assert ws[k] in ws;
      EntryStep(net, tid, base, i, ws[k]);
    }
  }

  lemma EntriesConcat(net: Net, tid: TypeId, base: seq<string>, a: seq<seq<nat>>, b: seq<seq<nat>>)
    ensures Entries(net, tid, base, a + b) == Entries(net, tid, base, a) + Entries(net, tid, base, b)
  {
  }

  lemma {:induction false} AttributeLinksPrefix(types: Types, attributes: seq<Attribute>, i: nat)
    requires i <= |attributes|
    ensures AttributeLinks(types, attributes[..i]) <= AttributeLinks(types, attributes)
    decreases |attributes|
  {
    if i < |attributes| {
      AttributeLinksPrefix(types, attributes[..|attributes| - 1], i);
      assert attributes[..|attributes| - 1][..i] == attributes[..i];
    } else {
      assert attributes[..i] == attributes;
    }
  }

  lemma {:induction false} ChildLinksPrefix(types: Types, registered: seq<TypeId>, tid: TypeId, i: nat)
    requires i <= |registered|
    ensures ChildLinks(types, registered[..i], tid) <= ChildLinks(types, registered, tid)
    decreases |registered|
  {
    if i < |registered| {
      ChildLinksPrefix(types, registered[..|registered| - 1], tid, i);
      assert registered[..|registered| - 1][..i] == registered[..i];
    } else {
      assert registered[..i] == registered;
    }
  }

  lemma {:induction false} AggregateLinksPrefix(types: Types, aggregates: seq<(TypeId, TypeId)>, tid: TypeId, i: nat)
    requires i <= |aggregates|
    ensures AggregateLinks(types, aggregates[..i], tid) <= AggregateLinks(types, aggregates, tid)
    decreases |aggregates|
  {
    if i < |aggregates| {
      AggregateLinksPrefix(types, aggregates[..|aggregates| - 1], tid, i);
      assert aggregates[..|aggregates| - 1][..i] == aggregates[..i];
    } else {
      assert aggregates[..i] == aggregates;
    }
  }

  /** The pairs of the output that are about `tid`, without the type. */
  function PathsOf(output: seq<(TypeId, string)>, tid: TypeId): seq<string> {
    if output == [] then []
    else
      var pair := output[|output| - 1];
      PathsOf(output[..|output| - 1], tid) + if pair.0 == tid then [pair.1] else []
  }

  class StaticInformation {
    const types: Types
    var output: seq<(TypeId, string)>
    var currentPath: seq<string>
    var alreadyProcessed: seq<TypeId>
    var aggregates: seq<(TypeId, TypeId)>

    constructor (types: Types)
      ensures this.types == types && output == [] && currentPath == [] && alreadyProcessed == [] && aggregates == []
    {
      this.types := types;
      output, currentPath, alreadyProcessed, aggregates := [], [], [], [];
    }

    ghost function TheNet(): Net
      reads this`aggregates
    {
      Net(types, aggregates)
    }

    method GetCurrentPath() returns (path: string)
      ensures path == PathString(currentPath)
    {
      path := "";
      for i := 0 to |currentPath|
        invariant path == PathString(currentPath[..i])
      {
        path := path + "/" + currentPath[i];
        assert currentPath[..i + 1][..i] == currentPath[..i];
      }
      assert currentPath[..|currentPath|] == currentPath;
    }

    method RecordOutput(tid: TypeId)
      modifies this`output
      ensures output == old(output) + [(tid, PathString(currentPath))]
    {
      var path := GetCurrentPath();
      output := output + [(tid, path)];
    }

    method HasAlreadyBeenProcessed(tid: TypeId) returns (r: bool)
      ensures r <==> tid in alreadyProcessed
    {
      for i := 0 to |alreadyProcessed|
        invariant tid !in alreadyProcessed[..i]
      {
        if alreadyProcessed[i] == tid {
          return true;
        }
      }
      return false;
    }

    method Get(tid: TypeId) returns (paths: seq<string>)
      ensures paths == PathsOf(output, tid)
    {
      paths := [];
      for i := 0 to |output|
        invariant paths == PathsOf(output[..i], tid)
      {
        assert output[..i + 1][..i] == output[..i];
        if output[i].0 == tid {
          paths := paths + [output[i].1];
        }
      }
      assert output[..|output|] == output;
    }

    /** The push, the recursive call and the pop that each of the three loops makes. `n` is the position of
        this link among all links of `tid`. */
    method Descend(tid: TypeId, text: string, target: TypeId, ghost n: nat)
      requires Closed(TheNet()) && tid in types.attributes && tid !in alreadyProcessed
      requires n < |Links(TheNet(), tid)| && Links(TheNet(), tid)[n] == Link(text, target)
      modifies this`output, this`currentPath, this`alreadyProcessed
      ensures currentPath == old(currentPath) && alreadyProcessed == old(alreadyProcessed)
      ensures output == old(output) + Entries(TheNet(), tid, currentPath,
                                              Prepend(n, Walks(TheNet(), target, alreadyProcessed + [tid])))
      decreases Free(TheNet(), alreadyProcessed), 0
    {
      ghost var net, stack := TheNet(), alreadyProcessed;
      assert Free(net, stack + [tid]) == Free(net, stack) - {tid};
      assert tid in Free(net, stack);
      EntriesPrepend(net, tid, currentPath, n, stack + [tid]);
      currentPath := currentPath + [text];
      alreadyProcessed := alreadyProcessed + [tid];
      DoGather(target);
      alreadyProcessed := alreadyProcessed[..|alreadyProcessed| - 1];
      currentPath := currentPath[..|currentPath| - 1];
    }

    /** What holds between two links of `tid`: the stacks are back, and the first `n` links are done. */
    ghost predicate Between(tid: TypeId, base: seq<string>, stack: seq<TypeId>, before: seq<(TypeId, string)>, n: nat)
      reads this
    {
      && Closed(TheNet()) && tid in types.attributes && tid !in stack && n <= |Links(TheNet(), tid)|
      && currentPath == base && alreadyProcessed == stack
      && output == before + Gathered(TheNet(), tid, base, stack, n)
    }

    method FollowLink(tid: TypeId, text: string, target: TypeId, ghost n: nat, ghost before: seq<(TypeId, string)>)
      requires Between(tid, currentPath, alreadyProcessed, before, n)
      requires n < |Links(TheNet(), tid)| && Links(TheNet(), tid)[n] == Link(text, target)
      modifies this`output, this`currentPath, this`alreadyProcessed
      ensures Between(tid, old(currentPath), old(alreadyProcessed), before, n + 1)
      decreases Free(TheNet(), alreadyProcessed), 1
    {
      hide Gathered, Closed, Entries, Walks, Links, Prepend, Free;
      ghost var net := TheNet();
      TargetKnown(net, tid, n);
      GatheredStep(net, tid, currentPath, alreadyProcessed, n);
      ghost var earlier := Gathered(net, tid, currentPath, alreadyProcessed, n);
      ghost var added := Entries(net, tid, currentPath, Prepend(n, Walks(net, target, alreadyProcessed + [tid])));
      Descend(tid, text, target, n);
      assert before + earlier + added == before + (earlier + added);
    }

    /** The loop over the attributes. */
    method FollowAttributes(tid: TypeId, ghost before: seq<(TypeId, string)>)
      requires Between(tid, currentPath, alreadyProcessed, before, 0)
      modifies this`output, this`currentPath, this`alreadyProcessed
      ensures Between(tid, old(currentPath), old(alreadyProcessed), before,
                      |AttributeLinks(types, types.attributes[tid])|)
      decreases Free(TheNet(), alreadyProcessed), 2
    {
      hide Gathered, Closed;
      var attributes := types.attributes[tid];
      ghost var n := 0;
      for i := 0 to |attributes|
        invariant n == |AttributeLinks(types, attributes[..i])|
        invariant Between(tid, old(currentPath), old(alreadyProcessed), before, n)
      {
        AttributeLinksPrefix(types, attributes, i + 1);
        assert attributes[..i + 1][..i] == attributes[..i];
        match attributes[i]
        case PointerTo(name, pointee) =>
          if pointee != types.objectType {
            FollowLink(tid, name, pointee, n, before);
            n := n + 1;
          }
        case ContainerOf(name, item) =>
          FollowLink(tid, name + "/[i]", item, n, before);
          n := n + 1;
        case Plain(_) =>
      }
      assert attributes[..|attributes|] == attributes;
    }

    /** The loop over the registered types. */
    method FollowChildren(tid: TypeId, ghost before: seq<(TypeId, string)>)
      requires tid in types.attributes
      requires Between(tid, currentPath, alreadyProcessed, before, |AttributeLinks(types, types.attributes[tid])|)
      modifies this`output, this`currentPath, this`alreadyProcessed
      ensures Between(tid, old(currentPath), old(alreadyProcessed), before,
                      |AttributeLinks(types, types.attributes[tid])| + |ChildLinks(types, types.registered, tid)|)
      decreases Free(TheNet(), alreadyProcessed), 2
    {
      hide Gathered, Closed, AttributeLinks, AggregateLinks;
      ghost var n := |AttributeLinks(types, types.attributes[tid])|;
      for j := 0 to |types.registered|
        invariant n == |AttributeLinks(types, types.attributes[tid])| + |ChildLinks(types, types.registered[..j], tid)|
        invariant Between(tid, old(currentPath), old(alreadyProcessed), before, n)
      {
        ChildLinksPrefix(types, types.registered, tid, j + 1);
        assert types.registered[..j + 1][..j] == types.registered[..j];
        var child := types.registered[j];
        if (child, tid) in types.childOf {
          FollowLink(tid, DollarName(types, child), child, n, before);
          n := n + 1;
        }
      }
      assert types.registered[..|types.registered|] == types.registered;
    }

    /** The loop over the aggregation relations. */
    method FollowAggregates(tid: TypeId, ghost before: seq<(TypeId, string)>)
      requires tid in types.attributes
      requires Between(tid, currentPath, alreadyProcessed, before,
                       |AttributeLinks(types, types.attributes[tid])| + |ChildLinks(types, types.registered, tid)|)
      modifies this`output, this`currentPath, this`alreadyProcessed
      ensures Between(tid, old(currentPath), old(alreadyProcessed), before, |Links(TheNet(), tid)|)
      decreases Free(TheNet(), alreadyProcessed), 2
    {
      hide Gathered, Closed;
      ghost var n0 := |AttributeLinks(types, types.attributes[tid])| + |ChildLinks(types, types.registered, tid)|;
      ghost var n := n0;
      for k := 0 to |aggregates|
        invariant n == n0 + |AggregateLinks(types, aggregates[..k], tid)|
        invariant Between(tid, old(currentPath), old(alreadyProcessed), before, n)
      {
        AggregateLinksPrefix(types, aggregates, tid, k + 1);
        assert aggregates[..k + 1][..k] == aggregates[..k];
        var pair := aggregates[k];
        if pair.0 == tid || pair.1 == tid {
          var other := pair.1;
          if pair.1 == tid {
            other := pair.0;
          }
          FollowLink(tid, DollarName(types, other), other, n, before);
          n := n + 1;
        }
      }
      assert aggregates[..|aggregates|] == aggregates;
    }

    /** One entry for every simple walk from `tid` that avoids the stack; both stacks as they were. */
    method DoGather(tid: TypeId)
      requires Closed(TheNet()) && tid in types.attributes
      modifies this`output, this`currentPath, this`alreadyProcessed
      ensures currentPath == old(currentPath) && alreadyProcessed == old(alreadyProcessed)
      ensures output == old(output) + Entries(TheNet(), tid, currentPath, Walks(TheNet(), tid, alreadyProcessed))
      decreases Free(TheNet(), alreadyProcessed), 3
    {
      hide Closed, Walks, Gathered, Entries, Links, AttributeLinks, ChildLinks;
      var done := HasAlreadyBeenProcessed(tid);
      if done {
        NothingGathered(TheNet(), tid, currentPath, alreadyProcessed);
        return;
      }
      GatheredStart(TheNet(), tid, currentPath, alreadyProcessed);
      AllGathered(TheNet(), tid, currentPath, alreadyProcessed);
      RecordOutput(tid);
      FollowAttributes(tid, old(output));
      FollowChildren(tid, old(output));
      FollowAggregates(tid, old(output));
    }

    /** From empty stacks, the output grows by exactly one entry for every simple walk from `tid`. */
    method Gather(tid: TypeId)
      requires Closed(TheNet()) && tid in types.attributes
      requires currentPath == [] && alreadyProcessed == []
      modifies this`output, this`currentPath, this`alreadyProcessed
      ensures currentPath == [] && alreadyProcessed == []
      ensures output == old(output) + Entries(TheNet(), tid, [], Walks(TheNet(), tid, []))
    {
      DoGather(tid);
      // Uniquefy works on a copy of the output.
    }
  }

  /** The entries for `tid` itself and its first `n` links. */
  ghost function Gathered(net: Net, tid: TypeId, base: seq<string>, stack: seq<TypeId>, n: nat): seq<(TypeId, string)>
    requires Closed(net) && tid in net.types.attributes && tid !in stack && n <= |Links(net, tid)|
  {
    Entries(net, tid, base, [[]] + WalksVia(net, tid, n, stack))
  }

  lemma GatheredStart(net: Net, tid: TypeId, base: seq<string>, stack: seq<TypeId>)
    requires Closed(net) && tid in net.types.attributes && tid !in stack
    ensures Gathered(net, tid, base, stack, 0) == [(tid, PathString(base))]
  {
    assert base + Labels(net, tid, []) == base;
    assert Visited(net, tid, []) == [tid];
  }

  lemma TargetKnown(net: Net, tid: TypeId, n: nat)
    requires Closed(net) && tid in net.types.attributes && n < |Links(net, tid)|
    ensures Links(net, tid)[n].target in net.types.attributes
  {
  }

  lemma AllGathered(net: Net, tid: TypeId, base: seq<string>, stack: seq<TypeId>)
    requires Closed(net) && tid in net.types.attributes && tid !in stack
    ensures Gathered(net, tid, base, stack, |Links(net, tid)|) == Entries(net, tid, base, Walks(net, tid, stack))
  {
  }

  lemma NothingGathered(net: Net, tid: TypeId, base: seq<string>, stack: seq<TypeId>)
    requires Closed(net) && tid in net.types.attributes && tid in stack
    ensures Entries(net, tid, base, Walks(net, tid, stack)) == []
  {
  }

  lemma GatheredStep(net: Net, tid: TypeId, base: seq<string>, stack: seq<TypeId>, n: nat)
    requires Closed(net) && tid in net.types.attributes && tid !in stack && n <= |Links(net, tid)|
    ensures n < |Links(net, tid)| ==>
      Gathered(net, tid, base, stack, n + 1)
      == Gathered(net, tid, base, stack, n)
         + Entries(net, tid, base, Prepend(n, Walks(net, Links(net, tid)[n].target, stack + [tid])))
  {
    if n < |Links(net, tid)| {
      var ws := Prepend(n, Walks(net, Links(net, tid)[n].target, stack + [tid]));
      EntriesConcat(net, tid, base, [[]] + WalksVia(net, tid, n, stack), ws);
      assert [[]] + WalksVia(net, tid, n + 1, stack) == [[]] + WalksVia(net, tid, n, stack) + ws;
    }
  }

  /** A walk that is gathered for `tid`, whatever its path is. */
  ghost predicate EndsIn(net: Net, root: TypeId, tid: TypeId, w: seq<nat>) {
    IsWalk(net, root, w) && End(net, root, w) == tid
  }

  /** A walk that is gathered for `tid` as `path`. */
  ghost predicate Writes(net: Net, root: TypeId, tid: TypeId, path: string, w: seq<nat>) {
    EndsIn(net, root, tid, w) && PathString(Labels(net, root, w)) == path
  }

  ghost function Ending(net: Net, root: TypeId, tid: TypeId, ws: seq<seq<nat>>): set<seq<nat>> {
    set w | w in ws && EndsIn(net, root, tid, w)
  }

  ghost function Writing(net: Net, root: TypeId, tid: TypeId, path: string, ws: seq<seq<nat>>): set<seq<nat>> {
    set w | w in ws && Writes(net, root, tid, path, w)
  }

  /** How often `Get` lists a path: once for each simple walk from `root` to `tid` with that path, and so as many
      paths in all as there are simple walks from `root` to `tid`. */
  lemma PathsOfCount(net: Net, root: TypeId, tid: TypeId, path: string)
    requires Closed(net) && root in net.types.attributes
    ensures var ws := Walks(net, root, []);
      var paths := PathsOf(Entries(net, root, [], ws), tid);
      && multiset(paths)[path] == |Writing(net, root, tid, path, ws)|
      && |paths| == |Ending(net, root, tid, ws)|
  {
    WalksExact(net, root, []);
    PathsCounted(net, root, tid, path, Walks(net, root, []));
  }

  lemma {:induction false} PathsCounted(net: Net, root: TypeId, tid: TypeId, path: string, ws: seq<seq<nat>>)
    requires Distinct(ws) && forall w :: w in ws ==> IsWalk(net, root, w)
    ensures var paths := PathsOf(Entries(net, root, [], ws), tid);
      multiset(paths)[path] == |Writing(net, root, tid, path, ws)| && |paths| == |Ending(net, root, tid, ws)|
    decreases |ws|
  {
    hide IsWalk, PathsOf, Entries, Entry, Ending, Writing, EndsIn, Writes;
    if ws == [] {
      NothingCounted(net, root, tid, path);
    } else {
      var front := ws[..|ws| - 1];
      PathsCounted(net, root, tid, path, front);
      LastEntry(net, root, tid, ws);
      EntryOfWalk(net, root, tid, path, Last(ws));
      EndingStep(net, root, tid, ws);
      WritingStep(net, root, tid, path, ws);
    }
  }

  lemma NothingCounted(net: Net, root: TypeId, tid: TypeId, path: string)
    ensures PathsOf(Entries(net, root, [], []), tid) == []
    ensures Writing(net, root, tid, path, []) == {} == Ending(net, root, tid, [])
  {
  }

  lemma LastEntry(net: Net, root: TypeId, tid: TypeId, ws: seq<seq<nat>>)
    requires ws != []
    ensures var last := Entry(net, root, [], Last(ws));
      PathsOf(Entries(net, root, [], ws), tid)
      == PathsOf(Entries(net, root, [], ws[..|ws| - 1]), tid) + if last.0 == tid then [last.1] else []
  {
    hide Entry;
    var output := Entries(net, root, [], ws);
    assert output[..|output| - 1] == Entries(net, root, [], ws[..|ws| - 1]);
  }

  lemma EndingStep(net: Net, root: TypeId, tid: TypeId, ws: seq<seq<nat>>)
    requires ws != [] && Distinct(ws)
    ensures |Ending(net, root, tid, ws)|
         == |Ending(net, root, tid, ws[..|ws| - 1])| + if EndsIn(net, root, tid, Last(ws)) then 1 else 0
  {
    hide EndsIn;
    var front := ws[..|ws| - 1];
    assert ws == front + [Last(ws)] && Last(ws) !in front;
    assert Ending(net, root, tid, ws)
        == Ending(net, root, tid, front) + if EndsIn(net, root, tid, Last(ws)) then {Last(ws)} else {};
  }

  lemma WritingStep(net: Net, root: TypeId, tid: TypeId, path: string, ws: seq<seq<nat>>)
    requires ws != [] && Distinct(ws)
    ensures |Writing(net, root, tid, path, ws)|
         == |Writing(net, root, tid, path, ws[..|ws| - 1])| + if Writes(net, root, tid, path, Last(ws)) then 1 else 0
  {
    hide Writes;
    var front := ws[..|ws| - 1];
    assert ws == front + [Last(ws)] && Last(ws) !in front;
    assert Writing(net, root, tid, path, ws)
        == Writing(net, root, tid, path, front) + if Writes(net, root, tid, path, Last(ws)) then {Last(ws)} else {};
  }

  lemma EntryOfWalk(net: Net, root: TypeId, tid: TypeId, path: string, w: seq<nat>)
    requires IsWalk(net, root, w)
    ensures Entry(net, root, [], w).0 == tid <==> EndsIn(net, root, tid, w)
    ensures Entry(net, root, [], w) == (tid, path) <==> Writes(net, root, tid, path, w)
  {
    assert [] + Labels(net, root, w) == Labels(net, root, w);
  }

  /** What `Get` returns after gathering from `root` into an empty output: for every simple walk from `root`
      that ends in `tid` its path, and nothing else. */
  lemma PathsOfGathered(net: Net, root: TypeId, tid: TypeId, path: string)
    requires Closed(net) && root in net.types.attributes
    ensures path in PathsOf(Entries(net, root, [], Walks(net, root, [])), tid) <==>
      exists w :: SimpleWalk(net, root, [], w) && End(net, root, w) == tid && PathString(Labels(net, root, w)) == path
  {
    var ws := Walks(net, root, []);
    var output := Entries(net, root, [], ws);
    WalksExact(net, root, []);
    PathsOfMeaning(output, tid, path);
    forall w | IsWalk(net, root, w) ensures [] + Labels(net, root, w) == Labels(net, root, w) {
    }
    if (tid, path) in output {
      var k :| 0 <= k < |ws| && output[k] == (tid, path);
      assert ws[k] in ws;
      assert SimpleWalk(net, root, [], ws[k]);
    }
    if w :| SimpleWalk(net, root, [], w) && End(net, root, w) == tid && PathString(Labels(net, root, w)) == path {
      var k :| 0 <= k < |ws| && ws[k] == w;
      assert output[k] == Entry(net, root, [], w) == (tid, path);
    }
  }

  /** The paths are in the order in which they were recorded. */
  lemma {:induction false} PathsOfConcat(a: seq<(TypeId, string)>, b: seq<(TypeId, string)>, tid: TypeId)
    ensures PathsOf(a + b, tid) == PathsOf(a, tid) + PathsOf(b, tid)
    decreases |b|
  {
    if b == [] {
      assert a + b == a;
    } else {
      var front := b[..|b| - 1];
      PathsOfConcat(a, front, tid);
      assert (a + b)[..|a + b| - 1] == a + front;
    }
  }

  lemma {:induction false} PathsOfMeaning(output: seq<(TypeId, string)>, tid: TypeId, path: string)
    ensures path in PathsOf(output, tid) <==> (tid, path) in output
  {
    if output != [] {
      PathsOfMeaning(output[..|output| - 1], tid, path);
      assert output == output[..|output| - 1] + [output[|output| - 1]];
    }
  }

  /** One entry per walk: as many as there are simple walks. */
  lemma OneEntryPerWalk(net: Net, root: TypeId)
    requires Closed(net) && root in net.types.attributes
    ensures |Entries(net, root, [], Walks(net, root, []))| == |set w | w in Walks(net, root, [])|
    ensures forall w :: w in Walks(net, root, []) <==> IsWalk(net, root, w) && Distinct(Visited(net, root, w))
  {
    WalksExact(net, root, []);
    DistinctCard(Walks(net, root, []));
    assert Items(Walks(net, root, [])) == set w | w in Walks(net, root, []);
  }
}
