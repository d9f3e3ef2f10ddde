/** What the registry says about the links of a type, and what that makes of the recorded paths. Nothing here is
    defined through `Links`: the lemmas say that the tables are followed completely, in order, and not beyond. */
module TypePaths {
  import opened Sequences
  import opened TypeGather

  // ----- where a link comes from ----------------------------------------------------

  /** The number of an attribute of the type, of a registered type, or of an aggregation. */
  datatype Origin = ByAttribute(i: nat) | ByChild(i: nat) | ByAggregate(i: nat)

  function NameOf(types: Types, tid: TypeId): string {
    if tid in types.names then types.names[tid] else ""
  }

  ghost predicate Gives(net: Net, tid: TypeId, origin: Origin, link: Link) {
    match origin
    case ByAttribute(i) =>
      && tid in net.types.attributes && i < |net.types.attributes[tid]|
      && (match net.types.attributes[tid][i]
          case PointerTo(name, pointee) =>
            link.text == name && link.target == pointee && pointee != net.types.objectType
          case ContainerOf(name, item) => link.text == name + "/[i]" && link.target == item
          case Plain(_) => false)
    case ByChild(i) =>
      && i < |net.types.registered| && net.types.registered[i] == link.target
      && (link.target, tid) in net.types.childOf && link.text == "$" + NameOf(net.types, link.target)
    case ByAggregate(i) =>
      && i < |net.aggregates|
      && (net.aggregates[i] == (tid, link.target) || net.aggregates[i] == (link.target, tid))
      && link.text == "$" + NameOf(net.types, link.target)
  }

  function Kind(origin: Origin): nat {
    match origin
    case ByAttribute(_) => 0
    case ByChild(_) => 1
    case ByAggregate(_) => 2
  }

  /** Attributes come first, then children, then aggregations, each in the order of its table. */
  predicate Before(a: Origin, b: Origin) {
    Kind(a) < Kind(b) || (Kind(a) == Kind(b) && a.i < b.i)
  }

  /** The links come from these origins, one from each, in order. */
  ghost predicate ComeFrom(net: Net, tid: TypeId, links: seq<Link>, origins: seq<Origin>) {
    && |origins| == |links|
    && (forall n :: 0 <= n < |links| ==> Gives(net, tid, origins[n], links[n]))
    && (forall m, n :: 0 <= m < n < |origins| ==> Before(origins[m], origins[n]))
  }

  ghost predicate All(net: Net, tid: TypeId, origins: seq<Origin>, kind: nat, n: nat) {
    && (forall o :: o in origins ==> Kind(o) == kind && o.i < n)
    && (forall o, link :: Kind(o) == kind && o.i < n && Gives(net, tid, o, link) ==> o in origins)
  }

  lemma OneMore(net: Net, tid: TypeId, links: seq<Link>, origins: seq<Origin>, o: Origin, link: Link)
    requires ComeFrom(net, tid, links, origins) && All(net, tid, origins, Kind(o), o.i)
    requires Gives(net, tid, o, link)
    ensures ComeFrom(net, tid, links + [link], origins + [o]) && All(net, tid, origins + [o], Kind(o), o.i + 1)
  {
    hide Gives;
    assert forall m :: 0 <= m < |origins| ==> origins[m] in origins;
    var more := origins + [o];
    assert more[|origins|] == o;
    forall p, l | Kind(p) == Kind(o) && p.i < o.i + 1 && Gives(net, tid, p, l) ensures p in more {
      SameOrigin(p, o);
    }
  }

  lemma SameOrigin(a: Origin, b: Origin)
    ensures Kind(a) == Kind(b) && a.i == b.i ==> a == b
  {
  }

  lemma NoneMore(net: Net, tid: TypeId, origins: seq<Origin>, o: Origin)
    requires All(net, tid, origins, Kind(o), o.i) && forall link :: !Gives(net, tid, o, link)
    ensures All(net, tid, origins, Kind(o), o.i + 1)
  {
    hide Gives;
    forall p, l | Kind(p) == Kind(o) && p.i < o.i + 1 && Gives(net, tid, p, l) ensures p in origins {
      SameOrigin(p, o);
    }
  }

  lemma {:induction false} AttributeOrigins(net: Net, tid: TypeId, n: nat) returns (origins: seq<Origin>)
    requires n <= |AttributesOf(net.types, tid)|
    ensures ComeFrom(net, tid, AttributeLinks(net.types, AttributesOf(net.types, tid)[..n]), origins)
    ensures All(net, tid, origins, 0, n)
    decreases n
  {
    hide ComeFrom, All;
    if n == 0 {
      origins := [];
      NoOrigins(net, tid, 0);
    } else {
      var attributes := AttributesOf(net.types, tid);
      assert attributes[..n][..n - 1] == attributes[..n - 1] && attributes[..n][n - 1] == attributes[n - 1];
      origins := AttributeOrigins(net, tid, n - 1);
      var o := ByAttribute(n - 1);
      var links := AttributeLinks(net.types, attributes[..n - 1]);
      assert links + [] == links;
      match attributes[n - 1]
      case PointerTo(name, pointee) =>
        if pointee == net.types.objectType {
          NoneMore(net, tid, origins, o);
        } else {
          OneMore(net, tid, links, origins, o, Link(name, pointee));
          origins := origins + [o];
        }
      case ContainerOf(name, item) =>
        OneMore(net, tid, links, origins, o, Link(name + "/[i]", item));
        origins := origins + [o];
      case Plain(_) =>
        NoneMore(net, tid, origins, o);
    }
  }

  lemma NoOrigins(net: Net, tid: TypeId, kind: nat)
    ensures ComeFrom(net, tid, [], []) && All(net, tid, [], kind, 0)
  {
  }

  lemma {:induction false} ChildOrigins(net: Net, tid: TypeId, n: nat) returns (origins: seq<Origin>)
    requires n <= |net.types.registered|
    ensures ComeFrom(net, tid, ChildLinks(net.types, net.types.registered[..n], tid), origins)
    ensures All(net, tid, origins, 1, n)
    decreases n
  {
    hide ComeFrom, All;
    if n == 0 {
      origins := [];
      NoOrigins(net, tid, 1);
    } else {
      var registered := net.types.registered;
      assert registered[..n][..n - 1] == registered[..n - 1] && registered[..n][n - 1] == registered[n - 1];
      origins := ChildOrigins(net, tid, n - 1);
      var o, child := ByChild(n - 1), registered[n - 1];
      var links := ChildLinks(net.types, registered[..n - 1], tid);
      assert links + [] == links;
      if (child, tid) in net.types.childOf {
        OneMore(net, tid, links, origins, o, Link(DollarName(net.types, child), child));
        origins := origins + [o];
      } else {
        NoneMore(net, tid, origins, o);
      }
    }
  }

  lemma {:induction false} AggregateOrigins(net: Net, tid: TypeId, n: nat) returns (origins: seq<Origin>)
    requires n <= |net.aggregates|
    ensures ComeFrom(net, tid, AggregateLinks(net.types, net.aggregates[..n], tid), origins)
    ensures All(net, tid, origins, 2, n)
    decreases n
  {
    hide ComeFrom, All;
    if n == 0 {
      origins := [];
      NoOrigins(net, tid, 2);
    } else {
      var aggregates := net.aggregates;
      assert aggregates[..n][..n - 1] == aggregates[..n - 1] && aggregates[..n][n - 1] == aggregates[n - 1];
      origins := AggregateOrigins(net, tid, n - 1);
      var o, pair := ByAggregate(n - 1), aggregates[n - 1];
      var links := AggregateLinks(net.types, aggregates[..n - 1], tid);
      assert links + [] == links;
      if pair.0 == tid || pair.1 == tid {
        var other := OtherEnd(pair, tid);
        OneMore(net, tid, links, origins, o, Link(DollarName(net.types, other), other));
        origins := origins + [o];
      } else {
        NoneMore(net, tid, origins, o);
      }
    }
  }

  /** The links of a type are exactly those that its attributes, the registered types and the aggregations give,
      one from each, in this order. */
  lemma LinksAreGiven(net: Net, tid: TypeId) returns (origins: seq<Origin>)
    ensures ComeFrom(net, tid, Links(net, tid), origins)
    ensures forall o, link :: Gives(net, tid, o, link) ==> o in origins
  {
    hide Gives;
    var attributes := AttributesOf(net.types, tid);
    var a := AttributeOrigins(net, tid, |attributes|);
    var c := ChildOrigins(net, tid, |net.types.registered|);
    var g := AggregateOrigins(net, tid, |net.aggregates|);
    assert attributes[..|attributes|] == attributes;
    assert net.types.registered[..|net.types.registered|] == net.types.registered;
    assert net.aggregates[..|net.aggregates|] == net.aggregates;
    Joined(net, tid, AttributeLinks(net.types, attributes), a, ChildLinks(net.types, net.types.registered, tid), c, 1);
    Joined(net, tid, AttributeLinks(net.types, attributes) + ChildLinks(net.types, net.types.registered, tid), a + c,
           AggregateLinks(net.types, net.aggregates, tid), g, 2);
    origins := a + c + g;
    forall o, link | Gives(net, tid, o, link) ensures o in origins {
      GivenInTable(net, tid, o, link);
    }
  }

  lemma Joined(net: Net, tid: TypeId, a: seq<Link>, as': seq<Origin>, b: seq<Link>, bs: seq<Origin>, kind: nat)
    requires ComeFrom(net, tid, a, as') && ComeFrom(net, tid, b, bs)
    requires forall o :: o in as' ==> Kind(o) < kind
    requires forall o :: o in bs ==> Kind(o) == kind
    ensures ComeFrom(net, tid, a + b, as' + bs)
  {
    hide Gives;
    assert forall n :: 0 <= n < |as'| ==> as'[n] in as';
    assert forall n :: 0 <= n < |bs| ==> bs[n] in bs;
  }

  lemma GivenInTable(net: Net, tid: TypeId, o: Origin, link: Link)
    requires Gives(net, tid, o, link)
    ensures o.i < match Kind(o)
                  case 0 => |AttributesOf(net.types, tid)|
                  case 1 => |net.types.registered|
                  case _ => |net.aggregates|
  {
  }

  /** What the registry and the aggregations say about a link: an attribute that points to the target, other than
      to a plain object; one that holds a container of it; a registered child; an aggregation, from either end. */
  ghost predicate InTables(net: Net, tid: TypeId, text: string, target: TypeId) {
      || (tid in net.types.attributes
          && PointerTo(text, target) in net.types.attributes[tid] && target != net.types.objectType)
      || (tid in net.types.attributes
          && exists name :: ContainerOf(name, target) in net.types.attributes[tid] && text == name + "/[i]")
      || (target in net.types.registered && (target, tid) in net.types.childOf
          && text == "$" + NameOf(net.types, target))
      || (((tid, target) in net.aggregates || (target, tid) in net.aggregates)
          && text == "$" + NameOf(net.types, target))
  }

  /** When there is a link from one type to another. */
  lemma LinkIff(net: Net, tid: TypeId, text: string, target: TypeId)
    ensures Link(text, target) in Links(net, tid) <==> InTables(net, tid, text, target)
  {
    var link := Link(text, target);
    LinkIsGiven(net, tid, link);
    hide Links;
    if InTables(net, tid, text, target) {
      TableGives(net, tid, text, target);
    }
  }

  lemma GivesOne(net: Net, tid: TypeId, o: Origin, a: Link, b: Link)
    requires Gives(net, tid, o, a) && Gives(net, tid, o, b)
    ensures a == b
  {
  }

  lemma TableGives(net: Net, tid: TypeId, text: string, target: TypeId)
    requires InTables(net, tid, text, target)
    ensures exists o :: Gives(net, tid, o, Link(text, target))
  {
    var link := Link(text, target);
    if tid in net.types.attributes && PointerTo(text, target) in net.types.attributes[tid]
      && target != net.types.objectType {
      var i :| 0 <= i < |net.types.attributes[tid]| && net.types.attributes[tid][i] == PointerTo(text, target);
      assert Gives(net, tid, ByAttribute(i), link);
    } else if tid in net.types.attributes
      && exists name :: ContainerOf(name, target) in net.types.attributes[tid] && text == name + "/[i]" {
      var name :| ContainerOf(name, target) in net.types.attributes[tid] && text == name + "/[i]";
      var i :| 0 <= i < |net.types.attributes[tid]| && net.types.attributes[tid][i] == ContainerOf(name, target);
      assert Gives(net, tid, ByAttribute(i), link);
    } else if target in net.types.registered && (target, tid) in net.types.childOf {
      var i :| 0 <= i < |net.types.registered| && net.types.registered[i] == target;
      assert Gives(net, tid, ByChild(i), link);
    } else {
      var i :| 0 <= i < |net.aggregates| && (net.aggregates[i] == (tid, target) || net.aggregates[i] == (target, tid));
      assert Gives(net, tid, ByAggregate(i), link);
    }
  }

  ghost function Givers(net: Net, tid: TypeId, origins: seq<Origin>, link: Link): set<Origin> {
    set o | o in origins && Gives(net, tid, o, link)
  }

  /** Every link occurs as often as there are places in the tables that give it. */
  lemma LinkCount(net: Net, tid: TypeId, link: Link) returns (origins: seq<Origin>)
    ensures ComeFrom(net, tid, Links(net, tid), origins)
    ensures forall o :: Gives(net, tid, o, link) ==> o in origins
    ensures multiset(Links(net, tid))[link] == |Givers(net, tid, origins, link)|
  {
    origins := LinksAreGiven(net, tid);
    CountGivers(net, tid, Links(net, tid), origins, link);
  }

  lemma {:induction false} CountGivers(net: Net, tid: TypeId, links: seq<Link>, origins: seq<Origin>, link: Link)
    requires ComeFrom(net, tid, links, origins)
    ensures multiset(links)[link] == |Givers(net, tid, origins, link)|
    decreases |links|
  {
    hide Givers;
    if links == [] {
      NoGivers(net, tid, link);
    } else {
      var n := |links| - 1;
      FrontComesFrom(net, tid, links, origins);
      CountGivers(net, tid, links[..n], origins[..n], link);
      if Gives(net, tid, origins[n], link) {
        GivesOne(net, tid, origins[n], link, links[n]);
      }
      GiversStep(net, tid, origins, link);
      hide ComeFrom, Gives;
      assert links == links[..n] + [links[n]];
    }
  }

  lemma NoGivers(net: Net, tid: TypeId, link: Link)
    ensures Givers(net, tid, [], link) == {}
  {
  }

  lemma FrontComesFrom(net: Net, tid: TypeId, links: seq<Link>, origins: seq<Origin>)
    requires ComeFrom(net, tid, links, origins) && links != []
    ensures var n := |links| - 1;
      && ComeFrom(net, tid, links[..n], origins[..n])
      && Gives(net, tid, origins[n], links[n]) && origins[n] !in origins[..n]
  {
    hide Gives;
  }

  lemma GiversStep(net: Net, tid: TypeId, origins: seq<Origin>, link: Link)
    requires origins != [] && origins[|origins| - 1] !in origins[..|origins| - 1]
    ensures var n := |origins| - 1;
      |Givers(net, tid, origins, link)|
      == |Givers(net, tid, origins[..n], link)| + if Gives(net, tid, origins[n], link) then 1 else 0
  {
    hide Gives;
    var n := |origins| - 1;
    assert origins == origins[..n] + [origins[n]];
    assert Givers(net, tid, origins, link)
        == Givers(net, tid, origins[..n], link) + if Gives(net, tid, origins[n], link) then {origins[n]} else {};
  }

  // ----- paths ------------------------------------------------------------------------

  /** A way through the configuration: each step is a link that the tables give. */
  ghost predicate Route(net: Net, from: TypeId, steps: seq<Link>)
    decreases |steps|
  {
    steps == [] || ((exists o :: Gives(net, from, o, steps[0])) && Route(net, steps[0].target, steps[1..]))
  }

  /** The types it comes to. */
  function Stops(from: TypeId, steps: seq<Link>): seq<TypeId> {
    [from] + if steps == [] then [] else Stops(steps[0].target, steps[1..])
  }

  /** Each component of a path has one slash in front of it. */
  function PathText(steps: seq<Link>): string {
    if steps == [] then "" else "/" + steps[0].text + PathText(steps[1..])
  }

  ghost function StepsOf(net: Net, from: TypeId, w: seq<nat>): seq<Link>
    requires IsWalk(net, from, w)
    decreases |w|
  {
    if w == [] then []
    else [Links(net, from)[w[0]]] + StepsOf(net, Links(net, from)[w[0]].target, w[1..])
  }

  lemma LinkIsGiven(net: Net, tid: TypeId, link: Link)
    ensures link in Links(net, tid) <==> exists o :: Gives(net, tid, o, link)
  {
    hide Gives, Links;
    var origins := LinksAreGiven(net, tid);
    if link in Links(net, tid) {
      var n :| 0 <= n < |origins| && Links(net, tid)[n] == link;
      assert Gives(net, tid, origins[n], link);
    }
    if o :| Gives(net, tid, o, link) {
      var n :| 0 <= n < |origins| && origins[n] == o;
      GivesOne(net, tid, o, link, Links(net, tid)[n]);
    }
  }

  lemma {:induction false} WalkIsRoute(net: Net, from: TypeId, w: seq<nat>)
    requires IsWalk(net, from, w)
    ensures var steps := StepsOf(net, from, w);
      && Route(net, from, steps) && Stops(from, steps) == Visited(net, from, w)
      && PathText(steps) == PathString(Labels(net, from, w))
    decreases |w|
  {
    hide Gives, Links, PathString;
    if w == [] {
      PathStringHead([]);
    } else {
      var link := Links(net, from)[w[0]];
      WalkIsRoute(net, link.target, w[1..]);
      LinkIsGiven(net, from, link);
      var steps := StepsOf(net, from, w);
      assert steps[0] == link && steps[1..] == StepsOf(net, link.target, w[1..]);
      var labels := Labels(net, from, w);
      assert labels[0] == link.text && labels[1..] == Labels(net, link.target, w[1..]);
      PathStringHead(labels);
    }
  }

  lemma {:induction false} PathStringHead(path: seq<string>)
    ensures PathString(path) == if path == [] then "" else "/" + path[0] + PathString(path[1..])
    decreases |path|
  {
    if |path| > 1 {
      var front, last := path[..|path| - 1], path[|path| - 1];
      PathStringHead(front);
      assert front[1..] == path[1..][..|path| - 2] && path[1..][|path| - 2] == last;
      assert PathString(path[1..]) == PathString(front[1..]) + "/" + last;
    } else if |path| == 1 {
      assert path[..0] == [] && path[1..] == [];
    }
  }

  lemma {:induction false} RouteIsWalk(net: Net, from: TypeId, steps: seq<Link>) returns (w: seq<nat>)
    requires Route(net, from, steps)
    ensures IsWalk(net, from, w) && StepsOf(net, from, w) == steps
    decreases |steps|
  {
    hide Gives, Links;
    if steps == [] {
      w := [];
    } else {
      LinkIsGiven(net, from, steps[0]);
      var n: nat :| n < |Links(net, from)| && Links(net, from)[n] == steps[0];
      var rest := RouteIsWalk(net, steps[0].target, steps[1..]);
      w := [n] + rest;
      assert w[1..] == rest;
    }
  }

  /** A route from one type to another that comes to no type twice, with its text. */
  ghost predicate SimpleRoute(net: Net, from: TypeId, to: TypeId, path: string, steps: seq<Link>) {
    && Route(net, from, steps) && Distinct(Stops(from, steps))
    && Last(Stops(from, steps)) == to && PathText(steps) == path
  }

  /** What `Get` returns after gathering from `root`: the text of every route from `root` to `tid` that comes to no
      type twice, and nothing else. */
  lemma PathsAreRoutes(net: Net, root: TypeId, tid: TypeId, path: string)
    requires Closed(net) && root in net.types.attributes
    ensures path in PathsOf(Entries(net, root, [], Walks(net, root, [])), tid) <==>
      exists steps :: SimpleRoute(net, root, tid, path, steps)
  {
    hide Links, Closed, Walks, Entries, Route, PathText, PathString, Labels, Visited, IsWalk, StepsOf;
    PathsOfGathered(net, root, tid, path);
    if w :| SimpleWalk(net, root, [], w) && End(net, root, w) == tid && PathString(Labels(net, root, w)) == path {
      WalkIsRoute(net, root, w);
      assert SimpleRoute(net, root, tid, path, StepsOf(net, root, w));
    }
    if steps :| SimpleRoute(net, root, tid, path, steps) {
      var w := RouteIsWalk(net, root, steps);
      WalkIsRoute(net, root, w);
      assert SimpleWalk(net, root, [], w);
    }
  }
}
