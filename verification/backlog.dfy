/**
 * `backlog.py`: backlog items grouped by direction, and the graph `print_graphiz` draws of
 * them: one cluster per direction holding a node per item and an edge from each item to the
 * next, then one edge per declared dependency. The graph is a value; its DOT text is not
 * modelled.
 */
module Backlog {
  import opened Wrappers
  import opened Text

  /** `Item` (its `label` is `caption` here): the dependencies are the ids parsed from their string. */
  datatype Item = Item(id: string, caption: string, dependencies: seq<string>, size: Option<int>, done: bool)

  datatype Direction = Direction(name: string, items: seq<Item>)

  /* ---------------------------------------------------------------- */
  /* Dependencies                                                      */

  /** `filter(None, ...)`: the pieces that are not empty, in order. */
  function DropEmpty(pieces: seq<string>): (r: seq<string>)
    ensures forall i :: 0 <= i < |r| ==> r[i] != ""
    ensures forall i :: 0 <= i < |r| ==> r[i] in pieces
  {
    if pieces == [] then []
    else if pieces[0] == "" then DropEmpty(pieces[1..])
    else [pieces[0]] + DropEmpty(pieces[1..])
  }

  /** `dependencies.split(' ')` with the empty pieces dropped. */
  function SplitDependencies(s: string): (r: seq<string>)
    ensures forall i :: 0 <= i < |r| ==> r[i] != "" && ' ' !in r[i]
  {
    DropEmpty(Split(s, ' '))
  }

  /** `Item.__init__`. */
  function NewItem(id: string, caption: string, dependencies: string, size: Option<int>, done: bool): (r: Item)
    ensures r.id == id && r.caption == caption && r.done == done
  {
    Item(id, caption, SplitDependencies(dependencies), size, done)
  }

  /** The pieces written one after the other. */
  function Concat(pieces: seq<string>): string {
    if pieces == [] then "" else pieces[0] + Concat(pieces[1..])
  }

  lemma {:induction false} ConcatDropEmpty(pieces: seq<string>)
    ensures Concat(DropEmpty(pieces)) == Concat(pieces)
  {
    if pieces != [] {
      ConcatDropEmpty(pieces[1..]);
    }
  }

  lemma {:induction false} RemoveAllAppend(a: string, b: string, c: char)
    ensures RemoveAll(a + b, c) == RemoveAll(a, c) + RemoveAll(b, c)
  {
    if a == [] {
      assert a + b == b;
    } else {
      assert (a + b)[1..] == a[1..] + b;
      RemoveAllAppend(a[1..], b, c);
    }
  }

  lemma {:induction false} RemoveAllAbsent(s: string, c: char)
    requires c !in s
    ensures RemoveAll(s, c) == s
  {
    if s != [] {
      RemoveAllAbsent(s[1..], c);
    }
  }

  lemma {:induction false} ConcatSplit(s: string, c: char)
    ensures Concat(Split(s, c)) == RemoveAll(s, c)
    decreases |s|
  {
    if c in s {
      var i := IndexOf(s, c);
      ConcatSplit(s[i + 1..], c);
      ConcatSplitStep(s, c, i);
    } else {
      RemoveAllAbsent(s, c);
    }
  }

  /** Both sides of `ConcatSplit` keep the text before the first separator and go on with the rest. */
  lemma ConcatSplitStep(s: string, c: char, i: nat)
    requires c in s && i == IndexOf(s, c)
    ensures Concat(Split(s, c)) == s[..i] + Concat(Split(s[i + 1..], c))
    ensures RemoveAll(s, c) == s[..i] + RemoveAll(s[i + 1..], c)
  {
    var tail := s[i + 1..];
    SplitAtFirst(s, c);
    assert Split(s, c)[1..] == Split(tail, c);
    assert s == s[..i] + ([c] + tail);
    RemoveAllAppend(s[..i], [c] + tail, c);
    assert ([c] + tail)[1..] == tail;
    RemoveAllAbsent(s[..i], c);
  }

  /** The dependency ids hold every character of the string but the spaces, in order. */
  lemma DependenciesKeepAllButSpaces(s: string)
    ensures Concat(SplitDependencies(s)) == RemoveAll(s, ' ')
  {
    ConcatDropEmpty(Split(s, ' '));
    ConcatSplit(s, ' ');
  }

  lemma {:induction false} DropEmptyOfNonEmpty(pieces: seq<string>)
    requires forall i :: 0 <= i < |pieces| ==> pieces[i] != ""
    ensures DropEmpty(pieces) == pieces
  {
    if pieces != [] {
      DropEmptyOfNonEmpty(pieces[1..]);
    }
  }

  /** Ids written with single spaces between them are parsed back one by one; "" gives none. */
  lemma SplitDependenciesOfJoinedIds(ids: seq<string>)
    requires forall i :: 0 <= i < |ids| ==> ids[i] != "" && ' ' !in ids[i]
    ensures SplitDependencies(Join(ids, ' ')) == ids
  {
    if ids == [] {
      assert Split("", ' ') == [""];
    } else {
      SplitJoin(ids, ' ');
      DropEmptyOfNonEmpty(ids);
    }
  }

  /** An item declared without dependencies has none. */
  lemma NoDependencies()
    ensures SplitDependencies("") == []
  {
    SplitDependenciesOfJoinedIds([]);
  }

  /** "SIZE4 RB4", the backlog's dependency string with two ids, gives both ids. */
  lemma TwoDependencies()
    ensures SplitDependencies("SIZE4 RB4") == ["SIZE4", "RB4"]
  {
    var ids := ["SIZE4", "RB4"];
    SplitDependenciesOfJoinedIds(ids);
    assert Join(ids, ' ') == "SIZE4 RB4" by {
      assert ids[1..] == ["RB4"];
      assert Join(ids, ' ') == "SIZE4" + [' '] + "RB4";
    }
  }

  /* ---------------------------------------------------------------- */
  /* The graph                                                         */

  datatype Node = Node(id: string, caption: string, color: string)

  datatype Edge = Edge(from: string, to: string)

  /** A `subgraph`: its name, its label (`caption`), and the nodes and edges drawn inside it, in order. */
  datatype Cluster = Cluster(name: string, caption: string, nodes: seq<Node>, edges: seq<Edge>)

  /** The clusters in order, then the edges drawn at the top level. */
  datatype Graph = Graph(clusters: seq<Cluster>, edges: seq<Edge>)

  const DoneColor := "lightgreen"
  const ToDoColor := "lightblue2"

  /** The node of an item: its id and caption, green once done and blue before. */
  function NodeOf(item: Item): (n: Node)
    ensures n.id == item.id && n.caption == item.caption
    ensures n.color == DoneColor <==> item.done
    ensures n.color == ToDoColor <==> !item.done
  {
    Node(item.id, item.caption, if item.done then DoneColor else ToDoColor)
  }

  /** `f'cluster_{name}'.replace(' ', '')`. */
  function ClusterName(name: string): (r: string)
    ensures ' ' !in r
  {
    RemoveAll("cluster_" + name, ' ')
  }

  /** A cluster is named "cluster_" and the direction's name without its spaces. */
  lemma ClusterNameIsPrefixedName(name: string)
    ensures ClusterName(name) == "cluster_" + RemoveAll(name, ' ')
  {
    RemoveAllAppend("cluster_", name, ' ');
    RemoveAllAbsent("cluster_", ' ');
  }

  /** The number of edges between consecutive items: one fewer than the items, none for none. */
  function Links(n: nat): nat {
    if n == 0 then 0 else n - 1
  }

  /** What the cluster of a direction holds: a node per item and a link from each item to the next. */
  function ClusterOf(d: Direction): Cluster {
    var items := d.items;
    Cluster(ClusterName(d.name), d.name,
      seq(|items|, i requires 0 <= i < |items| => NodeOf(items[i])),
      seq(Links(|items|), i requires 0 <= i < Links(|items|) => Edge(items[i].id, items[i + 1].id)))
  }

  /** One edge from each dependency to the item that declares it, in declaration order. */
  function DependencyEdges(item: Item): (r: seq<Edge>)
    ensures |r| == |item.dependencies|
  {
    seq(|item.dependencies|, j requires 0 <= j < |item.dependencies| => Edge(item.dependencies[j], item.id))
  }

  /** The dependency edges of a list of items, in item order. */
  function ItemsEdges(items: seq<Item>): seq<Edge> {
    if items == [] then [] else ItemsEdges(items[..|items| - 1]) + DependencyEdges(items[|items| - 1])
  }

  /** The dependency edges of a backlog, direction after direction. */
  function ExplicitEdges(backlog: seq<Direction>): seq<Edge> {
    if backlog == [] then []
    else ExplicitEdges(backlog[..|backlog| - 1]) + ItemsEdges(backlog[|backlog| - 1].items)
  }

  /** The innermost loop: the edges of one item's dependencies appended in order. */
  method AppendDependencyEdges(item: Item, base: seq<Edge>) returns (r: seq<Edge>)
    ensures r == base + DependencyEdges(item)
  {
    r := base;
    for j := 0 to |item.dependencies|
      invariant r == base + DependencyEdges(item)[..j]
    {
      r := r + [Edge(item.dependencies[j], item.id)];
      assert DependencyEdges(item)[..j + 1] == DependencyEdges(item)[..j] + [Edge(item.dependencies[j], item.id)];
    }
    assert DependencyEdges(item)[..|item.dependencies|] == DependencyEdges(item);
  }

  /**
   * The loop over one direction's items: each item's node, an edge from the item drawn
   * before it when there is one, and its dependency edges collected for later.
   */
  method DrawItems(items: seq<Item>, base: seq<Edge>) returns (nodes: seq<Node>, edges: seq<Edge>, collected: seq<Edge>)
    ensures |nodes| == |items| && forall i :: 0 <= i < |items| ==> nodes[i] == NodeOf(items[i])
    ensures |edges| == Links(|items|)
    ensures forall i :: 0 <= i < Links(|items|) ==> edges[i] == Edge(items[i].id, items[i + 1].id)
    ensures collected == base + ItemsEdges(items)
  {
    nodes, edges := [], [];
    var previous: Option<Item> := None;
    collected := base;
    for t := 0 to |items|
      invariant |nodes| == t
      invariant forall i :: 0 <= i < t ==> nodes[i] == NodeOf(items[i])
      invariant previous == if t == 0 then None else Some(items[t - 1])
      invariant |edges| == Links(t)
      invariant forall i :: 0 <= i < |edges| ==> edges[i] == Edge(items[i].id, items[i + 1].id)
      invariant collected == base + ItemsEdges(items[..t])
    {
      var item := items[t];
      NodeStep(items, t, nodes);
      nodes := nodes + [NodeOf(item)];
      if previous.Some? {
        LinkStep(items, t, edges);
        edges := edges + [Edge(previous.value.id, item.id)];
      }
      previous := Some(item);
      CollectStep(items, t, base, collected);
      collected := AppendDependencyEdges(item, collected);
    }
    assert items[..|items|] == items;
  }

  lemma CollectStep(items: seq<Item>, t: nat, base: seq<Edge>, collected: seq<Edge>)
    requires t < |items| && collected == base + ItemsEdges(items[..t])
    ensures collected + DependencyEdges(items[t]) == base + ItemsEdges(items[..t + 1])
  {
    ItemsEdgesStep(items, t);
  }

  lemma NodeStep(items: seq<Item>, t: nat, nodes: seq<Node>)
    requires t < |items| && |nodes| == t
    requires forall i :: 0 <= i < t ==> nodes[i] == NodeOf(items[i])
    ensures forall i :: 0 <= i < t + 1 ==> (nodes + [NodeOf(items[t])])[i] == NodeOf(items[i])
  {
  }

  lemma LinkStep(items: seq<Item>, t: nat, edges: seq<Edge>)
    requires 0 < t < |items| && |edges| == t - 1
    requires forall i :: 0 <= i < |edges| ==> edges[i] == Edge(items[i].id, items[i + 1].id)
    ensures forall i :: 0 <= i < t ==>
      (edges + [Edge(items[t - 1].id, items[t].id)])[i] == Edge(items[i].id, items[i + 1].id)
  {
  }

  lemma ItemsEdgesStep(items: seq<Item>, t: nat)
    requires t < |items|
    ensures ItemsEdges(items[..t + 1]) == ItemsEdges(items[..t]) + DependencyEdges(items[t])
  {
    assert items[..t + 1][..t] == items[..t];
  }

  /** One direction's subgraph, named after it, and its dependency edges collected for later. */
  method DrawDirection(d: Direction, base: seq<Edge>) returns (cluster: Cluster, collected: seq<Edge>)
    ensures cluster == ClusterOf(d)
    ensures collected == base + ItemsEdges(d.items)
  {
    var nodes, edges;
    nodes, edges, collected := DrawItems(d.items, base);
    cluster := Cluster(ClusterName(d.name), d.name, nodes, edges);
  }

  /**
   * `print_graphiz`: walks the directions and their items once, drawing each item's node and
   * the edge from the item before it, and collecting the dependency edges, which are drawn
   * only after every cluster.
   */
  method PrintGraphviz(backlog: seq<Direction>) returns (g: Graph)
    ensures |g.clusters| == |backlog|
    ensures forall k :: 0 <= k < |backlog| ==> g.clusters[k] == ClusterOf(backlog[k])
    ensures g.edges == ExplicitEdges(backlog)
  {
    var clusters: seq<Cluster> := [];
    var explicitEdges: seq<Edge> := [];
    for k := 0 to |backlog|
      invariant |clusters| == k
      invariant forall c :: 0 <= c < k ==> clusters[c] == ClusterOf(backlog[c])
      invariant explicitEdges == ExplicitEdges(backlog[..k])
    {
      var cluster;
      cluster, explicitEdges := DrawDirection(backlog[k], explicitEdges);
      clusters := clusters + [cluster];
      assert backlog[..k + 1][..k] == backlog[..k];
    }
    assert backlog[..|backlog|] == backlog;
    g := Graph(clusters, explicitEdges);
  }

  /* ---------------------------------------------------------------- */
  /* Counting what is drawn                                            */

  function SumOfItems(backlog: seq<Direction>): nat {
    if backlog == [] then 0 else SumOfItems(backlog[..|backlog| - 1]) + |backlog[|backlog| - 1].items|
  }

  function SumOfLinks(backlog: seq<Direction>): nat {
    if backlog == [] then 0 else SumOfLinks(backlog[..|backlog| - 1]) + Links(|backlog[|backlog| - 1].items|)
  }

  function DependencyCount(items: seq<Item>): nat {
    if items == [] then 0 else DependencyCount(items[..|items| - 1]) + |items[|items| - 1].dependencies|
  }

  function SumOfDependencies(backlog: seq<Direction>): nat {
    if backlog == [] then 0
    else SumOfDependencies(backlog[..|backlog| - 1]) + DependencyCount(backlog[|backlog| - 1].items)
  }

  function NodeCount(clusters: seq<Cluster>): nat {
    if clusters == [] then 0 else NodeCount(clusters[..|clusters| - 1]) + |clusters[|clusters| - 1].nodes|
  }

  function LinkCount(clusters: seq<Cluster>): nat {
    if clusters == [] then 0 else LinkCount(clusters[..|clusters| - 1]) + |clusters[|clusters| - 1].edges|
  }

  lemma {:induction false} ItemsEdgesCount(items: seq<Item>)
    ensures |ItemsEdges(items)| == DependencyCount(items)
  {
    if items != [] {
      ItemsEdgesCount(items[..|items| - 1]);
    }
  }

  lemma {:induction false} ExplicitEdgesCount(backlog: seq<Direction>)
    ensures |ExplicitEdges(backlog)| == SumOfDependencies(backlog)
  {
    if backlog != [] {
      ExplicitEdgesCount(backlog[..|backlog| - 1]);
      ItemsEdgesCount(backlog[|backlog| - 1].items);
    }
  }

  lemma {:induction false} ClusterCounts(backlog: seq<Direction>, clusters: seq<Cluster>)
    requires |clusters| == |backlog|
    requires forall k :: 0 <= k < |backlog| ==> clusters[k] == ClusterOf(backlog[k])
    ensures NodeCount(clusters) == SumOfItems(backlog)
    ensures LinkCount(clusters) == SumOfLinks(backlog)
  {
    if backlog != [] {
      ClusterCounts(backlog[..|backlog| - 1], clusters[..|clusters| - 1]);
    }
  }

  /**
   * The graph has one node per item, one edge fewer than its items inside each direction
   * (none into a first item, none out of a last), and one edge per declared dependency,
   * whether or not the id it names exists.
   */
  method GraphCounts(backlog: seq<Direction>) returns (nodes: nat, links: nat, dependencies: nat)
    ensures nodes == SumOfItems(backlog)
    ensures links == SumOfLinks(backlog)
    ensures dependencies == SumOfDependencies(backlog)
  {
    var g := PrintGraphviz(backlog);
    ClusterCounts(backlog, g.clusters);
    ExplicitEdgesCount(backlog);
    nodes, links, dependencies := NodeCount(g.clusters), LinkCount(g.clusters), |g.edges|;
  }

  /** An edge `dependency -> item` is drawn for exactly the dependencies some item declares. */
  lemma {:induction false} ItemsEdgesMembers(items: seq<Item>, e: Edge)
    ensures e in ItemsEdges(items) <==>
      exists t :: 0 <= t < |items| && items[t].id == e.to && e.from in items[t].dependencies
  {
    if items != [] {
      var init := items[..|items| - 1];
      var last := items[|items| - 1];
      ItemsEdgesMembers(init, e);
      DependencyEdgesMembers(last, e);
      assert ItemsEdges(items) == ItemsEdges(init) + DependencyEdges(last);
      if exists t :: 0 <= t < |items| && items[t].id == e.to && e.from in items[t].dependencies {
        var t :| 0 <= t < |items| && items[t].id == e.to && e.from in items[t].dependencies;
        if t < |init| {
          assert init[t] == items[t];
        }
      }
      if exists t :: 0 <= t < |init| && init[t].id == e.to && e.from in init[t].dependencies {
        var t :| 0 <= t < |init| && init[t].id == e.to && e.from in init[t].dependencies;
        assert items[t] == init[t];
      }
    }
  }

  lemma DependencyEdgesMembers(item: Item, e: Edge)
    ensures e in DependencyEdges(item) <==> item.id == e.to && e.from in item.dependencies
  {
    if item.id == e.to && e.from in item.dependencies {
      var j :| 0 <= j < |item.dependencies| && item.dependencies[j] == e.from;
      assert DependencyEdges(item)[j] == e;
    }
  }
}
