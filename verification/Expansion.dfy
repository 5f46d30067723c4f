/** Breadth-first expansion (backend/app/graph.py) and its client in the question
    answering route (backend/app/query.py). */
module Expansion {
  import opened Wrappers
  import opened Sorting
  import opened Walks
  import opened Graph
  import opened Selections

  /** The depth asked for, kept between 0 and 3. */
  function Clamp(depth: int): (d: nat)
    ensures d <= 3 && (0 <= depth <= 3 ==> d == depth)
    ensures (depth < 0 ==> d == 0) && (depth > 3 ==> d == 3)
  {
    if depth < 0 then 0 else if depth > MAX_DEPTH then MAX_DEPTH else depth
  }

  // ------------------------------------------------------------ adjacency

  predicate Touches(e: Edge, x: string) { e.source == x || e.target == x }

  function Lookup(adjacency: map<string, seq<Edge>>, x: string): seq<Edge> {
    if x in adjacency then adjacency[x] else []
  }

  ghost predicate IsAdjacency(edges: seq<Edge>, adjacency: map<string, seq<Edge>>) {
    forall x, e :: e in Lookup(adjacency, x) <==> e in edges && Touches(e, x)
  }

  method Adjacency(edges: seq<Edge>) returns (adjacency: map<string, seq<Edge>>)
    ensures IsAdjacency(edges, adjacency)
  {
    adjacency := map[];
    for i := 0 to |edges|
      invariant IsAdjacency(edges[..i], adjacency)
    {
      var e := edges[i];
      ghost var before := adjacency;
      adjacency := adjacency[e.source := Lookup(adjacency, e.source) + [e]];
      adjacency := adjacency[e.target := Lookup(adjacency, e.target) + [e]];
      forall x, f
        ensures f in Lookup(adjacency, x) <==> f in edges[..i + 1] && Touches(f, x)
      {
        assert f in Lookup(adjacency, x) <==> f in Lookup(before, x) || (f == e && Touches(e, x));
        assert f in edges[..i + 1] <==> f in edges[..i] || f == e;
      }
    }
    assert edges[..|edges|] == edges;
  }

  // ------------------------------------------------------------ the search

  /** Discovery order: no node twice, hops never decreasing. */
  ghost predicate InOrder(hops: map<string, nat>, order: seq<string>) {
    && (forall v :: v in hops <==> v in order)
    && (forall i, j :: 0 <= i < j < |order| ==> order[i] != order[j] && hops[order[i]] <= hops[order[j]])
  }

  ghost predicate Sound(edges: seq<Edge>, start: string, depth: nat, hops: map<string, nat>) {
    && start in hops && hops[start] == 0
    && forall v :: v in hops ==> hops[v] <= depth && Reaches(edges, start, v, hops[v])
  }

  ghost predicate Discovered(edges: seq<Edge>, start: string, depth: nat, hops: map<string, nat>, order: seq<string>) {
    InOrder(hops, order) && Sound(edges, start, depth, hops)
  }

  /** Everything next to `u` has been discovered, at most one hop further out. */
  ghost predicate Explored(edges: seq<Edge>, hops: map<string, nat>, u: string)
    requires u in hops
  {
    forall v :: Adjacent(edges, u, v) ==> v in hops && hops[v] <= hops[u] + 1
  }

  ghost predicate ExploredUpTo(edges: seq<Edge>, depth: nat, hops: map<string, nat>, order: seq<string>, head: nat)
    requires head <= |order| && forall i :: 0 <= i < |order| ==> order[i] in hops
  {
    forall i :: 0 <= i < head && hops[order[i]] < depth ==> Explored(edges, hops, order[i])
  }

  ghost predicate Within(hops: map<string, nat>, order: seq<string>, bound: nat) {
    forall i :: 0 <= i < |order| ==> order[i] in hops && hops[order[i]] <= bound
  }

  lemma {:induction false} ExploredIsComplete(edges: seq<Edge>, start: string, depth: nat,
                                              hops: map<string, nat>, order: seq<string>, v: string, k: nat)
    requires Discovered(edges, start, depth, hops, order)
    requires ExploredUpTo(edges, depth, hops, order, |order|)
    requires k <= depth && Reaches(edges, start, v, k)
    ensures v in hops && hops[v] <= k
    decreases k
  {
    if k > 0 {
      var u := LastStep(edges, start, v, k);
      ExploredIsComplete(edges, start, depth, hops, order, u, k - 1);
      var i :| 0 <= i < |order| && order[i] == u;
      assert Explored(edges, hops, order[i]);
    } else {
      var p :| IsWalkFromTo(edges, p, start, v, 0);
    }
  }

  lemma SearchIsExact(edges: seq<Edge>, start: string, depth: nat, hops: map<string, nat>, order: seq<string>)
    requires Discovered(edges, start, depth, hops, order)
    requires ExploredUpTo(edges, depth, hops, order, |order|)
    ensures ExactHops(edges, start, depth, hops)
  {
    forall v | v in hops
      ensures IsDistance(edges, start, v, hops[v])
    {
      forall j | 0 <= j < hops[v]
        ensures !Reaches(edges, start, v, j)
      {
        if Reaches(edges, start, v, j) {
          ExploredIsComplete(edges, start, depth, hops, order, v, j);
        }
      }
    }
    forall v, k | 0 <= k <= depth && IsDistance(edges, start, v, k)
      ensures v in hops
    {
      ExploredIsComplete(edges, start, depth, hops, order, v, k);
    }
  }

  /** All node names that occur: the bound behind termination. */
  ghost function Universe(edges: seq<Edge>, start: string): (u: set<string>)
    ensures start in u && forall e :: e in edges ==> e.source in u && e.target in u
  {
    {start} + (set e | e in edges :: e.source) + (set e | e in edges :: e.target)
  }

  lemma {:induction false} DistinctFits(order: seq<string>, universe: set<string>)
    requires forall i, j :: 0 <= i < j < |order| ==> order[i] != order[j]
    requires forall v :: v in order ==> v in universe
    ensures |order| <= |universe|
  {
    if order != [] {
      var last := order[|order| - 1];
      forall v | v in order[..|order| - 1]
        ensures v in universe - {last}
      {
      }
      DistinctFits(order[..|order| - 1], universe - {last});
    }
  }

  lemma OrderOne(hops: map<string, nat>, order: seq<string>, x: string, hop: nat)
    requires InOrder(hops, order) && Within(hops, order, hop) && x !in hops
    ensures InOrder(hops[x := hop], order + [x]) && Within(hops[x := hop], order + [x], hop)
  {
    var h, o := hops[x := hop], order + [x];
    assert forall v :: v in o <==> v in order || v == x;
    forall i | 0 <= i < |order|
      ensures o[i] != x && h[o[i]] == hops[order[i]] <= hop
    {
      assert order[i] in hops;
    }
  }

  lemma DiscoverOne(edges: seq<Edge>, start: string, depth: nat, hops: map<string, nat>, order: seq<string>,
                    current: string, neighbour: string)
    requires Discovered(edges, start, depth, hops, order)
    requires current in hops && hops[current] < depth && Within(hops, order, hops[current] + 1)
    requires Adjacent(edges, current, neighbour) && neighbour !in hops
    ensures var h, o := hops[neighbour := hops[current] + 1], order + [neighbour];
            Discovered(edges, start, depth, h, o) && Within(h, o, hops[current] + 1)
  {
    ExtendWalk(edges, start, current, neighbour, hops[current]);
    OrderOne(hops, order, neighbour, hops[current] + 1);
  }

  /** `b` continues `a`: nothing discovered is forgotten or renumbered, and the queue grows with the order. */
  ghost predicate Continues(a: map<string, nat>, orderA: seq<string>, queueA: seq<string>,
                            b: map<string, nat>, orderB: seq<string>, queueB: seq<string>, universe: set<string>) {
    && (forall v :: v in a ==> v in b && b[v] == a[v])
    && (forall v :: v in b && v !in a ==> v in universe)
    && exists added :: orderB == orderA + added && queueB == queueA + added
  }

  lemma ContinuesOne(a: map<string, nat>, orderA: seq<string>, queueA: seq<string>,
                     b: map<string, nat>, orderB: seq<string>, queueB: seq<string>, universe: set<string>,
                     x: string, hop: nat)
    requires Continues(a, orderA, queueA, b, orderB, queueB, universe) && x !in b && x in universe
    ensures Continues(a, orderA, queueA, b[x := hop], orderB + [x], queueB + [x], universe)
  {
    var added :| orderB == orderA + added && queueB == queueA + added;
    assert orderB + [x] == orderA + (added + [x]) && queueB + [x] == queueA + (added + [x]);
  }

  /** The inner loop: everything beside `current` is discovered. */
  method Visit(edges: seq<Edge>, incident: seq<Edge>, start: string, depth: nat, current: string,
               hops0: map<string, nat>, queue0: seq<string>, order0: seq<string>)
    returns (hops: map<string, nat>, queue: seq<string>, order: seq<string>)
    requires forall e :: e in incident <==> e in edges && Touches(e, current)
    requires Discovered(edges, start, depth, hops0, order0)
    requires current in hops0 && hops0[current] < depth && Within(hops0, order0, hops0[current] + 1)
    ensures Discovered(edges, start, depth, hops, order) && Within(hops, order, hops0[current] + 1)
    ensures Continues(hops0, order0, queue0, hops, order, queue, Universe(edges, start))
    ensures Explored(edges, hops, current)
  {
    hide InOrder, Sound, Universe;
    hops, queue, order := hops0, queue0, order0;
    assert order0 == order0 + [] && queue0 == queue0 + [];
    for i := 0 to |incident|
      invariant Discovered(edges, start, depth, hops, order) && Within(hops, order, hops0[current] + 1)
      invariant Continues(hops0, order0, queue0, hops, order, queue, Universe(edges, start))
      invariant forall j, v :: 0 <= j < i && Joins(incident[j], current, v) ==> v in hops
    {
      var edge := incident[i];
      assert edge in incident;
      var neighbour := if edge.source == current then edge.target else edge.source;
      assert Joins(edge, current, neighbour);
      if neighbour !in hops {
        DiscoverOne(edges, start, depth, hops, order, current, neighbour);
        ContinuesOne(hops0, order0, queue0, hops, order, queue, Universe(edges, start), neighbour, hops[current] + 1);
        hops := hops[neighbour := hops[current] + 1];
        queue := queue + [neighbour];
        order := order + [neighbour];
      }
    }
    AllNeighboursFound(edges, incident, current, hops, order, hops0[current] + 1);
  }

  lemma AllNeighboursFound(edges: seq<Edge>, incident: seq<Edge>, current: string, hops: map<string, nat>,
                           order: seq<string>, bound: nat)
    requires forall e :: e in incident <==> e in edges && Touches(e, current)
    requires forall j, v :: 0 <= j < |incident| && Joins(incident[j], current, v) ==> v in hops
    requires InOrder(hops, order) && Within(hops, order, bound)
    requires current in hops && bound == hops[current] + 1
    ensures Explored(edges, hops, current)
  {
    forall v | Adjacent(edges, current, v)
      ensures v in hops && hops[v] <= bound
    {
      var e :| e in edges && Joins(e, current, v);
      assert e in incident;
      var j :| 0 <= j < |incident| && incident[j] == e;
      assert v in order;
    }
  }

  /** The state of the outer loop, `queue` being what is left of `order`. */
  ghost predicate Searching(edges: seq<Edge>, start: string, depth: nat, hops: map<string, nat>,
                            order: seq<string>, queue: seq<string>) {
    && Discovered(edges, start, depth, hops, order)
    && |queue| <= |order| && queue == order[|order| - |queue|..]
    && ExploredUpTo(edges, depth, hops, order, |order| - |queue|)
    && (queue != [] ==> Within(hops, order, hops[queue[0]] + 1))
    && forall v :: v in hops ==> v in Universe(edges, start)
  }

  lemma PopOnly(edges: seq<Edge>, start: string, depth: nat, hops: map<string, nat>, order: seq<string>, queue: seq<string>)
    requires Searching(edges, start, depth, hops, order, queue) && queue != []
    requires hops[queue[0]] >= depth
    ensures Searching(edges, start, depth, hops, order, queue[1..])
  {
    assert order[|order| - |queue|] == queue[0];
    if |queue| > 1 {
      assert queue[1] == order[|order| - |queue| + 1];
      assert hops[queue[0]] <= hops[queue[1]];
    }
  }

  lemma PopAndVisit(edges: seq<Edge>, start: string, depth: nat, hops: map<string, nat>, order: seq<string>, queue: seq<string>,
                    hops': map<string, nat>, order': seq<string>, queue': seq<string>)
    requires Searching(edges, start, depth, hops, order, queue) && queue != []
    requires Discovered(edges, start, depth, hops', order') && Within(hops', order', hops[queue[0]] + 1)
    requires Continues(hops, order, queue[1..], hops', order', queue', Universe(edges, start))
    requires queue[0] in hops' && Explored(edges, hops', queue[0])
    ensures Searching(edges, start, depth, hops', order', queue')
    ensures |order'| >= |order| && (|order'| == |order| ==> |queue'| < |queue|)
    ensures |order'| <= |Universe(edges, start)|
  {
    hide Sound, Universe, Reaches, Explored, ExploredUpTo, InOrder;
    var added :| order' == order + added && queue' == queue[1..] + added;
    var head := |order| - |queue|;
    QueueMoves(order, queue, order', queue', added);
    OrderKnown(hops, order);
    OrderKnown(hops', order');
    StillExplored(edges, depth, hops, order, head, hops', order', added);
    if queue' != [] {
      HopsRise(hops', order', head);
    }
    OrderFits(hops', order', Universe(edges, start));
  }

  lemma QueueMoves(order: seq<string>, queue: seq<string>, order': seq<string>, queue': seq<string>, added: seq<string>)
    requires queue != [] && |queue| <= |order| && queue == order[|order| - |queue|..]
    requires order' == order + added && queue' == queue[1..] + added
    ensures var head := |order| - |queue|;
            && order[head] == order'[head] == queue[0]
            && |order'| - |queue'| == head + 1 && queue' == order'[head + 1..]
            && (queue' != [] ==> order'[head + 1] == queue'[0])
  {
  }

  lemma OrderKnown(hops: map<string, nat>, order: seq<string>)
    requires InOrder(hops, order)
    ensures forall i :: 0 <= i < |order| ==> order[i] in hops
  {
  }

  lemma HopsRise(hops: map<string, nat>, order: seq<string>, i: nat)
    requires InOrder(hops, order) && i + 1 < |order|
    ensures order[i] in hops && order[i + 1] in hops && hops[order[i]] <= hops[order[i + 1]]
  {
  }

  lemma StillExplored(edges: seq<Edge>, depth: nat, hops: map<string, nat>, order: seq<string>, head: nat,
                      hops': map<string, nat>, order': seq<string>, added: seq<string>)
    requires head < |order| && order' == order + added && (forall i :: 0 <= i < |order| ==> order[i] in hops)
    requires ExploredUpTo(edges, depth, hops, order, head)
    requires (forall v :: v in hops ==> v in hops' && hops'[v] == hops[v]) && (forall i :: 0 <= i < |order'| ==> order'[i] in hops')
    requires Explored(edges, hops', order[head])
    ensures ExploredUpTo(edges, depth, hops', order', head + 1)
  {
    hide Adjacent;
    forall i | 0 <= i < head + 1 && hops'[order'[i]] < depth
      ensures Explored(edges, hops', order'[i])
    {
      assert order'[i] == order[i];
      if i < head {
        assert Explored(edges, hops, order[i]);
      }
    }
  }

  lemma OrderFits(hops: map<string, nat>, order: seq<string>, universe: set<string>)
    requires InOrder(hops, order) && forall v :: v in hops ==> v in universe
    ensures |order| <= |universe|
  {
    DistinctFits(order, universe);
  }

  lemma SearchStarts(edges: seq<Edge>, start: string, depth: nat)
    ensures Searching(edges, start, depth, map[start := 0], [start], [start])
  {
    ReachesSelf(edges, start);
  }

  method Search(edges: seq<Edge>, start: string, depth: nat) returns (hops: map<string, nat>, order: seq<string>)
    ensures ExactHops(edges, start, depth, hops)
    ensures forall i, j :: 0 <= i < j < |order| ==> order[i] != order[j]
    ensures forall v :: v in hops <==> v in order
  {
    hide Universe, Reaches, ExploredUpTo;
    var adjacency := Adjacency(edges);
    hops, order := map[start := 0], [start];
    var queue := [start];
    SearchStarts(edges, start, depth);
    while queue != []
      invariant Searching(edges, start, depth, hops, order, queue)
      decreases |Universe(edges, start)| - |order|, |queue|
    {
      var current := queue[0];
      assert current in hops && hops[current] <= depth;
      if hops[current] >= depth {
        PopOnly(edges, start, depth, hops, order, queue);
        queue := queue[1..];
      } else {
        var hops', queue', order' := Visit(edges, Lookup(adjacency, current), start, depth, current, hops, queue[1..], order);
        PopAndVisit(edges, start, depth, hops, order, queue, hops', order', queue');
        hops, queue, order := hops', queue', order';
      }
    }
    SearchIsExact(edges, start, depth, hops, order);
  }

  // ------------------------------------------------------------ the result

  datatype Ranked = Ranked(node: Node, hop: nat)

  datatype Neighbourhood = Neighbourhood(root: string, depth: nat, nodes: seq<Ranked>, edges: seq<Edge>)

  predicate StringLeq(a: string, b: string) {
    a == "" || (b != "" && (a[0] < b[0] || (a[0] == b[0] && StringLeq(a[1..], b[1..]))))
  }

  /** The sort key `(hop, id)`. */
  predicate RankLeq(a: (string, nat), b: (string, nat)) {
    a.1 < b.1 || (a.1 == b.1 && StringLeq(a.0, b.0))
  }

  lemma {:induction false} StringTotal(a: string, b: string)
    ensures StringLeq(a, b) || StringLeq(b, a)
    ensures StringLeq(a, b) && StringLeq(b, a) ==> a == b
  {
    if a != "" && b != "" && a[0] == b[0] {
      StringTotal(a[1..], b[1..]);
      assert a == [a[0]] + a[1..] && b == [b[0]] + b[1..];
    }
  }

  lemma {:induction false} StringTransitive(a: string, b: string, c: string)
    requires StringLeq(a, b) && StringLeq(b, c)
    ensures StringLeq(a, c)
  {
    if a != "" && a[0] == b[0] == c[0] {
      StringTransitive(a[1..], b[1..], c[1..]);
    }
  }

  lemma RankIsTotal()
    ensures TotalPreorder(RankLeq)
  {
    forall x: (string, nat), y: (string, nat)
      ensures RankLeq(x, y) || RankLeq(y, x)
    {
      StringTotal(x.0, y.0);
    }
    forall x: (string, nat), y: (string, nat), z: (string, nat) | RankLeq(x, y) && RankLeq(y, z)
      ensures RankLeq(x, z)
    {
      if x.1 == z.1 {
        StringTransitive(x.0, y.0, z.0);
      }
    }
  }

  /** `v` lies within `depth` of `start`. */
  ghost predicate Near(g: Graph, start: string, depth: nat, v: string) {
    exists k: nat :: k <= depth && IsDistance(g.edges, start, v, k)
  }

  /** The edges of the induced subgraph, in graph order. */
  ghost function Induced(g: Graph, start: string, depth: nat, edges: seq<Edge>): seq<Edge> {
    if edges == [] then []
    else
      var e := edges[|edges| - 1];
      Induced(g, start, depth, edges[..|edges| - 1])
      + (if Near(g, start, depth, e.source) && Near(g, start, depth, e.target) then [e] else [])
  }

  /** The nodes within `depth`, nearest first, ties by id, each once and with its distance. */
  ghost predicate AreNearest(g: Graph, start: string, depth: nat, nodes: seq<Ranked>) {
    && (forall i :: 0 <= i < |nodes| ==>
          && nodes[i].hop <= depth
          && nodes[i].node.id in g.nodes && nodes[i].node == g.nodes[nodes[i].node.id]
          && IsDistance(g.edges, start, nodes[i].node.id, nodes[i].hop))
    && (forall v :: Near(g, start, depth, v) ==> exists i :: 0 <= i < |nodes| && nodes[i].node.id == v)
    && (forall i, j :: 0 <= i < j < |nodes| ==>
          nodes[i].node.id != nodes[j].node.id
          && (nodes[i].hop < nodes[j].hop || (nodes[i].hop == nodes[j].hop && StringLeq(nodes[i].node.id, nodes[j].node.id))))
  }

  lemma HopsAreNear(g: Graph, start: string, depth: nat, hops: map<string, nat>, v: string)
    requires ExactHops(g.edges, start, depth, hops)
    ensures v in hops <==> Near(g, start, depth, v)
  {
    if v in hops {
      assert IsDistance(g.edges, start, v, hops[v]);
    }
  }

  /** Keep the edges whose two ends were both found. */
  method KeepInduced(g: Graph, start: string, depth: nat, hops: map<string, nat>) returns (kept: seq<Edge>)
    requires ExactHops(g.edges, start, depth, hops)
    ensures kept == Induced(g, start, depth, g.edges)
  {
    hide ExactHops, Near;
    kept := [];
    for i := 0 to |g.edges|
      invariant kept == Induced(g, start, depth, g.edges[..i])
    {
      var e := g.edges[i];
      HopsAreNear(g, start, depth, hops, e.source);
      HopsAreNear(g, start, depth, hops, e.target);
      assert g.edges[..i + 1][..i] == g.edges[..i];
      if e.source in hops && e.target in hops {
        kept := kept + [e];
      }
    }
    assert g.edges[..|g.edges|] == g.edges;
  }

  /** The discovered nodes with their hops, in order of discovery. */
  function Items(order: seq<string>, hops: map<string, nat>): (items: seq<(string, nat)>)
    requires forall v :: v in order ==> v in hops
    ensures |items| == |order| && forall i :: 0 <= i < |order| ==> items[i] == (order[i], hops[order[i]])
  {
    seq(|order|, i requires 0 <= i < |order| => (order[i], hops[order[i]]))
  }

  ghost predicate IsNeighbourhood(g: Graph, start: string, depth: nat, n: Neighbourhood) {
    && n.root == start
    && n.depth == depth
    && AreNearest(g, start, depth, n.nodes)
    && n.edges == Induced(g, start, depth, g.edges)
  }

  /** What `sorted` makes of the discovered nodes. */
  lemma SortedItems(order: seq<string>, hops: map<string, nat>) returns (items: seq<(string, nat)>)
    requires forall v :: v in hops <==> v in order
    requires forall i, j :: 0 <= i < j < |order| ==> order[i] != order[j]
    ensures items == StableSort(Items(order, hops), RankLeq)
    ensures forall i :: 0 <= i < |items| ==> items[i].0 in hops && items[i].1 == hops[items[i].0]
    ensures forall v :: v in hops ==> (v, hops[v]) in items
    ensures forall i, j :: 0 <= i < j < |items| ==> items[i].0 != items[j].0 && RankLeq(items[i], items[j])
  {
    var raw := Items(order, hops);
    items := StableSort(raw, RankLeq);
    RankIsTotal();
    SortIsSorted(raw, RankLeq);
    SortKeepsDistinct(raw, RankLeq);
    forall i | 0 <= i < |items|
      ensures items[i].0 in hops && items[i].1 == hops[items[i].0]
    {
      SortMembers(raw, RankLeq, items[i]);
    }
    forall v | v in hops
      ensures (v, hops[v]) in items
    {
      var i :| 0 <= i < |order| && order[i] == v;
      assert raw[i] == (v, hops[v]);
      SortMembers(raw, RankLeq, (v, hops[v]));
    }
  }

  /** The `expand` function: refused for an unknown start, and for a neighbour that is
      not a node, which a well-formed graph does not have. */
  method Expand(g: Graph, start: string, depth: int) returns (r: Result<Neighbourhood, string>)
    ensures start !in g.nodes ==> r == Err(start)
    ensures r.Err? ==> r.error !in g.nodes && (r.error == start || Near(g, start, Clamp(depth), r.error))
    ensures r.Ok? && (forall id :: id in g.nodes ==> g.nodes[id].id == id) ==> IsNeighbourhood(g, start, Clamp(depth), r.value)
    ensures WellFormed(g) && start in g.nodes ==> r.Ok?
  {
    if start !in g.nodes {
      return Err(start);
    }
    var d := Clamp(depth);
    var hops, order := Search(g.edges, start, d);
    var kept := KeepInduced(g, start, d, hops);
    ghost var sorted := SortedItems(order, hops);
    var items := StableSort(Items(order, hops), RankLeq);
    var nodes: seq<Ranked> := [];
    for i := 0 to |items|
      invariant |nodes| == i
      invariant forall j :: 0 <= j < i ==> items[j].0 in g.nodes && nodes[j] == Ranked(g.nodes[items[j].0], items[j].1)
    {
      var (id, hop) := items[i];
      if id !in g.nodes {
        HopsAreNear(g, start, d, hops, id);
        NearAreNodes(g, start, d, hops);
        return Err(id);
      }
      nodes := nodes + [Ranked(g.nodes[id], hop)];
    }
    r := Ok(Neighbourhood(start, d, nodes, kept));
    if forall id :: id in g.nodes ==> g.nodes[id].id == id {
      NearestOf(g, start, d, hops, items, nodes);
    }
  }

  lemma {:induction false} ReachedNodes(g: Graph, start: string, v: string, k: nat)
    requires WellFormed(g) && start in g.nodes && Reaches(g.edges, start, v, k)
    ensures v in g.nodes
    decreases k
  {
    if k > 0 {
      var u := LastStep(g.edges, start, v, k);
      var e :| e in g.edges && Joins(e, u, v);
    } else {
      var p :| IsWalkFromTo(g.edges, p, start, v, 0);
    }
  }

  lemma NearAreNodes(g: Graph, start: string, depth: nat, hops: map<string, nat>)
    requires start in g.nodes && ExactHops(g.edges, start, depth, hops)
    ensures WellFormed(g) ==> forall v :: v in hops ==> v in g.nodes
  {
    if WellFormed(g) {
      forall v | v in hops
        ensures v in g.nodes
      {
        ReachedNodes(g, start, v, hops[v]);
      }
    }
  }

  lemma NearestOf(g: Graph, start: string, depth: nat, hops: map<string, nat>, items: seq<(string, nat)>, nodes: seq<Ranked>)
    requires ExactHops(g.edges, start, depth, hops)
    requires forall id :: id in g.nodes ==> g.nodes[id].id == id
    requires forall i :: 0 <= i < |items| ==> items[i].0 in hops && items[i].1 == hops[items[i].0]
    requires forall v :: v in hops ==> (v, hops[v]) in items
    requires forall i, j :: 0 <= i < j < |items| ==> items[i].0 != items[j].0 && RankLeq(items[i], items[j])
    requires |nodes| == |items|
    requires forall j :: 0 <= j < |items| ==> items[j].0 in g.nodes && nodes[j] == Ranked(g.nodes[items[j].0], items[j].1)
    ensures AreNearest(g, start, depth, nodes)
  {
    hide StringLeq, IsDistance;
    assert forall i :: 0 <= i < |nodes| ==> nodes[i].node.id == items[i].0 && nodes[i].hop == items[i].1;
    forall v | Near(g, start, depth, v)
      ensures exists i :: 0 <= i < |nodes| && nodes[i].node.id == v
    {
      HopsAreNear(g, start, depth, hops, v);
      var i :| 0 <= i < |items| && items[i] == (v, hops[v]);
      assert nodes[i].node.id == v;
    }
    forall i, j | 0 <= i < j < |nodes|
      ensures nodes[i].node.id != nodes[j].node.id
      ensures nodes[i].hop < nodes[j].hop || (nodes[i].hop == nodes[j].hop && StringLeq(nodes[i].node.id, nodes[j].node.id))
    {
      assert items[i] == (nodes[i].node.id, nodes[i].hop) && items[j] == (nodes[j].node.id, nodes[j].hop);
    }
  }

  /** Going deeper only adds: the shallower answer is the part of the deeper one within
      its depth, with the same hops, and its edges are among the deeper answer's. */
  lemma DeeperNeighbourhood(g: Graph, start: string, d1: nat, n1: Neighbourhood, d2: nat, n2: Neighbourhood)
    requires d1 <= d2 && IsNeighbourhood(g, start, d1, n1) && IsNeighbourhood(g, start, d2, n2)
    ensures forall r :: r in n1.nodes <==> r in n2.nodes && r.hop <= d1
    ensures forall e :: e in n1.edges ==> e in n2.edges
  {
    forall i | 0 <= i < |n1.nodes|
      ensures n1.nodes[i] in n2.nodes
    {
      OnlyRankOf(g, start, d2, n2.nodes, n1.nodes[i]);
    }
    forall i | 0 <= i < |n2.nodes| && n2.nodes[i].hop <= d1
      ensures n2.nodes[i] in n1.nodes
    {
      OnlyRankOf(g, start, d1, n1.nodes, n2.nodes[i]);
    }
    forall e | e in n1.edges
      ensures e in n2.edges
    {
      InducedMembers(g, start, d1, g.edges, e);
      InducedMembers(g, start, d2, g.edges, e);
      NearIsMonotone(g, start, d1, d2, e.source);
      NearIsMonotone(g, start, d1, d2, e.target);
    }
  }

  lemma OnlyRankOf(g: Graph, start: string, depth: nat, nodes: seq<Ranked>, r: Ranked)
    requires AreNearest(g, start, depth, nodes) && r.hop <= depth
    requires r.node.id in g.nodes && r.node == g.nodes[r.node.id] && IsDistance(g.edges, start, r.node.id, r.hop)
    ensures r in nodes
  {
    assert Near(g, start, depth, r.node.id);
    var i :| 0 <= i < |nodes| && nodes[i].node.id == r.node.id;
    DistanceIsUnique(g.edges, start, r.node.id, nodes[i].hop, r.hop);
  }

  lemma NearIsMonotone(g: Graph, start: string, d1: nat, d2: nat, v: string)
    requires d1 <= d2
    ensures Near(g, start, d1, v) ==> Near(g, start, d2, v)
  {
  }

  // ------------------------------------------------------------ the client

  datatype Triple = Triple(source: string, sourceId: string, relationship: string, target: string, targetId: string)

  function Title(g: Graph, id: string): string { if id in g.nodes then g.nodes[id].title else "" }

  function TripleOf(g: Graph, e: Edge): Triple {
    Triple(Title(g, e.source), e.source, e.relation, Title(g, e.target), e.target)
  }

  function TriplesOf(g: Graph, edges: seq<Edge>): (r: seq<Triple>)
    ensures |r| == |edges| && forall i :: 0 <= i < |edges| ==> r[i] == TripleOf(g, edges[i])
  {
    seq(|edges|, i requires 0 <= i < |edges| => TripleOf(g, edges[i]))
  }

  /** `seen`, then the edges that are not in it yet, in order of first appearance. */
  function AppendNew(seen: seq<Edge>, edges: seq<Edge>): seq<Edge> {
    if edges == [] then seen
    else
      var r, e := AppendNew(seen, edges[..|edges| - 1]), edges[|edges| - 1];
      if e in r then r else r + [e]
  }

  /** The edges to report: each seed's neighbourhood in turn, without repeats. */
  ghost function ContextEdges(g: Graph, seeds: seq<string>, depth: nat): seq<Edge> {
    if seeds == [] then []
    else
      var before, s := ContextEdges(g, seeds[..|seeds| - 1], depth), seeds[|seeds| - 1];
      if s in g.nodes then AppendNew(before, Induced(g, s, depth, g.edges)) else before
  }

  /** `e` belongs to the neighbourhood of one of the seeds. */
  ghost predicate Relevant(g: Graph, seeds: seq<string>, depth: nat, e: Edge) {
    exists s :: s in seeds && s in g.nodes && Near(g, s, depth, e.source) && Near(g, s, depth, e.target)
  }

  lemma {:induction false} InducedMembers(g: Graph, start: string, depth: nat, edges: seq<Edge>, e: Edge)
    ensures e in Induced(g, start, depth, edges) <==>
            e in edges && Near(g, start, depth, e.source) && Near(g, start, depth, e.target)
  {
    hide Near;
    if edges != [] {
      InducedMembers(g, start, depth, edges[..|edges| - 1], e);
      assert edges == edges[..|edges| - 1] + [edges[|edges| - 1]];
    }
  }

  method ReportNew(g: Graph, edges: seq<Edge>, seen0: seq<Edge>, triples0: seq<Triple>)
    returns (seen: seq<Edge>, triples: seq<Triple>)
    requires triples0 == TriplesOf(g, seen0)
    requires forall e :: e in edges ==> e.source in g.nodes && e.target in g.nodes
    ensures seen == AppendNew(seen0, edges) && triples == TriplesOf(g, seen)
  {
    seen, triples := seen0, triples0;
    for i := 0 to |edges|
      invariant seen == AppendNew(seen0, edges[..i]) && triples == TriplesOf(g, seen)
    {
      var e := edges[i];
      assert edges[..i + 1][..i] == edges[..i];
      if e !in seen {
        triples := triples + [Triple(g.nodes[e.source].title, e.source, e.relation, g.nodes[e.target].title, e.target)];
        seen := seen + [e];
      }
    }
    assert edges[..|edges|] == edges;
  }

  ghost function GraphOf(t: Tables): Graph { Graph(NodesOf(Entries(t)), EdgesOf(Entries(t), Links(t))) }

  lemma {:induction false} AppendNewMembers(seen: seq<Edge>, edges: seq<Edge>)
    requires NoRepeats(seen)
    ensures NoRepeats(AppendNew(seen, edges))
    ensures forall e :: e in AppendNew(seen, edges) <==> e in seen || e in edges
  {
    if edges != [] {
      AppendNewMembers(seen, edges[..|edges| - 1]);
      assert edges == edges[..|edges| - 1] + [edges[|edges| - 1]];
    }
  }

  /** Each edge near some seed is there once, and no other edge is. */
  lemma {:induction false} ContextMembers(g: Graph, seeds: seq<string>, depth: nat)
    ensures NoRepeats(ContextEdges(g, seeds, depth))
    ensures forall e :: e in ContextEdges(g, seeds, depth) <==> e in g.edges && Relevant(g, seeds, depth, e)
  {
    hide Near, Induced, AppendNew, NoRepeats;
    if seeds == [] {
      NoSeeds(g, depth);
      NoRepeatsInNothing();
    } else {
      var init, s := seeds[..|seeds| - 1], seeds[|seeds| - 1];
      assert seeds == init + [s];
      ContextMembers(g, init, depth);
      AppendNewMembers(ContextEdges(g, init, depth), Induced(g, s, depth, g.edges));
      forall e
        ensures e in ContextEdges(g, seeds, depth) <==> e in g.edges && Relevant(g, seeds, depth, e)
      {
        OneMoreSeed(g, init, s, depth, e);
        InducedMembers(g, s, depth, g.edges, e);
      }
    }
  }

  lemma NoRepeatsInNothing()
    ensures NoRepeats<Edge>([])
  {
  }

  lemma NoSeeds(g: Graph, depth: nat)
    ensures forall e :: !Relevant(g, [], depth, e)
  {
  }

  lemma OneMoreSeed(g: Graph, init: seq<string>, s: string, depth: nat, e: Edge)
    ensures Relevant(g, init + [s], depth, e) <==>
            Relevant(g, init, depth, e)
            || (s in g.nodes && Near(g, s, depth, e.source) && Near(g, s, depth, e.target))
  {
    hide Near;
    assert forall x :: x in init + [s] <==> x in init || x == s;
  }

  /** One seed's neighbourhood is added to the report. */
  method ReportSeed(g: Graph, s: string, depth: nat, seen0: seq<Edge>, triples0: seq<Triple>)
    returns (seen: seq<Edge>, triples: seq<Triple>)
    requires WellFormed(g) && triples0 == TriplesOf(g, seen0)
    ensures seen == (if s in g.nodes then AppendNew(seen0, Induced(g, s, Clamp(depth), g.edges)) else seen0)
    ensures triples == TriplesOf(g, seen)
  {
    hide AreNearest, AppendNew, Clamp;
    seen, triples := seen0, triples0;
    if s in g.nodes {
      var found := Expand(g, s, depth);
      forall e | e in found.value.edges
        ensures e.source in g.nodes && e.target in g.nodes
      {
        InducedMembers(g, s, Clamp(depth), g.edges, e);
      }
      seen, triples := ReportNew(g, found.value.edges, seen, triples);
    }
  }

  /** What is known of the seeds' surroundings, one triple an edge, in order of first appearance. */
  method GraphContext(t: Tables, seeds: seq<string>, depth: nat) returns (triples: seq<Triple>)
    ensures triples == if depth == 0 then [] else TriplesOf(GraphOf(t), ContextEdges(GraphOf(t), seeds, Clamp(depth)))
  {
    if seeds == [] || depth == 0 {
      return [];
    }
    var graph := Build(t);
    assert graph == GraphOf(t);
    triples := [];
    var seen: seq<Edge> := [];
    hide Clamp, GraphOf, AppendNew, Induced;
    for i := 0 to |seeds|
      invariant seen == ContextEdges(graph, seeds[..i], Clamp(depth)) && triples == TriplesOf(graph, seen)
    {
      assert seeds[..i + 1][..i] == seeds[..i];
      seen, triples := ReportSeed(graph, seeds[i], depth, seen, triples);
    }
    assert seeds[..|seeds|] == seeds;
  }

  /** What a triple says of an edge: the titles of the nodes at its two ends, their ids, and the relation. */
  ghost predicate Says(g: Graph, tr: Triple, e: Edge) {
    && e.source in g.nodes && e.target in g.nodes
    && tr.source == g.nodes[e.source].title && tr.target == g.nodes[e.target].title
    && tr.sourceId == e.source && tr.targetId == e.target && tr.relationship == e.relation
  }

  ghost predicate SaysRelevant(g: Graph, seeds: seq<string>, depth: nat, tr: Triple) {
    exists e :: e in g.edges && Relevant(g, seeds, depth, e) && Says(g, tr, e)
  }

  /** What the report says: each edge near some seed is told once, and nothing else is. */
  lemma ContextIsExact(g: Graph, seeds: seq<string>, depth: nat)
    requires WellFormed(g)
    ensures var triples := TriplesOf(g, ContextEdges(g, seeds, depth));
            && (forall k :: 0 <= k < |triples| ==> SaysRelevant(g, seeds, depth, triples[k]))
            && (forall e :: e in g.edges && Relevant(g, seeds, depth, e) ==> exists k :: 0 <= k < |triples| && Says(g, triples[k], e))
            && forall i, j :: 0 <= i < j < |triples| ==> triples[i] != triples[j]
  {
    hide Relevant, ContextEdges;
    var edges := ContextEdges(g, seeds, depth);
    var triples := TriplesOf(g, edges);
    ContextMembers(g, seeds, depth);
    forall k | 0 <= k < |triples|
      ensures SaysRelevant(g, seeds, depth, triples[k])
    {
      var e := edges[k];
      assert e in edges;
      assert e in g.edges && Relevant(g, seeds, depth, e) && Says(g, triples[k], e);
    }
    forall e | e in g.edges && Relevant(g, seeds, depth, e)
      ensures exists k :: 0 <= k < |triples| && Says(g, triples[k], e)
    {
      assert e in edges;
      var k :| 0 <= k < |edges| && edges[k] == e;
      assert Says(g, triples[k], e);
    }
  }

  /** The edge lies within reach of the `i`-th seed. */
  ghost predicate NearSeed(g: Graph, seeds: seq<string>, depth: nat, e: Edge, i: nat)
    requires i < |seeds|
  {
    seeds[i] in g.nodes && Near(g, seeds[i], depth, e.source) && Near(g, seeds[i], depth, e.target)
  }

  lemma {:induction false} AppendNewKeeps(seen: seq<Edge>, edges: seq<Edge>)
    ensures |seen| <= |AppendNew(seen, edges)| && AppendNew(seen, edges)[..|seen|] == seen
  {
    if edges != [] {
      AppendNewKeeps(seen, edges[..|edges| - 1]);
    }
  }

  lemma NewIsNotBefore(seen: seq<Edge>, edges: seq<Edge>, b: nat)
    requires NoRepeats(seen) && |seen| <= b < |AppendNew(seen, edges)|
    ensures AppendNew(seen, edges)[b] !in seen
  {
    var r := AppendNew(seen, edges);
    AppendNewMembers(seen, edges);
    AppendNewKeeps(seen, edges);
    hide AppendNew;
    forall a | 0 <= a < |seen|
      ensures seen[a] != r[b]
    {
      assert r[..|seen|][a] == r[a];
    }
  }

  /** An edge reported before another was in reach of a seed no later than any that reaches the other. */
  lemma {:induction false} ContextInSeedOrder(g: Graph, seeds: seq<string>, depth: nat, a: nat, b: nat, j: nat)
    requires a < b < |ContextEdges(g, seeds, depth)| && j < |seeds|
    requires NearSeed(g, seeds, depth, ContextEdges(g, seeds, depth)[b], j)
    ensures exists i :: 0 <= i <= j && NearSeed(g, seeds, depth, ContextEdges(g, seeds, depth)[a], i)
  {
    hide Near, Induced;
    var n := |seeds| - 1;
    var init, s := seeds[..n], seeds[n];
    var before, all := ContextEdges(g, init, depth), ContextEdges(g, seeds, depth);
    ContextMembers(g, seeds, depth);
    ContextMembers(g, init, depth);
    AppendNewKeeps(before, Induced(g, s, depth, g.edges));
    assert all[a] in all;
    RelevantToSeed(g, seeds, depth, all[a]);
    if j < n {
      assert NearSeed(g, init, depth, all[b], j);
      SeedIsRelevant(g, init, depth, all[b], j);
      assert all[b] in g.edges && all[b] in before by {
        assert all[b] in all;
      }
      if b >= |before| {
        NewIsNotBefore(before, Induced(g, s, depth, g.edges), b);
        assert false;
      } else {
        assert all[a] == before[a] && all[b] == before[b];
        ContextInSeedOrder(g, init, depth, a, b, j);
        var i :| 0 <= i <= j && NearSeed(g, init, depth, before[a], i);
        assert NearSeed(g, seeds, depth, all[a], i);
      }
    }
  }

  lemma RelevantToSeed(g: Graph, seeds: seq<string>, depth: nat, e: Edge)
    requires Relevant(g, seeds, depth, e)
    ensures exists i :: 0 <= i < |seeds| && NearSeed(g, seeds, depth, e, i)
  {
    hide Near;
    var s :| s in seeds && s in g.nodes && Near(g, s, depth, e.source) && Near(g, s, depth, e.target);
    var i :| 0 <= i < |seeds| && seeds[i] == s;
    assert NearSeed(g, seeds, depth, e, i);
  }

  lemma SeedIsRelevant(g: Graph, seeds: seq<string>, depth: nat, e: Edge, i: nat)
    requires i < |seeds| && NearSeed(g, seeds, depth, e, i)
    ensures Relevant(g, seeds, depth, e)
  {
    hide Near;
    assert seeds[i] in seeds;
  }

  // ------------------------------------------------------------ the induced edges, in order

  ghost function Inside(g: Graph, start: string, depth: nat): Edge -> bool {
    (e: Edge) => Near(g, start, depth, e.source) && Near(g, start, depth, e.target)
  }

  /** The induced edges are the graph's, those with both ends in reach, each where it stood and as often. */
  lemma {:induction false} InducedAt(g: Graph, start: string, depth: nat, edges: seq<Edge>) returns (at: seq<nat>)
    ensures Picks(edges, Inside(g, start, depth), at) && |at| == |Induced(g, start, depth, edges)|
    ensures forall k :: 0 <= k < |at| ==> at[k] < |edges| && Induced(g, start, depth, edges)[k] == edges[at[k]]
  {
    hide Near, Picks;
    if edges == [] {
      at := [];
      PicksNothing(Inside(g, start, depth));
    } else {
      var init, last := edges[..|edges| - 1], edges[|edges| - 1];
      at := InducedAt(g, start, depth, init);
      PicksNext(init, Inside(g, start, depth), at, last);
      assert edges == init + [last];
      if Inside(g, start, depth)(last) {
        at := at + [|init|];
      }
    }
  }
}
