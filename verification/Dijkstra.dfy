/** The `Dijkstra` algorithm class: weights, `calculate` and `get_link`. */
module Dijkstra {
  import opened Walks
  import opened ShortestPaths

  /** An entry of `edges`: its two ends, delay, cost, available and total bandwidth. */
  datatype Link = Link(a: Vertex, b: Vertex, delay: real, cost: real, available: real, total: real)

  datatype Coefficients = Coefficients(delay: real, cost: real, load: real)

  /** The "infinity" that `paths_length` starts with. */
  const INFINITY := 10000.0

  predicate Connects(e: Link, u: Vertex, v: Vertex) {
    (u == e.a && v == e.b) || (v == e.a && u == e.b)
  }

  ghost predicate Measured(edges: seq<Link>) {
    forall i :: 0 <= i < |edges| ==> edges[i].total != 0.0
  }

  /** `use_available_bandwidth_mark_weight`: the first edge between the two vertices decides; a pair
      without an edge gets twice the weight of a bad one. */
  function Weight(c: Coefficients, edges: seq<Link>, u: Vertex, v: Vertex): real
    requires Measured(edges)
  {
    if edges == [] then 2.0 * (c.delay * 1.0 + c.cost * 100.0 + c.load * 1.0)
    else if Connects(edges[0], u, v) then
      c.delay * edges[0].delay + c.cost * edges[0].cost + c.load * (1.0 - edges[0].available / edges[0].total)
    else Weight(c, edges[1..], u, v)
  }

  ghost function PathCost(c: Coefficients, edges: seq<Link>, p: Path): real
    requires Measured(edges)
  {
    if |p| < 2 then 0.0
    else PathCost(c, edges, p[..|p| - 1]) + Weight(c, edges, p[|p| - 2], p[|p| - 1])
  }

  // ---------- what a path costs ----------

  ghost predicate FirstBetween(edges: seq<Link>, u: Vertex, v: Vertex, i: nat) {
    && i < |edges| && {edges[i].a, edges[i].b} == {u, v}
    && forall j :: 0 <= j < i ==> {edges[j].a, edges[j].b} != {u, v}
  }

  lemma SameEnds(e: Link, u: Vertex, v: Vertex)
    ensures Connects(e, u, v) <==> {e.a, e.b} == {u, v}
  {
    assert e.a in {e.a, e.b} && e.b in {e.a, e.b} && u in {u, v} && v in {u, v};
  }

  /** The measurements of the first edge between two vertices, if there is one. */
  ghost function Between(edges: seq<Link>, u: Vertex, v: Vertex): Option<Link> {
    if i: nat :| FirstBetween(edges, u, v, i) then Some(edges[i]) else None
  }

  /** Delay, cost and load of a hop; a hop without an edge counts as two of delay 1, cost 100 and load 1. */
  function DelayOf(hop: Option<Link>): real {
    match hop
    case None => 2.0
    case Some(e) => e.delay
  }

  function CostOf(hop: Option<Link>): real {
    match hop
    case None => 200.0
    case Some(e) => e.cost
  }

  function LoadOf(hop: Option<Link>): real {
    match hop
    case None => 2.0
    case Some(e) => if e.total == 0.0 then 0.0 else (e.total - e.available) / e.total
  }

  function Weighted(c: Coefficients, delay: real, cost: real, load: real): real {
    c.delay * delay + c.cost * cost + c.load * load
  }

  ghost function Total(edges: seq<Link>, p: Path, value: Option<Link> -> real): real {
    if |p| < 2 then 0.0
    else Total(edges, p[..|p| - 1], value) + value(Between(edges, p[|p| - 2], p[|p| - 1]))
  }

  lemma BetweenFirst(edges: seq<Link>, u: Vertex, v: Vertex)
    requires edges != []
    ensures Between(edges, u, v) ==
            if Connects(edges[0], u, v) then Some(edges[0]) else Between(edges[1..], u, v)
  {
    SameEnds(edges[0], u, v);
    if Connects(edges[0], u, v) {
      assert FirstBetween(edges, u, v, 0);
    } else {
      forall i: nat | FirstBetween(edges[1..], u, v, i)
        ensures FirstBetween(edges, u, v, i + 1)
      {
      }
      forall i: nat | FirstBetween(edges, u, v, i)
        ensures i > 0 && FirstBetween(edges[1..], u, v, i - 1)
      {
      }
    }
  }

  lemma {:induction false} WeightMeaning(c: Coefficients, edges: seq<Link>, u: Vertex, v: Vertex)
    requires Measured(edges)
    ensures var hop := Between(edges, u, v);
      Weight(c, edges, u, v) == Weighted(c, DelayOf(hop), CostOf(hop), LoadOf(hop))
  {
    if edges != [] {
      BetweenFirst(edges, u, v);
      if Connects(edges[0], u, v) {
        Relative(edges[0].available, edges[0].total);
      } else {
        WeightMeaning(c, edges[1..], u, v);
      }
    }
  }

  lemma Relative(available: real, total: real)
    requires total != 0.0
    ensures 1.0 - available / total == (total - available) / total
  {
    assert (total - available) / total == total / total - available / total;
  }

  /** The cost of a path is the weighted sum of its total delay, its total cost and its total load. */
  lemma {:induction false} PathCostMeaning(c: Coefficients, edges: seq<Link>, p: Path)
    requires Measured(edges)
    ensures PathCost(c, edges, p) ==
            Weighted(c, Total(edges, p, DelayOf), Total(edges, p, CostOf), Total(edges, p, LoadOf))
  {
    if |p| >= 2 {
      var n := |p| - 1;
      var hop := Between(edges, p[n - 1], p[n]);
      PathCostMeaning(c, edges, p[..n]);
      WeightMeaning(c, edges, p[n - 1], p[n]);
      WeightedSum(c, Total(edges, p[..n], DelayOf), Total(edges, p[..n], CostOf), Total(edges, p[..n], LoadOf),
                  DelayOf(hop), CostOf(hop), LoadOf(hop));
    }
  }

  /** With one coefficient 1 and the others 0, the cheapest path is the one of least delay, cost or load. */
  lemma OneCriterion(edges: seq<Link>, p: Path)
    requires Measured(edges)
    ensures PathCost(Coefficients(1.0, 0.0, 0.0), edges, p) == Total(edges, p, DelayOf)
    ensures PathCost(Coefficients(0.0, 1.0, 0.0), edges, p) == Total(edges, p, CostOf)
    ensures PathCost(Coefficients(0.0, 0.0, 1.0), edges, p) == Total(edges, p, LoadOf)
  {
    PathCostMeaning(Coefficients(1.0, 0.0, 0.0), edges, p);
    PathCostMeaning(Coefficients(0.0, 1.0, 0.0), edges, p);
    PathCostMeaning(Coefficients(0.0, 0.0, 1.0), edges, p);
  }

  lemma WeightedSum(c: Coefficients, d: real, k: real, l: real, d': real, k': real, l': real)
    ensures Weighted(c, d + d', k + k', l + l') == Weighted(c, d, k, l) + Weighted(c, d', k', l')
  {
  }

  ghost predicate NonNegative(c: Coefficients, edges: seq<Link>, adj: Adjacency)
    requires Measured(edges)
  {
    forall u, i :: 0 <= u < |adj| && 0 <= i < |adj[u]| ==> Weight(c, edges, u, adj[u][i]) >= 0.0
  }

  /** Real measurements give weights that are not negative. */
  lemma {:induction false} MeasuredWeight(c: Coefficients, edges: seq<Link>, u: Vertex, v: Vertex)
    requires c.delay >= 0.0 && c.cost >= 0.0 && c.load >= 0.0
    requires forall i :: 0 <= i < |edges| ==>
      edges[i].delay >= 0.0 && edges[i].cost >= 0.0 && edges[i].total > 0.0 && edges[i].available <= edges[i].total
    ensures Measured(edges) && Weight(c, edges, u, v) >= 0.0
  {
    if edges != [] {
      var e := edges[0];
      assert e.total > 0.0 && e.available <= e.total;
      assert e.available / e.total <= 1.0;
      Products(c.delay, e.delay);
      Products(c.cost, e.cost);
      Products(c.load, 1.0 - e.available / e.total);
      MeasuredWeight(c, edges[1..], u, v);
    }
  }

  lemma Products(x: real, y: real)
    requires x >= 0.0 && y >= 0.0
    ensures x * y >= 0.0
  {
  }

  // ---------- as a graph ----------

  function GraphOf(c: Coefficients, edges: seq<Link>, adj: Adjacency): (g: Graph)
    requires Measured(edges)
  {
    Graph(seq(|adj|, u requires 0 <= u < |adj| => seq(|adj[u]|, i requires 0 <= i < |adj[u]| =>
            Arc(adj[u][i], Weight(c, edges, u, adj[u][i])))),
          seq(|adj|, u => true))
  }

  lemma GraphOfValid(c: Coefficients, edges: seq<Link>, adj: Adjacency)
    requires Measured(edges) && Closed(adj) && NonNegative(c, edges, adj)
    ensures ValidGraph(GraphOf(c, edges, adj))
    ensures |PresentSet(GraphOf(c, edges, adj).present)| == |adj|
  {
    var g := GraphOf(c, edges, adj);
    forall u, i | 0 <= u < |g.arcs| && 0 <= i < |g.arcs[u]|
      ensures GoodArc(g, g.arcs[u][i])
    {
      assert adj[u][i] < |adj|;
    }
    AllPresent(g, |adj|);
  }

  lemma AllPresent(g: Graph, n: nat)
    requires |g.present| == n && forall v :: 0 <= v < n ==> g.present[v]
    ensures |PresentSet(g.present)| == n
  {
    assert PresentSet(g.present) == Below(n);
  }

  /** A walk is a trail of the same cost. */
  lemma {:induction false} WalkTrail(c: Coefficients, edges: seq<Link>, adj: Adjacency, p: Path) returns (t: seq<Arc>)
    requires Measured(edges) && Closed(adj) && Walk(adj, p)
    ensures Trail(GraphOf(c, edges, adj), p[0], t) && TrailEnd(p[0], t) == p[|p| - 1]
    ensures TrailCost(t) == PathCost(c, edges, p)
  {
    var n := |p| - 1;
    if n == 0 {
      t := [];
    } else {
      var t0 := WalkTrail(c, edges, adj, p[..n]);
      var u, v := p[n - 1], p[n];
      assert Edge(adj, u, v);
      var i :| 0 <= i < |adj[u]| && adj[u][i] == v;
      assert GraphOf(c, edges, adj).arcs[u][i] == Arc(v, Weight(c, edges, u, v));
      TrailMore(GraphOf(c, edges, adj), p[0], t0, Arc(v, Weight(c, edges, u, v)));
      t := t0 + [Arc(v, Weight(c, edges, u, v))];
    }
  }

  /** The vertices of a trail are a walk of the same cost. */
  lemma {:induction false} TrailWalk(c: Coefficients, edges: seq<Link>, adj: Adjacency, u: Vertex, t: seq<Arc>)
    requires Measured(edges) && Closed(adj) && Trail(GraphOf(c, edges, adj), u, t)
    ensures Walk(adj, Visits(u, t)) && Joins(Visits(u, t), u, TrailEnd(u, t))
    ensures PathCost(c, edges, Visits(u, t)) == TrailCost(t)
  {
    if t != [] {
      var n := |t| - 1;
      TrailWalk(c, edges, adj, u, t[..n]);
      var x := TrailEnd(u, t[..n]);
      var i :| 0 <= i < |adj[x]| && GraphOf(c, edges, adj).arcs[x][i] == t[n];
      assert t[n] == Arc(adj[x][i], Weight(c, edges, x, adj[x][i]));
      WalkMore(c, edges, adj, Visits(u, t[..n]), t[n].head);
    }
  }

  lemma WalkMore(c: Coefficients, edges: seq<Link>, adj: Adjacency, p: Path, v: Vertex)
    requires Measured(edges) && Walk(adj, p) && Edge(adj, p[|p| - 1], v)
    ensures Walk(adj, p + [v])
    ensures PathCost(c, edges, p + [v]) == PathCost(c, edges, p) + Weight(c, edges, p[|p| - 1], v)
  {
    assert (p + [v])[..|p|] == p;
  }

  // ---------- the answer ----------

  /** `p` is a cheapest loop-free path to `v`, cheaper than infinity. */
  ghost predicate Cheapest(c: Coefficients, edges: seq<Link>, adj: Adjacency, src: Vertex, v: Vertex, p: Path)
    requires Measured(edges)
  {
    && Route(adj, p, src, v) && PathCost(c, edges, p) < 10000.0
    && forall q :: Walk(adj, q) && Joins(q, src, v) ==> PathCost(c, edges, p) <= PathCost(c, edges, q)
  }

  /** No walk to `v` is cheaper than infinity. */
  ghost predicate TooFar(c: Coefficients, edges: seq<Link>, adj: Adjacency, src: Vertex, v: Vertex)
    requires Measured(edges)
  {
    forall q :: Walk(adj, q) && Joins(q, src, v) ==> PathCost(c, edges, q) >= 10000.0
  }

  /** What is returned for `v`: a cheapest path, or the vertex alone when it is too far away. */
  ghost predicate Answer(c: Coefficients, edges: seq<Link>, adj: Adjacency, src: Vertex, v: Vertex, p: Path)
    requires Measured(edges)
  {
    if v == src then p == [src]
    else if TooFar(c, edges, adj, src, v) then p == [v]
    else Cheapest(c, edges, adj, src, v, p) && |p| >= 2
  }

  lemma ChainAnswers(c: Coefficients, edges: seq<Link>, adj: Adjacency, src: Vertex, l: Labels, rank: seq<nat>,
                     v: Vertex, p: Path)
    requires Measured(edges) && Closed(adj) && src < |adj| && v < |adj|
    requires Solved(GraphOf(c, edges, adj), src, INFINITY, l, rank)
    requires Chain(l.prev, p) && p[|p| - 1] == v
    ensures Answer(c, edges, adj, src, v, p)
  {
    var g := GraphOf(c, edges, adj);
    ChainEnd(l.prev, p);
    forall q | Walk(adj, q) && Joins(q, src, v)
      ensures l.length[v] <= PathCost(c, edges, q)
    {
      var t := WalkTrail(c, edges, adj, q);
      NoCheaperTrail(g, src, INFINITY, l, rank, t);
    }
    if v != src {
      assert Step(g, INFINITY, l, rank, v);
      if l.prev[v] != -1 {
        ChainRanked(g, src, INFINITY, l, rank, p);
        var t := ChainTrail(g, src, INFINITY, l, rank, p);
        TrailWalk(c, edges, adj, src, t);
        assert Walk(adj, p) && Joins(p, src, v) && PathCost(c, edges, p) == l.length[v];
      }
    }
  }

  /** Paths from the source to every vertex. */
  method Calculate(c: Coefficients, edges: seq<Link>, adj: Adjacency, src: Vertex) returns (paths: seq<Path>)
    requires Measured(edges) && Closed(adj) && NonNegative(c, edges, adj) && src < |adj|
    ensures |paths| == |adj|
    ensures forall v :: 0 <= v < |adj| ==> Answer(c, edges, adj, src, v, paths[v])
  {
    var g := GraphOf(c, edges, adj);
    GraphOfValid(c, edges, adj);
    var previous, lengths := Settle(g, src, INFINITY, |adj|);
    ghost var l := Final(g, src, INFINITY);
    ghost var rank := FinalSolved(g, src, INFINITY);
    paths := [];
    for i := 0 to |adj|
      invariant |paths| == i
      invariant forall v :: 0 <= v < i ==> Answer(c, edges, adj, src, v, paths[v])
    {
      var path := WalkBack(g, src, INFINITY, previous, i, l, rank);
      ChainAnswers(c, edges, adj, src, l, rank, i, path);
      paths := paths + [path];
    }
  }

  // ---------- get_link ----------

  type Dpid = nat

  /** What `get_link` returns: the switches of the path and its cost. */
  datatype Found = Found(dpids: seq<Dpid>, cost: real)

  /** The cost of the first edge between two switches, or nothing if there is none. */
  function HopCost(edges: seq<Link>, u: Vertex, v: Vertex): real {
    if edges == [] then 0.0 else if Connects(edges[0], u, v) then edges[0].cost else HopCost(edges[1..], u, v)
  }

  function LinkCost(edges: seq<Link>, p: Path): real {
    if |p| < 2 then 0.0 else LinkCost(edges, p[..|p| - 1]) + HopCost(edges, p[|p| - 2], p[|p| - 1])
  }

  /** A hop without an edge counts nothing here. */
  function PaidFor(hop: Option<Link>): real {
    match hop
    case None => 0.0
    case Some(e) => e.cost
  }

  /** The cost that is returned is the total cost of the path's edges, whatever the coefficients. */
  lemma {:induction false} LinkCostMeaning(edges: seq<Link>, p: Path)
    ensures LinkCost(edges, p) == Total(edges, p, PaidFor)
  {
    if |p| >= 2 {
      LinkCostMeaning(edges, p[..|p| - 1]);
      HopCostMeaning(edges, p[|p| - 2], p[|p| - 1]);
    }
  }

  lemma {:induction false} HopCostMeaning(edges: seq<Link>, u: Vertex, v: Vertex)
    ensures HopCost(edges, u, v) == PaidFor(Between(edges, u, v))
  {
    if edges != [] {
      BetweenFirst(edges, u, v);
      HopCostMeaning(edges[1..], u, v);
    }
  }

  /** The inner loop over the edges. */
  method FindHopCost(edges: seq<Link>, u: Vertex, v: Vertex) returns (cost: real)
    ensures cost == HopCost(edges, u, v)
  {
    for i := 0 to |edges|
      invariant HopCost(edges, u, v) == HopCost(edges[i..], u, v)
    {
      if Connects(edges[i], u, v) {
        return edges[i].cost;
      }
      assert edges[i..][1..] == edges[i + 1..];
    }
    cost := 0.0;
  }

  method FindLinkCost(edges: seq<Link>, link: Path) returns (cost: real)
    requires link != []
    ensures cost == LinkCost(edges, link)
  {
    cost := 0.0;
    for i := 0 to |link| - 1
      invariant cost == LinkCost(edges, link[..i + 1])
    {
      var hop := FindHopCost(edges, link[i], link[i + 1]);
      cost := cost + hop;
      assert link[..i + 2][..i + 1] == link[..i + 1];
    }
    assert link[..|link|] == link;
  }

  /** The path to one switch, in datapath ids, with its cost: none exactly for the source and for what is too far. */
  method GetLink(c: Coefficients, edges: seq<Link>, adj: Adjacency, src: Vertex, links: seq<Path>,
                 switchQueue: seq<Dpid>, dst: Vertex)
    returns (route: Option<Found>)
    requires Measured(edges) && |links| == |adj| == |switchQueue| && Closed(adj) && src < |adj| && dst < |adj|
    requires forall v :: 0 <= v < |adj| ==> Answer(c, edges, adj, src, v, links[v])
    ensures route.None? <==> dst == src || TooFar(c, edges, adj, src, dst)
    ensures route.Some? ==> exists p ::
              && Cheapest(c, edges, adj, src, dst, p) && InDpids(adj, switchQueue, p, route.value.dpids)
              && route.value.cost == LinkCost(edges, p)
  {
    var num := 0;
    while num < |links| && links[num][|links[num]| - 1] != dst
      invariant num <= dst
      decreases |links| - num
    {
      assert Answer(c, edges, adj, src, num, links[num]);
      assert Answer(c, edges, adj, src, num + 1, links[num + 1]);
      num := num + 1;
    }
    assert Answer(c, edges, adj, src, num, links[num]);
    var link := links[num];
    if |link| < 2 {
      return None;
    }
    var dpids: seq<Dpid> := [];
    OnTheMap(adj, link);
    for i := 0 to |link|
      invariant |dpids| == i && forall k :: 0 <= k < i ==> dpids[k] == switchQueue[link[k]]
    {
      dpids := dpids + [switchQueue[link[i]]];
    }
    assert InDpids(adj, switchQueue, link, dpids);
    var cost := FindLinkCost(edges, link);
    route := Some(Found(dpids, cost));
  }

  ghost predicate InDpids(adj: Adjacency, switchQueue: seq<Dpid>, p: Path, dpids: seq<Dpid>)
    requires |switchQueue| == |adj|
  {
    |dpids| == |p| && forall k :: 0 <= k < |p| ==> p[k] < |adj| && dpids[k] == switchQueue[p[k]]
  }

  lemma OnTheMap(adj: Adjacency, p: Path)
    requires Closed(adj) && Walk(adj, p)
    ensures forall k :: 0 <= k < |p| ==> p[k] < |adj|
  {
    forall k | 0 <= k < |p|
      ensures p[k] < |adj|
    {
      assert k > 0 ==> Edge(adj, p[k - 1], p[k]);
    }
  }
}
