/**
 * `MGAlgorithm.fitness_evaluate` and `MGAlgorithm.delete_circuit`: the multicast tree a chromosome stands
 * for, and what it costs.
 */
module MulticastTree {
  import opened Walks
  import opened ShortestPaths

  /** An `Edge`: its two ends, its available bandwidth and its cost. */
  datatype Wire = Wire(a: Vertex, b: Vertex, available: real, cost: real)

  /** The edges and, per vertex, the neighbours with the edge to each. */
  datatype Network = Network(edges: seq<Wire>, connectVertex: seq<seq<Vertex>>, connectEdge: seq<seq<nat>>)

  datatype Request = Request(source: Vertex, destinations: seq<Vertex>, minBandwidth: real)

  const ENDLESS := 99999999999.9

  predicate Joining(w: Wire, u: Vertex, v: Vertex) {
    (u == w.a && v == w.b) || (v == w.a && u == w.b)
  }

  /** At most one edge per pair of vertices, no edge from a vertex to itself, costs not negative, and the
      neighbour lists of both ends name the edge. The link table keeps one entry per pair. */
  ghost predicate ValidNetwork(m: Network) {
    && |m.connectVertex| == |m.connectEdge|
    && (forall i :: 0 <= i < |m.edges| ==> ValidWire(m, i))
    && (forall i, j :: 0 <= i < j < |m.edges| ==> !Joining(m.edges[j], m.edges[i].a, m.edges[i].b))
    && (forall u :: 0 <= u < |m.connectVertex| ==> |m.connectVertex[u]| == |m.connectEdge[u]|)
    && (forall u, k :: 0 <= u < |m.connectVertex| && 0 <= k < |m.connectVertex[u]| ==>
          m.connectEdge[u][k] < |m.edges| && Joining(m.edges[m.connectEdge[u][k]], u, m.connectVertex[u][k]))
  }

  ghost predicate ValidWire(m: Network, i: nat)
    requires i < |m.edges| && |m.connectVertex| == |m.connectEdge|
  {
    var w := m.edges[i];
    && w.a < |m.connectVertex| && w.b < |m.connectVertex| && w.a != w.b && w.cost >= 0.0
    && w.b in m.connectVertex[w.a] && w.a in m.connectVertex[w.b]
  }

  ghost predicate ValidRequest(m: Network, r: Request) {
    && r.source < |m.connectVertex|
    && forall i :: 0 <= i < |r.destinations| ==> r.destinations[i] < |m.connectVertex|
  }

  // ---------- the selected subgraph ----------

  function ArcOver(w: Wire, r: Request, head: Vertex): Arc {
    Arc(head, if w.available < r.minBandwidth then ENDLESS else w.cost)
  }

  /** The topology built from the first `k` genes. */
  function Subgraph(m: Network, r: Request, genes: seq<bool>, k: nat): (g: Graph)
    requires ValidNetwork(m) && |genes| == |m.edges| && k <= |genes|
    ensures |g.arcs| == |g.present| == |m.connectVertex|
  {
    if k == 0 then Graph(seq(|m.connectVertex|, i => []), seq(|m.connectVertex|, i => false))
    else
      var g := Subgraph(m, r, genes, k - 1);
      assert ValidWire(m, k - 1);
      if genes[k - 1] then AddWire(m.edges[k - 1], r, g) else g
  }

  function AddWire(w: Wire, r: Request, g: Graph): (h: Graph)
    requires w.a < |g.arcs| == |g.present| && w.b < |g.arcs|
    ensures |h.arcs| == |h.present| == |g.arcs|
  {
    var one := g.arcs[w.a := g.arcs[w.a] + [ArcOver(w, r, w.b)]];
    Graph(one[w.b := one[w.b] + [ArcOver(w, r, w.a)]], g.present[w.a := true][w.b := true])
  }

  /** An arc of the subgraph comes from a selected edge. */
  lemma {:induction false} ArcOrigin(m: Network, r: Request, genes: seq<bool>, k: nat, u: Vertex, x: Arc)
    returns (i: nat)
    requires ValidNetwork(m) && |genes| == |m.edges| && k <= |genes|
    requires u < |m.connectVertex| && x in Subgraph(m, r, genes, k).arcs[u]
    ensures i < k && genes[i] && Joining(m.edges[i], u, x.head) && x == ArcOver(m.edges[i], r, x.head)
    ensures Subgraph(m, r, genes, k).present[u]
    ensures x.head < |m.connectVertex| && Subgraph(m, r, genes, k).present[x.head]
  {
    assert ValidWire(m, k - 1);
    var g := Subgraph(m, r, genes, k - 1);
    if x in g.arcs[u] {
      i := ArcOrigin(m, r, genes, k - 1, u, x);
    } else {
      i := k - 1;
    }
  }

  /** A selected edge gives an arc in either direction. */
  lemma {:induction false} ArcSelected(m: Network, r: Request, genes: seq<bool>, k: nat, i: nat)
    requires ValidNetwork(m) && |genes| == |m.edges| && i < k <= |genes| && genes[i]
    ensures ValidWire(m, i)
    ensures ArcOver(m.edges[i], r, m.edges[i].b) in Subgraph(m, r, genes, k).arcs[m.edges[i].a]
    ensures ArcOver(m.edges[i], r, m.edges[i].a) in Subgraph(m, r, genes, k).arcs[m.edges[i].b]
  {
    assert ValidWire(m, i) && ValidWire(m, k - 1);
    if i < k - 1 {
      ArcSelected(m, r, genes, k - 1, i);
    }
  }

  lemma SubgraphValid(m: Network, r: Request, genes: seq<bool>, k: nat)
    requires ValidNetwork(m) && |genes| == |m.edges| && k <= |genes|
    ensures ValidGraph(Subgraph(m, r, genes, k))
  {
    var g := Subgraph(m, r, genes, k);
    forall u, j | 0 <= u < |g.arcs| && 0 <= j < |g.arcs[u]|
      ensures GoodArc(g, g.arcs[u][j])
    {
      var i := ArcOrigin(m, r, genes, k, u, g.arcs[u][j]);
      assert ValidWire(m, i);
    }
  }

  /** The first loop: the subgraph and `tree_vertexes_quantity`. */
  method Construct(m: Network, r: Request, genes: seq<bool>) returns (g: Graph, quantity: nat)
    requires ValidNetwork(m) && |genes| == |m.edges|
    ensures g == Subgraph(m, r, genes, |genes|) && quantity == |PresentSet(g.present)|
  {
    var arcs: seq<seq<Arc>> := seq(|m.connectVertex|, i => []);
    var present := seq(|m.connectVertex|, i => false);
    quantity := 0;
    assert PresentSet(present) == {};
    for i := 0 to |genes|
      invariant Graph(arcs, present) == Subgraph(m, r, genes, i)
      invariant quantity == |PresentSet(present)|
    {
      if genes[i] {
        assert ValidWire(m, i);
        var w := m.edges[i];
        var cost := if w.available < r.minBandwidth then ENDLESS else w.cost;
        CountNew(present, w.a);
        if !present[w.a] {
          present, quantity := present[w.a := true], quantity + 1;
        }
        arcs := arcs[w.a := arcs[w.a] + [Arc(w.b, cost)]];
        CountNew(present, w.b);
        if !present[w.b] {
          present, quantity := present[w.b := true], quantity + 1;
        }
        arcs := arcs[w.b := arcs[w.b] + [Arc(w.a, cost)]];
      }
    }
    g := Graph(arcs, present);
  }

  lemma CountNew(present: seq<bool>, v: Vertex)
    requires v < |present|
    ensures |PresentSet(present[v := true])| == |PresentSet(present)| + if present[v] then 0 else 1
  {
    assert PresentSet(present[v := true]) == PresentSet(present) + {v};
  }

  // ---------- the tree ----------

  ghost function Predecessors(m: Network, r: Request, genes: seq<bool>): (prev: seq<int>)
    requires ValidNetwork(m) && ValidRequest(m, r) && |genes| == |m.edges|
    requires Subgraph(m, r, genes, |genes|).present[r.source]
    ensures |prev| == |m.connectVertex|
  {
    SubgraphValid(m, r, genes, |genes|);
    Final(Subgraph(m, r, genes, |genes|), r.source, ENDLESS).prev
  }

  /** Whether the chromosome selects a tree at all. */
  ghost predicate HasTree(m: Network, r: Request, genes: seq<bool>)
    requires ValidNetwork(m) && ValidRequest(m, r) && |genes| == |m.edges|
  {
    && Subgraph(m, r, genes, |genes|).present[r.source]
    && forall i :: 0 <= i < |r.destinations| ==> Predecessors(m, r, genes)[r.destinations[i]] != -1
  }

  /** What `delete_circuit` returns: the chain to each destination, or nothing. */
  ghost predicate TreeOf(m: Network, r: Request, genes: seq<bool>, paths: seq<Path>)
    requires ValidNetwork(m) && ValidRequest(m, r) && |genes| == |m.edges|
  {
    if HasTree(m, r, genes) then
      && |paths| == |r.destinations|
      && forall i :: 0 <= i < |paths| ==>
           Chain(Predecessors(m, r, genes), paths[i]) && paths[i][|paths[i]| - 1] == r.destinations[i]
    else paths == []
  }

  lemma TreeUnique(m: Network, r: Request, genes: seq<bool>, p: seq<Path>, q: seq<Path>)
    requires ValidNetwork(m) && ValidRequest(m, r) && |genes| == |m.edges|
    requires TreeOf(m, r, genes, p) && TreeOf(m, r, genes, q)
    ensures p == q
  {
    if HasTree(m, r, genes) {
      forall i | 0 <= i < |p|
        ensures p[i] == q[i]
      {
        ChainUnique(Predecessors(m, r, genes), p[i], q[i]);
      }
    }
  }

  method DeleteCircuit(m: Network, r: Request, genes: seq<bool>) returns (paths: seq<Path>)
    requires ValidNetwork(m) && ValidRequest(m, r) && |genes| == |m.edges|
    ensures TreeOf(m, r, genes, paths)
  {
    var g, quantity := Construct(m, r, genes);
    if !g.present[r.source] {
      return [];
    }
    SubgraphValid(m, r, genes, |genes|);
    var previous, lengths := Settle(g, r.source, ENDLESS, quantity);
    ghost var rank := FinalSolved(g, r.source, ENDLESS);
    paths := [];
    for i := 0 to |r.destinations|
      invariant |paths| == i
      invariant forall k :: 0 <= k < i ==> previous[r.destinations[k]] != -1
      invariant forall k :: 0 <= k < i ==> Chain(previous, paths[k]) && paths[k][|paths[k]| - 1] == r.destinations[k]
    {
      var j := r.destinations[i];
      if previous[j] == -1 {
        return [];
      }
      var path := WalkBack(g, r.source, ENDLESS, previous, j, Final(g, r.source, ENDLESS), rank);
      paths := paths + [path];
    }
  }

  // ---------- what the tree means ----------

  /** A selected edge with enough bandwidth between `u` and `v`. */
  ghost predicate Hop(m: Network, r: Request, genes: seq<bool>, u: Vertex, v: Vertex, i: nat) {
    && i < |m.edges| == |genes| && genes[i]
    && m.edges[i].available >= r.minBandwidth && Joining(m.edges[i], u, v)
  }

  /** A walk over selected edges with enough bandwidth. */
  ghost predicate FeasibleWalk(m: Network, r: Request, genes: seq<bool>, p: Path) {
    && p != [] && p[0] < |m.connectVertex|
    && forall k :: 0 <= k < |p| - 1 ==> Feasible(m, r, genes, p[k], p[k + 1])
  }

  ghost predicate Feasible(m: Network, r: Request, genes: seq<bool>, u: Vertex, v: Vertex) {
    exists i: nat :: Hop(m, r, genes, u, v, i)
  }

  /** The number of the edge between two vertices; there is at most one. */
  ghost function EdgeOf(m: Network, u: Vertex, v: Vertex): (e: nat)
    ensures e < |m.edges| ==> Joining(m.edges[e], u, v)
    ensures e >= |m.edges| ==> forall i :: 0 <= i < |m.edges| ==> !Joining(m.edges[i], u, v)
  {
    if exists i: nat :: i < |m.edges| && Joining(m.edges[i], u, v)
    then var i: nat :| i < |m.edges| && Joining(m.edges[i], u, v); i
    else |m.edges|
  }

  lemma EdgeOfIs(m: Network, u: Vertex, v: Vertex, i: nat)
    requires ValidNetwork(m) && i < |m.edges| && Joining(m.edges[i], u, v)
    ensures EdgeOf(m, u, v) == i
  {
    var e := EdgeOf(m, u, v);
    assert e < i ==> !Joining(m.edges[i], m.edges[e].a, m.edges[e].b);
    assert i < e ==> !Joining(m.edges[e], m.edges[i].a, m.edges[i].b);
  }

  ghost function HopCost(m: Network, u: Vertex, v: Vertex): real {
    if EdgeOf(m, u, v) < |m.edges| then m.edges[EdgeOf(m, u, v)].cost else 0.0
  }

  ghost function WalkCost(m: Network, p: Path): real {
    if |p| < 2 then 0.0 else WalkCost(m, p[..|p| - 1]) + HopCost(m, p[|p| - 2], p[|p| - 1])
  }

  /** What an arc below infinity stands for. */
  ghost predicate ArcMeans(m: Network, r: Request, genes: seq<bool>, u: Vertex, x: Arc) {
    x.cost < ENDLESS ==> Feasible(m, r, genes, u, x.head) && x.cost == HopCost(m, u, x.head)
  }

  /** `g` has the feasible steps as arcs, at the cost of their edges, and otherwise only endless arcs. */
  ghost predicate Represents(m: Network, r: Request, genes: seq<bool>, g: Graph) {
    && ValidGraph(g) && |g.arcs| == |m.connectVertex|
    && (forall u: Vertex, v: Vertex :: Feasible(m, r, genes, u, v) ==>
          u < |g.arcs| && Arc(v, HopCost(m, u, v)) in g.arcs[u])
    && (forall u, x :: 0 <= u < |g.arcs| && x in g.arcs[u] ==> ArcMeans(m, r, genes, u, x))
    && (forall u :: 0 <= u < |g.arcs| && g.arcs[u] != [] ==> g.present[u])
  }

  lemma SubgraphRepresents(m: Network, r: Request, genes: seq<bool>)
    requires ValidNetwork(m) && |genes| == |m.edges|
    ensures Represents(m, r, genes, Subgraph(m, r, genes, |genes|))
  {
    var g := Subgraph(m, r, genes, |genes|);
    SubgraphValid(m, r, genes, |genes|);
    forall u: Vertex, v: Vertex | Feasible(m, r, genes, u, v)
      ensures u < |g.arcs| && Arc(v, HopCost(m, u, v)) in g.arcs[u]
    {
      var i: nat :| Hop(m, r, genes, u, v, i);
      EdgeOfIs(m, u, v, i);
      ArcSelected(m, r, genes, |genes|, i);
    }
    forall u, x | 0 <= u < |g.arcs| && x in g.arcs[u]
      ensures ArcMeans(m, r, genes, u, x) && g.present[u]
    {
      var i := ArcOrigin(m, r, genes, |genes|, u, x);
      EdgeOfIs(m, u, x.head, i);
      assert x.cost < ENDLESS ==> Hop(m, r, genes, u, x.head, i);
    }
    forall u | 0 <= u < |g.arcs| && g.arcs[u] != []
      ensures g.present[u]
    {
      assert g.arcs[u][0] in g.arcs[u];
    }
  }

  /** A feasible walk is a trail of the same cost. */
  lemma {:induction false} FeasibleTrail(m: Network, r: Request, genes: seq<bool>, g: Graph, p: Path)
    returns (t: seq<Arc>)
    requires Represents(m, r, genes, g) && FeasibleWalk(m, r, genes, p)
    ensures Trail(g, p[0], t) && TrailEnd(p[0], t) == p[|p| - 1] && TrailCost(t) == WalkCost(m, p)
  {
    var n := |p| - 1;
    if n == 0 {
      t := [];
    } else {
      var t0 := FeasibleTrail(m, r, genes, g, p[..n]);
      assert Feasible(m, r, genes, p[n - 1], p[n]);
      var x := Arc(p[n], HopCost(m, p[n - 1], p[n]));
      TrailMore(g, p[0], t0, x);
      t := t0 + [x];
    }
  }

  /** A trail below infinity visits a feasible walk of the same cost. */
  lemma {:induction false} TrailFeasible(m: Network, r: Request, genes: seq<bool>, g: Graph, u: Vertex, t: seq<Arc>)
    requires Represents(m, r, genes, g) && Trail(g, u, t)
    ensures TrailCost(t) >= 0.0
    ensures Joins(Visits(u, t), u, TrailEnd(u, t))
    ensures TrailCost(t) < ENDLESS ==>
              FeasibleWalk(m, r, genes, Visits(u, t)) && WalkCost(m, Visits(u, t)) == TrailCost(t)
  {
    if t != [] {
      var n := |t| - 1;
      TrailFeasible(m, r, genes, g, u, t[..n]);
      var x, p0, v := TrailEnd(u, t[..n]), Visits(u, t[..n]), t[n].head;
      var j :| 0 <= j < |g.arcs[x]| && g.arcs[x][j] == t[n];
      assert GoodArc(g, g.arcs[x][j]);
      assert ArcMeans(m, r, genes, x, t[n]);
      if TrailCost(t) < ENDLESS {
        FeasibleMore(m, r, genes, p0, v);
      }
    }
  }

  lemma FeasibleMore(m: Network, r: Request, genes: seq<bool>, p: Path, v: Vertex)
    requires FeasibleWalk(m, r, genes, p) && Feasible(m, r, genes, p[|p| - 1], v)
    ensures FeasibleWalk(m, r, genes, p + [v]) && WalkCost(m, p + [v]) == WalkCost(m, p) + HopCost(m, p[|p| - 1], v)
  {
    var q := p + [v];
    assert q[..|p|] == p;
    forall k | 0 <= k < |q| - 1
      ensures Feasible(m, r, genes, q[k], q[k + 1])
    {
      assert k < |p| - 1 ==> Feasible(m, r, genes, p[k], p[k + 1]);
    }
  }

  /** `p` is a loop-free feasible walk to `d`, and no feasible walk to `d` is cheaper. */
  ghost predicate CheapestFeasible(m: Network, r: Request, genes: seq<bool>, d: Vertex, p: Path) {
    && FeasibleWalk(m, r, genes, p) && Simple(p) && Joins(p, r.source, d) && |p| >= 2
    && WalkCost(m, p) < ENDLESS
    && forall q :: FeasibleWalk(m, r, genes, q) && Joins(q, r.source, d) ==> WalkCost(m, p) <= WalkCost(m, q)
  }

  /** No feasible walk to `d` stays below infinity, or `d` is the source itself. */
  ghost predicate OutOfReach(m: Network, r: Request, genes: seq<bool>, d: Vertex) {
    d == r.source ||
    forall q :: FeasibleWalk(m, r, genes, q) && Joins(q, r.source, d) ==> WalkCost(m, q) >= ENDLESS
  }

  /** A destination has a predecessor exactly if it is within reach, and then its chain is cheapest. */
  lemma DestinationMeaning(m: Network, r: Request, genes: seq<bool>, d: Vertex)
    requires ValidNetwork(m) && ValidRequest(m, r) && |genes| == |m.edges| && d < |m.connectVertex|
    requires Subgraph(m, r, genes, |genes|).present[r.source]
    ensures Predecessors(m, r, genes)[d] == -1 <==> OutOfReach(m, r, genes, d)
    ensures Predecessors(m, r, genes)[d] != -1 ==> forall p ::
              Chain(Predecessors(m, r, genes), p) && p[|p| - 1] == d ==> CheapestFeasible(m, r, genes, d, p)
  {
    var g := Subgraph(m, r, genes, |genes|);
    SubgraphRepresents(m, r, genes);
    var l := Final(g, r.source, ENDLESS);
    var rank := FinalSolved(g, r.source, ENDLESS);
    LabelMeaning(m, r, genes, g, l, rank, d);
  }

  /** The same for any labels that solve the problem on the subgraph. */
  lemma LabelMeaning(m: Network, r: Request, genes: seq<bool>, g: Graph, l: Labels, rank: seq<nat>, d: Vertex)
    requires Represents(m, r, genes, g) && Solved(g, r.source, ENDLESS, l, rank) && d < |g.arcs|
    ensures l.prev[d] == -1 <==> OutOfReach(m, r, genes, d)
    ensures l.prev[d] != -1 ==> forall p :: Chain(l.prev, p) && p[|p| - 1] == d ==> CheapestFeasible(m, r, genes, d, p)
  {
    forall q | FeasibleWalk(m, r, genes, q) && Joins(q, r.source, d)
      ensures l.length[d] <= WalkCost(m, q)
    {
      var t := FeasibleTrail(m, r, genes, g, q);
      NoCheaperTrail(g, r.source, ENDLESS, l, rank, t);
    }
    if d != r.source && l.prev[d] != -1 {
      assert Step(g, ENDLESS, l, rank, d);
      forall p | Chain(l.prev, p) && p[|p| - 1] == d
        ensures CheapestFeasible(m, r, genes, d, p)
      {
        ChainMeaning(m, r, genes, g, l, rank, d, p);
      }
      var p := ChainExists(g, r.source, ENDLESS, l, rank, d);
      assert CheapestFeasible(m, r, genes, d, p);
    } else if d != r.source {
      assert Step(g, ENDLESS, l, rank, d);
    }
  }

  lemma ChainMeaning(m: Network, r: Request, genes: seq<bool>, g: Graph, l: Labels, rank: seq<nat>, d: Vertex, p: Path)
    requires Represents(m, r, genes, g) && Solved(g, r.source, ENDLESS, l, rank)
    requires d < |g.arcs| && d != r.source && l.prev[d] != -1 && Chain(l.prev, p) && p[|p| - 1] == d
    requires forall q :: FeasibleWalk(m, r, genes, q) && Joins(q, r.source, d) ==> l.length[d] <= WalkCost(m, q)
    ensures CheapestFeasible(m, r, genes, d, p)
  {
    ChainEnd(l.prev, p);
    assert Step(g, ENDLESS, l, rank, d);
    ChainRanked(g, r.source, ENDLESS, l, rank, p);
    var t := ChainTrail(g, r.source, ENDLESS, l, rank, p);
    TrailFeasible(m, r, genes, g, r.source, t);
  }

  /** The chromosome selects an edge at `v`. */
  ghost predicate Touches(m: Network, genes: seq<bool>, v: Vertex, k: nat) {
    exists i :: 0 <= i < k && i < |m.edges| && i < |genes| && genes[i] && (m.edges[i].a == v || m.edges[i].b == v)
  }

  lemma {:induction false} PresentMeaning(m: Network, r: Request, genes: seq<bool>, v: Vertex, k: nat)
    requires ValidNetwork(m) && |genes| == |m.edges| && k <= |genes| && v < |m.connectVertex|
    ensures Subgraph(m, r, genes, k).present[v] <==> Touches(m, genes, v, k)
  {
    if k > 0 {
      PresentMeaning(m, r, genes, v, k - 1);
      assert ValidWire(m, k - 1);
      assert Touches(m, genes, v, k) <==>
             Touches(m, genes, v, k - 1) || (genes[k - 1] && (m.edges[k - 1].a == v || m.edges[k - 1].b == v));
    }
  }

  /** A chromosome has a tree exactly if every destination is within reach; without destinations, if it selects an
      edge at the source. */
  lemma HasTreeMeaning(m: Network, r: Request, genes: seq<bool>)
    requires ValidNetwork(m) && ValidRequest(m, r) && |genes| == |m.edges|
    ensures HasTree(m, r, genes) <==>
            && (forall i :: 0 <= i < |r.destinations| ==> !OutOfReach(m, r, genes, r.destinations[i]))
            && (r.destinations == [] ==> Touches(m, genes, r.source, |genes|))
  {
    var g := Subgraph(m, r, genes, |genes|);
    PresentMeaning(m, r, genes, r.source, |genes|);
    if g.present[r.source] {
      forall i | 0 <= i < |r.destinations|
        ensures Predecessors(m, r, genes)[r.destinations[i]] == -1 <==> OutOfReach(m, r, genes, r.destinations[i])
      {
        DestinationMeaning(m, r, genes, r.destinations[i]);
      }
    } else if r.destinations != [] {
      NothingReached(m, r, genes, r.destinations[0]);
    }
  }

  lemma NothingReached(m: Network, r: Request, genes: seq<bool>, d: Vertex)
    requires ValidNetwork(m) && ValidRequest(m, r) && |genes| == |m.edges| && d < |m.connectVertex|
    requires !Subgraph(m, r, genes, |genes|).present[r.source]
    ensures OutOfReach(m, r, genes, d)
  {
    var g := Subgraph(m, r, genes, |genes|);
    forall q | FeasibleWalk(m, r, genes, q) && Joins(q, r.source, d)
      ensures d == r.source
    {
      SubgraphRepresents(m, r, genes);
      var t := FeasibleTrail(m, r, genes, g, q);
      StuckTrail(g, r.source, t);
    }
  }

  /** Without an arc at the source no trail leaves it. */
  lemma {:induction false} StuckTrail(g: Graph, u: Vertex, t: seq<Arc>)
    requires Trail(g, u, t) && g.arcs[u] == []
    ensures t == []
  {
    if t != [] {
      StuckTrail(g, u, t[..|t| - 1]);
    }
  }

  /** `delete_circuit` gives a cheapest feasible path to every destination, and nothing exactly if some
      destination is out of reach. */
  lemma TreeMeaning(m: Network, r: Request, genes: seq<bool>, paths: seq<Path>)
    requires ValidNetwork(m) && ValidRequest(m, r) && |genes| == |m.edges| && TreeOf(m, r, genes, paths)
    ensures paths == [] <==>
            r.destinations == [] || exists i :: 0 <= i < |r.destinations| && OutOfReach(m, r, genes, r.destinations[i])
    ensures paths != [] ==> |paths| == |r.destinations| && forall i :: 0 <= i < |paths| ==>
              CheapestFeasible(m, r, genes, r.destinations[i], paths[i])
  {
    HasTreeMeaning(m, r, genes);
    if HasTree(m, r, genes) {
      forall i | 0 <= i < |paths|
        ensures CheapestFeasible(m, r, genes, r.destinations[i], paths[i])
      {
        DestinationMeaning(m, r, genes, r.destinations[i]);
        assert !OutOfReach(m, r, genes, r.destinations[i]);
      }
    }
  }

  /** Wherever two paths of the tree meet, they have come the same way. */
  ghost predicate TreeShaped(paths: seq<Path>) {
    forall a, b, i, j ::
      (0 <= a < |paths| && 0 <= b < |paths| && 0 <= i < |paths[a]| && 0 <= j < |paths[b]|
       && paths[a][i] == paths[b][j])
      ==> i == j && paths[a][..i] == paths[b][..j]
  }

  lemma PathsFormTree(m: Network, r: Request, genes: seq<bool>, paths: seq<Path>)
    requires ValidNetwork(m) && ValidRequest(m, r) && |genes| == |m.edges| && TreeOf(m, r, genes, paths)
    ensures TreeShaped(paths)
  {
    if HasTree(m, r, genes) {
      var prev := Predecessors(m, r, genes);
      forall a, b, i, j | 0 <= a < |paths| && 0 <= b < |paths| && 0 <= i < |paths[a]| && 0 <= j < |paths[b]|
        && paths[a][i] == paths[b][j]
        ensures i == j && paths[a][..i] == paths[b][..j]
      {
        var p, q := paths[a][..i + 1], paths[b][..j + 1];
        assert Chain(prev, paths[a]) && Chain(prev, paths[b]);
        ChainPrefix(prev, paths[a], i + 1);
        ChainPrefix(prev, paths[b], j + 1);
        ChainUnique(prev, p, q);
        assert paths[a][..i] == p[..i] && paths[b][..j] == q[..j];
      }
    }
  }

  lemma ChainPrefix(prev: seq<int>, p: Path, n: nat)
    requires Chain(prev, p) && 0 < n <= |p|
    ensures Chain(prev, p[..n])
  {
  }

  // ---------- the fitness ----------

  /** The edges along a path. */
  ghost function PathEdges(m: Network, p: Path): set<nat> {
    if |p| < 2 then {} else PathEdges(m, p[1..]) + {EdgeOf(m, p[0], p[1])}
  }

  /** The distinct edges of the paths. */
  ghost function TreeEdges(m: Network, paths: seq<Path>): set<nat> {
    if paths == [] then {}
    else TreeEdges(m, paths[..|paths| - 1]) + PathEdges(m, paths[|paths| - 1])
  }

  /** The cost of a set of edges, each counted once. */
  ghost function CostOf(m: Network, used: set<nat>, k: nat): real
    requires k <= |m.edges|
  {
    if k == 0 then 0.0 else CostOf(m, used, k - 1) + if k - 1 in used then m.edges[k - 1].cost else 0.0
  }

  lemma {:induction false} CostOfMore(m: Network, used: set<nat>, e: nat, k: nat)
    requires k <= |m.edges| && e !in used && e < |m.edges|
    ensures CostOf(m, used + {e}, k) == CostOf(m, used, k) + if e < k then m.edges[e].cost else 0.0
  {
    if k > 0 {
      CostOfMore(m, used, e, k - 1);
    }
  }

  lemma {:induction false} CostOfNothing(m: Network, k: nat)
    requires k <= |m.edges|
    ensures CostOf(m, {}, k) == 0.0
  {
    if k > 0 {
      CostOfNothing(m, k - 1);
    }
  }

  /** `find_edge`, in the neighbour list of the second vertex; -1 exactly for a pair without an edge. */
  method FindEdge(m: Network, v1: Vertex, v2: Vertex) returns (e: int)
    requires ValidNetwork(m) && v2 < |m.connectVertex|
    ensures e == if EdgeOf(m, v2, v1) < |m.edges| then EdgeOf(m, v2, v1) else -1
  {
    for i := 0 to |m.connectVertex[v2]|
      invariant forall k :: 0 <= k < i ==> m.connectVertex[v2][k] != v1
    {
      if m.connectVertex[v2][i] == v1 {
        e := m.connectEdge[v2][i];
        EdgeOfIs(m, v2, v1, e);
        return;
      }
    }
    assert EdgeOf(m, v2, v1) < |m.edges| ==> ValidWire(m, EdgeOf(m, v2, v1));
    e := -1;
  }

  /** The lookup for two vertices of the tree, which always have an edge. */
  method FindTreeEdge(m: Network, v1: Vertex, v2: Vertex) returns (e: nat)
    requires ValidNetwork(m) && EdgeOf(m, v2, v1) < |m.edges|
    ensures e == EdgeOf(m, v2, v1)
  {
    assert ValidWire(m, EdgeOf(m, v2, v1));
    e := FindEdge(m, v1, v2);
  }

  ghost predicate Accounted(m: Network, edges: seq<nat>, fitness: real, used: set<nat>) {
    (forall e :: e in edges <==> e in used) && fitness == CostOf(m, used, |m.edges|)
  }

  /** Walking back from one destination: each edge not met before is paid for. */
  method PayBranch(m: Network, previous: seq<int>, d: Vertex, edges0: seq<nat>, fitness0: real,
                   ghost p: Path, ghost used: set<nat>) returns (edges: seq<nat>, fitness: real)
    requires ValidNetwork(m) && Branch(m, previous, d, p) && Accounted(m, edges0, fitness0, used)
    ensures Accounted(m, edges, fitness, used + PathEdges(m, p))
  {
    edges, fitness := edges0, fitness0;
    var j := d;
    ghost var pos: nat, paid := |p| - 1, used;
    while previous[j] != -1
      invariant pos < |p| && j == p[pos] && paid == used + PathEdges(m, p[pos..])
      invariant Accounted(m, edges, fitness, paid)
      decreases pos
    {
      ChainStep(previous, p, pos);
      EdgesBefore(m, p, pos);
      var e := FindTreeEdge(m, j, previous[j]);
      if e !in edges {
        CostOfMore(m, paid, e, |m.edges|);
        fitness := fitness + m.edges[e].cost;
        edges := edges + [e];
      } else {
        assert paid + {e} == paid;
      }
      paid := paid + {e};
      j := previous[j];
      pos := pos - 1;
    }
    ChainStep(previous, p, pos);
    assert p[0..] == p;
  }

  lemma ChainStep(prev: seq<int>, p: Path, pos: nat)
    requires Chain(prev, p) && pos < |p|
    ensures prev[p[pos]] == -1 <==> pos == 0
    ensures pos > 0 ==> prev[p[pos]] == p[pos - 1]
  {
  }

  lemma EdgesBefore(m: Network, p: Path, pos: nat)
    requires 0 < pos < |p|
    ensures PathEdges(m, p[pos - 1..]) == PathEdges(m, p[pos..]) + {EdgeOf(m, p[pos - 1], p[pos])}
  {
    assert p[pos - 1..][1..] == p[pos..];
  }

  /** The stored fitness: the cost of the distinct edges of the tree `DeleteCircuit` builds, or infinity
      when the chromosome has none. */
  ghost predicate FitnessOf(m: Network, r: Request, genes: seq<bool>, fitness: real)
    requires ValidNetwork(m) && ValidRequest(m, r) && |genes| == |m.edges|
  {
    forall paths :: TreeOf(m, r, genes, paths) ==>
      fitness == if HasTree(m, r, genes) then CostOf(m, TreeEdges(m, paths), |m.edges|) else ENDLESS
  }

  method FitnessEvaluate(m: Network, r: Request, genes: seq<bool>) returns (fitness: real)
    requires ValidNetwork(m) && ValidRequest(m, r) && |genes| == |m.edges|
    ensures FitnessOf(m, r, genes, fitness)
  {
    var g, quantity := Construct(m, r, genes);
    if !g.present[r.source] {
      return ENDLESS;
    }
    SubgraphValid(m, r, genes, |genes|);
    var previous, lengths := Settle(g, r.source, ENDLESS, quantity);
    forall i | 0 <= i < |r.destinations| && previous[r.destinations[i]] != -1
      ensures exists p :: Branch(m, previous, r.destinations[i], p)
    {
      var p := BranchTo(m, r, genes, r.destinations[i]);
    }
    ghost var paths, complete;
    fitness, paths, complete := PayTree(m, previous, r.destinations);
    if complete {
      TreePaid(m, r, genes, paths, fitness);
    }
  }

  lemma TreePaid(m: Network, r: Request, genes: seq<bool>, paths: seq<Path>, fitness: real)
    requires ValidNetwork(m) && ValidRequest(m, r) && |genes| == |m.edges|
    requires TreeOf(m, r, genes, paths) && HasTree(m, r, genes) && fitness == CostOf(m, TreeEdges(m, paths), |m.edges|)
    ensures FitnessOf(m, r, genes, fitness)
  {
    forall q | TreeOf(m, r, genes, q)
      ensures q == paths
    {
      TreeUnique(m, r, genes, paths, q);
    }
  }

  /** The chain to `d`, with an edge at every step. */
  ghost predicate Branch(m: Network, previous: seq<int>, d: Vertex, p: Path) {
    && Chain(previous, p) && p[|p| - 1] == d
    && forall k :: 0 <= k < |p| - 1 ==> EdgeOf(m, p[k], p[k + 1]) < |m.edges|
  }

  lemma BranchTo(m: Network, r: Request, genes: seq<bool>, d: Vertex) returns (p: Path)
    requires ValidNetwork(m) && ValidRequest(m, r) && |genes| == |m.edges| && d < |m.connectVertex|
    requires Subgraph(m, r, genes, |genes|).present[r.source] && Predecessors(m, r, genes)[d] != -1
    ensures Branch(m, Predecessors(m, r, genes), d, p)
  {
    var g := Subgraph(m, r, genes, |genes|);
    SubgraphValid(m, r, genes, |genes|);
    var rank := FinalSolved(g, r.source, ENDLESS);
    p := ChainExists(g, r.source, ENDLESS, Final(g, r.source, ENDLESS), rank, d);
    DestinationMeaning(m, r, genes, d);
    EdgesExist(m, r, genes, p);
  }

  lemma EdgesExist(m: Network, r: Request, genes: seq<bool>, p: Path)
    requires FeasibleWalk(m, r, genes, p)
    ensures forall k :: 0 <= k < |p| - 1 ==> EdgeOf(m, p[k], p[k + 1]) < |m.edges|
  {
    forall k | 0 <= k < |p| - 1
      ensures EdgeOf(m, p[k], p[k + 1]) < |m.edges|
    {
      assert Feasible(m, r, genes, p[k], p[k + 1]);
    }
  }

  /** The loop over the destinations; it gives up at the first one without a predecessor. */
  method PayTree(m: Network, previous: seq<int>, destinations: seq<Vertex>)
    returns (fitness: real, ghost paths: seq<Path>, ghost complete: bool)
    requires ValidNetwork(m)
    requires forall i :: 0 <= i < |destinations| ==> destinations[i] < |previous|
    requires forall i :: 0 <= i < |destinations| && previous[destinations[i]] != -1 ==>
               exists p :: Branch(m, previous, destinations[i], p)
    ensures !complete ==> fitness == ENDLESS && exists i :: 0 <= i < |destinations| && previous[destinations[i]] == -1
    ensures complete ==> |paths| == |destinations| && fitness == CostOf(m, TreeEdges(m, paths), |m.edges|)
    ensures complete ==> forall i :: 0 <= i < |paths| ==>
              previous[destinations[i]] != -1 && Branch(m, previous, destinations[i], paths[i])
  {
    var edges: seq<nat> := [];
    fitness, paths, complete := 0.0, [], true;
    CostOfNothing(m, |m.edges|);
    for i := 0 to |destinations|
      invariant |paths| == i && Accounted(m, edges, fitness, TreeEdges(m, paths))
      invariant forall k :: 0 <= k < i ==>
        previous[destinations[k]] != -1 && Branch(m, previous, destinations[k], paths[k])
    {
      var j := destinations[i];
      if previous[j] == -1 {
        return ENDLESS, paths, false;
      }
      ghost var p :| Branch(m, previous, j, p);
      edges, fitness := PayBranch(m, previous, j, edges, fitness, p, TreeEdges(m, paths));
      assert (paths + [p])[..i] == paths;
      paths := paths + [p];
    }
  }

  lemma {:induction false} BranchesTo(m: Network, r: Request, genes: seq<bool>, n: nat) returns (paths: seq<Path>)
    requires ValidNetwork(m) && ValidRequest(m, r) && |genes| == |m.edges| && HasTree(m, r, genes)
    requires n <= |r.destinations|
    ensures |paths| == n && forall i :: 0 <= i < n ==>
              Chain(Predecessors(m, r, genes), paths[i]) && paths[i][|paths[i]| - 1] == r.destinations[i]
  {
    paths := [];
    if n > 0 {
      var init := BranchesTo(m, r, genes, n - 1);
      var p := BranchTo(m, r, genes, r.destinations[n - 1]);
      paths := init + [p];
    }
  }

  /** A chromosome has only one fitness. */
  lemma FitnessUnique(m: Network, r: Request, genes: seq<bool>, f: real, f': real)
    requires ValidNetwork(m) && ValidRequest(m, r) && |genes| == |m.edges|
    requires FitnessOf(m, r, genes, f) && FitnessOf(m, r, genes, f')
    ensures f == f'
  {
    var paths: seq<Path> := [];
    if HasTree(m, r, genes) {
      paths := BranchesTo(m, r, genes, |r.destinations|);
    }
    assert TreeOf(m, r, genes, paths);
  }

  // ---------- what the sentinel means ----------

  /** Infinity is stored exactly when `DeleteCircuit` returns nothing, except for a tree that happens to cost just
      that much, and except for an edge at the source of a request without destinations. */
  lemma SentinelExactly(m: Network, r: Request, genes: seq<bool>, paths: seq<Path>, fitness: real)
    requires ValidNetwork(m) && ValidRequest(m, r) && |genes| == |m.edges|
    requires TreeOf(m, r, genes, paths) && FitnessOf(m, r, genes, fitness)
    ensures (fitness == ENDLESS <==> paths == []) <==>
            if r.destinations == [] then !Touches(m, genes, r.source, |genes|)
            else CostOf(m, TreeEdges(m, paths), |m.edges|) != ENDLESS
  {
    HasTreeMeaning(m, r, genes);
    CostOfNothing(m, |m.edges|);
  }

  /** Without destinations nothing is returned, and zero is stored once an edge at the source is selected. */
  lemma NoDestinations(m: Network, r: Request, genes: seq<bool>)
    requires ValidNetwork(m) && ValidRequest(m, r) && |genes| == |m.edges| && r.destinations == []
    requires Touches(m, genes, r.source, |genes|)
    ensures TreeOf(m, r, genes, []) && FitnessOf(m, r, genes, 0.0)
  {
    HasTreeMeaning(m, r, genes);
    CostOfNothing(m, |m.edges|);
    assert forall paths :: TreeOf(m, r, genes, paths) ==> paths == [];
  }

  /** The cost of the first `k` edges of the network. */
  ghost function TotalCost(m: Network, k: nat): real
    requires k <= |m.edges|
  {
    if k == 0 then 0.0 else TotalCost(m, k - 1) + m.edges[k - 1].cost
  }

  lemma {:induction false} CostOfPart(m: Network, used: set<nat>, k: nat)
    requires ValidNetwork(m) && k <= |m.edges|
    ensures CostOf(m, used, k) <= TotalCost(m, k)
  {
    if k > 0 {
      assert ValidWire(m, k - 1);
      CostOfPart(m, used, k - 1);
    }
  }

  /** In a network that costs less than infinity as a whole, the sentinel means "no tree" for every request with a
      destination and every chromosome, and every tree has a fitness below it. */
  lemma SentinelSafe(m: Network, r: Request, genes: seq<bool>, paths: seq<Path>, fitness: real)
    requires ValidNetwork(m) && ValidRequest(m, r) && |genes| == |m.edges| && r.destinations != []
    requires TreeOf(m, r, genes, paths) && FitnessOf(m, r, genes, fitness) && TotalCost(m, |m.edges|) < ENDLESS
    ensures fitness == ENDLESS <==> paths == []
    ensures fitness < ENDLESS <==> paths != []
  {
    CostOfPart(m, TreeEdges(m, paths), |m.edges|);
    SentinelExactly(m, r, genes, paths, fitness);
  }

  /** Two edges at vertex 0 that cost the sentinel together. */
  const DEAR_WIRES := [Wire(0, 1, 1.0, 50000000000.0), Wire(0, 2, 1.0, 49999999999.9)]

  lemma DearValid(m: Network, r: Request)
    requires m == Network(DEAR_WIRES, [[1, 2], [0], [0]], [[0, 1], [0], [1]]) && r == Request(0, [1, 2], 1.0)
    ensures ValidNetwork(m) && ValidRequest(m, r) && Star(m, r, [true, true])
  {
  }

  /** A tree over both of them, to a destination behind each, exists and looks like none. */
  lemma TreeAtSentinel(m: Network, r: Request, paths: seq<Path>, fitness: real)
    requires m == Network(DEAR_WIRES, [[1, 2], [0], [0]], [[0, 1], [0], [1]]) && r == Request(0, [1, 2], 1.0)
    ensures ValidNetwork(m) && ValidRequest(m, r)
    ensures TreeOf(m, r, [true, true], paths) && FitnessOf(m, r, [true, true], fitness) ==>
              paths != [] && fitness == ENDLESS
  {
    DearValid(m, r);
    if TreeOf(m, r, [true, true], paths) && FitnessOf(m, r, [true, true], fitness) {
      TwoBranches(m, r, [true, true], paths, fitness);
    }
  }

  /** Both edges of a star with two are paid for. */
  lemma TwoBranches(m: Network, r: Request, genes: seq<bool>, paths: seq<Path>, fitness: real)
    requires ValidNetwork(m) && ValidRequest(m, r) && |genes| == |m.edges| == 2 && Star(m, r, genes)
    requires TreeOf(m, r, genes, paths) && FitnessOf(m, r, genes, fitness)
    ensures paths != [] && fitness == m.edges[0].cost + m.edges[1].cost
  {
    StarHasTree(m, r, genes, paths);
    assert Ray(m, r, genes, 0) && Ray(m, r, genes, 1);
    LeafPaid(m, r, genes, paths, 0, 0);
    LeafPaid(m, r, genes, paths, 1, 1);
    CostOfTwo(m, TreeEdges(m, paths));
  }

  lemma CostOfTwo(m: Network, used: set<nat>)
    requires |m.edges| == 2 && 0 in used && 1 in used
    ensures CostOf(m, used, 2) == m.edges[0].cost + m.edges[1].cost
  {
    assert CostOf(m, used, 1) == CostOf(m, used, 0) + m.edges[0].cost;
  }

  /** Nothing but edge `i` ends at its second vertex. */
  ghost predicate Leaf(m: Network, i: nat) {
    i < |m.edges| &&
    forall j :: 0 <= j < |m.edges| && j != i ==> m.edges[j].a != m.edges[i].b && m.edges[j].b != m.edges[i].b
  }

  /** Every edge is selected and leads from the source to a destination with no other edge. */
  ghost predicate Star(m: Network, r: Request, genes: seq<bool>) {
    |r.destinations| == |m.edges| > 0 && forall i :: 0 <= i < |m.edges| ==> Ray(m, r, genes, i)
  }

  ghost predicate Ray(m: Network, r: Request, genes: seq<bool>, i: nat)
    requires i < |r.destinations| == |m.edges|
  {
    && Hop(m, r, genes, r.source, r.destinations[i], i) && m.edges[i].cost < ENDLESS
    && Leaf(m, i) && m.edges[i].b == r.destinations[i]
  }

  lemma StarHasTree(m: Network, r: Request, genes: seq<bool>, paths: seq<Path>)
    requires ValidNetwork(m) && ValidRequest(m, r) && |genes| == |m.edges| && TreeOf(m, r, genes, paths)
    requires Star(m, r, genes)
    ensures paths != []
  {
    forall i | 0 <= i < |r.destinations|
      ensures !OutOfReach(m, r, genes, r.destinations[i])
    {
      assert ValidWire(m, i) && Ray(m, r, genes, i);
      OneHop(m, r, genes, i, r.destinations[i]);
    }
    HasTreeMeaning(m, r, genes);
  }

  /** A tree with a leaf among its destinations uses the leaf's edge. */
  lemma LeafPaid(m: Network, r: Request, genes: seq<bool>, paths: seq<Path>, i: nat, j: nat)
    requires ValidNetwork(m) && ValidRequest(m, r) && |genes| == |m.edges| && TreeOf(m, r, genes, paths)
    requires paths != [] && j < |r.destinations| && Leaf(m, i) && r.destinations[j] == m.edges[i].b
    ensures i in TreeEdges(m, paths)
  {
    TreeMeaning(m, r, genes, paths);
    BranchUses(m, r, genes, i, paths[j]);
    TreeUses(m, paths, j, i);
  }

  lemma {:induction false} TreeUses(m: Network, paths: seq<Path>, j: nat, e: nat)
    requires j < |paths| && e in PathEdges(m, paths[j])
    ensures e in TreeEdges(m, paths)
  {
    if j < |paths| - 1 {
      TreeUses(m, paths[..|paths| - 1], j, e);
    }
  }

  /** A path to a leaf ends with the leaf's edge. */
  lemma BranchUses(m: Network, r: Request, genes: seq<bool>, i: nat, p: Path)
    requires ValidNetwork(m) && Leaf(m, i) && CheapestFeasible(m, r, genes, m.edges[i].b, p)
    ensures i in PathEdges(m, p)
  {
    assert Feasible(m, r, genes, p[|p| - 2], p[|p| - 1]);
    LastEdge(m, p);
  }

  /** The far end of a selected edge at the source is within reach. */
  lemma OneHop(m: Network, r: Request, genes: seq<bool>, i: nat, d: Vertex)
    requires ValidNetwork(m) && ValidRequest(m, r) && |genes| == |m.edges| && d != r.source
    requires Hop(m, r, genes, r.source, d, i) && m.edges[i].cost < ENDLESS
    ensures !OutOfReach(m, r, genes, d)
  {
    var p := [r.source, d];
    EdgeOfIs(m, r.source, d, i);
    assert FeasibleWalk(m, r, genes, p) && Joins(p, r.source, d);
    assert p[..1] == [r.source];
    assert WalkCost(m, p[..1]) == 0.0;
    assert WalkCost(m, p) == m.edges[i].cost;
  }

  lemma {:induction false} LastEdge(m: Network, p: Path)
    requires |p| >= 2
    ensures EdgeOf(m, p[|p| - 2], p[|p| - 1]) in PathEdges(m, p)
  {
    if |p| > 2 {
      LastEdge(m, p[1..]);
    }
  }
}
