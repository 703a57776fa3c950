/**
 * The array form of Dijkstra's algorithm with a finite "infinity" that the source writes out three times:
 * in `Dijkstra.calculate` and, on the subgraph a chromosome selects, in `MGAlgorithm.fitness_evaluate` and
 * `MGAlgorithm.delete_circuit`.
 */
module ShortestPaths {
  import opened Walks

  /** One entry of a neighbour list, with what the edge costs. */
  datatype Arc = Arc(head: Vertex, cost: real)

  /** Neighbour lists; only vertices that are `present` take part. */
  datatype Graph = Graph(arcs: seq<seq<Arc>>, present: seq<bool>)

  ghost predicate ValidGraph(g: Graph) {
    && |g.present| == |g.arcs|
    && forall u, i :: 0 <= u < |g.arcs| && 0 <= i < |g.arcs[u]| ==> GoodArc(g, g.arcs[u][i])
  }

  ghost predicate GoodArc(g: Graph, a: Arc) {
    a.head < |g.arcs| == |g.present| && g.present[a.head] && a.cost >= 0.0
  }

  // ---------- trails ----------

  /** Following `t` from `u`, arc by arc. */
  ghost predicate Trail(g: Graph, u: Vertex, t: seq<Arc>)
    decreases |t|
  {
    u < |g.arcs| && (t != [] ==>
      var n := |t| - 1;
      Trail(g, u, t[..n]) && TrailEnd(u, t[..n]) < |g.arcs| && t[n] in g.arcs[TrailEnd(u, t[..n])])
  }

  ghost function TrailEnd(u: Vertex, t: seq<Arc>): Vertex {
    if t == [] then u else t[|t| - 1].head
  }

  ghost function TrailCost(t: seq<Arc>): real {
    if t == [] then 0.0 else TrailCost(t[..|t| - 1]) + t[|t| - 1].cost
  }

  /** The vertices a trail visits. */
  ghost function Visits(u: Vertex, t: seq<Arc>): Path {
    if t == [] then [u] else Visits(u, t[..|t| - 1]) + [t[|t| - 1].head]
  }

  /** A trail goes on along any arc out of its end. */
  lemma TrailMore(g: Graph, u: Vertex, t: seq<Arc>, a: Arc)
    requires Trail(g, u, t) && TrailEnd(u, t) < |g.arcs| && a in g.arcs[TrailEnd(u, t)]
    ensures Trail(g, u, t + [a]) && TrailEnd(u, t + [a]) == a.head
    ensures TrailCost(t + [a]) == TrailCost(t) + a.cost
    ensures Visits(u, t + [a]) == Visits(u, t) + [a.head]
  {
    assert (t + [a])[..|t|] == t;
  }

  // ---------- the labels and how a round changes them ----------

  /** `tag`, `previous_vertex` and `paths_length`. */
  datatype Labels = Labels(tag: seq<bool>, prev: seq<int>, length: seq<real>)

  /** The labels and `vertex_selected`. */
  datatype Progress = Progress(labels: Labels, selected: Vertex)

  ghost predicate Sized(l: Labels, n: nat) {
    |l.tag| == n && |l.prev| == n && |l.length| == n
  }

  function Initial(n: nat, src: Vertex, inf: real): Progress
    requires src < n
  {
    Progress(Labels(seq(n, i => i == src), seq(n, i => -1), seq(n, i => if i == src then 0.0 else inf)), src)
  }

  /** The labels after the first `k` arcs of `u` have been relaxed. */
  function Relax(g: Graph, l: Labels, u: Vertex, k: nat): (m: Labels)
    requires ValidGraph(g) && Sized(l, |g.arcs|) && u < |g.arcs| && k <= |g.arcs[u]|
    ensures Sized(m, |g.arcs|) && m.tag == l.tag
  {
    if k == 0 then l
    else
      var m := Relax(g, l, u, k - 1);
      var a := g.arcs[u][k - 1];
      assert GoodArc(g, a);
      if !m.tag[a.head] && m.length[u] + a.cost < m.length[a.head] then
        Labels(m.tag, m.prev[a.head := u], m.length[a.head := m.length[u] + a.cost])
      else m
  }

  predicate Open(g: Graph, l: Labels, j: int)
    requires Sized(l, |g.arcs|) && |g.present| == |g.arcs|
  {
    0 <= j < |g.arcs| && g.present[j] && !l.tag[j]
  }

  /** The first open vertex of least length among the first `k`, or -1. */
  function Best(g: Graph, l: Labels, k: nat): (b: int)
    requires Sized(l, |g.arcs|) && |g.present| == |g.arcs| && k <= |g.arcs|
    ensures b == -1 || (0 <= b < k && Open(g, l, b))
    ensures forall j :: 0 <= j < k && Open(g, l, j) ==> b != -1 && l.length[b] <= l.length[j]
    ensures forall j :: 0 <= j < b && Open(g, l, j) ==> l.length[b] < l.length[j]
  {
    if k == 0 then -1
    else
      var b := Best(g, l, k - 1);
      if Open(g, l, k - 1) && (b == -1 || l.length[k - 1] < l.length[b]) then k - 1 else b
  }

  /** One round: relax the selected vertex, then select and tag the best open one. */
  function Round(g: Graph, s: Progress): (r: Progress)
    requires ValidGraph(g) && Sized(s.labels, |g.arcs|) && s.selected < |g.arcs|
    ensures Sized(r.labels, |g.arcs|) && r.selected < |g.arcs|
  {
    var l := Relax(g, s.labels, s.selected, |g.arcs[s.selected]|);
    var b := Best(g, l, |g.arcs|);
    if b == -1 then Progress(l, s.selected)
    else Progress(l.(tag := l.tag[b := true]), b)
  }

  function Rounds(g: Graph, src: Vertex, inf: real, k: nat): (r: Progress)
    requires ValidGraph(g) && src < |g.arcs|
    ensures Sized(r.labels, |g.arcs|) && r.selected < |g.arcs|
  {
    if k == 0 then Initial(|g.arcs|, src, inf) else Round(g, Rounds(g, src, inf, k - 1))
  }

  ghost function PresentSet(present: seq<bool>): set<Vertex> {
    set v: Vertex | v < |present| && present[v]
  }

  /** The labels at the end: one round fewer than there are vertices. */
  ghost function Final(g: Graph, src: Vertex, inf: real): (l: Labels)
    requires ValidGraph(g) && src < |g.arcs| && g.present[src]
    ensures Sized(l, |g.arcs|)
  {
    assert src in PresentSet(g.present);
    Rounds(g, src, inf, |PresentSet(g.present)| - 1).labels
  }

  // ---------- what relaxing does ----------

  /** `m` at `v` is either `l` at `v`, or a strict improvement along the arc `i` out of `u`. */
  ghost predicate Improved(g: Graph, l: Labels, m: Labels, u: Vertex, v: Vertex, i: nat)
    requires Sized(l, |g.arcs|) && Sized(m, |g.arcs|) && u < |g.arcs| && v < |g.arcs|
  {
    && i < |g.arcs[u]| && g.arcs[u][i].head == v
    && !l.tag[v] && m.prev[v] == u && m.length[v] == l.length[u] + g.arcs[u][i].cost < l.length[v]
  }

  ghost predicate SameAt(l: Labels, m: Labels, n: nat, v: Vertex)
    requires Sized(l, n) && Sized(m, n) && v < n
  {
    m.prev[v] == l.prev[v] && m.length[v] == l.length[v]
  }

  /** Relaxing leaves a vertex alone or improves it along one of the arcs. */
  lemma {:induction false} RelaxAt(g: Graph, l: Labels, u: Vertex, k: nat, v: Vertex)
    requires ValidGraph(g) && Sized(l, |g.arcs|) && u < |g.arcs| && k <= |g.arcs[u]| && l.tag[u] && v < |g.arcs|
    ensures var m := Relax(g, l, u, k);
      SameAt(l, m, |g.arcs|, v) || exists i: nat :: i < k && Improved(g, l, m, u, v, i)
  {
    if k > 0 {
      RelaxAt(g, l, u, k - 1, v);
      RelaxAt(g, l, u, k - 1, u);
      var m0, m, a := Relax(g, l, u, k - 1), Relax(g, l, u, k), g.arcs[u][k - 1];
      assert GoodArc(g, a);
      assert SameAt(l, m0, |g.arcs|, u) && m0.length[v] <= l.length[v];
      if v == a.head && !m0.tag[v] && m0.length[u] + a.cost < m0.length[v] {
        assert Improved(g, l, m, u, v, k - 1);
      } else {
        assert SameAt(m0, m, |g.arcs|, v);
        if !SameAt(l, m0, |g.arcs|, v) {
          var i: nat :| i < k - 1 && Improved(g, l, m0, u, v, i);
          assert Improved(g, l, m, u, v, i);
        }
      }
    }
  }

  /** Lengths only go down, and tagged vertices keep their labels. */
  lemma RelaxLowers(g: Graph, l: Labels, u: Vertex, k: nat, v: Vertex)
    requires ValidGraph(g) && Sized(l, |g.arcs|) && u < |g.arcs| && k <= |g.arcs[u]| && l.tag[u] && v < |g.arcs|
    ensures Relax(g, l, u, k).length[v] <= l.length[v]
    ensures l.tag[v] ==> SameAt(l, Relax(g, l, u, k), |g.arcs|, v)
  {
    RelaxAt(g, l, u, k, v);
  }

  /** No open head stays further away than through `u`. */
  lemma {:induction false} RelaxBound(g: Graph, l: Labels, u: Vertex, k: nat, i: nat)
    requires ValidGraph(g) && Sized(l, |g.arcs|) && u < |g.arcs| && i < k <= |g.arcs[u]| && l.tag[u]
    ensures GoodArc(g, g.arcs[u][i])
    ensures !l.tag[g.arcs[u][i].head] ==>
              Relax(g, l, u, k).length[g.arcs[u][i].head] <= l.length[u] + g.arcs[u][i].cost
  {
    var a := g.arcs[u][i];
    assert GoodArc(g, a) && GoodArc(g, g.arcs[u][k - 1]);
    RelaxLowers(g, l, u, k - 1, u);
    if i < k - 1 {
      RelaxBound(g, l, u, k - 1, i);
    }
  }

  // ---------- the invariant of the rounds ----------

  /** `order` lists the tagged vertices in the order they were selected. */
  ghost predicate Selected(g: Graph, src: Vertex, s: Progress, order: seq<Vertex>) {
    && Sized(s.labels, |g.arcs|) && |g.present| == |g.arcs|
    && order != [] && order[0] == src && order[|order| - 1] == s.selected
    && (forall i :: 0 <= i < |order| ==> order[i] < |g.arcs| && g.present[order[i]] && s.labels.tag[order[i]])
    && NoRepeats(order)
    && (forall v :: 0 <= v < |g.arcs| && s.labels.tag[v] ==> v in order)
  }

  /** Lengths do not decrease along the selection, and no open vertex is closer than a selected one. */
  ghost predicate Monotone(g: Graph, l: Labels, order: seq<Vertex>)
    requires Sized(l, |g.arcs|) && |g.present| == |g.arcs|
    requires forall i :: 0 <= i < |order| ==> order[i] < |g.arcs|
  {
    && (forall i, j :: 0 <= i < j < |order| ==> l.length[order[i]] <= l.length[order[j]])
    && (forall i, v :: 0 <= i < |order| && Open(g, l, v) ==> l.length[order[i]] <= l.length[v])
  }

  /** The arcs out of every selected vertex but the last one have been relaxed. */
  ghost predicate Relaxed(g: Graph, l: Labels, order: seq<Vertex>, n: nat)
    requires ValidGraph(g) && Sized(l, |g.arcs|) && n <= |order|
    requires forall i :: 0 <= i < |order| ==> order[i] < |g.arcs|
  {
    forall i, k :: 0 <= i < n && 0 <= k < |g.arcs[order[i]]| ==> Tight(g, l, order[i], k)
  }

  ghost predicate Tight(g: Graph, l: Labels, u: Vertex, k: nat)
    requires Sized(l, |g.arcs|) && u < |g.arcs| && k < |g.arcs[u]|
  {
    var a := g.arcs[u][k];
    a.head < |g.arcs| && l.length[a.head] <= l.length[u] + a.cost
  }

  /** The predecessor label of `v` and its length: none and infinity, or an arc from a selected vertex. */
  ghost predicate Labelled(g: Graph, src: Vertex, inf: real, l: Labels, order: seq<Vertex>, v: Vertex)
    requires Sized(l, |g.arcs|) && v < |g.arcs|
  {
    if v == src then l.prev[v] == -1 && l.length[v] == 0.0
    else if l.prev[v] == -1 then l.length[v] == inf
    else exists i: nat, k: nat :: FromArc(g, inf, l, order, v, i, k)
  }

  ghost predicate FromArc(g: Graph, inf: real, l: Labels, order: seq<Vertex>, v: Vertex, i: nat, k: nat)
    requires Sized(l, |g.arcs|) && v < |g.arcs|
  {
    && i < |order| - 1 && order[i] < |g.arcs| && l.prev[v] == order[i]
    && k < |g.arcs[order[i]]| && g.arcs[order[i]][k].head == v
    && l.length[v] == l.length[order[i]] + g.arcs[order[i]][k].cost < inf
    && (forall j :: 0 <= j < |order| && order[j] == v ==> i < j)
  }

  ghost predicate Invariant(g: Graph, src: Vertex, inf: real, s: Progress, order: seq<Vertex>) {
    && ValidGraph(g) && Selected(g, src, s, order)
    && Monotone(g, s.labels, order)
    && Relaxed(g, s.labels, order, |order| - 1)
    && forall v :: 0 <= v < |g.arcs| ==> Labelled(g, src, inf, s.labels, order, v)
  }

  lemma InitialInvariant(g: Graph, src: Vertex, inf: real)
    requires ValidGraph(g) && src < |g.arcs| && g.present[src] && inf > 0.0
    ensures Invariant(g, src, inf, Initial(|g.arcs|, src, inf), [src])
  {
  }

  /** What a round does when there is still an open vertex. */
  ghost predicate Advances(g: Graph, s: Progress, l1: Labels, b: Vertex, r: Progress)
    requires ValidGraph(g) && Sized(s.labels, |g.arcs|) && s.selected < |g.arcs|
  {
    && l1 == Relax(g, s.labels, s.selected, |g.arcs[s.selected]|)
    && b == Best(g, l1, |g.arcs|)
    && r == Progress(l1.(tag := l1.tag[b := true]), b)
  }

  lemma RoundSelected(g: Graph, src: Vertex, s: Progress, order: seq<Vertex>, l1: Labels, b: Vertex, r: Progress)
    requires ValidGraph(g) && Selected(g, src, s, order) && Advances(g, s, l1, b, r)
    ensures Selected(g, src, r, order + [b])
  {
    assert b !in order;
    forall v | 0 <= v < |g.arcs| && r.labels.tag[v]
      ensures v in order + [b]
    {
      assert v != b ==> v in order;
    }
  }

  /** After relaxing, an open vertex is still no closer than any selected one. */
  lemma RelaxAbove(g: Graph, src: Vertex, s: Progress, order: seq<Vertex>, l1: Labels, i: nat, v: Vertex)
    requires ValidGraph(g) && Selected(g, src, s, order) && Monotone(g, s.labels, order)
    requires l1 == Relax(g, s.labels, s.selected, |g.arcs[s.selected]|)
    requires i < |order| && Open(g, l1, v)
    ensures l1.length[order[i]] <= l1.length[v]
  {
    var l, u, n := s.labels, s.selected, |g.arcs[s.selected]|;
    RelaxLowers(g, l, u, n, order[i]);
    RelaxAt(g, l, u, n, v);
    assert Open(g, l, v);
    if !SameAt(l, l1, |g.arcs|, v) {
      var k: nat :| k < n && Improved(g, l, l1, u, v, k);
      assert GoodArc(g, g.arcs[u][k]);
      assert l.length[order[i]] <= l.length[order[|order| - 1]];
    }
  }

  lemma RoundMonotone(g: Graph, src: Vertex, s: Progress, order: seq<Vertex>, l1: Labels, b: Vertex, r: Progress)
    requires ValidGraph(g) && Selected(g, src, s, order) && Advances(g, s, l1, b, r)
    requires Monotone(g, s.labels, order)
    ensures forall i :: 0 <= i < |order + [b]| ==> (order + [b])[i] < |g.arcs|
    ensures Monotone(g, r.labels, order + [b])
  {
    var o, n := order + [b], |g.arcs[s.selected]|;
    forall i, j | 0 <= i < j < |o|
      ensures r.labels.length[o[i]] <= r.labels.length[o[j]]
    {
      RelaxLowers(g, s.labels, s.selected, n, o[i]);
      if j < |order| {
        RelaxLowers(g, s.labels, s.selected, n, o[j]);
      } else {
        RelaxAbove(g, src, s, order, l1, i, b);
      }
    }
    forall i, v | 0 <= i < |o| && Open(g, r.labels, v)
      ensures r.labels.length[o[i]] <= r.labels.length[v]
    {
      assert Open(g, l1, v);
      if i < |order| {
        RelaxAbove(g, src, s, order, l1, i, v);
      }
    }
  }

  lemma RoundRelaxed(g: Graph, src: Vertex, s: Progress, order: seq<Vertex>, l1: Labels, b: Vertex, r: Progress)
    requires ValidGraph(g) && Selected(g, src, s, order) && Advances(g, s, l1, b, r)
    requires Monotone(g, s.labels, order) && Relaxed(g, s.labels, order, |order| - 1)
    requires forall i :: 0 <= i < |order + [b]| ==> (order + [b])[i] < |g.arcs|
    ensures Relaxed(g, r.labels, order + [b], |order|)
  {
    var o, u, n := order + [b], s.selected, |g.arcs[s.selected]|;
    forall i, k | 0 <= i < |order| && 0 <= k < |g.arcs[o[i]]|
      ensures Tight(g, r.labels, o[i], k)
    {
      var a := g.arcs[o[i]][k];
      assert GoodArc(g, a);
      RelaxLowers(g, s.labels, u, n, o[i]);
      RelaxLowers(g, s.labels, u, n, a.head);
      if i < |order| - 1 {
        assert Tight(g, s.labels, order[i], k);
      } else if s.labels.tag[a.head] {
        var j :| 0 <= j < |order| && order[j] == a.head;
        assert s.labels.length[order[j]] <= s.labels.length[order[|order| - 1]];
      } else {
        RelaxBound(g, s.labels, u, n, k);
      }
    }
  }

  lemma RoundLabelled(g: Graph, src: Vertex, inf: real, s: Progress, order: seq<Vertex>, l1: Labels, b: Vertex,
                      r: Progress, v: Vertex)
    requires ValidGraph(g) && Selected(g, src, s, order) && Advances(g, s, l1, b, r) && v < |g.arcs|
    requires Labelled(g, src, inf, s.labels, order, v)
    ensures Labelled(g, src, inf, r.labels, order + [b], v)
  {
    var l, u, n := s.labels, s.selected, |g.arcs[s.selected]|;
    RelaxAt(g, l, u, n, v);
    assert b !in order;
    if SameAt(l, l1, |g.arcs|, v) {
      if v != src && l.prev[v] != -1 {
        var i: nat, k: nat :| FromArc(g, inf, l, order, v, i, k);
        RelaxLowers(g, l, u, n, order[i]);
        assert FromArc(g, inf, r.labels, order + [b], v, i, k);
      }
    } else {
      var k: nat :| k < n && Improved(g, l, l1, u, v, k);
      RelaxLowers(g, l, u, n, u);
      assert l.length[v] <= inf;
      assert FromArc(g, inf, r.labels, order + [b], v, |order| - 1, k);
    }
  }

  lemma RoundInvariant(g: Graph, src: Vertex, inf: real, s: Progress, order: seq<Vertex>) returns (b: Vertex)
    requires Invariant(g, src, inf, s, order)
    requires exists v :: Open(g, s.labels, v)
    ensures Invariant(g, src, inf, Round(g, s), order + [b])
  {
    var l1 := Relax(g, s.labels, s.selected, |g.arcs[s.selected]|);
    var v :| Open(g, s.labels, v);
    assert Open(g, l1, v);
    b := Best(g, l1, |g.arcs|);
    var r := Round(g, s);
    assert Advances(g, s, l1, b, r);
    RoundSelected(g, src, s, order, l1, b, r);
    RoundMonotone(g, src, s, order, l1, b, r);
    RoundRelaxed(g, src, s, order, l1, b, r);
    forall v | 0 <= v < |g.arcs|
      ensures Labelled(g, src, inf, r.labels, order + [b], v)
    {
      RoundLabelled(g, src, inf, s, order, l1, b, r, v);
    }
  }

  // ---------- the end of the rounds ----------

  ghost function Listed(order: seq<Vertex>): set<Vertex> {
    set v | v in order
  }

  lemma {:induction false} ListedOnce(order: seq<Vertex>)
    requires NoRepeats(order)
    ensures |Listed(order)| == |order|
  {
    if order != [] {
      var n := |order| - 1;
      ListedOnce(order[..n]);
      assert order == order[..n] + [order[n]];
      assert order[n] !in Listed(order[..n]);
      assert Listed(order) == Listed(order[..n]) + {order[n]};
    }
  }

  /** As long as fewer vertices are selected than present, some present vertex is open. */
  lemma StillOpen(g: Graph, src: Vertex, s: Progress, order: seq<Vertex>)
    requires Selected(g, src, s, order) && |order| < |PresentSet(g.present)|
    ensures exists v :: Open(g, s.labels, v)
  {
    ListedOnce(order);
    assert exists v :: v in PresentSet(g.present) && v !in Listed(order) by {
      if PresentSet(g.present) <= Listed(order) {
        SubsetSize(PresentSet(g.present), Listed(order));
      }
    }
    var v :| v in PresentSet(g.present) && v !in Listed(order);
    assert Open(g, s.labels, v);
  }

  lemma {:induction false} RoundsInvariant(g: Graph, src: Vertex, inf: real, k: nat) returns (order: seq<Vertex>)
    requires ValidGraph(g) && src < |g.arcs| && g.present[src] && inf > 0.0 && k < |PresentSet(g.present)|
    ensures Invariant(g, src, inf, Rounds(g, src, inf, k), order) && |order| == k + 1
  {
    if k == 0 {
      InitialInvariant(g, src, inf);
      order := [src];
    } else {
      var o := RoundsInvariant(g, src, inf, k - 1);
      StillOpen(g, src, Rounds(g, src, inf, k - 1), o);
      var b := RoundInvariant(g, src, inf, Rounds(g, src, inf, k - 1), o);
      order := o + [b];
    }
  }

  /**
   * What the final labels mean. `rank` is the place in the selection order: predecessors come earlier, so
   * walking back along `prev` ends.
   */
  ghost predicate Solved(g: Graph, src: Vertex, inf: real, l: Labels, rank: seq<nat>) {
    && ValidGraph(g) && Sized(l, |g.arcs|) && |rank| == |g.arcs| && src < |g.arcs| && g.present[src]
    && (forall u, k :: 0 <= u < |g.arcs| && g.present[u] && 0 <= k < |g.arcs[u]| ==> Tight(g, l, u, k))
    && l.prev[src] == -1 && l.length[src] == 0.0
    && forall v :: 0 <= v < |g.arcs| && v != src ==> Step(g, inf, l, rank, v)
  }

  ghost predicate Step(g: Graph, inf: real, l: Labels, rank: seq<nat>, v: Vertex)
    requires Sized(l, |g.arcs|) && |rank| == |g.arcs| && v < |g.arcs|
  {
    if l.prev[v] == -1 then l.length[v] == inf
    else
      && 0 <= l.prev[v] < |g.arcs| && rank[l.prev[v]] < rank[v]
      && exists k: nat :: k < |g.arcs[l.prev[v]]| && StepArc(g, inf, l, v, g.arcs[l.prev[v]][k])
  }

  ghost predicate StepArc(g: Graph, inf: real, l: Labels, v: Vertex, a: Arc)
    requires Sized(l, |g.arcs|) && v < |g.arcs| && 0 <= l.prev[v] < |g.arcs|
  {
    a.head == v && l.length[v] == l.length[l.prev[v]] + a.cost < inf
  }

  /** The place of `v` in `order`, or the length of `order`. */
  ghost function Place(order: seq<Vertex>, v: Vertex): (i: nat)
    ensures i <= |order| && (i < |order| ==> order[i] == v) && (i == |order| ==> v !in order)
  {
    if v in order then var i: nat :| i < |order| && order[i] == v; i else |order|
  }

  lemma AllTagged(g: Graph, src: Vertex, s: Progress, order: seq<Vertex>, v: Vertex)
    requires Selected(g, src, s, order) && |order| == |PresentSet(g.present)| && v < |g.arcs| && g.present[v]
    ensures v in order
  {
    ListedOnce(order);
    assert v in PresentSet(g.present);
    assert Listed(order) <= PresentSet(g.present);
    if v !in Listed(order) {
      SubsetSize(Listed(order) + {v}, PresentSet(g.present));
    }
  }

  ghost function Ranks(n: nat, order: seq<Vertex>): (rank: seq<nat>)
    ensures |rank| == n && forall v :: 0 <= v < n ==> rank[v] == Place(order, v)
  {
    seq(n, v requires 0 <= v => Place(order, v))
  }

  lemma LabelledStep(g: Graph, src: Vertex, inf: real, l: Labels, order: seq<Vertex>, v: Vertex)
    requires Sized(l, |g.arcs|) && v < |g.arcs| && v != src && Labelled(g, src, inf, l, order, v)
    requires NoRepeats(order)
    ensures Step(g, inf, l, Ranks(|g.arcs|, order), v)
  {
    if l.prev[v] != -1 {
      var i: nat, k: nat :| FromArc(g, inf, l, order, v, i, k);
      assert Place(order, order[i]) == i < Place(order, v);
      assert StepArc(g, inf, l, v, g.arcs[l.prev[v]][k]);
    }
  }

  /** The source's rounds solve the shortest path problem below infinity. */
  lemma FinalSolved(g: Graph, src: Vertex, inf: real) returns (rank: seq<nat>)
    requires ValidGraph(g) && src < |g.arcs| && g.present[src] && inf > 0.0
    ensures Solved(g, src, inf, Final(g, src, inf), rank)
  {
    assert src in PresentSet(g.present);
    var n := |PresentSet(g.present)| - 1;
    var order := RoundsInvariant(g, src, inf, n);
    var s := Rounds(g, src, inf, n);
    rank := Ranks(|g.arcs|, order);
    forall u, k | 0 <= u < |g.arcs| && g.present[u] && 0 <= k < |g.arcs[u]|
      ensures Tight(g, s.labels, u, k)
    {
      AllTagged(g, src, s, order, u);
      EndTight(g, src, inf, s, order, u, k);
    }
    forall v | 0 <= v < |g.arcs| && v != src
      ensures Step(g, inf, s.labels, rank, v)
    {
      LabelledStep(g, src, inf, s.labels, order, v);
    }
    assert Labelled(g, src, inf, s.labels, order, src);
  }

  /** With every present vertex selected, even the unrelaxed last one offers no shorter way. */
  lemma EndTight(g: Graph, src: Vertex, inf: real, s: Progress, order: seq<Vertex>, u: Vertex, k: nat)
    requires Invariant(g, src, inf, s, order) && |order| == |PresentSet(g.present)|
    requires u in order && k < |g.arcs[u]|
    ensures Tight(g, s.labels, u, k)
  {
    var i :| 0 <= i < |order| && order[i] == u;
    if i == |order| - 1 {
      var a := g.arcs[u][k];
      assert GoodArc(g, a);
      AllTagged(g, src, s, order, a.head);
      var j :| 0 <= j < |order| && order[j] == a.head;
    }
  }

  // ---------- consequences ----------

  /** No trail is cheaper than the label of its end. */
  lemma {:induction false} NoCheaperTrail(g: Graph, src: Vertex, inf: real, l: Labels, rank: seq<nat>, t: seq<Arc>)
    requires Solved(g, src, inf, l, rank) && Trail(g, src, t)
    ensures TrailEnd(src, t) < |g.arcs| && g.present[TrailEnd(src, t)]
    ensures l.length[TrailEnd(src, t)] <= TrailCost(t)
  {
    if t != [] {
      var n := |t| - 1;
      NoCheaperTrail(g, src, inf, l, rank, t[..n]);
      var u := TrailEnd(src, t[..n]);
      var k :| 0 <= k < |g.arcs[u]| && g.arcs[u][k] == t[n];
      assert GoodArc(g, g.arcs[u][k]);
      assert Tight(g, l, u, k);
    }
  }

  /** `p` follows the predecessors from a vertex without one to its last vertex. */
  ghost predicate Chain(prev: seq<int>, p: Path) {
    && p != []
    && (forall i :: 0 <= i < |p| ==> p[i] < |prev|)
    && prev[p[0]] == -1
    && forall i :: 0 < i < |p| ==> prev[p[i]] == p[i - 1]
  }

  lemma ChainEnd(prev: seq<int>, p: Path)
    requires Chain(prev, p)
    ensures prev[p[|p| - 1]] == if |p| == 1 then -1 else p[|p| - 2]
  {
    if |p| > 1 {
      assert prev[p[|p| - 1]] == p[|p| - 2];
    }
  }

  /** There is one chain to each vertex. */
  lemma {:induction false} ChainUnique(prev: seq<int>, p: Path, q: Path)
    requires Chain(prev, p) && Chain(prev, q) && p[|p| - 1] == q[|q| - 1]
    ensures p == q
  {
    var m, n := |p| - 1, |q| - 1;
    ChainEnd(prev, p);
    ChainEnd(prev, q);
    if m > 0 {
      ChainUnique(prev, p[..m], q[..n]);
      assert p == p[..m] + [p[m]] && q == q[..n] + [q[n]];
    }
  }

  lemma {:induction false} ChainExists(g: Graph, src: Vertex, inf: real, l: Labels, rank: seq<nat>, v: Vertex)
    returns (p: Path)
    requires Solved(g, src, inf, l, rank) && v < |g.arcs|
    ensures Chain(l.prev, p) && p[|p| - 1] == v
    decreases rank[v]
  {
    if l.prev[v] == -1 {
      p := [v];
    } else {
      assert Step(g, inf, l, rank, v);
      var p0 := ChainExists(g, src, inf, l, rank, l.prev[v]);
      p := p0 + [v];
    }
  }

  /** Along a chain the ranks increase, so it repeats no vertex. */
  lemma {:induction false} ChainRanked(g: Graph, src: Vertex, inf: real, l: Labels, rank: seq<nat>, p: Path)
    requires Solved(g, src, inf, l, rank) && Chain(l.prev, p)
    ensures forall i, j :: 0 <= i < j < |p| ==> rank[p[i]] < rank[p[j]]
    ensures Simple(p)
  {
    var n := |p| - 1;
    if n > 0 {
      ChainRanked(g, src, inf, l, rank, p[..n]);
      ChainEnd(l.prev, p);
      assert Step(g, inf, l, rank, p[n]);
    }
  }

  /** The chain to a labelled vertex is a trail from the source whose cost is the label. */
  lemma {:induction false} ChainTrail(g: Graph, src: Vertex, inf: real, l: Labels, rank: seq<nat>, p: Path)
    returns (t: seq<Arc>)
    requires Solved(g, src, inf, l, rank) && Chain(l.prev, p)
    requires p[|p| - 1] == src || l.prev[p[|p| - 1]] != -1
    ensures Trail(g, src, t) && Visits(src, t) == p && TrailEnd(src, t) == p[|p| - 1]
    ensures TrailCost(t) == l.length[p[|p| - 1]]
  {
    var n := |p| - 1;
    ChainEnd(l.prev, p);
    if n == 0 {
      t := [];
    } else {
      var v := p[n];
      UnreachedFar(g, src, inf, l, rank, v);
      var t0 := ChainTrail(g, src, inf, l, rank, p[..n]);
      var a := LastArc(g, src, inf, l, rank, v);
      TrailMore(g, src, t0, a);
      t := t0 + [a];
      assert p == p[..n] + [v];
    }
  }

  lemma LastArc(g: Graph, src: Vertex, inf: real, l: Labels, rank: seq<nat>, v: Vertex) returns (a: Arc)
    requires Solved(g, src, inf, l, rank) && v < |g.arcs| && v != src && l.prev[v] != -1
    ensures 0 <= l.prev[v] < |g.arcs| && a in g.arcs[l.prev[v]] && StepArc(g, inf, l, v, a)
    ensures rank[l.prev[v]] < rank[v]
  {
    assert Step(g, inf, l, rank, v);
    var k: nat :| k < |g.arcs[l.prev[v]]| && StepArc(g, inf, l, v, g.arcs[l.prev[v]][k]);
    a := g.arcs[l.prev[v]][k];
  }

  /** A predecessor is the source or has a predecessor itself, since no cost is negative. */
  lemma UnreachedFar(g: Graph, src: Vertex, inf: real, l: Labels, rank: seq<nat>, v: Vertex)
    requires Solved(g, src, inf, l, rank) && v < |g.arcs| && v != src && l.prev[v] != -1
    ensures 0 <= l.prev[v] < |g.arcs|
    ensures l.prev[v] == src || l.prev[l.prev[v]] != -1
  {
    assert Step(g, inf, l, rank, v);
    var u := l.prev[v];
    var k: nat :| k < |g.arcs[u]| && StepArc(g, inf, l, v, g.arcs[u][k]);
    assert GoodArc(g, g.arcs[u][k]);
    assert u != src ==> Step(g, inf, l, rank, u);
  }

  // ---------- the loops ----------

  /** The labels after all rounds, computed by the source's loops over three lists. */
  method Settle(g: Graph, src: Vertex, inf: real, quantity: nat) returns (previous: seq<int>, lengths: seq<real>)
    requires ValidGraph(g) && src < |g.arcs| && g.present[src] && inf > 0.0 && quantity == |PresentSet(g.present)|
    ensures Labels(Final(g, src, inf).tag, previous, lengths) == Final(g, src, inf)
  {
    var n := |g.arcs|;
    var tag := seq(n, i => false);
    previous := seq(n, i => -1);
    lengths := seq(n, i => inf);
    var selected: Vertex := src;
    tag := tag[src := true];
    lengths := lengths[src := 0.0];
    assert src in PresentSet(g.present);
    assert Progress(Labels(tag, previous, lengths), selected) == Initial(n, src, inf);
    for i := 0 to quantity - 1
      invariant selected < n && Progress(Labels(tag, previous, lengths), selected) == Rounds(g, src, inf, i)
    {
      ghost var order := RoundsInvariant(g, src, inf, i);
      StillOpen(g, src, Rounds(g, src, inf, i), order);
      tag, previous, lengths, selected := OneRound(g, tag, previous, lengths, selected);
    }
  }

  /** One turn of the outer loop. */
  method OneRound(g: Graph, tag: seq<bool>, previous: seq<int>, lengths: seq<real>, selected: nat)
    returns (tag': seq<bool>, previous': seq<int>, lengths': seq<real>, selected': nat)
    requires ValidGraph(g) && Sized(Labels(tag, previous, lengths), |g.arcs|)
    requires selected < |g.arcs| && tag[selected] && exists v :: Open(g, Labels(tag, previous, lengths), v)
    ensures Progress(Labels(tag', previous', lengths'), selected')
         == Round(g, Progress(Labels(tag, previous, lengths), selected))
  {
    ghost var l := Labels(tag, previous, lengths);
    var record := FirstOpen(g, Labels(tag, previous, lengths));
    var minLength := lengths[record];
    previous', lengths' := RelaxArcs(g, Labels(tag, previous, lengths), selected);
    ghost var l1 := Labels(tag, previous', lengths');
    RelaxLowers(g, l, selected, |g.arcs[selected]|, record);
    assert forall j :: Open(g, l1, j) <==> Open(g, l, j);
    selected' := Nearest(g, Labels(tag, previous', lengths'), record, minLength);
    tag' := tag[selected' := true];
  }

  /** The first vertex without a tag. */
  method FirstOpen(g: Graph, l: Labels) returns (record: nat)
    requires Sized(l, |g.arcs|) && |g.present| == |g.arcs| && exists v :: Open(g, l, v)
    ensures Open(g, l, record) && forall j :: 0 <= j < record ==> !Open(g, l, j)
  {
    record := 0;
    while !(g.present[record] && !l.tag[record])
      invariant record < |g.arcs| && forall j :: 0 <= j < record ==> !Open(g, l, j)
      decreases |g.arcs| - record
    {
      record := record + 1;
    }
  }

  method RelaxArcs(g: Graph, l: Labels, u: Vertex) returns (previous: seq<int>, lengths: seq<real>)
    requires ValidGraph(g) && Sized(l, |g.arcs|) && u < |g.arcs|
    ensures Labels(l.tag, previous, lengths) == Relax(g, l, u, |g.arcs[u]|)
  {
    previous, lengths := l.prev, l.length;
    for j := 0 to |g.arcs[u]|
      invariant Labels(l.tag, previous, lengths) == Relax(g, l, u, j)
    {
      var a := g.arcs[u][j];
      assert GoodArc(g, a);
      if !l.tag[a.head] {
        if lengths[u] + a.cost < lengths[a.head] {
          lengths := lengths[a.head := lengths[u] + a.cost];
          previous := previous[a.head := u];
        }
      }
    }
  }

  /** The scan for the minimum. It starts from the first open vertex and the length that vertex had
      before relaxing, which is never below its length now. */
  method Nearest(g: Graph, l: Labels, first: nat, before: real) returns (record: nat)
    requires Sized(l, |g.arcs|) && |g.present| == |g.arcs|
    requires Open(g, l, first) && (forall j :: 0 <= j < first ==> !Open(g, l, j)) && l.length[first] <= before
    ensures record == Best(g, l, |g.arcs|)
  {
    record := first;
    var minLength := before;
    for j := 0 to |g.arcs|
      invariant j <= first ==> record == first && minLength == before && Best(g, l, j) == -1
      invariant j > first ==> record == Best(g, l, j) && minLength == l.length[record]
    {
      assert Open(g, l, j) <==> g.present[j] && !l.tag[j];
      if g.present[j] && !l.tag[j] && l.length[j] < minLength {
        minLength, record := l.length[j], j;
      }
    }
  }

  /** The predecessor walk always ends, and gives the chain to `v`. */
  method WalkBack(g: Graph, src: Vertex, ghost inf: real, previous: seq<int>, v: Vertex, ghost l: Labels,
                  ghost rank: seq<nat>) returns (path: Path)
    requires Solved(g, src, inf, l, rank) && previous == l.prev && v < |g.arcs|
    ensures Chain(previous, path) && path[|path| - 1] == v
  {
    path := [v];
    var j := v;
    while previous[j] != -1
      invariant j < |g.arcs| && path != [] && path[0] == j && path[|path| - 1] == v
      invariant forall i :: 0 <= i < |path| ==> path[i] < |previous|
      invariant forall i :: 0 < i < |path| ==> previous[path[i]] == path[i - 1]
      decreases rank[j]
    {
      assert Step(g, inf, l, rank, j);
      j := previous[j];
      path := [j] + path;
    }
  }
}
