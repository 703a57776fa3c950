/** `find_path_dfs`: enumerating the bounded loop-free paths with an explicit stack. */
module PathSearch {
  import opened Walks

  /** What the search is for: the loop-free paths of at least one hop and at most `maxHop` vertices. A
      direct link is reported whatever the bound. */
  ghost predicate Wanted(adj: Adjacency, p: Path, s: Vertex, t: Vertex, maxHop: int) {
    Route(adj, p, s, t) && 2 <= |p| && (|p| == 2 || |p| <= maxHop)
  }

  ghost predicate Known(adj: Adjacency, candidates: seq<Vertex>) {
    forall i :: 0 <= i < |candidates| ==> candidates[i] < |adj|
  }

  // ---------- the recursive reference ----------

  /** The candidates that are not on the path yet. */
  function Unvisited(candidates: seq<Vertex>, path: Path): (r: seq<Vertex>)
    ensures forall v :: v in r <==> v in candidates && v !in path
    ensures forall i :: 0 <= i < |r| ==> r[i] in candidates && r[i] !in path
  {
    if candidates == [] then []
    else
      var rest := Unvisited(candidates[..|candidates| - 1], path);
      var v := candidates[|candidates| - 1];
      assert candidates == candidates[..|candidates| - 1] + [v];
      if v in path then rest else rest + [v]
  }

  lemma {:induction false} UnvisitedNoRepeats(candidates: seq<Vertex>, path: Path)
    requires NoRepeats(candidates)
    ensures NoRepeats(Unvisited(candidates, path))
  {
    if candidates != [] {
      var front := candidates[..|candidates| - 1];
      UnvisitedNoRepeats(front, path);
      assert candidates[|candidates| - 1] !in front;
    }
  }

  /** The paths recorded while the `candidates` of the last vertex of `path` are tried, last one first. */
  ghost function Explore(adj: Adjacency, t: Vertex, maxHop: int, path: Path, candidates: seq<Vertex>): seq<Path>
    requires Closed(adj) && Known(adj, candidates)
    decreases maxHop - |path|, |candidates|
  {
    if candidates == [] then []
    else
      var n := |candidates| - 1;
      Through(adj, t, maxHop, path, candidates[n]) + Explore(adj, t, maxHop, path, candidates[..n])
  }

  /** The paths recorded through one candidate. */
  ghost function Through(adj: Adjacency, t: Vertex, maxHop: int, path: Path, v: Vertex): seq<Path>
    requires Closed(adj) && v < |adj|
    decreases maxHop - |path|, 0
  {
    var p := path + [v];
    if v == t then [p]
    else if |p| < maxHop then Explore(adj, t, maxHop, p, Unvisited(adj[v], p))
    else []
  }

  /** `q` continues `path` through one of the candidates to `t`, within the bound. */
  ghost predicate Continues(adj: Adjacency, t: Vertex, maxHop: int, path: Path, candidates: seq<Vertex>, q: Path) {
    && |q| > |path| && q[..|path|] == path && q[|path|] in candidates
    && Walk(adj, q) && Simple(q) && q[|q| - 1] == t
    && (|q| == |path| + 1 || |q| <= maxHop)
  }

  /** A loop-free walk with the candidates it may be continued by. */
  ghost predicate Stem(adj: Adjacency, path: Path, candidates: seq<Vertex>) {
    && Walk(adj, path) && Simple(path)
    && forall i :: 0 <= i < |candidates| ==> Edge(adj, path[|path| - 1], candidates[i]) && candidates[i] !in path
  }

  /** The reference records exactly the wanted continuations. */
  lemma {:induction false} ExploreExact(adj: Adjacency, t: Vertex, maxHop: int, path: Path,
                                        candidates: seq<Vertex>, q: Path)
    requires Closed(adj) && Known(adj, candidates) && Stem(adj, path, candidates)
    ensures q in Explore(adj, t, maxHop, path, candidates) <==> Continues(adj, t, maxHop, path, candidates, q)
    decreases maxHop - |path|, |candidates|
  {
    if candidates != [] {
      var n := |candidates| - 1;
      assert candidates == candidates[..n] + [candidates[n]];
      ExploreExact(adj, t, maxHop, path, candidates[..n], q);
      ThroughExact(adj, t, maxHop, path, candidates[n], q);
    }
  }

  lemma {:induction false} ThroughExact(adj: Adjacency, t: Vertex, maxHop: int, path: Path, v: Vertex, q: Path)
    requires Closed(adj) && Stem(adj, path, [v]) && v < |adj|
    ensures q in Through(adj, t, maxHop, path, v) <==> Continues(adj, t, maxHop, path, [v], q)
    decreases maxHop - |path|, 0
  {
    var p := path + [v];
    StepForward(adj, path, v);
    if v == t {
      EndsAtOnce(adj, t, maxHop, path, q);
    } else if |p| < maxHop {
      var next := Unvisited(adj[v], p);
      ExploreExact(adj, t, maxHop, p, next, q);
      LongerPath(adj, t, maxHop, path, v, next, q);
    } else {
      assert !Continues(adj, t, maxHop, path, [v], q);
    }
  }

  lemma StepForward(adj: Adjacency, path: Path, v: Vertex)
    requires Closed(adj) && Stem(adj, path, [v]) && v < |adj|
    ensures Stem(adj, path + [v], Unvisited(adj[v], path + [v]))
  {
  }

  lemma EndsAtOnce(adj: Adjacency, t: Vertex, maxHop: int, path: Path, q: Path)
    requires Stem(adj, path, [t])
    ensures q == path + [t] <==> Continues(adj, t, maxHop, path, [t], q)
  {
    var p := path + [t];
    assert Walk(adj, p) && Simple(p) && p[..|path|] == path;
    if Continues(adj, t, maxHop, path, [t], q) {
      assert q[|path|] == q[|q| - 1];
      assert q == q[..|path|] + [t];
    }
  }

  lemma LongerPath(adj: Adjacency, t: Vertex, maxHop: int, path: Path, v: Vertex, next: seq<Vertex>, q: Path)
    requires Stem(adj, path, [v]) && v != t && v < |adj| && |path| + 1 < maxHop
    requires forall w :: w in next <==> w in adj[v] && w !in path + [v]
    ensures Continues(adj, t, maxHop, path + [v], next, q) <==> Continues(adj, t, maxHop, path, [v], q)
  {
    var p := path + [v];
    if Continues(adj, t, maxHop, p, next, q) {
      assert q[..|path|] == q[..|p|][..|path|] == path;
      assert q[|path|] == p[|path|];
    }
    if Continues(adj, t, maxHop, path, [v], q) {
      assert q[..|p|] == q[..|path|] + [q[|path|]] == p;
      assert |q| > |p|;
      assert Edge(adj, q[|path|], q[|path| + 1]);
      assert q[|p|] !in q[..|p|];
    }
  }

  /** With no neighbour listed twice, no path is recorded twice. */
  lemma {:induction false} ExploreOnce(adj: Adjacency, t: Vertex, maxHop: int, path: Path, candidates: seq<Vertex>)
    requires Closed(adj) && Known(adj, candidates) && Stem(adj, path, candidates)
    requires NoRepeats(candidates) && forall u :: 0 <= u < |adj| ==> NoRepeats(adj[u])
    ensures NoRepeats(Explore(adj, t, maxHop, path, candidates))
    decreases maxHop - |path|, |candidates|
  {
    if candidates != [] {
      var n := |candidates| - 1;
      var v, front := candidates[n], candidates[..n];
      assert candidates == front + [v];
      ExploreOnce(adj, t, maxHop, path, front);
      ThroughOnce(adj, t, maxHop, path, v);
      var a, b := Through(adj, t, maxHop, path, v), Explore(adj, t, maxHop, path, front);
      forall i, j | 0 <= i < |a| && 0 <= j < |b|
        ensures a[i] != b[j]
      {
        ThroughExact(adj, t, maxHop, path, v, a[i]);
        ExploreExact(adj, t, maxHop, path, front, b[j]);
        assert a[i] in a && b[j] in b;
        assert v !in front;
      }
    }
  }

  lemma {:induction false} ThroughOnce(adj: Adjacency, t: Vertex, maxHop: int, path: Path, v: Vertex)
    requires Closed(adj) && Stem(adj, path, [v]) && v < |adj|
    requires forall u :: 0 <= u < |adj| ==> NoRepeats(adj[u])
    ensures NoRepeats(Through(adj, t, maxHop, path, v))
    decreases maxHop - |path|, 0
  {
    var p := path + [v];
    if v != t && |p| < maxHop {
      StepForward(adj, path, v);
      UnvisitedNoRepeats(adj[v], p);
      ExploreOnce(adj, t, maxHop, p, Unvisited(adj[v], p));
    }
  }

  // ---------- the explicit stack ----------

  ghost predicate KnownSpace(adj: Adjacency, space: seq<seq<Vertex>>) {
    forall i :: 0 <= i < |space| ==> Known(adj, space[i])
  }

  /** What remains to be recorded: the open candidate lists of the stack, innermost first. */
  ghost function Pending(adj: Adjacency, t: Vertex, maxHop: int, path: Path, space: seq<seq<Vertex>>): seq<Path>
    requires Closed(adj) && |path| == |space| && KnownSpace(adj, space)
    decreases |space|
  {
    if space == [] then []
    else
      var n := |space| - 1;
      Explore(adj, t, maxHop, path, space[n]) + Pending(adj, t, maxHop, path[..n], space[..n])
  }

  /** The number of candidates the search below `path` pops. */
  ghost function Work(adj: Adjacency, t: Vertex, maxHop: int, path: Path, candidates: seq<Vertex>): nat
    requires Closed(adj) && Known(adj, candidates)
    decreases maxHop - |path|, |candidates|
  {
    if candidates == [] then 0
    else
      var n := |candidates| - 1;
      var p := path + [candidates[n]];
      1 + Work(adj, t, maxHop, path, candidates[..n]) +
      if candidates[n] != t && |p| < maxHop then Work(adj, t, maxHop, p, Unvisited(adj[candidates[n]], p)) else 0
  }

  /** The number of candidates the whole stack still pops: the termination measure. */
  ghost function TotalWork(adj: Adjacency, t: Vertex, maxHop: int, path: Path, space: seq<seq<Vertex>>): nat
    requires Closed(adj) && |path| == |space| && KnownSpace(adj, space)
    decreases |space|
  {
    if space == [] then 0
    else
      var n := |space| - 1;
      Work(adj, t, maxHop, path, space[n]) + TotalWork(adj, t, maxHop, path[..n], space[..n])
  }

  /** Popping the last candidate `v` of the top list leaves what is recorded through `v`, and the rest. */
  lemma PopCandidate(adj: Adjacency, t: Vertex, maxHop: int, path: Path, space: seq<seq<Vertex>>, v: Vertex,
                     popped: seq<seq<Vertex>>)
    requires Closed(adj) && |path| == |space| > 0 && KnownSpace(adj, space) && space[|space| - 1] != []
    requires var n := |space| - 1; var top := space[n];
      v == top[|top| - 1] && popped == space[n := top[..|top| - 1]]
    ensures v < |adj| && KnownSpace(adj, popped)
    ensures Pending(adj, t, maxHop, path, space) ==
              Through(adj, t, maxHop, path, v) + Pending(adj, t, maxHop, path, popped)
    ensures TotalWork(adj, t, maxHop, path, space) > TotalWork(adj, t, maxHop, path, popped)
  {
    var n := |space| - 1;
    assert Known(adj, space[n]);
    assert popped[..n] == space[..n];
  }

  /** Descending into `v` opens the candidate list that records what lies below `v`. */
  lemma Descend(adj: Adjacency, t: Vertex, maxHop: int, path: Path, space: seq<seq<Vertex>>, v: Vertex,
                popped: seq<seq<Vertex>>)
    requires Closed(adj) && |path| == |space| > 0 && KnownSpace(adj, space) && space[|space| - 1] != []
    requires var n := |space| - 1; var top := space[n];
      v == top[|top| - 1] && popped == space[n := top[..|top| - 1]]
    requires v < |adj| && KnownSpace(adj, popped) && v != t && |path| + 1 < maxHop
    ensures var p := path + [v]; var next := popped + [Unvisited(adj[v], p)];
      && KnownSpace(adj, next)
      && Pending(adj, t, maxHop, p, next) ==
           Through(adj, t, maxHop, path, v) + Pending(adj, t, maxHop, path, popped)
      && TotalWork(adj, t, maxHop, p, next) < TotalWork(adj, t, maxHop, path, space)
  {
    var n, p := |space| - 1, path + [v];
    var next := popped + [Unvisited(adj[v], p)];
    assert popped[..n] == space[..n];
    assert next[..n + 1] == popped && p[..n + 1] == path;
    assert Known(adj, Unvisited(adj[v], p));
  }

  /** Started at `s`, the reference records the wanted paths. */
  lemma Complete(adj: Adjacency, s: Vertex, t: Vertex, maxHop: int)
    requires Closed(adj) && s < |adj| && s !in adj[s]
    ensures forall p :: p in Explore(adj, t, maxHop, [s], adj[s]) <==> Wanted(adj, p, s, t, maxHop)
    ensures (forall u :: 0 <= u < |adj| ==> NoRepeats(adj[u])) ==> NoRepeats(Explore(adj, t, maxHop, [s], adj[s]))
  {
    forall p
      ensures p in Explore(adj, t, maxHop, [s], adj[s]) <==> Wanted(adj, p, s, t, maxHop)
    {
      ExploreExact(adj, t, maxHop, [s], adj[s], p);
      if Wanted(adj, p, s, t, maxHop) {
        assert p[..1] == [s] && Edge(adj, p[0], p[1]);
      }
    }
    if forall u :: 0 <= u < |adj| ==> NoRepeats(adj[u]) {
      ExploreOnce(adj, t, maxHop, [s], adj[s]);
    }
  }

  /**
   * The search itself. The source copies `adj[s]` unfiltered, so it wants `s` not to list itself; a
   * topology never makes a switch its own neighbour.
   */
  method FindPathDfs(s: Vertex, t: Vertex, maxHop: int, adj: Adjacency) returns (record: seq<Path>)
    requires Closed(adj) && s < |adj| && s !in adj[s]
    ensures record == Explore(adj, t, maxHop, [s], adj[s])
    ensures forall p :: p in record <==> Wanted(adj, p, s, t, maxHop)
    ensures (forall u :: 0 <= u < |adj| ==> NoRepeats(adj[u])) ==> NoRepeats(record)
  {
    record := [];
    var path: Path := [s];
    var space: seq<seq<Vertex>> := [adj[s]];
    ghost var all := Explore(adj, t, maxHop, path, adj[s]);
    assert path[..0] == [] && space[..0] == [];
    while true
      invariant |path| == |space| > 0 && KnownSpace(adj, space)
      invariant record + Pending(adj, t, maxHop, path, space) == all
      decreases TotalWork(adj, t, maxHop, path, space), |space|
    {
      if space[|space| - 1] != [] {
        var top := space[|space| - 1];
        var v := top[|top| - 1];
        ghost var before, stack := path, space;
        space := space[|space| - 1 := top[..|top| - 1]];
        path := path + [v];
        PopCandidate(adj, t, maxHop, before, stack, v, space);
        if v == t {
          record := record + [path];
          path := path[..|path| - 1];
          assert path == before;
        } else if |path| < maxHop {
          Descend(adj, t, maxHop, before, stack, v, space);
          space := space + [Unvisited(adj[v], path)];
        } else {
          path := path[..|path| - 1];
          assert path == before;
        }
      } else {
        path, space := Backtrack(adj, t, maxHop, path, space);
        if space == [] {
          assert record == all;
          Complete(adj, s, t, maxHop);
          return;
        }
      }
    }
  }

  /** Goes back from the lists that are used up; nothing is left to record in them. */
  method Backtrack(adj: Adjacency, t: Vertex, maxHop: int, path: Path, space: seq<seq<Vertex>>)
    returns (shorter: Path, open: seq<seq<Vertex>>)
    requires Closed(adj) && |path| == |space| > 0 && KnownSpace(adj, space) && space[|space| - 1] == []
    ensures |shorter| == |open| < |space| && KnownSpace(adj, open) && (open != [] ==> open[|open| - 1] != [])
    ensures Pending(adj, t, maxHop, shorter, open) == Pending(adj, t, maxHop, path, space)
    ensures TotalWork(adj, t, maxHop, shorter, open) == TotalWork(adj, t, maxHop, path, space)
  {
    shorter, open := path[..|path| - 1], space[..|space| - 1];
    while open != [] && open[|open| - 1] == []
      invariant |shorter| == |open| < |space| && KnownSpace(adj, open)
      invariant Pending(adj, t, maxHop, shorter, open) == Pending(adj, t, maxHop, path, space)
      invariant TotalWork(adj, t, maxHop, shorter, open) == TotalWork(adj, t, maxHop, path, space)
      decreases |open|
    {
      shorter, open := shorter[..|shorter| - 1], open[..|open| - 1];
    }
  }
}
