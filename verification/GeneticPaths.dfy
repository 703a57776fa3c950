/** `GAPopulation`: evolving a population of paths by selection, crossing and mutation. */
module GeneticPaths {
  import opened Walks
  import opened PathSearch
  import opened Shortcuts
  import opened GeneticSteps
  import Redundancy
  import Crossing

  method DefaultPath(fitness: seq<real>) returns (defaultPath: nat)
    requires fitness != []
    ensures defaultPath < |fitness| && Fallback(fitness, defaultPath)
  {
    for i := 0 to |fitness|
      invariant forall k :: 0 <= k < i ==> fitness[k] <= 0.0
    {
      if fitness[i] > 0.0 {
        return i;
      }
    }
    defaultPath := 0;
  }

  /** The inner loop of the selection. */
  method RunTournament(fitness: seq<real>, row: seq<nat>, previous: nat) returns (selected: nat)
    requires previous < |fitness| && forall j :: 0 <= j < |row| ==> row[j] < |fitness|
    ensures selected < |fitness| && Tournament(fitness, row, previous, selected)
  {
    selected := previous;
    var maxFitness := INFEASIBLE;
    ghost var winner := 0;
    for j := 0 to |row|
      invariant selected < |fitness| && maxFitness >= INFEASIBLE
      invariant maxFitness == INFEASIBLE ==> selected == previous
      invariant maxFitness > INFEASIBLE ==>
                  && 0 <= winner < j && row[winner] == selected && fitness[selected] == maxFitness
                  && forall k :: 0 <= k < winner ==> fitness[row[k]] < maxFitness
      invariant forall k :: 0 <= k < j ==> fitness[row[k]] <= maxFitness
    {
      if fitness[row[j]] > maxFitness {
        maxFitness, selected, winner := fitness[row[j]], row[j], j;
      }
    }
    if maxFitness > INFEASIBLE {
      assert Wins(fitness, row, winner);
    }
  }

  /** Tournament selection with the given draws: as many paths as before, each the winner of its tournament. */
  method Select(paths: seq<Path>, fitness: seq<real>, draws: seq<seq<nat>>)
    returns (newPaths: seq<Path>, ghost selected: seq<nat>)
    requires |fitness| == |paths| && Drawn(draws, |paths|)
    ensures Selected(paths, fitness, draws, selected, newPaths)
    ensures forall i :: 0 <= i < |newPaths| ==> newPaths[i] in paths
  {
    newPaths, selected := [], [];
    if |fitness| < SELECT_NUM_COEFFICIENT {
      return paths, selected;
    }
    var pathSelected := DefaultPath(fitness);
    ghost var fallback := pathSelected;
    for i := 0 to |paths|
      invariant |newPaths| == |selected| == i && pathSelected < |paths| && Fallback(fitness, fallback)
      invariant pathSelected == if i == 0 then fallback else selected[i - 1]
      invariant Tournaments(fitness, draws, selected)
      invariant forall k :: 0 <= k < i ==> newPaths[k] == paths[selected[k]]
    {
      pathSelected := RunTournament(fitness, draws[i], pathSelected);
      newPaths, selected := newPaths + [paths[pathSelected]], selected + [pathSelected];
    }
  }

  class GAPopulation {
    const vertexs: Adjacency
    const maxHop: int
    const generationMax: int
    var links: seq<Path>
    var fitness: seq<real>
    var age: int

    constructor (vertexs: Adjacency, maxHop: int, generationMax: int)
      ensures this.vertexs == vertexs && this.maxHop == maxHop && this.generationMax == generationMax
      ensures links == [] && fitness == [] && age == 0
    {
      this.vertexs, this.maxHop, this.generationMax := vertexs, maxHop, generationMax;
      links, fitness, age := [], [], 0;
    }

    /** Crosses two routes. */
    method CrossPair(list1: Path, list2: Path, draw: Crossing.Draw, ghost s: Vertex, ghost t: Vertex)
      returns (c1: Path, c2: Path)
      requires Topology(vertexs) && Route(vertexs, list1, s, t) && Route(vertexs, list2, s, t)
      ensures Splice(vertexs, c1, s, t) && Splice(vertexs, c2, s, t)
      ensures PairCrossed(Crossroad(false, draw), list1, list2, c1, c2)
    {
      var code;
      ghost var pos;
      c1, c2, code, pos := Crossing.ListCross(list1, list2, draw, s, t);
      Crossing.CrossedKeeps(vertexs, s, t, list1, list2, c1, c2);
    }

    /** Shuffle, then cross neighbours pairwise, except for the pairs passed over. */
    method Cross(pairs: nat -> Crossroad, ghost s: Vertex, ghost t: Vertex) returns (ghost shuffled: seq<Path>)
      requires Topology(vertexs) && AllRoutes(vertexs, links, s, t)
      modifies this`links
      ensures AllCrossed(old(links), shuffled, pairs, links)
      ensures |links| == old(|links|) && AllSplices(vertexs, links, s, t)
    {
      var mixed: seq<Path> :| multiset(mixed) == multiset(links);
      shuffled := mixed;
      Shuffled(vertexs, links, mixed, s, t);
      RoutesAreSplices(vertexs, mixed, s, t, 0);
      links := mixed;
      for num := 0 to |links| / 2
        invariant |links| == old(|links|) && PairsCrossed(shuffled, pairs, num, links)
        invariant AllSplices(vertexs, links, s, t)
      {
        var c1, c2 := links[2 * num], links[2 * num + 1];
        if !pairs(num).skip {
          c1, c2 := CrossPair(c1, c2, pairs(num).draw, s, t);
        }
        PairsMore(shuffled, pairs, num, links, c1, c2);
        links := links[2 * num := c1][2 * num + 1 := c2];
      }
    }

    /** Every link becomes loop-free, by up to nine attempts or by searching a new one. */
    method RemoveRedundantLink(coins: nat -> Coins, ghost s: Vertex, ghost t: Vertex)
      requires Topology(vertexs) && AllSplices(vertexs, links, s, t)
      requires links != [] ==> exists p :: Wanted(vertexs, p, s, t, maxHop)
      modifies this`links
      ensures AllCleaned(vertexs, maxHop, old(links), coins, links)
      ensures |links| == old(|links|) && AllRoutes(vertexs, links, s, t)
    {
      for i := 0 to |links|
        invariant |links| == old(|links|)
        invariant forall k: nat :: k < i ==> Cleaned(vertexs, maxHop, old(links)[k], coins(k), links[k])
        invariant forall k :: 0 <= k < i ==> Route(vertexs, links[k], s, t)
        invariant forall k :: i <= k < |links| ==> links[k] == old(links)[k]
      {
        var newLink := CleanLink(links[i], coins(i), s, t);
        links := links[i := newLink];
      }
    }

    /** The attempts on one link, and the search when they fail. */
    method CleanLink(link: Path, coins: Coins, ghost s: Vertex, ghost t: Vertex) returns (r: Path)
      requires Topology(vertexs) && Splice(vertexs, link, s, t) && exists p :: Wanted(vertexs, p, s, t, maxHop)
      ensures Cleaned(vertexs, maxHop, link, coins, r) && Route(vertexs, r, s, t)
    {
      var newLink := Attempt(link, coins(0), s, t);
      var counter := 0;
      while newLink.None?
        invariant counter <= THRESHOLD && newLink == Cut(link, coins(counter))
        invariant newLink.Some? ==> Route(vertexs, newLink.value, s, t)
        invariant FirstCut(link, coins, 0) == FirstCut(link, coins, counter)
        decreases THRESHOLD - counter
      {
        newLink := Attempt(link, coins(counter + 1), s, t);
        counter := counter + 1;
        if counter > THRESHOLD {
          var found := FindPathDfs(link[0], link[|link| - 1], maxHop, vertexs);
          assert found != [] && found[0] in found;
          return found[0];
        }
      }
      r := newLink.value;
    }

    /** One call of the redundancy removal. */
    method Attempt(link: Path, coins: nat -> bool, ghost s: Vertex, ghost t: Vertex) returns (r: Option<Path>)
      requires Splice(vertexs, link, s, t)
      ensures r == Cut(link, coins)
      ensures r.Some? ==> Route(vertexs, r.value, s, t)
    {
      r := Redundancy.RemoveRedundancy(link, coins);
      if r.Some? {
        Redundancy.ShorteningKeepsWalk(vertexs, r.value, link);
      }
    }

    /**
     * Point mutation with the given draws. `ok` is false where the source raises, which is exactly when some link that
     * is not passed over draws a place or a vertex it cannot go on from.
     */
    method Mutate(draws: nat -> Mutation, coins: nat -> Coins, ghost s: Vertex, ghost t: Vertex) returns (ok: bool)
      requires Topology(vertexs) && AllRoutes(vertexs, links, s, t) && s != t
      modifies this`links
      ensures |links| == old(|links|) && AllSplices(vertexs, links, s, t)
      ensures ok <==> forall n: nat :: n < |links| ==> !Aborts(vertexs, old(links)[n], draws(n), t, maxHop)
      ensures ok ==> AllMutated(vertexs, maxHop, old(links), draws, coins, links)
      ensures NoDeadEnds(vertexs, t, maxHop) ==> ok
    {
      for n := 0 to |links|
        invariant |links| == old(|links|)
        invariant forall k :: 0 <= k < n ==> Splice(vertexs, links[k], s, t)
        invariant forall k: nat :: k < n ==> Mutated(vertexs, maxHop, old(links)[k], draws(k), coins(k), links[k])
        invariant forall k :: n <= k < |links| ==> links[k] == old(links)[k]
        invariant forall k: nat :: k < n ==> !Aborts(vertexs, old(links)[k], draws(k), t, maxHop)
      {
        var going, link := MutateLink(links[n], draws(n), coins(n), s, t);
        if !going {
          RoutesAreSplices(vertexs, links, s, t, n);
          DeadEnd(vertexs, links[n], draws(n), s, t, maxHop);
          return false;
        }
        links := links[n := link];
      }
      ok := true;
    }

    /** The mutation of one link; `going` is false where the source raises. */
    method MutateLink(link: Path, draw: Mutation, coins: Coins, ghost s: Vertex, ghost t: Vertex)
      returns (going: bool, r: Path)
      requires Topology(vertexs) && Route(vertexs, link, s, t) && s != t
      ensures going <==> !Aborts(vertexs, link, draw, t, maxHop)
      ensures going ==> Splice(vertexs, r, s, t) && Mutated(vertexs, maxHop, link, draw, coins, r)
    {
      r := link;
      RouteIsSplice(vertexs, link, s, t);
      if draw.skip || |link| == 2 {
        return true, link;
      }
      var chosen, rnd := MutateVertexSelect(link, draw);
      if chosen.None? {
        return false, link;
      }
      var mutated := link[rnd := chosen.value];
      MutatedPrefix(vertexs, link, rnd, chosen.value, s, t);
      if chosen.value == mutated[|mutated| - 1] {
        assert mutated[..rnd + 1] == link[..rnd] + [chosen.value];
        return true, mutated[..rnd + 1];
      }
      var newLink;
      going, newLink := MutateFindNewPath(mutated, rnd, coins, s, t);
      if newLink.Some? {
        r := newLink.value;
      }
      assert mutated[..rnd] == link[..rnd];
    }

    /** The drawn inner vertex and another neighbour of the vertex before it. */
    method MutateVertexSelect(link: Path, draw: Mutation) returns (chosen: Option<Vertex>, rnd: nat)
      requires Topology(vertexs) && Walk(vertexs, link) && |link| >= 3
      ensures rnd == Place(link, draw) && Edge(vertexs, link[rnd - 1], link[rnd])
      ensures chosen == Replacement(vertexs[link[rnd - 1]], link[rnd], draw)
      ensures chosen.None? <==> |vertexs[link[rnd - 1]]| < 2
      ensures chosen.Some? ==> Edge(vertexs, link[rnd - 1], chosen.value)
      ensures chosen.Some? && NoRepeats(vertexs[link[rnd - 1]]) ==> chosen.value != link[rnd]
    {
      rnd := Place(link, draw);
      assert Edge(vertexs, link[rnd - 1], link[rnd]);
      var neighbours := vertexs[link[rnd - 1]];
      var index := Redundancy.Index(neighbours, link[rnd]);
      WithoutFirstIs(neighbours, link[rnd], index);
      OthersMeaning(neighbours, link[rnd]);
      var others := neighbours[..index] + neighbours[index + 1..];
      if others == [] {
        return None, rnd;
      }
      chosen := Some(others[Pick(draw.neighbour, |others|)]);
    }

    /** Continues the mutated prefix by a path found by search; `found` is false when there is none. */
    method MutateFindNewPath(link: Path, num: nat, coins: Coins, ghost s: Vertex, ghost t: Vertex)
      returns (found: bool, r: Option<Path>)
      requires Topology(vertexs) && num < |link| && Joins(link, s, t) && 0 < num
      requires Walk(vertexs, link[..num + 1]) && Simple(link[..num]) && link[num] < |vertexs|
      ensures found <==> exists p :: Wanted(vertexs, p, link[num], t, maxHop)
      ensures found && r.Some? ==> Splice(vertexs, r.value, s, t)
      ensures found ==> exists best: nat :: MostSimilar(link, Found(vertexs, link[num], t, maxHop), best) &&
                          r == FirstCut(link[..num] + Found(vertexs, link[num], t, maxHop)[best], coins, 0)
    {
      var dfsPaths := FindPathDfs(link[num], link[|link| - 1], maxHop, vertexs);
      if dfsPaths == [] {
        return false, None;
      }
      assert dfsPaths[0] in dfsPaths;
      found := true;
      AllStart(vertexs, dfsPaths, link[num], t, maxHop);
      var best := FindMostSimilar(link, num, dfsPaths);
      assert dfsPaths[best] in dfsPaths;
      ContinuedSplice(vertexs, link, num, dfsPaths[best], s, t);
      r := Repair(link[..num] + dfsPaths[best], coins, s, t);
      assert dfsPaths == Found(vertexs, link[num], t, maxHop);
    }

    /** The attempts to cut the loops out of the continued path. */
    method Repair(similar: Path, coins: Coins, ghost s: Vertex, ghost t: Vertex) returns (r: Option<Path>)
      requires Splice(vertexs, similar, s, t)
      ensures r == FirstCut(similar, coins, 0)
      ensures r.Some? ==> Splice(vertexs, r.value, s, t)
    {
      r := Attempt(similar, coins(0), s, t);
      var counter := 0;
      while r.None?
        invariant counter <= THRESHOLD && r == Cut(similar, coins(counter))
        invariant r.Some? ==> Splice(vertexs, r.value, s, t)
        invariant FirstCut(similar, coins, 0) == FirstCut(similar, coins, counter)
        decreases THRESHOLD - counter
      {
        r := Attempt(similar, coins(counter + 1), s, t);
        counter := counter + 1;
        if counter > THRESHOLD {
          return None;
        }
      }
    }

    /**
     * The whole evolution, for every fitness, with the luck of each generation. `initial` is the first population and
     * `history` the generations bred to the end; `last` is the one the evolution stops in. `ok` is false where the
     * source raises: for want of a first population, or because a mutation of the last generation aborts.
     */
    method Evolve(s: Vertex, t: Vertex, fit: Path -> real, luck: nat -> Luck)
      returns (ok: bool, ghost initial: seq<Path>, ghost history: seq<Generation>, ghost last: Generation)
      requires Topology(vertexs) && s < |vertexs|
      modifies this
      ensures forall p :: p in initial <==> Wanted(vertexs, p, s, t, maxHop)
      ensures (forall u :: 0 <= u < |vertexs| ==> NoRepeats(vertexs[u])) ==> NoRepeats(initial)
      ensures History(vertexs, t, maxHop, fit, luck, initial, history) && age == old(age) + |history|
      ensures history != [] ==> age - 1 <= generationMax
      ensures |links| == |initial| && AllSplices(vertexs, links, s, t)
      ensures ok ==>
                && Chosen(fit, luck(|history|), Latest(initial, history), links) && AllRoutes(vertexs, links, s, t)
                && fitness == Fitnesses(fit, links) && (Uniform(links) || age > generationMax)
      ensures !ok && initial != [] ==>
                && last.before == Latest(initial, history) && age <= generationMax
                && Broken(vertexs, t, maxHop, fit, luck(|history|), last)
      ensures ok <==> initial != [] && !Broken(vertexs, t, maxHop, fit, luck(|history|), last)
      ensures initial != [] && NoDeadEnds(vertexs, t, maxHop) ==> ok
    {
      links := FindPathDfs(s, t, maxHop, vertexs);
      initial, history, last := links, [], NobodyYet();
      assert forall i :: 0 <= i < |links| ==> links[i] in links;
      if links == [] {
        ok := false;
        return;
      }
      assert links[0] in initial;
      var turn := 0;
      while true
        invariant links != [] && |links| == |initial| && AllRoutes(vertexs, links, s, t)
        invariant History(vertexs, t, maxHop, fit, luck, initial, history) && links == Latest(initial, history)
        invariant turn == |history| && age == old(age) + turn && (history != [] ==> age - 1 <= generationMax)
        decreases generationMax - age
      {
        ghost var before := links;
        Choose(fit, luck(turn), s, t);
        last := NobodyYet();
        if forall i :: 0 <= i < |links| ==> links[i] == links[0] {
          break;
        }
        if age > generationMax {
          break;
        }
        ok, last := Breed(before, fit, luck(turn), s, t);
        if !ok {
          return;
        }
        HistoryMore(vertexs, t, maxHop, fit, luck, initial, history, last);
        history := history + [last];
        turn, age := turn + 1, age + 1;
      }
      ok := true;
    }

    /** The selection of a generation, with the fitness before and after. */
    method Choose(fit: Path -> real, luck: Luck, ghost s: Vertex, ghost t: Vertex)
      requires links != [] && AllRoutes(vertexs, links, s, t)
      modifies this`links, this`fitness
      ensures Chosen(fit, luck, old(links), links) && |links| == old(|links|) && AllRoutes(vertexs, links, s, t)
      ensures fitness == Fitnesses(fit, links)
    {
      fitness := Fitnesses(fit, links);
      ghost var selected;
      RowsDrawn(luck.rows, |links|);
      links, selected := Select(links, fitness, Rows(luck.rows, |links|));
      fitness := Fitnesses(fit, links);
    }

    /** Crossing, mutation, and the removal of loops after each. */
    method Breed(ghost before: seq<Path>, fit: Path -> real, luck: Luck, ghost s: Vertex, ghost t: Vertex)
      returns (ok: bool, ghost g: Generation)
      requires Topology(vertexs) && AllRoutes(vertexs, links, s, t) && Chosen(fit, luck, before, links) && links != []
      requires !Uniform(links) && exists p :: Wanted(vertexs, p, s, t, maxHop)
      modifies this`links
      ensures g.before == before && |links| == old(|links|)
      ensures ok ==> Bred(vertexs, t, maxHop, fit, luck, g) && g.after == links && AllRoutes(vertexs, links, s, t)
      ensures !ok ==> Broken(vertexs, t, maxHop, fit, luck, g) && AllSplices(vertexs, links, s, t)
      ensures NoDeadEnds(vertexs, t, maxHop) ==> ok
    {
      g := Prepare(before, fit, luck, s, t);
      ok := Mutate(luck.mutations, luck.repairs, s, t);
      if ok {
        ghost var mutated := links;
        RemoveRedundantLink(luck.again, s, t);
        g := g.(mutated := mutated, after := links);
      }
    }

    method Prepare(ghost before: seq<Path>, ghost fit: Path -> real, luck: Luck, ghost s: Vertex, ghost t: Vertex)
      returns (ghost g: Generation)
      requires Topology(vertexs) && AllRoutes(vertexs, links, s, t) && Chosen(fit, luck, before, links) && links != []
      requires !Uniform(links) && exists p :: Wanted(vertexs, p, s, t, maxHop)
      modifies this`links
      ensures Prepared(vertexs, maxHop, fit, luck, g) && g.before == before && g.cleaned == links
      ensures |links| == old(|links|) && AllRoutes(vertexs, links, s, t)
    {
      ghost var chosen := links;
      ghost var shuffled := Cross(luck.pairs, s, t);
      ghost var crossed := links;
      RemoveRedundantLink(luck.coins, s, t);
      g := Generation(before, chosen, shuffled, crossed, links, [], []);
    }
  }

  /** Mutation can always go on: two neighbours everywhere, and a short enough path to the destination. */
  ghost predicate NoDeadEnds(adj: Adjacency, t: Vertex, maxHop: int) {
    forall u :: 0 <= u < |adj| ==> |adj[u]| >= 2 && (u != t ==> exists p :: Wanted(adj, p, u, t, maxHop))
  }

  /** Where a mutation aborts there is a dead end. */
  lemma DeadEnd(adj: Adjacency, link: Path, draw: Mutation, s: Vertex, t: Vertex, maxHop: int)
    requires Topology(adj) && Route(adj, link, s, t) && Aborts(adj, link, draw, t, maxHop)
    ensures !NoDeadEnds(adj, t, maxHop)
  {
    var rnd := Place(link, draw);
    assert Edge(adj, link[rnd - 1], link[rnd]);
    var neighbours := adj[link[rnd - 1]];
    OthersMeaning(neighbours, link[rnd]);
    var chosen := Replacement(neighbours, link[rnd], draw);
    if chosen.Some? {
      assert chosen.value in neighbours;
      assert chosen.value !in adj[chosen.value];
    }
  }

  /** When the links before `n` are splices and the others still routes, all are splices. */
  lemma RoutesAreSplices(adj: Adjacency, links: seq<Path>, s: Vertex, t: Vertex, n: nat)
    requires forall k :: 0 <= k < n && k < |links| ==> Splice(adj, links[k], s, t)
    requires forall k :: n <= k < |links| ==> Route(adj, links[k], s, t)
    ensures AllSplices(adj, links, s, t)
  {
    forall k | 0 <= k < |links|
      ensures Splice(adj, links[k], s, t)
    {
      if k >= n {
        RouteIsSplice(adj, links[k], s, t);
      }
    }
  }

  method LeadingMisses(link: Path, path: Path) returns (counter: nat)
    ensures counter == Misses(link, path)
  {
    counter := 0;
    while counter < |link| && link[counter] !in path
      invariant counter <= |link| && Misses(link, path) == counter + Misses(link[counter..], path)
    {
      assert link[counter..][1..] == link[counter + 1..];
      counter := counter + 1;
    }
  }

  /** The path found that `link` misses for longest. None is missed altogether, since all start on `link`. */
  method FindMostSimilar(link: Path, num: nat, dfsPaths: seq<Path>) returns (best: nat)
    requires num < |link| && dfsPaths != []
    requires forall n :: 0 <= n < |dfsPaths| ==> dfsPaths[n] != [] && dfsPaths[n][0] == link[num]
    ensures MostSimilar(link, dfsPaths, best)
  {
    var counters: seq<nat> := [];
    for n := 0 to |dfsPaths|
      invariant |counters| == n && forall k :: 0 <= k < n ==> counters[k] == Misses(link, dfsPaths[k])
    {
      var counter := LeadingMisses(link, dfsPaths[n]);
      counters := counters + [counter];
      MeetsAt(link, dfsPaths[n], num);
      if counter == |link| {
        assert false;
      }
    }
    best := FirstMax(counters);
  }

  lemma AllStart(adj: Adjacency, found: seq<Path>, u: Vertex, t: Vertex, maxHop: int)
    requires forall p :: p in found ==> Wanted(adj, p, u, t, maxHop)
    ensures forall n :: 0 <= n < |found| ==> found[n] != [] && found[n][0] == u
  {
    assert forall n :: 0 <= n < |found| ==> found[n] in found;
  }

  lemma {:induction false} MeetsAt(link: Path, path: Path, num: nat)
    requires num < |link| && link[num] in path
    ensures Misses(link, path) <= num
  {
    if num > 0 {
      MeetsAt(link[1..], path, num - 1);
    }
  }

  /** The first index of a largest element. */
  method FirstMax(s: seq<nat>) returns (best: nat)
    requires s != []
    ensures best < |s| && forall k :: 0 <= k < |s| ==> s[k] <= s[best]
    ensures forall k :: 0 <= k < best ==> s[k] < s[best]
  {
    best := 0;
    for i := 1 to |s|
      invariant best < i && forall k :: 0 <= k < i ==> s[k] <= s[best]
      invariant forall k :: 0 <= k < best ==> s[k] < s[best]
    {
      if s[i] > s[best] {
        best := i;
      }
    }
  }

  /** The part of a path up to a mutated vertex is a walk, loop-free before that vertex; it is a route
      itself if the new vertex is the destination. */
  lemma MutatedPrefix(adj: Adjacency, link: Path, rnd: nat, v: Vertex, s: Vertex, t: Vertex)
    requires Closed(adj) && Route(adj, link, s, t) && 1 <= rnd <= |link| - 2 && Edge(adj, link[rnd - 1], v)
    ensures var m := link[rnd := v];
      && Walk(adj, m[..rnd + 1]) && Simple(m[..rnd]) && Joins(m, s, t) && v < |adj|
      && (v == t ==> Splice(adj, m[..rnd + 1], s, t))
  {
    var m := link[rnd := v];
    var p := m[..rnd + 1];
    forall i | 0 <= i < |p| - 1
      ensures Edge(adj, p[i], p[i + 1])
    {
      assert Edge(adj, link[i], link[i + 1]);
    }
    TwoSimplePieces(m[..rnd], [v]);
    assert p == m[..rnd] + [v];
  }

  /** A walk up to a vertex continued by a loop-free path from that vertex. */
  lemma ContinuedSplice(adj: Adjacency, link: Path, num: nat, path: Path, s: Vertex, t: Vertex)
    requires num < |link| && Joins(link, s, t) && 0 < num
    requires Walk(adj, link[..num + 1]) && Simple(link[..num])
    requires Route(adj, path, link[num], t)
    ensures Splice(adj, link[..num] + path, s, t)
  {
    Crossing.JoinWalks(adj, link[..num + 1], path);
    assert link[..num + 1][..num] == link[..num];
    TwoSimplePieces(link[..num], path);
  }

  lemma Shuffled(adj: Adjacency, links: seq<Path>, shuffled: seq<Path>, s: Vertex, t: Vertex)
    requires multiset(shuffled) == multiset(links) && AllRoutes(adj, links, s, t)
    ensures |shuffled| == |links| && AllRoutes(adj, shuffled, s, t)
  {
    assert |multiset(shuffled)| == |multiset(links)|;
    forall i | 0 <= i < |shuffled|
      ensures Route(adj, shuffled[i], s, t)
    {
      assert shuffled[i] in multiset(shuffled);
      assert shuffled[i] in links;
    }
  }
}
