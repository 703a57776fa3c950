/** What one generation of `GAPopulation` does to a population, given what chance decides. */
module GeneticSteps {
  import opened Walks
  import opened PathSearch
  import opened Shortcuts
  import Crossing

  const INFEASIBLE := -1000.0
  const SELECT_NUM_COEFFICIENT := 3
  const THRESHOLD := 8

  /** No switch is its own neighbour, and every neighbour is a switch. */
  ghost predicate Topology(adj: Adjacency) {
    Closed(adj) && forall u :: 0 <= u < |adj| ==> u !in adj[u]
  }

  ghost predicate AllRoutes(adj: Adjacency, links: seq<Path>, s: Vertex, t: Vertex) {
    forall i :: 0 <= i < |links| ==> Route(adj, links[i], s, t)
  }

  ghost predicate AllSplices(adj: Adjacency, links: seq<Path>, s: Vertex, t: Vertex) {
    forall i :: 0 <= i < |links| ==> Splice(adj, links[i], s, t)
  }

  // ---------- chance ----------

  /** What chance decides about the mutation of one link. */
  datatype Mutation = Mutation(skip: bool, place: nat, neighbour: nat)

  /** The flips of each attempt to cut the loops out of a link. */
  type Coins = nat -> nat -> bool

  /** What chance decides about a pair: whether it is passed over, and where it is crossed. */
  datatype Crossroad = Crossroad(skip: bool, draw: Crossing.Draw)

  /** What chance decides in one generation, but for the shuffling: the candidates of the tournaments, what becomes of
      every pair, and for every link its mutation and its coins. */
  datatype Luck = Luck(rows: nat -> nat -> nat, pairs: nat -> Crossroad, coins: nat -> Coins,
                       mutations: nat -> Mutation, repairs: nat -> Coins, again: nat -> Coins)

  // ---------- selection ----------

  function Fitnesses(fit: Path -> real, links: seq<Path>): seq<real> {
    seq(|links|, i requires 0 <= i < |links| => fit(links[i]))
  }

  /** The candidates of `n` tournaments, each among a third of the paths. */
  function Rows(rows: nat -> nat -> nat, n: nat): (r: seq<seq<nat>>)
    requires n > 0
    ensures |r| == n && forall i :: 0 <= i < n ==> r[i] == Row(rows(i), n / 3, n)
  {
    seq(n, i requires 0 <= i < n => Row(rows(i), n / SELECT_NUM_COEFFICIENT, n))
  }

  /** One row of draws per path, each a third as long as there are paths. */
  ghost predicate Drawn(draws: seq<seq<nat>>, n: nat) {
    && |draws| == n
    && (forall i :: 0 <= i < n ==> |draws[i]| == n / 3)
    && (forall i, j :: 0 <= i < n && 0 <= j < |draws[i]| ==> draws[i][j] < n)
  }

  lemma RowsDrawn(rows: nat -> nat -> nat, n: nat)
    requires n > 0
    ensures Drawn(Rows(rows, n), n)
  {
  }

  /** The first path with a positive fitness, or else path 0. */
  ghost predicate Fallback(fitness: seq<real>, d: nat) {
    if exists k :: 0 <= k < |fitness| && fitness[k] > 0.0
    then d < |fitness| && fitness[d] > 0.0 && forall k :: 0 <= k < d ==> fitness[k] <= 0.0
    else d == 0
  }

  /** The first fittest path drawn, or the one selected before if all that are drawn have failed the bandwidth test. */
  ghost predicate Tournament(fitness: seq<real>, row: seq<nat>, previous: nat, selected: nat) {
    if forall j :: 0 <= j < |row| && row[j] < |fitness| ==> fitness[row[j]] <= -1000.0 then selected == previous
    else
      exists j :: 0 <= j < |row| && row[j] == selected < |fitness| && Wins(fitness, row, j)
  }

  ghost predicate Wins(fitness: seq<real>, row: seq<nat>, j: nat)
    requires j < |row| && row[j] < |fitness|
  {
    && fitness[row[j]] > -1000.0
    && (forall k :: 0 <= k < |row| && row[k] < |fitness| ==> fitness[row[k]] <= fitness[row[j]])
    && (forall k :: 0 <= k < j && row[k] < |fitness| ==> fitness[row[k]] < fitness[row[j]])
  }

  /** The winners of the tournaments, one after the other. */
  ghost predicate Tournaments(fitness: seq<real>, draws: seq<seq<nat>>, selected: seq<nat>) {
    && |selected| <= |draws|
    && (forall i :: 0 <= i < |selected| ==> selected[i] < |fitness|)
    && (forall i :: 0 < i < |selected| ==> Tournament(fitness, draws[i], selected[i - 1], selected[i]))
    && (selected != [] ==> exists d: nat :: Fallback(fitness, d) && Tournament(fitness, draws[0], d, selected[0]))
  }

  /** As soon as one path is feasible, no path that failed the bandwidth test survives. */
  lemma {:induction false} FeasibleWins(fitness: seq<real>, draws: seq<seq<nat>>, selected: seq<nat>, i: nat)
    requires Tournaments(fitness, draws, selected) && i < |selected|
    requires exists k :: 0 <= k < |fitness| && fitness[k] > 0.0
    ensures fitness[selected[i]] > -1000.0
  {
    if i > 0 {
      FeasibleWins(fitness, draws, selected, i - 1);
      assert Tournament(fitness, draws[i], selected[i - 1], selected[i]);
    }
  }

  /** Fewer than three paths stay; otherwise each place is taken by the winner of its tournament. */
  ghost predicate Selected(paths: seq<Path>, fitness: seq<real>, draws: seq<seq<nat>>, selected: seq<nat>,
                           chosen: seq<Path>) {
    && |chosen| == |paths| == |fitness|
    && if |paths| < 3 then chosen == paths
       else |selected| == |paths| && Tournaments(fitness, draws, selected) &&
            forall i :: 0 <= i < |paths| ==> chosen[i] == paths[selected[i]]
  }

  ghost predicate Chosen(fit: Path -> real, luck: Luck, before: seq<Path>, chosen: seq<Path>) {
    before != [] && exists selected ::
      Selected(before, Fitnesses(fit, before), Rows(luck.rows, |before|), selected, chosen)
  }

  // ---------- crossing ----------

  /** What becomes of a pair, which may be passed over. */
  ghost predicate PairCrossed(pair: Crossroad, l1: Path, l2: Path, c1: Path, c2: Path) {
    if pair.skip then c1 == l1 && c2 == l2
    else exists pos, code ::
           Crossing.SharedPlaces(l1, l2, pos, |l1|) && Crossing.ListCrossed(l1, l2, pos, pair.draw, c1, c2, code)
  }

  /** The first `num` pairs are crossed, and whatever comes behind them is as it was. */
  ghost predicate PairsCrossed(shuffled: seq<Path>, pairs: nat -> Crossroad, num: nat, crossed: seq<Path>) {
    && |crossed| == |shuffled| && 2 * num <= |crossed|
    && (forall k: nat :: k < num ==>
          PairCrossed(pairs(k), shuffled[2 * k], shuffled[2 * k + 1], crossed[2 * k], crossed[2 * k + 1]))
    && (forall i :: 2 * num <= i < |crossed| ==> crossed[i] == shuffled[i])
  }

  /** Neighbours of a shuffled population are crossed pairwise; the last one of an odd number stays. */
  ghost predicate AllCrossed(before: seq<Path>, shuffled: seq<Path>, pairs: nat -> Crossroad, crossed: seq<Path>) {
    multiset(shuffled) == multiset(before) && PairsCrossed(shuffled, pairs, |shuffled| / 2, crossed)
  }

  lemma PairsMore(shuffled: seq<Path>, pairs: nat -> Crossroad, num: nat, crossed: seq<Path>, c1: Path, c2: Path)
    requires PairsCrossed(shuffled, pairs, num, crossed) && 2 * num + 1 < |crossed|
    requires PairCrossed(pairs(num), shuffled[2 * num], shuffled[2 * num + 1], c1, c2)
    ensures PairsCrossed(shuffled, pairs, num + 1, crossed[2 * num := c1][2 * num + 1 := c2])
  {
    var more := crossed[2 * num := c1][2 * num + 1 := c2];
    forall k: nat | k < num + 1
      ensures PairCrossed(pairs(k), shuffled[2 * k], shuffled[2 * k + 1], more[2 * k], more[2 * k + 1])
    {
      if k < num {
        assert PairCrossed(pairs(k), shuffled[2 * k], shuffled[2 * k + 1], crossed[2 * k], crossed[2 * k + 1]);
      }
    }
  }

  /** A crossed pair has the vertices it had before. */
  lemma PairKeeps(pair: Crossroad, l1: Path, l2: Path, c1: Path, c2: Path)
    requires PairCrossed(pair, l1, l2, c1, c2)
    ensures multiset(c1) + multiset(c2) == multiset(l1) + multiset(l2)
  {
    if !pair.skip {
      var pos, code :|
        Crossing.SharedPlaces(l1, l2, pos, |l1|) && Crossing.ListCrossed(l1, l2, pos, pair.draw, c1, c2, code);
      Crossing.ListCrossedKeeps(l1, l2, pos, pair.draw, c1, c2, code);
    }
  }

  /** The vertices of all paths of a population together. */
  ghost function Gathered(links: seq<Path>): multiset<Vertex> {
    if links == [] then multiset{} else Gathered(links[..|links| - 1]) + multiset(links[|links| - 1])
  }

  lemma {:induction false} GatheredWithout(links: seq<Path>, i: nat)
    requires i < |links|
    ensures Gathered(links) == Gathered(links[..i] + links[i + 1..]) + multiset(links[i])
  {
    var n, rest := |links| - 1, links[..i] + links[i + 1..];
    if i < n {
      GatheredWithout(links[..n], i);
      assert links[..n][..i] + links[..n][i + 1..] == rest[..n - 1] && rest[n - 1] == links[n];
    } else {
      assert rest == links[..n];
    }
  }

  lemma Dropped(links: seq<Path>, i: nat)
    requires i < |links|
    ensures multiset(links) == multiset(links[..i] + links[i + 1..]) + multiset{links[i]}
  {
    assert links == links[..i] + [links[i]] + links[i + 1..];
  }

  lemma Cancelled(a: multiset<Path>, b: multiset<Path>, x: Path)
    requires a + multiset{x} == b + multiset{x}
    ensures a == b
  {
    forall p
      ensures a[p] == b[p]
    {
      assert (a + multiset{x})[p] == (b + multiset{x})[p];
    }
  }

  /** The last path of `a` has a place in `b`, and without the two the rest is still the same. */
  lemma Match(a: seq<Path>, b: seq<Path>) returns (i: nat)
    requires multiset(a) == multiset(b) && a != []
    ensures i < |b| && b[i] == a[|a| - 1] && multiset(a[..|a| - 1]) == multiset(b[..i] + b[i + 1..])
  {
    var n := |a| - 1;
    assert a[n] in multiset(b);
    i :| 0 <= i < |b| && b[i] == a[n];
    Dropped(a, n);
    Dropped(b, i);
    assert a[..n] + a[n + 1..] == a[..n];
    Cancelled(multiset(a[..n]), multiset(b[..i] + b[i + 1..]), a[n]);
  }

  lemma {:induction false} GatheredShuffled(a: seq<Path>, b: seq<Path>)
    requires multiset(a) == multiset(b)
    ensures Gathered(a) == Gathered(b)
  {
    if a == [] {
      assert |multiset(a)| == |multiset(b)|;
    } else {
      var n := |a| - 1;
      var i := Match(a, b);
      GatheredShuffled(a[..n], b[..i] + b[i + 1..]);
      GatheredWithout(b, i);
    }
  }

  lemma {:induction false} PairsGathered(shuffled: seq<Path>, pairs: nat -> Crossroad, crossed: seq<Path>, num: nat,
                                         half: nat)
    requires PairsCrossed(shuffled, pairs, half, crossed) && num <= half
    ensures Gathered(crossed[..2 * num]) == Gathered(shuffled[..2 * num])
  {
    if num == 0 {
      assert crossed[..0] == shuffled[..0];
    } else {
      var n := 2 * (num - 1);
      PairsGathered(shuffled, pairs, crossed, num - 1, half);
      PairKeeps(pairs(num - 1), shuffled[n], shuffled[n + 1], crossed[n], crossed[n + 1]);
      GatheredTwo(shuffled, crossed, n);
    }
  }

  lemma GatheredTwo(a: seq<Path>, b: seq<Path>, n: nat)
    requires n + 2 <= |a| == |b| && Gathered(b[..n]) == Gathered(a[..n])
    requires multiset(b[n]) + multiset(b[n + 1]) == multiset(a[n]) + multiset(a[n + 1])
    ensures Gathered(b[..n + 2]) == Gathered(a[..n + 2])
  {
    TwoMore(a, n);
    TwoMore(b, n);
  }

  lemma TwoMore(links: seq<Path>, n: nat)
    requires n + 2 <= |links|
    ensures Gathered(links[..n + 2]) == Gathered(links[..n]) + (multiset(links[n]) + multiset(links[n + 1]))
  {
    assert links[..n + 2][..n + 1] == links[..n + 1] && links[..n + 1][..n] == links[..n];
  }

  /** Crossing a population moves vertices around, and neither loses nor makes any. */
  lemma CrossingConserves(before: seq<Path>, shuffled: seq<Path>, pairs: nat -> Crossroad, crossed: seq<Path>)
    requires AllCrossed(before, shuffled, pairs, crossed)
    ensures Gathered(crossed) == Gathered(before)
  {
    GatheredShuffled(shuffled, before);
    var half := 2 * (|shuffled| / 2);
    PairsGathered(shuffled, pairs, crossed, |shuffled| / 2, |shuffled| / 2);
    if half == |shuffled| {
      assert crossed[..half] == crossed && shuffled[..half] == shuffled;
    } else {
      assert half == |shuffled| - 1 && crossed[half] == shuffled[half];
    }
  }

  // ---------- cutting the loops out ----------

  /** The first of the attempts from `k` on that succeeds; the tenth is made, but its result is thrown away. */
  ghost function FirstCut(link: Path, coins: Coins, k: nat): Option<Path>
    decreases 9 - k
  {
    if k >= 9 then None
    else match Cut(link, coins(k))
         case Some(r) => Some(r)
         case None => FirstCut(link, coins, k + 1)
  }

  /** The paths from `u` to `t` in the order in which the search reports them. */
  ghost function Found(adj: Adjacency, u: Vertex, t: Vertex, maxHop: int): seq<Path>
    requires Closed(adj) && u < |adj|
  {
    Explore(adj, t, maxHop, [u], adj[u])
  }

  /** A link without its loops, or the first path found when nine attempts to cut them out have failed. */
  ghost predicate Cleaned(adj: Adjacency, maxHop: int, link: Path, coins: Coins, r: Path) {
    match FirstCut(link, coins, 0)
    case Some(cut) => r == cut
    case None =>
      && Closed(adj) && link != [] && link[0] < |adj|
      && var found := Found(adj, link[0], link[|link| - 1], maxHop);
      && found != [] && r == found[0]
  }

  ghost predicate AllCleaned(adj: Adjacency, maxHop: int, links: seq<Path>, coins: nat -> Coins, cleaned: seq<Path>) {
    |cleaned| == |links| && forall i: nat :: i < |links| ==> Cleaned(adj, maxHop, links[i], coins(i), cleaned[i])
  }

  /** A link without loops stays as it is. */
  lemma CleanStays(adj: Adjacency, maxHop: int, link: Path, coins: Coins, r: Path)
    requires Simple(link) && Cleaned(adj, maxHop, link, coins, r)
    ensures r == link
  {
    NothingToCut(link, coins(0));
  }

  // ---------- mutation ----------

  /** The inner place of a link that is mutated. */
  function Place(link: Path, draw: Mutation): (k: nat)
    requires |link| >= 3
    ensures 1 <= k <= |link| - 2 && (draw.place < |link| - 2 ==> k == 1 + draw.place)
  {
    1 + Pick(draw.place, |link| - 2)
  }

  function WithoutFirst(s: seq<Vertex>, x: Vertex): seq<Vertex> {
    if s == [] then [] else if s[0] == x then s[1..] else [s[0]] + WithoutFirst(s[1..], x)
  }

  lemma {:induction false} WithoutFirstIs(s: seq<Vertex>, x: Vertex, i: nat)
    requires i < |s| && s[i] == x && forall k :: 0 <= k < i ==> s[k] != x
    ensures WithoutFirst(s, x) == s[..i] + s[i + 1..]
  {
    if i > 0 {
      WithoutFirstIs(s[1..], x, i - 1);
      assert s[..i] == [s[0]] + s[1..][..i - 1] && s[1..][i..] == s[i + 1..];
    }
  }

  lemma {:induction false} OthersMeaning(s: seq<Vertex>, x: Vertex)
    requires x in s
    ensures |WithoutFirst(s, x)| == |s| - 1 && forall y :: y in WithoutFirst(s, x) ==> y in s
    ensures NoRepeats(s) ==> x !in WithoutFirst(s, x)
  {
    if s[0] != x {
      OthersMeaning(s[1..], x);
    }
  }

  /** The drawn neighbour other than the vertex that is replaced, if there is one. */
  function Replacement(neighbours: seq<Vertex>, replaced: Vertex, draw: Mutation): Option<Vertex> {
    var others := WithoutFirst(neighbours, replaced);
    if others == [] then None else Some(others[Pick(draw.neighbour, |others|)])
  }

  /** There is no neighbour to draw, or the one drawn has no short enough path to the destination. */
  ghost predicate Aborts(adj: Adjacency, link: Path, draw: Mutation, t: Vertex, maxHop: int) {
    && !draw.skip && |link| >= 3 && link[Place(link, draw) - 1] < |adj|
    && match Replacement(adj[link[Place(link, draw) - 1]], link[Place(link, draw)], draw)
       case None => true
       case Some(v) => v != t && !exists p :: Wanted(adj, p, v, t, maxHop)
  }

  /** How many vertices of `link`, from the start, are not on `path`. */
  function Misses(link: Path, path: Path): (n: nat)
    ensures n <= |link| && (forall k :: 0 <= k < n ==> link[k] !in path) && (n < |link| ==> link[n] in path)
  {
    if link == [] || link[0] in path then 0 else 1 + Misses(link[1..], path)
  }

  /** The first of the paths found that `link` misses for longest. */
  ghost predicate MostSimilar(link: Path, found: seq<Path>, best: nat) {
    && best < |found|
    && (forall k :: 0 <= k < |found| ==> Misses(link, found[k]) <= Misses(link, found[best]))
    && (forall k :: 0 <= k < best ==> Misses(link, found[k]) < Misses(link, found[best]))
  }

  /** The mutated link up to its new vertex, continued by a path found and without loops; or the link itself when nine
      attempts to cut them out have failed. */
  ghost predicate Continued(adj: Adjacency, maxHop: int, link: Path, rnd: nat, v: Vertex, coins: Coins, r: Path)
    requires rnd < |link|
  {
    && Closed(adj) && v < |adj|
    && var found := Found(adj, v, link[|link| - 1], maxHop);
    && exists best: nat :: MostSimilar(link[rnd := v], found, best) &&
         r == match FirstCut(link[..rnd] + found[best], coins, 0)
              case Some(cut) => cut
              case None => link
  }

  /** What becomes of a link whose mutation does not abort. */
  ghost predicate Mutated(adj: Adjacency, maxHop: int, link: Path, draw: Mutation, coins: Coins, r: Path) {
    if draw.skip || |link| < 3 then r == link
    else
      var rnd := Place(link, draw);
      && link[rnd - 1] < |adj|
      && var chosen := Replacement(adj[link[rnd - 1]], link[rnd], draw);
      && chosen.Some?
      && if chosen.value == link[|link| - 1] then r == link[..rnd] + [chosen.value]
         else Continued(adj, maxHop, link, rnd, chosen.value, coins, r)
  }

  ghost predicate AllMutated(adj: Adjacency, maxHop: int, links: seq<Path>, draws: nat -> Mutation,
                             coins: nat -> Coins, mutated: seq<Path>) {
    |mutated| == |links| &&
    forall i: nat :: i < |links| ==> Mutated(adj, maxHop, links[i], draws(i), coins(i), mutated[i])
  }

  // ---------- a generation ----------

  /** The population at every stage of one generation. */
  datatype Generation = Generation(before: seq<Path>, chosen: seq<Path>, shuffled: seq<Path>, crossed: seq<Path>,
                                   cleaned: seq<Path>, mutated: seq<Path>, after: seq<Path>)

  /** Before any generation has begun. */
  ghost function NobodyYet(): Generation {
    Generation([], [], [], [], [], [], [])
  }

  ghost predicate Uniform(links: seq<Path>) {
    forall i :: 0 <= i < |links| ==> links[i] == links[0]
  }

  /** Up to the mutation. */
  ghost predicate Prepared(adj: Adjacency, maxHop: int, fit: Path -> real, luck: Luck, g: Generation) {
    && Chosen(fit, luck, g.before, g.chosen) && !Uniform(g.chosen)
    && AllCrossed(g.chosen, g.shuffled, luck.pairs, g.crossed)
    && AllCleaned(adj, maxHop, g.crossed, luck.coins, g.cleaned)
  }

  /** A generation that is bred to the end. */
  ghost predicate Bred(adj: Adjacency, t: Vertex, maxHop: int, fit: Path -> real, luck: Luck, g: Generation) {
    && Prepared(adj, maxHop, fit, luck, g)
    && (forall i: nat :: i < |g.cleaned| ==> !Aborts(adj, g.cleaned[i], luck.mutations(i), t, maxHop))
    && AllMutated(adj, maxHop, g.cleaned, luck.mutations, luck.repairs, g.mutated)
    && AllCleaned(adj, maxHop, g.mutated, luck.again, g.after)
  }

  /** A generation whose mutation aborts. */
  ghost predicate Broken(adj: Adjacency, t: Vertex, maxHop: int, fit: Path -> real, luck: Luck, g: Generation) {
    Prepared(adj, maxHop, fit, luck, g) &&
    exists i: nat :: i < |g.cleaned| && Aborts(adj, g.cleaned[i], luck.mutations(i), t, maxHop)
  }

  /** The population that the generations so far have led to. */
  ghost function Latest(initial: seq<Path>, history: seq<Generation>): seq<Path> {
    if history == [] then initial else history[|history| - 1].after
  }

  /** Generation `g` starts from what the one before it left, and is bred with the luck of its own. */
  ghost predicate Follows(adj: Adjacency, t: Vertex, maxHop: int, fit: Path -> real, luck: nat -> Luck,
                          initial: seq<Path>, history: seq<Generation>, g: nat)
    requires g < |history|
  {
    history[g].before == Latest(initial, history[..g]) && Bred(adj, t, maxHop, fit, luck(g), history[g])
  }

  ghost predicate History(adj: Adjacency, t: Vertex, maxHop: int, fit: Path -> real, luck: nat -> Luck,
                          initial: seq<Path>, history: seq<Generation>) {
    forall g: nat :: g < |history| ==> Follows(adj, t, maxHop, fit, luck, initial, history, g)
  }

  lemma HistoryMore(adj: Adjacency, t: Vertex, maxHop: int, fit: Path -> real, luck: nat -> Luck, initial: seq<Path>,
                    history: seq<Generation>, last: Generation)
    requires History(adj, t, maxHop, fit, luck, initial, history)
    requires last.before == Latest(initial, history) && Bred(adj, t, maxHop, fit, luck(|history|), last)
    ensures History(adj, t, maxHop, fit, luck, initial, history + [last])
    ensures Latest(initial, history + [last]) == last.after
  {
    var more := history + [last];
    forall g: nat | g < |more|
      ensures Follows(adj, t, maxHop, fit, luck, initial, more, g)
    {
      if g < |history| {
        assert Follows(adj, t, maxHop, fit, luck, initial, history, g);
        assert more[..g] == history[..g] && more[g] == history[g];
      } else {
        assert more[..g] == history && more[g] == last;
      }
    }
  }
}
