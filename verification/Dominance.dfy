/** Individuals of the multi-objective search, Pareto dominance, and peeling a population into fronts. */
module Dominance {
  import opened Walks

  class Individual {
    const delay: real
    const loss: real
    var paretoRank: int
    var crowdingDistance: real
    var numDominated: int
    var dominatingList: seq<Individual>

    constructor (delay: real, loss: real)
      ensures this.delay == delay && this.loss == loss
      ensures Cleared()
    {
      this.delay, this.loss := delay, loss;
      paretoRank, crowdingDistance, numDominated, dominatingList := 0, 0.0, 0, [];
    }

    ghost predicate Cleared()
      reads this
    {
      paretoRank == 0 && crowdingDistance == 0.0 && numDominated == 0 && dominatingList == []
    }

    method ClearProperty()
      modifies this
      ensures Cleared()
    {
      paretoRank, crowdingDistance, numDominated, dominatingList := 0, 0.0, 0, [];
    }

    predicate IsBetterThan(ind: Individual) {
      if loss <= ind.loss && delay < ind.delay then true
      else if loss < ind.loss && delay <= ind.delay then true
      else false
    }
  }

  /** Better is: no worse in delay and in loss, and not the same in both. */
  lemma BetterMeaning(p: Individual, q: Individual)
    ensures p.IsBetterThan(q) <==>
            p.loss <= q.loss && p.delay <= q.delay && (p.loss != q.loss || p.delay != q.delay)
  {
  }

  /** Better is a strict order. */
  lemma StrictOrder(p: Individual, q: Individual, r: Individual)
    ensures !p.IsBetterThan(p)
    ensures p.IsBetterThan(q) ==> !q.IsBetterThan(p)
    ensures p.IsBetterThan(q) && q.IsBetterThan(r) ==> p.IsBetterThan(r)
  {
  }

  ghost function Elements(list: seq<Individual>): set<Individual> {
    set p | p in list
  }

  ghost function Dominators(p: Individual, rest: set<Individual>): set<Individual> {
    set q | q in rest && q.IsBetterThan(p)
  }

  ghost function Nondominated(rest: set<Individual>): set<Individual> {
    set p | p in rest && Dominators(p, rest) == {}
  }

  /** Who is left of `pop` after taking all of `fronts` away. */
  ghost function Rest(pop: set<Individual>, fronts: seq<seq<Individual>>): set<Individual> {
    if fronts == [] then pop else Rest(pop, fronts[..|fronts| - 1]) - Elements(fronts[|fronts| - 1])
  }

  /** Front after front is exactly the non-dominated part of what the earlier fronts left over. */
  ghost predicate Peeling(pop: set<Individual>, fronts: seq<seq<Individual>>) {
    fronts != [] ==>
      var init, last := fronts[..|fronts| - 1], fronts[|fronts| - 1];
      Peeling(pop, init) && NoRepeats(last) && Elements(last) == Nondominated(Rest(pop, init))
  }

  /** The fronts of the whole population. An empty population has one empty front. */
  ghost predicate Fronts(pop: set<Individual>, fronts: seq<seq<Individual>>) {
    && fronts != [] && Peeling(pop, fronts) && Rest(pop, fronts) == {}
    && (pop == {} ==> fronts == [[]])
    && (pop != {} ==> forall k :: 0 <= k < |fronts| ==> fronts[k] != [])
  }

  /** Everyone in `chain` is better than the next one. */
  ghost predicate Chain(pop: set<Individual>, chain: seq<Individual>, last: Individual) {
    && chain != [] && chain[|chain| - 1] == last
    && (forall i :: 0 <= i < |chain| ==> chain[i] in pop)
    && (forall i :: 0 <= i < |chain| - 1 ==> chain[i].IsBetterThan(chain[i + 1]))
  }

  // ---------- what a peeling means ----------

  lemma {:induction false} RestBefore(pop: set<Individual>, fronts: seq<seq<Individual>>, p: Individual)
    ensures p in Rest(pop, fronts) <==> p in pop && forall k :: 0 <= k < |fronts| ==> p !in fronts[k]
  {
    if fronts != [] {
      var init := fronts[..|fronts| - 1];
      RestBefore(pop, init, p);
      assert forall k :: 0 <= k < |init| ==> init[k] == fronts[k];
    }
  }

  lemma {:induction false} FrontAt(pop: set<Individual>, fronts: seq<seq<Individual>>, k: nat)
    requires Peeling(pop, fronts) && k < |fronts|
    ensures NoRepeats(fronts[k]) && Elements(fronts[k]) == Nondominated(Rest(pop, fronts[..k]))
    decreases |fronts|
  {
    if k < |fronts| - 1 {
      var init := fronts[..|fronts| - 1];
      FrontAt(pop, init, k);
      assert init[..k] == fronts[..k];
    }
  }

  /** In front `k` means: not in an earlier front, and nobody outside the earlier fronts is better. */
  lemma InFront(pop: set<Individual>, fronts: seq<seq<Individual>>, k: nat, p: Individual)
    requires Peeling(pop, fronts) && k < |fronts|
    ensures p in fronts[k] <==> p in Rest(pop, fronts[..k]) && Dominators(p, Rest(pop, fronts[..k])) == {}
  {
    FrontAt(pop, fronts, k);
    assert p in fronts[k] <==> p in Elements(fronts[k]);
  }

  /** The fronts partition the population. */
  lemma FrontsPartition(pop: set<Individual>, fronts: seq<seq<Individual>>, p: Individual)
    requires Fronts(pop, fronts)
    ensures p in pop <==> exists k :: 0 <= k < |fronts| && p in fronts[k]
    ensures forall a, b :: 0 <= a < b < |fronts| ==> !(p in fronts[a] && p in fronts[b])
    ensures forall k :: 0 <= k < |fronts| ==> NoRepeats(fronts[k])
  {
    RestBefore(pop, fronts, p);
    forall k | 0 <= k < |fronts|
      ensures NoRepeats(fronts[k])
      ensures p in fronts[k] ==> p in pop && forall a :: 0 <= a < k ==> p !in fronts[a]
    {
      FrontAt(pop, fronts, k);
      InFront(pop, fronts, k, p);
      RestBefore(pop, fronts[..k], p);
      assert forall a :: 0 <= a < k ==> fronts[..k][a] == fronts[a];
    }
  }

  /** A better individual is always in an earlier front. */
  lemma BetterIsEarlier(pop: set<Individual>, fronts: seq<seq<Individual>>, q: Individual, p: Individual, k: nat)
    requires Peeling(pop, fronts) && k < |fronts| && p in fronts[k] && q in pop && q.IsBetterThan(p)
    ensures exists a :: 0 <= a < k && q in fronts[a]
  {
    InFront(pop, fronts, k, p);
    RestBefore(pop, fronts[..k], q);
    assert q !in Dominators(p, Rest(pop, fronts[..k]));
    var a :| 0 <= a < k && q in fronts[..k][a];
    assert fronts[..k][a] == fronts[a];
  }

  /** Everyone outside the first front has a better one in the front just before. */
  lemma DominatedFromBefore(pop: set<Individual>, fronts: seq<seq<Individual>>, p: Individual, k: nat)
    returns (q: Individual)
    requires Peeling(pop, fronts) && 0 < k < |fronts| && p in fronts[k]
    ensures q in fronts[k - 1] && q.IsBetterThan(p)
  {
    InFront(pop, fronts, k, p);
    InFront(pop, fronts, k - 1, p);
    RestBefore(pop, fronts[..k], p);
    RestBefore(pop, fronts[..k - 1], p);
    assert forall a :: 0 <= a < k ==> fronts[..k][a] == fronts[a];
    assert forall a :: 0 <= a < k - 1 ==> fronts[..k - 1][a] == fronts[..k][a];
    assert p !in fronts[..k][k - 1];
    q :| q in Dominators(p, Rest(pop, fronts[..k - 1]));
    assert fronts[..k][..k - 1] == fronts[..k - 1];
    assert Rest(pop, fronts[..k]) == Rest(pop, fronts[..k - 1]) - Elements(fronts[k - 1]);
    assert q !in Dominators(p, Rest(pop, fronts[..k]));
  }

  lemma {:induction false} LongestChain(pop: set<Individual>, fronts: seq<seq<Individual>>, p: Individual, k: nat)
    returns (chain: seq<Individual>)
    requires Peeling(pop, fronts) && k < |fronts| && p in fronts[k]
    ensures |chain| == k + 1 && Chain(pop, chain, p)
    decreases k
  {
    InFront(pop, fronts, k, p);
    RestBefore(pop, fronts[..k], p);
    if k == 0 {
      chain := [p];
    } else {
      var q := DominatedFromBefore(pop, fronts, p, k);
      var before := LongestChain(pop, fronts, q, k - 1);
      chain := before + [p];
    }
  }

  lemma {:induction false} NoLongerChain(pop: set<Individual>, fronts: seq<seq<Individual>>, chain: seq<Individual>,
                                         p: Individual, k: nat)
    requires Peeling(pop, fronts) && k < |fronts| && p in fronts[k] && Chain(pop, chain, p)
    ensures |chain| <= k + 1
    decreases |chain|
  {
    if |chain| > 1 {
      var before, q := chain[..|chain| - 1], chain[|chain| - 2];
      assert q.IsBetterThan(chain[|chain| - 2 + 1]);
      BetterIsEarlier(pop, fronts, q, p, k);
      var a :| 0 <= a < k && q in fronts[a];
      NoLongerChain(pop, fronts, before, q, a);
    }
  }

  /** The first front in delays and losses: those for whom everybody has more delay, more loss, or the same of both. */
  lemma FirstFrontMeaning(pop: set<Individual>, fronts: seq<seq<Individual>>, p: Individual)
    requires Fronts(pop, fronts)
    ensures p in fronts[0] <==>
            && p in pop
            && forall q :: q in pop ==> q.delay > p.delay || q.loss > p.loss || (q.delay == p.delay && q.loss == p.loss)
  {
    InFront(pop, fronts, 0, p);
    assert Rest(pop, fronts[..0]) == pop;
    forall q | q in pop
      ensures q !in Dominators(p, pop) <==>
              q.delay > p.delay || q.loss > p.loss || (q.delay == p.delay && q.loss == p.loss)
    {
      BetterMeaning(q, p);
    }
  }

  /** The number of the front is the length of the longest chain of ever better individuals above `p`. */
  lemma FrontNumber(pop: set<Individual>, fronts: seq<seq<Individual>>, p: Individual, k: nat)
    requires Fronts(pop, fronts) && p in pop && k < |fronts|
    ensures p in fronts[k] <==>
            && (exists chain :: |chain| == k + 1 && Chain(pop, chain, p))
            && (forall chain :: Chain(pop, chain, p) ==> |chain| <= k + 1)
  {
    FrontsPartition(pop, fronts, p);
    var j :| 0 <= j < |fronts| && p in fronts[j];
    var longest := LongestChain(pop, fronts, p, j);
    forall chain | Chain(pop, chain, p)
      ensures |chain| <= j + 1
    {
      NoLongerChain(pop, fronts, chain, p, j);
    }
  }

  /** Among finitely many individuals somebody is not dominated. */
  lemma {:induction false} SomebodyNondominated(rest: set<Individual>)
    requires rest != {}
    ensures Nondominated(rest) != {}
  {
    var p := LeastSum(rest);
    assert p in Nondominated(rest);
  }

  lemma {:induction false} LeastSum(rest: set<Individual>) returns (p: Individual)
    requires rest != {}
    ensures p in rest && forall q :: q in rest ==> p.delay + p.loss <= q.delay + q.loss
  {
    p :| p in rest;
    if rest != {p} {
      var best := LeastSum(rest - {p});
      if best.delay + best.loss < p.delay + p.loss {
        p := best;
      }
    }
  }
}
