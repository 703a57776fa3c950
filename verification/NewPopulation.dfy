/** `make_new_population`: the survivors of a generation. */
module NewPopulation {
  import opened Walks
  import opened Dominance
  import opened NonDominatedSort
  import opened CrowdingSort

  /** All fronts, one after the other. */
  ghost function Joined(fronts: seq<seq<Individual>>): seq<Individual> {
    if fronts == [] then [] else Joined(fronts[..|fronts| - 1]) + fronts[|fronts| - 1]
  }

  /** Nobody is better than somebody before it. */
  ghost predicate NeverBetter(list: seq<Individual>) {
    forall a, b :: 0 <= a < b < |list| ==> !list[b].IsBetterThan(list[a])
  }

  lemma {:induction false} PeelingPermuted(pop: set<Individual>, fronts: seq<seq<Individual>>,
                                           sorted: seq<seq<Individual>>)
    requires Peeling(pop, fronts) && |sorted| == |fronts|
    requires forall k :: 0 <= k < |fronts| ==> multiset(sorted[k]) == multiset(fronts[k])
    ensures Peeling(pop, sorted) && Rest(pop, sorted) == Rest(pop, fronts)
    decreases |fronts|
  {
    if fronts != [] {
      var n := |fronts| - 1;
      PeelingPermuted(pop, fronts[..n], sorted[..n]);
      Permuted(fronts[n], sorted[n]);
    }
  }

  /** Reordering inside the fronts leaves them the fronts of the population. */
  lemma FrontsPermuted(pop: set<Individual>, fronts: seq<seq<Individual>>, sorted: seq<seq<Individual>>)
    requires Fronts(pop, fronts) && |sorted| == |fronts|
    requires forall k :: 0 <= k < |fronts| ==> multiset(sorted[k]) == multiset(fronts[k])
    ensures Fronts(pop, sorted)
  {
    PeelingPermuted(pop, fronts, sorted);
    forall k | 0 <= k < |fronts|
      ensures |sorted[k]| == |fronts[k]|
    {
      Permuted(fronts[k], sorted[k]);
    }
  }

  lemma FrontsDisjoint(pop: set<Individual>, fronts: seq<seq<Individual>>)
    requires Fronts(pop, fronts)
    ensures Disjoint(fronts) && forall k :: 0 <= k < |fronts| ==> Elements(fronts[k]) <= pop
  {
    forall k | 0 <= k < |fronts|
      ensures NoRepeats(fronts[k]) && Elements(fronts[k]) <= pop
    {
      FrontAt(pop, fronts, k);
      forall p | p in fronts[k]
        ensures p in pop
      {
        FrontsPartition(pop, fronts, p);
      }
    }
    forall a, b, p | 0 <= a < b < |fronts| && p in fronts[a]
      ensures p !in fronts[b]
    {
      FrontsPartition(pop, fronts, p);
    }
  }

  lemma {:induction false} JoinedElements(fronts: seq<seq<Individual>>, p: Individual)
    ensures p in Joined(fronts) <==> exists k :: 0 <= k < |fronts| && p in fronts[k]
  {
    if fronts != [] {
      var n := |fronts| - 1;
      JoinedElements(fronts[..n], p);
      assert forall k :: 0 <= k < n ==> fronts[..n][k] == fronts[k];
      assert p in fronts[n] ==> exists k :: 0 <= k < |fronts| && p in fronts[k];
    }
  }

  lemma {:induction false} JoinedOrder(pop: set<Individual>, fronts: seq<seq<Individual>>)
    requires Peeling(pop, fronts)
    ensures NoRepeats(Joined(fronts)) && NeverBetter(Joined(fronts))
  {
    if fronts != [] {
      var n := |fronts| - 1;
      var front, before := fronts[n], Joined(fronts[..n]);
      JoinedOrder(pop, fronts[..n]);
      forall i, j | 0 <= i < |front| && 0 <= j < |front|
        ensures !front[i].IsBetterThan(front[j])
      {
        SameFront(pop, fronts, n, front[i], front[j]);
      }
      forall i, j | 0 <= i < |before| && 0 <= j < |front|
        ensures !front[j].IsBetterThan(before[i]) && before[i] != front[j]
      {
        JoinedElements(fronts[..n], before[i]);
        var k :| 0 <= k < n && before[i] in fronts[..n][k];
        EarlierFront(pop, fronts, k, n, before[i], front[j]);
      }
      assert Joined(fronts) == before + front;
    }
  }

  lemma SameFront(pop: set<Individual>, fronts: seq<seq<Individual>>, k: nat, q: Individual, p: Individual)
    requires Peeling(pop, fronts) && k < |fronts| && q in fronts[k] && p in fronts[k]
    ensures !q.IsBetterThan(p)
  {
    InFront(pop, fronts, k, p);
    InFront(pop, fronts, k, q);
    assert q !in Dominators(p, Rest(pop, fronts[..k]));
  }

  lemma EarlierFront(pop: set<Individual>, fronts: seq<seq<Individual>>, k: nat, n: nat, p: Individual, q: Individual)
    requires Peeling(pop, fronts) && k < n < |fronts| && p in fronts[k] && q in fronts[n]
    ensures !q.IsBetterThan(p) && p != q
  {
    InFront(pop, fronts, k, p);
    InFront(pop, fronts, n, q);
    RestBefore(pop, fronts[..n], q);
    RestBefore(pop, fronts[..k], q);
    assert forall a :: 0 <= a < k ==> fronts[..k][a] == fronts[..n][a];
    assert fronts[..n][k] == fronts[k];
    assert q in Rest(pop, fronts[..k]);
    assert q !in Dominators(p, Rest(pop, fronts[..k]));
  }

  lemma {:induction false} CountElements(list: seq<Individual>)
    requires NoRepeats(list)
    ensures |Elements(list)| == |list|
  {
    if list != [] {
      var n := |list| - 1;
      CountElements(list[..n]);
      assert Elements(list) == Elements(list[..n]) + {list[n]};
    }
  }

  /** The joined fronts are everybody, once each. */
  lemma JoinedAll(union: seq<Individual>, fronts: seq<seq<Individual>>)
    requires NoRepeats(union) && Fronts(Elements(union), fronts)
    ensures |Joined(fronts)| == |union| && Elements(Joined(fronts)) == Elements(union)
    ensures NoRepeats(Joined(fronts)) && NeverBetter(Joined(fronts))
  {
    JoinedOrder(Elements(union), fronts);
    forall p
      ensures p in Joined(fronts) <==> p in Elements(union)
    {
      JoinedElements(fronts, p);
      FrontsPartition(Elements(union), fronts, p);
    }
    assert Elements(Joined(fronts)) == Elements(union);
    CountElements(Joined(fronts));
    CountElements(union);
  }

  /** A population has only one sequence of fronts, up to the order inside them. */
  lemma {:induction false} FrontsUnique(pop: set<Individual>, f1: seq<seq<Individual>>, f2: seq<seq<Individual>>,
                                        k: nat)
    requires Peeling(pop, f1) && Peeling(pop, f2) && k <= |f1| && k <= |f2|
    ensures Rest(pop, f1[..k]) == Rest(pop, f2[..k])
    ensures forall i :: 0 <= i < k ==> Elements(f1[i]) == Elements(f2[i])
  {
    if k > 0 {
      FrontsUnique(pop, f1, f2, k - 1);
      FrontAt(pop, f1, k - 1);
      FrontAt(pop, f2, k - 1);
      assert f1[..k][..k - 1] == f1[..k - 1] && f2[..k][..k - 1] == f2[..k - 1];
    }
  }

  ghost predicate SomeDegenerate(fronts: seq<seq<Individual>>) {
    exists k :: 0 <= k < |fronts| && Degenerate(fronts[k])
  }

  ghost function Lists(arranged: seq<Arrangement>): seq<seq<Individual>> {
    seq(|arranged|, k requires 0 <= k < |arranged| => arranged[k].sorted)
  }

  /** Everybody once, front after front, and nobody better than somebody before it. */
  ghost predicate Ranked(union: seq<Individual>, list: seq<Individual>) {
    |list| == |union| && Elements(list) == Elements(union) && NoRepeats(list) && NeverBetter(list)
  }

  ghost predicate AllArranged(fronts: seq<seq<Individual>>, arranged: seq<Arrangement>) {
    |arranged| == |fronts| && forall k :: 0 <= k < |fronts| ==> Arranged(fronts[k], arranged[k])
  }

  lemma RankedLists(union: seq<Individual>, fronts: seq<seq<Individual>>, arranged: seq<Arrangement>)
    requires NoRepeats(union) && Fronts(Elements(union), fronts) && AllArranged(fronts, arranged)
    ensures Ranked(union, Joined(Lists(arranged)))
  {
    FrontsPermuted(Elements(union), fronts, Lists(arranged));
    JoinedAll(union, Lists(arranged));
  }

  /** The sort of distinct individuals. */
  method SortDistinct(unionList: seq<Individual>) returns (fronts: seq<seq<Individual>>)
    requires NoRepeats(unionList)
    modifies unionList
    ensures Fronts(Elements(unionList), fronts)
    ensures forall p :: p in Elements(unionList) ==> p.crowdingDistance == 0.0
  {
    DistinctBestOnce(unionList);
    fronts := FastNondominateSort(unionList);
  }

  method Join(sets: seq<seq<Individual>>) returns (list: seq<Individual>)
    ensures list == Joined(sets)
  {
    list := [];
    for k := 0 to |sets|
      invariant list == Joined(sets[..k])
    {
      assert sets[..k + 1][..k] == sets[..k];
      list := list + sets[k];
    }
    assert sets[..|sets|] == sets;
  }

  class NSGA2 {
    const populationSize: nat
    var currentPopulation: seq<Individual>
    var externalPopulation: seq<Individual>

    constructor (populationSize: nat)
      ensures this.populationSize == populationSize && currentPopulation == [] && externalPopulation == []
    {
      this.populationSize := populationSize;
      currentPopulation, externalPopulation := [], [];
    }

    /** The survivors: as many as wanted, distinct, and nobody left out is better than one of them. */
    ghost predicate Survivors(union: seq<Individual>)
      reads this
    {
      && |currentPopulation| == populationSize
      && NoRepeats(currentPopulation) && Elements(currentPopulation) <= Elements(union)
      && forall kept, discarded ::
           kept in currentPopulation && discarded in union && discarded !in currentPopulation ==>
             !discarded.IsBetterThan(kept)
    }

    /**
     * Keeps the first `populationSize` of the joined fronts, the loneliest of each front first. Fails only when
     * a front of three or more has no delay at all.
     */
    method MakeNewPopulation() returns (ok: bool, ghost fronts: seq<seq<Individual>>, ghost arranged: seq<Arrangement>)
      requires NoRepeats(currentPopulation + externalPopulation)
      requires populationSize <= |currentPopulation| + |externalPopulation|
      modifies this`currentPopulation, currentPopulation, externalPopulation
      ensures Fronts(Elements(old(currentPopulation + externalPopulation)), fronts)
      ensures ok <==> !SomeDegenerate(fronts)
      ensures !ok ==> currentPopulation == old(currentPopulation)
      ensures ok ==> Survivors(old(currentPopulation + externalPopulation))
      ensures ok ==> AllArranged(fronts, arranged) && currentPopulation <= Joined(Lists(arranged))
      ensures ok ==> forall k :: 0 <= k < |arranged| ==> Tracks(arranged[k].note)
    {
      var unionList := currentPopulation + externalPopulation;
      ghost var pop := Elements(unionList);
      var sets, sorted;
      sets := SortDistinct(unionList);
      fronts := sets;
      FrontsDisjoint(pop, sets);
      ok, sorted, arranged := CrowdingDistanceSort(sets, pop);
      if !ok {
        return;
      }
      RankedLists(unionList, fronts, arranged);
      assert sorted == Lists(arranged);
      var newPopulation := Join(sorted);
      Kept(unionList, newPopulation, populationSize);
      TakeFirst(newPopulation);
    }

    method TakeFirst(newPopulation: seq<Individual>)
      requires populationSize <= |newPopulation|
      modifies this`currentPopulation
      ensures currentPopulation == newPopulation[..populationSize]
    {
      currentPopulation := [];
      for i := 0 to populationSize
        invariant currentPopulation == newPopulation[..i]
      {
        currentPopulation := currentPopulation + [newPopulation[i]];
      }
    }
  }

  lemma Kept(union: seq<Individual>, list: seq<Individual>, n: nat)
    requires n <= |list| && Ranked(union, list)
    ensures NoRepeats(list[..n]) && Elements(list[..n]) <= Elements(union)
    ensures forall kept, discarded :: kept in list[..n] && discarded in union && discarded !in list[..n] ==>
              !discarded.IsBetterThan(kept)
  {
    assert list == list[..n] + list[n..];
    assert Elements(list[..n]) <= Elements(list);
    forall kept, discarded | kept in list[..n] && discarded in union && discarded !in list[..n]
      ensures !discarded.IsBetterThan(kept)
    {
      assert discarded in Elements(union);
      var a :| 0 <= a < n && list[..n][a] == kept;
      var b :| 0 <= b < |list| - n && list[n..][b] == discarded;
      assert list[a] == kept && list[n + b] == discarded;
    }
  }

  /** Three individuals without delay and with the same loss are one front, which cannot be given distances. */
  lemma NoDelayDegenerate(a: Individual, b: Individual, c: Individual, fronts: seq<seq<Individual>>)
    requires NoRepeats([a, b, c]) && a.delay == b.delay == c.delay == 0.0 && a.loss == b.loss == c.loss
    requires Fronts(Elements([a, b, c]), fronts)
    ensures SomeDegenerate(fronts)
  {
    var pop := Elements([a, b, c]);
    assert a in pop && b in pop && c in pop;
    FrontAt(pop, fronts, 0);
    assert fronts[..0] == [];
    assert Nondominated(pop) == pop;
    assert forall p :: p in fronts[0] ==> p in Elements(fronts[0]);
    assert forall i :: 0 <= i < |fronts[0]| ==> fronts[0][i] in fronts[0];
    CountElements(fronts[0]);
    CountElements([a, b, c]);
    assert Degenerate(fronts[0]);
  }

  /** A failing round: three paths without delay. */
  method NoDelayRound(loss: real) returns (ok: bool)
    ensures !ok
  {
    var a := new Individual(0.0, loss);
    var b := new Individual(0.0, loss);
    var c := new Individual(0.0, loss);
    var nsga := new NSGA2(3);
    nsga.currentPopulation := [a, b, c];
    assert [a, b, c] + [] == [a, b, c];
    ghost var fronts, arranged;
    ok, fronts, arranged := nsga.MakeNewPopulation();
    NoDelayDegenerate(a, b, c, fronts);
  }
}
