/** `MGAlgorithm`: evolving the sets of edges that multicast trees are built from. */
module MulticastGenetics {
  import opened Walks
  import opened GeneCrossing
  import MT = MulticastTree

  datatype Chromosome = Chromosome(genes: seq<bool>, fitness: real)

  type Population = seq<Chromosome>

  ghost predicate Sized(population: Population, edges: nat) {
    forall i :: 0 <= i < |population| ==> |population[i].genes| == edges
  }

  /** What chance decides in one generation: the shuffle, the pairs, the flips, the candidates of the tournaments. */
  datatype Luck = Luck(shuffle: nat -> nat, pairs: nat -> PairLuck, flips: nat -> nat -> bool,
                       candidates: nat -> nat -> nat)

  // ---------- crossover ----------

  /**
   * What crossover does to the chromosomes `p` and `q`: one that stands out stays and the other becomes its copy;
   * otherwise they exchange genes as the luck of the pair says.
   */
  ghost predicate Paired(before: Population, after: Population, p: nat, q: nat, outstanding: Option<nat>,
                         luck: PairLuck, selected: seq<nat>) {
    && p < |before| == |after| && q < |before|
    && if outstanding == Some(p) then after[p] == before[p] && after[q] == before[p]
       else if outstanding == Some(q) then after[q] == before[q] && after[p] == before[q]
       else Exchanged(luck, selected, before[p].genes, before[q].genes, after[p].genes, after[q].genes) &&
            after[p].fitness == before[p].fitness && after[q].fitness == before[q].fitness
  }

  /** Then they keep their genes at every locus between them. */
  lemma PairedSameGenes(before: Population, after: Population, p: nat, q: nat, outstanding: Option<nat>,
                        luck: PairLuck, selected: seq<nat>, edges: nat)
    requires Paired(before, after, p, q, outstanding, luck, selected) && Sized(before, edges)
    requires outstanding != Some(p) && outstanding != Some(q)
    ensures SameGenes(before[p].genes, before[q].genes, after[p].genes, after[q].genes)
  {
    ExchangedSameGenes(luck, selected, before[p].genes, before[q].genes, after[p].genes, after[q].genes);
  }

  lemma PairedKept(before: Population, now: Population, later: Population, p: nat, q: nat, outstanding: Option<nat>,
                   luck: PairLuck, selected: seq<nat>)
    requires Paired(before, now, p, q, outstanding, luck, selected)
    requires |later| == |now| && later[p] == now[p] && later[q] == now[q]
    ensures Paired(before, later, p, q, outstanding, luck, selected)
  {
  }

  /** The pair at places `2 * t` and `2 * t + 1` of the order is crossed. */
  ghost predicate Mixes(order: seq<nat>, t: nat, outstanding: Option<nat>, pairs: nat -> PairLuck) {
    && 2 * t + 1 < |order| && Some(order[2 * t]) != outstanding && Some(order[2 * t + 1]) != outstanding
    && pairs(t).cross
  }

  /** The segments selected by the pairs before pair `t`. */
  ghost function SelectedBefore(order: seq<nat>, t: nat, outstanding: Option<nat>, pairs: nat -> PairLuck): seq<nat> {
    if t == 0 then []
    else
      var selected := SelectedBefore(order, t - 1, outstanding, pairs);
      if Mixes(order, t - 1, outstanding, pairs) then WithDrawn(selected, pairs(t - 1).segments, 3) else selected
  }

  /** The same for the pair at places `2 * t` and `2 * t + 1` of the order. */
  ghost predicate PairAt(before: Population, after: Population, order: seq<nat>, t: nat, outstanding: Option<nat>,
                         pairs: nat -> PairLuck) {
    2 * t + 1 < |order| &&
    Paired(before, after, order[2 * t], order[2 * t + 1], outstanding, pairs(t),
           SelectedBefore(order, t, outstanding, pairs))
  }

  /** The order pairs every chromosome of the population exactly once. */
  ghost predicate Pairing(before: Population, order: seq<nat>) {
    Permutation(order, |order|) && |order| <= |before| && |order| % 2 == 0
  }

  /** The first `n` pairs of the order are done, the others are untouched. */
  ghost predicate Mating(before: Population, now: Population, order: seq<nat>, n: nat, outstanding: Option<nat>,
                         pairs: nat -> PairLuck) {
    && |now| == |before| && 2 * n <= |order|
    && (forall t: nat :: t < n ==> PairAt(before, now, order, t, outstanding, pairs))
    && (forall v: nat :: v < |before| && v !in order[..2 * n] ==> now[v] == before[v])
  }

  lemma MatingNext(before: Population, now: Population, later: Population, order: seq<nat>, n: nat,
                   outstanding: Option<nat>, pairs: nat -> PairLuck)
    requires Pairing(before, order) && Mating(before, now, order, n, outstanding, pairs) && 2 * n + 1 < |order|
    requires PairAt(before, later, order, n, outstanding, pairs)
    requires forall v :: 0 <= v < |now| && v != order[2 * n] && v != order[2 * n + 1] ==> later[v] == now[v]
    ensures Mating(before, later, order, n + 1, outstanding, pairs)
  {
    assert order[..2 * (n + 1)] == order[..2 * n] + [order[2 * n], order[2 * n + 1]];
    forall t: nat | t < n + 1
      ensures PairAt(before, later, order, t, outstanding, pairs)
    {
      if t < n {
        assert PairAt(before, now, order, t, outstanding, pairs);
        PairedKept(before, now, later, order[2 * t], order[2 * t + 1], outstanding, pairs(t),
                   SelectedBefore(order, t, outstanding, pairs));
      }
    }
    forall v: nat | v < |before| && v !in order[..2 * (n + 1)]
      ensures later[v] == before[v]
    {
      assert v !in order[..2 * n];
    }
  }

  /** One chromosome follows the outstanding one: its partner, which has become its copy. */
  ghost predicate Follows(before: Population, after: Population, outstanding: Option<nat>, follow: Option<nat>) {
    match outstanding
    case None => follow == None
    case Some(o) =>
      && o < |before| == |after| && after[o] == before[o]
      && follow.Some? && follow.value < |after| && follow.value != o && after[follow.value] == before[o]
  }

  /** The partner of the chromosome at place `i` of the order. */
  function Partner(order: seq<nat>, i: nat): nat
    requires i < |order| && |order| % 2 == 0
  {
    if i % 2 == 0 then order[i + 1] else order[i - 1]
  }

  lemma PartnerFollows(before: Population, after: Population, order: seq<nat>, o: nat, pairs: nat -> PairLuck)
    returns (i: nat)
    requires Pairing(before, order) && Mating(before, after, order, |order| / 2, Some(o), pairs) && o < |order|
    ensures i < |order| && order[i] == o && Follows(before, after, Some(o), Some(Partner(order, i)))
  {
    i := PlaceOf(order, |order|, o);
    assert PairAt(before, after, order, i / 2, Some(o), pairs);
  }

  class MGAlgorithm {
    const m: MT.Network
    const r: MT.Request
    const candidateQuantity: int
    var population: Population
    var chromosomeQuantity: nat

    constructor (m: MT.Network, r: MT.Request, candidateQuantity: int, population: Population, chromosomeQuantity: nat)
      ensures this.m == m && this.r == r && this.candidateQuantity == candidateQuantity
      ensures this.population == population && this.chromosomeQuantity == chromosomeQuantity
    {
      this.m, this.r, this.candidateQuantity := m, r, candidateQuantity;
      this.population, this.chromosomeQuantity := population, chromosomeQuantity;
    }

    /** The network and the request make sense, and there is an even number of chromosomes. */
    ghost predicate Valid()
      reads this
    {
      && MT.ValidNetwork(m) && MT.ValidRequest(m, r) && Sized(population, |m.edges|)
      && 0 < chromosomeQuantity <= |population| && chromosomeQuantity % 2 == 0
    }

    /** Crosses two chromosomes at the drawn cuts, in the segments drawn for this and earlier pairs. */
    method Cross(p: nat, q: nat, luck: PairLuck, selected: seq<nat>) returns (more: seq<nat>)
      requires Sized(population, |m.edges|) && p < |population| && q < |population| && p != q && Segments(selected)
      requires luck.cross
      modifies this`population
      ensures Segments(more) && more == WithDrawn(selected, luck.segments, 3)
      ensures |population| == old(|population|)
      ensures forall v :: 0 <= v < |population| && v != p && v != q ==> population[v] == old(population)[v]
      ensures population[p].fitness == old(population)[p].fitness && population[q].fitness == old(population)[q].fitness
      ensures Exchanged(luck, selected, old(population)[p].genes, old(population)[q].genes, population[p].genes,
                        population[q].genes)
    {
      var position := DrawCuts(luck.cuts, |m.edges|);
      var sorted := SortCuts(position);
      assert sorted[5] <= |m.edges| by {
        assert sorted[5] in multiset(sorted);
        assert sorted[5] in multiset(position);
      }
      more := DrawSegments(selected, luck.segments);
      var c, d := SwapSegments(population[p].genes, population[q].genes, sorted, more);
      assert CutsOf(sorted, luck.cuts, |m.edges|);
      population := population[p := population[p].(genes := c)][q := population[q].(genes := d)];
    }

    /** What happens to one pair. */
    method Mate(p: nat, q: nat, outstanding: Option<nat>, luck: PairLuck, selected: seq<nat>)
      returns (more: seq<nat>, follow: Option<nat>)
      requires Sized(population, |m.edges|) && p < |population| && q < |population| && p != q && Segments(selected)
      modifies this`population
      ensures Segments(more) && |population| == old(|population|)
      ensures more == if outstanding != Some(p) && outstanding != Some(q) && luck.cross
                      then WithDrawn(selected, luck.segments, 3) else selected
      ensures forall v :: 0 <= v < |population| && v != p && v != q ==> population[v] == old(population)[v]
      ensures Paired(old(population), population, p, q, outstanding, luck, selected)
      ensures follow == if outstanding == Some(p) then Some(q) else if outstanding == Some(q) then Some(p) else None
    {
      more, follow := selected, None;
      if outstanding != Some(p) && outstanding != Some(q) {
        if luck.cross {
          more := Cross(p, q, luck, selected);
        }
      } else if outstanding == Some(p) {
        population := population[q := population[p]];
        follow := Some(q);
      } else {
        population := population[p := population[q]];
        follow := Some(p);
      }
    }

    /** Where crossover stands after `n` pairs. */
    ghost predicate Crossing(before: Population, sequence: seq<nat>, n: nat, outstanding: Option<nat>,
                             pairs: nat -> PairLuck, selected: seq<nat>, follow: Option<nat>)
      reads this
    {
      && Sized(population, |m.edges|) && Segments(selected)
      && selected == SelectedBefore(sequence, n, outstanding, pairs)
      && Mating(before, population, sequence, n, outstanding, pairs) && FollowSoFar(sequence, n, outstanding, follow)
    }

    /** The same for the next pair of the order. */
    method MateNext(sequence: seq<nat>, n: nat, outstanding: Option<nat>, pairs: nat -> PairLuck, selected: seq<nat>,
                    follow: Option<nat>, ghost before: Population) returns (more: seq<nat>, newFollow: Option<nat>)
      requires Pairing(before, sequence) && 2 * n + 1 < |sequence|
      requires Crossing(before, sequence, n, outstanding, pairs, selected, follow)
      modifies this`population
      ensures Crossing(before, sequence, n + 1, outstanding, pairs, more, newFollow)
    {
      ghost var now := population;
      var p, q := sequence[2 * n], sequence[2 * n + 1];
      NotYet(sequence, n);
      var f;
      more, f := Mate(p, q, outstanding, pairs(n), selected);
      newFollow := if f.Some? then f else follow;
      FollowNext(sequence, n, outstanding, follow);
      MatingNext(before, now, population, sequence, n, outstanding, pairs);
      SizedNext(now, population, p, q, outstanding, pairs(n), selected, |m.edges|);
    }

    /** The same for all pairs of the order. */
    method MateAll(sequence: seq<nat>, outstanding: Option<nat>, pairs: nat -> PairLuck) returns (follow: Option<nat>)
      requires Pairing(population, sequence) && Sized(population, |m.edges|)
      modifies this`population
      ensures Sized(population, |m.edges|)
      ensures Mating(old(population), population, sequence, |sequence| / 2, outstanding, pairs)
      ensures FollowSoFar(sequence, |sequence| / 2, outstanding, follow)
    {
      follow := None;
      var selected: seq<nat> := [];
      assert sequence[..0] == [];
      for n := 0 to |sequence| / 2
        invariant Crossing(old(population), sequence, n, outstanding, pairs, selected, follow)
      {
        selected, follow := MateNext(sequence, n, outstanding, pairs, selected, follow, old(population));
      }
    }

    /** Shuffles, then mates the chromosomes in pairs. The outstanding one comes through, with a copy beside it. */
    method Crossover(outstanding: Option<nat>, shuffle: nat -> nat, pairs: nat -> PairLuck)
      returns (follow: Option<nat>, ghost order: seq<nat>)
      requires Valid() && (outstanding.Some? ==> outstanding.value < chromosomeQuantity)
      modifies this`population
      ensures Valid() && |population| == old(|population|)
      ensures Pairing(old(population), order) && order == Shuffled(chromosomeQuantity, shuffle, chromosomeQuantity)
      ensures Mating(old(population), population, order, chromosomeQuantity / 2, outstanding, pairs)
      ensures Follows(old(population), population, outstanding, follow)
    {
      ghost var before := population;
      var sequence := Shuffle(chromosomeQuantity, shuffle);
      order := sequence;
      follow := MateAll(sequence, outstanding, pairs);
      match outstanding
      case None =>
      case Some(o) =>
        ghost var i := PartnerFollows(before, population, order, o, pairs);
    }

    /** Flips the drawn genes, except those of the outstanding chromosome and its copy. */
    method Variation(outstanding: Option<nat>, follow: Option<nat>, flips: nat -> nat -> bool)
      requires Valid()
      modifies this`population
      ensures Valid() && Varied(old(population), population, chromosomeQuantity, outstanding, follow, flips)
    {
      for i := 0 to chromosomeQuantity
        invariant Sized(population, |m.edges|)
        invariant Varied(old(population), population, i, outstanding, follow, flips)
      {
        if Some(i) != outstanding && Some(i) != follow {
          var genes := Flip(population[i].genes, flips(i));
          population := population[i := population[i].(genes := genes)];
        }
      }
    }

    /** Gives every chromosome the fitness of the tree its genes select. */
    method EvaluateAll()
      requires Valid()
      modifies this`population
      ensures Valid() && |population| == old(|population|)
      ensures forall i :: 0 <= i < |population| ==> population[i].genes == old(population)[i].genes
      ensures AllTrue(m, r, population, chromosomeQuantity)
    {
      for j := 0 to chromosomeQuantity
        invariant Sized(population, |m.edges|) && |population| == old(|population|)
        invariant forall i :: 0 <= i < |population| ==> population[i].genes == old(population)[i].genes
        invariant forall i :: 0 <= i < j ==> MT.FitnessOf(m, r, population[i].genes, population[i].fitness)
      {
        var fitness := MT.FitnessEvaluate(m, r, population[j].genes);
        population := population[j := population[j].(fitness := fitness)];
      }
    }

    /** Tournaments: every new chromosome is a copy of the fittest of its candidates. */
    method Selection(draws: seq<seq<nat>>)
      requires Valid() && Tournaments(draws, chromosomeQuantity, candidateQuantity)
      modifies this`population
      ensures Valid() && |population| == chromosomeQuantity
      ensures forall i :: 0 <= i < |population| ==> Won(old(population), draws[i], population[i])
    {
      var chosen: Population := [];
      for i := 0 to chromosomeQuantity
        invariant population == old(population) && |chosen| == i && Sized(chosen, |m.edges|)
        invariant forall k :: 0 <= k < i ==> Won(population, draws[k], chosen[k])
      {
        assert Candidates(draws[i], chromosomeQuantity, candidateQuantity);
        var selected := Champion(draws[i]);
        chosen := chosen + [population[selected]];
      }
      population := chosen;
    }

    /** The fittest of the candidates, an earlier one before a later one. */
    method Champion(row: seq<nat>) returns (selected: nat)
      requires row != [] && forall j :: 0 <= j < |row| ==> row[j] < |population|
      ensures selected < |population| && Won(population, row, population[selected])
    {
      selected := row[0];
      ghost var at := 0;
      for j := 1 to |row|
        invariant 0 <= at < j && selected == row[at]
        invariant forall k :: 0 <= k < j ==> population[selected].fitness <= population[row[k]].fitness
        invariant forall k :: 0 <= k < at ==> population[selected].fitness < population[row[k]].fitness
      {
        if population[selected].fitness > population[row[j]].fitness {
          selected, at := row[j], j;
        }
      }
      assert WonAt(population, row, population[selected], at);
    }

    /** The first chromosome with the least fitness below infinity, or chromosome 0. */
    method EvaluatePopulation() returns (outstanding: nat)
      requires 0 < chromosomeQuantity <= |population|
      ensures FirstBest(population, chromosomeQuantity, outstanding)
    {
      var best := MT.ENDLESS;
      outstanding := 0;
      for i := 0 to chromosomeQuantity
        invariant outstanding < chromosomeQuantity
        invariant best < MT.ENDLESS ==> population[outstanding].fitness == best
        invariant best <= MT.ENDLESS && (best == MT.ENDLESS ==> outstanding == 0)
        invariant forall k :: 0 <= k < i ==> population[k].fitness >= best
        invariant forall k :: 0 <= k < outstanding ==> population[k].fitness > best
      {
        if best > population[i].fitness {
          best, outstanding := population[i].fitness, i;
        }
      }
    }

    /** Crossover, variation and evaluation leave the outstanding chromosome and its fitness as they were. */
    method Breed(outstanding: Option<nat>, luck: Luck) returns (ghost stage: Stage)
      requires Valid() && (outstanding.Some? ==> outstanding.value < chromosomeQuantity)
      requires outstanding.Some? ==>
                 MT.FitnessOf(m, r, population[outstanding.value].genes, population[outstanding.value].fitness)
      modifies this`population
      ensures Valid() && |population| == old(|population|) && AllTrue(m, r, population, chromosomeQuantity)
      ensures outstanding.Some? ==> population[outstanding.value] == old(population)[outstanding.value]
      ensures stage.before == old(population) && stage.outstanding == outstanding && stage.bred == population
      ensures BredBy(stage, luck, chromosomeQuantity)
    {
      ghost var before := population;
      var follow, order := Crossover(outstanding, luck.shuffle, luck.pairs);
      ghost var crossed := population;
      Variation(outstanding, follow, luck.flips);
      ghost var varied := population;
      EvaluateAll();
      stage := Stage(outstanding, before, follow, crossed, varied, population, []);
      if outstanding.Some? {
        ghost var o := outstanding.value;
        assert population[o].genes == before[o].genes;
        MT.FitnessUnique(m, r, before[o].genes, before[o].fitness, population[o].fitness);
      }
    }

    /**
     * One generation. The population that selection starts from still has the outstanding chromosome, every fitness
     * in it is right, and the new population consists of copies from it.
     */
    method Generation(outstanding: Option<nat>, luck: Luck) returns (next: nat, ghost stage: Stage)
      requires Valid() && (outstanding.Some? ==> outstanding.value < chromosomeQuantity)
      requires outstanding.Some? ==>
                 AllTrue(m, r, population, chromosomeQuantity) &&
                 FirstBest(population, chromosomeQuantity, outstanding.value)
      modifies this`population
      ensures Valid() && |population| == chromosomeQuantity && FirstBest(population, chromosomeQuantity, next)
      ensures stage.chosen == population && stage.before == old(population) && stage.outstanding == outstanding
      ensures stage in Possible(m, r, luck, chromosomeQuantity, candidateQuantity)
      ensures AllTrue(m, r, population, chromosomeQuantity)
    {
      stage := Breed(outstanding, luck);
      next := Choose(luck.candidates);
      stage := stage.(chosen := population);
      PossibleMeaning(m, r, stage, luck, chromosomeQuantity, candidateQuantity);
    }

    /** The selection of a generation, and the first best of the chosen. */
    method Choose(candidates: nat -> nat -> nat) returns (next: nat)
      requires Valid() && AllTrue(m, r, population, chromosomeQuantity)
      modifies this`population
      ensures Valid() && |population| == chromosomeQuantity && FirstBest(population, chromosomeQuantity, next)
      ensures Winners(old(population), population, candidates, chromosomeQuantity, candidateQuantity)
      ensures Bred(m, r, old(population), population, chromosomeQuantity)
      ensures AllTrue(m, r, population, chromosomeQuantity)
    {
      ghost var bred := population;
      var draws := Rows(candidates, chromosomeQuantity, candidateQuantity);
      RowsDrawn(candidates, chromosomeQuantity, candidateQuantity);
      Selection(draws);
      WinnersCopies(bred, chromosomeQuantity, candidateQuantity, draws, population);
      CopiesTrue(m, r, bred, chromosomeQuantity, population);
      next := EvaluatePopulation();
    }

    /**
     * All generations, with the luck of each and the population at every stage of it. Every stored fitness is that of
     * the tree the genes select, the best chromosome of a population is still in the next one before its selection, and
     * so the best fitness before a selection is never worse than after the selection before it.
     */
    method GeneticAlgorithm(maxGeneration: nat, luck: nat -> Luck) returns (ghost stages: seq<Stage>)
      requires Valid()
      modifies this`population
      ensures Valid() && |stages| == maxGeneration
      ensures Recorded(m, r, old(population), stages, luck, chromosomeQuantity, candidateQuantity)
      ensures forall i :: 0 <= i < maxGeneration ==> Bred(m, r, stages[i].bred, stages[i].chosen, chromosomeQuantity)
      ensures forall i :: 0 < i < maxGeneration ==>
                KeepsBest(stages[i - 1].chosen, stages[i].bred, chromosomeQuantity)
      ensures NeverRegresses(stages, chromosomeQuantity)
      ensures maxGeneration > 0 ==> population == stages[maxGeneration - 1].chosen && |population| == chromosomeQuantity
      ensures maxGeneration > 0 ==> AllTrue(m, r, population, chromosomeQuantity)
    {
      stages := Run(maxGeneration, luck);
      Regressions(m, r, old(population), stages, luck, chromosomeQuantity, candidateQuantity);
    }

    /** The loop over the generations. */
    method Run(maxGeneration: nat, luck: nat -> Luck) returns (ghost stages: seq<Stage>)
      requires Valid()
      modifies this`population
      ensures Valid() && |stages| == maxGeneration && population == StartOf(old(population), stages, |stages|)
      ensures Recorded(m, r, old(population), stages, luck, chromosomeQuantity, candidateQuantity)
      ensures maxGeneration > 0 ==> AllTrue(m, r, population, chromosomeQuantity) && |population| == chromosomeQuantity
    {
      var outstanding: Option<nat> := None;
      stages := [];
      for i := 0 to maxGeneration
        invariant |stages| == i && Going(outstanding) && population == StartOf(old(population), stages, i)
        invariant outstanding.None? <==> i == 0
        invariant Recorded(m, r, old(population), stages, luck, chromosomeQuantity, candidateQuantity)
      {
        ghost var stage;
        outstanding, stage := Next(outstanding, luck(i));
        RecordedNext(m, r, old(population), stages, stage, luck, chromosomeQuantity, candidateQuantity);
        stages := stages + [stage];
      }
    }

    /** After the first generation the population is complete, evaluated, and its first best chromosome is known. */
    ghost predicate Going(outstanding: Option<nat>)
      reads this
    {
      && Valid()
      && (outstanding.Some? ==>
            && FirstBest(population, chromosomeQuantity, outstanding.value) && |population| == chromosomeQuantity
            && AllTrue(m, r, population, chromosomeQuantity))
    }

    method Next(outstanding: Option<nat>, luck: Luck) returns (now: Option<nat>, ghost stage: Stage)
      requires Going(outstanding)
      modifies this`population
      ensures Going(now) && now.Some?
      ensures stage.chosen == population && stage.before == old(population) && stage.outstanding == outstanding
      ensures stage in Possible(m, r, luck, chromosomeQuantity, candidateQuantity)
    {
      var next;
      next, stage := Generation(outstanding, luck);
      now := Some(next);
    }
  }

  // ---------- a generation ----------

  /** The population at every stage of one generation. */
  datatype Stage = Stage(outstanding: Option<nat>, before: Population, follow: Option<nat>, crossed: Population,
                         varied: Population, bred: Population, chosen: Population)

  /** The genes of the first `n` chromosomes are flipped where chance says so, except for the two that are kept. */
  ghost predicate Varied(before: Population, after: Population, n: nat, outstanding: Option<nat>, follow: Option<nat>,
                         flips: nat -> nat -> bool) {
    |after| == |before| && forall i: nat :: i < |before| ==>
      if i < n && Some(i) != outstanding && Some(i) != follow
      then after[i].fitness == before[i].fitness && Flipped(before[i].genes, after[i].genes, flips(i))
      else after[i] == before[i]
  }

  ghost predicate Flipped(before: seq<bool>, after: seq<bool>, flips: nat -> bool) {
    |after| == |before| && forall j: nat :: j < |before| ==> (after[j] != before[j] <==> flips(j))
  }

  method Flip(genes: seq<bool>, flips: nat -> bool) returns (flipped: seq<bool>)
    ensures Flipped(genes, flipped, flips)
  {
    flipped := genes;
    for j := 0 to |genes|
      invariant |flipped| == |genes| && forall k :: j <= k < |genes| ==> flipped[k] == genes[k]
      invariant forall k: nat :: k < j ==> (flipped[k] != genes[k] <==> flips(k))
    {
      if flips(j) {
        flipped := flipped[j := if flipped[j] then false else true];
      }
    }
  }

  ghost predicate SameGenesAll(before: Population, after: Population) {
    |after| == |before| && forall i :: 0 <= i < |before| ==> after[i].genes == before[i].genes
  }

  /** Up to the selection: crossed, varied and evaluated. */
  ghost predicate BredBy(stage: Stage, luck: Luck, n: nat) {
    && Mating(stage.before, stage.crossed, Shuffled(n, luck.shuffle, n), n / 2, stage.outstanding, luck.pairs)
    && Follows(stage.before, stage.crossed, stage.outstanding, stage.follow)
    && Varied(stage.crossed, stage.varied, n, stage.outstanding, stage.follow, luck.flips)
    && SameGenesAll(stage.varied, stage.bred)
  }

  /** Every one of `chosen` has won its tournament. */
  ghost predicate Winners(bred: Population, chosen: Population, candidates: nat -> nat -> nat, n: nat,
                          candidateQuantity: int)
    requires n > 0
  {
    |chosen| == n && forall i :: 0 <= i < n ==> Won(bred, Rows(candidates, n, candidateQuantity)[i], chosen[i])
  }

  /** A generation bred and chosen as its luck says, with right fitnesses and the outstanding chromosome kept. */
  ghost predicate Completed(m: MT.Network, r: MT.Request, stage: Stage, luck: Luck, n: nat, candidateQuantity: int)
    requires MT.ValidNetwork(m) && MT.ValidRequest(m, r) && n > 0
  {
    && BredBy(stage, luck, n) && Winners(stage.bred, stage.chosen, luck.candidates, n, candidateQuantity)
    && Bred(m, r, stage.bred, stage.chosen, n)
    && |stage.bred| == |stage.before|
    && (stage.outstanding.Some? ==>
          && stage.outstanding.value < |stage.bred|
          && stage.bred[stage.outstanding.value] == stage.before[stage.outstanding.value])
  }

  /** The generations that are possible with the given luck. */
  ghost function Possible(m: MT.Network, r: MT.Request, luck: Luck, n: nat, candidateQuantity: int): iset<Stage>
    requires MT.ValidNetwork(m) && MT.ValidRequest(m, r) && n > 0
  {
    iset stage | Completed(m, r, stage, luck, n, candidateQuantity)
  }

  lemma PossibleMeaning(m: MT.Network, r: MT.Request, stage: Stage, luck: Luck, n: nat, candidateQuantity: int)
    requires MT.ValidNetwork(m) && MT.ValidRequest(m, r) && n > 0
    ensures stage in Possible(m, r, luck, n, candidateQuantity) <==> Completed(m, r, stage, luck, n, candidateQuantity)
  {
  }

  /** What generation `i` starts from: the first population, or what the generation before it chose. */
  ghost function StartOf(initial: Population, stages: seq<Stage>, i: nat): Population
    requires i <= |stages|
  {
    if i == 0 then initial else stages[i - 1].chosen
  }

  /** The outstanding chromosome is the first best one, and there is none only at the very beginning. */
  ghost predicate StandsOut(population: Population, n: nat, outstanding: Option<nat>, first: bool) {
    if first then outstanding == None else outstanding.Some? && FirstBest(population, n, outstanding.value)
  }

  ghost predicate SucceedsAt(m: MT.Network, r: MT.Request, initial: Population, stages: seq<Stage>, luck: nat -> Luck,
                             n: nat, candidateQuantity: int, i: nat)
    requires MT.ValidNetwork(m) && MT.ValidRequest(m, r) && n > 0 && i < |stages|
  {
    && stages[i].before == StartOf(initial, stages, i) && StandsOut(stages[i].before, n, stages[i].outstanding, i == 0)
    && stages[i] in Possible(m, r, luck(i), n, candidateQuantity)
  }

  /** Every generation starts from what the one before it chose, and is bred and chosen as its luck says. */
  ghost predicate Recorded(m: MT.Network, r: MT.Request, initial: Population, stages: seq<Stage>, luck: nat -> Luck,
                           n: nat, candidateQuantity: int)
    requires MT.ValidNetwork(m) && MT.ValidRequest(m, r) && n > 0
  {
    forall i: nat :: i < |stages| ==> SucceedsAt(m, r, initial, stages, luck, n, candidateQuantity, i)
  }

  lemma RecordedNext(m: MT.Network, r: MT.Request, initial: Population, stages: seq<Stage>, stage: Stage,
                     luck: nat -> Luck, n: nat, candidateQuantity: int)
    requires MT.ValidNetwork(m) && MT.ValidRequest(m, r) && n > 0
    requires Recorded(m, r, initial, stages, luck, n, candidateQuantity)
    requires stage.before == StartOf(initial, stages, |stages|)
    requires StandsOut(stage.before, n, stage.outstanding, stages == [])
    requires stage in Possible(m, r, luck(|stages|), n, candidateQuantity)
    ensures Recorded(m, r, initial, stages + [stage], luck, n, candidateQuantity)
  {
    var more := stages + [stage];
    forall i: nat | i < |more|
      ensures SucceedsAt(m, r, initial, more, luck, n, candidateQuantity, i)
    {
      assert StartOf(initial, more, i) == StartOf(initial, stages, i);
      if i < |stages| {
        assert SucceedsAt(m, r, initial, stages, luck, n, candidateQuantity, i);
      }
    }
  }

  /** The best of the population chosen before is still there before the next selection. */
  lemma BestKept(m: MT.Network, r: MT.Request, stage: Stage, luck: Luck, n: nat, candidateQuantity: int)
    requires MT.ValidNetwork(m) && MT.ValidRequest(m, r) && n > 0
    requires StandsOut(stage.before, n, stage.outstanding, false) && stage in Possible(m, r, luck, n, candidateQuantity)
    ensures KeepsBest(stage.before, stage.bred, n)
  {
    PossibleMeaning(m, r, stage, luck, n, candidateQuantity);
    assert KeptAt(stage.before, stage.bred, n, stage.outstanding.value);
  }

  // ---------- selection ----------

  ghost predicate Candidates(row: seq<nat>, n: nat, candidateQuantity: int) {
    && |row| == (if candidateQuantity > 1 then candidateQuantity else 1)
    && forall j :: 0 <= j < |row| ==> row[j] < n
  }

  ghost predicate Tournaments(draws: seq<seq<nat>>, n: nat, candidateQuantity: int) {
    |draws| == n && forall i :: 0 <= i < n ==> Candidates(draws[i], n, candidateQuantity)
  }

  /** The candidates of every tournament, at least one. */
  function Rows(candidates: nat -> nat -> nat, n: nat, candidateQuantity: int): (rows: seq<seq<nat>>)
    requires n > 0
    ensures |rows| == n
    ensures forall i :: 0 <= i < n ==>
              rows[i] == Row(candidates(i), if candidateQuantity > 1 then candidateQuantity else 1, n)
  {
    seq(n, i requires 0 <= i < n => Row(candidates(i), if candidateQuantity > 1 then candidateQuantity else 1, n))
  }

  lemma RowsDrawn(candidates: nat -> nat -> nat, n: nat, candidateQuantity: int)
    requires n > 0
    ensures Tournaments(Rows(candidates, n, candidateQuantity), n, candidateQuantity)
  {
  }

  /** `winner` is the first of the candidates that none is fitter than. */
  ghost predicate Won(population: Population, row: seq<nat>, winner: Chromosome) {
    exists j: nat :: WonAt(population, row, winner, j)
  }

  ghost predicate WonAt(population: Population, row: seq<nat>, winner: Chromosome, j: nat) {
    && j < |row| && row[j] < |population| && population[row[j]] == winner
    && (forall k :: 0 <= k < |row| && row[k] < |population| ==> winner.fitness <= population[row[k]].fitness)
    && (forall k :: 0 <= k < j && row[k] < |population| ==> winner.fitness < population[row[k]].fitness)
  }

  /** Every chromosome of `copies` is one of the first `n` of `population`. */
  ghost predicate Copies(population: Population, n: nat, copies: Population) {
    n <= |population| && |copies| == n && forall i :: 0 <= i < n ==> copies[i] in population[..n]
  }

  lemma WinnersCopies(population: Population, n: nat, candidateQuantity: int, draws: seq<seq<nat>>, copies: Population)
    requires n <= |population| && |copies| == n && Tournaments(draws, n, candidateQuantity)
    requires forall i :: 0 <= i < n ==> Won(population, draws[i], copies[i])
    ensures Copies(population, n, copies)
  {
    forall i | 0 <= i < n
      ensures copies[i] in population[..n]
    {
      assert Candidates(draws[i], n, candidateQuantity);
      var j: nat :| WonAt(population, draws[i], copies[i], j);
      assert population[..n][draws[i][j]] == copies[i];
    }
  }

  // ---------- from generation to generation ----------

  /** `bred` has right fitnesses, and `chosen` consists of copies from it. */
  ghost predicate Bred(m: MT.Network, r: MT.Request, bred: Population, chosen: Population, n: nat)
    requires MT.ValidNetwork(m) && MT.ValidRequest(m, r)
  {
    Sized(bred, |m.edges|) && AllTrue(m, r, bred, n) && Copies(bred, n, chosen)
  }

  ghost predicate KeptAt(earlier: Population, bred: Population, n: nat, o: nat) {
    Best(earlier, n, o) && n <= |bred| && bred[o] == earlier[o]
  }

  /** A best chromosome of `earlier` is still in its place. */
  ghost predicate KeepsBest(earlier: Population, bred: Population, n: nat) {
    exists o: nat :: KeptAt(earlier, bred, n, o)
  }

  /** The best fitness before a selection is never worse than after it, nor than after the selection before. */
  ghost predicate NeverRegresses(stages: seq<Stage>, n: nat) {
    && (forall i :: 0 <= i < |stages| ==> n <= |stages[i].bred| && n <= |stages[i].chosen|)
    && (forall i :: 0 <= i < |stages| ==> Least(stages[i].bred, n) <= Least(stages[i].chosen, n))
    && (forall i :: 0 < i < |stages| ==> Least(stages[i].bred, n) <= Least(stages[i - 1].chosen, n))
  }

  lemma Regressions(m: MT.Network, r: MT.Request, initial: Population, stages: seq<Stage>, luck: nat -> Luck, n: nat,
                    candidateQuantity: int)
    requires MT.ValidNetwork(m) && MT.ValidRequest(m, r) && n > 0
    requires Recorded(m, r, initial, stages, luck, n, candidateQuantity)
    ensures forall i :: 0 <= i < |stages| ==> Bred(m, r, stages[i].bred, stages[i].chosen, n)
    ensures forall i :: 0 < i < |stages| ==> KeepsBest(stages[i - 1].chosen, stages[i].bred, n)
    ensures NeverRegresses(stages, n)
  {
    forall i | 0 <= i < |stages|
      ensures Bred(m, r, stages[i].bred, stages[i].chosen, n)
      ensures i > 0 ==> KeepsBest(stages[i - 1].chosen, stages[i].bred, n)
      ensures n <= |stages[i].bred| && n <= |stages[i].chosen| && Least(stages[i].bred, n) <= Least(stages[i].chosen, n)
      ensures i > 0 ==> Least(stages[i].bred, n) <= Least(stages[i - 1].chosen, n)
    {
      assert SucceedsAt(m, r, initial, stages, luck, n, candidateQuantity, i);
      PossibleMeaning(m, r, stages[i], luck(i), n, candidateQuantity);
      LeastOfCopies(stages[i].bred, n, stages[i].chosen);
      if i > 0 {
        BestKept(m, r, stages[i], luck(i), n, candidateQuantity);
        var o: nat :| KeptAt(stages[i - 1].chosen, stages[i].bred, n, o);
        NeverWorse(stages[i - 1].chosen, n, stages[i].bred, o);
      }
    }
  }

  /** `o` has the least fitness, as far as fitnesses below infinity are concerned. */
  ghost predicate Best(population: Population, n: nat, o: nat) {
    o < n <= |population| && forall i :: 0 <= i < n ==>
      population[o].fitness <= population[i].fitness || population[i].fitness >= MT.ENDLESS
  }

  /** The first of the best, or chromosome 0 if no fitness is below infinity. */
  ghost predicate FirstBest(population: Population, n: nat, o: nat) {
    && Best(population, n, o)
    && (forall k :: 0 <= k < o ==> population[k].fitness > population[o].fitness)
    && (population[o].fitness >= MT.ENDLESS ==> o == 0)
  }

  /** The least fitness of the first `n`, or infinity. */
  ghost function Least(population: Population, n: nat): (least: real)
    requires n <= |population|
    ensures least <= MT.ENDLESS && forall i :: 0 <= i < n ==> least <= population[i].fitness
    ensures least == MT.ENDLESS || exists i :: 0 <= i < n && population[i].fitness == least
  {
    if n == 0 then MT.ENDLESS
    else var l := Least(population, n - 1); if population[n - 1].fitness < l then population[n - 1].fitness else l
  }

  /** Every stored fitness of the first `n` is the cost of the tree the genes select. */
  ghost predicate AllTrue(m: MT.Network, r: MT.Request, population: Population, n: nat)
    requires MT.ValidNetwork(m) && MT.ValidRequest(m, r) && Sized(population, |m.edges|)
  {
    n <= |population| && forall i :: 0 <= i < n ==> MT.FitnessOf(m, r, population[i].genes, population[i].fitness)
  }

  lemma CopiesTrue(m: MT.Network, r: MT.Request, population: Population, n: nat, copies: Population)
    requires MT.ValidNetwork(m) && MT.ValidRequest(m, r) && Sized(population, |m.edges|) && Sized(copies, |m.edges|)
    requires AllTrue(m, r, population, n) && Copies(population, n, copies)
    ensures AllTrue(m, r, copies, n)
  {
  }

  /** A population that has kept the best of an earlier one is at least as good. */
  lemma NeverWorse(earlier: Population, n: nat, evaluated: Population, o: nat)
    requires KeptAt(earlier, evaluated, n, o)
    ensures Least(evaluated, n) <= Least(earlier, n)
  {
  }

  lemma LeastOfCopies(evaluated: Population, n: nat, copies: Population)
    requires Copies(evaluated, n, copies)
    ensures Least(evaluated, n) <= Least(copies, n)
  {
  }

  /** The copy found so far, after `n` pairs. */
  ghost predicate FollowSoFar(order: seq<nat>, n: nat, outstanding: Option<nat>, follow: Option<nat>) {
    && |order| % 2 == 0 && 2 * n <= |order|
    && (forall i: nat :: i < 2 * n && Some(order[i]) == outstanding ==> follow == Some(Partner(order, i)))
    && ((forall i: nat :: i < 2 * n ==> Some(order[i]) != outstanding) ==> follow == None)
  }

  lemma FollowNext(order: seq<nat>, n: nat, outstanding: Option<nat>, follow: Option<nat>)
    requires NoRepeats(order) && FollowSoFar(order, n, outstanding, follow) && 2 * n + 1 < |order|
    ensures var p, q := order[2 * n], order[2 * n + 1];
            FollowSoFar(order, n + 1, outstanding,
                        if outstanding == Some(p) then Some(q) else if outstanding == Some(q) then Some(p) else follow)
  {
  }

  lemma NotYet(order: seq<nat>, n: nat)
    requires NoRepeats(order) && 2 * n + 1 < |order|
    ensures order[2 * n] !in order[..2 * n] && order[2 * n + 1] !in order[..2 * n] && order[2 * n] != order[2 * n + 1]
  {
  }

  lemma SizedNext(now: Population, later: Population, p: nat, q: nat, outstanding: Option<nat>, luck: PairLuck,
                  selected: seq<nat>, edges: nat)
    requires Sized(now, edges) && Paired(now, later, p, q, outstanding, luck, selected)
    requires forall v :: 0 <= v < |now| && v != p && v != q ==> later[v] == now[v]
    ensures Sized(later, edges)
  {
    if outstanding != Some(p) && outstanding != Some(q) {
      PairedSameGenes(now, later, p, q, outstanding, luck, selected, edges);
    }
  }
}
