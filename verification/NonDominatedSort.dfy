/** `fast_nondominate_sort`: peeling fronts with domination counters instead of comparing again. */
module NonDominatedSort {
  import opened Walks
  import opened Dominance
  import opened DominationCounts

  // ---------- the state of the counters ----------

  /** The list of `c`, after all comparisons: whoever `c` is better than, once per pair of their places. */
  ghost predicate Listed(union: seq<Individual>, c: Individual)
    reads c
  {
    && Elements(c.dominatingList) <= Elements(union)
    && forall q :: q in Elements(union) ==>
         Occ(c.dominatingList, q) == if c.IsBetterThan(q) then Times(Occ(union, c), Occ(union, q)) else 0
  }

  ghost predicate AllListed(union: seq<Individual>)
    reads Elements(union)
  {
    forall c :: c in Elements(union) ==> Listed(union, c)
  }

  /** The counters when all but `rest` have been taken away. */
  ghost predicate AllCounted(union: seq<Individual>, rest: set<Individual>)
    reads Elements(union)
  {
    forall p :: p in Elements(union) ==> p.numDominated == Load(p, union, rest)
  }

  /** Those that had somebody better in `before` and have nobody better in `rest`. */
  ghost function Freed(pop: set<Individual>, before: set<Individual>, rest: set<Individual>): set<Individual> {
    set p | p in pop && Dominators(p, before) != {} && Dominators(p, rest) == {}
  }

  // ---------- comparing ----------

  /** Compares one individual with all of them, once more. */
  method Compare(indPre: Individual, unionList: seq<Individual>)
    requires Elements(indPre.dominatingList) <= Elements(unionList)
    modifies indPre`numDominated, indPre`dominatingList
    ensures indPre.numDominated == old(indPre.numDominated) + Weight(indPre, unionList, Elements(unionList))
    ensures Elements(indPre.dominatingList) <= Elements(unionList)
    ensures forall q :: q in Elements(unionList) ==>
              Occ(indPre.dominatingList, q) ==
              old(Occ(indPre.dominatingList, q)) + if indPre.IsBetterThan(q) then Occ(unionList, q) else 0
  {
    ghost var pop := Elements(unionList);
    for j := 0 to |unionList|
      invariant indPre.numDominated == old(indPre.numDominated) + Weight(indPre, unionList[..j], pop)
      invariant Elements(indPre.dominatingList) <= pop
      invariant forall q :: q in pop ==>
        Occ(indPre.dominatingList, q) ==
        old(Occ(indPre.dominatingList, q)) + if indPre.IsBetterThan(q) then Occ(unionList[..j], q) else 0
    {
      var ind := unionList[j];
      assert unionList[..j + 1] == unionList[..j] + [ind] && ind in pop;
      WeightMore(indPre, unionList[..j], ind, pop);
      forall q
        ensures Occ(unionList[..j + 1], q) == Occ(unionList[..j], q) + if ind == q then 1 else 0
        ensures Occ(indPre.dominatingList + [ind], q) == Occ(indPre.dominatingList, q) + if ind == q then 1 else 0
      {
        OccMore(unionList[..j], ind, q);
        OccMore(indPre.dominatingList, ind, q);
      }
      if indPre.IsBetterThan(ind) {
        assert Elements(indPre.dominatingList + [ind]) == Elements(indPre.dominatingList) + {ind};
        indPre.dominatingList := indPre.dominatingList + [ind];
      } else if ind.IsBetterThan(indPre) {
        indPre.numDominated := indPre.numDominated + 1;
      }
    }
    assert unionList[..|unionList|] == unionList;
  }

  /** The state of `p` when the places before `i` have had their turn. */
  ghost predicate Visited(union: seq<Individual>, i: nat, p: Individual)
    requires i <= |union|
    reads p
  {
    && p.paretoRank == 0 && p.crowdingDistance == 0.0 && Elements(p.dominatingList) <= Elements(union)
    && p.numDominated == Times(Occ(union[..i], p), Weight(p, union, Elements(union)))
    && forall q :: q in Elements(union) ==>
         Occ(p.dominatingList, q) == if p.IsBetterThan(q) then Times(Occ(union[..i], p), Occ(union, q)) else 0
  }

  /** The first front so far: the places before `i` of those that nobody is better than. */
  ghost predicate Firsts(union: seq<Individual>, i: nat, first: seq<Individual>)
    requires i <= |union|
  {
    && Elements(first) <= Elements(union)
    && forall q :: q in Elements(union) ==>
         Occ(first, q) == if Weight(q, union, Elements(union)) == 0 then Occ(union[..i], q) else 0
  }

  lemma FirstsMore(union: seq<Individual>, i: nat, first: seq<Individual>)
    requires i < |union| && Firsts(union, i, first)
    ensures Weight(union[i], union, Elements(union)) == 0 ==> Firsts(union, i + 1, first + [union[i]])
    ensures Weight(union[i], union, Elements(union)) != 0 ==> Firsts(union, i + 1, first)
  {
    assert union[..i + 1] == union[..i] + [union[i]];
    assert Elements(first + [union[i]]) == Elements(first) + {union[i]};
    forall q
      ensures Occ(union[..i + 1], q) == Occ(union[..i], q) + if union[i] == q then 1 else 0
      ensures Occ(first + [union[i]], q) == Occ(first, q) + if union[i] == q then 1 else 0
    {
      OccMore(union[..i], union[i], q);
      OccMore(first, union[i], q);
    }
  }

  /** One more turn of `p` at place `i`. */
  lemma VisitMore(union: seq<Individual>, i: nat, p: Individual)
    requires i < |union|
    ensures Occ(union[..i + 1], p) == Occ(union[..i], p) + if union[i] == p then 1 else 0
    ensures union[i] == p ==> Occ(union[..i + 1], p) > 0
    ensures Times(Occ(union[..i], p) + 1, Weight(p, union, Elements(union))) ==
            Times(Occ(union[..i], p), Weight(p, union, Elements(union))) + Weight(p, union, Elements(union))
  {
    assert union[..i + 1] == union[..i] + [union[i]];
    OccMore(union[..i], union[i], p);
  }

  /** Compares the individual at one place with everybody. */
  method Visit(unionList: seq<Individual>, i: nat, first: seq<Individual>) returns (more: seq<Individual>)
    requires i < |unionList| && Firsts(unionList, i, first) && Visited(unionList, i, unionList[i])
    modifies unionList[i]
    ensures Firsts(unionList, i + 1, more) && Visited(unionList, i + 1, unionList[i])
  {
    var indPre := unionList[i];
    more := first;
    VisitMore(unionList, i, indPre);
    FirstsMore(unionList, i, first);
    TimesZero(Occ(unionList[..i + 1], indPre), Weight(indPre, unionList, Elements(unionList)));
    Compare(indPre, unionList);
    if indPre.numDominated == 0 {
      indPre.paretoRank := 0;
      more := more + [indPre];
    }
  }

  /** Compares everyone with everyone and collects the first front. */
  method FirstFront(unionList: seq<Individual>) returns (first: seq<Individual>)
    requires forall p :: p in Elements(unionList) ==> p.Cleared()
    modifies unionList
    ensures Firsts(unionList, |unionList|, first)
    ensures forall p :: p in Elements(unionList) ==> Visited(unionList, |unionList|, p)
  {
    first := [];
    assert unionList[..0] == [];
    for i := 0 to |unionList|
      invariant Firsts(unionList, i, first)
      invariant forall p :: p in Elements(unionList) ==> Visited(unionList, i, p)
    {
      assert unionList[i] in Elements(unionList);
      first := Visit(unionList, i, first);
      forall p | p in Elements(unionList) && p != unionList[i]
        ensures Occ(unionList[..i + 1], p) == Occ(unionList[..i], p)
      {
        VisitMore(unionList, i, p);
      }
    }
  }

  // ---------- counting down ----------

  /** Takes one off the counter of everyone in `list`, once per occurrence, and collects those that reach zero. */
  method CountDown(list: seq<Individual>, next: seq<Individual>, ghost pop: set<Individual>)
    returns (more: seq<Individual>)
    requires Elements(list) <= pop && NoRepeats(next) && forall p :: p in next ==> p in pop && p.numDominated <= 0
    modifies pop`numDominated, pop`paretoRank
    ensures forall p :: p in pop ==> p.numDominated == old(p.numDominated) - Occ(list, p)
    ensures forall p :: p in pop ==>
              p.paretoRank == old(p.paretoRank) + if old(p.numDominated) > 0 >= p.numDominated then 1 else 0
    ensures NoRepeats(more) && forall p :: p in more ==> p in pop
    ensures forall p :: p in pop ==> (p in more <==> p in next || old(p.numDominated) > 0 >= p.numDominated)
  {
    more := next;
    for j := 0 to |list|
      invariant forall p :: p in pop ==> p.numDominated == old(p.numDominated) - Occ(list[..j], p)
      invariant forall p :: p in pop ==>
        p.paretoRank == old(p.paretoRank) + if old(p.numDominated) > 0 >= p.numDominated then 1 else 0
      invariant NoRepeats(more) && forall p :: p in more ==> p in pop
      invariant forall p :: p in pop ==> (p in more <==> p in next || old(p.numDominated) > 0 >= p.numDominated)
    {
      var dominated := list[j];
      assert list[..j + 1] == list[..j] + [dominated] && dominated in Elements(list);
      forall p
        ensures Occ(list[..j + 1], p) == Occ(list[..j], p) + if dominated == p then 1 else 0
      {
        OccMore(list[..j], dominated, p);
      }
      dominated.numDominated := dominated.numDominated - 1;
      if dominated.numDominated == 0 {
        dominated.paretoRank := dominated.paretoRank + 1;
        more := more + [dominated];
      }
    }
    assert list[..|list|] == list;
  }

  /** What taking `c` away does to the counters. */
  lemma CountedStep(union: seq<Individual>, rest: set<Individual>, c: Individual)
    requires c in rest && Listed(union, c)
    ensures forall p :: p in Elements(union) ==>
              Load(p, union, rest) == Load(p, union, rest - {c}) + Occ(c.dominatingList, p)
  {
    forall p | p in Elements(union)
      ensures Load(p, union, rest) == Load(p, union, rest - {c}) + Occ(c.dominatingList, p)
    {
      LoadLess(p, union, rest, c);
    }
  }

  lemma TakeOne(front: seq<Individual>, before: set<Individual>, i: nat)
    requires NoRepeats(front) && i < |front| && Elements(front) <= before
    ensures front[i] in before - Elements(front[..i])
    ensures before - Elements(front[..i]) - {front[i]} == before - Elements(front[..i + 1])
  {
    assert front[i] in Elements(front) && front[i] !in front[..i];
    assert front[..i + 1] == front[..i] + [front[i]];
  }

  /** Counters and ranks, noted down before a front is taken away. */
  datatype Tally = Tally(counts: map<Individual, int>, ranks: map<Individual, int>)

  ghost predicate Noted(union: seq<Individual>, note: Tally)
    reads Elements(union)
  {
    && note.counts.Keys == note.ranks.Keys == Elements(union)
    && forall p :: p in Elements(union) ==> p.numDominated == note.counts[p] && p.paretoRank == note.ranks[p]
  }

  /** Since the note was taken counters have only gone down, and those that got to zero have been collected, once
      each, and have gone up one rank. */
  ghost predicate Collected(union: seq<Individual>, note: Tally, next: seq<Individual>)
    reads Elements(union)
  {
    && note.counts.Keys == note.ranks.Keys == Elements(union)
    && NoRepeats(next) && (forall p :: p in next ==> p in Elements(union))
    && (forall p :: p in Elements(union) ==> CollectedAt(note, p, p in next))
  }

  ghost predicate CollectedAt(note: Tally, p: Individual, collected: bool)
    requires p in note.counts && p in note.ranks
    reads p
  {
    && p.numDominated <= note.counts[p] && (collected <==> note.counts[p] > 0 >= p.numDominated)
    && p.paretoRank == note.ranks[p] + if collected then 1 else 0
  }

  /** Takes one individual of a front out of the race. */
  method Release(current: Individual, next: seq<Individual>, ghost union: seq<Individual>, ghost rest: set<Individual>,
                 ghost note: Tally) returns (more: seq<Individual>)
    requires current in Elements(union) && AllListed(union) && Collected(union, note, next)
    modifies Elements(union)`numDominated, Elements(union)`paretoRank
    ensures AllListed(union) && Collected(union, note, more)
    ensures current in rest && old(AllCounted(union, rest)) ==> AllCounted(union, rest - {current})
  {
    more := next;
    if current in rest {
      CountedStep(union, rest, current);
    }
    if |current.dominatingList| > 0 {
      more := CountDown(current.dominatingList, next, Elements(union));
    }
  }

  /** Takes a front out of the race and collects those whose counter has reached zero. */
  method NextFront(front: seq<Individual>, ghost union: seq<Individual>, ghost before: set<Individual>,
                   ghost note: Tally) returns (next: seq<Individual>)
    requires Elements(front) <= Elements(union) && AllListed(union) && Noted(union, note)
    modifies Elements(union)`numDominated, Elements(union)`paretoRank
    ensures AllListed(union) && Collected(union, note, next)
    ensures NoRepeats(front) && Elements(front) <= before && old(AllCounted(union, before)) ==>
              AllCounted(union, before - Elements(front))
  {
    next := [];
    ghost var clean := NoRepeats(front) && Elements(front) <= before && AllCounted(union, before);
    ghost var rest := before;
    for i := 0 to |front|
      invariant AllListed(union) && Collected(union, note, next)
      invariant clean ==> rest == before - Elements(front[..i]) && AllCounted(union, rest)
    {
      assert front[i] in Elements(front);
      if clean {
        TakeOne(front, before, i);
      }
      next := Release(front[i], next, union, rest, note);
      rest := rest - {front[i]};
    }
    assert front[..|front|] == front;
  }

  /** Whoever the front frees is exactly the non-dominated part of the remainder. */
  lemma FreedIsNext(pop: set<Individual>, before: set<Individual>, front: set<Individual>)
    requires before <= pop && front == Nondominated(before)
    requires forall p :: p in pop - before ==> Dominators(p, before) == {}
    ensures Freed(pop, before, before - front) == Nondominated(before - front)
    ensures forall p :: p in pop - (before - front) ==> Dominators(p, before - front) == {}
  {
    forall p
      ensures Dominators(p, before - front) <= Dominators(p, before)
    {
    }
  }

  /** The fronts so far, the last of which is still to be taken away from `before`. */
  ghost predicate Peeled(pop: set<Individual>, fronts: seq<seq<Individual>>, before: set<Individual>) {
    && fronts != [] && Peeling(pop, fronts) && before == Rest(pop, fronts[..|fronts| - 1]) && before <= pop
    && (forall p :: p in pop - before ==> Dominators(p, before) == {})
    && (pop == {} ==> fronts == [[]])
    && (pop != {} ==> forall k :: 0 <= k < |fronts| ==> fronts[k] != [])
  }

  lemma NoElements(list: seq<Individual>)
    ensures Elements(list) == {} <==> list == []
  {
    if list != [] {
      assert list[0] in Elements(list);
    }
  }

  lemma PeeledFirst(pop: set<Individual>, first: seq<Individual>)
    requires NoRepeats(first) && Elements(first) == Nondominated(pop)
    ensures Peeled(pop, [first], pop) && Freed(pop, pop, pop) == {}
  {
    assert [first][..0] == [];
    if pop != {} {
      SomebodyNondominated(pop);
    } else {
      NoElements(first);
    }
  }

  lemma PeeledNext(pop: set<Individual>, fronts: seq<seq<Individual>>, before: set<Individual>, next: seq<Individual>)
    requires Peeled(pop, fronts, before) && pop != {} && NoRepeats(next)
    requires Elements(next) == Freed(pop, before, before - Elements(fronts[|fronts| - 1]))
    ensures next != [] ==> Peeled(pop, fronts + [next], before - Elements(fronts[|fronts| - 1]))
    ensures next == [] ==> Fronts(pop, fronts) && before - Elements(fronts[|fronts| - 1]) == {}
  {
    var front := fronts[|fronts| - 1];
    var after := before - Elements(front);
    assert after == Rest(pop, fronts);
    FreedIsNext(pop, before, Elements(front));
    assert (fronts + [next])[..|fronts|] == fronts;
    if next == [] && after != {} {
      SomebodyNondominated(after);
    }
  }

  // ---------- the whole sort ----------

  /** Everybody that nobody is better than occurs once. */
  ghost predicate BestOnce(list: seq<Individual>) {
    forall p :: p in Nondominated(Elements(list)) ==> Occ(list, p) == 1
  }

  lemma WeightMeaning(union: seq<Individual>, p: Individual, rest: set<Individual>)
    requires rest <= Elements(union)
    ensures Weight(p, union, rest) == 0 <==> Dominators(p, rest) == {}
  {
    WeightZero(p, union, rest);
    if Dominators(p, rest) != {} {
      var q :| q in Dominators(p, rest);
      assert q in Elements(union) && q in union;
    } else {
      forall q | q in union && q in rest
        ensures !q.IsBetterThan(p)
      {
        assert q !in Dominators(p, rest);
      }
    }
  }

  /** The first front holds the best, as often as the list does. */
  lemma FirstsMeaning(union: seq<Individual>, first: seq<Individual>)
    requires Firsts(union, |union|, first)
    ensures Elements(first) == Nondominated(Elements(union))
    ensures NoRepeats(first) <==> BestOnce(union)
  {
    var pop := Elements(union);
    assert union[..|union|] == union;
    forall p | p in pop
      ensures p in first <==> p in Nondominated(pop)
      ensures p in Nondominated(pop) ==> Occ(first, p) == Occ(union, p) >= 1
    {
      WeightMeaning(union, p, pop);
      OccIn(first, p);
      OccIn(union, p);
    }
    assert forall p :: p in first ==> p in Elements(first);
    if NoRepeats(first) {
      forall p | p in Nondominated(pop)
        ensures Occ(union, p) == 1
      {
        CountedOnce(first, p);
      }
    } else {
      var p := CountedTwice(first);
      OccIn(first, p);
      assert p in Nondominated(pop) && Occ(union, p) >= 2;
    }
  }

  lemma VisitedAll(union: seq<Individual>)
    requires forall p :: p in Elements(union) ==> Visited(union, |union|, p)
    ensures AllListed(union) && AllCounted(union, Elements(union))
  {
    assert union[..|union|] == union;
  }

  /** The ranks in terms of the counters: 1 for those whose counter has gone down to zero. */
  ghost predicate AllRanked(union: seq<Individual>)
    reads Elements(union)
  {
    forall p :: p in Elements(union) ==>
      && p.crowdingDistance == 0.0 && p.numDominated <= Load(p, union, Elements(union))
      && p.paretoRank == if Load(p, union, Elements(union)) > 0 >= p.numDominated then 1 else 0
  }

  /** Those still to be freed. */
  ghost function Held(union: seq<Individual>): set<Individual>
    reads Elements(union)
  {
    set p | p in Elements(union) && p.numDominated > 0
  }

  /** In terms of `before` and `after`, who is collected. */
  lemma CollectedAreFreed(union: seq<Individual>, before: set<Individual>, after: set<Individual>, note: Tally,
                          next: seq<Individual>)
    requires before <= Elements(union) && after <= Elements(union) && Collected(union, note, next)
    requires forall p :: p in Elements(union) ==> note.counts[p] == Load(p, union, before)
    requires AllCounted(union, after)
    ensures Elements(next) == Freed(Elements(union), before, after)
  {
    forall p | p in Elements(union)
      ensures p in next <==> Dominators(p, before) != {} && Dominators(p, after) == {}
    {
      assert CollectedAt(note, p, p in next);
      LoadZero(p, union, before);
      LoadZero(p, union, after);
    }
  }

  /** Where the sort stands when the last front is still to be taken away. */
  ghost predicate Sorting(union: seq<Individual>, fronts: seq<seq<Individual>>, before: set<Individual>, clean: bool)
    reads Elements(union)
  {
    && fronts != [] && Elements(fronts[|fronts| - 1]) <= Elements(union) && AllListed(union) && AllRanked(union)
    && (clean ==> Peeled(Elements(union), fronts, before) && AllCounted(union, before))
  }

  /** Takes a front away, in terms of ranks, of those still held, and of those freed. */
  method Advance(front: seq<Individual>, ghost union: seq<Individual>, ghost before: set<Individual>, ghost clean: bool)
    returns (next: seq<Individual>)
    requires Elements(front) <= Elements(union) && AllListed(union) && AllRanked(union)
    requires clean ==> NoRepeats(front) && Elements(front) <= before <= Elements(union) && AllCounted(union, before)
    modifies Elements(union)`numDominated, Elements(union)`paretoRank
    ensures AllListed(union) && AllRanked(union) && NoRepeats(next) && Elements(next) <= Elements(union)
    ensures next != [] ==> |Held(union)| < old(|Held(union)|)
    ensures clean ==> AllCounted(union, before - Elements(front))
    ensures clean ==> Elements(next) == Freed(Elements(union), before, before - Elements(front))
  {
    ghost var held, note := Held(union), TakeNote(union);
    RankedBefore(union, note);
    next := NextFront(front, union, before, note);
    RankedAfter(union, note, next);
    Shrinks(union, note, held, next);
    if clean {
      CollectedAreFreed(union, before, before - Elements(front), note, next);
    }
  }

  ghost function TakeNote(union: seq<Individual>): (note: Tally)
    reads Elements(union)
    ensures Noted(union, note)
  {
    Tally(map p | p in Elements(union) :: p.numDominated, map p | p in Elements(union) :: p.paretoRank)
  }

  /** The ranks in a note are right for its counters. */
  ghost predicate NoteRanked(union: seq<Individual>, note: Tally) {
    && note.counts.Keys == note.ranks.Keys == Elements(union)
    && forall p :: p in Elements(union) ==>
         && note.counts[p] <= Load(p, union, Elements(union))
         && note.ranks[p] == if Load(p, union, Elements(union)) > 0 >= note.counts[p] then 1 else 0
  }

  lemma RankedBefore(union: seq<Individual>, note: Tally)
    requires AllRanked(union) && Noted(union, note)
    ensures NoteRanked(union, note)
  {
  }

  lemma RankedAfter(union: seq<Individual>, note: Tally, next: seq<Individual>)
    requires NoteRanked(union, note) && Collected(union, note, next)
    requires forall p :: p in Elements(union) ==> p.crowdingDistance == 0.0
    ensures AllRanked(union) && Elements(next) <= Elements(union)
  {
    forall p | p in Elements(union)
      ensures p.numDominated <= Load(p, union, Elements(union))
      ensures p.paretoRank == if Load(p, union, Elements(union)) > 0 >= p.numDominated then 1 else 0
    {
      assert CollectedAt(note, p, p in next);
    }
  }

  /** One turn of the outer loop. */
  method PeelNext(fronts: seq<seq<Individual>>, ghost union: seq<Individual>, ghost before: set<Individual>,
                  ghost clean: bool) returns (next: seq<Individual>)
    requires Sorting(union, fronts, before, clean) && fronts[|fronts| - 1] != []
    modifies Elements(union)`numDominated, Elements(union)`paretoRank
    ensures next != [] ==>
              && Sorting(union, fronts + [next], before - Elements(fronts[|fronts| - 1]), clean)
              && |Held(union)| < old(|Held(union)|)
    ensures next == [] ==> AllRanked(union) && (clean ==> Fronts(Elements(union), fronts) && AllCounted(union, {}))
  {
    if clean {
      FrontAt(Elements(union), fronts, |fronts| - 1);
      LastFront(Elements(union), fronts, before);
    }
    next := Advance(fronts[|fronts| - 1], union, before, clean);
    if clean {
      PeeledNext(Elements(union), fronts, before, next);
    }
  }

  lemma LastFront(pop: set<Individual>, fronts: seq<seq<Individual>>, before: set<Individual>)
    requires Peeled(pop, fronts, before) && fronts[|fronts| - 1] != []
    ensures Elements(fronts[|fronts| - 1]) <= before <= pop && pop != {}
  {
    var last := fronts[|fronts| - 1];
    assert Elements(last) == Nondominated(before);
    assert last[0] in Elements(last);
  }

  /**
   * The sort. Its fronts are those of repeated peeling exactly if nobody among the best is listed twice; the first
   * front always holds the best, as often as they are listed.
   */
  method FastNondominateSort(popList: seq<Individual>) returns (fronts: seq<seq<Individual>>)
    modifies popList
    ensures fronts != [] && Firsts(popList, |popList|, fronts[0])
    ensures Fronts(Elements(popList), fronts) <==> BestOnce(popList)
    ensures forall p :: p in popList ==> p.crowdingDistance == 0.0
    ensures BestOnce(popList) ==> forall p :: p in popList ==> p.paretoRank == if p in fronts[0] then 0 else 1
  {
    for i := 0 to |popList|
      invariant forall k :: 0 <= k < i ==> popList[k].Cleared()
    {
      popList[i].ClearProperty();
    }
    var first := FirstFront(popList);
    fronts := [first];
    VisitedAll(popList);
    FirstsMeaning(popList, first);
    fronts := PeelAll(popList, fronts);
  }

  /** The outer loop. */
  method PeelAll(union: seq<Individual>, firsts: seq<seq<Individual>>) returns (fronts: seq<seq<Individual>>)
    requires |firsts| == 1 && Elements(firsts[0]) == Nondominated(Elements(union))
    requires AllListed(union) && AllCounted(union, Elements(union)) && AllRanked(union)
    modifies Elements(union)`numDominated, Elements(union)`paretoRank
    ensures fronts != [] && fronts[0] == firsts[0] && AllRanked(union)
    ensures Fronts(Elements(union), fronts) <==> NoRepeats(firsts[0])
    ensures NoRepeats(firsts[0]) ==>
              forall p :: p in union ==> p.paretoRank == if p in fronts[0] then 0 else 1
  {
    fronts := firsts;
    var rank := 0;
    ghost var before, clean := Elements(union), NoRepeats(firsts[0]);
    if clean {
      PeeledFirst(before, firsts[0]);
      assert firsts == [firsts[0]];
    }
    while fronts[rank] != []
      invariant rank == |fronts| - 1 && fronts[0] == firsts[0] && Sorting(union, fronts, before, clean)
      decreases |Held(union)|
    {
      var next := PeelNext(fronts, union, before, clean);
      if next != [] {
        before := before - Elements(fronts[rank]);
        fronts := fronts + [next];
        rank := rank + 1;
      } else {
        Finished(union, fronts, clean);
        return;
      }
    }
    NobodyLeft(union, fronts, before, clean);
    Finished(union, fronts, clean);
  }

  /** The loop only ends at an empty front if the whole population is empty. */
  lemma NobodyLeft(union: seq<Individual>, fronts: seq<seq<Individual>>, before: set<Individual>, clean: bool)
    requires Sorting(union, fronts, before, clean) && fronts[|fronts| - 1] == []
    ensures clean ==> Fronts(Elements(union), fronts) && AllCounted(union, {})
  {
    if clean {
      assert Elements(union) == {};
      assert fronts == [[]] && before == {};
      assert fronts[..0] == [];
    }
  }

  /** Whoever is collected is held no longer. */
  lemma Shrinks(union: seq<Individual>, note: Tally, held: set<Individual>, next: seq<Individual>)
    requires Collected(union, note, next) && held == set p | p in Elements(union) && note.counts[p] > 0
    ensures next != [] ==> |Held(union)| < |held|
  {
    assert forall p :: p in Elements(union) ==> CollectedAt(note, p, p in next);
    if next != [] {
      assert next[0] in next;
      SubsetSize(Held(union), held - {next[0]});
    }
  }

  lemma Finished(union: seq<Individual>, fronts: seq<seq<Individual>>, clean: bool)
    requires fronts != [] && AllRanked(union) && Elements(fronts[0]) == Nondominated(Elements(union))
    requires clean <==> NoRepeats(fronts[0])
    requires clean ==> Fronts(Elements(union), fronts) && AllCounted(union, {})
    ensures Fronts(Elements(union), fronts) <==> clean
    ensures clean ==> forall p :: p in union ==> p.paretoRank == if p in fronts[0] then 0 else 1
  {
    if Fronts(Elements(union), fronts) {
      FrontAt(Elements(union), fronts, 0);
    }
    if clean {
      forall p | p in union
        ensures p.paretoRank == if p in fronts[0] then 0 else 1
      {
        assert p in Elements(union);
        LoadZero(p, union, Elements(union));
        LoadZero(p, union, {});
        assert p in fronts[0] <==> p in Elements(fronts[0]);
      }
    }
  }

  /** In the first round the two populations hold the same objects, and the fronts never come out right. */
  lemma SharedObjectsFail(population: seq<Individual>)
    requires population != []
    ensures !BestOnce(population + population)
  {
    var pop := Elements(population + population);
    assert population[0] in pop;
    SomebodyNondominated(pop);
    var p :| p in Nondominated(pop);
    OccConcat(population, population, p);
    OccIn(population, p);
    assert p in population + population;
  }

  lemma {:induction false} OccConcat(a: seq<Individual>, b: seq<Individual>, p: Individual)
    ensures Occ(a + b, p) == Occ(a, p) + Occ(b, p)
  {
    if b == [] {
      assert a + b == a;
    } else {
      var n := |b| - 1;
      OccConcat(a, b[..n], p);
      assert a + b == a + b[..n] + [b[n]] && b == b[..n] + [b[n]];
      OccMore(a + b[..n], b[n], p);
    }
  }

  /** Without repeats the sort is right. */
  lemma DistinctBestOnce(list: seq<Individual>)
    requires NoRepeats(list)
    ensures BestOnce(list)
  {
    forall p | p in Nondominated(Elements(list))
      ensures Occ(list, p) == 1
    {
      CountedOnce(list, p);
      OccIn(list, p);
    }
  }
}
