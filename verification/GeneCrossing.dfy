/** The building blocks of the multi-point crossover: shuffling, cutting and swapping. */
module GeneCrossing {
  import opened Walks

  const CUTS := 6

  /** What chance decides about a pair: whether it is crossed, the five cuts, and the three segments. */
  datatype PairLuck = PairLuck(cross: bool, cuts: nat -> nat, segments: nat -> nat)

  /** An order of the numbers below `n`. */
  ghost predicate Permutation(s: seq<nat>, n: nat) {
    |s| == n && NoRepeats(s) && forall i :: 0 <= i < n ==> s[i] < n
  }

  /** Every number below `n` has exactly one place in the order. */
  lemma {:induction false} PlaceOf(s: seq<nat>, n: nat, v: nat) returns (i: nat)
    requires Permutation(s, n) && v < n
    ensures i < n && s[i] == v && forall j :: 0 <= j < n && s[j] == v ==> j == i
  {
    if v !in s {
      TooMany(s, Below(n), v);
    }
    i :| i < n && s[i] == v;
  }

  lemma {:induction false} TooMany(s: seq<nat>, below: set<nat>, v: nat)
    requires NoRepeats(s) && (forall i :: 0 <= i < |s| ==> s[i] in below) && v in below && v !in s
    ensures |s| < |below|
  {
    if s != [] {
      var n := |s| - 1;
      TooMany(s[..n], below - {s[n]}, v);
    }
  }

  /** The earlier place that place `i` is swapped with; the first one only has itself. */
  function Earlier(draws: nat -> nat, i: nat): (index: nat)
    ensures index <= i && (i > 0 ==> index < i) && (draws(i) < i ==> index == draws(i))
  {
    if i == 0 then 0 else Pick(draws(i), i)
  }

  /** The first `i` places swapped, one after the other. */
  function Shuffled(n: nat, draws: nat -> nat, i: nat): (order: seq<nat>)
    requires i <= n
    ensures |order| == n
  {
    if i == 0 then seq(n, k requires 0 <= k => k)
    else
      var order, index := Shuffled(n, draws, i - 1), Earlier(draws, i - 1);
      order[i - 1 := order[index]][index := order[i - 1]]
  }

  /** The places up to `i` hold the numbers up to `i`, from place 1 on none of them its own. */
  ghost predicate Mixed(order: seq<nat>, n: nat, i: nat) {
    && Permutation(order, n) && i <= n
    && (forall k :: 0 <= k < i ==> order[k] < i)
    && (forall k :: i <= k < n ==> order[k] == k)
    && (i >= 2 ==> forall k :: 0 <= k < i ==> order[k] != k)
  }

  lemma MixedNext(order: seq<nat>, n: nat, i: nat, index: nat)
    requires Mixed(order, n, i) && i < n && index <= i && (i > 0 ==> index < i)
    ensures Mixed(order[i := order[index]][index := order[i]], n, i + 1)
  {
  }

  /** Swaps every place with an earlier one, so that in the end no number is in its own place. */
  method Shuffle(n: nat, draws: nat -> nat) returns (order: seq<nat>)
    ensures Permutation(order, n) && order == Shuffled(n, draws, n)
    ensures n >= 2 ==> forall k :: 0 <= k < n ==> order[k] != k
  {
    order := seq(n, i requires 0 <= i => i);
    for i := 0 to n
      invariant Mixed(order, n, i) && order == Shuffled(n, draws, i)
    {
      var index := Earlier(draws, i);
      MixedNext(order, n, i, index);
      order := order[i := order[index]][index := order[i]];
    }
  }

  // ---------- cutting ----------

  /** The first cut is 0, the others are drawn among the loci. */
  ghost predicate DrawnCuts(position: seq<nat>, draws: nat -> nat, n: nat) {
    && |position| == 6 && position[0] == 0
    && forall j :: 1 <= j < 6 ==> position[j] == if n == 0 then 0 else Pick(draws(j), n)
  }

  method DrawCuts(draws: nat -> nat, n: nat) returns (position: seq<nat>)
    ensures DrawnCuts(position, draws, n) && forall j :: 0 <= j < 6 ==> position[j] <= n
  {
    position := [0, 0, 0, 0, 0, 0];
    for j := 1 to 6
      invariant |position| == 6 && position[0] == 0 && forall k :: 0 <= k < 6 ==> position[k] <= n
      invariant forall k :: 1 <= k < j ==> position[k] == if n == 0 then 0 else Pick(draws(k), n)
    {
      position := position[j := if n == 0 then 0 else Pick(draws(j), n)];
    }
  }

  /** The drawn cuts in order. */
  ghost predicate CutsOf(cuts: seq<nat>, draws: nat -> nat, n: nat) {
    Cuts(cuts) && exists position: seq<nat> :: DrawnCuts(position, draws, n) && multiset(cuts) == multiset(position)
  }

  /** The cuts from `j` on are in place: sorted, and none before them is larger. */
  ghost predicate SortedFrom(cuts: seq<nat>, j: int) {
    && |cuts| == CUTS && cuts[0] == 0
    && forall a, b :: 1 <= a < b < CUTS && b > j ==> cuts[a] <= cuts[b]
  }

  /** Carries the largest of the cuts 1 to `j` up to place `j`. */
  method Bubble(cuts: seq<nat>, j: nat) returns (sorted: seq<nat>)
    requires SortedFrom(cuts, j) && 1 <= j <= 5
    ensures SortedFrom(sorted, j - 1) && multiset(sorted) == multiset(cuts)
  {
    sorted := cuts;
    for k := 1 to j
      invariant SortedFrom(sorted, j) && multiset(sorted) == multiset(cuts)
      invariant LargestAt(sorted, k)
    {
      if sorted[k] > sorted[k + 1] {
        BubbleStep(sorted, j, k);
        SwapKeeps(sorted, Swapped(sorted, k), k);
        sorted := Swapped(sorted, k);
      } else {
        StillLargest(sorted, k);
      }
    }
    BubbleDone(sorted, j);
  }

  lemma StillLargest(cuts: seq<nat>, k: nat)
    requires k + 1 < |cuts| && LargestAt(cuts, k) && cuts[k] <= cuts[k + 1]
    ensures LargestAt(cuts, k + 1)
  {
  }

  lemma BubbleDone(cuts: seq<nat>, j: nat)
    requires SortedFrom(cuts, j) && 1 <= j <= 5 && LargestAt(cuts, j)
    ensures SortedFrom(cuts, j - 1)
  {
  }

  ghost predicate LargestAt(cuts: seq<nat>, k: nat)
    requires k < |cuts|
  {
    forall a :: 1 <= a < k ==> cuts[a] <= cuts[k]
  }

  function Swapped(cuts: seq<nat>, k: nat): seq<nat>
    requires k + 1 < |cuts|
  {
    cuts[k := cuts[k + 1]][k + 1 := cuts[k]]
  }

  lemma BubbleStep(cuts: seq<nat>, j: nat, k: nat)
    requires SortedFrom(cuts, j) && 1 <= k < j <= 5 && LargestAt(cuts, k) && cuts[k] > cuts[k + 1]
    ensures SortedFrom(Swapped(cuts, k), j) && LargestAt(Swapped(cuts, k), k + 1)
  {
    var now := Swapped(cuts, k);
    forall a, b | 1 <= a < b < CUTS && b > j
      ensures now[a] <= now[b]
    {
      assert now[b] == cuts[b] && now[a] == cuts[if a == k then k + 1 else if a == k + 1 then k else a];
    }
  }

  lemma SwapKeeps(was: seq<nat>, now: seq<nat>, k: nat)
    requires k + 1 < |was| && now == Swapped(was, k)
    ensures multiset(now) == multiset(was)
  {
  }

  /** Bubble sort of the cuts behind the first, which stays 0. */
  method SortCuts(cuts: seq<nat>) returns (sorted: seq<nat>)
    requires |cuts| == CUTS && cuts[0] == 0
    ensures Cuts(sorted) && multiset(sorted) == multiset(cuts)
  {
    sorted := cuts;
    var j := 5;
    while j > 1
      invariant 1 <= j <= 5 && SortedFrom(sorted, j) && multiset(sorted) == multiset(cuts)
    {
      sorted := Bubble(sorted, j);
      j := j - 1;
    }
  }

  ghost predicate Cuts(cuts: seq<nat>) {
    |cuts| == CUTS && cuts[0] == 0 && forall i, j :: 0 <= i < j < CUTS ==> cuts[i] <= cuts[j]
  }

  // ---------- swapping ----------

  /** Locus `k` lies between cut `s` and the next one, or the end. */
  predicate InSegment(cuts: seq<nat>, s: nat, k: nat)
    requires |cuts| == CUTS
  {
    s < CUTS && cuts[s] <= k && (s + 1 < CUTS ==> k < cuts[s + 1])
  }

  ghost predicate Chosen(cuts: seq<nat>, selected: seq<nat>, k: nat)
    requires |cuts| == CUTS
  {
    exists s :: s in selected && InSegment(cuts, s, k)
  }

  /** `c` and `d` are `a` and `b` with the loci in the chosen segments swapped, and only those. */
  ghost predicate Crossed(cuts: seq<nat>, selected: seq<nat>, a: seq<bool>, b: seq<bool>, c: seq<bool>, d: seq<bool>)
    requires |cuts| == CUTS
  {
    && |a| == |b| == |c| == |d|
    && forall k :: 0 <= k < |a| ==>
         if Chosen(cuts, selected, k) then c[k] == b[k] && d[k] == a[k] else c[k] == a[k] && d[k] == b[k]
  }

  /** Two pairs of chromosomes with the same genes at every locus, however distributed. */
  ghost predicate SameGenes(a: seq<bool>, b: seq<bool>, c: seq<bool>, d: seq<bool>) {
    && |a| == |b| == |c| == |d|
    && forall k :: 0 <= k < |a| ==> multiset{c[k], d[k]} == multiset{a[k], b[k]}
  }

  lemma CrossedSameGenes(cuts: seq<nat>, selected: seq<nat>, a: seq<bool>, b: seq<bool>, c: seq<bool>, d: seq<bool>)
    requires |cuts| == CUTS && Crossed(cuts, selected, a, b, c, d)
    ensures SameGenes(a, b, c, d)
  {
  }

  /** The segments do not overlap and leave nothing out. */
  lemma OneSegment(cuts: seq<nat>, k: nat)
    requires Cuts(cuts)
    ensures exists s :: InSegment(cuts, s, k)
    ensures forall s, t :: InSegment(cuts, s, k) && InSegment(cuts, t, k) ==> s == t
  {
    var s := 0;
    while s + 1 < CUTS && cuts[s + 1] <= k
      invariant s < CUTS && cuts[s] <= k
    {
      s := s + 1;
    }
    assert InSegment(cuts, s, k);
  }

  method SwapRange(a: seq<bool>, b: seq<bool>, from: nat, to: nat) returns (c: seq<bool>, d: seq<bool>)
    requires |a| == |b| && to <= |a|
    ensures |c| == |d| == |a|
    ensures forall k :: 0 <= k < |a| ==>
              if from <= k < to then c[k] == b[k] && d[k] == a[k] else c[k] == a[k] && d[k] == b[k]
  {
    c, d := a, b;
    var k := from;
    while k < to
      invariant from <= k && (k <= to || k == from) && |c| == |d| == |a|
      invariant forall i :: 0 <= i < |a| ==>
        if from <= i < k then c[i] == b[i] && d[i] == a[i] else c[i] == a[i] && d[i] == b[i]
    {
      c, d := c[k := d[k]], d[k := c[k]];
      k := k + 1;
    }
  }

  lemma ChosenMore(cuts: seq<nat>, selected: seq<nat>, s: nat, k: nat)
    requires Cuts(cuts) && s !in selected
    ensures Chosen(cuts, selected + [s], k) <==> Chosen(cuts, selected, k) || InSegment(cuts, s, k)
    ensures InSegment(cuts, s, k) ==> !Chosen(cuts, selected, k)
  {
    OneSegment(cuts, k);
    if InSegment(cuts, s, k) {
      assert s in selected + [s];
    }
    if Chosen(cuts, selected, k) {
      var t :| t in selected && InSegment(cuts, t, k);
      assert t in selected + [s];
    }
  }

  ghost predicate Segments(selected: seq<nat>) {
    NoRepeats(selected) && forall i :: 0 <= i < |selected| ==> selected[i] < CUTS
  }

  /** Swaps the chosen segments one after the other. */
  method SwapSegments(a: seq<bool>, b: seq<bool>, cuts: seq<nat>, selected: seq<nat>)
    returns (c: seq<bool>, d: seq<bool>)
    requires |a| == |b| && Cuts(cuts) && cuts[5] <= |a|
    requires Segments(selected)
    ensures Crossed(cuts, selected, a, b, c, d)
  {
    c, d := a, b;
    for j := 0 to |selected|
      invariant Crossed(cuts, selected[..j], a, b, c, d)
    {
      var s := selected[j];
      assert selected[..j + 1] == selected[..j] + [s] && s !in selected[..j];
      ghost var c0, d0 := c, d;
      c, d := SwapRange(c, d, cuts[s], if s == 5 then |a| else cuts[s + 1]);
      forall k: nat | k < |a|
        ensures if Chosen(cuts, selected[..j + 1], k) then c[k] == b[k] && d[k] == a[k]
                else c[k] == a[k] && d[k] == b[k]
      {
        ChosenMore(cuts, selected[..j], s, k);
      }
    }
    assert selected[..|selected|] == selected;
  }

  /** The segments selected after `k` more draws; those drawn for earlier pairs stay selected. */
  function WithDrawn(selected: seq<nat>, draws: nat -> nat, k: nat): seq<nat> {
    if k == 0 then selected
    else
      var more, number := WithDrawn(selected, draws, k - 1), Pick(draws(k - 1), 6);
      if number in more then more else more + [number]
  }

  lemma {:induction false} WithDrawnMeaning(selected: seq<nat>, draws: nat -> nat, k: nat)
    requires Segments(selected)
    ensures Segments(WithDrawn(selected, draws, k)) && selected <= WithDrawn(selected, draws, k)
    ensures forall x :: x in WithDrawn(selected, draws, k) <==>
              x in selected || exists j: nat :: j < k && x == Pick(draws(j), 6)
  {
    if k > 0 {
      WithDrawnMeaning(selected, draws, k - 1);
    }
  }

  method DrawSegments(selected: seq<nat>, draws: nat -> nat) returns (more: seq<nat>)
    requires Segments(selected)
    ensures more == WithDrawn(selected, draws, 3) && Segments(more)
  {
    more := selected;
    for j := 0 to 3
      invariant more == WithDrawn(selected, draws, j)
    {
      var number := Pick(draws(j), CUTS);
      if number !in more {
        more := more + [number];
      }
    }
    WithDrawnMeaning(selected, draws, 3);
  }

  /** What the luck of a pair does to its genes, given the segments selected before. */
  ghost predicate Exchanged(luck: PairLuck, selected: seq<nat>, a: seq<bool>, b: seq<bool>, c: seq<bool>,
                            d: seq<bool>) {
    if !luck.cross then c == a && d == b
    else exists cuts :: CutsOf(cuts, luck.cuts, |a|) && Crossed(cuts, WithDrawn(selected, luck.segments, 3), a, b, c, d)
  }

  lemma ExchangedSameGenes(luck: PairLuck, selected: seq<nat>, a: seq<bool>, b: seq<bool>, c: seq<bool>, d: seq<bool>)
    requires |a| == |b| && Exchanged(luck, selected, a, b, c, d)
    ensures SameGenes(a, b, c, d)
  {
    if luck.cross {
      var cuts :| CutsOf(cuts, luck.cuts, |a|) && Crossed(cuts, WithDrawn(selected, luck.segments, 3), a, b, c, d);
      CrossedSameGenes(cuts, WithDrawn(selected, luck.segments, 3), a, b, c, d);
    }
  }
}
