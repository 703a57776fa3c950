/** `object_sort` and `crowding_distance_sort`: ordering a front by how lonely its members are. */
module CrowdingSort {
  import opened Walks
  import opened Dominance

  const INF := 99999999999.9

  datatype Key = Delay | Loss | Crowding

  /** Smaller values go to the front: small delays and losses, large crowding distances. */
  function Value(p: Individual, key: Key): real
    reads p
  {
    match key
    case Delay => p.delay
    case Loss => p.loss
    case Crowding => -p.crowdingDistance
  }

  ghost predicate Sorted(list: seq<Individual>, key: Key)
    reads list
  {
    forall i, j :: 0 <= i < j < |list| ==> Value(list[i], key) <= Value(list[j], key)
  }

  ghost predicate SortedTo(values: seq<real>, n: int) {
    forall i, j :: 0 <= i < j < n && j < |values| ==> values[i] <= values[j]
  }

  /** Where the insertion of `x`, now at `pos`, stands when position `j` is looked at next. */
  ghost predicate Inserting(values: seq<real>, x: real, i: int, j: int, pos: int) {
    && -1 <= j < pos <= i < |values| && values[pos] == x
    && (forall a, b :: 0 <= a < b <= i && a != pos && b != pos ==> values[a] <= values[b])
    && (forall b :: pos < b <= i ==> x < values[b])
    && (pos > j + 1 ==> forall a :: 0 <= a < pos ==> values[a] <= x)
  }

  function Swapped(values: seq<real>, j: nat, x: real): seq<real>
    requires j + 1 < |values|
  {
    values[j + 1 := values[j]][j := x]
  }

  /** One comparison: either the item moves one place down, or it has found its place for good. */
  lemma InsertStep(values: seq<real>, x: real, i: int, j: int, pos: int)
    requires Inserting(values, x, i, j, pos) && j >= 0
    ensures values[j] > x ==> pos == j + 1 && Inserting(Swapped(values, j, x), x, i, j - 1, j)
    ensures values[j] <= x ==> Inserting(values, x, i, j - 1, pos)
  {
  }

  lemma InsertStarts(values: seq<real>, i: int)
    requires 1 <= i < |values| && SortedTo(values, i)
    ensures Inserting(values, values[i], i, i - 1, i)
  {
  }

  lemma InsertEnds(values: seq<real>, x: real, i: int, pos: int)
    requires Inserting(values, x, i, -1, pos)
    ensures SortedTo(values, i + 1)
  {
  }

  ghost function Values(list: seq<Individual>, key: Key): (values: seq<real>)
    reads list
    ensures |values| == |list| && forall k :: 0 <= k < |list| ==> values[k] == Value(list[k], key)
  {
    if list == [] then [] else [Value(list[0], key)] + Values(list[1..], key)
  }

  ghost predicate Holds(list: array<Individual>, key: Key, values: seq<real>)
    reads list, list[..]
  {
    |values| == list.Length && forall k :: 0 <= k < list.Length ==> Value(list[k], key) == values[k]
  }

  /** Moves the item at `j` up by one and puts `item`, which was there, in its place. */
  method MoveUp(list: array<Individual>, key: Key, j: nat, item: Individual, ghost values: seq<real>)
    requires j + 1 < list.Length && list[j + 1] == item && Holds(list, key, values)
    modifies list
    ensures list[j] == item && Holds(list, key, Swapped(values, j, values[j + 1]))
    ensures multiset(list[..]) == multiset(old(list[..]))
  {
    ghost var was := list[..];
    list[j + 1] := list[j];
    list[j] := item;
    SwapKeeps(was, list[..], j);
  }

  lemma SwapKeeps(was: seq<Individual>, now: seq<Individual>, j: nat)
    requires j + 1 < |was| && now == was[j + 1 := was[j]][j := was[j + 1]]
    ensures multiset(now) == multiset(was)
  {
  }

  /** Sinks item `i` into the sorted part before it. */
  method Insert(list: array<Individual>, key: Key, i: int, ghost values: seq<real>) returns (ghost after: seq<real>)
    requires 1 <= i < list.Length && Holds(list, key, values) && SortedTo(values, i)
    modifies list
    ensures Holds(list, key, after) && SortedTo(after, i + 1) && multiset(list[..]) == multiset(old(list[..]))
  {
    var item := list[i];
    var j := i - 1;
    ghost var pos := i;
    after := values;
    InsertStarts(values, i);
    while j >= 0
      invariant Inserting(after, values[i], i, j, pos) && Holds(list, key, after) && list[pos] == item
      invariant multiset(list[..]) == multiset(old(list[..]))
      decreases j
    {
      InsertStep(after, values[i], i, j, pos);
      assert Value(list[pos], key) == values[i];
      if Value(list[j], key) > Value(item, key) {
        MoveUp(list, key, j, item, after);
        after, pos := Swapped(after, j, values[i]), j;
      }
      j := j - 1;
    }
    InsertEnds(after, values[i], i, pos);
  }

  /** Insertion sort that never leaves its inner loop early. */
  method ObjectSort(list: array<Individual>, key: Key)
    modifies list
    ensures Sorted(list[..], key)
    ensures multiset(list[..]) == multiset(old(list[..]))
  {
    var i := 1;
    ghost var values := Values(list[..], key);
    while i < list.Length
      invariant i >= 1 && Holds(list, key, values) && SortedTo(values, i)
      invariant multiset(list[..]) == multiset(old(list[..]))
    {
      values := Insert(list, key, i, values);
      i := i + 1;
    }
  }

  // ---------- crowding distances ----------

  function Abs(x: real): real {
    if x < 0.0 then -x else x
  }

  /** What the delay gaps of a front sorted by delay are divided by. */
  function DelaySpan(first: real, last: real): real {
    if first == last then last + first - first else last - first
  }

  /** What the loss gaps of a front sorted by loss are divided by. */
  function LossSpan(first: real, last: real): (span: real)
    ensures span != 0.0
  {
    var max := if first == last then last + first else last;
    if first == 0.0 || max == 0.0 then 2.0 - 1.0 else max - first
  }

  function DelaySpanOf(byDelay: seq<Individual>): real
    requires byDelay != []
  {
    DelaySpan(byDelay[0].delay, byDelay[|byDelay| - 1].delay)
  }

  function LossSpanOf(byLoss: seq<Individual>): (span: real)
    requires byLoss != []
    ensures span != 0.0
  {
    LossSpan(byLoss[0].loss, byLoss[|byLoss| - 1].loss)
  }

  /** The distance between the neighbours of member `i`; the two ends of a front get nothing. */
  function Gap(values: seq<real>, span: real, i: nat): real
    requires span != 0.0
  {
    if 0 < i < |values| - 1 then Abs(values[i + 1] - values[i - 1]) / span else 0.0
  }

  function DelaysOf(list: seq<Individual>): seq<real> {
    seq(|list|, i requires 0 <= i < |list| => list[i].delay)
  }

  function LossesOf(list: seq<Individual>): seq<real> {
    seq(|list|, i requires 0 <= i < |list| => list[i].loss)
  }

  /** Three or more members, none of which has any delay: dividing by their delay span fails. */
  ghost predicate Degenerate(front: seq<Individual>) {
    |front| >= 3 && forall i :: 0 <= i < |front| ==> front[i].delay == 0.0
  }

  ghost predicate DelayOrder(front: seq<Individual>, byDelay: seq<Individual>) {
    && multiset(byDelay) == multiset(front)
    && forall i, j :: 0 <= i < j < |byDelay| ==> byDelay[i].delay <= byDelay[j].delay
  }

  ghost predicate LossOrder(front: seq<Individual>, byLoss: seq<Individual>) {
    && multiset(byLoss) == multiset(front)
    && forall i, j :: 0 <= i < j < |byLoss| ==> byLoss[i].loss <= byLoss[j].loss
  }

  ghost function DelayGap(byDelay: seq<Individual>, i: nat): real
    requires byDelay != [] && DelaySpanOf(byDelay) != 0.0
  {
    Gap(DelaysOf(byDelay), DelaySpanOf(byDelay), i)
  }

  ghost function LossGap(byLoss: seq<Individual>, i: nat): real
    requires byLoss != []
  {
    Gap(LossesOf(byLoss), LossSpanOf(byLoss), i)
  }

  /** In a front sorted by delay, the gap around an inner member is what its neighbours are apart, as a part of what the
      ends are apart; and nothing if all delays are the same. */
  lemma DelayGapMeaning(byDelay: seq<Individual>, i: nat)
    requires 0 < i < |byDelay| - 1 && DelaySpanOf(byDelay) != 0.0 && DelayOrder(byDelay, byDelay)
    ensures var lo, hi := byDelay[0].delay, byDelay[|byDelay| - 1].delay;
      && DelayGap(byDelay, i) * (hi - lo) == byDelay[i + 1].delay - byDelay[i - 1].delay
      && 0.0 <= DelayGap(byDelay, i) && (lo < hi ==> DelayGap(byDelay, i) <= 1.0)
      && (lo == hi ==> DelayGap(byDelay, i) == 0.0)
  {
    var lo, hi := byDelay[0].delay, byDelay[|byDelay| - 1].delay;
    var d := byDelay[i + 1].delay - byDelay[i - 1].delay;
    assert lo <= byDelay[i - 1].delay <= byDelay[i + 1].delay <= hi;
    Part(d, DelaySpanOf(byDelay));
  }

  /** The same for losses, except that differences count in full if the least or the greatest loss is zero. */
  lemma LossGapMeaning(byLoss: seq<Individual>, i: nat)
    requires 0 < i < |byLoss| - 1 && LossOrder(byLoss, byLoss)
    ensures var lo, hi := byLoss[0].loss, byLoss[|byLoss| - 1].loss;
      var d := byLoss[i + 1].loss - byLoss[i - 1].loss;
      && (lo == hi ==> LossGap(byLoss, i) == 0.0)
      && (lo < hi && (lo == 0.0 || hi == 0.0) ==> LossGap(byLoss, i) == d)
      && (lo < hi && lo != 0.0 && hi != 0.0 ==>
            LossGap(byLoss, i) * (hi - lo) == d && 0.0 <= LossGap(byLoss, i) <= 1.0)
  {
    var lo, hi := byLoss[0].loss, byLoss[|byLoss| - 1].loss;
    var d := byLoss[i + 1].loss - byLoss[i - 1].loss;
    assert lo <= byLoss[i - 1].loss <= byLoss[i + 1].loss <= hi;
    Part(d, LossSpanOf(byLoss));
  }

  lemma Part(d: real, span: real)
    requires d >= 0.0 && span != 0.0
    ensures d / span * span == d && (d == 0.0 ==> d / span == 0.0) && (span == 1.0 ==> d / span == d)
    ensures d <= span ==> 0.0 <= d / span <= 1.0
  {
  }

  /** Crowding distances, noted down. */
  type Note = map<Individual, real>

  ghost predicate Tracks(note: Note)
    reads note.Keys
  {
    forall p :: p in note ==> p.crowdingDistance == note[p]
  }

  ghost predicate SumOfGaps(byDelay: seq<Individual>, byLoss: seq<Individual>, note: Note, i: nat, j: nat)
    requires byDelay != [] && DelaySpanOf(byDelay) != 0.0
  {
    i < |byDelay| && j < |byLoss| && byDelay[i] == byLoss[j] ==>
      byDelay[i] in note && note[byDelay[i]] == DelayGap(byDelay, i) + LossGap(byLoss, j)
  }

  /** The crowding distance of everyone is the sum of the gaps around it in the two orders. */
  ghost predicate GapsOf(byDelay: seq<Individual>, byLoss: seq<Individual>, note: Note) {
    && byDelay != [] && DelaySpanOf(byDelay) != 0.0
    && forall i: nat, j: nat :: SumOfGaps(byDelay, byLoss, note, i, j)
  }

  ghost predicate Crowded(front: seq<Individual>, byDelay: seq<Individual>, byLoss: seq<Individual>, note: Note) {
    if |front| <= 2 then forall i :: 0 <= i < |front| ==> front[i] in note && note[front[i]] == 99999999999.9
    else DelayOrder(front, byDelay) && LossOrder(front, byLoss) && GapsOf(byDelay, byLoss, note)
  }

  ghost predicate Added(list: seq<Individual>, values: seq<real>, span: real, was: Note, now: Note, i: nat)
    requires span != 0.0
  {
    i < |list| ==> list[i] in was && list[i] in now && now[list[i]] == was[list[i]] + Gap(values, span, i)
  }

  /** Adds the gap around every inner member of `list` to its crowding distance, which was `was`. */
  method AddGaps(list: seq<Individual>, values: seq<real>, span: real, ghost was: Note) returns (ghost now: Note)
    requires NoRepeats(list) && |values| == |list| && span != 0.0 && Elements(list) == was.Keys && Tracks(was)
    modifies was.Keys`crowdingDistance
    ensures Tracks(now) && now.Keys == was.Keys
    ensures forall i: nat :: Added(list, values, span, was, now, i)
  {
    assert forall k :: 0 <= k < |list| ==> list[k] in Elements(list);
    var i := 1;
    while i < |list| - 1
      invariant i >= 1 && (i == 1 || i <= |list| - 1)
      invariant forall k :: 0 <= k < i && k < |list| ==>
        list[k].crowdingDistance == was[list[k]] + Gap(values, span, k)
      invariant forall k :: i <= k < |list| ==> list[k].crowdingDistance == was[list[k]]
    {
      list[i].crowdingDistance := list[i].crowdingDistance + Abs(values[i + 1] - values[i - 1]) / span;
      i := i + 1;
    }
    now := map p | p in was :: p.crowdingDistance;
  }

  lemma Permuted(a: seq<Individual>, b: seq<Individual>)
    requires multiset(a) == multiset(b)
    ensures |a| == |b| && Elements(a) == Elements(b) && (NoRepeats(a) ==> NoRepeats(b))
    ensures forall p :: p in a <==> p in b
  {
    assert |multiset(a)| == |a| && |multiset(b)| == |b|;
    forall p
      ensures p in a <==> p in b
    {
      assert p in a <==> p in multiset(a);
      assert p in b <==> p in multiset(b);
    }
    if NoRepeats(a) {
      forall i, j | 0 <= i < j < |b|
        ensures b[i] != b[j]
      {
        OnceEach(a, b[i]);
        assert b == b[..j] + b[j..];
        assert b[..j][i] == b[i] && b[j..][0] == b[j];
        assert multiset(b[..j])[b[i]] >= 1 && multiset(b[j..])[b[j]] >= 1;
      }
    }
  }

  lemma {:induction false} OnceEach(list: seq<Individual>, p: Individual)
    requires NoRepeats(list)
    ensures multiset(list)[p] <= 1
  {
    if list != [] {
      OnceEach(list[1..], p);
      assert list == [list[0]] + list[1..];
      assert list[0] !in list[1..];
    }
  }

  /** The delays of a sorted front span nothing exactly when all of them are zero. */
  lemma SpanZero(front: seq<Individual>, byDelay: seq<Individual>)
    requires DelayOrder(front, byDelay) && |byDelay| >= 3
    ensures DelaySpanOf(byDelay) == 0.0 <==> Degenerate(front)
  {
    Permuted(front, byDelay);
    if Degenerate(front) {
      assert byDelay[0] in front && byDelay[|byDelay| - 1] in front;
    } else {
      var i :| 0 <= i < |front| && front[i].delay != 0.0;
      assert front[i] in byDelay;
    }
  }

  /** Sorts the front by one of its objectives. */
  method Arrange(list: array<Individual>, key: Key) returns (sorted: seq<Individual>)
    requires NoRepeats(list[..]) && key != Crowding
    modifies list
    ensures sorted == list[..] && NoRepeats(sorted) && Elements(sorted) == Elements(old(list[..]))
    ensures key == Delay ==> DelayOrder(old(list[..]), sorted)
    ensures key == Loss ==> LossOrder(old(list[..]), sorted)
  {
    ghost var front := list[..];
    ObjectSort(list, key);
    sorted := list[..];
    Permuted(front, sorted);
  }

  /** Sorts by delay and adds the delay gaps; `ok` is false when the division fails. */
  method DelayRound(list: array<Individual>, ghost was: Note)
    returns (ok: bool, ghost byDelay: seq<Individual>, ghost now: Note)
    requires list.Length >= 3 && NoRepeats(list[..]) && Elements(list[..]) == was.Keys && Tracks(was)
    modifies list, was.Keys`crowdingDistance
    ensures list[..] == byDelay && DelayOrder(old(list[..]), byDelay) && NoRepeats(byDelay)
    ensures Elements(byDelay) == was.Keys == now.Keys && Tracks(now)
    ensures ok <==> !Degenerate(old(list[..]))
    ensures ok <==> DelaySpanOf(byDelay) != 0.0
    ensures ok ==> forall i: nat :: Added(byDelay, DelaysOf(byDelay), DelaySpanOf(byDelay), was, now, i)
  {
    ghost var front := list[..];
    var sorted := Arrange(list, Delay);
    byDelay, now := sorted, was;
    SpanZero(front, byDelay);
    var span := DelaySpanOf(sorted);
    ok := span != 0.0;
    if ok {
      now := AddGaps(sorted, DelaysOf(sorted), span, was);
    }
  }

  /** Sorts by loss and adds the loss gaps. */
  method LossRound(list: array<Individual>, ghost was: Note) returns (ghost byLoss: seq<Individual>, ghost now: Note)
    requires list.Length >= 3 && NoRepeats(list[..]) && Elements(list[..]) == was.Keys && Tracks(was)
    modifies list, was.Keys`crowdingDistance
    ensures list[..] == byLoss && byLoss != [] && LossOrder(old(list[..]), byLoss)
    ensures Elements(byLoss) == was.Keys == now.Keys && Tracks(now)
    ensures forall j: nat :: Added(byLoss, LossesOf(byLoss), LossSpanOf(byLoss), was, now, j)
  {
    var sorted := Arrange(list, Loss);
    byLoss := sorted;
    now := AddGaps(sorted, LossesOf(sorted), LossSpanOf(sorted), was);
  }

  lemma GapsSummed(byDelay: seq<Individual>, byLoss: seq<Individual>, zero: Note, mid: Note, note: Note)
    requires byDelay != [] && byLoss != [] && DelaySpanOf(byDelay) != 0.0
    requires forall p :: p in zero ==> zero[p] == 0.0
    requires forall i: nat :: Added(byDelay, DelaysOf(byDelay), DelaySpanOf(byDelay), zero, mid, i)
    requires forall j: nat :: Added(byLoss, LossesOf(byLoss), LossSpanOf(byLoss), mid, note, j)
    ensures GapsOf(byDelay, byLoss, note)
  {
    forall i: nat, j: nat
      ensures SumOfGaps(byDelay, byLoss, note, i, j)
    {
      assert Added(byDelay, DelaysOf(byDelay), DelaySpanOf(byDelay), zero, mid, i);
      assert Added(byLoss, LossesOf(byLoss), LossSpanOf(byLoss), mid, note, j);
    }
  }

  /** Distances for a front of three or more. */
  method Distances(list: array<Individual>, ghost zero: Note)
    returns (ok: bool, ghost byDelay: seq<Individual>, ghost byLoss: seq<Individual>, ghost note: Note)
    requires list.Length >= 3 && NoRepeats(list[..]) && Elements(list[..]) == zero.Keys && Tracks(zero)
    requires forall p :: p in zero ==> zero[p] == 0.0
    modifies list, zero.Keys`crowdingDistance
    ensures multiset(list[..]) == multiset(old(list[..])) && note.Keys == zero.Keys && Tracks(note)
    ensures ok <==> !Degenerate(old(list[..]))
    ensures ok ==> Crowded(old(list[..]), byDelay, byLoss, note)
  {
    byLoss := [];
    ok, byDelay, note := DelayRound(list, zero);
    if ok {
      ghost var mid := note;
      byLoss, note := LossRound(list, mid);
      GapsSummed(byDelay, byLoss, zero, mid, note);
    }
  }

  /** A front of one or two is as lonely as can be. */
  method Lonely(front: seq<Individual>, ghost zero: Note) returns (ghost note: Note)
    requires 1 <= |front| <= 2 && Elements(front) == zero.Keys
    modifies zero.Keys`crowdingDistance
    ensures note.Keys == zero.Keys && Tracks(note)
    ensures forall i :: 0 <= i < |front| ==> front[i] in note && note[front[i]] == INF
  {
    assert forall i :: 0 <= i < |front| ==> front[i] in Elements(front);
    front[0].crowdingDistance := INF;
    if |front| == 2 {
      front[1].crowdingDistance := INF;
    }
    note := map p | p in zero :: p.crowdingDistance;
  }

  /** Fills in the distances of one front. */
  method Fill(list: array<Individual>, ghost zero: Note)
    returns (ok: bool, ghost byDelay: seq<Individual>, ghost byLoss: seq<Individual>, ghost note: Note)
    requires NoRepeats(list[..]) && Elements(list[..]) == zero.Keys && Tracks(zero)
    requires forall p :: p in zero ==> zero[p] == 0.0
    modifies list, zero.Keys`crowdingDistance
    ensures multiset(list[..]) == multiset(old(list[..])) && note.Keys == zero.Keys && Tracks(note)
    ensures ok <==> !Degenerate(old(list[..]))
    ensures ok ==> Crowded(old(list[..]), byDelay, byLoss, note)
  {
    byDelay, byLoss, ok, note := [], [], true, zero;
    if list.Length == 1 || list.Length == 2 {
      note := Lonely(list[..], zero);
    } else if list.Length > 2 {
      ok, byDelay, byLoss, note := Distances(list, zero);
    }
  }

  /** What the sorting of one front leaves behind. */
  datatype Arrangement =
    Arrangement(sorted: seq<Individual>, byDelay: seq<Individual>, byLoss: seq<Individual>, note: Note)

  /** The front with its distances filled in and the loneliest first. */
  ghost predicate Arranged(front: seq<Individual>, a: Arrangement) {
    && multiset(a.sorted) == multiset(front) && a.note.Keys == Elements(front)
    && Crowded(front, a.byDelay, a.byLoss, a.note) && Descending(a.sorted, a.note)
  }

  ghost predicate Descending(sorted: seq<Individual>, note: Note) {
    && (forall i :: 0 <= i < |sorted| ==> sorted[i] in note)
    && (forall i, j :: 0 <= i < j < |sorted| ==> note[sorted[i]] >= note[sorted[j]])
  }

  lemma LoneliestFirst(front: seq<Individual>, sorted: seq<Individual>, note: Note)
    requires multiset(sorted) == multiset(front) && Elements(front) == note.Keys && Tracks(note)
    requires Sorted(sorted, Crowding)
    ensures Descending(sorted, note)
  {
    Permuted(sorted, front);
    assert forall i :: 0 <= i < |sorted| ==> sorted[i] in Elements(sorted);
    forall i, j | 0 <= i < j < |sorted|
      ensures note[sorted[i]] >= note[sorted[j]]
    {
      assert Value(sorted[i], Crowding) <= Value(sorted[j], Crowding);
    }
  }

  /** Fills in the distances of one front and puts the loneliest first. */
  method CrowdFront(front: seq<Individual>, ghost zero: Note)
    returns (ok: bool, sorted: seq<Individual>, ghost a: Arrangement)
    requires NoRepeats(front) && Elements(front) == zero.Keys && Tracks(zero)
    requires forall p :: p in zero ==> zero[p] == 0.0
    modifies zero.Keys`crowdingDistance
    ensures ok <==> !Degenerate(front)
    ensures a.sorted == sorted
    ensures ok ==> Arranged(front, a) && Tracks(a.note)
  {
    var list := new Individual[|front|](i requires 0 <= i < |front| => front[i]);
    assert list[..] == front;
    ghost var byDelay, byLoss, note;
    ok, byDelay, byLoss, note := Fill(list, zero);
    if ok {
      ObjectSort(list, Crowding);
      LoneliestFirst(front, list[..], note);
    }
    sorted := list[..];
    a := Arrangement(sorted, byDelay, byLoss, note);
  }

  ghost predicate Disjoint(fronts: seq<seq<Individual>>) {
    && (forall k :: 0 <= k < |fronts| ==> NoRepeats(fronts[k]))
    && (forall a, b :: 0 <= a < b < |fronts| ==> Elements(fronts[a]) !! Elements(fronts[b]))
  }

  method CrowdingDistanceSort(fronts: seq<seq<Individual>>, ghost pop: set<Individual>)
    returns (ok: bool, sorted: seq<seq<Individual>>, ghost arranged: seq<Arrangement>)
    requires Disjoint(fronts) && forall k :: 0 <= k < |fronts| ==> Elements(fronts[k]) <= pop
    requires forall p :: p in pop ==> p.crowdingDistance == 0.0
    modifies pop`crowdingDistance
    ensures ok <==> forall k :: 0 <= k < |fronts| ==> !Degenerate(fronts[k])
    ensures ok ==> |sorted| == |arranged| == |fronts|
    ensures ok ==> forall k :: 0 <= k < |fronts| ==> sorted[k] == arranged[k].sorted && Arranged(fronts[k], arranged[k])
    ensures ok ==> forall k :: 0 <= k < |fronts| ==> Tracks(arranged[k].note)
  {
    sorted, arranged, ok := [], [], true;
    for k := 0 to |fronts|
      invariant ok && |sorted| == |arranged| == k
      invariant forall a :: 0 <= a < k ==> sorted[a] == arranged[a].sorted && Arranged(fronts[a], arranged[a])
      invariant forall a :: 0 <= a < k ==> Tracks(arranged[a].note)
      invariant forall a :: 0 <= a < k ==> !Degenerate(fronts[a])
      invariant forall a, p :: k <= a < |fronts| && p in Elements(fronts[a]) ==> p.crowdingDistance == 0.0
    {
      var front: seq<Individual>;
      ghost var a: Arrangement;
      ok, front, a := CrowdFront(fronts[k], map p | p in Elements(fronts[k]) :: p.crowdingDistance);
      if !ok {
        return;
      }
      sorted, arranged := sorted + [front], arranged + [a];
    }
  }
}
