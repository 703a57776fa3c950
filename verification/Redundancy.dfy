/** `GAPopulation._remove_redundancy`: cutting the loops out of a spliced path. */
module Redundancy {
  import opened Walks
  import opened Shortcuts

  // ---------- what the result has to be ----------

  /** `x` is directly followed by `y` somewhere in `p`. */
  ghost predicate StepIn(p: Path, x: Vertex, y: Vertex) {
    exists k :: 0 <= k < |p| - 1 && p[k] == x && p[k + 1] == y
  }

  /** Every consecutive pair of `r` is a consecutive pair of `p`. */
  ghost predicate StepsOf(r: Path, p: Path) {
    forall i :: 0 <= i < |r| - 1 ==> StepIn(p, r[i], r[i + 1])
  }

  ghost predicate SameEnds(r: Path, p: Path) {
    if p == [] then r == [] else r != [] && r[0] == p[0] && r[|r| - 1] == p[|p| - 1]
  }

  /** `r` is a loop-free shortening of `p`. */
  ghost predicate Shortening(r: Path, p: Path) {
    Simple(r) && SameEnds(r, p) && StepsOf(r, p)
  }

  lemma ShorteningKeepsWalk(adj: Adjacency, r: Path, p: Path)
    requires Walk(adj, p) && Shortening(r, p)
    ensures Walk(adj, r)
  {
    forall i | 0 <= i < |r| - 1
      ensures Edge(adj, r[i], r[i + 1])
    {
      assert StepIn(p, r[i], r[i + 1]);
    }
  }

  // ---------- pieces of a path ----------

  lemma SimpleConcat(a: Path, b: Path)
    requires Simple(a) && Simple(b)
    requires forall i, j :: 0 <= i < |a| && 0 <= j < |b| ==> a[i] != b[j]
    ensures Simple(a + b)
  {
  }

  /** A range without a repeated position, but perhaps the first, has no repetition. */
  lemma PieceSimple(p: Path, s: nat, e: nat)
    requires s <= e <= |p|
    requires forall k :: s < k < e ==> !Repeated(p, k)
    ensures Simple(p[s..e])
  {
    forall a, b | 0 <= a < b < e - s
      ensures p[s..e][a] != p[s..e][b]
    {
      assert !Repeated(p, s + b);
    }
  }

  lemma PieceSteps(p: Path, s: nat, e: nat)
    requires s <= e <= |p|
    ensures StepsOf(p[s..e], p)
  {
    forall i | 0 <= i < e - s - 1
      ensures StepIn(p, p[s..e][i], p[s..e][i + 1])
    {
      assert p[s..e][i] == p[s + i] && p[s..e][i + 1] == p[s + i + 1];
    }
  }

  lemma StepsConcat(a: Path, b: Path, p: Path)
    requires StepsOf(a, p) && StepsOf(b, p)
    requires a != [] && b != [] ==> StepIn(p, a[|a| - 1], b[0])
    ensures StepsOf(a + b, p)
  {
    forall i | 0 <= i < |a + b| - 1
      ensures StepIn(p, (a + b)[i], (a + b)[i + 1])
    {
      if i + 1 < |a| {
        assert StepIn(p, a[i], a[i + 1]);
      } else if i >= |a| {
        assert StepIn(p, b[i - |a|], b[i - |a| + 1]);
      }
    }
  }

  // ---------- sections ----------

  /** A half-open range of positions. */
  datatype Section = Section(from: nat, to: nat)

  ghost predicate InRange(p: Path, sections: seq<Section>) {
    forall i :: 0 <= i < |sections| ==> sections[i].from <= sections[i].to <= |p|
  }

  /** The concatenation of the chosen ranges of `p`. */
  ghost function Assemble(p: Path, sections: seq<Section>): Path
    requires InRange(p, sections)
  {
    if sections == [] then []
    else
      var n := |sections| - 1;
      Assemble(p, sections[..n]) + p[sections[n].from..sections[n].to]
  }

  /** After the first section, every section starts at a repeated position and contains no other. */
  ghost predicate OneRepeatEach(p: Path, sections: seq<Section>)
    requires sections != []
  {
    && (forall k :: 0 <= k < sections[0].to ==> !Repeated(p, k))
    && (forall i :: 1 <= i < |sections| ==> sections[i].from < sections[i].to && Repeated(p, sections[i].from))
    && (forall i, k :: 1 <= i < |sections| && sections[i].from < k < sections[i].to ==> !Repeated(p, k))
  }

  /** No item starts two sections. */
  ghost predicate FreshStarts(p: Path, sections: seq<Section>)
    requires InRange(p, sections)
    requires forall i :: 1 <= i < |sections| ==> sections[i].from < |p|
  {
    forall i, j :: 1 <= i < j < |sections| ==> p[sections[i].from] != p[sections[j].from]
  }

  /** Each section takes up at the item where the section before it stopped. */
  ghost predicate Linked(p: Path, sections: seq<Section>) {
    forall i :: 0 <= i < |sections| - 1 ==> Meets(p, sections[i], sections[i + 1])
  }

  ghost predicate Meets(p: Path, a: Section, b: Section) {
    a.to < |p| && b.from < |p| && p[a.to] == p[b.from]
  }

  /** The invariant of the section list. */
  ghost predicate GoodSections(p: Path, sections: seq<Section>) {
    && sections != [] && sections[0].from == 0
    && InRange(p, sections)
    && OneRepeatEach(p, sections)
    && FreshStarts(p, sections)
    && Linked(p, sections)
  }

  lemma GoodPrefix(p: Path, sections: seq<Section>)
    requires GoodSections(p, sections) && |sections| > 1
    ensures GoodSections(p, sections[..|sections| - 1])
  {
  }

  /** Every assembled vertex comes from a position of some section. */
  lemma {:induction false} AssembleOrigin(p: Path, sections: seq<Section>, x: Vertex) returns (i: nat, k: nat)
    requires InRange(p, sections)
    requires x in Assemble(p, sections)
    ensures i < |sections| && sections[i].from <= k < sections[i].to && p[k] == x
  {
    var n := |sections| - 1;
    var last := sections[n];
    if x in p[last.from..last.to] {
      i := n;
      k :| last.from <= k < last.to && p[k] == x;
    } else {
      i, k := AssembleOrigin(p, sections[..n], x);
    }
  }

  /** Positions of two different sections hold different vertices. */
  lemma SectionsDisjoint(p: Path, sections: seq<Section>, i: nat, k: nat, n: nat, k': nat)
    requires GoodSections(p, sections)
    requires i < n < |sections|
    requires sections[i].from <= k < sections[i].to && sections[n].from <= k' < sections[n].to
    ensures p[k] != p[k']
  {
    assert Repeated(p, sections[n].from);
    assert i > 0 ==> p[sections[i].from] != p[sections[n].from];
    assert k != k';
    assert p[k] == p[k'] ==> Repeated(p, k) && Repeated(p, k');
  }

  lemma {:induction false} AssembleSimple(p: Path, sections: seq<Section>)
    requires GoodSections(p, sections)
    ensures Simple(Assemble(p, sections))
  {
    var n := |sections| - 1;
    var last := sections[n];
    var piece := p[last.from..last.to];
    PieceSimple(p, last.from, last.to);
    var front := Assemble(p, sections[..n]);
    if n > 0 {
      GoodPrefix(p, sections);
      AssembleSimple(p, sections[..n]);
      forall a, b | 0 <= a < |front| && 0 <= b < |piece|
        ensures front[a] != piece[b]
      {
        var i, k := AssembleOrigin(p, sections[..n], front[a]);
        SectionsDisjoint(p, sections, i, k, n, last.from + b);
      }
    }
    SimpleConcat(front, piece);
  }

  /** The assembled path starts where `p` starts, moves only along steps of `p`, and stops just
      before the position where the last section stops. */
  lemma {:induction false} AssembleSteps(p: Path, sections: seq<Section>)
    requires GoodSections(p, sections) && p != []
    ensures var r := Assemble(p, sections); var stop := sections[|sections| - 1].to;
      && StepsOf(r, p)
      && (r == [] ==> |sections| == 1 && stop == 0)
      && (r != [] ==> r[0] == p[0] && stop > 0 && r[|r| - 1] == p[stop - 1])
  {
    var n := |sections| - 1;
    var last := sections[n];
    var front, piece := Assemble(p, sections[..n]), p[last.from..last.to];
    PieceSteps(p, last.from, last.to);
    if n > 0 {
      GoodPrefix(p, sections);
      AssembleSteps(p, sections[..n]);
      var e := sections[n - 1].to;
      assert Meets(p, sections[n - 1], last);
      if front != [] {
        assert StepIn(p, p[e - 1], p[e]);
      }
    }
    StepsConcat(front, piece, p);
    assert Assemble(p, sections) == front + piece;
  }

  /** Sections that reach the end of the path assemble to a shortening of it. */
  lemma AssembledShortening(p: Path, sections: seq<Section>)
    requires GoodSections(p, sections)
    requires p != [] && sections[|sections| - 1].to == |p|
    ensures Shortening(Assemble(p, sections), p)
  {
    AssembleSimple(p, sections);
    AssembleSteps(p, sections);
  }

  /** All the redundancy is one loop, from `numMin` to `numMax`. */
  lemma OneLoop(p: Path, numMin: nat, numMax: nat)
    requires numMin < numMax < |p| && p[numMin] == p[numMax]
    requires forall k :: Repeated(p, k) ==> numMin <= k <= numMax
    ensures Shortening(p[..numMin] + p[numMax..], p)
  {
    var sections := [Section(0, numMin), Section(numMax, |p|)];
    AssembledShortening(p, sections);
    assert sections[..1] == [Section(0, numMin)];
    assert Assemble(p, sections[..1]) == p[..numMin];
    assert Assemble(p, sections) == p[..numMin] + p[numMax..];
  }

  // ---------- the redundancy dictionary ----------

  /** The two positions of a repeated item. */
  datatype Pair = Pair(first: nat, second: nat)

  type RedDict = map<Vertex, Pair>

  /** `red` maps exactly the repeated items to their two positions. */
  ghost predicate RedundancyMap(p: Path, red: RedDict) {
    && (forall v :: v in red ==>
          red[v].first < red[v].second < |p| && p[red[v].first] == v && p[red[v].second] == v)
    && (forall i: nat, j: nat :: Twins(p, i, j) ==> p[i] in red && red[p[i]] == Pair(i, j))
  }

  ghost predicate Twins(p: Path, i: nat, j: nat) {
    i < j < |p| && p[i] == p[j]
  }

  /** In dictionary terms: the repeated positions are the two positions of the items of `red`. */
  lemma RepeatedPositions(p: Path, red: RedDict, k: int)
    requires RedundancyMap(p, red)
    ensures Repeated(p, k) <==> 0 <= k < |p| && p[k] in red
    ensures Repeated(p, k) ==> k == red[p[k]].first || k == red[p[k]].second
  {
    if Repeated(p, k) {
      var j :| 0 <= j < |p| && j != k && p[j] == p[k];
      assert Twins(p, if j < k then j else k, if j < k then k else j);
    }
    if 0 <= k < |p| && p[k] in red {
      var pair := red[p[k]];
      assert p[pair.first] == p[k] && p[pair.second] == p[k];
    }
  }

  /** The positions of `v` among the first `n` items of `p`, in order. */
  ghost function Positions(p: Path, n: nat, v: Vertex): seq<nat>
    requires n <= |p|
  {
    if n == 0 then []
    else Positions(p, n - 1, v) + if p[n - 1] == v then [n - 1] else []
  }

  lemma {:induction false} PositionsExact(p: Path, n: nat, v: Vertex)
    requires n <= |p|
    ensures forall k :: k in Positions(p, n, v) <==> 0 <= k < n && p[k] == v
    ensures forall i, j :: 0 <= i < j < |Positions(p, n, v)| ==> Positions(p, n, v)[i] < Positions(p, n, v)[j]
  {
    if n > 0 {
      PositionsExact(p, n - 1, v);
      var rest := Positions(p, n - 1, v);
      assert forall i :: 0 <= i < |rest| ==> rest[i] in rest;
    }
  }

  lemma {:induction false} TwoPositions(p: Path, n: nat, i: nat, j: nat)
    requires AtMostTwice(p) && i < j < |p| && p[i] == p[j] && n <= |p|
    ensures Positions(p, n, p[i]) == if n <= i then [] else if n <= j then [i] else [i, j]
  {
    if n > 0 {
      TwoPositions(p, n - 1, i, j);
      assert n - 1 != i && n - 1 != j ==> p[n - 1] != p[i];
    }
  }

  /** Positions of each item: the first loop. */
  method CollectPositions(p: Path) returns (temp: map<Vertex, seq<nat>>)
    ensures forall v :: v in temp ==> temp[v] == Positions(p, |p|, v)
    ensures forall v :: v !in temp ==> Positions(p, |p|, v) == []
  {
    temp := map[];
    for num := 0 to |p|
      invariant forall v :: v in temp ==> temp[v] == Positions(p, num, v)
      invariant forall v :: v !in temp ==> Positions(p, num, v) == []
    {
      if p[num] !in temp {
        temp := temp[p[num] := [num]];
      } else {
        temp := temp[p[num] := temp[p[num]] + [num]];
      }
    }
  }

  /** Keeping the items with two positions: the second loop. */
  method RedundantItems(p: Path) returns (red: RedDict)
    requires AtMostTwice(p)
    ensures RedundancyMap(p, red)
  {
    var temp := CollectPositions(p);
    red := map v | v in temp && |temp[v]| == 2 :: Pair(temp[v][0], temp[v][1]);
    forall v | v in red
      ensures red[v].first < red[v].second < |p| && p[red[v].first] == v && p[red[v].second] == v
    {
      PositionsExact(p, |p|, v);
      assert temp[v][0] in temp[v] && temp[v][1] in temp[v];
    }
    forall i: nat, j: nat | Twins(p, i, j)
      ensures p[i] in red && red[p[i]] == Pair(i, j)
    {
      TwoPositions(p, |p|, i, j);
    }
  }

  /** The first and the last repeated position with their items. */
  ghost predicate Extremes(red: RedDict, numMin: nat, numMax: nat, headItem: Vertex, endItem: Vertex) {
    && headItem in red && red[headItem].first == numMin
    && endItem in red && red[endItem].second == numMax
    && forall v :: v in red ==> numMin <= red[v].first && red[v].second <= numMax
  }

  method FindExtremes(p: Path, red: RedDict)
    returns (numMin: nat, numMax: nat, headItem: Vertex, endItem: Vertex)
    requires RedundancyMap(p, red) && red != map[]
    ensures Extremes(red, numMin, numMax, headItem, endItem)
  {
    numMin, numMax, headItem, endItem := |p|, 0, 0, 0;
    var keys := red.Keys;
    while keys != {}
      invariant keys <= red.Keys
      invariant keys == red.Keys ==> numMin == |p| && numMax == 0
      invariant keys != red.Keys ==> headItem in red && red[headItem].first == numMin
      invariant keys != red.Keys ==> endItem in red && red[endItem].second == numMax
      invariant forall v :: v in red && v !in keys ==> numMin <= red[v].first && red[v].second <= numMax
      decreases |keys|
    {
      var key :| key in keys;
      var headNum, endNum := red[key].first, red[key].second;
      if headNum < numMin {
        numMin, headItem := headNum, key;
      }
      if endNum > numMax {
        numMax, endItem := endNum, key;
      }
      keys := keys - {key};
    }
    assert red.Keys != {};
  }

  // ---------- selecting sections ----------

  /** `list` holds the repeated positions of `p`, in increasing order. */
  ghost predicate RepeatedList(p: Path, list: seq<nat>) {
    && (forall i :: 0 <= i < |list| ==> Repeated(p, list[i]))
    && (forall i, j :: 0 <= i < j < |list| ==> list[i] < list[j])
    && (forall k :: Repeated(p, k) ==> k in list)
  }

  method RedPositions(p: Path, red: RedDict, numMin: nat, numMax: nat) returns (list: seq<nat>)
    requires RedundancyMap(p, red) && numMin <= numMax < |p|
    requires forall k :: Repeated(p, k) ==> numMin <= k <= numMax
    ensures RepeatedList(p, list)
  {
    list := [];
    for num := numMin to numMax + 1
      invariant forall i :: 0 <= i < |list| ==> list[i] < num && Repeated(p, list[i])
      invariant forall i, j :: 0 <= i < j < |list| ==> list[i] < list[j]
      invariant forall k :: Repeated(p, k) && k < num ==> k in list
    {
      RepeatedPositions(p, red, num);
      if p[num] in red {
        list := list + [num];
      }
    }
  }

  method Index(list: seq<nat>, x: nat) returns (i: nat)
    requires x in list
    ensures i < |list| && list[i] == x && forall k :: 0 <= k < i ==> list[k] != x
  {
    i := 0;
    while list[i] != x
      invariant i < |list| && x in list[i..] && forall k :: 0 <= k < i ==> list[k] != x
      decreases |list| - i
    {
      assert list[i..] == [list[i]] + list[i + 1..];
      i := i + 1;
    }
  }

  /** No repeated position lies strictly between two neighbours of the list. */
  lemma NothingBetween(p: Path, list: seq<nat>, n: nat, k: int)
    requires RepeatedList(p, list) && 0 < n < |list|
    requires list[n - 1] < k < list[n]
    ensures !Repeated(p, k)
  {
    assert forall m :: 0 <= m < |list| ==> list[m] <= list[n - 1] || list[m] >= list[n];
  }

  /** The closed sections, the start of the open one, and the items used so far. */
  ghost predicate Selection(p: Path, list: seq<nat>, closed: seq<Section>, start: nat,
                            items: seq<Vertex>, numPoint: nat) {
    && GoodSections(p, closed)
    && 0 < numPoint < |list| && list[numPoint - 1] == start < |p|
    && closed[|closed| - 1].to < |p| && p[closed[|closed| - 1].to] == p[start]
    && |items| == |closed| && items[|items| - 1] == p[start]
    && (forall j :: 1 <= j < |closed| ==> items[j - 1] == p[closed[j].from])
    && NoRepeats(items)
  }

  /** A new section starts at an unused repeated item, the one the last section stopped at. */
  lemma AppendSection(p: Path, sections: seq<Section>, s: nat, e: nat)
    requires GoodSections(p, sections)
    requires s < e <= |p| && Repeated(p, s) && forall k :: s < k < e ==> !Repeated(p, k)
    requires sections[|sections| - 1].to < |p| && p[sections[|sections| - 1].to] == p[s]
    requires forall j :: 1 <= j < |sections| ==> p[sections[j].from] != p[s]
    ensures GoodSections(p, sections + [Section(s, e)])
  {
    var more := sections + [Section(s, e)];
    assert InRange(p, more);
    assert OneRepeatEach(p, more);
    assert FreshStarts(p, more);
    assert Linked(p, more);
  }

  /** Closing the open section at the next repeated position keeps the sections good. */
  lemma CloseSection(p: Path, list: seq<nat>, closed: seq<Section>, start: nat,
                     items: seq<Vertex>, numPoint: nat)
    requires RepeatedList(p, list)
    requires Selection(p, list, closed, start, items, numPoint)
    ensures start < list[numPoint] < |p|
    ensures GoodSections(p, closed + [Section(start, list[numPoint])])
  {
    var e := list[numPoint];
    assert Repeated(p, e) && Repeated(p, start);
    forall k | start < k < e
      ensures !Repeated(p, k)
    {
      NothingBetween(p, list, numPoint, k);
    }
    AppendSection(p, closed, start, e);
  }

  /** The last section runs from the last repeated position to the end of the path. */
  lemma FinalSection(p: Path, sections: seq<Section>, numMax: nat)
    requires GoodSections(p, sections)
    requires Repeated(p, numMax) && forall k :: Repeated(p, k) ==> k <= numMax
    requires sections[|sections| - 1].to < |p| && p[sections[|sections| - 1].to] == p[numMax]
    requires forall j :: 1 <= j < |sections| ==> p[sections[j].from] != p[numMax]
    ensures InRange(p, sections + [Section(numMax, |p| - 1)])
    ensures Shortening(Assemble(p, sections + [Section(numMax, |p| - 1)]) + [p[|p| - 1]], p)
  {
    AppendSection(p, sections, numMax, |p|);
    AssembledShortening(p, sections + [Section(numMax, |p|)]);
    LastVertex(p, sections, numMax);
  }

  lemma LastVertex(p: Path, sections: seq<Section>, s: nat)
    requires InRange(p, sections) && s < |p|
    ensures InRange(p, sections + [Section(s, |p|)]) && InRange(p, sections + [Section(s, |p| - 1)])
    ensures Assemble(p, sections + [Section(s, |p|)]) ==
              Assemble(p, sections + [Section(s, |p| - 1)]) + [p[|p| - 1]]
  {
    var all, cut := sections + [Section(s, |p|)], sections + [Section(s, |p| - 1)];
    assert all[..|sections|] == sections;
    assert cut[..|sections|] == sections;
    var front := Assemble(p, sections);
    assert Assemble(p, all) == front + p[s..|p|];
    assert Assemble(p, cut) == front + p[s..|p| - 1];
    assert p[s..|p|] == p[s..|p| - 1] + [p[|p| - 1]];
  }

  /** The two nested loops that copy the chosen sections. */
  method CopySections(p: Path, sections: seq<Section>) returns (rval: Path)
    requires InRange(p, sections)
    ensures rval == Assemble(p, sections)
  {
    rval := [];
    for s := 0 to |sections|
      invariant rval == Assemble(p, sections[..s])
    {
      for n := sections[s].from to sections[s].to
        invariant rval == Assemble(p, sections[..s]) + p[sections[s].from..n]
      {
        rval := rval + [p[n]];
      }
      assert sections[..s + 1][..s] == sections[..s];
    }
    assert sections[..|sections|] == sections;
  }

  /** The positions of the item at hand, seen from the open section: the listed position is the first of
      the two if both lie ahead, and the second one otherwise. */
  lemma NextPosition(p: Path, red: RedDict, list: seq<nat>, numPoint: nat)
    requires RedundancyMap(p, red) && RepeatedList(p, list) && 0 < numPoint < |list|
    ensures list[numPoint] < |p| && p[list[numPoint]] in red
    ensures var start, pair := list[numPoint - 1], red[p[list[numPoint]]];
      && (start < pair.first ==> list[numPoint] == pair.first)
      && (pair.first <= start ==> list[numPoint] == pair.second)
  {
    var e := list[numPoint];
    assert Repeated(p, e);
    RepeatedPositions(p, red, e);
    var pair := red[p[e]];
    RepeatedPositions(p, red, pair.first);
    assert list[numPoint - 1] < pair.first < e ==> !Repeated(p, pair.first) by {
      if list[numPoint - 1] < pair.first < e {
        NothingBetween(p, list, numPoint, pair.first);
      }
    }
  }

  /** Before the first section, or with an open section. */
  ghost predicate OpenAt(p: Path, list: seq<nat>, closed: seq<Section>, start: nat,
                            items: seq<Vertex>, numPoint: nat) {
    if closed == [] then items == [] && start == 0 == numPoint < |list|
    else Selection(p, list, closed, start, items, numPoint)
  }

  /** What holds once the section that ends at `redNum` has been closed. */
  ghost predicate JustClosed(p: Path, more: seq<Section>, items: seq<Vertex>, redNum: nat) {
    && GoodSections(p, more) && more[|more| - 1].to == redNum < |p|
    && |more| == |items| + 1
    && (forall j :: 1 <= j < |more| ==> items[j - 1] == p[more[j].from])
    && NoRepeats(items)
  }

  /** The three cases of ending the current section: it ends at the position at hand. */
  method EndSection(p: Path, red: RedDict, list: seq<nat>, closed: seq<Section>, start: nat,
                    items: seq<Vertex>, numPoint: nat) returns (more: seq<Section>)
    requires RedundancyMap(p, red) && RepeatedList(p, list)
    requires OpenAt(p, list, closed, start, items, numPoint)
    requires list[0] < |p| && p[list[0]] in red && red[p[list[0]]].first == list[0]
    ensures JustClosed(p, more, items, list[numPoint])
    ensures start <= list[numPoint] && more == closed + [Section(start, list[numPoint])]
    ensures closed != [] ==> start < list[numPoint]
  {
    if closed == [] {
      more := [Section(0, red[p[list[numPoint]]].first)];
      assert forall k :: Repeated(p, k) ==> list[0] <= k;
    } else {
      NextPosition(p, red, list, numPoint);
      CloseSection(p, list, closed, start, items, numPoint);
      var selNums := red[p[list[numPoint]]];
      if start > selNums.second {
        assert false;
      } else if start < selNums.first {
        more := closed + [Section(start, selNums.first)];
      } else {
        more := closed + [Section(start, selNums.second)];
      }
    }
  }

  /** Once the item is recorded and its origin chosen, the selection invariant holds again. */
  lemma Reselect(p: Path, list: seq<nat>, more: seq<Section>, items: seq<Vertex>, redNum: nat,
                 originNum: nat, num: nat)
    requires JustClosed(p, more, items, redNum)
    requires originNum < |p| && p[originNum] == p[redNum] && p[redNum] !in items
    requires num + 1 < |list| && list[num] == originNum
    ensures Selection(p, list, more, originNum, items + [p[redNum]], num + 1)
  {
  }

  /** The last redundant item closes the selection: copy the sections and the tail of the path. */
  method Finish(p: Path, list: seq<nat>, closed: seq<Section>, items: seq<Vertex>, redNum: nat, numMax: nat)
    returns (r: Path)
    requires RepeatedList(p, list) && list != [] && list[|list| - 1] == numMax
    requires JustClosed(p, closed, items, redNum) && p[redNum] !in items
    requires numMax < |p| && p[redNum] == p[numMax]
    ensures Shortening(r, p) && r == Assemble(p, closed) + p[numMax..]
  {
    assert Repeated(p, list[|list| - 1]);
    assert forall k :: Repeated(p, k) ==> k <= numMax;
    FinalSection(p, closed, numMax);
    var rval := CopySections(p, closed + [Section(numMax, |p| - 1)]);
    r := rval + [p[|p| - 1]];
    LastVertex(p, closed, numMax);
    assert (closed + [Section(numMax, |p|)])[..|closed|] == closed;
  }

  /** `origin_num` and its place in the list: one of the two positions, picked by the coin. */
  method ChooseOrigin(p: Path, red: RedDict, list: seq<nat>, numPoint: nat, coin: bool)
    returns (originNum: nat, num: nat)
    requires RedundancyMap(p, red) && RepeatedList(p, list) && numPoint < |list|
    requires list[numPoint] < |p| && p[list[numPoint]] != p[list[|list| - 1]]
    ensures originNum < |p| && p[originNum] == p[list[numPoint]]
    ensures num + 1 < |list| && list[num] == originNum && p[originNum] in red
    ensures originNum == if coin then red[p[originNum]].second else red[p[originNum]].first
    ensures coin ==> numPoint <= num
  {
    assert Repeated(p, list[numPoint]);
    RepeatedPositions(p, red, list[numPoint]);
    var selNums := red[p[list[numPoint]]];
    originNum := if coin then selNums.second else selNums.first;
    RepeatedPositions(p, red, originNum);
    num := Index(list, originNum);
  }

  /** Every item used so far lies behind the open section. */
  ghost predicate Behind(red: RedDict, items: seq<Vertex>, start: nat) {
    forall j :: 0 <= j < |items| ==> items[j] in red && red[items[j]].second <= start
  }

  lemma BehindStep(red: RedDict, items: seq<Vertex>, start: nat, item: Vertex)
    requires Behind(red, items, start) && item in red && start <= red[item].second
    ensures Behind(red, items + [item], red[item].second)
  {
  }

  /** The next section is opened at one of the two positions of the item at hand. */
  method OpenSection(p: Path, red: RedDict, list: seq<nat>, closed: seq<Section>, items: seq<Vertex>, numPoint: nat,
                     coin: bool)
    returns (start: nat, next: nat)
    requires RedundancyMap(p, red) && RepeatedList(p, list) && numPoint < |list| && list[numPoint] < |p|
    requires JustClosed(p, closed, items, list[numPoint]) && p[list[numPoint]] !in items
    requires p[list[numPoint]] != p[list[|list| - 1]]
    ensures Selection(p, list, closed, start, items + [p[list[numPoint]]], next)
    ensures p[list[numPoint]] in red
    ensures start == if coin then red[p[list[numPoint]]].second else red[p[list[numPoint]]].first
    ensures coin && Behind(red, items, list[numPoint]) ==>
              numPoint < next && Behind(red, items + [p[list[numPoint]]], start)
  {
    var originNum, num := ChooseOrigin(p, red, list, numPoint, coin);
    Reselect(p, list, closed, items, list[numPoint], originNum, num);
    start, next := originNum, num + 1;
    if coin && Behind(red, items, list[numPoint]) {
      assert list[numPoint] <= start;
      BehindStep(red, items, list[numPoint], p[list[numPoint]]);
    }
  }

  // ---------- the sections are those of the jumping walk ----------

  /** What is copied so far, followed by the walk from the open section on, is the whole cut. */
  ghost predicate OnCourse(p: Path, copied: Path, start: nat, from: nat, items: seq<Vertex>, coins: nat -> bool,
                           flips: nat) {
    && start <= from <= |p|
    && Cut(p, coins) == Prefixed(copied, Jump(p, start, from, VerticesOf(items), coins, flips))
  }

  /** The same when the open section has just been closed at the repeated position `redNum`. */
  ghost predicate AtRepeat(p: Path, copied: Path, redNum: nat, items: seq<Vertex>, coins: nat -> bool, flips: nat) {
    redNum < |p| && Cut(p, coins) == Prefixed(copied, Onward(p, redNum, VerticesOf(items), coins, flips))
  }

  function From(closed: seq<Section>, start: nat): nat {
    if closed == [] then start else start + 1
  }

  ghost predicate Copied(p: Path, closed: seq<Section>, copied: Path) {
    InRange(p, closed) && copied == Assemble(p, closed)
  }

  lemma NextInList(p: Path, list: seq<nat>, closed: seq<Section>, start: nat, items: seq<Vertex>, numPoint: nat)
    requires RepeatedList(p, list) && OpenAt(p, list, closed, start, items, numPoint)
    ensures list[numPoint] < |p| && start <= From(closed, start) <= list[numPoint]
    ensures NextRepeat(p, From(closed, start)) == list[numPoint]
  {
    assert Repeated(p, list[numPoint]);
    forall k | start < k < list[numPoint] && closed != []
      ensures !Repeated(p, k)
    {
      NothingBetween(p, list, numPoint, k);
    }
    assert closed == [] ==> forall m :: 0 <= m < |list| ==> list[0] <= list[m];
    NextRepeatIs(p, From(closed, start), list[numPoint]);
  }

  /** Closing the open section. */
  lemma CourseCloses(p: Path, copied: Path, start: nat, from: nat, redNum: nat, items: seq<Vertex>,
                     coins: nat -> bool, flips: nat)
    requires OnCourse(p, copied, start, from, items, coins, flips) && NextRepeat(p, from) == redNum < |p|
    ensures AtRepeat(p, copied + p[start..redNum], redNum, items, coins, flips)
  {
    PrefixedTwice(copied, p[start..redNum], Onward(p, redNum, VerticesOf(items), coins, flips));
  }

  lemma CopiedMore(p: Path, closed: seq<Section>, copied: Path, start: nat, redNum: nat)
    requires Copied(p, closed, copied) && start <= redNum <= |p|
    ensures Copied(p, closed + [Section(start, redNum)], copied + p[start..redNum])
  {
    assert (closed + [Section(start, redNum)])[..|closed|] == closed;
  }

  /** The two positions of a repeated item are its first and its last. */
  lemma ItemPlaces(p: Path, red: RedDict, v: Vertex)
    requires RedundancyMap(p, red) && v in red
    ensures v in p && FirstAt(p, v) == red[v].first && LastAt(p, v) == red[v].second
  {
    assert p[red[v].first] == v;
    RepeatedPositions(p, red, FirstAt(p, v));
    RepeatedPositions(p, red, LastAt(p, v));
  }

  /** Only behind the last item nothing is repeated. */
  lemma LastItem(p: Path, red: RedDict, list: seq<nat>, v: Vertex)
    requires RedundancyMap(p, red) && RepeatedList(p, list) && list != [] && v in red
    ensures list[|list| - 1] < |p|
    ensures v in p && (NextRepeat(p, LastAt(p, v) + 1) == |p| <==> v == p[list[|list| - 1]])
  {
    ItemPlaces(p, red, v);
    var numMax := list[|list| - 1];
    LastInList(p, list);
    RepeatedPositions(p, red, numMax);
    RepeatedPositions(p, red, red[v].second);
    if v == p[numMax] {
      NextRepeatIs(p, numMax + 1, |p|);
    }
  }

  lemma LastInList(p: Path, list: seq<nat>)
    requires RepeatedList(p, list) && list != []
    ensures Repeated(p, list[|list| - 1]) && forall k :: Repeated(p, k) ==> k <= list[|list| - 1]
  {
    assert forall k :: Repeated(p, k) ==> k in list;
  }

  /** Opening the next section. */
  lemma CourseOpens(p: Path, copied: Path, start: nat, redNum: nat, items: seq<Vertex>, coins: nat -> bool,
                    flips: nat)
    requires AtRepeat(p, copied, redNum, items, coins, flips) && p[redNum] !in items
    requires NextRepeat(p, LastAt(p, p[redNum]) + 1) != |p|
    requires start == if coins(flips) then LastAt(p, p[redNum]) else FirstAt(p, p[redNum])
    ensures OnCourse(p, copied, start, start + 1, items + [p[redNum]], coins, flips + 1)
  {
    assert VerticesOf(items + [p[redNum]]) == VerticesOf(items) + {p[redNum]};
  }

  lemma CourseGoesOn(p: Path, red: RedDict, list: seq<nat>, copied: Path, start: nat, redNum: nat,
                     items: seq<Vertex>, coins: nat -> bool, flips: nat)
    requires RedundancyMap(p, red) && RepeatedList(p, list) && list != []
    requires AtRepeat(p, copied, redNum, items, coins, flips) && p[redNum] in red && p[redNum] !in items
    requires list[|list| - 1] < |p| && p[redNum] != p[list[|list| - 1]]
    requires start == if coins(flips) then red[p[redNum]].second else red[p[redNum]].first
    ensures OnCourse(p, copied, start, start + 1, items + [p[redNum]], coins, flips + 1)
  {
    ItemPlaces(p, red, p[redNum]);
    LastItem(p, red, list, p[redNum]);
    CourseOpens(p, copied, start, redNum, items, coins, flips);
  }

  ghost predicate ListedItem(p: Path, list: seq<nat>, v: Vertex) {
    exists m :: 0 <= m < |list| && list[m] < |p| && p[list[m]] == v
  }

  ghost predicate AllListed(p: Path, list: seq<nat>, items: seq<Vertex>) {
    forall j :: 0 <= j < |items| ==> ListedItem(p, list, items[j])
  }

  /** Different items are no more than their positions. */
  lemma {:induction false} FewItems(p: Path, list: seq<nat>, items: seq<Vertex>)
    requires NoRepeats(items) && AllListed(p, list, items)
    ensures |items| <= |list|
  {
    if items != [] {
      var n := |items| - 1;
      assert ListedItem(p, list, items[n]);
      var m :| 0 <= m < |list| && list[m] < |p| && p[list[m]] == items[n];
      var rest := list[..m] + list[m + 1..];
      forall j | 0 <= j < n
        ensures ListedItem(p, rest, items[..n][j])
      {
        assert ListedItem(p, list, items[j]);
        var l :| 0 <= l < |list| && list[l] < |p| && p[list[l]] == items[j];
        assert rest[if l < m then l else l - 1] == list[l];
      }
      FewItems(p, rest, items[..n]);
    }
  }

  lemma ListedMore(p: Path, list: seq<nat>, items: seq<Vertex>, m: nat)
    requires NoRepeats(items) && AllListed(p, list, items)
    requires m < |list| && list[m] < |p| && p[list[m]] !in items
    ensures NoRepeats(items + [p[list[m]]]) && AllListed(p, list, items + [p[list[m]]]) && |items| + 1 <= |list|
  {
    assert ListedItem(p, list, p[list[m]]);
    FewItems(p, list, items + [p[list[m]]]);
  }

  /** The cut ends with the tail behind the last repeated item. */
  lemma CourseEnds(p: Path, red: RedDict, list: seq<nat>, copied: Path, redNum: nat, items: seq<Vertex>,
                   coins: nat -> bool, flips: nat)
    requires RedundancyMap(p, red) && RepeatedList(p, list) && list != []
    requires AtRepeat(p, copied, redNum, items, coins, flips) && p[redNum] in red && p[redNum] !in items
    requires list[|list| - 1] < |p| && p[redNum] == p[list[|list| - 1]]
    ensures Cut(p, coins) == Some(copied + p[red[p[redNum]].second..])
  {
    ItemPlaces(p, red, p[redNum]);
    LastItem(p, red, list, p[redNum]);
  }

  lemma NothingRepeated(p: Path, red: RedDict, coins: nat -> bool)
    requires RedundancyMap(p, red) && red == map[]
    ensures Cut(p, coins) == Some(p) && Shortening(p, p)
  {
    forall k: int
      ensures !Repeated(p, k)
    {
      RepeatedPositions(p, red, k);
    }
    NextRepeatIs(p, 0, |p|);
    PieceSimple(p, 0, |p|);
    PieceSteps(p, 0, |p|);
    assert p[0..|p|] == p;
  }

  /** One loop around everything repeated is cut out as a whole. */
  lemma CutOneLoop(p: Path, numMin: nat, numMax: nat, coins: nat -> bool)
    requires numMin < numMax < |p| && p[numMin] == p[numMax]
    requires forall k :: Repeated(p, k) ==> numMin <= k <= numMax
    ensures Cut(p, coins) == Some(p[..numMin] + p[numMax..])
  {
    assert Repeated(p, numMin);
    NextRepeatIs(p, 0, numMin);
    var v := p[numMin];
    assert LastAt(p, v) == numMax by {
      if LastAt(p, v) != numMax {
        assert Repeated(p, LastAt(p, v));
      }
    }
    NextRepeatIs(p, numMax + 1, |p|);
    assert Onward(p, numMin, {}, coins, 0) == Some(p[numMax..]);
    assert p[0..numMin] == p[..numMin];
  }

  lemma CourseStarts(p: Path, coins: nat -> bool)
    ensures OnCourse(p, [], 0, 0, [], coins, 0)
  {
    assert VerticesOf([]) == {};
    var all := Jump(p, 0, 0, {}, coins, 0);
    if all.Some? {
      assert [] + all.value == all.value;
    }
  }

  /** The closed sections, the start of the open one, the items used, the place in the list, and the flips so far. */
  datatype Selecting = Selecting(closed: seq<Section>, start: nat, items: seq<Vertex>, numPoint: nat, flips: nat)

  /** Whoever always takes the second occurrence has every item used behind him. */
  ghost predicate Lucky(red: RedDict, coins: nat -> bool, items: seq<Vertex>, numPoint: nat, start: nat) {
    (forall k :: coins(k)) ==> |items| <= numPoint && Behind(red, items, start)
  }

  /** Where the selection stands at the head of its loop. */
  ghost predicate Underway(p: Path, red: RedDict, list: seq<nat>, coins: nat -> bool, state: Selecting) {
    && OpenAt(p, list, state.closed, state.start, state.items, state.numPoint)
    && AllListed(p, list, state.items) && NoRepeats(state.items) && state.numPoint < |list|
    && (list != [] && list[|list| - 1] < |p| ==> p[list[|list| - 1]] !in state.items)
    && Lucky(red, coins, state.items, state.numPoint, state.start)
  }

  /** Where it stands once the open section is closed at the item at hand. */
  ghost predicate AtItem(p: Path, red: RedDict, list: seq<nat>, coins: nat -> bool, state: Selecting,
                         closed: seq<Section>) {
    && state.numPoint < |list|
    && var redNum := list[state.numPoint];
    && JustClosed(p, closed, state.items, redNum) && p[redNum] in red && AllListed(p, list, state.items)
    && Lucky(red, coins, state.items, state.numPoint, redNum)
  }

  /** Closes the open section. Whoever always takes the second occurrence meets no item again. */
  method CloseNext(p: Path, red: RedDict, list: seq<nat>, state: Selecting, ghost coins: nat -> bool)
    returns (closed: seq<Section>)
    requires RedundancyMap(p, red) && RepeatedList(p, list) && Underway(p, red, list, coins, state)
    requires list[0] < |p| && p[list[0]] in red && red[p[list[0]]].first == list[0]
    ensures AtItem(p, red, list, coins, state, closed)
    ensures closed == state.closed + [Section(state.start, list[state.numPoint])]
    ensures (forall k :: coins(k)) ==> p[list[state.numPoint]] !in state.items
  {
    ghost var redNum := list[state.numPoint];
    assert Repeated(p, redNum);
    RepeatedPositions(p, red, redNum);
    closed := EndSection(p, red, list, state.closed, state.start, state.items, state.numPoint);
  }

  lemma ClosedOnCourse(p: Path, list: seq<nat>, state: Selecting, copied: Path, coins: nat -> bool) returns (more: Path)
    requires RepeatedList(p, list) && Copied(p, state.closed, copied)
    requires OpenAt(p, list, state.closed, state.start, state.items, state.numPoint)
    requires OnCourse(p, copied, state.start, From(state.closed, state.start), state.items, coins, state.flips)
    ensures AtRepeat(p, more, list[state.numPoint], state.items, coins, state.flips)
    ensures Copied(p, state.closed + [Section(state.start, list[state.numPoint])], more)
  {
    var redNum := list[state.numPoint];
    NextInList(p, list, state.closed, state.start, state.items, state.numPoint);
    CourseCloses(p, copied, state.start, From(state.closed, state.start), redNum, state.items, coins, state.flips);
    CopiedMore(p, state.closed, copied, state.start, redNum);
    more := copied + p[state.start..redNum];
  }

  /** Opens the next section where the coin says. */
  method OpenNext(p: Path, red: RedDict, list: seq<nat>, closed: seq<Section>, state: Selecting, coins: nat -> bool)
    returns (next: Selecting)
    requires RedundancyMap(p, red) && RepeatedList(p, list) && AtItem(p, red, list, coins, state, closed)
    requires p[list[state.numPoint]] !in state.items && closed != []
    requires list[|list| - 1] < |p| && p[list[state.numPoint]] != p[list[|list| - 1]]
    requires p[list[|list| - 1]] !in state.items
    ensures Underway(p, red, list, coins, next) && |state.items| < |next.items| <= |list|
    ensures next.closed == closed && next.items == state.items + [p[list[state.numPoint]]]
    ensures next.flips == state.flips + 1
    ensures next.start == if coins(state.flips) then red[p[list[state.numPoint]]].second
                          else red[p[list[state.numPoint]]].first
  {
    ListedMore(p, list, state.items, state.numPoint);
    var redItem := p[list[state.numPoint]];
    var start, numPoint := OpenSection(p, red, list, closed, state.items, state.numPoint, coins(state.flips));
    next := Selecting(closed, start, state.items + [redItem], numPoint, state.flips + 1);
  }

  lemma OpenedOnCourse(p: Path, red: RedDict, list: seq<nat>, state: Selecting, next: Selecting, copied: Path,
                       coins: nat -> bool)
    requires RedundancyMap(p, red) && RepeatedList(p, list) && state.numPoint < |list| && next.closed != []
    requires AtRepeat(p, copied, list[state.numPoint], state.items, coins, state.flips)
    requires p[list[state.numPoint]] in red && p[list[state.numPoint]] !in state.items
    requires list[|list| - 1] < |p| && p[list[state.numPoint]] != p[list[|list| - 1]]
    requires next.items == state.items + [p[list[state.numPoint]]] && next.flips == state.flips + 1
    requires next.start == if coins(state.flips) then red[p[list[state.numPoint]]].second
                           else red[p[list[state.numPoint]]].first
    ensures OnCourse(p, copied, next.start, From(next.closed, next.start), next.items, coins, next.flips)
  {
    CourseGoesOn(p, red, list, copied, next.start, list[state.numPoint], state.items, coins, state.flips);
  }

  /** Selecting sections until the last repeated item is reached, or an item comes up twice. */
  method SelectSections(p: Path, red: RedDict, list: seq<nat>, endItem: Vertex, coins: nat -> bool)
    returns (r: Option<Path>)
    requires RedundancyMap(p, red) && RepeatedList(p, list) && list != []
    requires list[0] < |p| && p[list[0]] in red && red[p[list[0]]].first == list[0]
    requires list[|list| - 1] < |p| && p[list[|list| - 1]] == endItem
    requires endItem in red && red[endItem].second == list[|list| - 1]
    ensures r == Cut(p, coins)
    ensures r.Some? ==> Shortening(r.value, p)
    ensures (forall k :: coins(k)) ==> r.Some?
  {
    var state := Selecting([], 0, [], 0, 0);
    ghost var copied: Path := [];
    CourseStarts(p, coins);
    while true
      invariant Underway(p, red, list, coins, state) && |state.items| <= |list|
      invariant Copied(p, state.closed, copied)
      invariant OnCourse(p, copied, state.start, From(state.closed, state.start), state.items, coins, state.flips)
      decreases |list| - |state.items|
    {
      var redNum := list[state.numPoint];
      var redItem := p[redNum];
      var closed := CloseNext(p, red, list, state, coins);
      copied := ClosedOnCourse(p, list, state, copied, coins);
      if redItem in state.items {
        return None;
      }
      if redItem == endItem {
        CourseEnds(p, red, list, copied, redNum, state.items, coins, state.flips);
        var rval := Finish(p, list, closed, state.items, redNum, red[redItem].second);
        return Some(rval);
      }
      ghost var before := state;
      state := OpenNext(p, red, list, closed, state, coins);
      OpenedOnCourse(p, red, list, before, state, copied, coins);
      if |state.items| > |list| {
        assert false;
      }
    }
  }

  /**
   * One attempt to cut the loops out of `p`; `coins` are the flips of `random.randint(0, 1)`, in order,
   * true meaning the second occurrence. `None` stands for the source's `False`.
   */
  method RemoveRedundancy(p: Path, coins: nat -> bool) returns (r: Option<Path>)
    requires AtMostTwice(p)
    ensures r == Cut(p, coins)
    ensures Simple(p) ==> r == Some(p)
    ensures r.Some? ==> Shortening(r.value, p)
    ensures (forall k :: coins(k)) ==> r.Some?
  {
    var red := RedundantItems(p);
    if red == map[] {
      NothingRepeated(p, red, coins);
      return Some(p);
    }
    var numMin, numMax, headItem, endItem := FindExtremes(p, red);
    AllBetween(p, red, numMin, numMax, headItem, endItem);
    if headItem == endItem {
      OneLoop(p, numMin, numMax);
      CutOneLoop(p, numMin, numMax, coins);
      return Some(p[..numMin] + p[numMax..]);
    }
    var list := RedPositions(p, red, numMin, numMax);
    ListEnds(p, red, list, numMin, numMax);
    r := SelectSections(p, red, list, endItem, coins);
  }

  /** Every repeated position lies between the extremes, which are repeated themselves. */
  lemma AllBetween(p: Path, red: RedDict, numMin: nat, numMax: nat, headItem: Vertex, endItem: Vertex)
    requires RedundancyMap(p, red) && Extremes(red, numMin, numMax, headItem, endItem)
    ensures numMin < numMax < |p| && p[numMin] == headItem && p[numMax] == endItem
    ensures Repeated(p, numMin) && Repeated(p, numMax) && forall k :: Repeated(p, k) ==> numMin <= k <= numMax
  {
    assert p[red[headItem].first] == p[red[headItem].second];
    forall k | Repeated(p, k)
      ensures numMin <= k <= numMax
    {
      RepeatedPositions(p, red, k);
    }
  }

  lemma ListEnds(p: Path, red: RedDict, list: seq<nat>, numMin: nat, numMax: nat)
    requires RepeatedList(p, list) && Repeated(p, numMin) && Repeated(p, numMax)
    requires forall k :: Repeated(p, k) ==> numMin <= k <= numMax
    ensures list != [] && list[0] == numMin && list[|list| - 1] == numMax
  {
    assert numMin in list && numMax in list;
    assert Repeated(p, list[0]) && Repeated(p, list[|list| - 1]);
  }
}
