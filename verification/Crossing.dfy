/** `GAPopulation._list_cross`: exchanging the section between two shared vertices of two paths. */
module Crossing {
  import opened Walks
  import Redundancy

  // ---------- splicing ----------

  lemma SubWalk(adj: Adjacency, p: Path, i: nat, j: nat)
    requires Closed(adj) && Walk(adj, p) && i < j <= |p|
    ensures Walk(adj, p[i..j])
  {
    if i > 0 {
      assert Edge(adj, p[i - 1], p[i]);
    }
    forall k | 0 <= k < j - i - 1
      ensures Edge(adj, p[i..j][k], p[i..j][k + 1])
    {
      assert Edge(adj, p[i + k], p[i + k + 1]);
    }
  }

  /** Two walks that meet in a vertex join into one. */
  lemma JoinWalks(adj: Adjacency, a: Path, b: Path)
    requires Walk(adj, a) && Walk(adj, b) && a[|a| - 1] == b[0]
    ensures Walk(adj, a[..|a| - 1] + b)
  {
    var c, n := a[..|a| - 1] + b, |a| - 1;
    forall i | 0 <= i < |c| - 1
      ensures Edge(adj, c[i], c[i + 1])
    {
      if i < n {
        assert Edge(adj, a[i], a[i + 1]);
      } else {
        assert Edge(adj, b[i - n], b[i - n + 1]);
      }
    }
  }

  /** Wrapping a loop-free piece between the two halves of a loop-free piece repeats nothing thrice. */
  lemma WrappedTwice(a: Path, b: Path, c: Path)
    requires Simple(a + c) && Simple(b)
    ensures AtMostTwice(a + b + c)
  {
    var p, q := a + b + c, a + c;
    forall i, j, k | 0 <= i < j < k < |p|
      ensures !(p[i] == p[j] && p[j] == p[k])
    {
      var inner := (x: int) => |a| <= x < |a| + |b|;
      var outer := (x: int) => if x < |a| then x else x - |b|;
      assert !inner(i) ==> p[i] == q[outer(i)];
      assert !inner(j) ==> p[j] == q[outer(j)];
      assert !inner(k) ==> p[k] == q[outer(k)];
      assert inner(i) ==> p[i] == b[i - |a|];
      assert inner(j) ==> p[j] == b[j - |a|];
      assert inner(k) ==> p[k] == b[k - |a|];
    }
  }

  /** `list1` with its section `[h1, e1)` replaced by the section `[h2, e2)` of `list2`. */
  function Exchange(list1: Path, h1: nat, e1: nat, list2: Path, h2: nat, e2: nat): Path
    requires h1 <= e1 <= |list1| && h2 <= e2 <= |list2|
  {
    list1[..h1] + list2[h2..e2] + list1[e1..]
  }

  lemma ExchangeIsWalk(adj: Adjacency, list1: Path, h1: nat, e1: nat, list2: Path, h2: nat, e2: nat)
    requires Closed(adj) && Walk(adj, list1) && Walk(adj, list2)
    requires h1 <= e1 < |list1| && h2 <= e2 < |list2|
    requires list1[h1] == list2[h2] && list1[e1] == list2[e2]
    ensures Walk(adj, Exchange(list1, h1, e1, list2, h2, e2))
  {
    var a, b, c := list1[0..h1 + 1], list2[h2..e2 + 1], list1[e1..|list1|];
    SubWalk(adj, list1, 0, h1 + 1);
    SubWalk(adj, list2, h2, e2 + 1);
    SubWalk(adj, list1, e1, |list1|);
    JoinWalks(adj, a, b);
    var ab := a[..h1] + b;
    JoinWalks(adj, ab, c);
    assert a[..h1] == list1[..h1] && c == list1[e1..];
    assert ab[..|ab| - 1] == list1[..h1] + list2[h2..e2];
  }

  lemma ExchangeEnds(list1: Path, h1: nat, e1: nat, list2: Path, h2: nat, e2: nat, s: Vertex, t: Vertex)
    requires Joins(list1, s, t) && h1 <= e1 < |list1| && h2 <= e2 < |list2|
    requires list1[h1] == list2[h2] && list1[e1] == list2[e2]
    ensures Joins(Exchange(list1, h1, e1, list2, h2, e2), s, t)
  {
  }

  lemma ExchangeIsSplice(adj: Adjacency, s: Vertex, t: Vertex, list1: Path, h1: nat, e1: nat,
                         list2: Path, h2: nat, e2: nat)
    requires Closed(adj) && Route(adj, list1, s, t) && Route(adj, list2, s, t)
    requires h1 <= e1 < |list1| && h2 <= e2 < |list2|
    requires list1[h1] == list2[h2] && list1[e1] == list2[e2]
    ensures Splice(adj, Exchange(list1, h1, e1, list2, h2, e2), s, t)
  {
    ExchangeIsWalk(adj, list1, h1, e1, list2, h2, e2);
    ExchangeEnds(list1, h1, e1, list2, h2, e2, s, t);
    assert Simple(list1[..h1] + list1[e1..]);
    WrappedTwice(list1[..h1], list2[h2..e2], list1[e1..]);
  }

  /** `c1` and `c2` are the two paths after exchanging one pair of sections between shared vertices. */
  ghost predicate Crossed(list1: Path, list2: Path, c1: Path, c2: Path) {
    exists h1: nat, e1: nat, h2: nat, e2: nat :: ExchangedAt(list1, list2, c1, c2, h1, e1, h2, e2)
  }

  ghost predicate ExchangedAt(list1: Path, list2: Path, c1: Path, c2: Path, h1: nat, e1: nat, h2: nat, e2: nat) {
    && h1 <= e1 < |list1| && h2 <= e2 < |list2|
    && list1[h1] == list2[h2] && list1[e1] == list2[e2]
    && c1 == Exchange(list1, h1, e1, list2, h2, e2) && c2 == Exchange(list2, h2, e2, list1, h1, e1)
  }

  /** Both results of an exchange are splices, and together they keep the vertices of the two paths. */
  lemma CrossedKeeps(adj: Adjacency, s: Vertex, t: Vertex, list1: Path, list2: Path, c1: Path, c2: Path)
    requires Closed(adj) && Route(adj, list1, s, t) && Route(adj, list2, s, t)
    requires Crossed(list1, list2, c1, c2)
    ensures Splice(adj, c1, s, t) && Splice(adj, c2, s, t)
    ensures multiset(c1) + multiset(c2) == multiset(list1) + multiset(list2)
  {
    var h1: nat, e1: nat, h2: nat, e2: nat :| ExchangedAt(list1, list2, c1, c2, h1, e1, h2, e2);
    ExchangeIsSplice(adj, s, t, list1, h1, e1, list2, h2, e2);
    ExchangeIsSplice(adj, s, t, list2, h2, e2, list1, h1, e1);
    ExchangeConserves(list1, h1, e1, list2, h2, e2);
  }

  lemma NotCrossed(list1: Path, list2: Path, s: Vertex, t: Vertex)
    requires Joins(list1, s, t) && Joins(list2, s, t)
    ensures Crossed(list1, list2, list1, list2)
  {
    assert ExchangedAt(list1, list2, list1, list2, 0, 0, 0, 0);
  }

  lemma ExchangeConserves(list1: Path, h1: nat, e1: nat, list2: Path, h2: nat, e2: nat)
    requires h1 <= e1 <= |list1| && h2 <= e2 <= |list2|
    ensures multiset(Exchange(list1, h1, e1, list2, h2, e2)) + multiset(Exchange(list2, h2, e2, list1, h1, e1))
         == multiset(list1) + multiset(list2)
  {
    assert list1 == list1[..h1] + list1[h1..e1] + list1[e1..];
    assert list2 == list2[..h2] + list2[h2..e2] + list2[e2..];
  }

  // ---------- shared vertices ----------

  /** `pos` are the places in `list1`, in order, of the items it shares with `list2`. */
  ghost predicate SharedPlaces(list1: Path, list2: Path, pos: seq<nat>, n: nat) {
    && (forall k :: 0 <= k < |pos| ==> pos[k] < n <= |list1| && list1[pos[k]] in list2)
    && (forall j, k :: 0 <= j < k < |pos| ==> pos[j] < pos[k])
    && (forall i :: 0 <= i < n <= |list1| && list1[i] in list2 ==> i in pos)
  }

  /** `pre_cmp_list`, with the place of each shared item in `list1`. */
  method SharedItems(list1: Path, list2: Path) returns (shared: Path, ghost pos: seq<nat>)
    ensures SharedPlaces(list1, list2, pos, |list1|)
    ensures SharedAt(list1, shared, pos)
  {
    shared, pos := [], [];
    for n := 0 to |list1|
      invariant SharedPlaces(list1, list2, pos, n)
      invariant |shared| == |pos| && forall k :: 0 <= k < |pos| ==> shared[k] == list1[pos[k]]
    {
      if list1[n] in list2 {
        shared, pos := shared + [list1[n]], pos + [n];
      }
    }
  }

  /** The shared items start with the source and end with the destination. */
  lemma SharedEnds(list1: Path, list2: Path, pos: seq<nat>, s: Vertex, t: Vertex)
    requires Joins(list1, s, t) && Joins(list2, s, t) && SharedPlaces(list1, list2, pos, |list1|)
    ensures pos != [] && pos[0] == 0 && pos[|pos| - 1] == |list1| - 1
    ensures s != t ==> |pos| >= 2
  {
    assert 0 in pos && |list1| - 1 in pos;
  }

  /** Different loop-free paths between the same ends have different ends. */
  lemma DifferentPaths(list1: Path, list2: Path, s: Vertex, t: Vertex)
    requires Simple(list1) && Simple(list2) && Joins(list1, s, t) && Joins(list2, s, t)
    requires list1 != list2
    ensures s != t && |list1| >= 2 && |list2| >= 2
  {
    assert s == t ==> list1 == [s] && list2 == [s];
  }

  // ---------- the crossing ----------

  /** The return code of `_list_cross`. */
  datatype Code = Crossing | NotCrossing | Nothing

  /** What chance decides: the front or the back for one shared vertex, the two vertices for more of them. */
  datatype Draw = Draw(front: bool, head: nat, end: nat)

  function Backwards(p: Path): (r: Path)
    ensures |r| == |p| && forall k :: 0 <= k < |p| ==> r[k] == p[|p| - 1 - k]
  {
    if p == [] then [] else Backwards(p[1..]) + [p[0]]
  }

  /** `None` when the two lists are as they were. */
  function CodeOf(list1: Path, list2: Path, now1: Path, now2: Path): Code {
    if now1 == list1 && now2 == list2 then Nothing else Crossing
  }

  /** The places among the shared vertices that are drawn: any but the last, then any later one. */
  function HeadOf(n: nat, draw: Draw): (j: nat)
    requires n >= 2
    ensures j < n - 1 && (draw.head < n - 1 ==> j == draw.head)
  {
    Pick(draw.head, n - 1)
  }

  function EndOf(n: nat, draw: Draw): (k: nat)
    requires n >= 2
    ensures HeadOf(n, draw) < k < n
    ensures draw.end < n - 1 - HeadOf(n, draw) ==> k == HeadOf(n, draw) + 1 + draw.end
  {
    HeadOf(n, draw) + 1 + Pick(draw.end, n - 1 - HeadOf(n, draw))
  }

  /** Two of the shared vertices are drawn; if `list2` has them in the same order, the sections between them are
      exchanged, and otherwise nothing happens to the lists. */
  ghost predicate SectionCrossed(list1: Path, list2: Path, pos: seq<nat>, draw: Draw, c1: Path, c2: Path, code: Code)
    requires |pos| >= 2
  {
    exists h2: nat, e2: nat ::
      SectionCrossedAt(list1, list2, pos[HeadOf(|pos|, draw)], pos[EndOf(|pos|, draw)], c1, c2, code, h2, e2)
  }

  ghost predicate SectionCrossedAt(list1: Path, list2: Path, h1: nat, e1: nat, c1: Path, c2: Path, code: Code, h2: nat,
                                   e2: nat) {
    && h1 <= e1 < |list1| && h2 < |list2| && e2 < |list2|
    && list2[h2] == list1[h1] && list2[e2] == list1[e1]
    && if h2 > e2 then c1 == list1 && c2 == list2 && code == Crossing
       else && ExchangedAt(list1, list2, c1, c2, h1, e1, h2, e2)
            && code == if c1 == list1 && c2 == list2 then Nothing else Crossing
  }

  /** What crossing does and returns, by the number of shared vertices. */
  ghost predicate ListCrossed(list1: Path, list2: Path, pos: seq<nat>, draw: Draw, c1: Path, c2: Path, code: Code) {
    if list1 == list2 then c1 == list1 && c2 == list2 && code == Nothing
    else if |pos| <= 2 then c1 == list1 && c2 == list2 && code == NotCrossing
    else if |pos| == 3 then
      code == Crossing && if draw.front then c1 == list2 && c2 == list1 else c1 == list1 && c2 == list2
    else SectionCrossed(list1, list2, pos, draw, c1, c2, code)
  }

  /** Whatever crossing does, the two paths keep their vertices together. */
  lemma ListCrossedKeeps(list1: Path, list2: Path, pos: seq<nat>, draw: Draw, c1: Path, c2: Path, code: Code)
    requires ListCrossed(list1, list2, pos, draw, c1, c2, code)
    ensures multiset(c1) + multiset(c2) == multiset(list1) + multiset(list2)
  {
    if list1 != list2 && |pos| > 3 {
      var h1, e1 := pos[HeadOf(|pos|, draw)], pos[EndOf(|pos|, draw)];
      var h2: nat, e2: nat :| SectionCrossedAt(list1, list2, h1, e1, c1, c2, code, h2, e2);
      if h2 <= e2 {
        ExchangeConserves(list1, h1, e1, list2, h2, e2);
      }
    }
  }

  /**
   * Crosses two paths with the given draw. With only one shared vertex between the ends the paths at most change
   * places, because the vertex the source crosses at is the destination. When the drawn vertices appear in opposite
   * order the source only rebinds its local names, so both lists stay as they were.
   */
  method ListCross(list1: Path, list2: Path, draw: Draw, ghost s: Vertex, ghost t: Vertex)
    returns (c1: Path, c2: Path, code: Code, ghost pos: seq<nat>)
    requires Simple(list1) && Simple(list2) && Joins(list1, s, t) && Joins(list2, s, t)
    ensures Crossed(list1, list2, c1, c2)
    ensures SharedPlaces(list1, list2, pos, |list1|) && ListCrossed(list1, list2, pos, draw, c1, c2, code)
  {
    var shared;
    shared, pos := SharedItems(list1, list2);
    c1, c2, code := CrossShared(list1, list2, draw, s, t, shared, pos);
  }

  method CrossShared(list1: Path, list2: Path, draw: Draw, ghost s: Vertex, ghost t: Vertex, shared: Path,
                     ghost pos: seq<nat>)
    returns (c1: Path, c2: Path, code: Code)
    requires Simple(list1) && Simple(list2) && Joins(list1, s, t) && Joins(list2, s, t)
    requires SharedPlaces(list1, list2, pos, |list1|) && SharedAt(list1, shared, pos)
    ensures Crossed(list1, list2, c1, c2) && ListCrossed(list1, list2, pos, draw, c1, c2, code)
  {
    if list1 == list2 {
      NotCrossed(list1, list2, s, t);
      return list1, list2, Nothing;
    }
    LastShared(list1, list2, shared, pos, s, t);
    if |shared| == 2 {
      NotCrossed(list1, list2, s, t);
      c1, c2, code := list1, list2, NotCrossing;
    } else if |shared| == 3 {
      c1, c2, code := CrossAtOne(list1, list2, shared[|shared| - 1], draw.front, s, t);
    } else {
      c1, c2, code := CrossSection(list1, list2, draw, s, t, shared, pos);
    }
  }

  /** Different paths share at least their ends, and the last shared vertex is the destination. */
  lemma LastShared(list1: Path, list2: Path, shared: Path, pos: seq<nat>, s: Vertex, t: Vertex)
    requires Simple(list1) && Simple(list2) && Joins(list1, s, t) && Joins(list2, s, t) && list1 != list2
    requires SharedPlaces(list1, list2, pos, |list1|) && SharedAt(list1, shared, pos)
    ensures |shared| == |pos| >= 2 && shared[|shared| - 1] == t
    ensures |pos| >= 3 ==> |list1| >= 3
  {
    DifferentPaths(list1, list2, s, t);
    SharedEnds(list1, list2, pos, s, t);
    if |pos| >= 3 {
      assert pos[0] < pos[1] < pos[2] < |list1|;
    }
  }

  method CrossSection(list1: Path, list2: Path, draw: Draw, ghost s: Vertex, ghost t: Vertex, shared: Path,
                      ghost pos: seq<nat>)
    returns (c1: Path, c2: Path, code: Code)
    requires Simple(list1) && Joins(list1, s, t) && Joins(list2, s, t) && |shared| >= 2
    requires SharedPlaces(list1, list2, pos, |list1|) && SharedAt(list1, shared, pos)
    ensures Crossed(list1, list2, c1, c2) && SectionCrossed(list1, list2, pos, draw, c1, c2, code)
  {
    var itemHead, itemEnd := PickSection(list1, list2, shared, pos, draw);
    ghost var h1, e1 := pos[HeadOf(|pos|, draw)], pos[EndOf(|pos|, draw)];
    c1, c2, code := CrossBetween(list1, list2, itemHead, itemEnd, s, t, h1, e1);
  }

  ghost predicate SharedAt(list1: Path, shared: Path, pos: seq<nat>) {
    |shared| == |pos| && forall k :: 0 <= k < |pos| ==> pos[k] < |list1| && shared[k] == list1[pos[k]]
  }

  /** The two shared items that are drawn. */
  method PickSection(list1: Path, list2: Path, shared: Path, ghost pos: seq<nat>, draw: Draw)
    returns (itemHead: Vertex, itemEnd: Vertex)
    requires SharedPlaces(list1, list2, pos, |list1|) && |pos| >= 2
    requires SharedAt(list1, shared, pos)
    ensures itemHead in list2 && itemEnd in list2
    ensures list1[pos[HeadOf(|pos|, draw)]] == itemHead && list1[pos[EndOf(|pos|, draw)]] == itemEnd
    ensures pos[HeadOf(|pos|, draw)] < pos[EndOf(|pos|, draw)] < |list1|
  {
    var rndHead := Pick(draw.head, |shared| - 1);
    itemHead := shared[rndHead];
    var rest := shared[rndHead + 1..];
    var rndEnd := Pick(draw.end, |rest|);
    itemEnd := rest[rndEnd];
  }

  /** Exchanging everything behind a shared vertex is an exchange up to the common end. */
  lemma TailExchange(list1: Path, n1: nat, list2: Path, n2: nat)
    requires n1 < |list1| && n2 < |list2| && list1[n1] == list2[n2]
    requires list1[|list1| - 1] == list2[|list2| - 1]
    ensures list1[..n1 + 1] + list2[n2 + 1..] == Exchange(list1, n1, |list1| - 1, list2, n2, |list2| - 1)
  {
    assert list1[..n1 + 1] == list1[..n1] + [list2[n2]];
    assert [list2[n2]] + list2[n2 + 1..] == list2[n2..];
    assert list2[n2..] == list2[n2..|list2| - 1] + list1[|list1| - 1..];
  }

  lemma HeadExchange(list1: Path, n1: nat, list2: Path, n2: nat)
    requires n1 < |list1| && n2 < |list2|
    ensures list2[..n2] + list1[n1..] == Exchange(list1, 0, n1, list2, 0, n2)
  {
    assert list1[..0] + list2[0..n2] == list2[..n2];
  }

  lemma LastPlace(list: Path, n: nat, t: Vertex)
    requires Simple(list) && list != [] && list[|list| - 1] == t && n < |list| && list[n] == t
    ensures n == |list| - 1
  {
  }

  /** The case of three shared items; the item popped is the last one, the destination. */
  method CrossAtOne(list1: Path, list2: Path, item: Vertex, front: bool, ghost s: Vertex, ghost t: Vertex)
    returns (c1: Path, c2: Path, code: Code)
    requires Simple(list1) && Simple(list2) && Joins(list1, s, t) && Joins(list2, s, t) && item == t && |list1| >= 3
    ensures Crossed(list1, list2, c1, c2) && code == Crossing
    ensures if front then c1 == list2 && c2 == list1 else c1 == list1 && c2 == list2
  {
    var l1Num := Redundancy.Index(list1, item);
    var l2Num := Redundancy.Index(list2, item);
    LastPlace(list1, l1Num, t);
    LastPlace(list2, l2Num, t);
    if NoNeed(list1, l1Num, list2, l2Num) {
      assert false;
    }
    code := Crossing;
    if front {
      c1, c2 := list2[..l2Num] + list1[l1Num..], list1[..l1Num] + list2[l2Num..];
      assert c1 == list2 && c2 == list1;
      HeadExchange(list1, l1Num, list2, l2Num);
      HeadExchange(list2, l2Num, list1, l1Num);
      assert ExchangedAt(list1, list2, c1, c2, 0, l1Num, 0, l2Num);
    } else {
      c1, c2 := list1[..l1Num + 1] + list2[l2Num + 1..], list2[..l2Num + 1] + list1[l1Num + 1..];
      assert c1 == list1 && c2 == list2;
      TailExchange(list1, l1Num, list2, l2Num);
      TailExchange(list2, l2Num, list1, l1Num);
      assert ExchangedAt(list1, list2, c1, c2, l1Num, |list1| - 1, l2Num, |list2| - 1);
    }
  }

  /** The test for a shared vertex next to one of the ends. */
  predicate NoNeed(list1: Path, n1: nat, list2: Path, n2: nat) {
    (n1 == 1 && n2 == 1) || (n1 == |list1| - 2 && n2 == |list2| - 2)
  }

  /** What becomes of the local names when the drawn vertices appear in opposite order; the code never says that
      nothing has changed, since the lengths cannot both stay. */
  method Rebind(list1: Path, h1: nat, e1: nat, list2: Path, h2: nat, e2: nat) returns (code: Code)
    requires 0 < h1 < e1 < |list1| && e2 < h2 < |list2|
    ensures code == Crossing
  {
    var l1Exchange := list1[h1 - 1..e1];
    var l2Exchange := Backwards(list2[e2 + 1..h2]);
    var now1 := list1[..h1 + 1] + l2Exchange + list1[e1..];
    var now2 := list2[..e2 + 1] + l1Exchange + list2[h2..];
    assert |now1| == |list1| ==> |now2| != |list2|;
    code := CodeOf(list1, list2, now1, now2);
  }

  /** The general case: exchange the sections between two shared items. */
  method CrossBetween(list1: Path, list2: Path, itemHead: Vertex, itemEnd: Vertex,
                      ghost s: Vertex, ghost t: Vertex, ghost h1: nat, ghost e1: nat)
    returns (c1: Path, c2: Path, code: Code)
    requires Simple(list1) && Joins(list1, s, t) && Joins(list2, s, t)
    requires itemHead in list2 && itemEnd in list2
    requires h1 < e1 < |list1| && list1[h1] == itemHead && list1[e1] == itemEnd
    ensures Crossed(list1, list2, c1, c2)
    ensures exists h2: nat, e2: nat :: SectionCrossedAt(list1, list2, h1, e1, c1, c2, code, h2, e2)
  {
    var l1HeadNum := Redundancy.Index(list1, itemHead);
    var l1EndNum := Redundancy.Index(list1, itemEnd);
    assert l1HeadNum == h1 && l1EndNum == e1;
    var l2HeadNum := Redundancy.Index(list2, itemHead);
    var l2EndNum := Redundancy.Index(list2, itemEnd);
    if l2HeadNum > l2EndNum {
      NotCrossed(list1, list2, s, t);
      c1, c2 := list1, list2;
      code := Rebind(list1, l1HeadNum, l1EndNum, list2, l2HeadNum, l2EndNum);
    } else {
      c1 := list1[..l1HeadNum] + list2[l2HeadNum..l2EndNum] + list1[l1EndNum..];
      c2 := list2[..l2HeadNum] + list1[l1HeadNum..l1EndNum] + list2[l2EndNum..];
      assert ExchangedAt(list1, list2, c1, c2, l1HeadNum, l1EndNum, l2HeadNum, l2EndNum);
      code := CodeOf(list1, list2, c1, c2);
    }
    assert SectionCrossedAt(list1, list2, h1, e1, c1, c2, code, l2HeadNum, l2EndNum);
  }
}
