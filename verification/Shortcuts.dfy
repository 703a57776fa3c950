/** What cutting the loops out of a path comes to: a walk that jumps from one occurrence of a vertex to another. */
module Shortcuts {
  import opened Walks

  /** Position `k` of `p` holds an item that also occurs elsewhere in `p`. */
  ghost predicate Repeated(p: Path, k: int) {
    0 <= k < |p| && exists j :: 0 <= j < |p| && j != k && p[j] == p[k]
  }

  ghost predicate NextAt(p: Path, k: nat, r: nat) {
    k <= r <= |p| && (r < |p| ==> Repeated(p, r)) && forall j :: k <= j < r ==> !Repeated(p, j)
  }

  lemma {:induction false} NextExists(p: Path, k: nat)
    requires k <= |p|
    ensures exists r :: NextAt(p, k, r)
    decreases |p| - k
  {
    if k == |p| || Repeated(p, k) {
      assert NextAt(p, k, k);
    } else {
      NextExists(p, k + 1);
      var r :| NextAt(p, k + 1, r);
      assert NextAt(p, k, r);
    }
  }

  /** The first repeated position from `k` on, or the end of the path. */
  ghost function NextRepeat(p: Path, k: nat): (r: nat)
    requires k <= |p|
    ensures NextAt(p, k, r)
  {
    NextExists(p, k);
    var r :| NextAt(p, k, r);
    r
  }

  ghost predicate IsFirst(p: Path, v: Vertex, i: nat) {
    i < |p| && p[i] == v && forall j :: 0 <= j < i ==> p[j] != v
  }

  ghost predicate IsLast(p: Path, v: Vertex, i: nat) {
    i < |p| && p[i] == v && forall j :: i < j < |p| ==> p[j] != v
  }

  lemma {:induction false} FirstExists(p: Path, v: Vertex, k: nat)
    requires k < |p| && p[k] == v
    ensures exists i :: IsFirst(p, v, i)
  {
    if j :| 0 <= j < k && p[j] == v {
      FirstExists(p, v, j);
    } else {
      assert IsFirst(p, v, k);
    }
  }

  lemma {:induction false} LastExists(p: Path, v: Vertex, k: nat)
    requires k < |p| && p[k] == v
    ensures exists i :: IsLast(p, v, i)
    decreases |p| - k
  {
    if j :| k < j < |p| && p[j] == v {
      LastExists(p, v, j);
    } else {
      assert IsLast(p, v, k);
    }
  }

  ghost function FirstAt(p: Path, v: Vertex): (i: nat)
    requires v in p
    ensures IsFirst(p, v, i)
  {
    var k :| 0 <= k < |p| && p[k] == v;
    FirstExists(p, v, k);
    var i :| IsFirst(p, v, i);
    i
  }

  ghost function LastAt(p: Path, v: Vertex): (i: nat)
    requires v in p
    ensures IsLast(p, v, i)
  {
    var k :| 0 <= k < |p| && p[k] == v;
    LastExists(p, v, k);
    var i :| IsLast(p, v, i);
    i
  }

  ghost function VerticesOf(p: Path): set<Vertex> {
    set v | v in p
  }

  function Prefixed(a: Path, rest: Option<Path>): Option<Path> {
    match rest
    case None => None
    case Some(b) => Some(a + b)
  }

  /** Walks on from `start` to the next repeated position. */
  ghost function Jump(p: Path, start: nat, from: nat, used: set<Vertex>, coins: nat -> bool, flips: nat): Option<Path>
    requires start <= from <= |p|
    decreases VerticesOf(p) - used, 1
  {
    var r := NextRepeat(p, from);
    if r == |p| then Some(p[start..]) else Prefixed(p[start..r], Onward(p, r, used, coins, flips))
  }

  /**
   * At a repeated position: gives up when its vertex was used before; goes on from the vertex's last occurrence to the
   * end if nothing behind it is repeated; and otherwise takes off from the first or the last occurrence, as the coin
   * says.
   */
  ghost function Onward(p: Path, r: nat, used: set<Vertex>, coins: nat -> bool, flips: nat): Option<Path>
    requires r < |p|
    decreases VerticesOf(p) - used, 0
  {
    var v := p[r];
    if v in used then None
    else if NextRepeat(p, LastAt(p, v) + 1) == |p| then Some(p[LastAt(p, v)..])
    else
      var start := if coins(flips) then LastAt(p, v) else FirstAt(p, v);
      Jump(p, start, start + 1, used + {v}, coins, flips + 1)
  }

  /** One attempt to cut the loops out of `p`. */
  ghost function Cut(p: Path, coins: nat -> bool): Option<Path> {
    Jump(p, 0, 0, {}, coins, 0)
  }

  lemma NextRepeatIs(p: Path, k: nat, r: nat)
    requires k <= |p| && NextAt(p, k, r)
    ensures NextRepeat(p, k) == r
  {
    var q := NextRepeat(p, k);
    assert q < r ==> !Repeated(p, q);
    assert r < q ==> !Repeated(p, r);
  }

  lemma NothingToCut(p: Path, coins: nat -> bool)
    requires Simple(p)
    ensures Cut(p, coins) == Some(p)
  {
    forall k
      ensures !Repeated(p, k)
    {
    }
    NextRepeatIs(p, 0, |p|);
    assert p[0..] == p;
  }

  lemma PrefixedTwice(a: Path, b: Path, rest: Option<Path>)
    ensures Prefixed(a, Prefixed(b, rest)) == Prefixed(a + b, rest)
  {
    if rest.Some? {
      assert a + (b + rest.value) == a + b + rest.value;
    }
  }
}
