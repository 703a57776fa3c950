/** Vertices, adjacency lists, walks and a few notions about sequences and sets, shared by the other modules. */
module Walks {

  datatype Option<+T> = None | Some(value: T)

  ghost predicate NoRepeats<T>(s: seq<T>) {
    forall i, j :: 0 <= i < j < |s| ==> s[i] != s[j]
  }

  /** A number drawn from `n` is taken modulo `n`. */
  function Pick(drawn: nat, n: nat): (k: nat)
    requires n > 0
    ensures k < n
    ensures drawn < n ==> k == drawn
  {
    if drawn < n then drawn else Pick(drawn - n, n)
  }

  /** `len` numbers drawn from `n`. */
  function Row(draws: nat -> nat, len: nat, n: nat): (row: seq<nat>)
    requires n > 0
    ensures |row| == len && forall j :: 0 <= j < len ==> row[j] == Pick(draws(j), n)
  {
    if len == 0 then [] else Row(draws, len - 1, n) + [Pick(draws(len - 1), n)]
  }

  /** The numbers below `n`. */
  ghost function Below(n: nat): (r: set<nat>)
    ensures |r| == n && forall x: nat :: x in r <==> x < n
  {
    if n == 0 then {} else Below(n - 1) + {n - 1}
  }

  lemma {:induction false} SubsetSize<T>(a: set<T>, b: set<T>)
    requires a <= b
    ensures |a| <= |b|
  {
    if a != {} {
      var x :| x in a;
      SubsetSize(a - {x}, b - {x});
    }
  }

  /** One end of a cable, or a port with a host: a switch and a port number of it. */
  datatype Plug = Plug(sw: nat, port: nat)

  type Vertex = nat
  type Path = seq<Vertex>

  /** `adj[u]` lists the neighbours of vertex `u`, as `vertexs[u][1]` does in the source. */
  type Adjacency = seq<seq<Vertex>>

  /** Every listed neighbour is itself a vertex. */
  ghost predicate Closed(adj: Adjacency) {
    forall u, i :: 0 <= u < |adj| && 0 <= i < |adj[u]| ==> adj[u][i] < |adj|
  }

  predicate Edge(adj: Adjacency, u: Vertex, v: Vertex) {
    u < |adj| && v in adj[u]
  }

  ghost predicate Walk(adj: Adjacency, p: Path) {
    && p != []
    && p[0] < |adj|
    && forall i :: 0 <= i < |p| - 1 ==> Edge(adj, p[i], p[i + 1])
  }

  /** No vertex occurs twice. */
  ghost predicate Simple(p: Path) {
    NoRepeats(p)
  }

  /** No vertex occurs three times. */
  ghost predicate AtMostTwice(p: Path) {
    forall i, j, k :: 0 <= i < j < k < |p| ==> !(p[i] == p[j] && p[j] == p[k])
  }

  ghost predicate Joins(p: Path, s: Vertex, t: Vertex) {
    p != [] && p[0] == s && p[|p| - 1] == t
  }

  /** A loop-free walk from `s` to `t`: what a member of the population has to be. */
  ghost predicate Route(adj: Adjacency, p: Path, s: Vertex, t: Vertex) {
    Walk(adj, p) && Simple(p) && Joins(p, s, t)
  }

  /** A walk from `s` to `t` that may revisit a vertex once: what crossing and mutating produce. */
  ghost predicate Splice(adj: Adjacency, p: Path, s: Vertex, t: Vertex) {
    Walk(adj, p) && AtMostTwice(p) && Joins(p, s, t)
  }

  lemma RouteIsSplice(adj: Adjacency, p: Path, s: Vertex, t: Vertex)
    requires Route(adj, p, s, t)
    ensures Splice(adj, p, s, t)
  {
  }

  /** A prefix of one loop-free path followed by another loop-free path repeats nothing thrice. */
  lemma TwoSimplePieces(a: Path, b: Path)
    requires Simple(a) && Simple(b)
    ensures AtMostTwice(a + b)
  {
    var p := a + b;
    forall i, j, k | 0 <= i < j < k < |p|
      ensures !(p[i] == p[j] && p[j] == p[k])
    {
      if j < |a| {
        assert p[i] == a[i] && p[j] == a[j];
      } else {
        assert p[j] == b[j - |a|] && p[k] == b[k - |a|];
      }
    }
  }
}
