/** `MulticastTaskEntry._format_link_list`: from branches to one record per switch. */
module MulticastFormat {
  import opened Walks
  import opened FlowTables

  /** The record of one switch: the switch before it, the switches after it, and three flags. */
  datatype Info = Info(former: Option<Dpid>, next: seq<Dpid>, root: bool, shared: bool, end: bool)

  /** Branches of a tree: at least one hop each, all from the root, and wherever two of them meet, they have
      come the same way. */
  ghost predicate Branches(paths: seq<seq<Dpid>>, root: Dpid) {
    && paths != []
    && (forall a :: 0 <= a < |paths| ==> |paths[a]| >= 2 && paths[a][0] == root)
    && (forall a, b, i, j :: Place(paths, a, i) && Place(paths, b, j) && paths[a][i] == paths[b][j] ==>
          Same(paths, a, b, i, j))
  }

  ghost predicate Place(paths: seq<seq<Dpid>>, a: int, i: int) {
    0 <= a < |paths| && 0 <= i < |paths[a]|
  }

  /** Two branches agree up to a place, which is at the same depth in both. */
  ghost predicate Same(paths: seq<seq<Dpid>>, a: int, b: int, i: int, j: int)
    requires Place(paths, a, i) && Place(paths, b, j)
  {
    i == j && paths[a][..i] == paths[b][..j]
  }

  /** The places the two loops have come by at depth `d` before branch `n`. */
  ghost predicate Seen(paths: seq<seq<Dpid>>, d: int, n: int, a: int, i: int) {
    Place(paths, a, i) && (i < d || (i == d && a < n))
  }

  ghost predicate SeenAs(paths: seq<seq<Dpid>>, d: int, n: int, a: int, i: int, v: Dpid) {
    Seen(paths, d, n, a, i) && paths[a][i] == v
  }

  /** `v` is followed by `u` at a seen place. */
  ghost predicate Follows(paths: seq<seq<Dpid>>, d: int, n: int, v: Dpid, u: Dpid) {
    exists a, i :: SeenAs(paths, d, n, a, i, v) && i + 1 < |paths[a]| && paths[a][i + 1] == u
  }

  ghost predicate Ends(paths: seq<seq<Dpid>>, d: int, n: int, v: Dpid) {
    exists a, i :: SeenAs(paths, d, n, a, i, v) && i + 1 == |paths[a]|
  }

  ghost predicate Known(paths: seq<seq<Dpid>>, d: int, n: int, v: Dpid) {
    exists a, i :: SeenAs(paths, d, n, a, i, v)
  }

  /** `v` lies on two different branches. */
  ghost predicate Twice(paths: seq<seq<Dpid>>, d: int, n: int, v: Dpid) {
    exists a, b, i :: a != b && SeenAs(paths, d, n, a, i, v) && SeenAs(paths, d, n, b, i, v)
  }

  /** The switch before a place. */
  ghost function FormerAt(paths: seq<seq<Dpid>>, a: int, i: int): Option<Dpid>
    requires Place(paths, a, i)
  {
    if i == 0 then None else Some(paths[a][i - 1])
  }

  /** What the record of `v` says, of the places seen so far. */
  ghost predicate Describes(paths: seq<seq<Dpid>>, root: Dpid, d: int, n: int, v: Dpid, info: Info) {
    && (info.root <==> v == root)
    && (forall a, i :: SeenAs(paths, d, n, a, i, v) ==> info.former == FormerAt(paths, a, i))
    && (forall u :: u in info.next <==> Follows(paths, d, n, v, u))
    && NoRepeats(info.next)
    && (info.end <==> Ends(paths, d, n, v))
    && (info.shared <==> Twice(paths, d, n, v))
  }

  /** The records of exactly the switches seen so far, each listed once. */
  ghost predicate Formatted(paths: seq<seq<Dpid>>, root: Dpid, d: int, n: int, order: seq<Dpid>,
                            infos: map<Dpid, Info>) {
    && NoRepeats(order)
    && (forall v :: v in order <==> v in infos)
    && (forall v :: v in infos <==> Known(paths, d, n, v))
    && (forall v :: v in infos ==> Describes(paths, root, d, n, v, infos[v]))
  }

  // ---------- one more place ----------

  /** A switch other than the one at the new place is described as before. */
  lemma OtherSwitch(paths: seq<seq<Dpid>>, root: Dpid, d: nat, n: nat, v: Dpid, info: Info)
    requires n < |paths| && (d < |paths[n]| ==> paths[n][d] != v) && Describes(paths, root, d, n, v, info)
    ensures Describes(paths, root, d, n + 1, v, info)
    ensures Known(paths, d, n, v) <==> Known(paths, d, n + 1, v)
  {
    assert forall a, i :: SeenAs(paths, d, n + 1, a, i, v) <==> SeenAs(paths, d, n, a, i, v);
    SameSeen(paths, root, d, n, d, n + 1, v, info);
  }

  /** A description depends only on the places where the switch has been seen. */
  lemma SameSeen(paths: seq<seq<Dpid>>, root: Dpid, d: int, n: int, d': int, n': int, v: Dpid, info: Info)
    requires forall a, i :: SeenAs(paths, d', n', a, i, v) <==> SeenAs(paths, d, n, a, i, v)
    requires Describes(paths, root, d, n, v, info)
    ensures Describes(paths, root, d', n', v, info)
  {
    forall u
      ensures Follows(paths, d', n', v, u) <==> Follows(paths, d, n, v, u)
    {
      if Follows(paths, d, n, v, u) {
        var a, i :| SeenAs(paths, d, n, a, i, v) && i + 1 < |paths[a]| && paths[a][i + 1] == u;
        assert SeenAs(paths, d', n', a, i, v);
      }
      if Follows(paths, d', n', v, u) {
        var a, i :| SeenAs(paths, d', n', a, i, v) && i + 1 < |paths[a]| && paths[a][i + 1] == u;
        assert SeenAs(paths, d, n, a, i, v);
      }
    }
  }

  /** The record before this place, or a blank one. */
  function Before(infos: map<Dpid, Info>, v: Dpid): Info {
    if v in infos then infos[v].(shared := true) else Info(None, [], false, false, false)
  }

  /** The record after this place. */
  function After(path: seq<Dpid>, d: nat, info: Info): Info
    requires d < |path|
  {
    var next := if d + 1 < |path| && path[d + 1] !in info.next then info.next + [path[d + 1]] else info.next;
    if d > 0 then info.(former := Some(path[d - 1]), next := next, end := info.end || d + 1 == |path|)
    else info.(root := true, next := next)
  }

  /** All the places of a switch are at the same depth, behind the same switch. */
  lemma OneDepth(paths: seq<seq<Dpid>>, root: Dpid, d: nat, n: nat, a: int, i: int)
    requires Branches(paths, root) && n < |paths| && d < |paths[n]|
    requires Place(paths, a, i) && paths[a][i] == paths[n][d]
    ensures i == d && (d > 0 ==> paths[a][d - 1] == paths[n][d - 1])
    ensures paths[n][d] == root <==> d == 0
  {
    assert Same(paths, a, n, i, d);
    assert d > 0 ==> paths[a][..i][d - 1] == paths[n][..d][d - 1];
    assert Place(paths, n, 0) && Place(paths, n, d);
    assert paths[n][d] == root ==> Same(paths, n, n, 0, d);
  }

  lemma NewFollows(paths: seq<seq<Dpid>>, d: nat, n: nat, v: Dpid, u: Dpid)
    requires n < |paths| && d < |paths[n]| && paths[n][d] == v
    ensures Follows(paths, d, n + 1, v, u) <==>
              Follows(paths, d, n, v, u) || (d + 1 < |paths[n]| && paths[n][d + 1] == u)
  {
    if Follows(paths, d, n, v, u) {
      var a, i :| SeenAs(paths, d, n, a, i, v) && i + 1 < |paths[a]| && paths[a][i + 1] == u;
      assert SeenAs(paths, d, n + 1, a, i, v);
    }
    if d + 1 < |paths[n]| && paths[n][d + 1] == u {
      assert SeenAs(paths, d, n + 1, n, d, v);
    }
    if Follows(paths, d, n + 1, v, u) {
      var a, i :| SeenAs(paths, d, n + 1, a, i, v) && i + 1 < |paths[a]| && paths[a][i + 1] == u;
      assert (a == n && i == d) || SeenAs(paths, d, n, a, i, v);
    }
  }

  lemma NewEnds(paths: seq<seq<Dpid>>, d: nat, n: nat, v: Dpid)
    requires n < |paths| && d < |paths[n]| && paths[n][d] == v
    ensures Ends(paths, d, n + 1, v) <==> Ends(paths, d, n, v) || d + 1 == |paths[n]|
  {
    if Ends(paths, d, n, v) {
      var a, i :| SeenAs(paths, d, n, a, i, v) && i + 1 == |paths[a]|;
      assert SeenAs(paths, d, n + 1, a, i, v);
    }
    if d + 1 == |paths[n]| {
      assert SeenAs(paths, d, n + 1, n, d, v);
    }
    if Ends(paths, d, n + 1, v) {
      var a, i :| SeenAs(paths, d, n + 1, a, i, v) && i + 1 == |paths[a]|;
      assert (a == n && i == d) || SeenAs(paths, d, n, a, i, v);
    }
  }

  lemma NewTwice(paths: seq<seq<Dpid>>, root: Dpid, d: nat, n: nat, v: Dpid)
    requires Branches(paths, root) && n < |paths| && d < |paths[n]| && paths[n][d] == v
    ensures Twice(paths, d, n + 1, v) <==> Known(paths, d, n, v)
  {
    assert SeenAs(paths, d, n + 1, n, d, v);
    if Known(paths, d, n, v) {
      var a, i :| SeenAs(paths, d, n, a, i, v);
      OneDepth(paths, root, d, n, a, i);
      assert SeenAs(paths, d, n + 1, a, d, v);
    }
    if Twice(paths, d, n + 1, v) {
      var a, b, i :| a != b && SeenAs(paths, d, n + 1, a, i, v) && SeenAs(paths, d, n + 1, b, i, v);
      assert a == n || SeenAs(paths, d, n, a, i, v);
      assert b == n || SeenAs(paths, d, n, b, i, v);
    }
  }

  /** The record written at a place describes the switch there. */
  lemma ThisSwitch(paths: seq<seq<Dpid>>, root: Dpid, d: nat, n: nat, order: seq<Dpid>, infos: map<Dpid, Info>)
    requires Branches(paths, root) && n < |paths| && d < |paths[n]| && Formatted(paths, root, d, n, order, infos)
    ensures var v := paths[n][d];
      Known(paths, d, n + 1, v) && Describes(paths, root, d, n + 1, v, After(paths[n], d, Before(infos, v)))
  {
    var v := paths[n][d];
    var info := After(paths[n], d, Before(infos, v));
    assert SeenAs(paths, d, n + 1, n, d, v);
    OneDepth(paths, root, d, n, n, d);
    forall u
      ensures u in info.next <==> Follows(paths, d, n + 1, v, u)
    {
      NewFollows(paths, d, n, v, u);
      FirstFollows(paths, d, n, v, u);
    }
    NewEnds(paths, d, n, v);
    NewTwice(paths, root, d, n, v);
    FirstEnds(paths, d, n, v);
    forall a, i | SeenAs(paths, d, n + 1, a, i, v)
      ensures info.former == FormerAt(paths, a, i)
    {
      OneDepth(paths, root, d, n, a, i);
    }
    if d == 0 && v in infos {
      var a, i :| SeenAs(paths, d, n, a, i, v);
      OneDepth(paths, root, d, n, a, i);
    }
  }

  lemma FirstFollows(paths: seq<seq<Dpid>>, d: int, n: int, v: Dpid, u: Dpid)
    ensures Follows(paths, d, n, v, u) ==> Known(paths, d, n, v)
  {
  }

  lemma FirstEnds(paths: seq<seq<Dpid>>, d: int, n: int, v: Dpid)
    ensures Ends(paths, d, n, v) ==> Known(paths, d, n, v)
  {
  }

  // ---------- the loops ----------

  /** Every switch is listed after the switch before it. */
  ghost predicate ParentsFirst(order: seq<Dpid>, infos: map<Dpid, Info>) {
    forall y :: 0 <= y < |order| ==> ParentFirst(order, infos, y)
  }

  ghost predicate ParentFirst(order: seq<Dpid>, infos: map<Dpid, Info>, y: int)
    requires 0 <= y < |order|
  {
    order[y] in infos && (infos[order[y]].former.Some? ==> infos[order[y]].former.value in order[..y])
  }

  /** The state after one more place. */
  lemma OneMore(paths: seq<seq<Dpid>>, root: Dpid, d: nat, n: nat, order: seq<Dpid>, infos: map<Dpid, Info>,
                order': seq<Dpid>, infos': map<Dpid, Info>)
    requires Branches(paths, root) && n < |paths| && d < |paths[n]| && Formatted(paths, root, d, n, order, infos)
    requires var v := paths[n][d];
      && order' == (if v in order then order else order + [v])
      && infos' == infos[v := After(paths[n], d, Before(infos, v))]
    ensures Formatted(paths, root, d, n + 1, order', infos')
  {
    var v := paths[n][d];
    ThisSwitch(paths, root, d, n, order, infos);
    forall w | w != v && w in infos
      ensures Describes(paths, root, d, n + 1, w, infos[w]) && Known(paths, d, n + 1, w)
    {
      OtherSwitch(paths, root, d, n, w, infos[w]);
    }
    forall w | w != v && Known(paths, d, n + 1, w)
      ensures w in infos
    {
      var a, i :| SeenAs(paths, d, n + 1, a, i, w);
      assert SeenAs(paths, d, n, a, i, w);
    }
  }

  /** The record at a place names the same switch before it as any earlier record, and a listed one. */
  lemma FormerKept(paths: seq<seq<Dpid>>, root: Dpid, d: nat, n: nat, order: seq<Dpid>, infos: map<Dpid, Info>)
    requires Branches(paths, root) && n < |paths| && d < |paths[n]| && Formatted(paths, root, d, n, order, infos)
    ensures var v := paths[n][d]; var info := After(paths[n], d, Before(infos, v));
      && (v in infos ==> info.former == infos[v].former)
      && (info.former.Some? ==> info.former.value in order)
  {
    var v := paths[n][d];
    if d > 0 {
      assert SeenAs(paths, d, n, n, d - 1, paths[n][d - 1]);
    }
    if v in infos {
      var a, i :| SeenAs(paths, d, n, a, i, v);
      OneDepth(paths, root, d, n, a, i);
    }
  }

  lemma AppendParents(order: seq<Dpid>, infos: map<Dpid, Info>, v: Dpid, info: Info, order': seq<Dpid>,
                      infos': map<Dpid, Info>)
    requires ParentsFirst(order, infos) && (forall w :: w in order <==> w in infos)
    requires order' == (if v in order then order else order + [v]) && infos' == infos[v := info]
    requires v in infos ==> info.former == infos[v].former
    requires info.former.Some? ==> info.former.value in order
    ensures ParentsFirst(order', infos')
  {
    forall y | 0 <= y < |order'|
      ensures ParentFirst(order', infos', y)
    {
      if y < |order| {
        assert ParentFirst(order, infos, y);
        assert order'[..y] == order[..y];
      } else {
        assert order'[..y] == order;
      }
    }
  }

  /** A branch too short for this depth adds nothing. */
  lemma NoMore(paths: seq<seq<Dpid>>, root: Dpid, d: nat, n: nat, d': nat, n': nat, order: seq<Dpid>,
               infos: map<Dpid, Info>)
    requires Formatted(paths, root, d, n, order, infos)
    requires forall a, i :: Seen(paths, d', n', a, i) <==> Seen(paths, d, n, a, i)
    ensures Formatted(paths, root, d', n', order, infos)
  {
    forall v
      ensures Known(paths, d', n', v) <==> Known(paths, d, n, v)
    {
      if Known(paths, d, n, v) {
        var a, i :| SeenAs(paths, d, n, a, i, v);
        assert SeenAs(paths, d', n', a, i, v);
      }
      if Known(paths, d', n', v) {
        var a, i :| SeenAs(paths, d', n', a, i, v);
        assert SeenAs(paths, d, n, a, i, v);
      }
    }
    forall v | v in infos
      ensures Describes(paths, root, d', n', v, infos[v])
    {
      SameSeen(paths, root, d, n, d', n', v, infos[v]);
    }
  }

  /** The length of the longest branch. */
  ghost function Deepest(paths: seq<seq<Dpid>>): (depth: nat)
    ensures forall a :: 0 <= a < |paths| ==> |paths[a]| <= depth
  {
    if paths == [] then 0
    else
      var rest, last := Deepest(paths[..|paths| - 1]), |paths[|paths| - 1]|;
      if last > rest then last else rest
  }

  /** `max(branch_len)` */
  method MaxDepth(paths: seq<seq<Dpid>>) returns (depth: nat)
    ensures depth == Deepest(paths)
  {
    depth := 0;
    for n := 0 to |paths|
      invariant depth == Deepest(paths[..n])
    {
      assert paths[..n + 1][..n] == paths[..n];
      if |paths[n]| > depth {
        depth := |paths[n]|;
      }
    }
    assert paths[..|paths|] == paths;
  }

  /** The records of all switches of the tree, depth by depth. */
  method FormatLinkList(paths: seq<seq<Dpid>>, ghost root: Dpid) returns (order: seq<Dpid>, infos: map<Dpid, Info>)
    requires Branches(paths, root)
    ensures Formatted(paths, root, Deepest(paths), 0, order, infos) && ParentsFirst(order, infos)
  {
    var maxDepth := MaxDepth(paths);
    order, infos := [], map[];
    for depth := 0 to maxDepth
      invariant Formatted(paths, root, depth, 0, order, infos) && ParentsFirst(order, infos)
    {
      order, infos := FormatDepth(paths, root, depth, order, infos);
    }
  }

  /** One turn of the outer loop: the switches of all branches at one depth. */
  method FormatDepth(paths: seq<seq<Dpid>>, ghost root: Dpid, depth: nat, order0: seq<Dpid>, infos0: map<Dpid, Info>)
    returns (order: seq<Dpid>, infos: map<Dpid, Info>)
    requires Branches(paths, root) && Formatted(paths, root, depth, 0, order0, infos0) && ParentsFirst(order0, infos0)
    ensures Formatted(paths, root, depth + 1, 0, order, infos) && ParentsFirst(order, infos)
  {
    order, infos := order0, infos0;
    for n := 0 to |paths|
      invariant Formatted(paths, root, depth, n, order, infos) && ParentsFirst(order, infos)
    {
      if depth > |paths[n]| - 1 {
        NoMore(paths, root, depth, n, depth, n + 1, order, infos);
        continue;
      }
      ghost var o, i, v := order, infos, paths[n][depth];
      order, infos := Visit(paths[n], depth, order, infos);
      OneMore(paths, root, depth, n, o, i, order, infos);
      FormerKept(paths, root, depth, n, o, i);
      AppendParents(o, i, v, After(paths[n], depth, Before(i, v)), order, infos);
    }
    NoMore(paths, root, depth, |paths|, depth + 1, 0, order, infos);
  }

  /** The body of the inner loop. */
  method Visit(path: seq<Dpid>, depth: nat, order0: seq<Dpid>, infos0: map<Dpid, Info>)
    returns (order: seq<Dpid>, infos: map<Dpid, Info>)
    requires depth < |path| && |path| >= 2 && forall v :: v in order0 <==> v in infos0
    ensures order == if path[depth] in order0 then order0 else order0 + [path[depth]]
    ensures infos == infos0[path[depth] := After(path, depth, Before(infos0, path[depth]))]
  {
    order, infos := order0, infos0;
    var v := path[depth];
    if v !in order {
      order := order + [v];
      infos := infos[v := Info(None, [], false, false, false)];
    } else {
      infos := infos[v := infos[v].(shared := true)];
    }
    if depth > 0 {
      infos := infos[v := infos[v].(former := Some(path[depth - 1]))];
      if depth < |path| - 1 {
        if path[depth + 1] !in infos[v].next {
          infos := infos[v := infos[v].(next := infos[v].next + [path[depth + 1]])];
        }
      } else {
        infos := infos[v := infos[v].(end := true)];
      }
    } else {
      infos := infos[v := infos[v].(root := true)];
      if path[depth + 1] !in infos[v].next {
        infos := infos[v := infos[v].(next := infos[v].next + [path[depth + 1]])];
      }
    }
  }
}
