/** From a chromosome to the copies that reach the group's members. */
module MulticastEndToEnd {
  import opened Walks
  import opened FlowTables
  import opened MulticastFormat
  import opened MulticastRoutes
  import opened MulticastDelivery
  import MulticastTree

  /** `switch_queue`: vertex numbers stand for different switches. */
  ghost predicate Numbering(queue: seq<Dpid>, n: nat) {
    |queue| == n && NoRepeats(queue)
  }

  ghost predicate InQueue(queue: seq<Dpid>, path: Path) {
    forall i :: 0 <= i < |path| ==> path[i] < |queue|
  }

  /** `b` is `path` in datapath ids. */
  ghost predicate Named(queue: seq<Dpid>, path: Path, b: seq<Dpid>) {
    |b| == |path| && forall i :: 0 <= i < |path| ==> path[i] < |queue| && b[i] == queue[path[i]]
  }

  /** `MGAlgorithm.get_link`: the tree's paths in datapath ids. */
  method GetLink(queue: seq<Dpid>, paths: seq<Path>) returns (branches: seq<seq<Dpid>>)
    requires forall a :: 0 <= a < |paths| ==> InQueue(queue, paths[a])
    ensures |branches| == |paths| && forall a :: 0 <= a < |paths| ==> Named(queue, paths[a], branches[a])
  {
    branches := [];
    for a := 0 to |paths|
      invariant |branches| == a && forall k :: 0 <= k < a ==> Named(queue, paths[k], branches[k])
    {
      var branch: seq<Dpid> := [];
      for i := 0 to |paths[a]|
        invariant |branch| == i && forall k :: 0 <= k < i ==> paths[a][k] < |queue| && branch[k] == queue[paths[a][k]]
      {
        assert InQueue(queue, paths[a]);
        branch := branch + [queue[paths[a][i]]];
      }
      branches := branches + [branch];
    }
  }

  /** The paths of the tree, renamed, are branches from the source's switch. */
  lemma TreeBranches(m: MulticastTree.Network, r: MulticastTree.Request, genes: seq<bool>, paths: seq<Path>,
                     queue: seq<Dpid>, branches: seq<seq<Dpid>>)
    requires MulticastTree.ValidNetwork(m) && MulticastTree.ValidRequest(m, r) && |genes| == |m.edges|
    requires MulticastTree.TreeOf(m, r, genes, paths) && paths != [] && Numbering(queue, |m.connectVertex|)
    requires |branches| == |paths| && forall a :: 0 <= a < |paths| ==> Named(queue, paths[a], branches[a])
    ensures Branches(branches, queue[r.source])
    ensures |branches| == |r.destinations| && forall a :: 0 <= a < |branches| ==>
      r.destinations[a] < |queue| && branches[a][|branches[a]| - 1] == queue[r.destinations[a]]
  {
    MulticastTree.TreeMeaning(m, r, genes, paths);
    MulticastTree.PathsFormTree(m, r, genes, paths);
    forall a | 0 <= a < |paths|
      ensures |branches[a]| >= 2 && branches[a][0] == queue[r.source]
      ensures branches[a][|branches[a]| - 1] == queue[r.destinations[a]]
    {
      assert MulticastTree.CheapestFeasible(m, r, genes, r.destinations[a], paths[a]);
    }
    forall a, b, i, j | Place(branches, a, i) && Place(branches, b, j) && branches[a][i] == branches[b][j]
      ensures Same(branches, a, b, i, j)
    {
      SamePrefix(queue, paths, branches, a, b, i, j);
    }
  }

  lemma SamePrefix(queue: seq<Dpid>, paths: seq<Path>, branches: seq<seq<Dpid>>, a: int, b: int, i: int, j: int)
    requires Numbering(queue, |queue|) && MulticastTree.TreeShaped(paths)
    requires |branches| == |paths| && forall a :: 0 <= a < |paths| ==> Named(queue, paths[a], branches[a])
    requires Place(branches, a, i) && Place(branches, b, j) && branches[a][i] == branches[b][j]
    ensures Same(branches, a, b, i, j)
  {
    assert Named(queue, paths[a], branches[a]) && Named(queue, paths[b], branches[b]);
    assert paths[a][i] == paths[b][j];
    assert paths[a][..i] == paths[b][..j];
    forall k | 0 <= k < i
      ensures branches[a][k] == branches[b][k]
    {
      assert paths[a][..i][k] == paths[a][k] && paths[b][..j][k] == paths[b][k];
    }
  }

  /** How many copies a place gets: one for a member port of a destination's switch, otherwise none. */
  ghost function Owed(r: MulticastTree.Request, queue: seq<Dpid>, members: map<Dpid, seq<Port>>, pkt: Packet,
                      c: Copy): nat
  {
    if IsDestination(r, queue, c.at.sw) && c.at.sw in members && c.at.port in members[c.at.sw] && c.pkt == pkt
    then 1 else 0
  }

  ghost predicate IsDestination(r: MulticastTree.Request, queue: seq<Dpid>, sw: Dpid) {
    exists a :: 0 <= a < |r.destinations| && r.destinations[a] < |queue| && queue[r.destinations[a]] == sw
  }

  /**
   * End to end: if the tree of a chromosome is formatted and deployed, then in every run the source's packet
   * makes the switches act a bounded number of times, and once nothing is left in flight it has reached
   * every member port of every destination's switch exactly once, and no other host port.
   */
  lemma ChromosomeDelivers(m: MulticastTree.Network, r: MulticastTree.Request, genes: seq<bool>, paths: seq<Path>,
                           queue: seq<Dpid>, branches: seq<seq<Dpid>>, task: Task, tables: Tables, pkt: Packet,
                           states: seq<Traffic>)
    requires MulticastTree.ValidNetwork(m) && MulticastTree.ValidRequest(m, r) && |genes| == |m.edges|
    requires MulticastTree.TreeOf(m, r, genes, paths) && paths != [] && Numbering(queue, |m.connectVertex|)
    requires |branches| == |paths| && forall a :: 0 <= a < |paths| ==> Named(queue, paths[a], branches[a])
    requires Formatted(branches, queue[r.source], Deepest(branches), 0, task.tree.order, task.tree.infos)
    requires task.Valid() && task.Deployed(tables) && pkt.src == task.src && pkt.dst == task.group
    requires states != [] && Run(task.f, tables, states) && states[0] == Begin(task, pkt)
    ensures |states| - 1 <= |task.tree.infos|
    ensures var last := states[|states| - 1]; last.flight == [] ==>
      forall c :: multiset(last.delivered)[c] == Owed(r, queue, task.members, pkt, c)
  {
    EveryRunDelivers(task, tables, pkt, states);
    TreeBranches(m, r, genes, paths, queue, branches);
    EndsAreDestinations(r, queue, branches, task, pkt);
  }

  lemma EndsAreDestinations(r: MulticastTree.Request, queue: seq<Dpid>, branches: seq<seq<Dpid>>, task: Task,
                            pkt: Packet)
    requires r.source < |queue| && Branches(branches, queue[r.source]) && |branches| == |r.destinations|
    requires forall a :: 0 <= a < |branches| ==>
      r.destinations[a] < |queue| && branches[a][|branches[a]| - 1] == queue[r.destinations[a]]
    requires Formatted(branches, queue[r.source], Deepest(branches), 0, task.tree.order, task.tree.infos)
    ensures forall c :: Expected(task, pkt, task.tree.infos.Keys, c) == Owed(r, queue, task.members, pkt, c)
  {
    forall c
      ensures Expected(task, pkt, task.tree.infos.Keys, c) == Owed(r, queue, task.members, pkt, c)
    {
      var sw := c.at.sw;
      SwitchOf(branches, queue[r.source], task.tree.order, task.tree.infos, sw);
      if IsDestination(r, queue, sw) {
        var a :| 0 <= a < |r.destinations| && r.destinations[a] < |queue| && queue[r.destinations[a]] == sw;
        assert sw == branches[a][|branches[a]| - 1];
      }
    }
  }

  // ---------- the whole way ----------

  /** What the fabric, the hosts and the tables must be like for a request. */
  datatype Site = Site(queue: seq<Dpid>, src: Ip, group: Ip, srcPort: Port, members: map<Dpid, seq<Port>>) {

    /** Wherever the network has an edge, the first ports of the two switches are cabled together; the source is on a
        host port, and every destination's switch has its members on host ports. */
    ghost predicate Fits(f: Fabric, m: MulticastTree.Network, r: MulticastTree.Request) {
      && Numbering(queue, |m.connectVertex|) && r.source < |queue| && f.HostPort(queue[r.source], srcPort)
      && (forall i :: 0 <= i < |m.edges| ==> Wired(f, m, i))
      && (forall a :: 0 <= a < |r.destinations| ==> HasMembers(f, r, a))
    }

    ghost predicate Wired(f: Fabric, m: MulticastTree.Network, i: nat) {
      i < |m.edges| ==>
        && m.edges[i].a < |queue| && m.edges[i].b < |queue|
        && f.Paired(queue[m.edges[i].a], queue[m.edges[i].b])
    }

    ghost predicate HasMembers(f: Fabric, r: MulticastTree.Request, a: nat) {
      a < |r.destinations| ==>
        && r.destinations[a] < |queue| && queue[r.destinations[a]] in members
        && var ports := members[queue[r.destinations[a]]];
        NoRepeats(ports) && forall x :: 0 <= x < |ports| ==> f.HostPort(queue[r.destinations[a]], ports[x])
    }
  }

  /** Neighbours on a branch are cabled together. */
  lemma BranchWired(f: Fabric, m: MulticastTree.Network, r: MulticastTree.Request, genes: seq<bool>, site: Site,
                    p: Path, b: seq<Dpid>, i: nat)
    requires site.Fits(f, m, r) && MulticastTree.FeasibleWalk(m, r, genes, p) && Named(site.queue, p, b)
    requires i + 1 < |b|
    ensures f.Paired(b[i], b[i + 1])
  {
    assert MulticastTree.Feasible(m, r, genes, p[i], p[i + 1]);
    var e: nat :| MulticastTree.Hop(m, r, genes, p[i], p[i + 1], e);
    assert site.Wired(f, m, e);
  }

  /** A child of a switch in the records comes right behind it on some branch. */
  lemma ChildFollows(branches: seq<seq<Dpid>>, root: Dpid, tree: Tree, v: Dpid, c: Dpid) returns (a: nat, i: nat)
    requires Formatted(branches, root, Deepest(branches), 0, tree.order, tree.infos) && tree.Child(v, c)
    ensures a < |branches| && i + 1 < |branches[a]| && branches[a][i] == v && branches[a][i + 1] == c
  {
    assert Describes(branches, root, Deepest(branches), 0, v, tree.infos[v]);
    assert Follows(branches, Deepest(branches), 0, v, c);
    var a', i' :| SeenAs(branches, Deepest(branches), 0, a', i', v) && i' + 1 < |branches[a']| &&
      branches[a'][i' + 1] == c;
    a, i := a', i';
  }

  ghost predicate AllNamed(queue: seq<Dpid>, paths: seq<Path>, branches: seq<seq<Dpid>>) {
    |branches| == |paths| && forall a :: 0 <= a < |paths| ==> Named(queue, paths[a], branches[a])
  }

  /** The task that a fitting site and a tree make is a valid one. */
  lemma TaskValid(f: Fabric, m: MulticastTree.Network, r: MulticastTree.Request, genes: seq<bool>, site: Site,
                  paths: seq<Path>, branches: seq<seq<Dpid>>, task: Task)
    requires MulticastTree.ValidNetwork(m) && MulticastTree.ValidRequest(m, r) && |genes| == |m.edges|
    requires MulticastTree.TreeOf(m, r, genes, paths) && paths != [] && site.Fits(f, m, r)
    requires AllNamed(site.queue, paths, branches) && Branches(branches, site.queue[r.source])
    requires task == Task(f, task.tree, site.src, site.group, site.srcPort, site.members)
    requires task.tree.root == site.queue[r.source] && task.tree.Valid()
    requires Formatted(branches, task.tree.root, Deepest(branches), 0, task.tree.order, task.tree.infos)
    ensures task.Valid()
  {
    MulticastTree.TreeMeaning(m, r, genes, paths);
    forall v, c | task.tree.Child(v, c)
      ensures f.Paired(v, c)
    {
      var a, i := ChildFollows(branches, task.tree.root, task.tree, v, c);
      assert MulticastTree.CheapestFeasible(m, r, genes, r.destinations[a], paths[a]);
      assert Named(site.queue, paths[a], branches[a]);
      BranchWired(f, m, r, genes, site, paths[a], branches[a], i);
    }
    forall v | v in task.tree.infos && task.tree.infos[v].end
      ensures v in task.members && task.Hosts(v, task.members[v])
    {
      SwitchOf(branches, task.tree.root, task.tree.order, task.tree.infos, v);
      var a :| 0 <= a < |branches| && v == branches[a][|branches[a]| - 1];
      assert MulticastTree.CheapestFeasible(m, r, genes, r.destinations[a], paths[a]);
      assert Named(site.queue, paths[a], branches[a]);
      assert site.HasMembers(f, r, a);
    }
  }

  /** In the run `states` the packet does what it should. */
  ghost predicate ArrivesIn(task: Task, r: MulticastTree.Request, queue: seq<Dpid>, tables: Tables, pkt: Packet,
                            states: seq<Traffic>)
    requires task.tree.Valid()
  {
    pkt.src == task.src && pkt.dst == task.group && states != [] && Run(task.f, tables, states) &&
    states[0] == Begin(task, pkt) ==>
      && |states| - 1 <= |task.tree.infos|
      && (states[|states| - 1].flight == [] ==>
            forall c :: multiset(states[|states| - 1].delivered)[c] == Owed(r, queue, task.members, pkt, c))
  }

  /** Every packet of the source to the group, in every run: bounded, and in the end one copy at every member port of
      every destination's switch and none anywhere else. */
  ghost predicate Arrives(task: Task, r: MulticastTree.Request, queue: seq<Dpid>, tables: Tables)
    requires task.tree.Valid()
  {
    forall pkt, states :: ArrivesIn(task, r, queue, tables, pkt, states)
  }

  lemma AlwaysArrives(m: MulticastTree.Network, r: MulticastTree.Request, genes: seq<bool>, paths: seq<Path>,
                      queue: seq<Dpid>, branches: seq<seq<Dpid>>, task: Task, tables: Tables)
    requires MulticastTree.ValidNetwork(m) && MulticastTree.ValidRequest(m, r) && |genes| == |m.edges|
    requires MulticastTree.TreeOf(m, r, genes, paths) && paths != [] && Numbering(queue, |m.connectVertex|)
    requires AllNamed(queue, paths, branches) && task.Valid() && task.Deployed(tables)
    requires Formatted(branches, queue[r.source], Deepest(branches), 0, task.tree.order, task.tree.infos)
    ensures Arrives(task, r, queue, tables)
  {
    forall pkt, states
      ensures ArrivesIn(task, r, queue, tables, pkt, states)
    {
      if pkt.src == task.src && pkt.dst == task.group && states != [] && Run(task.f, tables, states) &&
         states[0] == Begin(task, pkt) {
        ChromosomeDelivers(m, r, genes, paths, queue, branches, task, tables, pkt, states);
      }
    }
  }

  /** The paths of a tree only have numbers of switches. */
  lemma PathsInQueue(m: MulticastTree.Network, r: MulticastTree.Request, genes: seq<bool>, paths: seq<Path>,
                     queue: seq<Dpid>)
    requires MulticastTree.ValidNetwork(m) && MulticastTree.ValidRequest(m, r) && |genes| == |m.edges|
    requires MulticastTree.TreeOf(m, r, genes, paths) && Numbering(queue, |m.connectVertex|)
    ensures forall a :: 0 <= a < |paths| ==> InQueue(queue, paths[a])
  {
    MulticastTree.TreeMeaning(m, r, genes, paths);
    forall a, i | 0 <= a < |paths| && 0 <= i < |paths[a]|
      ensures paths[a][i] < |queue|
    {
      assert MulticastTree.CheapestFeasible(m, r, genes, r.destinations[a], paths[a]);
      if i > 0 {
        assert MulticastTree.Feasible(m, r, genes, paths[a][i - 1], paths[a][i - 1 + 1]);
        var e: nat :| MulticastTree.Hop(m, r, genes, paths[a][i - 1], paths[a][i], e);
        assert MulticastTree.ValidWire(m, e);
      }
    }
  }

  /**
   * The whole way: builds the tree of a chromosome, names its switches and deploys it. Succeeds exactly if there is a
   * destination and all of them are within reach; then every packet of the source arrives, and no state on the way
   * let a tree switch send to one without its entry.
   */
  method DeployTree(net: Network, m: MulticastTree.Network, r: MulticastTree.Request, genes: seq<bool>, site: Site)
    returns (ok: bool, ghost task: Task)
    requires MulticastTree.ValidNetwork(m) && MulticastTree.ValidRequest(m, r) && |genes| == |m.edges|
    requires site.Fits(net.fabric, m, r)
    requires forall v :: Slot(v, AnyPort(site.src, site.group)) !in net.tables
    modifies net
    ensures ok <==> r.destinations != [] &&
                    forall i :: 0 <= i < |r.destinations| ==> !MulticastTree.OutOfReach(m, r, genes, r.destinations[i])
    ensures !ok ==> net.tables == old(net.tables) && net.mods == old(net.mods)
    ensures ok ==> task.Valid() && task == Task(net.fabric, task.tree, site.src, site.group, site.srcPort, site.members)
    ensures ok ==> net.mods == old(net.mods) + Plan(task, 0) && net.tables == Applied(old(net.tables), Plan(task, 0))
    ensures ok ==> Arrives(task, r, site.queue, net.tables)
    ensures ok && task.Clean(old(net.tables)) ==> forall j :: 0 <= j <= |task.tree.order| ==>
              task.Safe(Applied(old(net.tables), Plan(task, 0)[..j]))
  {
    ghost var start := net.tables;
    var paths := MulticastTree.DeleteCircuit(m, r, genes);
    MulticastTree.TreeMeaning(m, r, genes, paths);
    ok := paths != [];
    if ok {
      PathsInQueue(m, r, genes, paths, site.queue);
      var branches := GetLink(site.queue, paths);
      TreeBranches(m, r, genes, paths, site.queue, branches);
      EndsHaveMembers(net.fabric, m, r, site, branches);
      task := MulticastRoutes.DeployFlowTable(net, branches, site.queue[r.source], site.src, site.group, site.srcPort,
                                              site.members);
      TaskValid(net.fabric, m, r, genes, site, paths, branches, task);
      InstalledDeployed(task, start, net.tables);
      AlwaysArrives(m, r, genes, paths, site.queue, branches, task, net.tables);
    } else {
      task := Task(net.fabric, Tree(0, [], map[]), site.src, site.group, site.srcPort, site.members);
    }
  }

  lemma EndsHaveMembers(f: Fabric, m: MulticastTree.Network, r: MulticastTree.Request, site: Site,
                        branches: seq<seq<Dpid>>)
    requires site.Fits(f, m, r) && |branches| == |r.destinations|
    requires forall a :: 0 <= a < |branches| ==>
      r.destinations[a] < |site.queue| && branches[a] != [] &&
      branches[a][|branches[a]| - 1] == site.queue[r.destinations[a]]
    ensures forall a :: 0 <= a < |branches| ==> branches[a][|branches[a]| - 1] in site.members
  {
    forall a | 0 <= a < |branches|
      ensures branches[a][|branches[a]| - 1] in site.members
    {
      assert site.HasMembers(f, r, a);
    }
  }
}
