/** `MulticastTaskEntry.deploy_flow_table`: a tree of switches becomes one flow entry per switch. */
module MulticastRoutes {
  import opened Walks
  import opened FlowTables
  import opened MulticastFormat
  import UnicastRoutes

  /** The switch records of a tree, in the order they were listed. */
  datatype Tree = Tree(root: Dpid, order: seq<Dpid>, infos: map<Dpid, Info>) {

    /** The records make a tree: everyone but the root has exactly one switch before it, which lists it as
        one that comes after, and the root comes first. */
    ghost predicate Valid() {
      && root in infos && infos[root].root && infos[root].former == None && !infos[root].end
      && Listed() && ParentsFirst(order, infos)
      && (forall v :: v in infos && v != root ==> !infos[v].root && infos[v].former.Some?)
      && (forall v :: v in infos && v != root ==> Child(infos[v].former.value, v))
      && (forall v, x :: v in infos && 0 <= x < |infos[v].next| ==>
            Child(v, infos[v].next[x]) && infos[v].next[x] != root && infos[infos[v].next[x]].former == Some(v))
      && (forall v :: v in infos ==> NoRepeats(infos[v].next))
    }

    /** The records are listed once each. */
    ghost predicate Listed() {
      && (forall v :: v in infos ==> v in order)
      && (forall x :: 0 <= x < |order| ==> order[x] in infos)
      && NoRepeats(order)
    }

    ghost predicate Child(v: Dpid, c: Dpid) {
      v in infos && c in infos && c in infos[v].next
    }
  }

  /** The formatted branches of a tree are such records. */
  lemma FormattedTree(paths: seq<seq<Dpid>>, root: Dpid, order: seq<Dpid>, infos: map<Dpid, Info>)
    requires Branches(paths, root) && Formatted(paths, root, Deepest(paths), 0, order, infos)
    requires ParentsFirst(order, infos)
    ensures Tree(root, order, infos).Valid()
  {
    var t := Tree(root, order, infos);
    RootRecord(paths, root, order, infos);
    forall v | v in infos && v != root
      ensures infos[v].former.Some? && t.Child(infos[v].former.value, v)
    {
      ParentRecord(paths, root, order, infos, v);
    }
    forall v, x | v in infos && 0 <= x < |infos[v].next|
      ensures t.Child(v, infos[v].next[x]) && infos[v].next[x] != root && infos[infos[v].next[x]].former == Some(v)
    {
      ChildRecord(paths, root, order, infos, v, infos[v].next[x]);
    }
    forall v | v in infos
      ensures NoRepeats(infos[v].next)
    {
      assert Describes(paths, root, Deepest(paths), 0, v, infos[v]);
    }
  }

  lemma ParentRecord(paths: seq<seq<Dpid>>, root: Dpid, order: seq<Dpid>, infos: map<Dpid, Info>, v: Dpid)
    requires Branches(paths, root) && Formatted(paths, root, Deepest(paths), 0, order, infos)
    requires v in infos && v != root
    ensures !infos[v].root && infos[v].former.Some? && Tree(root, order, infos).Child(infos[v].former.value, v)
  {
    var d := Deepest(paths);
    assert Describes(paths, root, d, 0, v, infos[v]);
    var a, i :| SeenAs(paths, d, 0, a, i, v);
    var u := paths[a][i - 1];
    assert SeenAs(paths, d, 0, a, i - 1, u);
    assert Follows(paths, d, 0, u, v);
  }

  lemma ChildRecord(paths: seq<seq<Dpid>>, root: Dpid, order: seq<Dpid>, infos: map<Dpid, Info>, v: Dpid, c: Dpid)
    requires Branches(paths, root) && Formatted(paths, root, Deepest(paths), 0, order, infos)
    requires v in infos && c in infos[v].next
    ensures Tree(root, order, infos).Child(v, c) && c != root && infos[c].former == Some(v)
  {
    var d := Deepest(paths);
    assert Describes(paths, root, d, 0, v, infos[v]);
    assert Follows(paths, d, 0, v, c);
    var a, i :| SeenAs(paths, d, 0, a, i, v) && i + 1 < |paths[a]| && paths[a][i + 1] == c;
    assert |paths[a]| <= d;
    assert SeenAs(paths, d, 0, a, i + 1, c);
    OneDepth(paths, root, i + 1, a, a, i + 1);
    assert c != root && c in infos;
    assert Describes(paths, root, d, 0, c, infos[c]);
  }

  lemma RootRecord(paths: seq<seq<Dpid>>, root: Dpid, order: seq<Dpid>, infos: map<Dpid, Info>)
    requires Branches(paths, root) && Formatted(paths, root, Deepest(paths), 0, order, infos)
    ensures root in infos && infos[root].root && infos[root].former == None && !infos[root].end
  {
    var d := Deepest(paths);
    assert |paths[0]| <= d;
    assert SeenAs(paths, d, 0, 0, 0, root);
    forall a, i | SeenAs(paths, d, 0, a, i, root)
      ensures i + 1 != |paths[a]|
    {
      OneDepth(paths, root, i, a, a, i);
    }
    assert Describes(paths, root, d, 0, root, infos[root]);
  }

  /** The switches of the tree are those of the branches, and its ends are the last ones of the branches. */
  lemma SwitchOf(paths: seq<seq<Dpid>>, root: Dpid, order: seq<Dpid>, infos: map<Dpid, Info>, v: Dpid)
    requires Branches(paths, root) && Formatted(paths, root, Deepest(paths), 0, order, infos)
    ensures v in infos <==> exists a :: 0 <= a < |paths| && v in paths[a]
    ensures v in infos && infos[v].end <==> exists a :: 0 <= a < |paths| && v == paths[a][|paths[a]| - 1]
  {
    var d := Deepest(paths);
    if v in infos {
      var a, i :| SeenAs(paths, d, 0, a, i, v);
      assert v in paths[a];
    }
    if exists a :: 0 <= a < |paths| && v in paths[a] {
      var a :| 0 <= a < |paths| && v in paths[a];
      var i :| 0 <= i < |paths[a]| && paths[a][i] == v;
      assert |paths[a]| <= d;
      assert SeenAs(paths, d, 0, a, i, v);
    }
    if v in infos && infos[v].end {
      var a, i :| SeenAs(paths, d, 0, a, i, v) && i + 1 == |paths[a]|;
      assert v == paths[a][|paths[a]| - 1];
    }
    if exists a :: 0 <= a < |paths| && v == paths[a][|paths[a]| - 1] {
      var a :| 0 <= a < |paths| && v == paths[a][|paths[a]| - 1];
      assert |paths[a]| <= d;
      assert SeenAs(paths, d, 0, a, |paths[a]| - 1, v);
      assert Ends(paths, d, 0, v);
    }
  }

  /** A multicast request on a fabric: the source host, the group address and the member ports. */
  datatype Task = Task(f: Fabric, tree: Tree, src: Ip, group: Ip, srcPort: Port, members: map<Dpid, seq<Port>>) {

    /** Tree neighbours are cabled by their first ports; hosts are on host ports; every end has members. */
    ghost predicate Valid() {
      && tree.Valid() && f.HostPort(tree.root, srcPort)
      && (forall v, c :: tree.Child(v, c) ==> f.Paired(v, c))
      && (forall v :: v in tree.infos && tree.infos[v].end ==> v in members && Hosts(v, members[v]))
    }

    ghost predicate Hosts(v: Dpid, ports: seq<Port>) {
      NoRepeats(ports) && forall x :: 0 <= x < |ports| ==> f.HostPort(v, ports[x])
    }

    function InPort(v: Dpid): Port
      requires v in tree.infos
    {
      if tree.infos[v].root || tree.infos[v].former.None? then srcPort
      else f.PortTo(v, tree.infos[v].former.value)
    }

    function Members(v: Dpid): seq<Port>
      requires v in tree.infos
    {
      if tree.infos[v].end && v in members then members[v] else []
    }

    function PortsTo(v: Dpid, next: seq<Dpid>): (ports: seq<Port>)
      ensures |ports| == |next| && forall x :: 0 <= x < |next| ==> ports[x] == f.PortTo(v, next[x])
    {
      if next == [] then [] else PortsTo(v, next[..|next| - 1]) + [f.PortTo(v, next[|next| - 1])]
    }

    function OutPorts(v: Dpid): seq<Port>
      requires v in tree.infos
    {
      Members(v) + PortsTo(v, tree.infos[v].next)
    }

    function SlotOf(v: Dpid): Slot
      requires v in tree.infos
    {
      Slot(v, OnPort(InPort(v), src, group))
    }

    /** Switch `v` has its entry. */
    ghost predicate Has(tables: Tables, v: Dpid)
      requires v in tree.infos
    {
      SlotOf(v) in tables && tables[SlotOf(v)] == Action(Keep, OutPorts(v))
    }

    /** Every switch has its entry, and no entry of another kind catches the packets. */
    ghost predicate Deployed(tables: Tables) {
      forall v :: v in tree.infos ==> Has(tables, v) && Slot(v, AnyPort(src, group)) !in tables
    }

    /** Nothing but the slots of the tree's switches differs. */
    ghost predicate OnlyTree(before: Tables, after: Tables) {
      forall s: Slot :: UnicastRoutes.At(after, s) == UnicastRoutes.At(before, s)
                     || (s.sw in tree.infos && s == SlotOf(s.sw))
    }

    /** No switch with an entry sends to a switch of the tree without one. */
    ghost predicate Safe(tables: Tables) {
      forall v, c :: tree.Child(v, c) && SlotOf(v) in tables ==> SlotOf(c) in tables
    }

    ghost predicate Clean(tables: Tables) {
      forall v :: v in tree.infos ==> SlotOf(v) !in tables
    }
  }

  /** The listed switches from place `x` on have their entries, and nothing else has changed. */
  ghost predicate InstalledFrom(task: Task, start: Tables, tables: Tables, x: int)
    requires task.tree.Listed()
  {
    && task.OnlyTree(start, tables)
    && (forall y :: 0 <= x <= y < |task.tree.order| ==> task.Has(tables, task.tree.order[y]))
    && (forall y :: 0 <= y < x && y < |task.tree.order| ==>
          (task.SlotOf(task.tree.order[y]) in tables <==> task.SlotOf(task.tree.order[y]) in start))
  }

  lemma InstallOne(task: Task, start: Tables, before: Tables, after: Tables, x: nat)
    requires task.tree.Listed() && x < |task.tree.order| && InstalledFrom(task, start, before, x + 1)
    requires after == before[task.SlotOf(task.tree.order[x]) := Action(Keep, task.OutPorts(task.tree.order[x]))]
    ensures InstalledFrom(task, start, after, x)
  {
    var order := task.tree.order;
    forall y | 0 <= y < |order| && y != x
      ensures task.SlotOf(order[y]) != task.SlotOf(order[x])
    {
      assert order[y] != order[x];
    }
  }

  /** With the deeper switches done first, no entry ever sends to a switch without one. */
  lemma SuffixSafe(task: Task, start: Tables, tables: Tables, x: nat)
    requires task.tree.Valid() && InstalledFrom(task, start, tables, x) && task.Clean(start)
    ensures task.Safe(tables)
  {
    var order, infos := task.tree.order, task.tree.infos;
    forall v, c | task.tree.Child(v, c) && task.SlotOf(v) in tables
      ensures task.SlotOf(c) in tables
    {
      var y :| 0 <= y < |order| && order[y] == c;
      var k :| 0 <= k < |infos[v].next| && infos[v].next[k] == c;
      assert infos[c].former == Some(v);
      assert ParentFirst(order, infos, y);
      var z :| 0 <= z < y && order[z] == v;
      assert z >= x;
      assert task.Has(tables, order[y]);
    }
  }

  /** The flow-mods for the listed switches from the last one down to place `x`. */
  function Plan(task: Task, x: nat): (mods: seq<Mod>)
    requires task.tree.Listed() && x <= |task.tree.order|
    ensures |mods| == |task.tree.order| - x
    decreases |task.tree.order| - x
  {
    if x == |task.tree.order| then [] else Plan(task, x + 1) + [ModOf(task, task.tree.order[x])]
  }

  function ModOf(task: Task, v: Dpid): Mod
    requires v in task.tree.infos
  {
    Mod(task.SlotOf(v), Action(Keep, task.OutPorts(v)))
  }

  lemma {:induction false} PlanInstalls(task: Task, start: Tables, x: nat)
    requires task.tree.Listed() && x <= |task.tree.order|
    ensures InstalledFrom(task, start, Applied(start, Plan(task, x)), x)
    decreases |task.tree.order| - x
  {
    if x < |task.tree.order| {
      PlanInstalls(task, start, x + 1);
      AppliedMore(start, Plan(task, x + 1), ModOf(task, task.tree.order[x]));
      InstallOne(task, start, Applied(start, Plan(task, x + 1)), Applied(start, Plan(task, x)), x);
    }
  }

  lemma {:induction false} PlanPrefix(task: Task, x: nat, y: nat)
    requires task.tree.Listed() && x <= y <= |task.tree.order|
    ensures Plan(task, x)[..|task.tree.order| - y] == Plan(task, y)
    decreases y - x
  {
    if x < y {
      PlanPrefix(task, x + 1, y);
      ShorterPrefix(Plan(task, x + 1), ModOf(task, task.tree.order[x]), |task.tree.order| - y);
    }
  }

  lemma ShorterPrefix(mods: seq<Mod>, last: Mod, n: nat)
    requires n <= |mods|
    ensures (mods + [last])[..n] == mods[..n]
  {
  }

  /** After every prefix of the plan the tables are safe. */
  lemma PlanSafe(task: Task, start: Tables, j: nat)
    requires task.tree.Valid() && task.Clean(start) && j <= |task.tree.order|
    ensures task.Safe(Applied(start, Plan(task, 0)[..j]))
  {
    var x := |task.tree.order| - j;
    PlanPrefix(task, 0, x);
    PlanInstalls(task, start, x);
    SuffixSafe(task, start, Applied(start, Plan(task, x)), x);
  }

  /** Where no address-translation entry is in the way, the installed tables are what delivery needs. */
  lemma InstalledDeployed(task: Task, start: Tables, tables: Tables)
    requires task.tree.Listed() && InstalledFrom(task, start, tables, 0)
    requires forall v :: v in task.tree.infos ==> Slot(v, AnyPort(task.src, task.group)) !in start
    ensures task.Deployed(tables)
  {
    forall v | v in task.tree.infos
      ensures task.Has(tables, v) && Slot(v, AnyPort(task.src, task.group)) !in tables
    {
      var y :| 0 <= y < |task.tree.order| && task.tree.order[y] == v;
      var s := Slot(v, AnyPort(task.src, task.group));
      assert UnicastRoutes.At(tables, s) == UnicastRoutes.At(start, s);
    }
  }

  /** Formats the branches and installs one entry per switch, the deepest first. */
  method DeployFlowTable(net: Network, paths: seq<seq<Dpid>>, ghost root: Dpid, src: Ip, group: Ip, srcPort: Port,
                         members: map<Dpid, seq<Port>>) returns (ghost task: Task)
    requires Branches(paths, root)
    requires forall a :: 0 <= a < |paths| ==> paths[a][|paths[a]| - 1] in members
    modifies net
    ensures task == Task(net.fabric, task.tree, src, group, srcPort, members)
    ensures task.tree.root == root && task.tree.Valid()
    ensures Formatted(paths, root, Deepest(paths), 0, task.tree.order, task.tree.infos)
    ensures InstalledFrom(task, old(net.tables), net.tables, 0)
    ensures net.mods == old(net.mods) + Plan(task, 0) && net.tables == Applied(old(net.tables), Plan(task, 0))
    ensures task.Clean(old(net.tables)) ==> forall j :: 0 <= j <= |task.tree.order| ==>
              task.Safe(Applied(old(net.tables), Plan(task, 0)[..j]))
  {
    ghost var start := net.tables;
    var order, infos := FormatLinkList(paths, root);
    FormattedTree(paths, root, order, infos);
    forall v | v in infos && infos[v].end
      ensures v in members
    {
      SwitchOf(paths, root, order, infos, v);
    }
    task := Task(net.fabric, Tree(root, order, infos), src, group, srcPort, members);
    Install(net, order, infos, src, group, srcPort, members, task);
    PlanInstalls(task, start, 0);
    forall j | 0 <= j <= |task.tree.order| && task.Clean(start)
      ensures task.Safe(Applied(start, Plan(task, 0)[..j]))
    {
      PlanSafe(task, start, j);
    }
  }

  /** The loop over the reversed list of records. */
  method Install(net: Network, order: seq<Dpid>, infos: map<Dpid, Info>, src: Ip, group: Ip, srcPort: Port,
                 members: map<Dpid, seq<Port>>, ghost task: Task)
    requires task == Task(net.fabric, Tree(task.tree.root, order, infos), src, group, srcPort, members)
    requires task.tree.Listed()
    requires forall v :: v in infos ==> (infos[v].root || infos[v].former.Some?)
    requires forall v :: v in infos && infos[v].root ==> infos[v].former.None?
    requires forall v :: v in infos && infos[v].end ==> v in members
    modifies net
    ensures net.mods == old(net.mods) + Plan(task, 0) && net.tables == Applied(old(net.tables), Plan(task, 0))
  {
    ghost var start, mods := net.tables, net.mods;
    var x: nat := |order|;
    while x > 0
      invariant x <= |order| && net.mods == mods + Plan(task, x) && net.tables == Applied(start, Plan(task, x))
    {
      x := x - 1;
      var v := order[x];
      var inPort, outPorts := Ports(net.fabric, v, infos[v], srcPort, members, task);
      AppliedMore(start, Plan(task, x + 1), ModOf(task, v));
      net.FlowMod(v, OnPort(inPort, src, group), Keep, outPorts);
    }
  }

  /** In-port and out-ports of one switch. */
  method Ports(f: Fabric, v: Dpid, info: Info, srcPort: Port, members: map<Dpid, seq<Port>>, ghost task: Task)
    returns (inPort: Port, outPorts: seq<Port>)
    requires v in task.tree.infos && info == task.tree.infos[v]
    requires (info.root || info.former.Some?) && (info.end ==> v in members)
    requires task.f == f && task.srcPort == srcPort && task.members == members
    ensures inPort == task.InPort(v) && outPorts == task.OutPorts(v)
  {
    if !info.root {
      inPort := f.PortTo(v, info.former.value);
    } else {
      inPort := srcPort;
    }
    outPorts := [];
    if info.end {
      outPorts := CopyPorts(members[v]);
    }
    assert outPorts == task.Members(v);
    for i := 0 to |info.next|
      invariant outPorts == task.Members(v) + task.PortsTo(v, info.next[..i])
    {
      outPorts := outPorts + [f.PortTo(v, info.next[i])];
      assert info.next[..i + 1][..i] == info.next[..i];
    }
    assert info.next[..|info.next|] == info.next;
  }

  method CopyPorts(ports: seq<Port>) returns (copy: seq<Port>)
    ensures copy == ports
  {
    copy := [];
    for i := 0 to |ports|
      invariant copy == ports[..i]
    {
      copy := copy + [ports[i]];
    }
  }
}
