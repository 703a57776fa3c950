/** What a deployed multicast tree does to a packet of the source, for every order the switches act in. */
module MulticastDelivery {
  import opened Walks
  import opened FlowTables
  import opened MulticastFormat
  import opened MulticastRoutes

  // ---------- packets in flight ----------

  /** A copy of a packet at a port: about to enter the switch, or handed to the host there. */
  datatype Copy = Copy(at: Plug, pkt: Packet)

  /** The copies on the way to a switch, and the copies handed to hosts. */
  datatype Traffic = Traffic(flight: seq<Copy>, delivered: seq<Copy>)

  /** The copies that leave a switch over cables. A packet is not sent back out of its in-port. */
  ghost function Forwarded(f: Fabric, sw: Dpid, inPort: Port, pkt: Packet, outputs: seq<Port>): seq<Copy> {
    if outputs == [] then []
    else
      var n := |outputs| - 1;
      Forwarded(f, sw, inPort, pkt, outputs[..n]) +
      if outputs[n] != inPort && Plug(sw, outputs[n]) in f.links then [Copy(f.links[Plug(sw, outputs[n])], pkt)] else []
  }

  /** The copies that leave a switch at host ports. */
  ghost function Handed(f: Fabric, sw: Dpid, inPort: Port, pkt: Packet, outputs: seq<Port>): seq<Copy> {
    if outputs == [] then []
    else
      var n := |outputs| - 1;
      Handed(f, sw, inPort, pkt, outputs[..n]) +
      if outputs[n] != inPort && f.HostPort(sw, outputs[n]) then [Copy(Plug(sw, outputs[n]), pkt)] else []
  }

  /** The switch that copy `i` is about to enter acts on it; without a single matching entry it drops it. */
  ghost predicate Acts(f: Fabric, tables: Tables, before: Traffic, after: Traffic, i: nat) {
    i < |before.flight| &&
    var copy := before.flight[i];
    var rest := before.flight[..i] + before.flight[i + 1..];
    if exists m :: Fires(tables, copy.at.sw, copy.at.port, copy.pkt, m) then
      var m :| Fires(tables, copy.at.sw, copy.at.port, copy.pkt, m);
      var action := tables[Slot(copy.at.sw, m)];
      var pkt := Rewritten(action.rewrite, copy.pkt);
      after == Traffic(rest + Forwarded(f, copy.at.sw, copy.at.port, pkt, action.outputs),
                       before.delivered + Handed(f, copy.at.sw, copy.at.port, pkt, action.outputs))
    else after == Traffic(rest, before.delivered)
  }

  /** A run of the network: any switch with a copy to act on may act next. */
  ghost predicate Run(f: Fabric, tables: Tables, states: seq<Traffic>) {
    forall k :: 0 <= k < |states| - 1 ==> SomeActs(f, tables, states[k], states[k + 1])
  }

  ghost predicate SomeActs(f: Fabric, tables: Tables, before: Traffic, after: Traffic) {
    exists i: nat :: Acts(f, tables, before, after, i)
  }

  // ---------- what one switch of the tree does ----------

  /** The copy that enters switch `v` of the tree. */
  ghost function Entering(task: Task, pkt: Packet, v: Dpid): Copy
    requires v in task.tree.infos
  {
    Copy(Plug(v, task.InPort(v)), pkt)
  }

  /** Host ports give copies to hosts, in order, and none to switches. */
  lemma {:induction false} HostOutputs(f: Fabric, v: Dpid, inPort: Port, pkt: Packet, ports: seq<Port>)
    requires forall x :: 0 <= x < |ports| ==> f.HostPort(v, ports[x]) && ports[x] != inPort
    ensures Forwarded(f, v, inPort, pkt, ports) == [] && |Handed(f, v, inPort, pkt, ports)| == |ports|
    ensures forall x :: 0 <= x < |ports| ==> Handed(f, v, inPort, pkt, ports)[x] == Copy(Plug(v, ports[x]), pkt)
  {
    if ports != [] {
      HostOutputs(f, v, inPort, pkt, ports[..|ports| - 1]);
    }
  }

  /** The cable to a next switch: not the in-port, and it ends at that switch's in-port. */
  ghost predicate Wired(task: Task, v: Dpid, c: Dpid)
    requires v in task.tree.infos
  {
    var plug := Plug(v, task.f.PortTo(v, c));
    && c in task.tree.infos && plug.port != task.InPort(v)
    && plug in task.f.links && task.f.links[plug] == Plug(c, task.InPort(c))
  }

  /** Sending out of two lists of ports is sending out of one after the other. */
  lemma {:induction false} ForwardedConcat(f: Fabric, v: Dpid, inPort: Port, pkt: Packet, a: seq<Port>, b: seq<Port>)
    ensures Forwarded(f, v, inPort, pkt, a + b) == Forwarded(f, v, inPort, pkt, a) + Forwarded(f, v, inPort, pkt, b)
  {
    if b == [] {
      assert a + b == a;
    } else {
      var n, c := |b| - 1, a + b;
      ForwardedConcat(f, v, inPort, pkt, a, b[..n]);
      assert c[..|c| - 1] == a + b[..n] && c[|c| - 1] == b[n];
    }
  }

  lemma {:induction false} HandedConcat(f: Fabric, v: Dpid, inPort: Port, pkt: Packet, a: seq<Port>, b: seq<Port>)
    ensures Handed(f, v, inPort, pkt, a + b) == Handed(f, v, inPort, pkt, a) + Handed(f, v, inPort, pkt, b)
  {
    if b == [] {
      assert a + b == a;
    } else {
      var n, c := |b| - 1, a + b;
      HandedConcat(f, v, inPort, pkt, a, b[..n]);
      assert c[..|c| - 1] == a + b[..n] && c[|c| - 1] == b[n];
    }
  }

  /** Ports with cables send copies to the far ends, and nothing to hosts. */
  lemma {:induction false} SwitchOutputs(f: Fabric, v: Dpid, inPort: Port, pkt: Packet, ports: seq<Port>)
    requires forall x :: 0 <= x < |ports| ==> Plug(v, ports[x]) in f.links && ports[x] != inPort
    ensures |Forwarded(f, v, inPort, pkt, ports)| == |ports| && Handed(f, v, inPort, pkt, ports) == []
    ensures forall x :: 0 <= x < |ports| ==>
              Forwarded(f, v, inPort, pkt, ports)[x] == Copy(f.links[Plug(v, ports[x])], pkt)
  {
    if ports != [] {
      SwitchOutputs(f, v, inPort, pkt, ports[..|ports| - 1]);
    }
  }

  lemma ToChild(task: Task, v: Dpid, c: Dpid)
    requires task.Valid() && v in task.tree.infos && c in task.tree.infos[v].next
    ensures Wired(task, v, c)
  {
    var infos, root := task.tree.infos, task.tree.root;
    var k :| 0 <= k < |infos[v].next| && infos[v].next[k] == c;
    assert task.tree.Child(v, c) && task.f.Paired(v, c);
    assert infos[c].former == Some(v) && c != root;
    if v != root {
      var u := infos[v].former.value;
      assert task.tree.Child(u, v) && task.f.Paired(u, v);
      NoWayBack(task, u, v);
    }
  }

  /** The switch before `v` does not come after it as well. */
  lemma NoWayBack(task: Task, u: Dpid, v: Dpid)
    requires task.tree.Valid() && task.tree.Child(u, v)
    ensures u !in task.tree.infos[v].next
  {
    var order, infos := task.tree.order, task.tree.infos;
    var k :| 0 <= k < |infos[u].next| && infos[u].next[k] == v;
    assert infos[v].former == Some(u);
    var y :| 0 <= y < |order| && order[y] == v;
    assert ParentFirst(order, infos, y);
    var x :| 0 <= x < y && order[x] == u;
    assert ParentFirst(order, infos, x);
    assert infos[u].former != Some(v);
  }

  /** What switch `v` of the tree sends out: a copy into every next switch, and one to every member port. */
  ghost predicate Sends(task: Task, v: Dpid, pkt: Packet, sent: seq<Copy>, handed: seq<Copy>)
    requires v in task.tree.infos
  {
    var next := task.tree.infos[v].next;
    && |sent| == |next|
    && (forall x :: 0 <= x < |next| ==> next[x] in task.tree.infos && sent[x] == Entering(task, pkt, next[x]))
    && NoRepeats(task.Members(v)) && |handed| == |task.Members(v)|
    && (forall x :: 0 <= x < |handed| ==> handed[x] == Copy(Plug(v, task.Members(v)[x]), pkt))
  }

  lemma SwitchSends(task: Task, v: Dpid, pkt: Packet)
    requires task.Valid() && v in task.tree.infos
    ensures Sends(task, v, pkt, Forwarded(task.f, v, task.InPort(v), pkt, task.OutPorts(v)),
                  Handed(task.f, v, task.InPort(v), pkt, task.OutPorts(v)))
  {
    var next, members := task.tree.infos[v].next, task.Members(v);
    var ports := task.PortsTo(v, next);
    MemberPorts(task, v);
    forall x | 0 <= x < |next|
      ensures Wired(task, v, next[x])
    {
      ToChild(task, v, next[x]);
    }
    var sent, handed := BothOutputs(task.f, v, task.InPort(v), pkt, members, ports);
  }

  lemma BothOutputs(f: Fabric, v: Dpid, inPort: Port, pkt: Packet, members: seq<Port>, ports: seq<Port>)
    returns (sent: seq<Copy>, handed: seq<Copy>)
    requires forall x :: 0 <= x < |members| ==> f.HostPort(v, members[x]) && members[x] != inPort
    requires forall x :: 0 <= x < |ports| ==> Plug(v, ports[x]) in f.links && ports[x] != inPort
    ensures sent == Forwarded(f, v, inPort, pkt, members + ports)
    ensures handed == Handed(f, v, inPort, pkt, members + ports)
    ensures |sent| == |ports| && forall x :: 0 <= x < |ports| ==> sent[x] == Copy(f.links[Plug(v, ports[x])], pkt)
    ensures |handed| == |members| && forall x :: 0 <= x < |members| ==> handed[x] == Copy(Plug(v, members[x]), pkt)
  {
    HostOutputs(f, v, inPort, pkt, members);
    SwitchOutputs(f, v, inPort, pkt, ports);
    ForwardedConcat(f, v, inPort, pkt, members, ports);
    HandedConcat(f, v, inPort, pkt, members, ports);
    sent, handed := Forwarded(f, v, inPort, pkt, ports), Handed(f, v, inPort, pkt, members);
  }

  /** Member ports lead to hosts, and the in-port of an end does not. */
  lemma MemberPorts(task: Task, v: Dpid)
    requires task.Valid() && v in task.tree.infos
    ensures NoRepeats(task.Members(v))
    ensures forall x :: 0 <= x < |task.Members(v)| ==>
              task.f.HostPort(v, task.Members(v)[x]) && task.Members(v)[x] != task.InPort(v)
  {
    if task.tree.infos[v].end {
      assert v != task.tree.root;
      var u := task.tree.infos[v].former.value;
      assert task.tree.Child(u, v) && task.f.Paired(u, v);
      assert task.Hosts(v, task.members[v]);
    }
  }

  // ---------- every run ----------

  /** The switches in `done` have acted, and nothing else has happened: the copies in flight enter the next
      switches of those, one each, and the member ports of those have one copy each. */
  ghost predicate Spread(task: Task, pkt: Packet, traffic: Traffic, done: set<Dpid>)
    requires task.tree.Valid()
  {
    && DoneDue(task, done)
    && AllOnWay(task, pkt, traffic.flight, done)
    && OneEach(traffic.flight)
    && Complete(task, pkt, traffic.flight, done)
    && Counted(task, pkt, traffic.delivered, done)
  }

  ghost predicate DoneDue(task: Task, done: set<Dpid>)
    requires task.tree.Valid()
  {
    forall v :: v in done ==> v in task.tree.infos && Due(task, v, done)
  }

  ghost predicate AllOnWay(task: Task, pkt: Packet, flight: seq<Copy>, done: set<Dpid>)
    requires task.tree.Valid()
  {
    forall k :: 0 <= k < |flight| ==> OnItsWay(task, pkt, flight[k], done)
  }

  /** No switch has two copies on their way. */
  ghost predicate OneEach(flight: seq<Copy>) {
    forall j, k :: 0 <= j < k < |flight| ==> flight[j].at.sw != flight[k].at.sw
  }

  /** Every due switch has acted or has its copy on the way. */
  ghost predicate Complete(task: Task, pkt: Packet, flight: seq<Copy>, done: set<Dpid>)
    requires task.tree.Valid()
  {
    forall v :: v in task.tree.infos && Due(task, v, done) && v !in done ==> Entering(task, pkt, v) in flight
  }

  ghost predicate Counted(task: Task, pkt: Packet, delivered: seq<Copy>, done: set<Dpid>) {
    forall c :: multiset(delivered)[c] == Expected(task, pkt, done, c)
  }

  /** The copy is about to enter a switch that is due and has not acted. */
  ghost predicate OnItsWay(task: Task, pkt: Packet, copy: Copy, done: set<Dpid>)
    requires task.tree.Valid()
  {
    var v := copy.at.sw;
    v in task.tree.infos && v !in done && copy == Entering(task, pkt, v) && Due(task, v, done)
  }

  /** The switch before `v` has acted, or `v` is the root. */
  ghost predicate Due(task: Task, v: Dpid, done: set<Dpid>)
    requires v in task.tree.infos && task.tree.Valid()
  {
    v == task.tree.root || task.tree.infos[v].former.value in done
  }

  /** How many copies a place has got once the switches in `done` have acted. */
  ghost function Expected(task: Task, pkt: Packet, done: set<Dpid>, c: Copy): nat {
    if c.at.sw in done && c.at.sw in task.tree.infos && c.at.port in task.Members(c.at.sw) && c.pkt == pkt then 1 else 0
  }

  /** Only the entry of the tree fires at a switch of the tree. */
  lemma TreeFires(task: Task, tables: Tables, pkt: Packet, v: Dpid, m: Match)
    requires task.Deployed(tables) && v in task.tree.infos && pkt.src == task.src && pkt.dst == task.group
    ensures Fires(tables, v, task.InPort(v), pkt, m) <==> m == OnPort(task.InPort(v), task.src, task.group)
    ensures task.Has(tables, v)
  {
  }

  /** What happens when the switch that copy `i` enters acts. */
  ghost predicate Moves(task: Task, pkt: Packet, before: Traffic, after: Traffic, i: nat, v: Dpid, sent: seq<Copy>,
                        handed: seq<Copy>) {
    && i < |before.flight| && v == before.flight[i].at.sw && v in task.tree.infos
    && Sends(task, v, pkt, sent, handed)
    && after == Traffic(before.flight[..i] + before.flight[i + 1..] + sent, before.delivered + handed)
  }

  lemma ActsMoves(task: Task, tables: Tables, pkt: Packet, before: Traffic, after: Traffic, done: set<Dpid>, i: nat)
    returns (v: Dpid, sent: seq<Copy>, handed: seq<Copy>)
    requires task.Valid() && task.Deployed(tables) && pkt.src == task.src && pkt.dst == task.group
    requires Spread(task, pkt, before, done) && Acts(task.f, tables, before, after, i)
    ensures Moves(task, pkt, before, after, i, v, sent, handed)
  {
    var copy := before.flight[i];
    v := copy.at.sw;
    assert OnItsWay(task, pkt, copy, done);
    var m := OnPort(task.InPort(v), task.src, task.group);
    TreeFires(task, tables, pkt, v, m);
    assert Fires(tables, copy.at.sw, copy.at.port, copy.pkt, m);
    forall m' | Fires(tables, copy.at.sw, copy.at.port, copy.pkt, m')
      ensures m' == m
    {
      TreeFires(task, tables, pkt, v, m');
    }
    SwitchSends(task, v, pkt);
    sent := Forwarded(task.f, v, task.InPort(v), pkt, task.OutPorts(v));
    handed := Handed(task.f, v, task.InPort(v), pkt, task.OutPorts(v));
  }

  /** The next switches of one that is only now acting were not due before. */
  lemma NextNotDue(task: Task, done: set<Dpid>, v: Dpid, c: Dpid)
    requires task.tree.Valid() && DoneDue(task, done) && v in task.tree.infos && v !in done
    requires c in task.tree.infos[v].next
    ensures c in task.tree.infos && c != task.tree.root && task.tree.infos[c].former == Some(v)
    ensures !Due(task, c, done) && c !in done && c != v
  {
    var k :| 0 <= k < |task.tree.infos[v].next| && task.tree.infos[v].next[k] == c;
    assert task.tree.Child(v, c);
    NoWayBack(task, v, c);
  }

  /** The copies that stay in flight. */
  lemma StillOnWay(task: Task, pkt: Packet, flight: seq<Copy>, done: set<Dpid>, i: nat)
    requires task.tree.Valid() && AllOnWay(task, pkt, flight, done) && OneEach(flight) && i < |flight|
    ensures var rest := flight[..i] + flight[i + 1..]; var v := flight[i].at.sw;
      && AllOnWay(task, pkt, rest, done + {v}) && AllOnWay(task, pkt, rest, done) && OneEach(rest)
  {
    var rest, v := flight[..i] + flight[i + 1..], flight[i].at.sw;
    StillOneEach(flight, rest, i);
    forall k | 0 <= k < |rest|
      ensures OnItsWay(task, pkt, rest[k], done + {v}) && OnItsWay(task, pkt, rest[k], done)
    {
      var o := if k < i then k else k + 1;
      assert rest[k] == flight[o] && OnItsWay(task, pkt, flight[o], done);
    }
  }

  lemma StillOneEach(flight: seq<Copy>, rest: seq<Copy>, i: nat)
    requires OneEach(flight) && i < |flight| && rest == flight[..i] + flight[i + 1..]
    ensures OneEach(rest) && forall k :: 0 <= k < |rest| ==> rest[k].at.sw != flight[i].at.sw
  {
    forall k | 0 <= k < |rest|
      ensures rest[k] == flight[if k < i then k else k + 1]
    {
    }
  }

  /** The copies just sent. */
  lemma SentOnWay(task: Task, pkt: Packet, done: set<Dpid>, v: Dpid, sent: seq<Copy>, handed: seq<Copy>)
    requires task.tree.Valid() && DoneDue(task, done) && v in task.tree.infos && v !in done
    requires Sends(task, v, pkt, sent, handed)
    ensures AllOnWay(task, pkt, sent, done + {v}) && OneEach(sent)
    ensures forall k :: 0 <= k < |sent| ==> !Due(task, sent[k].at.sw, done)
  {
    forall k | 0 <= k < |sent|
      ensures OnItsWay(task, pkt, sent[k], done + {v}) && !Due(task, sent[k].at.sw, done)
    {
      NextNotDue(task, done, v, task.tree.infos[v].next[k]);
    }
    assert NoRepeats(task.tree.infos[v].next);
  }

  lemma BothOnWay(task: Task, pkt: Packet, rest: seq<Copy>, sent: seq<Copy>, done: set<Dpid>, done': set<Dpid>)
    requires task.tree.Valid() && AllOnWay(task, pkt, rest, done) && OneEach(rest) && OneEach(sent)
    requires AllOnWay(task, pkt, rest, done') && AllOnWay(task, pkt, sent, done')
    requires forall k :: 0 <= k < |sent| ==> !Due(task, sent[k].at.sw, done)
    ensures AllOnWay(task, pkt, rest + sent, done') && OneEach(rest + sent)
  {
    forall j, k | 0 <= j < |rest| && 0 <= k < |sent|
      ensures rest[j].at.sw != sent[k].at.sw
    {
      assert OnItsWay(task, pkt, rest[j], done);
    }
  }

  /** Every due switch has acted or has its copy on the way, after the move too. */
  lemma MoveDue(task: Task, pkt: Packet, flight: seq<Copy>, done: set<Dpid>, i: nat, v: Dpid, sent: seq<Copy>,
                handed: seq<Copy>)
    requires task.tree.Valid() && Complete(task, pkt, flight, done) && i < |flight| && v == flight[i].at.sw
    requires v in task.tree.infos && Sends(task, v, pkt, sent, handed)
    ensures Complete(task, pkt, flight[..i] + flight[i + 1..] + sent, done + {v})
  {
    forall w | w in task.tree.infos && Due(task, w, done + {v}) && w !in done + {v}
      ensures Entering(task, pkt, w) in flight[..i] + flight[i + 1..] + sent
    {
      if Due(task, w, done) {
        var k :| 0 <= k < |flight| && flight[k] == Entering(task, pkt, w);
        assert k != i;
        assert k < i ==> flight[k] in flight[..i];
        assert k > i ==> flight[k] in flight[i + 1..];
      } else {
        assert task.tree.Child(v, w);
        var x :| 0 <= x < |task.tree.infos[v].next| && task.tree.infos[v].next[x] == w;
        assert sent[x] in sent;
      }
    }
  }

  lemma MoveCounted(task: Task, pkt: Packet, delivered: seq<Copy>, done: set<Dpid>, v: Dpid, sent: seq<Copy>,
                    handed: seq<Copy>)
    requires Counted(task, pkt, delivered, done) && v in task.tree.infos && v !in done
    requires Sends(task, v, pkt, sent, handed)
    ensures Counted(task, pkt, delivered + handed, done + {v})
  {
    forall c
      ensures multiset(delivered + handed)[c] == Expected(task, pkt, done + {v}, c)
    {
      OncePerPort(v, pkt, task.Members(v), handed, c);
      assert multiset(delivered + handed)[c] == multiset(delivered)[c] + multiset(handed)[c];
    }
  }

  /** Copies at different ports: one each. */
  lemma {:induction false} OncePerPort(v: Dpid, pkt: Packet, ports: seq<Port>, handed: seq<Copy>, c: Copy)
    requires NoRepeats(ports) && |handed| == |ports|
    requires forall x :: 0 <= x < |handed| ==> handed[x] == Copy(Plug(v, ports[x]), pkt)
    ensures multiset(handed)[c] == if c.at.sw == v && c.at.port in ports && c.pkt == pkt then 1 else 0
  {
    if ports != [] {
      var n := |ports| - 1;
      OncePerPort(v, pkt, ports[..n], handed[..n], c);
      assert ports == ports[..n] + [ports[n]] && handed == handed[..n] + [handed[n]];
      assert ports[n] !in ports[..n];
    }
  }

  lemma MoveSpread(task: Task, pkt: Packet, before: Traffic, after: Traffic, done: set<Dpid>, i: nat, v: Dpid,
                   sent: seq<Copy>, handed: seq<Copy>)
    requires task.tree.Valid() && Spread(task, pkt, before, done)
    requires Moves(task, pkt, before, after, i, v, sent, handed)
    ensures v in task.tree.infos && v !in done && Spread(task, pkt, after, done + {v})
  {
    assert OnItsWay(task, pkt, before.flight[i], done);
    StillOnWay(task, pkt, before.flight, done, i);
    SentOnWay(task, pkt, done, v, sent, handed);
    BothOnWay(task, pkt, before.flight[..i] + before.flight[i + 1..], sent, done, done + {v});
    MoveDue(task, pkt, before.flight, done, i, v, sent, handed);
    MoveCounted(task, pkt, before.delivered, done, v, sent, handed);
    assert DoneDue(task, done + {v});
  }

  // ---------- whole runs ----------

  /** The source's packet at the root. */
  ghost function Begin(task: Task, pkt: Packet): Traffic
    requires task.tree.Valid()
  {
    Traffic([Entering(task, pkt, task.tree.root)], [])
  }

  lemma BeginSpread(task: Task, pkt: Packet)
    requires task.tree.Valid()
    ensures Spread(task, pkt, Begin(task, pkt), {})
  {
    assert OnItsWay(task, pkt, Entering(task, pkt, task.tree.root), {});
    assert Entering(task, pkt, task.tree.root) in Begin(task, pkt).flight;
  }

  /** After `k` actions, `k` switches have acted. */
  lemma {:induction false} RunSpread(task: Task, tables: Tables, pkt: Packet, states: seq<Traffic>, k: nat)
    returns (done: set<Dpid>)
    requires task.Valid() && task.Deployed(tables) && pkt.src == task.src && pkt.dst == task.group
    requires k < |states| && Run(task.f, tables, states) && states[0] == Begin(task, pkt)
    ensures Spread(task, pkt, states[k], done) && |done| == k
  {
    if k == 0 {
      BeginSpread(task, pkt);
      done := {};
    } else {
      var before := RunSpread(task, tables, pkt, states, k - 1);
      assert SomeActs(task.f, tables, states[k - 1], states[k]);
      done := StepSpread(task, tables, pkt, states[k - 1], states[k], before);
    }
  }

  lemma StepSpread(task: Task, tables: Tables, pkt: Packet, before: Traffic, after: Traffic, done: set<Dpid>)
    returns (done': set<Dpid>)
    requires task.Valid() && task.Deployed(tables) && pkt.src == task.src && pkt.dst == task.group
    requires Spread(task, pkt, before, done) && SomeActs(task.f, tables, before, after)
    ensures Spread(task, pkt, after, done') && |done'| == |done| + 1
  {
    var i: nat :| Acts(task.f, tables, before, after, i);
    var v, sent, handed := ActsMoves(task, tables, pkt, before, after, done, i);
    MoveSpread(task, pkt, before, after, done, i, v, sent, handed);
    OneMoreSwitch(done, v);
    done' := done + {v};
  }

  lemma OneMoreSwitch(done: set<Dpid>, v: Dpid)
    requires v !in done
    ensures |done + {v}| == |done| + 1
  {
  }

  /** With nothing left in flight, every switch of the tree has acted. */
  lemma {:induction false} AllActed(task: Task, pkt: Packet, traffic: Traffic, done: set<Dpid>, y: nat)
    requires task.tree.Valid() && Spread(task, pkt, traffic, done) && traffic.flight == []
    requires y < |task.tree.order|
    ensures task.tree.order[y] in done
  {
    var order, infos := task.tree.order, task.tree.infos;
    var v := order[y];
    assert ParentFirst(order, infos, y);
    if v != task.tree.root {
      var x :| 0 <= x < y && order[x] == infos[v].former.value;
      AllActed(task, pkt, traffic, done, x);
    }
    assert Due(task, v, done);
  }

  /**
   * In every run every switch of the tree acts at most once, so the run ends; and when nothing is left in
   * flight, every member port of every end of the tree has got exactly one copy, and no other port any.
   */
  lemma EveryRunDelivers(task: Task, tables: Tables, pkt: Packet, states: seq<Traffic>)
    requires task.Valid() && task.Deployed(tables) && pkt.src == task.src && pkt.dst == task.group
    requires states != [] && Run(task.f, tables, states) && states[0] == Begin(task, pkt)
    ensures |states| - 1 <= |task.tree.infos|
    ensures var last := states[|states| - 1]; last.flight == [] ==>
      forall c :: multiset(last.delivered)[c] == Expected(task, pkt, task.tree.infos.Keys, c)
  {
    var k := |states| - 1;
    var done := RunSpread(task, tables, pkt, states, k);
    SubsetSize(done, task.tree.infos.Keys);
    if states[k].flight == [] {
      NoneLeft(task, pkt, states[k], done);
    }
  }

  lemma NoneLeft(task: Task, pkt: Packet, traffic: Traffic, done: set<Dpid>)
    requires task.tree.Valid() && Spread(task, pkt, traffic, done) && traffic.flight == []
    ensures done == task.tree.infos.Keys
  {
    forall v | v in task.tree.infos.Keys
      ensures v in done
    {
      var y :| 0 <= y < |task.tree.order| && task.tree.order[y] == v;
      AllActed(task, pkt, traffic, done, y);
    }
  }

  /** Any copy in flight can be acted on next. */
  lemma NeverStuck(f: Fabric, tables: Tables, before: Traffic, i: nat) returns (after: Traffic)
    requires i < |before.flight|
    ensures Acts(f, tables, before, after, i)
  {
    var copy := before.flight[i];
    var rest := before.flight[..i] + before.flight[i + 1..];
    if exists m :: Fires(tables, copy.at.sw, copy.at.port, copy.pkt, m) {
      var m :| Fires(tables, copy.at.sw, copy.at.port, copy.pkt, m);
      var action := tables[Slot(copy.at.sw, m)];
      var pkt := Rewritten(action.rewrite, copy.pkt);
      after := Traffic(rest + Forwarded(f, copy.at.sw, copy.at.port, pkt, action.outputs),
                       before.delivered + Handed(f, copy.at.sw, copy.at.port, pkt, action.outputs));
    } else {
      after := Traffic(rest, before.delivered);
    }
  }

  /** A run that begins with the packet of a source, under the entries of the deployed tree. */
  ghost predicate Started(task: Task, tables: Tables, pkt: Packet, states: seq<Traffic>) {
    && task.Valid() && task.Deployed(tables) && pkt.src == task.src && pkt.dst == task.group
    && states != [] && Run(task.f, tables, states) && states[0] == Begin(task, pkt)
  }

  lemma GoesOn(task: Task, tables: Tables, pkt: Packet, states: seq<Traffic>) returns (next: Traffic)
    requires Started(task, tables, pkt, states) && states[|states| - 1].flight != []
    ensures Started(task, tables, pkt, states + [next]) && |states| <= |task.tree.infos|
  {
    next := NeverStuck(task.f, tables, states[|states| - 1], 0);
    assert SomeActs(task.f, tables, states[|states| - 1], next);
    RunMore(task.f, tables, states, next);
    EveryRunDelivers(task, tables, pkt, states + [next]);
  }

  /** However a run has begun, it goes on until nothing is left in flight. */
  lemma {:induction false} RunCompletes(task: Task, tables: Tables, pkt: Packet, states: seq<Traffic>)
    returns (more: seq<Traffic>)
    requires Started(task, tables, pkt, states)
    ensures Started(task, tables, pkt, states + more) && (states + more)[|states + more| - 1].flight == []
    decreases |task.tree.infos| + 1 - |states|
  {
    if states[|states| - 1].flight == [] {
      assert states + [] == states;
      more := [];
    } else {
      var next := GoesOn(task, tables, pkt, states);
      var rest := RunCompletes(task, tables, pkt, states + [next]);
      Regrouped(states, next, rest);
      more := [next] + rest;
    }
  }

  lemma Regrouped(states: seq<Traffic>, next: Traffic, rest: seq<Traffic>)
    ensures states + ([next] + rest) == states + [next] + rest
  {
  }

  lemma RunMore(f: Fabric, tables: Tables, states: seq<Traffic>, next: Traffic)
    requires states != [] && Run(f, tables, states) && SomeActs(f, tables, states[|states| - 1], next)
    ensures Run(f, tables, states + [next])
  {
  }
}
