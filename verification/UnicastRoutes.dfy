/** `RouteTaskEntry.deploy_flow_table`: a path between two hosts becomes flow entries in both directions. */
module UnicastRoutes {
  import opened Walks
  import opened FlowTables

  /** Where the entry of switch `i` for packets towards the destination sits. */
  function AheadSlot(f: Fabric, line: Line, src: Ip, dst: Ip, i: nat): Slot
    requires i < |line.path|
  {
    Slot(line.path[i], OnPort(line.Back(f, i), src, dst))
  }

  /** Where the entry of switch `i` for the replies sits. */
  function BackSlot(f: Fabric, line: Line, src: Ip, dst: Ip, i: nat): Slot
    requires i < |line.path|
  {
    Slot(line.path[i], OnPort(line.Ahead(f, i), dst, src))
  }

  ghost predicate HasAhead(f: Fabric, tables: Tables, line: Line, src: Ip, dst: Ip, i: nat)
    requires line.Valid(f) && i < |line.path|
  {
    var slot := AheadSlot(f, line, src, dst, i);
    slot in tables && tables[slot] == Action(Keep, [line.Ahead(f, i)])
  }

  ghost predicate HasBack(f: Fabric, tables: Tables, line: Line, src: Ip, dst: Ip, i: nat)
    requires line.Valid(f) && i < |line.path|
  {
    var slot := BackSlot(f, line, src, dst, i);
    slot in tables && tables[slot] == Action(Keep, [line.Back(f, i)])
  }

  /** Every switch of the line has its entry in either direction. */
  ghost predicate Routed(f: Fabric, tables: Tables, line: Line, src: Ip, dst: Ip)
    requires line.Valid(f)
  {
    forall i :: 0 <= i < |line.path| ==>
      HasAhead(f, tables, line, src, dst, i) && HasBack(f, tables, line, src, dst, i)
  }

  /** The entry at a slot, if any. */
  function At(tables: Tables, slot: Slot): Option<Action> {
    if slot in tables then Some(tables[slot]) else None
  }

  /** Only entries for the pair of addresses, on an exact port, may differ. */
  ghost predicate OnlyPair(before: Tables, after: Tables, src: Ip, dst: Ip) {
    forall s: Slot :: At(after, s) == At(before, s) || IsPair(s.match_, src, dst)
  }

  predicate IsPair(m: Match, src: Ip, dst: Ip) {
    m.OnPort? && ((m.src == src && m.dst == dst) || (m.src == dst && m.dst == src))
  }

  /** How far the installation has come: which entries are there, and that nothing else has changed. */
  ghost predicate Progress(f: Fabric, start: Tables, tables: Tables, line: Line, src: Ip, dst: Ip,
                           ahead: set<nat>, back: set<nat>)
    requires line.Valid(f)
  {
    && OnlyPair(start, tables, src, dst)
    && (forall i :: i in ahead && i < |line.path| ==> HasAhead(f, tables, line, src, dst, i))
    && (forall i :: i in back && i < |line.path| ==> HasBack(f, tables, line, src, dst, i))
  }

  /** Adding the entry of switch `n` towards the destination. */
  lemma AddAhead(f: Fabric, start: Tables, before: Tables, after: Tables, line: Line, src: Ip, dst: Ip,
                 ahead: set<nat>, back: set<nat>, n: nat)
    requires line.Valid(f) && n < |line.path| && Progress(f, start, before, line, src, dst, ahead, back)
    requires after == before[AheadSlot(f, line, src, dst, n) := Action(Keep, [line.Ahead(f, n)])]
    ensures Progress(f, start, after, line, src, dst, ahead + {n}, back)
  {
    Neighbours(f, line, n);
    forall i | i in ahead + {n} && i < |line.path|
      ensures HasAhead(f, after, line, src, dst, i)
    {
      Neighbours(f, line, i);
      assert i != n ==> line.path[i] != line.path[n];
    }
    forall i | i in back && i < |line.path|
      ensures HasBack(f, after, line, src, dst, i)
    {
      Neighbours(f, line, i);
      assert i != n ==> line.path[i] != line.path[n];
    }
  }

  /** Adding the entry of switch `n` for the replies. */
  lemma AddBack(f: Fabric, start: Tables, before: Tables, after: Tables, line: Line, src: Ip, dst: Ip,
                ahead: set<nat>, back: set<nat>, n: nat)
    requires line.Valid(f) && n < |line.path| && Progress(f, start, before, line, src, dst, ahead, back)
    requires after == before[BackSlot(f, line, src, dst, n) := Action(Keep, [line.Back(f, n)])]
    ensures Progress(f, start, after, line, src, dst, ahead, back + {n})
  {
    Neighbours(f, line, n);
    forall i | i in ahead && i < |line.path|
      ensures HasAhead(f, after, line, src, dst, i)
    {
      Neighbours(f, line, i);
      assert i != n ==> line.path[i] != line.path[n];
    }
    forall i | i in back + {n} && i < |line.path|
      ensures HasBack(f, after, line, src, dst, i)
    {
      Neighbours(f, line, i);
      assert i != n ==> line.path[i] != line.path[n];
    }
  }

  /** A task of the route queue: two hosts, their switch ports and the network to deploy to. */
  class RouteTask {
    const net: Network
    const srcIp: Ip
    const dstIp: Ip
    const srcPort: Port
    const dstPort: Port
    ghost var ahead: set<nat>
    ghost var back: set<nat>

    constructor (net: Network, srcIp: Ip, srcPort: Port, dstIp: Ip, dstPort: Port)
      ensures this.net == net && this.srcIp == srcIp && this.srcPort == srcPort
      ensures this.dstIp == dstIp && this.dstPort == dstPort
    {
      this.net, this.srcIp, this.srcPort, this.dstIp, this.dstPort := net, srcIp, srcPort, dstIp, dstPort;
      ahead, back := {}, {};
    }

    /** The flow-mod towards the destination at switch `n` of the path. */
    method Ahead(path: seq<Dpid>, n: nat, ghost start: Tables)
      requires Line(path, srcPort, dstPort).Valid(net.fabric) && n < |path|
      requires Progress(net.fabric, start, net.tables, Line(path, srcPort, dstPort), srcIp, dstIp, ahead, back)
      modifies net, this
      ensures Progress(net.fabric, start, net.tables, Line(path, srcPort, dstPort), srcIp, dstIp, ahead, back)
      ensures ahead == old(ahead) + {n} && back == old(back)
    {
      var line := Line(path, srcPort, dstPort);
      Neighbours(net.fabric, line, n);
      ghost var before := net.tables;
      net.FlowMod(path[n], OnPort(line.Back(net.fabric, n), srcIp, dstIp), Keep, [line.Ahead(net.fabric, n)]);
      AddAhead(net.fabric, start, before, net.tables, line, srcIp, dstIp, ahead, back, n);
      ahead := ahead + {n};
    }

    /** The flow-mod for the replies at switch `n` of the path. */
    method Back(path: seq<Dpid>, n: nat, ghost start: Tables)
      requires Line(path, srcPort, dstPort).Valid(net.fabric) && n < |path|
      requires Progress(net.fabric, start, net.tables, Line(path, srcPort, dstPort), srcIp, dstIp, ahead, back)
      modifies net, this
      ensures Progress(net.fabric, start, net.tables, Line(path, srcPort, dstPort), srcIp, dstIp, ahead, back)
      ensures ahead == old(ahead) && back == old(back) + {n}
    {
      var line := Line(path, srcPort, dstPort);
      Neighbours(net.fabric, line, n);
      ghost var before := net.tables;
      net.FlowMod(path[n], OnPort(line.Ahead(net.fabric, n), dstIp, srcIp), Keep, [line.Back(net.fabric, n)]);
      AddBack(net.fabric, start, before, net.tables, line, srcIp, dstIp, ahead, back, n);
      back := back + {n};
    }

    /** Deploys a path of any length; the order of the flow-mods is the source's. */
    method DeployFlowTable(path: seq<Dpid>) returns (ok: bool)
      requires path != [] ==> Line(path, srcPort, dstPort).Valid(net.fabric)
      modifies net, this
      ensures ok <==> path != []
      ensures !ok ==> net.tables == old(net.tables)
      ensures ok ==> Routed(net.fabric, net.tables, Line(path, srcPort, dstPort), srcIp, dstIp)
      ensures ok ==> OnlyPair(old(net.tables), net.tables, srcIp, dstIp)
    {
      ghost var start := net.tables;
      ahead, back := {}, {};
      if |path| == 1 {
        Back(path, 0, start);
        Ahead(path, 0, start);
        return true;
      } else if |path| > 1 {
        if |path| == 2 {
          Back(path, 1, start);
          Ahead(path, 1, start);
          Back(path, 0, start);
          Ahead(path, 0, start);
          return true;
        }
        DeployLong(path, start);
        return true;
      } else {
        return false;
      }
    }

    /** Paths of three switches or more: the entries that end at the two hosts come last. */
    method DeployLong(path: seq<Dpid>, ghost start: Tables)
      requires |path| > 2 && Line(path, srcPort, dstPort).Valid(net.fabric)
      requires Progress(net.fabric, start, net.tables, Line(path, srcPort, dstPort), srcIp, dstIp, ahead, back)
      modifies net, this
      ensures Progress(net.fabric, start, net.tables, Line(path, srcPort, dstPort), srcIp, dstIp, ahead, back)
      ensures forall i: nat :: i < |path| ==> i in ahead && i in back
    {
      ghost var line := Line(path, srcPort, dstPort);
      for num := 0 to |path|
        invariant Progress(net.fabric, start, net.tables, line, srcIp, dstIp, ahead, back)
        invariant forall i: nat :: i < num && i < |path| - 1 ==> i in ahead
        invariant forall i: nat :: 0 < i < num ==> i in back
      {
        if num == 0 {
          Ahead(path, num, start);
          continue;
        }
        if num == |path| - 1 {
          Back(path, num, start);
          continue;
        }
        Ahead(path, num, start);
        Back(path, num, start);
      }
      Ahead(path, |path| - 1, start);
      Back(path, 0, start);
    }
  }

  // ---------- what the entries do ----------

  /** The switches from `n` up to `e` relay the pair of addresses towards the destination. */
  ghost predicate Relays(f: Fabric, tables: Tables, line: Line, src: Ip, dst: Ip, n: nat, e: nat)
    requires line.Valid(f) && e <= |line.path|
  {
    forall i :: n <= i < e ==>
      HasAhead(f, tables, line, src, dst, i) && Slot(line.path[i], AnyPort(src, dst)) !in tables
  }

  /** A relaying switch hands the packet to the next one of the line, which decides what becomes of it. */
  lemma RelayStep(f: Fabric, tables: Tables, line: Line, src: Ip, dst: Ip, n: nat, pkt: Packet, outPort: Port,
                  result: Packet)
    requires line.Valid(f) && n + 1 < |line.path| && Relays(f, tables, line, src, dst, n, n + 1)
    requires pkt.src == src && pkt.dst == dst
    ensures Delivers(f, tables, line.path[n..], line.Back(f, n), pkt, outPort, result) <==>
            Delivers(f, tables, line.path[n + 1..], line.Back(f, n + 1), pkt, outPort, result)
  {
    Neighbours(f, line, n);
    var trace, inPort := line.path[n..], line.Back(f, n);
    var m := OnPort(inPort, src, dst);
    assert HasAhead(f, tables, line, src, dst, n);
    assert Fires(tables, trace[0], inPort, pkt, m);
    assert trace[1..] == line.path[n + 1..];
    assert DeliversBy(f, tables, trace, inPort, pkt, outPort, result, m) <==>
      Delivers(f, tables, line.path[n + 1..], line.Back(f, n + 1), pkt, outPort, result);
    assert forall m' :: DeliversBy(f, tables, trace, inPort, pkt, outPort, result, m') ==> m' == m;
  }

  /** Relayed from switch `n` to switch `e`, a packet fares as it does from `e` on. */
  lemma {:induction false} RelayOnto(f: Fabric, tables: Tables, line: Line, src: Ip, dst: Ip, n: nat, e: nat,
                                     pkt: Packet, outPort: Port, result: Packet)
    requires line.Valid(f) && n <= e < |line.path| && Relays(f, tables, line, src, dst, n, e)
    requires pkt.src == src && pkt.dst == dst
    ensures Delivers(f, tables, line.path[n..], line.Back(f, n), pkt, outPort, result) <==>
            Delivers(f, tables, line.path[e..], line.Back(f, e), pkt, outPort, result)
    decreases e - n
  {
    if n < e {
      Neighbours(f, line, n + 1);
      RelayStep(f, tables, line, src, dst, n, pkt, outPort, result);
      RelayOnto(f, tables, line, src, dst, n + 1, e, pkt, outPort, result);
    }
  }

  /** Relayed by every switch from `n` on, a packet crosses the rest of the line and leaves at its end. */
  lemma Relay(f: Fabric, tables: Tables, line: Line, src: Ip, dst: Ip, n: nat, pkt: Packet)
    requires line.Valid(f) && n < |line.path| && Relays(f, tables, line, src, dst, n, |line.path|)
    requires pkt.src == src && pkt.dst == dst
    ensures Delivers(f, tables, line.path[n..], line.Back(f, n), pkt, line.dstPort, pkt)
  {
    var e := |line.path| - 1;
    Neighbours(f, line, e);
    assert HasAhead(f, tables, line, src, dst, e);
    var m := OnPort(line.Back(f, e), src, dst);
    assert line.path[e..] == [line.path[e]];
    assert DeliversBy(f, tables, line.path[e..], line.Back(f, e), pkt, line.dstPort, pkt, m);
    RelayOnto(f, tables, line, src, dst, n, e, pkt, line.dstPort, pkt);
  }

  /** Reply entries of a line are the forward entries of the reversed line. */
  lemma ReplyRelays(f: Fabric, tables: Tables, line: Line, src: Ip, dst: Ip)
    requires line.Valid(f) && Routed(f, tables, line, src, dst)
    requires forall i :: 0 <= i < |line.path| ==> Slot(line.path[i], AnyPort(dst, src)) !in tables
    ensures line.Reversed().Valid(f) && |line.Reversed().path| == |line.path|
    ensures Relays(f, tables, line.Reversed(), dst, src, 0, |line.path|)
  {
    ReversedValid(f, line);
    var r, n := line.Reversed(), |line.path|;
    forall i | 0 <= i < n
      ensures HasAhead(f, tables, r, dst, src, i) && Slot(r.path[i], AnyPort(dst, src)) !in tables
    {
      ReversedPorts(f, line, i);
      assert HasBack(f, tables, line, src, dst, n - 1 - i);
    }
  }

  /**
   * The deployed entries carry a packet of the source over exactly the path to the destination's port,
   * and a reply back over exactly the reversed path to the source's port.
   */
  lemma RoutedDelivers(f: Fabric, tables: Tables, line: Line, src: Ip, dst: Ip, pkt: Packet, reply: Packet)
    requires line.Valid(f) && Routed(f, tables, line, src, dst)
    requires forall i :: 0 <= i < |line.path| ==>
      Slot(line.path[i], AnyPort(src, dst)) !in tables && Slot(line.path[i], AnyPort(dst, src)) !in tables
    requires pkt.src == src && pkt.dst == dst && reply.src == dst && reply.dst == src
    ensures Delivers(f, tables, line.path, line.srcPort, pkt, line.dstPort, pkt)
    ensures Delivers(f, tables, line.Reversed().path, line.dstPort, reply, line.srcPort, reply)
  {
    Relay(f, tables, line, src, dst, 0, pkt);
    assert line.path[0..] == line.path;
    ReplyRelays(f, tables, line, src, dst);
    var r := line.Reversed();
    Relay(f, tables, r, dst, src, 0, reply);
    assert r.path[0..] == r.path;
  }
}
