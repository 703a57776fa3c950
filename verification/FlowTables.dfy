/**
 * Flow tables and what they do to packets: the semantics the deployment code compiles paths into.
 */
module FlowTables {
  import opened Walks

  type Dpid = nat
  type Port = nat
  type Ip = nat
  type Mac = nat

  /** The header fields the flow entries look at or rewrite. */
  datatype Packet = Packet(src: Ip, dst: Ip, ethSrc: Mac, ethDst: Mac, tcp: bool, tcpSrc: nat, tcpDst: nat, ttl: nat)

  /** Either an exact in-port with the two addresses, or TCP between the two addresses on any port. */
  datatype Match =
    | OnPort(inPort: Port, src: Ip, dst: Ip)
    | AnyPort(src: Ip, dst: Ip)

  /** What is done to a matching packet before it is sent out. */
  datatype Rewrite =
    | Keep
    | ToServer(server: Ip, serverMac: Mac, tcpPort: nat)
    | FromGateway(gateway: Ip, gatewayMac: Mac, userMac: Mac, tcpPort: nat)

  datatype Action = Action(rewrite: Rewrite, outputs: seq<Port>)

  /** Where an entry sits. All route entries have the same priority, so a flow-mod with the same switch and
      match replaces the entry that was there. */
  datatype Slot = Slot(sw: Dpid, match_: Match)

  type Tables = map<Slot, Action>

  predicate Covers(m: Match, inPort: Port, pkt: Packet) {
    match m
    case OnPort(p, src, dst) => p == inPort && src == pkt.src && dst == pkt.dst
    case AnyPort(src, dst) => pkt.tcp && src == pkt.src && dst == pkt.dst
  }

  function Rewritten(r: Rewrite, pkt: Packet): Packet {
    match r
    case Keep => pkt
    case ToServer(server, mac, port) =>
      pkt.(ttl := if pkt.ttl == 0 then 0 else pkt.ttl - 1, tcpDst := port, dst := server, ethDst := mac)
    case FromGateway(gateway, gatewayMac, userMac, port) =>
      pkt.(ttl := if pkt.ttl == 0 then 0 else pkt.ttl - 1, tcpSrc := port, src := gateway, ethSrc := gatewayMac,
           ethDst := userMac)
  }

  /** Entry `m` of switch `sw` matches the packet, and no other entry of that switch does. */
  ghost predicate Fires(tables: Tables, sw: Dpid, inPort: Port, pkt: Packet, m: Match) {
    && Slot(sw, m) in tables && Covers(m, inPort, pkt)
    && forall m' :: Slot(sw, m') in tables && Covers(m', inPort, pkt) ==> m' == m
  }

  /** The cabling between switches, and the controller's record of the first port to each neighbour. */
  datatype Fabric = Fabric(links: map<Plug, Plug>, neighbours: map<Dpid, map<Dpid, seq<Port>>>) {

    predicate Knows(u: Dpid, v: Dpid) {
      u in neighbours && v in neighbours[u] && neighbours[u][v] != []
    }

    /** `switch.neighbors[v][0]`; only looked at between switches that know each other. */
    function PortTo(u: Dpid, v: Dpid): Port {
      if Knows(u, v) then neighbours[u][v][0] else 0
    }

    predicate HostPort(u: Dpid, p: Port) {
      Plug(u, p) !in links
    }

    /** The first ports of two neighbours are the two ends of one cable. */
    predicate Paired(u: Dpid, v: Dpid) {
      && Knows(u, v) && Knows(v, u)
      && Plug(u, PortTo(u, v)) in links && links[Plug(u, PortTo(u, v))] == Plug(v, PortTo(v, u))
      && Plug(v, PortTo(v, u)) in links && links[Plug(v, PortTo(v, u))] == Plug(u, PortTo(u, v))
    }
  }

  /**
   * The packet `pkt`, coming in at `inPort` of the first switch of `trace`, passes exactly the switches of
   * `trace` and leaves the last one at the host port `outPort` as `result`. A switch never sends a packet
   * back out of the port it came in by.
   */
  ghost predicate Delivers(f: Fabric, tables: Tables, trace: seq<Dpid>, inPort: Port, pkt: Packet, outPort: Port,
                           result: Packet)
    decreases |trace|
  {
    trace != [] && exists m: Match :: DeliversBy(f, tables, trace, inPort, pkt, outPort, result, m)
  }

  ghost predicate DeliversBy(f: Fabric, tables: Tables, trace: seq<Dpid>, inPort: Port, pkt: Packet, outPort: Port,
                             result: Packet, m: Match)
    requires trace != []
    decreases |trace|, 0
  {
    && Fires(tables, trace[0], inPort, pkt, m)
    && var action := tables[Slot(trace[0], m)];
    && (action.rewrite != Keep ==> pkt.ttl > 1)
    && |action.outputs| == 1 && action.outputs[0] != inPort
    && var next := Rewritten(action.rewrite, pkt); var plug := Plug(trace[0], action.outputs[0]);
    if |trace| == 1 then f.HostPort(plug.sw, plug.port) && plug.port == outPort && next == result
    else plug in f.links && f.links[plug].sw == trace[1] &&
         Delivers(f, tables, trace[1..], f.links[plug].port, next, outPort, result)
  }

  /** One flow-mod: where it writes, and what. */
  datatype Mod = Mod(slot: Slot, action: Action)

  /** The tables after a sequence of flow-mods. */
  ghost function Applied(start: Tables, mods: seq<Mod>): Tables {
    if mods == [] then start
    else var last := mods[|mods| - 1]; Applied(start, mods[..|mods| - 1])[last.slot := last.action]
  }

  lemma AppliedMore(start: Tables, mods: seq<Mod>, mod: Mod)
    ensures Applied(start, mods + [mod]) == Applied(start, mods)[mod.slot := mod.action]
  {
    assert (mods + [mod])[..|mods|] == mods;
  }

  /** The switches' tables, changed by one flow-mod at a time; `mods` keeps all of them, in order. */
  class Network {
    const fabric: Fabric
    var tables: Tables
    ghost var mods: seq<Mod>

    constructor (fabric: Fabric)
      ensures this.fabric == fabric && tables == map[] && mods == []
    {
      this.fabric, tables, mods := fabric, map[], [];
    }

    /** `OFPFC_ADD` of one entry. */
    method FlowMod(sw: Dpid, m: Match, rewrite: Rewrite, outputs: seq<Port>)
      modifies this
      ensures tables == old(tables)[Slot(sw, m) := Action(rewrite, outputs)]
      ensures mods == old(mods) + [Mod(Slot(sw, m), Action(rewrite, outputs))]
    {
      tables := tables[Slot(sw, m) := Action(rewrite, outputs)];
      mods := mods + [Mod(Slot(sw, m), Action(rewrite, outputs))];
    }
  }

  // ---------- the entries along a path ----------

  /** A path through the fabric with the host ports at its two ends. */
  datatype Line = Line(path: seq<Dpid>, srcPort: Port, dstPort: Port) {

    /** The port of switch `i` towards the source. */
    function Back(f: Fabric, i: nat): Port
      requires i < |path|
    {
      if i == 0 then srcPort else f.PortTo(path[i], path[i - 1])
    }

    /** The port of switch `i` towards the destination. */
    function Ahead(f: Fabric, i: nat): Port
      requires i < |path|
    {
      if i + 1 == |path| then dstPort else f.PortTo(path[i], path[i + 1])
    }

    /** Loop-free, cabled between neighbours, with hosts at both ends. */
    ghost predicate Valid(f: Fabric) {
      && path != [] && NoRepeats(path)
      && (forall i :: 0 <= i < |path| - 1 ==> f.Paired(path[i], path[i + 1]))
      && f.HostPort(path[0], srcPort) && f.HostPort(path[|path| - 1], dstPort)
      && (|path| == 1 ==> srcPort != dstPort)
    }

    /** The same path seen from the other end. */
    ghost function Reversed(): Line {
      Line(seq(|path|, i requires 0 <= i < |path| => path[|path| - 1 - i]), dstPort, srcPort)
    }
  }

  lemma ReversedValid(f: Fabric, line: Line)
    requires line.Valid(f)
    ensures line.Reversed().Valid(f)
  {
    var r, n := line.Reversed(), |line.path|;
    forall i | 0 <= i < n - 1
      ensures f.Paired(r.path[i], r.path[i + 1])
    {
      assert f.Paired(line.path[n - 2 - i], line.path[n - 1 - i]);
    }
  }

  /** The cables of switch `i` of a valid line, and that its two ports differ. */
  lemma Neighbours(f: Fabric, line: Line, i: nat)
    requires line.Valid(f) && i < |line.path|
    ensures i > 0 ==> f.Paired(line.path[i - 1], line.path[i])
    ensures i + 1 < |line.path| ==> f.Paired(line.path[i], line.path[i + 1])
    ensures line.Back(f, i) != line.Ahead(f, i)
  {
    if i > 0 {
      assert f.Paired(line.path[i - 1], line.path[i]);
    }
    if i + 1 < |line.path| {
      assert f.Paired(line.path[i], line.path[i + 1]);
    }
  }

  /** The ports of a reversed line. */
  lemma ReversedPorts(f: Fabric, line: Line, i: nat)
    requires i < |line.path|
    ensures |line.Reversed().path| == |line.path|
    ensures line.Reversed().Back(f, i) == line.Ahead(f, |line.path| - 1 - i)
    ensures line.Reversed().Ahead(f, i) == line.Back(f, |line.path| - 1 - i)
  {
  }
}
