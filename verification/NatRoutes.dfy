/**
 * `NATRouteTaskEntry.deploy_flow_table`: a user talks to the gateway address, a server answers. The user's
 * access switch readdresses the packets.
 */
module NatRoutes {
  import opened Walks
  import opened FlowTables
  import opened UnicastRoutes

  const HTTP_PORT := 80

  /** A user behind `line.srcPort`, a server behind `line.dstPort`. `access` holds the ports of access
      switches that lead to users. */
  datatype Translation = Translation(
    line: Line, user: Ip, server: Ip, gateway: Ip, gatewayMac: Mac, serverMac: Mac, userMac: Mac,
    serverTcpPort: nat, access: set<Plug>) {

    /** The test the source makes at both end switches; note that it is the user's port number that is
        looked up, at the server's switch too. */
    predicate IsAccess(i: nat)
      requires i < |line.path|
    {
      |line.path| > 2 && (i == 0 || i == |line.path| - 1) && Plug(line.path[i], line.srcPort) in access
    }

    ghost predicate Valid(f: Fabric) {
      line.Valid(f) && |line.path| >= 2 && user != server && server != gateway && gateway != user
    }

    /** The entry of switch `i` that brings packets towards the server. */
    function ForwardSlot(f: Fabric, i: nat): Slot
      requires i < |line.path|
    {
      if IsAccess(i) then Slot(line.path[i], AnyPort(user, gateway)) else AheadSlot(f, line, user, server, i)
    }

    /** At the server's switch an access entry would send the packet back where it came from. */
    function ForwardAction(f: Fabric, i: nat): Action
      requires i < |line.path|
    {
      if IsAccess(i) then
        Action(ToServer(server, serverMac, serverTcpPort), [if i == 0 then line.Ahead(f, i) else line.Back(f, i)])
      else Action(Keep, [line.Ahead(f, i)])
    }

    /** The entry of switch `i` that brings the replies towards the user. */
    function ReplySlot(f: Fabric, i: nat): Slot
      requires i < |line.path|
    {
      if IsAccess(i) then Slot(line.path[i], AnyPort(server, user)) else BackSlot(f, line, user, server, i)
    }

    function ReplyAction(f: Fabric, i: nat): Action
      requires i < |line.path|
    {
      if IsAccess(i) then
        Action(FromGateway(gateway, gatewayMac, userMac, HTTP_PORT), [if i == 0 then line.srcPort else line.dstPort])
      else Action(Keep, [line.Back(f, i)])
    }

    /** The tables after the switches from the last one down to `k` have their two entries. */
    ghost function Installed(f: Fabric, start: Tables, k: nat): Tables
      requires line.Valid(f) && k <= |line.path|
      decreases |line.path| - k
    {
      if k == |line.path| then start
      else
        Installed(f, start, k + 1)[ForwardSlot(f, k) := ForwardAction(f, k)][ReplySlot(f, k) := ReplyAction(f, k)]
    }

    /** The addresses this task installs entries for. */
    predicate Concerns(m: Match) {
      || (m.src == user && m.dst == server) || (m.src == server && m.dst == user)
      || (m.src == user && m.dst == gateway)
    }

    /** No entry for these addresses is left over on the path. */
    ghost predicate Clean(tables: Tables) {
      forall i, m :: 0 <= i < |line.path| && Slot(line.path[i], m) in tables ==> !Concerns(m)
    }

    /** Every switch whose forward entry is in sends on to a switch whose forward entry is in. */
    ghost predicate Safe(f: Fabric, tables: Tables)
      requires line.Valid(f)
    {
      forall i :: 0 <= i < |line.path| - 1 ==> SafeAt(f, tables, i)
    }

    ghost predicate SafeAt(f: Fabric, tables: Tables, i: nat)
      requires line.Valid(f) && i + 1 < |line.path|
    {
      ForwardSlot(f, i) in tables ==> ForwardSlot(f, i + 1) in tables
    }
  }

  // ---------- the entries that are there ----------

  /** The entry of switch `i` for a match, if the task puts one there. */
  function EntryOf(f: Fabric, t: Translation, i: nat, m: Match): Option<Action>
    requires i < |t.line.path|
  {
    if m == t.ReplySlot(f, i).match_ then Some(t.ReplyAction(f, i))
    else if m == t.ForwardSlot(f, i).match_ then Some(t.ForwardAction(f, i))
    else None
  }

  /** For the addresses the task concerns, the path's switches hold the task's entries and nothing else. */
  lemma {:induction false} InstalledAt(f: Fabric, t: Translation, start: Tables, k: nat, i: nat, m: Match)
    requires t.Valid(f) && t.Clean(start) && k <= |t.line.path| && i < |t.line.path| && t.Concerns(m)
    ensures At(t.Installed(f, start, k), Slot(t.line.path[i], m)) ==
              if i >= k then EntryOf(f, t, i, m) else None
    decreases |t.line.path| - k
  {
    if k < |t.line.path| {
      InstalledAt(f, t, start, k + 1, i, m);
      assert i != k ==> t.line.path[i] != t.line.path[k];
      TwoMods(t.Installed(f, start, k + 1), t.ForwardSlot(f, k), t.ForwardAction(f, k),
              t.ReplySlot(f, k), t.ReplyAction(f, k), Slot(t.line.path[i], m));
    }
  }

  lemma TwoMods(tables: Tables, s1: Slot, a1: Action, s2: Slot, a2: Action, s: Slot)
    ensures At(tables[s1 := a1][s2 := a2], s) ==
            if s == s2 then Some(a2) else if s == s1 then Some(a1) else At(tables, s)
  {
  }

  /** The tables hold the task's entries, and no others for its addresses. */
  ghost predicate Holds(f: Fabric, t: Translation, tables: Tables) {
    forall i, m :: 0 <= i < |t.line.path| && t.Concerns(m) ==>
      At(tables, Slot(t.line.path[i], m)) == EntryOf(f, t, i, m)
  }

  lemma InstalledHolds(f: Fabric, t: Translation, start: Tables)
    requires t.Valid(f) && t.Clean(start)
    ensures Holds(f, t, t.Installed(f, start, 0))
  {
    forall i, m | 0 <= i < |t.line.path| && t.Concerns(m)
      ensures At(t.Installed(f, start, 0), Slot(t.line.path[i], m)) == EntryOf(f, t, i, m)
    {
      InstalledAt(f, t, start, 0, i, m);
    }
  }

  /** The two entries of a switch do not get in each other's way. */
  lemma DifferentSlots(f: Fabric, t: Translation, i: nat)
    requires t.Valid(f) && i < |t.line.path|
    ensures t.ForwardSlot(f, i) != t.ReplySlot(f, i)
    ensures t.Concerns(t.ForwardSlot(f, i).match_) && t.Concerns(t.ReplySlot(f, i).match_)
  {
  }

  /** The states between: the switches behind `k` are done, and `k` has one of its entries, or both. */
  ghost predicate Between(f: Fabric, t: Translation, start: Tables, k: nat, tables: Tables)
    requires t.line.Valid(f) && k < |t.line.path|
  {
    var behind := t.Installed(f, start, k + 1);
    || tables == behind[t.ForwardSlot(f, k) := t.ForwardAction(f, k)]
    || tables == behind[t.ReplySlot(f, k) := t.ReplyAction(f, k)]
    || tables == t.Installed(f, start, k)
  }

  /** Installing from the server's end, no prefix of the flow-mods leaves a forward entry dangling. */
  lemma PrefixSafe(f: Fabric, t: Translation, start: Tables, k: nat, tables: Tables)
    requires t.Valid(f) && t.Clean(start) && k < |t.line.path| && Between(f, t, start, k, tables)
    ensures t.Safe(f, tables)
  {
    forall i | 0 <= i < |t.line.path| - 1
      ensures t.SafeAt(f, tables, i)
    {
      BetweenAt(f, t, start, k, tables, i);
      BetweenAt(f, t, start, k, tables, i + 1);
    }
  }

  /** In between, forward entries are in behind `k`, and not in before `k`. */
  lemma BetweenAt(f: Fabric, t: Translation, start: Tables, k: nat, tables: Tables, i: nat)
    requires t.Valid(f) && t.Clean(start) && k < |t.line.path| && Between(f, t, start, k, tables)
    requires i < |t.line.path|
    ensures i > k ==> t.ForwardSlot(f, i) in tables
    ensures i < k ==> t.ForwardSlot(f, i) !in tables
  {
    DifferentSlots(f, t, i);
    var m := t.ForwardSlot(f, i).match_;
    InstalledAt(f, t, start, k + 1, i, m);
    InstalledAt(f, t, start, k, i, m);
    assert i != k ==> t.line.path[i] != t.line.path[k];
  }

  // ---------- transparency ----------

  /** What the server gets for a user's packet to the gateway. */
  ghost function Readdressed(t: Translation, pkt: Packet): Packet {
    pkt.(dst := t.server, ethDst := t.serverMac, tcpDst := t.serverTcpPort,
         ttl := if pkt.ttl > 1 then pkt.ttl - 1 else 0)
  }

  /** What the user gets for a server's reply: it seems to come from port 80 of the gateway. */
  ghost function Disguised(t: Translation, reply: Packet): Packet {
    reply.(src := t.gateway, ethSrc := t.gatewayMac, ethDst := t.userMac, tcpSrc := 80,
           ttl := if reply.ttl > 1 then reply.ttl - 1 else 0)
  }

  /** `reply` answers `pkt`: addresses and TCP ports have changed places. */
  ghost predicate Answers(pkt: Packet, reply: Packet) {
    && reply.tcp && pkt.tcp && reply.src == pkt.dst && reply.dst == pkt.src
    && reply.tcpSrc == pkt.tcpDst && reply.tcpDst == pkt.tcpSrc
  }

  /** A server that answers what it gets makes the user see an answer to what he sent, exactly if he sent it to port
      80. */
  lemma Conversation(t: Translation, pkt: Packet, reply: Packet)
    requires FromUser(t, pkt) && Answers(Readdressed(t, pkt), reply)
    ensures reply.ttl > 1 ==> FromServer(t, reply)
    ensures Answers(pkt, Disguised(t, reply)) <==> pkt.tcpDst == 80
  {
  }

  predicate FromUser(t: Translation, pkt: Packet) {
    pkt.tcp && pkt.src == t.user && pkt.dst == t.gateway && pkt.ttl > 1
  }

  predicate FromServer(t: Translation, reply: Packet) {
    reply.tcp && reply.src == t.server && reply.dst == t.user && reply.ttl > 1
  }

  /** Every user packet to the gateway reaches the server readdressed to it, and every reply of the server
      reaches the user as if the gateway had sent it. */
  ghost predicate Transparent(f: Fabric, t: Translation, tables: Tables) {
    && (forall pkt :: FromUser(t, pkt) ==>
          Delivers(f, tables, t.line.path, t.line.srcPort, pkt, t.line.dstPort, Readdressed(t, pkt)))
    && (forall reply :: FromServer(t, reply) ==>
          Delivers(f, tables, t.line.Reversed().path, t.line.dstPort, reply, t.line.srcPort,
                   Disguised(t, reply)))
  }

  /** Where the access test fails, a switch relays the pair of addresses both ways. */
  lemma PlainSwitch(f: Fabric, t: Translation, tables: Tables, i: nat)
    requires t.Valid(f) && Holds(f, t, tables) && i < |t.line.path| && !t.IsAccess(i)
    ensures HasAhead(f, tables, t.line, t.user, t.server, i)
    ensures HasBack(f, tables, t.line, t.user, t.server, i)
    ensures Slot(t.line.path[i], AnyPort(t.user, t.server)) !in tables
    ensures Slot(t.line.path[i], AnyPort(t.server, t.user)) !in tables
  {
    HoldsAt(f, t, tables, i, OnPort(t.line.Back(f, i), t.user, t.server));
    HoldsAt(f, t, tables, i, OnPort(t.line.Ahead(f, i), t.server, t.user));
    HoldsAt(f, t, tables, i, AnyPort(t.user, t.server));
    HoldsAt(f, t, tables, i, AnyPort(t.server, t.user));
  }

  lemma HoldsAt(f: Fabric, t: Translation, tables: Tables, i: nat, m: Match)
    requires Holds(f, t, tables) && i < |t.line.path| && t.Concerns(m)
    ensures At(tables, Slot(t.line.path[i], m)) == EntryOf(f, t, i, m)
  {
  }

  /** The switches behind the user's, up to `e`, relay towards the server. */
  lemma InnerRelays(f: Fabric, t: Translation, tables: Tables, e: nat)
    requires t.Valid(f) && Holds(f, t, tables) && e <= |t.line.path|
    requires forall i :: 1 <= i < e ==> !t.IsAccess(i)
    ensures Relays(f, tables, t.line, t.user, t.server, 1, e)
  {
    forall i | 1 <= i < e
      ensures HasAhead(f, tables, t.line, t.user, t.server, i)
      ensures Slot(t.line.path[i], AnyPort(t.user, t.server)) !in tables
    {
      PlainSwitch(f, t, tables, i);
    }
  }

  /** The switches behind the user's relay the replies. */
  lemma InnerReplies(f: Fabric, t: Translation, tables: Tables)
    requires t.Valid(f) && Holds(f, t, tables) && !t.IsAccess(|t.line.path| - 1)
    ensures t.line.Reversed().Valid(f) && |t.line.Reversed().path| == |t.line.path|
    ensures Relays(f, tables, t.line.Reversed(), t.server, t.user, 0, |t.line.path| - 1)
  {
    var r, n := t.line.Reversed(), |t.line.path|;
    ReversedValid(f, t.line);
    forall i | 0 <= i < n - 1
      ensures HasAhead(f, tables, r, t.server, t.user, i)
      ensures Slot(r.path[i], AnyPort(t.server, t.user)) !in tables
    {
      ReversedPorts(f, t.line, i);
      PlainSwitch(f, t, tables, n - 1 - i);
    }
  }

  /** At the user's switch, an access switch, exactly the readdressing entry fires. */
  lemma AccessFires(f: Fabric, t: Translation, tables: Tables, inPort: Port, pkt: Packet, m: Match)
    requires t.Valid(f) && Holds(f, t, tables) && t.IsAccess(0) && pkt.tcp
    requires m == AnyPort(pkt.src, pkt.dst)
    requires m == t.ForwardSlot(f, 0).match_ || m == t.ReplySlot(f, 0).match_
    ensures Fires(tables, t.line.path[0], inPort, pkt, m)
    ensures Some(tables[Slot(t.line.path[0], m)]) == EntryOf(f, t, 0, m)
  {
    HoldsAt(f, t, tables, 0, m);
    forall m' | Slot(t.line.path[0], m') in tables && Covers(m', inPort, pkt)
      ensures m' == m
    {
      HoldsAt(f, t, tables, 0, m');
    }
  }

  /** The user's packet is readdressed at the first switch and relayed to the server. */
  lemma UserReachesServer(f: Fabric, t: Translation, tables: Tables, pkt: Packet)
    requires t.Valid(f) && Holds(f, t, tables) && FromUser(t, pkt)
    requires t.IsAccess(0) && !t.IsAccess(|t.line.path| - 1)
    ensures Delivers(f, tables, t.line.path, t.line.srcPort, pkt, t.line.dstPort, Readdressed(t, pkt))
  {
    var line := t.line;
    InnerRelays(f, t, tables, |line.path|);
    Relay(f, tables, line, t.user, t.server, 1, Readdressed(t, pkt));
    var m := AnyPort(t.user, t.gateway);
    AccessFires(f, t, tables, line.srcPort, pkt, m);
    Neighbours(f, line, 0);
    assert DeliversBy(f, tables, line.path, line.srcPort, pkt, line.dstPort, Readdressed(t, pkt), m);
  }

  /** The reply is relayed to the user's switch and disguised there. */
  lemma ServerReachesUser(f: Fabric, t: Translation, tables: Tables, reply: Packet)
    requires t.Valid(f) && Holds(f, t, tables) && FromServer(t, reply)
    requires t.IsAccess(0) && !t.IsAccess(|t.line.path| - 1)
    ensures Delivers(f, tables, t.line.Reversed().path, t.line.dstPort, reply, t.line.srcPort,
                     Disguised(t, reply))
  {
    var line, r, e := t.line, t.line.Reversed(), |t.line.path| - 1;
    InnerReplies(f, t, tables);
    DisguisedAtUser(f, t, tables, reply);
    RelayOnto(f, tables, r, t.server, t.user, 0, e, reply, line.srcPort, Disguised(t, reply));
    assert r.path[0..] == r.path;
  }

  /** The last hop of the reply. */
  lemma DisguisedAtUser(f: Fabric, t: Translation, tables: Tables, reply: Packet)
    requires t.Valid(f) && Holds(f, t, tables) && FromServer(t, reply) && t.IsAccess(0)
    ensures var r, e := t.line.Reversed(), |t.line.path| - 1;
      Delivers(f, tables, r.path[e..], r.Back(f, e), reply, t.line.srcPort, Disguised(t, reply))
  {
    var line, r, e := t.line, t.line.Reversed(), |t.line.path| - 1;
    ReversedPorts(f, line, e);
    Neighbours(f, line, 0);
    var m := AnyPort(t.server, t.user);
    AccessFires(f, t, tables, r.Back(f, e), reply, m);
    assert r.path[e..] == [line.path[0]];
    assert DeliversBy(f, tables, r.path[e..], r.Back(f, e), reply, line.srcPort, Disguised(t, reply), m);
  }

  /** Without an access entry at the user's switch, nothing there matches a packet to the gateway. */
  lemma UserDropped(f: Fabric, t: Translation, tables: Tables, pkt: Packet, outPort: Port, result: Packet)
    requires t.Valid(f) && Holds(f, t, tables) && FromUser(t, pkt) && !t.IsAccess(0)
    ensures !Delivers(f, tables, t.line.path, t.line.srcPort, pkt, outPort, result)
  {
    forall m: Match
      ensures !Fires(tables, t.line.path[0], t.line.srcPort, pkt, m)
    {
      if Covers(m, t.line.srcPort, pkt) {
        HoldsAt(f, t, tables, 0, m);
      }
    }
  }

  /** With an access entry at the server's switch, nothing there matches the readdressed packet. */
  lemma ServerUnreached(f: Fabric, t: Translation, tables: Tables, pkt: Packet, outPort: Port, result: Packet)
    requires t.Valid(f) && Holds(f, t, tables) && FromUser(t, pkt)
    requires t.IsAccess(0) && t.IsAccess(|t.line.path| - 1)
    ensures !Delivers(f, tables, t.line.path, t.line.srcPort, pkt, outPort, result)
  {
    var line, e, pkt' := t.line, |t.line.path| - 1, Readdressed(t, pkt);
    var m := AnyPort(t.user, t.gateway);
    AccessFires(f, t, tables, line.srcPort, pkt, m);
    Neighbours(f, line, 0);
    InnerRelays(f, t, tables, e);
    RelayOnto(f, tables, line, t.user, t.server, 1, e, pkt', outPort, result);
    NothingMatches(f, t, tables, e, line.Back(f, e), pkt');
    assert line.path[e..][0] == line.path[e];
    assert !Delivers(f, tables, line.path[e..], line.Back(f, e), pkt', outPort, result);
    assert forall m' :: DeliversBy(f, tables, line.path, line.srcPort, pkt, outPort, result, m') ==> m' == m;
  }

  lemma NothingMatches(f: Fabric, t: Translation, tables: Tables, e: nat, inPort: Port, pkt: Packet)
    requires t.Valid(f) && Holds(f, t, tables) && e < |t.line.path| && t.IsAccess(e)
    requires pkt.src == t.user && pkt.dst == t.server
    ensures forall m: Match :: !Fires(tables, t.line.path[e], inPort, pkt, m)
  {
    forall m: Match
      ensures !Fires(tables, t.line.path[e], inPort, pkt, m)
    {
      if Covers(m, inPort, pkt) {
        HoldsAt(f, t, tables, e, m);
      }
    }
  }

  /**
   * The address translation is transparent exactly if the path has at least three switches, the user's
   * switch passes the access test, and the server's switch does not.
   */
  lemma TransparentExactly(f: Fabric, t: Translation, tables: Tables)
    requires t.Valid(f) && Holds(f, t, tables)
    ensures Transparent(f, t, tables) <==> t.IsAccess(0) && !t.IsAccess(|t.line.path| - 1)
  {
    var sample := Packet(t.user, t.gateway, 0, 0, true, 0, 0, 64);
    if !t.IsAccess(0) {
      UserDropped(f, t, tables, sample, t.line.dstPort, Readdressed(t, sample));
    } else if t.IsAccess(|t.line.path| - 1) {
      ServerUnreached(f, t, tables, sample, t.line.dstPort, Readdressed(t, sample));
    } else {
      forall pkt | FromUser(t, pkt)
        ensures Delivers(f, tables, t.line.path, t.line.srcPort, pkt, t.line.dstPort, Readdressed(t, pkt))
      {
        UserReachesServer(f, t, tables, pkt);
      }
      forall reply | FromServer(t, reply)
        ensures Delivers(f, tables, t.line.Reversed().path, t.line.dstPort, reply, t.line.srcPort,
                         Disguised(t, reply))
      {
        ServerReachesUser(f, t, tables, reply);
      }
    }
    assert FromUser(t, sample);
  }

  // ---------- the deployment ----------

  /** The two flow-mods of a switch, in order: towards the server first, but on a path of two switches last. */
  function SwitchMods(f: Fabric, t: Translation, k: nat): seq<Mod>
    requires k < |t.line.path|
  {
    var forward := Mod(t.ForwardSlot(f, k), t.ForwardAction(f, k));
    var reply := Mod(t.ReplySlot(f, k), t.ReplyAction(f, k));
    if |t.line.path| == 2 then [reply, forward] else [forward, reply]
  }

  /** All flow-mods from the server's end up to switch `k`. */
  function Plan(f: Fabric, t: Translation, k: nat): (mods: seq<Mod>)
    requires k <= |t.line.path|
    ensures |mods| == 2 * (|t.line.path| - k)
    decreases |t.line.path| - k
  {
    if k == |t.line.path| then [] else Plan(f, t, k + 1) + SwitchMods(f, t, k)
  }

  lemma AppliedTwo(start: Tables, mods: seq<Mod>, first: Mod, second: Mod)
    ensures Applied(start, mods + [first, second]) ==
            Applied(start, mods)[first.slot := first.action][second.slot := second.action]
    ensures Applied(start, mods + [first]) == Applied(start, mods)[first.slot := first.action]
  {
    AppliedMore(start, mods, first);
    AppliedMore(start, mods + [first], second);
    assert mods + [first] + [second] == mods + [first, second];
  }

  /** The plan brings about the planned tables. */
  lemma {:induction false} PlanInstalls(f: Fabric, t: Translation, start: Tables, k: nat)
    requires t.line.Valid(f) && k <= |t.line.path|
    ensures Applied(start, Plan(f, t, k)) == t.Installed(f, start, k)
    decreases |t.line.path| - k
  {
    if k < |t.line.path| {
      PlanInstalls(f, t, start, k + 1);
      NextInstalled(f, t, start, k, Plan(f, t, k + 1));
    }
  }

  /** The flow-mods of switch `k`, in either order, add its two entries. */
  lemma NextInstalled(f: Fabric, t: Translation, start: Tables, k: nat, behind: seq<Mod>)
    requires t.line.Valid(f) && k < |t.line.path| && Applied(start, behind) == t.Installed(f, start, k + 1)
    ensures Applied(start, behind + SwitchMods(f, t, k)) == t.Installed(f, start, k)
    ensures Between(f, t, start, k, Applied(start, behind + SwitchMods(f, t, k)[..1]))
    ensures Between(f, t, start, k, Applied(start, behind + SwitchMods(f, t, k)))
  {
    Neighbours(f, t.line, k);
    var mods := SwitchMods(f, t, k);
    AppliedTwo(start, behind, mods[0], mods[1]);
    assert mods == [mods[0], mods[1]] && mods[..1] == [mods[0]];
  }

  /** After every prefix of the plan the tables are safe. */
  lemma {:induction false} PlanSafe(f: Fabric, t: Translation, start: Tables, k: nat, j: nat)
    requires t.Valid(f) && t.Clean(start) && k <= |t.line.path| && j <= |Plan(f, t, k)|
    ensures t.Safe(f, Applied(start, Plan(f, t, k)[..j]))
    decreases |t.line.path| - k
  {
    if k == |t.line.path| {
      StartSafe(f, t, start);
    } else {
      var behind := Plan(f, t, k + 1);
      if j <= |behind| {
        PlanSafe(f, t, start, k + 1, j);
        assert Plan(f, t, k)[..j] == behind[..j];
      } else {
        PlanInstalls(f, t, start, k + 1);
        NextSafe(f, t, start, k, behind, Plan(f, t, k), j);
      }
    }
  }

  lemma NextSafe(f: Fabric, t: Translation, start: Tables, k: nat, behind: seq<Mod>, all: seq<Mod>, j: nat)
    requires t.Valid(f) && t.Clean(start) && k < |t.line.path| && Applied(start, behind) == t.Installed(f, start, k + 1)
    requires all == behind + SwitchMods(f, t, k) && |behind| < j <= |all|
    ensures t.Safe(f, Applied(start, all[..j]))
  {
    NextInstalled(f, t, start, k, behind);
    assert all[..j] == if j == |all| then all else behind + SwitchMods(f, t, k)[..1];
    PrefixSafe(f, t, start, k, Applied(start, all[..j]));
  }

  lemma StartSafe(f: Fabric, t: Translation, start: Tables)
    requires t.Valid(f) && t.Clean(start)
    ensures t.Safe(f, start)
  {
    forall i | 0 <= i < |t.line.path| - 1
      ensures t.SafeAt(f, start, i)
    {
      DifferentSlots(f, t, i);
      assert t.ForwardSlot(f, i) == Slot(t.line.path[i], t.ForwardSlot(f, i).match_);
    }
  }

  /** The two flow-mods of a switch. */
  method InstallSwitch(net: Network, t: Translation, k: nat)
    requires |t.line.path| > 2 && t.line.Valid(net.fabric) && k < |t.line.path|
    modifies net
    ensures net.mods == old(net.mods) + SwitchMods(net.fabric, t, k)
    ensures net.tables == Applied(old(net.tables), SwitchMods(net.fabric, t, k))
  {
    AppliedTwo(net.tables, [], SwitchMods(net.fabric, t, k)[0], SwitchMods(net.fabric, t, k)[1]);
    var sw, back, ahead := t.line.path[k], t.line.Back(net.fabric, k), t.line.Ahead(net.fabric, k);
    if t.IsAccess(k) {
      net.FlowMod(sw, AnyPort(t.user, t.gateway), ToServer(t.server, t.serverMac, t.serverTcpPort),
                  [if k == 0 then ahead else back]);
      net.FlowMod(sw, AnyPort(t.server, t.user), FromGateway(t.gateway, t.gatewayMac, t.userMac, HTTP_PORT),
                  [if k == 0 then t.line.srcPort else t.line.dstPort]);
    } else {
      net.FlowMod(sw, OnPort(back, t.user, t.server), Keep, [ahead]);
      net.FlowMod(sw, OnPort(ahead, t.server, t.user), Keep, [back]);
    }
  }

  /** On a path of two switches: plain entries, the reply entry of each switch first. */
  method InstallPlain(net: Network, t: Translation, k: nat)
    requires t.line.Valid(net.fabric) && k < |t.line.path| == 2
    modifies net
    ensures net.mods == old(net.mods) + SwitchMods(net.fabric, t, k)
    ensures net.tables == Applied(old(net.tables), SwitchMods(net.fabric, t, k))
  {
    AppliedTwo(net.tables, [], SwitchMods(net.fabric, t, k)[0], SwitchMods(net.fabric, t, k)[1]);
    var sw, back, ahead := t.line.path[k], t.line.Back(net.fabric, k), t.line.Ahead(net.fabric, k);
    net.FlowMod(sw, OnPort(ahead, t.server, t.user), Keep, [back]);
    net.FlowMod(sw, OnPort(back, t.user, t.server), Keep, [ahead]);
  }

  lemma AppliedOnto(start: Tables, first: seq<Mod>, second: seq<Mod>)
    requires |second| == 2
    ensures Applied(Applied(start, first), second) == Applied(start, first + second)
  {
    AppliedTwo(start, first, second[0], second[1]);
    AppliedTwo(Applied(start, first), [], second[0], second[1]);
    assert second == [second[0], second[1]] && [] + second == second;
  }

  /**
   * Deploys from the server's end to the user's end: exactly the planned flow-mods, in their order. On clean switches
   * the outcome is transparent exactly under the condition above, and every state on the way is safe.
   */
  method DeployFlowTable(net: Network, t: Translation) returns (ok: bool)
    requires |t.line.path| > 1 ==> t.line.Valid(net.fabric)
    modifies net
    ensures ok <==> |t.line.path| > 1
    ensures !ok ==> net.tables == old(net.tables) && net.mods == old(net.mods)
    ensures ok ==> net.mods == old(net.mods) + Plan(net.fabric, t, 0)
    ensures ok ==> net.tables == Applied(old(net.tables), Plan(net.fabric, t, 0))
    ensures ok && t.Valid(net.fabric) && t.Clean(old(net.tables)) ==>
              (Transparent(net.fabric, t, net.tables) <==> t.IsAccess(0) && !t.IsAccess(|t.line.path| - 1))
    ensures ok && t.Valid(net.fabric) && t.Clean(old(net.tables)) ==>
              forall j :: 0 <= j <= 2 * |t.line.path| ==>
                t.Safe(net.fabric, Applied(old(net.tables), Plan(net.fabric, t, 0)[..j]))
  {
    var n := |t.line.path|;
    if n <= 1 {
      return false;
    }
    ghost var start := net.tables;
    InstallAll(net, t);
    ok := true;
    if t.Valid(net.fabric) && t.Clean(start) {
      PlanInstalls(net.fabric, t, start, 0);
      DeploymentMeaning(net.fabric, t, start);
    }
  }

  /** The plan has been followed up to switch `k`. */
  ghost predicate Reached(net: Network, t: Translation, k: nat, start: Tables, mods: seq<Mod>)
    reads net
  {
    && k <= |t.line.path|
    && net.mods == mods + Plan(net.fabric, t, k) && net.tables == Applied(start, Plan(net.fabric, t, k))
  }

  method InstallAll(net: Network, t: Translation)
    requires |t.line.path| > 1 && t.line.Valid(net.fabric)
    modifies net
    ensures net.mods == old(net.mods) + Plan(net.fabric, t, 0)
    ensures net.tables == Applied(old(net.tables), Plan(net.fabric, t, 0))
  {
    var n := |t.line.path|;
    ghost var start, mods := net.tables, net.mods;
    for num := 0 to n
      invariant Reached(net, t, n - num, start, mods)
    {
      InstallNext(net, t, n - 1 - num, start, mods);
    }
  }

  method InstallNext(net: Network, t: Translation, k: nat, ghost start: Tables, ghost mods: seq<Mod>)
    requires |t.line.path| > 1 && t.line.Valid(net.fabric) && k < |t.line.path|
    requires Reached(net, t, k + 1, start, mods)
    modifies net
    ensures Reached(net, t, k, start, mods)
  {
    ghost var behind, two := Plan(net.fabric, t, k + 1), SwitchMods(net.fabric, t, k);
    AppliedOnto(start, behind, two);
    assert mods + behind + two == mods + (behind + two);
    if |t.line.path| == 2 {
      InstallPlain(net, t, k);
    } else {
      InstallSwitch(net, t, k);
    }
  }

  /** Deployed on clean switches, the translation is transparent exactly under the condition above, and
      every state on the way was safe. */
  lemma DeploymentMeaning(f: Fabric, t: Translation, start: Tables)
    requires t.Valid(f) && t.Clean(start)
    ensures Transparent(f, t, t.Installed(f, start, 0)) <==> t.IsAccess(0) && !t.IsAccess(|t.line.path| - 1)
    ensures forall j :: 0 <= j <= 2 * |t.line.path| ==> t.Safe(f, Applied(start, Plan(f, t, 0)[..j]))
  {
    InstalledHolds(f, t, start);
    TransparentExactly(f, t, t.Installed(f, start, 0));
    forall j | 0 <= j <= 2 * |t.line.path|
      ensures t.Safe(f, Applied(start, Plan(f, t, 0)[..j]))
    {
      PlanSafe(f, t, start, 0, j);
    }
  }

  /** Three switches in a row, with the user on port 1 of the first and the server on port 3 of the last. */
  function Row(): Fabric {
    Fabric(map[Plug(1, 2) := Plug(2, 1), Plug(2, 1) := Plug(1, 2), Plug(2, 2) := Plug(3, 2), Plug(3, 2) := Plug(2, 2)],
           map[1 := map[2 := [2]], 2 := map[1 := [1], 3 := [2]], 3 := map[2 := [2]]])
  }

  function Clash(user: Ip, server: Ip, gateway: Ip): Translation {
    Translation(Line([1, 2, 3], 1, 3), user, server, gateway, 0, 0, 0, HTTP_PORT, {Plug(1, 1), Plug(3, 1)})
  }

  /** A failing input: the server's switch happens to have a user on a port with the same number as the user's. */
  lemma SamePortNumber(user: Ip, server: Ip, gateway: Ip)
    requires user != server && server != gateway && gateway != user
    ensures var t := Clash(user, server, gateway);
            t.Valid(Row()) && t.Clean(map[]) && !Transparent(Row(), t, Applied(map[], Plan(Row(), t, 0)))
  {
    var f := Row();
    var t := Clash(user, server, gateway);
    assert f.Paired(1, 2) && f.Paired(2, 3);
    assert forall i :: 0 <= i < 2 ==> f.Paired(t.line.path[i], t.line.path[i + 1]);
    assert t.IsAccess(2);
    DeploymentMeaning(f, t, map[]);
    PlanInstalls(f, t, map[], 0);
  }
}
