/** The group table of the IGMP querier and the changes the handlers make to it. */
module IgmpState {
  type Group = nat
  type Dpid = nat
  type Port = nat

  datatype PortState = PortState(replied: bool, leave: bool)

  type Ports = map<Port, PortState>
  type Switches = map<Dpid, Ports>
  type Groups = map<Group, Switches>

  /** One member: a group, a switch and a port of it. */
  datatype Member = Member(group: Group, dpid: Dpid, port: Port)

  predicate Present(groups: Groups, m: Member) {
    m.group in groups && m.dpid in groups[m.group] && m.port in groups[m.group][m.dpid]
  }

  function StateOf(groups: Groups, m: Member): PortState
    requires Present(groups, m)
  {
    groups[m.group][m.dpid][m.port]
  }

  /** No group without switches, no switch without ports. */
  ghost predicate NoneEmpty(groups: Groups) {
    && (forall g :: g in groups ==> groups[g] != map[])
    && (forall g, d :: g in groups && d in groups[g] ==> groups[g][d] != map[])
  }

  // ---------- adding, changing and removing one member ----------

  function SwitchesOf(groups: Groups, g: Group): Switches {
    if g in groups then groups[g] else map[]
  }

  function PortsOf(switches: Switches, d: Dpid): Ports {
    if d in switches then switches[d] else map[]
  }

  function WithPort(switches: Switches, d: Dpid, p: Port, state: PortState): Switches {
    switches[d := PortsOf(switches, d)[p := state]]
  }

  function WithMember(groups: Groups, m: Member, state: PortState): Groups {
    groups[m.group := WithPort(SwitchesOf(groups, m.group), m.dpid, m.port, state)]
  }

  lemma WithPortMeaning(switches: Switches, d: Dpid, p: Port, state: PortState)
    requires Filled(switches)
    ensures Filled(WithPort(switches, d, p, state)) && WithPort(switches, d, p, state) != map[]
    ensures forall e, q ::
              Plugged(WithPort(switches, d, p, state), e, q) <==> Plugged(switches, e, q) || (e == d && q == p)
    ensures forall e, q :: Plugged(switches, e, q) && !(e == d && q == p) ==>
              WithPort(switches, d, p, state)[e][q] == switches[e][q]
  {
    assert p in WithPort(switches, d, p, state)[d];
    assert d in WithPort(switches, d, p, state);
  }

  lemma WithMemberMeaning(groups: Groups, m: Member, state: PortState)
    requires NoneEmpty(groups)
    ensures NoneEmpty(WithMember(groups, m, state))
    ensures forall n :: Present(WithMember(groups, m, state), n) <==> Present(groups, n) || n == m
    ensures forall n :: Present(groups, n) && n != m ==> StateOf(WithMember(groups, m, state), n) == StateOf(groups, n)
    ensures StateOf(WithMember(groups, m, state), m) == state
  {
    WithPortMeaning(SwitchesOf(groups, m.group), m.dpid, m.port, state);
    forall n
      ensures Present(WithMember(groups, m, state), n) <==> Present(groups, n) || n == m
      ensures Present(groups, n) && n != m ==> StateOf(WithMember(groups, m, state), n) == StateOf(groups, n)
    {
      if n.group == m.group {
        assert Plugged(SwitchesOf(groups, m.group), n.dpid, n.port) <==> Present(groups, n);
        assert Plugged(WithMember(groups, m, state)[n.group], n.dpid, n.port) <==>
               Present(WithMember(groups, m, state), n);
      }
    }
  }

  function WithoutPort(switches: Switches, d: Dpid, p: Port): Switches
    requires d in switches
  {
    var ports := switches[d] - {p};
    if ports == map[] then switches - {d} else switches[d := ports]
  }

  function WithSwitches(groups: Groups, g: Group, switches: Switches): Groups {
    if switches == map[] then groups - {g} else groups[g := switches]
  }

  /** A member goes, and with it what it leaves empty. */
  function WithoutMember(groups: Groups, m: Member): Groups
    requires Present(groups, m)
  {
    WithSwitches(groups, m.group, WithoutPort(groups[m.group], m.dpid, m.port))
  }

  predicate Plugged(switches: Switches, d: Dpid, p: Port) {
    d in switches && p in switches[d]
  }

  ghost predicate Filled(switches: Switches) {
    forall d :: d in switches ==> switches[d] != map[]
  }

  lemma WithoutPortMeaning(switches: Switches, d: Dpid, p: Port)
    requires Filled(switches) && d in switches
    ensures Filled(WithoutPort(switches, d, p))
    ensures forall e, q ::
              Plugged(WithoutPort(switches, d, p), e, q) <==> Plugged(switches, e, q) && !(e == d && q == p)
    ensures forall e, q :: Plugged(WithoutPort(switches, d, p), e, q) ==>
              WithoutPort(switches, d, p)[e][q] == switches[e][q]
  {
    var ports := switches[d] - {p};
    assert forall q :: q in ports <==> q in switches[d] && q != p;
  }

  lemma WithoutMemberMeaning(groups: Groups, m: Member)
    requires NoneEmpty(groups) && Present(groups, m)
    ensures NoneEmpty(WithoutMember(groups, m))
    ensures forall n :: Present(WithoutMember(groups, m), n) <==> Present(groups, n) && n != m
    ensures forall n :: Present(WithoutMember(groups, m), n) ==>
              StateOf(WithoutMember(groups, m), n) == StateOf(groups, n)
    ensures WithoutMember(groups, m).Keys <= groups.Keys <= WithoutMember(groups, m).Keys + {m.group}
  {
    WithoutPortMeaning(groups[m.group], m.dpid, m.port);
    WithSwitchesMeaning(groups, m.group, WithoutPort(groups[m.group], m.dpid, m.port));
    forall n
      ensures Present(WithoutMember(groups, m), n) <==> Present(groups, n) && n != m
      ensures Present(WithoutMember(groups, m), n) ==> StateOf(WithoutMember(groups, m), n) == StateOf(groups, n)
    {
      if n.group == m.group {
        assert Plugged(groups[m.group], n.dpid, n.port) <==> Present(groups, n);
      } else {
        assert SameIn(groups, WithoutMember(groups, m), n);
      }
    }
  }

  lemma WithSwitchesMeaning(groups: Groups, g: Group, switches: Switches)
    requires NoneEmpty(groups) && Filled(switches) && g in groups
    ensures NoneEmpty(WithSwitches(groups, g, switches))
    ensures WithSwitches(groups, g, switches).Keys <= groups.Keys <= WithSwitches(groups, g, switches).Keys + {g}
    ensures forall n: Member :: n.group != g ==> SameIn(groups, WithSwitches(groups, g, switches), n)
    ensures forall n: Member :: n.group == g ==>
              (Present(WithSwitches(groups, g, switches), n) <==> Plugged(switches, n.dpid, n.port))
    ensures forall n: Member :: n.group == g && Plugged(switches, n.dpid, n.port) ==>
              StateOf(WithSwitches(groups, g, switches), n) == switches[n.dpid][n.port]
  {
    OtherGroups(groups, g, switches);
  }

  /** `n` is in both tables with the same state, or in neither. */
  ghost predicate SameIn(before: Groups, after: Groups, n: Member) {
    (Present(after, n) <==> Present(before, n)) && (Present(before, n) ==> StateOf(after, n) == StateOf(before, n))
  }

  lemma OtherGroups(groups: Groups, g: Group, switches: Switches)
    ensures forall n: Member :: n.group != g ==> SameIn(groups, WithSwitches(groups, g, switches), n)
  {
    forall n: Member | n.group != g
      ensures SameIn(groups, WithSwitches(groups, g, switches), n)
    {
      assert n.group in groups <==> n.group in WithSwitches(groups, g, switches);
    }
  }

  // ---------- a query round ----------

  function ResetPorts(ports: Ports): Ports {
    map p | p in ports :: ports[p].(replied := false)
  }

  function ResetSwitches(switches: Switches): Switches {
    map d | d in switches :: ResetPorts(switches[d])
  }

  function ResetGroups(groups: Groups): Groups {
    map g | g in groups :: ResetSwitches(groups[g])
  }

  lemma ResetMeaning(groups: Groups)
    requires NoneEmpty(groups)
    ensures NoneEmpty(ResetGroups(groups)) && ResetGroups(groups).Keys == groups.Keys
    ensures forall n :: Present(ResetGroups(groups), n) <==> Present(groups, n)
    ensures forall n :: Present(groups, n) ==> StateOf(ResetGroups(groups), n) == StateOf(groups, n).(replied := false)
  {
    forall g, d | g in groups && d in groups[g]
      ensures ResetPorts(groups[g][d]) != map[]
    {
      var p :| p in groups[g][d];
      assert p in ResetPorts(groups[g][d]);
    }
    forall g | g in groups
      ensures ResetSwitches(groups[g]) != map[]
    {
      var d :| d in groups[g];
      assert d in ResetSwitches(groups[g]);
    }
  }

  function KeptPorts(ports: Ports): Ports {
    map p | p in ports && ports[p].replied :: ports[p]
  }

  function KeptSwitches(switches: Switches): Switches {
    map d | d in switches && KeptPorts(switches[d]) != map[] :: KeptPorts(switches[d])
  }

  function KeptGroups(groups: Groups): Groups {
    map g | g in groups && KeptSwitches(groups[g]) != map[] :: KeptSwitches(groups[g])
  }

  /** Exactly the members that replied survive, and nothing empty is left. */
  lemma KeptMeaning(groups: Groups)
    ensures NoneEmpty(KeptGroups(groups)) && KeptGroups(groups).Keys <= groups.Keys
    ensures forall n :: Present(KeptGroups(groups), n) <==> Present(groups, n) && StateOf(groups, n).replied
    ensures forall n :: Present(KeptGroups(groups), n) ==> StateOf(KeptGroups(groups), n) == StateOf(groups, n)
  {
    forall n | Present(groups, n) && StateOf(groups, n).replied
      ensures Present(KeptGroups(groups), n)
    {
      assert n.port in KeptPorts(groups[n.group][n.dpid]);
      assert n.dpid in KeptSwitches(groups[n.group]);
    }
  }

  // ---------- the events that announce groups ----------

  datatype Event = Added(group: Group) | Removed(group: Group) | MemberChanged(group: Group)

  datatype Replay = Live(groups: set<Group>) | Broken

  /** Replays the events; `Broken` if a live group is added or a dead one removed or changed. */
  function Replayed(events: seq<Event>): Replay {
    if events == [] then Live({}) else
    match Replayed(events[..|events| - 1])
    case Broken => Broken
    case Live(live) =>
      match events[|events| - 1]
      case Added(g) => if g in live then Broken else Live(live + {g})
      case Removed(g) => if g in live then Live(live - {g}) else Broken
      case MemberChanged(g) => if g in live then Live(live) else Broken
  }

  lemma ReplayedMore(events: seq<Event>, e: Event)
    ensures Replayed(events + [e]) == match Replayed(events)
                                      case Broken => Broken
                                      case Live(live) =>
                                        match e
                                        case Added(g) => if g in live then Broken else Live(live + {g})
                                        case Removed(g) => if g in live then Live(live - {g}) else Broken
                                        case MemberChanged(g) => if g in live then Live(live) else Broken
  {
    assert (events + [e])[..|events|] == events;
  }

  /** The comings and goings of one group. */
  function Announced(events: seq<Event>, g: Group): seq<Event> {
    if events == [] then [] else
    var e := events[|events| - 1];
    Announced(events[..|events| - 1], g) + (if e == Added(g) || e == Removed(g) then [e] else [])
  }

  /** Per group, comings and goings alternate, starting with a coming; the group is live after a coming. */
  lemma {:induction false} Alternating(events: seq<Event>, g: Group)
    requires Replayed(events).Live?
    ensures forall i :: 0 <= i < |Announced(events, g)| ==>
              Announced(events, g)[i] == if i % 2 == 0 then Added(g) else Removed(g)
    ensures g in Replayed(events).groups <==> |Announced(events, g)| % 2 == 1
  {
    if events != [] {
      Alternating(events[..|events| - 1], g);
    }
  }
}
