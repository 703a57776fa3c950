/** `IgmpVirtualQuerier`: group membership as soft state, kept alive by reports. */
module Igmp {
  import opened Walks
  import opened IgmpState
  import opened IgmpMembers

  type Queriers = map<Dpid, set<Group>>

  datatype MessageType = Query | Report | Leave

  /** Every member's switch has the group registered. */
  ghost predicate AllRegistered(groups: Groups, queriers: Queriers) {
    forall m :: Present(groups, m) ==> m.dpid in queriers && m.group in queriers[m.dpid]
  }

  function StandingIn(groups: Groups, m: Member): Standing {
    if Present(groups, m) then Here(StateOf(groups, m)) else Absent
  }

  /** The table says of every member what its own history says. */
  ghost predicate AllLogged(groups: Groups, log: seq<Step>) {
    forall m :: StandingIn(groups, m) == StandingAfter(log, m)
  }

  ghost predicate Sound(groups: Groups, queriers: Queriers, log: seq<Step>) {
    NoneEmpty(groups) && AllRegistered(groups, queriers) && AllLogged(groups, log)
  }

  /** Every switch listed for a group has the group registered, so that no delete there can miss. */
  lemma ListedRegistered(groups: Groups, queriers: Queriers, log: seq<Step>, g: Group, d: Dpid)
    requires Sound(groups, queriers, log) && g in groups && d in groups[g]
    ensures d in queriers && g in queriers[d]
  {
    var p :| p in groups[g][d];
    assert Present(groups, Member(g, d, p));
  }

  lemma RegisterSound(groups: Groups, queriers: Queriers, log: seq<Step>, d: Dpid, g: Group)
    requires Sound(groups, queriers, log) && d in queriers
    ensures Sound(groups, queriers[d := queriers[d] + {g}], log)
  {
  }

  lemma ReportSound(groups: Groups, queriers: Queriers, log: seq<Step>, m: Member)
    requires Sound(groups, queriers, log) && m.dpid in queriers && m.group in queriers[m.dpid]
    ensures Sound(WithMember(groups, m, Refreshed(groups, m)), queriers, log + [Reported(m)])
  {
    WithMemberMeaning(groups, m, Refreshed(groups, m));
    StandingMore(log, Reported(m));
    assert Plugged(SwitchesOf(groups, m.group), m.dpid, m.port) <==> Present(groups, m);
    assert StandingIn(groups, m) == StandingAfter(log, m);
  }

  lemma LeaveSound(groups: Groups, queriers: Queriers, log: seq<Step>, m: Member)
    requires Sound(groups, queriers, log)
    ensures !Present(groups, m) ==> Sound(groups, queriers, log + [Left(m)])
    ensures Present(groups, m) ==>
              Sound(WithMember(groups, m, StateOf(groups, m).(leave := true)), queriers, log + [Left(m)])
  {
    StandingMore(log, Left(m));
    assert StandingIn(groups, m) == StandingAfter(log, m);
    if Present(groups, m) {
      WithMemberMeaning(groups, m, StateOf(groups, m).(leave := true));
    }
  }

  lemma TimerSound(groups: Groups, queriers: Queriers, log: seq<Step>, m: Member)
    requires Sound(groups, queriers, log)
    ensures if Present(groups, m) && StateOf(groups, m).leave
            then Sound(WithoutMember(groups, m), queriers, log + [LeaveTimer(m)])
            else Sound(groups, queriers, log + [LeaveTimer(m)])
  {
    StandingMore(log, LeaveTimer(m));
    assert StandingIn(groups, m) == StandingAfter(log, m);
    if Present(groups, m) {
      WithoutMemberMeaning(groups, m);
    }
  }

  lemma ResetSound(groups: Groups, queriers: Queriers, log: seq<Step>)
    requires Sound(groups, queriers, log)
    ensures Sound(ResetGroups(groups), queriers, log + [Reset])
  {
    StandingMore(log, Reset);
    ResetMeaning(groups);
  }

  lemma ExpirySound(groups: Groups, queriers: Queriers, log: seq<Step>)
    requires Sound(groups, queriers, log)
    ensures Sound(KeptGroups(groups), queriers, log + [Expiry])
  {
    StandingMore(log, Expiry);
    KeptMeaning(groups);
  }

  /** Whom a leave timer throws out, in terms of the history. */
  lemma Outcome(groups: Groups, queriers: Queriers, log: seq<Step>, m: Member)
    requires Sound(groups, queriers, log)
    ensures if Present(groups, m) && StateOf(groups, m).leave
            then LeftSinceEntered(log, m) && !Present(WithoutMember(groups, m), m)
            else Present(groups, m) ==> !LeftSinceEntered(log, m)
  {
    if Present(groups, m) {
      FlagsMean(groups, queriers, log, m);
      WithoutMemberMeaning(groups, m);
    }
  }

  /** In a sound table the flags mean what they should. */
  lemma FlagsMean(groups: Groups, queriers: Queriers, log: seq<Step>, m: Member)
    requires Sound(groups, queriers, log) && Present(groups, m)
    ensures StateOf(groups, m).replied <==> ReportedSinceReset(log, m)
    ensures StateOf(groups, m).leave <==> LeftSinceEntered(log, m)
  {
    assert StandingIn(groups, m) == StandingAfter(log, m);
    RepliedMeaning(log, m);
    LeaveMeaning(log, m);
  }

  /** The state of a member after its report: a leave it sent before stays. */
  function Refreshed(groups: Groups, m: Member): PortState {
    var switches := SwitchesOf(groups, m.group);
    PortState(true, Plugged(switches, m.dpid, m.port) && switches[m.dpid][m.port].leave)
  }

  /** The events a report leads to: one for a new group, one for a new member. */
  function Announcements(groups: Groups, m: Member): seq<Event> {
    (if m.group in groups then [] else [Added(m.group)]) +
    (if Plugged(SwitchesOf(groups, m.group), m.dpid, m.port) then [] else [MemberChanged(m.group)])
  }

  /** The events a firing leave timer leads to. */
  function Farewells(g: Group, gone: bool): seq<Event> {
    [MemberChanged(g)] + if gone then [Removed(g)] else []
  }

  /** One removal event per group, in this order. */
  function Removals(gone: seq<Group>): (events: seq<Event>)
    ensures |events| == |gone| && forall i :: 0 <= i < |gone| ==> events[i] == Removed(gone[i])
  {
    if gone == [] then [] else Removals(gone[..|gone| - 1]) + [Removed(gone[|gone| - 1])]
  }

  lemma RemovalsMore(gone: seq<Group>, g: Group)
    ensures Removals(gone + [g]) == Removals(gone) + [Removed(g)]
  {
  }

  /** What `Unregister` does to the registrations. */
  ghost predicate Dropped(before: Queriers, after: Queriers, g: Group, dpids: set<Dpid>) {
    && after.Keys == before.Keys
    && forall d :: d in after ==> after[d] == if d in dpids then before[d] - {g} else before[d]
  }

  /** Registrations of groups that are gone may be dropped. */
  lemma DroppedSound(groups: Groups, before: Queriers, after: Queriers, log: seq<Step>, g: Group, dpids: set<Dpid>)
    requires Sound(groups, before, log) && g !in groups && Dropped(before, after, g, dpids)
    ensures Sound(groups, after, log)
  {
  }

  /** Marks a port as having replied, entering it first if it is not there. */
  method EnrolPort(switches: Switches, d: Dpid, p: Port) returns (after: Switches, isNew: bool)
    ensures after == WithPort(switches, d, p, PortState(true, Plugged(switches, d, p) && switches[d][p].leave))
    ensures isNew <==> !Plugged(switches, d, p)
  {
    after := switches;
    var ports := PortsOf(switches, d);
    isNew := p !in ports;
    if isNew {
      ports := ports[p := PortState(true, false)];
    }
    if !ports[p].replied {
      ports := ports[p := ports[p].(replied := true)];
    }
    assert ports == PortsOf(switches, d)[p := PortState(true, Plugged(switches, d, p) && switches[d][p].leave)];
    after := after[d := ports];
  }

  method ExpirePorts(ports: Ports) returns (kept: Ports)
    ensures kept == KeptPorts(ports)
  {
    var delPorts: set<Port> := {};
    var todo := ports.Keys;
    while todo != {}
      invariant todo <= ports.Keys
      invariant delPorts == set p | p in ports.Keys - todo && !ports[p].replied
      decreases |todo|
    {
      var p :| p in todo;
      if !ports[p].replied {
        delPorts := delPorts + {p};
      }
      todo := todo - {p};
    }
    kept := ports - delPorts;
  }

  method ExpireSwitches(switches: Switches) returns (kept: Switches, delSwitches: set<Dpid>)
    ensures kept == KeptSwitches(switches)
    ensures delSwitches == switches.Keys - kept.Keys
  {
    kept, delSwitches := switches, {};
    var todo := switches.Keys;
    while todo != {}
      invariant todo <= switches.Keys == kept.Keys
      invariant forall d :: d in todo ==> kept[d] == switches[d]
      invariant forall d :: d in switches.Keys - todo ==> kept[d] == KeptPorts(switches[d])
      invariant delSwitches == set d | d in switches.Keys - todo && KeptPorts(switches[d]) == map[]
      decreases |todo|
    {
      var d :| d in todo;
      var ports := ExpirePorts(switches[d]);
      kept := kept[d := ports];
      if ports == map[] {
        delSwitches := delSwitches + {d};
      }
      todo := todo - {d};
    }
    kept := kept - delSwitches;
  }

  /** What is left of every group, which may be nothing. */
  ghost function Leftovers(before: Groups): Groups {
    map g | g in before :: KeptSwitches(before[g])
  }

  /** The group table when all groups but those in `todo` are down to their leftovers. */
  ghost predicate Thinned(before: Groups, left: Groups, todo: set<Group>, groups: Groups) {
    && todo <= before.Keys == groups.Keys == left.Keys
    && (forall g :: g in before && g in todo ==> groups[g] == before[g])
    && (forall g :: g in before && g !in todo ==> groups[g] == left[g])
  }

  /** The list of groups that have become empty, as far as groups outside `todo` are concerned. */
  ghost predicate Emptied(left: Groups, todo: set<Group>, delGroups: map<Group, set<Dpid>>) {
    forall g :: g in delGroups <==> g in left && g !in todo && left[g] == map[]
  }

  /** Every group on the list comes with the switches it had. */
  ghost predicate SwitchLists(before: Groups, delGroups: map<Group, set<Dpid>>) {
    delGroups.Keys <= before.Keys && forall g :: g in delGroups ==> delGroups[g] == before[g].Keys
  }

  class IgmpVirtualQuerier {
    var queriers: Queriers
    var groups: Groups
    var events: seq<Event>
    ghost var log: seq<Step>

    ghost predicate Valid()
      reads this
    {
      Sound(groups, queriers, log) && Replayed(events) == Live(groups.Keys)
    }

    constructor ()
      ensures Valid() && queriers == map[] && groups == map[] && events == [] && log == []
    {
      queriers, groups, events, log := map[], map[], [], [];
    }

    method SetQuerierMode(edges: set<Dpid>)
      requires Valid()
      modifies this`queriers
      ensures Valid()
      ensures queriers.Keys == old(queriers).Keys + edges
      ensures forall d :: d in queriers ==> queriers[d] == if d in old(queriers) then old(queriers)[d] else {}
    {
      queriers := map d | d in queriers.Keys + edges :: if d in queriers then queriers[d] else {};
    }

    /** Sends an event that keeps the replay in step. */
    method SendEvent(e: Event)
      requires Replayed(events).Live? && (e.Added? <==> e.group !in Replayed(events).groups)
      modifies this`events
      ensures events == old(events) + [e]
      ensures Replayed(events) == Live(match e
                                       case Added(g) => Replayed(old(events)).groups + {g}
                                       case Removed(g) => Replayed(old(events)).groups - {g}
                                       case MemberChanged(g) => Replayed(old(events)).groups)
    {
      ReplayedMore(events, e);
      events := events + [e];
    }

    /** Enters and announces a group that is not there. */
    method Announce(g: Group)
      requires Replayed(events) == Live(groups.Keys) && NoneEmpty(groups)
      modifies this`groups, this`events
      ensures Replayed(events) == Live(groups.Keys)
      ensures groups == old(groups)[g := SwitchesOf(old(groups), g)]
      ensures events == old(events) + if g in old(groups) then [] else [Added(g)]
    {
      if SwitchesOf(groups, g) == map[] {
        groups := groups[g := map[]];
        SendEvent(Added(g));
      }
    }

    /** Puts the sender of a report into the group table. */
    method Enrol(m: Member)
      requires Replayed(events) == Live(groups.Keys) && NoneEmpty(groups)
      modifies this`groups, this`events
      ensures Replayed(events) == Live(groups.Keys)
      ensures groups == WithMember(old(groups), m, Refreshed(old(groups), m))
      ensures events == old(events) + Announcements(old(groups), m)
    {
      ghost var before := groups;
      Announce(m.group);
      var switches, isNew := EnrolPort(groups[m.group], m.dpid, m.port);
      if isNew {
        SendEvent(MemberChanged(m.group));
      }
      Twice(before, m.group, groups[m.group], switches);
      groups := groups[m.group := switches];
    }

    /** A report makes its sender a member; it does not take back a leave. */
    method DoReport(m: Member)
      requires Valid() && m.dpid in queriers
      modifies this
      ensures Valid() && log == old(log) + [Reported(m)]
      ensures queriers == old(queriers)[m.dpid := old(queriers)[m.dpid] + {m.group}]
      ensures groups == WithMember(old(groups), m, Refreshed(old(groups), m))
      ensures events == old(events) + Announcements(old(groups), m)
    {
      RegisterSound(groups, queriers, log, m.dpid, m.group);
      queriers := queriers[m.dpid := queriers[m.dpid] + {m.group}];
      ReportSound(groups, queriers, log, m);
      Enrol(m);
      log := log + [Reported(m)];
    }

    /** A leave marks the member; the timer it starts may fire at any later time. */
    method DoLeave(m: Member) returns (managed: bool)
      requires Valid()
      modifies this`groups, this`log
      ensures Valid() && log == old(log) + [Left(m)]
      ensures managed <==> Present(old(groups), m)
      ensures groups == if managed then WithMember(old(groups), m, StateOf(old(groups), m).(leave := true))
                        else old(groups)
    {
      LeaveSound(groups, queriers, log, m);
      log := log + [Left(m)];
      managed := Present(groups, m);
      if managed {
        groups := WithMember(groups, m, StateOf(groups, m).(leave := true));
      }
    }

    /** Only switches in querier mode handle IGMP, and only reports and leaves have an effect. */
    method PacketIn(kind: MessageType, m: Member)
      requires Valid()
      modifies this
      ensures Valid()
      ensures kind == Query || m.dpid !in old(queriers) ==>
                groups == old(groups) && queriers == old(queriers) && events == old(events) && log == old(log)
      ensures kind == Report && m.dpid in old(queriers) ==>
                && groups == WithMember(old(groups), m, Refreshed(old(groups), m)) && log == old(log) + [Reported(m)]
                && queriers == old(queriers)[m.dpid := old(queriers)[m.dpid] + {m.group}]
                && events == old(events) + Announcements(old(groups), m)
      ensures kind == Leave && m.dpid in old(queriers) ==>
                log == old(log) + [Left(m)] && queriers == old(queriers) && events == old(events)
      ensures kind == Leave && m.dpid in old(queriers) && Present(old(groups), m) ==>
                groups == WithMember(old(groups), m, StateOf(old(groups), m).(leave := true))
      ensures kind == Leave && !Present(old(groups), m) ==> groups == old(groups)
    {
      if m.dpid !in queriers {
        return;
      }
      match kind
      case Query =>
      case Report =>
        DoReport(m);
      case Leave =>
        var managed := DoLeave(m);
    }

    method Unregister(g: Group, dpids: set<Dpid>)
      requires forall d :: d in dpids ==> d in queriers && g in queriers[d]
      modifies this`queriers
      ensures Dropped(old(queriers), queriers, g, dpids)
    {
      var todo := dpids;
      while todo != {}
        invariant todo <= dpids && Dropped(old(queriers), queriers, g, dpids - todo)
        decreases |todo|
      {
        var d :| d in todo;
        queriers := queriers[d := queriers[d] - {g}];
        todo := todo - {d};
      }
    }

    /** The timer of a leave: removes a member that is still marked, and has no effect otherwise. */
    method LeaveTimeout(m: Member)
      requires Valid()
      modifies this
      ensures Valid() && log == old(log) + [LeaveTimer(m)]
      ensures groups == if Present(old(groups), m) && StateOf(old(groups), m).leave then WithoutMember(old(groups), m)
                        else old(groups)
      ensures Present(groups, m) <==> Present(old(groups), m) && !LeftSinceEntered(old(log), m)
      ensures if m.group in old(groups) && m.group !in groups then Dropped(old(queriers), queriers, m.group, {m.dpid})
              else queriers == old(queriers)
      ensures events == old(events) + if Present(old(groups), m) && StateOf(old(groups), m).leave
                                      then Farewells(m.group, m.group !in groups) else []
    {
      TimerSound(groups, queriers, log, m);
      Outcome(groups, queriers, log, m);
      log := log + [LeaveTimer(m)];
      if !Present(groups, m) || !StateOf(groups, m).leave {
        return;
      }
      SendEvent(MemberChanged(m.group));
      Expel(m);
    }

    method Expel(m: Member)
      requires Present(groups, m) && m.dpid in queriers && m.group in queriers[m.dpid]
      requires Sound(WithoutMember(groups, m), queriers, log) && Replayed(events) == Live(groups.Keys)
      modifies this`groups, this`queriers, this`events
      ensures groups == WithoutMember(old(groups), m) && Valid()
      ensures if m.group in groups then queriers == old(queriers)
              else Dropped(old(queriers), queriers, m.group, {m.dpid})
      ensures events == old(events) + if m.group in groups then [] else [Removed(m.group)]
    {
      GroupGone(groups, m);
      groups := WithoutMember(groups, m);
      if m.group !in groups {
        ghost var before := queriers;
        Unregister(m.group, {m.dpid});
        DroppedSound(groups, before, queriers, log, m.group, {m.dpid});
        SendEvent(Removed(m.group));
      }
    }

    /** The start of a query round. */
    method ResetReplies()
      requires Valid()
      modifies this`groups, this`log
      ensures Valid() && log == old(log) + [Reset] && groups == ResetGroups(old(groups))
    {
      ResetSound(groups, queriers, log);
      ResetMeaning(groups);
      log := log + [Reset];
      groups := ResetGroups(groups);
    }

    /** Throws out the ports of one group that did not reply, and the switches this leaves empty. */
    method ThinOne(g: Group, delGroups: map<Group, set<Dpid>>, ghost before: Groups, ghost left: Groups,
                   ghost todo: set<Group>) returns (more: map<Group, set<Dpid>>)
      requires g in todo && Thinned(before, left, todo, groups) && left[g] == KeptSwitches(before[g])
      requires Emptied(left, todo, delGroups) && SwitchLists(before, delGroups)
      modifies this`groups
      ensures Thinned(before, left, todo - {g}, groups)
      ensures Emptied(left, todo - {g}, more) && SwitchLists(before, more)
    {
      ThinTable(before, left, todo, groups, g);
      ThinList(before, left, todo, delGroups, g);
      more := delGroups;
      var kept, delSwitches := ExpireSwitches(groups[g]);
      groups := groups[g := kept];
      if kept == map[] {
        more := more[g := delSwitches];
      }
    }

    method Thin(ghost left: Groups) returns (delGroups: map<Group, set<Dpid>>)
      requires left == Leftovers(groups)
      modifies this`groups
      ensures Thinned(old(groups), left, {}, groups) && Emptied(left, {}, delGroups)
      ensures SwitchLists(old(groups), delGroups)
    {
      ghost var before := groups;
      delGroups := map[];
      var todo := groups.Keys;
      while todo != {}
        invariant Thinned(before, left, todo, groups)
        invariant Emptied(left, todo, delGroups) && SwitchLists(before, delGroups)
        decreases |todo|
      {
        var g :| g in todo;
        delGroups := ThinOne(g, delGroups, before, left, todo);
        todo := todo - {g};
      }
    }

    /** Takes one empty group out of the table and the registrations, and announces that it is gone. */
    method Bury(g: Group, dpids: set<Dpid>)
      requires g in groups && Replayed(events) == Live(groups.Keys)
      requires forall d :: d in dpids ==> d in queriers && g in queriers[d]
      modifies this`groups, this`queriers, this`events
      ensures groups == old(groups) - {g} && Replayed(events) == Live(groups.Keys)
      ensures Dropped(old(queriers), queriers, g, dpids) && events == old(events) + [Removed(g)]
    {
      groups := groups - {g};
      Unregister(g, dpids);
      SendEvent(Removed(g));
    }

    /** Takes the empty groups out one after the other, in any order. */
    method BuryAll(delGroups: map<Group, set<Dpid>>, ghost kept: Groups) returns (ghost gone: seq<Group>)
      requires delGroups.Keys <= groups.Keys && kept == groups - delGroups.Keys
      requires Replayed(events) == Live(groups.Keys)
      requires Pending(delGroups.Keys, delGroups, queriers) && Sound(kept, queriers, log)
      modifies this`groups, this`queriers, this`events
      ensures groups == kept && Valid() && Deregistered(old(queriers), queriers, delGroups, delGroups.Keys)
      ensures NoRepeats(gone) && (forall g :: g in gone <==> g in delGroups) && events == old(events) + Removals(gone)
    {
      ghost var start := Start(groups, queriers, events);
      gone := [];
      var todo := delGroups.Keys;
      while todo != {}
        invariant Burying(start, delGroups, todo, kept, gone)
        decreases |todo|
      {
        var g :| g in todo;
        BuryNext(g, delGroups, todo, kept, start, gone);
        gone := gone + [g];
        todo := todo - {g};
      }
      AllBuried(start, delGroups, kept, gone);
    }

    /** Where the burying stands when the groups in `todo` are still to come and those in `gone` have gone. */
    ghost predicate Burying(start: Start, delGroups: map<Group, set<Dpid>>, todo: set<Group>, kept: Groups,
                            gone: seq<Group>)
      reads this
    {
      && TablesBuried(start.groups, delGroups.Keys, todo, groups, gone)
      && Registering(start.queriers, delGroups, todo, kept, queriers, log)
      && Announcing(start.events, gone, groups, events)
    }

    lemma AllBuried(start: Start, delGroups: map<Group, set<Dpid>>, kept: Groups, gone: seq<Group>)
      requires Burying(start, delGroups, {}, kept, gone) && kept == start.groups - delGroups.Keys
      ensures groups == kept && Valid() && Deregistered(start.queriers, queriers, delGroups, delGroups.Keys)
      ensures NoRepeats(gone) && (forall g :: g in gone <==> g in delGroups)
    {
      assert delGroups.Keys - {} == delGroups.Keys;
    }

    method BuryNext(g: Group, delGroups: map<Group, set<Dpid>>, ghost todo: set<Group>, ghost kept: Groups,
                    ghost start: Start, ghost gone: seq<Group>)
      requires Burying(start, delGroups, todo, kept, gone) && g in todo && g !in kept
      modifies this`groups, this`queriers, this`events
      ensures Burying(start, delGroups, todo - {g}, kept, gone + [g])
    {
      ghost var queriers', groups', events' := queriers, groups, events;
      TablesNext(start.groups, delGroups.Keys, todo, groups, gone, g);
      RegisteredFor(start.queriers, delGroups, todo, kept, queriers, log, g);
      Bury(g, delGroups[g]);
      RegisteringNext(start.queriers, delGroups, todo, kept, queriers', queriers, log, g);
      AnnouncingNext(start.events, gone, groups', groups, events', events, g);
    }

    /** The end of a query round: exactly the members that sent a report since its reset stay. */
    method Expire() returns (ghost gone: seq<Group>)
      requires Valid()
      modifies this
      ensures Valid() && log == old(log) + [Expiry] && groups == KeptGroups(old(groups))
      ensures forall m :: Present(groups, m) <==> Present(old(groups), m) && ReportedSinceReset(old(log), m)
      ensures ForgottenOnly(old(groups), groups, old(queriers), queriers)
      ensures NoRepeats(gone) && (forall g :: g in gone <==> g in old(groups) && g !in groups)
      ensures events == old(events) + Removals(gone)
    {
      ghost var before := groups;
      Survivors(groups, queriers, log);
      ExpirySound(groups, queriers, log);
      var delGroups := Thin(Leftovers(groups));
      PendingFirst(before, queriers, log, delGroups);
      log := log + [Expiry];
      LeftoversAre(before);
      KeptAre(before, Leftovers(before), groups, delGroups);
      ghost var registered, thinned := queriers, groups;
      gone := BuryAll(delGroups, KeptGroups(before));
      GoneForgotten(before, thinned, groups, delGroups, registered, queriers);
      assert forall g :: g in gone <==> g in before && g !in groups;
    }
  }

  /** What the burying starts from. */
  datatype Start = Start(groups: Groups, queriers: Queriers, events: seq<Event>)

  /** `gone` lists the groups of `all` outside `todo`, once each. */
  ghost predicate Gone(gone: seq<Group>, all: set<Group>, todo: set<Group>) {
    NoRepeats(gone) && forall g :: g in gone <==> g in all && g !in todo
  }

  lemma GoneNext(gone: seq<Group>, all: set<Group>, todo: set<Group>, g: Group)
    requires Gone(gone, all, todo) && g in todo && g in all
    ensures Gone(gone + [g], all, todo - {g})
  {
    assert g !in gone;
  }

  ghost predicate TablesBuried(thinned: Groups, all: set<Group>, todo: set<Group>, groups: Groups, gone: seq<Group>) {
    Buried(thinned, all, todo, groups) && Gone(gone, all, todo)
  }

  lemma TablesNext(thinned: Groups, all: set<Group>, todo: set<Group>, groups: Groups, gone: seq<Group>, g: Group)
    requires TablesBuried(thinned, all, todo, groups, gone) && g in todo
    ensures g in all && g in groups && TablesBuried(thinned, all, todo - {g}, groups - {g}, gone + [g])
  {
    BuriedNext(thinned, all, todo, groups, g);
    GoneNext(gone, all, todo, g);
  }

  ghost predicate Registering(registered: Queriers, delGroups: map<Group, set<Dpid>>, todo: set<Group>, kept: Groups,
                              queriers: Queriers, log: seq<Step>) {
    && Pending(todo, delGroups, queriers) && Sound(kept, queriers, log)
    && Deregistered(registered, queriers, delGroups, delGroups.Keys - todo)
  }

  lemma RegisteredFor(registered: Queriers, delGroups: map<Group, set<Dpid>>, todo: set<Group>, kept: Groups,
                      queriers: Queriers, log: seq<Step>, g: Group)
    requires Registering(registered, delGroups, todo, kept, queriers, log) && g in todo
    ensures g in delGroups && forall d :: d in delGroups[g] ==> d in queriers && g in queriers[d]
  {
  }

  lemma RegisteringNext(registered: Queriers, delGroups: map<Group, set<Dpid>>, todo: set<Group>, kept: Groups,
                        was: Queriers, queriers: Queriers, log: seq<Step>, g: Group)
    requires Registering(registered, delGroups, todo, kept, was, log) && g in todo && g !in kept
    requires g in delGroups && Dropped(was, queriers, g, delGroups[g])
    ensures Registering(registered, delGroups, todo - {g}, kept, queriers, log)
  {
    PendingNext(todo, delGroups, was, queriers, g);
    DroppedSound(kept, was, queriers, log, g, delGroups[g]);
    DeregisteredNext(registered, was, queriers, delGroups, todo, g);
  }

  ghost predicate Announcing(before: seq<Event>, gone: seq<Group>, groups: Groups, events: seq<Event>) {
    Replayed(events) == Live(groups.Keys) && events == before + Removals(gone)
  }

  lemma AnnouncingNext(before: seq<Event>, gone: seq<Group>, was: Groups, groups: Groups, events: seq<Event>,
                       more: seq<Event>, g: Group)
    requires Announcing(before, gone, was, events) && more == events + [Removed(g)]
    requires groups == was - {g} && Replayed(more) == Live(groups.Keys)
    ensures Announcing(before, gone + [g], groups, more)
  {
    RemovalsMore(gone, g);
    assert before + Removals(gone) + [Removed(g)] == before + (Removals(gone) + [Removed(g)]);
  }

  /** Who survives an expiry, in terms of the history. */
  lemma Survivors(groups: Groups, queriers: Queriers, log: seq<Step>)
    requires Sound(groups, queriers, log)
    ensures forall m :: Present(KeptGroups(groups), m) <==> Present(groups, m) && ReportedSinceReset(log, m)
  {
    KeptMeaning(groups);
    forall m | Present(groups, m)
      ensures StateOf(groups, m).replied <==> ReportedSinceReset(log, m)
    {
      FlagsMean(groups, queriers, log, m);
    }
  }

  /** Groups still to be buried have their switches registered. */
  ghost predicate Pending(todo: set<Group>, delGroups: map<Group, set<Dpid>>, queriers: Queriers) {
    todo <= delGroups.Keys &&
    forall g, d :: g in todo && d in delGroups[g] ==> d in queriers && g in queriers[d]
  }

  lemma PendingFirst(before: Groups, queriers: Queriers, log: seq<Step>, delGroups: map<Group, set<Dpid>>)
    requires Sound(before, queriers, log) && SwitchLists(before, delGroups)
    ensures Pending(delGroups.Keys, delGroups, queriers)
  {
    forall g, d | g in delGroups && d in delGroups[g]
      ensures d in queriers && g in queriers[d]
    {
      ListedRegistered(before, queriers, log, g, d);
    }
  }

  /** What burying the groups in `done` does to the registrations: those of their switches go. */
  ghost predicate Deregistered(before: Queriers, after: Queriers, delGroups: map<Group, set<Dpid>>, done: set<Group>) {
    && after.Keys == before.Keys && done <= delGroups.Keys
    && forall d, g :: d in after ==> (g in after[d] <==> g in before[d] && !(g in done && d in delGroups[g]))
  }

  lemma DeregisteredNext(before: Queriers, was: Queriers, after: Queriers, delGroups: map<Group, set<Dpid>>,
                         todo: set<Group>, g: Group)
    requires Deregistered(before, was, delGroups, delGroups.Keys - todo) && g in todo && g in delGroups
    requires Dropped(was, after, g, delGroups[g])
    ensures Deregistered(before, after, delGroups, delGroups.Keys - (todo - {g}))
  {
  }

  lemma PendingNext(todo: set<Group>, delGroups: map<Group, set<Dpid>>, before: Queriers, after: Queriers, g: Group)
    requires Pending(todo, delGroups, before) && g in todo && Dropped(before, after, g, delGroups[g])
    ensures Pending(todo - {g}, delGroups, after)
  {
  }

  /** The thinned-out table once the empty groups but those in `todo` are gone. */
  ghost predicate Buried(thinned: Groups, gone: set<Group>, todo: set<Group>, groups: Groups) {
    todo <= gone <= thinned.Keys && groups == thinned - (gone - todo)
  }

  lemma BuriedNext(thinned: Groups, gone: set<Group>, todo: set<Group>, groups: Groups, g: Group)
    requires Buried(thinned, gone, todo, groups) && g in todo
    ensures g in groups && Buried(thinned, gone, todo - {g}, groups - {g})
  {
  }

  /** Registrations go exactly where a group has gone, at the switches it was listed for. */
  ghost predicate ForgottenOnly(before: Groups, after: Groups, registered: Queriers, queriers: Queriers) {
    && queriers.Keys == registered.Keys
    && forall d, g :: d in queriers ==>
         (g in queriers[d] <==> g in registered[d] && !(g in before && g !in after && d in before[g]))
  }

  lemma GoneForgotten(before: Groups, thinned: Groups, after: Groups, delGroups: map<Group, set<Dpid>>,
                      registered: Queriers, queriers: Queriers)
    requires before.Keys == thinned.Keys && after == thinned - delGroups.Keys && SwitchLists(before, delGroups)
    requires Deregistered(registered, queriers, delGroups, delGroups.Keys)
    ensures ForgottenOnly(before, after, registered, queriers)
  {
  }

  lemma LeftoversAre(before: Groups)
    ensures KeptGroups(before) ==
            map g | g in Leftovers(before) && Leftovers(before)[g] != map[] :: Leftovers(before)[g]
  {
  }

  lemma KeptAre(before: Groups, left: Groups, thinned: Groups, delGroups: map<Group, set<Dpid>>)
    requires Thinned(before, left, {}, thinned) && Emptied(left, {}, delGroups)
    ensures delGroups.Keys <= thinned.Keys
    ensures thinned - delGroups.Keys == map g | g in left && left[g] != map[] :: left[g]
  {
  }

  lemma ThinTable(before: Groups, left: Groups, todo: set<Group>, groups: Groups, g: Group)
    requires Thinned(before, left, todo, groups) && g in todo
    ensures Thinned(before, left, todo - {g}, groups[g := left[g]])
  {
  }

  lemma ThinList(before: Groups, left: Groups, todo: set<Group>, delGroups: map<Group, set<Dpid>>, g: Group)
    requires Emptied(left, todo, delGroups) && SwitchLists(before, delGroups) && g in todo && g in left && g in before
    ensures left[g] != map[] ==> Emptied(left, todo - {g}, delGroups)
    ensures left[g] == map[] ==> Emptied(left, todo - {g}, delGroups[g := before[g].Keys]) &&
                                 SwitchLists(before, delGroups[g := before[g].Keys])
  {
  }

  lemma Twice(groups: Groups, g: Group, first: Switches, second: Switches)
    ensures groups[g := first][g := second] == groups[g := second]
    ensures groups[g := second].Keys == groups[g := first].Keys == groups.Keys + {g}
  {
  }

  lemma GroupGone(groups: Groups, m: Member)
    requires Present(groups, m)
    ensures WithoutMember(groups, m).Keys ==
            if m.group in WithoutMember(groups, m) then groups.Keys else groups.Keys - {m.group}
  {
  }

  /** A run that surprises: report, leave, report, and when the timer of the leave has fired the member is gone. */
  lemma GoneAfterTimer(groups: Groups, queriers: Queriers, log: seq<Step>, m: Member)
    requires Sound(groups, queriers, log) && log == [Reported(m), Left(m), Reported(m), LeaveTimer(m)]
    ensures !Present(groups, m)
  {
    ReportDoesNotSave(m);
    assert log == [Reported(m), Left(m), Reported(m)] + [LeaveTimer(m)];
    assert StandingIn(groups, m) == StandingAfter(log, m);
  }
}
