/** One unresolved ARP broadcast spreading through a network of switches, loops and all. */
module ArpFlooding {
  import opened Walks
  import opened ArpHandler

  datatype Net = Net(ports: map<Dpid, set<Port>>, links: map<Plug, Plug>) {
    predicate HasPort(x: Plug) {
      x.sw in ports && x.port in ports[x.sw]
    }

    /** A cable has two ends, each the other one's other end. */
    ghost predicate Valid() {
      forall x :: x in links ==> HasPort(x) && links[x] in links && links[links[x]] == x
    }

    ghost predicate HostPort(x: Plug) {
      HasPort(x) && x !in links
    }

    /** Whoever starts at `root` and follows cables gets everywhere. */
    ghost predicate ConnectedFrom(root: Dpid) {
      forall reached: set<Dpid> :: root in reached && FollowsCables(reached) ==> ports.Keys <= reached
    }

    ghost predicate FollowsCables(reached: set<Dpid>) {
      forall x :: x in links && x.sw in reached ==> links[x].sw in reached
    }

    ghost function AllPlugs(): set<Plug> {
      set sw, port | sw in ports && port in ports[sw] :: Plug(sw, port)
    }

    /** Where the copies of a flood arrive at other switches. */
    ghost function Copies(x: Plug): set<Plug>
      requires x.sw in ports
    {
      set port | port in ports[x.sw] && port != x.port && Plug(x.sw, port) in links :: links[Plug(x.sw, port)]
    }

    /** The hosts that get a copy of a flood. */
    ghost function HostCopies(x: Plug): set<Plug>
      requires x.sw in ports
    {
      set port | port in ports[x.sw] && port != x.port && Plug(x.sw, port) !in links :: Plug(x.sw, port)
    }
  }

  /** Block entries, copies on their way, and a record of what has happened. */
  datatype State = State(entries: Entries, flight: multiset<Plug>, hosts: multiset<Plug>,
                         floods: multiset<Dpid>, handled: seq<Plug>, visits: seq<Dpid>)

  function EntryAt(entries: map<Dpid, Entry>, sw: Dpid): Option<Entry> {
    if sw in entries then Some(entries[sw]) else None
  }

  ghost predicate Init(net: Net, s: State, ingress: Plug) {
    net.HostPort(ingress) && s == State(map[], multiset{ingress}, multiset{}, multiset{}, [], [])
  }

  /** A copy is handled at `x` at time `now`. */
  ghost predicate Handles(net: Net, s: State, t: State, x: Plug, now: real) {
    && x in s.flight && net.HasPort(x)
    && var outcome := Strategy(EntryAt(s.entries, x.sw), x.port, now);
    && t.entries == (match outcome.entry
                     case None => s.entries - {x.sw}
                     case Some(e) => s.entries[x.sw := e])
    && t.handled == s.handled + [x]
    && t.visits == (if x.sw in s.entries then s.visits else s.visits + [x.sw])
    && if outcome.verdict == Flood then
         && t.flight == s.flight - multiset{x} + multiset(net.Copies(x))
         && t.hosts == s.hosts + multiset(net.HostCopies(x)) && t.floods == s.floods + multiset{x.sw}
       else t.flight == s.flight - multiset{x} && t.hosts == s.hosts && t.floods == s.floods
  }

  /** No more than ten seconds after the first copy at the same switch. */
  ghost predicate InTime(entries: Entries, x: Plug, now: real) {
    x.sw in entries ==> now <= entries[x.sw].timestamp + 10.0
  }

  ghost predicate Deliver(net: Net, s: State, t: State, x: Plug, now: real) {
    Handles(net, s, t, x, now) && InTime(s.entries, x, now)
  }

  ghost predicate Step(net: Net, s: State, t: State) {
    exists x, now :: Deliver(net, s, t, x, now)
  }

  ghost predicate Run(net: Net, states: seq<State>, ingress: Plug) {
    && states != [] && Init(net, states[0], ingress)
    && forall i: nat :: StepAt(net, states, i)
  }

  ghost predicate StepAt(net: Net, states: seq<State>, i: nat) {
    i < |states| - 1 ==> Step(net, states[i], states[i + 1])
  }

  /** A run in which every copy is handled within ten seconds of time `begin`. */
  ghost predicate TimedRun(net: Net, states: seq<State>, ingress: Plug, begin: real) {
    && states != [] && Init(net, states[0], ingress)
    && forall i: nat :: TimedStepAt(net, states, begin, i)
  }

  ghost predicate TimedStepAt(net: Net, states: seq<State>, begin: real, i: nat) {
    i < |states| - 1 ==> StepWithin(net, states[i], states[i + 1], begin)
  }

  ghost predicate StepWithin(net: Net, s: State, t: State, begin: real) {
    exists x, now :: begin <= now <= begin + 10.0 && Handles(net, s, t, x, now)
  }

  ghost predicate Begun(entries: Entries, begin: real) {
    forall v :: v in entries ==> begin <= entries[v].timestamp
  }

  lemma TimedStep(net: Net, s: State, t: State, x: Plug, begin: real, now: real)
    requires Begun(s.entries, begin) && begin <= now <= begin + 10.0 && Handles(net, s, t, x, now)
    ensures Deliver(net, s, t, x, now) && Begun(t.entries, begin)
  {
  }

  lemma {:induction false} TimedBegun(net: Net, states: seq<State>, ingress: Plug, begin: real, i: nat)
    requires TimedRun(net, states, ingress, begin) && i < |states|
    ensures Begun(states[i].entries, begin)
  {
    if i > 0 {
      TimedBegun(net, states, ingress, begin, i - 1);
      assert TimedStepAt(net, states, begin, i - 1);
      var x, now :| begin <= now <= begin + 10.0 && Handles(net, states[i - 1], states[i], x, now);
      TimedStep(net, states[i - 1], states[i], x, begin, now);
    }
  }

  /** When all copies are handled within ten seconds, none is late anywhere. */
  lemma TimedRunInTime(net: Net, states: seq<State>, ingress: Plug, begin: real)
    requires TimedRun(net, states, ingress, begin)
    ensures Run(net, states, ingress)
  {
    forall i: nat | i < |states| - 1
      ensures StepAt(net, states, i)
    {
      TimedBegun(net, states, ingress, begin, i);
      assert TimedStepAt(net, states, begin, i);
      var x, now :| begin <= now <= begin + 10.0 && Handles(net, states[i], states[i + 1], x, now);
      TimedStep(net, states[i], states[i + 1], x, begin, now);
    }
  }

  // ---------- the invariant ----------

  /** A copy was sent towards `x`: from the host, or by the flood of the switch at the other end. */
  ghost predicate Sent(net: Net, entries: map<Dpid, Entry>, ingress: Plug, x: Plug) {
    x == ingress ||
    (x in net.links && net.links[x].sw in entries && entries[net.links[x].sw].port != net.links[x].port)
  }

  type Entries = map<Dpid, Entry>

  /** Every copy sent is on its way once, or has been handled. */
  ghost predicate Flying(net: Net, entries: Entries, flight: multiset<Plug>, handled: seq<Plug>, ingress: Plug) {
    && (forall x :: flight[x] == if Sent(net, entries, ingress, x) && x !in handled then 1 else 0)
    && (forall x :: x in handled ==> Sent(net, entries, ingress, x))
  }

  /** A switch has an entry exactly if a copy was handled there, and its port is one a copy came in by. */
  ghost predicate Marked(net: Net, entries: Entries, handled: seq<Plug>) {
    && (forall v :: v in entries ==>
          Plug(v, entries[v].port) in handled && v in net.ports && entries[v].floodTimes == 1)
    && (forall x :: x in handled ==> x.sw in entries && net.HasPort(x))
    && NoRepeats(handled)
  }

  /** Every visited switch has flooded once, and its hosts have one copy each. */
  ghost predicate Counted(net: Net, entries: Entries, floods: multiset<Dpid>, hosts: multiset<Plug>) {
    && (forall v: Dpid :: floods[v] == if v in entries then 1 else 0)
    && (forall x :: hosts[x] == if Served(net, entries, x) then 1 else 0)
  }

  ghost predicate Served(net: Net, entries: Entries, x: Plug) {
    net.HostPort(x) && x.sw in entries && x.port != entries[x.sw].port
  }

  /** The first in-ports make a tree: in the order of the visits, each one leads to an earlier switch. */
  ghost predicate Tree(net: Net, entries: Entries, visits: seq<Dpid>, ingress: Plug) {
    && (forall v :: v in visits <==> v in entries) && NoRepeats(visits)
    && (visits != [] ==> visits[0] == ingress.sw && ingress.sw in entries && entries[ingress.sw].port == ingress.port)
    && (forall i :: 0 < i < |visits| ==> ParentBefore(net, entries, visits, i))
  }

  ghost predicate ParentBefore(net: Net, entries: Entries, visits: seq<Dpid>, i: nat)
    requires i < |visits|
  {
    && visits[i] in entries
    && var x := Plug(visits[i], entries[visits[i]].port);
    && x in net.links && net.links[x].sw in visits[..i]
  }

  ghost predicate Inv(net: Net, s: State, ingress: Plug) {
    && Flying(net, s.entries, s.flight, s.handled, ingress) && Marked(net, s.entries, s.handled)
    && Counted(net, s.entries, s.floods, s.hosts) && Tree(net, s.entries, s.visits, ingress)
  }

  lemma InitInv(net: Net, s: State, ingress: Plug)
    requires net.Valid() && Init(net, s, ingress)
    ensures Inv(net, s, ingress)
  {
  }

  // ---------- a copy at a switch that is already marked ----------

  /** It comes in by another port than the first copy did. */
  lemma OtherPort(net: Net, entries: Entries, flight: multiset<Plug>, handled: seq<Plug>, ingress: Plug, x: Plug)
    requires Flying(net, entries, flight, handled, ingress) && Marked(net, entries, handled) && x in flight
    ensures x !in handled && (x.sw in entries ==> entries[x.sw].port != x.port)
  {
    assert flight[x] > 0;
  }

  lemma FlyingLess(net: Net, entries: Entries, flight: multiset<Plug>, handled: seq<Plug>, ingress: Plug, x: Plug)
    requires Flying(net, entries, flight, handled, ingress) && x in flight
    ensures Flying(net, entries, flight - multiset{x}, handled + [x], ingress)
  {
    assert flight[x] > 0;
    forall y
      ensures y in handled + [x] <==> y in handled || y == x
    {
    }
  }

  lemma MarkedMore(net: Net, entries: Entries, handled: seq<Plug>, x: Plug)
    requires Marked(net, entries, handled) && x.sw in entries && net.HasPort(x) && x !in handled
    ensures Marked(net, entries, handled + [x])
  {
  }

  /** So it is blocked. */
  lemma DuplicateBlocked(net: Net, s: State, t: State, x: Plug, now: real)
    requires Deliver(net, s, t, x, now) && x.sw in s.entries && s.entries[x.sw].port != x.port
    ensures t == s.(flight := s.flight - multiset{x}, handled := s.handled + [x])
  {
    assert s.entries[x.sw := s.entries[x.sw]] == s.entries;
  }

  lemma DuplicateInv(net: Net, s: State, t: State, ingress: Plug, x: Plug, now: real)
    requires Inv(net, s, ingress) && Deliver(net, s, t, x, now) && x.sw in s.entries
    ensures Inv(net, t, ingress)
  {
    OtherPort(net, s.entries, s.flight, s.handled, ingress, x);
    DuplicateBlocked(net, s, t, x, now);
    FlyingLess(net, s.entries, s.flight, s.handled, ingress, x);
    MarkedMore(net, s.entries, s.handled, x);
  }

  // ---------- the first copy at a switch ----------

  /** It is flooded. */
  lemma FirstFloods(net: Net, s: State, t: State, x: Plug, now: real)
    requires Deliver(net, s, t, x, now) && x.sw !in s.entries
    ensures t == State(s.entries[x.sw := Entry(x.port, 1, now)], s.flight - multiset{x} + multiset(net.Copies(x)),
                       s.hosts + multiset(net.HostCopies(x)), s.floods + multiset{x.sw}, s.handled + [x],
                       s.visits + [x.sw])
  {
  }

  lemma CopyOf(net: Net, x: Plug, y: Plug)
    requires net.Valid() && net.HasPort(x)
    ensures y in net.Copies(x) <==> y in net.links && net.links[y].sw == x.sw && net.links[y].port != x.port
  {
    if y in net.links && net.links[y].sw == x.sw && net.links[y].port != x.port {
      assert y == net.links[Plug(x.sw, net.links[y].port)];
    }
  }

  /** The flood sends exactly the copies that had not been sent before. */
  lemma FirstSent(net: Net, entries: Entries, ingress: Plug, x: Plug, e: Entry, y: Plug)
    requires net.Valid() && net.HostPort(ingress) && x.sw !in entries && net.HasPort(x) && e.port == x.port
    ensures Sent(net, entries[x.sw := e], ingress, y) <==> Sent(net, entries, ingress, y) || y in net.Copies(x)
    ensures y in net.Copies(x) ==> !Sent(net, entries, ingress, y)
  {
    CopyOf(net, x, y);
  }

  lemma FlyingMore(net: Net, entries: Entries, flight: multiset<Plug>, handled: seq<Plug>, ingress: Plug, x: Plug,
                   e: Entry)
    requires net.Valid() && net.HostPort(ingress) && x.sw !in entries && net.HasPort(x) && e.port == x.port
    requires Flying(net, entries, flight, handled, ingress) && x in flight
    ensures Flying(net, entries[x.sw := e], flight - multiset{x} + multiset(net.Copies(x)), handled + [x], ingress)
  {
    FlyingLess(net, entries, flight, handled, ingress, x);
    var less, more := flight - multiset{x}, handled + [x];
    forall y
      ensures (less + multiset(net.Copies(x)))[y] ==
              if Sent(net, entries[x.sw := e], ingress, y) && y !in more then 1 else 0
      ensures y in more ==> Sent(net, entries[x.sw := e], ingress, y)
    {
      FirstSent(net, entries, ingress, x, e, y);
      assert less[y] == if Sent(net, entries, ingress, y) && y !in more then 1 else 0;
    }
  }

  lemma MarkedFirst(net: Net, entries: Entries, handled: seq<Plug>, x: Plug, now: real)
    requires Marked(net, entries, handled) && x.sw !in entries && net.HasPort(x) && x !in handled
    ensures Marked(net, entries[x.sw := Entry(x.port, 1, now)], handled + [x])
  {
  }

  lemma CountedFirst(net: Net, entries: Entries, floods: multiset<Dpid>, hosts: multiset<Plug>, x: Plug, e: Entry)
    requires Counted(net, entries, floods, hosts) && x.sw !in entries && net.HasPort(x) && e.port == x.port
    ensures Counted(net, entries[x.sw := e], floods + multiset{x.sw}, hosts + multiset(net.HostCopies(x)))
  {
    forall y
      ensures Served(net, entries[x.sw := e], y) <==> Served(net, entries, y) || y in net.HostCopies(x)
      ensures y in net.HostCopies(x) ==> !Served(net, entries, y)
    {
      assert y in net.HostCopies(x) <==> y.sw == x.sw && net.HostPort(y) && y.port != x.port;
    }
  }

  lemma TreeFirst(net: Net, entries: Entries, flight: multiset<Plug>, handled: seq<Plug>, visits: seq<Dpid>,
                  ingress: Plug, x: Plug, e: Entry)
    requires Flying(net, entries, flight, handled, ingress) && Marked(net, entries, handled) && x in flight
    requires Tree(net, entries, visits, ingress) && x.sw !in entries && e.port == x.port
    ensures Tree(net, entries[x.sw := e], visits + [x.sw], ingress)
  {
    assert flight[x] > 0;
    var entries', visits' := entries[x.sw := e], visits + [x.sw];
    forall i | 0 < i < |visits'|
      ensures ParentBefore(net, entries', visits', i)
    {
      if i < |visits| {
        assert ParentBefore(net, entries, visits, i);
        assert visits'[..i] == visits[..i];
      } else {
        assert visits'[..i] == visits;
        NotIngress(net, entries, handled, visits, ingress, x);
      }
    }
    if visits == [] {
      assert entries == map[];
    }
  }

  /** Once the ingress switch is marked, a first copy elsewhere came over a cable. */
  lemma NotIngress(net: Net, entries: Entries, handled: seq<Plug>, visits: seq<Dpid>, ingress: Plug, x: Plug)
    requires Tree(net, entries, visits, ingress) && visits != [] && x.sw !in entries
    requires Sent(net, entries, ingress, x)
    ensures x in net.links && net.links[x].sw in visits
  {
  }

  lemma FirstInv(net: Net, s: State, t: State, ingress: Plug, x: Plug, now: real)
    requires net.Valid() && net.HostPort(ingress) && Inv(net, s, ingress)
    requires Deliver(net, s, t, x, now) && x.sw !in s.entries
    ensures Inv(net, t, ingress)
  {
    var e := Entry(x.port, 1, now);
    FirstFloods(net, s, t, x, now);
    OtherPort(net, s.entries, s.flight, s.handled, ingress, x);
    FlyingMore(net, s.entries, s.flight, s.handled, ingress, x, e);
    MarkedFirst(net, s.entries, s.handled, x, now);
    CountedFirst(net, s.entries, s.floods, s.hosts, x, e);
    TreeFirst(net, s.entries, s.flight, s.handled, s.visits, ingress, x, e);
  }

  lemma StepInv(net: Net, s: State, t: State, ingress: Plug)
    requires net.Valid() && net.HostPort(ingress) && Inv(net, s, ingress) && Step(net, s, t)
    ensures Inv(net, t, ingress) && |t.handled| == |s.handled| + 1
  {
    var x, now :| Deliver(net, s, t, x, now);
    if x.sw in s.entries {
      DuplicateInv(net, s, t, ingress, x, now);
    } else {
      FirstInv(net, s, t, ingress, x, now);
    }
  }

  lemma {:induction false} RunInv(net: Net, states: seq<State>, ingress: Plug, i: nat)
    requires net.Valid() && Run(net, states, ingress) && i < |states|
    ensures Inv(net, states[i], ingress) && |states[i].handled| == i
  {
    if i == 0 {
      InitInv(net, states[0], ingress);
    } else {
      RunInv(net, states, ingress, i - 1);
      assert StepAt(net, states, i - 1);
      StepInv(net, states[i - 1], states[i], ingress);
    }
  }

  // ---------- the theorem ----------

  lemma {:induction false} CountOnce(list: seq<Plug>, all: set<Plug>)
    requires NoRepeats(list) && forall x :: x in list ==> x in all
    ensures |list| <= |all|
  {
    if list != [] {
      var n := |list| - 1;
      assert list[n] !in list[..n] && list[n] in all;
      CountOnce(list[..n], all - {list[n]});
    }
  }

  /** When no copy is on its way any more, the marked switches are closed under cables. */
  lemma QuietIsClosed(net: Net, s: State, ingress: Plug)
    requires net.Valid() && net.HostPort(ingress) && Inv(net, s, ingress) && s.flight == multiset{}
    ensures net.FollowsCables(s.entries.Keys) && ingress.sw in s.entries
  {
    forall x | x in net.links && x.sw in s.entries
      ensures net.links[x].sw in s.entries
    {
      var y := net.links[x];
      assert net.links[y] == x;
      if s.entries[x.sw].port != x.port {
        assert Sent(net, s.entries, ingress, y) && s.flight[y] == 0;
      } else {
        assert x in s.handled;
      }
    }
    assert Sent(net, s.entries, ingress, ingress) && s.flight[ingress] == 0;
  }

  lemma Quiet(net: Net, s: State, ingress: Plug)
    requires net.Valid() && net.HostPort(ingress) && net.ConnectedFrom(ingress.sw)
    requires Inv(net, s, ingress) && s.flight == multiset{}
    ensures Spread(net, s, ingress)
  {
    QuietIsClosed(net, s, ingress);
    assert s.entries.Keys == net.ports.Keys;
    forall x | net.HostPort(x)
      ensures Served(net, s.entries, x) <==> x != ingress
    {
      HostServed(net, s.entries, s.visits, ingress, x);
    }
  }

  /** No first in-port but the ingress has a host. */
  lemma HostServed(net: Net, entries: Entries, visits: seq<Dpid>, ingress: Plug, x: Plug)
    requires Tree(net, entries, visits, ingress) && net.HostPort(x) && x.sw in entries
    ensures Served(net, entries, x) <==> x != ingress
  {
    var i :| 0 <= i < |visits| && visits[i] == x.sw;
    if i > 0 {
      assert ParentBefore(net, entries, visits, i);
    }
  }

  /** Every switch has flooded once, and every host but the sender's port has one copy. */
  ghost predicate Spread(net: Net, s: State, ingress: Plug) {
    && (forall v :: v in net.ports <==> v in s.visits)
    && (forall v :: s.floods[v] == if v in net.ports then 1 else 0)
    && (forall x :: s.hosts[x] == if net.HostPort(x) && x != ingress then 1 else 0)
  }

  /** No schedule of the copies of one broadcast goes on for ever: no port ever handles two of them. */
  lemma EveryScheduleEnds(net: Net, states: seq<State>, ingress: Plug)
    requires net.Valid() && Run(net, states, ingress)
    ensures |states| <= |net.AllPlugs()| + 1
  {
    RunInv(net, states, ingress, |states| - 1);
    CountOnce(states[|states| - 1].handled, net.AllPlugs());
  }

  /**
   * When it has ended, every switch of a connected network has flooded exactly once, every host but the sender's
   * port has exactly one copy, and the first in-ports are a tree that spans the network.
   */
  lemma BroadcastSpreads(net: Net, states: seq<State>, ingress: Plug)
    requires net.Valid() && net.ConnectedFrom(ingress.sw) && Run(net, states, ingress)
    ensures Tree(net, states[|states| - 1].entries, states[|states| - 1].visits, ingress)
    ensures states[|states| - 1].flight == multiset{} ==> Spread(net, states[|states| - 1], ingress)
  {
    var s := states[|states| - 1];
    RunInv(net, states, ingress, |states| - 1);
    if s.flight == multiset{} {
      Quiet(net, s, ingress);
    }
  }

  /** As long as a copy is on its way, something can happen. */
  lemma NeverStuck(net: Net, s: State, ingress: Plug) returns (t: State)
    requires net.Valid() && net.HostPort(ingress) && Inv(net, s, ingress) && s.flight != multiset{}
    ensures Step(net, s, t)
  {
    var x :| x in s.flight;
    assert s.flight[x] > 0;
    OtherPort(net, s.entries, s.flight, s.handled, ingress, x);
    if x.sw in s.entries {
      t := BlockOne(net, s, x);
    } else {
      t := FloodOne(net, s, x);
    }
  }

  lemma BlockOne(net: Net, s: State, x: Plug) returns (t: State)
    requires x in s.flight && net.HasPort(x) && x.sw in s.entries && s.entries[x.sw].port != x.port
    ensures Step(net, s, t)
  {
    t := s.(flight := s.flight - multiset{x}, handled := s.handled + [x]);
    assert s.entries[x.sw := s.entries[x.sw]] == s.entries;
    assert Deliver(net, s, t, x, s.entries[x.sw].timestamp);
  }

  lemma FloodOne(net: Net, s: State, x: Plug) returns (t: State)
    requires x in s.flight && net.HasPort(x) && x.sw !in s.entries
    ensures Step(net, s, t)
  {
    t := State(s.entries[x.sw := Entry(x.port, 1, 0.0)], s.flight - multiset{x} + multiset(net.Copies(x)),
               s.hosts + multiset(net.HostCopies(x)), s.floods + multiset{x.sw}, s.handled + [x], s.visits + [x.sw]);
    assert Deliver(net, s, t, x, 0.0);
  }

  /** `path` leads from its first switch to the ingress, always out by the first in-port. */
  ghost predicate Climbs(net: Net, entries: Entries, path: seq<Dpid>, ingress: Plug) {
    && path != [] && path[|path| - 1] == ingress.sw
    && forall i :: 0 <= i < |path| - 1 ==>
         && path[i] in entries && Plug(path[i], entries[path[i]].port) in net.links
         && net.links[Plug(path[i], entries[path[i]].port)].sw == path[i + 1]
  }

  /** In such a tree every visited switch climbs to the ingress. */
  lemma {:induction false} TreeClimbs(net: Net, entries: Entries, visits: seq<Dpid>, ingress: Plug, i: nat)
    returns (path: seq<Dpid>)
    requires Tree(net, entries, visits, ingress) && i < |visits|
    ensures Climbs(net, entries, path, ingress) && path[0] == visits[i] && |path| <= i + 1
    decreases i
  {
    if i == 0 {
      path := [visits[0]];
    } else {
      assert ParentBefore(net, entries, visits, i);
      var parent := net.links[Plug(visits[i], entries[visits[i]].port)].sw;
      var j :| 0 <= j < i && visits[..i][j] == parent;
      var rest := TreeClimbs(net, entries, visits, ingress, j);
      path := [visits[i]] + rest;
    }
  }
}
