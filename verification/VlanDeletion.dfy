/** Deleting by cookie: what goes from the switch when routes or addresses are deleted. */
module VlanDeletion {
  import opened Walks
  import opened Prefixes
  import opened RouteTables
  import opened AddressTables
  import opened VlanRouting

  datatype Selection = All | Id(id: int)

  /** Route ids from here on do not fit their field of the cookie. */
  const ROUTE_IDS := 0x1_0000

  // ---------- which flows are listed ----------

  predicate Selects(sel: Selection, id: nat) {
    match sel
    case All => id != 0
    case Id(n) => id == n
  }

  /** The test for the deletion of routes; it looks at nothing but the cookie. */
  predicate ListsRoute(vlan: nat, sel: Selection, cookie: nat) {
    VlanOf(cookie) == vlan && Selects(sel, RouteIdOf(cookie))
  }

  /** The test for the deletion of addresses. */
  predicate ListsAddress(vlan: nat, sel: Selection, skip: set<int>, cookie: nat) {
    && VlanOf(cookie) == vlan && AddressIdOf(cookie) !in skip
    && match sel
       case All => 0 < AddressIdOf(cookie) < ROUTE_IDS
       case Id(n) => AddressIdOf(cookie) == n
  }

  // ---------- deleting listed flows one by one ----------

  ghost function CookiesOf(snapshot: Flows, done: set<Slot>): set<nat> {
    set s | s in done && s in snapshot :: snapshot[s].cookie
  }

  /** What is left when the flows in `done` have been deleted by cookie. */
  ghost function Stripped(snapshot: Flows, done: set<Slot>): Flows {
    map s | s in snapshot && snapshot[s].cookie !in CookiesOf(snapshot, done) :: snapshot[s]
  }

  /** The same when in addition the drop flow is put back after the catch-all. */
  ghost function Cleared(vlan: nat, snapshot: Flows, done: set<Slot>): Flows {
    if DropSlot(vlan) in done then Stripped(snapshot, done)[DropSlot(vlan) := DropFlow(vlan)]
    else Stripped(snapshot, done)
  }

  lemma StrippedMore(snapshot: Flows, done: set<Slot>, s: Slot)
    requires s in snapshot
    ensures Purged(Stripped(snapshot, done), snapshot[s].cookie) == Stripped(snapshot, done + {s})
  {
    assert CookiesOf(snapshot, done + {s}) == CookiesOf(snapshot, done) + {snapshot[s].cookie};
  }

  /** Only the drop flow has the cookie that says nothing but the VLAN. */
  lemma DropCookie(vlan: nat, routes: Routes, flows: Flows, next: nat, s: Slot)
    requires Filed(routes, next) && Mirror(vlan, routes, flows) && s in flows
    ensures flows[s].cookie == DropFlow(vlan).cookie <==> s == DropSlot(vlan) && !HasDefault(routes)
    ensures s.priority == DropSlot(vlan).priority <==> s == DropSlot(vlan)
  {
    if s.RouteSlot? && s.target.Net? {
      assert s == SlotOf(vlan, routes[s.target.prefix]);
    } else if s.RouteSlot? && HasDefault(routes) {
      assert s == SlotOf(vlan, routes[DEFAULT_ROUTE]);
    }
  }

  /** One step of the deletion of routes. */
  lemma ClearedMore(vlan: nat, routes: Routes, snapshot: Flows, next: nat, done: set<Slot>, s: Slot)
    requires Filed(routes, next) && Mirror(vlan, routes, snapshot) && s in snapshot && s !in done
    ensures AfterDelete(vlan, Cleared(vlan, snapshot, done), s, snapshot[s].cookie) ==
            Cleared(vlan, snapshot, done + {s})
  {
    StrippedMore(snapshot, done, s);
    DropCookie(vlan, routes, snapshot, next, s);
    var left, c := Stripped(snapshot, done), snapshot[s].cookie;
    if s != DropSlot(vlan) && DropSlot(vlan) in done {
      assert Purged(left[DropSlot(vlan) := DropFlow(vlan)], c) == Purged(left, c)[DropSlot(vlan) := DropFlow(vlan)];
    }
  }

  /** Flows are listed by their cookie, so deleting the listed ones by cookie deletes no others. */
  lemma StrippedListed(snapshot: Flows, listed: set<Slot>, lists: nat -> bool)
    requires forall s :: s in listed <==> s in snapshot && lists(snapshot[s].cookie)
    ensures forall s :: s in Stripped(snapshot, listed) <==> s in snapshot && !lists(snapshot[s].cookie)
  {
    forall s | s in snapshot
      ensures snapshot[s].cookie in CookiesOf(snapshot, listed) <==> lists(snapshot[s].cookie)
    {
      if lists(snapshot[s].cookie) {
        assert s in listed;
      }
    }
  }

  // ---------- what the deletion of routes comes to ----------

  /** The routes that stay: those not selected, and those whose id does not fit the cookie. */
  function Remaining(routes: Routes, sel: Selection): Routes {
    map k | k in routes && !(Selects(sel, routes[k].routeId) && routes[k].routeId < ROUTE_IDS) :: routes[k]
  }

  function Minus(routes: Routes, ids: set<nat>): Routes {
    map k | k in routes && routes[k].routeId !in ids :: routes[k]
  }

  lemma MinusOne(routes: Routes, gone: set<nat>, id: nat)
    ensures Without(Minus(routes, gone), id) == Minus(routes, gone + {id})
  {
  }

  function RoutesListed(vlan: nat, flows: Flows, sel: Selection): set<Slot> {
    set s | s in flows && ListsRoute(vlan, sel, flows[s].cookie)
  }

  /** The switch when the listed flows are gone and the catch-all, if it went, drops. */
  ghost function RoutesCleared(vlan: nat, flows: Flows, sel: Selection): Flows {
    var left := map s | s in flows && !ListsRoute(vlan, sel, flows[s].cookie) :: flows[s];
    if DropSlot(vlan) in RoutesListed(vlan, flows, sel) then left[DropSlot(vlan) := DropFlow(vlan)] else left
  }

  lemma ClearedAll(vlan: nat, flows: Flows, sel: Selection)
    ensures Cleared(vlan, flows, RoutesListed(vlan, flows, sel)) == RoutesCleared(vlan, flows, sel)
  {
    StrippedListed(flows, RoutesListed(vlan, flows, sel), (c: nat) => ListsRoute(vlan, sel, c));
  }

  /** A route's flow is listed exactly if the route is selected and its id fits the cookie. */
  lemma RouteListed(vlan: nat, sel: Selection, id: nat)
    ensures ListsRoute(vlan, sel, RouteCookie(vlan, id)) <==> Selects(sel, id) && id <= 0xffff
  {
    RouteCookieParts(vlan, id);
  }

  lemma RemainingServed(vlan: nat, routes: Routes, flows: Flows, next: nat, sel: Selection)
    requires Filed(routes, next) && Mirror(vlan, routes, flows)
    ensures AllServed(vlan, Remaining(routes, sel), RoutesCleared(vlan, flows, sel))
  {
    var remaining, cleared := Remaining(routes, sel), RoutesCleared(vlan, flows, sel);
    forall k | k in remaining
      ensures SlotOf(vlan, remaining[k]) in cleared && Serves(vlan, cleared[SlotOf(vlan, remaining[k])], remaining[k])
    {
      FlowKept(vlan, flows, sel, routes[k]);
    }
  }

  lemma FlowKept(vlan: nat, flows: Flows, sel: Selection, route: Route)
    requires SlotOf(vlan, route) in flows && flows[SlotOf(vlan, route)].cookie == RouteCookie(vlan, route.routeId)
    requires !(Selects(sel, route.routeId) && route.routeId < ROUTE_IDS)
    ensures SlotOf(vlan, route) in RoutesCleared(vlan, flows, sel)
    ensures RoutesCleared(vlan, flows, sel)[SlotOf(vlan, route)] == flows[SlotOf(vlan, route)]
  {
    RouteListed(vlan, sel, route.routeId);
  }

  lemma RemainingNoStrays(vlan: nat, routes: Routes, flows: Flows, next: nat, sel: Selection)
    requires Filed(routes, next) && Mirror(vlan, routes, flows)
    ensures NoStrays(vlan, Remaining(routes, sel), RoutesCleared(vlan, flows, sel))
  {
    forall s | s in RoutesCleared(vlan, flows, sel) && s.RouteSlot? && s.target.Net?
      ensures s.target.prefix in Remaining(routes, sel)
    {
      RouteListed(vlan, sel, routes[s.target.prefix].routeId);
    }
  }

  lemma RemainingCatchAll(vlan: nat, routes: Routes, flows: Flows, next: nat, sel: Selection)
    requires Filed(routes, next) && Mirror(vlan, routes, flows)
    ensures CatchAll(vlan, Remaining(routes, sel), RoutesCleared(vlan, flows, sel))
  {
    if HasDefault(routes) {
      assert SlotOf(vlan, routes[DEFAULT_ROUTE]) == DropSlot(vlan);
      RouteListed(vlan, sel, routes[DEFAULT_ROUTE].routeId);
    }
  }

  /** Table and switch stay in step, whatever the ids. */
  lemma RemainingMirror(vlan: nat, routes: Routes, flows: Flows, next: nat, sel: Selection)
    requires Filed(routes, next) && Mirror(vlan, routes, flows)
    ensures Mirror(vlan, Remaining(routes, sel), RoutesCleared(vlan, flows, sel))
    ensures NoNewAddresses(flows, RoutesCleared(vlan, flows, sel))
  {
    RemainingServed(vlan, routes, flows, next, sel);
    RemainingNoStrays(vlan, routes, flows, next, sel);
    RemainingCatchAll(vlan, routes, flows, next, sel);
  }

  ghost function IdsOf(snapshot: Flows, done: set<Slot>): set<nat> {
    set s | s in done && s in snapshot :: RouteIdOf(snapshot[s].cookie)
  }

  /** The ids of the listed flows are those of the routes that go. */
  lemma RemainingIs(vlan: nat, routes: Routes, flows: Flows, next: nat, sel: Selection)
    requires Filed(routes, next) && Mirror(vlan, routes, flows)
    ensures Minus(routes, IdsOf(flows, RoutesListed(vlan, flows, sel))) == Remaining(routes, sel)
  {
    forall k | k in routes
      ensures routes[k].routeId in IdsOf(flows, RoutesListed(vlan, flows, sel)) <==>
              Selects(sel, routes[k].routeId) && routes[k].routeId < ROUTE_IDS
    {
      IdGone(vlan, flows, sel, routes[k]);
    }
  }

  lemma IdGone(vlan: nat, flows: Flows, sel: Selection, route: Route)
    requires SlotOf(vlan, route) in flows && flows[SlotOf(vlan, route)].cookie == RouteCookie(vlan, route.routeId)
    ensures route.routeId in IdsOf(flows, RoutesListed(vlan, flows, sel)) <==>
            Selects(sel, route.routeId) && route.routeId < ROUTE_IDS
  {
    RouteListed(vlan, sel, route.routeId);
    RouteCookieParts(vlan, route.routeId);
    if Selects(sel, route.routeId) && route.routeId < ROUTE_IDS {
      assert SlotOf(vlan, route) in RoutesListed(vlan, flows, sel);
    }
  }

  /** An address flow goes with the routes exactly if the high half of its id is selected. */
  lemma AddressFlowListed(vlan: nat, slot: Slot, flow: Flow, sel: Selection)
    requires AddressFlow(vlan, slot, flow)
    ensures ListsRoute(vlan, sel, flow.cookie) <==> Selects(sel, AddressIdOf(flow.cookie) / 0x1_0000)
  {
    AddressCookieParts(vlan, flow.cookie - AddressCookie(vlan, 0));
  }

  /** Deleting all routes, or one with an id that is not 0, leaves an address flow alone exactly if its id has no high
      half, or another one. */
  lemma AddressesSpared(vlan: nat, routes: Routes, flows: Flows, sel: Selection, s: Slot)
    requires Mirror(vlan, routes, flows) && s in flows && s.AddressSlot?
    ensures s in RoutesCleared(vlan, flows, sel) <==> !Selects(sel, AddressIdOf(flows[s].cookie) / 0x1_0000)
    ensures sel == All ==> (s in RoutesCleared(vlan, flows, sel) <==> AddressIdOf(flows[s].cookie) < 0x1_0000)
  {
    AddressFlowListed(vlan, s, flows[s], sel);
  }

  /** Route 65536 is never deleted, whatever is asked for. */
  lemma NeverDeleted(vlan: nat, routes: Routes, flows: Flows, next: nat, sel: Selection, k: Prefix)
    requires Filed(routes, next) && Mirror(vlan, routes, flows) && k in routes && routes[k].routeId == 0x1_0000
    ensures k in Remaining(routes, sel) && SlotOf(vlan, routes[k]) in RoutesCleared(vlan, flows, sel)
  {
    RouteListed(vlan, sel, routes[k].routeId);
  }

  /** Deleting route 1 takes the flows of address 65536 along. */
  lemma AddressLostWithRoute(vlan: nat, routes: Routes, flows: Flows, s: Slot)
    requires Mirror(vlan, routes, flows) && s in flows && s.AddressSlot?
    requires flows[s].cookie == AddressCookie(vlan, 0x1_0000)
    ensures s !in RoutesCleared(vlan, flows, Id(1))
  {
    AddressCookieParts(vlan, 0x1_0000);
    AddressesSpared(vlan, routes, flows, Id(1), s);
  }

  // ---------- what the deletion of addresses comes to ----------

  function AddressesListed(vlan: nat, flows: Flows, sel: Selection, skip: set<int>): set<Slot> {
    set s | s in flows && ListsAddress(vlan, sel, skip, flows[s].cookie)
  }

  ghost function AddressesCleared(vlan: nat, flows: Flows, sel: Selection, skip: set<int>): Flows {
    map s | s in flows && !ListsAddress(vlan, sel, skip, flows[s].cookie) :: flows[s]
  }

  /** An address flow goes exactly if its address is asked for and not skipped; asking for all leaves out ids of more
      than 16 bits. */
  lemma OwnFlowListed(vlan: nat, slot: Slot, flow: Flow, sel: Selection, skip: set<int>)
    requires AddressFlow(vlan, slot, flow)
    ensures var id := AddressIdOf(flow.cookie);
      ListsAddress(vlan, sel, skip, flow.cookie) <==>
      id !in skip && (sel == Id(id) || (sel == All && id <= 0xffff))
  {
    AddressCookieParts(vlan, flow.cookie - AddressCookie(vlan, 0));
  }

  lemma StrippedAll(vlan: nat, flows: Flows, sel: Selection, skip: set<int>)
    ensures Stripped(flows, AddressesListed(vlan, flows, sel, skip)) == AddressesCleared(vlan, flows, sel, skip)
  {
    StrippedListed(flows, AddressesListed(vlan, flows, sel, skip), (c: nat) => ListsAddress(vlan, sel, skip, c));
  }

  /** The id asked for is read off the cookie of a route's flow, or off that of the drop flow. */
  ghost predicate HitsRoutes(routes: Routes, sel: Selection, skip: set<int>) {
    && sel.Id? && sel.id !in skip
    && ((sel.id == 0 && !HasDefault(routes)) || exists k :: k in routes && HitsRoute(routes[k].routeId, sel.id))
  }

  predicate HitsRoute(routeId: nat, id: int) {
    routeId < ROUTE_IDS && routeId * ROUTE_IDS == id
  }

  lemma RouteHit(vlan: nat, sel: Selection, skip: set<int>, id: nat)
    requires id >= 1
    ensures ListsAddress(vlan, sel, skip, RouteCookie(vlan, id)) <==>
            sel.Id? && sel.id !in skip && HitsRoute(id, sel.id)
  {
    RouteCookieParts(vlan, id);
  }

  lemma DropHit(vlan: nat, sel: Selection, skip: set<int>)
    ensures ListsAddress(vlan, sel, skip, DropFlow(vlan).cookie) <==> sel == Id(0) && 0 !in skip
  {
    AddressCookieParts(vlan, 0);
  }

  /** Table and switch stay in step exactly if the id is not read off a route's flow or the drop flow. */
  lemma AddressDeletionMirror(vlan: nat, routes: Routes, flows: Flows, next: nat, sel: Selection, skip: set<int>)
    requires Filed(routes, next) && Mirror(vlan, routes, flows)
    ensures Mirror(vlan, routes, AddressesCleared(vlan, flows, sel, skip)) <==> !HitsRoutes(routes, sel, skip)
  {
    var after := AddressesCleared(vlan, flows, sel, skip);
    DropHit(vlan, sel, skip);
    forall k | k in routes
      ensures SlotOf(vlan, routes[k]) in after <==>
              !(sel.Id? && sel.id !in skip && HitsRoute(routes[k].routeId, sel.id))
    {
      RouteHit(vlan, sel, skip, routes[k].routeId);
    }
    if HasDefault(routes) {
      assert SlotOf(vlan, routes[DEFAULT_ROUTE]) == DropSlot(vlan);
    }
    if HitsRoutes(routes, sel, skip) {
      HitBreaks(vlan, routes, flows, sel, skip);
    } else {
      assert AllServed(vlan, routes, after) && CatchAll(vlan, routes, after);
    }
  }

  lemma HitBreaks(vlan: nat, routes: Routes, flows: Flows, sel: Selection, skip: set<int>)
    requires Mirror(vlan, routes, flows) && HitsRoutes(routes, sel, skip)
    requires forall k :: k in routes ==>
               (SlotOf(vlan, routes[k]) in AddressesCleared(vlan, flows, sel, skip) <==>
                !(sel.Id? && sel.id !in skip && HitsRoute(routes[k].routeId, sel.id)))
    ensures !Mirror(vlan, routes, AddressesCleared(vlan, flows, sel, skip))
  {
    if exists k :: k in routes && HitsRoute(routes[k].routeId, sel.id) {
      var k :| k in routes && HitsRoute(routes[k].routeId, sel.id);
      assert SlotOf(vlan, routes[k]) !in AddressesCleared(vlan, flows, sel, skip);
    } else {
      DropHit(vlan, sel, skip);
      assert DropSlot(vlan) !in AddressesCleared(vlan, flows, sel, skip);
    }
  }
}
