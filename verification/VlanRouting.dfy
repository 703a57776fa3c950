/** `VlanRouter`: the routing table of one VLAN and its mirror image in the switch's flow table. */
module VlanRouting {
  import opened Walks
  import opened Prefixes
  import opened RouteTables
  import opened AddressTables

  const COOKIE_SHIFT_VLANID := 0x1_0000_0000
  const COOKIE_SHIFT_ROUTEID := 0x1_0000
  const PRIORITY_VLAN_SHIFT := 1000
  const PRIORITY_DEFAULT_ROUTING := 1
  const PRIORITY_STATIC_ROUTING := 2
  const PRIORITY_MAC_LEARNING := 2
  const PRIORITY_L2_SWITCHING := 4
  const PRIORITY_IP_HANDLING := 5
  const PRIORITY_NETMASK_SHIFT := 32

  datatype Target = Anywhere | Net(prefix: Prefix)

  /** A place in the flow table: a flow-mod with the same match and priority replaces what is there. */
  datatype Slot =
    | RouteSlot(priority: int, target: Target)
    | AddressSlot(priority: int, network: Prefix)

  datatype Action = Drop | PacketIn | Normal | Forward(outPort: nat, srcMac: Mac, dstMac: Mac)

  datatype Flow = Flow(cookie: nat, action: Action)

  type Flows = map<Slot, Flow>

  // ---------- cookies ----------

  function RouteCookie(vlan: nat, routeId: nat): nat {
    vlan * COOKIE_SHIFT_VLANID + routeId * COOKIE_SHIFT_ROUTEID
  }

  function AddressCookie(vlan: nat, addressId: nat): nat {
    vlan * COOKIE_SHIFT_VLANID + addressId
  }

  function VlanOf(cookie: nat): nat {
    cookie / COOKIE_SHIFT_VLANID
  }

  function RouteIdOf(cookie: nat): nat {
    cookie % COOKIE_SHIFT_VLANID / COOKIE_SHIFT_ROUTEID
  }

  function AddressIdOf(cookie: nat): nat {
    cookie % COOKIE_SHIFT_VLANID
  }

  /** What the cookie of a route reads as: ids of more than 16 bits run into the VLAN field. */
  lemma RouteCookieParts(vlan: nat, id: nat)
    ensures VlanOf(RouteCookie(vlan, id)) == vlan + id / 0x1_0000
    ensures RouteIdOf(RouteCookie(vlan, id)) == id % 0x1_0000
    ensures AddressIdOf(RouteCookie(vlan, id)) == id % 0x1_0000 * 0x1_0000
  {
    var high, low := id / 0x1_0000, id % 0x1_0000;
    assert RouteCookie(vlan, id) == (vlan + high) * COOKIE_SHIFT_VLANID + low * COOKIE_SHIFT_ROUTEID;
    assert low * COOKIE_SHIFT_ROUTEID < COOKIE_SHIFT_VLANID;
  }

  /** A route's cookie gives back VLAN and id exactly for ids of at most 16 bits. */
  lemma RouteCookieRoundTrip(vlan: nat, id: nat)
    ensures VlanOf(RouteCookie(vlan, id)) == vlan && RouteIdOf(RouteCookie(vlan, id)) == id <==> id < 0x1_0000
  {
    RouteCookieParts(vlan, id);
  }

  /** What the cookie of an address reads as: ids of more than 16 bits run into the route field. */
  lemma AddressCookieParts(vlan: nat, id: nat)
    ensures VlanOf(AddressCookie(vlan, id)) == vlan && AddressIdOf(AddressCookie(vlan, id)) == id <==>
            id < COOKIE_SHIFT_VLANID
    ensures id < COOKIE_SHIFT_VLANID ==> RouteIdOf(AddressCookie(vlan, id)) == id / 0x1_0000
  {
  }

  /** Address 65536 and route 1 have the same cookie. */
  lemma SharedCookie(vlan: nat)
    ensures AddressCookie(vlan, 0x1_0000) == RouteCookie(vlan, 1)
  {
  }

  // ---------- the mirror ----------

  /** `get_priority` for the flows that do not belong to a route. */
  function GetPriority(kind: int, vlan: nat): int {
    kind + (if vlan != 0 || kind == PRIORITY_IP_HANDLING then PRIORITY_VLAN_SHIFT else 0) +
    (if kind > PRIORITY_STATIC_ROUTING then PRIORITY_NETMASK_SHIFT else 0)
  }

  function RoutePriority(vlan: nat, route: Route): int {
    (if route.Default() then PRIORITY_DEFAULT_ROUTING else PRIORITY_STATIC_ROUTING + route.netmask) +
    (if vlan != 0 then PRIORITY_VLAN_SHIFT else 0)
  }

  function DropSlot(vlan: nat): Slot {
    RouteSlot(PRIORITY_DEFAULT_ROUTING + (if vlan != 0 then PRIORITY_VLAN_SHIFT else 0), Anywhere)
  }

  function DropFlow(vlan: nat): Flow {
    Flow(vlan * COOKIE_SHIFT_VLANID, Drop)
  }

  function SlotOf(vlan: nat, route: Route): Slot {
    RouteSlot(RoutePriority(vlan, route), if route.Default() then Anywhere else Net(route.Key()))
  }

  /** The flow carries the route's id, and the gateway's hardware address once that is known. */
  ghost predicate Serves(vlan: nat, flow: Flow, route: Route) {
    && flow.cookie == RouteCookie(vlan, route.routeId)
    && match route.gatewayMac
       case None => flow.action == PacketIn
       case Some(mac) => flow.action.Forward? && flow.action.dstMac == mac
  }

  /** An address flow has the cookie of an address id of at most 32 bits, and not the priority of the catch-all. */
  ghost predicate AddressFlow(vlan: nat, slot: Slot, flow: Flow) {
    slot.priority != DropSlot(vlan).priority && AddressCookie(vlan, 1) <= flow.cookie <= AddressCookie(vlan, UINT32_MAX)
  }

  ghost predicate HasDefault(routes: Routes) {
    DEFAULT_ROUTE in routes && routes[DEFAULT_ROUTE].Default()
  }

  /** Every route has its flow. */
  ghost predicate AllServed(vlan: nat, routes: Routes, flows: Flows) {
    forall k :: k in routes ==>
      SlotOf(vlan, routes[k]) in flows && Serves(vlan, flows[SlotOf(vlan, routes[k])], routes[k])
  }

  /** Every route flow but the catch-all belongs to a route. */
  ghost predicate NoStrays(vlan: nat, routes: Routes, flows: Flows) {
    && (forall s :: s in flows && s.RouteSlot? && s.target.Net? ==>
          s.target.prefix in routes && s == SlotOf(vlan, routes[s.target.prefix]))
    && (forall s :: s in flows && s.RouteSlot? && s.target.Anywhere? ==> s == DropSlot(vlan))
  }

  /** There is a catch-all, which drops unless there is a default route. */
  ghost predicate CatchAll(vlan: nat, routes: Routes, flows: Flows) {
    DropSlot(vlan) in flows && (!HasDefault(routes) ==> flows[DropSlot(vlan)] == DropFlow(vlan))
  }

  ghost predicate AddressesApart(vlan: nat, flows: Flows) {
    forall s :: s in flows && s.AddressSlot? ==> AddressFlow(vlan, s, flows[s])
  }

  /** One flow per route, one catch-all, and no other route flows. */
  ghost predicate Mirror(vlan: nat, routes: Routes, flows: Flows) {
    && AllServed(vlan, routes, flows) && NoStrays(vlan, routes, flows) && CatchAll(vlan, routes, flows)
    && AddressesApart(vlan, flows)
  }

  predicate Matches(slot: Slot, ip: Ip) {
    slot.RouteSlot? && (slot.target.Net? ==> slot.target.prefix.Contains(ip))
  }

  /** Of the route flows that match `ip`, the one in `slot` is ahead of all others. */
  ghost predicate Highest(flows: Flows, ip: Ip, slot: Slot) {
    slot in flows && Matches(slot, ip) &&
    forall s :: s in flows && Matches(s, ip) && s != slot ==> s.priority < slot.priority
  }

  /** The switch and the controller agree about every address. */
  ghost predicate Agrees(vlan: nat, routes: Routes, flows: Flows, ip: Ip) {
    forall r :: Lookup(routes, ip, r) ==>
      match r
      case None => Highest(flows, ip, DropSlot(vlan)) && flows[DropSlot(vlan)] == DropFlow(vlan)
      case Some(route) =>
        Highest(flows, ip, SlotOf(vlan, route)) && Serves(vlan, flows[SlotOf(vlan, route)], route)
  }

  /** Whether the destination address suits a flow, be it a route's or an address's. */
  predicate Suits(slot: Slot, ip: Ip) {
    match slot
    case RouteSlot(_, _) => Matches(slot, ip)
    case AddressSlot(_, network) => network.Contains(ip)
  }

  /** Of all flows whose destination suits `ip`, the one in `slot` is ahead of all others. */
  ghost predicate HighestOfAll(flows: Flows, ip: Ip, slot: Slot) {
    slot in flows && Suits(slot, ip) &&
    forall s :: s in flows && Suits(s, ip) && s != slot ==> s.priority < slot.priority
  }

  /** Every address flow belongs to a registered address and is for destinations in its network. */
  ghost predicate Housed(flows: Flows, addresses: Addresses) {
    forall s :: s in flows && s.AddressSlot? ==> HousedIn(s.network, AddressIdOf(flows[s].cookie), addresses)
  }

  ghost predicate HousedIn(network: Prefix, id: nat, addresses: Addresses) {
    exists k :: k in addresses && addresses[k].addressId == id && Within(network, k)
  }

  ghost predicate Within(inner: Prefix, outer: Prefix) {
    forall x: nat :: inner.Contains(x) ==> outer.Contains(x)
  }

  /** Outside the router's networks no address flow competes. */
  lemma OutsideOnlyRoutes(flows: Flows, addresses: Addresses, ip: Ip, slot: Slot)
    requires Housed(flows, addresses) && (forall k :: k in addresses ==> !k.Contains(ip)) && Highest(flows, ip, slot)
    ensures HighestOfAll(flows, ip, slot)
  {
    forall s | s in flows && s.AddressSlot?
      ensures !Suits(s, ip)
    {
      var k :| k in addresses && addresses[k].addressId == AddressIdOf(flows[s].cookie) && Within(s.network, k);
      assert !k.Contains(ip);
    }
  }

  /** The address flows of `after` are among those of `before`. */
  ghost predicate NoNewAddresses(before: Flows, after: Flows) {
    forall s :: s in after && s.AddressSlot? ==> s in before && after[s] == before[s]
  }

  lemma StillHoused(before: Flows, after: Flows, addresses: Addresses)
    requires Housed(before, addresses) && NoNewAddresses(before, after)
    ensures Housed(after, addresses)
  {
  }

  lemma MirrorAgrees(vlan: nat, routes: Routes, flows: Flows, next: nat, ip: Ip)
    requires Filed(routes, next) && Mirror(vlan, routes, flows)
    ensures Agrees(vlan, routes, flows, ip)
  {
    forall r | Lookup(routes, ip, r)
      ensures r.None? ==> Highest(flows, ip, DropSlot(vlan)) && flows[DropSlot(vlan)] == DropFlow(vlan)
      ensures r.Some? ==>
                Highest(flows, ip, SlotOf(vlan, r.value)) && Serves(vlan, flows[SlotOf(vlan, r.value)], r.value)
    {
      if r.None? {
        NoneAgrees(vlan, routes, flows, next, ip);
      } else if NoneLonger(routes, ip) {
        DefaultAgrees(vlan, routes, flows, next, ip);
      } else {
        var k :| LongestAt(routes, ip, k) && routes[k] == r.value;
        LongestAgrees(vlan, routes, flows, next, ip, k);
      }
    }
  }

  lemma NoneAgrees(vlan: nat, routes: Routes, flows: Flows, next: nat, ip: Ip)
    requires Filed(routes, next) && Mirror(vlan, routes, flows) && NoneLonger(routes, ip) && DEFAULT_ROUTE !in routes
    ensures Highest(flows, ip, DropSlot(vlan)) && flows[DropSlot(vlan)] == DropFlow(vlan)
  {
  }

  lemma DefaultAgrees(vlan: nat, routes: Routes, flows: Flows, next: nat, ip: Ip)
    requires Filed(routes, next) && Mirror(vlan, routes, flows) && NoneLonger(routes, ip) && DEFAULT_ROUTE in routes
    ensures Highest(flows, ip, SlotOf(vlan, routes[DEFAULT_ROUTE]))
  {
    WholeSpace(ip);
  }

  lemma LongestAgrees(vlan: nat, routes: Routes, flows: Flows, next: nat, ip: Ip, k: Prefix)
    requires Filed(routes, next) && Mirror(vlan, routes, flows) && LongestAt(routes, ip, k)
    ensures Highest(flows, ip, SlotOf(vlan, routes[k])) && Serves(vlan, flows[SlotOf(vlan, routes[k])], routes[k])
  {
  }

  // ---------- what the flow-mods do to the mirror ----------

  /** The flow table after the three flows of a new address are set. */
  function AddressSet(vlan: nat, flows: Flows, address: Address): Flows {
    var cookie := AddressCookie(vlan, address.addressId);
    flows[AddressSlot(GetPriority(PRIORITY_MAC_LEARNING, vlan), address.network) := Flow(cookie, PacketIn)]
         [AddressSlot(GetPriority(PRIORITY_IP_HANDLING, vlan), Prefix(address.defaultGw, WIDTH)) :=
            Flow(cookie, PacketIn)]
         [AddressSlot(GetPriority(PRIORITY_L2_SWITCHING, vlan), address.network) := Flow(cookie, Normal)]
  }

  /** The flows of a new address are for destinations in its network. */
  lemma AddressHoused(vlan: nat, flows: Flows, addresses: Addresses, address: Address)
    requires Housed(flows, addresses) && address.network !in addresses && address.network.Contains(address.defaultGw)
    requires address.addressId < COOKIE_SHIFT_VLANID
    ensures Housed(AddressSet(vlan, flows, address), addresses[address.network := address])
  {
    var more := addresses[address.network := address];
    AddressCookieParts(vlan, address.addressId);
    assert Within(address.network, address.network);
    assert HousedIn(address.network, address.addressId, more);
    forall x: nat | Prefix(address.defaultGw, WIDTH).Contains(x)
      ensures address.network.Contains(x)
    {
      assert Apply(x, WIDTH) == x;
    }
    assert Within(Prefix(address.defaultGw, WIDTH), address.network);
    assert HousedIn(Prefix(address.defaultGw, WIDTH), address.addressId, more);
    forall s | s in flows && s.AddressSlot?
      ensures HousedIn(s.network, AddressIdOf(flows[s].cookie), more)
    {
      var k :| k in addresses && addresses[k].addressId == AddressIdOf(flows[s].cookie) && Within(s.network, k);
      assert k in more && more[k] == addresses[k];
    }
  }

  /**
   * Where the flows of an address stand among the route flows. Packets within its network and packets to the router
   * itself come before every route; but learning a host's hardware address, which packets from elsewhere are for, comes
   * before a route flow exactly if that is the default route's or the drop flow.
   */
  lemma AddressAhead(vlan: nat, routes: Routes, flows: Flows, next: nat, address: Address, s: Slot)
    requires Filed(routes, next) && Mirror(vlan, routes, flows) && s in flows && s.RouteSlot?
    ensures var base := if vlan == 0 then 0 else 1000;
      var after := AddressSet(vlan, flows, address);
      var local := AddressSlot(base + 36, address.network);
      var own := AddressSlot(1037, Prefix(address.defaultGw, 32));
      var learning := AddressSlot(base + 2, address.network);
      && local in after && after[local].action == Normal && s.priority < local.priority
      && own in after && after[own].action == PacketIn && s.priority < own.priority
      && learning in after && after[learning].action == PacketIn
      && (s.priority < learning.priority <==> s == DropSlot(vlan))
      && s.priority == base + (if s.target.Anywhere? then 1 else 2 + s.target.prefix.len)
  {
    if s.target.Net? {
      assert s == SlotOf(vlan, routes[s.target.prefix]);
    }
  }

  lemma AddressMirror(vlan: nat, routes: Routes, flows: Flows, address: Address)
    requires Mirror(vlan, routes, flows) && 1 <= address.addressId <= UINT32_MAX
    ensures Mirror(vlan, routes, AddressSet(vlan, flows, address))
  {
  }

  /** The flow table after the (packet in) flow of a new route is set. */
  function Installed(vlan: nat, flows: Flows, route: Route): Flows {
    flows[SlotOf(vlan, route) := Flow(RouteCookie(vlan, route.routeId), PacketIn)]
  }

  /** The flow table after `delete_flow`: everything with the cookie goes. */
  function Purged(flows: Flows, cookie: nat): Flows {
    map s | s in flows && flows[s].cookie != cookie :: flows[s]
  }

  ghost predicate Newcomer(routes: Routes, next: nat, route: Route) {
    && route.routeId == next && route.gatewayMac == None && route.netmask <= WIDTH
    && (route.netmask == 0 || route.Default() ==> route.Key() == DEFAULT_ROUTE)
    && (route.Default() ==> DEFAULT_ROUTE !in routes)
  }

  /** A route written with netmask 0 in another way than "0.0.0.0/0" while a default route is filed. */
  ghost predicate Usurps(routes: Routes, route: Route) {
    route.netmask == 0 && !route.Default() && HasDefault(routes)
  }

  lemma AddServed(vlan: nat, routes: Routes, flows: Flows, next: nat, route: Route)
    requires Filed(routes, next) && AllServed(vlan, routes, flows) && Newcomer(routes, next, route)
    ensures AllServed(vlan, routes[route.Key() := route], Installed(vlan, flows, route))
  {
    forall k | k in routes && k != route.Key()
      ensures SlotOf(vlan, routes[k]) != SlotOf(vlan, route)
    {
    }
  }

  lemma AddNoStrays(vlan: nat, routes: Routes, flows: Flows, next: nat, route: Route)
    requires Filed(routes, next) && NoStrays(vlan, routes, flows) && Newcomer(routes, next, route)
    ensures NoStrays(vlan, routes[route.Key() := route], Installed(vlan, flows, route))
  {
    forall s | s in flows && s.RouteSlot? && s.target.Net? && s.target.prefix == route.Key()
      ensures !route.Default() ==> s == SlotOf(vlan, route)
      ensures !route.Default()
    {
    }
  }

  /**
   * A new route keeps the mirror unless it usurps: then it takes the default route's place in the table but not
   * in the switch.
   */
  lemma AddMirror(vlan: nat, routes: Routes, flows: Flows, next: nat, route: Route)
    requires Filed(routes, next) && Mirror(vlan, routes, flows) && Newcomer(routes, next, route)
    ensures Mirror(vlan, routes[route.Key() := route], Installed(vlan, flows, route)) <==> !Usurps(routes, route)
  {
    AddServed(vlan, routes, flows, next, route);
    AddNoStrays(vlan, routes, flows, next, route);
    if Usurps(routes, route) {
      assert SlotOf(vlan, routes[DEFAULT_ROUTE]) == DropSlot(vlan) != SlotOf(vlan, route);
      assert flows[DropSlot(vlan)].cookie != DropFlow(vlan).cookie;
    }
  }

  /** The flow table after one flow of a deletion list is dealt with. */
  function AfterDelete(vlan: nat, flows: Flows, slot: Slot, cookie: nat): Flows {
    var purged := Purged(flows, cookie);
    if slot.priority == DropSlot(vlan).priority then purged[DropSlot(vlan) := DropFlow(vlan)] else purged
  }

  lemma OtherSlots(vlan: nat, routes: Routes, next: nat, k: Prefix)
    requires Filed(routes, next) && k in routes
    ensures forall j :: j in routes && j != k ==> SlotOf(vlan, routes[j]) != SlotOf(vlan, routes[k])
  {
  }
}
