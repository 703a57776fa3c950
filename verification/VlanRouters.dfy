/** The operations of `VlanRouter` on routes, each keeping table and switch in step. */
module VlanRouters {
  import opened Walks
  import opened Prefixes
  import RT = RouteTables
  import opened AddressTables
  import opened VlanRouting
  import opened VlanDeletion

  datatype SetResult =
    | RouteSet(routeId: nat)
    | BadGateway
    | GatewayNotRegistered
    | GatewayIsOurs(addressId: nat)
    | IllegalDestination
    | DestinationOverlaps(routeId: nat)

  /** A gateway must be in one of the router's networks, and must not be the router itself. */
  ghost predicate Adjacent(addresses: Addresses, ip: Ip) {
    exists k :: k in addresses && k.Contains(ip) && addresses[k].defaultGw != ip
  }

  /** Every gateway is in one of the router's networks, so that it can be asked for its hardware address. */
  ghost predicate GatewaysKnown(routes: RT.Routes, addresses: Addresses) {
    forall k :: k in routes ==> Known(addresses, routes[k].gatewayIp)
  }

  ghost predicate Known(addresses: Addresses, ip: Ip) {
    exists k :: k in addresses && k.Contains(ip)
  }

  /** Some route's gateway is in the network of the address with this id. */
  ghost predicate Related(routes: RT.Routes, addresses: Addresses, id: int) {
    exists j, k :: j in routes && k in addresses && addresses[k].addressId == id && k.Contains(routes[j].gatewayIp)
  }

  /** The addresses left when those with the given ids are gone. */
  function Shorn(addresses: Addresses, ids: set<nat>): Addresses {
    map k | k in addresses && addresses[k].addressId !in ids :: addresses[k]
  }

  ghost function AddressIds(snapshot: Flows, done: set<Slot>): set<nat> {
    set s | s in done && s in snapshot :: AddressIdOf(snapshot[s].cookie)
  }

  lemma ShornMore(addresses: Addresses, snapshot: Flows, done: set<Slot>, s: Slot)
    requires s in snapshot
    ensures WithoutId(Shorn(addresses, AddressIds(snapshot, done)), AddressIdOf(snapshot[s].cookie)) ==
            Shorn(addresses, AddressIds(snapshot, done + {s}))
  {
    assert AddressIds(snapshot, done + {s}) == AddressIds(snapshot, done) + {AddressIdOf(snapshot[s].cookie)};
  }

  /** A flow that is not listed belongs to an address that stays. */
  lemma ShornHoused(vlan: nat, routes: RT.Routes, flows: Flows, addresses: Addresses, sel: Selection, skip: set<int>)
    requires Mirror(vlan, routes, flows) && Housed(flows, addresses)
    ensures Housed(AddressesCleared(vlan, flows, sel, skip),
                   Shorn(addresses, AddressIds(flows, AddressesListed(vlan, flows, sel, skip))))
  {
    var left := Shorn(addresses, AddressIds(flows, AddressesListed(vlan, flows, sel, skip)));
    forall s | s in AddressesCleared(vlan, flows, sel, skip) && s.AddressSlot?
      ensures HousedIn(s.network, AddressIdOf(flows[s].cookie), left)
    {
      var k :| k in addresses && addresses[k].addressId == AddressIdOf(flows[s].cookie) && Within(s.network, k);
      assert k in left by {
        SameCookie(vlan, flows, sel, skip, s);
      }
    }
  }

  /** Within the VLAN the address id says everything about a cookie. */
  lemma SameCookie(vlan: nat, flows: Flows, sel: Selection, skip: set<int>, s: Slot)
    requires s in flows && AddressFlow(vlan, s, flows[s]) && !ListsAddress(vlan, sel, skip, flows[s].cookie)
    ensures AddressIdOf(flows[s].cookie) !in AddressIds(flows, AddressesListed(vlan, flows, sel, skip))
  {
    AddressCookieParts(vlan, flows[s].cookie - AddressCookie(vlan, 0));
  }

  /** What `_chk_addr_relation_route` finds: the related ones among the addresses asked for. */
  ghost predicate Skipped(routes: RT.Routes, addresses: Addresses, sel: Selection, skip: set<int>) {
    forall id: int :: id in skip <==> (sel == All || sel == Id(id)) && Related(routes, addresses, id)
  }

  /** Networks with a gateway are skipped, so every gateway stays known. */
  lemma GatewaysStayKnown(vlan: nat, routes: RT.Routes, flows: Flows, addresses: Addresses, sel: Selection,
                          skip: set<int>)
    requires GatewaysKnown(routes, addresses) && Skipped(routes, addresses, sel, skip)
    ensures GatewaysKnown(routes, Shorn(addresses, AddressIds(flows, AddressesListed(vlan, flows, sel, skip))))
  {
    var left := Shorn(addresses, AddressIds(flows, AddressesListed(vlan, flows, sel, skip)));
    forall j | j in routes
      ensures Known(left, routes[j].gatewayIp)
    {
      var k :| k in addresses && k.Contains(routes[j].gatewayIp);
      var id := addresses[k].addressId;
      assert Related(routes, addresses, id);
      assert id !in AddressIds(flows, AddressesListed(vlan, flows, sel, skip)) by {
        assert id in skip || (sel != All && sel != Id(id));
      }
      assert k in left;
    }
  }

  class VlanRouter {
    const vlanId: nat
    const table: RT.RoutingTable
    const addressData: AddressData
    var flows: Flows

    ghost predicate Valid()
      reads this, table, addressData
    {
      && RT.Filed(table.routes, table.routeId) && table.routeId <= UINT32_MAX
      && Mirror(vlanId, table.routes, flows) && ValidAddresses() && Housed(flows, addressData.addresses)
      && GatewaysKnown(table.routes, addressData.addresses)
    }

    ghost predicate ValidAddresses()
      reads this, addressData
    {
      && Registered(addressData.addresses) && OwnIds(addressData.addresses, addressData.addressId)
      && addressData.addressId <= UINT32_MAX
    }

    constructor (vlanId: nat)
      ensures Valid() && this.vlanId == vlanId && fresh(table) && fresh(addressData)
      ensures table.routes == map[] && flows == map[DropSlot(vlanId) := DropFlow(vlanId)]
    {
      this.vlanId := vlanId;
      table := new RT.RoutingTable();
      addressData := new AddressData();
      flows := map[DropSlot(vlanId) := DropFlow(vlanId)];
    }

    /** Registers an address and sets its flows; routes and route flows stay as they are, whatever the id. */
    method SetAddressData(gw: Ip, netmask: int) returns (r: AddResult)
      requires Valid()
      modifies this`flows, addressData
      ensures Mirror(vlanId, table.routes, flows)
      ensures !r.Added? || old(addressData.addressId) < UINT32_MAX ==> Valid()
      ensures flows == if r.Added? then AddressSet(vlanId, old(flows), r.address) else old(flows)
      ensures r.Added? <==> 0 <= netmask <= WIDTH &&
                            forall k :: k in old(addressData.addresses) ==>
                              !Overlapping(k, Prefix(Apply(gw, netmask), netmask))
    {
      ghost var addresses := addressData.addresses;
      r := addressData.Add(gw, netmask);
      if r.Added? {
        AddressAdded(vlanId, table.routes, flows, addresses, r.address);
        flows := AddressSet(vlanId, flows, r.address);
      }
    }

    /** In every state a run can reach, table and switch agree about every address. */
    lemma AlwaysAgrees(ip: Ip)
      requires Valid()
      ensures Agrees(vlanId, table.routes, flows, ip)
      ensures (forall k :: k in addressData.addresses ==> !k.Contains(ip)) ==>
                forall slot :: Highest(flows, ip, slot) ==> HighestOfAll(flows, ip, slot)
    {
      MirrorAgrees(vlanId, table.routes, flows, table.routeId, ip);
      if forall k :: k in addressData.addresses ==> !k.Contains(ip) {
        forall slot | Highest(flows, ip, slot)
          ensures HighestOfAll(flows, ip, slot)
        {
          OutsideOnlyRoutes(flows, addressData.addresses, ip, slot);
        }
      }
    }

    /**
     * Adds a route. Of the routes it accepts, exactly those that usurp the default route's entry leave table and
     * switch out of step, whatever the id.
     */
    method SetRoutingData(d: RT.Destination, gateway: Option<Ip>) returns (r: SetResult)
      requires Valid()
      modifies this`flows, table
      ensures r.RouteSet? <==>
                && gateway.Some? && Adjacent(addressData.addresses, gateway.value)
                && d.Legal() && !(d.literal && Prefix(d.ip, d.netmask) in old(table.routes))
      ensures r.RouteSet? ==>
                && r.routeId == old(table.routeId)
                && var route := RT.NewRoute(r.routeId, d, gateway.value);
                && table.routes == old(table.routes)[d.Key() := route] && flows == Installed(vlanId, old(flows), route)
      ensures !r.RouteSet? ==> Valid() && table.routes == old(table.routes) && flows == old(flows)
      ensures Mirror(vlanId, table.routes, flows) <==>
              !(r.RouteSet? && d.netmask == 0 && !d.DefaultText() && HasDefault(old(table.routes)))
      ensures Mirror(vlanId, table.routes, flows) && old(table.routeId) < UINT32_MAX ==> Valid()
    {
      if gateway.None? {
        return BadGateway;
      }
      var address := addressData.GetData(gateway.value);
      if address.None? {
        return GatewayNotRegistered;
      }
      if gateway.value == address.value.defaultGw {
        return GatewayIsOurs(address.value.addressId);
      }
      ghost var routes, next := table.routes, table.routeId;
      var added := table.Add(d, gateway.value);
      match added
      case IllegalDestination =>
        return IllegalDestination;
      case Overlap(id) =>
        return DestinationOverlaps(id);
      case Added(route) =>
        Zero(d);
        AddMirror(vlanId, routes, flows, next, route);
        StillHoused(flows, Installed(vlanId, flows, route), addressData.addresses);
        RouteKnown(routes, addressData.addresses, route);
        flows := Installed(vlanId, flows, route);
        return RouteSet(route.routeId);
    }

    /** An ARP packet from a gateway: every route through it gets its forwarding flow. */
    method UpdateRoutingTable(srcIp: Ip, srcMac: RT.Mac, outPort: nat, portMac: RT.Mac) returns (gateway: bool)
      requires Valid()
      modifies this`flows, table`routes
      ensures Valid()
      ensures table.routes == Learned(old(table.routes), {}, srcIp, srcMac)
      ensures gateway <==> Through(old(table.routes), {}, srcIp)
      ensures Forwarded(vlanId, old(table.routes), {}, srcIp, Forward(outPort, portMac, srcMac), flows)
    {
      ghost var before, routes := flows, table.routes;
      gateway := UpdateRoutes(srcIp, Forward(outPort, portMac, srcMac));
      StillHoused(before, flows, addressData.addresses);
      LearnedKnown(routes, addressData.addresses, srcIp, srcMac);
    }

    /** Where the walk over the routes stands when those in `todo` are still to come. */
    ghost predicate Updating(routes: RT.Routes, todo: set<Prefix>, srcIp: Ip, action: Action, gateway: bool)
      requires action.Forward?
      reads this, table
    {
      && todo <= routes.Keys && table.routes == Learned(routes, todo, srcIp, action.dstMac)
      && InStep(vlanId, table.routes, flows, table.routeId) && (gateway <==> Through(routes, todo, srcIp))
      && RT.Filed(routes, table.routeId) && Forwarded(vlanId, routes, todo, srcIp, action, flows)
    }

    method UpdateRoutes(srcIp: Ip, action: Action) returns (gateway: bool)
      requires action.Forward? && InStep(vlanId, table.routes, flows, table.routeId)
      modifies this`flows, table`routes
      ensures InStep(vlanId, table.routes, flows, table.routeId)
      ensures table.routes == Learned(old(table.routes), {}, srcIp, action.dstMac)
      ensures gateway <==> Through(old(table.routes), {}, srcIp)
      ensures Forwarded(vlanId, old(table.routes), {}, srcIp, action, flows)
      ensures NoNewAddresses(old(flows), flows)
    {
      gateway := false;
      ghost var routes, before := table.routes, flows;
      var todo := table.routes.Keys;
      LearnedNone(routes, srcIp, action.dstMac);
      while todo != {}
        invariant Updating(routes, todo, srcIp, action, gateway) && NoNewAddresses(before, flows)
        decreases |todo|
      {
        todo, gateway := UpdateNext(srcIp, action, gateway, todo, routes);
      }
    }

    /** The same for one route, whichever comes next. */
    method UpdateNext(srcIp: Ip, action: Action, gateway: bool, todo: set<Prefix>, ghost routes: RT.Routes)
      returns (rest: set<Prefix>, flag: bool)
      requires action.Forward? && todo != {} && Updating(routes, todo, srcIp, action, gateway)
      modifies this`flows, table`routes
      ensures |rest| < |todo| && Updating(routes, rest, srcIp, action, flag) && NoNewAddresses(old(flows), flows)
    {
      var k :| k in todo;
      flag := gateway;
      LearnedMore(routes, todo, srcIp, action.dstMac, k);
      ThroughMore(routes, todo, srcIp, k);
      ForwardedMore(vlanId, routes, todo, srcIp, action, flows, table.routeId, k);
      var value := table.routes[k];
      if value.gatewayIp == srcIp {
        flag := true;
        if value.gatewayMac != Some(action.dstMac) {
          LearnMac(k, action);
        }
      }
      rest := todo - {k};
    }

    /** Notes the gateway's hardware address in one route and sets its forwarding flow. */
    method LearnMac(k: Prefix, action: Action)
      requires InStep(vlanId, table.routes, flows, table.routeId) && k in table.routes && action.Forward?
      modifies this`flows, table`routes
      ensures InStep(vlanId, table.routes, flows, table.routeId)
      ensures table.routes == old(table.routes)[k := old(table.routes)[k].(gatewayMac := Some(action.dstMac))]
      ensures flows == WithForward(vlanId, old(flows), old(table.routes)[k], action)
      ensures NoNewAddresses(old(flows), flows)
    {
      var route := table.routes[k].(gatewayMac := Some(action.dstMac));
      LearnOne(vlanId, table.routes, flows, table.routeId, k, route, action);
      table.routes := table.routes[k := route];
      flows := flows[SlotOf(vlanId, route) := Flow(RouteCookie(vlanId, route.routeId), action)];
    }

    /** Deletes one listed flow and its route, and puts the drop flow back when the catch-all went. */
    method DeleteOne(slot: Slot, cookie: nat)
      requires RT.Filed(table.routes, table.routeId)
      modifies this`flows, table
      ensures RT.Filed(table.routes, table.routeId) && table.routeId == old(table.routeId)
      ensures flows == AfterDelete(vlanId, old(flows), slot, cookie)
      ensures table.routes == RT.Without(old(table.routes), RouteIdOf(cookie))
    {
      flows := Purged(flows, cookie);
      table.Delete(RouteIdOf(cookie));
      if slot.priority == DropSlot(vlanId).priority {
        flows := flows[DropSlot(vlanId) := DropFlow(vlanId)];
      }
    }

    /** Where the deletion of routes stands when the flows in `done` are dealt with. */
    ghost predicate Purging(routes: RT.Routes, snapshot: Flows, next: nat, done: set<Slot>, deleted: set<nat>)
      reads this, table
    {
      && table.routeId == next && RT.Filed(table.routes, next) && deleted == IdsOf(snapshot, done)
      && table.routes == Minus(routes, deleted) && flows == Cleared(vlanId, snapshot, done)
    }

    /** Deals with one listed flow more, whichever comes next. */
    method DeleteNext(snapshot: Flows, todo: set<Slot>, deleted: set<nat>, ghost listed: set<Slot>,
                      ghost routes: RT.Routes, ghost next: nat)
      returns (rest: set<Slot>, ids: set<nat>)
      requires InStep(vlanId, routes, snapshot, next) && todo != {} && todo <= listed <= snapshot.Keys
      requires Purging(routes, snapshot, next, listed - todo, deleted)
      modifies this`flows, table
      ensures |rest| < |todo| && rest <= todo && Purging(routes, snapshot, next, listed - rest, ids)
    {
      var s :| s in todo;
      rest := todo - {s};
      DoneMore(listed, todo, s);
      DeleteListed(s, snapshot[s].cookie, routes, snapshot, next, listed - todo, deleted);
      ids := deleted + {RouteIdOf(snapshot[s].cookie)};
    }

    method DeleteListed(s: Slot, cookie: nat, ghost routes: RT.Routes, ghost snapshot: Flows, ghost next: nat,
                        ghost done: set<Slot>, ghost deleted: set<nat>)
      requires InStep(vlanId, routes, snapshot, next) && s in snapshot && s !in done
      requires Purging(routes, snapshot, next, done, deleted) && cookie == snapshot[s].cookie
      modifies this`flows, table
      ensures Purging(routes, snapshot, next, done + {s}, deleted + {RouteIdOf(cookie)})
    {
      ClearedMore(vlanId, routes, snapshot, next, done, s);
      MinusOne(routes, deleted, RouteIdOf(cookie));
      assert IdsOf(snapshot, done + {s}) == IdsOf(snapshot, done) + {RouteIdOf(cookie)};
      DeleteOne(s, cookie);
    }

    /**
     * Deletes the selected routes whose id fits the cookie, and nothing else from the table; and from the switch every
     * flow whose cookie reads as one of them. Table and switch stay in step, in whatever order the flows are listed.
     */
    method DeleteRoutingData(sel: Selection) returns (deleted: set<nat>)
      requires Valid()
      modifies this`flows, table
      ensures Valid() && table.routeId == old(table.routeId)
      ensures table.routes == Remaining(old(table.routes), sel)
      ensures flows == RoutesCleared(vlanId, old(flows), sel)
      ensures deleted == IdsOf(old(flows), RoutesListed(vlanId, old(flows), sel))
    {
      ghost var routes, next := table.routes, table.routeId;
      var snapshot := flows;
      deleted := PurgeRoutes(sel, snapshot, routes, next);
      ClearedAll(vlanId, snapshot, sel);
      RemainingIs(vlanId, routes, snapshot, next, sel);
      RemainingMirror(vlanId, routes, snapshot, next, sel);
      StillHoused(snapshot, flows, addressData.addresses);
    }

    /** The loop over the listed flows. */
    method PurgeRoutes(sel: Selection, snapshot: Flows, ghost routes: RT.Routes, ghost next: nat)
      returns (deleted: set<nat>)
      requires InStep(vlanId, routes, snapshot, next)
      requires flows == snapshot && table.routes == routes && table.routeId == next
      modifies this`flows, table
      ensures Purging(routes, snapshot, next, RoutesListed(vlanId, snapshot, sel), deleted)
    {
      ghost var listed := RoutesListed(vlanId, snapshot, sel);
      var todo := RoutesListed(vlanId, snapshot, sel);
      deleted := {};
      NothingGone(vlanId, routes, snapshot, listed);
      while todo != {}
        invariant todo <= listed && Purging(routes, snapshot, next, listed - todo, deleted)
        decreases |todo|
      {
        todo, deleted := DeleteNext(snapshot, todo, deleted, listed, routes, next);
      }
      assert listed - todo == listed;
    }

    /** The addresses asked for that some route's gateway needs. */
    method ChkAddrRelationRoute(sel: Selection) returns (skip: set<int>)
      requires Registered(addressData.addresses)
      ensures Skipped(table.routes, addressData.addresses, sel, skip)
    {
      skip := {};
      var todo := table.routes.Keys;
      while todo != {}
        invariant todo <= table.routes.Keys
        invariant SkippedOutside(table.routes, addressData.addresses, todo, sel, skip)
        decreases |todo|
      {
        todo, skip := RelateNext(sel, todo, skip);
      }
      AllSkipped(table.routes, addressData.addresses, sel, skip);
    }

    /** The same for one gateway more, whichever comes next. */
    method RelateNext(sel: Selection, todo: set<Prefix>, skip: set<int>) returns (rest: set<Prefix>, more: set<int>)
      requires Registered(addressData.addresses) && todo != {} && todo <= table.routes.Keys
      requires SkippedOutside(table.routes, addressData.addresses, todo, sel, skip)
      ensures |rest| < |todo| && rest <= todo
      ensures SkippedOutside(table.routes, addressData.addresses, rest, sel, more)
    {
      var j :| j in todo;
      rest, more := todo - {j}, skip;
      var address := addressData.GetData(table.routes[j].gatewayIp);
      RelatedMore(table.routes, addressData.addresses, todo, j, address);
      if address.Some? && (sel == All || sel == Id(address.value.addressId)) {
        more := skip + {address.value.addressId};
      }
    }

    /** Deletes one listed flow and the address its cookie reads as, if there is one. */
    method DeleteAddressOne(cookie: nat)
      requires ValidAddresses()
      modifies this`flows, addressData`addresses
      ensures flows == Purged(old(flows), cookie)
      ensures addressData.addresses == WithoutId(old(addressData.addresses), AddressIdOf(cookie))
      ensures ValidAddresses()
    {
      flows := Purged(flows, cookie);
      var id := AddressIdOf(cookie);
      ghost var addresses := addressData.addresses;
      var address := addressData.GetDataById(id);
      if address.Some? {
        addressData.Delete(id);
        ghost var k :| k in addresses && addresses[k].addressId == id && addressData.addresses == addresses - {k};
        WithoutOneId(addresses, addressData.addressId, k);
      } else {
        assert WithoutId(addresses, id) == addresses;
      }
    }

    /**
     * Deletes addresses. The flows that go are found by their cookies, and so table and switch stay in step exactly if
     * the id asked for is not also read off the cookie of a route or of the drop flow.
     */
    method DeleteAddressData(sel: Selection) returns (skip: set<int>)
      requires Valid()
      modifies this`flows, addressData`addresses
      ensures Skipped(table.routes, old(addressData.addresses), sel, skip)
      ensures flows == AddressesCleared(vlanId, old(flows), sel, skip)
      ensures addressData.addresses ==
              Shorn(old(addressData.addresses), AddressIds(old(flows), AddressesListed(vlanId, old(flows), sel, skip)))
      ensures Mirror(vlanId, table.routes, flows) <==> !HitsRoutes(table.routes, sel, skip)
      ensures Mirror(vlanId, table.routes, flows) ==> Valid()
    {
      ghost var addresses := addressData.addresses;
      var snapshot := flows;
      skip := ChkAddrRelationRoute(sel);
      PurgeAddresses(sel, skip, snapshot, addresses);
      StrippedAll(vlanId, snapshot, sel, skip);
      AddressDeletionMirror(vlanId, table.routes, snapshot, table.routeId, sel, skip);
      ShornHoused(vlanId, table.routes, snapshot, addresses, sel, skip);
      GatewaysStayKnown(vlanId, table.routes, snapshot, addresses, sel, skip);
    }

    /** Where the deletion of addresses stands when the flows in `done` are dealt with. */
    ghost predicate Shearing(addresses: Addresses, snapshot: Flows, done: set<Slot>)
      reads this, addressData
    {
      && ValidAddresses() && flows == Stripped(snapshot, done)
      && addressData.addresses == Shorn(addresses, AddressIds(snapshot, done))
    }

    /** The loop over the listed flows. */
    method PurgeAddresses(sel: Selection, skip: set<int>, snapshot: Flows, ghost addresses: Addresses)
      requires ValidAddresses() && flows == snapshot && addressData.addresses == addresses
      modifies this`flows, addressData`addresses
      ensures Shearing(addresses, snapshot, AddressesListed(vlanId, snapshot, sel, skip))
    {
      ghost var listed := AddressesListed(vlanId, snapshot, sel, skip);
      var todo := AddressesListed(vlanId, snapshot, sel, skip);
      NoneShorn(addresses, snapshot, listed);
      while todo != {}
        invariant todo <= listed && Shearing(addresses, snapshot, listed - todo)
        decreases |todo|
      {
        todo := ShearNext(snapshot, todo, listed, addresses);
      }
      assert listed - todo == listed;
    }

    /** Deals with one listed flow more, whichever comes next. */
    method ShearNext(snapshot: Flows, todo: set<Slot>, ghost listed: set<Slot>, ghost addresses: Addresses)
      returns (rest: set<Slot>)
      requires todo != {} && todo <= listed <= snapshot.Keys && Shearing(addresses, snapshot, listed - todo)
      modifies this`flows, addressData`addresses
      ensures |rest| < |todo| && rest <= todo && Shearing(addresses, snapshot, listed - rest)
    {
      var s :| s in todo;
      rest := todo - {s};
      DoneMore(listed, todo, s);
      StrippedMore(snapshot, listed - todo, s);
      ShornMore(addresses, snapshot, listed - todo, s);
      DeleteAddressOne(snapshot[s].cookie);
    }
  }

  lemma DoneMore(listed: set<Slot>, todo: set<Slot>, s: Slot)
    requires s in todo && todo <= listed
    ensures listed - (todo - {s}) == listed - todo + {s}
  {
  }

  lemma NothingGone(vlan: nat, routes: RT.Routes, snapshot: Flows, listed: set<Slot>)
    ensures Minus(routes, {}) == routes && Cleared(vlan, snapshot, listed - listed) == snapshot
    ensures IdsOf(snapshot, listed - listed) == {}
  {
  }

  lemma NoneShorn(addresses: Addresses, snapshot: Flows, listed: set<Slot>)
    ensures Shorn(addresses, AddressIds(snapshot, listed - listed)) == addresses
    ensures Stripped(snapshot, listed - listed) == snapshot
  {
  }

  /** What is known about the addresses to skip when the gateways in `todo` are still to come. */
  ghost predicate SkippedOutside(routes: RT.Routes, addresses: Addresses, todo: set<Prefix>, sel: Selection,
                                 skip: set<int>)
  {
    forall id: int :: id in skip <==> (sel == All || sel == Id(id)) && RelatedOutside(routes, addresses, todo, id)
  }

  lemma AllSkipped(routes: RT.Routes, addresses: Addresses, sel: Selection, skip: set<int>)
    requires SkippedOutside(routes, addresses, {}, sel, skip)
    ensures Skipped(routes, addresses, sel, skip)
  {
    assert forall id: int :: RelatedOutside(routes, addresses, {}, id) <==> Related(routes, addresses, id);
  }

  /** Some route outside `todo` has its gateway in the network of the address with this id. */
  ghost predicate RelatedOutside(routes: RT.Routes, addresses: Addresses, todo: set<Prefix>, id: int) {
    exists j, k :: j in routes && j !in todo && k in addresses && addresses[k].addressId == id &&
                   k.Contains(routes[j].gatewayIp)
  }

  lemma RelatedMore(routes: RT.Routes, addresses: Addresses, todo: set<Prefix>, j: Prefix, address: Option<Address>)
    requires j in routes && j in todo
    requires address == None <==> forall k :: k in addresses ==> !k.Contains(routes[j].gatewayIp)
    requires forall k :: k in addresses && k.Contains(routes[j].gatewayIp) ==> address == Some(addresses[k])
    ensures forall id: int :: RelatedOutside(routes, addresses, todo - {j}, id) <==>
              RelatedOutside(routes, addresses, todo, id) || (address.Some? && address.value.addressId == id)
  {
    forall id: int
      ensures RelatedOutside(routes, addresses, todo - {j}, id) <==>
              RelatedOutside(routes, addresses, todo, id) || (address.Some? && address.value.addressId == id)
    {
      if RelatedOutside(routes, addresses, todo, id) {
        var i, k :| i in routes && i !in todo && k in addresses && addresses[k].addressId == id &&
          k.Contains(routes[i].gatewayIp);
        assert i !in todo - {j};
      }
      if address.Some? && address.value.addressId == id {
        var k :| k in addresses && k.Contains(routes[j].gatewayIp);
        assert j !in todo - {j} && addresses[k].addressId == id;
      }
    }
  }

  /** What registering an address keeps. */
  lemma AddressAdded(vlan: nat, routes: RT.Routes, flows: Flows, addresses: Addresses, address: Address)
    requires Mirror(vlan, routes, flows) && Housed(flows, addresses) && GatewaysKnown(routes, addresses)
    requires OwnIds(addresses, address.addressId) && address.addressId <= UINT32_MAX
    requires address.network !in addresses && address.network.Contains(address.defaultGw)
    ensures Mirror(vlan, routes, AddressSet(vlan, flows, address))
    ensures Housed(AddressSet(vlan, flows, address), addresses[address.network := address])
    ensures GatewaysKnown(routes, addresses[address.network := address])
    ensures OwnIds(addresses[address.network := address], address.addressId + 1)
  {
    AddressHoused(vlan, flows, addresses, address);
    AddressMirror(vlan, routes, flows, address);
    MoreKnown(routes, addresses, address);
  }

  lemma MoreKnown(routes: RT.Routes, addresses: Addresses, address: Address)
    requires GatewaysKnown(routes, addresses) && address.network !in addresses
    ensures GatewaysKnown(routes, addresses[address.network := address])
  {
    forall j | j in routes
      ensures Known(addresses[address.network := address], routes[j].gatewayIp)
    {
      var k :| k in addresses && k.Contains(routes[j].gatewayIp);
      assert k in addresses[address.network := address];
    }
  }

  lemma RouteKnown(routes: RT.Routes, addresses: Addresses, route: RT.Route)
    requires GatewaysKnown(routes, addresses) && Adjacent(addresses, route.gatewayIp)
    ensures GatewaysKnown(routes[route.Key() := route], addresses)
  {
  }

  lemma LearnedKnown(routes: RT.Routes, addresses: Addresses, ip: Ip, mac: RT.Mac)
    requires GatewaysKnown(routes, addresses)
    ensures GatewaysKnown(Learned(routes, {}, ip, mac), addresses)
  {
    forall k | k in routes
      ensures Known(addresses, Learned(routes, {}, ip, mac)[k].gatewayIp)
    {
      assert Known(addresses, routes[k].gatewayIp);
    }
  }

  /** The routes once `mac` is known for the gateway `ip`, those in `todo` still being as before. */
  function Learned(routes: RT.Routes, todo: set<Prefix>, ip: Ip, mac: RT.Mac): RT.Routes {
    map k | k in routes ::
      if k !in todo && routes[k].gatewayIp == ip then routes[k].(gatewayMac := Some(mac)) else routes[k]
  }

  /** Some route outside `todo` goes through `ip`. */
  ghost predicate Through(routes: RT.Routes, todo: set<Prefix>, ip: Ip) {
    exists k :: k in routes && k !in todo && routes[k].gatewayIp == ip
  }

  /** The flow table after the forwarding flow of a route is set. */
  function WithForward(vlan: nat, flows: Flows, route: RT.Route, action: Action): Flows {
    flows[SlotOf(vlan, route) := Flow(RouteCookie(vlan, route.routeId), action)]
  }

  ghost predicate ForwardedAt(vlan: nat, route: RT.Route, ip: Ip, action: Action, flows: Flows)
    requires action.Forward?
  {
    route.gatewayIp == ip && route.gatewayMac != Some(action.dstMac) ==>
      SlotOf(vlan, route) in flows && flows[SlotOf(vlan, route)] == Flow(RouteCookie(vlan, route.routeId), action)
  }

  /** Every route outside `todo` whose gateway `ip` has a new hardware address forwards as `action` says. */
  ghost predicate Forwarded(vlan: nat, routes: RT.Routes, todo: set<Prefix>, ip: Ip, action: Action, flows: Flows)
    requires action.Forward?
  {
    forall k :: k in routes && k !in todo ==> ForwardedAt(vlan, routes[k], ip, action, flows)
  }

  lemma ForwardedMore(vlan: nat, routes: RT.Routes, todo: set<Prefix>, ip: Ip, action: Action, flows: Flows, next: nat,
                      k: Prefix)
    requires action.Forward? && RT.Filed(routes, next) && k in routes
    requires Forwarded(vlan, routes, todo, ip, action, flows)
    ensures Forwarded(vlan, routes, todo - {k}, ip, action, WithForward(vlan, flows, routes[k], action))
    ensures routes[k].gatewayIp != ip || routes[k].gatewayMac == Some(action.dstMac) ==>
              Forwarded(vlan, routes, todo - {k}, ip, action, flows)
  {
    OtherSlots(vlan, routes, next, k);
    forall j | j in routes && j !in todo - {k}
      ensures ForwardedAt(vlan, routes[j], ip, action, WithForward(vlan, flows, routes[k], action))
    {
      if j != k {
        assert ForwardedAt(vlan, routes[j], ip, action, flows);
      }
    }
  }

  lemma LearnedNone(routes: RT.Routes, ip: Ip, mac: RT.Mac)
    ensures Learned(routes, routes.Keys, ip, mac) == routes
  {
  }

  lemma LearnedMore(routes: RT.Routes, todo: set<Prefix>, ip: Ip, mac: RT.Mac, k: Prefix)
    requires k in routes && k in todo
    ensures Learned(routes, todo, ip, mac)[k] == routes[k]
    ensures Learned(routes, todo - {k}, ip, mac) ==
            if routes[k].gatewayIp == ip then Learned(routes, todo, ip, mac)[k := routes[k].(gatewayMac := Some(mac))]
            else Learned(routes, todo, ip, mac)
    ensures routes[k].gatewayMac == Some(mac) ==> Learned(routes, todo - {k}, ip, mac) == Learned(routes, todo, ip, mac)
  {
    assert routes[k].gatewayMac == Some(mac) ==> routes[k].(gatewayMac := Some(mac)) == routes[k];
  }

  lemma ThroughMore(routes: RT.Routes, todo: set<Prefix>, ip: Ip, k: Prefix)
    requires k in routes && k in todo
    ensures Through(routes, todo - {k}, ip) <==> Through(routes, todo, ip) || routes[k].gatewayIp == ip
  {
    if Through(routes, todo, ip) {
      var j :| j in routes && j !in todo && routes[j].gatewayIp == ip;
      assert j !in todo - {k};
    }
    if routes[k].gatewayIp == ip {
      assert k !in todo - {k};
    }
  }

  ghost predicate InStep(vlan: nat, routes: RT.Routes, flows: Flows, next: nat) {
    RT.Filed(routes, next) && Mirror(vlan, routes, flows)
  }

  /** Setting the forwarding flow of one route whose gateway has answered. */
  lemma LearnOne(vlan: nat, routes: RT.Routes, flows: Flows, next: nat, k: Prefix, route: RT.Route, action: Action)
    requires InStep(vlan, routes, flows, next) && k in routes && action.Forward?
    requires route == routes[k].(gatewayMac := Some(action.dstMac))
    ensures InStep(vlan, routes[k := route], WithForward(vlan, flows, route, action), next)
  {
    assert SlotOf(vlan, route) == SlotOf(vlan, routes[k]);
    LearnFiled(routes, next, k, route);
    LearnServed(vlan, routes, flows, next, k, route, action);
  }

  lemma LearnFiled(routes: RT.Routes, next: nat, k: Prefix, route: RT.Route)
    requires RT.Filed(routes, next) && k in routes && route == routes[k].(gatewayMac := route.gatewayMac)
    ensures RT.Filed(routes[k := route], next)
  {
  }

  lemma LearnServed(vlan: nat, routes: RT.Routes, flows: Flows, next: nat, k: Prefix, route: RT.Route, action: Action)
    requires RT.Filed(routes, next) && AllServed(vlan, routes, flows) && k in routes && action.Forward?
    requires route == routes[k].(gatewayMac := Some(action.dstMac))
    ensures AllServed(vlan, routes[k := route], WithForward(vlan, flows, route, action))
  {
    OtherSlots(vlan, routes, next, k);
    assert SlotOf(vlan, route) == SlotOf(vlan, routes[k]);
  }

  lemma Zero(d: RT.Destination)
    requires d.Legal()
    ensures d.netmask == 0 ==> d.Key() == RT.DEFAULT_ROUTE
  {
    WholeSpace(d.ip);
  }

  /**
   * A run that goes wrong: a default route, then a route to "10.0.0.0/0", which takes the default's entry, then the
   * deletion of that second route. The table is empty, and the switch still serves the first route.
   */
  lemma StaleDefault(gw: Ip, ip: Ip)
    ensures var first := RT.Route(1, None, 0, gw, None);
            var second := RT.Route(2, Some(0), 0, gw, None);
            var routes := map[RT.DEFAULT_ROUTE := second];
            var flows := Installed(0, Installed(0, map[DropSlot(0) := DropFlow(0)], first), second);
            var after := AfterDelete(0, flows, SlotOf(0, second), RouteCookie(0, 2));
            RT.Without(routes, 2) == map[] && !Agrees(0, map[], after, ip) && Highest(after, ip, SlotOf(0, first))
  {
    var first := RT.Route(1, None, 0, gw, None);
    var second := RT.Route(2, Some(0), 0, gw, None);
    var flows := Installed(0, Installed(0, map[DropSlot(0) := DropFlow(0)], first), second);
    var after := AfterDelete(0, flows, SlotOf(0, second), RouteCookie(0, 2));
    assert after == map[DropSlot(0) := Flow(RouteCookie(0, 1), PacketIn)];
    assert RT.Lookup(map[], ip, None);
  }

  /**
   * Deleting address 65536 takes the flow of route 1 away and leaves the route in the table; unless some gateway is in
   * that address's network, the switch then no longer does for route 1's destinations what the table says.
   */
  lemma RouteLostWithAddress(vlan: nat, routes: RT.Routes, flows: Flows, next: nat, skip: set<int>, k: Prefix, ip: Ip)
    requires RT.Filed(routes, next) && Mirror(vlan, routes, flows) && 0x1_0000 !in skip
    requires RT.LongestAt(routes, ip, k) && routes[k].routeId == 1
    ensures !Agrees(vlan, routes, AddressesCleared(vlan, flows, Id(0x1_0000), skip), ip)
  {
    RouteHit(vlan, Id(0x1_0000), skip, 1);
    assert RT.Lookup(routes, ip, Some(routes[k]));
  }

  /** Deleting address 0 takes the drop flow away, and nothing puts it back. */
  lemma DropLostWithAddress(vlan: nat, routes: RT.Routes, flows: Flows, next: nat, skip: set<int>)
    requires RT.Filed(routes, next) && Mirror(vlan, routes, flows) && 0 !in skip && !HasDefault(routes)
    ensures !Mirror(vlan, routes, AddressesCleared(vlan, flows, Id(0), skip))
    ensures DropSlot(vlan) !in AddressesCleared(vlan, flows, Id(0), skip)
  {
    DropHit(vlan, Id(0), skip);
  }
}
