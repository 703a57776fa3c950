/** `RoutingTable`: static routes and the default route, looked up by longest match. */
module RouteTables {
  import opened Walks
  import opened Prefixes

  /** The key of the route for "0.0.0.0/0". */
  const DEFAULT_ROUTE := Prefix(0, 0)

  type Mac = nat

  /** The default route has no destination address; a static route with netmask 0 has the address 0.0.0.0. */
  datatype Route = Route(routeId: nat, dst: Option<nat>, netmask: nat, gatewayIp: Ip, gatewayMac: Option<Mac>) {
    function Key(): Prefix {
      Prefix(if dst.Some? then dst.value else 0, netmask)
    }

    predicate Default() {
      dst.None?
    }
  }

  type Routes = map<Prefix, Route>

  /**
   * A destination as the caller wrote it: its parsed address and netmask, and whether the text is literally
   * that address, a slash and that number.
   */
  datatype Destination = Malformed | Destination(ip: Ip, netmask: int, literal: bool) {
    /** The text is "0.0.0.0/0". */
    predicate DefaultText() {
      Destination? && literal && ip == 0 && netmask == 0
    }

    predicate Legal() {
      Destination? && 0 <= netmask <= WIDTH
    }

    function Key(): Prefix
      requires Legal()
    {
      Prefix(Apply(ip, netmask), netmask)
    }
  }

  datatype AddResult = Added(route: Route) | IllegalDestination | Overlap(routeId: nat)

  /** Every route is filed under its own network, with an id of its own below `next`. */
  ghost predicate Filed(routes: Routes, next: nat) {
    && next >= 1
    && (forall k :: k in routes ==> routes[k].Key() == k && k.len <= WIDTH)
    && (forall k :: k in routes && (k.len == 0 || routes[k].Default()) ==> k == DEFAULT_ROUTE)
    && (forall k :: k in routes ==> 1 <= routes[k].routeId < next)
    && (forall j, k :: j in routes && k in routes && routes[j].routeId == routes[k].routeId ==> j == k)
  }

  /** `k` is the longest network with a non-empty mask that holds `ip`. */
  ghost predicate LongestAt(routes: Routes, ip: nat, k: Prefix) {
    k in routes && k.len > 0 && k.Contains(ip) && forall j :: j in routes && j.Contains(ip) ==> j.len <= k.len
  }

  ghost predicate NoneLonger(routes: Routes, ip: nat) {
    forall j :: j in routes && j.Contains(ip) ==> j.len == 0
  }

  /** The answer of a lookup: the longest match, else whatever is filed as the default. */
  ghost predicate Lookup(routes: Routes, ip: nat, r: Option<Route>) {
    match r
    case None => NoneLonger(routes, ip) && DEFAULT_ROUTE !in routes
    case Some(route) =>
      || (NoneLonger(routes, ip) && DEFAULT_ROUTE in routes && routes[DEFAULT_ROUTE] == route)
      || (exists k :: LongestAt(routes, ip, k) && routes[k] == route)
  }

  /** Two networks of the same length that hold the same address are the same. */
  lemma LongestUnique(routes: Routes, ip: nat, j: Prefix, k: Prefix)
    requires LongestAt(routes, ip, j) && LongestAt(routes, ip, k)
    ensures j == k
  {
  }

  lemma LookupUnique(routes: Routes, ip: nat, r1: Option<Route>, r2: Option<Route>)
    requires Lookup(routes, ip, r1) && Lookup(routes, ip, r2)
    ensures r1 == r2
  {
    if r1.Some? && r2.Some? && !NoneLonger(routes, ip) {
      var j :| LongestAt(routes, ip, j) && routes[j] == r1.value;
      var k :| LongestAt(routes, ip, k) && routes[k] == r2.value;
      LongestUnique(routes, ip, j, k);
    }
  }

  class RoutingTable {
    var routes: Routes
    var routeId: nat

    constructor ()
      ensures routes == map[] && routeId == 1 && Filed(routes, routeId)
    {
      routes, routeId := map[], 1;
    }

    /** The overlap test looks for the text as written, the entry is filed under the network it names. */
    method Add(d: Destination, gateway: Ip) returns (r: AddResult)
      requires Filed(routes, routeId) && routeId <= UINT32_MAX
      modifies this
      ensures !r.Added? || old(routeId) < UINT32_MAX ==> Filed(routes, routeId)
      ensures r == IllegalDestination <==> d.Malformed? || !(0 <= d.netmask <= 32)
      ensures r.Added? ==> if old(routeId) < 0xffff_ffff then routeId == old(routeId) + 1 else routeId == 1
      ensures r.Added? ==>
                && r.route.netmask == d.netmask && r.route.gatewayIp == gateway && r.route.gatewayMac == None
                && (r.route.Default() <==> d.literal && d.ip == 0 && d.netmask == 0)
      ensures r.Overlap? <==> d.Legal() && d.literal && Prefix(d.ip, d.netmask) in old(routes)
      ensures r.Added? ==>
                && routeId == NextId(old(routeId))
                && r.route == NewRoute(old(routeId), d, gateway)
                && r.route.Key() == d.Key() && routes == old(routes)[d.Key() := r.route]
      ensures !r.Added? ==> routes == old(routes) && routeId == old(routeId)
    {
      if !d.Legal() {
        return IllegalDestination;
      }
      if d.literal && Prefix(d.ip, d.netmask) in routes {
        return Overlap(routes[Prefix(d.ip, d.netmask)].routeId);
      }
      WholeSpace(d.ip);
      var route := NewRoute(routeId, d, gateway);
      FiledGrows(routes, routeId, route);
      routes := routes[route.Key() := route];
      routeId := NextId(routeId);
      r := Added(route);
    }

    method Delete(id: nat)
      requires Filed(routes, routeId)
      modifies this`routes
      ensures Filed(routes, routeId)
      ensures routes == Without(old(routes), id)
    {
      var todo := routes.Keys;
      while todo != {}
        invariant todo <= routes.Keys && routes == old(routes)
        invariant forall k :: k in routes.Keys - todo ==> routes[k].routeId != id
        decreases |todo|
      {
        var k :| k in todo;
        if routes[k].routeId == id {
          WithoutOne(routes, routeId, k);
          routes := routes - {k};
          return;
        }
        todo := todo - {k};
      }
      assert routes == Without(routes, id);
    }

    /** Longest match, whatever the order in which the routes are looked at. */
    method GetData(ip: Ip) returns (r: Option<Route>)
      requires Filed(routes, routeId)
      ensures Lookup(routes, ip, r)
    {
      r := None;
      var mask := 0;
      ghost var best := DEFAULT_ROUTE;
      var todo := routes.Keys;
      while todo != {}
        invariant todo <= routes.Keys && mask >= 0
        invariant r.None? ==> mask == 0
        invariant r.Some? ==> best in routes && routes[best] == r.value && best.len == mask > 0 && best.Contains(ip)
        invariant forall k :: k in routes.Keys - todo && k.Contains(ip) ==> k.len <= mask
        decreases |todo|
      {
        var k :| k in todo;
        var route := routes[k];
        if route.dst.Some? && Apply(ip, route.netmask) == route.dst.value {
          if mask < route.netmask {
            r, mask, best := Some(route), route.netmask, k;
          }
        }
        todo := todo - {k};
      }
      if r.None? {
        r := if DEFAULT_ROUTE in routes then Some(routes[DEFAULT_ROUTE]) else None;
      } else {
        assert LongestAt(routes, ip, best);
      }
    }
  }

  /** The route a destination and a gateway make. */
  function NewRoute(id: nat, d: Destination, gateway: Ip): Route
    requires d.Legal()
  {
    Route(id, if d.DefaultText() then None else Some(d.Key().ip), d.netmask, gateway, None)
  }

  lemma FiledGrows(routes: Routes, next: nat, route: Route)
    requires Filed(routes, next) && route.routeId == next && route.netmask <= WIDTH
    requires route.netmask == 0 || route.Default() ==> route.Key() == DEFAULT_ROUTE
    ensures Filed(routes[route.Key() := route], next + 1)
  {
  }

  function Without(routes: Routes, id: nat): Routes {
    map k | k in routes && routes[k].routeId != id :: routes[k]
  }

  /** Ids are unique, so dropping the first route found is dropping them all. */
  lemma WithoutOne(routes: Routes, next: nat, k: Prefix)
    requires Filed(routes, next) && k in routes
    ensures routes - {k} == Without(routes, routes[k].routeId) && Filed(routes - {k}, next)
  {
    assert forall j :: j in routes - {k} <==> j in Without(routes, routes[k].routeId);
  }
}
