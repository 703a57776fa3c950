/** `AddressData`: the networks a router has an address in. */
module AddressTables {
  import opened Walks
  import opened Prefixes

  datatype Address = Address(addressId: nat, network: Prefix, defaultGw: nat)

  type Addresses = map<Prefix, Address>

  datatype AddError = IllegalNetmask | Overlap(addressId: nat)
  datatype AddResult = Added(address: Address) | Refused(error: AddError)

  /** The test `add` makes: does one of the two networks contain the other one's gateway? */
  predicate GatewaysClash(a: Prefix, aGw: nat, b: Prefix, bGw: nat) {
    a.Contains(bGw) || b.Contains(aGw)
  }

  ghost predicate Overlapping(a: Prefix, b: Prefix) {
    exists x: nat :: a.Contains(x) && b.Contains(x)
  }

  /** Testing the two gateways finds every overlap, and nothing else. */
  lemma ClashIsOverlap(a: Prefix, aGw: nat, b: Prefix, bGw: nat)
    requires a.Contains(aGw) && b.Contains(bGw)
    ensures GatewaysClash(a, aGw, b, bGw) <==> Overlapping(a, b)
  {
    if Overlapping(a, b) {
      var x: nat :| a.Contains(x) && b.Contains(x);
      if a.len <= b.len {
        Nested(a, b, x, bGw);
      } else {
        Nested(b, a, x, aGw);
      }
    }
  }

  /** Every network is filed under its own name, holds its own gateway, and overlaps no other. */
  ghost predicate Registered(addresses: Addresses) {
    && (forall k :: k in addresses ==> addresses[k].network == k && k.Contains(addresses[k].defaultGw))
    && (forall j, k :: j in addresses && k in addresses && j != k ==> !Overlapping(j, k))
  }

  /** Every network has an id of its own below `next`. */
  ghost predicate OwnIds(addresses: Addresses, next: nat) {
    && next >= 1 && (forall k :: k in addresses ==> 1 <= addresses[k].addressId < next)
    && (forall j, k :: j in addresses && k in addresses && addresses[j].addressId == addresses[k].addressId ==> j == k)
  }

  function WithoutId(addresses: Addresses, id: nat): Addresses {
    map k | k in addresses && addresses[k].addressId != id :: addresses[k]
  }

  /** Ids are unique, so dropping the first network found is dropping them all. */
  lemma WithoutOneId(addresses: Addresses, next: nat, k: Prefix)
    requires OwnIds(addresses, next) && k in addresses
    ensures addresses - {k} == WithoutId(addresses, addresses[k].addressId)
  {
    assert forall j :: j in addresses - {k} <==> j in WithoutId(addresses, addresses[k].addressId);
  }

  class AddressData {
    var addresses: Addresses
    var addressId: nat

    constructor ()
      ensures addresses == map[] && addressId == 1 && Registered(addresses)
    {
      addresses, addressId := map[], 1;
    }

    /** Registers the network of the gateway `gw` unless it overlaps one that is registered. */
    method Add(gw: Ip, netmask: int) returns (r: AddResult)
      requires Registered(addresses)
      modifies this
      ensures Registered(addresses)
      ensures r == Refused(IllegalNetmask) <==> !(0 <= netmask <= WIDTH)
      ensures r.Added? <==> 0 <= netmask <= WIDTH &&
                            forall k :: k in old(addresses) ==> !Overlapping(k, Prefix(Apply(gw, netmask), netmask))
      ensures r.Added? ==> r.address == Address(old(addressId), Prefix(Apply(gw, netmask), netmask), gw) &&
                           addresses == old(addresses)[r.address.network := r.address] &&
                           r.address.network !in old(addresses)
      ensures r.Added? ==> addressId == NextId(old(addressId))
      ensures r.Added? ==> if old(addressId) < 0xffff_ffff then addressId == old(addressId) + 1 else addressId == 1
      ensures r.Refused? ==> addresses == old(addresses) && addressId == old(addressId)
    {
      if !(0 <= netmask <= WIDTH) {
        return Refused(IllegalNetmask);
      }
      var network := Prefix(Apply(gw, netmask), netmask);
      var todo := addresses.Keys;
      while todo != {}
        invariant todo <= addresses.Keys && addresses == old(addresses) && addressId == old(addressId)
        invariant forall k :: k in addresses.Keys - todo ==> !Overlapping(k, network)
        decreases |todo|
      {
        var k :| k in todo;
        var other := addresses[k];
        ClashIsOverlap(k, other.defaultGw, network, gw);
        if GatewaysClash(other.network, other.defaultGw, network, gw) {
          return Refused(Overlap(other.addressId));
        }
        todo := todo - {k};
      }
      assert network in addresses ==> Overlapping(network, network);
      var address := Address(addressId, network, gw);
      addresses := addresses[network := address];
      OverlapSymmetric(network);
      addressId := NextId(addressId);
      r := Added(address);
    }

    /** Forgets the network with the given id, if there is one. */
    method Delete(id: nat)
      requires Registered(addresses)
      modifies this`addresses
      ensures Registered(addresses)
      ensures (forall k :: k in old(addresses) ==> old(addresses)[k].addressId != id) ==> addresses == old(addresses)
      ensures (exists k :: k in old(addresses) && old(addresses)[k].addressId == id) ==>
                exists k :: k in old(addresses) && old(addresses)[k].addressId == id &&
                            addresses == old(addresses) - {k}
    {
      var todo := addresses.Keys;
      while todo != {}
        invariant todo <= addresses.Keys && addresses == old(addresses)
        invariant forall k :: k in addresses.Keys - todo ==> addresses[k].addressId != id
        decreases |todo|
      {
        var k :| k in todo;
        if addresses[k].addressId == id {
          addresses := addresses - {k};
          return;
        }
        todo := todo - {k};
      }
    }

    /** The network with the given id, if there is one. */
    method GetDataById(id: nat) returns (r: Option<Address>)
      ensures r == None <==> forall k :: k in addresses ==> addresses[k].addressId != id
      ensures r.Some? ==> r.value.addressId == id && exists k :: k in addresses && addresses[k] == r.value
    {
      var todo := addresses.Keys;
      while todo != {}
        invariant todo <= addresses.Keys
        invariant forall k :: k in addresses.Keys - todo ==> addresses[k].addressId != id
        decreases |todo|
      {
        var k :| k in todo;
        if addresses[k].addressId == id {
          return Some(addresses[k]);
        }
        todo := todo - {k};
      }
      r := None;
    }

    /** The only network that holds `ip`, whatever the order in which the networks are looked at. */
    method GetData(ip: Ip) returns (r: Option<Address>)
      requires Registered(addresses)
      ensures r == None <==> forall k :: k in addresses ==> !k.Contains(ip)
      ensures forall k :: k in addresses && k.Contains(ip) ==> r == Some(addresses[k])
    {
      var todo := addresses.Keys;
      while todo != {}
        invariant todo <= addresses.Keys
        invariant forall k :: k in addresses.Keys - todo ==> !k.Contains(ip)
        decreases |todo|
      {
        var k :| k in todo;
        if addresses[k].network.Contains(ip) {
          assert forall j :: j in addresses && j.Contains(ip) && j != k ==> Overlapping(j, k);
          return Some(addresses[k]);
        }
        todo := todo - {k};
      }
      r := None;
    }
  }

  lemma OverlapSymmetric(a: Prefix)
    ensures forall b :: Overlapping(a, b) <==> Overlapping(b, a)
  {
  }
}
