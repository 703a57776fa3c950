/** `flooding_strategy` of the ARP proxy: the first port a request comes in by is the only one it is flooded from. */
module ArpHandler {
  import opened Walks

  type Dpid = nat
  type Port = nat

  const ARP_FLOOD_TIMES_CONTROL := 5
  const ARP_FLOOD_CONTROL_TIMEOUT := 10.0

  datatype Key = Key(dpid: Dpid, ethSrc: nat, ipDst: nat)

  datatype Entry = Entry(port: Port, floodTimes: nat, timestamp: real) {
    predicate Stale(now: real) {
      now - timestamp > ARP_FLOOD_CONTROL_TIMEOUT
    }
  }

  datatype Verdict = Flood | Block | Ignore | Expire

  /** What becomes of the entry, and of the request. */
  datatype Outcome = Outcome(entry: Option<Entry>, verdict: Verdict)

  function Strategy(entry: Option<Entry>, inPort: Port, now: real): Outcome {
    match entry
    case None => Outcome(Some(Entry(inPort, 1, now)), Flood)
    case Some(e) =>
      if e.Stale(now) then Outcome(None, Expire)
      else if e.port != inPort then Outcome(entry, Block)
      else if e.floodTimes < ARP_FLOOD_TIMES_CONTROL then Outcome(Some(e.(floodTimes := e.floodTimes + 1)), Flood)
      else Outcome(entry, Ignore)
  }

  /** An entry expires exactly after ten seconds. Until then a request by another port is blocked, and one by the first
      port is flooded as long as there were fewer than five floods. */
  lemma StrategyMeaning(e: Entry, inPort: Port, now: real)
    ensures var verdict := Strategy(Some(e), inPort, now).verdict;
      && (verdict == Expire <==> now > e.timestamp + 10.0)
      && (verdict == Block <==> now <= e.timestamp + 10.0 && inPort != e.port)
      && (verdict == Flood <==> now <= e.timestamp + 10.0 && inPort == e.port && e.floodTimes < 5)
      && (verdict == Ignore <==> now <= e.timestamp + 10.0 && inPort == e.port && e.floodTimes >= 5)
  {
  }

  /** After a late copy the next one is flooded again, whatever port it comes in by. */
  lemma FloodedAgain(e: Entry, latePort: Port, late: real, inPort: Port, now: real)
    requires late > e.timestamp + 10.0
    ensures var after := Strategy(Some(e), latePort, late).entry;
      after == None && Strategy(after, inPort, now) == Outcome(Some(Entry(inPort, 1, now)), Flood)
  {
  }

  datatype Handled = Handled(key: Key, verdict: Verdict)

  /** How often `key` was flooded since its entry last expired. */
  ghost function FloodsSince(log: seq<Handled>, key: Key): nat {
    if log == [] then 0 else
    var last := log[|log| - 1];
    var before := FloodsSince(log[..|log| - 1], key);
    if last.key != key then before
    else if last.verdict == Expire then 0
    else if last.verdict == Flood then before + 1
    else before
  }

  class ProxyArp {
    var portBlockList: map<Key, Entry>
    ghost var log: seq<Handled>

    constructor ()
      ensures Valid() && portBlockList == map[] && log == []
    {
      portBlockList, log := map[], [];
    }

    /** Every entry counts its floods, and there are never more than five of them. */
    ghost predicate Valid()
      reads this
    {
      && (forall k :: k in portBlockList ==>
            1 <= portBlockList[k].floodTimes <= ARP_FLOOD_TIMES_CONTROL &&
            portBlockList[k].floodTimes == FloodsSince(log, k))
      && (forall k :: k !in portBlockList ==> FloodsSince(log, k) == 0)
    }

    function EntryOf(key: Key): Option<Entry>
      reads this
    {
      if key in portBlockList then Some(portBlockList[key]) else None
    }

    method FloodingStrategy(key: Key, inPort: Port, now: real) returns (verdict: Verdict)
      requires Valid()
      modifies this
      ensures Valid() && log == old(log) + [Handled(key, verdict)]
      ensures Outcome(EntryOf(key), verdict) == Strategy(old(EntryOf(key)), inPort, now)
      ensures forall k :: k != key ==> EntryOf(k) == old(EntryOf(k))
      ensures var e := old(EntryOf(key));
        if e.None? then verdict == Flood
        else if now > e.value.timestamp + 10.0 then verdict == Expire
        else if inPort != e.value.port then verdict == Block
        else verdict == if FloodsSince(old(log), key) < 5 then Flood else Ignore
      ensures forall k :: FloodsSince(log, k) <= 5
    {
      if key in portBlockList {
        var entry := portBlockList[key];
        if entry.Stale(now) {
          portBlockList := portBlockList - {key};
          verdict := Expire;
        } else if entry.port != inPort {
          verdict := Block;
        } else if entry.floodTimes < ARP_FLOOD_TIMES_CONTROL {
          portBlockList := portBlockList[key := entry.(floodTimes := entry.floodTimes + 1)];
          verdict := Flood;
        } else {
          verdict := Ignore;
        }
      } else {
        portBlockList := portBlockList[key := Entry(inPort, 1, now)];
        verdict := Flood;
      }
      FloodsMore(log, Handled(key, verdict));
      log := log + [Handled(key, verdict)];
    }
  }

  lemma FloodsMore(log: seq<Handled>, last: Handled)
    ensures forall k :: FloodsSince(log + [last], k) ==
                        if last.key != k then FloodsSince(log, k)
                        else match last.verdict
                             case Expire => 0
                             case Flood => FloodsSince(log, k) + 1
                             case _ => FloodsSince(log, k)
  {
    assert (log + [last])[..|log|] == log;
  }
}
