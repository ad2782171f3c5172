/** What the manager reads out of a request. A field is `None` when the JSON object lacks it. */
module Requests {
  import opened Wrappers
  import opened Tables

  datatype UniqueCode = UniqueCode(ifaceType: Option<string>, hwAddress: Option<string>, ipv4: Option<string>,
                                   wifiSSID: Option<string>)

  datatype Neighbor = Neighbor(neighborIface: Option<string>, neighborIpv4: Option<string>,
                               neighborHwAddress: Option<string>, neighborFlexID: Option<string>)

  datatype Item = Item(index: Option<string>, registerType: Option<string>, category: Option<string>,
                       cacheBit: bool, segment: bool, collisionAvoid: bool, attributes: Option<seq<string>>,
                       hash: Option<string>)

  datatype Requirement = Requirement(metricType: Option<string>, metricUnit: Option<string>,
                                     metricValue: Option<string>, metricOperator: Option<string>)

  datatype Payload = Payload(
    relay: Relay,
    pubKey: Option<string>, uniqueCodes: Option<seq<UniqueCode>>, neighbors: Option<seq<Neighbor>>,
    registerID: Option<string>, registerList: Option<seq<Item>>,
    updateID: Option<string>, id: Option<string>, deregister: bool, attributes: Option<seq<string>>,
    queryID: Option<string>, qosRequirements: Option<seq<Requirement>>)

  /** The device a request is about: the sender, or the last hop of the relay. Indexing a missing
      or empty relay raises; indexing a plain string gives its last character. */
  function Requester(tempID: string, relay: Relay): Option<string> {
    match relay
    case NoRelay => None
    case Text(s) => if s == "none" then Some(tempID) else if s == "" then None else Some([s[|s| - 1]])
    case Hops(hops) => if hops == [] then None else Some(hops[|hops| - 1])
  }

  /** The same, said of the request alone: a relay "none" stands for the sender, any other string for its
      last character, a list of hops for its last hop. */
  ghost predicate About(tempID: string, relay: Relay, d: string) {
    || (relay == Text("none") && d == tempID)
    || (relay != Text("none") && exists s: string, c: char :: relay == Text(s + [c]) && d == [c])
    || (exists path: seq<string> :: relay == Hops(path + [d]))
  }

  lemma {:induction false} RequesterIff(tempID: string, relay: Relay, d: string)
    ensures Requester(tempID, relay) == Some(d) <==> About(tempID, relay, d)
  {
    match relay {
      case NoRelay =>
      case Text(s) =>
        if s != "" { assert relay == Text(s[..|s| - 1] + [s[|s| - 1]]); }
      case Hops(hops) =>
        if hops != [] { assert relay == Hops(hops[..|hops| - 1] + [hops[|hops| - 1]]); }
    }
  }

  /** A request is about somebody unless the relay is missing or empty. */
  lemma {:induction false} AboutNobodyIff(tempID: string, relay: Relay)
    ensures Requester(tempID, relay).None? <==> forall d :: !About(tempID, relay, d)
    ensures Requester(tempID, relay).None? <==> relay in {NoRelay, Text(""), Hops([])}
  {
    if Requester(tempID, relay).Some? {
      RequesterIff(tempID, relay, Requester(tempID, relay).value);
    }
    forall d ensures Requester(tempID, relay) == Some(d) <==> About(tempID, relay, d) {
      RequesterIff(tempID, relay, d);
    }
  }

  /** Without a hardware address the handler raises while reporting it. */
  predicate CodesOk(p: Payload) {
    p.uniqueCodes.Some? && forall c :: c in p.uniqueCodes.value ==> c.hwAddress.Some?
  }

  function DeviceRowOf(id: string, p: Payload, c: UniqueCode): DeviceRow {
    DeviceRow(id, p.relay, p.pubKey, c.ifaceType.GetOr("NULL"), c.hwAddress.GetOr("NULL"), c.ipv4.GetOr("NULL"),
              c.wifiSSID.GetOr("NULL"))
  }

  function DeviceRows(id: string, p: Payload): (r: seq<DeviceRow>)
    requires CodesOk(p)
    ensures |r| == |p.uniqueCodes.value|
    ensures forall i :: 0 <= i < |r| ==> r[i].deviceId == id
  {
    seq(|p.uniqueCodes.value|, i requires 0 <= i < |p.uniqueCodes.value| => DeviceRowOf(id, p, p.uniqueCodes.value[i]))
  }

  /** A missing neighbor list becomes the string "NULL", whose characters are no neighbors; a
      neighbor needs a FlexID. */
  predicate NeighborsOk(p: Payload) {
    && p.neighbors.Some?
    && forall n :: n in p.neighbors.value ==> n.neighborFlexID.Some? && n.neighborFlexID.value != "none"
  }

  function OrNull(field: Option<string>): string {
    if field == Some("none") then "NULL" else field.GetOr("NULL")
  }

  function NeighborRowOf(id: string, n: Neighbor): NeighborRow {
    NeighborRow(OrNull(n.neighborIface), OrNull(n.neighborIpv4), OrNull(n.neighborHwAddress),
                n.neighborFlexID.GetOr("NULL"), id)
  }

  function NeighborRows(id: string, p: Payload): seq<NeighborRow>
    requires NeighborsOk(p)
  {
    seq(|p.neighbors.value|, i requires 0 <= i < |p.neighbors.value| => NeighborRowOf(id, p.neighbors.value[i]))
  }
}
