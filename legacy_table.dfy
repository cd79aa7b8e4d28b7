/** The routing table of the older protocol generation. Its helper for the
    processed-request lists returns `None` when the address is already stored
    at any age, and the table stores that `None`; a later walk over the list
    then raises `TypeError`. The model keeps this: such a list is `None`, and
    the methods that walk it report `NotIterable`. */
module LegacyTable {
  import opened Wrappers
  import opened TableCommon

  /** The `TypeError` of iterating over `None`. */
  datatype Fault = NotIterable

  /** `add_address_to_processed_list`: `None` when the address is stored
      already (however old the entry), else the list with a new entry. */
  function AddedLegacy(stamps: seq<Stamp>, address: string, now: int): Option<seq<Stamp>> {
    if HasAddress(stamps, address) then None else Some(stamps + [Stamp(address, now)])
  }

  /** `add_address_to_processed_list` with its search loop. */
  method AddStampLegacy(stamps: seq<Stamp>, address: string, now: int) returns (r: Option<seq<Stamp>>)
    ensures r == AddedLegacy(stamps, address, now)
  {
    var i := 0;
    while i < |stamps|
      invariant 0 <= i <= |stamps|
      invariant forall k :: 0 <= k < i ==> stamps[k].address != address
    {
      if stamps[i].address == address {
        return None;
      }
      i := i + 1;
    }
    return Some(stamps + [Stamp(address, now)]);
  }

  /** `get_list_of_best_routes_for_all_available_destinations`, for the
      destinations `ds` in order: the first one outside `nodes` makes
      `get_best_route_for_destination` raise. */
  function BestRoutes(routes: seq<Route>, ds: seq<string>, nodes: set<string>): Result<seq<Route>, TableError>
    decreases |ds|
  {
    if |ds| == 0 then Success([])
    else match BestRoutes(routes, ds[..|ds| - 1], nodes)
      case Failure(e) => Failure(e)
      case Success(acc) =>
        var d := ds[|ds| - 1];
        if d !in nodes then Failure(UnknownDestination(d))
        else match BestRoute(routes, d)
          case None => Success(acc)
          case Some(r) => Success(acc + [r])
  }

  lemma {:induction false} BestRoutesFailurePersists(routes: seq<Route>, ds: seq<string>, i: nat, nodes: set<string>)
    requires i <= |ds| && BestRoutes(routes, ds[..i], nodes).Failure?
    ensures BestRoutes(routes, ds, nodes) == BestRoutes(routes, ds[..i], nodes)
    decreases |ds| - i
  {
    if i < |ds| {
      assert ds[..i + 1][..i] == ds[..i];
      BestRoutesFailurePersists(routes, ds, i + 1, nodes);
    } else {
      assert ds[..i] == ds;
    }
  }

  /** Some entry of the table has destination `d`. */
  predicate Leads(routes: seq<Route>, d: string) {
    exists r :: r in routes && r.destination == d
  }

  lemma {:induction false} BestRoutesOfDestinations(routes: seq<Route>, ds: seq<string>, nodes: set<string>)
    requires forall k :: 0 <= k < |ds| ==> Leads(routes, ds[k])
    ensures BestRoutes(routes, ds, nodes).Success? ==>
              && |BestRoutes(routes, ds, nodes).value| == |ds|
              && forall k :: 0 <= k < |ds| ==> Some(BestRoutes(routes, ds, nodes).value[k]) == BestRoute(routes, ds[k])
    ensures BestRoutes(routes, ds, nodes).Failure? ==>
              exists k :: 0 <= k < |ds| && BestRoutes(routes, ds, nodes).error == UnknownDestination(ds[k]) && ds[k] !in nodes
    ensures BestRoutes(routes, ds, nodes).Success? <==> forall k :: 0 <= k < |ds| ==> ds[k] in nodes
    decreases |ds|
  {
    if |ds| > 0 {
      var front := ds[..|ds| - 1];
      assert forall k :: 0 <= k < |front| ==> front[k] == ds[k];
      BestRoutesOfDestinations(routes, front, nodes);
      var d := ds[|ds| - 1];
      BestRouteIsShortest(routes, d);
    }
  }

  /** Every destination of the table has a route, so the result lists one
      best route per destination, in order of first appearance; the call
      fails exactly when some destination is not a configured node, naming
      the first such destination's error. */
  lemma BestRoutesSpec(routes: seq<Route>, nodes: set<string>)
    ensures var ds := Destinations(routes);
            BestRoutes(routes, ds, nodes).Success? ==>
              && |BestRoutes(routes, ds, nodes).value| == |ds|
              && forall k :: 0 <= k < |ds| ==> Some(BestRoutes(routes, ds, nodes).value[k]) == BestRoute(routes, ds[k])
    ensures var ds := Destinations(routes);
            BestRoutes(routes, ds, nodes).Success? <==> forall k :: 0 <= k < |ds| ==> ds[k] in nodes
    ensures var ds := Destinations(routes);
            BestRoutes(routes, ds, nodes).Failure? ==>
              exists k :: 0 <= k < |ds| && BestRoutes(routes, ds, nodes).error == UnknownDestination(ds[k]) && ds[k] !in nodes
  {
    var ds := Destinations(routes);
    DestinationsSpec(routes);
    forall k | 0 <= k < |ds| ensures Leads(routes, ds[k]) {
      assert ds[k] in ds;
    }
    BestRoutesOfDestinations(routes, ds, nodes);
  }

  class RoutingTable {
    /** The configured node addresses (`AVAILABLE_NODES`). */
    const availableNodes: set<string>
    /** `PROCESSED_ROUTE_REQUEST_TIMEOUT`, in seconds. */
    const processedTimeout: int

    var routes: seq<Route>
    var unsupported: seq<string>
    var processedRouteRequests: Option<seq<Stamp>>
    var processedRegistrations: Option<seq<Stamp>>
    var peers: seq<Peer>

    /** What the table's methods keep: no duplicate route, unsupported node,
        peer entry or processed address. */
    ghost predicate Valid()
      reads this
    {
      && Distinct(routes)
      && Distinct(unsupported)
      && Distinct(peers)
      && (processedRouteRequests.Some? ==> DistinctAddresses(processedRouteRequests.value))
      && (processedRegistrations.Some? ==> DistinctAddresses(processedRegistrations.value))
    }

    constructor(availableNodes: set<string>, processedTimeout: int)
      ensures Valid()
      ensures this.availableNodes == availableNodes && this.processedTimeout == processedTimeout
      ensures routes == [] && unsupported == [] && peers == []
      ensures processedRouteRequests == Some([]) && processedRegistrations == Some([])
    {
      this.availableNodes := availableNodes;
      this.processedTimeout := processedTimeout;
      routes := [];
      unsupported := [];
      processedRouteRequests := Some([]);
      processedRegistrations := Some([]);
      peers := [];
    }

    /** `add_routing_table_entry`: a new route is appended and its destination
        stops counting as a node of another protocol; a known route changes
        nothing. */
    method AddRoute(destination: string, nextNode: string, hops: int)
      requires Valid()
      modifies this
      ensures Valid()
      ensures var r := Route(destination, nextNode, hops);
              routes == if r in old(routes) then old(routes) else old(routes) + [r]
      ensures unsupported == if Route(destination, nextNode, hops) in old(routes) then old(unsupported)
                             else RemoveIfPresent(old(unsupported), destination)
      ensures Route(destination, nextNode, hops) !in old(routes) ==>
                forall a :: a in unsupported <==> a in old(unsupported) && a != destination
      ensures peers == old(peers) && processedRouteRequests == old(processedRouteRequests)
      ensures processedRegistrations == old(processedRegistrations)
    {
      var r := Route(destination, nextNode, hops);
      var exists_ := Contains(routes, r);
      if !exists_ {
        routes := routes + [r];
        RemoveIfPresentDistinct(unsupported, destination);
        if destination in unsupported {
          unsupported := RemoveFirst(unsupported, destination);
        }
      }
    }

    /** `add_neighbor_to_routing_table`: the transmitter is reachable
        directly, with hop count 1. */
    method AddNeighbor(receivedFrom: string)
      requires Valid()
      modifies this
      ensures Valid()
      ensures Route(receivedFrom, receivedFrom, 1) in routes
      ensures var r := Route(receivedFrom, receivedFrom, 1);
              routes == if r in old(routes) then old(routes) else old(routes) + [r]
      ensures Route(receivedFrom, receivedFrom, 1) !in old(routes) ==> receivedFrom !in unsupported
      ensures unsupported == if Route(receivedFrom, receivedFrom, 1) in old(routes) then old(unsupported)
                             else RemoveIfPresent(old(unsupported), receivedFrom)
      ensures peers == old(peers) && processedRouteRequests == old(processedRouteRequests)
      ensures processedRegistrations == old(processedRegistrations)
    {
      AddRoute(receivedFrom, receivedFrom, 1);
    }

    /** `add_neighbor_with_unsupported_protocol`. */
    method MarkUnsupported(address: string)
      requires Valid()
      modifies this
      ensures Valid()
      ensures address in unsupported
      ensures unsupported == if address in old(unsupported) then old(unsupported) else old(unsupported) + [address]
      ensures routes == old(routes) && peers == old(peers) && processedRouteRequests == old(processedRouteRequests)
      ensures processedRegistrations == old(processedRegistrations)
    {
      if address !in unsupported {
        unsupported := unsupported + [address];
      }
    }

    /** `get_best_route_for_destination` (see `BestRouteIsShortest`). */
    method GetBestRoute(destination: string) returns (r: Result<Option<Route>, TableError>)
      ensures destination !in availableNodes ==> r == Failure(UnknownDestination(destination))
      ensures destination in availableNodes ==> r == Success(BestRoute(routes, destination))
    {
      r := BestRouteTo(routes, destination, availableNodes);
    }

    /** `get_list_of_all_available_destinations` (see `DestinationsSpec`). */
    method GetDestinations() returns (ds: seq<string>)
      ensures ds == Destinations(routes)
    {
      ds := CollectDestinations(routes);
    }

    /** `get_list_of_best_routes_for_all_available_destinations` (see
        `BestRoutesSpec`). */
    method GetBestRoutes() returns (r: Result<seq<Route>, TableError>)
      ensures r == BestRoutes(routes, Destinations(routes), availableNodes)
    {
      var ds := CollectDestinations(routes);
      var best: seq<Route> := [];
      var i := 0;
      while i < |ds|
        invariant 0 <= i <= |ds|
        invariant BestRoutes(routes, ds[..i], availableNodes) == Success(best)
      {
        assert ds[..i + 1][..i] == ds[..i];
        var b := GetBestRoute(ds[i]);
        if b.Failure? {
          BestRoutesFailurePersists(routes, ds, i + 1, availableNodes);
          return Failure(b.error);
        }
        if b.value.Some? {
          best := best + [b.value.value];
        }
        i := i + 1;
      }
      assert ds[..i] == ds;
      return Success(best);
    }

    /** `check_routing_table_entry_exists`. */
    method HasRoute(destination: string, nextNode: string, hops: int) returns (found: bool)
      ensures found <==> Route(destination, nextNode, hops) in routes
    {
      found := Contains(routes, Route(destination, nextNode, hops));
    }

    /** `add_peer`: stores the pair unless it is stored already. */
    method AddPeer(peerId: string, address: string)
      requires Valid()
      modifies this
      ensures Valid()
      ensures Peer(peerId, address) in peers
      ensures peers == if Peer(peerId, address) in old(peers) then old(peers) else old(peers) + [Peer(peerId, address)]
      ensures routes == old(routes) && unsupported == old(unsupported)
      ensures processedRouteRequests == old(processedRouteRequests)
      ensures processedRegistrations == old(processedRegistrations)
    {
      var known := Contains(peers, Peer(peerId, address));
      if !known {
        peers := peers + [Peer(peerId, address)];
      }
    }

    /** `delete_peer` (see `WithoutPeerSpec`). */
    method DeletePeer(peerId: string, address: string)
      requires Valid()
      modifies this
      ensures Valid()
      ensures peers == WithoutPeer(old(peers), peerId, address)
      ensures routes == old(routes) && unsupported == old(unsupported)
      ensures processedRouteRequests == old(processedRouteRequests)
      ensures processedRegistrations == old(processedRegistrations)
    {
      FilterDistinct(peers, (p: Peer) => p.peerId != peerId && p.address != address);
      peers := DropPeer(peers, peerId, address);
    }

    /** `check_entry_for_peer_exists`. */
    method HasPeerEntry(peerId: string, address: string) returns (found: bool)
      ensures found <==> Peer(peerId, address) in peers
    {
      found := Contains(peers, Peer(peerId, address));
    }

    /** `check_peer_is_already_registered`. */
    method IsRegistered(peerId: string) returns (found: bool)
      ensures found <==> Registered(peers, peerId)
    {
      found := PeerRegistered(peers, peerId);
    }

    /** `get_address_of_peer`; `None` where the source returns `None`. */
    method GetAddressOfPeer(peerId: string) returns (a: Option<string>)
      ensures a == AddressOf(peers, peerId)
    {
      a := FindAddressOf(peers, peerId);
    }

    /** `add_address_to_processed_requests_list`: a list that is `None`
        already cannot be walked; otherwise the field becomes the helper's
        result, `None` included. */
    method AddProcessedRouteRequest(address: string, now: int) returns (r: Result<(), Fault>)
      requires Valid()
      modifies this
      ensures Valid()
      ensures old(processedRouteRequests).None? ==> r == Failure(NotIterable) && processedRouteRequests.None?
      ensures old(processedRouteRequests).Some? ==>
                r == Success(()) && processedRouteRequests == AddedLegacy(old(processedRouteRequests).value, address, now)
      ensures routes == old(routes) && unsupported == old(unsupported) && peers == old(peers)
      ensures processedRegistrations == old(processedRegistrations)
    {
      if processedRouteRequests.None? {
        return Failure(NotIterable);
      }
      processedRouteRequests := AddStampLegacy(processedRouteRequests.value, address, now);
      return Success(());
    }

    /** `add_address_to_processed_registration_messages_list`. */
    method AddProcessedRegistration(address: string, now: int) returns (r: Result<(), Fault>)
      requires Valid()
      modifies this
      ensures Valid()
      ensures old(processedRegistrations).None? ==> r == Failure(NotIterable) && processedRegistrations.None?
      ensures old(processedRegistrations).Some? ==>
                r == Success(()) && processedRegistrations == AddedLegacy(old(processedRegistrations).value, address, now)
      ensures routes == old(routes) && unsupported == old(unsupported) && peers == old(peers)
      ensures processedRouteRequests == old(processedRouteRequests)
    {
      if processedRegistrations.None? {
        return Failure(NotIterable);
      }
      processedRegistrations := AddStampLegacy(processedRegistrations.value, address, now);
      return Success(());
    }

    /** `check_route_request_already_processed` (see `ProcessedSpec`). */
    method RouteRequestProcessed(address: string, now: int) returns (r: Result<bool, Fault>)
      ensures processedRouteRequests.None? ==> r == Failure(NotIterable)
      ensures processedRouteRequests.Some? ==>
                r == Success(Processed(processedRouteRequests.value, address, now, processedTimeout))
    {
      if processedRouteRequests.None? {
        return Failure(NotIterable);
      }
      var found := AlreadyProcessed(processedRouteRequests.value, address, now, processedTimeout);
      return Success(found);
    }

    /** `check_registration_message_already_processed`. */
    method RegistrationProcessed(address: string, now: int) returns (r: Result<bool, Fault>)
      ensures processedRegistrations.None? ==> r == Failure(NotIterable)
      ensures processedRegistrations.Some? ==>
                r == Success(Processed(processedRegistrations.value, address, now, processedTimeout))
    {
      if processedRegistrations.None? {
        return Failure(NotIterable);
      }
      var found := AlreadyProcessed(processedRegistrations.value, address, now, processedTimeout);
      return Success(found);
    }

    /** `delete_all_entries_of_destination` (see `WithoutNodeSpec`). */
    method DeleteAllEntriesOf(node: string)
      requires Valid()
      modifies this
      ensures Valid()
      ensures routes == WithoutNode(old(routes), node)
      ensures unsupported == old(unsupported) && peers == old(peers)
      ensures processedRouteRequests == old(processedRouteRequests)
      ensures processedRegistrations == old(processedRegistrations)
    {
      FilterDistinct(routes, (r: Route) => r.destination != node && r.nextNode != node);
      routes := DropNode(routes, node);
    }
  }
}
