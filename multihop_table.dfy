/** The routing table of the newer protocol generation: routes, nodes
    speaking another protocol, registered peers, and the lists that stop a
    request from being handled twice. Times are the caller's `now` in seconds. */
module MultihopTable {
  import opened Wrappers
  import opened TableCommon

  /** A processed connect request between two peers. */
  datatype ConnectStamp = ConnectStamp(sourcePeerId: string, targetPeerId: string, time: int)

  /** An entry of the received-message list. */
  datatype ReceivedMessage = ReceivedMessage(source: string, messageId: int)

  /** A connect request counts as a duplicate for this many seconds. */
  const CONNECT_REQUEST_WINDOW: int := 45

  /** `add_address_to_processed_list`: expired entries are dropped, then the
      address is stored with time `now` unless a young entry holds it. */
  function AddedStamp(stamps: seq<Stamp>, address: string, now: int, timeout: int): seq<Stamp> {
    var young := Fresh(stamps, now, timeout);
    if HasAddress(young, address) then young else young + [Stamp(address, now)]
  }

  /** After the call the address counts as processed (for a positive
      timeout); the list holds exactly the young old entries plus, when the
      address was not young in it, the new entry; no address appears twice. */
  lemma AddedStampSpec(stamps: seq<Stamp>, address: string, now: int, timeout: int)
    requires DistinctAddresses(stamps)
    ensures DistinctAddresses(AddedStamp(stamps, address, now, timeout))
    ensures timeout > 0 ==> Processed(AddedStamp(stamps, address, now, timeout), address, now, timeout)
    ensures forall s :: s in AddedStamp(stamps, address, now, timeout) <==>
              (s in stamps && now - s.time < timeout) ||
              (s == Stamp(address, now) && !Processed(stamps, address, now, timeout))
  {
    AddedStampDistinct(stamps, address, now, timeout);
    AddedStampProcessed(stamps, address, now, timeout);
    forall s ensures s in AddedStamp(stamps, address, now, timeout) <==>
              (s in stamps && now - s.time < timeout) ||
              (s == Stamp(address, now) && !Processed(stamps, address, now, timeout))
    {
      AddedStampMembers(stamps, address, now, timeout, s);
    }
  }

  lemma AddedStampDistinct(stamps: seq<Stamp>, address: string, now: int, timeout: int)
    requires DistinctAddresses(stamps)
    ensures DistinctAddresses(AddedStamp(stamps, address, now, timeout))
  {
    FilterDistinctAddresses(stamps, (s: Stamp) => now - s.time < timeout);
  }

  lemma AddedStampProcessed(stamps: seq<Stamp>, address: string, now: int, timeout: int)
    ensures timeout > 0 ==> Processed(AddedStamp(stamps, address, now, timeout), address, now, timeout)
  {
    var p := (s: Stamp) => now - s.time < timeout;
    var young := Fresh(stamps, now, timeout);
    var r := AddedStamp(stamps, address, now, timeout);
    if timeout > 0 {
      FilterIdempotent(stamps, p);
      assert Fresh(young, now, timeout) == young;
      if !HasAddress(young, address) {
        assert r[|r| - 1] == Stamp(address, now);
        assert r[..|r| - 1] == young;
        assert Fresh(r, now, timeout) == r;
      }
    }
  }

  lemma AddedStampMembers(stamps: seq<Stamp>, address: string, now: int, timeout: int, s: Stamp)
    ensures s in AddedStamp(stamps, address, now, timeout) <==>
              (s in stamps && now - s.time < timeout) ||
              (s == Stamp(address, now) && !Processed(stamps, address, now, timeout))
  {
    FreshSpec(stamps, now, timeout, s);
  }

  /** `add_address_to_processed_list`: clean, check, append. */
  method AddStamp(stamps: seq<Stamp>, address: string, now: int, timeout: int) returns (r: seq<Stamp>)
    ensures r == AddedStamp(stamps, address, now, timeout)
  {
    r := CleanStamps(stamps, now, timeout);
    var seen := AlreadyProcessed(r, address, now, timeout);
    FilterIdempotent(stamps, (s: Stamp) => now - s.time < timeout);
    if !seen {
      r := r + [Stamp(address, now)];
    }
  }

  /** The connect requests younger than the window. */
  function FreshConnects(requests: seq<ConnectStamp>, now: int): seq<ConnectStamp> {
    Filter(requests, (c: ConnectStamp) => now - c.time < CONNECT_REQUEST_WINDOW)
  }

  /** `check_connect_request_entry_already_exists`. */
  predicate ConnectSeen(requests: seq<ConnectStamp>, sourcePeerId: string, targetPeerId: string, now: int) {
    var young := FreshConnects(requests, now);
    exists k :: 0 <= k < |young| && young[k].sourcePeerId == sourcePeerId && young[k].targetPeerId == targetPeerId
  }

  /** A request between the same peers stored less than 45 seconds ago, and
      only such a request, makes a connect request a duplicate. */
  lemma ConnectSeenSpec(requests: seq<ConnectStamp>, sourcePeerId: string, targetPeerId: string, now: int)
    ensures ConnectSeen(requests, sourcePeerId, targetPeerId, now) <==>
              exists c :: c in requests && c.sourcePeerId == sourcePeerId && c.targetPeerId == targetPeerId &&
                          now - c.time < CONNECT_REQUEST_WINDOW
  {
    var p := (c: ConnectStamp) => now - c.time < CONNECT_REQUEST_WINDOW;
    var young := FreshConnects(requests, now);
    if ConnectSeen(requests, sourcePeerId, targetPeerId, now) {
      var k :| 0 <= k < |young| && young[k].sourcePeerId == sourcePeerId && young[k].targetPeerId == targetPeerId;
      FilterMembers(requests, p, young[k]);
    }
    if c :| c in requests && c.sourcePeerId == sourcePeerId && c.targetPeerId == targetPeerId &&
            now - c.time < CONNECT_REQUEST_WINDOW {
      FilterMembers(requests, p, c);
      var k :| 0 <= k < |young| && young[k] == c;
    }
  }

  /** No route, unsupported node or peer is listed twice, and no address
      is stamped twice in either processed list. */
  class RoutingTable {
    /** The configured node addresses (`AVAILABLE_NODES`). */
    const availableNodes: set<string>
    /** `PROCESSED_ROUTE_REQUEST_TIMEOUT`, in seconds. */
    const processedTimeout: int

    var routes: seq<Route>
    var unsupported: seq<string>
    var processedRouteRequests: seq<Stamp>
    var processedRegistrations: seq<Stamp>
    var peers: seq<Peer>
    var receivedMessages: seq<ReceivedMessage>
    var processedConnectRequests: seq<ConnectStamp>

    /** What the table's methods keep: no duplicate route, unsupported node,
        peer entry or processed address. */
    ghost predicate Valid()
      reads this
    {
      && Distinct(routes)
      && Distinct(unsupported)
      && Distinct(peers)
      && DistinctAddresses(processedRouteRequests)
      && DistinctAddresses(processedRegistrations)
    }

    constructor(availableNodes: set<string>, processedTimeout: int)
      ensures Valid()
      ensures this.availableNodes == availableNodes && this.processedTimeout == processedTimeout
      ensures routes == [] && unsupported == [] && peers == []
      ensures processedRouteRequests == [] && processedRegistrations == []
      ensures receivedMessages == [] && processedConnectRequests == []
    {
      this.availableNodes := availableNodes;
      this.processedTimeout := processedTimeout;
      routes := [];
      unsupported := [];
      processedRouteRequests := [];
      processedRegistrations := [];
      peers := [];
      receivedMessages := [];
      processedConnectRequests := [];
    }

    /** `add_routing_table_entry`: a new route is appended and its destination
        stops counting as a node of another protocol; a known route changes
        nothing. */
    method AddRoute(destination: string, nextNode: string, hops: int)
      requires Valid()
      modifies this
      ensures Valid()
      ensures var r := Route(destination, nextNode, hops);
              routes == if r in old(routes) then old(routes) else old(routes) + [r]
      ensures unsupported == if Route(destination, nextNode, hops) in old(routes) then old(unsupported)
                             else RemoveIfPresent(old(unsupported), destination)
      ensures Route(destination, nextNode, hops) !in old(routes) ==>
                forall a :: a in unsupported <==> a in old(unsupported) && a != destination
      ensures peers == old(peers) && processedRouteRequests == old(processedRouteRequests)
      ensures processedRegistrations == old(processedRegistrations) && receivedMessages == old(receivedMessages)
      ensures processedConnectRequests == old(processedConnectRequests)
    {
      var r := Route(destination, nextNode, hops);
      var exists_ := Contains(routes, r);
      if !exists_ {
        routes := routes + [r];
        RemoveIfPresentDistinct(unsupported, destination);
        if destination in unsupported {
          unsupported := RemoveFirst(unsupported, destination);
        }
      }
    }

    /** `add_neighbor_to_routing_table`: the transmitter is reachable
        directly, with hop count 1. */
    method AddNeighbor(receivedFrom: string)
      requires Valid()
      modifies this
      ensures Valid()
      ensures Route(receivedFrom, receivedFrom, 1) in routes
      ensures var r := Route(receivedFrom, receivedFrom, 1);
              routes == if r in old(routes) then old(routes) else old(routes) + [r]
      ensures Route(receivedFrom, receivedFrom, 1) !in old(routes) ==> receivedFrom !in unsupported
      ensures unsupported == if Route(receivedFrom, receivedFrom, 1) in old(routes) then old(unsupported)
                             else RemoveIfPresent(old(unsupported), receivedFrom)
      ensures peers == old(peers) && processedRouteRequests == old(processedRouteRequests)
      ensures processedRegistrations == old(processedRegistrations) && receivedMessages == old(receivedMessages)
      ensures processedConnectRequests == old(processedConnectRequests)
    {
      AddRoute(receivedFrom, receivedFrom, 1);
    }

    /** `add_neighbor_with_unsupported_protocol`. */
    method MarkUnsupported(address: string)
      requires Valid()
      modifies this
      ensures Valid()
      ensures address in unsupported
      ensures unsupported == if address in old(unsupported) then old(unsupported) else old(unsupported) + [address]
      ensures routes == old(routes) && peers == old(peers) && processedRouteRequests == old(processedRouteRequests)
      ensures processedRegistrations == old(processedRegistrations) && receivedMessages == old(receivedMessages)
      ensures processedConnectRequests == old(processedConnectRequests)
    {
      if address !in unsupported {
        unsupported := unsupported + [address];
      }
    }

    /** `get_best_route_for_destination` (see `BestRouteIsShortest`). */
    method GetBestRoute(destination: string) returns (r: Result<Option<Route>, TableError>)
      ensures destination !in availableNodes ==> r == Failure(UnknownDestination(destination))
      ensures destination in availableNodes ==> r == Success(BestRoute(routes, destination))
    {
      r := BestRouteTo(routes, destination, availableNodes);
    }

    /** `get_list_of_all_available_destinations` (see `DestinationsSpec`). */
    method GetDestinations() returns (ds: seq<string>)
      ensures ds == Destinations(routes)
    {
      ds := CollectDestinations(routes);
    }

    /** `check_routing_table_entry_exists`. */
    method HasRoute(destination: string, nextNode: string, hops: int) returns (found: bool)
      ensures found <==> Route(destination, nextNode, hops) in routes
    {
      found := Contains(routes, Route(destination, nextNode, hops));
    }

    /** `add_peer`: stores the pair unless it is stored already. */
    method AddPeer(peerId: string, address: string)
      requires Valid()
      modifies this
      ensures Valid()
      ensures Peer(peerId, address) in peers
      ensures peers == if Peer(peerId, address) in old(peers) then old(peers) else old(peers) + [Peer(peerId, address)]
      ensures routes == old(routes) && unsupported == old(unsupported)
      ensures processedRouteRequests == old(processedRouteRequests)
      ensures processedRegistrations == old(processedRegistrations) && receivedMessages == old(receivedMessages)
      ensures processedConnectRequests == old(processedConnectRequests)
    {
      var known := Contains(peers, Peer(peerId, address));
      if !known {
        peers := peers + [Peer(peerId, address)];
      }
    }

    /** `delete_peer` (see `WithoutPeerSpec`). */
    method DeletePeer(peerId: string, address: string)
      requires Valid()
      modifies this
      ensures Valid()
      ensures peers == WithoutPeer(old(peers), peerId, address)
      ensures routes == old(routes) && unsupported == old(unsupported)
      ensures processedRouteRequests == old(processedRouteRequests)
      ensures processedRegistrations == old(processedRegistrations) && receivedMessages == old(receivedMessages)
      ensures processedConnectRequests == old(processedConnectRequests)
    {
      FilterDistinct(peers, (p: Peer) => p.peerId != peerId && p.address != address);
      peers := DropPeer(peers, peerId, address);
    }

    /** `check_entry_for_peer_exists`. */
    method HasPeerEntry(peerId: string, address: string) returns (found: bool)
      ensures found <==> Peer(peerId, address) in peers
    {
      found := Contains(peers, Peer(peerId, address));
    }

    /** `check_peer_is_already_registered`. */
    method IsRegistered(peerId: string) returns (found: bool)
      ensures found <==> Registered(peers, peerId)
    {
      found := PeerRegistered(peers, peerId);
    }

    /** `get_address_of_peer`; `None` where the source returns `None`. */
    method GetAddressOfPeer(peerId: string) returns (a: Option<string>)
      ensures a == AddressOf(peers, peerId)
    {
      a := FindAddressOf(peers, peerId);
    }

    /** `add_address_to_processed_requests_list` (see `AddedStampSpec`). */
    method AddProcessedRouteRequest(address: string, now: int)
      requires Valid()
      modifies this
      ensures Valid()
      ensures processedRouteRequests == AddedStamp(old(processedRouteRequests), address, now, processedTimeout)
      ensures routes == old(routes) && unsupported == old(unsupported) && peers == old(peers)
      ensures processedRegistrations == old(processedRegistrations) && receivedMessages == old(receivedMessages)
      ensures processedConnectRequests == old(processedConnectRequests)
    {
      AddedStampSpec(processedRouteRequests, address, now, processedTimeout);
      processedRouteRequests := AddStamp(processedRouteRequests, address, now, processedTimeout);
    }

    /** `add_address_to_processed_registration_messages_list`. */
    method AddProcessedRegistration(address: string, now: int)
      requires Valid()
      modifies this
      ensures Valid()
      ensures processedRegistrations == AddedStamp(old(processedRegistrations), address, now, processedTimeout)
      ensures routes == old(routes) && unsupported == old(unsupported) && peers == old(peers)
      ensures processedRouteRequests == old(processedRouteRequests) && receivedMessages == old(receivedMessages)
      ensures processedConnectRequests == old(processedConnectRequests)
    {
      AddedStampSpec(processedRegistrations, address, now, processedTimeout);
      processedRegistrations := AddStamp(processedRegistrations, address, now, processedTimeout);
    }

    /** `check_route_request_already_processed` (see `ProcessedSpec`). */
    method RouteRequestProcessed(address: string, now: int) returns (found: bool)
      ensures found <==> Processed(processedRouteRequests, address, now, processedTimeout)
    {
      found := AlreadyProcessed(processedRouteRequests, address, now, processedTimeout);
    }

    /** `delete_all_entries_of_destination` (see `WithoutNodeSpec`). */
    method DeleteAllEntriesOf(node: string)
      requires Valid()
      modifies this
      ensures Valid()
      ensures routes == WithoutNode(old(routes), node)
      ensures unsupported == old(unsupported) && peers == old(peers)
      ensures processedRouteRequests == old(processedRouteRequests)
      ensures processedRegistrations == old(processedRegistrations) && receivedMessages == old(receivedMessages)
      ensures processedConnectRequests == old(processedConnectRequests)
    {
      FilterDistinct(routes, (r: Route) => r.destination != node && r.nextNode != node);
      routes := DropNode(routes, node);
    }

    /** `add_connect_request`: the list only grows. */
    method AddConnectRequest(sourcePeerId: string, targetPeerId: string, now: int)
      requires Valid()
      modifies this
      ensures Valid()
      ensures processedConnectRequests == old(processedConnectRequests) + [ConnectStamp(sourcePeerId, targetPeerId, now)]
      ensures routes == old(routes) && unsupported == old(unsupported) && peers == old(peers)
      ensures processedRouteRequests == old(processedRouteRequests)
      ensures processedRegistrations == old(processedRegistrations) && receivedMessages == old(receivedMessages)
    {
      processedConnectRequests := processedConnectRequests + [ConnectStamp(sourcePeerId, targetPeerId, now)];
    }

    /** `check_connect_request_entry_already_exists` (see `ConnectSeenSpec`). */
    method ConnectRequestSeen(sourcePeerId: string, targetPeerId: string, now: int) returns (found: bool)
      ensures found <==> ConnectSeen(processedConnectRequests, sourcePeerId, targetPeerId, now)
    {
      var young: seq<ConnectStamp> := [];
      var i := 0;
      while i < |processedConnectRequests|
        invariant 0 <= i <= |processedConnectRequests|
        invariant young == FreshConnects(processedConnectRequests[..i], now)
      {
        assert processedConnectRequests[..i + 1][..i] == processedConnectRequests[..i];
        if now - processedConnectRequests[i].time < CONNECT_REQUEST_WINDOW {
          young := young + [processedConnectRequests[i]];
        }
        i := i + 1;
      }
      assert processedConnectRequests[..i] == processedConnectRequests;
      var j := 0;
      while j < |young|
        invariant 0 <= j <= |young|
        invariant forall k :: 0 <= k < j ==>
                    !(young[k].sourcePeerId == sourcePeerId && young[k].targetPeerId == targetPeerId)
      {
        if young[j].sourcePeerId == sourcePeerId && young[j].targetPeerId == targetPeerId {
          return true;
        }
        j := j + 1;
      }
      return false;
    }

    /** `check_message_already_received`. */
    method MessageAlreadyReceived(source: string, messageId: int) returns (found: bool)
      ensures found <==> exists k :: 0 <= k < |receivedMessages| &&
                                   receivedMessages[k] == ReceivedMessage(source, messageId)
    {
      var i := 0;
      while i < |receivedMessages|
        invariant 0 <= i <= |receivedMessages|
        invariant forall k :: 0 <= k < i ==> receivedMessages[k] != ReceivedMessage(source, messageId)
      {
        if receivedMessages[i].source == source && receivedMessages[i].messageId == messageId {
          return true;
        }
        i := i + 1;
      }
      return false;
    }
  }
}
