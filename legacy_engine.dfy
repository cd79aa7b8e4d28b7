/** The protocol engine of the older generation: one step of the receive
    loop (parse, learn the neighbour, dispatch on the header type, mark the
    sender as a node of another protocol when a `ValueError` escapes), and the
    user-side sending of a message with route discovery and retries.

    Every state-changing method is specified by a pure step function over a
    snapshot `Node` of the engine and its routing table; the protocol's
    properties are lemmas about those functions. Header strings handed to the
    radio module are appended to `outbox`. */
module LegacyEngine {
  import opened Wrappers
  import opened Text
  import opened Codec
  import opened TableCommon
  import opened LegacyTable

  /** How often a message or a route request is transmitted before giving up
      (each transmission is followed by a five-second wait). */
  const ATTEMPTS: nat := 3

  /** How a handler ends: normally, with a `ValueError` the receive loop
      catches, or with an exception it does not catch (`KeyError`,
      `TypeError`), which ends the receive thread. */
  datatype Outcome = Completed | Raised | Crashed

  /** How `send_message` ends when it does not raise. */
  datatype Delivery = Acknowledged | NotAcknowledged | NoRoute

  /** The configuration the engine reads from its `variables` module, and the
      acknowledgement-id function (`calculate_ack_id`, an MD5 prefix). */
  datatype Config = Config(
    myAddress: string,
    nodes: set<string>,
    timeout: int,
    defaultTtl: int,
    ttlStartValue: int,
    ackIdOf: (string, string) -> string)

  /** The engine's state: its routing table's lists, the list of
      acknowledgement ids still awaited, and the headers sent so far. */
  datatype Node = Node(
    routes: seq<Route>,
    unsupported: seq<string>,
    processedRouteRequests: Option<seq<Stamp>>,
    processedRegistrations: Option<seq<Stamp>>,
    peers: seq<Peer>,
    acks: seq<string>,
    outbox: seq<string>)

  datatype Step = Step(node: Node, outcome: Outcome)

  /** A state after a call that also returns a result. */
  datatype Attempt<R> = Attempt(node: Node, result: R)

  // ---------------------------------------------------------------------------
  // State updates the handlers are made of

  /** `add_routing_table_entry` on the snapshot. */
  function AddRouteTo(n: Node, r: Route): Node {
    if r in n.routes then n
    else n.(routes := n.routes + [r], unsupported := RemoveIfPresent(n.unsupported, r.destination))
  }

  /** `add_neighbor_with_unsupported_protocol` on the snapshot. */
  function MarkUnsupported(n: Node, address: string): Node {
    if address in n.unsupported then n else n.(unsupported := n.unsupported + [address])
  }

  /** `send_header(h.get_header_str())`. */
  function Send(n: Node, h: Header): Node {
    n.(outbox := n.outbox + [Encode(h)])
  }

  /** The `except ValueError` branch of the receive loop: the transmitter
      named in the raw line, when it can be recovered, is listed as a node of
      another protocol. */
  function MarkSender(n: Node, raw: string): Node {
    match ReceivedFromValue(raw)
    case Success(a) => MarkUnsupported(n, a)
    case Failure(_) => n
  }

  // ---------------------------------------------------------------------------
  // Handlers

  /** `process_route_request`. */
  function RouteRequestStep(c: Config, n: Node, h: Header, now: int): Step
    requires h.RouteRequest?
  {
    if h.source == c.myAddress then Step(n, Completed)
    else if h.endNode == c.myAddress then
      Step(Send(AddRouteTo(n, Route(h.source, h.receivedFrom, h.hops + 1)),
                RouteReply(NO_SENDER, c.myAddress, c.defaultTtl, 0, h.source, h.receivedFrom)),
           Completed)
    else if h.source !in c.nodes then Step(n, Raised)
    else
      var n1 := if BestRoute(n.routes, h.source).None? then AddRouteTo(n, Route(h.source, h.receivedFrom, h.hops)) else n;
      match n1.processedRouteRequests
      case None => Step(n1, Crashed)
      case Some(list) =>
        if Processed(list, h.endNode, now, c.timeout) then Step(n1, Completed)
        else Step(Send(n1.(processedRouteRequests := AddedLegacy(list, h.endNode, now)),
                       RouteRequest(h.receivedFrom, h.source, h.ttl - 1, h.hops + 1, h.endNode)),
                  Completed)
  }

  /** `process_message_header`: a message for this node is acknowledged to its
      source; a message routed through this node is forwarded on the best
      route to its destination, if there is one. */
  function MessageStep(c: Config, n: Node, h: Header): Step
    requires h.Message?
  {
    if h.destination == c.myAddress then
      Step(Send(n, Ack(NO_SENDER, c.myAddress, c.ttlStartValue, h.source, c.ackIdOf(h.source, h.payload))), Completed)
    else if h.nextNode == c.myAddress then
      if h.destination !in c.nodes then Step(n, Raised)
      else match BestRoute(n.routes, h.destination)
        case None => Step(n, Completed)
        case Some(r) => Step(Send(n, Message(h.receivedFrom, h.source, h.ttl - 1, h.destination, r.nextNode, h.payload)), Completed)
    else Step(n, Completed)
  }

  /** `process_route_reply_header`. A reply forwarded towards an end node
      without a route fails on `{}['next_node']`. */
  function RouteReplyStep(c: Config, n: Node, h: Header): Step
    requires h.RouteReply?
  {
    if h.source == c.myAddress then Step(n, Completed)
    else if h.endNode == c.myAddress then Step(AddRouteTo(n, Route(h.source, h.receivedFrom, h.hops + 1)), Completed)
    else if h.nextNode == c.myAddress then
      if h.source !in c.nodes then Step(n, Raised)
      else if BestRoute(n.routes, h.source).None? then Step(n, Completed)
      else
        var n1 := AddRouteTo(n, Route(h.source, h.receivedFrom, h.hops + 1));
        if h.endNode !in c.nodes then Step(n1, Raised)
        else match BestRoute(n1.routes, h.endNode)
          case None => Step(n1, Crashed)
          case Some(r) => Step(Send(n1, RouteReply(h.receivedFrom, h.source, h.ttl - 1, h.hops + 1, h.endNode, r.nextNode)), Completed)
    else Step(n, Completed)
  }

  /** `process_route_error_header`: routes through a known broken node are
      dropped, and the error is always passed on. */
  function RouteErrorStep(n: Node, h: Header): Step
    requires h.RouteError?
  {
    var n1 := if h.brokenNode in Destinations(n.routes) then n.(routes := WithoutNode(n.routes, h.brokenNode)) else n;
    Step(Send(n1, RouteError(h.receivedFrom, h.source, h.ttl - 1, h.brokenNode)), Completed)
  }

  /** `process_ack_header`: the id stops being awaited, and the
      acknowledgement travels on unless this node is its destination. */
  function AckStep(c: Config, n: Node, h: Header): Step
    requires h.Ack?
  {
    var n1 := n.(acks := RemoveIfPresent(n.acks, h.ackId));
    if h.destination != c.myAddress then Step(Send(n1, Ack(h.receivedFrom, h.source, h.ttl - 1, h.destination, h.ackId)), Completed) else Step(n1, Completed)
  }

  function HandleStep(c: Config, n: Node, h: Header, now: int): Step {
    match h
    case RouteRequest(_, _, _, _, _) => RouteRequestStep(c, n, h, now)
    case Message(_, _, _, _, _, _) => MessageStep(c, n, h)
    case RouteReply(_, _, _, _, _, _) => RouteReplyStep(c, n, h)
    case RouteError(_, _, _, _) => RouteErrorStep(n, h)
    case Ack(_, _, _, _, _) => AckStep(c, n, h)
  }

  /** One pass of `process_incoming_message` over the raw line `raw`. */
  function ReceiveStep(c: Config, n: Node, raw: string, now: int): Step {
    match Decode(raw, c.nodes)
    case Failure(_) => Step(MarkSender(n, raw), Raised)
    case Success(h) =>
      if h.ttl <= 1 then Step(n, Completed)
      else
        var s := HandleStep(c, AddRouteTo(n, Route(h.receivedFrom, h.receivedFrom, 1)), h, now);
        if s.outcome == Raised then Step(MarkSender(s.node, raw), Raised) else s
  }

  // ---------------------------------------------------------------------------
  // Sending, with the receive thread's concurrent work as input

  /** The event of window `k`, if any. */
  function EventAt<T>(events: seq<Option<T>>, k: nat): Option<T> {
    if k < |events| then events[k] else None
  }

  /** Whether the acknowledgement arrived during window `k`. */
  predicate Acked(acked: seq<bool>, k: nat) {
    k < |acked| && acked[k]
  }

  /** A route learned by the receive thread during a wait. */
  function Arrive(n: Node, e: Option<Route>): Node {
    match e
    case None => n
    case Some(r) => AddRouteTo(n, r)
  }

  /** The header `send_route_request_message` broadcasts. */
  function RouteRequestFor(c: Config, endNode: string): Header {
    RouteRequest(NO_SENDER, c.myAddress, c.defaultTtl, 0, endNode)
  }

  /** The loop of `send_route_request_message` from attempt `k` on: broadcast,
      wait (routes in `arrivals` are learned meanwhile), look for a route. */
  function SearchRounds(c: Config, n: Node, endNode: string, arrivals: seq<Option<Route>>, k: nat): (r: Attempt<Result<bool, TableError>>)
    ensures r.result == Success(true) ==> BestRoute(r.node.routes, endNode).Some?
    decreases ATTEMPTS - k
  {
    if k >= ATTEMPTS then Attempt(n, Success(false))
    else
      var n1 := Arrive(Send(n, RouteRequestFor(c, endNode)), EventAt(arrivals, k));
      if endNode !in c.nodes then Attempt(n1, Failure(TableError.UnknownDestination(endNode)))
      else if BestRoute(n1.routes, endNode).Some? then Attempt(n1, Success(true))
      else SearchRounds(c, n1, endNode, arrivals, k + 1)
  }

  /** The retry loop of `send_message` from attempt `k` on: transmit, wait;
      an acknowledgement arriving meanwhile removes one copy of the id. */
  function AckRounds(n: Node, wire: string, ackId: string, acked: seq<bool>, k: nat): Attempt<bool>
    decreases ATTEMPTS - k
  {
    if k >= ATTEMPTS then Attempt(n, false)
    else
      var n1 := n.(outbox := n.outbox + [wire]);
      var n2 := if Acked(acked, k) then n1.(acks := RemoveIfPresent(n1.acks, ackId)) else n1;
      if ackId !in n2.acks then Attempt(n2, true) else AckRounds(n2, wire, ackId, acked, k + 1)
  }

  /** `send_message(destination, payload)`. */
  function SendMessageSpec(c: Config, n: Node, destination: string, payload: string,
                           arrivals: seq<Option<Route>>, acked: seq<bool>): Attempt<Result<Delivery, TableError>>
  {
    if destination !in c.nodes then Attempt(n, Failure(TableError.UnknownDestination(destination)))
    else
      var found := if BestRoute(n.routes, destination).Some? then Attempt(n, Success(true))
                   else SearchRounds(c, n, destination, arrivals, 0);
      if found.result != Success(true) then Attempt(found.node, Success(NoRoute))
      else
        var route := BestRoute(found.node.routes, destination).value;
        var h := Message(NO_SENDER, c.myAddress, c.defaultTtl, destination, route.nextNode, payload);
        var ackId := c.ackIdOf(c.myAddress, payload);
        var w := AckRounds(found.node.(acks := found.node.acks + [ackId]), Encode(h), ackId, acked, 0);
        if w.result then Attempt(w.node, Success(Acknowledged))
        else
          var n3 := w.node.(routes := WithoutNode(w.node.routes, destination), acks := RemoveIfPresent(w.node.acks, ackId));
          Attempt(Send(n3, RouteError(NO_SENDER, c.myAddress, c.defaultTtl, destination)), Success(NotAcknowledged))
  }

  // ---------------------------------------------------------------------------
  // The engine

  class ProtocolLite {
    const myAddress: string
    const defaultTtl: int
    const ttlStartValue: int
    const ackIdOf: (string, string) -> string
    const table: RoutingTable
    /** `MESSAGES_ACKNOWLEDGMENT`: ids of sent messages not yet acknowledged. */
    var acks: seq<string>
    /** The header strings passed to `send_header`, oldest first. */
    var outbox: seq<string>

    ghost predicate Valid()
      reads table
    {
      table.Valid()
    }

    function Cfg(): Config {
      Config(myAddress, table.availableNodes, table.processedTimeout, defaultTtl, ttlStartValue, ackIdOf)
    }

    ghost function State(): Node
      reads this, table
    {
      Node(table.routes, table.unsupported, table.processedRouteRequests, table.processedRegistrations,
           table.peers, acks, outbox)
    }

    constructor(myAddress: string, nodes: set<string>, timeout: int, defaultTtl: int, ttlStartValue: int,
                ackIdOf: (string, string) -> string)
      ensures Valid() && fresh(table)
      ensures this.myAddress == myAddress && this.defaultTtl == defaultTtl && this.ttlStartValue == ttlStartValue
      ensures this.ackIdOf == ackIdOf && table.availableNodes == nodes && table.processedTimeout == timeout
      ensures State() == Node([], [], Some([]), Some([]), [], [], [])
    {
      this.myAddress := myAddress;
      this.defaultTtl := defaultTtl;
      this.ttlStartValue := ttlStartValue;
      this.ackIdOf := ackIdOf;
      table := new RoutingTable(nodes, timeout);
      acks := [];
      outbox := [];
    }

    /** `send_header`, without the radio module's handshake. */
    method SendHeader(h: Header)
      modifies this
      ensures outbox == old(outbox) + [Encode(h)] && acks == old(acks)
    {
      outbox := outbox + [Encode(h)];
    }

    /** `send_route_reply`. */
    method SendRouteReply(nextNode: string, endNode: string)
      modifies this
      ensures outbox == old(outbox) + [Encode(RouteReply(NO_SENDER, myAddress, defaultTtl, 0, endNode, nextNode))]
      ensures acks == old(acks)
    {
      SendHeader(RouteReply(NO_SENDER, myAddress, defaultTtl, 0, endNode, nextNode));
    }

    /** `add_message_to_waiting_acknowledgement_list`. */
    method AddToAckList(source: string, payload: string) returns (ackId: string)
      modifies this
      ensures ackId == ackIdOf(source, payload)
      ensures acks == old(acks) + [ackId] && outbox == old(outbox)
    {
      ackId := ackIdOf(source, payload);
      acks := acks + [ackId];
    }

    /** `delete_from_ack_list`. */
    method DeleteFromAckList(ackId: string)
      modifies this
      ensures acks == RemoveIfPresent(old(acks), ackId) && outbox == old(outbox)
    {
      if ackId in acks {
        acks := RemoveFirst(acks, ackId);
      }
    }

    method ProcessRouteRequest(h: Header, now: int) returns (outcome: Outcome)
      requires Valid() && h.RouteRequest?
      modifies this, table
      ensures Valid()
      ensures Step(State(), outcome) == RouteRequestStep(Cfg(), old(State()), h, now)
    {
      if h.source == myAddress {
        return Completed;
      }
      if h.endNode == myAddress {
        table.AddRoute(h.source, h.receivedFrom, h.hops + 1);
        SendRouteReply(h.receivedFrom, h.source);
        return Completed;
      }
      var best := table.GetBestRoute(h.source);
      if best.Failure? {
        return Raised;
      }
      if best.value.None? {
        table.AddRoute(h.source, h.receivedFrom, h.hops);
      }
      var forwarded := RouteRequest(h.receivedFrom, h.source, h.ttl - 1, h.hops + 1, h.endNode);
      var seen := table.RouteRequestProcessed(h.endNode, now);
      if seen.Failure? {
        return Crashed;
      }
      if !seen.value {
        var _ := table.AddProcessedRouteRequest(h.endNode, now);
        SendHeader(forwarded);
      }
      return Completed;
    }

    method ProcessMessage(h: Header) returns (outcome: Outcome)
      requires Valid() && h.Message?
      modifies this, table
      ensures Valid()
      ensures Step(State(), outcome) == MessageStep(Cfg(), old(State()), h)
    {
      if h.destination == myAddress {
        SendHeader(Ack(NO_SENDER, myAddress, ttlStartValue, h.source, ackIdOf(h.source, h.payload)));
        return Completed;
      }
      if h.nextNode == myAddress {
        var best := table.GetBestRoute(h.destination);
        if best.Failure? {
          return Raised;
        }
        if best.value.Some? {
          SendHeader(Message(h.receivedFrom, h.source, h.ttl - 1, h.destination, best.value.value.nextNode, h.payload));
        }
      }
      return Completed;
    }

    method ProcessRouteReply(h: Header) returns (outcome: Outcome)
      requires Valid() && h.RouteReply?
      modifies this, table
      ensures Valid()
      ensures Step(State(), outcome) == RouteReplyStep(Cfg(), old(State()), h)
    {
      if h.source == myAddress {
        return Completed;
      }
      if h.endNode == myAddress {
        table.AddRoute(h.source, h.receivedFrom, h.hops + 1);
        return Completed;
      }
      if h.nextNode == myAddress {
        var toSource := table.GetBestRoute(h.source);
        if toSource.Failure? {
          return Raised;
        }
        if toSource.value.Some? {
          table.AddRoute(h.source, h.receivedFrom, h.hops + 1);
          var toEnd := table.GetBestRoute(h.endNode);
          if toEnd.Failure? {
            return Raised;
          }
          if toEnd.value.None? {
            return Crashed;
          }
          SendHeader(RouteReply(h.receivedFrom, h.source, h.ttl - 1, h.hops + 1, h.endNode, toEnd.value.value.nextNode));
        }
      }
      return Completed;
    }

    method ProcessRouteError(h: Header) returns (outcome: Outcome)
      requires Valid() && h.RouteError?
      modifies this, table
      ensures Valid()
      ensures Step(State(), outcome) == RouteErrorStep(old(State()), h)
    {
      var destinations := table.GetDestinations();
      if h.brokenNode in destinations {
        table.DeleteAllEntriesOf(h.brokenNode);
      }
      SendHeader(RouteError(h.receivedFrom, h.source, h.ttl - 1, h.brokenNode));
      return Completed;
    }

    method ProcessAck(h: Header) returns (outcome: Outcome)
      requires Valid() && h.Ack?
      modifies this
      ensures Valid()
      ensures Step(State(), outcome) == AckStep(Cfg(), old(State()), h)
    {
      DeleteFromAckList(h.ackId);
      if h.destination != myAddress {
        SendHeader(Ack(h.receivedFrom, h.source, h.ttl - 1, h.destination, h.ackId));
      }
      return Completed;
    }

    method MarkSenderUnsupported(raw: string)
      requires Valid()
      modifies table
      ensures Valid()
      ensures State() == MarkSender(old(State()), raw)
    {
      var sender := ReceivedFromValue(raw);
      if sender.Success? {
        table.MarkUnsupported(sender.value);
      }
    }

    /** One pass of `process_incoming_message`. */
    method ProcessIncomingMessage(raw: string, now: int) returns (outcome: Outcome)
      requires Valid()
      modifies this, table
      ensures Valid()
      ensures Step(State(), outcome) == ReceiveStep(Cfg(), old(State()), raw, now)
    {
      var decoded := Decode(raw, table.availableNodes);
      if decoded.Failure? {
        MarkSenderUnsupported(raw);
        return Raised;
      }
      var h := decoded.value;
      if h.ttl <= 1 {
        return Completed;
      }
      table.AddNeighbor(h.receivedFrom);
      match h {
        case RouteRequest(_, _, _, _, _) => outcome := ProcessRouteRequest(h, now);
        case Message(_, _, _, _, _, _) => outcome := ProcessMessage(h);
        case RouteReply(_, _, _, _, _, _) => outcome := ProcessRouteReply(h);
        case RouteError(_, _, _, _) => outcome := ProcessRouteError(h);
        case Ack(_, _, _, _, _) => outcome := ProcessAck(h);
      }
      if outcome == Raised {
        MarkSenderUnsupported(raw);
      }
    }

    /** The receive thread adding a route while the sender waits. */
    method Learn(e: Option<Route>)
      requires Valid()
      modifies table
      ensures Valid()
      ensures State() == Arrive(old(State()), e)
    {
      if e.Some? {
        table.AddRoute(e.value.destination, e.value.nextNode, e.value.hops);
      }
    }

    /** `send_route_request_message(end_node)`; `arrivals[k]` is a route the
        receive thread learns during the k-th wait. */
    method SendRouteRequest(endNode: string, arrivals: seq<Option<Route>>) returns (r: Result<bool, TableError>)
      requires Valid()
      modifies this, table
      ensures Valid()
      ensures Attempt(State(), r) == SearchRounds(Cfg(), old(State()), endNode, arrivals, 0)
    {
      var attempt: nat := 0;
      while attempt < ATTEMPTS
        invariant attempt <= ATTEMPTS && Valid()
        invariant SearchRounds(Cfg(), State(), endNode, arrivals, attempt) == SearchRounds(Cfg(), old(State()), endNode, arrivals, 0)
        decreases ATTEMPTS - attempt
      {
        var done;
        done, r := SearchOnce(endNode, arrivals, attempt);
        if done {
          return;
        }
        attempt := attempt + 1;
      }
      return Success(false);
    }

    /** One request and wait of `send_route_request_message`; `done` when
        the loop returns `r`. */
    method SearchOnce(endNode: string, arrivals: seq<Option<Route>>, k: nat) returns (done: bool, r: Result<bool, TableError>)
      requires Valid() && k < ATTEMPTS
      modifies this, table
      ensures Valid()
      ensures done ==> SearchRounds(Cfg(), old(State()), endNode, arrivals, k) == Attempt(State(), r)
      ensures !done ==> SearchRounds(Cfg(), old(State()), endNode, arrivals, k) == SearchRounds(Cfg(), State(), endNode, arrivals, k + 1)
    {
      SendHeader(RouteRequestFor(Cfg(), endNode));
      Learn(EventAt(arrivals, k));
      var best := table.GetBestRoute(endNode);
      if best.Failure? {
        return true, Failure(best.error);
      }
      if best.value.Some? {
        return true, Success(true);
      }
      return false, Success(false);
    }

    /** The retry loop of `send_message`; `acked[k]` says whether the
        receive thread processes an acknowledgement of `ackId` during the
        k-th wait. */
    method AwaitAck(h: Header, ackId: string, acked: seq<bool>) returns (confirmed: bool)
      requires Valid()
      modifies this
      ensures Valid()
      ensures Attempt(State(), confirmed) == AckRounds(old(State()), Encode(h), ackId, acked, 0)
    {
      var attempt: nat := 0;
      while attempt < ATTEMPTS
        invariant attempt <= ATTEMPTS && Valid()
        invariant AckRounds(State(), Encode(h), ackId, acked, attempt) == AckRounds(old(State()), Encode(h), ackId, acked, 0)
        decreases ATTEMPTS - attempt
      {
        SendHeader(h);
        if Acked(acked, attempt) {
          DeleteFromAckList(ackId);
        }
        if ackId !in acks {
          return true;
        }
        attempt := attempt + 1;
      }
      return false;
    }

    /** `send_message(destination, payload)`. */
    method SendMessage(destination: string, payload: string, arrivals: seq<Option<Route>>, acked: seq<bool>)
      returns (r: Result<Delivery, TableError>)
      requires Valid()
      modifies this, table
      ensures Valid()
      ensures Attempt(State(), r) == SendMessageSpec(Cfg(), old(State()), destination, payload, arrivals, acked)
    {
      var best := table.GetBestRoute(destination);
      if best.Failure? {
        return Failure(best.error);
      }
      if best.value.None? {
        var found := SendRouteRequest(destination, arrivals);
        if found != Success(true) {
          return Success(NoRoute);
        }
        best := table.GetBestRoute(destination);
      }
      var route := best.value.value;
      var h := Message(NO_SENDER, myAddress, defaultTtl, destination, route.nextNode, payload);
      var ackId := AddToAckList(myAddress, payload);
      var confirmed := AwaitAck(h, ackId, acked);
      if confirmed {
        return Success(Acknowledged);
      }
      table.DeleteAllEntriesOf(destination);
      DeleteFromAckList(ackId);
      SendHeader(RouteError(NO_SENDER, myAddress, defaultTtl, destination));
      return Success(NotAcknowledged);
    }
  }

  // ---------------------------------------------------------------------------
  // Properties of the receive loop

  /** Every handler sends at most one header and only appends to the record
      of sent headers. */
  lemma HandleSendsAtMostOne(c: Config, n: Node, h: Header, now: int)
    ensures var s := HandleStep(c, n, h, now);
            |n.outbox| <= |s.node.outbox| <= |n.outbox| + 1 && s.node.outbox[..|n.outbox|] == n.outbox
  {
  }

  /** One pass of the receive loop sends at most one header and only
      appends to the record of sent headers. */
  lemma ReceiveSendsAtMostOne(c: Config, n: Node, raw: string, now: int)
    ensures var s := ReceiveStep(c, n, raw, now);
            |n.outbox| <= |s.node.outbox| <= |n.outbox| + 1 && s.node.outbox[..|n.outbox|] == n.outbox
  {
    match Decode(raw, c.nodes)
    case Failure(_) =>
    case Success(h) =>
      if h.ttl > 1 {
        HandleSendsAtMostOne(c, AddRouteTo(n, Route(h.receivedFrom, h.receivedFrom, 1)), h, now);
      }
  }

  /** A line that does not parse changes nothing but the list of
      unsupported nodes, where its transmitter (if recoverable) ends up. */
  lemma ReceiveMalformed(c: Config, n: Node, raw: string, now: int)
    requires Decode(raw, c.nodes).Failure?
    ensures var s := ReceiveStep(c, n, raw, now);
            && s.outcome == Raised
            && s.node == n.(unsupported := s.node.unsupported)
            && (forall a :: a in n.unsupported ==> a in s.node.unsupported)
            && (ReceivedFromValue(raw).Success? ==> ReceivedFromValue(raw).value in s.node.unsupported)
  {
  }

  /** A parsed header with a time-to-live of at most one changes nothing. */
  lemma ReceiveShortLived(c: Config, n: Node, raw: string, now: int)
    requires Decode(raw, c.nodes).Success? && Decode(raw, c.nodes).value.ttl <= 1
    ensures ReceiveStep(c, n, raw, now) == Step(n, Completed)
  {
  }

  /** Otherwise the transmitter is a one-hop route afterwards, unless the
      header is a route error, and a `ValueError` leaves it listed as a node
      of another protocol as well. */
  lemma ReceiveNeighbour(c: Config, n: Node, raw: string, now: int)
    requires Decode(raw, c.nodes).Success? && Decode(raw, c.nodes).value.ttl > 1
    ensures var s := ReceiveStep(c, n, raw, now);
            var h := Decode(raw, c.nodes).value;
            && (!h.RouteError? ==> Route(h.receivedFrom, h.receivedFrom, 1) in s.node.routes)
            && (s.outcome == Raised ==> h.receivedFrom in s.node.unsupported)
  {
    var h := Decode(raw, c.nodes).value;
    SenderRecovery(raw, c.nodes);
    var neighbour := Route(h.receivedFrom, h.receivedFrom, 1);
    var n0 := AddRouteTo(n, neighbour);
    assert neighbour in n0.routes;
    var s := HandleStep(c, n0, h, now);
    if !h.RouteError? {
      assert neighbour in s.node.routes;
    }
  }

  /** A message whose destination is this node is answered with exactly one
      acknowledgement, to the message's source, carrying the id the source
      computes for it; heard by a neighbour, it decodes to that
      acknowledgement. */
  lemma MessageForMeAcknowledged(c: Config, n: Node, h: Header, meta: string)
    requires h.Message? && h.destination == c.myAddress
    ensures var s := MessageStep(c, n, h);
            && s.outcome == Completed && s.node.routes == n.routes && s.node.acks == n.acks
            && |s.node.outbox| == |n.outbox| + 1
            && (IsAddress(c.myAddress) && h.source in c.nodes && LORA_MODULE_DELIMITER !in c.myAddress &&
                LORA_MODULE_DELIMITER !in meta && NoDelimiter(Ack(c.myAddress, c.myAddress, c.ttlStartValue, h.source, c.ackIdOf(h.source, h.payload))) ==>
                  Decode(Line(c.myAddress, meta, s.node.outbox[|n.outbox|]), c.nodes) ==
                  Success(Ack(c.myAddress, c.myAddress, c.ttlStartValue, h.source, c.ackIdOf(h.source, h.payload))))
  {
    var ack := Ack(c.myAddress, c.myAddress, c.ttlStartValue, h.source, c.ackIdOf(h.source, h.payload));
    assert Encode(Ack(NO_SENDER, c.myAddress, c.ttlStartValue, h.source, c.ackIdOf(h.source, h.payload))) == Encode(ack);
    if IsAddress(c.myAddress) && h.source in c.nodes && NoDelimiter(ack) && LORA_MODULE_DELIMITER !in c.myAddress
       && LORA_MODULE_DELIMITER !in meta {
      RoundTrip(ack, meta, c.nodes);
    }
  }

  /** End to end: a message delivered to its destination `b` makes `b` send an
      acknowledgement which, received back at the message's source `a`,
      removes the id `a` waits for, and is not passed on. */
  lemma AcknowledgementRoundTrip(a: Config, b: Config, na: Node, nb: Node, m: Header,
                                 meta1: string, meta2: string, now1: int, now2: int)
    requires a.ackIdOf == b.ackIdOf && b.ttlStartValue > 1
    requires m.Message? && m.source == a.myAddress && m.destination == b.myAddress && m.ttl > 1
    requires WellFormed(m, b.nodes) && NoDelimiter(m)
    requires LORA_MODULE_DELIMITER !in m.receivedFrom && LORA_MODULE_DELIMITER !in meta1
    requires IsAddress(b.myAddress) && a.myAddress in a.nodes
    requires LORA_MODULE_DELIMITER !in b.myAddress && LORA_MODULE_DELIMITER !in meta2
    requires NoDelimiter(Ack(b.myAddress, b.myAddress, b.ttlStartValue, a.myAddress, a.ackIdOf(a.myAddress, m.payload)))
    ensures var sb := ReceiveStep(b, nb, Line(m.receivedFrom, meta1, Encode(m)), now1);
            && sb.outcome == Completed && |sb.node.outbox| == |nb.outbox| + 1
            && var sa := ReceiveStep(a, na, Line(b.myAddress, meta2, sb.node.outbox[|nb.outbox|]), now2);
               && sa.outcome == Completed && sa.node.outbox == na.outbox
               && sa.node.acks == RemoveIfPresent(na.acks, a.ackIdOf(a.myAddress, m.payload))
  {
    RoundTrip(m, meta1, b.nodes);
    var id := a.ackIdOf(a.myAddress, m.payload);
    var ack := Ack(b.myAddress, b.myAddress, b.ttlStartValue, a.myAddress, id);
    assert Encode(Ack(NO_SENDER, b.myAddress, b.ttlStartValue, a.myAddress, id)) == Encode(ack);
    RoundTrip(ack, meta2, a.nodes);
  }

  // ---------------------------------------------------------------------------
  // Properties of route-request handling

  /** A route request this node neither sent nor is asked for, from a
      configured node: the kind that is considered for forwarding. */
  predicate Relayed(c: Config, h: Header) {
    h.RouteRequest? && h.source != c.myAddress && h.endNode != c.myAddress && h.source in c.nodes
  }

  /** The first request for an end node is forwarded once, with one hop more
      and one time-to-live less; a repeat within the timeout is dropped. */
  lemma RouteRequestForwardedOnce(c: Config, n: Node, h1: Header, h2: Header, list: seq<Stamp>, now: int, later: int)
    requires Relayed(c, h1) && Relayed(c, h2) && h1.endNode == h2.endNode
    requires n.processedRouteRequests == Some(list) && !HasAddress(list, h1.endNode)
    requires now <= later < now + c.timeout
    ensures var s1 := RouteRequestStep(c, n, h1, now);
            && s1.outcome == Completed
            && s1.node.outbox[..|n.outbox|] == n.outbox
            && s1.node.outbox[|n.outbox|..] == [Encode(RouteRequest(h1.receivedFrom, h1.source, h1.ttl - 1, h1.hops + 1, h1.endNode))]
            && var s2 := RouteRequestStep(c, s1.node, h2, later);
               s2.outcome == Completed && s2.node.outbox == s1.node.outbox
  {
    var e := h1.endNode;
    ProcessedSpec(list, e, now, c.timeout);
    var s1 := RouteRequestStep(c, n, h1, now);
    assert s1.node.processedRouteRequests == Some(list + [Stamp(e, now)]);
    ProcessedSpec(list + [Stamp(e, now)], e, later, c.timeout);
    assert Stamp(e, now) in list + [Stamp(e, now)];
  }

  /** As written, the processed list is never pruned when it is searched, so
      a request for an end node whose entry has expired is forwarded again
      and leaves `None` in the table; from then on every route request that
      reaches the processed-list check stops the receive thread. */
  lemma ExpiredRequestPoisonsList(c: Config, n: Node, h: Header, list: seq<Stamp>, now: int)
    requires Relayed(c, h) && n.processedRouteRequests == Some(list)
    requires HasAddress(list, h.endNode) && !Processed(list, h.endNode, now, c.timeout)
    ensures var s := RouteRequestStep(c, n, h, now);
            && s.outcome == Completed && s.node.processedRouteRequests.None?
            && s.node.outbox == n.outbox + [Encode(RouteRequest(h.receivedFrom, h.source, h.ttl - 1, h.hops + 1, h.endNode))]
            && forall h2, later :: Relayed(c, h2) ==> RouteRequestStep(c, s.node, h2, later).outcome == Crashed
  {
  }

  // ---------------------------------------------------------------------------
  // Properties of sending

  lemma SearchRoundsSpec(c: Config, n: Node, e: string, arrivals: seq<Option<Route>>, k: nat)
    requires k <= ATTEMPTS
    ensures var r := SearchRounds(c, n, e, arrivals, k);
            && (e in c.nodes ==> r.result.Success?)
            && (e !in c.nodes && k < ATTEMPTS ==> r.result == Failure(TableError.UnknownDestination(e)))
            && r.node.acks == n.acks && r.node.peers == n.peers
            && r.node.processedRouteRequests == n.processedRouteRequests
            && (r.result == Success(false) ==>
                  r.node.outbox == n.outbox + Repeat(Encode(RouteRequestFor(c, e)), ATTEMPTS - k)
                  && (k < ATTEMPTS ==> BestRoute(r.node.routes, e).None?))
  {
    SearchRoundsResult(c, n, e, arrivals, k);
    SearchRoundsFrame(c, n, e, arrivals, k);
    SearchRoundsMissed(c, n, e, arrivals, k);
  }

  /** The search answers for configured end nodes and refuses the others. */
  lemma {:induction false} SearchRoundsResult(c: Config, n: Node, e: string, arrivals: seq<Option<Route>>, k: nat)
    ensures var r := SearchRounds(c, n, e, arrivals, k);
            && (e in c.nodes ==> r.result.Success?)
            && (e !in c.nodes && k < ATTEMPTS ==> r.result == Failure(TableError.UnknownDestination(e)))
    decreases ATTEMPTS - k
  {
    if k < ATTEMPTS {
      var n1 := Arrive(Send(n, RouteRequestFor(c, e)), EventAt(arrivals, k));
      if e in c.nodes && BestRoute(n1.routes, e).None? {
        SearchRoundsResult(c, n1, e, arrivals, k + 1);
      }
    }
  }

  /** The search changes only the routes and the sent headers. */
  lemma {:induction false} SearchRoundsFrame(c: Config, n: Node, e: string, arrivals: seq<Option<Route>>, k: nat)
    ensures var r := SearchRounds(c, n, e, arrivals, k);
            && r.node.acks == n.acks && r.node.peers == n.peers
            && r.node.processedRouteRequests == n.processedRouteRequests
    decreases ATTEMPTS - k
  {
    if k < ATTEMPTS {
      var n1 := Arrive(Send(n, RouteRequestFor(c, e)), EventAt(arrivals, k));
      if e in c.nodes && BestRoute(n1.routes, e).None? {
        SearchRoundsFrame(c, n1, e, arrivals, k + 1);
      }
    }
  }

  /** A search that finds nothing has broadcast one request per remaining
      attempt and leaves no route to the end node. */
  lemma {:induction false} SearchRoundsMissed(c: Config, n: Node, e: string, arrivals: seq<Option<Route>>, k: nat)
    requires k <= ATTEMPTS
    ensures var r := SearchRounds(c, n, e, arrivals, k);
            r.result == Success(false) ==>
              r.node.outbox == n.outbox + Repeat(Encode(RouteRequestFor(c, e)), ATTEMPTS - k)
              && (k < ATTEMPTS ==> BestRoute(r.node.routes, e).None?)
    decreases ATTEMPTS - k
  {
    if k < ATTEMPTS {
      var x := Encode(RouteRequestFor(c, e));
      var n1 := Arrive(Send(n, RouteRequestFor(c, e)), EventAt(arrivals, k));
      if e in c.nodes && BestRoute(n1.routes, e).None? {
        SearchRoundsMissed(c, n1, e, arrivals, k + 1);
        var r := SearchRounds(c, n1, e, arrivals, k + 1);
        if r.result == Success(false) {
          assert n1.outbox == n.outbox + [x];
          RepeatOnce(n.outbox, x, ATTEMPTS - k);
        }
      }
    }
  }

  /** A copy of `x` and `m - 1` more are `m` copies. */
  lemma RepeatOnce(a: seq<string>, x: string, m: nat)
    requires m > 0
    ensures a + [x] + Repeat(x, m - 1) == a + Repeat(x, m)
  {
    assert Repeat(x, m) == [x] + Repeat(x, m - 1);
  }

  /** The acknowledgement wait touches only the awaited ids and the sent
      headers, and takes at most copies of `ackId` from the former. */
  lemma {:induction false} AckRoundsFrame(n: Node, wire: string, ackId: string, acked: seq<bool>, k: nat)
    ensures var r := AckRounds(n, wire, ackId, acked, k);
            && r.node == n.(acks := r.node.acks, outbox := r.node.outbox)
            && (forall y :: y != ackId ==> multiset(r.node.acks)[y] == multiset(n.acks)[y])
            && multiset(r.node.acks)[ackId] <= multiset(n.acks)[ackId]
    decreases ATTEMPTS - k
  {
    if k < ATTEMPTS {
      var n1 := n.(outbox := n.outbox + [wire]);
      var n2 := if Acked(acked, k) then n1.(acks := RemoveIfPresent(n1.acks, ackId)) else n1;
      RemoveIfPresentCounts(n1.acks, ackId);
      if ackId in n2.acks {
        AckRoundsFrame(n2, wire, ackId, acked, k + 1);
      }
    }
  }

  /** The wait reports success only after an acknowledgement arrived, and
      then the id is no longer awaited; when exactly one copy of the id is
      awaited, an acknowledgement in any remaining window is noticed. */
  lemma {:induction false} AckRoundsConfirmed(n: Node, wire: string, ackId: string, acked: seq<bool>, k: nat)
    ensures var r := AckRounds(n, wire, ackId, acked, k);
            ackId in n.acks && r.result ==> ackId !in r.node.acks && exists j :: k <= j < ATTEMPTS && Acked(acked, j)
    ensures var r := AckRounds(n, wire, ackId, acked, k);
            multiset(n.acks)[ackId] == 1 && (exists j :: k <= j < ATTEMPTS && Acked(acked, j)) ==> r.result
    decreases ATTEMPTS - k
  {
    if k < ATTEMPTS {
      var n1 := n.(outbox := n.outbox + [wire]);
      var n2 := if Acked(acked, k) then n1.(acks := RemoveIfPresent(n1.acks, ackId)) else n1;
      RemoveIfPresentCounts(n1.acks, ackId);
      if ackId in n2.acks {
        AckRoundsConfirmed(n2, wire, ackId, acked, k + 1);
        assert !Acked(acked, k) || multiset(n.acks)[ackId] != 1;
      }
    }
  }

  /** An unacknowledged message has been sent once per remaining window. */
  lemma {:induction false} AckRoundsExhausted(n: Node, wire: string, ackId: string, acked: seq<bool>, k: nat)
    requires k <= ATTEMPTS
    ensures var r := AckRounds(n, wire, ackId, acked, k);
            !r.result ==> r.node.outbox == n.outbox + Repeat(wire, ATTEMPTS - k)
    decreases ATTEMPTS - k
  {
    if k < ATTEMPTS {
      var n1 := n.(outbox := n.outbox + [wire]);
      var n2 := if Acked(acked, k) then n1.(acks := RemoveIfPresent(n1.acks, ackId)) else n1;
      if ackId in n2.acks {
        AckRoundsExhausted(n2, wire, ackId, acked, k + 1);
        RepeatOnce(n.outbox, wire, ATTEMPTS - k);
      }
    }
  }

  /** An acknowledged message has been sent at least once and at most once
      per remaining window. */
  lemma {:induction false} AckRoundsSends(n: Node, wire: string, ackId: string, acked: seq<bool>, k: nat)
    requires k < ATTEMPTS
    ensures var r := AckRounds(n, wire, ackId, acked, k);
            r.result ==> exists m :: 1 <= m <= ATTEMPTS - k && r.node.outbox == n.outbox + Repeat(wire, m)
    decreases ATTEMPTS - k
  {
    var n1 := n.(outbox := n.outbox + [wire]);
    var n2 := if Acked(acked, k) then n1.(acks := RemoveIfPresent(n1.acks, ackId)) else n1;
    var r := AckRounds(n, wire, ackId, acked, k);
    if ackId !in n2.acks {
      assert r.node.outbox == n.outbox + Repeat(wire, 1);
    } else if k + 1 < ATTEMPTS {
      AckRoundsSends(n2, wire, ackId, acked, k + 1);
      if r.result {
        var m :| 1 <= m <= ATTEMPTS - (k + 1) && r.node.outbox == n2.outbox + Repeat(wire, m);
        RepeatOnce(n.outbox, wire, m + 1);
      }
    }
  }

  /** `send_message` raises exactly when the destination is not a configured
      node, and then changes nothing. */
  lemma SendMessageUnknownDestination(c: Config, n: Node, d: string, payload: string,
                                      arrivals: seq<Option<Route>>, acked: seq<bool>)
    ensures var r := SendMessageSpec(c, n, d, payload, arrivals, acked);
            (r.result.Failure? <==> d !in c.nodes) && (r.result.Failure? ==> r.node == n)
  {
    SearchRoundsSpec(c, n, d, arrivals, 0);
  }

  /** Without a route and without an answer to three route requests,
      `send_message` gives up having sent exactly those three requests. */
  lemma SendMessageGivesUp(c: Config, n: Node, d: string, payload: string,
                           arrivals: seq<Option<Route>>, acked: seq<bool>)
    ensures var r := SendMessageSpec(c, n, d, payload, arrivals, acked);
            r.result == Success(NoRoute) ==>
              BestRoute(n.routes, d).None? && r.node.outbox == n.outbox + Repeat(Encode(RouteRequestFor(c, d)), ATTEMPTS)
  {
    SearchRoundsSpec(c, n, d, arrivals, 0);
  }

  /** The wait of `send_message` as it starts: the route found, the message
      header and the state with the id added to the awaited ones. */
  function MessageWait(c: Config, n: Node, d: string, payload: string, arrivals: seq<Option<Route>>): Option<(Node, Header)> {
    if d !in c.nodes then None
    else
      var found := if BestRoute(n.routes, d).Some? then Attempt(n, Success(true))
                   else SearchRounds(c, n, d, arrivals, 0);
      if found.result != Success(true) then None
      else
        var route := BestRoute(found.node.routes, d).value;
        var ackId := c.ackIdOf(c.myAddress, payload);
        Some((found.node.(acks := found.node.acks + [ackId]),
              Message(NO_SENDER, c.myAddress, c.defaultTtl, d, route.nextNode, payload)))
  }

  lemma MessageWaitSpec(c: Config, n: Node, d: string, payload: string,
                        arrivals: seq<Option<Route>>, acked: seq<bool>)
    ensures var r := SendMessageSpec(c, n, d, payload, arrivals, acked);
            var id := c.ackIdOf(c.myAddress, payload);
            match MessageWait(c, n, d, payload, arrivals)
            case None => r.result.Failure? || r.result == Success(NoRoute)
            case Some(p) =>
              && multiset(p.0.acks)[id] == multiset(n.acks)[id] + 1
              && var w := AckRounds(p.0, Encode(p.1), id, acked, 0);
                 r == if w.result then Attempt(w.node, Success(Acknowledged))
                      else Attempt(Send(w.node.(routes := WithoutNode(w.node.routes, d), acks := RemoveIfPresent(w.node.acks, id)),
                                        RouteError(NO_SENDER, c.myAddress, c.defaultTtl, d)),
                                   Success(NotAcknowledged))
  {
    SearchRoundsSpec(c, n, d, arrivals, 0);
  }

  /** `send_message` reports an acknowledgement only if one arrived during one
      of its three waits; when the message's id was not awaited before, an
      acknowledgement arriving in one of those waits is always noticed. */
  lemma SendMessageAcknowledged(c: Config, n: Node, d: string, payload: string,
                                arrivals: seq<Option<Route>>, acked: seq<bool>)
    ensures var r := SendMessageSpec(c, n, d, payload, arrivals, acked);
            r.result == Success(Acknowledged) ==> exists j :: 0 <= j < ATTEMPTS && Acked(acked, j)
    ensures var r := SendMessageSpec(c, n, d, payload, arrivals, acked);
            var id := c.ackIdOf(c.myAddress, payload);
            (id !in n.acks && r.result.Success? && r.result != Success(NoRoute) &&
             (exists j :: 0 <= j < ATTEMPTS && Acked(acked, j))) ==> r.result == Success(Acknowledged)
  {
    MessageWaitSpec(c, n, d, payload, arrivals, acked);
    match MessageWait(c, n, d, payload, arrivals)
    case None =>
    case Some(p) =>
      AckRoundsConfirmed(p.0, Encode(p.1), c.ackIdOf(c.myAddress, payload), acked, 0);
  }

  /** An unacknowledged message makes `send_message` forget every route
      through the destination, stop awaiting the id, and send a route error
      as its last header. */
  lemma SendMessageNotAcknowledged(c: Config, n: Node, d: string, payload: string,
                                   arrivals: seq<Option<Route>>, acked: seq<bool>)
    ensures var r := SendMessageSpec(c, n, d, payload, arrivals, acked);
            var id := c.ackIdOf(c.myAddress, payload);
            r.result == Success(NotAcknowledged) ==>
              && (forall rt :: rt in r.node.routes ==> rt.destination != d && rt.nextNode != d)
              && |r.node.outbox| > 0
              && r.node.outbox[|r.node.outbox| - 1] == Encode(RouteError(NO_SENDER, c.myAddress, c.defaultTtl, d))
              && (id !in n.acks ==> id !in r.node.acks)
  {
    MessageWaitSpec(c, n, d, payload, arrivals, acked);
    match MessageWait(c, n, d, payload, arrivals)
    case None =>
    case Some(p) =>
      var id := c.ackIdOf(c.myAddress, payload);
      AckRoundsFrame(p.0, Encode(p.1), id, acked, 0);
      var w := AckRounds(p.0, Encode(p.1), id, acked, 0);
      if !w.result {
        forall rt | rt in WithoutNode(w.node.routes, d) ensures rt.destination != d && rt.nextNode != d {
          WithoutNodeSpec(w.node.routes, d, rt);
        }
        RemoveIfPresentMultiset(w.node.acks, id);
      }
  }
}
