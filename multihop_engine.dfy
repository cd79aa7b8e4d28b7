/** The protocol engine of the newer generation: one step of the receive
    loop over eight header types, the sending of messages to the connected
    node with acknowledgement polling, route discovery, peer registration,
    and connect and disconnect requests between peers.

    As for the older engine, every state-changing method is specified by a
    pure function over a snapshot `Node` of the engine and its routing table.
    Header strings handed to the radio module are appended to `outbox`,
    payloads handed to the local application to `delivered`, and messages
    for the local application's connection to `ipc`. The receive thread's
    concurrent work during a wait (a route learned, an acknowledgement
    processed, the node's own registration heard back) is the input of the
    sending methods: one event per poll. */
module MultihopEngine {
  import opened Wrappers
  import opened Text
  import Codec
  import opened TableCommon
  import opened MultihopTable
  import opened MultihopHeader

  /** Transmissions of a message or a registration, and the bound on the
      route-request counter (which advances by two per unanswered round). */
  const ATTEMPTS: nat := 3
  /** Half-second polls after each transmission. */
  const MESSAGE_POLLS: nat := 10
  const ROUTE_POLLS: nat := 10
  const REGISTRATION_POLLS: nat := 5

  /** How a handler ends: normally, with a `ValueError` the receive loop
      catches, or with an exception it does not catch (`KeyError`), which ends
      the receive thread. */
  datatype Outcome = Completed | Raised | Crashed

  /** How `send_message` ends when it does not raise. */
  datatype Delivery = Acknowledged | NotAcknowledged | NoRoute | NotConnected

  /** The `ValueError`s of `check_peers`, and an unknown destination. */
  datatype RequestError =
    | SourceNotRegistered(peerId: string)
    | TargetNotRegistered(peerId: string)
    | SourceElsewhere(peerId: string)
    | Table(error: TableError)

  /** A request between two peers, as the user side asks for it. */
  datatype PeerRequest =
    | Connect(sourcePeerId: string, targetPeerId: string, timeout: string)
    | Disconnect(sourcePeerId: string, targetPeerId: string)

  /** The configuration the engine reads from its `variables` module, the
      header parser of the (not modelled) header module, and base64. */
  datatype Config = Config(
    myAddress: string,
    nodes: set<string>,
    timeout: int,
    defaultTtl: int,
    ttlStartValue: int,
    parse: string -> Option<Frame>,
    encode64: seq<bv8> -> string,
    decode64: string -> Option<seq<bv8>>)

  /** The engine's state: its routing table's lists, the ids of sent messages
      not yet acknowledged, what it has handed out, and its own fields. */
  datatype Node = Node(
    routes: seq<Route>,
    unsupported: seq<string>,
    processedRouteRequests: seq<Stamp>,
    processedRegistrations: seq<Stamp>,
    peers: seq<Peer>,
    receivedMessages: seq<ReceivedMessage>,
    processedConnectRequests: seq<ConnectStamp>,
    acks: seq<int>,
    outbox: seq<string>,
    delivered: seq<seq<bv8>>,
    ipc: seq<string>,
    connectedNode: Option<string>,
    messageCounter: nat,
    ownRegistrationSeen: bool)

  datatype Step = Step(node: Node, outcome: Outcome)

  /** A state after a call that also returns a result. */
  datatype Attempt<R> = Attempt(node: Node, result: R)

  // ---------------------------------------------------------------------------
  // State updates the handlers are made of

  function AddRouteTo(n: Node, r: Route): Node {
    if r in n.routes then n
    else n.(routes := n.routes + [r], unsupported := RemoveIfPresent(n.unsupported, r.destination))
  }

  function MarkUnsupported(n: Node, address: string): Node {
    if address in n.unsupported then n else n.(unsupported := n.unsupported + [address])
  }

  function AddPeerTo(n: Node, p: Peer): Node {
    if p in n.peers then n else n.(peers := n.peers + [p])
  }

  function Send(n: Node, f: Frame): Node {
    n.(outbox := n.outbox + [Encode(f)])
  }

  /** The `except ValueError` branch of the receive loop. */
  function MarkSender(n: Node, raw: string): Node {
    match Codec.ReceivedFromValue(raw)
    case Success(a) => MarkUnsupported(n, a)
    case Failure(_) => n
  }

  /** `delete_from_ack_list(ack_id)` for an id received as text: `int()`
      failing is caught and changes nothing. */
  function DropAck(n: Node, ackId: string): Node {
    match ParseInt(ackId)
    case None => n
    case Some(i) => n.(acks := RemoveIfPresent(n.acks, i))
  }

  /** `ipc.create_connect_request_message`. */
  function ConnectRequestEvent(sourcePeerId: string, targetPeerId: string, timeout: string): string {
    "ConnectRequest," + sourcePeerId + "," + targetPeerId + "," + timeout
  }

  /** `ipc.create_disconnect_request_message`. */
  function DisconnectRequestEvent(sourcePeerId: string, targetPeerId: string): string {
    "DisconnectRequest," + sourcePeerId + "," + targetPeerId
  }

  // ---------------------------------------------------------------------------
  // Handlers

  /** `process_route_request`. */
  function RouteRequestStep(c: Config, n: Node, f: Frame, now: int): Step
    requires f.RouteRequest?
  {
    if f.source == c.myAddress then Step(n, Completed)
    else if f.endNode == c.myAddress then
      Step(Send(AddRouteTo(n, Route(f.source, f.receivedFrom, f.hops + 1)),
                RouteReply(Codec.NO_SENDER, c.myAddress, c.defaultTtl, 0, f.source, f.receivedFrom)),
           Completed)
    else if f.source !in c.nodes then Step(n, Raised)
    else
      var n1 := if BestRoute(n.routes, f.source).None? then AddRouteTo(n, Route(f.source, f.receivedFrom, f.hops)) else n;
      Step(ForwardedRouteRequest(c, n1, f, now), Completed)
  }

  /** The end of `process_route_request` for a request to relay: a request
      for `f.endNode` not seen within the timeout is recorded and forwarded
      with one hop more and one ttl less. */
  function ForwardedRouteRequest(c: Config, n: Node, f: Frame, now: int): Node
    requires f.RouteRequest?
  {
    if Processed(n.processedRouteRequests, f.endNode, now, c.timeout) then n
    else Send(n.(processedRouteRequests := AddedStamp(n.processedRouteRequests, f.endNode, now, c.timeout)),
              RouteRequest(f.receivedFrom, f.source, f.ttl - 1, f.hops + 1, f.endNode))
  }

  /** The acknowledgement `process_message_header` sends for `f`. */
  function AckFor(c: Config, f: Frame): Frame
    requires f.Message?
  {
    Ack(Codec.NO_SENDER, c.myAddress, c.ttlStartValue, f.source, IntToString(f.messageId))
  }

  /** `process_message_header`: a message from the connected node to this
      node is delivered (unless received before) and acknowledged; a message
      routed through this node is forwarded on the best route, if any. */
  function MessageStep(c: Config, n: Node, f: Frame): Step
    requires f.Message?
  {
    if f.destination == c.myAddress && n.connectedNode == Some(f.source) then
      if ReceivedMessage(f.source, f.messageId) in n.receivedMessages then Step(Send(n, AckFor(c, f)), Completed)
      else match c.decode64(f.payload)
        case None => Step(n, Raised)
        case Some(bytes) => Step(Send(n.(delivered := n.delivered + [bytes]), AckFor(c, f)), Completed)
    else if f.nextNode == c.myAddress && f.destination != c.myAddress then
      if f.destination !in c.nodes then Step(n, Raised)
      else match BestRoute(n.routes, f.destination)
        case None => Step(n, Completed)
        case Some(r) =>
          Step(Send(n, Message(f.receivedFrom, f.source, f.ttl - 1, f.destination, r.nextNode, f.messageId, f.payload)),
               Completed)
    else Step(n, Completed)
  }

  /** `process_route_reply_header`. A reply forwarded towards an end node
      without a route fails on `{}['next_node']`. */
  function RouteReplyStep(c: Config, n: Node, f: Frame): Step
    requires f.RouteReply?
  {
    if f.source == c.myAddress then Step(n, Completed)
    else if f.endNode == c.myAddress then Step(AddRouteTo(n, Route(f.source, f.receivedFrom, f.hops + 1)), Completed)
    else if f.nextNode == c.myAddress then
      if f.source !in c.nodes then Step(n, Raised)
      else if BestRoute(n.routes, f.source).None? then Step(n, Completed)
      else
        var n1 := AddRouteTo(n, Route(f.source, f.receivedFrom, f.hops + 1));
        if f.endNode !in c.nodes then Step(n1, Raised)
        else match BestRoute(n1.routes, f.endNode)
          case None => Step(n1, Crashed)
          case Some(r) =>
            Step(Send(n1, RouteReply(f.receivedFrom, f.source, f.ttl - 1, f.hops + 1, f.endNode, r.nextNode)), Completed)
    else Step(n, Completed)
  }

  /** `process_route_error_header`. */
  function RouteErrorStep(n: Node, f: Frame): Step
    requires f.RouteError?
  {
    var n1 := if f.brokenNode in Destinations(n.routes) then n.(routes := WithoutNode(n.routes, f.brokenNode)) else n;
    Step(Send(n1, RouteError(f.receivedFrom, f.source, f.ttl - 1, f.brokenNode)), Completed)
  }

  /** `process_ack_header`: an acknowledgement for this node ends the wait
      for its id; any other travels on. */
  function AckStep(c: Config, n: Node, f: Frame): Step
    requires f.Ack?
  {
    if f.destination == c.myAddress then Step(DropAck(n, f.ackId), Completed)
    else Step(Send(n, Ack(f.receivedFrom, f.source, f.ttl - 1, f.destination, f.ackId)), Completed)
  }

  /** `process_registration_header`. */
  function RegistrationStep(c: Config, n: Node, f: Frame, now: int): Step
    requires f.Registration?
  {
    if f.source != c.myAddress then Step(RelayedRegistration(c, n, f, now), Completed)
    else Step(n.(ownRegistrationSeen := true), Completed)
  }

  /** Another node's registration: its source is recorded as processed, the
      peer list follows it, and it is passed on. */
  function RelayedRegistration(c: Config, n: Node, f: Frame, now: int): Node
    requires f.Registration?
  {
    var n1 := n.(processedRegistrations := AddedStamp(n.processedRegistrations, f.source, now, c.timeout));
    var n2 := if f.subscribe then AddPeerTo(n1, Peer(f.peerId, f.source))
              else n1.(peers := WithoutPeer(n1.peers, f.peerId, f.source));
    Send(n2, Registration(f.receivedFrom, f.source, f.ttl - 1, f.subscribe, f.peerId))
  }

  /** `process_connect_request_header`. */
  function ConnectRequestStep(c: Config, n: Node, f: Frame): Step
    requires f.ConnectRequest?
  {
    if f.receivedFrom == c.myAddress then Step(n, Completed)
    else if f.endNode == c.myAddress then
      Step(n.(connectedNode := Some(f.source),
              ipc := n.ipc + [ConnectRequestEvent(f.sourcePeerId, f.targetPeerId, f.timeout)]), Completed)
    else if f.nextNode == c.myAddress then
      if f.endNode !in c.nodes then Step(n, Raised)
      else match BestRoute(n.routes, f.endNode)
        case None => Step(n, Completed)
        case Some(r) =>
          Step(Send(n, ConnectRequest(f.receivedFrom, f.source, f.ttl - 1, f.endNode, r.nextNode,
                                      f.sourcePeerId, f.targetPeerId, f.timeout)), Completed)
    else Step(n, Completed)
  }

  /** `process_disconnect_request_header`; as written it also makes the
      requesting node the connected one. */
  function DisconnectRequestStep(c: Config, n: Node, f: Frame): Step
    requires f.DisconnectRequest?
  {
    if f.receivedFrom == c.myAddress then Step(n, Completed)
    else if f.endNode == c.myAddress then
      Step(n.(connectedNode := Some(f.source),
              ipc := n.ipc + [DisconnectRequestEvent(f.sourcePeerId, f.targetPeerId)]), Completed)
    else if f.nextNode == c.myAddress then
      if f.endNode !in c.nodes then Step(n, Raised)
      else match BestRoute(n.routes, f.endNode)
        case None => Step(n, Completed)
        case Some(r) =>
          Step(Send(n, DisconnectRequest(f.receivedFrom, f.source, f.ttl - 1, f.endNode, r.nextNode,
                                         f.sourcePeerId, f.targetPeerId)), Completed)
    else Step(n, Completed)
  }

  function HandleStep(c: Config, n: Node, f: Frame, now: int): Step {
    match f
    case RouteRequest(_, _, _, _, _) => RouteRequestStep(c, n, f, now)
    case Message(_, _, _, _, _, _, _) => MessageStep(c, n, f)
    case RouteReply(_, _, _, _, _, _) => RouteReplyStep(c, n, f)
    case RouteError(_, _, _, _) => RouteErrorStep(n, f)
    case Ack(_, _, _, _, _) => AckStep(c, n, f)
    case Registration(_, _, _, _, _) => RegistrationStep(c, n, f, now)
    case ConnectRequest(_, _, _, _, _, _, _, _) => ConnectRequestStep(c, n, f)
    case DisconnectRequest(_, _, _, _, _, _, _) => DisconnectRequestStep(c, n, f)
  }

  /** One pass of `process_incoming_message` over the raw line `raw`. */
  function ReceiveStep(c: Config, n: Node, raw: string, now: int): Step {
    match c.parse(raw)
    case None => Step(MarkSender(n, raw), Raised)
    case Some(f) =>
      if f.ttl <= 1 then Step(n, Completed)
      else
        var s := HandleStep(c, AddRouteTo(n, Route(f.receivedFrom, f.receivedFrom, 1)), f, now);
        if s.outcome == Raised then Step(MarkSender(s.node, raw), Raised) else s
  }

  // ---------------------------------------------------------------------------
  // Sending, with the receive thread's concurrent work as input

  /** What the receive thread does during poll `p` of wait `k`. */
  function EventAt<T>(events: seq<seq<Option<T>>>, k: nat, p: nat): Option<T> {
    if k < |events| && p < |events[k]| then events[k][p] else None
  }

  /** Whether the event happened during poll `p` of wait `k`. */
  predicate Happened(events: seq<seq<bool>>, k: nat, p: nat) {
    k < |events| && p < |events[k]| && events[k][p]
  }

  function Arrive(n: Node, e: Option<Route>): Node {
    match e
    case None => n
    case Some(r) => AddRouteTo(n, r)
  }

  /** The header `send_route_request_message` broadcasts. */
  function RouteRequestFor(c: Config, endNode: string): Frame {
    RouteRequest(Codec.NO_SENDER, c.myAddress, c.defaultTtl, 0, endNode)
  }

  /** The polls after one route request, from poll `p` on; the route learned
      at poll `p` of wait `k` is taken into account before the table is read. */
  function RoutePolls(c: Config, n: Node, e: string, arrivals: seq<seq<Option<Route>>>, k: nat, p: nat)
    : Attempt<Result<bool, TableError>>
    decreases ROUTE_POLLS - p
  {
    if p >= ROUTE_POLLS then Attempt(n, Success(false))
    else
      var n1 := Arrive(n, EventAt(arrivals, k, p));
      if e !in c.nodes then Attempt(n1, Failure(TableError.UnknownDestination(e)))
      else if BestRoute(n1.routes, e).Some? then Attempt(n1, Success(true))
      else RoutePolls(c, n1, e, arrivals, k, p + 1)
  }

  /** The loop of `send_route_request_message` with counter `attempt`. */
  function SearchRounds(c: Config, n: Node, e: string, arrivals: seq<seq<Option<Route>>>, attempt: nat)
    : Attempt<Result<bool, TableError>>
    decreases ATTEMPTS - attempt
  {
    if attempt >= ATTEMPTS then Attempt(n, Success(false))
    else
      var w := RoutePolls(c, Send(n, RouteRequestFor(c, e)), e, arrivals, attempt, 0);
      if w.result != Success(false) then w
      else SearchRounds(c, w.node, e, arrivals, attempt + 2)
  }

  /** One round of the acknowledgement wait, given the outcome `w` of its
      polls. */
  lemma AckRoundsStep(n: Node, wire: string, id: int, acked: seq<seq<bool>>, attempt: nat, w: Polled)
    requires attempt < ATTEMPTS && w == AckPolls(n.acks, id, acked, attempt, 0)
    ensures w.released ==> AckRounds(n, wire, id, acked, attempt) == Attempt(n.(acks := w.acks, outbox := n.outbox + [wire]), true)
    ensures !w.released ==> AckRounds(n, wire, id, acked, attempt) == AckRounds(n.(acks := w.acks, outbox := n.outbox + [wire]), wire, id, acked, attempt + 1)
  {
  }

  /** The awaited ids after the polls of one wait, and whether `id` was
      released during them. */
  datatype Polled = Polled(acks: seq<int>, released: bool)

  /** The polls after one transmission of a message, over the awaited ids;
      an acknowledgement processed at poll `p` of wait `k` removes one copy
      of `id`. */
  function AckPolls(acks: seq<int>, id: int, acked: seq<seq<bool>>, k: nat, p: nat): Polled
    decreases MESSAGE_POLLS - p
  {
    if p >= MESSAGE_POLLS then Polled(acks, false)
    else
      var a1 := if Happened(acked, k, p) then RemoveIfPresent(acks, id) else acks;
      if id !in a1 then Polled(a1, true) else AckPolls(a1, id, acked, k, p + 1)
  }

  /** The retry loop of `send_message` from attempt `attempt` on: transmit,
      then poll. */
  function AckRounds(n: Node, wire: string, id: int, acked: seq<seq<bool>>, attempt: nat): Attempt<bool>
    decreases ATTEMPTS - attempt
  {
    if attempt >= ATTEMPTS then Attempt(n, false)
    else
      var w := AckPolls(n.acks, id, acked, attempt, 0);
      var n1 := n.(acks := w.acks, outbox := n.outbox + [wire]);
      if w.released then Attempt(n1, true) else AckRounds(n1, wire, id, acked, attempt + 1)
  }

  /** The route to `d` that sending starts from: the best one, or the one a
      successful route discovery leaves. */
  function Discover(c: Config, n: Node, d: string, arrivals: seq<seq<Option<Route>>>): (r: Attempt<Result<bool, TableError>>)
    ensures r.result == Success(true) ==> BestRoute(r.node.routes, d).Some?
  {
    SearchRoundsFound(c, n, d, arrivals, 0);
    if BestRoute(n.routes, d).Some? then Attempt(n, Success(true)) else SearchRounds(c, n, d, arrivals, 0)
  }

  /** A search that reports success leaves a route to the searched node. */
  lemma {:induction false} RoutePollsFound(c: Config, n: Node, e: string, arrivals: seq<seq<Option<Route>>>, k: nat, p: nat)
    ensures RoutePolls(c, n, e, arrivals, k, p).result == Success(true)
            ==> BestRoute(RoutePolls(c, n, e, arrivals, k, p).node.routes, e).Some?
    decreases ROUTE_POLLS - p
  {
    if p < ROUTE_POLLS {
      var n1 := Arrive(n, EventAt(arrivals, k, p));
      if e in c.nodes && BestRoute(n1.routes, e).None? {
        RoutePollsFound(c, n1, e, arrivals, k, p + 1);
      }
    }
  }

  lemma {:induction false} SearchRoundsFound(c: Config, n: Node, e: string, arrivals: seq<seq<Option<Route>>>, attempt: nat)
    ensures SearchRounds(c, n, e, arrivals, attempt).result == Success(true)
            ==> BestRoute(SearchRounds(c, n, e, arrivals, attempt).node.routes, e).Some?
    decreases ATTEMPTS - attempt
  {
    if attempt < ATTEMPTS {
      var n1 := Send(n, RouteRequestFor(c, e));
      RoutePollsFound(c, n1, e, arrivals, attempt, 0);
      SearchRoundsFound(c, RoutePolls(c, n1, e, arrivals, attempt, 0).node, e, arrivals, attempt + 2);
    }
  }

  /** The route search leaves the message counter alone. */
  lemma {:induction false} SearchKeepsCounter(c: Config, n: Node, e: string, arrivals: seq<seq<Option<Route>>>, attempt: nat)
    ensures SearchRounds(c, n, e, arrivals, attempt).node.messageCounter == n.messageCounter
    decreases ATTEMPTS - attempt
  {
    if attempt < ATTEMPTS {
      var n1 := Send(n, RouteRequestFor(c, e));
      RoutePollsKeepCounter(c, n1, e, arrivals, attempt, 0);
      SearchKeepsCounter(c, RoutePolls(c, n1, e, arrivals, attempt, 0).node, e, arrivals, attempt + 2);
    }
  }

  lemma {:induction false} RoutePollsKeepCounter(c: Config, n: Node, e: string, arrivals: seq<seq<Option<Route>>>, k: nat, p: nat)
    ensures RoutePolls(c, n, e, arrivals, k, p).node.messageCounter == n.messageCounter
    decreases ROUTE_POLLS - p
  {
    if p < ROUTE_POLLS {
      RoutePollsKeepCounter(c, Arrive(n, EventAt(arrivals, k, p)), e, arrivals, k, p + 1);
    }
  }

  /** The message header of `send_message`. */
  function MessageFor(c: Config, d: string, nextNode: string, id: nat, payload: seq<bv8>): Frame {
    Message(Codec.NO_SENDER, c.myAddress, c.defaultTtl, d, nextNode, id, c.encode64(payload))
  }

  /** `send_message(payload)`, the message numbered `id` (the method
      passes one past its counter). */
  function SendMessageSpec(c: Config, n: Node, payload: seq<bv8>, id: nat, arrivals: seq<seq<Option<Route>>>, acked: seq<seq<bool>>)
    : Attempt<Result<Delivery, TableError>>
  {
    match n.connectedNode
    case None => Attempt(n, Success(NotConnected))
    case Some(d) =>
      if d !in c.nodes then Attempt(n, Failure(TableError.UnknownDestination(d)))
      else
        var found := Discover(c, n, d, arrivals);
        if found.result != Success(true) then Attempt(found.node, Success(NoRoute))
        else
          var h := MessageFor(c, d, BestRoute(found.node.routes, d).value.nextNode, id, payload);
          var w := TransmitSpec(c, found.node, d, h, id, acked);
          Attempt(w.node, Success(w.result))
  }

  /** The part of `send_message` after a route is known: number the
      message `h` with `id`, send it up to three times awaiting its
      acknowledgement, and on silence drop the routes via `d` and send a
      route error. */
  function TransmitSpec(c: Config, n: Node, d: string, h: Frame, id: nat, acked: seq<seq<bool>>): Attempt<Delivery> {
    Conclude(c, AckRounds(n.(messageCounter := id, acks := n.acks + [id]), Encode(h), id, acked, 0), d, id)
  }

  /** How `send_message` ends after its retry loop `w`. */
  function Conclude(c: Config, w: Attempt<bool>, d: string, id: int): Attempt<Delivery> {
    if w.result then Attempt(w.node, Acknowledged) else Attempt(GiveUp(c, w.node, d, id), NotAcknowledged)
  }

  /** What `send_message` does when no acknowledgement came. */
  function GiveUp(c: Config, n: Node, d: string, id: int): Node {
    Send(n.(routes := WithoutNode(n.routes, d), acks := RemoveIfPresent(n.acks, id)),
         RouteError(Codec.NO_SENDER, c.myAddress, c.defaultTtl, d))
  }

  /** The polls after one registration broadcast, from poll `p` on, with
      the node's flag `seen`: whether they end early because the flag is
      set; the node's own registration heard back at poll `p` of wait `k`
      sets it. */
  function LoopbackPolls(seen: bool, looped: seq<seq<bool>>, k: nat, p: nat): bool
    decreases REGISTRATION_POLLS - p
  {
    if p >= REGISTRATION_POLLS then false
    else
      var seen1 := seen || Happened(looped, k, p);
      if seen1 then true else LoopbackPolls(seen1, looped, k, p + 1)
  }

  /** The retry loop of `send_registration_message` from attempt `attempt`
      on, broadcasting the header string `wire`. */
  function RegistrationRounds(n: Node, wire: string, looped: seq<seq<bool>>, attempt: nat): Node
    decreases ATTEMPTS - attempt
  {
    if attempt >= ATTEMPTS then n
    else
      var heard := LoopbackPolls(n.ownRegistrationSeen, looped, attempt, 0);
      var n1 := n.(outbox := n.outbox + [wire], ownRegistrationSeen := n.ownRegistrationSeen || heard);
      if heard then n1 else RegistrationRounds(n1, wire, looped, attempt + 1)
  }

  /** One round of the registration wait, given the outcome `heard` of its
      polls. */
  lemma RegistrationRoundsStep(n: Node, wire: string, looped: seq<seq<bool>>, attempt: nat, heard: bool)
    requires attempt < ATTEMPTS && heard == LoopbackPolls(n.ownRegistrationSeen, looped, attempt, 0)
    ensures heard ==> RegistrationRounds(n, wire, looped, attempt)
                      == n.(outbox := n.outbox + [wire], ownRegistrationSeen := n.ownRegistrationSeen || heard)
    ensures !heard ==> RegistrationRounds(n, wire, looped, attempt)
                       == RegistrationRounds(n.(outbox := n.outbox + [wire], ownRegistrationSeen := n.ownRegistrationSeen || heard),
                                             wire, looped, attempt + 1)
  {
  }

  function RegistrationFor(c: Config, subscribe: bool, peerId: string): Frame {
    Registration(Codec.NO_SENDER, c.myAddress, c.defaultTtl, subscribe, peerId)
  }

  /** `send_registration_message(subscribe, peer_id)`. */
  function SendRegistrationSpec(c: Config, n: Node, subscribe: bool, peerId: string, looped: seq<seq<bool>>): Node {
    var n1 := if subscribe then AddPeerTo(n, Peer(peerId, c.myAddress))
              else n.(peers := WithoutPeer(n.peers, peerId, c.myAddress));
    RegistrationRounds(n1.(ownRegistrationSeen := false), Encode(RegistrationFor(c, subscribe, peerId)), looped, 0)
  }

  /** `check_peers`. */
  function PeersProblem(c: Config, n: Node, sourcePeerId: string, targetPeerId: string): Option<RequestError> {
    if !Registered(n.peers, sourcePeerId) then Some(SourceNotRegistered(sourcePeerId))
    else if !Registered(n.peers, targetPeerId) then Some(TargetNotRegistered(targetPeerId))
    else if AddressOf(n.peers, sourcePeerId) != Some(c.myAddress) then Some(SourceElsewhere(sourcePeerId))
    else None
  }

  /** The header a connect or disconnect request travels in. */
  function RequestFrame(c: Config, q: PeerRequest, endNode: string, nextNode: string): Frame {
    match q
    case Connect(s, t, timeout) =>
      ConnectRequest(Codec.NO_SENDER, c.myAddress, c.defaultTtl, endNode, nextNode, s, t, timeout)
    case Disconnect(s, t) =>
      DisconnectRequest(Codec.NO_SENDER, c.myAddress, c.defaultTtl, endNode, nextNode, s, t)
  }

  /** The common tail of `send_connect_request_header` and
      `send_disconnect_request_header`: find or discover a route to the
      target peer's node and send the request on it. */
  function RequestTowards(c: Config, n: Node, q: PeerRequest, endNode: string, arrivals: seq<seq<Option<Route>>>)
    : Attempt<Result<(), RequestError>>
  {
    if endNode !in c.nodes then Attempt(n, Failure(Table(TableError.UnknownDestination(endNode))))
    else
      var found := Discover(c, n, endNode, arrivals);
      if found.result != Success(true) then Attempt(found.node, Success(()))
      else Attempt(Send(found.node, RequestFrame(c, q, endNode, BestRoute(found.node.routes, endNode).value.nextNode)),
                   Success(()))
  }

  /** `send_connect_request_header` and `send_disconnect_request_header`. */
  function PeerRequestSpec(c: Config, n: Node, q: PeerRequest, now: int, arrivals: seq<seq<Option<Route>>>)
    : Attempt<Result<(), RequestError>>
  {
    match PeersProblem(c, n, q.sourcePeerId, q.targetPeerId)
    case Some(e) => Attempt(n, Failure(e))
    case None =>
      var endNode := AddressOf(n.peers, q.targetPeerId).value;
      match q
      case Disconnect(_, _) => RequestTowards(c, n, q, endNode, arrivals)
      case Connect(s, t, _) =>
        if ConnectSeen(n.processedConnectRequests, s, t, now) then Attempt(n, Success(()))
        else RequestTowards(c, n.(processedConnectRequests := n.processedConnectRequests + [ConnectStamp(s, t, now)]),
                            q, endNode, arrivals)
  }

  // ---------------------------------------------------------------------------
  // The engine

  class ProtocolLite {
    const myAddress: string
    const defaultTtl: int
    const ttlStartValue: int
    const parse: string -> Option<Frame>
    const encode64: seq<bv8> -> string
    const decode64: string -> Option<seq<bv8>>
    const table: RoutingTable
    /** `MESSAGES_ACKNOWLEDGMENT`: ids of sent messages not yet acknowledged. */
    var acks: seq<int>
    /** The header strings passed to `send_header`, oldest first. */
    var outbox: seq<string>
    /** `received_messages_queue`: decoded payloads for the application. */
    var delivered: seq<seq<bv8>>
    /** `sending_queue`: messages for the application's connection. */
    var ipc: seq<string>
    var connectedNode: Option<string>
    var messageCounter: nat
    var ownRegistrationSeen: bool

    ghost predicate Valid()
      reads table
    {
      table.Valid()
    }

    function Cfg(): Config {
      Config(myAddress, table.availableNodes, table.processedTimeout, defaultTtl, ttlStartValue, parse, encode64, decode64)
    }

    ghost function State(): Node
      reads this, table
    {
      Node(table.routes, table.unsupported, table.processedRouteRequests, table.processedRegistrations,
           table.peers, table.receivedMessages, table.processedConnectRequests,
           acks, outbox, delivered, ipc, connectedNode, messageCounter, ownRegistrationSeen)
    }

    constructor(myAddress: string, nodes: set<string>, timeout: int, defaultTtl: int, ttlStartValue: int,
                parse: string -> Option<Frame>, encode64: seq<bv8> -> string, decode64: string -> Option<seq<bv8>>)
      ensures Valid() && fresh(table)
      ensures Cfg() == Config(myAddress, nodes, timeout, defaultTtl, ttlStartValue, parse, encode64, decode64)
      ensures State() == Node([], [], [], [], [], [], [], [], [], [], [], None, 0, false)
    {
      this.myAddress := myAddress;
      this.defaultTtl := defaultTtl;
      this.ttlStartValue := ttlStartValue;
      this.parse := parse;
      this.encode64 := encode64;
      this.decode64 := decode64;
      table := new RoutingTable(nodes, timeout);
      acks := [];
      outbox := [];
      delivered := [];
      ipc := [];
      connectedNode := None;
      messageCounter := 0;
      ownRegistrationSeen := false;
    }

    /** `send_header`, without the radio module's handshake. */
    method SendHeader(headerStr: string)
      modifies this
      ensures State() == old(State()).(outbox := old(outbox) + [headerStr])
    {
      outbox := outbox + [headerStr];
    }

    /** `send_route_reply`. */
    method SendRouteReply(nextNode: string, endNode: string)
      modifies this
      ensures State() == Send(old(State()), RouteReply(Codec.NO_SENDER, myAddress, defaultTtl, 0, endNode, nextNode))
    {
      SendHeader(Encode(RouteReply(Codec.NO_SENDER, myAddress, defaultTtl, 0, endNode, nextNode)));
    }

    /** `add_message_to_waiting_acknowledgement_list`. */
    method AddToAckList(id: int)
      modifies this
      ensures State() == old(State()).(acks := old(acks) + [id])
    {
      acks := acks + [id];
    }

    /** `delete_from_ack_list` with an integer id: one copy goes, an absent
        id is not an error. */
    method DeleteFromAckList(id: int)
      modifies this
      ensures State() == old(State()).(acks := RemoveIfPresent(old(acks), id))
    {
      if id in acks {
        acks := RemoveFirst(acks, id);
      }
    }

    /** `edit_message_acknowledgment_list`: the id of a received
        acknowledgement is text, read by `int()`. */
    method EditAckList(ackId: string)
      modifies this
      ensures State() == DropAck(old(State()), ackId)
    {
      var id := ParseInt(ackId);
      if id.Some? {
        DeleteFromAckList(id.value);
      }
    }

    method ProcessRouteRequest(f: Frame, now: int) returns (outcome: Outcome)
      requires Valid() && f.RouteRequest?
      modifies this, table
      ensures Valid()
      ensures Step(State(), outcome) == RouteRequestStep(Cfg(), old(State()), f, now)
    {
      if f.source == myAddress {
        return Completed;
      }
      if f.endNode == myAddress {
        table.AddRoute(f.source, f.receivedFrom, f.hops + 1);
        SendRouteReply(f.receivedFrom, f.source);
        return Completed;
      }
      var best := table.GetBestRoute(f.source);
      if best.Failure? {
        return Raised;
      }
      if best.value.None? {
        table.AddRoute(f.source, f.receivedFrom, f.hops);
      }
      ForwardRouteRequest(f, now);
      return Completed;
    }

    /** The relaying part of `process_route_request`. */
    method ForwardRouteRequest(f: Frame, now: int)
      requires Valid() && f.RouteRequest?
      modifies this, table
      ensures Valid()
      ensures State() == ForwardedRouteRequest(Cfg(), old(State()), f, now)
    {
      var seen := table.RouteRequestProcessed(f.endNode, now);
      if !seen {
        table.AddProcessedRouteRequest(f.endNode, now);
        SendHeader(Encode(RouteRequest(f.receivedFrom, f.source, f.ttl - 1, f.hops + 1, f.endNode)));
      }
    }

    method ProcessMessage(f: Frame) returns (outcome: Outcome)
      requires Valid() && f.Message?
      modifies this, table
      ensures Valid()
      ensures Step(State(), outcome) == MessageStep(Cfg(), old(State()), f)
    {
      if f.destination == myAddress && connectedNode == Some(f.source) {
        var ack := Ack(Codec.NO_SENDER, myAddress, ttlStartValue, f.source, IntToString(f.messageId));
        var seen := table.MessageAlreadyReceived(f.source, f.messageId);
        if seen {
          SendHeader(Encode(ack));
        } else {
          var bytes := decode64(f.payload);
          if bytes.None? {
            return Raised;
          }
          delivered := delivered + [bytes.value];
          SendHeader(Encode(ack));
        }
        return Completed;
      }
      if f.nextNode == myAddress && f.destination != myAddress {
        var best := table.GetBestRoute(f.destination);
        if best.Failure? {
          return Raised;
        }
        if best.value.Some? {
          SendHeader(Encode(Message(f.receivedFrom, f.source, f.ttl - 1, f.destination, best.value.value.nextNode,
                             f.messageId, f.payload)));
        }
      }
      return Completed;
    }

    method ProcessRouteReply(f: Frame) returns (outcome: Outcome)
      requires Valid() && f.RouteReply?
      modifies this, table
      ensures Valid()
      ensures Step(State(), outcome) == RouteReplyStep(Cfg(), old(State()), f)
    {
      if f.source == myAddress {
        return Completed;
      }
      if f.endNode == myAddress {
        table.AddRoute(f.source, f.receivedFrom, f.hops + 1);
        return Completed;
      }
      if f.nextNode == myAddress {
        var toSource := table.GetBestRoute(f.source);
        if toSource.Failure? {
          return Raised;
        }
        if toSource.value.Some? {
          table.AddRoute(f.source, f.receivedFrom, f.hops + 1);
          var toEnd := table.GetBestRoute(f.endNode);
          if toEnd.Failure? {
            return Raised;
          }
          if toEnd.value.None? {
            return Crashed;
          }
          SendHeader(Encode(RouteReply(f.receivedFrom, f.source, f.ttl - 1, f.hops + 1, f.endNode, toEnd.value.value.nextNode)));
        }
      }
      return Completed;
    }

    method ProcessRouteError(f: Frame) returns (outcome: Outcome)
      requires Valid() && f.RouteError?
      modifies this, table
      ensures Valid()
      ensures Step(State(), outcome) == RouteErrorStep(old(State()), f)
    {
      var destinations := table.GetDestinations();
      if f.brokenNode in destinations {
        table.DeleteAllEntriesOf(f.brokenNode);
      }
      SendHeader(Encode(RouteError(f.receivedFrom, f.source, f.ttl - 1, f.brokenNode)));
      return Completed;
    }

    method ProcessAck(f: Frame) returns (outcome: Outcome)
      requires f.Ack?
      modifies this
      ensures Step(State(), outcome) == AckStep(Cfg(), old(State()), f)
    {
      if f.destination == myAddress {
        EditAckList(f.ackId);
      } else {
        SendHeader(Encode(Ack(f.receivedFrom, f.source, f.ttl - 1, f.destination, f.ackId)));
      }
      return Completed;
    }

    /** A registration's effect on the peer list: subscribe or unsubscribe. */
    method RecordPeer(subscribe: bool, peerId: string, address: string)
      requires Valid()
      modifies table
      ensures Valid()
      ensures State() == if subscribe then AddPeerTo(old(State()), Peer(peerId, address))
                         else old(State()).(peers := WithoutPeer(old(table.peers), peerId, address))
    {
      if subscribe {
        table.AddPeer(peerId, address);
      } else {
        table.DeletePeer(peerId, address);
      }
    }

    method ProcessRegistration(f: Frame, now: int) returns (outcome: Outcome)
      requires Valid() && f.Registration?
      modifies this, table
      ensures Valid()
      ensures Step(State(), outcome) == RegistrationStep(Cfg(), old(State()), f, now)
    {
      if f.source != myAddress {
        RelayRegistration(f, now);
      } else {
        ownRegistrationSeen := true;
      }
      return Completed;
    }

    /** The branch of `process_registration_header` for another node's
        registration. */
    method RelayRegistration(f: Frame, now: int)
      requires Valid() && f.Registration?
      modifies this, table
      ensures Valid()
      ensures State() == RelayedRegistration(Cfg(), old(State()), f, now)
    {
      table.AddProcessedRegistration(f.source, now);
      RecordPeer(f.subscribe, f.peerId, f.source);
      SendHeader(Encode(Registration(f.receivedFrom, f.source, f.ttl - 1, f.subscribe, f.peerId)));
    }

    method ProcessConnectRequest(f: Frame) returns (outcome: Outcome)
      requires f.ConnectRequest?
      modifies this
      ensures Step(State(), outcome) == ConnectRequestStep(Cfg(), old(State()), f)
    {
      if f.receivedFrom != myAddress {
        if f.endNode == myAddress {
          connectedNode := Some(f.source);
          ipc := ipc + [ConnectRequestEvent(f.sourcePeerId, f.targetPeerId, f.timeout)];
        } else if f.nextNode == myAddress {
          var route := table.GetBestRoute(f.endNode);
          if route.Failure? {
            return Raised;
          }
          if route.value.Some? {
            SendHeader(Encode(ConnectRequest(f.receivedFrom, f.source, f.ttl - 1, f.endNode, route.value.value.nextNode,
                                      f.sourcePeerId, f.targetPeerId, f.timeout)));
          }
        }
      }
      return Completed;
    }

    method ProcessDisconnectRequest(f: Frame) returns (outcome: Outcome)
      requires f.DisconnectRequest?
      modifies this
      ensures Step(State(), outcome) == DisconnectRequestStep(Cfg(), old(State()), f)
    {
      if f.receivedFrom != myAddress {
        if f.endNode == myAddress {
          connectedNode := Some(f.source);
          ipc := ipc + [DisconnectRequestEvent(f.sourcePeerId, f.targetPeerId)];
        } else if f.nextNode == myAddress {
          var route := table.GetBestRoute(f.endNode);
          if route.Failure? {
            return Raised;
          }
          if route.value.Some? {
            SendHeader(Encode(DisconnectRequest(f.receivedFrom, f.source, f.ttl - 1, f.endNode, route.value.value.nextNode,
                                         f.sourcePeerId, f.targetPeerId)));
          }
        }
      }
      return Completed;
    }

    method MarkSenderUnsupported(raw: string)
      requires Valid()
      modifies table
      ensures Valid()
      ensures State() == MarkSender(old(State()), raw)
    {
      var sender := Codec.ReceivedFromValue(raw);
      if sender.Success? {
        table.MarkUnsupported(sender.value);
      }
    }

    /** One pass of `process_incoming_message`. */
    method ProcessIncomingMessage(raw: string, now: int) returns (outcome: Outcome)
      requires Valid()
      modifies this, table
      ensures Valid()
      ensures Step(State(), outcome) == ReceiveStep(Cfg(), old(State()), raw, now)
    {
      var parsed := parse(raw);
      if parsed.None? {
        MarkSenderUnsupported(raw);
        return Raised;
      }
      var f := parsed.value;
      if f.ttl <= 1 {
        return Completed;
      }
      table.AddNeighbor(f.receivedFrom);
      outcome := Dispatch(f, now);
      if outcome == Raised {
        MarkSenderUnsupported(raw);
      }
    }

    /** The choice of handler by the header's flag. */
    method Dispatch(f: Frame, now: int) returns (outcome: Outcome)
      requires Valid()
      modifies this, table
      ensures Valid()
      ensures Step(State(), outcome) == HandleStep(Cfg(), old(State()), f, now)
    {
      match f {
        case RouteRequest(_, _, _, _, _) => outcome := ProcessRouteRequest(f, now);
        case Message(_, _, _, _, _, _, _) => outcome := ProcessMessage(f);
        case RouteReply(_, _, _, _, _, _) => outcome := ProcessRouteReply(f);
        case RouteError(_, _, _, _) => outcome := ProcessRouteError(f);
        case Ack(_, _, _, _, _) => outcome := ProcessAck(f);
        case Registration(_, _, _, _, _) => outcome := ProcessRegistration(f, now);
        case ConnectRequest(_, _, _, _, _, _, _, _) => outcome := ProcessConnectRequest(f);
        case DisconnectRequest(_, _, _, _, _, _, _) => outcome := ProcessDisconnectRequest(f);
      }
    }

    /** The receive thread adding a route while the sender waits. */
    method Learn(e: Option<Route>)
      requires Valid()
      modifies table
      ensures Valid()
      ensures State() == Arrive(old(State()), e)
    {
      if e.Some? {
        table.AddRoute(e.value.destination, e.value.nextNode, e.value.hops);
      }
    }

    /** Poll `p` of the route search's wait `k`: learn what arrived, then
        look up the best route; `done` when the loop returns `r`. */
    method PollOnce(endNode: string, arrivals: seq<seq<Option<Route>>>, k: nat, p: nat) returns (done: bool, r: Result<bool, TableError>)
      requires Valid() && p < ROUTE_POLLS
      modifies table
      ensures Valid()
      ensures done ==> RoutePolls(Cfg(), old(State()), endNode, arrivals, k, p) == Attempt(State(), r)
      ensures !done ==> RoutePolls(Cfg(), old(State()), endNode, arrivals, k, p) == RoutePolls(Cfg(), State(), endNode, arrivals, k, p + 1)
    {
      Learn(EventAt(arrivals, k, p));
      var best := table.GetBestRoute(endNode);
      if best.Failure? {
        return true, Failure(best.error);
      }
      if best.value.Some? {
        return true, Success(true);
      }
      return false, Success(false);
    }

    /** The inner loop of `send_route_request_message`. */
    method PollRoute(endNode: string, arrivals: seq<seq<Option<Route>>>, k: nat) returns (r: Result<bool, TableError>)
      requires Valid()
      modifies table
      ensures Valid()
      ensures Attempt(State(), r) == RoutePolls(Cfg(), old(State()), endNode, arrivals, k, 0)
    {
      var polls: nat := 0;
      while polls < ROUTE_POLLS
        invariant polls <= ROUTE_POLLS && Valid()
        invariant RoutePolls(Cfg(), State(), endNode, arrivals, k, polls)
                  == RoutePolls(Cfg(), old(State()), endNode, arrivals, k, 0)
        decreases ROUTE_POLLS - polls
      {
        var done;
        done, r := PollOnce(endNode, arrivals, k, polls);
        if done {
          return;
        }
        polls := polls + 1;
      }
      return Success(false);
    }

    /** `send_route_request_message(end_node)`: the counter advances once
        after the polls and once more when no route was found. */
    method SendRouteRequest(endNode: string, arrivals: seq<seq<Option<Route>>>) returns (r: Result<bool, TableError>)
      requires Valid()
      modifies this, table
      ensures Valid()
      ensures Attempt(State(), r) == SearchRounds(Cfg(), old(State()), endNode, arrivals, 0)
    {
      var attempt: nat := 0;
      while attempt < ATTEMPTS
        invariant attempt <= ATTEMPTS + 1 && Valid()
        invariant SearchRounds(Cfg(), State(), endNode, arrivals, attempt)
                  == SearchRounds(Cfg(), old(State()), endNode, arrivals, 0)
        decreases ATTEMPTS + 1 - attempt
      {
        SendHeader(Encode(RouteRequestFor(Cfg(), endNode)));
        var found := PollRoute(endNode, arrivals, attempt);
        if found.Failure? {
          return found;
        }
        if found.value {
          return found;
        }
        attempt := attempt + 1;
        attempt := attempt + 1;
      }
      return Success(false);
    }

    /** The inner loop of `send_message`. */
    method PollAck(id: int, acked: seq<seq<bool>>, k: nat) returns (confirmed: bool)
      modifies this
      ensures State() == old(State()).(acks := AckPolls(old(acks), id, acked, k, 0).acks)
      ensures confirmed == AckPolls(old(acks), id, acked, k, 0).released
    {
      var polls: nat := 0;
      while polls < MESSAGE_POLLS
        invariant polls <= MESSAGE_POLLS
        invariant State() == old(State()).(acks := acks)
        invariant AckPolls(acks, id, acked, k, polls) == AckPolls(old(acks), id, acked, k, 0)
        decreases MESSAGE_POLLS - polls
      {
        if Happened(acked, k, polls) {
          DeleteFromAckList(id);
        }
        if id !in acks {
          return true;
        }
        polls := polls + 1;
      }
      return false;
    }

    /** One round of the acknowledgement wait: a transmission of the
        message's header string and the polls that follow it. */
    method TransmitOnce(headerStr: string, id: int, acked: seq<seq<bool>>, k: nat) returns (confirmed: bool)
      requires k < ATTEMPTS
      modifies this
      ensures confirmed ==> AckRounds(old(State()), headerStr, id, acked, k) == Attempt(State(), true)
      ensures !confirmed ==> AckRounds(old(State()), headerStr, id, acked, k) == AckRounds(State(), headerStr, id, acked, k + 1)
    {
      ghost var before := State();
      SendHeader(headerStr);
      confirmed := PollAck(id, acked, k);
      AckRoundsStep(before, headerStr, id, acked, k, AckPolls(before.acks, id, acked, k, 0));
    }

    /** The outer retry loop of `send_message`. */
    method AwaitAck(headerStr: string, id: int, acked: seq<seq<bool>>) returns (confirmed: bool)
      modifies this
      ensures Attempt(State(), confirmed) == AckRounds(old(State()), headerStr, id, acked, 0)
    {
      var attempt: nat := 0;
      while attempt < ATTEMPTS
        invariant AckRounds(old(State()), headerStr, id, acked, 0) == AckRounds(State(), headerStr, id, acked, attempt)
        decreases ATTEMPTS - attempt
      {
        confirmed := TransmitOnce(headerStr, id, acked, attempt);
        attempt := attempt + 1;
        if confirmed {
          return;
        }
      }
      return false;
    }

    /** `send_message(payload)` to the connected node. */
    method SendMessage(payload: seq<bv8>, arrivals: seq<seq<Option<Route>>>, acked: seq<seq<bool>>)
      returns (r: Result<Delivery, TableError>)
      requires Valid()
      modifies this, table
      ensures Valid()
      ensures Attempt(State(), r) == SendMessageSpec(Cfg(), old(State()), payload, old(messageCounter) + 1, arrivals, acked)
    {
      r := SendNumbered(payload, messageCounter + 1, arrivals, acked);
    }

    /** `send_message(payload)`, where `id` is the number the message will
        get. */
    method SendNumbered(payload: seq<bv8>, id: nat, arrivals: seq<seq<Option<Route>>>, acked: seq<seq<bool>>)
      returns (r: Result<Delivery, TableError>)
      requires Valid() && id == messageCounter + 1
      modifies this, table
      ensures Valid()
      ensures Attempt(State(), r) == SendMessageSpec(Cfg(), old(State()), payload, id, arrivals, acked)
    {
      if connectedNode.None? {
        return Success(NotConnected);
      }
      var destination := connectedNode.value;
      var best := table.GetBestRoute(destination);
      if best.Failure? {
        return Failure(best.error);
      }
      if best.value.None? {
        ghost var before := State();
        var found := SendRouteRequest(destination, arrivals);
        SearchRoundsFound(Cfg(), before, destination, arrivals, 0);
        SearchKeepsCounter(Cfg(), before, destination, arrivals, 0);
        if found != Success(true) {
          return Success(NoRoute);
        }
        best := table.GetBestRoute(destination);
      }
      var delivery := Transmit(destination, best.value.value.nextNode, payload, id, acked);
      return Success(delivery);
    }

    /** `send_message` from the numbering of the message on. */
    method Transmit(destination: string, nextNode: string, payload: seq<bv8>, id: nat, acked: seq<seq<bool>>)
      returns (delivery: Delivery)
      requires Valid() && id == messageCounter + 1
      modifies this, table
      ensures Valid()
      ensures Attempt(State(), delivery)
              == TransmitSpec(Cfg(), old(State()), destination, MessageFor(Cfg(), destination, nextNode, id, payload), id, acked)
    {
      messageCounter := id;
      var h := MessageFor(Cfg(), destination, nextNode, id, payload);
      AddToAckList(id);
      var confirmed := AwaitAck(Encode(h), id, acked);
      if confirmed {
        return Acknowledged;
      }
      AbandonMessage(destination, id);
      return NotAcknowledged;
    }

    method AbandonMessage(destination: string, id: int)
      requires Valid()
      modifies this, table
      ensures Valid()
      ensures State() == GiveUp(Cfg(), old(State()), destination, id)
    {
      table.DeleteAllEntriesOf(destination);
      DeleteFromAckList(id);
      SendHeader(Encode(RouteError(Codec.NO_SENDER, myAddress, defaultTtl, destination)));
    }

    /** The inner loop of `send_registration_message`. */
    method PollLoopback(looped: seq<seq<bool>>, k: nat) returns (seen: bool)
      modifies this
      ensures State() == old(State()).(ownRegistrationSeen := old(ownRegistrationSeen) || seen)
      ensures seen == LoopbackPolls(old(ownRegistrationSeen), looped, k, 0)
    {
      var polls: nat := 0;
      while polls < REGISTRATION_POLLS
        invariant polls <= REGISTRATION_POLLS
        invariant State() == old(State()).(ownRegistrationSeen := ownRegistrationSeen)
        invariant polls == 0 ==> ownRegistrationSeen == old(ownRegistrationSeen)
        invariant polls > 0 ==> !ownRegistrationSeen && !old(ownRegistrationSeen)
        invariant LoopbackPolls(ownRegistrationSeen, looped, k, polls) == LoopbackPolls(old(ownRegistrationSeen), looped, k, 0)
        decreases REGISTRATION_POLLS - polls
      {
        if Happened(looped, k, polls) {
          ownRegistrationSeen := true;
        }
        if ownRegistrationSeen {
          return true;
        }
        polls := polls + 1;
      }
      return false;
    }

    /** One round of the registration wait: a broadcast of the header
        string and the polls that follow it. */
    method BroadcastOnce(headerStr: string, looped: seq<seq<bool>>, k: nat) returns (seen: bool)
      requires k < ATTEMPTS
      modifies this
      ensures seen ==> RegistrationRounds(old(State()), headerStr, looped, k) == State()
      ensures !seen ==> RegistrationRounds(old(State()), headerStr, looped, k) == RegistrationRounds(State(), headerStr, looped, k + 1)
    {
      ghost var before := State();
      SendHeader(headerStr);
      seen := PollLoopback(looped, k);
      RegistrationRoundsStep(before, headerStr, looped, k, seen);
    }

    /** The outer loop of `send_registration_message`. */
    method AwaitLoopback(headerStr: string, looped: seq<seq<bool>>)
      modifies this
      ensures State() == RegistrationRounds(old(State()), headerStr, looped, 0)
    {
      var attempt: nat := 0;
      while attempt < ATTEMPTS
        invariant RegistrationRounds(State(), headerStr, looped, attempt) == RegistrationRounds(old(State()), headerStr, looped, 0)
        decreases ATTEMPTS - attempt
      {
        var seen := BroadcastOnce(headerStr, looped, attempt);
        attempt := attempt + 1;
        if seen {
          return;
        }
      }
    }

    /** `send_registration_message(subscribe, peer_id)`. */
    method SendRegistration(subscribe: bool, peerId: string, looped: seq<seq<bool>>)
      requires Valid()
      modifies this, table
      ensures Valid()
      ensures State() == SendRegistrationSpec(Cfg(), old(State()), subscribe, peerId, looped)
    {
      RecordPeer(subscribe, peerId, myAddress);
      ownRegistrationSeen := false;
      AwaitLoopback(Encode(RegistrationFor(Cfg(), subscribe, peerId)), looped);
    }

    /** `check_peers`. */
    method CheckPeers(sourcePeerId: string, targetPeerId: string) returns (problem: Option<RequestError>)
      ensures problem == PeersProblem(Cfg(), State(), sourcePeerId, targetPeerId)
    {
      var sourceKnown := table.IsRegistered(sourcePeerId);
      if !sourceKnown {
        return Some(SourceNotRegistered(sourcePeerId));
      }
      var targetKnown := table.IsRegistered(targetPeerId);
      if !targetKnown {
        return Some(TargetNotRegistered(targetPeerId));
      }
      var at := table.GetAddressOfPeer(sourcePeerId);
      if at != Some(myAddress) {
        return Some(SourceElsewhere(sourcePeerId));
      }
      return None;
    }

    /** The common tail of the two peer-request senders. */
    method SendTowards(q: PeerRequest, endNode: string, arrivals: seq<seq<Option<Route>>>) returns (r: Result<(), RequestError>)
      requires Valid()
      modifies this, table
      ensures Valid()
      ensures Attempt(State(), r) == RequestTowards(Cfg(), old(State()), q, endNode, arrivals)
    {
      var route := table.GetBestRoute(endNode);
      if route.Failure? {
        return Failure(Table(route.error));
      }
      if route.value.None? {
        ghost var before := State();
        var found := SendRouteRequest(endNode, arrivals);
        SearchRoundsFound(Cfg(), before, endNode, arrivals, 0);
        if found != Success(true) {
          return Success(());
        }
        route := table.GetBestRoute(endNode);
      }
      SendHeader(Encode(RequestFrame(Cfg(), q, endNode, route.value.value.nextNode)));
      return Success(());
    }

    /** `send_connect_request_header(source_peer_id, target_peer_id, timeout_in_sec)`. */
    method SendConnectRequest(sourcePeerId: string, targetPeerId: string, timeout: string, now: int,
                              arrivals: seq<seq<Option<Route>>>) returns (r: Result<(), RequestError>)
      requires Valid()
      modifies this, table
      ensures Valid()
      ensures Attempt(State(), r)
              == PeerRequestSpec(Cfg(), old(State()), Connect(sourcePeerId, targetPeerId, timeout), now, arrivals)
    {
      var problem := CheckPeers(sourcePeerId, targetPeerId);
      if problem.Some? {
        return Failure(problem.value);
      }
      var seen := table.ConnectRequestSeen(sourcePeerId, targetPeerId, now);
      if seen {
        return Success(());
      }
      table.AddConnectRequest(sourcePeerId, targetPeerId, now);
      var endNode := table.GetAddressOfPeer(targetPeerId);
      r := SendTowards(Connect(sourcePeerId, targetPeerId, timeout), endNode.value, arrivals);
    }

    /** `send_disconnect_request_header(source_peer_id, target_peer_id)`. */
    method SendDisconnectRequest(sourcePeerId: string, targetPeerId: string, arrivals: seq<seq<Option<Route>>>)
      returns (r: Result<(), RequestError>)
      requires Valid()
      modifies this, table
      ensures Valid()
      ensures Attempt(State(), r)
              == PeerRequestSpec(Cfg(), old(State()), Disconnect(sourcePeerId, targetPeerId), 0, arrivals)
    {
      var problem := CheckPeers(sourcePeerId, targetPeerId);
      if problem.Some? {
        return Failure(problem.value);
      }
      var endNode := table.GetAddressOfPeer(targetPeerId);
      r := SendTowards(Disconnect(sourcePeerId, targetPeerId), endNode.value, arrivals);
    }
  }

  // ---------------------------------------------------------------------------
  // Properties of the receive loop

  /** `m` is `n` with at most one more header sent. */
  predicate AtMostOneSent(n: Node, m: Node) {
    |n.outbox| <= |m.outbox| <= |n.outbox| + 1 && m.outbox[..|n.outbox|] == n.outbox
  }

  lemma RouteRequestBounds(c: Config, n: Node, f: Frame, now: int)
    requires f.RouteRequest?
    ensures var s := RouteRequestStep(c, n, f, now);
            AtMostOneSent(n, s.node) && s.node.acks == n.acks && s.node.messageCounter == n.messageCounter
    ensures forall r :: r in n.routes ==> r in RouteRequestStep(c, n, f, now).node.routes
  {
  }

  lemma MessageBounds(c: Config, n: Node, f: Frame)
    requires f.Message?
    ensures var s := MessageStep(c, n, f);
            AtMostOneSent(n, s.node) && s.node.acks == n.acks && s.node.messageCounter == n.messageCounter
    ensures forall r :: r in n.routes ==> r in MessageStep(c, n, f).node.routes
  {
  }

  lemma RouteReplyBounds(c: Config, n: Node, f: Frame)
    requires f.RouteReply?
    ensures var s := RouteReplyStep(c, n, f);
            AtMostOneSent(n, s.node) && s.node.acks == n.acks && s.node.messageCounter == n.messageCounter
    ensures forall r :: r in n.routes ==> r in RouteReplyStep(c, n, f).node.routes
  {
  }

  lemma RouteErrorBounds(n: Node, f: Frame)
    requires f.RouteError?
    ensures var s := RouteErrorStep(n, f);
            AtMostOneSent(n, s.node) && s.node.acks == n.acks && s.node.messageCounter == n.messageCounter
  {
  }

  lemma RegistrationBounds(c: Config, n: Node, f: Frame, now: int)
    requires f.Registration?
    ensures var s := RegistrationStep(c, n, f, now);
            AtMostOneSent(n, s.node) && s.node.acks == n.acks && s.node.messageCounter == n.messageCounter
    ensures forall r :: r in n.routes ==> r in RegistrationStep(c, n, f, now).node.routes
  {
  }

  lemma ConnectRequestBounds(c: Config, n: Node, f: Frame)
    requires f.ConnectRequest?
    ensures var s := ConnectRequestStep(c, n, f);
            AtMostOneSent(n, s.node) && s.node.acks == n.acks && s.node.messageCounter == n.messageCounter
    ensures forall r :: r in n.routes ==> r in ConnectRequestStep(c, n, f).node.routes
  {
  }

  lemma DisconnectRequestBounds(c: Config, n: Node, f: Frame)
    requires f.DisconnectRequest?
    ensures var s := DisconnectRequestStep(c, n, f);
            AtMostOneSent(n, s.node) && s.node.acks == n.acks && s.node.messageCounter == n.messageCounter
    ensures forall r :: r in n.routes ==> r in DisconnectRequestStep(c, n, f).node.routes
  {
  }

  lemma AckBounds(c: Config, n: Node, f: Frame)
    requires f.Ack?
    ensures var s := AckStep(c, n, f);
            AtMostOneSent(n, s.node) && multiset(s.node.acks) <= multiset(n.acks) && s.node.messageCounter == n.messageCounter
    ensures AckStep(c, n, f).node.routes == n.routes
  {
    if f.destination == c.myAddress {
      match ParseInt(f.ackId)
      case None =>
      case Some(i) => RemoveIfPresentMultiset(n.acks, i);
    }
  }

  /** Every handler sends at most one header and only appends to the record
      of sent headers; none numbers a message or starts awaiting an id, and
      only an acknowledgement stops awaiting one. */
  lemma HandleBounds(c: Config, n: Node, f: Frame, now: int)
    ensures var s := HandleStep(c, n, f, now);
            && AtMostOneSent(n, s.node)
            && s.node.messageCounter == n.messageCounter
            && multiset(s.node.acks) <= multiset(n.acks)
            && (!f.Ack? ==> s.node.acks == n.acks)
            && (!f.RouteError? ==> forall r :: r in n.routes ==> r in s.node.routes)
  {
    match f
    case RouteRequest(_, _, _, _, _) => RouteRequestBounds(c, n, f, now);
    case Message(_, _, _, _, _, _, _) => MessageBounds(c, n, f);
    case RouteReply(_, _, _, _, _, _) => RouteReplyBounds(c, n, f);
    case RouteError(_, _, _, _) => RouteErrorBounds(n, f);
    case Ack(_, _, _, _, _) => AckBounds(c, n, f);
    case Registration(_, _, _, _, _) => RegistrationBounds(c, n, f, now);
    case ConnectRequest(_, _, _, _, _, _, _, _) => ConnectRequestBounds(c, n, f);
    case DisconnectRequest(_, _, _, _, _, _, _) => DisconnectRequestBounds(c, n, f);
  }

  /** The `except ValueError` branch changes only the list of unsupported
      nodes, which keeps its members and gains the recovered transmitter. */
  lemma MarkSenderSpec(n: Node, raw: string)
    ensures var m := MarkSender(n, raw);
            && m == n.(unsupported := m.unsupported)
            && (forall a :: a in n.unsupported ==> a in m.unsupported)
            && (Codec.ReceivedFromValue(raw).Success? ==> Codec.ReceivedFromValue(raw).value in m.unsupported)
            && (Codec.ReceivedFromValue(raw).Failure? ==> m == n)
  {
  }

  /** A header worth handling goes to its handler after its transmitter
      became a one-hop route; a `ValueError` there marks the transmitter. */
  lemma ReceiveHandles(c: Config, n: Node, raw: string, now: int)
    requires c.parse(raw).Some? && c.parse(raw).value.ttl > 1
    ensures var f := c.parse(raw).value;
            var h := HandleStep(c, AddRouteTo(n, Route(f.receivedFrom, f.receivedFrom, 1)), f, now);
            var s := ReceiveStep(c, n, raw, now);
            && s.outcome == h.outcome
            && s.node == (if h.outcome == Raised then MarkSender(h.node, raw) else h.node)
  {
  }

  /** What one pass of the receive loop does, whatever the line:
      - a line the header module rejects changes nothing but the list of
        unsupported nodes, where its transmitter (if recoverable) ends up;
      - a header with a time-to-live of at most one changes nothing;
      - otherwise the transmitter is a one-hop route afterwards, unless the
        header is a route error, and a `ValueError` leaves the recovered
        transmitter listed as a node of another protocol;
      - at most one header is sent. */
  lemma ReceiveEffects(c: Config, n: Node, raw: string, now: int)
    ensures AtMostOneSent(n, ReceiveStep(c, n, raw, now).node)
    ensures var s := ReceiveStep(c, n, raw, now);
            c.parse(raw).None? ==>
              && s.outcome == Raised
              && s.node == n.(unsupported := s.node.unsupported)
              && (forall a :: a in n.unsupported ==> a in s.node.unsupported)
              && (Codec.ReceivedFromValue(raw).Failure? ==> s.node == n)
    ensures var s := ReceiveStep(c, n, raw, now);
            s.outcome == Raised && Codec.ReceivedFromValue(raw).Success? ==>
              Codec.ReceivedFromValue(raw).value in s.node.unsupported
    ensures var s := ReceiveStep(c, n, raw, now);
            c.parse(raw).Some? && c.parse(raw).value.ttl <= 1 ==> s == Step(n, Completed)
    ensures var s := ReceiveStep(c, n, raw, now);
            c.parse(raw).Some? && c.parse(raw).value.ttl > 1 && !c.parse(raw).value.RouteError? ==>
              var f := c.parse(raw).value;
              Route(f.receivedFrom, f.receivedFrom, 1) in s.node.routes
  {
    MarkSenderSpec(n, raw);
    match c.parse(raw)
    case None =>
    case Some(f) =>
      if f.ttl > 1 {
        var neighbour := Route(f.receivedFrom, f.receivedFrom, 1);
        var n0 := AddRouteTo(n, neighbour);
        assert neighbour in n0.routes;
        ReceiveHandles(c, n, raw, now);
        HandleBounds(c, n0, f, now);
        MarkSenderSpec(HandleStep(c, n0, f, now).node, raw);
      }
  }

  /** The only way a line stops the receive thread: a route reply routed
      through this node, whose source is reachable and whose end node is a
      configured node this node has no route to. */
  lemma CrashOnlyOnRouteReply(c: Config, n: Node, raw: string, now: int)
    ensures var s := ReceiveStep(c, n, raw, now);
            s.outcome == Crashed ==>
              && c.parse(raw).Some?
              && var f := c.parse(raw).value;
                 && f.RouteReply? && f.ttl > 1
                 && f.source != c.myAddress && f.endNode != c.myAddress && f.nextNode == c.myAddress
                 && f.source in c.nodes && f.endNode in c.nodes
                 && BestRoute(s.node.routes, f.endNode).None?
  {
  }

  /** A route request this node neither sent nor is asked for, from a
      configured node: the kind that is considered for forwarding. */
  predicate Relayed(c: Config, f: Frame) {
    f.RouteRequest? && f.source != c.myAddress && f.endNode != c.myAddress && f.source in c.nodes
  }

  /** A route request for this node is answered with one route reply to its
      source, by way of the node it came from, and that node becomes the
      route back. */
  lemma RouteRequestForMe(c: Config, n: Node, f: Frame, now: int)
    requires f.RouteRequest? && f.source != c.myAddress && f.endNode == c.myAddress
    ensures var s := RouteRequestStep(c, n, f, now);
            && s.outcome == Completed
            && Route(f.source, f.receivedFrom, f.hops + 1) in s.node.routes
            && s.node.outbox == n.outbox + [Encode(RouteReply(Codec.NO_SENDER, c.myAddress, c.defaultTtl, 0, f.source, f.receivedFrom))]
            && s.node.processedRouteRequests == n.processedRouteRequests
  {
  }

  /** A relayed request for an end node not processed within the timeout
      is forwarded, with one hop more and one time-to-live less, and its end
      node is stamped with `now`. */
  lemma RouteRequestForwarded(c: Config, n: Node, f: Frame, now: int)
    requires Relayed(c, f) && !Processed(n.processedRouteRequests, f.endNode, now, c.timeout)
    ensures var s := RouteRequestStep(c, n, f, now);
            && s.outcome == Completed
            && s.node.outbox == n.outbox + [Encode(RouteRequest(f.receivedFrom, f.source, f.ttl - 1, f.hops + 1, f.endNode))]
            && s.node.processedRouteRequests == AddedStamp(n.processedRouteRequests, f.endNode, now, c.timeout)
  {
  }

  /** The first request for an end node is forwarded once; a repeat within
      the timeout is dropped. */
  lemma RouteRequestForwardedOnce(c: Config, n: Node, f1: Frame, f2: Frame, now: int, later: int)
    requires Relayed(c, f1) && Relayed(c, f2) && f1.endNode == f2.endNode
    requires DistinctAddresses(n.processedRouteRequests)
    requires !Processed(n.processedRouteRequests, f1.endNode, now, c.timeout)
    requires now <= later < now + c.timeout
    ensures var s1 := RouteRequestStep(c, n, f1, now);
            && s1.outcome == Completed
            && s1.node.outbox == n.outbox + [Encode(RouteRequest(f1.receivedFrom, f1.source, f1.ttl - 1, f1.hops + 1, f1.endNode))]
            && var s2 := RouteRequestStep(c, s1.node, f2, later);
               s2.outcome == Completed && s2.node.outbox == s1.node.outbox
  {
    var e := f1.endNode;
    RouteRequestForwarded(c, n, f1, now);
    var stamps := AddedStamp(n.processedRouteRequests, e, now, c.timeout);
    AddedStampSpec(n.processedRouteRequests, e, now, c.timeout);
    ProcessedSpec(stamps, e, later, c.timeout);
    assert Stamp(e, now) in stamps;
  }

  /** Unlike in the older engine, an expired entry is replaced: a repeat
      arriving after the timeout is forwarded again and nothing fails. */
  lemma RouteRequestForwardedAgain(c: Config, n: Node, f1: Frame, f2: Frame, now: int, later: int)
    requires Relayed(c, f1) && Relayed(c, f2) && f1.endNode == f2.endNode
    requires DistinctAddresses(n.processedRouteRequests)
    requires !Processed(n.processedRouteRequests, f1.endNode, now, c.timeout)
    requires later >= now + c.timeout
    ensures var s1 := RouteRequestStep(c, n, f1, now);
            var s2 := RouteRequestStep(c, s1.node, f2, later);
            && s2.outcome == Completed
            && s2.node.outbox == s1.node.outbox + [Encode(RouteRequest(f2.receivedFrom, f2.source, f2.ttl - 1, f2.hops + 1, f2.endNode))]
  {
    var e := f1.endNode;
    RouteRequestForwarded(c, n, f1, now);
    var m := RouteRequestStep(c, n, f1, now).node;
    var stamps := AddedStamp(n.processedRouteRequests, e, now, c.timeout);
    AddedStampSpec(n.processedRouteRequests, e, now, c.timeout);
    ProcessedSpec(n.processedRouteRequests, e, now, c.timeout);
    ProcessedSpec(stamps, e, later, c.timeout);
    forall st | st in stamps && st.address == e
      ensures later - st.time >= c.timeout
    {
      assert !(st in n.processedRouteRequests && now - st.time < c.timeout);
    }
    assert !Processed(m.processedRouteRequests, e, later, c.timeout);
    RouteRequestForwarded(c, m, f2, later);
  }

  /** A message for this node from the connected node is acknowledged to its
      source with an id `int()` reads back as the message's id; its payload
      is delivered, decoded, unless the message was received before, and a
      payload that is not base64 is a `ValueError` that changes nothing. */
  lemma MessageForMe(c: Config, n: Node, f: Frame)
    requires f.Message? && f.destination == c.myAddress && n.connectedNode == Some(f.source)
    ensures ParseInt(AckFor(c, f).ackId) == Some(f.messageId) && AckFor(c, f).destination == f.source
    ensures var s := MessageStep(c, n, f);
            ReceivedMessage(f.source, f.messageId) in n.receivedMessages ==>
              s == Step(n.(outbox := n.outbox + [Encode(AckFor(c, f))]), Completed)
    ensures var s := MessageStep(c, n, f);
            ReceivedMessage(f.source, f.messageId) !in n.receivedMessages && c.decode64(f.payload).None? ==>
              s == Step(n, Raised)
    ensures var s := MessageStep(c, n, f);
            ReceivedMessage(f.source, f.messageId) !in n.receivedMessages && c.decode64(f.payload).Some? ==>
              && s.outcome == Completed
              && s.node.delivered == n.delivered + [c.decode64(f.payload).value]
              && s.node.outbox == n.outbox + [Encode(AckFor(c, f))]
              && s.node == n.(delivered := s.node.delivered, outbox := s.node.outbox)
  {
    ParseIntToString(f.messageId);
  }

  /** A message is neither delivered nor acknowledged unless it comes from
      the connected node; one that is not for this node and not routed
      through it is ignored. */
  lemma MessageIgnored(c: Config, n: Node, f: Frame)
    requires f.Message?
    requires f.destination == c.myAddress ==> n.connectedNode != Some(f.source)
    ensures var s := MessageStep(c, n, f);
            s.node.delivered == n.delivered &&
            (!(f.nextNode == c.myAddress && f.destination != c.myAddress) ==> s == Step(n, Completed))
  {
  }

  /** A message routed through this node travels on once along the best
      route, one time-to-live less; with no route nothing is sent, and an
      unconfigured destination is a `ValueError`. */
  lemma MessageForwarded(c: Config, n: Node, f: Frame)
    requires f.Message? && f.nextNode == c.myAddress && f.destination != c.myAddress
    ensures var s := MessageStep(c, n, f);
            f.destination !in c.nodes ==> s == Step(n, Raised)
    ensures var s := MessageStep(c, n, f);
            f.destination in c.nodes && BestRoute(n.routes, f.destination).None? ==> s == Step(n, Completed)
    ensures var s := MessageStep(c, n, f);
            f.destination in c.nodes && BestRoute(n.routes, f.destination).Some? ==>
              var r := BestRoute(n.routes, f.destination).value;
              && r in n.routes && r.destination == f.destination
              && (forall q :: q in n.routes && q.destination == f.destination ==> r.hops <= q.hops)
              && s == Step(n.(outbox := n.outbox + [Encode(Message(f.receivedFrom, f.source, f.ttl - 1, f.destination,
                                                                    r.nextNode, f.messageId, f.payload))]), Completed)
  {
    BestRouteIsShortest(n.routes, f.destination);
  }

  /** End to end: a message from `a` that `b` delivers makes `b` send an
      acknowledgement which, back at `a`, ends the wait for exactly one copy
      of the message's id and is not passed on. */
  lemma AcknowledgementRoundTrip(a: Config, b: Config, na: Node, nb: Node, m: Frame, receivedFrom: string, now: int)
    requires m.Message? && m.source == a.myAddress && m.destination == b.myAddress
    requires nb.connectedNode == Some(a.myAddress) && b.decode64(m.payload).Some?
    requires ReceivedMessage(m.source, m.messageId) !in nb.receivedMessages
    ensures var sb := MessageStep(b, nb, m);
            var ack := AckFor(b, m);
            && sb.node.outbox == nb.outbox + [Encode(ack)]
            && var sa := AckStep(a, na, Ack(receivedFrom, ack.source, ack.ttl, ack.destination, ack.ackId));
               && sa.outcome == Completed && sa.node.outbox == na.outbox
               && multiset(sa.node.acks) == multiset(na.acks) - multiset{m.messageId as int}
  {
    MessageForMe(b, nb, m);
    RemoveIfPresentMultiset(na.acks, m.messageId as int);
  }

  /** An acknowledgement for this node ends the wait for one copy of the id
      it carries, if `int()` reads one, and is not passed on; any other is
      passed on once, one time-to-live less, and changes nothing else. */
  lemma AckHandling(c: Config, n: Node, f: Frame)
    requires f.Ack?
    ensures var s := AckStep(c, n, f);
            f.destination == c.myAddress ==>
              && s.outcome == Completed && s.node == n.(acks := s.node.acks)
              && (ParseInt(f.ackId).None? ==> s.node.acks == n.acks)
              && (ParseInt(f.ackId).Some? ==>
                    multiset(s.node.acks) == multiset(n.acks) - multiset{ParseInt(f.ackId).value})
    ensures var s := AckStep(c, n, f);
            f.destination != c.myAddress ==>
              s == Step(n.(outbox := n.outbox + [Encode(Ack(f.receivedFrom, f.source, f.ttl - 1, f.destination, f.ackId))]), Completed)
  {
    if f.destination == c.myAddress {
      DropAckSpec(n, f.ackId);
    }
  }

  /** Dropping an id read from text removes one copy of it when `int()`
      reads one, and changes nothing else. */
  lemma DropAckSpec(n: Node, ackId: string)
    ensures DropAck(n, ackId) == n.(acks := DropAck(n, ackId).acks)
    ensures ParseInt(ackId).None? ==> DropAck(n, ackId).acks == n.acks
    ensures ParseInt(ackId).Some? ==>
              multiset(DropAck(n, ackId).acks) == multiset(n.acks) - multiset{ParseInt(ackId).value}
  {
    match ParseInt(ackId)
    case None =>
    case Some(i) => RemoveIfPresentMultiset(n.acks, i);
  }

  /** A route error for a known destination leaves no route to or through
      the broken node; one for an unknown destination leaves the routes as
      they were, even those through it; either way it travels on once. */
  lemma RouteErrorHandling(c: Config, n: Node, f: Frame)
    requires f.RouteError?
    ensures var s := RouteErrorStep(n, f);
            && s.outcome == Completed
            && s.node.outbox == n.outbox + [Encode(RouteError(f.receivedFrom, f.source, f.ttl - 1, f.brokenNode))]
            && s.node == n.(routes := s.node.routes, outbox := s.node.outbox)
            && (f.brokenNode !in Destinations(n.routes) ==> s.node.routes == n.routes)
            && (f.brokenNode in Destinations(n.routes) ==>
                  forall r :: r in s.node.routes <==> r in n.routes && r.destination != f.brokenNode && r.nextNode != f.brokenNode)
  {
    if f.brokenNode in Destinations(n.routes) {
      forall r | true
        ensures r in WithoutNode(n.routes, f.brokenNode) <==> r in n.routes && r.destination != f.brokenNode && r.nextNode != f.brokenNode
      {
        WithoutNodeSpec(n.routes, f.brokenNode, r);
      }
    }
  }

  /** A registration from another node records its peer at that node (or
      drops every entry of the peer id or of that node), stamps the node and
      travels on once; the node's own registration only raises the flag the
      sender waits for. */
  lemma RegistrationHandling(c: Config, n: Node, f: Frame, now: int)
    requires f.Registration?
    ensures var s := RegistrationStep(c, n, f, now);
            f.source == c.myAddress ==> s == Step(n.(ownRegistrationSeen := true), Completed)
    ensures var s := RegistrationStep(c, n, f, now);
            f.source != c.myAddress ==>
              && s.outcome == Completed
              && s.node.outbox == n.outbox + [Encode(Registration(f.receivedFrom, f.source, f.ttl - 1, f.subscribe, f.peerId))]
              && s.node.processedRegistrations == AddedStamp(n.processedRegistrations, f.source, now, c.timeout)
              && (f.subscribe ==> Peer(f.peerId, f.source) in s.node.peers
                                  && forall p :: p in n.peers ==> p in s.node.peers)
              && (!f.subscribe ==> forall p :: p in s.node.peers <==> p in n.peers && p.peerId != f.peerId && p.address != f.source)
  {
    if f.source != c.myAddress && !f.subscribe {
      forall p | true
        ensures p in WithoutPeer(n.peers, f.peerId, f.source) <==> p in n.peers && p.peerId != f.peerId && p.address != f.source
      {
        WithoutPeerSpec(n.peers, f.peerId, f.source, p);
      }
    }
  }

  /** A peer subscribed and then unsubscribed from another node leaves no peer
      behind, after one rebroadcast each. */
  lemma SubscribeThenUnsubscribe(c: Config, n: Node, rf: string, source: string, ttl: int, peerId: string, now: int, later: int)
    requires n.peers == [] && source != c.myAddress
    ensures var s1 := RegistrationStep(c, n, Registration(rf, source, ttl, true, peerId), now);
            var s2 := RegistrationStep(c, s1.node, Registration(rf, source, ttl, false, peerId), later);
            s2.node.peers == [] && |s2.node.outbox| == |n.outbox| + 2
  {
    var s1 := RegistrationStep(c, n, Registration(rf, source, ttl, true, peerId), now);
    assert s1.node.peers == [Peer(peerId, source)];
    var s2 := RegistrationStep(c, s1.node, Registration(rf, source, ttl, false, peerId), later);
    WithoutPeerSpec(s1.node.peers, peerId, source, Peer(peerId, source));
    assert s2.node.peers == WithoutPeer([Peer(peerId, source)], peerId, source);
  }

  /** A connect or disconnect request addressed to this node makes its source
      the connected node and tells the local application; one routed
      through this node travels on once along the best route to its end
      node; one this node transmitted itself is ignored. As written, a
      disconnect request also makes its source the connected node. */
  lemma PeerRequestHandling(c: Config, n: Node, f: Frame)
    requires f.ConnectRequest? || f.DisconnectRequest?
    ensures var s := if f.ConnectRequest? then ConnectRequestStep(c, n, f) else DisconnectRequestStep(c, n, f);
            f.receivedFrom == c.myAddress ==> s == Step(n, Completed)
    ensures var s := if f.ConnectRequest? then ConnectRequestStep(c, n, f) else DisconnectRequestStep(c, n, f);
            f.receivedFrom != c.myAddress && f.endNode == c.myAddress ==>
              && s.outcome == Completed
              && s.node == n.(connectedNode := Some(f.source), ipc := s.node.ipc)
              && s.node.ipc == n.ipc + [if f.ConnectRequest? then ConnectRequestEvent(f.sourcePeerId, f.targetPeerId, f.timeout)
                                        else DisconnectRequestEvent(f.sourcePeerId, f.targetPeerId)]
    ensures var s := if f.ConnectRequest? then ConnectRequestStep(c, n, f) else DisconnectRequestStep(c, n, f);
            f.receivedFrom != c.myAddress && f.endNode != c.myAddress && f.nextNode == c.myAddress ==>
              && s.node.ipc == n.ipc && s.node.connectedNode == n.connectedNode
              && (f.endNode !in c.nodes ==> s == Step(n, Raised))
              && (f.endNode in c.nodes && BestRoute(n.routes, f.endNode).None? ==> s == Step(n, Completed))
              && (f.endNode in c.nodes && BestRoute(n.routes, f.endNode).Some? ==>
                    var next := BestRoute(n.routes, f.endNode).value.nextNode;
                    s == Step(n.(outbox := n.outbox + [Encode(
                           if f.ConnectRequest?
                           then ConnectRequest(f.receivedFrom, f.source, f.ttl - 1, f.endNode, next, f.sourcePeerId, f.targetPeerId, f.timeout)
                           else DisconnectRequest(f.receivedFrom, f.source, f.ttl - 1, f.endNode, next, f.sourcePeerId, f.targetPeerId))]),
                              Completed))
  {
  }

  /** After a connect request from node `a` reaches this node, a message from
      `a` to this node with a decodable payload is delivered and
      acknowledged. */
  lemma ConnectThenDeliver(c: Config, n: Node, request: Frame, m: Frame)
    requires request.ConnectRequest? && request.receivedFrom != c.myAddress && request.endNode == c.myAddress
    requires m.Message? && m.source == request.source && m.destination == c.myAddress
    requires ReceivedMessage(m.source, m.messageId) !in n.receivedMessages && c.decode64(m.payload).Some?
    ensures var s1 := ConnectRequestStep(c, n, request);
            var s2 := MessageStep(c, s1.node, m);
            && s2.outcome == Completed
            && s2.node.delivered == n.delivered + [c.decode64(m.payload).value]
            && s2.node.outbox == n.outbox + [Encode(AckFor(c, m))]
  {
    var s1 := ConnectRequestStep(c, n, request);
    MessageForMe(c, s1.node, m);
  }

  // ---------------------------------------------------------------------------
  // Properties of sending

  /** How many route requests the search broadcasts from counter value
      `attempt` on when none is answered: the counter advances by two per
      round. */
  function Broadcasts(attempt: nat): nat
    decreases ATTEMPTS - attempt
  {
    if attempt >= ATTEMPTS then 0 else 1 + Broadcasts(attempt + 2)
  }

  lemma RoutePollsSpec(c: Config, n: Node, e: string, arrivals: seq<seq<Option<Route>>>, k: nat, p: nat)
    ensures var r := RoutePolls(c, n, e, arrivals, k, p);
            && r.node == n.(routes := r.node.routes, unsupported := r.node.unsupported)
            && (forall q :: q in n.routes ==> q in r.node.routes)
            && (e in c.nodes ==> r.result.Success?)
            && (e !in c.nodes && p < ROUTE_POLLS ==> r.result == Failure(TableError.UnknownDestination(e)))
            && (r.result == Success(false) && p < ROUTE_POLLS ==> BestRoute(r.node.routes, e).None?)
  {
    RoutePollsFrame(c, n, e, arrivals, k, p);
    RoutePollsResult(c, n, e, arrivals, k, p);
  }

  /** A learned route changes only the routes and the unsupported list. */
  lemma ArriveFrame(n: Node, e: Option<Route>)
    ensures Arrive(n, e) == n.(routes := Arrive(n, e).routes, unsupported := Arrive(n, e).unsupported)
    ensures forall q :: q in n.routes ==> q in Arrive(n, e).routes
  {
  }

  /** The polls learn routes and nothing else, and forget none. */
  lemma {:induction false} RoutePollsFrame(c: Config, n: Node, e: string, arrivals: seq<seq<Option<Route>>>, k: nat, p: nat)
    ensures var r := RoutePolls(c, n, e, arrivals, k, p);
            && r.node == n.(routes := r.node.routes, unsupported := r.node.unsupported)
            && (forall q :: q in n.routes ==> q in r.node.routes)
    decreases ROUTE_POLLS - p
  {
    if p < ROUTE_POLLS {
      var n1 := Arrive(n, EventAt(arrivals, k, p));
      ArriveFrame(n, EventAt(arrivals, k, p));
      if e in c.nodes && BestRoute(n1.routes, e).None? {
        RoutePollsFrame(c, n1, e, arrivals, k, p + 1);
      }
    }
  }

  /** The polls raise exactly for an unconfigured node and end without a
      route only when none was learned. */
  lemma {:induction false} RoutePollsResult(c: Config, n: Node, e: string, arrivals: seq<seq<Option<Route>>>, k: nat, p: nat)
    ensures var r := RoutePolls(c, n, e, arrivals, k, p);
            && (e in c.nodes ==> r.result.Success?)
            && (e !in c.nodes && p < ROUTE_POLLS ==> r.result == Failure(TableError.UnknownDestination(e)))
            && (r.result == Success(false) && p < ROUTE_POLLS ==> BestRoute(r.node.routes, e).None?)
    decreases ROUTE_POLLS - p
  {
    if p < ROUTE_POLLS {
      var n1 := Arrive(n, EventAt(arrivals, k, p));
      if e in c.nodes && BestRoute(n1.routes, e).None? {
        RoutePollsResult(c, n1, e, arrivals, k, p + 1);
      }
    }
  }

  /** The route search touches only the routes, the unsupported list and the
      sent headers; it forgets no route; it raises exactly for an
      unconfigured node; it sends nothing but its route request, at most
      `Broadcasts(attempt)` times, and exactly that often, with no route
      found, when it gives up. */
  lemma SearchRoundsSpec(c: Config, n: Node, e: string, arrivals: seq<seq<Option<Route>>>, attempt: nat)
    ensures var r := SearchRounds(c, n, e, arrivals, attempt);
            && r.node == n.(routes := r.node.routes, unsupported := r.node.unsupported, outbox := r.node.outbox)
            && (forall q :: q in n.routes ==> q in r.node.routes)
            && (e in c.nodes ==> r.result.Success?)
            && (e !in c.nodes && attempt < ATTEMPTS ==> r.result == Failure(TableError.UnknownDestination(e)))
            && |n.outbox| <= |r.node.outbox| <= |n.outbox| + Broadcasts(attempt)
            && r.node.outbox[..|n.outbox|] == n.outbox
            && (forall i :: |n.outbox| <= i < |r.node.outbox| ==> r.node.outbox[i] == Encode(RouteRequestFor(c, e)))
            && (r.result == Success(false) ==>
                  && r.node.outbox == n.outbox + Repeat(Encode(RouteRequestFor(c, e)), Broadcasts(attempt))
                  && (attempt < ATTEMPTS ==> BestRoute(r.node.routes, e).None?))
  {
    SearchRoundsFrame(c, n, e, arrivals, attempt);
    SearchRoundsResult(c, n, e, arrivals, attempt);
    SearchRoundsSends(c, n, e, arrivals, attempt);
    SearchRoundsMissed(c, n, e, arrivals, attempt);
  }

  lemma {:induction false} SearchRoundsFrame(c: Config, n: Node, e: string, arrivals: seq<seq<Option<Route>>>, attempt: nat)
    ensures var r := SearchRounds(c, n, e, arrivals, attempt);
            && r.node == n.(routes := r.node.routes, unsupported := r.node.unsupported, outbox := r.node.outbox)
            && (forall q :: q in n.routes ==> q in r.node.routes)
    decreases ATTEMPTS - attempt
  {
    if attempt < ATTEMPTS {
      var n1 := Send(n, RouteRequestFor(c, e));
      RoutePollsFrame(c, n1, e, arrivals, attempt, 0);
      var w := RoutePolls(c, n1, e, arrivals, attempt, 0);
      if w.result == Success(false) {
        SearchRoundsFrame(c, w.node, e, arrivals, attempt + 2);
      }
    }
  }

  lemma {:induction false} SearchRoundsResult(c: Config, n: Node, e: string, arrivals: seq<seq<Option<Route>>>, attempt: nat)
    ensures var r := SearchRounds(c, n, e, arrivals, attempt);
            && (e in c.nodes ==> r.result.Success?)
            && (e !in c.nodes && attempt < ATTEMPTS ==> r.result == Failure(TableError.UnknownDestination(e)))
    decreases ATTEMPTS - attempt
  {
    if attempt < ATTEMPTS {
      var n1 := Send(n, RouteRequestFor(c, e));
      RoutePollsResult(c, n1, e, arrivals, attempt, 0);
      var w := RoutePolls(c, n1, e, arrivals, attempt, 0);
      if w.result == Success(false) {
        SearchRoundsResult(c, w.node, e, arrivals, attempt + 2);
      }
    }
  }

  /** One round of the route search: its own request is the one header it
      adds, and polls that end without a route leave none for `e`. */
  lemma SearchRoundOutcome(c: Config, n: Node, e: string, arrivals: seq<seq<Option<Route>>>, attempt: nat)
    ensures var w := RoutePolls(c, Send(n, RouteRequestFor(c, e)), e, arrivals, attempt, 0);
            && w.node.outbox == n.outbox + [Encode(RouteRequestFor(c, e))]
            && (w.result == Success(false) ==> BestRoute(w.node.routes, e).None?)
  {
    var n1 := Send(n, RouteRequestFor(c, e));
    RoutePollsFrame(c, n1, e, arrivals, attempt, 0);
    RoutePollsResult(c, n1, e, arrivals, attempt, 0);
  }

  /** `Broadcasts` counts one more request per remaining round. */
  lemma RepeatBroadcast(a: seq<string>, x: string, attempt: nat)
    requires attempt < ATTEMPTS
    ensures a + [x] + Repeat(x, Broadcasts(attempt + 2)) == a + Repeat(x, Broadcasts(attempt))
  {
    assert Repeat(x, Broadcasts(attempt)) == [x] + Repeat(x, Broadcasts(attempt + 2));
  }

  lemma {:induction false} SearchRoundsSends(c: Config, n: Node, e: string, arrivals: seq<seq<Option<Route>>>, attempt: nat)
    ensures var r := SearchRounds(c, n, e, arrivals, attempt);
            && |n.outbox| <= |r.node.outbox| <= |n.outbox| + Broadcasts(attempt)
            && r.node.outbox[..|n.outbox|] == n.outbox
            && (forall i :: |n.outbox| <= i < |r.node.outbox| ==> r.node.outbox[i] == Encode(RouteRequestFor(c, e)))
    decreases ATTEMPTS - attempt
  {
    if attempt < ATTEMPTS {
      var w := RoutePolls(c, Send(n, RouteRequestFor(c, e)), e, arrivals, attempt, 0);
      SearchRoundOutcome(c, n, e, arrivals, attempt);
      if w.result == Success(false) {
        SearchRoundsSends(c, w.node, e, arrivals, attempt + 2);
        var r := SearchRounds(c, w.node, e, arrivals, attempt + 2);
        Extended(n.outbox, w.node.outbox, r.node.outbox, Encode(RouteRequestFor(c, e)));
      }
    }
  }

  lemma {:induction false} SearchRoundsMissed(c: Config, n: Node, e: string, arrivals: seq<seq<Option<Route>>>, attempt: nat)
    ensures var r := SearchRounds(c, n, e, arrivals, attempt);
            r.result == Success(false) ==>
              && r.node.outbox == n.outbox + Repeat(Encode(RouteRequestFor(c, e)), Broadcasts(attempt))
              && (attempt < ATTEMPTS ==> BestRoute(r.node.routes, e).None?)
    decreases ATTEMPTS - attempt
  {
    if attempt < ATTEMPTS {
      var w := RoutePolls(c, Send(n, RouteRequestFor(c, e)), e, arrivals, attempt, 0);
      SearchRoundOutcome(c, n, e, arrivals, attempt);
      if w.result == Success(false) {
        SearchRoundsMissed(c, w.node, e, arrivals, attempt + 2);
        RepeatBroadcast(n.outbox, Encode(RouteRequestFor(c, e)), attempt);
      }
    }
  }

  /** `c` extends `a` by copies of `x` when it so extends `b` and `b` so
      extends `a`. */
  lemma Extended(a: seq<string>, b: seq<string>, c: seq<string>, x: string)
    requires |a| <= |b| <= |c| && b[..|a|] == a && c[..|b|] == b
    requires forall i :: |a| <= i < |b| ==> b[i] == x
    requires forall i :: |b| <= i < |c| ==> c[i] == x
    ensures c[..|a|] == a
    ensures forall i :: |a| <= i < |c| ==> c[i] == x
  {
    assert c[..|a|] == c[..|b|][..|a|];
    forall i | |a| <= i < |c|
      ensures c[i] == x
    {
      if i < |b| {
        assert c[i] == c[..|b|][i];
      }
    }
  }

  /** Whether an acknowledgement is processed during some poll of the waits
      from `k` on. */
  predicate AckArrives(acked: seq<seq<bool>>, k: nat) {
    exists j: nat, q: nat :: k <= j < ATTEMPTS && q < MESSAGE_POLLS && Happened(acked, j, q)
  }

  /** One acknowledgement wait takes nothing from the awaited ids but
      copies of `id`. */
  lemma {:induction false} AckPollsFrame(acks: seq<int>, id: int, acked: seq<seq<bool>>, k: nat, p: nat)
    ensures var r := AckPolls(acks, id, acked, k, p);
            && (forall y :: y != id ==> multiset(r.acks)[y] == multiset(acks)[y])
            && multiset(r.acks)[id] <= multiset(acks)[id]
    decreases MESSAGE_POLLS - p
  {
    if p < MESSAGE_POLLS {
      var a1 := if Happened(acked, k, p) then RemoveIfPresent(acks, id) else acks;
      RemoveIfPresentCounts(acks, id);
      if id in a1 {
        AckPollsFrame(a1, id, acked, k, p + 1);
      }
    }
  }

  /** The wait ends early exactly when `id` is no longer awaited. */
  lemma {:induction false} AckPollsResult(acks: seq<int>, id: int, acked: seq<seq<bool>>, k: nat, p: nat)
    ensures var r := AckPolls(acks, id, acked, k, p);
            && (r.released ==> id !in r.acks)
            && (!r.released && id in acks ==> id in r.acks)
    decreases MESSAGE_POLLS - p
  {
    if p < MESSAGE_POLLS {
      var a1 := if Happened(acked, k, p) then RemoveIfPresent(acks, id) else acks;
      if id in a1 {
        AckPollsResult(a1, id, acked, k, p + 1);
      }
    }
  }

  /** An awaited id is released only by a processed acknowledgement, and an
      id awaited once is released by the first one. */
  lemma {:induction false} AckPollsConfirmed(acks: seq<int>, id: int, acked: seq<seq<bool>>, k: nat, p: nat)
    ensures id in acks && AckPolls(acks, id, acked, k, p).released ==>
              exists q: nat :: p <= q < MESSAGE_POLLS && Happened(acked, k, q)
    ensures multiset(acks)[id] == 1 && (exists q: nat :: p <= q < MESSAGE_POLLS && Happened(acked, k, q)) ==>
              AckPolls(acks, id, acked, k, p).released
    decreases MESSAGE_POLLS - p
  {
    if p < MESSAGE_POLLS {
      var a1 := if Happened(acked, k, p) then RemoveIfPresent(acks, id) else acks;
      RemoveIfPresentCounts(acks, id);
      if id in a1 {
        AckPollsConfirmed(a1, id, acked, k, p + 1);
        if multiset(acks)[id] == 1 {
          assert !Happened(acked, k, p);
        }
      }
    }
  }

  /** A wait in which no acknowledgement for an id awaited once arrives
      changes nothing. */
  lemma {:induction false} AckPollsQuiet(acks: seq<int>, id: int, acked: seq<seq<bool>>, k: nat, p: nat)
    requires multiset(acks)[id] == 1
    ensures !AckPolls(acks, id, acked, k, p).released ==> AckPolls(acks, id, acked, k, p).acks == acks
    decreases MESSAGE_POLLS - p
  {
    if p < MESSAGE_POLLS {
      RemoveIfPresentCounts(acks, id);
      if !Happened(acked, k, p) {
        AckPollsQuiet(acks, id, acked, k, p + 1);
      }
    }
  }

  /** The whole acknowledgement wait changes only the awaited ids and the
      sent headers. */
  lemma {:induction false} AckRoundsShape(n: Node, wire: string, id: int, acked: seq<seq<bool>>, k: nat)
    ensures var r := AckRounds(n, wire, id, acked, k);
            r.node == n.(acks := r.node.acks, outbox := r.node.outbox)
    decreases ATTEMPTS - k
  {
    if k < ATTEMPTS {
      var w := AckPolls(n.acks, id, acked, k, 0);
      if !w.released {
        AckRoundsShape(n.(acks := w.acks, outbox := n.outbox + [wire]), wire, id, acked, k + 1);
      }
    }
  }

  /** The whole acknowledgement wait releases copies of `id` only. */
  lemma {:induction false} AckRoundsReleases(n: Node, wire: string, id: int, acked: seq<seq<bool>>, k: nat)
    ensures var r := AckRounds(n, wire, id, acked, k);
            && (forall y :: y != id ==> multiset(r.node.acks)[y] == multiset(n.acks)[y])
            && multiset(r.node.acks)[id] <= multiset(n.acks)[id]
    decreases ATTEMPTS - k
  {
    if k < ATTEMPTS {
      AckPollsFrame(n.acks, id, acked, k, 0);
      var w := AckPolls(n.acks, id, acked, k, 0);
      if !w.released {
        AckRoundsReleases(n.(acks := w.acks, outbox := n.outbox + [wire]), wire, id, acked, k + 1);
      }
    }
  }

  /** The whole acknowledgement wait: the same frame as one wait. */
  lemma AckRoundsFrame(n: Node, wire: string, id: int, acked: seq<seq<bool>>, k: nat)
    ensures var r := AckRounds(n, wire, id, acked, k);
            && r.node == n.(acks := r.node.acks, outbox := r.node.outbox)
            && (forall y :: y != id ==> multiset(r.node.acks)[y] == multiset(n.acks)[y])
            && multiset(r.node.acks)[id] <= multiset(n.acks)[id]
  {
    AckRoundsShape(n, wire, id, acked, k);
    AckRoundsReleases(n, wire, id, acked, k);
  }

  lemma {:induction false} AckRoundsResult(n: Node, wire: string, id: int, acked: seq<seq<bool>>, k: nat)
    ensures var r := AckRounds(n, wire, id, acked, k);
            && (r.result ==> id !in r.node.acks)
            && (!r.result && id in n.acks ==> id in r.node.acks)
    decreases ATTEMPTS - k
  {
    if k < ATTEMPTS {
      AckPollsResult(n.acks, id, acked, k, 0);
      var w := AckPolls(n.acks, id, acked, k, 0);
      if !w.released {
        AckRoundsResult(n.(acks := w.acks, outbox := n.outbox + [wire]), wire, id, acked, k + 1);
      }
    }
  }

  /** The wait reports success only after an acknowledgement was
      processed. */
  lemma {:induction false} AckRoundsConfirmed(n: Node, wire: string, id: int, acked: seq<seq<bool>>, k: nat)
    ensures id in n.acks && AckRounds(n, wire, id, acked, k).result ==> AckArrives(acked, k)
    decreases ATTEMPTS - k
  {
    if k < ATTEMPTS && id in n.acks {
      AckPollsConfirmed(n.acks, id, acked, k, 0);
      AckPollsResult(n.acks, id, acked, k, 0);
      var w := AckPolls(n.acks, id, acked, k, 0);
      if !w.released {
        AckRoundsConfirmed(n.(acks := w.acks, outbox := n.outbox + [wire]), wire, id, acked, k + 1);
        if AckRounds(n, wire, id, acked, k).result {
          var j: nat, q: nat :| k + 1 <= j < ATTEMPTS && q < MESSAGE_POLLS && Happened(acked, j, q);
        }
      } else {
        var q: nat :| 0 <= q < MESSAGE_POLLS && Happened(acked, k, q);
      }
    }
  }

  /** When exactly one copy of the id is awaited, an acknowledgement in any
      poll of the remaining waits is noticed. */
  lemma {:induction false} AckRoundsNoticed(n: Node, wire: string, id: int, acked: seq<seq<bool>>, k: nat)
    requires multiset(n.acks)[id] == 1
    ensures AckArrives(acked, k) ==> AckRounds(n, wire, id, acked, k).result
    decreases ATTEMPTS - k
  {
    if k < ATTEMPTS && AckArrives(acked, k) {
      var w := AckPolls(n.acks, id, acked, k, 0);
      if !w.released {
        assert w.acks == n.acks by {
          AckPollsQuiet(n.acks, id, acked, k, 0);
        }
        assert AckArrives(acked, k + 1) by {
          AckPollsConfirmed(n.acks, id, acked, k, 0);
          var j: nat, q: nat :| k <= j < ATTEMPTS && q < MESSAGE_POLLS && Happened(acked, j, q);
          assert j != k;
        }
        AckRoundsNoticed(n.(acks := w.acks, outbox := n.outbox + [wire]), wire, id, acked, k + 1);
      }
    }
  }

  /** An unacknowledged message has been sent once per remaining round. */
  lemma {:induction false} AckRoundsExhausted(n: Node, wire: string, id: int, acked: seq<seq<bool>>, k: nat)
    requires k <= ATTEMPTS
    ensures var r := AckRounds(n, wire, id, acked, k);
            !r.result ==> r.node.outbox == n.outbox + Repeat(wire, ATTEMPTS - k)
    decreases ATTEMPTS - k
  {
    if k < ATTEMPTS {
      var w := AckPolls(n.acks, id, acked, k, 0);
      if !w.released {
        AckRoundsExhausted(n.(acks := w.acks, outbox := n.outbox + [wire]), wire, id, acked, k + 1);
        RepeatAfter(n.outbox, wire, ATTEMPTS - (k + 1));
      }
    } else {
      assert n.outbox + Repeat(wire, 0) == n.outbox;
    }
  }

  lemma RepeatAfter(a: seq<string>, x: string, m: nat)
    ensures (a + [x]) + Repeat(x, m) == a + Repeat(x, m + 1)
  {
    assert Repeat(x, m + 1) == [x] + Repeat(x, m);
  }

  /** An acknowledged message has been sent at least once and at most once
      per remaining round, and nothing else has been sent. */
  lemma {:induction false} AckRoundsSends(n: Node, wire: string, id: int, acked: seq<seq<bool>>, k: nat)
    requires k < ATTEMPTS
    ensures var r := AckRounds(n, wire, id, acked, k);
            && |n.outbox| + 1 <= |r.node.outbox| <= |n.outbox| + (ATTEMPTS - k)
            && r.node.outbox[..|n.outbox|] == n.outbox
            && (forall i :: |n.outbox| <= i < |r.node.outbox| ==> r.node.outbox[i] == wire)
    decreases ATTEMPTS - k
  {
    var w := AckPolls(n.acks, id, acked, k, 0);
    var n1 := n.(acks := w.acks, outbox := n.outbox + [wire]);
    if !w.released && k + 1 < ATTEMPTS {
      AckRoundsSends(n1, wire, id, acked, k + 1);
      Extended(n.outbox, n1.outbox, AckRounds(n1, wire, id, acked, k + 1).node.outbox, wire);
    }
  }

  /** Every awaited id was issued: none exceeds the message counter. */
  predicate IdsIssued(n: Node) {
    forall a :: a in n.acks ==> a <= n.messageCounter
  }

  /** An id above every awaited one. */
  predicate FreshId(n: Node, id: int) {
    forall a :: a in n.acks ==> a < id
  }

  /** The receive loop keeps every awaited id among those already issued. */
  lemma ReceiveKeepsIds(c: Config, n: Node, raw: string, now: int)
    requires IdsIssued(n)
    ensures var s := ReceiveStep(c, n, raw, now);
            && IdsIssued(s.node)
            && s.node.messageCounter == n.messageCounter
            && multiset(s.node.acks) <= multiset(n.acks)
  {
    ReceiveCountsAcks(c, n, raw, now);
    IdsKept(n, ReceiveStep(c, n, raw, now).node);
  }

  /** The receive loop issues no id and awaits no new one. */
  lemma ReceiveCountsAcks(c: Config, n: Node, raw: string, now: int)
    ensures var s := ReceiveStep(c, n, raw, now);
            && s.node.messageCounter == n.messageCounter
            && multiset(s.node.acks) <= multiset(n.acks)
  {
    match c.parse(raw)
    case None =>
    case Some(f) =>
      if f.ttl > 1 {
        var n0 := AddRouteTo(n, Route(f.receivedFrom, f.receivedFrom, 1));
        var h := HandleStep(c, n0, f, now);
        ReceiveHandles(c, n, raw, now);
        MarkSenderSpec(h.node, raw);
        HandleBounds(c, n0, f, now);
      }
  }

  /** Ids stay issued while the counter stays and awaited ids only go. */
  lemma IdsKept(n: Node, m: Node)
    requires IdsIssued(n)
    requires m.messageCounter == n.messageCounter && multiset(m.acks) <= multiset(n.acks)
    ensures IdsIssued(m)
  {
    forall a | a in m.acks
      ensures a <= m.messageCounter
    {
      assert a in multiset(m.acks);
      assert a in multiset(n.acks);
      assert a in n.acks;
    }
  }

  /** The message numbered `id` is awaited exactly once. */
  lemma FreshIdAwaitedOnce(n: Node, id: int)
    requires FreshId(n, id)
    ensures multiset(n.acks)[id] == 0
    ensures multiset(n.acks + [id])[id] == 1
  {
    assert id !in n.acks;
    assert multiset(n.acks)[id] == 0;
  }

  /** Waiting for message `id` changes only the routes, the awaited ids,
      the sent headers and the counter, which becomes `id`. */
  lemma TransmitFrame(c: Config, n: Node, d: string, h: Frame, id: nat, acked: seq<seq<bool>>)
    ensures var r := TransmitSpec(c, n, d, h, id, acked);
            && r.node == n.(routes := r.node.routes, acks := r.node.acks, outbox := r.node.outbox,
                            messageCounter := r.node.messageCounter)
            && r.node.messageCounter == id
  {
    AckRoundsFrame(n.(messageCounter := id, acks := n.acks + [id]), Encode(h), id, acked, 0);
  }

  /** How the end of `send_message` leaves the awaited ids: as `before`,
      when the wait added one copy of `id` and took off at most that copy,
      and nothing else. */
  lemma ConcludeKeepsIds(c: Config, w: Attempt<bool>, d: string, id: int, before: seq<int>)
    requires multiset(before)[id] == 0
    requires forall y :: y != id ==> multiset(w.node.acks)[y] == multiset(before)[y]
    requires multiset(w.node.acks)[id] <= 1
    requires w.result ==> id !in w.node.acks
    requires !w.result ==> id in w.node.acks
    ensures multiset(Conclude(c, w, d, id).node.acks) == multiset(before)
  {
    if !w.result {
      RemoveIfPresentMultiset(w.node.acks, id);
    }
    assert forall y :: multiset(Conclude(c, w, d, id).node.acks)[y] == multiset(before)[y];
  }

  /** When the wait for message `id` ends, the ids awaited are those
      awaited before: an acknowledged id has been taken off by the receive
      path, an unacknowledged one by `send_message` itself. */
  lemma TransmitKeepsIds(c: Config, n: Node, d: string, h: Frame, id: nat, acked: seq<seq<bool>>)
    requires FreshId(n, id)
    ensures multiset(TransmitSpec(c, n, d, h, id, acked).node.acks) == multiset(n.acks)
  {
    var n0 := n.(messageCounter := id, acks := n.acks + [id]);
    FreshIdAwaitedOnce(n, id);
    assert multiset(n.acks)[id] == 0;
    AckRoundsFrame(n0, Encode(h), id, acked, 0);
    AckRoundsResult(n0, Encode(h), id, acked, 0);
    ConcludeKeepsIds(c, AckRounds(n0, Encode(h), id, acked, 0), d, id, n.acks);
  }

  /** A node whose awaited ids are those of `n`, numbered `id` above them,
      has issued every id it awaits. */
  lemma SameIdsIssued(n: Node, m: Node, id: int)
    requires FreshId(n, id) && m.messageCounter == id
    requires multiset(m.acks) == multiset(n.acks)
    ensures IdsIssued(m)
  {
    forall a | a in m.acks
      ensures a <= m.messageCounter
    {
      assert a in multiset(m.acks);
      assert a in multiset(n.acks);
      assert a in n.acks;
    }
  }

  /** After the wait every awaited id is still an issued one. */
  lemma TransmitIdsIssued(c: Config, n: Node, d: string, h: Frame, id: nat, acked: seq<seq<bool>>)
    requires FreshId(n, id)
    ensures IdsIssued(TransmitSpec(c, n, d, h, id, acked).node)
  {
    TransmitFrame(c, n, d, h, id, acked);
    TransmitKeepsIds(c, n, d, h, id, acked);
    SameIdsIssued(n, TransmitSpec(c, n, d, h, id, acked).node, id);
  }

  /** A message is reported acknowledged exactly when an acknowledgement is
      processed during one of the three waits. */
  lemma TransmitConfirmed(c: Config, n: Node, d: string, h: Frame, id: nat, acked: seq<seq<bool>>)
    requires FreshId(n, id)
    ensures TransmitSpec(c, n, d, h, id, acked).result == Acknowledged <==> AckArrives(acked, 0)
  {
    var n0 := n.(messageCounter := id, acks := n.acks + [id]);
    FreshIdAwaitedOnce(n, id);
    AckRoundsConfirmed(n0, Encode(h), id, acked, 0);
    AckRoundsNoticed(n0, Encode(h), id, acked, 0);
  }

  /** An acknowledged message was sent between one and three times, and
      nothing else was sent; the routes are kept. */
  lemma TransmitAcknowledged(c: Config, n: Node, d: string, h: Frame, id: nat, acked: seq<seq<bool>>)
    ensures var r := TransmitSpec(c, n, d, h, id, acked);
            r.result == Acknowledged ==>
              && r.node.routes == n.routes
              && |n.outbox| + 1 <= |r.node.outbox| <= |n.outbox| + ATTEMPTS
              && r.node.outbox[..|n.outbox|] == n.outbox
              && (forall i :: |n.outbox| <= i < |r.node.outbox| ==> r.node.outbox[i] == Encode(h))
  {
    var n0 := n.(messageCounter := id, acks := n.acks + [id]);
    AckRoundsFrame(n0, Encode(h), id, acked, 0);
    AckRoundsSends(n0, Encode(h), id, acked, 0);
  }

  /** An unacknowledged message was sent three times, then a route error
      about `d` was broadcast and every route to or through `d` dropped. */
  lemma TransmitNotAcknowledged(c: Config, n: Node, d: string, h: Frame, id: nat, acked: seq<seq<bool>>)
    ensures var r := TransmitSpec(c, n, d, h, id, acked);
            r.result == NotAcknowledged ==>
              && r.node.outbox == n.outbox + Repeat(Encode(h), ATTEMPTS) + [Encode(RouteError(Codec.NO_SENDER, c.myAddress, c.defaultTtl, d))]
              && r.node.routes == WithoutNode(n.routes, d)
  {
    var n0 := n.(messageCounter := id, acks := n.acks + [id]);
    AckRoundsFrame(n0, Encode(h), id, acked, 0);
    AckRoundsExhausted(n0, Encode(h), id, acked, 0);
  }

  /** Whether `send_message` gets as far as transmitting: connected to a
      configured node to which a route is known or found. */
  predicate RouteReady(c: Config, n: Node, arrivals: seq<seq<Option<Route>>>) {
    && n.connectedNode.Some?
    && n.connectedNode.value in c.nodes
    && Discover(c, n, n.connectedNode.value, arrivals).result == Success(true)
  }

  /** Without a connection nothing happens and `NotConnected` is reported;
      towards a node that is not configured the table's error comes back
      and nothing happens; nothing else fails. */
  lemma SendMessageRefused(c: Config, n: Node, payload: seq<bv8>, id: nat, arrivals: seq<seq<Option<Route>>>, acked: seq<seq<bool>>)
    ensures var r := SendMessageSpec(c, n, payload, id, arrivals, acked);
            && (r.result == Success(NotConnected) <==> n.connectedNode.None?)
            && (r.result.Failure? <==> n.connectedNode.Some? && n.connectedNode.value !in c.nodes)
            && (r.result.Failure? ==> r.result == Failure(TableError.UnknownDestination(n.connectedNode.value)))
            && (r.result.Failure? || n.connectedNode.None? ==> r.node == n)
  {
    match n.connectedNode
    case None =>
    case Some(d) =>
      if d in c.nodes {
        SearchRoundsSpec(c, n, d, arrivals, 0);
      }
  }

  /** A route search towards a configured node always reports a verdict. */
  lemma DiscoverAnswers(c: Config, n: Node, d: string, arrivals: seq<seq<Option<Route>>>)
    requires d in c.nodes
    ensures Discover(c, n, d, arrivals).result.Success?
  {
    SearchRoundsSpec(c, n, d, arrivals, 0);
  }

  /** A search that finds nothing only broadcast the route request twice,
      started without a route and ends without one. */
  lemma DiscoverMissed(c: Config, n: Node, d: string, arrivals: seq<seq<Option<Route>>>)
    ensures var w := Discover(c, n, d, arrivals);
            w.result == Success(false) ==>
              && BestRoute(n.routes, d).None?
              && BestRoute(w.node.routes, d).None?
              && w.node.outbox == n.outbox + Repeat(Encode(RouteRequestFor(c, d)), 2)
              && w.node == n.(routes := w.node.routes, unsupported := w.node.unsupported, outbox := w.node.outbox)
  {
    SearchRoundsSpec(c, n, d, arrivals, 0);
    assert Broadcasts(0) == 2;
  }

  /** A transmitted message is reported acknowledged or not, nothing else. */
  lemma TransmitReports(c: Config, n: Node, d: string, h: Frame, id: nat, acked: seq<seq<bool>>)
    ensures TransmitSpec(c, n, d, h, id, acked).result in {Acknowledged, NotAcknowledged}
  {
  }

  /** `send_message` reports `NoRoute` exactly after a search towards the
      connected, configured node that found nothing, and ends in the state
      that search left. */
  lemma SendMessageMissed(c: Config, n: Node, payload: seq<bv8>, id: nat, arrivals: seq<seq<Option<Route>>>, acked: seq<seq<bool>>)
    ensures var r := SendMessageSpec(c, n, payload, id, arrivals, acked);
            r.result == Success(NoRoute) <==>
              && n.connectedNode.Some?
              && n.connectedNode.value in c.nodes
              && Discover(c, n, n.connectedNode.value, arrivals).result == Success(false)
    ensures var r := SendMessageSpec(c, n, payload, id, arrivals, acked);
            r.result == Success(NoRoute) ==> r.node == Discover(c, n, n.connectedNode.value, arrivals).node
  {
    match n.connectedNode
    case None =>
    case Some(d) =>
      if d in c.nodes {
        DiscoverAnswers(c, n, d, arrivals);
        var found := Discover(c, n, d, arrivals);
        if found.result == Success(true) {
          var h := MessageFor(c, d, BestRoute(found.node.routes, d).value.nextNode, id, payload);
          TransmitReports(c, found.node, d, h, id, acked);
          var w := TransmitSpec(c, found.node, d, h, id, acked);
          assert SendMessageSpec(c, n, payload, id, arrivals, acked) == Attempt(w.node, Success(w.result));
        } else {
          assert !found.result.value;
          assert SendMessageSpec(c, n, payload, id, arrivals, acked) == Attempt(found.node, Success(NoRoute));
        }
      }
  }

  /** When no route is known or found, the route request was broadcast
      twice and nothing else sent, still no route to the node is known, and
      the message was not numbered. */
  lemma SendMessageNoRoute(c: Config, n: Node, payload: seq<bv8>, id: nat, arrivals: seq<seq<Option<Route>>>, acked: seq<seq<bool>>)
    ensures var r := SendMessageSpec(c, n, payload, id, arrivals, acked);
            r.result == Success(NoRoute) ==>
              && n.connectedNode.Some?
              && var d := n.connectedNode.value;
                 && BestRoute(n.routes, d).None?
                 && BestRoute(r.node.routes, d).None?
                 && r.node.outbox == n.outbox + Repeat(Encode(RouteRequestFor(c, d)), 2)
                 && r.node == n.(routes := r.node.routes, unsupported := r.node.unsupported, outbox := r.node.outbox)
  {
    SendMessageMissed(c, n, payload, id, arrivals, acked);
    if n.connectedNode.Some? {
      DiscoverMissed(c, n, n.connectedNode.value, arrivals);
    }
  }

  /** `send_message` keeps the awaited ids as they were; a transmitted
      message gets number `id`; it is reported acknowledged exactly when a
      route was ready and an acknowledgement arrived during a wait. */
  lemma SendMessageDelivery(c: Config, n: Node, payload: seq<bv8>, id: nat, arrivals: seq<seq<Option<Route>>>, acked: seq<seq<bool>>)
    requires IdsIssued(n) && n.messageCounter < id
    ensures var r := SendMessageSpec(c, n, payload, id, arrivals, acked);
            && multiset(r.node.acks) == multiset(n.acks)
            && IdsIssued(r.node)
            && (RouteReady(c, n, arrivals) ==> r.node.messageCounter == id)
            && (!RouteReady(c, n, arrivals) ==> r.node.messageCounter == n.messageCounter)
            && (r.result == Success(Acknowledged) <==> RouteReady(c, n, arrivals) && AckArrives(acked, 0))
  {
    match n.connectedNode
    case None =>
    case Some(d) =>
      if d in c.nodes {
        SearchRoundsSpec(c, n, d, arrivals, 0);
        var found := Discover(c, n, d, arrivals);
        if found.result == Success(true) {
          var h := MessageFor(c, d, BestRoute(found.node.routes, d).value.nextNode, id, payload);
          assert FreshId(found.node, id);
          TransmitFrame(c, found.node, d, h, id, acked);
          TransmitKeepsIds(c, found.node, d, h, id, acked);
          TransmitIdsIssued(c, found.node, d, h, id, acked);
          TransmitConfirmed(c, found.node, d, h, id, acked);
        }
      }
  }

  /** A message reported acknowledged or not went through `transmit` on
      the route the search left to the connected, configured node. */
  lemma SendMessageTransmits(c: Config, n: Node, payload: seq<bv8>, id: nat, arrivals: seq<seq<Option<Route>>>, acked: seq<seq<bool>>)
    ensures var r := SendMessageSpec(c, n, payload, id, arrivals, acked);
            r.result == Success(Acknowledged) || r.result == Success(NotAcknowledged) ==>
              && n.connectedNode.Some?
              && n.connectedNode.value in c.nodes
              && var d := n.connectedNode.value;
                 var found := Discover(c, n, d, arrivals);
                 && found.result == Success(true)
                 && var w := TransmitSpec(c, found.node, d, MessageFor(c, d, BestRoute(found.node.routes, d).value.nextNode, id, payload), id, acked);
                    r == Attempt(w.node, Success(w.result))
  {
    match n.connectedNode
    case None =>
    case Some(d) =>
      if d in c.nodes {
        var found := Discover(c, n, d, arrivals);
        if found.result != Success(true) {
          assert SendMessageSpec(c, n, payload, id, arrivals, acked) == Attempt(found.node, Success(NoRoute));
        }
      }
  }

  lemma EndsWith(a: seq<string>, t: seq<string>)
    ensures (a + t)[|a + t| - |t|..] == t
  {
  }

  /** A message never acknowledged was sent three times on the route then
      known, followed by a route error about the connected node, and no
      route to or through that node is left. */
  lemma SendMessageGivesUp(c: Config, n: Node, payload: seq<bv8>, id: nat, arrivals: seq<seq<Option<Route>>>, acked: seq<seq<bool>>)
    ensures var r := SendMessageSpec(c, n, payload, id, arrivals, acked);
            r.result == Success(NotAcknowledged) ==>
              && n.connectedNode.Some?
              && var d := n.connectedNode.value;
                 && (forall q :: q in r.node.routes ==> q.destination != d && q.nextNode != d)
                 && |r.node.outbox| >= ATTEMPTS + 1
                 && exists next ::
                      r.node.outbox[|r.node.outbox| - (ATTEMPTS + 1)..]
                      == Repeat(Encode(MessageFor(c, d, next, id, payload)), ATTEMPTS)
                         + [Encode(RouteError(Codec.NO_SENDER, c.myAddress, c.defaultTtl, d))]
  {
    SendMessageTransmits(c, n, payload, id, arrivals, acked);
    var r := SendMessageSpec(c, n, payload, id, arrivals, acked);
    if r.result == Success(NotAcknowledged) {
      var d := n.connectedNode.value;
      var found := Discover(c, n, d, arrivals);
      var next := BestRoute(found.node.routes, d).value.nextNode;
      var h := MessageFor(c, d, next, id, payload);
      var copies := Repeat(Encode(h), ATTEMPTS);
      var tail := copies + [Encode(RouteError(Codec.NO_SENDER, c.myAddress, c.defaultTtl, d))];
      assert r.node.outbox == found.node.outbox + tail && r.node.routes == WithoutNode(found.node.routes, d) by {
        TransmitNotAcknowledged(c, found.node, d, h, id, acked);
      }
      assert r.node.outbox[|r.node.outbox| - (ATTEMPTS + 1)..] == copies + [Encode(RouteError(Codec.NO_SENDER, c.myAddress, c.defaultTtl, d))] by {
        assert copies == [Encode(h), Encode(h), Encode(h)];
        EndsWith(found.node.outbox, tail);
      }
      forall q | q in r.node.routes
        ensures q.destination != d && q.nextNode != d
      {
        WithoutNodeSpec(found.node.routes, d, q);
      }
    }
  }
  // ---------------------------------------------------------------------------
  // Registration broadcasts

  /** Whether the node's own registration is heard back during some poll of
      the waits from `k` on. */
  predicate HeardBack(looped: seq<seq<bool>>, k: nat) {
    exists j: nat, q: nat :: k <= j < ATTEMPTS && q < REGISTRATION_POLLS && Happened(looped, j, q)
  }

  /** The polls end early exactly when the flag is already set or the
      registration is heard back in a remaining poll. */
  lemma {:induction false} LoopbackPollsSpec(seen: bool, looped: seq<seq<bool>>, k: nat, p: nat)
    ensures LoopbackPolls(seen, looped, k, p)
            <==> p < REGISTRATION_POLLS && (seen || exists q: nat :: p <= q < REGISTRATION_POLLS && Happened(looped, k, q))
    decreases REGISTRATION_POLLS - p
  {
    if p < REGISTRATION_POLLS && !seen && !Happened(looped, k, p) {
      LoopbackPollsSpec(false, looped, k, p + 1);
      if exists q: nat :: p <= q < REGISTRATION_POLLS && Happened(looped, k, q) {
        var q: nat :| p <= q < REGISTRATION_POLLS && Happened(looped, k, q);
        assert q != p;
      }
    }
  }

  /** The broadcasts change only the sent headers and the flag, which ends
      set exactly when the registration was heard back in a remaining wait. */
  lemma {:induction false} RegistrationRoundsHeard(n: Node, wire: string, looped: seq<seq<bool>>, k: nat)
    requires !n.ownRegistrationSeen
    ensures var r := RegistrationRounds(n, wire, looped, k);
            && r == n.(outbox := r.outbox, ownRegistrationSeen := r.ownRegistrationSeen)
            && (r.ownRegistrationSeen <==> HeardBack(looped, k))
    decreases ATTEMPTS - k
  {
    if k < ATTEMPTS {
      var heard := LoopbackPolls(false, looped, k, 0);
      LoopbackPollsSpec(false, looped, k, 0);
      if heard {
        assert HeardBack(looped, k) by {
          var q: nat :| 0 <= q < REGISTRATION_POLLS && Happened(looped, k, q);
          assert k <= k < ATTEMPTS;
        }
      } else {
        RegistrationRoundsHeard(n.(outbox := n.outbox + [wire], ownRegistrationSeen := false), wire, looped, k + 1);
        assert HeardBack(looped, k) <==> HeardBack(looped, k + 1) by {
          if HeardBack(looped, k) {
            var j: nat, q: nat :| k <= j < ATTEMPTS && q < REGISTRATION_POLLS && Happened(looped, j, q);
            assert j != k;
          }
        }
      }
    }
  }

  /** The registration was broadcast at least once and at most once per
      remaining attempt, and nothing else was sent. */
  lemma {:induction false} RegistrationRoundsSends(n: Node, wire: string, looped: seq<seq<bool>>, k: nat)
    requires k < ATTEMPTS
    ensures var r := RegistrationRounds(n, wire, looped, k);
            && |n.outbox| + 1 <= |r.outbox| <= |n.outbox| + (ATTEMPTS - k)
            && r.outbox[..|n.outbox|] == n.outbox
            && (forall i :: |n.outbox| <= i < |r.outbox| ==> r.outbox[i] == wire)
    decreases ATTEMPTS - k
  {
    var heard := LoopbackPolls(n.ownRegistrationSeen, looped, k, 0);
    var n1 := n.(outbox := n.outbox + [wire], ownRegistrationSeen := n.ownRegistrationSeen || heard);
    if !heard && k + 1 < ATTEMPTS {
      RegistrationRoundsSends(n1, wire, looped, k + 1);
      Extended(n.outbox, n1.outbox, RegistrationRounds(n1, wire, looped, k + 1).outbox, wire);
    }
  }

  /** A registration never heard back was broadcast once per remaining
      attempt. */
  lemma {:induction false} RegistrationRoundsUnheard(n: Node, wire: string, looped: seq<seq<bool>>, k: nat)
    requires k <= ATTEMPTS && !n.ownRegistrationSeen && !HeardBack(looped, k)
    ensures RegistrationRounds(n, wire, looped, k).outbox == n.outbox + Repeat(wire, ATTEMPTS - k)
    decreases ATTEMPTS - k
  {
    if k < ATTEMPTS {
      LoopbackPollsSpec(false, looped, k, 0);
      assert forall q: nat :: q < REGISTRATION_POLLS ==> !Happened(looped, k, q);
      RegistrationRoundsUnheard(n.(outbox := n.outbox + [wire], ownRegistrationSeen := false), wire, looped, k + 1);
      RepeatAfter(n.outbox, wire, ATTEMPTS - (k + 1));
    } else {
      assert n.outbox + Repeat(wire, 0) == n.outbox;
    }
  }

  /** `send_registration_message` first records the node's own peer (or
      removes it and every entry sharing its id or this node's address),
      then changes only the sent headers and the flag, which ends set
      exactly when the registration was heard back. */
  lemma SendRegistrationPeers(c: Config, n: Node, subscribe: bool, peerId: string, looped: seq<seq<bool>>)
    ensures var r := SendRegistrationSpec(c, n, subscribe, peerId, looped);
            && r == n.(peers := r.peers, outbox := r.outbox, ownRegistrationSeen := r.ownRegistrationSeen)
            && (r.ownRegistrationSeen <==> HeardBack(looped, 0))
            && (subscribe ==> Peer(peerId, c.myAddress) in r.peers && forall p :: p in n.peers ==> p in r.peers)
            && (!subscribe ==> forall p :: p in r.peers <==> p in n.peers && p.peerId != peerId && p.address != c.myAddress)
  {
    var n1 := if subscribe then AddPeerTo(n, Peer(peerId, c.myAddress))
              else n.(peers := WithoutPeer(n.peers, peerId, c.myAddress));
    RegistrationRoundsHeard(n1.(ownRegistrationSeen := false), Encode(RegistrationFor(c, subscribe, peerId)), looped, 0);
    if !subscribe {
      forall p
        ensures p in n1.peers <==> p in n.peers && p.peerId != peerId && p.address != c.myAddress
      {
        WithoutPeerSpec(n.peers, peerId, c.myAddress, p);
      }
    }
  }

  /** The registration header is broadcast one to three times, three times
      when it is never heard back, and nothing else is sent. */
  lemma SendRegistrationBroadcasts(c: Config, n: Node, subscribe: bool, peerId: string, looped: seq<seq<bool>>)
    ensures var r := SendRegistrationSpec(c, n, subscribe, peerId, looped);
            var wire := Encode(RegistrationFor(c, subscribe, peerId));
            && |n.outbox| + 1 <= |r.outbox| <= |n.outbox| + ATTEMPTS
            && r.outbox[..|n.outbox|] == n.outbox
            && (forall i :: |n.outbox| <= i < |r.outbox| ==> r.outbox[i] == wire)
            && (!HeardBack(looped, 0) ==> r.outbox == n.outbox + Repeat(wire, ATTEMPTS))
  {
    var n1 := if subscribe then AddPeerTo(n, Peer(peerId, c.myAddress))
              else n.(peers := WithoutPeer(n.peers, peerId, c.myAddress));
    var n0 := n1.(ownRegistrationSeen := false);
    var wire := Encode(RegistrationFor(c, subscribe, peerId));
    assert n0.outbox == n.outbox;
    RegistrationRoundsSends(n0, wire, looped, 0);
    if !HeardBack(looped, 0) {
      RegistrationRoundsUnheard(n0, wire, looped, 0);
    }
  }
  // ---------------------------------------------------------------------------
  // Connect and disconnect requests

  /** A route search changes only the routes, which it keeps, the list of
      unsupported nodes and the sent headers. */
  lemma DiscoverFrame(c: Config, n: Node, d: string, arrivals: seq<seq<Option<Route>>>)
    ensures var w := Discover(c, n, d, arrivals);
            && w.node == n.(routes := w.node.routes, unsupported := w.node.unsupported, outbox := w.node.outbox)
            && (forall q :: q in n.routes ==> q in w.node.routes)
  {
    SearchRoundsSpec(c, n, d, arrivals, 0);
  }

  /** Sending a request towards `endNode` changes only the routes, the list
      of unsupported nodes and the sent headers; it fails only for a node
      that is not configured, and then changes nothing. */
  lemma RequestTowardsFrame(c: Config, n: Node, q: PeerRequest, endNode: string, arrivals: seq<seq<Option<Route>>>)
    ensures var r := RequestTowards(c, n, q, endNode, arrivals);
            && r.node == n.(routes := r.node.routes, unsupported := r.node.unsupported, outbox := r.node.outbox)
            && (r.result.Failure? <==> endNode !in c.nodes)
            && (endNode !in c.nodes ==> r == Attempt(n, Failure(Table(TableError.UnknownDestination(endNode)))))
  {
    if endNode in c.nodes {
      DiscoverFrame(c, n, endNode, arrivals);
    }
  }

  /** With a route to the end node known, the request is sent on the best
      one and nothing else happens. */
  lemma RequestOnKnownRoute(c: Config, n: Node, q: PeerRequest, endNode: string, arrivals: seq<seq<Option<Route>>>)
    requires endNode in c.nodes && BestRoute(n.routes, endNode).Some?
    ensures RequestTowards(c, n, q, endNode, arrivals)
            == Attempt(Send(n, RequestFrame(c, q, endNode, BestRoute(n.routes, endNode).value.nextNode)), Success(()))
  {
  }

  /** A route found by the search carries the request: it is the last
      header sent, addressed to the next node of a route to the end node. */
  lemma RequestOnFoundRoute(c: Config, n: Node, q: PeerRequest, endNode: string, arrivals: seq<seq<Option<Route>>>)
    requires endNode in c.nodes && Discover(c, n, endNode, arrivals).result == Success(true)
    ensures var r := RequestTowards(c, n, q, endNode, arrivals);
            var found := Discover(c, n, endNode, arrivals);
            exists rt :: && rt in r.node.routes && rt.destination == endNode
                         && r.node.outbox == found.node.outbox + [Encode(RequestFrame(c, q, endNode, rt.nextNode))]
  {
    var found := Discover(c, n, endNode, arrivals);
    BestRouteIsShortest(found.node.routes, endNode);
    var rt := BestRoute(found.node.routes, endNode).value;
    assert rt in RequestTowards(c, n, q, endNode, arrivals).node.routes;
  }

  /** Without a route known or found, the request is not sent: only the
      two route-request broadcasts were. */
  lemma RequestWithoutRoute(c: Config, n: Node, q: PeerRequest, endNode: string, arrivals: seq<seq<Option<Route>>>)
    requires endNode in c.nodes && Discover(c, n, endNode, arrivals).result == Success(false)
    ensures var r := RequestTowards(c, n, q, endNode, arrivals);
            && r.result == Success(())
            && r.node.outbox == n.outbox + Repeat(Encode(RouteRequestFor(c, endNode)), 2)
  {
    DiscoverMissed(c, n, endNode, arrivals);
  }

  /** A request the peer checks refuse changes nothing and reports the
      check's error; past the checks the only error is an end node that is
      not configured. */
  lemma PeerRequestRefused(c: Config, n: Node, q: PeerRequest, now: int, arrivals: seq<seq<Option<Route>>>)
    ensures var r := PeerRequestSpec(c, n, q, now, arrivals);
            var problem := PeersProblem(c, n, q.sourcePeerId, q.targetPeerId);
            && (problem.Some? ==> r == Attempt(n, Failure(problem.value)))
            && (problem.None? && r.result.Failure? ==>
                  && AddressOf(n.peers, q.targetPeerId).value !in c.nodes
                  && r.result == Failure(Table(TableError.UnknownDestination(AddressOf(n.peers, q.targetPeerId).value))))
  {
    if PeersProblem(c, n, q.sourcePeerId, q.targetPeerId).None? {
      var endNode := AddressOf(n.peers, q.targetPeerId).value;
      RequestTowardsFrame(c, n, q, endNode, arrivals);
      RequestTowardsFrame(c, n.(processedConnectRequests := n.processedConnectRequests + [ConnectStamp(q.sourcePeerId, q.targetPeerId, now)]), q, endNode, arrivals);
    }
  }

  /** A connect request that passes the checks and is not a duplicate is
      stamped with `now`; the peers and connect stamps are otherwise kept,
      and a disconnect request stamps nothing. */
  lemma PeerRequestStamps(c: Config, n: Node, q: PeerRequest, now: int, arrivals: seq<seq<Option<Route>>>)
    ensures var r := PeerRequestSpec(c, n, q, now, arrivals);
            && r.node.peers == n.peers
            && r.node == n.(routes := r.node.routes, unsupported := r.node.unsupported, outbox := r.node.outbox,
                            processedConnectRequests := r.node.processedConnectRequests)
            && (q.Disconnect? ==> r.node.processedConnectRequests == n.processedConnectRequests)
            && (q.Connect? && PeersProblem(c, n, q.sourcePeerId, q.targetPeerId).None?
                && !ConnectSeen(n.processedConnectRequests, q.sourcePeerId, q.targetPeerId, now) ==>
                  r.node.processedConnectRequests
                  == n.processedConnectRequests + [ConnectStamp(q.sourcePeerId, q.targetPeerId, now)])
  {
    if PeersProblem(c, n, q.sourcePeerId, q.targetPeerId).None? {
      var endNode := AddressOf(n.peers, q.targetPeerId).value;
      RequestTowardsFrame(c, n, q, endNode, arrivals);
      RequestTowardsFrame(c, n.(processedConnectRequests := n.processedConnectRequests + [ConnectStamp(q.sourcePeerId, q.targetPeerId, now)]), q, endNode, arrivals);
    }
  }

  /** The same connect request made again within the 45-second window of
      one that passed the checks and was sent does nothing. */
  lemma ConnectRequestDeduplicated(c: Config, n: Node, s: string, t: string, timeout: string, again: string,
                                   now: int, later: int, arrivals: seq<seq<Option<Route>>>, arrivals2: seq<seq<Option<Route>>>)
    requires PeersProblem(c, n, s, t).None? && !ConnectSeen(n.processedConnectRequests, s, t, now)
    requires later - now < CONNECT_REQUEST_WINDOW
    ensures var r := PeerRequestSpec(c, n, Connect(s, t, timeout), now, arrivals);
            PeerRequestSpec(c, r.node, Connect(s, t, again), later, arrivals2) == Attempt(r.node, Success(()))
  {
    var q := Connect(s, t, timeout);
    var r := PeerRequestSpec(c, n, q, now, arrivals);
    PeerRequestStamps(c, n, q, now, arrivals);
    assert PeersProblem(c, r.node, s, t).None?;
    assert ConnectStamp(s, t, now) in r.node.processedConnectRequests;
    ConnectSeenSpec(r.node.processedConnectRequests, s, t, later);
  }
}
