# lora_multihop protocol engine in Dafny

This project models the protocol engine of `lora_multihop`, a multi-hop ad-hoc
routing protocol for LoRa radio modules. Nodes speak to their modem in AT
commands. Every node relays route requests, route replies, route errors,
messages and acknowledgements for the others. The newer generation adds peer
registrations and connect and disconnect requests between applications.

The repository holds two generations of the engine, and both are modelled.

- **Older generation (`src/protocol/`).**
  - `Codec`: the header module. It splits a received line by the modem's comma
    delimiter and the header by `|`, checks the address and number fields, and
    builds the header strings. The main proved property is the round trip
    `Decode(Line(rf, meta, Encode(h))) == Success(h)`.
  - `LegacyTable`: the routing table. It keeps the routes, the list of
    unsupported nodes, the peers, and the time-stamped lists of processed route
    requests and registrations.
  - `LegacyEngine`: `ProtocolLite`, with its receive handlers, the route search
    and `send_message`.
- **Newer generation (`src/lora_multihop/`).**
  - `MultihopTable`: the routing table, which adds a list of connect requests
    kept for 45 seconds.
  - `MultihopHeader`: the header strings this engine sends, with six-digit
    message ids.
  - `MultihopEngine`: the newer `ProtocolLite`. It adds registrations,
    connect/disconnect requests, numbered messages and a connected node.
- **Shared modules.**
  - `Text`: Python's `str.split`, `split(maxsplit=…)`, `int()` and `str(int)`
    on `seq<char>`.
  - `TableCommon`: the list operations both routing tables share. Each source
    `for` loop appears twice: once as a function that specifies it, and once as
    a method with a `while` loop proved equal to that function.

How the engines are modelled:

- Each engine is a `class` whose fields are the source's fields. Its methods
  have `modifies` clauses.
- Each handler is specified by a pure step function over a snapshot `Node` of
  the engine. A method ensures that the new snapshot and its outcome are what the
  step function gives for the old snapshot.
- An outcome is one of:
  - `Completed`;
  - `Raised`: a `ValueError` that the receive loop catches, after which it lists
    the transmitter as a node of another protocol;
  - `Crashed`: a `KeyError` or `TypeError` that ends the receive thread.
- Each send of a header appends its string to `outbox`.
- Payloads delivered to the application are recorded in `delivered`. Events
  sent to the application are recorded in `ipc`.
- The clock is an explicit `now` parameter.
- The hash behind acknowledgement ids, base64, and the newer generation's header
  parser are configuration parameters (`ackIdOf`, `encode64`, `decode64`,
  `parse`).

The blocking retry loops run while the receive thread works concurrently.
Each loop is modelled against a trace of what that thread does during each
wait:

- the routes it learns;
- whether it processes the acknowledgement;
- whether the node hears its own registration back.

These traces are also parameters. A recursive specification function gives the
result of each loop. Each loop is a method with a `while` loop proved equal to
that function. Lemmas about the function state:

- how often a header is sent;
- when a send is reported acknowledged;
- that route errors follow unanswered messages;
- that awaited ids are balanced.

Behaviour kept as the code has it:

- **Only two route requests per search.** In the newer engine the route-search
  counter advances once after the polls and once more when no route was found.
  So `send_route_request_message` broadcasts at most two route requests, not
  three (`src/lora_multihop/protocol_lite.py:153-169`).
  `MultihopEngine.DiscoverMissed` and `MultihopEngine.SendMessageNoRoute` state
  this.
- **The list of processed route requests can become `None`.** In the older
  routing table, `add_address_to_processed_list` returns `None` when the
  address is already listed. So a repeat route request arriving after the
  timeout replaces the list with `None`. Every later route request then fails
  with a `TypeError` and ends the receive thread. `LegacyEngine.ExpiredRequestPoisonsList`
  states this.
- **Acknowledgements are not checked against the destination.** The older
  engine's `process_ack_header` removes the acknowledgement id whatever the
  acknowledgement's destination.
- **A disconnect request sets the connected node.** In the newer engine, a
  disconnect request addressed to this node makes its source the connected node,
  just as a connect request does (`src/lora_multihop/protocol_lite.py:345-352`).
- **Messages are never recorded as received.** Nothing ever appends to the
  newer table's `received_messages`. So the duplicate check only sees entries
  that were there from the start.

## Model

All "src/lora_multihop/protocol_lite.py" rows use the newer engine; all "src/protocol/protocol_lite.py" rows the older one.

| member | source | states |
|---|---|---|
| Text.Split | src/protocol/header.py:35 | `str.split(sep)` yields at least one part and no part holds the separator |
| Text.SplitMax | src/protocol/header.py:27 | `split(sep, maxsplit=n)` yields between one and n+1 parts |
| Text.JoinSplit | src/protocol/header.py:35 | joining the parts of a split with the separator gives back the string |
| Text.SplitNoSeparator | src/protocol/header.py:35 | a string without the separator splits into itself alone |
| Text.SplitCons | src/protocol/header.py:35 | a string `a + sep + b`, `a` free of the separator, splits into `a` followed by the parts of `b` |
| Text.SplitMaxZero | src/protocol/header.py:27 | with no splits left the whole string is the one part |
| Text.SplitMaxCons | src/protocol/header.py:27 | `a + sep + b` splits with limit n+1 into `a` followed by the limit-n parts of `b` |
| Text.SplitMaxAgrees | src/protocol/header.py:119-125 | the parts before the last of a limited split are those of the full split, so both ways of reading the transmitter address agree |
| Text.NatToString | src/protocol/header.py:163-164 | `str(n)` of a natural number is a non-empty string of digits |
| Text.IntToString | src/protocol/header.py:231-240 | `str(i)` is non-empty and holds only digits and `-` |
| Text.DigitsOfNat | src/protocol/header.py:44-49 | the digits of `str(n)` read back as `n` |
| Text.ParseIntToString | src/protocol/header.py:44-49 | `int(str(i)) == i` for every integer |
| Text.IntToStringHasNo | src/protocol/header.py:231-240 | decimal text never holds a delimiter |
| Codec.SplitHeaderString | src/protocol/header.py:35-38 | a header string of delimiter-free fields splits into an empty part, the fields and an empty part, so deleting the first and last part leaves the fields |
| Codec.SplitTerminated | src/protocol/header.py:231-240 | the `|`-terminated fields split into the fields and one empty part |
| Codec.DecodeFields | src/protocol/header.py:35-90 | a parsed header is well formed (four-character addresses, known flag, known destination, non-empty payload, five fields for a route request), keeps the transmitter and holds exactly the fields it was parsed from |
| Codec.Decode | src/protocol/header.py:20-90 | `create_header_obj_from_raw_message` succeeds only on a line whose header fields the result holds, and then the result is well formed |
| Codec.SenderRecovery | src/protocol/header.py:119-125 | `get_received_from_value` recovers the transmitter of every line that parses, and fails only when parsing fails on the line's length or on the `received_from` field |
| Codec.LineParts | src/protocol/header.py:27-32 | a modem line `LR,<rf>,<meta>,<header>` splits with `maxsplit=3` into its four parts, whatever commas the header holds |
| Codec.DecodeLine | src/protocol/header.py:20-90 | parsing a line carrying a header string of delimiter-free fields reads back those fields and parses them |
| Codec.RoundTrip | src/protocol/header.py:146-240 | parsing the line the modem delivers for `get_header_str()` of a well-formed header gives that header back |
| CodecExamples.RouteRequestDecodes | src/tests/test_header.py:10-16 | the route request test line parses into the expected header |
| CodecExamples.RouteRequestWithoutHopsDecodes | src/tests/test_header.py:18-19 | a route request missing a field is a `ValueError` |
| CodecExamples.RouteRequestWithExtraFieldDecodes | src/tests/test_header.py:21-22 | a route request with a sixth field is a `ValueError` |
| CodecExamples.RouteReplyDecodes | src/tests/test_header.py:24-32 | the route reply test line parses into the expected header |
| CodecExamples.AckDecodes | src/tests/test_header.py:34-36 | the acknowledgement test line parses into the expected header |
| CodecExamples.UnknownFlagDecodes | src/tests/test_header.py:38-39 | an unknown flag is a `ValueError` |
| CodecExamples.MessageDecodes | src/tests/test_header.py:41-49 | the message test line parses into the expected header |
| CodecExamples.MessageWithCommaDecodes | src/tests/test_header.py:51-59 | a payload holding commas survives parsing |
| CodecExamples.MessageWithoutPayloadDecodes | src/tests/test_header.py:61-62 | a message line without a payload field is a `ValueError` |
| CodecExamples.LineWithoutHeaderFails | src/tests/test_header.py:64-65 | a line without a header part is a `ValueError` |
| CodecExamples.EncodeRouteRequest | src/tests/test_header.py:67-69 | the expected route request header string |
| CodecExamples.EncodeRouteReply | src/tests/test_header.py:71-73 | the expected route reply header string |
| CodecExamples.EncodeMessage | src/tests/test_header.py:75-77 | the expected message header string |
| CodecExamples.EncodeAck | src/tests/test_header.py:79-82 | the expected acknowledgement header string |
| CodecExamples.EncodeRouteError | src/tests/test_header.py:84-86 | the expected route error header string |
| CodecExamples.RouteErrorDecodes | src/tests/test_header.py:88-94 | the route error test line parses into the expected header |
| TableCommon.Filter | src/lora_multihop/routing_table.py:219-223 | a list comprehension keeps at most as many entries as it is given |
| TableCommon.FilterMembers | src/lora_multihop/routing_table.py:219-223 | an entry is kept exactly when it was there and passes the test |
| TableCommon.FilterDistinct | src/lora_multihop/routing_table.py:151-155 | filtering a list without duplicates gives one without duplicates |
| TableCommon.FilterIdempotent | src/lora_multihop/routing_table.py:248-260 | cleaning a cleaned list changes nothing |
| TableCommon.RemoveFirstDistinct | src/lora_multihop/routing_table.py:32-33 | `list.remove` on a list without duplicates removes exactly that element |
| TableCommon.RemoveIfPresentDistinct | src/lora_multihop/routing_table.py:32-33 | removing an element if present keeps a list free of duplicates and leaves the element out |
| TableCommon.RemoveIfPresentMultiset | src/lora_multihop/protocol_lite.py:456-461 | removing an id present takes exactly one copy off the multiset of ids; an absent id changes nothing |
| TableCommon.RemoveIfPresentCounts | src/lora_multihop/protocol_lite.py:456-461 | the same per id: one copy of the removed id goes, every other count stays |
| TableCommon.FirstMinimum | src/lora_multihop/routing_table.py:118-120 | the position `sorted(…, key=hops)[0]` picks: an entry of least hops, the first of them |
| TableCommon.BestRouteIsShortest | src/lora_multihop/routing_table.py:105-121 | the best route is absent exactly when no route leads to the destination, and otherwise is a route to it with the fewest hops |
| TableCommon.DestinationsSpec | src/lora_multihop/routing_table.py:123-132 | the destination list has no duplicates and names exactly the destinations of the routes |
| TableCommon.WithoutNodeSpec | src/lora_multihop/routing_table.py:214-223 | after `delete_all_entries_of_destination(x)` a route stays exactly when neither its destination nor its next node is `x` |
| TableCommon.WithoutPeerSpec | src/lora_multihop/routing_table.py:145-155 | `delete_peer` keeps an entry exactly when both its peer id and its address differ |
| TableCommon.AddressOf | src/lora_multihop/routing_table.py:187-195 | no address exactly for an unregistered peer; an address found belongs to an entry of that peer |
| TableCommon.FreshSpec | src/lora_multihop/routing_table.py:248-260 | cleaning keeps exactly the stamps younger than the timeout |
| TableCommon.ProcessedSpec | src/lora_multihop/routing_table.py:263-275 | an address counts as processed exactly when a stamp for it is younger than the timeout |
| TableCommon.FilterDistinctAddresses | src/lora_multihop/routing_table.py:241 | cleaning keeps the stamps' addresses distinct |
| TableCommon.Contains | src/lora_multihop/routing_table.py:75-86 | the list walk answers true exactly when the element is in the list; the tables use it for routes here and for peer entries in `check_entry_for_peer_exists` (lines 164-174) |
| TableCommon.CollectRoutesTo | src/lora_multihop/routing_table.py:113-116 | the loop collects exactly the routes to the destination, in order |
| TableCommon.BestRouteTo | src/lora_multihop/routing_table.py:105-121 | an unconfigured destination is a `ValueError`; otherwise the answer is the best route |
| TableCommon.CollectDestinations | src/lora_multihop/routing_table.py:123-132 | the loop lists the destinations in first-seen order |
| TableCommon.DropNode | src/lora_multihop/routing_table.py:214-223 | the loop builds the table without the routes naming the node |
| TableCommon.PeerRegistered | src/lora_multihop/routing_table.py:176-185 | true exactly when some entry has that peer id |
| TableCommon.FindAddressOf | src/lora_multihop/routing_table.py:187-195 | the loop returns the address of the first entry of the peer, nothing when there is none |
| TableCommon.DropPeer | src/lora_multihop/routing_table.py:145-155 | the loop builds the peer list `delete_peer` leaves |
| TableCommon.CleanStamps | src/lora_multihop/routing_table.py:248-260 | the loop keeps the stamps younger than the timeout |
| TableCommon.FindAddress | src/protocol/routing_table.py:126-129 | true exactly when a stamp for the address exists, at any age |
| TableCommon.AlreadyProcessed | src/lora_multihop/routing_table.py:263-275 | true exactly when the address was processed within the timeout |
| LegacyTable.AddStampLegacy | src/protocol/routing_table.py:126-131 | an address already listed at any age gives `None`; otherwise the list gains one stamp for it at `now` |
| LegacyTable.BestRoutesFailurePersists | src/protocol/routing_table.py:64-70 | once a destination is not configured, the whole list of best routes fails |
| LegacyTable.BestRoutesOfDestinations | src/protocol/routing_table.py:64-70 | the best routes of a list of destinations hold one best route per destination that has one |
| LegacyTable.BestRoutesSpec | src/protocol/routing_table.py:64-70 | the best routes of all destinations are one shortest route per known destination, and the call fails exactly when a known destination is not configured |
| LegacyTable.RoutingTable.constructor | src/protocol/routing_table.py:12-17 | every list starts empty |
| LegacyTable.RoutingTable.AddRoute | src/protocol/routing_table.py:19-27 | a new route is appended once and its destination leaves the unsupported list; a known route changes nothing |
| LegacyTable.RoutingTable.AddNeighbor | src/protocol/routing_table.py:35-38 | the transmitter becomes a one-hop route to itself |
| LegacyTable.RoutingTable.MarkUnsupported | src/protocol/routing_table.py:40-42 | the address is listed once as unsupported |
| LegacyTable.RoutingTable.GetBestRoute | src/protocol/routing_table.py:44-55 | a `ValueError` for an unconfigured destination, else the best route or none |
| LegacyTable.RoutingTable.GetDestinations | src/protocol/routing_table.py:57-62 | the distinct destinations of the table |
| LegacyTable.RoutingTable.GetBestRoutes | src/protocol/routing_table.py:64-70 | the best route of every destination, or the `ValueError` of the first unconfigured one |
| LegacyTable.RoutingTable.HasRoute | src/protocol/routing_table.py:29-33 | true exactly when the route is in the table |
| LegacyTable.RoutingTable.AddPeer | src/protocol/routing_table.py:72-76 | the peer entry is appended unless present |
| LegacyTable.RoutingTable.DeletePeer | src/protocol/routing_table.py:78-83 | the peer list becomes the entries with a different id and a different address |
| LegacyTable.RoutingTable.HasPeerEntry | src/protocol/routing_table.py:88-92 | true exactly when the entry is present |
| LegacyTable.RoutingTable.IsRegistered | src/protocol/routing_table.py:94-98 | true exactly when the peer id is registered |
| LegacyTable.RoutingTable.GetAddressOfPeer | src/protocol/routing_table.py:100-103 | the address of the peer's first entry, or none |
| LegacyTable.RoutingTable.AddProcessedRouteRequest | src/protocol/routing_table.py:105-106 | the list becomes what `add_address_to_processed_list` returns, `None` for a listed address; a list already `None` is a `TypeError` |
| LegacyTable.RoutingTable.AddProcessedRegistration | src/protocol/routing_table.py:108-110 | the same for the registration list |
| LegacyTable.RoutingTable.RouteRequestProcessed | src/protocol/routing_table.py:144-149 | true exactly when a stamp for the address is younger than the timeout; the list is not changed; a `None` list is a `TypeError` |
| LegacyTable.RoutingTable.RegistrationProcessed | src/protocol/routing_table.py:122-123 | the same for the registration list |
| LegacyTable.RoutingTable.DeleteAllEntriesOf | src/protocol/routing_table.py:112-117 | the routes naming the node as destination or next node are dropped |
| MultihopTable.AddedStampSpec | src/lora_multihop/routing_table.py:234-245 | after adding, the addresses are distinct, the address counts as processed, and a stamp is kept exactly when it was fresh or is the new one |
| MultihopTable.AddedStampDistinct | src/lora_multihop/routing_table.py:241-244 | adding keeps the addresses distinct |
| MultihopTable.AddedStampProcessed | src/lora_multihop/routing_table.py:241-244 | after adding, the address counts as processed |
| MultihopTable.AddedStampMembers | src/lora_multihop/routing_table.py:241-244 | a stamp is kept exactly when it was fresh, or it is the new one for an address not processed |
| MultihopTable.AddStamp | src/lora_multihop/routing_table.py:234-245 | the loops of `add_address_to_processed_list` compute the cleaned and extended list |
| MultihopTable.ConnectSeenSpec | src/lora_multihop/routing_table.py:46-61 | a connect request counts as seen exactly when a stamp for the pair is younger than 45 seconds |
| MultihopTable.RoutingTable.constructor | src/lora_multihop/routing_table.py:12-19 | every list starts empty |
| MultihopTable.RoutingTable.AddRoute | src/lora_multihop/routing_table.py:21-35 | a new route is appended once and its destination leaves the unsupported list; a known route changes nothing |
| MultihopTable.RoutingTable.AddNeighbor | src/lora_multihop/routing_table.py:88-95 | the transmitter becomes a one-hop route to itself |
| MultihopTable.RoutingTable.MarkUnsupported | src/lora_multihop/routing_table.py:97-103 | the address is listed once as unsupported |
| MultihopTable.RoutingTable.GetBestRoute | src/lora_multihop/routing_table.py:105-121 | a `ValueError` for an unconfigured destination, else the best route or none |
| MultihopTable.RoutingTable.GetDestinations | src/lora_multihop/routing_table.py:123-132 | the distinct destinations of the table |
| MultihopTable.RoutingTable.HasRoute | src/lora_multihop/routing_table.py:75-86 | true exactly when the route is in the table |
| MultihopTable.RoutingTable.AddPeer | src/lora_multihop/routing_table.py:134-143 | the peer entry is appended unless present |
| MultihopTable.RoutingTable.DeletePeer | src/lora_multihop/routing_table.py:145-155 | the peer list becomes the entries with a different id and a different address |
| MultihopTable.RoutingTable.HasPeerEntry | src/lora_multihop/routing_table.py:164-174 | true exactly when the entry is present |
| MultihopTable.RoutingTable.IsRegistered | src/lora_multihop/routing_table.py:176-185 | true exactly when the peer id is registered |
| MultihopTable.RoutingTable.GetAddressOfPeer | src/lora_multihop/routing_table.py:187-195 | the address of the peer's first entry, or none |
| MultihopTable.RoutingTable.AddProcessedRouteRequest | src/lora_multihop/routing_table.py:197-203 | the list is cleaned and gains a stamp at `now` unless the address was processed |
| MultihopTable.RoutingTable.AddProcessedRegistration | src/lora_multihop/routing_table.py:205-212 | the same for the registration list |
| MultihopTable.RoutingTable.RouteRequestProcessed | src/lora_multihop/routing_table.py:225-231 | true exactly when the address was processed within the timeout |
| MultihopTable.RoutingTable.DeleteAllEntriesOf | src/lora_multihop/routing_table.py:214-223 | the routes naming the node as destination or next node are dropped |
| MultihopTable.RoutingTable.AddConnectRequest | src/lora_multihop/routing_table.py:37-44 | the pair is stamped with `now` |
| MultihopTable.RoutingTable.ConnectRequestSeen | src/lora_multihop/routing_table.py:46-61 | true exactly when the pair was stamped less than 45 seconds ago |
| MultihopTable.RoutingTable.MessageAlreadyReceived | src/lora_multihop/routing_table.py:63-73 | true exactly when the source and message id were recorded |
| MultihopHeader.ZeroPaddedSpec | src/tests/test_protocol.py:216-225 | padding with leading zeros gives at least the width, keeps the text as a suffix and adds only zeros |
| MultihopHeader.LeadingZero | src/tests/test_protocol.py:216-225 | a leading zero does not change the value `int()` reads |
| MultihopHeader.PaddedIdValue | src/tests/test_protocol.py:216-225 | the padded digits of an id read back as the id |
| MultihopHeader.MessageIdReadsBack | src/lora_multihop/protocol_lite.py:453-461 | `int()` of a six-digit message id gives the id, so an acknowledgement releases the message it answers |
| MultihopHeader.FieldsSpec | src/tests/test_protocol.py:252-269 | every header has at least four fields, led by its source, its flag and its time-to-live, which read back with `int()` |
| MultihopHeaderExamples.FirstMessageId | src/tests/test_protocol.py:216-225 | message id 1 is written `000001` |
| MultihopHeaderExamples.ForwardedAckWire | src/tests/test_protocol.py:17-22 | the expected forwarded acknowledgement header string |
| MultihopHeaderExamples.ForwardedRegistrationWire | src/tests/test_protocol.py:24-29 | the expected forwarded registration header string |
| MultihopHeaderExamples.RouteErrorWire | src/tests/test_protocol.py:252-261 | the expected route error header string |
| MultihopHeaderExamples.RouteRequestWire | src/tests/test_protocol.py:263-269 | the expected route request header string |
| MultihopHeaderExamples.ForwardedRouteRequestWire | src/tests/test_protocol.py:286-291 | the expected forwarded route request header string |
| MultihopHeaderExamples.RouteReplyWire | src/tests/test_protocol.py:301-304 | the expected route reply header string |
| MultihopHeaderExamples.AckWire | src/tests/test_protocol.py:306-312 | the expected acknowledgement header string |
| MultihopHeaderExamples.ForwardedConnectRequestFields | src/tests/test_protocol.py:56-62 | the fields of the expected forwarded connect request |
| MultihopHeaderExamples.ConnectRequestFields | src/tests/test_protocol.py:72-84 | the fields of the expected connect request |
| MultihopHeaderExamples.MessageFields | src/tests/test_protocol.py:216-225 | the fields of the expected message header |
| MultihopHeaderExamples.ForwardedMessageFields | src/tests/test_protocol.py:314-322 | the fields of the expected forwarded message header |
| LegacyEngine.SearchRounds | src/protocol/protocol_lite.py:109-126 | a route search reporting success leaves a route to the end node |
| LegacyEngine.ProtocolLite.constructor | src/protocol/protocol_lite.py:25-27 | a fresh engine with an empty table, no awaited ids and nothing sent |
| LegacyEngine.ProtocolLite.SendHeader | src/protocol/protocol_lite.py:33-41 | the header string is sent and nothing else changes |
| LegacyEngine.ProtocolLite.SendRouteReply | src/protocol/protocol_lite.py:161-164 | a route reply from this node towards the end node by way of the next node is sent |
| LegacyEngine.ProtocolLite.AddToAckList | src/protocol/protocol_lite.py:247-251 | the message's acknowledgement id is awaited once more |
| LegacyEngine.ProtocolLite.DeleteFromAckList | src/protocol/protocol_lite.py:253-261 | one copy of the id stops being awaited; an absent id is not an error |
| LegacyEngine.ProtocolLite.ProcessRouteRequest | src/protocol/protocol_lite.py:128-159 | the engine ends as the route request step says |
| LegacyEngine.ProtocolLite.ProcessMessage | src/protocol/protocol_lite.py:166-186 | the engine ends as the message step says |
| LegacyEngine.ProtocolLite.ProcessRouteReply | src/protocol/protocol_lite.py:188-212 | the engine ends as the route reply step says |
| LegacyEngine.ProtocolLite.ProcessRouteError | src/protocol/protocol_lite.py:214-222 | the engine ends as the route error step says |
| LegacyEngine.ProtocolLite.ProcessAck | src/protocol/protocol_lite.py:224-231 | the engine ends as the acknowledgement step says |
| LegacyEngine.ProtocolLite.MarkSenderUnsupported | src/protocol/protocol_lite.py:63-70 | the recoverable transmitter of a rejected line is listed as unsupported |
| LegacyEngine.ProtocolLite.ProcessIncomingMessage | src/protocol/protocol_lite.py:43-70 | one pass of the receive loop ends as the receive step says |
| LegacyEngine.ProtocolLite.Learn | src/protocol/protocol_lite.py:43-70 | a route learned by the receive thread during a wait is added |
| LegacyEngine.ProtocolLite.SendRouteRequest | src/protocol/protocol_lite.py:109-126 | the three broadcast-and-wait rounds end as the search specification says |
| LegacyEngine.ProtocolLite.SearchOnce | src/protocol/protocol_lite.py:114-125 | one round either ends the search as specified or leaves the rest of it to the next round |
| LegacyEngine.ProtocolLite.AwaitAck | src/protocol/protocol_lite.py:85-98 | the three send-and-wait rounds end as the acknowledgement specification says |
| LegacyEngine.ProtocolLite.SendMessage | src/protocol/protocol_lite.py:72-107 | `send_message` ends as its specification says |
| LegacyEngine.HandleSendsAtMostOne | src/protocol/protocol_lite.py:128-231 | every handler sends at most one header and keeps what was sent before |
| LegacyEngine.ReceiveSendsAtMostOne | src/protocol/protocol_lite.py:43-70 | one pass of the receive loop sends at most one header |
| LegacyEngine.ReceiveMalformed | src/protocol/protocol_lite.py:63-70 | a line that does not parse changes only the unsupported list, which keeps its members and gains the recoverable transmitter |
| LegacyEngine.ReceiveShortLived | src/protocol/protocol_lite.py:49-50 | a header with a time-to-live of at most one changes nothing |
| LegacyEngine.ReceiveNeighbour | src/protocol/protocol_lite.py:51-62 | the transmitter of a handled header (other than a route error) becomes a one-hop route, and a `ValueError` in the handler marks it unsupported |
| LegacyEngine.MessageForMeAcknowledged | src/protocol/protocol_lite.py:166-173 | a message for this node is answered with one acknowledgement which parses back to the source with the message's acknowledgement id, and routes and awaited ids stay |
| LegacyEngine.AcknowledgementRoundTrip | src/protocol/protocol_lite.py:224-231 | end to end: the acknowledgement node `b` sends for `a`'s message, parsed by `a`, ends `a`'s wait for one copy of its id |
| LegacyEngine.RouteRequestForwardedOnce | src/protocol/protocol_lite.py:147-159 | the first relayed request for an end node is forwarded with one hop more and one time-to-live less; a repeat within the timeout sends nothing |
| LegacyEngine.ExpiredRequestPoisonsList | src/protocol/routing_table.py:126-131 | a repeat after the timeout is forwarded, the list becomes `None`, and every later relayed request ends the receive thread |
| LegacyEngine.SearchRoundsSpec | src/protocol/protocol_lite.py:109-126 | the search answers for configured nodes and raises for others, touches only routes and sent headers, and a failed search sent its request in every remaining round and found no route |
| LegacyEngine.SearchRoundsResult | src/protocol/protocol_lite.py:109-126 | the search answers for configured end nodes and raises for the others |
| LegacyEngine.SearchRoundsFrame | src/protocol/protocol_lite.py:109-126 | the search changes only the routes and the sent headers |
| LegacyEngine.SearchRoundsMissed | src/protocol/protocol_lite.py:109-126 | a failed search broadcast its request once per remaining round and no route is known |
| LegacyEngine.AckRoundsFrame | src/protocol/protocol_lite.py:85-98 | the wait changes only the awaited ids, taking off copies of its own id only, and the sent headers |
| LegacyEngine.AckRoundsConfirmed | src/protocol/protocol_lite.py:85-98 | the wait succeeds only after an acknowledgement arrived, and an id awaited once is released by the first |
| LegacyEngine.AckRoundsExhausted | src/protocol/protocol_lite.py:85-98 | an unacknowledged wait sent the message once per remaining round |
| LegacyEngine.AckRoundsSends | src/protocol/protocol_lite.py:85-98 | an acknowledged wait sent the message between once and once per remaining round |
| LegacyEngine.SendMessageUnknownDestination | src/protocol/protocol_lite.py:73 | `send_message` fails exactly for an unconfigured destination, and then changes nothing |
| LegacyEngine.SendMessageGivesUp | src/protocol/protocol_lite.py:74-82 | `NoRoute` comes only when no route was known and three route requests were broadcast |
| LegacyEngine.MessageWaitSpec | src/protocol/protocol_lite.py:83-86 | with a route ready, the message's id is awaited once more and the outcome is the acknowledgement wait's, followed on failure by dropping the routes, the id and a route error |
| LegacyEngine.SendMessageAcknowledged | src/protocol/protocol_lite.py:85-100 | `Acknowledged` only after an acknowledgement arrived, and always when one arrives for a fresh id |
| LegacyEngine.SendMessageNotAcknowledged | src/protocol/protocol_lite.py:101-107 | `NotAcknowledged` leaves no route to or through the destination, a route error as the last header sent, and no stale awaited id |
| MultihopEngine.AckRoundsStep | src/lora_multihop/protocol_lite.py:117-131 | one round of the acknowledgement wait sends the message, then either ends the wait or leaves the rest to the next round |
| MultihopEngine.Discover | src/lora_multihop/protocol_lite.py:104-108 | a search reporting success leaves a route to the node |
| MultihopEngine.RoutePollsFound | src/lora_multihop/protocol_lite.py:156-164 | polls reporting success leave a route to the end node |
| MultihopEngine.SearchRoundsFound | src/lora_multihop/protocol_lite.py:143-170 | a search reporting success leaves a route to the end node |
| MultihopEngine.SearchKeepsCounter | src/lora_multihop/protocol_lite.py:143-170 | the route search leaves the message counter alone |
| MultihopEngine.RoutePollsKeepCounter | src/lora_multihop/protocol_lite.py:156-164 | the polls leave the message counter alone |
| MultihopEngine.RegistrationRoundsStep | src/lora_multihop/protocol_lite.py:419-432 | one round of the registration wait broadcasts, then either ends the wait or leaves the rest to the next round |
| MultihopEngine.ProtocolLite.constructor | src/lora_multihop/protocol_lite.py:25-34 | a fresh engine: empty table and lists, no connected node, counter 0, flag clear |
| MultihopEngine.ProtocolLite.SendHeader | src/lora_multihop/protocol_lite.py:43-55 | the header string is sent and nothing else changes |
| MultihopEngine.ProtocolLite.SendRouteReply | src/lora_multihop/protocol_lite.py:201-209 | a route reply from this node towards the end node is sent |
| MultihopEngine.ProtocolLite.AddToAckList | src/lora_multihop/protocol_lite.py:447-451 | the message id is awaited once more |
| MultihopEngine.ProtocolLite.DeleteFromAckList | src/lora_multihop/protocol_lite.py:456-461 | one copy of the id stops being awaited; an absent id is not an error |
| MultihopEngine.ProtocolLite.EditAckList | src/lora_multihop/protocol_lite.py:453-461 | the id read from an acknowledgement's text stops being awaited once |
| MultihopEngine.ProtocolLite.ProcessRouteRequest | src/lora_multihop/protocol_lite.py:172-199 | the engine ends as the route request step says |
| MultihopEngine.ProtocolLite.ForwardRouteRequest | src/lora_multihop/protocol_lite.py:192-199 | the relaying branch ends as specified |
| MultihopEngine.ProtocolLite.ProcessMessage | src/lora_multihop/protocol_lite.py:211-241 | the engine ends as the message step says |
| MultihopEngine.ProtocolLite.ProcessRouteReply | src/lora_multihop/protocol_lite.py:243-274 | the engine ends as the route reply step says |
| MultihopEngine.ProtocolLite.ProcessRouteError | src/lora_multihop/protocol_lite.py:276-288 | the engine ends as the route error step says |
| MultihopEngine.ProtocolLite.ProcessAck | src/lora_multihop/protocol_lite.py:290-303 | the engine ends as the acknowledgement step says |
| MultihopEngine.ProtocolLite.RecordPeer | src/lora_multihop/protocol_lite.py:313-318 | a subscription adds the peer, an unsubscription deletes it |
| MultihopEngine.ProtocolLite.ProcessRegistration | src/lora_multihop/protocol_lite.py:305-322 | the engine ends as the registration step says |
| MultihopEngine.ProtocolLite.RelayRegistration | src/lora_multihop/protocol_lite.py:306-320 | the branch for another node's registration ends as specified |
| MultihopEngine.ProtocolLite.ProcessConnectRequest | src/lora_multihop/protocol_lite.py:324-343 | the engine ends as the connect request step says |
| MultihopEngine.ProtocolLite.ProcessDisconnectRequest | src/lora_multihop/protocol_lite.py:345-363 | the engine ends as the disconnect request step says |
| MultihopEngine.ProtocolLite.MarkSenderUnsupported | src/lora_multihop/protocol_lite.py:85-93 | the recoverable transmitter of a rejected line is listed as unsupported |
| MultihopEngine.ProtocolLite.ProcessIncomingMessage | src/lora_multihop/protocol_lite.py:57-93 | one pass of the receive loop ends as the receive step says |
| MultihopEngine.ProtocolLite.Dispatch | src/lora_multihop/protocol_lite.py:67-84 | the handler chosen by the flag ends as the handle step says |
| MultihopEngine.ProtocolLite.Learn | src/lora_multihop/protocol_lite.py:57-93 | a route learned by the receive thread during a wait is added |
| MultihopEngine.ProtocolLite.PollOnce | src/lora_multihop/protocol_lite.py:157-164 | one poll either ends the polls as specified or leaves the rest to the next poll |
| MultihopEngine.ProtocolLite.PollRoute | src/lora_multihop/protocol_lite.py:156-164 | the polls end as specified |
| MultihopEngine.ProtocolLite.SendRouteRequest | src/lora_multihop/protocol_lite.py:143-170 | the search ends as specified, the counter advancing twice per failed round |
| MultihopEngine.ProtocolLite.PollAck | src/lora_multihop/protocol_lite.py:120-127 | the polls end as specified and change only the awaited ids |
| MultihopEngine.ProtocolLite.TransmitOnce | src/lora_multihop/protocol_lite.py:118-131 | one round either ends the wait as specified or leaves the rest to the next round |
| MultihopEngine.ProtocolLite.AwaitAck | src/lora_multihop/protocol_lite.py:117-131 | the three rounds end as the acknowledgement specification says |
| MultihopEngine.ProtocolLite.SendMessage | src/lora_multihop/protocol_lite.py:95-141 | `send_message` ends as its specification says, numbering the message one above the counter |
| MultihopEngine.ProtocolLite.SendNumbered | src/lora_multihop/protocol_lite.py:95-141 | the same, for the number the message will get |
| MultihopEngine.ProtocolLite.Transmit | src/lora_multihop/protocol_lite.py:110-141 | from the numbering on, `send_message` ends as the transmit specification says |
| MultihopEngine.ProtocolLite.AbandonMessage | src/lora_multihop/protocol_lite.py:138-141 | the routes naming the destination and the id go, and a route error is broadcast |
| MultihopEngine.ProtocolLite.PollLoopback | src/lora_multihop/protocol_lite.py:422-429 | the polls set the flag exactly when the registration was heard back |
| MultihopEngine.ProtocolLite.BroadcastOnce | src/lora_multihop/protocol_lite.py:420-432 | one round either ends the wait or leaves the rest to the next round |
| MultihopEngine.ProtocolLite.AwaitLoopback | src/lora_multihop/protocol_lite.py:419-432 | the three rounds end as the registration specification says |
| MultihopEngine.ProtocolLite.SendRegistration | src/lora_multihop/protocol_lite.py:410-432 | `send_registration_message` ends as its specification says |
| MultihopEngine.ProtocolLite.CheckPeers | src/lora_multihop/protocol_lite.py:401-408 | the checks report the first problem with the two peers, or none |
| MultihopEngine.ProtocolLite.SendTowards | src/lora_multihop/protocol_lite.py:371-383 | the request travels towards its end node as specified |
| MultihopEngine.ProtocolLite.SendConnectRequest | src/lora_multihop/protocol_lite.py:365-383 | `send_connect_request_header` ends as its specification says |
| MultihopEngine.ProtocolLite.SendDisconnectRequest | src/lora_multihop/protocol_lite.py:385-399 | `send_disconnect_request_header` ends as its specification says |
| MultihopEngine.RouteRequestBounds | src/lora_multihop/protocol_lite.py:172-199 | the route request handler sends at most one header and touches neither counter nor awaited ids |
| MultihopEngine.MessageBounds | src/lora_multihop/protocol_lite.py:211-241 | the same for the message handler |
| MultihopEngine.RouteReplyBounds | src/lora_multihop/protocol_lite.py:243-274 | the same for the route reply handler |
| MultihopEngine.RouteErrorBounds | src/lora_multihop/protocol_lite.py:276-288 | the same for the route error handler |
| MultihopEngine.RegistrationBounds | src/lora_multihop/protocol_lite.py:305-322 | the same for the registration handler |
| MultihopEngine.ConnectRequestBounds | src/lora_multihop/protocol_lite.py:324-343 | the same for the connect request handler |
| MultihopEngine.DisconnectRequestBounds | src/lora_multihop/protocol_lite.py:345-363 | the same for the disconnect request handler |
| MultihopEngine.AckBounds | src/lora_multihop/protocol_lite.py:290-303 | the acknowledgement handler sends at most one header and only takes awaited ids off |
| MultihopEngine.HandleBounds | src/lora_multihop/protocol_lite.py:67-84 | every handler sends at most one header, numbers nothing, starts awaiting nothing, only an acknowledgement stops awaiting an id, and only a route error drops routes |
| MultihopEngine.MarkSenderSpec | src/lora_multihop/protocol_lite.py:85-93 | the `except ValueError` branch changes only the unsupported list, which keeps its members and gains the recoverable transmitter |
| MultihopEngine.ReceiveHandles | src/lora_multihop/protocol_lite.py:63-93 | a parsed header with time-to-live above one reaches its handler after its transmitter became a one-hop route; a `ValueError` there marks the transmitter |
| MultihopEngine.ReceiveEffects | src/lora_multihop/protocol_lite.py:57-93 | one pass sends at most one header: a rejected line only marks its transmitter, a short-lived header changes nothing |
| MultihopEngine.CrashOnlyOnRouteReply | src/lora_multihop/protocol_lite.py:263-264 | the only line that ends the receive thread is a route reply relayed through this node towards a configured end node it has no route to |
| MultihopEngine.RouteRequestForMe | src/lora_multihop/protocol_lite.py:172-191 | a route request for this node is answered by one route reply by way of its transmitter, which becomes the route back to the source |
| MultihopEngine.RouteRequestForwarded | src/lora_multihop/protocol_lite.py:192-199 | a relayed request not processed within the timeout is forwarded with one hop more and one time-to-live less, and its end node stamped |
| MultihopEngine.RouteRequestForwardedOnce | src/lora_multihop/protocol_lite.py:192-199 | a repeat within the timeout is dropped |
| MultihopEngine.RouteRequestForwardedAgain | src/lora_multihop/routing_table.py:234-245 | a repeat after the timeout is forwarded again and nothing fails |
| MultihopEngine.MessageForMe | src/lora_multihop/protocol_lite.py:211-226 | a message from the connected node is acknowledged with an id that reads back as the message's, and its decoded payload is delivered unless received before |
| MultihopEngine.MessageIgnored | src/lora_multihop/protocol_lite.py:211-241 | nothing is delivered or acknowledged unless the message comes from the connected node; one neither for nor through this node is ignored |
| MultihopEngine.MessageForwarded | src/lora_multihop/protocol_lite.py:227-241 | a message routed through this node travels on once along the best route with one time-to-live less; no route sends nothing; an unconfigured destination is a `ValueError` |
| MultihopEngine.AcknowledgementRoundTrip | src/lora_multihop/protocol_lite.py:290-303 | at the level of frames: the acknowledgement `b` sends for `a`'s message ends `a`'s wait for exactly one copy of its id and is not passed on |
| MultihopEngine.AckHandling | src/lora_multihop/protocol_lite.py:290-303 | an acknowledgement for this node ends the wait for one copy of its id; any other is passed on once with one time-to-live less |
| MultihopEngine.DropAckSpec | src/lora_multihop/protocol_lite.py:453-461 | dropping an id read from text removes one copy when `int()` reads one, and changes nothing else |
| MultihopEngine.RouteErrorHandling | src/lora_multihop/protocol_lite.py:276-288 | a route error for a known destination leaves no route to or through it; for an unknown one the routes stay; it travels on once |
| MultihopEngine.RegistrationHandling | src/lora_multihop/protocol_lite.py:305-322 | another node's registration records or deletes its peer, stamps the node and travels on once; this node's own only raises the loopback flag |
| MultihopEngine.SubscribeThenUnsubscribe | src/lora_multihop/protocol_lite.py:305-322 | a subscription followed by an unsubscription from another node leaves no peer |
| MultihopEngine.PeerRequestHandling | src/lora_multihop/protocol_lite.py:324-363 | a request for this node sets the connected node and informs the application; one through this node travels on along the best route; this node's own is ignored |
| MultihopEngine.ConnectThenDeliver | src/lora_multihop/protocol_lite.py:211-226 | after a connect request from `a`, a message from `a` with a decodable payload is delivered and acknowledged |
| MultihopEngine.RoutePollsSpec | src/lora_multihop/protocol_lite.py:156-164 | the polls learn routes and forget none, raise exactly for an unconfigured node, and end without a route only when none is known |
| MultihopEngine.ArriveFrame | src/lora_multihop/protocol_lite.py:156-164 | a learned route changes only the routes and the unsupported list |
| MultihopEngine.RoutePollsFrame | src/lora_multihop/protocol_lite.py:156-164 | the polls change only routes and the unsupported list, forgetting no route |
| MultihopEngine.RoutePollsResult | src/lora_multihop/protocol_lite.py:156-164 | the polls raise exactly for an unconfigured node and end without a route only when none is known |
| MultihopEngine.SearchRoundsSpec | src/lora_multihop/protocol_lite.py:143-170 | the search forgets no route, raises exactly for an unconfigured node, and sends only its route request, at most twice, twice when it fails |
| MultihopEngine.SearchRoundsFrame | src/lora_multihop/protocol_lite.py:143-170 | the search changes only routes, the unsupported list and the sent headers |
| MultihopEngine.SearchRoundsResult | src/lora_multihop/protocol_lite.py:143-170 | the search answers for configured nodes and raises for others |
| MultihopEngine.SearchRoundOutcome | src/lora_multihop/protocol_lite.py:154-164 | one round sends exactly its route request, and polls ending without a route leave none |
| MultihopEngine.SearchRoundsSends | src/lora_multihop/protocol_lite.py:143-170 | the search sends nothing but its route request, at most once per two remaining counter steps |
| MultihopEngine.SearchRoundsMissed | src/lora_multihop/protocol_lite.py:165-170 | a failed search broadcast its request exactly twice in all and no route is known |
| MultihopEngine.AckPollsFrame | src/lora_multihop/protocol_lite.py:120-127 | one wait takes off nothing but copies of its own id |
| MultihopEngine.AckPollsResult | src/lora_multihop/protocol_lite.py:120-127 | the wait ends early exactly when the id is no longer awaited |
| MultihopEngine.AckPollsConfirmed | src/lora_multihop/protocol_lite.py:120-127 | an id is released only by a processed acknowledgement, and an id awaited once by the first one |
| MultihopEngine.AckPollsQuiet | src/lora_multihop/protocol_lite.py:120-127 | a wait without an acknowledgement changes nothing |
| MultihopEngine.AckRoundsShape | src/lora_multihop/protocol_lite.py:117-131 | the whole wait changes only the awaited ids and the sent headers |
| MultihopEngine.AckRoundsReleases | src/lora_multihop/protocol_lite.py:117-131 | the whole wait releases copies of its own id only |
| MultihopEngine.AckRoundsFrame | src/lora_multihop/protocol_lite.py:117-131 | both frame facts together |
| MultihopEngine.AckRoundsResult | src/lora_multihop/protocol_lite.py:117-131 | success exactly when the id is no longer awaited |
| MultihopEngine.AckRoundsConfirmed | src/lora_multihop/protocol_lite.py:117-131 | success only after an acknowledgement was processed |
| MultihopEngine.AckRoundsNoticed | src/lora_multihop/protocol_lite.py:117-131 | an id awaited once is released by an acknowledgement in any remaining poll |
| MultihopEngine.AckRoundsExhausted | src/lora_multihop/protocol_lite.py:117-131 | an unacknowledged wait sent the message once per remaining round |
| MultihopEngine.AckRoundsSends | src/lora_multihop/protocol_lite.py:117-131 | an acknowledged wait sent the message between once and once per remaining round, and nothing else |
| MultihopEngine.ReceiveKeepsIds | src/lora_multihop/protocol_lite.py:57-93 | the receive loop keeps every awaited id among those issued |
| MultihopEngine.ReceiveCountsAcks | src/lora_multihop/protocol_lite.py:57-93 | the receive loop issues no id and awaits no new one |
| MultihopEngine.IdsKept | src/lora_multihop/protocol_lite.py:110 | awaited ids stay issued while the counter stays and ids only go |
| MultihopEngine.FreshIdAwaitedOnce | src/lora_multihop/protocol_lite.py:110-116 | the new message number is awaited exactly once |
| MultihopEngine.TransmitFrame | src/lora_multihop/protocol_lite.py:110-141 | the transmit part changes only the routes, awaited ids, sent headers and the counter, which becomes the id |
| MultihopEngine.ConcludeKeepsIds | src/lora_multihop/protocol_lite.py:132-141 | the end of `send_message` restores the awaited ids as they were before |
| MultihopEngine.TransmitKeepsIds | src/lora_multihop/protocol_lite.py:110-141 | after sending, the awaited ids are those before, whether the acknowledgement came or not |
| MultihopEngine.SameIdsIssued | src/lora_multihop/protocol_lite.py:110 | a node with the same awaited ids and a higher counter has issued every id it awaits |
| MultihopEngine.TransmitIdsIssued | src/lora_multihop/protocol_lite.py:110-141 | after the wait every awaited id is an issued one |
| MultihopEngine.TransmitConfirmed | src/lora_multihop/protocol_lite.py:117-137 | acknowledged exactly when an acknowledgement is processed during one of the three waits |
| MultihopEngine.TransmitAcknowledged | src/lora_multihop/protocol_lite.py:117-137 | an acknowledged message was sent one to three times, nothing else sent, routes kept |
| MultihopEngine.TransmitNotAcknowledged | src/lora_multihop/protocol_lite.py:132-141 | an unacknowledged message was sent three times, followed by a route error, and every route naming the destination dropped |
| MultihopEngine.SendMessageRefused | src/lora_multihop/protocol_lite.py:95-103 | `NotConnected` exactly without a connected node, the table's error exactly for an unconfigured one, and both change nothing |
| MultihopEngine.DiscoverAnswers | src/lora_multihop/protocol_lite.py:104-108 | a search towards a configured node always gives a verdict |
| MultihopEngine.DiscoverMissed | src/lora_multihop/protocol_lite.py:104-108 | a search that finds nothing broadcast the route request twice and leaves no route |
| MultihopEngine.TransmitReports | src/lora_multihop/protocol_lite.py:132-141 | a transmitted message is reported acknowledged or not, nothing else |
| MultihopEngine.SendMessageMissed | src/lora_multihop/protocol_lite.py:104-108 | `NoRoute` exactly after a failed search towards the connected, configured node, ending in the state that search left |
| MultihopEngine.SendMessageNoRoute | src/lora_multihop/protocol_lite.py:104-108 | with `NoRoute`, two route requests and nothing else were sent, still no route is known, and no number was taken |
| MultihopEngine.SendMessageDelivery | src/lora_multihop/protocol_lite.py:95-141 | awaited ids end as they began, the message takes number `id` when a route was ready, and it is acknowledged exactly when a route was ready and an acknowledgement arrived |
| MultihopEngine.SendMessageTransmits | src/lora_multihop/protocol_lite.py:109-141 | an acknowledged or unacknowledged message went out on the route the search left |
| MultihopEngine.SendMessageGivesUp | src/lora_multihop/protocol_lite.py:132-141 | a message never acknowledged was sent three times and followed by a route error about the connected node, with no route naming that node left |
| MultihopEngine.LoopbackPollsSpec | src/lora_multihop/protocol_lite.py:422-429 | the polls end early exactly when the flag is set or the registration is heard back |
| MultihopEngine.RegistrationRoundsHeard | src/lora_multihop/protocol_lite.py:419-432 | the wait changes only sent headers and the flag, set exactly when the registration was heard back |
| MultihopEngine.RegistrationRoundsSends | src/lora_multihop/protocol_lite.py:419-432 | the registration went out between once and once per remaining round, and nothing else |
| MultihopEngine.RegistrationRoundsUnheard | src/lora_multihop/protocol_lite.py:419-432 | a registration never heard back went out once per remaining round |
| MultihopEngine.SendRegistrationPeers | src/lora_multihop/protocol_lite.py:410-418 | this node's peer is recorded first, or it and every entry sharing its id or this address removed; the flag ends set exactly when heard back |
| MultihopEngine.SendRegistrationBroadcasts | src/lora_multihop/protocol_lite.py:419-432 | the registration is broadcast one to three times, three when never heard back, nothing else sent |
| MultihopEngine.DiscoverFrame | src/lora_multihop/protocol_lite.py:373-380 | a route search changes only routes, which it keeps, the unsupported list and the sent headers |
| MultihopEngine.RequestTowardsFrame | src/lora_multihop/protocol_lite.py:371-383 | sending a request fails only for an unconfigured end node and then changes nothing |
| MultihopEngine.RequestOnKnownRoute | src/lora_multihop/protocol_lite.py:371-383 | with a known route the request goes on the best one and nothing else happens |
| MultihopEngine.RequestOnFoundRoute | src/lora_multihop/protocol_lite.py:371-383 | after a successful search the request is the last header sent, addressed to the next node of a route to the end node |
| MultihopEngine.RequestWithoutRoute | src/lora_multihop/protocol_lite.py:371-383 | without any route the request is not sent: only the two route requests were |
| MultihopEngine.PeerRequestRefused | src/lora_multihop/protocol_lite.py:365-408 | a request the peer checks refuse changes nothing and reports the check's error; past them the only error is an unconfigured end node |
| MultihopEngine.PeerRequestStamps | src/lora_multihop/protocol_lite.py:365-370 | a connect request passing the checks and not a duplicate is stamped with `now`; a disconnect request stamps nothing |
| MultihopEngine.ConnectRequestDeduplicated | src/lora_multihop/protocol_lite.py:369-370 | the same connect request made again within 45 seconds does nothing |

## Left out

- The AT-command handshake with the radio module inside `send_header` and the transport's verification timeout: a send is an append to the record of sent headers; a failed handshake is not modelled.
- The random jitter before sending, `time.sleep`, and the `SIGALRM`-based `timeout` context manager: time appears as the index of a wait or poll in the traces of the receive thread's work, and as the explicit `now`.
- Threads: the receive thread running beside a blocking send is reduced to those per-wait traces; interleavings within a single poll are not modelled, and the removal of an acknowledged id and the next transmission are recorded in one update per poll.
- `start_protocol_thread`, `stop` and the `PROCESS_INCOMING_MESSAGES` / pause flags of the receive loop: `ProcessIncomingMessage` models one pass of the loop.
- Logging, `traceback` output and the `view` module's printing.
- `calculate_ack_id` (an MD5 prefix) is the configuration function `ackIdOf`; base64 is the pair `encode64` / `decode64`; no property of MD5 or base64 is modelled beyond `decode64` being partial.
- `lora_multihop/header.py` is not part of this model: the newer engine takes its parser as the configuration function `parse`, and the header strings it builds follow the expectations in `src/tests/test_protocol.py` (the flag 8 for a disconnect request and the `true`/`false` text of a registration's subscribe field are taken as given, and so is that the parser returns the message id of a message header as a non-negative integer).
- MultihopHeaderExamples.ForwardedConnectRequestFields: the seven- and eight-field headers are stated at the level of their fields, not as complete strings.
- Python's `int()` also accepts surrounding whitespace, underscores between digits and non-ASCII digits; `Text.ParseInt` rejects them.
- `send_route_error` and `send_message_acknowledgement` in both engines: never called.
- `get_peers` returns a deep copy; in a model on values every read is a copy, so it is not a separate member.
- `get_flag_from_raw_message`, `get_raw_message_as_list` and the headers' `__str__` methods: not used by the engines.
- `MESSAGES_ACKNOWLEDGMENT` is a class attribute shared by all instances in the source; each engine keeps it as its own field.
- Header objects are changed in place by the handlers (time-to-live, hops, next node) before being re-sent; the model builds a new header value, so aliasing of one header object by two holders is not modelled.
- The newer engine's queues: the received-payload queue is `delivered`, the queue towards the application is `ipc`, and the unused outgoing-message queue is left out.
