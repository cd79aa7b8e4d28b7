/** The wire header codec of the older protocol generation: the typed header
    records, their `|f1|f2|...|` serialisation and the parser for the radio
    module's `LR,<received_from>,<meta>,<header>` lines. Every parse failure is
    a `ParseError`, standing for the `ValueError` the parser raises. */
module Codec {
  import opened Wrappers
  import opened Text

  /** Separator of the radio module's line prefix. */
  const LORA_MODULE_DELIMITER: char := ','
  /** Separator of header fields. */
  const HEADER_DELIMITER: char := '|'

  const MESSAGE_FLAG: int := 1
  const ACK_FLAG: int := 2
  const ROUTE_REQUEST_FLAG: int := 3
  const ROUTE_REPLY_FLAG: int := 4
  const ROUTE_ERROR_FLAG: int := 5

  /** A route request carries exactly this many fields. */
  const ROUTE_REQUEST_FIELD_COUNT: nat := 5

  /** The `received_from` of a header created on this node (`None` in the
      source); it is never serialised. */
  const NO_SENDER: string := ""

  /** One record per header class. `receivedFrom` is the immediate
      transmitter, `source` the originating node. */
  datatype Header =
    | RouteRequest(receivedFrom: string, source: string, ttl: int, hops: int, endNode: string)
    | RouteReply(receivedFrom: string, source: string, ttl: int, hops: int, endNode: string, nextNode: string)
    | Message(receivedFrom: string, source: string, ttl: int, destination: string, nextNode: string, payload: string)
    | RouteError(receivedFrom: string, source: string, ttl: int, brokenNode: string)
    | Ack(receivedFrom: string, source: string, ttl: int, destination: string, ackId: string)
  {
    /** The class's `HEADER_TYPE`. */
    function Flag(): int {
      match this
      case Message(_, _, _, _, _, _) => MESSAGE_FLAG
      case Ack(_, _, _, _, _) => ACK_FLAG
      case RouteRequest(_, _, _, _, _) => ROUTE_REQUEST_FLAG
      case RouteReply(_, _, _, _, _, _) => ROUTE_REPLY_FLAG
      case RouteError(_, _, _, _) => ROUTE_ERROR_FLAG
    }
  }

  datatype ParseError =
    | BadAddress(field: string)              // an address field is not 4 characters long
    | NotAnInteger(text: string)             // `int()` raised
    | UnknownDestination(destination: string) // not among the configured nodes
    | EmptyPayload
    | UnexpectedLength                       // an `IndexError` while reading fields
    | WrongFieldCount                        // a route request without exactly 5 fields
    | InvalidFlag(flag: int)

  predicate IsAddress(s: string) {
    |s| == 4
  }

  // ---------------------------------------------------------------------------
  // Serialisation

  /** `create_header_str(*args)`: every argument followed by '|', after a
      leading '|'. */
  function HeaderString(args: seq<string>): string {
    [HEADER_DELIMITER] + Terminated(args)
  }

  function Terminated(args: seq<string>): string {
    if |args| == 0 then "" else args[0] + [HEADER_DELIMITER] + Terminated(args[1..])
  }

  /** One field at the front of a header string. */
  lemma TerminatedCons(a: string, rest: seq<string>)
    ensures Terminated([a] + rest) == a + "|" + Terminated(rest)
  {
    assert ([a] + rest)[1..] == rest;
  }

  /** The header strings of four to eight fields, written out. */
  lemma Terminated4(a: string, b: string, c: string, d: string)
    ensures Terminated([a, b, c, d]) == a + "|" + b + "|" + c + "|" + d + "|"
  {
    TerminatedCons(d, []);
    TerminatedCons(c, [d]);
    TerminatedCons(b, [c, d]);
    TerminatedCons(a, [b, c, d]);
    assert [a, b, c, d] == [a] + [b, c, d];
    assert [b, c, d] == [b] + [c, d];
    assert [c, d] == [c] + [d];
    assert [d] == [d] + [];
  }

  lemma Terminated5(a: string, b: string, c: string, d: string, e: string)
    ensures Terminated([a, b, c, d, e]) == a + "|" + b + "|" + c + "|" + d + "|" + e + "|"
  {
    Terminated4(b, c, d, e);
    TerminatedCons(a, [b, c, d, e]);
    assert [a, b, c, d, e] == [a] + [b, c, d, e];
  }

  lemma Terminated6(a: string, b: string, c: string, d: string, e: string, f: string)
    ensures Terminated([a, b, c, d, e, f]) == a + "|" + b + "|" + c + "|" + d + "|" + e + "|" + f + "|"
  {
    Terminated5(b, c, d, e, f);
    TerminatedCons(a, [b, c, d, e, f]);
    assert [a, b, c, d, e, f] == [a] + [b, c, d, e, f];
  }

  /** The arguments `get_header_str` passes, in the variant's field order. */
  function Fields(h: Header): seq<string> {
    var flag := IntToString(h.Flag());
    match h
    case RouteRequest(_, source, ttl, hops, endNode) =>
      [source, flag, IntToString(ttl), IntToString(hops), endNode]
    case RouteReply(_, source, ttl, hops, endNode, nextNode) =>
      [source, flag, IntToString(ttl), IntToString(hops), endNode, nextNode]
    case Message(_, source, ttl, destination, nextNode, payload) =>
      [source, flag, IntToString(ttl), destination, nextNode, payload]
    case RouteError(_, source, ttl, brokenNode) =>
      [source, flag, IntToString(ttl), brokenNode]
    case Ack(_, source, ttl, destination, ackId) =>
      [source, flag, IntToString(ttl), destination, ackId]
  }

  /** `get_header_str()` of each header class. */
  function Encode(h: Header): string {
    HeaderString(Fields(h))
  }

  /** A header string splits back into an empty token, the fields, and an
      empty token, whenever no field holds the delimiter. */
  lemma {:induction false} SplitHeaderString(args: seq<string>)
    requires forall k :: 0 <= k < |args| ==> HEADER_DELIMITER !in args[k]
    ensures Split(HeaderString(args), HEADER_DELIMITER) == [""] + args + [""]
  {
    SplitTerminated(args);
    assert HeaderString(args) == "" + [HEADER_DELIMITER] + Terminated(args);
    SplitCons("", HEADER_DELIMITER, Terminated(args));
  }

  lemma {:induction false} SplitTerminated(args: seq<string>)
    requires forall k :: 0 <= k < |args| ==> HEADER_DELIMITER !in args[k]
    ensures Split(Terminated(args), HEADER_DELIMITER) == args + [""]
    decreases |args|
  {
    if |args| > 0 {
      SplitTerminated(args[1..]);
      SplitCons(args[0], HEADER_DELIMITER, Terminated(args[1..]));
      assert [args[0]] + (args[1..] + [""]) == args + [""];
    }
  }

  // ---------------------------------------------------------------------------
  // Parsing

  /** The header fields of a raw line: everything after the third comma,
      split on '|', with the first and the last token removed. `None` where
      the source runs into an `IndexError`. */
  function HeaderFields(raw: string): Option<seq<string>> {
    var parts := SplitMax(raw, LORA_MODULE_DELIMITER, 3);
    if |parts| < 4 then None
    else
      var items := Split(parts[3], HEADER_DELIMITER);
      if |items| < 2 then None else Some(items[1..|items| - 1])
  }

  /** What a successfully parsed header guarantees. */
  predicate WellFormed(h: Header, nodes: set<string>) {
    && IsAddress(h.receivedFrom)
    && IsAddress(h.source)
    && match h
       case RouteRequest(_, _, _, _, endNode) => IsAddress(endNode)
       case RouteReply(_, _, _, _, endNode, nextNode) => IsAddress(endNode) && IsAddress(nextNode)
       case Message(_, _, _, destination, nextNode, payload) =>
         destination in nodes && IsAddress(nextNode) && |payload| > 0
       case RouteError(_, _, _, brokenNode) => IsAddress(brokenNode)
       case Ack(_, _, _, destination, _) => destination in nodes
  }

  /** Each decoded value is the wire token at its position; a route request
      has exactly five fields, every other variant at least as many as it reads. */
  predicate FieldsMatch(f: seq<string>, h: Header) {
    && |f| >= 4
    && f[0] == h.source
    && ParseInt(f[1]) == Some(h.Flag())
    && ParseInt(f[2]) == Some(h.ttl)
    && match h
       case RouteRequest(_, _, _, hops, endNode) =>
         |f| == ROUTE_REQUEST_FIELD_COUNT && ParseInt(f[3]) == Some(hops) && f[4] == endNode
       case RouteReply(_, _, _, hops, endNode, nextNode) =>
         |f| >= 6 && ParseInt(f[3]) == Some(hops) && f[4] == endNode && f[5] == nextNode
       case Message(_, _, _, destination, nextNode, payload) =>
         |f| >= 6 && f[3] == destination && f[4] == nextNode && f[5] == payload
       case RouteError(_, _, _, brokenNode) => f[3] == brokenNode
       case Ack(_, _, _, destination, ackId) => |f| >= 5 && f[3] == destination && f[4] == ackId
  }

  /** The body of `create_header_obj_from_raw_message` after the header string
      has been split: validation in the source's order, one error per `raise`. */
  function DecodeFields(receivedFrom: string, f: seq<string>, nodes: set<string>): (r: Result<Header, ParseError>)
    requires IsAddress(receivedFrom)
    ensures r.Success? ==> WellFormed(r.value, nodes) && r.value.receivedFrom == receivedFrom
    ensures r.Success? ==> FieldsMatch(f, r.value)
  {
    if |f| < 1 then Failure(UnexpectedLength)
    else if !IsAddress(f[0]) then Failure(BadAddress("source"))
    else if |f| < 2 then Failure(UnexpectedLength)
    else match ParseInt(f[1])
      case None => Failure(NotAnInteger(f[1]))
      case Some(flag) =>
        if |f| < 3 then Failure(UnexpectedLength)
        else match ParseInt(f[2])
          case None => Failure(NotAnInteger(f[2]))
          case Some(ttl) =>
            if flag == MESSAGE_FLAG || flag == ACK_FLAG then
              if |f| < 4 then Failure(UnexpectedLength)
              else if f[3] !in nodes then Failure(UnknownDestination(f[3]))
              else if flag == ACK_FLAG then
                if |f| < 5 then Failure(UnexpectedLength)
                else Success(Ack(receivedFrom, f[0], ttl, f[3], f[4]))
              else if |f| < 5 then Failure(UnexpectedLength)
              else if !IsAddress(f[4]) then Failure(BadAddress("next_node"))
              else if |f| < 6 then Failure(UnexpectedLength)
              else if |f[5]| == 0 then Failure(EmptyPayload)
              else Success(Message(receivedFrom, f[0], ttl, f[3], f[4], f[5]))
            else if flag == ROUTE_REQUEST_FLAG || flag == ROUTE_REPLY_FLAG then
              if |f| < 4 then Failure(UnexpectedLength)
              // check_int_field only converts texts whose length differs from 1;
              // the constructor's int() catches the rest, after the length checks
              else if |f[3]| != 1 && ParseInt(f[3]).None? then Failure(NotAnInteger(f[3]))
              else if |f| < 5 then Failure(UnexpectedLength)
              else if !IsAddress(f[4]) then Failure(BadAddress("end_node"))
              else if flag == ROUTE_REQUEST_FLAG then
                if |f| != ROUTE_REQUEST_FIELD_COUNT then Failure(WrongFieldCount)
                else match ParseInt(f[3])
                  case None => Failure(NotAnInteger(f[3]))
                  case Some(hops) => Success(RouteRequest(receivedFrom, f[0], ttl, hops, f[4]))
              else if |f| < 6 then Failure(UnexpectedLength)
              else if !IsAddress(f[5]) then Failure(BadAddress("next_node"))
              else match ParseInt(f[3])
                case None => Failure(NotAnInteger(f[3]))
                case Some(hops) => Success(RouteReply(receivedFrom, f[0], ttl, hops, f[4], f[5]))
            else if flag == ROUTE_ERROR_FLAG then
              if |f| < 4 then Failure(UnexpectedLength)
              else if !IsAddress(f[3]) then Failure(BadAddress("broken node"))
              else Success(RouteError(receivedFrom, f[0], ttl, f[3]))
            else Failure(InvalidFlag(flag))
  }

  /** `create_header_obj_from_raw_message`: the header string is everything
      after the third comma, so commas inside a payload survive. */
  function Decode(raw: string, nodes: set<string>): (r: Result<Header, ParseError>)
    ensures r.Success? ==> WellFormed(r.value, nodes)
    ensures r.Success? ==> HeaderFields(raw).Some? && FieldsMatch(HeaderFields(raw).value, r.value)
  {
    var parts := SplitMax(raw, LORA_MODULE_DELIMITER, 3);
    if |parts| < 2 then Failure(UnexpectedLength)
    else if !IsAddress(parts[1]) then Failure(BadAddress("received_from"))
    else match HeaderFields(raw)
      case None => Failure(UnexpectedLength)
      case Some(f) => DecodeFields(parts[1], f, nodes)
  }

  /** `get_received_from_value`: the second comma-separated token, when it is
      an address. */
  function ReceivedFromValue(raw: string): Result<string, ParseError> {
    var parts := Split(raw, LORA_MODULE_DELIMITER);
    if |parts| < 2 then Failure(UnexpectedLength)
    else if !IsAddress(parts[1]) then Failure(BadAddress(""))
    else Success(parts[1])
  }

  /** The dispatcher's recovery of the transmitter agrees with the parser: a
      decoded header's sender is the recovered one, and a line whose sender
      cannot be recovered failed on its first two comma-separated tokens. */
  lemma SenderRecovery(raw: string, nodes: set<string>)
    ensures Decode(raw, nodes).Success? ==>
              ReceivedFromValue(raw) == Success(Decode(raw, nodes).value.receivedFrom)
    ensures ReceivedFromValue(raw).Failure? ==>
              Decode(raw, nodes).Failure? &&
              Decode(raw, nodes).error in {UnexpectedLength, BadAddress("received_from")}
  {
    SplitMaxAgrees(raw, LORA_MODULE_DELIMITER, 3, 1);
  }

  /** The line the radio module delivers for a header sent by `receivedFrom`. */
  function Line(receivedFrom: string, meta: string, header: string): string {
    "LR," + receivedFrom + "," + meta + "," + header
  }

  /** No string field of the header holds the field delimiter. */
  predicate NoDelimiter(h: Header) {
    forall k :: 0 <= k < |Fields(h)| ==> HEADER_DELIMITER !in Fields(h)[k]
  }

  lemma LineParts(receivedFrom: string, meta: string, header: string)
    requires LORA_MODULE_DELIMITER !in receivedFrom && LORA_MODULE_DELIMITER !in meta
    ensures SplitMax(Line(receivedFrom, meta, header), LORA_MODULE_DELIMITER, 3)
            == ["LR", receivedFrom, meta, header]
  {
    var c := LORA_MODULE_DELIMITER;
    assert Line(receivedFrom, meta, header) == "LR" + [c] + (receivedFrom + [c] + (meta + [c] + header));
    SplitMaxCons("LR", c, receivedFrom + [c] + (meta + [c] + header), 2);
    SplitMaxCons(receivedFrom, c, meta + [c] + header, 1);
    SplitMaxCons(meta, c, header, 0);
    SplitMaxZero(header, c);
  }

  /** A line carrying a header string built from '|'-free fields decodes
      exactly as those fields do. */
  lemma DecodeLine(receivedFrom: string, meta: string, f: seq<string>, nodes: set<string>)
    requires LORA_MODULE_DELIMITER !in receivedFrom && LORA_MODULE_DELIMITER !in meta
    requires forall k :: 0 <= k < |f| ==> HEADER_DELIMITER !in f[k]
    ensures HeaderFields(Line(receivedFrom, meta, HeaderString(f))) == Some(f)
    ensures Decode(Line(receivedFrom, meta, HeaderString(f)), nodes) ==
              if IsAddress(receivedFrom) then DecodeFields(receivedFrom, f, nodes)
              else Failure(BadAddress("received_from"))
  {
    LineParts(receivedFrom, meta, HeaderString(f));
    SplitHeaderString(f);
    var items := [""] + f + [""];
    assert items[1..|items| - 1] == f;
  }

  /** Round trip: parsing the line that carries `Encode(h)` gives back `h`,
      for every well-formed header whose fields hold no '|'. */
  lemma RoundTrip(h: Header, meta: string, nodes: set<string>)
    requires WellFormed(h, nodes) && NoDelimiter(h)
    requires LORA_MODULE_DELIMITER !in h.receivedFrom && LORA_MODULE_DELIMITER !in meta
    ensures Decode(Line(h.receivedFrom, meta, Encode(h)), nodes) == Success(h)
  {
    DecodeLine(h.receivedFrom, meta, Fields(h), nodes);
    ParseIntToString(h.Flag());
    ParseIntToString(h.ttl);
    match h
    case RouteRequest(_, _, _, hops, _) => ParseIntToString(hops);
    case RouteReply(_, _, _, hops, _, _) => ParseIntToString(hops);
    case _ =>
  }
}
