/** The headers of the newer protocol generation and their header strings.
    The newer header module itself is not part of this model; the field
    order of every variant is the one its callers' unit tests expect, and
    the header strings use the same '|' framing as the older codec. */
module MultihopHeader {
  import opened Wrappers
  import opened Text
  import Codec

  const MESSAGE_FLAG: int := 1
  const ACK_FLAG: int := 2
  const ROUTE_REQUEST_FLAG: int := 3
  const ROUTE_REPLY_FLAG: int := 4
  const ROUTE_ERROR_FLAG: int := 5
  const REGISTRATION_FLAG: int := 6
  const CONNECT_REQUEST_FLAG: int := 7
  const DISCONNECT_REQUEST_FLAG: int := 8

  /** Message ids travel as six zero-padded decimal digits. */
  const MESSAGE_ID_WIDTH: nat := 6

  /** `receivedFrom` is the transmitter the radio module reports; headers
      this node creates carry `Codec.NO_SENDER` there, which no header
      string contains. */
  datatype Frame =
    | RouteRequest(receivedFrom: string, source: string, ttl: int, hops: int, endNode: string)
    | RouteReply(receivedFrom: string, source: string, ttl: int, hops: int, endNode: string, nextNode: string)
    | Message(receivedFrom: string, source: string, ttl: int, destination: string, nextNode: string,
              messageId: nat, payload: string)
    | RouteError(receivedFrom: string, source: string, ttl: int, brokenNode: string)
    | Ack(receivedFrom: string, source: string, ttl: int, destination: string, ackId: string)
    | Registration(receivedFrom: string, source: string, ttl: int, subscribe: bool, peerId: string)
    | ConnectRequest(receivedFrom: string, source: string, ttl: int, endNode: string, nextNode: string,
                     sourcePeerId: string, targetPeerId: string, timeout: string)
    | DisconnectRequest(receivedFrom: string, source: string, ttl: int, endNode: string, nextNode: string,
                        sourcePeerId: string, targetPeerId: string)
  {
    function Flag(): int {
      match this
      case RouteRequest(_, _, _, _, _) => ROUTE_REQUEST_FLAG
      case RouteReply(_, _, _, _, _, _) => ROUTE_REPLY_FLAG
      case Message(_, _, _, _, _, _, _) => MESSAGE_FLAG
      case RouteError(_, _, _, _) => ROUTE_ERROR_FLAG
      case Ack(_, _, _, _, _) => ACK_FLAG
      case Registration(_, _, _, _, _) => REGISTRATION_FLAG
      case ConnectRequest(_, _, _, _, _, _, _, _) => CONNECT_REQUEST_FLAG
      case DisconnectRequest(_, _, _, _, _, _, _) => DISCONNECT_REQUEST_FLAG
    }
  }

  /** `s` with '0's in front up to `width` characters. */
  function ZeroPadded(s: string, width: nat): string
    decreases width - |s|
  {
    if |s| >= width then s else ZeroPadded("0" + s, width)
  }

  /** A padded string is `s` behind only zeros, and as long as `width` or `s`. */
  lemma {:induction false} ZeroPaddedSpec(s: string, width: nat)
    ensures var r := ZeroPadded(s, width);
            && |r| == (if |s| >= width then |s| else width)
            && r[|r| - |s|..] == s
            && forall k :: 0 <= k < |r| - |s| ==> r[k] == '0'
    decreases width - |s|
  {
    if |s| < width {
      ZeroPaddedSpec("0" + s, width);
      var r := ZeroPadded(s, width);
      assert r[|r| - |s| - 1..] == "0" + s;
      assert r[|r| - |s|..] == r[|r| - |s| - 1..][1..];
    }
  }

  /** Leading zeros do not change the value of a digit string. */
  lemma {:induction false} LeadingZero(s: string)
    requires AllDigits(s)
    ensures AllDigits("0" + s) && DigitsValue("0" + s) == DigitsValue(s)
    decreases |s|
  {
    var t := "0" + s;
    if |s| > 0 {
      assert t[..|t| - 1] == "0" + s[..|s| - 1];
      assert AllDigits(s[..|s| - 1]);
      LeadingZero(s[..|s| - 1]);
      assert t[|t| - 1] == s[|s| - 1];
    }
  }

  /** `int()` reads digits behind padding zeros as their value. */
  lemma {:induction false} PaddedIdValue(s: string, width: nat)
    requires |s| >= 1 && AllDigits(s)
    ensures ParseInt(ZeroPadded(s, width)) == Some(DigitsValue(s) as int)
    decreases width - |s|
  {
    if |s| < width {
      LeadingZero(s);
      PaddedIdValue("0" + s, width);
    }
  }

  /** `int()` reads the message id field back as the id. */
  lemma MessageIdReadsBack(id: nat)
    ensures ParseInt(MessageIdText(id)) == Some(id)
  {
    DigitsOfNat(id);
    PaddedIdValue(NatToString(id), MESSAGE_ID_WIDTH);
  }

  function MessageIdText(id: nat): string {
    ZeroPadded(NatToString(id), MESSAGE_ID_WIDTH)
  }

  function BoolText(b: bool): string {
    if b then "true" else "false"
  }

  /** The fields `get_header_str` writes, in order. */
  function Fields(f: Frame): seq<string> {
    var flag := IntToString(f.Flag());
    match f
    case RouteRequest(_, source, ttl, hops, endNode) =>
      [source, flag, IntToString(ttl), IntToString(hops), endNode]
    case RouteReply(_, source, ttl, hops, endNode, nextNode) =>
      [source, flag, IntToString(ttl), IntToString(hops), endNode, nextNode]
    case Message(_, source, ttl, destination, nextNode, messageId, payload) =>
      [source, flag, IntToString(ttl), destination, nextNode, MessageIdText(messageId), payload]
    case RouteError(_, source, ttl, brokenNode) =>
      [source, flag, IntToString(ttl), brokenNode]
    case Ack(_, source, ttl, destination, ackId) =>
      [source, flag, IntToString(ttl), destination, ackId]
    case Registration(_, source, ttl, subscribe, peerId) =>
      [source, flag, IntToString(ttl), BoolText(subscribe), peerId]
    case ConnectRequest(_, source, ttl, endNode, nextNode, sourcePeerId, targetPeerId, timeout) =>
      [source, flag, IntToString(ttl), endNode, nextNode, sourcePeerId, targetPeerId, timeout]
    case DisconnectRequest(_, source, ttl, endNode, nextNode, sourcePeerId, targetPeerId) =>
      [source, flag, IntToString(ttl), endNode, nextNode, sourcePeerId, targetPeerId]
  }

  /** `get_header_str`. */
  function Encode(f: Frame): string {
    Codec.HeaderString(Fields(f))
  }

  /** Every header string starts with the source, then the flag, then the
      time-to-live, each readable back by `int()`. */
  lemma FieldsSpec(f: Frame)
    ensures |Fields(f)| >= 4
    ensures Fields(f)[0] == f.source
    ensures ParseInt(Fields(f)[1]) == Some(f.Flag())
    ensures ParseInt(Fields(f)[2]) == Some(f.ttl)
  {
    ParseIntToString(f.Flag());
    ParseIntToString(f.ttl);
  }
}
