/** The header module's unit-test vectors, stated as facts about the codec:
    decoding each test line gives the header, or the error, the test expects,
    and encoding the test headers gives the expected header strings. Each
    vector is split into the framing of its line, the decoding of its fields
    and the two put together. */
module CodecExamples {
  import opened Wrappers
  import opened Text
  import opened Codec

  /** The configured node addresses the test lines send to. */
  const NODES: set<string> := {"0133", "0138"}

  lemma RouteRequestWire()
    ensures HeaderString(["0137", "3", "8", "4", "0138"]) == "|0137|3|8|4|0138|"
  {
    Terminated5("0137", "3", "8", "4", "0138");
  }

  lemma RouteRequestLine()
    ensures "LR,0136,10,|0137|3|8|4|0138|" == Line("0136", "10", "|0137|3|8|4|0138|")
  {
  }

  lemma RouteRequestFields()
    ensures DecodeFields("0136", ["0137", "3", "8", "4", "0138"], NODES) == Success(RouteRequest("0136", "0137", 8, 4, "0138"))
  {
    assert ParseInt("3") == Some(3);
    assert ParseInt("4") == Some(4);
    assert ParseInt("8") == Some(8);
  }

  /** A complete route request. */
  lemma RouteRequestDecodes()
    ensures Decode("LR,0136,10,|0137|3|8|4|0138|", NODES) == Success(RouteRequest("0136", "0137", 8, 4, "0138"))
  {
    RouteRequestLine();
    RouteRequestWire();
    DecodeLine("0136", "10", ["0137", "3", "8", "4", "0138"], NODES);
    RouteRequestFields();
  }

  lemma RouteRequestWithoutHopsWire()
    ensures HeaderString(["0137", "3", "8", "0138"]) == "|0137|3|8|0138|"
  {
    Terminated4("0137", "3", "8", "0138");
  }

  lemma RouteRequestWithoutHopsLine()
    ensures "LR,0136,10,|0137|3|8|0138|" == Line("0136", "10", "|0137|3|8|0138|")
  {
  }

  lemma RouteRequestWithoutHopsFields()
    ensures DecodeFields("0136", ["0137", "3", "8", "0138"], NODES) == Failure(UnexpectedLength)
  {
    assert AllDigits("0138");
    assert ParseInt("3") == Some(3);
    assert ParseInt("8") == Some(8);
  }

  /** A route request missing its hop count is refused. */
  lemma RouteRequestWithoutHopsDecodes()
    ensures Decode("LR,0136,10,|0137|3|8|0138|", NODES) == Failure(UnexpectedLength)
  {
    RouteRequestWithoutHopsLine();
    RouteRequestWithoutHopsWire();
    DecodeLine("0136", "10", ["0137", "3", "8", "0138"], NODES);
    RouteRequestWithoutHopsFields();
  }

  lemma RouteRequestWithExtraFieldWire()
    ensures HeaderString(["0137", "3", "8", "4", "0138", "0"]) == "|0137|3|8|4|0138|0|"
  {
    Terminated6("0137", "3", "8", "4", "0138", "0");
  }

  lemma RouteRequestWithExtraFieldLine()
    ensures "LR,0136,10,|0137|3|8|4|0138|0|" == Line("0136", "10", "|0137|3|8|4|0138|0|")
  {
  }

  lemma RouteRequestWithExtraFieldFields()
    ensures DecodeFields("0136", ["0137", "3", "8", "4", "0138", "0"], NODES) == Failure(WrongFieldCount)
  {
    assert ParseInt("3") == Some(3);
    assert ParseInt("4") == Some(4);
    assert ParseInt("8") == Some(8);
  }

  /** A route request with a sixth field is refused. */
  lemma RouteRequestWithExtraFieldDecodes()
    ensures Decode("LR,0136,10,|0137|3|8|4|0138|0|", NODES) == Failure(WrongFieldCount)
  {
    RouteRequestWithExtraFieldLine();
    RouteRequestWithExtraFieldWire();
    DecodeLine("0136", "10", ["0137", "3", "8", "4", "0138", "0"], NODES);
    RouteRequestWithExtraFieldFields();
  }

  lemma RouteReplyWire()
    ensures HeaderString(["0137", "4", "8", "3", "0139", "0140"]) == "|0137|4|8|3|0139|0140|"
  {
    Terminated6("0137", "4", "8", "3", "0139", "0140");
  }

  lemma RouteReplyLine()
    ensures "LR,0136,10,|0137|4|8|3|0139|0140|" == Line("0136", "10", "|0137|4|8|3|0139|0140|")
  {
  }

  lemma RouteReplyFields()
    ensures DecodeFields("0136", ["0137", "4", "8", "3", "0139", "0140"], NODES) == Success(RouteReply("0136", "0137", 8, 3, "0139", "0140"))
  {
    assert ParseInt("3") == Some(3);
    assert ParseInt("4") == Some(4);
    assert ParseInt("8") == Some(8);
  }

  /** A complete route reply. */
  lemma RouteReplyDecodes()
    ensures Decode("LR,0136,10,|0137|4|8|3|0139|0140|", NODES) == Success(RouteReply("0136", "0137", 8, 3, "0139", "0140"))
  {
    RouteReplyLine();
    RouteReplyWire();
    DecodeLine("0136", "10", ["0137", "4", "8", "3", "0139", "0140"], NODES);
    RouteReplyFields();
  }

  lemma AckWire()
    ensures HeaderString(["0137", "2", "5", "0138", "8774d3"]) == "|0137|2|5|0138|8774d3|"
  {
    Terminated5("0137", "2", "5", "0138", "8774d3");
  }

  lemma AckLine()
    ensures "LR,0137,16,|0137|2|5|0138|8774d3|" == Line("0137", "16", "|0137|2|5|0138|8774d3|")
  {
  }

  lemma AckFields()
    ensures DecodeFields("0137", ["0137", "2", "5", "0138", "8774d3"], NODES) == Success(Ack("0137", "0137", 5, "0138", "8774d3"))
  {
    assert "0138" in NODES;
    assert AllDigits("0138");
    assert ParseInt("2") == Some(2);
    assert ParseInt("5") == Some(5);
  }

  /** An acknowledgement. */
  lemma AckDecodes()
    ensures Decode("LR,0137,16,|0137|2|5|0138|8774d3|", NODES) == Success(Ack("0137", "0137", 5, "0138", "8774d3"))
  {
    AckLine();
    AckWire();
    DecodeLine("0137", "16", ["0137", "2", "5", "0138", "8774d3"], NODES);
    AckFields();
  }

  lemma UnknownFlagWire()
    ensures HeaderString(["0137", "8", "8", "3", "0139", "0140"]) == "|0137|8|8|3|0139|0140|"
  {
    Terminated6("0137", "8", "8", "3", "0139", "0140");
  }

  lemma UnknownFlagLine()
    ensures "LR,0136,10,|0137|8|8|3|0139|0140|" == Line("0136", "10", "|0137|8|8|3|0139|0140|")
  {
  }

  lemma UnknownFlagFields()
    ensures DecodeFields("0136", ["0137", "8", "8", "3", "0139", "0140"], NODES) == Failure(InvalidFlag(8))
  {
    assert ParseInt("3") == Some(3);
    assert ParseInt("8") == Some(8);
  }

  /** Flag 8 is not a header type. */
  lemma UnknownFlagDecodes()
    ensures Decode("LR,0136,10,|0137|8|8|3|0139|0140|", NODES) == Failure(InvalidFlag(8))
  {
    UnknownFlagLine();
    UnknownFlagWire();
    DecodeLine("0136", "10", ["0137", "8", "8", "3", "0139", "0140"], NODES);
    UnknownFlagFields();
  }

  lemma MessageWire()
    ensures HeaderString(["0135", "1", "3", "0138", "0137", "hello"]) == "|0135|1|3|0138|0137|hello|"
  {
    Terminated6("0135", "1", "3", "0138", "0137", "hello");
  }

  lemma MessageLine()
    ensures "LR,0136,10,|0135|1|3|0138|0137|hello|" == Line("0136", "10", "|0135|1|3|0138|0137|hello|")
  {
  }

  lemma MessageFields()
    ensures DecodeFields("0136", ["0135", "1", "3", "0138", "0137", "hello"], NODES) == Success(Message("0136", "0135", 3, "0138", "0137", "hello"))
  {
    assert "0138" in NODES;
    assert AllDigits("0138");
    assert ParseInt("1") == Some(1);
    assert ParseInt("3") == Some(3);
  }

  /** A text message. */
  lemma MessageDecodes()
    ensures Decode("LR,0136,10,|0135|1|3|0138|0137|hello|", NODES) == Success(Message("0136", "0135", 3, "0138", "0137", "hello"))
  {
    MessageLine();
    MessageWire();
    DecodeLine("0136", "10", ["0135", "1", "3", "0138", "0137", "hello"], NODES);
    MessageFields();
  }

  lemma MessageWithCommaWire()
    ensures HeaderString(["0135", "1", "3", "0138", "0137", "hello, good morning"])
            == "|0135|1|3|0138|0137|" + "hello, good morning" + "|"
  {
    Terminated6("0135", "1", "3", "0138", "0137", "hello, good morning");
  }

  lemma MessageWithCommaLine()
    ensures "LR,0136,10," + "|0135|1|3|0138|0137|" + "hello, good morning" + "|" == Line("0136", "10", "|0135|1|3|0138|0137|" + "hello, good morning" + "|")
  {
  }

  lemma MessageWithCommaFields()
    ensures DecodeFields("0136", ["0135", "1", "3", "0138", "0137", "hello, good morning"], NODES) == Success(Message("0136", "0135", 3, "0138", "0137", "hello, good morning"))
  {
    assert "0138" in NODES;
    assert AllDigits("0138");
    assert ParseInt("1") == Some(1);
    assert ParseInt("3") == Some(3);
  }

  /** Commas inside the payload survive. */
  lemma MessageWithCommaDecodes()
    ensures Decode("LR,0136,10," + "|0135|1|3|0138|0137|" + "hello, good morning" + "|", NODES) == Success(Message("0136", "0135", 3, "0138", "0137", "hello, good morning"))
  {
    MessageWithCommaLine();
    MessageWithCommaWire();
    DecodeLine("0136", "10", ["0135", "1", "3", "0138", "0137", "hello, good morning"], NODES);
    MessageWithCommaFields();
  }

  lemma MessageWithoutPayloadWire()
    ensures HeaderString(["0135", "1", "1", "0138", "0137"]) == "|0135|1|1|0138|0137|"
  {
    Terminated5("0135", "1", "1", "0138", "0137");
  }

  lemma MessageWithoutPayloadLine()
    ensures "LR,0136,10,|0135|1|1|0138|0137|" == Line("0136", "10", "|0135|1|1|0138|0137|")
  {
  }

  lemma MessageWithoutPayloadFields()
    ensures DecodeFields("0136", ["0135", "1", "1", "0138", "0137"], NODES) == Failure(UnexpectedLength)
  {
    assert "0138" in NODES;
    assert AllDigits("0138");
    assert ParseInt("1") == Some(1);
  }

  /** A message without a payload field is refused. */
  lemma MessageWithoutPayloadDecodes()
    ensures Decode("LR,0136,10,|0135|1|1|0138|0137|", NODES) == Failure(UnexpectedLength)
  {
    MessageWithoutPayloadLine();
    MessageWithoutPayloadWire();
    DecodeLine("0136", "10", ["0135", "1", "1", "0138", "0137"], NODES);
    MessageWithoutPayloadFields();
  }

  lemma RouteErrorWire()
    ensures HeaderString(["0131", "5", "4", "0132"]) == "|0131|5|4|0132|"
  {
    Terminated4("0131", "5", "4", "0132");
  }

  lemma RouteErrorLine()
    ensures "LR,0131,10,|0131|5|4|0132|" == Line("0131", "10", "|0131|5|4|0132|")
  {
  }

  lemma RouteErrorFields()
    ensures DecodeFields("0131", ["0131", "5", "4", "0132"], NODES) == Success(RouteError("0131", "0131", 4, "0132"))
  {
    assert AllDigits("0132");
    assert ParseInt("4") == Some(4);
    assert ParseInt("5") == Some(5);
  }

  /** A route error. */
  lemma RouteErrorDecodes()
    ensures Decode("LR,0131,10,|0131|5|4|0132|", NODES) == Success(RouteError("0131", "0131", 4, "0132"))
  {
    RouteErrorLine();
    RouteErrorWire();
    DecodeLine("0131", "10", ["0131", "5", "4", "0132"], NODES);
    RouteErrorFields();
  }

  /** A line without any '|' has no header to read. */
  lemma LineWithoutHeaderFails()
    ensures Decode("LR,FFFF,0A,hello", NODES) == Failure(UnexpectedLength)
  {
    assert "LR,FFFF,0A,hello" == Line("FFFF", "0A", "hello");
    LineParts("FFFF", "0A", "hello");
    SplitNoSeparator("hello", HEADER_DELIMITER);
  }

  lemma RouteRequestHeaderString()
    ensures HeaderString(["0130", "3", "9", "1", "0133"]) == "|0130|3|9|1|0133|"
  {
    Terminated5("0130", "3", "9", "1", "0133");
  }

  /** The header string of the test's header object. */
  lemma EncodeRouteRequest()
    ensures Encode(RouteRequest("0131", "0130", 9, 1, "0133")) == "|0130|3|9|1|0133|"
  {
    assert IntToString(1) == "1";
    assert IntToString(3) == "3";
    assert IntToString(9) == "9";
    assert Fields(RouteRequest("0131", "0130", 9, 1, "0133")) == ["0130", "3", "9", "1", "0133"];
    RouteRequestHeaderString();
  }

  lemma RouteReplyHeaderString()
    ensures HeaderString(["0130", "4", "9", "1", "0132", "0133"]) == "|0130|4|9|1|0132|0133|"
  {
    Terminated6("0130", "4", "9", "1", "0132", "0133");
  }

  /** The header string of the test's header object. */
  lemma EncodeRouteReply()
    ensures Encode(RouteReply("0131", "0130", 9, 1, "0132", "0133")) == "|0130|4|9|1|0132|0133|"
  {
    assert IntToString(1) == "1";
    assert IntToString(4) == "4";
    assert IntToString(9) == "9";
    assert Fields(RouteReply("0131", "0130", 9, 1, "0132", "0133")) == ["0130", "4", "9", "1", "0132", "0133"];
    RouteReplyHeaderString();
  }

  lemma MessageHeaderString()
    ensures HeaderString(["0130", "1", "9", "0133", "0132", "hello"]) == "|0130|1|9|0133|0132|hello|"
  {
    Terminated6("0130", "1", "9", "0133", "0132", "hello");
  }

  /** The header string of the test's header object. */
  lemma EncodeMessage()
    ensures Encode(Message("0131", "0130", 9, "0133", "0132", "hello")) == "|0130|1|9|0133|0132|hello|"
  {
    assert IntToString(1) == "1";
    assert IntToString(9) == "9";
    assert Fields(Message("0131", "0130", 9, "0133", "0132", "hello")) == ["0130", "1", "9", "0133", "0132", "hello"];
    MessageHeaderString();
  }

  lemma AckHeaderString()
    ensures HeaderString(["0132", "2", "9", "0133", "example_hash"]) == "|0132|2|9|0133|example_hash|"
  {
    Terminated5("0132", "2", "9", "0133", "example_hash");
  }

  /** The header string of the test's header object. */
  lemma EncodeAck()
    ensures Encode(Ack(NO_SENDER, "0132", 9, "0133", "example_hash")) == "|0132|2|9|0133|example_hash|"
  {
    assert IntToString(2) == "2";
    assert IntToString(9) == "9";
    assert Fields(Ack(NO_SENDER, "0132", 9, "0133", "example_hash")) == ["0132", "2", "9", "0133", "example_hash"];
    AckHeaderString();
  }

  lemma RouteErrorHeaderString()
    ensures HeaderString(["0131", "5", "5", "0132"]) == "|0131|5|5|0132|"
  {
    Terminated4("0131", "5", "5", "0132");
  }

  /** The header string of the test's header object. */
  lemma EncodeRouteError()
    ensures Encode(RouteError("0131", "0131", 5, "0132")) == "|0131|5|5|0132|"
  {
    assert IntToString(5) == "5";
    assert Fields(RouteError("0131", "0131", 5, "0132")) == ["0131", "5", "5", "0132"];
    RouteErrorHeaderString();
  }
}
