/** The header strings the newer engine's unit tests expect, stated as facts
    about `MultihopHeader.Encode`. */
module MultihopHeaderExamples {
  import opened Text
  import Codec
  import opened MultihopHeader

  /** The decimal forms of the numbers the test headers carry. */
  lemma Numerals()
    ensures IntToString(0) == "0" && IntToString(1) == "1" && IntToString(2) == "2"
    ensures IntToString(3) == "3" && IntToString(4) == "4" && IntToString(5) == "5"
    ensures IntToString(6) == "6" && IntToString(7) == "7" && IntToString(8) == "8"
    ensures IntToString(60) == "60"
  {
    assert NatToString(6) == "6";
    assert NatToString(60) == NatToString(6) + [DigitChar(0)];
  }

  /** Message ids are written with six digits. */
  lemma FirstMessageId()
    ensures MessageIdText(1) == "000001"
  {
    Numerals();
    assert NatToString(1) == "1";
    assert "0" + "1" == "01" && "0" + "01" == "001" && "0" + "001" == "0001";
    assert "0" + "0001" == "00001" && "0" + "00001" == "000001";
    assert ZeroPadded("1", 6) == ZeroPadded("01", 6) == ZeroPadded("001", 6) == ZeroPadded("0001", 6)
        == ZeroPadded("00001", 6) == ZeroPadded("000001", 6) == "000001";
  }

  lemma ForwardedAckFields()
    ensures Fields(Ack("0133", "0131", 4, "0133", "99fc8d")) == ["0131", "2", "4", "0133", "99fc8d"]
  {
    Numerals();
  }

  lemma ForwardedAckString()
    ensures Codec.HeaderString(["0131", "2", "4", "0133", "99fc8d"]) == "|0131|2|4|0133|99fc8d|"
  {
    Codec.Terminated5("0131", "2", "4", "0133", "99fc8d");
  }

  lemma ForwardedAckWire()
    ensures Encode(Ack("0133", "0131", 4, "0133", "99fc8d")) == "|0131|2|4|0133|99fc8d|"
  {
    ForwardedAckFields();
    ForwardedAckString();
  }

  lemma ForwardedRegistrationFields()
    ensures Fields(Registration(Codec.NO_SENDER, "0131", 4, true, "testPeer")) == ["0131", "6", "4", "true", "testPeer"]
  {
    Numerals();
  }

  lemma ForwardedRegistrationString()
    ensures Codec.HeaderString(["0131", "6", "4", "true", "testPeer"]) == "|0131|6|4|true|testPeer|"
  {
    Codec.Terminated5("0131", "6", "4", "true", "testPeer");
  }

  lemma ForwardedRegistrationWire()
    ensures Encode(Registration(Codec.NO_SENDER, "0131", 4, true, "testPeer")) == "|0131|6|4|true|testPeer|"
  {
    ForwardedRegistrationFields();
    ForwardedRegistrationString();
  }

  lemma RouteErrorFields()
    ensures Fields(RouteError(Codec.NO_SENDER, "0130", 5, "alice")) == ["0130", "5", "5", "alice"]
  {
    Numerals();
  }

  lemma RouteErrorString()
    ensures Codec.HeaderString(["0130", "5", "5", "alice"]) == "|0130|5|5|alice|"
  {
    Codec.Terminated4("0130", "5", "5", "alice");
  }

  lemma RouteErrorWire()
    ensures Encode(RouteError(Codec.NO_SENDER, "0130", 5, "alice")) == "|0130|5|5|alice|"
  {
    RouteErrorFields();
    RouteErrorString();
  }

  lemma RouteRequestFields()
    ensures Fields(RouteRequest(Codec.NO_SENDER, "0130", 5, 0, "0100")) == ["0130", "3", "5", "0", "0100"]
  {
    Numerals();
  }

  lemma RouteRequestString()
    ensures Codec.HeaderString(["0130", "3", "5", "0", "0100"]) == "|0130|3|5|0|0100|"
  {
    Codec.Terminated5("0130", "3", "5", "0", "0100");
  }

  lemma RouteRequestWire()
    ensures Encode(RouteRequest(Codec.NO_SENDER, "0130", 5, 0, "0100")) == "|0130|3|5|0|0100|"
  {
    RouteRequestFields();
    RouteRequestString();
  }

  lemma ForwardedRouteRequestFields()
    ensures Fields(RouteRequest("0132", "0131", 8, 2, "0133")) == ["0131", "3", "8", "2", "0133"]
  {
    Numerals();
  }

  lemma ForwardedRouteRequestString()
    ensures Codec.HeaderString(["0131", "3", "8", "2", "0133"]) == "|0131|3|8|2|0133|"
  {
    Codec.Terminated5("0131", "3", "8", "2", "0133");
  }

  lemma ForwardedRouteRequestWire()
    ensures Encode(RouteRequest("0132", "0131", 8, 2, "0133")) == "|0131|3|8|2|0133|"
  {
    ForwardedRouteRequestFields();
    ForwardedRouteRequestString();
  }

  lemma RouteReplyFields()
    ensures Fields(RouteReply(Codec.NO_SENDER, "0130", 5, 0, "0132", "0131")) == ["0130", "4", "5", "0", "0132", "0131"]
  {
    Numerals();
  }

  lemma RouteReplyString()
    ensures Codec.HeaderString(["0130", "4", "5", "0", "0132", "0131"]) == "|0130|4|5|0|0132|0131|"
  {
    Codec.Terminated6("0130", "4", "5", "0", "0132", "0131");
  }

  lemma RouteReplyWire()
    ensures Encode(RouteReply(Codec.NO_SENDER, "0130", 5, 0, "0132", "0131")) == "|0130|4|5|0|0132|0131|"
  {
    RouteReplyFields();
    RouteReplyString();
  }

  lemma AckFields()
    ensures Fields(Ack(Codec.NO_SENDER, "0134", 5, "0130", IntToString(1))) == ["0134", "2", "5", "0130", "1"]
  {
    Numerals();
  }

  lemma AckString()
    ensures Codec.HeaderString(["0134", "2", "5", "0130", "1"]) == "|0134|2|5|0130|1|"
  {
    Codec.Terminated5("0134", "2", "5", "0130", "1");
  }

  lemma AckWire()
    ensures Encode(Ack(Codec.NO_SENDER, "0134", 5, "0130", IntToString(1))) == "|0134|2|5|0130|1|"
  {
    AckFields();
    AckString();
  }

  /** The longer headers, stated as the fields their header strings carry
      in order; `Codec.HeaderString` frames them. */
  lemma ForwardedConnectRequestFields()
    ensures Fields(ConnectRequest("0200", "0200", 4, "0202", "0204", "test1", "test2", "2"))
            == ["0200", "7", "4", "0202", "0204", "test1", "test2", "2"]
  {
    Numerals();
  }

  lemma ConnectRequestFields()
    ensures Fields(ConnectRequest(Codec.NO_SENDER, "0201", 5, "0202", "0202", "Alice", "Bob", IntToString(60)))
            == ["0201", "7", "5", "0202", "0202", "Alice", "Bob", "60"]
  {
    Numerals();
  }

  lemma MessageFields()
    ensures Fields(Message(Codec.NO_SENDER, "0130", 5, "alice", "0101", 1, "aGVsbG8="))
            == ["0130", "1", "5", "alice", "0101", "000001", "aGVsbG8="]
  {
    Numerals();
    FirstMessageId();
  }

  lemma ForwardedMessageFields()
    ensures Fields(Message("0131", "0130", 8, "0132", "0133", 1, "aGVsbG8="))
            == ["0130", "1", "8", "0132", "0133", "000001", "aGVsbG8="]
  {
    Numerals();
    FirstMessageId();
  }
}
