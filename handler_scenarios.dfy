/** The connections broker/handler_test.go drives through a new handler,
    stated against the `Handler` contracts. */
module BrokerScenarios {
  import opened BrokerTypes
  import opened Stream
  import opened Packets
  import opened Clients
  import opened Sessions
  import opened Broker

  /** The CONNECT of `TestHandleConnect`: remaining length 10, protocol
      name "MQTT", level 4, flags 0x02, keep-alive 10. */
  const ConnectPacket: Bytes := [0x10, 0x0A, 0x00, 0x04, 0x4D, 0x51, 0x54, 0x54, 0x04, 0x02, 0x00, 0x0A]

  /** Its remaining length is one byte holding 10, and its body ends the
      packet. */
  lemma ConnectPacketFrame()
    ensures ConnectFrame(ConnectPacket, 0) == ConnectAccepted(12)
  {
    var s := ConnectPacket[1..];
    FirstStopAt(s, 0);
    assert s[..1] == [0x0A];
    assert Weighted([0x0A]) == 10;
    assert DecodeLength(s) == Some((10, 1));
  }

  /** `TestHandleConnect`: the writer receives exactly CONNACK, one
      client is registered, and it is client "0" on that writer. */
  method ConnectTest() returns (sent: Bytes, ids: seq<ClientID>, writer: Option<WriterId>)
    ensures sent == [0x20, 0x02, 0x00, 0x00]
    ensures |ids| == 1 && ids[0] == [0x30]
    ensures writer == Some(7)
  {
    var h := new Handler();
    ConnectPacketFrame();
    FirstClientId();
    var end := h.Handle(ConnectPacket, 7);
    assert h.clients.clients == map[[0x30] := 7];
    sent := OutOf(h.out, 7);
    ids := h.clients.List();
    writer := h.clients.Get([0x30]);
  }

  /** `TestHandlePingreq` expects PINGRESP for a connection that opens
      with a PINGREQ, but `Handle` ends such a connection before reading
      it: nothing is written and nothing is registered. */
  method PingreqFirstTest() returns (end: SessionEnd, sent: Bytes, registered: nat)
    ensures end == NotConnect && sent == [] && registered == 0
  {
    var h := new Handler();
    end := h.Handle([0xC0, 0x00], 7);
    sent := OutOf(h.out, 7);
    registered := |h.clients.clients|;
  }

  /** The CONNECT of `TestHandleConnect` followed by a PINGREQ. */
  const ConnectThenPing: Bytes := ConnectPacket + [0xC0, 0x00]

  /** The CONNECT ends at 12, where a PINGREQ starts that ends at 14. */
  lemma ConnectThenPingFrames()
    ensures ConnectFrame(ConnectThenPing, 0) == ConnectAccepted(12)
    ensures Kind(ConnectThenPing[12]) == 12 && PingFrame(ConnectThenPing, 12) == Some(14)
  {
    var input := ConnectThenPing;
    var s := input[1..];
    FirstStopAt(s, 0);
    assert s[..1] == [0x0A];
    assert Weighted([0x0A]) == 10;
    assert DecodeLength(s) == Some((10, 1));
    ReadWhole(input, 2, 10);
    var t := input[13..];
    FirstStopAt(t, 0);
    assert t[..1] == [0x00];
    assert Weighted([0x00]) == 0;
    assert DecodeLength(t) == Some((0, 1));
  }

  /** A PINGREQ after a CONNECT is answered: the writer receives CONNACK,
      then PINGRESP, and the session goes on after the PINGREQ. */
  method PingAfterConnect() returns (sent: Bytes, next: nat)
    ensures sent == ConnAck + PingResp && next == 14
  {
    var h := new Handler();
    ConnectThenPingFrames();
    var pos := h.HandleConnect(ConnectThenPing, 0, 7, 0);
    ghost var greeted := Send(map[], 7, ConnAck);
    assert pos == 12 && h.out == greeted;
    FirstClientId();
    var stop;
    ghost var targets, subscriber;
    next, stop, targets, subscriber := h.Dispatch(ConnectThenPing, pos, 7, 0);
    assert h.out == Send(greeted, 7, PingResp);
    assert OutOf(map[], 7) == [];
    assert OutOf(greeted, 7) == ConnAck;
    sent := OutOf(h.out, 7);
    assert sent == ConnAck + PingResp;
  }
}
