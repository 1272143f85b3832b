/** broker/handler.go: the per-connection loop that answers CONNECT,
    PUBLISH, SUBSCRIBE and PINGREQ. A connection is its whole input (a
    byte sequence read through a cursor) and a writer handle; what every
    writer has been sent is the `out` field of the handler. */
module Broker {
  import opened BrokerTypes
  import opened Stream
  import opened Packets
  import opened Topics
  import opened TopicTrees
  import opened TopicTreeLaws
  import opened Clients
  import opened Sessions

  /** Why `Handle` returned: the first `Peek` failed, the first packet was
      not a CONNECT, a second CONNECT arrived, the input ran out at a
      packet boundary, or a malformed PUBLISH/SUBSCRIBE made the Go code
      panic. */
  datatype SessionEnd = NoInput | NotConnect | SecondConnect | InputExhausted | Panic

  /** `packetType >> 4`. */
  function Kind(b: Byte): (k: nat)
    ensures k < 16
  {
    b / 16
  }

  /** Every client subscribed anywhere in the tree has a registered
      writer, so a PUBLISH never looks up a writer that is not there. */
  ghost predicate Registered(nodes: seq<TreeNode>, reg: map<ClientID, WriterId>)
  {
    forall k, c :: 0 <= k < |nodes| && c in nodes[k].clients ==> c.id in reg
  }

  /** Subscribing a client whose id is registered keeps every subscriber
      registered. */
  lemma AddKeepsRegistered(nodes: seq<TreeNode>, parts: seq<Bytes>, c: Client, reg: map<ClientID, WriterId>)
    requires WellFormed(nodes) && |nodes| > 0 && Registered(nodes, reg) && c.id in reg
    ensures Registered(AddSpec(nodes, 0, parts, c), reg)
  {
    AddSubscribes(nodes, 0, parts, c);
  }

  /** Whatever `Get` collects from a tree whose subscribers are all
      registered has registered writers. */
  lemma MatchesRegistered(nodes: seq<TreeNode>, parts: seq<Bytes>, reg: map<ClientID, WriterId>, targets: seq<Client>)
    requires WellFormed(nodes) && |nodes| > 0 && Registered(nodes, reg)
    requires multiset(targets) == Matches(nodes, 0, parts)
    ensures AllRegistered(reg, targets)
  {
    forall k | 0 <= k < |targets| ensures targets[k].id in reg {
      assert targets[k] in multiset(targets);
      MatchesFromNodes(nodes, 0, parts, targets[k]);
    }
  }

  /** The reads `handlePublish` makes: the remaining length, two length
      bytes, the topic and the payload, each read after the first
      ignoring errors, and the negative payload length on which
      `make([]byte, payloadLen)` panics. */
  method ReadPublish(input: Bytes, pos: nat) returns (frame: PublishOutcome)
    requires pos < |input|
    ensures frame == PublishFrame(input, pos)
  {
    var length, after := ReadRemainingLength(input, pos + 1);
    if length.None? {
      return PublishCut;
    }
    assert Header(input, pos) == Some((length.value, after));
    frame := ReadPublishBody(input, length.value, after);
  }

  /** The reads of `handlePublish` after the remaining length. */
  method ReadPublishBody(input: Bytes, length: nat, after: nat) returns (frame: PublishOutcome)
    requires after <= |input|
    ensures frame == PublishBodyFrame(input, length, after)
  {
    var lengthBytes := Read(input, after, 2);
    var topicLen := Word(lengthBytes.data[0], lengthBytes.data[1]);
    var topicBytes := Read(input, lengthBytes.next, topicLen);
    var payloadLen := length - 2 - topicLen;
    if payloadLen < 0 {
      return PublishNegative;
    }
    var payloadBytes := Read(input, topicBytes.next, payloadLen);
    frame := PublishRead(topicBytes.data, payloadBytes.data, payloadBytes.next);
  }

  /** The reads and slices `handleSubscribe` makes: the remaining length,
      the body, then `payload[0:2]`, `payload[2]`, `payload[3]` and
      `payload[4:topicEnd]`, any of which panics on a body too short. */
  method ReadSubscribe(input: Bytes, pos: nat) returns (frame: SubscribeOutcome)
    requires pos < |input|
    ensures frame == SubscribeFrame(input, pos)
  {
    var length, after := ReadRemainingLength(input, pos + 1);
    if length.None? {
      return SubscribeCut(after);
    }
    assert Header(input, pos) == Some((length.value, after));
    frame := ReadSubscribeBody(input, length.value, after);
  }

  /** The reads and slices of `handleSubscribe` after the remaining
      length. */
  method ReadSubscribeBody(input: Bytes, length: nat, after: nat) returns (frame: SubscribeOutcome)
    requires after <= |input|
    ensures frame == SubscribeBodyFrame(input, length, after)
  {
    var body := Read(input, after, length);
    if body.failed {
      return SubscribeCut(body.next);
    }
    var payload := body.data;
    if |payload| < 4 {
      return SubscribeBadSlice;
    }
    var packetId := payload[0..2];
    var topicEnd := 4 + Word(payload[2], payload[3]);
    if topicEnd > |payload| {
      return SubscribeBadSlice;
    }
    frame := SubscribeRead(packetId, payload[4..topicEnd], body.next);
  }

  /** `Handler`. The tree and the registry are shared by every
      connection the handler serves. */
  class Handler {
    const tree: TopicTree
    const clients: ClientManager
    var nextClientId: nat
    var out: Output

    ghost predicate Valid()
      reads tree, clients
    {
      tree.Valid() && |tree.nodes| > 0 && Registered(tree.nodes, clients.clients)
    }

    /** `NewHandler`: an empty tree, an empty registry, ids from 0. */
    constructor ()
      ensures Valid() && fresh(tree) && fresh(clients)
      ensures tree.nodes == [NewNode([])] && clients.clients == map[]
      ensures nextClientId == 0 && out == map[]
    {
      tree := new TopicTree();
      clients := new ClientManager();
      nextClientId := 0;
      out := map[];
    }

    /** `Handle`: serves one connection. The connection takes the next
        client id; a first byte that is not a CONNECT ends it with nothing
        sent and nothing stored; a CONNECT that is read whole registers
        the id and is answered with CONNACK before anything else. */
    method Handle(input: Bytes, w: WriterId) returns (end: SessionEnd)
      requires Valid()
      modifies this, tree, clients
      ensures Valid()
      ensures nextClientId == old(nextClientId) + 1
      ensures Extends(old(tree.nodes), tree.nodes) && Grows(old(out), out)
      ensures end == NoInput <==> input == []
      ensures end == NotConnect <==> input != [] && Kind(input[0]) != 1
      ensures end == NoInput || end == NotConnect ==>
        out == old(out) && tree.nodes == old(tree.nodes) && clients.clients == old(clients.clients)
      ensures input != [] && Kind(input[0]) == 1 ==>
        match ConnectFrame(input, 0)
        case ConnectCut(_) =>
          && end == InputExhausted && out == old(out)
          && tree.nodes == old(tree.nodes) && clients.clients == old(clients.clients)
        case ConnectAccepted(after) =>
          && clients.clients == old(clients.clients)[Decimal(old(nextClientId)) := w]
          && OutOf(old(out), w) + ConnAck <= OutOf(out, w)
          && (after == |input| ==>
                end == InputExhausted && out == Send(old(out), w, ConnAck) && tree.nodes == old(tree.nodes))
    {
      var clientId := nextClientId;
      nextClientId := nextClientId + 1;
      if |input| == 0 {
        return NoInput;
      }
      if Kind(input[0]) != 1 {
        return NotConnect;
      }
      var pos := HandleConnect(input, 0, w, clientId);
      ghost var connected := ConnectFrame(input, 0).ConnectAccepted?;
      ghost var greeted := Send(old(out), w, ConnAck);
      if connected {
        GrowsSend(old(out), w, ConnAck);
      }
      assert Grows(out, out);
      while true
        invariant Valid() && pos <= |input|
        invariant nextClientId == old(nextClientId) + 1
        invariant clients.clients == if connected then old(clients.clients)[Decimal(clientId) := w] else old(clients.clients)
        invariant !connected ==> pos == |input| && out == old(out) && tree.nodes == old(tree.nodes)
        invariant connected ==> ConnectFrame(input, 0).next <= pos && Grows(greeted, out)
        invariant connected && pos == ConnectFrame(input, 0).next ==> out == greeted && tree.nodes == old(tree.nodes)
        invariant Extends(old(tree.nodes), tree.nodes) && Grows(old(out), out)
        decreases |input| - pos
      {
        if pos == |input| {
          return InputExhausted;
        }
        ghost var before := out;
        ghost var beforeNodes := tree.nodes;
        var next, stop;
        ghost var targets, subscriber;
        next, stop, targets, subscriber := Dispatch(input, pos, w, clientId);
        GrowsTrans(old(out), before, out);
        ExtendsTrans(old(tree.nodes), beforeNodes, tree.nodes);
        if connected {
          GrowsTrans(greeted, before, out);
        }
        if stop.Some? {
          return stop.value;
        }
        pos := next;
      }
    }

    /** `handleConnect`: reads the packet and, when its body could be
        read, sends CONNACK and registers the connection's id with its
        writer. The Connect flags and Keep Alive are not interpreted. */
    method HandleConnect(input: Bytes, pos: nat, w: WriterId, clientId: nat) returns (next: nat)
      requires Valid() && pos < |input|
      modifies this`out, clients
      ensures Valid()
      ensures next == ConnectFrame(input, pos).next
      ensures ConnectFrame(input, pos).ConnectCut? ==>
        next == |input| && out == old(out) && clients.clients == old(clients.clients)
      ensures ConnectFrame(input, pos).ConnectAccepted? ==>
        out == Send(old(out), w, ConnAck) && clients.clients == old(clients.clients)[Decimal(clientId) := w]
    {
      var length, after := ReadRemainingLength(input, pos + 1);
      if length.None? {
        return after;
      }
      assert Header(input, pos) == Some((length.value, after));
      var payload := Read(input, after, length.value);
      if payload.failed {
        return payload.next;
      }
      out := Send(out, w, ConnAck);
      clients.Add(Decimal(clientId), w);
      next := payload.next;
    }

    /** One turn of the loop in `Handle`: dispatches on the type nibble
        of the packet at `pos`. Only SUBSCRIBE changes the tree, and
        output is only ever appended. */
    method Dispatch(input: Bytes, pos: nat, w: WriterId, clientId: nat)
      returns (next: nat, stop: Option<SessionEnd>, ghost targets: seq<Client>, ghost subscriber: Client?)
      requires Valid() && pos < |input| && Decimal(clientId) in clients.clients
      modifies this`out, tree
      ensures Valid()
      ensures Extends(old(tree.nodes), tree.nodes) && Grows(old(out), out)
      ensures stop.None? ==> pos < next <= |input|
      ensures stop == Some(SecondConnect) <==> Kind(input[pos]) == 1
      ensures stop == Some(Panic) <==>
        || (Kind(input[pos]) == 3 && PublishFrame(input, pos).PublishNegative?)
        || (Kind(input[pos]) == 8 && SubscribeFrame(input, pos).SubscribeBadSlice?)
      ensures stop.Some? ==> stop.value == SecondConnect || stop.value == Panic
      ensures Kind(input[pos]) != 8 ==> tree.nodes == old(tree.nodes)
      ensures Kind(input[pos]) == 1 ==> out == old(out)
      ensures Kind(input[pos]) == 12 ==>
        match PingFrame(input, pos)
        case None => next == |input| && out == old(out)
        case Some(after) => next == after && out == Send(old(out), w, PingResp)
      ensures Kind(input[pos]) == 3 ==>
        match PublishFrame(input, pos)
        case PublishCut => next == |input| && out == old(out)
        case PublishNegative => out == old(out)
        case PublishRead(topic, payload, after) =>
          && next == after
          && multiset(targets) == Matches(tree.nodes, 0, Split(topic))
          && AllRegistered(clients.clients, targets)
          && out == Deliver(old(out), clients.clients, targets, PublishPacket(topic, payload))
      ensures Kind(input[pos]) == 8 ==>
        match SubscribeFrame(input, pos)
        case SubscribeCut(cut) => next == cut && out == old(out) && tree.nodes == old(tree.nodes)
        case SubscribeBadSlice => out == old(out) && tree.nodes == old(tree.nodes)
        case SubscribeRead(packetId, filter, after) =>
          && next == after
          && subscriber != null && subscriber.id == Decimal(clientId)
          && tree.nodes == AddSpec(old(tree.nodes), 0, Split(filter), subscriber)
          && out == Send(old(out), w, SubAckPacket(packetId, [0x00]))
      ensures Kind(input[pos]) !in {1, 3, 8, 12} ==> next == pos + 1 && out == old(out)
    {
      targets, subscriber := [], null;
      var kind := Kind(input[pos]);
      if kind == 1 {
        assert Grows(out, out);
        next, stop := pos, Some(SecondConnect);
      } else if kind == 3 {
        var panicked;
        next, panicked, targets := HandlePublish(input, pos);
        match PublishFrame(input, pos) {
          case PublishRead(topic, payload, _) =>
            DeliverGrows(old(out), clients.clients, targets, PublishPacket(topic, payload));
          case _ =>
            assert Grows(out, out);
        }
        stop := if panicked then Some(Panic) else None;
      } else if kind == 8 {
        var panicked;
        next, panicked, subscriber := HandleSubscribe(input, pos, w, clientId);
        match SubscribeFrame(input, pos) {
          case SubscribeRead(packetId, filter, _) =>
            AddGrows(old(tree.nodes), 0, Split(filter), subscriber);
            GrowsSend(old(out), w, SubAckPacket(packetId, [0x00]));
          case _ =>
            assert Grows(out, out);
        }
        stop := if panicked then Some(Panic) else None;
      } else if kind == 12 {
        next := HandlePingreq(input, pos, w);
        if PingFrame(input, pos).Some? {
          GrowsSend(old(out), w, PingResp);
        } else {
          assert Grows(out, out);
        }
        stop := None;
      } else {
        // an unsupported type: only its first byte is skipped
        assert Grows(out, out);
        next, stop := pos + 1, None;
      }
    }

    /** `handlePublish`: reads the topic and payload, collects the
        matching subscriptions with `Get` and sends the message to each
        one's writer, once per entry `Get` returned. The reads after the
        remaining length ignore errors, as the Go code does. */
    method HandlePublish(input: Bytes, pos: nat) returns (next: nat, panicked: bool, ghost targets: seq<Client>)
      requires Valid() && pos < |input|
      modifies this`out
      ensures Valid()
      ensures match PublishFrame(input, pos)
        case PublishCut => next == |input| && !panicked && out == old(out)
        case PublishNegative => panicked && out == old(out)
        case PublishRead(topic, payload, after) =>
          && !panicked && next == after
          && multiset(targets) == Matches(tree.nodes, 0, Split(topic))
          && AllRegistered(clients.clients, targets)
          && out == Deliver(old(out), clients.clients, targets, PublishPacket(topic, payload))
    {
      var frame := ReadPublish(input, pos);
      match frame {
        case PublishCut =>
          return |input|, false, [];
        case PublishNegative =>
          return pos, true, [];
        case PublishRead(topic, payload, after) =>
          targets := Publish(topic, payload);
          return after, false, targets;
      }
    }

    /** The routing half of `handlePublish`: `Get` on the topic, then one
        copy of the message per returned entry. */
    method Publish(topic: Bytes, payload: Bytes) returns (ghost targets: seq<Client>)
      requires Valid()
      modifies this`out
      ensures multiset(targets) == Matches(tree.nodes, 0, Split(topic))
      ensures AllRegistered(clients.clients, targets)
      ensures out == Deliver(old(out), clients.clients, targets, PublishPacket(topic, payload))
    {
      var matching := tree.Get(topic);
      MatchesRegistered(tree.nodes, Split(topic), clients.clients, matching);
      Fanout(matching, topic, payload);
      targets := matching;
    }

    /** The loop over `Get`'s result in `handlePublish`: each entry's
        writer is looked up in the registry and sent the message. */
    method Fanout(matching: seq<Client>, topic: Bytes, payload: Bytes)
      requires AllRegistered(clients.clients, matching)
      modifies this`out
      ensures out == Deliver(old(out), clients.clients, matching, PublishPacket(topic, payload))
    {
      for k := 0 to |matching|
        invariant out == Deliver(old(out), clients.clients, matching[..k], PublishPacket(topic, payload))
      {
        var writer := clients.Get(matching[k].id);
        assert writer.Some?;
        assert matching[..k + 1][..k] == matching[..k];
        SendPublish(writer.value, topic, payload);
      }
      assert matching[..|matching|] == matching;
    }

    /** `handleSubscribe`: reads the body, slices out the packet
        identifier and the one filter, subscribes a new `Client` carrying
        the connection's id under that filter and answers with a SUBACK
        granting QoS 0. */
    method HandleSubscribe(input: Bytes, pos: nat, w: WriterId, clientId: nat)
      returns (next: nat, panicked: bool, ghost subscriber: Client?)
      requires Valid() && pos < |input| && Decimal(clientId) in clients.clients
      modifies this`out, tree
      ensures Valid()
      ensures match SubscribeFrame(input, pos)
        case SubscribeCut(cut) =>
          next == cut && !panicked && out == old(out) && tree.nodes == old(tree.nodes)
        case SubscribeBadSlice =>
          panicked && out == old(out) && tree.nodes == old(tree.nodes)
        case SubscribeRead(packetId, filter, after) =>
          && !panicked && next == after
          && subscriber != null && fresh(subscriber) && subscriber.id == Decimal(clientId)
          && tree.nodes == AddSpec(old(tree.nodes), 0, Split(filter), subscriber)
          && out == Send(old(out), w, SubAckPacket(packetId, [0x00]))
    {
      var frame := ReadSubscribe(input, pos);
      match frame {
        case SubscribeCut(cut) =>
          return cut, false, null;
        case SubscribeBadSlice =>
          return pos, true, null;
        case SubscribeRead(packetId, filter, after) =>
          var c := new Client(Decimal(clientId));
          AddKeepsRegistered(tree.nodes, Split(filter), c, clients.clients);
          tree.Add(filter, c);
          SendSubAck(w, packetId, [0x00]);
          return after, false, c;
      }
    }

    /** `handlePingreq`: reads the remaining length and answers with
        PINGRESP; no answer when the length runs out of input. */
    method HandlePingreq(input: Bytes, pos: nat, w: WriterId) returns (next: nat)
      requires pos < |input|
      modifies this`out
      ensures match PingFrame(input, pos)
        case None => next == |input| && out == old(out)
        case Some(after) => next == after && out == Send(old(out), w, PingResp)
    {
      var length, after := ReadRemainingLength(input, pos + 1);
      if length.None? {
        return after;
      }
      out := Send(out, w, PingResp);
      next := after;
    }

    /** `sendSubAck`: writes the fixed header, the packet identifier and
        the return codes, piece by piece, to `w`. */
    method SendSubAck(w: WriterId, packetId: Bytes, returnCodes: Bytes)
      modifies this`out
      ensures out == Send(old(out), w, SubAckPacket(packetId, returnCodes))
    {
      var lengthBytes := EncodeRemainingLength(|packetId| + |returnCodes|);
      ghost var sent: Bytes := [0x90];
      out := Send(out, w, [0x90]);
      SendTwice(old(out), w, sent, lengthBytes);
      out, sent := Send(out, w, lengthBytes), sent + lengthBytes;
      SendTwice(old(out), w, sent, packetId);
      out, sent := Send(out, w, packetId), sent + packetId;
      SendTwice(old(out), w, sent, returnCodes);
      out, sent := Send(out, w, returnCodes), sent + returnCodes;
    }

    /** `sendPublish`: writes the fixed header, the two topic length
        bytes, the topic and the payload, piece by piece, to `w`. */
    method SendPublish(w: WriterId, topic: Bytes, payload: Bytes)
      modifies this`out
      ensures out == Send(old(out), w, PublishPacket(topic, payload))
    {
      var lengthBytes := EncodeRemainingLength(|topic| + 2 + |payload|);
      var hi: Byte, lo: Byte := (|topic| / 256) % 256, |topic| % 256;
      ghost var sent: Bytes := [0x30];
      out := Send(out, w, [0x30]);
      SendTwice(old(out), w, sent, lengthBytes);
      out, sent := Send(out, w, lengthBytes), sent + lengthBytes;
      ghost var header := sent;
      SendTwice(old(out), w, sent, [hi]);
      out, sent := Send(out, w, [hi]), sent + [hi];
      SendTwice(old(out), w, sent, [lo]);
      out, sent := Send(out, w, [lo]), sent + [lo];
      assert sent == header + [hi, lo];
      SendTwice(old(out), w, sent, topic);
      out, sent := Send(out, w, topic), sent + topic;
      SendTwice(old(out), w, sent, payload);
      out, sent := Send(out, w, payload), sent + payload;
      assert sent == PublishPacket(topic, payload);
    }
  }
}
