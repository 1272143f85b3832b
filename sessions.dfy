/** The value-level side of broker/handler.go: how a connection's bytes
    are cut into packets, what every writer has been sent, and the client
    ids the handler hands out. The `Handler` class in module `Broker`
    is proved against these definitions. */
module Sessions {
  import opened BrokerTypes
  import opened Stream
  import opened Packets
  import opened TopicTrees

  // ---------------------------------------------------------------------
  // Client ids: `ClientID(fmt.Sprint(clientId))`

  predicate IsDigit(b: Byte) { 0x30 <= b <= 0x39 }

  predicate AllDigits(s: Bytes) { forall j :: 0 <= j < |s| ==> IsDigit(s[j]) }

  /** The decimal text of `n`, most significant digit first, with no
      leading zeros, as `fmt.Sprint` renders a non-negative `int`. */
  function Decimal(n: nat): (r: ClientID)
    ensures |r| >= 1 && AllDigits(r)
    ensures |r| > 1 ==> r[0] != 0x30
  {
    if n < 10 then [0x30 + n] else Decimal(n / 10) + [0x30 + n % 10]
  }

  /** Reads a digit string back as a number. */
  function ParseDecimal(s: Bytes): nat
    requires AllDigits(s)
  {
    if s == [] then 0 else ParseDecimal(s[..|s| - 1]) * 10 + (s[|s| - 1] - 0x30)
  }

  /** `Decimal` loses nothing: parsing its text gives the number back. */
  lemma {:induction false} DecimalRoundTrip(n: nat)
    ensures ParseDecimal(Decimal(n)) == n
    decreases n
  {
    if n >= 10 {
      var d := Decimal(n);
      assert d[..|d| - 1] == Decimal(n / 10);
      DecimalRoundTrip(n / 10);
    }
  }

  /** Distinct counters give distinct client ids, so no two connections
      handled by one `Handler` share an id. */
  lemma DecimalInjective(m: nat, n: nat)
    ensures Decimal(m) == Decimal(n) <==> m == n
  {
    if Decimal(m) == Decimal(n) {
      DecimalRoundTrip(m);
      DecimalRoundTrip(n);
    }
  }

  /** The first connection of a new handler is client "0", as the
      CONNECT test expects. */
  lemma FirstClientId()
    ensures Decimal(0) == [0x30]
    ensures Decimal(10) == [0x31, 0x30]
  {
  }

  // ---------------------------------------------------------------------
  // Writers: everything each `*bufio.Writer` has been sent

  type Output = map<WriterId, Bytes>

  /** What writer `w` has been sent so far. */
  function OutOf(out: Output, w: WriterId): Bytes
  {
    if w in out then out[w] else []
  }

  /** Appends `bytes` to what `w` has been sent, and to nothing else. */
  function Send(out: Output, w: WriterId, bytes: Bytes): (r: Output)
    ensures OutOf(r, w) == OutOf(out, w) + bytes
    ensures forall x :: x != w ==> OutOf(r, x) == OutOf(out, x)
  {
    out[w := OutOf(out, w) + bytes]
  }

  /** Two sends to one writer are one send of both, in order. */
  lemma SendTwice(out: Output, w: WriterId, a: Bytes, b: Bytes)
    ensures Send(Send(out, w, a), w, b) == Send(out, w, a + b)
  {
    assert OutOf(out, w) + a + b == OutOf(out, w) + (a + b);
  }

  /** Every writer's output in `a` is the start of its output in `b`:
      nothing once sent is ever taken back. */
  ghost predicate Grows(a: Output, b: Output)
  {
    forall x :: OutOf(a, x) <= OutOf(b, x)
  }

  lemma GrowsSend(out: Output, w: WriterId, bytes: Bytes)
    ensures Grows(out, Send(out, w, bytes))
  {
    forall x ensures OutOf(out, x) <= OutOf(Send(out, w, bytes), x) {
      if x == w {
        assert OutOf(Send(out, w, bytes), x)[..|OutOf(out, x)|] == OutOf(out, x);
      }
    }
  }

  lemma GrowsTrans(a: Output, b: Output, c: Output)
    requires Grows(a, b) && Grows(b, c)
    ensures Grows(a, c)
  {
    forall x ensures OutOf(a, x) <= OutOf(c, x) {
      assert OutOf(a, x) <= OutOf(b, x) && OutOf(b, x) <= OutOf(c, x);
      assert OutOf(c, x)[..|OutOf(a, x)|] == OutOf(b, x)[..|OutOf(a, x)|];
    }
  }

  // ---------------------------------------------------------------------
  // Fan-out of one PUBLISH

  /** Every target's id has a registered writer. */
  ghost predicate AllRegistered(reg: map<ClientID, WriterId>, targets: seq<Client>)
  {
    forall k :: 0 <= k < |targets| ==> targets[k].id in reg
  }

  /** `packet` sent, in order, to the writer of each target. */
  ghost function Deliver(out: Output, reg: map<ClientID, WriterId>, targets: seq<Client>, packet: Bytes): Output
    requires AllRegistered(reg, targets)
    decreases |targets|
  {
    if targets == [] then out
    else
      var last := targets[|targets| - 1];
      Send(Deliver(out, reg, targets[..|targets| - 1], packet), reg[last.id], packet)
  }

  /** How many of the targets are routed to writer `w`. */
  ghost function RoutedTo(reg: map<ClientID, WriterId>, targets: seq<Client>, w: WriterId): nat
    requires AllRegistered(reg, targets)
    decreases |targets|
  {
    if targets == [] then 0
    else
      var last := targets[|targets| - 1];
      RoutedTo(reg, targets[..|targets| - 1], w) + (if reg[last.id] == w then 1 else 0)
  }

  /** `n` copies of `packet`. */
  function Repeat(packet: Bytes, n: nat): Bytes
  {
    if n == 0 then [] else Repeat(packet, n - 1) + packet
  }

  /** After the fan-out each writer has been sent one copy of the packet
      per target routed to it, after what it had already, and nothing
      else; a writer no target is routed to (the publisher's own, unless
      it subscribed) receives nothing. */
  lemma {:induction false} DeliverCopies(out: Output, reg: map<ClientID, WriterId>, targets: seq<Client>, packet: Bytes, w: WriterId)
    requires AllRegistered(reg, targets)
    ensures OutOf(Deliver(out, reg, targets, packet), w)
      == OutOf(out, w) + Repeat(packet, RoutedTo(reg, targets, w))
    decreases |targets|
  {
    if targets != [] {
      var init := targets[..|targets| - 1];
      DeliverLast(out, reg, targets, packet, w);
      DeliverCopies(out, reg, init, packet, w);
      var last := targets[|targets| - 1];
      CopiesStep(OutOf(out, w), OutOf(Deliver(out, reg, init, packet), w), packet, RoutedTo(reg, init, w), reg[last.id] == w);
    }
  }

  /** One more copy, or none, on top of `n` copies. */
  lemma CopiesStep(before: Bytes, sofar: Bytes, packet: Bytes, n: nat, more: bool)
    requires sofar == before + Repeat(packet, n)
    ensures sofar + (if more then packet else []) == before + Repeat(packet, n + if more then 1 else 0)
  {
    if more {
      assert Repeat(packet, n + 1) == Repeat(packet, n) + packet;
      assert sofar + packet == before + (Repeat(packet, n) + packet);
    } else {
      assert sofar + [] == sofar;
    }
  }

  /** The last target of a fan-out adds one copy for its own writer. */
  lemma DeliverLast(out: Output, reg: map<ClientID, WriterId>, targets: seq<Client>, packet: Bytes, w: WriterId)
    requires AllRegistered(reg, targets) && targets != []
    ensures var init, last := targets[..|targets| - 1], targets[|targets| - 1];
      && AllRegistered(reg, init) && last.id in reg
      && OutOf(Deliver(out, reg, targets, packet), w)
         == OutOf(Deliver(out, reg, init, packet), w) + (if reg[last.id] == w then packet else [])
      && RoutedTo(reg, targets, w) == RoutedTo(reg, init, w) + (if reg[last.id] == w then 1 else 0)
  {
  }

  /** A fan-out only appends. */
  lemma {:induction false} DeliverGrows(out: Output, reg: map<ClientID, WriterId>, targets: seq<Client>, packet: Bytes)
    requires AllRegistered(reg, targets)
    ensures Grows(out, Deliver(out, reg, targets, packet))
    decreases |targets|
  {
    if targets == [] {
      forall x ensures OutOf(out, x) <= OutOf(out, x) { }
    } else {
      var init := targets[..|targets| - 1];
      var last := targets[|targets| - 1];
      DeliverGrows(out, reg, init, packet);
      var mid := Deliver(out, reg, init, packet);
      GrowsSend(mid, reg[last.id], packet);
      GrowsTrans(out, mid, Send(mid, reg[last.id], packet));
    }
  }

  /** No copy goes to `w` exactly when no target's id maps to it. */
  lemma {:induction false} RoutedToCount(reg: map<ClientID, WriterId>, targets: seq<Client>, w: WriterId)
    requires AllRegistered(reg, targets)
    ensures RoutedTo(reg, targets, w) == 0 <==> forall k :: 0 <= k < |targets| ==> reg[targets[k].id] != w
    decreases |targets|
  {
    if targets != [] {
      var init := targets[..|targets| - 1];
      RoutedToCount(reg, init, w);
      assert forall k :: 0 <= k < |init| ==> init[k] == targets[k];
    }
  }

  // ---------------------------------------------------------------------
  // How each handler cuts its packet out of the input

  /** The cursor right after a packet's type byte and its remaining
      length, with that length; nothing when the length field runs out
      of input. */
  function Header(input: Bytes, pos: nat): (r: Option<(nat, nat)>)
    requires pos < |input|
    ensures r.Some? ==> pos + 1 < r.value.1 <= |input|
  {
    match DecodeLength(input[pos + 1..])
    case None => None
    case Some((len, k)) => Some((len, pos + 1 + k))
  }

  /** A big-endian two-byte length, `int(hi)<<8 | int(lo)`. */
  function Word(hi: Byte, lo: Byte): (r: nat)
    ensures r < 65536
  {
    (hi as int) * 256 + (lo as int)
  }

  /** The two length bytes of a string shorter than 64 KiB give its
      length back. */
  lemma WordOfLength(n: nat)
    requires n < 65536
    ensures Word((n / 256) % 256, n % 256) == n
  {
  }

  /** `handleConnect`: the remaining length, then a read of that many
      bytes. `next` is where the cursor stops. */
  datatype ConnectOutcome = ConnectCut(next: nat) | ConnectAccepted(next: nat)

  function ConnectFrame(input: Bytes, pos: nat): (r: ConnectOutcome)
    requires pos < |input|
    ensures pos < r.next <= |input|
  {
    match Header(input, pos)
    case None => ConnectCut(|input|)
    case Some((len, after)) =>
      var body := Read(input, after, len);
      if body.failed then ConnectCut(body.next) else ConnectAccepted(body.next)
  }

  /** `handlePublish`: the remaining length, then two length bytes, the
      topic and the payload, each read ignoring errors; `Negative` is a
      remaining length too short for the topic, on which
      `make([]byte, payloadLen)` panics. */
  datatype PublishOutcome =
    | PublishCut
    | PublishNegative
    | PublishRead(topic: Bytes, payload: Bytes, next: nat)

  function PublishFrame(input: Bytes, pos: nat): (r: PublishOutcome)
    requires pos < |input|
    ensures r.PublishRead? ==> pos < r.next <= |input|
  {
    match Header(input, pos)
    case None => PublishCut
    case Some((len, after)) => PublishBodyFrame(input, len, after)
  }

  /** What `handlePublish` reads after a remaining length `len` that
      ended at `after`. */
  function PublishBodyFrame(input: Bytes, len: nat, after: nat): (r: PublishOutcome)
    requires after <= |input|
    ensures r.PublishRead? ==> after <= r.next <= |input|
  {
    var lengthBytes := Read(input, after, 2);
    var topicLen := Word(lengthBytes.data[0], lengthBytes.data[1]);
    var topic := Read(input, lengthBytes.next, topicLen);
    if len - 2 - topicLen < 0 then PublishNegative
    else
      var payload := Read(input, topic.next, len - 2 - topicLen);
      PublishRead(topic.data, payload.data, payload.next)
  }

  /** `handleSubscribe`: the remaining length, a read of that many bytes,
      then the packet identifier, the filter length and the filter sliced
      out of them; `BadSlice` is a body too short for those slices, on
      which the Go slicing panics. */
  datatype SubscribeOutcome =
    | SubscribeCut(next: nat)
    | SubscribeBadSlice
    | SubscribeRead(packetId: Bytes, filter: Bytes, next: nat)

  function SubscribeFrame(input: Bytes, pos: nat): (r: SubscribeOutcome)
    requires pos < |input|
    ensures !r.SubscribeBadSlice? ==> pos < r.next <= |input|
    ensures r.SubscribeRead? ==> |r.packetId| == 2
  {
    match Header(input, pos)
    case None => SubscribeCut(|input|)
    case Some((len, after)) => SubscribeBodyFrame(input, len, after)
  }

  /** What `handleSubscribe` reads and slices after a remaining length
      `len` that ended at `after`. */
  function SubscribeBodyFrame(input: Bytes, len: nat, after: nat): (r: SubscribeOutcome)
    requires after <= |input|
    ensures !r.SubscribeBadSlice? ==> after <= r.next <= |input|
    ensures r.SubscribeRead? ==> |r.packetId| == 2
  {
    var body := Read(input, after, len);
    if body.failed then SubscribeCut(body.next)
    else if |body.data| < 4 then SubscribeBadSlice
    else
      var topicEnd := 4 + Word(body.data[2], body.data[3]);
      if topicEnd > |body.data| then SubscribeBadSlice
      else SubscribeRead(body.data[0..2], body.data[4..topicEnd], body.next)
  }

  /** `handlePingreq`: the remaining length is read and ignored (its
      bytes, if any, are left in the input); nothing when it runs out. */
  function PingFrame(input: Bytes, pos: nat): (r: Option<nat>)
    requires pos < |input|
    ensures r.Some? ==> pos < r.value <= |input|
  {
    match Header(input, pos)
    case None => None
    case Some((_, after)) => Some(after)
  }

  // ---------------------------------------------------------------------
  // Reference layouts the decoders are checked against

  /** A SUBSCRIBE with one filter and its requested QoS, laid out as in
      section 3.8 of the MQTT 3.1.1 standard. */
  function SubscribePacket(packetId: Bytes, filter: Bytes, qos: Byte): Bytes
    requires |packetId| == 2 && |filter| < 65536
  {
    [0x82] + Encode(2 + 2 + |filter| + 1)
      + packetId + [|filter| / 256, |filter| % 256] + filter + [qos]
  }

  /** The three reads `handlePublish` makes after the header, on input
      that holds the two length bytes, the topic and the payload. */
  lemma PublishBody(input: Bytes, after: nat, hi: Byte, lo: Byte, topic: Bytes, payload: Bytes)
    requires Word(hi, lo) == |topic|
    requires after + 2 + |topic| + |payload| <= |input|
    requires input[after..after + 2] == [hi, lo]
    requires input[after + 2..after + 2 + |topic|] == topic
    requires input[after + 2 + |topic|..after + 2 + |topic| + |payload|] == payload
    ensures PublishBodyFrame(input, |topic| + 2 + |payload|, after)
      == PublishRead(topic, payload, after + 2 + |topic| + |payload|)
  {
    var lengthBytes := Read(input, after, 2);
    ReadWhole(input, after, 2);
    assert lengthBytes.data[0] == hi && lengthBytes.data[1] == lo;
    ReadWhole(input, after + 2, |topic|);
    ReadWhole(input, after + 2 + |topic|, |payload|);
  }

  /** A fixed header written with `Encode` is read back by `Header`,
      whatever follows it. */
  lemma FramedHeader(first: Byte, n: nat, tail: Bytes)
    ensures var input := [first] + Encode(n) + tail;
      && Header(input, 0) == Some((n, 1 + |Encode(n)|))
      && input[1 + |Encode(n)|..] == tail
  {
    var input := [first] + Encode(n) + tail;
    assert input[1..] == Encode(n) + tail;
    RoundTrip(n, tail);
  }

  /** The three pieces of a concatenation that starts at `at` are its
      slices. */
  lemma Pieces(input: Bytes, at: nat, a: Bytes, b: Bytes, c: Bytes, rest: Bytes)
    requires at <= |input| && input[at..] == a + b + c + rest
    ensures at + |a| + |b| + |c| <= |input|
    ensures input[at..at + |a|] == a
    ensures input[at + |a|..at + |a| + |b|] == b
    ensures input[at + |a| + |b|..at + |a| + |b| + |c|] == c
  {
    var s := a + b + c + rest;
    SliceOfSuffix(input, at, 0, |a|);
    SliceOfSuffix(input, at, |a|, |a| + |b|);
    SliceOfSuffix(input, at, |a| + |b|, |a| + |b| + |c|);
    assert s[..|a|] == a;
    assert s[|a|..|a| + |b|] == b;
    assert s[|a| + |b|..|a| + |b| + |c|] == c;
  }

  lemma SliceOfSuffix(input: Bytes, at: nat, i: nat, j: nat)
    requires i <= j && at + j <= |input|
    ensures input[at + i..at + j] == input[at..][i..j]
  {
  }

  /** `handlePublish` reads back exactly the topic and payload that
      `sendPublish` wrote, and stops at the end of that packet, whatever
      follows it. */
  lemma PublishRoundTrip(topic: Bytes, payload: Bytes, rest: Bytes)
    requires |topic| < 65536
    ensures var p := PublishPacket(topic, payload);
      PublishFrame(p + rest, 0) == PublishRead(topic, payload, |p|)
  {
    var n := |topic| + 2 + |payload|;
    var lenBytes: Bytes := [(|topic| / 256) % 256, |topic| % 256];
    var tail := lenBytes + topic + payload + rest;
    var input := PublishPacket(topic, payload) + rest;
    assert input == [0x30] + Encode(n) + tail;
    FramedHeader(0x30, n, tail);
    var after := 1 + |Encode(n)|;
    Pieces(input, after, lenBytes, topic, payload, rest);
    WordOfLength(|topic|);
    PublishBody(input, after, lenBytes[0], lenBytes[1], topic, payload);
    assert PublishFrame(input, 0) == PublishBodyFrame(input, n, after);
    assert |PublishPacket(topic, payload)| == after + 2 + |topic| + |payload|;
  }

  /** `handleSubscribe` reads the packet identifier and the filter of a
      one-filter SUBSCRIBE, and stops after its QoS byte. */
  lemma SubscribeRoundTrip(packetId: Bytes, filter: Bytes, qos: Byte, rest: Bytes)
    requires |packetId| == 2 && |filter| < 65536
    ensures var p := SubscribePacket(packetId, filter, qos);
      SubscribeFrame(p + rest, 0) == SubscribeRead(packetId, filter, |p|)
  {
    var n := 2 + 2 + |filter| + 1;
    var p := SubscribePacket(packetId, filter, qos);
    var input := p + rest;
    var lenBytes: Bytes := [|filter| / 256, |filter| % 256];
    var body := packetId + lenBytes + filter + [qos];
    assert input == [0x82] + Encode(n) + (body + rest);
    FramedHeader(0x82, n, body + rest);
    var after := 1 + |Encode(n)|;
    assert input[after..after + n] == body;
    WordOfLength(|filter|);
    SubscribeBody(input, after, packetId, lenBytes[0], lenBytes[1], filter, qos);
  }

  /** The body read and sliced by `handleSubscribe`, on input that holds
      a one-filter SUBSCRIBE body at `after`. */
  lemma SubscribeBody(input: Bytes, after: nat, packetId: Bytes, hi: Byte, lo: Byte, filter: Bytes, qos: Byte)
    requires |packetId| == 2 && Word(hi, lo) == |filter|
    requires after + 5 + |filter| <= |input|
    requires input[after..after + 5 + |filter|] == packetId + [hi, lo] + filter + [qos]
    ensures SubscribeBodyFrame(input, 5 + |filter|, after)
      == SubscribeRead(packetId, filter, after + 5 + |filter|)
  {
    var body := packetId + [hi, lo] + filter + [qos];
    ReadWhole(input, after, |body|);
    Pieces(body, 0, packetId, [hi, lo], filter, [qos]);
    assert body[2] == hi && body[3] == lo;
  }
}
