# A verified model of go-mqtt-playground's broker core

This project models, in Dafny, the core of a small MQTT-style broker
written in Go:

- the subscription trie (`TopicTree` in broker/topic_tree.go), with its
  literal, `+` and `#` matching;
- the older stand-alone trie prototype in sample/main.go, together with
  its demo run;
- the Remaining Length codec, the variable byte integer of section 2.2.3
  of MQTT 3.1.1 (`readRemainingLength` and `encodeRemainingLength` in
  broker/main.go);
- the SUBACK and PUBLISH byte layouts (sections 3.9 and 3.3 of MQTT 3.1.1);
- the per-connection handler (broker/handler.go): the first packet must
  be CONNECT, then a loop handles PUBLISH, SUBSCRIBE and PINGREQ, stops on
  a second CONNECT, and skips one byte of any other packet type;
- the client registry (broker/client_manager.go).

How the Go program maps onto the model:

- **Connections.** A connection's `bufio.Reader` is a byte sequence with
  a cursor. Each `bufio.Writer` is a `WriterId`, and everything written to
  it is kept as one byte log in `Output` (a map from writer to bytes).
- **Objects updated in place** are classes:
  - the topic tree (`TopicTrees.TopicTree`), whose nodes are a
    `seq<TreeNode>` where a child's index is larger than its parent's;
  - the sample trie (`Sample.Trie`);
  - the registry (`Clients.ClientManager`);
  - the handler itself (`Broker.Handler`).
- **Packet decoding.** What each handler reads from the stream is
  defined once, as a function of the input and the cursor
  (`Sessions.ConnectFrame`, `PublishFrame`, `SubscribeFrame`,
  `PingFrame`). The methods that read step by step are proved equal to
  these functions.
- **Matching** is defined recursively in `TopicTrees.Matches`.
  `TopicTreeLaws.Ways` counts the ways a filter matches a topic. The
  theorems connect the two, which says which subscriptions a `Get`
  returns.
- **Result order.** `Get` collects a node's clients by ranging over a Go
  map, so its order is not determined. The model states the result as a
  multiset.

Where the code departs from MQTT 3.1.1, or can fail at run time, the
model follows the code:

- The remaining length has no four-byte cap. A fourth continuation byte,
  and so a fifth byte, is accepted (`Packets.NoFourByteCap`).
- `Get` does not deduplicate. A client reached through two filters is
  returned, and sent the message, twice
  (`TopicTreeScenarios.TwoFilterMatches`).
- Malformed input can make the Go code panic. The model covers two such
  inputs: a negative payload length in PUBLISH, and a SUBSCRIBE whose
  filter runs past its payload. (A third, a length too large to allocate,
  is under "Left out".) The model
  does not exclude these inputs by a precondition. It reads them to a
  `PublishNegative` or `SubscribeBadSlice` outcome, and the session ends
  with `Panic`. In Go such a panic is not recovered, so it ends the whole
  broker process and every connection with it. The model shows only the
  session that panicked coming to an end.
- `a/#` does not match `a`: the `#` child is entered only while segments
  remain. This departs from section 4.7.1.2 of MQTT 3.1.1.

## Model

| member | source | states |
|---|---|---|
| Stream.Read | broker/handler.go:88-90 | a read of `k` bytes advances the cursor by the smaller of `k` and the bytes left, delivers those bytes, and leaves zeros in the rest of the `k`-byte slice. It fails exactly when `k > 0` and the stream is exhausted |
| Stream.ReadWhole | broker/handler.go:134-144 | when `k` bytes remain, the read returns exactly those bytes and advances by `k` |
| Packets.FirstStop | broker/main.go:243-256 | the position where the decoding loop stops is the first byte with bit 7 clear. It is absent exactly when every byte has bit 7 set |
| Packets.DecodeLength | broker/main.go:239-259 | a successful decode consumes at least one byte and no more than the input |
| Packets.ReadRemainingLength | broker/main.go:239-259 | the loop computes the sum of `(b & 127) * 128^i` up to and including the first byte with bit 7 clear, and stops right after it. It fails exactly when the input ends first, and then it has consumed everything |
| Packets.EncodeRemainingLength | broker/main.go:261-280 | the loop's output is the base-128 digit encoding `Encode(n)` |
| Packets.WeightedSnoc | broker/main.go:250-251 | appending a byte adds its low seven bits times the next power of 128 |
| Packets.EncodeContinuation | broker/main.go:264-277 | every byte of the encoding except the last has bit 7 set, and the last has it clear |
| Packets.EncodeLength | broker/main.go:264-277 | the encoding has one byte per base-128 digit: `encode(0) == [0x00]`, one byte below 128, two bytes from 128 to 16383 |
| Packets.EncodeMinimal | broker/main.go:264-277 | the encoding is minimal: `n` fits in its bytes, and one byte fewer would not suffice |
| Packets.WeightedEncode | broker/main.go:239-280 | the decode sum over the encoding of `n` is `n` |
| Packets.RoundTrip | broker/main.go:239-280 | decoding `encode(n) ++ rest` yields `n`, consumes exactly the encoding and leaves `rest` unread |
| Packets.WeightedBound | broker/main.go:250-251 | `k` bytes decode to less than `128^k` |
| Packets.NumDigitsBound | broker/main.go:264-277 | a value below `128^k` needs at most `k` digits |
| Packets.DecodeNeverShorter | broker/main.go:239-259 | the canonical encoding of a decoded value is never longer than the bytes consumed. Overlong encodings are accepted |
| Packets.NoFourByteCap | broker/main.go:243-256 | five bytes `80 80 80 80 01` decode to 268435456: there is no four-byte limit |
| Packets.SubAckFraming | broker/handler.go:242-262 | a SUBACK has type 9, a remaining length of `len(packetID)+len(returnCodes)`, and then exactly those bytes |
| Packets.PublishFraming | broker/handler.go:265-286 | a PUBLISH has type 3, a remaining length of `len(topic)+2+len(payload)`, and exactly that many bytes after the header |
| Topics.Split | broker/topic_tree.go:16 | `strings.Split` on `/` yields at least one part, and no part contains `/` |
| Topics.JoinSplit | broker/topic_tree.go:16 | joining the parts with `/` gives back the topic |
| Topics.SplitJoin | broker/topic_tree.go:16 | splitting a join of slash-free parts gives back the parts |
| TopicTrees.Link | broker/topic_tree.go:20-22 | creating a child adds one empty node under the new key and changes nothing else in the tree |
| TopicTrees.AddSpec | broker/topic_tree.go:15-26 | subscribing keeps the node table well formed and never shrinks it |
| TopicTrees.NewNode | broker/topic_tree.go:65-71 | a new node carries its segment, has no subscribers and has no children |
| TopicTrees.WildcardCases | broker/topic_tree.go:73-75 | `isWildcard` holds for a `#` node and fails for the plain segment `foo` and for `+`, the three cases of broker/topic_tree_test.go:100-114 |
| TopicTrees.TopicTree.AppendClients | broker/topic_tree.go:36-38 | ranging over a node's client set appends every subscriber exactly once, in some order, to what was collected |
| TopicTrees.TopicTree.constructor | broker/topic_tree.go:9-13 | a new tree is a single root node with no part, no children and no clients |
| TopicTrees.TopicTree.Add | broker/topic_tree.go:15-26 | the loop walks or creates the node of each segment, then inserts the client at the last one, producing exactly `AddSpec` of the old nodes |
| TopicTrees.TopicTree.Get | broker/topic_tree.go:28-57 | the returned clients, counted with multiplicity, are exactly `Matches` of the split topic from the root |
| TopicTrees.TopicTree.Traverse | broker/topic_tree.go:34-53 | `traverse` appends `Matches` at that node to what was collected so far |
| TopicTrees.TopicTree.TraverseBelow | broker/topic_tree.go:41-52 | the three branches (literal, `+`, `#`) append the matches of each existing child |
| TopicTreeLaws.WaysLiteral | broker/topic_tree.go:41-44 | a filter with no wildcard matches a topic once if the two are equal segment for segment, and otherwise not at all |
| TopicTreeLaws.WaysPlus | broker/topic_tree.go:46-48 | for a filter without `#` and a topic made of literal segments only (both required), the filter matches the topic exactly when the two have the same length and agree on every segment where the filter is not `+` |
| TopicTreeLaws.WaysHashSuffix | broker/topic_tree.go:35-51 | for a prefix `p` without `#` and a topic made of literal segments only (both required), `p/#` matches the topic exactly when the topic is strictly longer than `p` and its first `len(p)` segments match `p` |
| TopicTreeLaws.WildcardExamples | broker/topic_tree_test.go:44-62 | `a/+/c` matches `a/b/c` but not `a/b` or `a/b/c/d`; `a/#` matches `a/b` and `a/b/c/d` but not `a`; `#` matches `b` |
| TopicTreeLaws.WaysStep | broker/topic_tree.go:41-51 | a filter's first segment is matched literally, as `+` (one segment) or as `#` (no segment) |
| TopicTreeLaws.MatchesSound | broker/topic_tree.go:34-53 | every client the traversal collects is subscribed under some filter that matches the topic |
| TopicTreeLaws.MatchesComplete | broker/topic_tree.go:34-53 | every client subscribed under a filter that matches the topic is collected |
| TopicTreeLaws.GetMembership | broker/topic_tree.go:28-57 | a client is in `Get(topic)` if and only if it is subscribed under a filter that matches the topic |
| TopicTreeLaws.MatchesFromNodes | broker/topic_tree.go:36-38 | everything collected comes from some node's client set |
| TopicTreeLaws.EmptyTreeMatchesNothing | broker/topic_tree_test.go:12-19 | a new tree returns nothing for any topic, including ones with `+` or `#` |
| TopicTreeLaws.LiteralTreeMatches | broker/topic_tree_test.go:21-42 | in a tree with no wildcard nodes, `Get(t)` returns exactly the clients of the node at path `t`, or nothing |
| TopicTreeLaws.AddGrows | broker/topic_tree.go:19-25 | `Add` keeps every existing node, child link and client |
| TopicTreeLaws.AddSubscribes | broker/topic_tree.go:15-26 | after `Add`, the filter's path leads to a node whose clients are its old clients plus the new one. Every other node keeps its clients |
| TopicTreeLaws.AddCreatesAtMost | broker/topic_tree.go:19-24 | `Add` creates at most one node per segment |
| TopicTreeLaws.AddCreatesOnPath | broker/topic_tree.go:19-24 | every node `Add` creates lies on a prefix of the filter's path |
| TopicTreeLaws.AddIdempotent | broker/topic_tree.go:25 | adding a client again under a filter it is already subscribed to leaves the tree unchanged |
| TopicTreeLaws.LookupExtends | broker/topic_tree.go:19-24 | a path that exists keeps leading to the same node as the tree grows |
| TopicTreeLaws.MatchesGrow | broker/topic_tree.go:34-53 | growing the tree never removes a match |
| TopicTreeLaws.AddThenGet | broker/topic_tree.go:15-57 | after `Add(f, c)`, every earlier match remains, and `c` is returned for every topic that `f` matches |
| Clients.ClientManager.constructor | broker/client_manager.go:13-17 | a new registry is empty |
| Clients.ClientManager.Add | broker/client_manager.go:19-24 | the id maps to the writer (overwriting any earlier one), the key set gains the id, and every other entry is unchanged |
| Clients.ClientManager.List | broker/client_manager.go:26-36 | the list has one entry per registered client. The entries are distinct, and every one is registered |
| Clients.ClientManager.Get | broker/handler.go:152 | the lookup hits exactly when the id is registered, and then returns its writer |
| Sessions.Decimal | broker/handler.go:117 | the id text is non-empty decimal digits with no leading zero |
| Sessions.DecimalRoundTrip | broker/handler.go:117 | the decimal text reads back as the number |
| Sessions.DecimalInjective | broker/handler.go:117 | distinct connection numbers get distinct client ids |
| Sessions.FirstClientId | broker/handler_test.go:38 | connection 0 is client "0" and connection 10 is client "10" |
| Sessions.Send | broker/handler.go:103-104 | a write appends to that writer's log, and every other writer's log is unchanged |
| Sessions.SendTwice | broker/handler.go:251-258 | two writes in a row append the concatenation |
| Sessions.DeliverCopies | broker/handler.go:148-154 | after the fan-out, each writer's log has gained one copy of the PUBLISH per returned entry registered on that writer |
| Sessions.DeliverGrows | broker/handler.go:148-154 | the fan-out only appends to logs |
| Sessions.RoutedToCount | broker/handler.go:148-154 | a writer receives nothing exactly when no returned entry is registered on it, so the publisher receives nothing unless it subscribed |
| Sessions.Header | broker/handler.go:124-130 | a decoded fixed header lies within the input |
| Sessions.Word | broker/handler.go:136 | a two-byte big-endian length is below 65536 |
| Sessions.WordOfLength | broker/handler.go:278-279 | the two length bytes `sendPublish` writes hold the length again, for topics shorter than 65536 bytes |
| Sessions.ConnectFrame | broker/handler.go:76-95 | reading a CONNECT always moves the cursor forward, within the input |
| Sessions.PublishFrame | broker/handler.go:122-144 | a PUBLISH that is read moves the cursor forward, within the input |
| Sessions.SubscribeFrame | broker/handler.go:163-194 | a SUBSCRIBE that is read moves the cursor forward and has a two-byte packet id |
| Sessions.PingFrame | broker/handler.go:214-225 | a PINGREQ that is read moves the cursor forward, within the input |
| Sessions.PublishRoundTrip | broker/handler.go:122-144 | the handler reads back the topic and payload of any PUBLISH that `sendPublish` builds, and stops right after it, for topics shorter than 65536 bytes |
| Sessions.SubscribeRoundTrip | broker/handler.go:163-194 | the handler reads back the packet id and the filter of a single-filter SUBSCRIBE, and stops right after it |
| Sessions.FramedHeader | broker/handler.go:124-130 | a type byte followed by `encode(n)` reads as remaining length `n`, and the body starts right after it |
| Broker.Kind | broker/handler.go:42 | the packet type is the high nibble |
| Broker.AddKeepsRegistered | broker/handler.go:196 | a subscription by a registered client keeps every client in the tree registered |
| Broker.MatchesRegistered | broker/handler.go:148-153 | every client `Get` returns has a writer, so the nil writer lookup cannot happen |
| Broker.ReadPublish | broker/handler.go:122-144 | the reads of `handlePublish` produce `PublishFrame` |
| Broker.ReadSubscribe | broker/handler.go:163-194 | the reads of `handleSubscribe` produce `SubscribeFrame` |
| Broker.Handler.constructor | broker/handler.go:19-25 | a new handler has an empty tree, an empty registry, no output and `nextClientId` 0 |
| Broker.Handler.Handle | broker/handler.go:27-74 | the session takes the current id and increments it by one. No input, or a first packet that is not CONNECT, changes nothing else. A CONNECT cut short changes nothing else. A CONNECT that is read registers `Decimal(id)` on the writer, and CONNACK is written before anything else. The tree and the logs only grow |
| Broker.Handler.HandleConnect | broker/handler.go:76-119 | a CONNECT that is read writes exactly `20 02 00 00` and registers the id. A cut-short one consumes the rest of the input and does nothing |
| TopicTreeScenarios.TwoFilterFirst | broker/topic_tree.go:15-26 | `Add("a/+", c)` on a new tree creates the nodes `a` and `+` and puts `c` at `+` |
| TopicTreeScenarios.TwoFilterSecond | broker/topic_tree.go:15-26 | `Add("a/#", c)` then follows the existing `a` and creates a `#` node holding `c` |
| TopicTreeScenarios.TwoFilterBelowA | broker/topic_tree.go:41-51 | at `a`, with `b` left to match, the `+` child and the `#` child each contribute `c` once |
| TopicTreeScenarios.TwoFilterMatches | broker/topic_tree.go:28-57 | `Get("a/b")` on that tree counts `c` twice: the traversal does not deduplicate |
| TopicTreeScenarios.TwoFilterTest | broker/topic_tree.go:15-57 | on the `TopicTree` class, after `Add("a/+", c)` and `Add("a/#", c)`, `Get("a/b")` returns `c` exactly twice |
| Broker.Handler.Dispatch | broker/handler.go:48-73 | a second CONNECT stops the session with no output. A PUBLISH is delivered to the `Get` result of its topic. A SUBSCRIBE adds the session's id under its filter and answers SUBACK. A PINGREQ answers `D0 00`. Any other type skips exactly one byte. Only SUBSCRIBE changes the tree |
| Broker.Handler.HandlePublish | broker/handler.go:122-159 | a PUBLISH that is read goes to exactly the writers of the clients `Get` returns, one copy per entry, and the publisher gets no reply. A short stream consumes the rest of the input, and a negative payload length is a panic; neither writes anything |
| Broker.Handler.Publish | broker/handler.go:148-154 | the message goes to the multiset `Matches` of the topic, all of whose entries are registered |
| Broker.Handler.Fanout | broker/handler.go:150-154 | the loop sends one PUBLISH per entry, in list order, to the entry's registered writer |
| Broker.Handler.HandleSubscribe | broker/handler.go:163-212 | the filter at `payload[4..4+len)` is added for a fresh client carrying the session's id, and SUBACK echoes `payload[0:2]` with code `0x00`. A cut-short read changes nothing, and a filter that runs past the payload is a panic |
| Broker.Handler.HandlePingreq | broker/handler.go:214-240 | consumes the type and the remaining length and writes exactly `D0 00`. If the length cannot be read, it writes nothing |
| Broker.Handler.SendSubAck | broker/handler.go:242-262 | appends exactly the SUBACK layout to the writer's log |
| Broker.Handler.SendPublish | broker/handler.go:265-286 | appends exactly the PUBLISH layout: the two topic-length bytes are `byte(len>>8)` and `byte(len)` |
| BrokerScenarios.ConnectPacketFrame | broker/handler_test.go:14-24 | the test's CONNECT has remaining length 10 and ends at byte 12 |
| BrokerScenarios.ConnectTest | broker/handler_test.go:11-39 | the writer receives exactly CONNACK, one client is listed, it is "0", and a lookup of "0" finds the writer |
| BrokerScenarios.PingreqFirstTest | broker/handler.go:36-45 | a connection that opens with PINGREQ gets no reply and registers nothing |
| BrokerScenarios.PingAfterConnect | broker/handler.go:46-68 | a PINGREQ after a CONNECT is answered: the writer receives CONNACK, then PINGRESP |
| Sample.NewChild | sample/main.go:30-32 | creating a child adds one empty node under the key and changes nothing else |
| Sample.MarkWildcard | sample/main.go:35-37 | entering a `#` segment sets that node's flag and changes nothing else |
| Sample.SubscribeSpec | sample/main.go:25-40 | subscribing keeps the node table well linked and never shrinks it |
| Sample.SubscribeIdempotent | sample/main.go:25-40 | re-subscribing a client to a topic it already holds leaves the trie unchanged |
| Sample.Trie.constructor | sample/main.go:18-23 | a new trie is one empty root |
| Sample.Trie.Subscribe | sample/main.go:25-40 | the loop produces exactly `SubscribeSpec` of the old trie |
| Sample.Trie.Publish | sample/main.go:42-68 | the recorded deliveries, counted with multiplicity, are exactly `Delivered` |
| Sample.Trie.Visit | sample/main.go:46-65 | the recursive visit appends the node's deliveries to those recorded so far |
| Sample.Trie.VisitBelow | sample/main.go:53-64 | the literal, `+` and `#` branches append each existing child's deliveries |
| Sample.MirrorsEmpty | sample/main.go:18-23 | an empty sample trie corresponds to an empty `TopicTree` |
| Sample.MirrorsFlags | sample/main.go:35-37 | in a trie that corresponds to a `TopicTree` (as every trie built by subscriptions does), the root is not flagged, and a node is flagged exactly when it was reached through a `#` segment |
| Sample.SubscribeMirrorsAdd | sample/main.go:25-40 | `Subscribe` and `TopicTree.Add` keep the two tries corresponding |
| Sample.DeliveredMirrorsMatches | sample/main.go:42-68 | on corresponding tries, the sample's deliveries equal what `TopicTree.Get` returns |
| Sample.DeliveredBelowMirrors | sample/main.go:53-64 | the same holds for the three branches below a node |
| SampleScenario.FirstSubscription | sample/main.go:76 | the first subscription builds the chain `home/kitchen/temperature` holding Client1 |
| SampleScenario.SecondSubscription | sample/main.go:77 | `home/+/temperature` adds a `+` branch holding Client2 |
| SampleScenario.ThirdSubscription | sample/main.go:78 | `home/#` adds a flagged `#` node holding Client2 |
| SampleScenario.KitchenRun | sample/main.go:76-78 | the three subscriptions of the demo build exactly the expected table |
| SampleScenario.KitchenLeaves | sample/main.go:46-64 | below `home`, the literal branch delivers Client1, the `+` branch delivers Client2, and the `#` node delivers Client2 for any remaining topic |
| SampleScenario.HomeLevel | sample/main.go:46-64 | at `home` the three branches add up: Client1 when the segment is `kitchen`, and Client2 twice |
| SampleScenario.RootLevel | sample/main.go:46-64 | a topic under `home` is delivered from the `home` node only |
| SampleScenario.KitchenDelivery | sample/main.go:80 | `home/kitchen/temperature` reaches Client1 once and Client2 twice |
| SampleScenario.LivingRoomDelivery | sample/main.go:81 | `home/living_room/temperature` reaches Client2 twice |
| SampleScenario.OfficeDelivery | sample/main.go:82 | `office/room1/temperature` reaches no one |
| SampleScenario.Demo | sample/main.go:70-83 | running the demo delivers `{Client1, Client2, Client2}`, then `{Client2, Client2}`, then nothing |

## Left out

- Concurrency: the `sync.Mutex` in `Handler` and in `ClientManager`, and
  the concurrent test in broker/topic_tree_test.go:65-98. The model is
  sequential, and `nextClientId` is a plain increment.
- Networking: `main` and `handleConn` in broker/main.go:12-42. Each
  connection is given to `Handle` as its whole input.
- broker/main.go:44-190: the package-level `handleConnect`,
  `handlePublish`, `handleSubscribe` and `handlePingreq` are unused
  variants of the handler's methods. They do not read the type byte, and
  this `handlePingreq` does not read the remaining length. `sendSubAck`
  and `sendPublish` in broker/main.go:192-236 are unused too. They write
  the same byte layouts as the modelled methods.
- client/main.go is not part of this model. It is a TCP test client.
- Logging and debug output: `log`, `spew.Dump`, and `topicTree.Print`.
  `topicTree.Print` is called at broker/handler.go:200 but is not
  defined in any file of the repository that this model covers, so it
  is not part of this model.
- The sample's `fmt.Printf` of each delivery is modelled as the returned
  list of delivered clients.
- `bufio` behaviour:
  - a `Read` is full, delivering what the stream still holds, padded with
    zeros;
  - `readRemainingLength` fails only at the end of the stream;
  - short reads and write or flush errors are not modelled.
- Stream.Read: `bufio.Reader.Read` may return fewer bytes than are
  available. The model always delivers all of them.
- Go `int` is unbounded here. Remaining lengths whose sum would overflow
  64 bits are not modelled.
- Sessions.ConnectFrame, Sessions.PublishFrame, Sessions.SubscribeFrame:
  allocation limits are not modelled. `make([]byte, n)` at
  broker/handler.go:89, :143 and :177 panics when `n` is above Go's
  largest allocation. Since `readRemainingLength` has no cap, a
  seven-byte length field can ask for this. The model has no such bound.
  For a huge CONNECT, PUBLISH or SUBSCRIBE length, it reads whatever is
  left of the stream into a zero-padded body and does not treat the
  length as a panic. The truncation of the topic length to two
  bytes in `sendPublish` is modelled (`% 256`).
- Sessions.PublishRoundTrip: the round trip is stated for topics shorter
  than 65536 bytes only, because longer topics have their length
  truncated when written.
- Broker.Handler.Handle: for a connection that goes on after its CONNECT,
  the contract states the registration, that CONNACK comes first, and
  that the tree and the logs only grow. What each later packet does is
  stated per packet by `Broker.Handler.Dispatch`, not as one trace of the
  whole loop.
- Clients.ClientManager.Get: `ClientManager.Get` is called at
  broker/handler.go:152 and broker/handler_test.go:38 but is not defined
  in any file of the repository that this model covers. The model looks clients up by id value, which is
  what the test expects. The Go map is keyed by `*Client`.
- Clients.ClientManager.List returns the registered ids rather than
  `*Client` pointers. The returned order is not specified, as when
  ranging over a Go map.
- Unimplemented protocol features (TODOs in the source): CONNECT flags,
  keep-alive, client ids taken from CONNECT, QoS, and further filters
  after the first one in a SUBSCRIBE.
- Every SUBSCRIBE adds a new `Client` object (broker/handler.go:196).
  Subscribing twice from one session therefore adds a second entry, and
  the messages are then sent to it twice. `TopicTreeLaws.AddIdempotent`
  holds only for the same `Client` object.
- broker/handler_test.go:41-59 (`TestHandlePingreq`) expects PINGRESP on
  a connection whose first packet is PINGREQ. broker/handler.go:42-45
  drops such a connection before reading it. The model follows the code
  (`BrokerScenarios.PingreqFirstTest`) and states PINGREQ handling after
  a CONNECT (`BrokerScenarios.PingAfterConnect`).
- In the topic tree tests, clients are compared by their id. The model
  compares `Client` objects by identity, as the Go maps keyed by
  `*Client` do.
