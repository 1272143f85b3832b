/** The run in `main` of sample/main.go: three subscriptions and three
    publications, stated for any segment names with the shape of the
    ones used there. */
module SampleScenario {
  import opened BrokerTypes
  import opened Topics
  import opened TopicTrees
  import opened Sample

  /** A segment that is neither wildcard. */
  predicate Plain(p: Bytes)
  {
    p != Plus && p != Hash
  }

  /** The table after the first subscription,
      `home/kitchen/temperature` for `client1`. */
  lemma FirstSubscription(home: Bytes, kitchen: Bytes, temp: Bytes, c1: Client)
    requires Plain(home) && Plain(kitchen) && Plain(temp)
    ensures SubscribeSpec([EmptyNode()], 0, [home, kitchen, temp], c1) == [
      SampleNode({}, map[home := 1], false),
      SampleNode({}, map[kitchen := 2], false),
      SampleNode({}, map[temp := 3], false),
      SampleNode({c1}, map[], false)]
  {
    var t0 := [EmptyNode()];
    var t1 := NewChild(t0, 0, home);
    var t2 := NewChild(t1, 1, kitchen);
    var t3 := NewChild(t2, 2, temp);
    assert t1 == [SampleNode({}, map[home := 1], false), EmptyNode()];
    assert t2 == [t1[0], SampleNode({}, map[kitchen := 2], false), EmptyNode()];
    assert t3 == [t1[0], t2[1], SampleNode({}, map[temp := 3], false), EmptyNode()];
    assert [home, kitchen, temp][1..] == [kitchen, temp];
    assert [kitchen, temp][1..] == [temp];
    assert [temp][1..] == [];
    assert SubscribeSpec(t0, 0, [home, kitchen, temp], c1) == SubscribeSpec(t1, 1, [kitchen, temp], c1);
    assert SubscribeSpec(t1, 1, [kitchen, temp], c1) == SubscribeSpec(t2, 2, [temp], c1);
    assert SubscribeSpec(t2, 2, [temp], c1) == SubscribeSpec(t3, 3, [], c1);
    assert t3[3] == EmptyNode() && EmptyNode().clients + {c1} == {c1};
    assert t3[3].(clients := t3[3].clients + {c1}) == SampleNode({c1}, map[], false);
  }

  /** The table after the second subscription,
      `home/+/temperature` for `client2`. */
  lemma SecondSubscription(home: Bytes, kitchen: Bytes, temp: Bytes, c1: Client, c2: Client)
    requires Plain(home) && Plain(kitchen) && Plain(temp)
    ensures var t := [
      SampleNode({}, map[home := 1], false),
      SampleNode({}, map[kitchen := 2], false),
      SampleNode({}, map[temp := 3], false),
      SampleNode({c1}, map[], false)];
      SubscribeSpec(t, 0, [home, Plus, temp], c2) == [
      SampleNode({}, map[home := 1], false),
      SampleNode({}, map[kitchen := 2, Plus := 4], false),
      SampleNode({}, map[temp := 3], false),
      SampleNode({c1}, map[], false),
      SampleNode({}, map[temp := 5], false),
      SampleNode({c2}, map[], false)]
  {
    var t0 := [
      SampleNode({}, map[home := 1], false),
      SampleNode({}, map[kitchen := 2], false),
      SampleNode({}, map[temp := 3], false),
      SampleNode({c1}, map[], false)];
    assert Linked(t0);
    var t1 := NewChild(t0, 1, Plus);
    var t2 := NewChild(t1, 4, temp);
    assert t1 == [t0[0], SampleNode({}, map[kitchen := 2, Plus := 4], false), t0[2], t0[3], EmptyNode()];
    assert t2 == [t0[0], t1[1], t0[2], t0[3], SampleNode({}, map[temp := 5], false), EmptyNode()];
    assert [home, Plus, temp][1..] == [Plus, temp];
    assert [Plus, temp][1..] == [temp];
    assert [temp][1..] == [];
    assert SubscribeSpec(t0, 0, [home, Plus, temp], c2) == SubscribeSpec(t0, 1, [Plus, temp], c2);
    assert SubscribeSpec(t0, 1, [Plus, temp], c2) == SubscribeSpec(t1, 4, [temp], c2);
    assert SubscribeSpec(t1, 4, [temp], c2) == SubscribeSpec(t2, 5, [], c2);
    assert t2[5] == EmptyNode() && EmptyNode().clients + {c2} == {c2};
    assert t2[5].(clients := t2[5].clients + {c2}) == SampleNode({c2}, map[], false);
  }

  /** The table after the third subscription, `home/#` for `client2`:
      the `#` node is flagged. */
  lemma ThirdSubscription(home: Bytes, kitchen: Bytes, temp: Bytes, c1: Client, c2: Client)
    requires Plain(home) && Plain(kitchen) && Plain(temp)
    ensures var t := [
      SampleNode({}, map[home := 1], false),
      SampleNode({}, map[kitchen := 2, Plus := 4], false),
      SampleNode({}, map[temp := 3], false),
      SampleNode({c1}, map[], false),
      SampleNode({}, map[temp := 5], false),
      SampleNode({c2}, map[], false)];
      SubscribeSpec(t, 0, [home, Hash], c2) == KitchenTable(home, kitchen, temp, c1, c2)
  {
    var t0 := [
      SampleNode({}, map[home := 1], false),
      SampleNode({}, map[kitchen := 2, Plus := 4], false),
      SampleNode({}, map[temp := 3], false),
      SampleNode({c1}, map[], false),
      SampleNode({}, map[temp := 5], false),
      SampleNode({c2}, map[], false)];
    assert Linked(t0);
    var t1 := NewChild(t0, 1, Hash);
    var t2 := MarkWildcard(t1, 6);
    assert t1 == t0[1 := SampleNode({}, map[kitchen := 2, Plus := 4, Hash := 6], false)] + [EmptyNode()];
    assert t2 == t1[6 := SampleNode({}, map[], true)];
    assert [home, Hash][1..] == [Hash];
    assert [Hash][1..] == [];
    assert SubscribeSpec(t0, 0, [home, Hash], c2) == SubscribeSpec(t0, 1, [Hash], c2);
    assert SubscribeSpec(t0, 1, [Hash], c2) == SubscribeSpec(t2, 6, [], c2);
    assert t2[6].(clients := t2[6].clients + {c2}) == SampleNode({c2}, map[], true);
  }

  /** The trie `main` builds. */
  function KitchenTable(home: Bytes, kitchen: Bytes, temp: Bytes, c1: Client, c2: Client): seq<SampleNode>
  {
    [ SampleNode({}, map[home := 1], false),
      SampleNode({}, map[kitchen := 2, Plus := 4, Hash := 6], false),
      SampleNode({}, map[temp := 3], false),
      SampleNode({c1}, map[], false),
      SampleNode({}, map[temp := 5], false),
      SampleNode({c2}, map[], false),
      SampleNode({c2}, map[], true) ]
  }

  /** What the nodes below `home` deliver with `temperature`, or any
      segment and `temperature`, still to match. */
  lemma KitchenLeaves(home: Bytes, kitchen: Bytes, temp: Bytes, seg: Bytes, c1: Client, c2: Client)
    requires Plain(home) && Plain(kitchen) && Plain(temp)
    ensures var t := KitchenTable(home, kitchen, temp, c1, c2);
      && Linked(t)
      && Delivered(t, 2, [temp]) == multiset{c1}
      && Delivered(t, 4, [temp]) == multiset{c2}
      && Delivered(t, 6, [seg, temp]) == multiset{c2}
  {
    var t := KitchenTable(home, kitchen, temp, c1, c2);
    assert Linked(t);
    assert [temp][1..] == [];
    assert Delivered(t, 3, []) == multiset{c1};
    assert Delivered(t, 5, []) == multiset{c2};
  }

  /** Below `home`, a segment and `temperature` reach `client1` when
      the segment is `kitchen`, and `client2` twice in any case. */
  lemma HomeLevel(home: Bytes, kitchen: Bytes, temp: Bytes, seg: Bytes, c1: Client, c2: Client)
    requires Plain(home) && Plain(kitchen) && Plain(temp) && Plain(seg)
    ensures var t := KitchenTable(home, kitchen, temp, c1, c2);
      && Linked(t)
      && Delivered(t, 1, [seg, temp])
         == (if seg == kitchen then multiset{c1} else multiset{}) + multiset{c2} + multiset{c2}
  {
    var t := KitchenTable(home, kitchen, temp, c1, c2);
    KitchenLeaves(home, kitchen, temp, seg, c1, c2);
    assert [seg, temp][1..] == [temp];
    assert t[1].subnodes[Plus] == 4 && t[1].subnodes[Hash] == 6;
    assert seg in t[1].subnodes <==> seg == kitchen;
  }

  /** The root passes a topic under `home` on to node 1 and nothing
      else. */
  lemma RootLevel(home: Bytes, kitchen: Bytes, temp: Bytes, rest: seq<Bytes>, c1: Client, c2: Client)
    requires Plain(home) && Plain(kitchen) && Plain(temp)
    ensures var t := KitchenTable(home, kitchen, temp, c1, c2);
      && Linked(t)
      && Delivered(t, 0, [home] + rest) == Delivered(t, 1, rest)
  {
    var t := KitchenTable(home, kitchen, temp, c1, c2);
    assert Linked(t);
    assert ([home] + rest)[0] == home && ([home] + rest)[1..] == rest;
  }

  /** `home/kitchen/temperature` reaches `client1` once and `client2`
      twice, through `+` and through `#`. */
  lemma KitchenDelivery(home: Bytes, kitchen: Bytes, temp: Bytes, c1: Client, c2: Client)
    requires Plain(home) && Plain(kitchen) && Plain(temp)
    ensures var t := KitchenTable(home, kitchen, temp, c1, c2);
      Linked(t) && Delivered(t, 0, [home, kitchen, temp]) == multiset{c1, c2, c2}
  {
    assert [home] + [kitchen, temp] == [home, kitchen, temp];
    HomeLevel(home, kitchen, temp, kitchen, c1, c2);
    RootLevel(home, kitchen, temp, [kitchen, temp], c1, c2);
  }

  /** `home/living_room/temperature` reaches `client2` twice. */
  lemma LivingRoomDelivery(home: Bytes, kitchen: Bytes, temp: Bytes, living: Bytes, c1: Client, c2: Client)
    requires Plain(home) && Plain(kitchen) && Plain(temp) && Plain(living) && living != kitchen
    ensures var t := KitchenTable(home, kitchen, temp, c1, c2);
      Linked(t) && Delivered(t, 0, [home, living, temp]) == multiset{c2, c2}
  {
    assert [home] + [living, temp] == [home, living, temp];
    HomeLevel(home, kitchen, temp, living, c1, c2);
    RootLevel(home, kitchen, temp, [living, temp], c1, c2);
  }

  /** `office/room1/temperature` reaches no one. */
  lemma OfficeDelivery(home: Bytes, kitchen: Bytes, temp: Bytes, office: Bytes, room: Bytes, c1: Client, c2: Client)
    requires Plain(home) && Plain(kitchen) && Plain(temp) && office != home
    ensures var t := KitchenTable(home, kitchen, temp, c1, c2);
      Linked(t) && Delivered(t, 0, [office, room, temp]) == multiset{}
  {
    var t := KitchenTable(home, kitchen, temp, c1, c2);
    assert Linked(t);
  }

  /** `main` from the empty trie: the three subscriptions build
      `KitchenTable`, whose deliveries are those of `KitchenDeliveries`. */
  lemma KitchenRun(home: Bytes, kitchen: Bytes, temp: Bytes, c1: Client, c2: Client)
    requires Plain(home) && Plain(kitchen) && Plain(temp)
    ensures var t1 := SubscribeSpec([EmptyNode()], 0, [home, kitchen, temp], c1);
      var t2 := SubscribeSpec(t1, 0, [home, Plus, temp], c2);
      SubscribeSpec(t2, 0, [home, Hash], c2) == KitchenTable(home, kitchen, temp, c1, c2)
  {
    FirstSubscription(home, kitchen, temp, c1);
    SecondSubscription(home, kitchen, temp, c1, c2);
    ThirdSubscription(home, kitchen, temp, c1, c2);
  }

  // The segment names `main` uses, as bytes.
  const Home: Bytes := [0x68, 0x6F, 0x6D, 0x65]
  const Kitchen: Bytes := [0x6B, 0x69, 0x74, 0x63, 0x68, 0x65, 0x6E]
  const Temperature: Bytes := [0x74, 0x65, 0x6D, 0x70, 0x65, 0x72, 0x61, 0x74, 0x75, 0x72, 0x65]
  const LivingRoom: Bytes := [0x6C, 0x69, 0x76, 0x69, 0x6E, 0x67, 0x5F, 0x72, 0x6F, 0x6F, 0x6D]
  const Office: Bytes := [0x6F, 0x66, 0x66, 0x69, 0x63, 0x65]
  const Room1: Bytes := [0x72, 0x6F, 0x6F, 0x6D, 0x31]

  /** The names are plain segments without separators, and the ones
      `main` tells apart differ. */
  lemma NamesShaped()
    ensures Plain(Home) && Plain(Kitchen) && Plain(Temperature) && Plain(LivingRoom)
    ensures LivingRoom != Kitchen && Office != Home
    ensures forall p :: p in [Home, Kitchen, Temperature, LivingRoom, Office, Room1, Plus, Hash] ==> Slash !in p
  {
    assert LivingRoom[0] != Kitchen[0] && Office[0] != Home[0];
  }

  /** `main`, on the sketch's `Trie`: the deliveries of its three
      publications. */
  method Demo() returns (client1: Client, client2: Client, kitchen: seq<Client>, living: seq<Client>, office: seq<Client>)
    ensures client1 != client2
    ensures multiset(kitchen) == multiset{client1, client2, client2}
    ensures multiset(living) == multiset{client2, client2}
    ensures office == []
  {
    NamesShaped();
    var kitchenTopic := Topic([Home, Kitchen, Temperature]);
    var plusTopic := Topic([Home, Plus, Temperature]);
    var hashTopic := Topic([Home, Hash]);
    var livingTopic := Topic([Home, LivingRoom, Temperature]);
    var officeTopic := Topic([Office, Room1, Temperature]);
    var root := new Trie();
    client1 := new Client([0x43, 0x6C, 0x69, 0x65, 0x6E, 0x74, 0x31]);
    client2 := new Client([0x43, 0x6C, 0x69, 0x65, 0x6E, 0x74, 0x32]);
    root.Subscribe(kitchenTopic, client1);
    root.Subscribe(plusTopic, client2);
    root.Subscribe(hashTopic, client2);
    KitchenRun(Home, Kitchen, Temperature, client1, client2);
    assert root.nodes == KitchenTable(Home, Kitchen, Temperature, client1, client2);
    KitchenDelivery(Home, Kitchen, Temperature, client1, client2);
    LivingRoomDelivery(Home, Kitchen, Temperature, LivingRoom, client1, client2);
    OfficeDelivery(Home, Kitchen, Temperature, Office, Room1, client1, client2);
    kitchen := root.Publish(kitchenTopic);
    living := root.Publish(livingTopic);
    office := root.Publish(officeTopic);
    assert |multiset(office)| == 0;
  }
}
