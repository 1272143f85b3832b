/** A topic tree in which one client is reached through two filters,
    built and queried through the `TopicTree` class: `Get` reports every
    visit, so the client comes back twice. */
module TopicTreeScenarios {
  import opened BrokerTypes
  import opened Topics
  import opened TopicTrees

  /** The segments `a` and `b`. */
  const A: Bytes := [0x61]
  const B: Bytes := [0x62]

  /** `Add` follows an existing child. */
  lemma Descend(nodes: seq<TreeNode>, i: nat, key: Bytes, rest: seq<Bytes>, c: Client)
    requires WellFormed(nodes) && i < |nodes| && key in nodes[i].subnodes
    ensures AddSpec(nodes, i, [key] + rest, c) == AddSpec(nodes, nodes[i].subnodes[key], rest, c)
  {
    assert ([key] + rest)[0] == key && ([key] + rest)[1..] == rest;
  }

  /** `Add` creates a missing child at the end of the table. */
  lemma Create(nodes: seq<TreeNode>, i: nat, key: Bytes, rest: seq<Bytes>, c: Client)
    requires WellFormed(nodes) && i < |nodes| && key !in nodes[i].subnodes
    ensures Link(nodes, i, key) == nodes[i := nodes[i].(subnodes := nodes[i].subnodes[key := |nodes|])] + [NewNode(key)]
    ensures AddSpec(nodes, i, [key] + rest, c) == AddSpec(Link(nodes, i, key), |nodes|, rest, c)
  {
    assert ([key] + rest)[0] == key && ([key] + rest)[1..] == rest;
  }

  /** A node without children collects its clients when nothing is left
      to match or when it is a `#` node, and nothing otherwise. */
  lemma LeafMatches(nodes: seq<TreeNode>, i: nat, r: seq<Bytes>)
    requires WellFormed(nodes) && i < |nodes| && nodes[i].subnodes == map[]
    ensures Matches(nodes, i, r) ==
      if r == [] || IsWildcard(nodes[i]) then multiset(nodes[i].clients) else multiset{}
  {
  }

  /** `Add` puts the client at the end of the walk. */
  lemma Finish(nodes: seq<TreeNode>, i: nat, c: Client)
    requires WellFormed(nodes) && i < |nodes|
    ensures AddSpec(nodes, i, [], c) == nodes[i := nodes[i].(clients := nodes[i].clients + {c})]
  {
  }

  /** One client subscribed under both `a/+` and `a/#`. */
  function TwoFilterTable(c: Client): seq<TreeNode>
  {
    [ TreeNode([], {}, map[A := 1]),
      TreeNode(A, {}, map[Plus := 2, Hash := 3]),
      TreeNode(Plus, {c}, map[]),
      TreeNode(Hash, {c}, map[]) ]
  }

  /** `Add("a/+", c)` on a new tree. */
  lemma TwoFilterFirst(c: Client)
    ensures AddSpec([NewNode([])], 0, [A, Plus], c)
      == [TreeNode([], {}, map[A := 1]), TreeNode(A, {}, map[Plus := 2]), TreeNode(Plus, {c}, map[])]
  {
    var t0 := [NewNode([])];
    Create(t0, 0, A, [Plus], c);
    var t1 := Link(t0, 0, A);
    assert t1 == [TreeNode([], {}, map[A := 1]), NewNode(A)];
    Create(t1, 1, Plus, [], c);
    var t2 := Link(t1, 1, Plus);
    assert t2 == [t1[0], TreeNode(A, {}, map[Plus := 2]), NewNode(Plus)];
    Finish(t2, 2, c);
    assert [A] + [Plus] == [A, Plus] && [Plus] + [] == [Plus];
    assert t2[2].(clients := t2[2].clients + {c}) == TreeNode(Plus, {c}, map[]);
  }

  /** ... then `Add("a/#", c)`. */
  lemma TwoFilterSecond(c: Client)
    requires WellFormed([TreeNode([], {}, map[A := 1]), TreeNode(A, {}, map[Plus := 2]), TreeNode(Plus, {c}, map[])])
    ensures AddSpec([TreeNode([], {}, map[A := 1]), TreeNode(A, {}, map[Plus := 2]), TreeNode(Plus, {c}, map[])],
                    0, [A, Hash], c) == TwoFilterTable(c)
  {
    var t0 := [TreeNode([], {}, map[A := 1]), TreeNode(A, {}, map[Plus := 2]), TreeNode(Plus, {c}, map[])];
    Descend(t0, 0, A, [Hash], c);
    Create(t0, 1, Hash, [], c);
    var t1 := Link(t0, 1, Hash);
    assert t1 == [t0[0], TreeNode(A, {}, map[Plus := 2, Hash := 3]), t0[2], NewNode(Hash)];
    Finish(t1, 3, c);
    assert [A] + [Hash] == [A, Hash] && [Hash] + [] == [Hash];
    assert t1[3].(clients := t1[3].clients + {c}) == TreeNode(Hash, {c}, map[]);
  }

  /** At `a`, the `+` child and the `#` child each contribute the client
      for the remaining segment `b`. */
  lemma TwoFilterBelowA(c: Client)
    requires WellFormed(TwoFilterTable(c))
    ensures Matches(TwoFilterTable(c), 1, [B]) == multiset{c} + multiset{c}
  {
    var t := TwoFilterTable(c);
    assert [B][1..] == [];
    assert B !in t[1].subnodes;
    LeafMatches(t, 2, []);
    LeafMatches(t, 3, [B]);
  }

  /** `Get` does not deduplicate: `a/b` reaches the client once through
      `a/+` and once through `a/#`, and it is returned twice. */
  lemma TwoFilterMatches(c: Client)
    requires WellFormed(TwoFilterTable(c))
    ensures Matches(TwoFilterTable(c), 0, [A, B]) == multiset{c, c}
    ensures Matches(TwoFilterTable(c), 0, [A, B])[c] == 2
  {
    assert [A, B][1..] == [B];
    TwoFilterBelowA(c);
  }

  /** The same on the `TopicTree` class: after `Add("a/+", c)` and
      `Add("a/#", c)`, `Get("a/b")` lists `c` twice. */
  method TwoFilterTest() returns (client: Client, got: seq<Client>)
    ensures multiset(got) == multiset{client, client}
  {
    var tree := new TopicTree();
    client := new Client([0x30]);
    tree.Add(Topic([A, Plus]), client);
    tree.Add(Topic([A, Hash]), client);
    TwoFilterFirst(client);
    TwoFilterSecond(client);
    TwoFilterMatches(client);
    got := tree.Get(Topic([A, B]));
  }
}
