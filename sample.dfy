/** sample/main.go: the first sketch of the subscription trie. Its nodes
    carry an `isWildcard` flag, set when a subscription walks through a
    `#` segment, instead of their own segment; `Publish` prints one
    delivery line per subscriber it reaches. The nodes live in one table
    as in module `TopicTrees`, and the sketch is proved to agree with the
    broker's trie. */
module Sample {
  import opened BrokerTypes
  import opened Topics
  import opened TopicTrees

  /** `Node`: subscribers, children by segment, and the wildcard flag. */
  datatype SampleNode = SampleNode(clients: set<Client>, subnodes: map<Bytes, nat>, isWildcard: bool)

  /** `NewNode()`. */
  function EmptyNode(): SampleNode
  {
    SampleNode({}, map[], false)
  }

  /** A root, and every child link pointing forward into the table. */
  ghost predicate Linked(nodes: seq<SampleNode>)
  {
    && |nodes| >= 1
    && forall i, key :: 0 <= i < |nodes| && key in nodes[i].subnodes ==>
         i < nodes[i].subnodes[key] < |nodes|
  }

  /** The table after `current.subnodes[key] = NewNode()`. */
  ghost function NewChild(nodes: seq<SampleNode>, i: nat, key: Bytes): (r: seq<SampleNode>)
    requires Linked(nodes) && i < |nodes| && key !in nodes[i].subnodes
    ensures Linked(r) && |r| == |nodes| + 1
    ensures r[i].subnodes == nodes[i].subnodes[key := |nodes|] && r[|nodes|] == EmptyNode()
    ensures forall k :: 0 <= k < |nodes| ==> r[k].clients == nodes[k].clients && r[k].isWildcard == nodes[k].isWildcard
    ensures forall k :: 0 <= k < |nodes| && k != i ==> r[k] == nodes[k]
  {
    var grown := nodes + [EmptyNode()];
    var r := grown[i := nodes[i].(subnodes := nodes[i].subnodes[key := |nodes|])];
    assert forall j, k :: 0 <= j < |r| && k in r[j].subnodes ==> j < r[j].subnodes[k] < |r|
    by {
      forall j, k | 0 <= j < |r| && k in r[j].subnodes
        ensures j < r[j].subnodes[k] < |r|
      {
        if j != i || k != key {
          assert k in nodes[j].subnodes;
        }
      }
    }
    r
  }

  /** The table after `current.isWildcard = true`. */
  ghost function MarkWildcard(nodes: seq<SampleNode>, j: nat): (r: seq<SampleNode>)
    requires Linked(nodes) && j < |nodes|
    ensures Linked(r) && |r| == |nodes| && r[j].isWildcard
    ensures forall k :: 0 <= k < |nodes| ==> r[k].clients == nodes[k].clients && r[k].subnodes == nodes[k].subnodes
    ensures forall k :: 0 <= k < |nodes| && k != j ==> r[k] == nodes[k]
  {
    nodes[j := nodes[j].(isWildcard := true)]
  }

  /** The table after `Subscribe` walks `parts` from node `i`: each
      missing child is created, a child reached by `#` is flagged, and
      `c` is subscribed at the end of the walk. */
  ghost function SubscribeSpec(nodes: seq<SampleNode>, i: nat, parts: seq<Bytes>, c: Client): (r: seq<SampleNode>)
    requires Linked(nodes) && i < |nodes|
    ensures Linked(r) && |nodes| <= |r|
    decreases |parts|
  {
    if parts == [] then
      nodes[i := nodes[i].(clients := nodes[i].clients + {c})]
    else
      var grown := if parts[0] in nodes[i].subnodes then nodes else NewChild(nodes, i, parts[0]);
      var j := grown[i].subnodes[parts[0]];
      var marked := if parts[0] == Hash then MarkWildcard(grown, j) else grown;
      SubscribeSpec(marked, j, parts[1..], c)
  }

  /** `c` is already subscribed under `parts` from node `i`: the path
      exists, every node on it reached by `#` is flagged, and `c` is in
      the set of the node at its end. */
  ghost predicate AlreadySubscribed(nodes: seq<SampleNode>, i: nat, parts: seq<Bytes>, c: Client)
    requires Linked(nodes) && i < |nodes|
    decreases |parts|
  {
    if parts == [] then c in nodes[i].clients
    else
      && parts[0] in nodes[i].subnodes
      && var j := nodes[i].subnodes[parts[0]];
         && (parts[0] == Hash ==> nodes[j].isWildcard)
         && AlreadySubscribed(nodes, j, parts[1..], c)
  }

  /** Subscribing a client again under a filter it is already subscribed
      under leaves the whole table as it was. */
  lemma {:induction false} SubscribeIdempotent(nodes: seq<SampleNode>, i: nat, parts: seq<Bytes>, c: Client)
    requires Linked(nodes) && i < |nodes| && AlreadySubscribed(nodes, i, parts, c)
    ensures SubscribeSpec(nodes, i, parts, c) == nodes
    decreases |parts|
  {
    if parts == [] {
      assert nodes[i].(clients := nodes[i].clients + {c}) == nodes[i];
    } else {
      var j := nodes[i].subnodes[parts[0]];
      if parts[0] == Hash {
        assert nodes[j].(isWildcard := true) == nodes[j];
        assert MarkWildcard(nodes, j) == nodes;
      }
      SubscribeIdempotent(nodes, j, parts[1..], c);
    }
  }

  /** The deliveries `publish` makes from node `i` with `parts` still to
      match: a node's subscribers when nothing is left to match or when
      the node is flagged, then the literal, `+` and `#` children. */
  ghost function Delivered(nodes: seq<SampleNode>, i: nat, parts: seq<Bytes>): multiset<Client>
    requires Linked(nodes) && i < |nodes|
    decreases |parts|, |nodes| - i, 1
  {
    (if parts == [] || nodes[i].isWildcard then multiset(nodes[i].clients) else multiset{})
    + (if parts == [] then multiset{} else DeliveredBelow(nodes, i, parts))
  }

  ghost function DeliveredBelow(nodes: seq<SampleNode>, i: nat, parts: seq<Bytes>): multiset<Client>
    requires Linked(nodes) && i < |nodes| && parts != []
    decreases |parts|, |nodes| - i, 0
  {
    var node := nodes[i];
    (if parts[0] in node.subnodes then Delivered(nodes, node.subnodes[parts[0]], parts[1..]) else multiset{})
    + (if Plus in node.subnodes then Delivered(nodes, node.subnodes[Plus], parts[1..]) else multiset{})
    + (if Hash in node.subnodes then Delivered(nodes, node.subnodes[Hash], parts) else multiset{})
  }

  /** `Node` as the root of the sketch's trie. */
  class Trie {
    var nodes: seq<SampleNode>

    ghost predicate Valid()
      reads this
    {
      Linked(nodes)
    }

    /** `root := NewNode()`. */
    constructor ()
      ensures Valid() && nodes == [EmptyNode()]
    {
      nodes := [EmptyNode()];
    }

    /** `Node.Subscribe`. */
    method Subscribe(topic: Bytes, client: Client)
      requires Valid()
      modifies this
      ensures Valid()
      ensures nodes == SubscribeSpec(old(nodes), 0, Split(topic), client)
    {
      var parts := Split(topic);
      var current: nat := 0;
      for k := 0 to |parts|
        invariant Linked(nodes) && current < |nodes|
        invariant SubscribeSpec(nodes, current, parts[k..], client) == SubscribeSpec(old(nodes), 0, parts, client)
      {
        var part := parts[k];
        assert parts[k..][0] == part && parts[k..][1..] == parts[k + 1..];
        ghost var before := nodes;
        if part !in nodes[current].subnodes {
          var index := |nodes|;
          nodes := nodes + [EmptyNode()];
          nodes := nodes[current := nodes[current].(subnodes := nodes[current].subnodes[part := index])];
          assert nodes == NewChild(before, current, part);
        }
        ghost var grown := nodes;
        current := nodes[current].subnodes[part];
        if part == Hash {
          nodes := nodes[current := nodes[current].(isWildcard := true)];
          assert nodes == MarkWildcard(grown, current);
        }
      }
      assert parts[|parts|..] == [];
      nodes := nodes[current := nodes[current].(clients := nodes[current].clients + {client})];
    }

    /** `Node.Publish`: the subscribers it prints a delivery line for,
        in some order, one entry per line. */
    method Publish(topic: Bytes) returns (delivered: seq<Client>)
      requires Valid()
      ensures multiset(delivered) == Delivered(nodes, 0, Split(topic))
    {
      delivered := Visit(0, Split(topic), []);
    }

    /** The `publish` closure, appending each delivery to `acc`. */
    method Visit(i: nat, parts: seq<Bytes>, acc: seq<Client>) returns (r: seq<Client>)
      requires Valid() && i < |nodes|
      ensures multiset(r) == multiset(acc) + Delivered(nodes, i, parts)
      decreases |parts|, |nodes| - i, 1
    {
      var node := nodes[i];
      r := acc;
      if |parts| == 0 || node.isWildcard {
        r := TopicTree.AppendClients(r, node.clients);
      }
      if |parts| > 0 {
        ghost var mid := r;
        r := VisitBelow(i, parts, r);
        assert multiset(r) == multiset(mid) + DeliveredBelow(nodes, i, parts);
      }
    }

    /** The literal, `+` and `#` visits of `publish`. */
    method VisitBelow(i: nat, parts: seq<Bytes>, acc: seq<Client>) returns (r: seq<Client>)
      requires Valid() && i < |nodes| && parts != []
      ensures multiset(r) == multiset(acc) + DeliveredBelow(nodes, i, parts)
      decreases |parts|, |nodes| - i, 0
    {
      var node := nodes[i];
      var part := parts[0];
      ghost var lit := if part in node.subnodes then Delivered(nodes, node.subnodes[part], parts[1..]) else multiset{};
      ghost var plus := if Plus in node.subnodes then Delivered(nodes, node.subnodes[Plus], parts[1..]) else multiset{};
      ghost var hash := if Hash in node.subnodes then Delivered(nodes, node.subnodes[Hash], parts) else multiset{};
      assert DeliveredBelow(nodes, i, parts) == lit + plus + hash;
      r := acc;
      if part in node.subnodes {
        r := Visit(node.subnodes[part], parts[1..], r);
      }
      ghost var afterLit := multiset(r);
      assert afterLit == multiset(acc) + lit;
      if Plus in node.subnodes {
        r := Visit(node.subnodes[Plus], parts[1..], r);
      }
      ghost var afterPlus := multiset(r);
      assert afterPlus == afterLit + plus;
      if Hash in node.subnodes {
        r := Visit(node.subnodes[Hash], parts, r);
      }
      assert multiset(r) == afterPlus + hash;
      Regroup(multiset(acc), lit, plus, hash);
    }
  }

  // ---------------------------------------------------------------------
  // The sketch and the broker's trie agree

  /** A sketch table and a broker table with the same links and
      subscribers, where a node is flagged exactly when its segment is
      `#`. */
  ghost predicate Mirrors(s: seq<SampleNode>, t: seq<TreeNode>)
  {
    && |s| == |t|
    && forall k :: 0 <= k < |s| ==>
         s[k].clients == t[k].clients && s[k].subnodes == t[k].subnodes && s[k].isWildcard == IsWildcard(t[k])
  }

  /** The two empty tries mirror each other. */
  lemma MirrorsEmpty()
    ensures Mirrors([EmptyNode()], [NewNode([])])
  {
  }

  /** In a sketch table mirroring a broker table, a node is flagged
      exactly when the link that leads to it is `#`, and the root is
      not flagged. */
  lemma MirrorsFlags(s: seq<SampleNode>, t: seq<TreeNode>)
    requires Linked(s) && WellFormed(t) && Mirrors(s, t)
    ensures !s[0].isWildcard
    ensures forall i, key :: 0 <= i < |s| && key in s[i].subnodes ==>
      s[s[i].subnodes[key]].isWildcard == (key == Hash)
  {
    forall i, key | 0 <= i < |s| && key in s[i].subnodes
      ensures s[s[i].subnodes[key]].isWildcard == (key == Hash)
    {
      assert key in t[i].subnodes;
    }
  }

  /** Subscribing the same filter in both keeps them mirrored. */
  lemma {:induction false} SubscribeMirrorsAdd(s: seq<SampleNode>, t: seq<TreeNode>, i: nat, parts: seq<Bytes>, c: Client)
    requires Linked(s) && WellFormed(t) && Mirrors(s, t) && i < |s|
    ensures Mirrors(SubscribeSpec(s, i, parts, c), AddSpec(t, i, parts, c))
    decreases |parts|
  {
    if parts != [] {
      var part := parts[0];
      var grown := if part in s[i].subnodes then s else NewChild(s, i, part);
      var linked := if part in t[i].subnodes then t else Link(t, i, part);
      var j := grown[i].subnodes[part];
      assert linked[j].part == part;
      var marked := if part == Hash then MarkWildcard(grown, j) else grown;
      forall k | 0 <= k < |marked|
        ensures marked[k].clients == linked[k].clients && marked[k].subnodes == linked[k].subnodes
        ensures marked[k].isWildcard == IsWildcard(linked[k])
      {
        if k == j && part == Hash {
        } else if k < |s| {
          assert marked[k].isWildcard == s[k].isWildcard;
        } else {
          assert k == j;
        }
      }
      SubscribeMirrorsAdd(marked, linked, j, parts[1..], c);
    }
  }

  /** Mirrored tables deliver what the broker's `Get` collects. */
  lemma {:induction false} DeliveredMirrorsMatches(s: seq<SampleNode>, t: seq<TreeNode>, i: nat, parts: seq<Bytes>)
    requires Linked(s) && WellFormed(t) && Mirrors(s, t) && i < |s|
    ensures Delivered(s, i, parts) == Matches(t, i, parts)
    decreases |parts|, |s| - i, 1
  {
    if parts != [] {
      DeliveredBelowMirrors(s, t, i, parts);
    }
  }

  lemma {:induction false} DeliveredBelowMirrors(s: seq<SampleNode>, t: seq<TreeNode>, i: nat, parts: seq<Bytes>)
    requires Linked(s) && WellFormed(t) && Mirrors(s, t) && i < |s| && parts != []
    ensures DeliveredBelow(s, i, parts) == Below(t, i, parts)
    decreases |parts|, |s| - i, 0
  {
    var node := s[i];
    if parts[0] in node.subnodes {
      DeliveredMirrorsMatches(s, t, node.subnodes[parts[0]], parts[1..]);
    }
    if Plus in node.subnodes {
      DeliveredMirrorsMatches(s, t, node.subnodes[Plus], parts[1..]);
    }
    if Hash in node.subnodes {
      DeliveredMirrorsMatches(s, t, node.subnodes[Hash], parts);
    }
  }
}
