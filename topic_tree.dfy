/** broker/topic_tree.go: the subscription trie. Its nodes live in one
    table and refer to their children by index (a node is appended before
    it is linked, so a child's index is always larger than its parent's);
    the root is entry 0 and represents the empty prefix. */
module TopicTrees {
  import opened BrokerTypes
  import opened Topics

  /** The single-level and multi-level wildcard segments. */
  const Plus: Bytes := [0x2B]
  const Hash: Bytes := [0x23]

  /** `topicTreeNode`: the segment it stands for, its subscribers and its
      children keyed by segment. */
  datatype TreeNode = TreeNode(part: Bytes, clients: set<Client>, subnodes: map<Bytes, nat>)

  /** `newTopicTreeNode(part)`: a node for the segment with no
      subscribers and no children. */
  function NewNode(part: Bytes): (n: TreeNode)
    ensures n.part == part && n.clients == {} && n.subnodes == map[]
  {
    TreeNode(part, {}, map[])
  }

  /** `topicTreeNode.isWildcard`: the node's own segment is `#`. */
  predicate IsWildcard(n: TreeNode)
  {
    n.part == Hash
  }

  /** A node for `#` is a wildcard; one for a plain segment such as `foo`,
      or for `+`, is not. */
  lemma WildcardCases()
    ensures IsWildcard(NewNode(Hash))
    ensures !IsWildcard(NewNode([0x66, 0x6F, 0x6F]))
    ensures !IsWildcard(NewNode(Plus))
  {
  }

  /** The shape every reachable table has: a root with the empty segment,
      and every child link pointing forward to a node named by its key. */
  ghost predicate WellFormed(nodes: seq<TreeNode>)
  {
    && |nodes| >= 1
    && nodes[0].part == []
    && forall i, key :: 0 <= i < |nodes| && key in nodes[i].subnodes ==>
         i < nodes[i].subnodes[key] < |nodes| && nodes[nodes[i].subnodes[key]].part == key
  }

  /** The table after `current.subnodes[key] = newTopicTreeNode(key)`. */
  ghost function Link(nodes: seq<TreeNode>, i: nat, key: Bytes): (r: seq<TreeNode>)
    requires WellFormed(nodes) && i < |nodes| && key !in nodes[i].subnodes
    ensures WellFormed(r) && |r| == |nodes| + 1
    ensures r[i].subnodes == nodes[i].subnodes[key := |nodes|] && r[|nodes|] == NewNode(key)
    ensures forall k :: 0 <= k < |nodes| ==> r[k].part == nodes[k].part && r[k].clients == nodes[k].clients
    ensures forall k :: 0 <= k < |nodes| && k != i ==> r[k] == nodes[k]
  {
    var grown := nodes + [NewNode(key)];
    var r := grown[i := nodes[i].(subnodes := nodes[i].subnodes[key := |nodes|])];
    assert forall j, k :: 0 <= j < |r| && k in r[j].subnodes ==>
      j < r[j].subnodes[k] < |r| && r[r[j].subnodes[k]].part == k
    by {
      forall j, k | 0 <= j < |r| && k in r[j].subnodes
        ensures j < r[j].subnodes[k] < |r| && r[r[j].subnodes[k]].part == k
      {
        if j == i && k == key {
        } else {
          assert k in nodes[j].subnodes;
        }
      }
    }
    r
  }

  /** The node reached from node `i` by following the segments `f`. */
  ghost function Lookup(nodes: seq<TreeNode>, i: nat, f: seq<Bytes>): (r: Option<nat>)
    requires WellFormed(nodes) && i < |nodes|
    ensures r.Some? ==> r.value < |nodes|
    decreases |f|
  {
    if f == [] then Some(i)
    else if f[0] in nodes[i].subnodes then Lookup(nodes, nodes[i].subnodes[f[0]], f[1..])
    else None
  }

  /** The table after `Add` walks `parts` from node `i` and subscribes `c`
      at the end of the walk. */
  ghost function AddSpec(nodes: seq<TreeNode>, i: nat, parts: seq<Bytes>, c: Client): (r: seq<TreeNode>)
    requires WellFormed(nodes) && i < |nodes|
    ensures WellFormed(r) && |nodes| <= |r|
    decreases |parts|
  {
    if parts == [] then
      nodes[i := nodes[i].(clients := nodes[i].clients + {c})]
    else if parts[0] in nodes[i].subnodes then
      AddSpec(nodes, nodes[i].subnodes[parts[0]], parts[1..], c)
    else
      AddSpec(Link(nodes, i, parts[0]), |nodes|, parts[1..], c)
  }

  /** The subscribers `traverse` collects from node `i` with `parts`
      still to match, one entry per visit of a node and per subscriber:
      a node's subscribers count when nothing is left to match or when the
      node is a `#` node; the literal and `+` children consume a segment,
      the `#` child consumes none. */
  ghost function Matches(nodes: seq<TreeNode>, i: nat, parts: seq<Bytes>): multiset<Client>
    requires WellFormed(nodes) && i < |nodes|
    decreases |parts|, |nodes| - i, 1
  {
    (if parts == [] || IsWildcard(nodes[i]) then multiset(nodes[i].clients) else multiset{})
    + (if parts == [] then multiset{} else Below(nodes, i, parts))
  }

  /** The part of `Matches` contributed by the children of node `i`. */
  ghost function Below(nodes: seq<TreeNode>, i: nat, parts: seq<Bytes>): multiset<Client>
    requires WellFormed(nodes) && i < |nodes| && parts != []
    decreases |parts|, |nodes| - i, 0
  {
    var node := nodes[i];
    (if parts[0] in node.subnodes then Matches(nodes, node.subnodes[parts[0]], parts[1..]) else multiset{})
    + (if Plus in node.subnodes then Matches(nodes, node.subnodes[Plus], parts[1..]) else multiset{})
    + (if Hash in node.subnodes then Matches(nodes, node.subnodes[Hash], parts) else multiset{})
  }

  lemma Regroup<T>(a: multiset<T>, x: multiset<T>, y: multiset<T>, z: multiset<T>)
    ensures a + x + y + z == a + (x + y + z)
  {
  }

  /** `TopicTree`. */
  class TopicTree {
    var nodes: seq<TreeNode>

    ghost predicate Valid()
      reads this
    {
      WellFormed(nodes)
    }

    /** `NewTopicTree`: a lone root for the empty prefix. */
    constructor ()
      ensures Valid() && nodes == [NewNode([])]
    {
      nodes := [NewNode([])];
    }

    /** `TopicTree.Add`: walk the segments of `topic` from the root,
        creating each missing child, and subscribe `client` at the end. */
    method Add(topic: Bytes, client: Client)
      requires Valid()
      modifies this
      ensures Valid()
      ensures nodes == AddSpec(old(nodes), 0, Split(topic), client)
    {
      var parts := Split(topic);
      var current: nat := 0;
      for k := 0 to |parts|
        invariant WellFormed(nodes) && current < |nodes|
        invariant AddSpec(nodes, current, parts[k..], client) == AddSpec(old(nodes), 0, parts, client)
      {
        var part := parts[k];
        assert parts[k..][0] == part && parts[k..][1..] == parts[k + 1..];
        if part !in nodes[current].subnodes {
          ghost var before := nodes;
          var index := |nodes|;
          nodes := nodes + [NewNode(part)];
          nodes := nodes[current := nodes[current].(subnodes := nodes[current].subnodes[part := index])];
          assert nodes == Link(before, current, part);
        }
        current := nodes[current].subnodes[part];
      }
      assert parts[|parts|..] == [];
      nodes := nodes[current := nodes[current].(clients := nodes[current].clients + {client})];
    }

    /** `TopicTree.Get`: every subscriber the traversal reaches for
        `topic`, in some order, once per matching visit. */
    method Get(topic: Bytes) returns (r: seq<Client>)
      requires Valid()
      ensures multiset(r) == Matches(nodes, 0, Split(topic))
    {
      r := Traverse(0, Split(topic), []);
    }

    /** The `traverse` closure of `Get`, appending to `acc`; Go's map
        iteration order is unspecified, so subscribers of one node are
        appended in an arbitrary order. */
    method Traverse(i: nat, parts: seq<Bytes>, acc: seq<Client>) returns (r: seq<Client>)
      requires Valid() && i < |nodes|
      ensures multiset(r) == multiset(acc) + Matches(nodes, i, parts)
      decreases |parts|, |nodes| - i, 1
    {
      var node := nodes[i];
      r := acc;
      if |parts| == 0 || IsWildcard(node) {
        r := AppendClients(r, node.clients);
      }
      if |parts| > 0 {
        ghost var mid := r;
        r := TraverseBelow(i, parts, r);
        assert multiset(r) == multiset(mid) + Below(nodes, i, parts);
      }
    }

    /** The three bracketed visits of `traverse`: the literal child and
        the `+` child with the rest of the topic, the `#` child with all
        of it. */
    method TraverseBelow(i: nat, parts: seq<Bytes>, acc: seq<Client>) returns (r: seq<Client>)
      requires Valid() && i < |nodes| && parts != []
      ensures multiset(r) == multiset(acc) + Below(nodes, i, parts)
      decreases |parts|, |nodes| - i, 0
    {
      var node := nodes[i];
      var part := parts[0];
      ghost var lit := if part in node.subnodes then Matches(nodes, node.subnodes[part], parts[1..]) else multiset{};
      ghost var plus := if Plus in node.subnodes then Matches(nodes, node.subnodes[Plus], parts[1..]) else multiset{};
      ghost var hash := if Hash in node.subnodes then Matches(nodes, node.subnodes[Hash], parts) else multiset{};
      assert Below(nodes, i, parts) == lit + plus + hash;
      r := acc;
      if part in node.subnodes {
        r := Traverse(node.subnodes[part], parts[1..], r);
      }
      ghost var afterLit := multiset(r);
      assert afterLit == multiset(acc) + lit;
      if Plus in node.subnodes {
        r := Traverse(node.subnodes[Plus], parts[1..], r);
      }
      ghost var afterPlus := multiset(r);
      assert afterPlus == afterLit + plus;
      if Hash in node.subnodes {
        r := Traverse(node.subnodes[Hash], parts, r);
      }
      assert multiset(r) == afterPlus + hash;
      Regroup(multiset(acc), lit, plus, hash);
    }

    /** The `for client := range node.clients` loop of `traverse`. */
    static method AppendClients(acc: seq<Client>, clients: set<Client>) returns (r: seq<Client>)
      ensures multiset(r) == multiset(acc) + multiset(clients)
    {
      r := acc;
      var rest := clients;
      while rest != {}
        invariant rest <= clients
        invariant multiset(r) == multiset(acc) + multiset(clients - rest)
        decreases rest
      {
        var c :| c in rest;
        assert clients - (rest - {c}) == (clients - rest) + {c};
        r := r + [c];
        rest := rest - {c};
      }
      assert clients - rest == clients;
    }
  }
}
