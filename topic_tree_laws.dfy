/** What the topic tree of broker/topic_tree.go guarantees: which
    subscribers `Get` returns for a topic, stated against an independent
    filter-matching relation, and what `Add` does to the table. */
module TopicTreeLaws {
  import opened BrokerTypes
  import opened TopicTrees

  // ---------------------------------------------------------------------
  // Filter matching, independent of any tree

  /** The number of ways the traversal can follow the filter segments `f`
      while matching the topic segments `r` and collect at the end of `f`;
      `atHash` says whether the segment just followed was `#`. Each
      segment may match literally, as `+` (one segment) or as `#` (no
      segment, and everything below it then collects). */
  function Ways(f: seq<Bytes>, r: seq<Bytes>, atHash: bool): nat
  {
    if f == [] then (if r == [] || atHash then 1 else 0)
    else if r == [] then 0
    else
      (if f[0] == r[0] then Ways(f[1..], r[1..], f[0] == Hash) else 0)
      + (if f[0] == Plus then Ways(f[1..], r[1..], false) else 0)
      + (if f[0] == Hash then Ways(f[1..], r, true) else 0)
  }

  /** No segment is a wildcard. */
  ghost predicate Literal(f: seq<Bytes>)
  {
    forall k :: 0 <= k < |f| ==> f[k] != Plus && f[k] != Hash
  }

  /** No segment is `#`. */
  ghost predicate NoHash(f: seq<Bytes>)
  {
    forall k :: 0 <= k < |f| ==> f[k] != Hash
  }

  /** The single-level reading of MQTT 3.1.1 section 4.7.1.3: as many
      segments, each equal or `+`. */
  ghost predicate LevelMatch(f: seq<Bytes>, r: seq<Bytes>)
  {
    |f| == |r| && forall k :: 0 <= k < |f| ==> f[k] == Plus || f[k] == r[k]
  }

  /** A literal filter matches, once, exactly the topic equal to it. */
  lemma {:induction false} WaysLiteral(f: seq<Bytes>, r: seq<Bytes>)
    requires Literal(f)
    ensures Ways(f, r, false) == if f == r then 1 else 0
    decreases |f|
  {
    if f != [] && r != [] {
      WaysLiteral(f[1..], r[1..]);
      if f[1..] == r[1..] && f[0] == r[0] {
        assert f == [f[0]] + f[1..] && r == [r[0]] + r[1..];
      }
    }
  }

  /** `+` consumes exactly one segment: a filter of literals and `+`
      matches a wildcard-free topic once if it has as many segments, each
      equal or `+`, and not at all otherwise. */
  lemma {:induction false} WaysPlus(f: seq<Bytes>, r: seq<Bytes>)
    requires NoHash(f) && Literal(r)
    ensures Ways(f, r, false) == if LevelMatch(f, r) then 1 else 0
    decreases |f|
  {
    if f == [] || r == [] {
    } else {
      WaysPlus(f[1..], r[1..]);
      assert f[0] != Hash && r[0] != Plus;
      if LevelMatch(f, r) {
        assert LevelMatch(f[1..], r[1..]) by {
          forall k | 0 <= k < |f| - 1 ensures f[1..][k] == Plus || f[1..][k] == r[1..][k] {
            assert f[k + 1] == Plus || f[k + 1] == r[k + 1];
          }
        }
      } else if (f[0] == Plus || f[0] == r[0]) && LevelMatch(f[1..], r[1..]) {
        assert LevelMatch(f, r) by {
          forall k | 0 <= k < |f| ensures f[k] == Plus || f[k] == r[k] {
            if k > 0 { assert f[1..][k - 1] == Plus || f[1..][k - 1] == r[1..][k - 1]; }
          }
        }
      }
    }
  }

  /** A trailing `#`, as the code has it: `p/#` matches a wildcard-free
      topic once when the topic is longer than `p` and starts with a
      level-match of `p`, so the root filter `#` matches every non-empty
      topic, but `p/#` does not match `p` itself (unlike section 4.7.1.2
      of MQTT 3.1.1). */
  lemma {:induction false} WaysHashSuffix(p: seq<Bytes>, r: seq<Bytes>)
    requires NoHash(p) && Literal(r)
    ensures Ways(p + [Hash], r, false) == if |r| > |p| && LevelMatch(p, r[..|p|]) then 1 else 0
    decreases |p|
  {
    var f := p + [Hash];
    if r == [] {
    } else if p == [] {
      assert f == [Hash];
      assert r[0] != Hash;
      assert LevelMatch(p, r[..0]);
    } else {
      assert f[0] == p[0] && f[1..] == p[1..] + [Hash];
      assert p[0] != Hash && r[0] != Plus;
      WaysHashSuffix(p[1..], r[1..]);
      var tail := |r| > |p| && LevelMatch(p[1..], r[1..][..|p| - 1]);
      if |r| > |p| && LevelMatch(p, r[..|p|]) {
        assert tail by {
          forall k | 0 <= k < |p| - 1
            ensures p[1..][k] == Plus || p[1..][k] == r[1..][..|p| - 1][k]
          {
            assert p[k + 1] == Plus || p[k + 1] == r[..|p|][k + 1];
          }
        }
      }
    }
  }

  /** The cases the broker's tests name for `+` and `#`. */
  lemma WildcardExamples()
    ensures var a, b, c, d: Bytes := [0x61], [0x62], [0x63], [0x64];
      && Ways([a, Plus, c], [a, b, c], false) == 1
      && Ways([a, Plus, c], [a, b], false) == 0
      && Ways([a, Plus, c], [a, b, c, d], false) == 0
      && Ways([a, Hash], [a, b], false) == 1
      && Ways([a, Hash], [a, b, c, d], false) == 1
      && Ways([a, Hash], [a], false) == 0
      && Ways([Hash], [b], false) == 1
  {
    var a, b, c, d: Bytes := [0x61], [0x62], [0x63], [0x64];
    WaysPlus([a, Plus, c], [a, b, c]);
    WaysPlus([a, Plus, c], [a, b]);
    WaysPlus([a, Plus, c], [a, b, c, d]);
    assert [a, Hash] == [a] + [Hash] && [Hash] == [] + [Hash];
    WaysHashSuffix([a], [a, b]);
    WaysHashSuffix([a], [a, b, c, d]);
    WaysHashSuffix([a], [a]);
    WaysHashSuffix([], [b]);
    assert [a, b][..1] == [a] && [a, b, c, d][..1] == [a];
  }

  // ---------------------------------------------------------------------
  // Get against the matching relation

  /** Client `c` is subscribed at the node reached from `i` by `f`. */
  ghost predicate Subscribed(nodes: seq<TreeNode>, i: nat, f: seq<Bytes>, c: Client)
    requires WellFormed(nodes) && i < |nodes|
  {
    Lookup(nodes, i, f).Some? && c in nodes[Lookup(nodes, i, f).value].clients
  }

  lemma LookupStep(nodes: seq<TreeNode>, i: nat, f: seq<Bytes>)
    requires WellFormed(nodes) && i < |nodes| && f != [] && f[0] in nodes[i].subnodes
    ensures Lookup(nodes, i, f) == Lookup(nodes, nodes[i].subnodes[f[0]], f[1..])
  {
  }

  /** One unfolding of `Ways` for a filter that starts with `key`. */
  lemma WaysStep(key: Bytes, g: seq<Bytes>, r: seq<Bytes>, atHash: bool)
    requires r != []
    ensures Ways([key] + g, r, atHash) ==
      (if key == r[0] then Ways(g, r[1..], key == Hash) else 0)
      + (if key == Plus then Ways(g, r[1..], false) else 0)
      + (if key == Hash then Ways(g, r, true) else 0)
  {
    assert ([key] + g)[0] == key && ([key] + g)[1..] == g;
  }

  /** Everything the traversal collects is subscribed under some filter
      that matches the topic. */
  lemma {:induction false} MatchesSound(nodes: seq<TreeNode>, i: nat, r: seq<Bytes>, c: Client)
    requires WellFormed(nodes) && i < |nodes| && c in Matches(nodes, i, r)
    ensures exists f :: Subscribed(nodes, i, f, c) && Ways(f, r, IsWildcard(nodes[i])) > 0
    decreases |r|, |nodes| - i, 1
  {
    var node := nodes[i];
    if (r == [] || IsWildcard(node)) && c in node.clients {
      assert Subscribed(nodes, i, [], c) && Ways([], r, IsWildcard(node)) > 0;
    } else {
      assert r != [] && c in Below(nodes, i, r);
      var key, rest;
      if r[0] in node.subnodes && c in Matches(nodes, node.subnodes[r[0]], r[1..]) {
        key, rest := r[0], r[1..];
      } else if Plus in node.subnodes && c in Matches(nodes, node.subnodes[Plus], r[1..]) {
        key, rest := Plus, r[1..];
      } else {
        key, rest := Hash, r;
        assert Hash in node.subnodes && c in Matches(nodes, node.subnodes[Hash], r);
      }
      var f := SoundStep(nodes, i, r, c, key, rest);
    }
  }

  /** The step of `MatchesSound` through the child `key` of node `i`. */
  lemma {:induction false} SoundStep(nodes: seq<TreeNode>, i: nat, r: seq<Bytes>, c: Client, key: Bytes, rest: seq<Bytes>)
    returns (f: seq<Bytes>)
    requires WellFormed(nodes) && i < |nodes| && r != [] && key in nodes[i].subnodes
    requires (rest == r[1..] && (key == r[0] || key == Plus)) || (rest == r && key == Hash)
    requires c in Matches(nodes, nodes[i].subnodes[key], rest)
    ensures Subscribed(nodes, i, f, c) && Ways(f, r, IsWildcard(nodes[i])) > 0
    decreases |r|, |nodes| - i, 0
  {
    var j := nodes[i].subnodes[key];
    assert IsWildcard(nodes[j]) == (key == Hash);
    MatchesSound(nodes, j, rest, c);
    var g :| Subscribed(nodes, j, g, c) && Ways(g, rest, IsWildcard(nodes[j])) > 0;
    f := [key] + g;
    assert f[0] == key && f[1..] == g;
    LookupStep(nodes, i, f);
    WaysStep(key, g, r, IsWildcard(nodes[i]));
  }

  /** Every subscriber under a filter that matches the topic is collected. */
  lemma {:induction false} MatchesComplete(nodes: seq<TreeNode>, i: nat, r: seq<Bytes>, c: Client, f: seq<Bytes>)
    requires WellFormed(nodes) && i < |nodes|
    requires Subscribed(nodes, i, f, c) && Ways(f, r, IsWildcard(nodes[i])) > 0
    ensures c in Matches(nodes, i, r)
    decreases |f|
  {
    if f != [] {
      var node := nodes[i];
      var j := node.subnodes[f[0]];
      LookupStep(nodes, i, f);
      assert Subscribed(nodes, j, f[1..], c);
      assert IsWildcard(nodes[j]) == (f[0] == Hash);
      assert r != [];
      if f[0] == r[0] && Ways(f[1..], r[1..], f[0] == Hash) > 0 {
        MatchesComplete(nodes, j, r[1..], c, f[1..]);
      } else if f[0] == Plus && Ways(f[1..], r[1..], false) > 0 {
        MatchesComplete(nodes, j, r[1..], c, f[1..]);
      } else {
        MatchesComplete(nodes, j, r, c, f[1..]);
      }
      BelowHas(nodes, i, r, c);
    }
  }

  /** A subscriber collected through any of the three children counts
      in `Below`. */
  lemma BelowHas(nodes: seq<TreeNode>, i: nat, r: seq<Bytes>, c: Client)
    requires WellFormed(nodes) && i < |nodes| && r != []
    ensures r[0] in nodes[i].subnodes && c in Matches(nodes, nodes[i].subnodes[r[0]], r[1..]) ==> c in Below(nodes, i, r)
    ensures Plus in nodes[i].subnodes && c in Matches(nodes, nodes[i].subnodes[Plus], r[1..]) ==> c in Below(nodes, i, r)
    ensures Hash in nodes[i].subnodes && c in Matches(nodes, nodes[i].subnodes[Hash], r) ==> c in Below(nodes, i, r)
  {
  }

  /** `Get(topic)` contains `c` exactly when `c` is subscribed under a
      filter that matches the topic's segments. */
  lemma GetMembership(nodes: seq<TreeNode>, parts: seq<Bytes>, c: Client)
    requires WellFormed(nodes)
    ensures c in Matches(nodes, 0, parts) <==>
      exists f :: Subscribed(nodes, 0, f, c) && Ways(f, parts, false) > 0
  {
    assert !IsWildcard(nodes[0]);
    if c in Matches(nodes, 0, parts) {
      MatchesSound(nodes, 0, parts, c);
    }
    if exists f :: Subscribed(nodes, 0, f, c) && Ways(f, parts, false) > 0 {
      var f :| Subscribed(nodes, 0, f, c) && Ways(f, parts, false) > 0;
      MatchesComplete(nodes, 0, parts, c, f);
    }
  }

  /** Only subscribers of some node are ever collected. */
  lemma MatchesFromNodes(nodes: seq<TreeNode>, i: nat, r: seq<Bytes>, c: Client)
    requires WellFormed(nodes) && i < |nodes| && c in Matches(nodes, i, r)
    ensures exists k :: 0 <= k < |nodes| && c in nodes[k].clients
  {
    MatchesSound(nodes, i, r, c);
    var f :| Subscribed(nodes, i, f, c) && Ways(f, r, IsWildcard(nodes[i])) > 0;
    var k := Lookup(nodes, i, f).value;
    assert c in nodes[k].clients;
  }

  /** An empty tree returns nothing, whatever the topic (wildcard
      segments in a topic included). */
  lemma EmptyTreeMatchesNothing(parts: seq<Bytes>)
    ensures Matches([NewNode([])], 0, parts) == multiset{}
  {
    if parts != [] {
      assert Below([NewNode([])], 0, parts) == multiset{};
    }
  }

  /** A tree without wildcard children. */
  ghost predicate LiteralTree(nodes: seq<TreeNode>)
  {
    forall k :: 0 <= k < |nodes| ==> Plus !in nodes[k].subnodes && Hash !in nodes[k].subnodes
  }

  /** In a tree with only literal filters, the topic returns exactly the
      subscribers of the node its segments spell out, once each. */
  lemma {:induction false} LiteralTreeMatches(nodes: seq<TreeNode>, i: nat, r: seq<Bytes>)
    requires WellFormed(nodes) && i < |nodes| && LiteralTree(nodes) && !IsWildcard(nodes[i])
    ensures Matches(nodes, i, r) ==
      match Lookup(nodes, i, r)
      case Some(j) => multiset(nodes[j].clients)
      case None => multiset{}
    decreases |r|
  {
    if r != [] {
      var node := nodes[i];
      if r[0] in node.subnodes {
        var j := node.subnodes[r[0]];
        assert nodes[j].part == r[0] && r[0] != Hash;
        LiteralTreeMatches(nodes, j, r[1..]);
        LookupStep(nodes, i, r);
      }
      assert Below(nodes, i, r) ==
        if r[0] in node.subnodes then Matches(nodes, node.subnodes[r[0]], r[1..]) else multiset{};
    }
  }

  // ---------------------------------------------------------------------
  // What Add does to the table

  /** `b` keeps every node of `a` with its segment, its subscribers and
      its child links, and may add more of each. */
  ghost predicate Extends(a: seq<TreeNode>, b: seq<TreeNode>)
  {
    && |a| <= |b|
    && forall k :: 0 <= k < |a| ==>
         && b[k].part == a[k].part
         && a[k].clients <= b[k].clients
         && forall key :: key in a[k].subnodes ==> key in b[k].subnodes && b[k].subnodes[key] == a[k].subnodes[key]
  }

  lemma ExtendsTrans(a: seq<TreeNode>, b: seq<TreeNode>, c: seq<TreeNode>)
    requires Extends(a, b) && Extends(b, c)
    ensures Extends(a, c)
  {
  }

  /** The node `AddSpec` subscribes the client at. */
  ghost function AddTarget(nodes: seq<TreeNode>, i: nat, parts: seq<Bytes>): nat
    requires WellFormed(nodes) && i < |nodes|
    decreases |parts|
  {
    if parts == [] then i
    else if parts[0] in nodes[i].subnodes then AddTarget(nodes, nodes[i].subnodes[parts[0]], parts[1..])
    else AddTarget(Link(nodes, i, parts[0]), |nodes|, parts[1..])
  }

  /** `Add` only grows the tree: no node, link or subscription is lost. */
  lemma {:induction false} AddGrows(nodes: seq<TreeNode>, i: nat, parts: seq<Bytes>, c: Client)
    requires WellFormed(nodes) && i < |nodes|
    ensures Extends(nodes, AddSpec(nodes, i, parts, c))
    decreases |parts|
  {
    if parts != [] {
      if parts[0] in nodes[i].subnodes {
        AddGrows(nodes, nodes[i].subnodes[parts[0]], parts[1..], c);
      } else {
        var linked := Link(nodes, i, parts[0]);
        AddGrows(linked, |nodes|, parts[1..], c);
        ExtendsTrans(nodes, linked, AddSpec(linked, |nodes|, parts[1..], c));
      }
    }
  }

  /** The subscribers node `k` had before `Add`: none for a node that
      `Add` created. */
  ghost function OldClients(nodes: seq<TreeNode>, k: nat): set<Client>
  {
    if k < |nodes| then nodes[k].clients else {}
  }

  /** `Add` subscribes `c` at the node its filter spells out, and at no
      other node; every other subscriber set is left as it was. */
  lemma {:induction false} AddSubscribes(nodes: seq<TreeNode>, i: nat, parts: seq<Bytes>, c: Client)
    requires WellFormed(nodes) && i < |nodes|
    ensures var r := AddSpec(nodes, i, parts, c); var t := AddTarget(nodes, i, parts);
      && t < |r| && Lookup(r, i, parts) == Some(t)
      && r[t].clients == OldClients(nodes, t) + {c}
      && forall k :: 0 <= k < |r| && k != t ==> r[k].clients == OldClients(nodes, k)
    decreases |parts|, 1
  {
    if parts != [] {
      if parts[0] in nodes[i].subnodes {
        AddSubscribesVia(nodes, i, parts, c, nodes, nodes[i].subnodes[parts[0]]);
      } else {
        var linked := Link(nodes, i, parts[0]);
        assert forall k :: 0 <= k < |linked| ==> linked[k].clients == OldClients(nodes, k) by {
          assert linked[|nodes|] == NewNode(parts[0]);
        }
        AddSubscribesVia(nodes, i, parts, c, linked, |nodes|);
      }
    }
  }

  /** One step of `AddSubscribes`: the walk goes on from child `j` of a
      table `base`, which is the original one or the original one with
      that child just linked. */
  lemma {:induction false} AddSubscribesVia(nodes: seq<TreeNode>, i: nat, parts: seq<Bytes>, c: Client, base: seq<TreeNode>, j: nat)
    requires WellFormed(nodes) && i < |nodes| && parts != []
    requires WellFormed(base) && |nodes| <= |base| && j < |base|
    requires parts[0] in base[i].subnodes && base[i].subnodes[parts[0]] == j
    requires AddSpec(nodes, i, parts, c) == AddSpec(base, j, parts[1..], c)
    requires AddTarget(nodes, i, parts) == AddTarget(base, j, parts[1..])
    requires forall k :: 0 <= k < |base| ==> base[k].clients == OldClients(nodes, k)
    ensures var r := AddSpec(nodes, i, parts, c); var t := AddTarget(nodes, i, parts);
      && t < |r| && Lookup(r, i, parts) == Some(t)
      && r[t].clients == OldClients(nodes, t) + {c}
      && forall k :: 0 <= k < |r| && k != t ==> r[k].clients == OldClients(nodes, k)
    decreases |parts|, 0
  {
    AddSubscribes(base, j, parts[1..], c);
    AddGrows(base, j, parts[1..], c);
    var r := AddSpec(nodes, i, parts, c);
    assert r[i].subnodes[parts[0]] == j;
    LookupStep(r, i, parts);
    assert forall k :: 0 <= k < |r| ==> OldClients(base, k) == OldClients(nodes, k);
  }

  /** `Add` creates at most one node per segment of its filter. */
  lemma {:induction false} AddCreatesAtMost(nodes: seq<TreeNode>, i: nat, parts: seq<Bytes>, c: Client)
    requires WellFormed(nodes) && i < |nodes|
    ensures |AddSpec(nodes, i, parts, c)| <= |nodes| + |parts|
    decreases |parts|
  {
    if parts != [] {
      if parts[0] in nodes[i].subnodes {
        AddCreatesAtMost(nodes, nodes[i].subnodes[parts[0]], parts[1..], c);
      } else {
        AddCreatesAtMost(Link(nodes, i, parts[0]), |nodes|, parts[1..], c);
      }
    }
  }

  /** Dropping the first segment of a prefix gives a prefix of the tail. */
  lemma PrefixTail(parts: seq<Bytes>, m: nat)
    requires m < |parts|
    ensures parts[..m + 1][0] == parts[0] && parts[..m + 1][1..] == parts[1..][..m]
  {
    assert forall n :: 0 <= n < m ==> parts[..m + 1][1..][n] == parts[n + 1] == parts[1..][..m][n];
  }

  /** Every node `Add` creates lies on its filter's path. */
  lemma {:induction false} AddCreatesOnPath(nodes: seq<TreeNode>, i: nat, parts: seq<Bytes>, c: Client, k: nat)
    requires WellFormed(nodes) && i < |nodes|
    requires |nodes| <= k < |AddSpec(nodes, i, parts, c)|
    ensures exists m :: 0 < m <= |parts| && Lookup(AddSpec(nodes, i, parts, c), i, parts[..m]) == Some(k)
    decreases |parts|
  {
    var r := AddSpec(nodes, i, parts, c);
    assert parts != [];
    var j, base;
    if parts[0] in nodes[i].subnodes {
      j, base := nodes[i].subnodes[parts[0]], nodes;
    } else {
      j, base := |nodes|, Link(nodes, i, parts[0]);
    }
    assert r == AddSpec(base, j, parts[1..], c);
    AddGrows(base, j, parts[1..], c);
    assert r[i].subnodes[parts[0]] == j;
    if k == j {
      LookupStep(r, i, parts[..1]);
      assert Lookup(r, i, parts[..1]) == Some(k);
    } else {
      assert |base| <= k;
      AddCreatesOnPath(base, j, parts[1..], c, k);
      var m :| 0 < m <= |parts| - 1 && Lookup(r, j, parts[1..][..m]) == Some(k);
      PrefixTail(parts, m);
      LookupStep(r, i, parts[..m + 1]);
    }
  }

  /** `Add` is idempotent: subscribing a client already subscribed under
      the same filter leaves the whole table unchanged. */
  lemma {:induction false} AddIdempotent(nodes: seq<TreeNode>, i: nat, parts: seq<Bytes>, c: Client)
    requires WellFormed(nodes) && i < |nodes| && Subscribed(nodes, i, parts, c)
    ensures AddSpec(nodes, i, parts, c) == nodes
    decreases |parts|
  {
    if parts == [] {
      assert nodes[i].clients + {c} == nodes[i].clients;
      assert nodes[i].(clients := nodes[i].clients + {c}) == nodes[i];
    } else {
      LookupStep(nodes, i, parts);
      AddIdempotent(nodes, nodes[i].subnodes[parts[0]], parts[1..], c);
    }
  }

  /** Links are kept, so paths of the smaller table lead to the same nodes. */
  lemma {:induction false} LookupExtends(a: seq<TreeNode>, b: seq<TreeNode>, i: nat, f: seq<Bytes>)
    requires WellFormed(a) && WellFormed(b) && Extends(a, b) && i < |a| && Lookup(a, i, f).Some?
    ensures Lookup(b, i, f) == Lookup(a, i, f)
    decreases |f|
  {
    if f != [] {
      LookupExtends(a, b, a[i].subnodes[f[0]], f[1..]);
    }
  }

  /** Growing the table never loses a match: every entry returned before
      is returned after, as often. */
  lemma {:induction false} MatchesGrow(a: seq<TreeNode>, b: seq<TreeNode>, i: nat, r: seq<Bytes>)
    requires WellFormed(a) && WellFormed(b) && Extends(a, b) && i < |a|
    ensures Matches(a, i, r) <= Matches(b, i, r)
    decreases |r|, |a| - i, 1
  {
    var na, nb := a[i], b[i];
    SetBagGrow(na.clients, nb.clients);
    var hereA := if r == [] || IsWildcard(na) then multiset(na.clients) else multiset{};
    var hereB := if r == [] || IsWildcard(nb) then multiset(nb.clients) else multiset{};
    assert hereA <= hereB;
    if r == [] {
      assert Matches(a, i, r) == hereA && Matches(b, i, r) == hereB;
    } else {
      BelowGrow(a, b, i, r);
      assert Matches(a, i, r) == hereA + Below(a, i, r);
      assert Matches(b, i, r) == hereB + Below(b, i, r);
      SumGrow(hereA, Below(a, i, r), multiset{}, hereB, Below(b, i, r), multiset{});
      assert hereA + Below(a, i, r) + multiset{} == hereA + Below(a, i, r);
      assert hereB + Below(b, i, r) + multiset{} == hereB + Below(b, i, r);
    }
  }

  lemma {:induction false} BelowGrow(a: seq<TreeNode>, b: seq<TreeNode>, i: nat, r: seq<Bytes>)
    requires WellFormed(a) && WellFormed(b) && Extends(a, b) && i < |a| && r != []
    ensures Below(a, i, r) <= Below(b, i, r)
    decreases |r|, |a| - i, 0
  {
    var na, nb := a[i], b[i];
    var la := if r[0] in na.subnodes then Matches(a, na.subnodes[r[0]], r[1..]) else multiset{};
    var lb := if r[0] in nb.subnodes then Matches(b, nb.subnodes[r[0]], r[1..]) else multiset{};
    var pa := if Plus in na.subnodes then Matches(a, na.subnodes[Plus], r[1..]) else multiset{};
    var pb := if Plus in nb.subnodes then Matches(b, nb.subnodes[Plus], r[1..]) else multiset{};
    var ha := if Hash in na.subnodes then Matches(a, na.subnodes[Hash], r) else multiset{};
    var hb := if Hash in nb.subnodes then Matches(b, nb.subnodes[Hash], r) else multiset{};
    if r[0] in na.subnodes {
      MatchesGrow(a, b, na.subnodes[r[0]], r[1..]);
    }
    if Plus in na.subnodes {
      MatchesGrow(a, b, na.subnodes[Plus], r[1..]);
    }
    if Hash in na.subnodes {
      MatchesGrow(a, b, na.subnodes[Hash], r);
    }
    assert la <= lb && pa <= pb && ha <= hb;
    assert Below(a, i, r) == la + pa + ha && Below(b, i, r) == lb + pb + hb;
    SumGrow(la, pa, ha, lb, pb, hb);
  }

  lemma SetBagGrow(s: set<Client>, t: set<Client>)
    requires s <= t
    ensures multiset(s) <= multiset(t)
  {
    assert forall x :: multiset(s)[x] <= multiset(t)[x] by {
      forall x ensures multiset(s)[x] <= multiset(t)[x] {
        if x in s { assert x in t; }
      }
    }
  }

  lemma SumGrow(a1: multiset<Client>, a2: multiset<Client>, a3: multiset<Client>,
                b1: multiset<Client>, b2: multiset<Client>, b3: multiset<Client>)
    requires a1 <= b1 && a2 <= b2 && a3 <= b3
    ensures a1 + a2 + a3 <= b1 + b2 + b3
  {
  }

  /** After `Add(f, c)`, `c` is returned for every topic its filter
      matches, and everything returned before is still returned. */
  lemma AddThenGet(nodes: seq<TreeNode>, f: seq<Bytes>, c: Client, r: seq<Bytes>)
    requires WellFormed(nodes)
    ensures Matches(nodes, 0, r) <= Matches(AddSpec(nodes, 0, f, c), 0, r)
    ensures Ways(f, r, false) > 0 ==> c in Matches(AddSpec(nodes, 0, f, c), 0, r)
  {
    var after := AddSpec(nodes, 0, f, c);
    AddGrows(nodes, 0, f, c);
    MatchesGrow(nodes, after, 0, r);
    AddSubscribes(nodes, 0, f, c);
    if Ways(f, r, false) > 0 {
      assert Subscribed(after, 0, f, c);
      assert !IsWildcard(after[0]);
      MatchesComplete(after, 0, r, c, f);
    }
  }
}
