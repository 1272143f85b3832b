/** Go's `strings.Split(topic, "/")`, which both the broker's topic tree
    and the sample trie use to cut topics and filters into segments. */
module Topics {
  import opened BrokerTypes

  const Slash: Byte := 0x2F

  /** `strings.Split(s, "/")`: the pieces between separators, so never
      empty, with `[""]` for the empty string and an empty piece for each
      leading, trailing or doubled separator. */
  function Split(s: Bytes): (parts: seq<Bytes>)
    ensures |parts| >= 1
    ensures forall i :: 0 <= i < |parts| ==> Slash !in parts[i]
  {
    if s == [] then [[]]
    else if s[0] == Slash then [[]] + Split(s[1..])
    else
      var rest := Split(s[1..]);
      [[s[0]] + rest[0]] + rest[1..]
  }

  /** The inverse of `Split`: the pieces glued back with separators. */
  function Join(parts: seq<Bytes>): Bytes
    requires |parts| >= 1
  {
    if |parts| == 1 then parts[0] else parts[0] + [Slash] + Join(parts[1..])
  }

  /** Splitting loses nothing: joining the pieces gives the topic back. */
  lemma {:induction false} JoinSplit(s: Bytes)
    ensures Join(Split(s)) == s
    decreases |s|
  {
    if s == [] {
    } else if s[0] == Slash {
      JoinSplit(s[1..]);
    } else {
      JoinSplit(s[1..]);
      var rest := Split(s[1..]);
      if |rest| > 1 {
        assert ([[s[0]] + rest[0]] + rest[1..])[1..] == rest[1..];
      }
    }
  }

  /** Splitting a join of separator-free pieces gives the pieces back, so
      every non-empty sequence of segments is the split of exactly one
      topic. */
  lemma {:induction false} SplitJoin(parts: seq<Bytes>)
    requires |parts| >= 1
    requires forall i :: 0 <= i < |parts| ==> Slash !in parts[i]
    ensures Split(Join(parts)) == parts
    decreases |parts|, |parts[0]|
  {
    if |parts| == 1 {
      SplitPiece(parts[0], []);
      assert parts[0] + [] == parts[0];
    } else {
      SplitJoin(parts[1..]);
      SplitPiece(parts[0], [Slash] + Join(parts[1..]));
      assert parts[0] + [Slash] + Join(parts[1..]) == parts[0] + ([Slash] + Join(parts[1..]));
      assert ([Slash] + Join(parts[1..]))[1..] == Join(parts[1..]);
      assert [parts[0]] + parts[1..] == parts;
    }
  }

  /** A separator-free prefix becomes the first piece of the split. */
  lemma {:induction false} SplitPiece(piece: Bytes, tail: Bytes)
    requires Slash !in piece
    requires tail == [] || tail[0] == Slash
    ensures Split(piece + tail) ==
      (if tail == [] then [piece] else [piece] + Split(tail[1..]))
    decreases |piece|
  {
    if piece == [] {
      assert piece + tail == tail;
    } else {
      SplitPiece(piece[1..], tail);
      assert (piece + tail)[1..] == piece[1..] + tail;
      assert [piece[0]] + piece[1..] == piece;
    }
  }

  /** The topic text with these separator-free segments, and that it
      splits back into them. */
  function Topic(parts: seq<Bytes>): (t: Bytes)
    requires |parts| >= 1 && forall k :: 0 <= k < |parts| ==> Slash !in parts[k]
    ensures Split(t) == parts
  {
    SplitJoin(parts);
    Join(parts)
  }
}
