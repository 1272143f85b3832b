/** The Remaining Length field and the reply layouts of broker/main.go:
    the variable-byte integer of section 2.2.3 of MQTT 3.1.1, and the
    CONNACK, SUBACK, PUBLISH and PINGRESP packets the broker sends. */
module Packets {
  import opened BrokerTypes

  // ---------------------------------------------------------------------
  // Remaining Length: the digits of a byte and their weights

  /** The seven data bits of a Remaining Length byte (`b & 127`). */
  function Digit(b: Byte): nat
  {
    b % 128
  }

  /** The continuation bit (`b & 128 != 0`): more bytes follow. */
  predicate More(b: Byte)
  {
    b >= 128
  }

  function Pow128(k: nat): (p: nat)
    ensures p >= 1
  {
    if k == 0 then 1 else 128 * Pow128(k - 1)
  }

  /** The sum of `Digit(bs[i]) * 128^i`: the value a run of Remaining
      Length bytes stands for, least significant first. */
  function Weighted(bs: Bytes): nat
  {
    if bs == [] then 0 else Digit(bs[0]) + 128 * Weighted(bs[1..])
  }

  /** The index of the first byte whose continuation bit is clear. */
  function FirstStop(s: Bytes): (r: Option<nat>)
    ensures r.Some? ==> r.value < |s| && !More(s[r.value])
    ensures r.Some? ==> forall j :: 0 <= j < r.value ==> More(s[j])
    ensures r.None? ==> forall j :: 0 <= j < |s| ==> More(s[j])
  {
    if s == [] then None
    else if !More(s[0]) then Some(0)
    else match FirstStop(s[1..])
      case None => None
      case Some(k) => Some(k + 1)
  }

  /** What `readRemainingLength` computes from the bytes it is given: the
      value and the number of bytes consumed, or nothing when the input
      ends before a byte with the continuation bit clear. */
  function DecodeLength(s: Bytes): (r: Option<(nat, nat)>)
    ensures r.Some? ==> 1 <= r.value.1 <= |s|
  {
    match FirstStop(s)
    case None => None
    case Some(k) => Some((Weighted(s[..k + 1]), k + 1))
  }

  /** What `encodeRemainingLength` produces: base-128 digits, least
      significant first, the continuation bit set on all but the last. */
  function Encode(n: nat): (r: Bytes)
    ensures |r| >= 1
  {
    if n < 128 then [n] else [n % 128 + 128] + Encode(n / 128)
  }

  /** The number of base-128 digits of `n` (at least one). */
  function NumDigits(n: nat): (d: nat)
    ensures d >= 1
  {
    if n < 128 then 1 else 1 + NumDigits(n / 128)
  }

  // ---------------------------------------------------------------------
  // The two loops of broker/main.go

  /** `readRemainingLength` over `input` from cursor `pos`: on success the
      value and the cursor after the last byte read; on failure `None`,
      with every remaining byte consumed. */
  method ReadRemainingLength(input: Bytes, pos: nat) returns (value: Option<nat>, next: nat)
    requires pos <= |input|
    ensures pos <= next <= |input|
    ensures value.None? <==> DecodeLength(input[pos..]).None?
    ensures value.None? ==> next == |input|
    ensures value.Some? ==> DecodeLength(input[pos..]) == Some((value.value, next - pos))
  {
    var v := 0;
    var multiplier := 1;
    next := pos;
    while true
      invariant pos <= next <= |input|
      invariant forall j :: pos <= j < next ==> More(input[j])
      invariant v == Weighted(input[pos..next]) && multiplier == Pow128(next - pos)
      decreases |input| - next
    {
      if next == |input| {
        FirstStopNone(input[pos..]);
        return None, next;
      }
      var digit := input[next];
      WeightedSnoc(input[pos..next], digit);
      assert input[pos..next + 1] == input[pos..next] + [digit];
      v := v + Digit(digit) * multiplier;
      multiplier := multiplier * 128;
      next := next + 1;
      if digit < 128 {
        break;
      }
    }
    FirstStopAt(input[pos..], next - pos - 1);
    assert input[pos..][..next - pos] == input[pos..next];
    value := Some(v);
  }

  /** `encodeRemainingLength`: the do-while loop that emits one digit per
      round and stops once the quotient reaches zero. */
  method EncodeRemainingLength(n: nat) returns (encoded: Bytes)
    ensures encoded == Encode(n)
  {
    encoded := [];
    var length := n;
    var done := false;
    while !done
      invariant done ==> encoded == Encode(n)
      invariant !done ==> encoded + Encode(length) == Encode(n)
      decreases length + (if done then 0 else 1)
    {
      var digit := length % 128;
      length := length / 128;
      if length > 0 {
        digit := digit + 128;
      }
      encoded := encoded + [digit];
      if length == 0 {
        done := true;
      }
    }
  }

  // ---------------------------------------------------------------------
  // Helper facts used by the loops

  lemma {:induction false} WeightedSnoc(bs: Bytes, b: Byte)
    ensures Weighted(bs + [b]) == Weighted(bs) + Digit(b) * Pow128(|bs|)
    decreases |bs|
  {
    if bs == [] {
      assert bs + [b] == [b];
    } else {
      var t := bs[1..];
      assert (bs + [b])[1..] == t + [b];
      WeightedSnoc(t, b);
      ScaleSum(Weighted(t), Digit(b), Pow128(|t|));
    }
  }

  lemma ScaleSum(w: nat, d: nat, p: nat)
    ensures 128 * (w + d * p) == 128 * w + d * (128 * p)
  {
  }

  lemma FirstStopNone(s: Bytes)
    requires forall j :: 0 <= j < |s| ==> More(s[j])
    ensures FirstStop(s).None?
  {
  }

  lemma FirstStopAt(s: Bytes, k: nat)
    requires k < |s| && !More(s[k])
    requires forall j :: 0 <= j < k ==> More(s[j])
    ensures FirstStop(s) == Some(k)
  {
  }

  // ---------------------------------------------------------------------
  // Laws of the encoding

  /** Every byte of an encoding but the last has the continuation bit set,
      the last has it clear, and every byte carries one digit. */
  lemma {:induction false} EncodeContinuation(n: nat)
    ensures forall j :: 0 <= j < |Encode(n)| - 1 ==> More(Encode(n)[j])
    ensures !More(Encode(n)[|Encode(n)| - 1])
    decreases n
  {
    if n >= 128 {
      EncodeContinuation(n / 128);
    }
  }

  /** The encoding is never empty and has exactly as many bytes as `n` has
      base-128 digits: one below 128, two below 16384, and `[0x00]` for 0. */
  lemma {:induction false} EncodeLength(n: nat)
    ensures |Encode(n)| == NumDigits(n)
    ensures n < 128 ==> |Encode(n)| == 1
    ensures 128 <= n < 16384 ==> |Encode(n)| == 2
    ensures Encode(0) == [0x00]
    decreases n
  {
    if n >= 128 {
      EncodeLength(n / 128);
    }
  }

  /** Minimality: `n` fits in `|Encode(n)|` base-128 digits and not in one
      fewer, so no shorter byte string could carry it. */
  lemma {:induction false} EncodeMinimal(n: nat)
    ensures n < Pow128(|Encode(n)|)
    ensures |Encode(n)| == 1 || Pow128(|Encode(n)| - 1) <= n
    decreases n
  {
    if n >= 128 {
      EncodeMinimal(n / 128);
    }
  }

  /** The digits of the encoding weigh exactly `n`. */
  lemma {:induction false} WeightedEncode(n: nat)
    ensures Weighted(Encode(n)) == n
    decreases n
  {
    if n >= 128 {
      WeightedEncode(n / 128);
      assert Encode(n)[1..] == Encode(n / 128);
    }
  }

  /** Round trip: decoding `Encode(n)` followed by anything yields `n`,
      consumes exactly the encoding and leaves the rest unread. */
  lemma RoundTrip(n: nat, rest: Bytes)
    ensures DecodeLength(Encode(n) + rest) == Some((n, |Encode(n)|))
  {
    var e := Encode(n);
    EncodeContinuation(n);
    FirstStopAt(e + rest, |e| - 1);
    assert (e + rest)[..|e|] == e;
    WeightedEncode(n);
  }

  /** Weighted digits of `k` bytes stay below `128^k`. */
  lemma {:induction false} WeightedBound(bs: Bytes)
    ensures Weighted(bs) < Pow128(|bs|)
    decreases |bs|
  {
    if bs != [] {
      WeightedBound(bs[1..]);
    }
  }

  /** A value below `128^k` has at most `k` digits. */
  lemma {:induction false} NumDigitsBound(v: nat, k: nat)
    requires k >= 1 && v < Pow128(k)
    ensures NumDigits(v) <= k
    decreases k
  {
    if v >= 128 {
      assert Pow128(1) == 128;
      assert k >= 2;
      assert v / 128 < Pow128(k - 1);
      NumDigitsBound(v / 128, k - 1);
    }
  }

  /** The encoder is the shortest form the decoder accepts: whatever bytes
      decode to `v`, there are at least `|Encode(v)|` of them. */
  lemma DecodeNeverShorter(s: Bytes)
    requires DecodeLength(s).Some?
    ensures |Encode(DecodeLength(s).value.0)| <= DecodeLength(s).value.1
  {
    var k := FirstStop(s).value;
    WeightedBound(s[..k + 1]);
    NumDigitsBound(Weighted(s[..k + 1]), k + 1);
    EncodeLength(Weighted(s[..k + 1]));
  }

  /** There is no four-byte cap: five bytes decode to 128^4, a value the
      MQTT 3.1.1 limit of 268,435,455 excludes. */
  lemma NoFourByteCap()
    ensures DecodeLength([0x80, 0x80, 0x80, 0x80, 0x01]) == Some((268435456, 5))
  {
    var s: Bytes := [0x80, 0x80, 0x80, 0x80, 0x01];
    FirstStopAt(s, 4);
    assert s[..5] == s;
    assert Weighted(s[4..]) == 1;
    assert Weighted(s[3..]) == 128;
    assert Weighted(s[2..]) == 16384;
    assert Weighted(s[1..]) == 2097152;
  }

  // ---------------------------------------------------------------------
  // Reply layouts

  /** CONNACK: type 2, remaining length 2, session-present 0, code 0. */
  const ConnAck: Bytes := [0x20, 0x02, 0x00, 0x00]

  /** PINGRESP: type 13, remaining length 0. */
  const PingResp: Bytes := [0xD0, 0x00]

  /** The bytes `sendSubAck` writes: type 9, the remaining length of the
      packet identifier and return codes, then both verbatim. */
  function SubAckPacket(packetId: Bytes, returnCodes: Bytes): Bytes
  {
    [0x90] + Encode(|packetId| + |returnCodes|) + packetId + returnCodes
  }

  /** The bytes `sendPublish` writes: type 3, the remaining length, the
      topic length as `byte(len >> 8), byte(len)` (so truncated to 16
      bits), the topic and the payload. */
  function PublishPacket(topic: Bytes, payload: Bytes): Bytes
  {
    [0x30] + Encode(|topic| + 2 + |payload|)
      + [(|topic| / 256) % 256, |topic| % 256] + topic + payload
  }

  /** A SUBACK is well framed: its type nibble is 9 and its remaining
      length counts exactly the bytes after the length field, which are
      the packet identifier and the return codes. */
  lemma SubAckFraming(packetId: Bytes, returnCodes: Bytes)
    ensures var p := SubAckPacket(packetId, returnCodes);
      var k := |Encode(|packetId| + |returnCodes|)|;
      && p[0] / 16 == 9
      && DecodeLength(p[1..]) == Some((|packetId| + |returnCodes|, k))
      && p[1 + k..] == packetId + returnCodes
  {
    var e := Encode(|packetId| + |returnCodes|);
    var p := SubAckPacket(packetId, returnCodes);
    assert p[1..] == e + (packetId + returnCodes);
    RoundTrip(|packetId| + |returnCodes|, packetId + returnCodes);
  }

  /** A PUBLISH is well framed: type nibble 3, and its remaining length
      counts exactly the bytes after the length field. */
  lemma PublishFraming(topic: Bytes, payload: Bytes)
    ensures var p := PublishPacket(topic, payload);
      var k := |Encode(|topic| + 2 + |payload|)|;
      && p[0] / 16 == 3
      && DecodeLength(p[1..]) == Some((|topic| + 2 + |payload|, k))
      && |p| == 1 + k + |topic| + 2 + |payload|
  {
    var n := |topic| + 2 + |payload|;
    var e := Encode(n);
    var body: Bytes := [(|topic| / 256) % 256, |topic| % 256] + topic + payload;
    var p := PublishPacket(topic, payload);
    assert p == [0x30] + (e + body);
    assert p[1..] == e + body;
    assert |body| == n;
    RoundTrip(n, body);
  }
}
