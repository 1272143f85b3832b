/** The `*bufio.Reader` each connection reads from, as a byte sequence
    and a cursor into it. A read of `k` bytes delivers everything still
    available up to `k`; the Go slice it fills keeps zeros where nothing
    was delivered, and the read fails only when `k > 0` and nothing at all
    is left (a `bufio.Reader.Read` into an empty slice reads nothing and
    reports no new error). */
module Stream {
  import opened BrokerTypes

  /** The bytes a read left in its slice, the new cursor, and whether the
      read reported an error. */
  datatype Chunk = Chunk(data: Bytes, next: nat, failed: bool)

  function Read(input: Bytes, pos: nat, k: nat): (c: Chunk)
    requires pos <= |input|
    ensures |c.data| == k && pos <= c.next <= |input| && c.next <= pos + k
    ensures c.failed <==> k > 0 && pos == |input|
    ensures !c.failed && k > 0 ==> c.next > pos
    ensures c.next == pos + Min(k, |input| - pos)
    ensures c.data[..c.next - pos] == input[pos..c.next]
    ensures forall j :: c.next - pos <= j < k ==> c.data[j] == 0
  {
    var n := Min(k, |input| - pos);
    Chunk(input[pos..pos + n] + Zeros(k - n), pos + n, k > 0 && n == 0)
  }

  /** A read that fits in the rest of the input delivers exactly the next
      `k` bytes and does not fail. */
  lemma ReadWhole(input: Bytes, pos: nat, k: nat)
    requires pos + k <= |input|
    ensures Read(input, pos, k) == Chunk(input[pos..pos + k], pos + k, false)
  {
  }
}
