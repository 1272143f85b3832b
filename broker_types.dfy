/** Types shared by every part of the broker model: bytes, optional
    values, client identities and the handles of outbound writers. */
module BrokerTypes {

  datatype Option<T> = None | Some(value: T)

  /** One octet. Go's bit operations on bytes are written as the equivalent
      arithmetic: `b & 127` is `b % 128`, `b & 128 != 0` is `b >= 128`,
      `b >> 4` is `b / 16`. */
  type Byte = x: int | 0 <= x < 256

  /** Go strings are byte strings, so topics, filters and client ids are
      all byte sequences. */
  type Bytes = seq<Byte>

  /** The broker's `ClientID`: the decimal rendering of a connection number. */
  type ClientID = Bytes

  /** An outbound `*bufio.Writer`, identified by a handle; what was written
      to it is kept by the handler as an append-only log. */
  type WriterId = nat

  /** The broker's `*Client`: a heap object holding nothing but its id.
      The topic tree keys its subscriber sets by the object, not the id. */
  class Client {
    const id: ClientID

    constructor (id: ClientID)
      ensures this.id == id
    {
      this.id := id;
    }
  }

  /** `k` zero bytes: what a freshly made Go slice holds where no read
      filled it. */
  function Zeros(k: nat): (z: Bytes)
    ensures |z| == k && forall j :: 0 <= j < k ==> z[j] == 0
  {
    seq(k, j => 0)
  }

  function Min(a: nat, b: nat): nat
  {
    if a <= b then a else b
  }
}
