/** One direction of a byte stream, as io.Writer and io.Reader show it. */
module ByteStream {
  import opened Basics

  /** Written at one end, read at the other; `data` is what is under way. */
  class Wire {
    var data: seq<byte>

    constructor ()
      ensures data == []
    {
      data := [];
    }

    method Write(b: seq<byte>)
      modifies this
      ensures data == old(data) + b
    {
      data := data + b;
    }

    /** io.ReadFull: all `n` bytes, or what is there and a failure. */
    method ReadFull(n: nat) returns (b: seq<byte>, ok: bool)
      modifies this
      ensures ok <==> n <= |old(data)|
      ensures b == old(data)[..Min(n, |old(data)|)] && data == old(data)[Min(n, |old(data)|)..]
    {
      var k := Min(n, |data|);
      b, ok, data := data[..k], k == n, data[k..];
    }

    /** ioutil.ReadAll. */
    method ReadAll() returns (b: seq<byte>)
      modifies this
      ensures b == old(data) && data == []
    {
      b, data := data, [];
    }
  }
}
