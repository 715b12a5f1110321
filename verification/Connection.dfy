/** A byte-stream connection, as `net.Conn` with `io.ReadFull`. */
module Connection {
  import opened ByteSeqs
  import Endpoint

  /** `binary.BigEndian.PutUint16(buf, uint16(n))`. */
  method PutUint16(buf: array<Byte>, n: nat)
    requires buf.Length == 2
    modifies buf
    ensures buf[..] == U16(n)
  {
    buf[0] := n / 256 % 256;
    buf[1] := n % 256;
  }

  class Conn {
    var incoming: Bytes  // what the peer has sent or will still send before it closes
    var outgoing: Bytes  // what has been written so far

    constructor (incoming: Bytes)
      ensures this.incoming == incoming && outgoing == []
    {
      this.incoming := incoming;
      outgoing := [];
    }

    ghost function View(): Endpoint.Wire
      reads this
    {
      Endpoint.Wire(incoming, outgoing)
    }

    method Write(p: Bytes)
      modifies this
      ensures outgoing == old(outgoing) + p && incoming == old(incoming)
    {
      outgoing := outgoing + p;
    }

    /** Fills the whole buffer, or fails having consumed what there was. */
    method ReadFull(buf: array<Byte>) returns (ok: bool)
      modifies this, buf
      ensures ok == (buf.Length <= |old(incoming)|)
      ensures ok ==> buf[..] == old(incoming)[..buf.Length] && incoming == old(incoming)[buf.Length..]
      ensures !ok ==> incoming == []
      ensures outgoing == old(outgoing)
    {
      var n := 0;
      while n < buf.Length && n < |incoming|
        invariant n <= buf.Length && n <= |incoming|
        invariant incoming == old(incoming) && outgoing == old(outgoing)
        invariant buf[..n] == incoming[..n]
      {
        buf[n] := incoming[n];
        n := n + 1;
      }
      ok := n == buf.Length;
      incoming := incoming[n..];
    }
  }
}
