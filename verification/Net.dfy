/** Connections as byte streams that arrive in portions of any size. */
module Net {
  import opened Wire

  datatype ReadErr = NoErr | Eof | UnexpectedEof | Fault

  /** One end of a connection: the bytes its peer will still send, and those written to the peer. The ghost fields
      remember whether a read or a write has failed. */
  class Conn {
    var incoming: Bytes
    var written: Bytes
    ghost var readFailed: bool
    ghost var writeFailed: bool

    constructor (incoming: Bytes)
      ensures this.incoming == incoming && written == [] && !readFailed && !writeFailed
    {
      this.incoming := incoming;
      written := [];
      readFailed, writeFailed := false, false;
    }

    /** Hands over the next bytes in whatever portion the network chose; a read without an error makes
        progress, an end of file comes after the last byte, a fault at any time. */
    method Read(max: nat) returns (chunk: Bytes, err: ReadErr)
      requires max > 0
      modifies this`incoming, this`readFailed
      ensures |chunk| <= max && old(incoming) == chunk + incoming
      ensures readFailed == (old(readFailed) || err.Fault?)
      ensures err.NoErr? ==> |chunk| > 0
      ensures err.Eof? ==> incoming == []
      ensures !err.UnexpectedEof?
    {
      var n :| 0 <= n <= max && n <= |incoming|;
      chunk, incoming := incoming[..n], incoming[n..];
      var failing: bool := *;
      err := if failing then Fault else if |chunk| > 0 then NoErr else if incoming == [] then Eof else Fault;
      readFailed := readFailed || err.Fault?;
    }

    /** Accepts a prefix of the data; all of it unless the write fails, which it may even then. */
    method Write(data: Bytes) returns (n: nat, ok: bool)
      modifies this`written, this`writeFailed
      ensures n <= |data| && written == old(written) + data[..n]
      ensures ok ==> n == |data|
      ensures writeFailed == (old(writeFailed) || !ok)
    {
      n :| 0 <= n <= |data|;
      written := written + data[..n];
      var failing: bool := *;
      ok := n == |data| && !failing;
      writeFailed := writeFailed || !ok;
    }
  }

  /** Reads exactly n bytes, over as many reads as it takes. */
  method ReadFull(c: Conn, n: nat) returns (buf: Bytes, err: ReadErr)
    modifies c`incoming, c`readFailed
    ensures old(c.incoming) == buf + c.incoming && |buf| <= n
    ensures old(c.readFailed) || err.Fault? ==> c.readFailed
    ensures err.NoErr? <==> |buf| == n
    ensures err.Eof? || err.UnexpectedEof? ==> |old(c.incoming)| < n && c.incoming == []
  {
    buf, err := [], NoErr;
    while |buf| < n && err.NoErr?
      invariant |buf| <= n && old(c.incoming) == buf + c.incoming
      invariant old(c.readFailed) || err.Fault? ==> c.readFailed
      invariant err.Eof? ==> c.incoming == []
      invariant !err.UnexpectedEof?
      decreases n - |buf|, err.NoErr?
    {
      var chunk;
      chunk, err := c.Read(n - |buf|);
      buf := buf + chunk;
    }
    if |buf| >= n {
      err := NoErr;
    } else if |buf| > 0 && err.Eof? {
      err := UnexpectedEof;
    }
  }
}
