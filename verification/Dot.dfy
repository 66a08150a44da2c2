/** DNS-over-TLS framing: a two-byte length ahead of each message (section 3.3 of RFC 7858, section 4.2.2
    of RFC 1035). */
module Dot {
  import opened Wire
  import opened Net
  import opened Wrappers

  /** A message as it is written; the length is cut to sixteen bits. */
  function Frame(data: Bytes): Bytes {
    [Digit(|data|, 256), Digit(|data|, 1)] + data
  }

  /** The header is the length, most significant byte first, for a message that fits. */
  lemma HeaderIsLength(data: Bytes, rest: Bytes)
    requires |data| < 0x1_0000
    ensures Frame(data) == Enc16(|data|) + data && U16(Frame(data)) == |data|
    ensures FrameEnd(Frame(data) + rest, 2) == 2 + U16(Frame(data) + rest)
  {
    U16Enc(|data|, data);
    U16Enc(|data|, data + rest);
    assert Frame(data) + rest == Enc16(|data|) + (data + rest);
  }

  /** Where the reader sees the end of the first message when its one header read returned n bytes: a header
      byte that did not arrive counts as zero. */
  function FrameEnd(stream: Bytes, n: nat): nat
    requires 1 <= n <= 2 && n <= |stream|
  {
    n + stream[0] as int * 256 + (if n == 2 then stream[1] as int else 0)
  }

  /** What the reader takes for the first message, and what it leaves. */
  function FrameAfter(stream: Bytes, n: nat): Option<(Bytes, Bytes)>
    requires 1 <= n <= 2
  {
    if |stream| < n || |stream| < FrameEnd(stream, n) then None
    else Some((stream[n..FrameEnd(stream, n)], stream[FrameEnd(stream, n)..]))
  }

  datatype Message = Message(data: Bytes) | Malformed(data: Bytes) | Failed(err: ReadErr)

  lemma Slices(header: Bytes, data: Bytes, rest: Bytes)
    ensures var s := header + (data + rest);
            s[|header|..|header| + |data|] == data && s[|header| + |data|..] == rest
  {
  }

  /** Reads one message; `got` is how many header bytes its single header read returned, `unpacks` says what is
      a DNS message. Whatever happens, nothing past the end of that message is taken from the stream. */
  method ReadMsg(c: Conn, unpacks: Bytes -> bool) returns (m: Message, got: nat)
    modifies c`incoming, c`readFailed
    ensures !m.Failed? ==> 1 <= got <= 2 && FrameAfter(old(c.incoming), got) == Some((m.data, c.incoming))
    ensures m.Message? ==> unpacks(m.data)
    ensures m.Malformed? ==> !unpacks(m.data)
    ensures m.Failed? ==> !m.err.NoErr?
    ensures m.Failed? && (m.err.Eof? || m.err.UnexpectedEof?) ==> c.incoming == []
    ensures got <= 2 && got <= |old(c.incoming)|
    ensures m.Failed? ==> c.readFailed || (m.err.Eof? && |old(c.incoming)| <= 2)
                          || (1 <= got && FrameAfter(old(c.incoming), got).None?)
    ensures var taken := |old(c.incoming)| - |c.incoming|;
            && 0 <= taken && c.incoming == old(c.incoming)[taken..]
            && got <= taken <= if got == 0 then 0 else FrameEnd(old(c.incoming), got)
  {
    ghost var stream := c.incoming;
    var header, err := c.Read(2);
    got := |header|;
    assert stream[got..] == c.incoming;
    if !err.NoErr? {
      return Failed(err), got;
    }
    var second: Byte := if |header| == 2 then header[1] else 0;
    var length := header[0] as int * 256 + second as int;
    if length > 65535 {
      return Failed(Fault), got;
    }
    assert stream[0] == header[0] && (got == 2 ==> stream[1] == header[1]);
    var data;
    data, err := ReadFull(c, length);
    assert stream == header + (data + c.incoming);
    Slices(header, data, c.incoming);
    if !err.NoErr? {
      return Failed(err), got;
    }
    return if unpacks(data) then Message(data) else Malformed(data), got;
  }

  /** Header first, then the message. */
  method WriteMsg(c: Conn, data: Bytes) returns (ok: bool)
    modifies c`written, c`writeFailed
    ensures ok ==> c.written == old(c.written) + Frame(data)
    ensures !ok ==> c.writeFailed
    ensures !ok ==> exists k :: 0 <= k <= |Frame(data)| && c.written == old(c.written) + Frame(data)[..k]
  {
    ghost var before := c.written;
    var header := [Digit(|data|, 256), Digit(|data|, 1)];
    var n;
    n, ok := c.Write(header);
    assert header[..n] == Frame(data)[..n];
    if !ok {
      return;
    }
    assert c.written == before + header;
    n, ok := c.Write(data);
    assert header + data[..n] == Frame(data)[..2 + n];
    assert c.written == before + Frame(data)[..2 + n];
    assert ok ==> Frame(data)[..2 + n] == Frame(data);
  }

  /** A written message is read back, and the stream left in step, if and only if the header arrives in one
      piece and the message is shorter than 65536 bytes. */
  lemma ReadBackIff(data: Bytes, rest: Bytes, n: nat)
    requires 1 <= n <= 2
    ensures FrameAfter(Frame(data) + rest, n) == Some((data, rest)) <==> n == 2 && |data| < 0x1_0000
  {
    var stream := Frame(data) + rest;
    assert stream[0] == Digit(|data|, 256) && stream[1] == Digit(|data|, 1);
    if n == 2 && |data| < 0x1_0000 {
      assert stream[2..2 + |data|] == data && stream[2 + |data|..] == rest;
    }
    if FrameAfter(stream, n) == Some((data, rest)) {
      var end := FrameEnd(stream, n);
      assert |stream| == 2 + |data| + |rest| && |stream[end..]| == |rest|;
      assert end == 2 + |data| && |stream[n..end]| == |data|;
    }
  }

  function Frames(messages: seq<Bytes>, rest: Bytes): Bytes {
    if messages == [] then rest else Frame(messages[0]) + Frames(messages[1..], rest)
  }

  function ReadFrames(stream: Bytes, k: nat): Option<(seq<Bytes>, Bytes)> {
    if k == 0 then Some(([], stream))
    else
      match FrameAfter(stream, 2)
      case None => None
      case Some((data, rest)) =>
        match ReadFrames(rest, k - 1)
        case None => None
        case Some((more, end)) => Some(([data] + more, end))
  }

  /** Any sequence of messages a frame can hold is read back unchanged when headers arrive in one piece. */
  lemma {:induction false} SequenceReadBack(messages: seq<Bytes>, rest: Bytes)
    requires forall i :: 0 <= i < |messages| ==> |messages[i]| < 0x1_0000
    ensures ReadFrames(Frames(messages, rest), |messages|) == Some((messages, rest))
  {
    if messages != [] {
      ReadBackIff(messages[0], Frames(messages[1..], rest), 2);
      SequenceReadBack(messages[1..], rest);
      assert [messages[0]] + messages[1..] == messages;
    }
  }
}
