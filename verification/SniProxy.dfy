/** The SNI proxy: read one record, find the server name, replay the record, relay both directions. */
module SniProxy {
  import opened ClientHello
  import opened Net
  import opened Wire
  import opened Wrappers

  // ---------- parsing with a cursor ----------

  lemma Get8At(b: Bytes, pos: nat, short: Error, cut: Error)
    requires pos <= |b|
    ensures Get8(b[pos..], short, cut) ==
            if |b| < pos + 1 then Bad(short)
            else
              var end := pos + 1 + b[pos] as int;
              if |b| < end then Bad(cut) else Got(b[pos + 1..end], b[end..])
  {
    if pos < |b| {
      assert b[pos..][1..] == b[pos + 1..];
    }
  }

  lemma Get16At(b: Bytes, pos: nat, short: Error, cut: Error)
    requires pos <= |b|
    ensures Get16(b[pos..], short, cut) ==
            if |b| < pos + 2 then Bad(short)
            else
              var end := pos + 2 + U16(b[pos..]);
              if |b| < end then Bad(cut) else Got(b[pos + 2..end], b[end..])
  {
    if pos + 2 <= |b| {
      assert b[pos..][2..] == b[pos + 2..];
    }
  }

  lemma SliceOfSlice(b: Bytes, lo: nat, hi: nat, i: nat, j: nat)
    requires lo <= hi <= |b| && i <= j <= hi - lo
    ensures b[lo..hi][i..j] == b[lo + i..lo + j]
  {
    var s, t := b[lo..hi][i..j], b[lo + i..lo + j];
    assert |s| == |t|;
    assert forall k :: 0 <= k < |s| ==> s[k] == b[lo..hi][i + k] == b[lo + i + k] == t[k];
  }

  lemma U16InSlice(b: Bytes, lo: nat, hi: nat, i: nat)
    requires lo <= hi <= |b| && lo + i + 2 <= hi
    ensures U16(b[lo..hi][i..]) == U16(b[lo + i..])
  {
    assert b[lo..hi][i..][0] == b[lo + i] == b[lo + i..][0];
    assert b[lo..hi][i..][1] == b[lo + i + 1] == b[lo + i..][1];
  }

  lemma HeadAt(b: Bytes)
    ensures ServerName(b) == if |b| < 2 then Err(NoVersion) else if |b| < 34 then Err(NoRandom) else AfterRandom(b[34..])
  {
    if |b| >= 34 {
      assert b[2..][32..] == b[34..];
    }
  }

  lemma SessionAt(b: Bytes, pos: nat)
    requires pos <= |b|
    ensures AfterRandom(b[pos..]) ==
            if |b| < pos + 1 then Err(NoSessionLength)
            else
              var end := pos + 1 + b[pos] as int;
              if |b| < end then Err(SessionTruncated) else AfterSession(b[end..])
  {
    Get8At(b, pos, NoSessionLength, SessionTruncated);
  }

  lemma CiphersAt(b: Bytes, pos: nat)
    requires pos <= |b|
    ensures AfterSession(b[pos..]) ==
            if |b| < pos + 2 then Err(NoCipherLength)
            else
              var end := pos + 2 + U16(b[pos..]);
              if |b| < end then Err(CiphersTruncated) else AfterCiphers(b[end..])
  {
    Get16At(b, pos, NoCipherLength, CiphersTruncated);
  }

  lemma CompressionAt(b: Bytes, pos: nat)
    requires pos <= |b|
    ensures AfterCiphers(b[pos..]) ==
            if |b| < pos + 1 then Err(NoCompressionLength)
            else
              var end := pos + 1 + b[pos] as int;
              if |b| < end then Err(CompressionTruncated) else BlockName(b[end..])
  {
    Get8At(b, pos, NoCompressionLength, CompressionTruncated);
  }

  lemma BlockAt(b: Bytes, pos: nat)
    requires pos <= |b|
    ensures BlockName(b[pos..]) ==
            if |b| < pos + 2 then Err(NoExtensionsLength)
            else
              var end := pos + 2 + U16(b[pos..]);
              if end == pos + 2 then Err(NoExtensions)
              else if |b| < end then Err(ExtensionsTruncated) else FindName(b[pos + 2..end])
  {
    Get16At(b, pos, NoExtensionsLength, ExtensionsTruncated);
  }

  lemma FirstExtension(e: Bytes)
    requires |e| >= 4
    ensures FindName(e) ==
            var stop := 4 + U16(e[2..]);
            if |e| < stop then Err(ExtensionTruncated)
            else if U16(e) == SERVER_NAME then NameOf(e[4..stop]) else FindName(e[stop..])
  {
    var p, stop := Get16(e[2..], SniNotFound, ExtensionTruncated), 4 + U16(e[2..]);
    Get16At(e, 2, SniNotFound, ExtensionTruncated);
    assert p == if |e| < stop then Bad(ExtensionTruncated) else Got(e[4..stop], e[stop..]);
  }

  lemma ExtensionSlices(b: Bytes, pos: nat, end: nat, size: nat)
    requires pos + 4 <= end <= |b| && size == 4 + U16(b[pos + 2..])
    ensures U16(b[pos..end]) == U16(b[pos..]) && U16(b[pos..end][2..]) == U16(b[pos + 2..])
    ensures pos + size <= end ==> b[pos..end][4..size] == b[pos + 4..pos + size]
    ensures pos + size <= end ==> b[pos..end][size..] == b[pos + size..end]
  {
    U16InSlice(b, pos, end, 0);
    assert b[pos..end][0..] == b[pos..end];
    U16InSlice(b, pos, end, 2);
    if pos + size <= end {
      SliceOfSlice(b, pos, end, 4, size);
      SliceOfSlice(b, pos, end, size, end - pos);
    }
  }

  /** One step of the extension walk, said on the whole message. */
  lemma ExtensionIn(b: Bytes, pos: nat, end: nat)
    requires pos + 4 <= end <= |b|
    ensures FindName(b[pos..end]) ==
            var stop := pos + 4 + U16(b[pos + 2..]);
            if end < stop then Err(ExtensionTruncated)
            else if U16(b[pos..]) == SERVER_NAME then NameOf(b[pos + 4..stop]) else FindName(b[stop..end])
  {
    FirstExtension(b[pos..end]);
    ExtensionSlices(b, pos, end, 4 + U16(b[pos + 2..]));
  }

  lemma NameListAt(data: Bytes)
    requires |data| >= 2
    ensures NameOf(data) ==
            var end := 2 + U16(data);
            if end == 2 then Err(EmptyList) else if |data| < end then Err(ListTruncated) else FirstName(data[2..end])
  {
    Get16At(data, 0, ListTooShort, ListTruncated);
    assert data[0..] == data;
  }

  lemma FirstNameAt(list: Bytes)
    ensures FirstName(list) ==
            if |list| < 3 then Err(EntryTruncated)
            else if list[0] != HOST_NAME then Err(UnsupportedNameType(list[0]))
            else
              var stop := 3 + U16(list[1..]);
              if |list| < stop then Err(NameTruncated) else Ok(list[3..stop])
  {
    if |list| >= 3 {
      Get16At(list, 1, EntryTruncated, NameTruncated);
    }
  }

  method ParseSni(data: Bytes) returns (r: Result)
    ensures r == NameOf(data)
  {
    if |data| < 2 {
      return Err(ListTooShort);
    }
    var listLen := U16(data[0..2]);
    if listLen == 0 {
      return Err(EmptyList);
    }
    var pos := 2;
    var end := pos + listLen;
    if |data| < end {
      return Err(ListTruncated);
    }
    ghost var list := data[2..end];
    assert listLen == U16(data);
    NameListAt(data);
    FirstNameAt(list);
    if pos + 3 > end {
      return Err(EntryTruncated);
    }
    var nameType := data[pos];
    if nameType != HOST_NAME {
      return Err(UnsupportedNameType(nameType));
    }
    pos := pos + 1;
    var nameLen := U16(data[pos..]);
    U16InSlice(data, 2, end, 1);
    pos := pos + 2;
    if pos + nameLen > end {
      return Err(NameTruncated);
    }
    SliceOfSlice(data, 2, end, 3, 3 + nameLen);
    return Ok(data[pos..pos + nameLen]);
  }

  /** One turn of the extension loop: it decides, or moves on to the next extension. */
  method NextExtension(b: Bytes, pos: nat, end: nat) returns (done: bool, r: Result, next: nat)
    requires pos + 4 <= end <= |b|
    ensures done ==> r == FindName(b[pos..end])
    ensures !done ==> pos < next <= end && FindName(b[pos..end]) == FindName(b[next..end])
  {
    var extType := U16(b[pos..]);
    var extDataLen := U16(b[pos + 2..]);
    next := pos + 4 + extDataLen;
    ghost var whole := FindName(b[pos..end]);
    assert whole == if end < next then Err(ExtensionTruncated)
                    else if extType == SERVER_NAME then NameOf(b[pos + 4..next]) else FindName(b[next..end]) by {
      ExtensionIn(b, pos, end);
    }
    if next > end {
      return true, Err(ExtensionTruncated), pos;
    }
    if extType == SERVER_NAME {
      r := ParseSni(b[pos + 4..next]);
      return true, r, pos;
    }
    return false, Err(SniNotFound), next;
  }

  /** The extension loop, from the start of the block to its declared end. */
  method FindSni(b: Bytes, start: nat, end: nat) returns (r: Result)
    requires start <= end <= |b|
    ensures r == FindName(b[start..end])
  {
    var pos := start;
    while pos + 4 <= end
      invariant start <= pos <= end
      invariant FindName(b[start..end]) == FindName(b[pos..end])
    {
      var done, found, next := NextExtension(b, pos, end);
      if done {
        return found;
      }
      pos := next;
    }
    return Err(SniNotFound);
  }

  method FromExtensions(b: Bytes, start: nat) returns (r: Result)
    requires start <= |b|
    ensures r == BlockName(b[start..])
  {
    BlockAt(b, start);
    var pos := start;
    if |b| < pos + 2 {
      return Err(NoExtensionsLength);
    }
    var extLen := U16(b[pos..]);
    pos := pos + 2;
    if extLen == 0 {
      return Err(NoExtensions);
    }
    var end := pos + extLen;
    if |b| < end {
      return Err(ExtensionsTruncated);
    }
    r := FindSni(b, pos, end);
  }

  method FromCompression(b: Bytes, start: nat) returns (r: Result)
    requires start <= |b|
    ensures r == AfterCiphers(b[start..])
  {
    CompressionAt(b, start);
    var pos := start;
    if |b| < pos + 1 {
      return Err(NoCompressionLength);
    }
    var compLen := b[pos] as int;
    pos := pos + 1;
    if |b| < pos + compLen {
      return Err(CompressionTruncated);
    }
    r := FromExtensions(b, pos + compLen);
  }

  method FromCiphers(b: Bytes, start: nat) returns (r: Result)
    requires start <= |b|
    ensures r == AfterSession(b[start..])
  {
    CiphersAt(b, start);
    var pos := start;
    if |b| < pos + 2 {
      return Err(NoCipherLength);
    }
    var cipherLen := U16(b[pos..]);
    pos := pos + 2;
    if |b| < pos + cipherLen {
      return Err(CiphersTruncated);
    }
    r := FromCompression(b, pos + cipherLen);
  }

  method FromSession(b: Bytes, start: nat) returns (r: Result)
    requires start <= |b|
    ensures r == AfterRandom(b[start..])
  {
    SessionAt(b, start);
    var pos := start;
    if |b| < pos + 1 {
      return Err(NoSessionLength);
    }
    var sessionLen := b[pos] as int;
    pos := pos + 1;
    if |b| < pos + sessionLen {
      return Err(SessionTruncated);
    }
    pos := pos + sessionLen;
    assert AfterRandom(b[start..]) == AfterSession(b[pos..]);
    r := FromCiphers(b, pos);
  }

  /** The cursor walks version, random, the three vectors and the extensions; here each stretch of the walk
      is a method that takes the cursor on from its start. */
  method ExtractSni(b: Bytes) returns (r: Result)
    ensures r == ServerName(b)
  {
    HeadAt(b);
    if |b| < 2 {
      return Err(NoVersion);
    }
    var pos := 2;
    if |b| < pos + 32 {
      return Err(NoRandom);
    }
    pos := pos + 32;
    r := FromSession(b, pos);
  }

  // ---------- records ----------

  const HANDSHAKE: Byte := 22
  const CLIENT_HELLO: Byte := 1

  datatype Record = Record(contentType: Byte, version: nat, payload: Bytes, raw: Bytes)

  /** The first record of a stream and what follows it, if it is there in full. */
  function SplitRecord(s: Bytes): Option<(Record, Bytes)> {
    if |s| < 5 then None
    else
      var end := 5 + U16(s[3..]);
      if |s| < end then None
      else Some((Record(s[0], U16(s[1..]), s[5..end], s[..end]), s[end..]))
  }

  datatype Verdict =
    | Accepted(name: Bytes)
    | NotHandshake(t: Byte) | EmptyPayload | NotClientHello(t: Byte)
    | HeaderTruncated | BodyTruncated | NoName(e: Error)

  function Inspect(r: Record): Verdict {
    if r.contentType != HANDSHAKE then NotHandshake(r.contentType)
    else if |r.payload| < 1 then EmptyPayload
    else if r.payload[0] != CLIENT_HELLO then NotClientHello(r.payload[0])
    else if |r.payload| < 4 then HeaderTruncated
    else
      var len := U24(r.payload[1..4]);
      if |r.payload| < 4 + len then BodyTruncated
      else
        match ServerName(r.payload[4..4 + len])
        case Ok(name) => Accepted(name)
        case Err(e) => NoName(e)
  }

  /** Why a record is refused: it is no handshake record (type 22), it is empty, it starts with no ClientHello
      (type 1), its header or its body is cut off, or no name is found in the body. */
  lemma RefusedWhy(r: Record)
    ensures Inspect(r) == NotHandshake(r.contentType) <==> r.contentType != 22
    ensures Inspect(r) == EmptyPayload <==> r.contentType == 22 && r.payload == []
    ensures r.payload != [] ==> (Inspect(r) == NotClientHello(r.payload[0]) <==> r.contentType == 22 && r.payload[0] != 1)
    ensures Inspect(r) == HeaderTruncated <==> r.contentType == 22 && 1 <= |r.payload| <= 3 && r.payload[0] == 1
    ensures Inspect(r) == BodyTruncated <==>
              r.contentType == 22 && |r.payload| >= 4 && r.payload[0] == 1 && |r.payload| < 4 + U24(r.payload[1..4])
  {
  }

  /** A ClientHello in one record: `version` is the record's, `slack` follows the handshake message. */
  predicate FitsRecord(version: Bytes, h: Hello, slack: Bytes) {
    |version| == 2 && WellFormed(h) && 4 + |Encode(h)| + |slack| < 0x1_0000
  }

  function Handshake(body: Bytes, slack: Bytes): (p: Bytes)
    requires |body| < 0x1_0000
    ensures |p| == 4 + |body| + |slack|
  {
    [CLIENT_HELLO] + Enc24(|body|) + (body + slack)
  }

  function RecordBytes(version: Bytes, h: Hello, slack: Bytes): Bytes
    requires FitsRecord(version, h, slack)
  {
    [HANDSHAKE] + version + Put16(Handshake(Encode(h), slack), [])
  }

  lemma HandshakeEncoded(body: Bytes, slack: Bytes)
    requires |body| < 0x1_0000
    ensures var p := Handshake(body, slack);
            p[0] == CLIENT_HELLO && U24(p[1..4]) == |body| && p[4..4 + |body|] == body
  {
    var p := Handshake(body, slack);
    assert p[1..4] == Enc24(|body|);
    U24Enc(|body|);
  }

  lemma RecordSplits(version: Bytes, payload: Bytes, rest: Bytes)
    requires |version| == 2 && |payload| < 0x1_0000
    ensures var raw := [HANDSHAKE] + version + Put16(payload, []);
            SplitRecord(raw + rest) == Some((Record(HANDSHAKE, U16(version), payload, raw), rest))
  {
    var raw := [HANDSHAKE] + version + Put16(payload, []);
    var s := raw + rest;
    assert s[3..5] == Enc16(|payload|) && U16(s[3..]) == U16(Enc16(|payload|) + payload);
    U16Enc(|payload|, payload);
    assert s[1] == version[0] && s[2] == version[1];
    assert s[5..5 + |payload|] == payload && s[..5 + |payload|] == raw && s[5 + |payload|..] == rest;
  }

  /** Round trip through a record: the name and the exact record bytes come out, the rest stays unread. */
  lemma RecordRoundTrip(version: Bytes, h: Hello, slack: Bytes, rest: Bytes)
    requires FitsRecord(version, h, slack)
    ensures var raw := RecordBytes(version, h, slack);
            var split := SplitRecord(raw + rest);
            && split.Some? && split.value.0.raw == raw && split.value.1 == rest
            && Inspect(split.value.0) == Accepted(h.name)
  {
    var payload := Handshake(Encode(h), slack);
    RecordSplits(version, payload, rest);
    HandshakeEncoded(Encode(h), slack);
    ParseEncoded(h);
  }

  function SmallRecordBytes(random: Bytes): Bytes {
    [22] + [3, 1] + ([0, 57] + ([1] + [0, 0, 53] + SmallBytes(random)))
  }

  lemma SmallHandshake(body: Bytes)
    requires |body| == 53
    ensures Handshake(body, []) == [1] + [0, 0, 53] + body
    ensures Put16(Handshake(body, []), []) == [0, 57] + ([1] + [0, 0, 53] + body)
  {
    assert Enc24(53) == [0, 0, 53] && body + [] == body;
    var payload := Handshake(body, []);
    ShortVectors(payload, []);
    assert payload + [] == payload;
  }

  /** Byte by byte: one handshake record of the small ClientHello gives the name "a". */
  lemma SmallRecord(random: Bytes, rest: Bytes)
    requires |random| == 32
    ensures var split := SplitRecord(SmallRecordBytes(random) + rest);
            split.Some? && split.value.0.raw == SmallRecordBytes(random) && split.value.1 == rest
            && Inspect(split.value.0) == Accepted([97])
  {
    SmallHelloBytes(random);
    SmallHandshake(SmallBytes(random));
    RecordRoundTrip([3, 1], SmallHello(random), [], rest);
  }

  lemma HandshakeInverted(p: Bytes)
    requires |p| >= 4 && p[0] == CLIENT_HELLO && 4 + U24(p[1..4]) <= |p| < 0x1_0000
    ensures var end := 4 + U24(p[1..4]); p == Handshake(p[4..end], p[end..])
  {
    var end := 4 + U24(p[1..4]);
    EncU24(p[1..4]);
    assert p == [p[0]] + p[1..4] + (p[4..end] + p[end..]);
  }

  lemma RecordFactors(s: Bytes)
    requires SplitRecord(s).Some?
    ensures var (r, rest) := SplitRecord(s).value;
            && |r.payload| < 0x1_0000 && s == r.raw + rest
            && r.raw == [r.contentType] + s[1..3] + Put16(r.payload, [])
  {
    var end := 5 + U16(s[3..]);
    EncU16(s[3..]);
    assert s[3..][..2] == s[3..5];
    assert s[..end] == [s[0]] + s[1..3] + (s[3..5] + s[5..end]);
    assert s[5..end] + [] == s[5..end];
  }

  /** Inversion: an accepted record is a ClientHello with that name, in one record, ahead of the rest. */
  lemma RecordInverted(s: Bytes) returns (version: Bytes, h: Hello, slack: Bytes)
    requires SplitRecord(s).Some? && Inspect(SplitRecord(s).value.0).Accepted?
    ensures var (r, rest) := SplitRecord(s).value;
            && FitsRecord(version, h, slack) && h.name == Inspect(r).name
            && r.raw == RecordBytes(version, h, slack) && s == r.raw + rest
  {
    var (r, rest) := SplitRecord(s).value;
    RecordFactors(s);
    var end := 4 + U24(r.payload[1..4]);
    HandshakeInverted(r.payload);
    h := ParseInverted(r.payload[4..end]);
    version, slack := s[1..3], r.payload[end..];
  }

  // ---------- reading from a connection ----------

  /** Whatever the chunking, either the first record is read and nothing more, or it is not there in full,
      or the connection failed. */
  method ReadRecord(c: Conn) returns (r: Option<Record>, err: ReadErr)
    modifies c`incoming, c`readFailed
    ensures err.NoErr? <==> r.Some?
    ensures old(c.readFailed) || err.Fault? ==> c.readFailed
    ensures r.Some? ==> SplitRecord(old(c.incoming)) == Some((r.value, c.incoming))
    ensures err.Eof? || err.UnexpectedEof? ==> SplitRecord(old(c.incoming)).None?
  {
    var header, payload;
    ghost var stream := c.incoming;
    header, err := ReadFull(c, 5);
    if !err.NoErr? {
      return None, err;
    }
    var length := U16(header[3..5]);
    assert length == U16(stream[3..]);
    payload, err := ReadFull(c, length);
    if !err.NoErr? {
      return None, err;
    }
    var raw := [];
    raw := raw + header;
    raw := raw + payload;
    assert stream == raw + c.incoming;
    return Some(Record(header[0], U16(header[1..3]), payload, raw)), NoErr;
  }

  datatype Parsed = Parsed(sni: Bytes, raw: Bytes) | Refused(v: Verdict) | ReadFailed(err: ReadErr)

  method ParseClientHello(c: Conn) returns (p: Parsed)
    modifies c`incoming, c`readFailed
    ensures old(c.readFailed) ==> c.readFailed
    ensures match p
            case Parsed(sni, raw) =>
              var split := SplitRecord(old(c.incoming));
              split.Some? && split.value.1 == c.incoming && split.value.0.raw == raw
              && Inspect(split.value.0) == Accepted(sni)
            case Refused(v) =>
              var split := SplitRecord(old(c.incoming));
              split.Some? && split.value.1 == c.incoming && !v.Accepted? && Inspect(split.value.0) == v
            case ReadFailed(err) =>
              !err.NoErr? && (err.Fault? ==> c.readFailed) && (err.Fault? || SplitRecord(old(c.incoming)).None?)
  {
    var record, err := ReadRecord(c);
    if record.None? {
      return ReadFailed(err);
    }
    var payload := record.value.payload;
    if record.value.contentType != HANDSHAKE {
      return Refused(NotHandshake(record.value.contentType));
    }
    if |payload| < 1 {
      return Refused(EmptyPayload);
    }
    if payload[0] != CLIENT_HELLO {
      return Refused(NotClientHello(payload[0]));
    }
    if |payload| < 4 {
      return Refused(HeaderTruncated);
    }
    var handshakeLen := U24(payload[1..4]);
    var body := payload[4..];
    if |body| < handshakeLen {
      return Refused(BodyTruncated);
    }
    body := body[..handshakeLen];
    assert body == payload[4..4 + handshakeLen];
    var sni := ExtractSni(body);
    if sni.Err? {
      return Refused(NoName(sni.e));
    }
    return Parsed(sni.name, record.value.raw);
  }

  // ---------- relaying ----------

  const BUFFER := 32768

  /** How one direction came to its end. */
  datatype End = AtEof | ReadBroken | WriteBroken

  function EndOf(err: ReadErr): End {
    if err.Eof? then AtEof else ReadBroken
  }

  /** Copies until a read or a write fails. What it adds to dst is a prefix of what src had to send: all of it
      after an end of file, what it took from src after a failed read. */
  method Transfer(dst: Conn, src: Conn) returns (moved: Bytes, end: End)
    requires dst != src
    modifies dst`written, dst`writeFailed, src`incoming, src`readFailed
    ensures dst.written == old(dst.written) + moved
    ensures end.ReadBroken? ==> src.readFailed
    ensures end.WriteBroken? ==> dst.writeFailed
    ensures moved <= old(src.incoming)
    ensures |moved| + |src.incoming| <= |old(src.incoming)|
    ensures !end.WriteBroken? ==> old(src.incoming) == moved + src.incoming
    ensures end.AtEof? ==> moved == old(src.incoming)
  {
    moved := [];
    while true
      invariant dst.written == old(dst.written) + moved
      invariant old(src.incoming) == moved + src.incoming
      decreases |src.incoming|
    {
      var chunk, err := src.Read(BUFFER);
      if |chunk| > 0 {
        var n, ok := dst.Write(chunk);
        moved := moved + chunk[..n];
        if !ok {
          return moved, WriteBroken;
        }
      }
      if !err.NoErr? {
        return moved, EndOf(err);
      }
    }
  }

  // ---------- the two directions interleaved ----------

  /** Where a direction stands: about to read, about to write what it read (and to end then, if the read said
      so), or at its end. */
  datatype Mode = Reading | Writing(chunk: Bytes, last: Option<End>) | Ended(end: End)

  /** A direction: what is left to read, where it stands, what it has written, whether a read or a write failed. */
  datatype Pipe = Pipe(incoming: Bytes, mode: Mode, written: Bytes, readFailed: bool, writeFailed: bool)

  /** What a read or a write comes back with. */
  datatype Io = Fetched(n: nat, err: ReadErr) | Flushed(k: nat, ok: bool)

  function AfterRead(chunk: Bytes, err: ReadErr): Mode {
    if chunk != [] then Writing(chunk, if err.NoErr? then None else Some(EndOf(err)))
    else if err.NoErr? then Reading
    else Ended(EndOf(err))
  }

  function AfterWrite(complete: bool, last: Option<End>): Mode {
    if !complete then Ended(WriteBroken) else if last.Some? then Ended(last.value) else Reading
  }

  /** One read or write of a direction; an end of file comes with or after the last byte only. */
  function Pump(p: Pipe, io: Io): Pipe {
    match io
    case Fetched(n, err) =>
      if !p.mode.Reading? || n > |p.incoming| || n > BUFFER || (err.Eof? && n < |p.incoming|) || err.UnexpectedEof? then p
      else p.(mode := AfterRead(p.incoming[..n], err), incoming := p.incoming[n..],
              readFailed := p.readFailed || err.Fault?)
    case Flushed(k, ok) =>
      if !p.mode.Writing? || k > |p.mode.chunk| || (ok && k < |p.mode.chunk|) then p
      else p.(mode := AfterWrite(ok, p.mode.last), written := p.written + p.mode.chunk[..k],
              writeFailed := p.writeFailed || !ok)
  }

  /** Nothing is lost, repeated or reordered, a direction that ends with the end of file is complete, and one that
      ends otherwise has had a read or a write fail. */
  predicate Carries(p: Pipe, all: Bytes) {
    && p.written <= all
    && match p.mode
       case Reading => all == p.written + p.incoming
       case Writing(chunk, last) =>
         chunk != [] && all == p.written + (chunk + p.incoming) && (last == Some(AtEof) ==> p.incoming == [])
         && last != Some(WriteBroken) && (last == Some(ReadBroken) ==> p.readFailed)
       case Ended(end) =>
         match end
         case AtEof => all == p.written
         case ReadBroken => all == p.written + p.incoming && p.readFailed
         case WriteBroken => p.writeFailed
  }

  lemma FetchCarries(p: Pipe, n: nat, err: ReadErr, all: Bytes)
    requires Carries(p, all) && p.mode.Reading?
    ensures Carries(Pump(p, Fetched(n, err)), all)
  {
    if n <= |p.incoming| {
      assert p.incoming == p.incoming[..n] + p.incoming[n..];
    }
  }

  lemma FlushCarries(p: Pipe, k: nat, ok: bool, all: Bytes)
    requires Carries(p, all) && p.mode.Writing?
    ensures Carries(Pump(p, Flushed(k, ok)), all)
  {
    var chunk := p.mode.chunk;
    if k <= |chunk| {
      assert chunk == chunk[..k] + chunk[k..];
      assert all == (p.written + chunk[..k]) + (chunk[k..] + p.incoming);
      assert k == |chunk| ==> chunk[k..] + p.incoming == p.incoming;
    }
  }

  lemma PumpCarries(p: Pipe, io: Io, all: Bytes)
    requires Carries(p, all)
    ensures Carries(Pump(p, io), all)
    ensures p.written <= Pump(p, io).written
  {
    match io {
      case Fetched(n, err) => if p.mode.Reading? { FetchCarries(p, n, err, all); }
      case Flushed(k, ok) => if p.mode.Writing? { FlushCarries(p, k, ok, all); }
    }
  }

  datatype Relay = Relay(forward: Pipe, back: Pipe, replayed: bool)
  datatype Turn = Forth(io: Io) | Back(io: Io)

  /** The backward direction starts once the record has been replayed in full. */
  function TakeTurn(r: Relay, t: Turn): Relay {
    match t
    case Forth(io) =>
      var p := Pump(r.forward, io);
      r.(forward := p, replayed := r.replayed || p.mode.Reading?)
    case Back(io) => if r.replayed then r.(back := Pump(r.back, io)) else r
  }

  function Run(r: Relay, turns: seq<Turn>): Relay {
    if turns == [] then r else TakeTurn(Run(r, turns[..|turns| - 1]), turns[|turns| - 1])
  }

  function Start(raw: Bytes, rest: Bytes, reply: Bytes): Relay {
    Relay(Pipe(rest, Writing(raw, None), [], false, false), Pipe(reply, Reading, [], false, false), false)
  }

  /** Relay transparency: in every interleaving and under every chunking, upstream has received a prefix of
      the client's bytes that begins with the record, and the client a prefix of upstream's bytes, none of
      them before upstream had the whole record. No byte of a direction is missing before its end, nor after
      it when it ended with the end of file: then everything sent has been delivered. */
  lemma {:induction false} RelayIsTransparent(raw: Bytes, rest: Bytes, reply: Bytes, turns: seq<Turn>)
    requires raw != []
    ensures var r := Run(Start(raw, rest, reply), turns);
            && Carries(r.forward, raw + rest) && Carries(r.back, reply)
            && (r.replayed ==> raw <= r.forward.written)
            && (r.back.written != [] ==> r.replayed)
            && (r.forward.mode == Ended(AtEof) ==> r.forward.written == raw + rest)
            && (r.back.mode == Ended(AtEof) ==> r.back.written == reply)
            && (r.forward.mode.Ended? && r.forward.written != raw + rest ==> r.forward.readFailed || r.forward.writeFailed)
            && (r.back.mode.Ended? && r.back.written != reply ==> r.back.readFailed || r.back.writeFailed)
            && (!r.replayed ==> r.forward.mode == Ended(WriteBroken)
                                || (r.forward.mode == Writing(raw, None) && r.forward.written == []))
  {
    if turns != [] {
      var init, t := turns[..|turns| - 1], turns[|turns| - 1];
      RelayIsTransparent(raw, rest, reply, init);
      var r := Run(Start(raw, rest, reply), init);
      PumpCarries(r.forward, t.io, raw + rest);
      PumpCarries(r.back, t.io, reply);
    }
  }

  // ---------- one client connection ----------

  /** The direction from one connection to another, as a pipe. */
  ghost function PipeOf(src: Conn, mode: Mode, dst: Conn): Pipe
    reads src, dst
  {
    Pipe(src.incoming, mode, dst.written, src.readFailed, dst.writeFailed)
  }

  /** One read or write of a direction. */
  method Advance(dst: Conn, src: Conn, mode: Mode) returns (next: Mode)
    requires dst != src && !mode.Ended?
    requires mode.Writing? ==> mode.chunk != []
    modifies dst`written, dst`writeFailed, src`incoming, src`readFailed
    ensures exists io :: PipeOf(src, next, dst) == Pump(old(PipeOf(src, mode, dst)), io)
    ensures 2 * |src.incoming| + Rank(next) < 2 * |old(src.incoming)| + Rank(mode)
  {
    ghost var p := PipeOf(src, mode, dst);
    if mode.Reading? {
      var chunk, err := src.Read(BUFFER);
      next := AfterRead(chunk, err);
      assert PipeOf(src, next, dst) == Pump(p, Fetched(|chunk|, err));
    } else {
      var n, ok := dst.Write(mode.chunk);
      next := AfterWrite(ok, mode.last);
      assert PipeOf(src, next, dst) == Pump(p, Flushed(n, ok));
    }
  }

  function Rank(mode: Mode): nat {
    if mode.Ended? then 0 else if mode.Reading? then 1 else 2
  }

  /** Runs both directions to their ends, their reads and writes in any order. */
  method RelayBoth(client: Conn, upstream: Conn) returns (forth: End, back: End)
    requires client != upstream
    modifies client, upstream
    ensures Relayed(old(upstream.written), old(client.incoming), PipeOf(client, Ended(forth), upstream))
    ensures Relayed(old(client.written), old(upstream.incoming), PipeOf(upstream, Ended(back), client))
  {
    var f, b := Reading, Reading;
    while !f.Ended? || !b.Ended?
      invariant Relayed(old(upstream.written), old(client.incoming), PipeOf(client, f, upstream))
      invariant Relayed(old(client.written), old(upstream.incoming), PipeOf(upstream, b, client))
      decreases 2 * (|client.incoming| + |upstream.incoming|) + Rank(f) + Rank(b)
    {
      var forward: bool := *;
      if b.Ended? || (forward && !f.Ended?) {
        ghost var p := PipeOf(client, f, upstream);
        f := Advance(upstream, client, f);
        RelayedStep(old(upstream.written), old(client.incoming), p, PipeOf(client, f, upstream));
      } else {
        ghost var p := PipeOf(upstream, b, client);
        b := Advance(client, upstream, b);
        RelayedStep(old(client.written), old(upstream.incoming), p, PipeOf(upstream, b, client));
      }
    }
    return f.end, b.end;
  }

  /** What was written after `before` is what the direction has carried so far of `all`. */
  predicate Relayed(before: Bytes, all: Bytes, p: Pipe) {
    before <= p.written && Carries(p.(written := p.written[|before|..]), all)
  }

  lemma PumpOnlyAppends(p: Pipe, io: Io, before: Bytes)
    requires before <= p.written
    ensures var inner := p.(written := p.written[|before|..]);
            before <= Pump(p, io).written
            && Pump(p, io).(written := Pump(p, io).written[|before|..]) == Pump(inner, io)
  {
    assert p.written == before + p.written[|before|..];
  }

  lemma RelayedStep(before: Bytes, all: Bytes, p: Pipe, q: Pipe)
    requires Relayed(before, all, p)
    requires exists io :: q == Pump(p, io)
    ensures Relayed(before, all, q)
  {
    var io :| q == Pump(p, io);
    PumpOnlyAppends(p, io, before);
    PumpCarries(p.(written := p.written[|before|..]), io, all);
  }

  /** What stands in the way of a connection being relayed at all. */
  predicate Admitted(stream: Bytes, resolved: bool, dialed: bool) {
    resolved && dialed && SplitRecord(stream).Some? && Inspect(SplitRecord(stream).value.0).Accepted?
  }

  /** Where one direction got: everything is delivered unless a read at one side or a write at the other failed. */
  predicate Delivered(end: End, sent: Bytes, all: Bytes, readFailed: bool, writeFailed: bool) {
    && sent <= all
    && (end.AtEof? ==> sent == all)
    && (end.ReadBroken? ==> readFailed)
    && (end.WriteBroken? ==> writeFailed)
  }

  /** One client connection. It is relayed if its bytes start with a record that carries a server name, the name
      resolves and the server is reached, unless a read or a write failed before that; and only then. Upstream
      then gets the record and all that follows it, and the client all that upstream sends, each up to a
      failing read or write. */
  method HandleConn(client: Conn, upstream: Conn, resolved: bool, dialed: bool)
    returns (forth: Option<End>, back: Option<End>)
    requires client != upstream && upstream.written == []
    modifies client, upstream
    ensures forth.Some? <==> back.Some?
    ensures forth.Some? ==> Admitted(old(client.incoming), resolved, dialed)
    ensures Admitted(old(client.incoming), resolved, dialed) ==> forth.Some? || client.readFailed || upstream.writeFailed
    ensures upstream.written <= old(client.incoming) && old(client.written) <= client.written
    ensures upstream.written != [] ==> Admitted(old(client.incoming), resolved, dialed)
    ensures forth.None? ==> client.written == old(client.written)
    ensures forth.Some? ==>
              && SplitRecord(old(client.incoming)).value.0.raw <= upstream.written
              && Delivered(forth.value, upstream.written, old(client.incoming), client.readFailed, upstream.writeFailed)
              && Delivered(back.value, client.written[|old(client.written)|..], old(upstream.incoming),
                           upstream.readFailed, client.writeFailed)
  {
    ghost var stream := client.incoming;
    var p := ParseClientHello(client);
    if !p.Parsed? || !resolved || !dialed {
      return None, None;
    }
    RecordFactors(stream);
    forth, back := Forward(client, upstream, p.raw);
  }

  /** Replays the record upstream and, if that worked, relays both ways. */
  method Forward(client: Conn, upstream: Conn, raw: Bytes) returns (forth: Option<End>, back: Option<End>)
    requires client != upstream && upstream.written == []
    modifies client, upstream
    ensures forth.Some? <==> back.Some?
    ensures forth.None? ==> upstream.writeFailed && client.written == old(client.written)
    ensures upstream.written <= raw + old(client.incoming) && old(client.written) <= client.written
    ensures forth.Some? ==>
              && raw <= upstream.written
              && Delivered(forth.value, upstream.written, raw + old(client.incoming), client.readFailed, upstream.writeFailed)
              && Delivered(back.value, client.written[|old(client.written)|..], old(upstream.incoming),
                           upstream.readFailed, client.writeFailed)
  {
    ghost var rest := client.incoming;
    var n, ok := upstream.Write(raw);
    if !ok {
      return None, None;
    }
    assert upstream.written == raw;
    var f, b := RelayBoth(client, upstream);
    RelayedAfter(raw, rest, PipeOf(client, Ended(f), upstream));
    return Some(f), Some(b);
  }

  lemma RelayedAfter(raw: Bytes, rest: Bytes, p: Pipe)
    requires Relayed(raw, rest, p)
    ensures raw <= p.written <= raw + rest
    ensures p.mode == Ended(AtEof) ==> p.written == raw + rest
  {
    assert p.written == raw + p.written[|raw|..];
  }
}
