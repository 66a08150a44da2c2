/** TLS ClientHello: the wire format (section 4.1.2 of RFC 8446, section 3 of RFC 6066) as an encoder,
    the proxy's parser, and the proof that they undo each other. */
module ClientHello {

  import opened Wire

  // ---------- length-prefixed vectors ----------

  /** v behind a one-byte length, then rest. */
  function Put8(v: Bytes, rest: Bytes): Bytes
    requires |v| < 256
  {
    [|v|] + (v + rest)
  }

  /** v behind a two-byte length, then rest. */
  function Put16(v: Bytes, rest: Bytes): Bytes
    requires |v| < 0x1_0000
  {
    Enc16(|v|) + (v + rest)
  }

  datatype Error =
    | NoVersion | NoRandom
    | NoSessionLength | SessionTruncated
    | NoCipherLength | CiphersTruncated
    | NoCompressionLength | CompressionTruncated
    | NoExtensionsLength | NoExtensions | ExtensionsTruncated | ExtensionTruncated | SniNotFound
    | ListTooShort | EmptyList | ListTruncated | EntryTruncated | UnsupportedNameType(t: Byte) | NameTruncated

  datatype Piece = Got(v: Bytes, rest: Bytes) | Bad(e: Error)

  function Take(b: Bytes, n: nat, short: Error): Piece {
    if |b| < n then Bad(short) else Got(b[..n], b[n..])
  }

  function Get8(b: Bytes, short: Error, cut: Error): Piece {
    if |b| < 1 then Bad(short) else Take(b[1..], b[0], cut)
  }

  function Get16(b: Bytes, short: Error, cut: Error): Piece {
    if |b| < 2 then Bad(short) else Take(b[2..], U16(b), cut)
  }

  lemma TakePut(v: Bytes, rest: Bytes, short: Error)
    ensures Take(v + rest, |v|, short) == Got(v, rest)
  {
  }

  lemma Get8Put(v: Bytes, rest: Bytes, short: Error, cut: Error)
    requires |v| < 256
    ensures Get8(Put8(v, rest), short, cut) == Got(v, rest)
  {
    assert Put8(v, rest)[1..] == v + rest;
    TakePut(v, rest, cut);
  }

  lemma Get16Put(v: Bytes, rest: Bytes, short: Error, cut: Error)
    requires |v| < 0x1_0000
    ensures Get16(Put16(v, rest), short, cut) == Got(v, rest)
  {
    U16Enc(|v|, v + rest);
    TakePut(v, rest, cut);
  }

  lemma Put8Get(b: Bytes, short: Error, cut: Error)
    requires Get8(b, short, cut).Got?
    ensures var p := Get8(b, short, cut); |p.v| < 256 && b == Put8(p.v, p.rest)
  {
    var p := Get8(b, short, cut);
    assert p.v + p.rest == b[1..];
  }

  lemma Put16Get(b: Bytes, short: Error, cut: Error)
    requires Get16(b, short, cut).Got?
    ensures var p := Get16(b, short, cut); |p.v| < 0x1_0000 && b == Put16(p.v, p.rest)
  {
    var p := Get16(b, short, cut);
    assert p.v + p.rest == b[2..];
    EncU16(b);
  }

  // ---------- the parser as a function ----------

  datatype Result = Ok(name: Bytes) | Err(e: Error)

  const HOST_NAME: Byte := 0
  const SERVER_NAME := 0

  /** The first entry of a server name list, which must be a host name. */
  function FirstName(list: Bytes): Result {
    if |list| < 3 then Err(EntryTruncated)
    else if list[0] != HOST_NAME then Err(UnsupportedNameType(list[0]))
    else
      match Get16(list[1..], EntryTruncated, NameTruncated)
      case Got(name, _) => Ok(name)
      case Bad(e) => Err(e)
  }

  function NameOf(data: Bytes): Result {
    if |data| < 2 then Err(ListTooShort)
    else if U16(data) == 0 then Err(EmptyList)
    else
      match Get16(data, ListTooShort, ListTruncated)
      case Got(list, _) => FirstName(list)
      case Bad(e) => Err(e)
  }

  /** Walks the extensions up to the first one of type 0; fewer than four bytes end the walk. */
  function FindName(exts: Bytes): Result {
    if |exts| < 4 then Err(SniNotFound)
    else
      match Get16(exts[2..], SniNotFound, ExtensionTruncated)
      case Bad(e) => Err(e)
      case Got(data, rest) => if U16(exts) == SERVER_NAME then NameOf(data) else FindName(rest)
  }

  function BlockName(b: Bytes): Result {
    if |b| < 2 then Err(NoExtensionsLength)
    else if U16(b) == 0 then Err(NoExtensions)
    else
      match Get16(b, NoExtensionsLength, ExtensionsTruncated)
      case Bad(e) => Err(e)
      case Got(block, _) => FindName(block)
  }

  function AfterCiphers(b: Bytes): Result {
    match Get8(b, NoCompressionLength, CompressionTruncated)
    case Bad(e) => Err(e)
    case Got(_, rest) => BlockName(rest)
  }

  function AfterSession(b: Bytes): Result {
    match Get16(b, NoCipherLength, CiphersTruncated)
    case Bad(e) => Err(e)
    case Got(_, rest) => AfterCiphers(rest)
  }

  function AfterRandom(b: Bytes): Result {
    match Get8(b, NoSessionLength, SessionTruncated)
    case Bad(e) => Err(e)
    case Got(_, rest) => AfterSession(rest)
  }

  function ServerName(b: Bytes): Result {
    match Take(b, 2, NoVersion)
    case Bad(e) => Err(e)
    case Got(_, rest) =>
      match Take(rest, 32, NoRandom)
      case Bad(e) => Err(e)
      case Got(_, rest) => AfterRandom(rest)
  }

  // ---------- the format ----------

  datatype Extension = Extension(typ: nat, data: Bytes)

  /** A ClientHello with a server name: `before` are the extensions ahead of it, `otherNames` the rest of
      the name list, `slack` what follows the list inside the extension, `after` what follows the
      extension inside the block, and `tail` what follows the block. */
  datatype Hello = Hello(version: Bytes, random: Bytes, session: Bytes, ciphers: Bytes, compression: Bytes,
                         before: seq<Extension>, name: Bytes, otherNames: Bytes, slack: Bytes,
                         after: Bytes, tail: Bytes)

  predicate OtherExtension(e: Extension) {
    SERVER_NAME < e.typ < 0x1_0000 && |e.data| < 0x1_0000
  }

  predicate Others(es: seq<Extension>) {
    forall i :: 0 <= i < |es| ==> OtherExtension(es[i])
  }

  function EncExtension(e: Extension, rest: Bytes): Bytes
    requires e.typ < 0x1_0000 && |e.data| < 0x1_0000
  {
    Enc16(e.typ) + Put16(e.data, rest)
  }

  function EncExtensions(es: seq<Extension>, rest: Bytes): Bytes
    requires Others(es)
  {
    if es == [] then rest else EncExtension(es[0], EncExtensions(es[1..], rest))
  }

  predicate NameFits(name: Bytes, otherNames: Bytes, slack: Bytes) {
    |name| < 0x1_0000 && 3 + |name| + |otherNames| < 0x1_0000 && 5 + |name| + |otherNames| + |slack| < 0x1_0000
  }

  function NameList(name: Bytes, otherNames: Bytes): (list: Bytes)
    requires |name| < 0x1_0000
    ensures |list| == 3 + |name| + |otherNames|
  {
    [HOST_NAME] + Put16(name, otherNames)
  }

  function NameData(name: Bytes, otherNames: Bytes, slack: Bytes): (data: Bytes)
    requires NameFits(name, otherNames, slack)
    ensures |data| == 5 + |name| + |otherNames| + |slack|
  {
    Put16(NameList(name, otherNames), slack)
  }

  function Block(h: Hello): Bytes
    requires NameFits(h.name, h.otherNames, h.slack)
    requires Others(h.before)
  {
    EncExtensions(h.before, EncExtension(Extension(SERVER_NAME, NameData(h.name, h.otherNames, h.slack)), h.after))
  }

  /** Every field fits behind its length prefix. */
  predicate WellFormed(h: Hello) {
    && OuterFits(h) && Others(h.before)
    && NameFits(h.name, h.otherNames, h.slack)
    && |Block(h)| < 0x1_0000
  }

  function Encode(h: Hello): Bytes
    requires WellFormed(h)
  {
    Framed(h, Block(h))
  }

  /** The fields around the extensions fit. */
  predicate OuterFits(h: Hello) {
    |h.version| == 2 && |h.random| == 32 && |h.session| < 256 && |h.ciphers| < 0x1_0000 && |h.compression| < 256
  }

  /** Any extension block, good or bad, inside the fields of a ClientHello. */
  function Framed(h: Hello, block: Bytes): Bytes
    requires OuterFits(h) && |block| < 0x1_0000
  {
    h.version + (h.random +
      Put8(h.session, Put16(h.ciphers, Put8(h.compression, Put16(block, h.tail)))))
  }

  // ---------- parsing what was encoded ----------

  lemma FirstNameEncoded(name: Bytes, otherNames: Bytes)
    requires |name| < 0x1_0000
    ensures FirstName(NameList(name, otherNames)) == Ok(name)
  {
    assert NameList(name, otherNames)[1..] == Put16(name, otherNames);
    Get16Put(name, otherNames, EntryTruncated, NameTruncated);
  }

  lemma NameEncoded(name: Bytes, otherNames: Bytes, slack: Bytes)
    requires NameFits(name, otherNames, slack)
    ensures NameOf(NameData(name, otherNames, slack)) == Ok(name)
  {
    var list := NameList(name, otherNames);
    Get16Put(list, slack, ListTooShort, ListTruncated);
    U16Enc(|list|, list + slack);
    FirstNameEncoded(name, otherNames);
  }

  lemma ExtensionEncoded(e: Extension, rest: Bytes)
    requires e.typ < 0x1_0000 && |e.data| < 0x1_0000
    ensures var b := EncExtension(e, rest);
            |b| >= 4 && U16(b) == e.typ && Get16(b[2..], SniNotFound, ExtensionTruncated) == Got(e.data, rest)
  {
    U16Enc(e.typ, Put16(e.data, rest));
    Get16Put(e.data, rest, SniNotFound, ExtensionTruncated);
  }

  lemma {:induction false} SkipsOthers(es: seq<Extension>, rest: Bytes)
    requires Others(es)
    ensures FindName(EncExtensions(es, rest)) == FindName(rest)
  {
    if es != [] {
      ExtensionEncoded(es[0], EncExtensions(es[1..], rest));
      SkipsOthers(es[1..], rest);
    }
  }

  lemma BlockEncoded(h: Hello)
    requires WellFormed(h)
    ensures |Block(h)| > 0 && FindName(Block(h)) == Ok(h.name)
  {
    var data := NameData(h.name, h.otherNames, h.slack);
    var own := Extension(SERVER_NAME, data);
    SkipsOthers(h.before, EncExtension(own, h.after));
    ExtensionEncoded(own, h.after);
    NameEncoded(h.name, h.otherNames, h.slack);
  }

  /** What the parser makes of a ClientHello is what it makes of its extension block. */
  lemma FramedParse(h: Hello, block: Bytes)
    requires OuterFits(h) && |block| < 0x1_0000
    ensures ServerName(Framed(h, block)) == if block == [] then Err(NoExtensions) else FindName(block)
  {
    var exts := Put16(block, h.tail);
    var comp := Put8(h.compression, exts);
    var ciph := Put16(h.ciphers, comp);
    var sess := Put8(h.session, ciph);
    TakePut(h.version, h.random + sess, NoVersion);
    TakePut(h.random, sess, NoRandom);
    Get8Put(h.session, ciph, NoSessionLength, SessionTruncated);
    Get16Put(h.ciphers, comp, NoCipherLength, CiphersTruncated);
    Get8Put(h.compression, exts, NoCompressionLength, CompressionTruncated);
    Get16Put(block, h.tail, NoExtensionsLength, ExtensionsTruncated);
    U16Enc(|block|, block + h.tail);
  }

  /** Round trip: the parser finds the name in every encoded ClientHello. */
  lemma ParseEncoded(h: Hello)
    requires WellFormed(h)
    ensures ServerName(Encode(h)) == Ok(h.name)
  {
    FramedParse(h, Block(h));
    BlockEncoded(h);
  }

  // ---------- byte by byte ----------

  lemma ShortVectors(v: Bytes, rest: Bytes)
    requires |v| < 256
    ensures Put8(v, rest) == [|v|] + (v + rest) && Put16(v, rest) == [0, |v|] + (v + rest)
  {
  }

  /** A small ClientHello for the server "a", as its fields. */
  function SmallHello(random: Bytes): Hello {
    Hello([3, 3], random, [], [0x13, 1], [0], [], [97], [], [], [], [])
  }

  /** Its bytes: the extension block, and the whole message. */
  function SmallBlock(): Bytes {
    [0, 0] + ([0, 6] + ([0, 4] + ([0] + ([0, 1] + [97]))))
  }

  function SmallBytes(random: Bytes): Bytes {
    [3, 3] + (random + ([0] + ([0, 2] + ([0x13, 1] + ([1] + ([0] + ([0, 10] + SmallBlock())))))))
  }

  lemma SmallBlockIsBlock(random: Bytes)
    ensures NameFits([97], [], []) && Others([])
    ensures Block(SmallHello(random)) == SmallBlock() && |SmallBlock()| == 10
  {
    ShortVectors([97], []);
    var name: Bytes := [97];
    assert name + [] == name;
    var list := NameList([97], []);
    assert list == [0] + ([0, 1] + [97]);
    ShortVectors(list, []);
    assert list + [] == list;
    ShortVectors(NameData([97], [], []), []);
    assert NameData([97], [], []) + [] == NameData([97], [], []);
    assert Enc16(0) == [0, 0];
  }

  /** These bytes are that message, so the parser finds "a" in them. */
  lemma SmallHelloBytes(random: Bytes)
    requires |random| == 32
    ensures WellFormed(SmallHello(random)) && Encode(SmallHello(random)) == SmallBytes(random)
    ensures ServerName(SmallBytes(random)) == Ok([97]) && |SmallBytes(random)| == 53
  {
    SmallBlockIsBlock(random);
    var h := SmallHello(random);
    var exts := Put16(SmallBlock(), []);
    var comp := Put8([0], exts);
    var ciph := Put16([0x13, 1], comp);
    ShortVectors(SmallBlock(), []);
    assert SmallBlock() + [] == SmallBlock();
    ShortVectors([0], exts);
    ShortVectors([0x13, 1], comp);
    ShortVectors([], ciph);
    assert [] + ciph == ciph;
    ParseEncoded(h);
  }

  // ---------- everything that parses was encoded ----------

  lemma FirstNameInverted(list: Bytes) returns (others: Bytes)
    requires FirstName(list).Ok?
    ensures var name := FirstName(list).name; |name| < 0x1_0000 && list == NameList(name, others)
  {
    var p := Get16(list[1..], EntryTruncated, NameTruncated);
    Put16Get(list[1..], EntryTruncated, NameTruncated);
    others := p.rest;
    assert list == [list[0]] + list[1..];
  }

  lemma NameInverted(data: Bytes) returns (others: Bytes, slack: Bytes)
    requires NameOf(data).Ok? && |data| < 0x1_0000
    ensures var name := NameOf(data).name;
            NameFits(name, others, slack) && data == NameData(name, others, slack)
  {
    var p := Get16(data, ListTooShort, ListTruncated);
    Put16Get(data, ListTooShort, ListTruncated);
    others := FirstNameInverted(p.v);
    slack := p.rest;
  }

  lemma ExtensionInverted(b: Bytes)
    requires |b| >= 4 && Get16(b[2..], SniNotFound, ExtensionTruncated).Got?
    ensures var p := Get16(b[2..], SniNotFound, ExtensionTruncated);
            |p.v| < 0x1_0000 && b == EncExtension(Extension(U16(b), p.v), p.rest) && |p.rest| < |b|
  {
    Put16Get(b[2..], SniNotFound, ExtensionTruncated);
    EncU16(b);
  }

  lemma EncCons(e: Extension, es: seq<Extension>, rest: Bytes)
    requires OtherExtension(e) && Others(es)
    ensures Others([e] + es) && EncExtensions([e] + es, rest) == EncExtension(e, EncExtensions(es, rest))
  {
    assert ([e] + es)[1..] == es;
  }

  lemma {:induction false} FindInverted(exts: Bytes)
    returns (before: seq<Extension>, others: Bytes, slack: Bytes, after: Bytes)
    requires FindName(exts).Ok?
    ensures Others(before)
    ensures var name := FindName(exts).name;
            && NameFits(name, others, slack)
            && exts == EncExtensions(before, EncExtension(Extension(SERVER_NAME, NameData(name, others, slack)), after))
    decreases |exts|
  {
    var p := Get16(exts[2..], SniNotFound, ExtensionTruncated);
    ExtensionInverted(exts);
    if U16(exts) == SERVER_NAME {
      before, after := [], p.rest;
      others, slack := NameInverted(p.v);
    } else {
      var more;
      more, others, slack, after := FindInverted(p.rest);
      var e := Extension(U16(exts), p.v);
      before := [e] + more;
      EncCons(e, more, EncExtension(Extension(SERVER_NAME, NameData(FindName(exts).name, others, slack)), after));
    }
  }

  lemma BlockInverted(b: Bytes) returns (block: Bytes, tail: Bytes)
    requires BlockName(b).Ok?
    ensures |block| < 0x1_0000 && b == Put16(block, tail) && FindName(block) == BlockName(b)
  {
    var x := Get16(b, NoExtensionsLength, ExtensionsTruncated);
    Put16Get(b, NoExtensionsLength, ExtensionsTruncated);
    block, tail := x.v, x.rest;
  }

  lemma VectorsInverted(b: Bytes) returns (session: Bytes, ciphers: Bytes, compression: Bytes, exts: Bytes)
    requires AfterRandom(b).Ok?
    ensures |session| < 256 && |ciphers| < 0x1_0000 && |compression| < 256
    ensures b == Put8(session, Put16(ciphers, Put8(compression, exts))) && BlockName(exts) == AfterRandom(b)
  {
    var s := Get8(b, NoSessionLength, SessionTruncated);
    Put8Get(b, NoSessionLength, SessionTruncated);
    var c := Get16(s.rest, NoCipherLength, CiphersTruncated);
    Put16Get(s.rest, NoCipherLength, CiphersTruncated);
    var m := Get8(c.rest, NoCompressionLength, CompressionTruncated);
    Put8Get(c.rest, NoCompressionLength, CompressionTruncated);
    session, ciphers, compression, exts := s.v, c.v, m.v, m.rest;
  }

  /** Inversion: whatever the parser accepts is a ClientHello with exactly the returned name. */
  lemma ParseInverted(b: Bytes) returns (h: Hello)
    requires ServerName(b).Ok?
    ensures WellFormed(h) && Encode(h) == b && h.name == ServerName(b).name
  {
    var v := Take(b, 2, NoVersion);
    var r := Take(v.rest, 32, NoRandom);
    assert b == v.v + (r.v + r.rest);
    var session, ciphers, compression, exts := VectorsInverted(r.rest);
    var block, tail := BlockInverted(exts);
    var before, others, slack, after := FindInverted(block);
    h := Hello(v.v, r.v, session, ciphers, compression, before, FindName(block).name, others, slack, after, tail);
    assert Block(h) == block;
  }

  /** The parser accepts b with name n if and only if b is the encoding of a ClientHello whose first server
      name entry is the host name n. */
  lemma AcceptsExactlyEncodings(b: Bytes, n: Bytes)
    ensures ServerName(b) == Ok(n) <==> exists h :: WellFormed(h) && h.name == n && Encode(h) == b
  {
    if ServerName(b) == Ok(n) {
      var h := ParseInverted(b);
      assert WellFormed(h) && h.name == n && Encode(h) == b;
    }
    if h :| WellFormed(h) && h.name == n && Encode(h) == b {
      ParseEncoded(h);
    }
  }

  // ---------- stability ----------

  lemma PutAppend(v: Bytes, rest: Bytes, extra: Bytes)
    ensures |v| < 256 ==> Put8(v, rest + extra) == Put8(v, rest) + extra
    ensures |v| < 0x1_0000 ==> Put16(v, rest + extra) == Put16(v, rest) + extra
    ensures v + (rest + extra) == v + rest + extra
  {
  }

  lemma TailGrows(h: Hello, extra: Bytes)
    requires WellFormed(h)
    ensures WellFormed(h.(tail := h.tail + extra)) && Encode(h.(tail := h.tail + extra)) == Encode(h) + extra
  {
    var exts := Put16(Block(h), h.tail);
    var comp := Put8(h.compression, exts);
    var ciph := Put16(h.ciphers, comp);
    var sess := Put8(h.session, ciph);
    PutAppend(Block(h), h.tail, extra);
    PutAppend(h.compression, exts, extra);
    PutAppend(h.ciphers, comp, extra);
    PutAppend(h.session, ciph, extra);
    PutAppend(h.random, sess, extra);
    PutAppend(h.version, h.random + sess, extra);
  }

  /** An accepted ClientHello keeps its name whatever bytes are appended to it. */
  lemma AppendingIsHarmless(b: Bytes, extra: Bytes)
    requires ServerName(b).Ok?
    ensures ServerName(b + extra) == ServerName(b)
  {
    var h := ParseInverted(b);
    TailGrows(h, extra);
    ParseEncoded(h.(tail := h.tail + extra));
  }

  lemma {:induction false} SameLengths(es: seq<Extension>, fs: seq<Extension>, rest: Bytes)
    requires |es| == |fs| && Others(es) && Others(fs)
    requires forall i :: 0 <= i < |es| ==> |es[i].data| == |fs[i].data|
    ensures |EncExtensions(es, rest)| == |EncExtensions(fs, rest)|
  {
    if es != [] {
      SameLengths(es[1..], fs[1..], rest);
    }
  }

  /** Nor do the contents of the other extensions matter, whether the message is accepted or rejected: whatever
      follows them in the block, replacing their types and bodies by others of the same lengths changes neither
      the parser's result, name or error, nor any length. */
  lemma OtherBodiesAreHarmless(h: Hello, es: seq<Extension>, fs: seq<Extension>, rest: Bytes)
    requires OuterFits(h) && Others(es) && |EncExtensions(es, rest)| < 0x1_0000
    requires |fs| == |es| && Others(fs) && forall i :: 0 <= i < |fs| ==> |es[i].data| == |fs[i].data|
    ensures |EncExtensions(fs, rest)| == |EncExtensions(es, rest)|
    ensures ServerName(Framed(h, EncExtensions(fs, rest))) == ServerName(Framed(h, EncExtensions(es, rest)))
  {
    SameLengths(es, fs, rest);
    FramedParse(h, EncExtensions(es, rest));
    FramedParse(h, EncExtensions(fs, rest));
    SkipsOthers(es, rest);
    SkipsOthers(fs, rest);
  }

  /** What follows the name extension in the block does not matter either: the result, name or error, is what
      the extension's own data give. */
  lemma LaterBytesAreHarmless(h: Hello, es: seq<Extension>, data: Bytes, after: Bytes)
    requires OuterFits(h) && Others(es) && |data| < 0x1_0000
    requires |EncExtensions(es, EncExtension(Extension(SERVER_NAME, data), after))| < 0x1_0000
    ensures ServerName(Framed(h, EncExtensions(es, EncExtension(Extension(SERVER_NAME, data), after)))) == NameOf(data)
  {
    var own := EncExtension(Extension(SERVER_NAME, data), after);
    FramedParse(h, EncExtensions(es, own));
    SkipsOthers(es, own);
    ExtensionEncoded(Extension(SERVER_NAME, data), after);
    NotEmptied(es, own);
  }

  lemma NotEmptied(es: seq<Extension>, rest: Bytes)
    requires Others(es) && rest != []
    ensures EncExtensions(es, rest) != []
  {
    if es != [] {
      ExtensionEncoded(es[0], EncExtensions(es[1..], rest));
    }
  }
}
