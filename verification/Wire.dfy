/** Bytes and big-endian numbers. */
module Wire {

  type Byte = b: int | 0 <= b < 256
  type Bytes = seq<Byte>

  function Digit(n: nat, weight: nat): Byte
    requires weight > 0
  {
    var d: int := n / weight % 256;
    d
  }

  function Enc16(n: nat): (b: Bytes)
    requires n < 0x1_0000
    ensures |b| == 2
  {
    [Digit(n, 256), Digit(n, 1)]
  }

  function U16(b: Bytes): (n: nat)
    requires |b| >= 2
    ensures n < 0x1_0000
  {
    b[0] as int * 256 + b[1] as int
  }

  function Enc24(n: nat): (b: Bytes)
    requires n < 0x100_0000
    ensures |b| == 3
  {
    [Digit(n, 0x1_0000), Digit(n, 256), Digit(n, 1)]
  }

  /** Fewer than three bytes read as zero. */
  function U24(b: Bytes): nat {
    if |b| < 3 then 0 else b[0] as int * 0x1_0000 + b[1] as int * 256 + b[2] as int
  }

  lemma Digits(hi: Byte, lo: Byte)
    ensures Digit(hi as int * 256 + lo as int, 256) == hi && Digit(hi as int * 256 + lo as int, 1) == lo
  {
  }

  lemma U16Enc(n: nat, rest: Bytes)
    requires n < 0x1_0000
    ensures U16(Enc16(n) + rest) == n && (Enc16(n) + rest)[2..] == rest
  {
  }

  lemma EncU16(b: Bytes)
    requires |b| >= 2
    ensures Enc16(U16(b)) == b[..2] && Enc16(U16(b)) + b[2..] == b
  {
    Digits(b[0], b[1]);
    assert b[..2] + b[2..] == b;
  }

  /** The most significant byte comes first: numbers are ordered as their bytes are. */
  lemma BigEndian(a: Bytes, b: Bytes)
    requires |a| >= 3 && |b| >= 3
    ensures U16(a) < U16(b) <==> a[0] < b[0] || (a[0] == b[0] && a[1] < b[1])
    ensures U24(a) < U24(b) <==> a[0] < b[0] || (a[0] == b[0] && (a[1] < b[1] || (a[1] == b[1] && a[2] < b[2])))
    ensures U16(a) < 0x1_0000 && U24(a) < 0x100_0000
  {
  }

  lemma U24Enc(n: nat)
    requires n < 0x100_0000
    ensures U24(Enc24(n)) == n
  {
  }

  lemma EncU24(b: Bytes)
    requires |b| == 3 && U24(b) < 0x1_0000
    ensures Enc24(U24(b)) == b
  {
    Digits(b[1], b[2]);
    assert b[0] == 0;
  }
}
