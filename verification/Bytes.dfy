/** Byte strings and the fixed-width big-endian encodings the components hash. */
module Bytes {

  type Byte = b: int | 0 <= b < 256
  type Bytes = seq<Byte>

  const U64_RANGE: nat := 0x1_0000_0000_0000_0000
  const U128_RANGE: nat := 0x1_0000_0000_0000_0000_0000_0000_0000_0000
  const I64_MAX: int := 0x7FFF_FFFF_FFFF_FFFF
  const I64_MIN: int := -0x8000_0000_0000_0000

  type I64 = n: int | I64_MIN <= n <= I64_MAX
  /** A UUID, ordered as Postgres orders it: by its 16 bytes, most significant first. */
  type Uuid = n: nat | n < U128_RANGE

  /** The bytes of plain text. */
  function Ascii(text: string): Bytes {
    seq(|text|, i requires 0 <= i < |text| => if text[i] < 128 as char then text[i] as int else 0)
  }

  function Pow256(k: nat): nat {
    if k == 0 then 1 else 256 * Pow256(k - 1)
  }

  /** The `k`-byte big-endian encoding of `n`. */
  function BigEndian(n: nat, k: nat): (bytes: Bytes)
    requires n < Pow256(k)
    ensures |bytes| == k
  {
    if k == 0 then [] else BigEndian(n / 256, k - 1) + [n % 256]
  }

  function FromBigEndian(bytes: Bytes): nat {
    if bytes == [] then 0
    else FromBigEndian(bytes[..|bytes| - 1]) * 256 + bytes[|bytes| - 1]
  }

  lemma {:induction false} BigEndianRoundTrip(n: nat, k: nat)
    requires n < Pow256(k)
    ensures FromBigEndian(BigEndian(n, k)) == n
  {
    if k > 0 {
      BigEndianRoundTrip(n / 256, k - 1);
      var bytes := BigEndian(n, k);
      assert bytes[..k - 1] == BigEndian(n / 256, k - 1);
    }
  }

  /** The most significant byte comes first. */
  lemma BigEndianOrder(high: Byte, low: Byte)
    ensures 256 * high + low < Pow256(2) && BigEndian(256 * high + low, 2) == [high, low]
  {
    assert Pow256(1) == 256 && Pow256(2) == 65536;
    assert BigEndian(high, 1) == [high] && (256 * high + low) / 256 == high && (256 * high + low) % 256 == low;
  }

  lemma Pow256At16()
    ensures Pow256(16) == U128_RANGE
  {
    assert Pow256(8) == U64_RANGE;
    assert Pow256(12) == 0x1_0000_0000_0000_0000_0000_0000;
  }

  function U64Bytes(n: nat): (bytes: Bytes)
    requires n < U64_RANGE
    ensures |bytes| == 8
  {
    assert Pow256(8) == U64_RANGE;
    BigEndian(n, 8)
  }

  /** Two's complement, most significant byte first. */
  function I64Bytes(n: I64): (bytes: Bytes)
    ensures |bytes| == 8
  {
    U64Bytes(if n >= 0 then n else n + U64_RANGE)
  }

  function UuidBytes(n: Uuid): (bytes: Bytes)
    ensures |bytes| == 16
  {
    Pow256At16();
    BigEndian(n, 16)
  }

  /** The number eight bytes stand for in two's complement. */
  function FromTwosComplement(bytes: Bytes): int {
    var n := FromBigEndian(bytes);
    if n <= I64_MAX then n else n - U64_RANGE
  }

  lemma FixedWidthRoundTrip(n: nat, signed: I64, id: Uuid)
    requires n < U64_RANGE
    ensures FromBigEndian(U64Bytes(n)) == n && FromTwosComplement(I64Bytes(signed)) == signed
    ensures FromBigEndian(UuidBytes(id)) == id
  {
    assert Pow256(8) == U64_RANGE;
    Pow256At16();
    BigEndianRoundTrip(n, 8);
    BigEndianRoundTrip(if signed >= 0 then signed else signed + U64_RANGE, 8);
    BigEndianRoundTrip(id, 16);
  }

  lemma U64BytesInjective(m: nat, n: nat)
    requires m < U64_RANGE && n < U64_RANGE
    requires U64Bytes(m) == U64Bytes(n)
    ensures m == n
  {
    FixedWidthRoundTrip(m, 0, 0);
    FixedWidthRoundTrip(n, 0, 0);
  }

  lemma I64BytesInjective(m: I64, n: I64)
    requires I64Bytes(m) == I64Bytes(n)
    ensures m == n
  {
    FixedWidthRoundTrip(0, m, 0);
    FixedWidthRoundTrip(0, n, 0);
  }

  lemma UuidBytesInjective(m: Uuid, n: Uuid)
    requires UuidBytes(m) == UuidBytes(n)
    ensures m == n
  {
    FixedWidthRoundTrip(0, 0, m);
    FixedWidthRoundTrip(0, 0, n);
  }

  /** Two concatenations that agree, with first parts of one length, agree part by part. */
  lemma SplitEqual<T>(a: seq<T>, x: seq<T>, b: seq<T>, y: seq<T>)
    requires |a| == |b|
    requires a + x == b + y
    ensures a == b && x == y
  {
    assert a == (a + x)[..|a|] && b == (b + y)[..|b|];
    assert x == (a + x)[|a|..] && y == (b + y)[|b|..];
  }

  /** The same for a one-element tag followed by two parts. */
  lemma TaggedEqual<T>(t: T, p: seq<T>, x: seq<T>, u: T, q: seq<T>, y: seq<T>)
    requires ([t] + p) + x == ([u] + q) + y
    ensures t == u && p + x == q + y
  {
    assert ([t] + p) + x == [t] + (p + x);
    assert ([u] + q) + y == [u] + (q + y);
    SplitEqual([t], p + x, [u], q + y);
  }
}
