/** Byte strings, their lexicographic order (the key order of the store),
    big-endian integers and the 16-byte identifiers used in every key. */
module ByteStrings {
  type Byte = b: int | 0 <= b < 256
  type Bytes = seq<Byte>

  const U16_LIMIT: int := 0x1_0000
  const U32_LIMIT: int := 0x1_0000_0000
  const U64_LIMIT: int := 0x1_0000_0000_0000_0000

  type U64 = n: int | 0 <= n < U64_LIMIT

  const U128_LIMIT: int := 0x1_0000_0000_0000_0000_0000_0000_0000_0000

  /** A 128-bit identifier; zero is the nil identifier. */
  type Uuid = n: int | 0 <= n < U128_LIMIT

  const NIL: Uuid := 0

  // ---------------------------------------------------------------- order

  /** Strict lexicographic order. */
  predicate Less(a: Bytes, b: Bytes) {
    b != [] && (a == [] || a[0] < b[0] || (a[0] == b[0] && Less(a[1..], b[1..])))
  }

  predicate AtMost(a: Bytes, b: Bytes) {
    a == b || Less(a, b)
  }

  lemma {:induction false} LessIrreflexive(a: Bytes)
    ensures !Less(a, a)
  {
    if a != [] {
      LessIrreflexive(a[1..]);
    }
  }

  lemma {:induction false} LessTransitive(a: Bytes, b: Bytes, c: Bytes)
    requires Less(a, b) && Less(b, c)
    ensures Less(a, c)
  {
    if a != [] && a[0] == b[0] == c[0] {
      LessTransitive(a[1..], b[1..], c[1..]);
    }
  }

  lemma {:induction false} LessTotal(a: Bytes, b: Bytes)
    ensures a == b || Less(a, b) || Less(b, a)
  {
    if a != [] && b != [] && a[0] == b[0] {
      LessTotal(a[1..], b[1..]);
      assert a == [a[0]] + a[1..] && b == [b[0]] + b[1..];
    }
  }

  lemma LessAsymmetric(a: Bytes, b: Bytes)
    requires Less(a, b)
    ensures !Less(b, a) && a != b
  {
    LessIrreflexive(a);
    if Less(b, a) {
      LessTransitive(a, b, a);
    }
  }

  /** A common prefix does not affect the order. */
  lemma {:induction false} LessAfterPrefix(p: Bytes, a: Bytes, b: Bytes)
    ensures Less(p + a, p + b) <==> Less(a, b)
  {
    if p == [] {
      assert p + a == a && p + b == b;
    } else {
      assert (p + a)[1..] == p[1..] + a && (p + b)[1..] == p[1..] + b;
      LessAfterPrefix(p[1..], a, b);
    }
  }

  // ------------------------------------------------------ big-endian numbers

  function Pow256(width: nat): (r: nat)
    ensures r >= 1
  {
    if width == 0 then 1 else 256 * Pow256(width - 1)
  }

  lemma PowerTable()
    ensures Pow256(1) == 256
    ensures Pow256(2) == U16_LIMIT
    ensures Pow256(4) == U32_LIMIT
    ensures Pow256(8) == U64_LIMIT
    ensures Pow256(16) == U128_LIMIT
  {
    assert Pow256(2) == 65536;
    assert Pow256(4) == 256 * (256 * Pow256(2));
    assert Pow256(6) == 256 * (256 * Pow256(4));
    assert Pow256(8) == 256 * (256 * Pow256(6));
    assert Pow256(12) == 256 * (256 * (256 * (256 * Pow256(8))));
    assert Pow256(16) == 256 * (256 * (256 * (256 * Pow256(12))));
  }

  /** The `width` low bytes of `n`, most significant first. */
  function BigEndian(n: nat, width: nat): (r: Bytes)
    ensures |r| == width
  {
    if width == 0 then [] else BigEndian(n / 256, width - 1) + [n % 256]
  }

  /** The number a big-endian byte string denotes. */
  function Number(b: Bytes): nat {
    if b == [] then 0 else 256 * Number(b[..|b| - 1]) + b[|b| - 1]
  }

  lemma {:induction false} NumberOfBigEndian(n: nat, width: nat)
    requires n < Pow256(width)
    ensures Number(BigEndian(n, width)) == n
  {
    if width > 0 {
      NumberOfBigEndian(n / 256, width - 1);
      var b := BigEndian(n, width);
      assert b[..|b| - 1] == BigEndian(n / 256, width - 1);
    }
  }

  lemma {:induction false} BigEndianOfNumber(b: Bytes)
    ensures Number(b) < Pow256(|b|)
    ensures BigEndian(Number(b), |b|) == b
  {
    if b != [] {
      BigEndianOfNumber(b[..|b| - 1]);
      assert b == b[..|b| - 1] + [b[|b| - 1]];
    }
  }

  /** The eight-byte form of a 64-bit number. */
  function EncodeU64(n: U64): (r: Bytes)
    ensures |r| == 8
  {
    BigEndian(n, 8)
  }

  /** Reading back an eight-byte field. */
  function DecodeU64(b: Bytes): (n: U64)
    requires |b| == 8
  {
    PowerTable();
    BigEndianOfNumber(b);
    Number(b)
  }

  lemma U64RoundTrip(n: U64)
    ensures DecodeU64(EncodeU64(n)) == n
  {
    PowerTable();
    NumberOfBigEndian(n, 8);
  }

  lemma U64Canonical(b: Bytes)
    requires |b| == 8
    ensures EncodeU64(DecodeU64(b)) == b
  {
    BigEndianOfNumber(b);
  }

  /** The sixteen-byte form of an identifier. */
  function Id(u: Uuid): (r: Bytes)
    ensures |r| == 16
  {
    BigEndian(u, 16)
  }

  function DecodeId(b: Bytes): (u: Uuid)
    requires |b| == 16
  {
    PowerTable();
    BigEndianOfNumber(b);
    Number(b)
  }

  lemma IdRoundTrip(u: Uuid)
    ensures DecodeId(Id(u)) == u
  {
    PowerTable();
    NumberOfBigEndian(u, 16);
  }

  lemma IdCanonical(b: Bytes)
    requires |b| == 16
    ensures Id(DecodeId(b)) == b
  {
    BigEndianOfNumber(b);
  }

  // ------------------------------------------------------ splitting fields

  lemma SplitEqual(a: Bytes, b: Bytes, x: Bytes, y: Bytes)
    requires |a| == |b| && a + x == b + y
    ensures a == b && x == y
  {
    assert a == (a + x)[..|a|] && b == (b + y)[..|b|];
    assert x == (a + x)[|a|..] && y == (b + y)[|b|..];
  }

  lemma U64Splits(a: U64, b: U64, x: Bytes, y: Bytes)
    requires EncodeU64(a) + x == EncodeU64(b) + y
    ensures a == b && x == y
  {
    SplitEqual(EncodeU64(a), EncodeU64(b), x, y);
    U64RoundTrip(a);
    U64RoundTrip(b);
  }

  lemma IdSplits(a: Uuid, b: Uuid, x: Bytes, y: Bytes)
    requires Id(a) + x == Id(b) + y
    ensures a == b && x == y
  {
    SplitEqual(Id(a), Id(b), x, y);
    IdRoundTrip(a);
    IdRoundTrip(b);
  }
}
