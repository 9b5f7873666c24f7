/** Bytes, 32-bit and 64-bit words, and the big-endian words the distributed frames are made of
    (ds4_distributed.c). */
module Bytes {
  import opened Arith

  type Byte = x: nat | x < 0x100
  type Word32 = x: nat | x < TWO_32
  type Word64 = x: nat | x <= U64_MAX

  const WORD_MAX: nat := 0xFFFF_FFFF
  const TWO_32: nat := 0x1_0000_0000
  const TWO_64: nat := 0x1_0000_0000_0000_0000
  const U64_MAX: nat := 0xFFFF_FFFF_FFFF_FFFF

  /** The number whose base-256 digits are a, b, c and d. */
  function Join(a: nat, b: nat, c: nat, d: nat): nat {
    a * 0x100_0000 + b * 0x1_0000 + c * 0x100 + d
  }

  function BigEndian(x: Word32): (b: seq<Byte>)
    ensures |b| == 4
  {
    [x / 0x100_0000, x / 0x1_0000 % 0x100, x / 0x100 % 0x100, x % 0x100]
  }

  function WordAt(b: seq<Byte>, at: nat): Word32
    requires at + 4 <= |b|
  {
    Join(b[at], b[at + 1], b[at + 2], b[at + 3])
  }

  /** The four bytes at position at are the number x, the most significant one first. */
  predicate HoldsBig(b: seq<Byte>, at: nat, x: nat) {
    at + 4 <= |b| && x == (b[at] as nat) * 0x100_0000 + (b[at + 1] as nat) * 0x1_0000 + (b[at + 2] as nat) * 0x100 + (b[at + 3] as nat)
  }

  /** The same with the least significant byte first. */
  predicate HoldsLittle(b: seq<Byte>, at: nat, x: nat) {
    at + 4 <= |b| && x == (b[at] as nat) + (b[at + 1] as nat) * 0x100 + (b[at + 2] as nat) * 0x1_0000 + (b[at + 3] as nat) * 0x100_0000
  }

  lemma JoinDigits(x: Word32)
    ensures Join(x / 0x100_0000, x / 0x1_0000 % 0x100, x / 0x100 % 0x100, x % 0x100) == x
  {
    assert x / 0x1_0000 / 0x100 == x / 0x100_0000;
    assert x / 0x100 / 0x100 == x / 0x1_0000;
  }

  lemma DigitsOfJoin(a: Byte, b: Byte, c: Byte, d: Byte)
    ensures BigEndian(Join(a, b, c, d)) == [a, b, c, d]
  {
    var x := Join(a, b, c, d);
    var ab: nat := a * 0x100 + b;
    var abc: nat := ab * 0x100 + c;
    DivUnique(x, 0x100, abc, d);
    DivUnique(x, 0x1_0000, ab, c * 0x100 + d);
    DivUnique(x, 0x100_0000, a, b * 0x1_0000 + c * 0x100 + d);
    DivUnique(abc, 0x100, ab, c);
    DivUnique(ab, 0x100, a, b);
  }

  /** A word survives the wire, wherever it stands. */
  lemma WordRoundTrip(x: Word32, b: seq<Byte>, at: nat)
    requires at + 4 <= |b| && b[at..at + 4] == BigEndian(x)
    ensures WordAt(b, at) == x
  {
    var w := b[at..at + 4];
    assert WordAt(b, at) == Join(w[0], w[1], w[2], w[3]);
    JoinDigits(x);
  }

  lemma WordIsHeld(b: seq<Byte>, at: nat)
    requires at + 4 <= |b|
    ensures HoldsBig(b, at, WordAt(b, at))
  {
  }

  lemma EncodedHolds(x: Word32, b: seq<Byte>, at: nat)
    requires at + 4 <= |b| && b[at..at + 4] == BigEndian(x)
    ensures HoldsBig(b, at, x)
  {
    var w := b[at..at + 4];
    assert b[at] == w[0] && b[at + 1] == w[1] && b[at + 2] == w[2] && b[at + 3] == w[3];
    JoinDigits(x);
  }

  /** Four bytes are the encoding of the word they hold. */
  lemma WordIsEncoded(b: seq<Byte>, at: nat)
    requires at + 4 <= |b|
    ensures b[at..at + 4] == BigEndian(WordAt(b, at))
  {
    DigitsOfJoin(b[at], b[at + 1], b[at + 2], b[at + 3]);
  }
}
