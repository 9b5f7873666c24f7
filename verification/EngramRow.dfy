/** What the bytes of one Engram row stand for: E4M3 codes with a power-of-two scale for every 32 of
    them, rounded to bfloat16 (ds4_engram.c). Floats are exact here, as integer multiples of 2^-149, the
    smallest positive float. */
module EngramRow {
  import opened Options
  import opened Bytes
  import opened Arith
  import opened Bits
  import opened EngramBatch

  const DIM: nat := 256
  const ROW_BYTES: nat := 264
  /** The low half of a float's bits, which bfloat16 does not have. */
  const HALF: nat := 0x1_0000
  /** The step from one binade to the next in a float's bits. */
  const BINADE: nat := 0x80_0000

  datatype Value = Value(negative: bool, units: nat)

  // ----- Codes ---------------------------------------------------------------------------

  /** The up to four significant bits of a code, and the power of two that they are scaled by. */
  function Significand(code: Byte): (s: nat)
    ensures s < 16
  {
    if code / 8 % 16 == 0 then code % 8 else 8 + code % 8
  }

  function Shift(code: Byte, scale: Byte): nat {
    if code / 8 % 16 == 0 then scale + 13 else code / 8 % 16 + scale + 12
  }

  /** The exact magnitude of a scaled code. */
  function Magnitude(code: Byte, scale: Byte): nat {
    Significand(code) * Pow2(Shift(code, scale))
  }

  /** Not a number in either byte, and no overflow to infinity, which begins at 2^128. */
  predicate CodeOk(code: Byte, scale: Byte) {
    code % 128 != 127 && scale != 255 && Magnitude(code, scale) < Pow2(277)
  }

  /** The values of the codes, in order: equal steps from zero through the first sixteen, and every further
      eight codes twice the eight before; the upper half of the codes repeats the lower; one more in the
      scale doubles. Code 56 at scale 127 is one. */
  lemma CodesInOrder(code: Byte, scale: Byte)
    ensures code % 128 < 16 ==> Magnitude(code, scale) == code % 128 * Pow2(scale + 13)
    ensures code % 128 >= 16 ==> Magnitude(code, scale) == 2 * Magnitude(code - 8, scale)
    ensures code >= 128 ==> Magnitude(code, scale) == Magnitude(code - 128, scale)
    ensures scale > 0 ==> Magnitude(code, scale) == 2 * Magnitude(code, scale - 1)
    ensures Magnitude(56, 127) == Pow2(149)
  {
    hide Significand, Shift, Pow2;
    var (high, e, m) := (code / 128, code % 128 / 8, code % 8);
    Fields(high, e, m);
    Scaled(code, scale, high, e, m);
    if e >= 2 {
      Fields(high, e - 1, m);
      Scaled(code - 8, scale, high, e - 1, m);
    }
    if high > 0 {
      Fields(0, e, m);
      Scaled(code - 128, scale, 0, e, m);
    }
    if scale > 0 {
      Scaled(code, scale - 1, high, e, m);
    }
    Fields(0, 7, 0);
    Scaled(56, 127, 0, 7, 0);
    Pow2Add(3, 146);
    SomePowers();
    assert Pow2(3) == 8 by { PowOf3(); }
  }

  lemma PowOf3()
    ensures Pow2(3) == 8
  {
  }

  lemma Fields(high: nat, e: nat, m: nat)
    requires high < 2 && e < 16 && m < 8
    ensures var code := 128 * high + 8 * e + m;
            code < 256 && code / 8 % 16 == e && code % 8 == m && code % 128 == 8 * e + m
  {
    var code := 128 * high + 8 * e + m;
    DivUnique(code, 8, 16 * high + e, m);
    DivUnique(16 * high + e, 16, high, e);
    DivUnique(code, 128, high, 8 * e + m);
  }

  /** One code by its fields, beside the one a power of two below. */
  lemma Scaled(code: Byte, scale: Byte, high: nat, e: nat, m: nat)
    requires code == 128 * high + 8 * e + m && code / 8 % 16 == e && code % 8 == m
    ensures e == 0 ==> Magnitude(code, scale) == m * Pow2(scale + 13)
    ensures e > 0 ==> Magnitude(code, scale) == (8 + m) * Pow2(e + scale + 12)
    ensures e > 1 ==> (8 + m) * Pow2(e + scale + 12) == 2 * ((8 + m) * Pow2(e - 1 + scale + 12))
    ensures scale > 0 ==> m * Pow2(scale + 13) == 2 * (m * Pow2(scale - 1 + 13))
    ensures scale > 0 ==> (8 + m) * Pow2(e + scale + 12) == 2 * ((8 + m) * Pow2(e + scale - 1 + 12))
  {
    Twice(8 + m, Pow2(e + scale + 11));
    Twice(m, Pow2(scale + 12));
  }

  // ----- Bits ----------------------------------------------------------------------------

  /** The bits of the float that is n units: the number itself up to the end of the first normal binade,
      and from there on every doubling is one step of the exponent. */
  function FloatBits(n: nat): nat {
    if n < 2 * BINADE then n else FloatBits(n / 2) + BINADE
  }

  function Units(bits: nat): nat {
    if bits < 2 * BINADE then bits else 2 * Units(bits - BINADE)
  }

  /** The program's rounding of bits: half of what is cut off is added first, less one unless the last
      remaining bit is odd. */
  function RoundBits(bits: nat): nat {
    (bits + 0x7FFF + bits / HALF % 2) / HALF * HALF
  }

  /** r is the multiple of HALF closest to n, the even one of two. */
  predicate Nearest(n: nat, r: nat) {
    && r % HALF == 0 && n - 0x8000 <= r <= n + 0x8000
    && (r == n - 0x8000 || r == n + 0x8000 ==> r / HALF % 2 == 0)
  }

  lemma RoundIsNearest(n: nat)
    ensures Nearest(n, RoundBits(n))
    ensures n % HALF == 0 ==> RoundBits(n) == n
  {
    var q, d := n / HALF, n % HALF;
    DivMod(n, HALF);
    var up := if d + 0x7FFF + q % 2 >= HALF then 1 else 0;
    DivUnique(n + 0x7FFF + q % 2, HALF, q + up, d + 0x7FFF + q % 2 - up * HALF);
    DivUnique((q + up) * HALF, HALF, q + up, 0);
  }

  /** A short significand with all its trailing zeros keeps them in its bits. */
  lemma {:induction false} BitsOfScaled(s: nat, k: nat)
    requires s < 16 && k >= 16
    ensures s * Pow2(k) % HALF == 0
    ensures FloatBits(s * Pow2(k)) % HALF == 0 && Units(FloatBits(s * Pow2(k))) == s * Pow2(k)
    decreases k
  {
    var n := s * Pow2(k);
    if k == 16 {
      SomePowers();
      DivUnique(s * HALF, HALF, s, 0);
    } else {
      var half := s * Pow2(k - 1);
      BitsOfScaled(s, k - 1);
      assert n == 2 * half;
      DivMod(half, HALF);
      DivUnique(n, HALF, 2 * (half / HALF), 0);
      if n >= 2 * BINADE {
        DoubledBits(half);
      }
    }
  }

  /** Doubling a number that is large enough only moves its exponent. */
  lemma DoubledBits(half: nat)
    requires half >= BINADE && FloatBits(half) % HALF == 0 && Units(FloatBits(half)) == half
    ensures FloatBits(2 * half) % HALF == 0 && Units(FloatBits(2 * half)) == 2 * half
  {
    BitsGrow(half);
    DivMod(FloatBits(half), HALF);
    DivUnique(FloatBits(half) + BINADE, HALF, FloatBits(half) / HALF + 128, 0);
  }

  lemma {:induction false} BitsGrow(n: nat)
    ensures n >= BINADE ==> FloatBits(n) >= BINADE
  {
    if n >= 2 * BINADE {
      BitsGrow(n / 2);
    }
  }

  /** What the program makes of a scaled code. */
  function Decoded(code: Byte, scale: Byte): Value {
    Value(code >= 128, Units(RoundBits(FloatBits(Magnitude(code, scale)))))
  }

  /** The trick on the bits rounds the exact value to the nearest multiple of 2^-133, ties to even, and
      anything that is such a multiple already stays as it is: every value with a scale above two. */
  lemma DecodedIsNearest(code: Byte, scale: Byte)
    ensures Nearest(Magnitude(code, scale), Decoded(code, scale).units)
    ensures Magnitude(code, scale) % HALF == 0 ==> Decoded(code, scale).units == Magnitude(code, scale)
    ensures scale > 2 ==> Magnitude(code, scale) % HALF == 0
    ensures Decoded(code, scale).negative <==> code >= 128
  {
    hide Units, FloatBits, Pow2, RoundBits;
    var s, k := Significand(code), Shift(code, scale);
    var n := Magnitude(code, scale);
    if k >= 16 {
      BitsOfScaled(s, k);
      RoundIsNearest(FloatBits(n));
      RoundIsNearest(n);
    } else {
      Pow2Mono(k, 16);
      SomePowers();
      MulMono(s, 15, Pow2(k));
      RoundIsNearest(n);
      SmallBits(n);
      SmallBits(RoundBits(n));
    }
  }

  lemma SmallBits(n: nat)
    requires n < 2 * BINADE
    ensures FloatBits(n) == n && Units(n) == n
  {
  }

  // ----- A row ---------------------------------------------------------------------------

  predicate RowOk(raw: seq<Byte>)
    requires |raw| == ROW_BYTES
  {
    forall j :: 0 <= j < DIM ==> CodeOk(raw[j], raw[DIM + j / 32])
  }

  function DecodedRow(raw: seq<Byte>): Option<seq<Value>>
    requires |raw| == ROW_BYTES
  {
    if RowOk(raw) then Some(seq(DIM, j requires 0 <= j < DIM => Decoded(raw[j], raw[DIM + j / 32]))) else None
  }

  /** The inner loop of ds4_engram_read. */
  method DecodeRow(raw: seq<Byte>) returns (out: Option<seq<Value>>)
    requires |raw| == ROW_BYTES
    ensures out == DecodedRow(raw)
    ensures out.Some? <==>
      forall j :: 0 <= j < 256 ==>
        && raw[j] % 128 != 127 && raw[256 + j / 32] != 255
        && Magnitude(raw[j], raw[256 + j / 32]) < Pow2(277)
    ensures out.Some? ==> |out.value| == 256 && forall j :: 0 <= j < 256 ==> out.value[j] == Decoded(raw[j], raw[256 + j / 32])
  {
    hide Decoded, Magnitude, Pow2;
    var values: seq<Value> := [];
    for j := 0 to DIM
      invariant |values| == j
      invariant forall i :: 0 <= i < j ==> CodeOk(raw[i], raw[DIM + i / 32])
      invariant forall i :: 0 <= i < j ==> values[i] == Decoded(raw[i], raw[DIM + i / 32])
    {
      var code, scale := raw[j], raw[DIM + j / 32];
      if !CodeOk(code, scale) {
        return None;
      }
      values := values + [Decoded(code, scale)];
    }
    assert values == seq(DIM, j requires 0 <= j < DIM => Decoded(raw[j], raw[DIM + j / 32]));
    return Some(values);
  }

  /** The table of a file whose rows have these bytes, where they can be read. */
  function FileTable(rows: nat, raw: Word32 -> Option<seq<Byte>>): Table<seq<Value>>
  {
    Table(rows, (row: Word32) =>
      if raw(row).Some? && |raw(row).value| == ROW_BYTES then DecodedRow(raw(row).value) else None)
  }
}
