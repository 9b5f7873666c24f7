/** The token-prefix hash that coordinator and workers exchange (ds4_distributed.c). It folds
    the four little-endian bytes of every token into a 64-bit word with xor and a wrapping
    multiplication. Everything that only compares hashes is stated for an arbitrary Hasher;
    TOKEN_HASH is the one the program uses. */
module TokenHash {
  import opened Arith
  import opened Bits
  import opened Bytes

  const PRIME := 1099511628211

  /** A hash that is folded over tokens one by one. */
  datatype Hasher = Hasher(init: Word64, step: (Word64, int) -> Word64) {

    function Span(h: Word64, tokens: seq<int>): Word64
      decreases |tokens|
    {
      if tokens == [] then h else Span(step(h, tokens[0]), tokens[1..])
    }

    function Prefix(tokens: seq<int>): Word64 {
      Span(init, tokens)
    }

    /** Hashing a prefix and then a span is hashing the longer prefix, so a result hash is the
        prefix hash of the next chunk. */
    lemma {:induction false} SpanAppend(h: Word64, a: seq<int>, b: seq<int>)
      ensures Span(h, a + b) == Span(Span(h, a), b)
      decreases |a|
    {
      if a == [] {
        assert a + b == b;
      } else {
        assert (a + b)[1..] == a[1..] + b;
        SpanAppend(step(h, a[0]), a[1..], b);
      }
    }

    /** The fold itself, from either end. */
    lemma SpanSteps(h: Word64, tokens: seq<int>, t: int)
      ensures Prefix([]) == init && Span(h, []) == h
      ensures Span(h, tokens + [t]) == step(Span(h, tokens), t)
    {
      SpanAppend(h, tokens, [t]);
      assert [t][1..] == [];
      assert Span(step(Span(h, tokens), t), []) == step(Span(h, tokens), t);
    }

    lemma PrefixAppend(a: seq<int>, b: seq<int>)
      ensures Prefix(a + b) == Span(Prefix(a), b)
    {
      SpanAppend(init, a, b);
    }

    /** dist_token_hash_update_span: the loop over the tokens of a span. */
    method ComputeSpan(h0: Word64, tokens: seq<int>) returns (h: Word64)
      ensures h == Span(h0, tokens)
    {
      h := h0;
      for i := 0 to |tokens|
        invariant h == Span(h0, tokens[..i])
      {
        assert tokens[..i + 1] == tokens[..i] + [tokens[i]];
        SpanAppend(h0, tokens[..i], [tokens[i]]);
        h := step(h, tokens[i]);
      }
      assert tokens[..|tokens|] == tokens;
    }
  }

  /** A C int token viewed as uint32_t. */
  function AsU32(token: int): (r: nat)
    ensures r < TWO_32
  {
    token % TWO_32
  }

  /** One turn of the byte loop: xor with the byte, and a product that wraps at 64 bits. */
  function UpdateByte(h: Word64, b: int): Word64 {
    Xor64(h, b % 256) * PRIME % TWO_64
  }

  /** A byte of a token flips those bits of the word that are set in it, and then the word is multiplied. */
  lemma UpdateFlipsBits(h: Word64, b: Byte) returns (x: Word64)
    ensures forall k :: 0 <= k < 64 ==> Bit(x, k) == (Bit(h, k) + Bit(b, k)) % 2
    ensures UpdateByte(h, b) == x * 1099511628211 % 0x1_0000_0000_0000_0000
  {
    hide Bit, Xor;
    x := Xor64(h, b);
    forall k | 0 <= k < 64
      ensures Bit(x, k) == (Bit(h, k) + Bit(b, k)) % 2
    {
      BitOfXor(h, b, k);
    }
  }

  function LowBytes(t: nat, n: nat): (bytes: seq<int>)
    ensures |bytes| == n
  {
    if n == 0 then [] else [t % 256] + LowBytes(t / 256, n - 1)
  }

  /** A token is hashed as its four bytes, low byte first. */
  const BYTE_HASH := Hasher(1469598103934665603, UpdateByte)
  const TOKEN_HASH := Hasher(1469598103934665603, (h, token) => BYTE_HASH.Span(h, LowBytes(AsU32(token), 4)))

  /** dist_token_hash_update: the loop over the four bytes of one token. */
  method ComputeUpdate(h0: Word64, token: int) returns (h: Word64)
    ensures h == TOKEN_HASH.step(h0, token)
  {
    h := h0;
    var t := AsU32(token);
    for i := 0 to 4
      invariant 0 <= t && BYTE_HASH.Span(h, LowBytes(t, 4 - i)) == TOKEN_HASH.step(h0, token)
    {
      ghost var rest := LowBytes(t, 4 - i);
      assert rest[0] == t % 256 && rest[1..] == LowBytes(t / 256, 4 - i - 1);
      h := BYTE_HASH.step(h, t % 256);
      t := t / 256;
    }
  }

  lemma XorSeven(q: nat)
    ensures Xor(8 * q + 3, 7) == 8 * q + 4
  {
    assert (8 * q + 3) / 2 == 4 * q + 1 && (4 * q + 1) / 2 == 2 * q && 2 * q / 2 == q;
    assert Xor(8 * q + 3, 7) == 2 * Xor(4 * q + 1, 3);
    assert Xor(4 * q + 1, 3) == 2 * Xor(2 * q, 1);
    assert Xor(2 * q, 1) == 1 + 2 * Xor(q, 0);
    XorZero(q);
  }

  lemma FirstByteOfSeven()
    ensures BYTE_HASH.step(1469598103934665603, 7) == 4953164456164915532
  {
    hide Xor;
    XorSeven(183699762991833200);
    DivUnique(1469598103934665604 * PRIME, TWO_64, 87594872982, 4953164456164915532);
  }

  lemma LastBytesOfSeven()
    ensures BYTE_HASH.step(4953164456164915532, 0) == 11127401823542680612
    ensures BYTE_HASH.step(11127401823542680612, 0) == 12821115160793600300
    ensures BYTE_HASH.step(12821115160793600300, 0) == 15082259009183935940
  {
    hide Xor;
    XorZero(4953164456164915532);
    XorZero(11127401823542680612);
    XorZero(12821115160793600300);
  }

  /** The four bytes that are folded in are those of the token as a 32-bit word, lowest first. */
  lemma BytesOfToken(token: int)
    ensures var b := LowBytes(AsU32(token), 4);
            && |b| == 4 && (forall k :: 0 <= k < 4 ==> 0 <= b[k] < 256)
            && b[0] + b[1] * 0x100 + b[2] * 0x1_0000 + b[3] * 0x100_0000 == token % 0x1_0000_0000
  {
    var t := AsU32(token);
    assert LowBytes(t, 4) == [t % 256] + LowBytes(t / 256, 3);
    assert LowBytes(t / 256, 3) == [t / 256 % 256] + LowBytes(t / 256 / 256, 2);
    assert LowBytes(t / 256 / 256, 2) == [t / 256 / 256 % 256] + LowBytes(t / 256 / 256 / 256, 1);
    assert LowBytes(t / 256 / 256 / 256, 1) == [t / 256 / 256 / 256 % 256];
  }

  lemma FourBytes(hs: Hasher, h: Word64, t: nat)
    requires t < 256
    ensures hs.Span(h, LowBytes(t, 4)) == hs.step(hs.step(hs.step(hs.step(h, t), 0), 0), 0)
  {
    assert LowBytes(t, 4) == [t] + LowBytes(0, 3);
    assert LowBytes(0, 3) == [0] + LowBytes(0, 2);
    assert LowBytes(0, 2) == [0] + LowBytes(0, 1);
    assert LowBytes(0, 1) == [0];
    var h1 := hs.step(h, t);
    assert hs.Span(h, LowBytes(t, 4)) == hs.Span(h1, LowBytes(0, 3));
    var h2 := hs.step(h1, 0);
    assert hs.Span(h1, LowBytes(0, 3)) == hs.Span(h2, LowBytes(0, 2));
    var h3 := hs.step(h2, 0);
    assert hs.Span(h2, LowBytes(0, 2)) == hs.Span(h3, LowBytes(0, 1));
    assert hs.Span(h3, [0]) == hs.Span(hs.step(h3, 0), []);
  }

  lemma SevenAfter(hs: Hasher, h: Word64, t: int)
    requires t == 7 && h == 1469598103934665603
    requires hs.step(1469598103934665603, 7) == 4953164456164915532
    requires hs.step(4953164456164915532, 0) == 11127401823542680612
    requires hs.step(11127401823542680612, 0) == 12821115160793600300
    requires hs.step(12821115160793600300, 0) == 15082259009183935940
    ensures hs.Span(h, LowBytes(AsU32(t), 4)) == 15082259009183935940
  {
    FourBytes(hs, h, t);
  }

  /** A token whose hash is not the initial value, computed byte by byte. */
  lemma SomeTokenMovesHash()
    ensures exists t :: TOKEN_HASH.step(TOKEN_HASH.init, t) != TOKEN_HASH.init
  {
    FirstByteOfSeven();
    LastBytesOfSeven();
    var t :| t == 7;
    var h :| h == TOKEN_HASH.init;
    SevenAfter(BYTE_HASH, h, t);
    assert TOKEN_HASH.step(h, t) != h;
  }
}
