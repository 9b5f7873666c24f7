/** The little-endian words that session files and KV shards are written in (ds4_distributed.c). */
module Payload {
  import opened Options
  import opened Bytes

  function LittleEndian(x: Word32): (b: seq<Byte>)
    ensures |b| == 4
  {
    var d := BigEndian(x);
    [d[3], d[2], d[1], d[0]]
  }

  function LittleWord(b: seq<Byte>, at: nat): Word32
    requires at + 4 <= |b|
  {
    Join(b[at + 3], b[at + 2], b[at + 1], b[at])
  }

  function Encode(ws: seq<Word32>): (b: seq<Byte>)
    ensures |b| == 4 * |ws|
  {
    if ws == [] then [] else LittleEndian(ws[0]) + Encode(ws[1..])
  }

  /** The n words at the front of b. */
  function Words(b: seq<Byte>, n: nat): (ws: seq<Word32>)
    requires 4 * n <= |b|
    ensures |ws| == n
  {
    if n == 0 then [] else [LittleWord(b, 0)] + Words(b[4..], n - 1)
  }

  lemma FirstWord(x: Word32, rest: seq<Byte>)
    ensures LittleWord(LittleEndian(x) + rest, 0) == x
  {
    JoinDigits(x);
  }

  lemma FirstWordIsEncoded(b: seq<Byte>)
    requires 4 <= |b|
    ensures LittleEndian(LittleWord(b, 0)) == b[..4]
  {
    DigitsOfJoin(b[3], b[2], b[1], b[0]);
  }

  lemma {:induction false} WordsOfEncoded(ws: seq<Word32>, rest: seq<Byte>)
    ensures Words(Encode(ws) + rest, |ws|) == ws
  {
    hide LittleEndian, LittleWord;
    if ws != [] {
      var tail := Encode(ws[1..]) + rest;
      assert Encode(ws) + rest == LittleEndian(ws[0]) + tail;
      FirstWord(ws[0], tail);
      WordsOfEncoded(ws[1..], rest);
      assert (Encode(ws) + rest)[4..] == tail;
    }
  }

  /** Word k stands at byte 4 * k, least significant byte first. */
  lemma {:induction false} WordPlace(ws: seq<Word32>, k: nat, before: seq<Byte>, rest: seq<Byte>)
    requires k < |ws|
    ensures HoldsLittle(before + Encode(ws) + rest, |before| + 4 * k, ws[k])
    decreases k
  {
    var b := before + Encode(ws) + rest;
    var word, tail := LittleEndian(ws[0]), Encode(ws[1..]);
    assert Encode(ws) == word + tail;
    assert b == before + word + tail + rest;
    if k == 0 {
      var at := |before|;
      assert b[at] == word[0] && b[at + 1] == word[1] && b[at + 2] == word[2] && b[at + 3] == word[3];
      JoinDigits(ws[0]);
    } else {
      WordPlace(ws[1..], k - 1, before + word, rest);
      assert before + word + tail + rest == (before + word) + tail + rest;
    }
  }

  lemma {:induction false} EncodedWords(b: seq<Byte>, n: nat)
    requires 4 * n <= |b|
    ensures Encode(Words(b, n)) == b[..4 * n]
  {
    hide LittleEndian, LittleWord;
    if n > 0 {
      FirstWordIsEncoded(b);
      EncodedWords(b[4..], n - 1);
      assert b[..4 * n] == b[..4] + b[4..][..4 * (n - 1)];
    }
  }

  lemma WordsStep(b: seq<Byte>, n: nat)
    requires 4 * n <= |b|
    ensures Words(b, 0) == []
    ensures n > 0 ==> Words(b, n) == [LittleWord(b, 0)] + Words(b[4..], n - 1)
  {
    hide LittleWord;
  }

  lemma {:induction false} WordsSplit(b: seq<Byte>, m: nat, n: nat)
    requires 4 * (m + n) <= |b|
    ensures Words(b, m + n) == Words(b, m) + Words(b[4 * m..], n)
  {
    hide LittleWord, Words;
    WordsStep(b, m);
    WordsStep(b, m + n);
    if m == 0 {
      assert b[0..] == b;
    } else {
      var tail := b[4..];
      WordsSplit(tail, m - 1, n);
      assert tail[4 * (m - 1)..] == b[4 * m..];
      assert m - 1 + n == m + n - 1;
    }
  }

  /** dist_payload_read_u32: one more word from the front of what is left of a file. */
  method ReadWord(rest: seq<Byte>) returns (word: Option<Word32>, left: seq<Byte>)
    ensures word.None? <==> |rest| < 4
    ensures word.Some? ==> word.value == LittleWord(rest, 0) && left == rest[4..]
  {
    if |rest| < 4 {
      return None, rest;
    }
    return Some(LittleWord(rest, 0)), rest[4..];
  }
}
