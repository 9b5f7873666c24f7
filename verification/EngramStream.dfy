/** Hashing a token stream piece by piece, with the last three positions carried over in place
    (ds4_engram.c). */
module EngramStream {
  import opened Options
  import opened Bits
  import opened Bytes
  import opened EngramHash
  import opened Sums

  // ----- The sliding window --------------------------------------------------------------

  /** A stream of mapped tokens, in which masked positions are DEAD. */
  ghost predicate StreamOk(l: Layout, s: seq<int>) {
    forall i :: 0 <= i < |s| ==> EntryOk(l, s[i])
  }

  predicate EntryOk(l: Layout, entry: int) {
    entry == DEAD || 0 <= entry < l.compressed
  }

  /** The entry at position p; everything before the start is DEAD. */
  function At(s: seq<int>, p: int): int {
    if 0 <= p < |s| then s[p] else DEAD
  }

  /** Some position from p back to p - j is masked or before the start. */
  ghost predicate Blocked(s: seq<int>, p: int, j: nat) {
    exists k :: p - j <= k <= p && At(s, k) == DEAD
  }

  /** The id at window place j of position p: the token there, unless it or a newer one in the window
      is blocked. */
  ghost function Id(l: Layout, s: seq<int>, p: int, j: nat): Word32
    requires StreamOk(l, s)
  {
    if Blocked(s, p, j) then l.pad else At(s, p - j)
  }

  ghost function Ids(l: Layout, s: seq<int>, p: int): seq<Word32>
    requires StreamOk(l, s)
  {
    [Id(l, s, p, 0), Id(l, s, p, 1), Id(l, s, p, 2), Id(l, s, p, 3)]
  }

  /** The rows of the positions from..stop of a stream, 48 (layers times columns) for each. */
  ghost function Output(l: Layout, s: seq<int>, from: nat, stop: nat): (rows: seq<Word32>)
    requires l.Shaped() && StreamOk(l, s) && from <= stop
    ensures |rows| == 48 * (stop - from)
    decreases stop
  {
    if from == stop then [] else Output(l, s, from, stop - 1) + TokenRows(l, Ids(l, s, stop - 1))
  }

  /** The last three positions, newest first. */
  function HistoryOf(s: seq<int>): seq<int> {
    [At(s, |s| - 1), At(s, |s| - 2), At(s, |s| - 3)]
  }

  /** The stream a history stands for. */
  function Past(tail: seq<int>): seq<int>
    requires |tail| == NGRAM - 1
  {
    [tail[2], tail[1], tail[0]]
  }

  // ----- Only the last positions matter --------------------------------------------------

  /** Positions p of s and q of t look back on the same window. */
  ghost predicate SameWindow(s: seq<int>, p: int, t: seq<int>, q: int) {
    At(s, p) == At(t, q) && At(s, p - 1) == At(t, q - 1) && At(s, p - 2) == At(t, q - 2) && At(s, p - 3) == At(t, q - 3)
  }

  lemma SameId(l: Layout, s: seq<int>, p: int, t: seq<int>, q: int, j: nat)
    requires StreamOk(l, s) && StreamOk(l, t) && SameWindow(s, p, t, q) && j < NGRAM
    ensures Id(l, s, p, j) == Id(l, t, q, j)
  {
    if k :| p - j <= k <= p && At(s, k) == DEAD {
      assert At(s, p - (p - k)) == At(t, q - (p - k));
      assert At(t, q - (p - k)) == DEAD;
    }
    if k :| q - j <= k <= q && At(t, k) == DEAD {
      assert At(s, p - (q - k)) == At(t, q - (q - k));
      assert At(s, p - (q - k)) == DEAD;
    }
  }

  lemma SameIds(l: Layout, s: seq<int>, p: int, t: seq<int>, q: int)
    requires StreamOk(l, s) && StreamOk(l, t) && SameWindow(s, p, t, q)
    ensures Ids(l, s, p) == Ids(l, t, q)
  {
    SameId(l, s, p, t, q, 0);
    SameId(l, s, p, t, q, 1);
    SameId(l, s, p, t, q, 2);
    SameId(l, s, p, t, q, 3);
  }

  /** After two pasts with the same history, the same tokens look back on the same windows. */
  lemma SameAhead(s: seq<int>, t: seq<int>, cur: seq<int>, i: int)
    requires HistoryOf(s) == HistoryOf(t) && -3 <= i < |cur|
    ensures At(s + cur, |s| + i) == At(t + cur, |t| + i)
  {
    assert HistoryOf(s)[0] == HistoryOf(t)[0] && HistoryOf(s)[1] == HistoryOf(t)[1] && HistoryOf(s)[2] == HistoryOf(t)[2];
    if i == -1 || i == -2 || i == -3 {
      assert At(s + cur, |s| + i) == At(s, |s| + i) && At(t + cur, |t| + i) == At(t, |t| + i);
    }
  }

  lemma SameWindowAhead(s: seq<int>, t: seq<int>, cur: seq<int>, i: nat)
    requires HistoryOf(s) == HistoryOf(t) && i < |cur|
    ensures SameWindow(s + cur, |s| + i, t + cur, |t| + i)
  {
    hide At, HistoryOf;
    SameAhead(s, t, cur, i);
    SameAhead(s, t, cur, i - 1);
    SameAhead(s, t, cur, i - 2);
    SameAhead(s, t, cur, i - 3);
  }

  lemma {:induction false} SameOutput(l: Layout, s: seq<int>, t: seq<int>, cur: seq<int>, n: nat)
    requires l.Shaped() && StreamOk(l, s) && StreamOk(l, t) && StreamOk(l, cur)
    requires HistoryOf(s) == HistoryOf(t) && n <= |cur|
    ensures StreamOk(l, s + cur) && StreamOk(l, t + cur)
    ensures Output(l, s + cur, |s|, |s| + n) == Output(l, t + cur, |t|, |t| + n)
    decreases n
  {
    hide TokenRows, Ids, SameWindow, HistoryOf, EntryOk;
    if n > 0 {
      SameOutput(l, s, t, cur, n - 1);
      SameWindowAhead(s, t, cur, n - 1);
      SameIds(l, s + cur, |s| + n - 1, t + cur, |t| + n - 1);
    }
  }

  lemma SameHistory(s: seq<int>, t: seq<int>, cur: seq<int>)
    requires HistoryOf(s) == HistoryOf(t)
    ensures HistoryOf(s + cur) == HistoryOf(t + cur)
  {
    SameAhead(s, t, cur, |cur| - 1);
    SameAhead(s, t, cur, |cur| - 2);
    SameAhead(s, t, cur, |cur| - 3);
  }

  lemma {:induction false} OutputSplit(l: Layout, s: seq<int>, from: nat, mid: nat, stop: nat)
    requires l.Shaped() && StreamOk(l, s) && from <= mid <= stop
    ensures Output(l, s, from, stop) == Output(l, s, from, mid) + Output(l, s, mid, stop)
    decreases stop
  {
    hide TokenRows, Ids;
    if mid < stop {
      OutputSplit(l, s, from, mid, stop - 1);
    }
  }

  // ----- Hashing from a history ----------------------------------------------------------

  /** What hashing cur from a history puts out, and the history it leaves. */
  ghost function Hashed(l: Layout, tail: seq<int>, cur: seq<int>): (seq<Word32>, seq<int>)
    requires l.Shaped() && |tail| == NGRAM - 1 && StreamOk(l, tail) && StreamOk(l, cur)
  {
    var s := Past(tail) + cur;
    (Output(l, s, |tail|, |s|), HistoryOf(s))
  }

  lemma HistoryIsOk(l: Layout, s: seq<int>)
    requires StreamOk(l, s)
    ensures StreamOk(l, HistoryOf(s)) && HistoryOf(Past(HistoryOf(s))) == HistoryOf(s)
  {
  }

  /** Hashing a ++ b is hashing a and then, from the history this leaves, b. */
  lemma HashInPieces(l: Layout, tail: seq<int>, a: seq<int>, b: seq<int>)
    requires l.Shaped() && |tail| == NGRAM - 1 && StreamOk(l, tail) && StreamOk(l, a) && StreamOk(l, b)
    ensures var (rowsA, mid) := Hashed(l, tail, a);
            && StreamOk(l, mid)
            && Hashed(l, tail, a + b).0 == rowsA + Hashed(l, mid, b).0
            && Hashed(l, tail, a + b).1 == Hashed(l, mid, b).1
  {
    hide Output;
    var s := Past(tail) + a;
    var mid := HistoryOf(s);
    HistoryIsOk(l, s);
    assert Past(tail) + (a + b) == s + b;
    OutputSplit(l, s + b, |tail|, |s|, |s + b|);
    SameOutput(l, s, Past(mid), b, |b|);
    SameHistory(s, Past(mid), b);
    PrefixOutput(l, s, b, |tail|, |s|);
  }

  /** Later tokens do not change the rows of earlier positions. */
  lemma {:induction false} PrefixOutput(l: Layout, s: seq<int>, more: seq<int>, from: nat, stop: nat)
    requires l.Shaped() && StreamOk(l, s) && StreamOk(l, more) && from <= stop <= |s|
    ensures StreamOk(l, s + more) && Output(l, s + more, from, stop) == Output(l, s, from, stop)
    decreases stop
  {
    hide TokenRows, Ids, EntryOk;
    if from < stop {
      PrefixOutput(l, s, more, from, stop - 1);
      assert SameWindow(s + more, stop - 1, s, stop - 1);
      SameIds(l, s + more, stop - 1, s, stop - 1);
    }
  }

  /** From a reset history, hashing is the sliding window over the stream itself. */
  lemma FromTheStart(l: Layout, cur: seq<int>)
    requires l.Shaped() && StreamOk(l, cur)
    ensures Hashed(l, [DEAD, DEAD, DEAD], cur).0 == Output(l, cur, 0, |cur|)
    ensures Hashed(l, [DEAD, DEAD, DEAD], cur).1 == HistoryOf(cur)
  {
    hide Output;
    var past := Past([DEAD, DEAD, DEAD]);
    assert HistoryOf(past) == HistoryOf([]);
    SameOutput(l, past, [], cur, |cur|);
    SameHistory(past, [], cur);
    assert [] + cur == cur;
  }

  /** With a valid layout, none of the products that make up a row wraps. */
  lemma WindowProductsDoNotWrap(l: Layout, s: seq<int>, p: nat, layer: nat, j: nat)
    requires l.Valid() && StreamOk(l, s) && p < |s| && layer < LAYERS && j < NGRAM
    ensures var product := Product(Ids(l, s, p)[j], l.multipliers[layer][j]);
            product <= INT64_MAX && product % TWO_64 == product
  {
    assert LayerValid(l.compressed, l.rows[layer], l.multipliers[layer], l.primes[layer]);
    assert Id(l, s, p, j) < l.compressed by {
      if !Blocked(s, p, j) {
        assert At(s, p - j) != DEAD;
        assert EntryOk(l, s[p - j]);
      }
    }
    ProductsDoNotWrap(l.compressed, Ids(l, s, p)[j], l.multipliers[layer][j]);
  }

  // ----- What a row says -----------------------------------------------------------------

  /** The entry at place q of the new tokens, or before them in the history, or nothing. */
  function EntryAt(tail: seq<int>, cur: seq<int>, q: int): int
    requires |tail| == 3
  {
    if 0 <= q < |cur| then cur[q] else if -3 <= q < 0 then tail[-q - 1] else -1
  }

  /** The four ids that position i is hashed by: its own entry and the three before it, each replaced by the
      pad if it or a newer one of them is masked. */
  ghost predicate WindowOf(l: Layout, tail: seq<int>, cur: seq<int>, i: nat, ids: seq<Word32>)
    requires |tail| == 3
  {
    && |ids| == 4
    && forall j :: 0 <= j < 4 ==>
         ids[j] == if exists q :: i - j <= q <= i && EntryAt(tail, cur, q) == -1 then l.pad else EntryAt(tail, cur, i - j)
  }

  /** Row col of layer a at position i: the hash over the two, three or four newest ids, depending on the
      group of eight that the column is in, reduced by the column's prime and moved past the primes before
      it. */
  ghost predicate RowMeans(l: Layout, tail: seq<int>, cur: seq<int>, i: nat, a: nat, col: nat, row: Word32)
    requires l.Shaped() && |tail| == 3 && a < 2 && col < 24
  {
    exists ids: seq<Word32>, h: Word64 :: WindowOf(l, tail, cur, i, ids) && RowFrom(l, ids, h, a, col, row)
  }

  ghost predicate RowFrom(l: Layout, ids: seq<Word32>, h: Word64, a: nat, col: nat, row: Word32)
    requires l.Shaped() && a < 2 && col < 24
  {
    && |ids| == 4 && IsHash(h, ids, l.multipliers[a], col / 8 + 1)
    && l.primes[a][col] > 0 && row == h % l.primes[a][col] + Sum(l.primes[a][..col])
  }

  lemma {:induction false} OutputAt(l: Layout, s: seq<int>, from: nat, stop: nat, p: nat)
    requires l.Shaped() && StreamOk(l, s) && from <= p < stop
    ensures Output(l, s, from, stop)[48 * (p - from)..48 * (p - from) + 48] == TokenRows(l, Ids(l, s, p))
    decreases stop
  {
    hide TokenRows, Ids;
    if p < stop - 1 {
      OutputAt(l, s, from, stop - 1, p);
    }
  }

  lemma WindowIsIds(l: Layout, tail: seq<int>, cur: seq<int>, i: nat)
    requires |tail| == 3 && StreamOk(l, tail) && StreamOk(l, cur) && i < |cur|
    ensures StreamOk(l, Past(tail) + cur) && WindowOf(l, tail, cur, i, Ids(l, Past(tail) + cur, 3 + i))
  {
    var s := Past(tail) + cur;
    var ids := Ids(l, s, 3 + i);
    forall j | 0 <= j < 4
      ensures ids[j] == if exists q :: i - j <= q <= i && EntryAt(tail, cur, q) == -1 then l.pad else EntryAt(tail, cur, i - j)
    {
      IdIsWindow(l, tail, cur, i, j);
    }
  }

  lemma PastAt(tail: seq<int>, cur: seq<int>, q: int)
    requires |tail| == 3
    ensures At(Past(tail) + cur, 3 + q) == EntryAt(tail, cur, q)
  {
  }

  lemma IdIsWindow(l: Layout, tail: seq<int>, cur: seq<int>, i: nat, j: nat)
    requires |tail| == 3 && StreamOk(l, Past(tail) + cur) && i < |cur| && j < 4
    ensures Id(l, Past(tail) + cur, 3 + i, j)
         == if exists q :: i - j <= q <= i && EntryAt(tail, cur, q) == -1 then l.pad else EntryAt(tail, cur, i - j)
  {
    hide At, EntryAt, StreamOk;
    var s := Past(tail) + cur;
    PastAt(tail, cur, i - j);
    if Blocked(s, 3 + i, j) {
      var k :| 3 + i - j <= k <= 3 + i && At(s, k) == DEAD;
      PastAt(tail, cur, k - 3);
      assert EntryAt(tail, cur, k - 3) == -1;
    }
    if q :| i - j <= q <= i && EntryAt(tail, cur, q) == -1 {
      PastAt(tail, cur, q);
      assert At(s, 3 + q) == DEAD;
    }
  }

  /** What hashing puts out, row by row, and the history it leaves, newest first. */
  lemma HashedMeans(l: Layout, tail: seq<int>, cur: seq<int>, i: nat, a: nat, col: nat)
    requires l.Valid() && |tail| == 3 && StreamOk(l, tail) && StreamOk(l, cur) && i < |cur| && a < 2 && col < 24
    ensures var (rows, after) := Hashed(l, tail, cur);
            && |rows| == 48 * |cur| && RowMeans(l, tail, cur, i, a, col, rows[48 * i + 24 * a + col])
            && |after| == 3 && forall j :: 0 <= j < 3 ==> after[j] == EntryAt(tail, cur, |cur| - 1 - j)
  {
    hide HashUpTo, LayerValid, Output, Sum, WindowOf, IsHash, Id;
    var s := Past(tail) + cur;
    WindowIsIds(l, tail, cur, i);
    OutputAt(l, s, 3, |s|, 3 + i);
    var rows, ids := Hashed(l, tail, cur).0, Ids(l, s, 3 + i);
    assert rows[48 * i + 24 * a + col] == rows[48 * i..48 * i + 48][24 * a + col];
    var (ms, ps) := (l.multipliers[a], l.primes[a]);
    LayerIsValid(l, a);
    RowInBand(l.rows[a], ids, ms, ps, l.compressed, col);
    var h := HashUpTo(ids, ms, col / 8 + 1);
    HashIsParity(ids, ms, col / 8 + 1, h);
    PrimesArePositive(l, a, col);
    assert RowFrom(l, ids, h, a, col, rows[48 * i + 24 * a + col]);
  }

  lemma LayerIsValid(l: Layout, a: nat)
    requires l.Valid() && a < 2
    ensures |l.multipliers[a]| == 4 && |l.primes[a]| == 24
    ensures LayerValid(l.compressed, l.rows[a], l.multipliers[a], l.primes[a])
  {
  }

  lemma PrimesArePositive(l: Layout, a: nat, col: nat)
    requires l.Valid() && a < 2 && col < 24
    ensures l.primes[a][col] > 0
  {
    assert LayerValid(l.compressed, l.rows[a], l.multipliers[a], l.primes[a]);
  }

  // ----- The hash in place ---------------------------------------------------------------

  predicate TokenOk(l: Layout, token: int) {
    0 <= token < |l.tokenMap|
  }

  /** The stream entry of a token. */
  function Mapped(l: Layout, token: int, visible: bool): int
    requires TokenOk(l, token)
  {
    if visible then l.tokenMap[token] else DEAD
  }

  /** The stream of these tokens; an absent mask shows them all. */
  function Stream(l: Layout, tokens: seq<int>, mask: Option<seq<bool>>): (s: seq<int>)
    requires forall i :: 0 <= i < |tokens| ==> TokenOk(l, tokens[i])
    requires mask.Some? ==> |mask.value| == |tokens|
    ensures |s| == |tokens|
  {
    seq(|tokens|, i requires 0 <= i < |tokens| => Mapped(l, tokens[i], mask.None? || mask.value[i]))
  }

  lemma StreamIsOk(l: Layout, tokens: seq<int>, mask: Option<seq<bool>>)
    requires l.Valid() && forall i :: 0 <= i < |tokens| ==> TokenOk(l, tokens[i])
    requires mask.Some? ==> |mask.value| == |tokens|
    ensures StreamOk(l, Stream(l, tokens, mask))
  {
  }

  /** The inner loops over window places and heads, for one layer. */
  method FillLayer(
    ids: seq<Word32>, ms: seq<Word64>, ps: seq<Word32>, ghost compressed: nat, ghost total: Word32,
    rows: array<Word32>, at: nat)
    requires |ids| == |ms| == NGRAM && |ps| == COLS && LayerValid(compressed, total, ms, ps)
    requires at + COLS <= rows.Length
    modifies rows
    ensures rows[at..at + COLS] == LayerRows(ids, ms, ps)
    ensures rows[..at] == old(rows[..at]) && rows[at + COLS..] == old(rows[at + COLS..])
  {
    hide HashUpTo, MultiplierOk, Sum, Xor64, Row, Product;
    var hash: Word64 := Product(ids[0], ms[0]) % TWO_64;
    FirstHash(ids, ms);
    var offset: nat := 0;
    NoSum(ps);
    var j := 1;
    while j < NGRAM
      invariant 1 <= j <= NGRAM
      invariant hash == HashUpTo(ids, ms, j - 1)
      invariant offset == Sum(ps[..(j - 1) * HEADS])
      invariant forall k :: 0 <= k < (j - 1) * HEADS ==> rows[at + k] == Row(ids, ms, ps, k)
      invariant forall i :: 0 <= i < rows.Length && !(at <= i < at + COLS) ==> rows[i] == old(rows[i])
    {
      NextHash(ids, ms, j);
      hash := Xor64(hash, Product(ids[j], ms[j]) % TWO_64);
      var head := 0;
      while head < HEADS
        invariant 0 <= head <= HEADS
        invariant offset == Sum(ps[..(j - 1) * HEADS + head])
        invariant forall k :: 0 <= k < (j - 1) * HEADS + head ==> rows[at + k] == Row(ids, ms, ps, k)
        invariant forall i :: 0 <= i < rows.Length && !(at <= i < at + COLS) ==> rows[i] == old(rows[i])
      {
        var col := (j - 1) * HEADS + head;
        var prime := ps[col];
        RowInBand(total, ids, ms, ps, compressed, col);
        assert col / HEADS + 1 == j;
        rows[at + col] := hash % prime + offset;
        SumStep(ps, col);
        offset := offset + prime;
        head := head + 1;
      }
      j := j + 1;
    }
  }

  lemma FirstHash(ids: seq<Word32>, ms: seq<Word64>)
    requires |ids| == |ms| == NGRAM
    ensures HashUpTo(ids, ms, 0) == Product(ids[0], ms[0]) % TWO_64
  {
  }

  lemma NextHash(ids: seq<Word32>, ms: seq<Word64>, j: nat)
    requires 0 < j < |ids| == |ms|
    ensures HashUpTo(ids, ms, j) == Xor64(HashUpTo(ids, ms, j - 1), Product(ids[j], ms[j]) % TWO_64)
  {
  }

  lemma NoSum(ps: seq<Word32>)
    ensures Sum(ps[..0]) == 0
  {
  }

  /** The loop that fills in the window's ids: once a place is blocked, so are all older ones. */
  method WindowIds(l: Layout, current: int, tail: array<int>, ghost s: seq<int>) returns (ids: seq<Word32>)
    requires tail.Length == NGRAM - 1 && StreamOk(l, s) && s != []
    requires current == At(s, |s| - 1)
    requires tail[0] == At(s, |s| - 2) && tail[1] == At(s, |s| - 3) && tail[2] == At(s, |s| - 4)
    ensures |ids| == NGRAM && ids == Ids(l, s, |s| - 1)
  {
    ids := [];
    var blocked := false;
    ghost var p := |s| - 1;
    for j := 0 to NGRAM
      invariant |ids| == j
      invariant blocked == (j > 0 && Blocked(s, p, j - 1))
      invariant forall k :: 0 <= k < j ==> ids[k] == Id(l, s, p, k)
    {
      var id := if j == 0 then current else tail[j - 1];
      assert id == At(s, p - j);
      BlockedStep(s, p, j);
      blocked := blocked || id == DEAD;
      if !blocked {
        assert !Blocked(s, p, j) && EntryOk(l, id);
      }
      ids := ids + [if blocked then l.pad else id];
    }
  }

  lemma BlockedStep(s: seq<int>, p: int, j: nat)
    ensures Blocked(s, p, j) <==> At(s, p - j) == DEAD || (j > 0 && Blocked(s, p, j - 1))
  {
  }

  /** The loop over the layers, for one position. */
  method FillToken(l: Layout, ids: seq<Word32>, rows: array<Word32>, at: nat)
    requires l.Valid() && |ids| == NGRAM && at + 48 <= rows.Length
    modifies rows
    ensures rows[..at + 48] == old(rows[..at]) + TokenRows(l, ids)
  {
    hide LayerRows, LayerValid;
    ghost var before := rows[..at];
    FillLayer(ids, l.multipliers[0], l.primes[0], l.compressed, l.rows[0], rows, at);
    ghost var first := rows[..at + COLS];
    assert first == before + LayerRows(ids, l.multipliers[0], l.primes[0]);
    FillLayer(ids, l.multipliers[1], l.primes[1], l.compressed, l.rows[1], rows, at + COLS);
    assert rows[..at + 48] == first + LayerRows(ids, l.multipliers[1], l.primes[1]);
  }

  predicate TokensOk(l: Layout, tokens: seq<int>) {
    forall i :: 0 <= i < |tokens| ==> TokenOk(l, tokens[i])
  }

  /** The checks before anything is changed. */
  method InputOk(l: Layout, tail: array<int>, tokens: seq<int>) returns (ok: bool)
    requires tail.Length == NGRAM - 1
    ensures ok <==> StreamOk(l, tail[..]) && TokensOk(l, tokens)
  {
    for i := 0 to NGRAM - 1
      invariant forall k :: 0 <= k < i ==> EntryOk(l, tail[k])
    {
      if tail[i] < DEAD || (tail[i] >= 0 && tail[i] >= l.compressed) {
        assert !EntryOk(l, tail[..][i]);
        return false;
      }
    }
    for i := 0 to |tokens|
      invariant forall k :: 0 <= k < i ==> TokenOk(l, tokens[k])
    {
      if tokens[i] < 0 || tokens[i] >= |l.tokenMap| {
        assert !TokenOk(l, tokens[i]);
        return false;
      }
    }
    return true;
  }

  /** One position: its rows go out and the history moves along. */
  method HashToken(l: Layout, current: int, tail: array<int>, rows: array<Word32>, at: nat, ghost s: seq<int>, ghost i: nat)
    requires l.Valid() && tail.Length == NGRAM - 1 && at + 48 <= rows.Length
    requires StreamOk(l, s) && 3 + i < |s| && current == s[3 + i] && tail[..] == HistoryOf(s[..3 + i])
    modifies tail, rows
    ensures tail[..] == HistoryOf(s[..3 + i + 1])
    ensures rows[..at + 48] == old(rows[..at]) + TokenRows(l, Ids(l, s, 3 + i))
  {
    hide TokenRows, Ids, LayerValid, HistoryOf;
    TailIsHistory(tail[..], s, i);
    ghost var upTo := s[..3 + i + 1];
    var ids := WindowIds(l, current, tail, upTo);
    PrefixIds(l, s, upTo, 3 + i);
    FillToken(l, ids, rows, at);
    tail[2] := tail[1];
    tail[1] := tail[0];
    tail[0] := current;
  }

  lemma StreamAt(l: Layout, tokens: seq<int>, mask: Option<seq<bool>>, i: nat)
    requires TokensOk(l, tokens) && (mask.Some? ==> |mask.value| == |tokens|) && i < |tokens|
    ensures Stream(l, tokens, mask)[i] == if mask.Some? && !mask.value[i] then DEAD else l.tokenMap[tokens[i]]
  {
  }

  /** The loop over the positions. */
  method HashAll(l: Layout, tail: array<int>, tokens: seq<int>, mask: Option<seq<bool>>, rows: array<Word32>)
    requires l.Valid() && tail.Length == NGRAM - 1 && (mask.Some? ==> |mask.value| == |tokens|)
    requires StreamOk(l, tail[..]) && TokensOk(l, tokens) && rows.Length == 48 * |tokens|
    modifies tail, rows
    ensures StreamOk(l, Stream(l, tokens, mask))
    ensures var s := Past(old(tail[..])) + Stream(l, tokens, mask);
            rows[..] == Output(l, s, 3, |s|) && tail[..] == HistoryOf(s)
  {
    hide Output, TokenRows, LayerRows, Ids, LayerValid, HistoryOf, EntryOk, Stream;
    ghost var was := tail[..];
    ghost var cur := Stream(l, tokens, mask);
    StreamIsOk(l, tokens, mask);
    ghost var s := Past(was) + cur;
    OutputNothing(l, s);
    PastHistory(was, cur);
    var i := 0;
    while i < |tokens|
      invariant 0 <= i <= |tokens|
      invariant tail[..] == HistoryOf(s[..3 + i])
      invariant rows[..48 * i] == Output(l, s, 3, 3 + i)
    {
      var current := if mask.Some? && !mask.value[i] then DEAD else l.tokenMap[tokens[i]];
      StreamAt(l, tokens, mask, i);
      HashToken(l, current, tail, rows, 48 * i, s, i);
      OutputOne(l, s, 3 + i, Ids(l, s, 3 + i));
      i := i + 1;
    }
    assert s[..3 + i] == s && rows[..48 * i] == rows[..];
  }

  lemma InputMeans(l: Layout, tail: seq<int>, tokens: seq<int>)
    requires |tail| == 3
    ensures StreamOk(l, tail) <==> forall j :: 0 <= j < 3 ==> -1 <= tail[j] < l.compressed
    ensures TokensOk(l, tokens) <==> forall i :: 0 <= i < |tokens| ==> 0 <= tokens[i] < |l.tokenMap|
  {
  }

  /** ds4_engram_hash with a valid layout: on bad input nothing changes; otherwise the rows are those of
      the sliding window and the history moves along. */
  method Hash(l: Layout, tail: array<int>, tokens: seq<int>, mask: Option<seq<bool>>, rows: array<Word32>)
    returns (ok: bool)
    requires l.Valid() && tail.Length == NGRAM - 1 && (mask.Some? ==> |mask.value| == |tokens|)
    requires rows.Length == 48 * |tokens|
    modifies tail, rows
    ensures ok <==> old(StreamOk(l, tail[..])) && TokensOk(l, tokens)
    ensures ok <==>
      && (forall j :: 0 <= j < 3 ==> -1 <= old(tail[j]) < l.compressed)
      && forall i :: 0 <= i < |tokens| ==> 0 <= tokens[i] < |l.tokenMap|
    ensures !ok ==> tail[..] == old(tail[..]) && rows[..] == old(rows[..])
    ensures ok ==> StreamOk(l, Stream(l, tokens, mask))
                   && (rows[..], tail[..]) == Hashed(l, old(tail[..]), Stream(l, tokens, mask))
  {
    hide Output, HistoryOf, EntryOk, Stream, LayerValid;
    InputMeans(l, tail[..], tokens);
    var inputOk := InputOk(l, tail, tokens);
    if !inputOk {
      return false;
    }
    HashAll(l, tail, tokens, mask, rows);
    return true;
  }

  lemma PastHistory(tail: seq<int>, cur: seq<int>)
    requires |tail| == NGRAM - 1
    ensures (Past(tail) + cur)[..3] == Past(tail) && HistoryOf(Past(tail)) == tail
  {
  }

  lemma OutputNothing(l: Layout, s: seq<int>)
    requires l.Shaped() && StreamOk(l, s)
    ensures Output(l, s, 3, 3) == []
  {
  }

  lemma OutputOne(l: Layout, s: seq<int>, p: nat, ids: seq<Word32>)
    requires l.Shaped() && StreamOk(l, s) && 3 <= p && ids == Ids(l, s, p)
    ensures Output(l, s, 3, p + 1) == Output(l, s, 3, p) + TokenRows(l, ids)
  {
    hide Ids, TokenRows;
  }

  lemma TailIsHistory(tail: seq<int>, s: seq<int>, i: nat)
    requires 3 + i < |s| && tail == HistoryOf(s[..3 + i])
    ensures var t := s[..3 + i + 1];
            tail[0] == At(t, |t| - 2) && tail[1] == At(t, |t| - 3) && tail[2] == At(t, |t| - 4)
    ensures HistoryOf(s[..3 + i + 1]) == [s[3 + i], tail[0], tail[1]]
  {
  }

  lemma PrefixIds(l: Layout, s: seq<int>, t: seq<int>, p: nat)
    requires StreamOk(l, s) && p < |s| && t == s[..p + 1]
    ensures StreamOk(l, t) && Ids(l, t, p) == Ids(l, s, p)
  {
    SameIds(l, t, p, s, p);
  }
}
