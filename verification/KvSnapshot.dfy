/** Session payloads and KV shards: the two file formats and what a slice of a session is
    (ds4_distributed.c). */
module KvSnapshot {
  import opened Options
  import opened Bytes
  import opened Payload
  import opened KvLayout

  const SESSION_MAGIC: Word32 := 0x34565344
  const SESSION_VERSION: Word32 := 2
  const SESSION_FIELDS: nat := 13
  const LAYER_MAGIC: Word32 := 0x4c565344
  const LAYER_VERSION: Word32 := 1
  const LAYER_FIELDS: nat := 14

  /** The row counts of a run of layers and their tensors, back to back. */
  datatype Rows = Rows(nComp: seq<Word32>, nIndex: seq<Word32>, tensors: seq<Byte>)

  /** A whole saved session. */
  datatype Snap = Snap(lay: Layout, tokens: seq<Word32>, logits: seq<Byte>, rows: Rows)

  // ----- Rows and tensors ----------------------------------------------------------------

  predicate AtMost(ws: seq<Word32>, cap: nat) {
    forall i :: 0 <= i < |ws| ==> ws[i] <= cap
  }

  predicate RowsOk(e: Engine, lay: Layout, start: nat, n: nat, rows: Rows) {
    && |rows.nComp| == n == |rows.nIndex|
    && AtMost(rows.nComp, lay.compCap) && AtMost(rows.nIndex, lay.compCap)
    && |rows.tensors| == SizeOf(e, lay, start, rows.nComp, rows.nIndex)
  }

  function EncodeRows(rows: Rows): seq<Byte> {
    Encode(rows.nComp) + Encode(rows.nIndex) + rows.tensors
  }

  function DecodeRows(e: Engine, lay: Layout, start: nat, n: nat, b: seq<Byte>): Option<Rows> {
    if |b| < 8 * n then None
    else
      var rows := Rows(Words(b, n), Words(b[4 * n..], n), b[8 * n..]);
      if RowsOk(e, lay, start, n, rows) then Some(rows) else None
  }

  lemma RowsRoundTrip(e: Engine, lay: Layout, start: nat, n: nat, rows: Rows)
    requires RowsOk(e, lay, start, n, rows)
    ensures DecodeRows(e, lay, start, n, EncodeRows(rows)) == Some(rows)
  {
    hide RowsOk, Words, Encode;
    assert |rows.nComp| == n == |rows.nIndex| by { RowsCount(e, lay, start, n, rows); }
    var b := EncodeRows(rows);
    assert b == Encode(rows.nComp) + (Encode(rows.nIndex) + rows.tensors);
    WordsOfEncoded(rows.nComp, Encode(rows.nIndex) + rows.tensors);
    assert b[4 * n..] == Encode(rows.nIndex) + rows.tensors;
    WordsOfEncoded(rows.nIndex, rows.tensors);
    assert b[8 * n..] == rows.tensors;
  }

  lemma RowsCount(e: Engine, lay: Layout, start: nat, n: nat, rows: Rows)
    requires RowsOk(e, lay, start, n, rows)
    ensures |rows.nComp| == n == |rows.nIndex|
  {
  }

  lemma DecodedRows(e: Engine, lay: Layout, start: nat, n: nat, b: seq<Byte>)
    requires DecodeRows(e, lay, start, n, b).Some?
    ensures var rows := DecodeRows(e, lay, start, n, b).value; RowsOk(e, lay, start, n, rows) && b == EncodeRows(rows)
  {
    hide RowsOk, Words, Encode;
    EncodedWords(b, n);
    EncodedWords(b[4 * n..], n);
    assert b == b[..4 * n] + b[4 * n..][..4 * n] + b[8 * n..];
  }

  // ----- Shards --------------------------------------------------------------------------

  function LayerHeader(lay: Layout, start: Word32, end: Word32): (h: seq<Word32>)
    ensures |h| == LAYER_FIELDS
  {
    [LAYER_MAGIC, LAYER_VERSION, lay.ctx, lay.prefillCap, lay.rawCap, lay.rawWindow, lay.compCap, lay.tokenCount,
     lay.nLayers, lay.headDim, lay.indexerHeadDim, start, end, lay.rawLive]
  }

  function LayerLayout(h: seq<Word32>): Layout
    requires |h| == LAYER_FIELDS
  {
    Layout(h[2], h[3], h[4], h[5], h[6], h[7], h[8], h[9], h[10], h[13])
  }

  predicate LayoutOk(e: Engine, lay: Layout) {
    lay.nLayers == e.nLayers && RawLiveOk(e, lay)
  }

  predicate LayerHeaderOk(e: Engine, start: Word32, end: Word32, h: seq<Word32>)
    requires |h| == LAYER_FIELDS
  {
    && h[0] == LAYER_MAGIC && h[1] == LAYER_VERSION && h[11] == start && h[12] == end
    && start <= end < h[8] && LayoutOk(e, LayerLayout(h))
  }

  /** The payload of layers start to end as a node saves it and loads it. */
  function EncodeShard(lay: Layout, start: Word32, end: Word32, rows: Rows): seq<Byte> {
    Encode(LayerHeader(lay, start, end)) + EncodeRows(rows)
  }

  predicate ShardOk(e: Engine, start: Word32, end: Word32, lay: Layout, rows: Rows) {
    start <= end < e.nLayers && LayoutOk(e, lay) && RowsOk(e, lay, start, end - start + 1, rows)
  }

  function DecodeShard(e: Engine, start: Word32, end: Word32, b: seq<Byte>): Option<(Layout, Rows)> {
    if |b| < 4 * LAYER_FIELDS then None
    else
      var h := Words(b, LAYER_FIELDS);
      if !LayerHeaderOk(e, start, end, h) then None
      else
        match DecodeRows(e, LayerLayout(h), start, end - start + 1, b[4 * LAYER_FIELDS..])
        case None => None
        case Some(rows) => Some((LayerLayout(h), rows))
  }

  /** A shard is understood exactly when it encodes an acceptable slice, and then as that slice. */
  lemma ShardRoundTrip(e: Engine, start: Word32, end: Word32, lay: Layout, rows: Rows)
    requires ShardOk(e, start, end, lay, rows)
    ensures DecodeShard(e, start, end, EncodeShard(lay, start, end, rows)) == Some((lay, rows))
  {
    hide Words, Encode, RowsOk, EncodeRows, DecodeRows, RawLiveOk;
    WordsOfEncoded(LayerHeader(lay, start, end), EncodeRows(rows));
    RowsRoundTrip(e, lay, start, end - start + 1, rows);
    assert EncodeShard(lay, start, end, rows)[4 * LAYER_FIELDS..] == EncodeRows(rows);
  }

  lemma DecodedShard(e: Engine, start: Word32, end: Word32, b: seq<Byte>)
    requires DecodeShard(e, start, end, b).Some?
    ensures var (lay, rows) := DecodeShard(e, start, end, b).value;
            ShardOk(e, start, end, lay, rows) && b == EncodeShard(lay, start, end, rows)
  {
    hide Words, Encode, RowsOk, EncodeRows, DecodeRows, RawLiveOk;
    var h := Words(b, LAYER_FIELDS);
    EncodedWords(b, LAYER_FIELDS);
    assert h == LayerHeader(LayerLayout(h), start, end);
    DecodedRows(e, LayerLayout(h), start, end - start + 1, b[4 * LAYER_FIELDS..]);
    assert b == b[..4 * LAYER_FIELDS] + b[4 * LAYER_FIELDS..];
  }

  // ----- Sessions ------------------------------------------------------------------------

  function SessionHeader(e: Engine, lay: Layout): (h: seq<Word32>)
    ensures |h| == SESSION_FIELDS
  {
    [SESSION_MAGIC, SESSION_VERSION, lay.ctx, lay.prefillCap, lay.rawCap, lay.rawWindow, lay.compCap, lay.tokenCount,
     lay.nLayers, lay.headDim, lay.indexerHeadDim, e.vocab, lay.rawLive]
  }

  function SessionLayout(h: seq<Word32>): Layout
    requires |h| == SESSION_FIELDS
  {
    Layout(h[2], h[3], h[4], h[5], h[6], h[7], h[8], h[9], h[10], h[12])
  }

  predicate SessionHeaderOk(e: Engine, h: seq<Word32>)
    requires |h| == SESSION_FIELDS
  {
    h[0] == SESSION_MAGIC && h[1] == SESSION_VERSION && h[11] == e.vocab && LayoutOk(e, SessionLayout(h))
  }

  /** The single-node session payload. */
  function SessionBytes(e: Engine, s: Snap): seq<Byte> {
    Encode(SessionHeader(e, s.lay)) + (Encode(s.tokens) + (s.logits + EncodeRows(s.rows)))
  }

  predicate SnapOk(e: Engine, s: Snap) {
    && LayoutOk(e, s.lay) && |s.tokens| == s.lay.tokenCount && |s.logits| == 4 * e.vocab
    && RowsOk(e, s.lay, 0, e.nLayers, s.rows)
  }

  /** Everything after the header. */
  function DecodeContents(e: Engine, lay: Layout, b: seq<Byte>): Option<Snap> {
    var (n, v) := (4 * lay.tokenCount, 4 * e.vocab);
    if |b| < n + v then None
    else
      match DecodeRows(e, lay, 0, e.nLayers, b[n + v..])
      case None => None
      case Some(rows) => Some(Snap(lay, Words(b, lay.tokenCount), b[n..n + v], rows))
  }

  function DecodeSession(e: Engine, b: seq<Byte>): Option<Snap> {
    if |b| < 4 * SESSION_FIELDS then None
    else
      var h := Words(b, SESSION_FIELDS);
      if !SessionHeaderOk(e, h) then None else DecodeContents(e, SessionLayout(h), b[4 * SESSION_FIELDS..])
  }

  lemma SessionRoundTrip(e: Engine, s: Snap)
    requires SnapOk(e, s)
    ensures DecodeSession(e, SessionBytes(e, s)) == Some(s)
  {
    hide Words, Encode, RowsOk, EncodeRows, DecodeRows, RawLiveOk;
    var rest := Encode(s.tokens) + (s.logits + EncodeRows(s.rows));
    WordsOfEncoded(SessionHeader(e, s.lay), rest);
    assert SessionBytes(e, s)[4 * SESSION_FIELDS..] == rest;
    WordsOfEncoded(s.tokens, s.logits + EncodeRows(s.rows));
    var (n, v) := (4 * s.lay.tokenCount, 4 * e.vocab);
    assert rest[n..n + v] == s.logits && rest[n + v..] == EncodeRows(s.rows);
    RowsRoundTrip(e, s.lay, 0, e.nLayers, s.rows);
  }

  lemma DecodedSession(e: Engine, b: seq<Byte>)
    requires DecodeSession(e, b).Some?
    ensures SnapOk(e, DecodeSession(e, b).value) && b == SessionBytes(e, DecodeSession(e, b).value)
  {
    hide Words, Encode, RowsOk, EncodeRows, DecodeRows, RawLiveOk;
    var h := Words(b, SESSION_FIELDS);
    EncodedWords(b, SESSION_FIELDS);
    var s := DecodeSession(e, b).value;
    assert h == SessionHeader(e, s.lay);
    var rest := b[4 * SESSION_FIELDS..];
    var (n, v) := (4 * s.lay.tokenCount, 4 * e.vocab);
    EncodedWords(rest, s.lay.tokenCount);
    DecodedRows(e, s.lay, 0, e.nLayers, rest[n + v..]);
    assert rest == rest[..n] + (rest[n..n + v] + rest[n + v..]);
    assert b == b[..4 * SESSION_FIELDS] + rest;
  }

  // ----- The formats by position ---------------------------------------------------------

  /** n numbers stand one after the other from byte at on. */
  predicate HoldsAll(b: seq<Byte>, at: nat, ws: seq<Word32>) {
    forall k :: 0 <= k < |ws| ==> HoldsLittle(b, at + 4 * k, ws[k])
  }

  lemma WordsPlace(b: seq<Byte>, at: nat, ws: seq<Word32>, rest: seq<Byte>)
    requires at <= |b| && b[at..] == Encode(ws) + rest
    ensures HoldsAll(b, at, ws)
  {
    forall k | 0 <= k < |ws|
      ensures HoldsLittle(b, at + 4 * k, ws[k])
    {
      WordPlace(ws, k, b[..at], rest);
      assert b == b[..at] + Encode(ws) + rest;
    }
  }

  /** Where everything stands in a session file: thirteen words of header, the tokens, the logits, the
      compressed row counts of all layers, their indexer row counts, and the tensors to the end. */
  lemma SessionFormat(e: Engine, s: Snap)
    requires SnapOk(e, s)
    ensures var (b, lay) := (SessionBytes(e, s), s.lay);
            var (logits, counts) := (52 + 4 * |s.tokens|, 52 + 4 * |s.tokens| + 4 * e.vocab);
            && HoldsAll(b, 0, [0x34565344, 2, lay.ctx, lay.prefillCap, lay.rawCap, lay.rawWindow, lay.compCap,
                               lay.tokenCount, lay.nLayers, lay.headDim, lay.indexerHeadDim, e.vocab, lay.rawLive])
            && HoldsAll(b, 52, s.tokens)
            && counts <= |b| && b[logits..counts] == s.logits
            && HoldsAll(b, counts, s.rows.nComp)
            && HoldsAll(b, counts + 4 * e.nLayers, s.rows.nIndex)
            && counts + 8 * e.nLayers <= |b| && b[counts + 8 * e.nLayers..] == s.rows.tensors
  {
    hide Encode, RawLiveOk, AtMost, SizeOf, HoldsAll;
    var b := SessionBytes(e, s);
    var (t, logits, counts) := (52, 52 + 4 * |s.tokens|, 52 + 4 * |s.tokens| + 4 * e.vocab);
    var (a, i, x) := (Encode(s.rows.nComp), Encode(s.rows.nIndex), s.rows.tensors);
    var rest := s.logits + (a + i + x);
    assert b[0..] == Encode(SessionHeader(e, s.lay)) + (Encode(s.tokens) + rest);
    WordsPlace(b, 0, SessionHeader(e, s.lay), Encode(s.tokens) + rest);
    assert b[t..] == Encode(s.tokens) + rest;
    WordsPlace(b, t, s.tokens, rest);
    assert b[logits..] == rest && b[logits..counts] == s.logits;
    assert b[counts..] == a + (i + x);
    WordsPlace(b, counts, s.rows.nComp, i + x);
    assert b[counts + 4 * e.nLayers..] == i + x;
    WordsPlace(b, counts + 4 * e.nLayers, s.rows.nIndex, x);
    assert b[counts + 8 * e.nLayers..] == x;
  }

  /** And in the shard of layers start to end: fourteen words of header, the two tables of row counts, and
      the tensors. */
  lemma ShardFormat(e: Engine, start: Word32, end: Word32, lay: Layout, rows: Rows)
    requires ShardOk(e, start, end, lay, rows)
    ensures var (b, n) := (EncodeShard(lay, start, end, rows), end - start + 1);
            && HoldsAll(b, 0, [0x4c565344, 1, lay.ctx, lay.prefillCap, lay.rawCap, lay.rawWindow, lay.compCap,
                               lay.tokenCount, lay.nLayers, lay.headDim, lay.indexerHeadDim, start, end, lay.rawLive])
            && HoldsAll(b, 56, rows.nComp) && HoldsAll(b, 56 + 4 * n, rows.nIndex)
            && 56 + 8 * n <= |b| && b[56 + 8 * n..] == rows.tensors
  {
    hide Encode, RawLiveOk, AtMost, SizeOf, HoldsAll;
    var (b, n) := (EncodeShard(lay, start, end, rows), end - start + 1);
    var (a, i, x) := (Encode(rows.nComp), Encode(rows.nIndex), rows.tensors);
    assert b[0..] == Encode(LayerHeader(lay, start, end)) + (a + i + x);
    WordsPlace(b, 0, LayerHeader(lay, start, end), a + i + x);
    assert b[56..] == a + (i + x);
    WordsPlace(b, 56, rows.nComp, i + x);
    assert b[56 + 4 * n..] == i + x;
    WordsPlace(b, 56 + 4 * n, rows.nIndex, x);
    assert b[56 + 8 * n..] == x;
  }

  /** Exactly these sessions are understood: of this engine's model, with a live window that follows from
      the timeline (or, in a GLM model, stays within it), with row counts below the cap, and with tensors
      of the size of all layers. */
  lemma SessionIsOk(e: Engine, s: Snap)
    ensures SnapOk(e, s) <==>
      var (lay, most) := (s.lay, if s.lay.tokenCount < s.lay.rawWindow then s.lay.tokenCount else s.lay.rawWindow);
      && lay.nLayers == e.nLayers && |s.tokens| == lay.tokenCount && |s.logits| == 4 * e.vocab
      && lay.rawWindow > 0 && lay.rawCap > 0 && lay.rawLive <= most && lay.rawLive <= lay.rawCap
      && (e.glm.None? ==> lay.rawLive == most)
      && |s.rows.nComp| == |s.rows.nIndex| == e.nLayers
      && (forall l :: 0 <= l < e.nLayers ==> s.rows.nComp[l] <= lay.compCap && s.rows.nIndex[l] <= lay.compCap)
      && |s.rows.tensors| == SizeOf(e, lay, 0, s.rows.nComp, s.rows.nIndex)
  {
    hide SizeOf;
  }

  /** The size of layers start, start + 1, ... is the sum of theirs. */
  lemma SizeOfLayers(e: Engine, lay: Layout, start: nat, nComp: seq<Word32>, nIndex: seq<Word32>, k: nat)
    requires k < |nComp| == |nIndex|
    ensures SizeOf(e, lay, start, [], []) == 0
    ensures SizeOf(e, lay, start, nComp[..k + 1], nIndex[..k + 1])
         == SizeOf(e, lay, start, nComp[..k], nIndex[..k]) + LayerSize(e, lay, start + k, nComp[k], nIndex[k])
  {
    hide SizeOf, LayerSize;
    SizeOfNothing(e, lay, start);
    SizeOfStep(e, lay, start, nComp, nIndex, k);
  }

  // ----- Slices of a session -------------------------------------------------------------

  /** Where the tensors of layer k begin. */
  function Offset(e: Engine, lay: Layout, nComp: seq<Word32>, nIndex: seq<Word32>, k: nat): nat
    requires k <= |nComp| == |nIndex|
  {
    SizeOf(e, lay, 0, nComp[..k], nIndex[..k])
  }

  lemma OffsetsMeet(e: Engine, lay: Layout, nComp: seq<Word32>, nIndex: seq<Word32>, start: nat, stop: nat)
    requires start <= stop <= |nComp| == |nIndex|
    ensures Offset(e, lay, nComp, nIndex, stop)
         == Offset(e, lay, nComp, nIndex, start) + SizeOf(e, lay, start, nComp[start..stop], nIndex[start..stop])
    ensures Offset(e, lay, nComp, nIndex, stop) <= SizeOf(e, lay, 0, nComp, nIndex)
  {
    hide SizeOf;
    SizeOfCut(e, lay, 0, nComp[..stop], nIndex[..stop], start);
    assert nComp[..stop][..start] == nComp[..start] && nComp[..stop][start..] == nComp[start..stop];
    assert nIndex[..stop][..start] == nIndex[..start] && nIndex[..stop][start..] == nIndex[start..stop];
    SizeOfCut(e, lay, 0, nComp, nIndex, stop);
  }

  /** Layers start to stop - 1 of a run of layers that begins with layer 0. */
  function SliceRows(e: Engine, lay: Layout, rows: Rows, start: nat, stop: nat): Rows
    requires start <= stop <= |rows.nComp| == |rows.nIndex|
    requires |rows.tensors| == SizeOf(e, lay, 0, rows.nComp, rows.nIndex)
  {
    OffsetsMeet(e, lay, rows.nComp, rows.nIndex, start, stop);
    Rows(rows.nComp[start..stop], rows.nIndex[start..stop],
         rows.tensors[Offset(e, lay, rows.nComp, rows.nIndex, start)..Offset(e, lay, rows.nComp, rows.nIndex, stop)])
  }

  lemma SliceIsOk(e: Engine, lay: Layout, rows: Rows, n: nat, start: nat, stop: nat)
    requires RowsOk(e, lay, 0, n, rows) && start <= stop <= n
    ensures RowsOk(e, lay, start, stop - start, SliceRows(e, lay, rows, start, stop))
  {
    hide SizeOf;
    OffsetsMeet(e, lay, rows.nComp, rows.nIndex, start, stop);
  }
}
