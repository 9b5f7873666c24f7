/** Restoring a session payload to the nodes of a route (ds4_distributed.c). */
module KvRestore {
  import opened Options
  import opened Bytes
  import opened Payload
  import opened KvLayout
  import opened KvSnapshot
  import opened KvTransfer

  /** The session fits the context of the session that loads it, and its tokens are known. */
  predicate Fits(e: Engine, ctx: Word32, s: Snap) {
    && s.lay.ctx <= ctx && s.lay.tokenCount < ctx
    && TokensKnown(e, s.tokens)
  }

  /** What a load hands out: the timeline, the logits, and a shard for every node. */
  datatype Restored = Restored(tokens: seq<Word32>, logits: seq<Byte>, shards: seq<seq<Byte>>)

  /** What a load of these bytes hands out. */
  ghost function Loaded(e: Engine, ctx: Word32, route: seq<Range>, b: seq<Byte>): Option<Restored>
    requires Tiles(route, e.nLayers)
  {
    match DecodeSession(e, b)
    case None => None
    case Some(s) =>
      DecodedSession(e, b);
      if Fits(e, ctx, s) then Some(Restored(s.tokens, s.logits, ShardsOf(e, s, route))) else None
  }

  /** dist_prepare_shard_from_session_payload: cuts one shard off the front of the tensors left. */
  method PrepareShard(e: Engine, lay: Layout, nComp: seq<Word32>, nIndex: seq<Word32>, r: Range, src: seq<Byte>)
    returns (shard: Option<seq<Byte>>, left: seq<Byte>)
    requires |nComp| == |nIndex| && r.start <= r.end < |nComp| && |src| <= U64_MAX
    ensures var size := SizeOf(e, lay, r.start, nComp[r.start..r.end + 1], nIndex[r.start..r.end + 1]);
            if |src| < size then shard.None?
            else
              && var rows := Rows(nComp[r.start..r.end + 1], nIndex[r.start..r.end + 1], src[..size]);
              && shard == Some(EncodeShard(lay, r.start, r.end, rows))
              && left == src[size..]
  {
    hide Encode, LayerSize, SizeOf;
    var (a, ai) := (nComp[r.start..r.end + 1], nIndex[r.start..r.end + 1]);
    var tensors: seq<Byte> := [];
    left := src;
    SizeOfNothing(e, lay, r.start);
    var k := 0;
    while k < |a|
      invariant 0 <= k <= |a|
      invariant |tensors| == SizeOf(e, lay, r.start, a[..k], ai[..k])
      invariant src == tensors + left
    {
      SizeOfStep(e, lay, r.start, a, ai, k);
      var size := LayerTensorBytes(e, lay, r.start + k, a[k], ai[k]);
      if size.None? || |left| < size.value {
        return None, left;
      }
      tensors := tensors + left[..size.value];
      left := left[size.value..];
      k := k + 1;
    }
    assert a[..k] == a && ai[..k] == ai;
    shard := Some(Encode(LayerHeader(lay, r.start, r.end)) + (Encode(a) + Encode(ai) + tensors));
  }

  /** The shards cut so far and the tensors still to be cut. */
  ghost predicate CutSoFar(
    e: Engine, lay: Layout, route: seq<Range>, nComp: seq<Word32>, nIndex: seq<Word32>, tensors: seq<Byte>,
    k: nat, shards: seq<seq<Byte>>, left: seq<Byte>)
    requires Tiles(route, e.nLayers) && k <= |route| && |nComp| == |nIndex| == e.nLayers
  {
    NextGrows(route, e.nLayers, k, |route|);
    var at := Offset(e, lay, nComp, nIndex, Next(route, k));
    && at <= |tensors| && left == tensors[at..]
    && |shards| == k
    && forall j :: 0 <= j < k ==> CutAt(e, lay, route[j], nComp, nIndex, tensors, shards[j])
  }

  ghost predicate CutAt(
    e: Engine, lay: Layout, r: Range, nComp: seq<Word32>, nIndex: seq<Word32>, tensors: seq<Byte>, shard: seq<Byte>)
  {
    && r.start <= r.end < |nComp| == |nIndex|
    && var (from, to) := (Offset(e, lay, nComp, nIndex, r.start), Offset(e, lay, nComp, nIndex, r.end + 1));
    && from <= to <= |tensors|
    && var rows := Rows(nComp[r.start..r.end + 1], nIndex[r.start..r.end + 1], tensors[from..to]);
    && shard == EncodeShard(lay, r.start, r.end, rows)
  }

  /** Whether a node takes its shard, which is its own business. */
  type Accepts = (nat, seq<Byte>) -> bool

  /** Why the node after the loaded ones has none: the tensors end before its slice does, or it did not
      take its shard. */
  ghost predicate StopsAt(
    e: Engine, lay: Layout, route: seq<Range>, nComp: seq<Word32>, nIndex: seq<Word32>, tensors: seq<Byte>,
    accepts: Accepts, k: nat)
    requires Tiles(route, e.nLayers) && |nComp| == |nIndex| == e.nLayers && k < |route|
  {
    NextStart(route, e.nLayers, k);
    || |tensors| < Offset(e, lay, nComp, nIndex, route[k].end + 1)
    || exists shard :: CutAt(e, lay, route[k], nComp, nIndex, tensors, shard) && !accepts(k, shard)
  }

  lemma StopsRefused(
    e: Engine, lay: Layout, route: seq<Range>, nComp: seq<Word32>, nIndex: seq<Word32>, tensors: seq<Byte>,
    accepts: Accepts, k: nat, shard: seq<Byte>)
    requires Tiles(route, e.nLayers) && |nComp| == |nIndex| == e.nLayers && k < |route|
    requires CutAt(e, lay, route[k], nComp, nIndex, tensors, shard) && !accepts(k, shard)
    ensures StopsAt(e, lay, route, nComp, nIndex, tensors, accepts, k)
  {
    hide CutAt, Tiles;
  }

  lemma StopsShort(
    e: Engine, lay: Layout, route: seq<Range>, nComp: seq<Word32>, nIndex: seq<Word32>, tensors: seq<Byte>,
    accepts: Accepts, k: nat)
    requires Tiles(route, e.nLayers) && |nComp| == |nIndex| == e.nLayers && k < |route|
    requires route[k].end < e.nLayers && |tensors| < Offset(e, lay, nComp, nIndex, route[k].end + 1)
    ensures StopsAt(e, lay, route, nComp, nIndex, tensors, accepts, k)
  {
    hide CutAt, Tiles;
  }

  /** The next shard, where left are the tensors from its first layer on. */
  method CutNext(e: Engine, lay: Layout, range: Range, nComp: seq<Word32>, nIndex: seq<Word32>,
                 ghost tensors: seq<Byte>, left: seq<Byte>)
    returns (shard: Option<seq<Byte>>, rest: seq<Byte>)
    requires range.start <= range.end < |nComp| == |nIndex| && |tensors| <= U64_MAX
    requires Offset(e, lay, nComp, nIndex, range.start) <= |tensors|
    requires left == tensors[Offset(e, lay, nComp, nIndex, range.start)..]
    ensures shard.None? ==> |tensors| < Offset(e, lay, nComp, nIndex, range.end + 1)
    ensures shard.Some? ==> Offset(e, lay, nComp, nIndex, range.end + 1) <= |tensors|
    ensures shard.Some? ==> rest == tensors[Offset(e, lay, nComp, nIndex, range.end + 1)..]
    ensures shard.Some? ==> CutAt(e, lay, range, nComp, nIndex, tensors, shard.value)
  {
    hide SizeOf, EncodeShard;
    OffsetsMeet(e, lay, nComp, nIndex, range.start, range.end + 1);
    shard, rest := PrepareShard(e, lay, nComp, nIndex, range, left);
    if shard.Some? {
      ghost var from, to := Offset(e, lay, nComp, nIndex, range.start), Offset(e, lay, nComp, nIndex, range.end + 1);
      assert left[..to - from] == tensors[from..to] && rest == tensors[to..];
    }
  }

  /** Cuts a shard for every node of the route and has it loaded there before the next one is cut; loaded
      are the nodes that have taken theirs, also when the whole fails because one of them does not, the
      tensors run out, or bytes remain after the last. */
  method LoadShards(e: Engine, lay: Layout, route: seq<Range>, nComp: seq<Word32>, nIndex: seq<Word32>, tensors: seq<Byte>,
                    accepts: Accepts)
    returns (ok: bool, loaded: seq<seq<Byte>>)
    requires Tiles(route, e.nLayers) && |nComp| == |nIndex| == e.nLayers && |tensors| <= U64_MAX
    ensures |loaded| <= |route|
    ensures forall j :: 0 <= j < |loaded| ==>
              CutAt(e, lay, route[j], nComp, nIndex, tensors, loaded[j]) && accepts(j, loaded[j])
    ensures |loaded| < |route| ==> !ok && StopsAt(e, lay, route, nComp, nIndex, tensors, accepts, |loaded|)
    ensures |loaded| == |route| ==> SizeOf(e, lay, 0, nComp, nIndex) <= |tensors|
    ensures |loaded| == |route| ==> (ok <==> |tensors| == SizeOf(e, lay, 0, nComp, nIndex))
  {
    hide SizeOf, EncodeShard, StopsAt, CutAt, Offset;
    var shards: seq<seq<Byte>> := [];
    var left := tensors;
    WholeOffsets(e, lay, nComp, nIndex);
    var k := 0;
    while k < |route|
      invariant 0 <= k <= |route|
      invariant CutSoFar(e, lay, route, nComp, nIndex, tensors, k, shards, left)
      invariant forall j :: 0 <= j < k ==> accepts(j, shards[j])
    {
      var range := route[k];
      NextStart(route, e.nLayers, k);
      var shard, rest := CutNext(e, lay, range, nComp, nIndex, tensors, left);
      if shard.None? {
        StopsShort(e, lay, route, nComp, nIndex, tensors, accepts, k);
        return false, shards;
      }
      if !accepts(k, shard.value) {
        StopsRefused(e, lay, route, nComp, nIndex, tensors, accepts, k, shard.value);
        return false, shards;
      }
      shards := shards + [shard.value];
      left := rest;
      k := k + 1;
    }
    assert Next(route, k) == e.nLayers;
    return |left| == 0, shards;
  }

  lemma WholeOffsets(e: Engine, lay: Layout, nComp: seq<Word32>, nIndex: seq<Word32>)
    requires |nComp| == |nIndex|
    ensures Offset(e, lay, nComp, nIndex, 0) == 0
    ensures Offset(e, lay, nComp, nIndex, |nComp|) == SizeOf(e, lay, 0, nComp, nIndex)
  {
    SizeOfNothing(e, lay, 0);
    assert nComp[..|nComp|] == nComp && nIndex[..|nComp|] == nIndex;
  }

  lemma CutsAreShards(e: Engine, s: Snap, route: seq<Range>, shards: seq<seq<Byte>>)
    requires SnapOk(e, s) && Tiles(route, e.nLayers) && |shards| <= |route|
    requires forall j :: 0 <= j < |shards| ==>
               CutAt(e, s.lay, route[j], s.rows.nComp, s.rows.nIndex, s.rows.tensors, shards[j])
    ensures |ShardsOf(e, s, route)| == |route| && shards == ShardsOf(e, s, route)[..|shards|]
  {
    hide SizeOf, EncodeShard, RawLiveOk, AtMost;
    forall j | 0 <= j < |shards|
      ensures shards[j] == ShardOf(e, s, route[j])
    {
      assert CutAt(e, s.lay, route[j], s.rows.nComp, s.rows.nIndex, s.rows.tensors, shards[j]);
    }
  }

  predicate TokensKnown(e: Engine, tokens: seq<Word32>) {
    forall i :: 0 <= i < |tokens| ==> tokens[i] < 0x8000_0000 && tokens[i] < e.vocab
  }

  /** With the tensors of a session, the only reason to stop is a node that does not take its shard. */
  lemma StopsAtRefusal(e: Engine, s: Snap, route: seq<Range>, accepts: Accepts, k: nat)
    requires SnapOk(e, s) && Tiles(route, e.nLayers) && k < |route|
    requires StopsAt(e, s.lay, route, s.rows.nComp, s.rows.nIndex, s.rows.tensors, accepts, k)
    ensures |ShardsOf(e, s, route)| == |route| && !accepts(k, ShardsOf(e, s, route)[k])
  {
    hide SizeOf, EncodeShard, RawLiveOk, AtMost;
    NextStart(route, e.nLayers, k);
    OffsetsMeet(e, s.lay, s.rows.nComp, s.rows.nIndex, route[k].end + 1, e.nLayers);
    var shard :| CutAt(e, s.lay, route[k], s.rows.nComp, s.rows.nIndex, s.rows.tensors, shard) && !accepts(k, shard);
    assert shard == ShardOf(e, s, route[k]);
  }

  /** The nodes have taken their shards one after the other, all of them or up to the first that refused. */
  predicate Delivered(all: bool, loaded: seq<seq<Byte>>, shards: seq<seq<Byte>>, accepts: Accepts) {
    && |loaded| <= |shards| && loaded == shards[..|loaded|]
    && (forall j :: 0 <= j < |loaded| ==> accepts(j, shards[j]))
    && (|loaded| < |shards| ==> !accepts(|loaded|, shards[|loaded|]))
    && (all <==> |loaded| == |shards|) && (all ==> loaded == shards)
  }

  /** The part of ds4_dist_session_load_payload after the header and the timeline. */
  method LoadRows(e: Engine, lay: Layout, ghost tokens: seq<Word32>, ghost logits: seq<Byte>, route: seq<Range>,
                  b: seq<Byte>, accepts: Accepts)
    returns (ok: bool, loaded: seq<seq<Byte>>)
    requires Tiles(route, e.nLayers) && |b| <= U64_MAX && LayoutOk(e, lay)
    requires |tokens| == lay.tokenCount && |logits| == 4 * e.vocab
    ensures DecodeRows(e, lay, 0, e.nLayers, b).None? ==> !ok
    ensures DecodeRows(e, lay, 0, e.nLayers, b).Some? ==>
              var s := Snap(lay, tokens, logits, DecodeRows(e, lay, 0, e.nLayers, b).value);
              SnapOk(e, s) && Delivered(ok, loaded, ShardsOf(e, s, route), accepts)
  {
    hide Words, SizeOf, RawLiveOk, EncodeShard, ShardsOf, Tiles, CutAt;
    var nComp, rest := ReadWords(b, e.nLayers, lay.compCap);
    if nComp.None? {
      return false, [];
    }
    var nIndex, tensors := ReadWords(rest, e.nLayers, lay.compCap);
    if nIndex.None? {
      return false, [];
    }
    assert rest[4 * e.nLayers..] == b[8 * e.nLayers..];
    ok, loaded := LoadShards(e, lay, route, nComp.value, nIndex.value, tensors, accepts);
    if DecodeRows(e, lay, 0, e.nLayers, b).Some? {
      ghost var s := Snap(lay, tokens, logits, Rows(nComp.value, nIndex.value, tensors));
      CutsAreShards(e, s, route, loaded);
      if |loaded| < |route| {
        StopsAtRefusal(e, s, route, accepts, |loaded|);
      }
    }
  }

  /** ds4_dist_session_load_payload, where accepts says which node takes which shard: it succeeds exactly
      when the payload is that of a session that fits and every node takes its slice. A node that does
      not is the first of those left without, while the ones before it keep theirs. */
  method LoadPayload(e: Engine, ctx: Word32, route: seq<Range>, b: seq<Byte>, accepts: Accepts)
    returns (out: Option<Restored>, loaded: seq<seq<Byte>>)
    requires Tiles(route, e.nLayers) && |b| <= U64_MAX
    ensures Loaded(e, ctx, route, b).None? ==> out.None?
    ensures Loaded(e, ctx, route, b).Some? ==> Delivered(out.Some?, loaded, Loaded(e, ctx, route, b).value.shards, accepts)
    ensures out.Some? ==> out == Loaded(e, ctx, route, b) && loaded == out.value.shards
  {
    hide Words, SizeOf, RawLiveOk, DecodeRows, SessionBytes, ShardsOf, Tiles;
    var h, rest := ReadWords(b, SESSION_FIELDS, WORD_MAX);
    if h.None? || !SessionHeaderOk(e, h.value) {
      return None, [];
    }
    var lay := SessionLayout(h.value);
    if lay.ctx > ctx || lay.tokenCount >= ctx {
      return None, [];
    }
    var tokens, afterTokens := ReadWords(rest, lay.tokenCount, WORD_MAX);
    if tokens.None? || !TokensKnown(e, tokens.value) || |afterTokens| < 4 * e.vocab {
      return None, [];
    }
    var logits, afterLogits := afterTokens[..4 * e.vocab], afterTokens[4 * e.vocab..];
    ghost var n, v := 4 * lay.tokenCount, 4 * e.vocab;
    assert rest[n..n + v] == logits && rest[n + v..] == afterLogits;
    var ok;
    ok, loaded := LoadRows(e, lay, tokens.value, logits, route, afterLogits, accepts);
    if !ok {
      return None, loaded;
    }
    return Some(Restored(tokens.value, logits, loaded)), loaded;
  }

  // ----- From one cluster to another -----------------------------------------------------

  /** A session saved from the nodes of one route and loaded on the nodes of another comes back whole:
      its timeline, its logits, and on every node exactly its slice of the rows and tensors. The load
      succeeds exactly when the session fits the new context, for which a timeline as long as the
      context is already too long. */
  lemma SaveThenLoad(e: Engine, s: Snap, from: seq<Range>, to: seq<Range>, ctx: Word32)
    requires SnapOk(e, s) && Tiles(from, e.nLayers) && Tiles(to, e.nLayers)
    ensures var saved := Saved(e, from, ShardsOf(e, s, from), s.tokens, s.logits);
            && saved.Some?
            && Loaded(e, ctx, to, saved.value)
               == if s.lay.ctx <= ctx && s.lay.tokenCount < ctx
                     && forall i :: 0 <= i < |s.tokens| ==> s.tokens[i] < 0x8000_0000 && s.tokens[i] < e.vocab
                  then Some(Restored(s.tokens, s.logits, ShardsOf(e, s, to))) else None
  {
    hide SizeOf, SessionBytes, DecodeSession, SnapOk, Saved, Tiles;
    SaveIsRouteFree(e, s, from);
    SessionRoundTrip(e, s);
  }

  /** Saving again from the nodes restored by a load gives the bytes that were loaded. */
  lemma LoadThenSave(e: Engine, ctx: Word32, route: seq<Range>, b: seq<Byte>)
    requires Tiles(route, e.nLayers) && Loaded(e, ctx, route, b).Some?
    ensures var r := Loaded(e, ctx, route, b).value;
            |r.shards| == |route| && Saved(e, route, r.shards, r.tokens, r.logits) == Some(b)
  {
    hide SizeOf, SessionBytes, DecodeSession, SnapOk, Saved, Fits, Tiles;
    DecodedSession(e, b);
    SaveIsRouteFree(e, DecodeSession(e, b).value, route);
  }

  /** Every session can be saved, but it comes back into the very context it was saved from exactly when
      its timeline is shorter than that context: one that fills it is lost, on any route. */
  lemma FullContextIsNotRestored(e: Engine, s: Snap, from: seq<Range>, to: seq<Range>)
    requires SnapOk(e, s) && Tiles(from, e.nLayers) && Tiles(to, e.nLayers)
    ensures var saved := Saved(e, from, ShardsOf(e, s, from), s.tokens, s.logits);
            && saved.Some?
            && (Loaded(e, s.lay.ctx, to, saved.value).Some? <==> s.lay.tokenCount < s.lay.ctx && TokensKnown(e, s.tokens))
  {
    hide Saved, Loaded, ShardsOf, Tiles, SessionBytes;
    SaveThenLoad(e, s, from, to, s.lay.ctx);
  }

  /** The smallest such session: one layer, one token, a context of one. */
  lemma SmallestFullContext(s: Snap)
    requires s == Snap(Layout(1, 1, 1, 1, 0, 1, 1, 0, 0, 1), [0], [0, 0, 0, 0], Rows([0], [0], []))
    ensures var e := Engine(1, 1, _ => 0, None);
            var route := [Range(0, 0)];
            && SnapOk(e, s) && Tiles(route, e.nLayers)
            && Saved(e, route, ShardsOf(e, s, route), s.tokens, s.logits).Some?
            && Loaded(e, 1, route, Saved(e, route, ShardsOf(e, s, route), s.tokens, s.logits).value).None?
  {
    var e := Engine(1, 1, _ => 0, None);
    SmallSizes(e, s.lay);
    FullContextIsNotRestored(e, s, [Range(0, 0)], [Range(0, 0)]);
  }

  lemma SmallSizes(e: Engine, lay: Layout)
    requires e.glm.None? && e.ratio(0) == 0 && lay.headDim == 0
    ensures SizeOf(e, lay, 0, [0], [0]) == 0
  {
    assert [0][1..] == [];
    SizeOfNothing(e, lay, 1);
  }
}
