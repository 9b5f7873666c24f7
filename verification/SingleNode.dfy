/** The reference of the pipeline without any of its machinery: the table that one node fills in, a row
    for every chunk of the prompt and a column for every layer. */
module SingleNode {
  import opened Arith
  import opened TokenHash
  import opened WorkerSession
  import opened LayerSlices
  import opened Pipeline
  import opened PipelineInvariant

  // ----- The table -----------------------------------------------------------------------

  /** Chunk i of the prompt is the tokens lo .. hi. */
  predicate ChunkSpans<KV, Hid, Lg>(cfg: Config<KV, Hid, Lg>, i: nat, lo: nat, hi: nat) {
    && lo == cfg.spanStart + i * cfg.chunkCap
    && lo <= hi <= |cfg.prompt|
    && hi == if lo + cfg.chunkCap < cfg.spanStart + cfg.nTokens then lo + cfg.chunkCap else cfg.spanStart + cfg.nTokens
  }

  /** kv[i][l] is the state of layer l before chunk i, and hid[i][l] the hidden value of chunk i that goes
      into layer l. */
  ghost predicate TableShape<KV, Hid, Lg>(cfg: Config<KV, Hid, Lg>, kv: seq<seq<KV>>, hid: seq<seq<Hid>>)
    requires cfg.chunkCap > 0
  {
    var chunks := (cfg.nTokens + cfg.chunkCap - 1) / cfg.chunkCap;
    && |kv| == chunks + 1 && |hid| == chunks
    && (forall i :: 0 <= i < |kv| ==> |kv[i]| == |cfg.kv0|)
    && (forall i :: 0 <= i < |hid| ==> |hid[i]| == |cfg.kv0| + 1)
  }

  /** The node starts from its states, or from blank ones after a reset. */
  ghost predicate FirstRow<KV, Hid, Lg>(cfg: Config<KV, Hid, Lg>, row: seq<KV>) {
    |row| == |cfg.kv0| && forall l :: 0 <= l < |row| ==> row[l] == if cfg.reset then cfg.model.blank(l) else cfg.kv0[l]
  }

  /** Chunk i is embedded, and then every layer takes its own state and the hidden value before it to its
      next state and the hidden value after it. */
  ghost predicate RowRuns<KV, Hid, Lg>(
    cfg: Config<KV, Hid, Lg>, i: nat, before: seq<KV>, hid: seq<Hid>, after: seq<KV>)
    requires |before| == |after| == |cfg.kv0| && |hid| == |cfg.kv0| + 1
  {
    exists lo: nat, hi: nat :: ChunkSpans(cfg, i, lo, hi)
      && hid[0] == cfg.model.embed(cfg.prompt[lo..hi], lo)
      && forall l :: 0 <= l < |cfg.kv0| ==>
           cfg.model.layer(l, before[l], hid[l], cfg.prompt[lo..hi], lo) == (after[l], hid[l + 1])
  }

  ghost predicate Fills<KV, Hid, Lg>(cfg: Config<KV, Hid, Lg>, kv: seq<seq<KV>>, hid: seq<seq<Hid>>)
    requires cfg.chunkCap > 0
  {
    && TableShape(cfg, kv, hid)
    && FirstRow(cfg, kv[0])
    && forall i :: 0 <= i < |hid| ==> RowRuns(cfg, i, kv[i], hid[i], kv[i + 1])
  }

  lemma {:induction false} SameCells<KV, Hid, Lg>(
    cfg: Config<KV, Hid, Lg>, tokens: seq<int>, pos: nat, before: seq<KV>,
    hidA: seq<Hid>, afterA: seq<KV>, hidB: seq<Hid>, afterB: seq<KV>, l: nat)
    requires |before| == |afterA| == |afterB| && |hidA| == |hidB| == |before| + 1 && hidA[0] == hidB[0] && l <= |before|
    requires forall k :: 0 <= k < |before| ==>
               cfg.model.layer(k, before[k], hidA[k], tokens, pos) == (afterA[k], hidA[k + 1])
    requires forall k :: 0 <= k < |before| ==>
               cfg.model.layer(k, before[k], hidB[k], tokens, pos) == (afterB[k], hidB[k + 1])
    ensures afterA[..l] == afterB[..l] && hidA[..l + 1] == hidB[..l + 1]
    decreases l
  {
    if l > 0 {
      SameCells(cfg, tokens, pos, before, hidA, afterA, hidB, afterB, l - 1);
      assert hidA[..l][l - 1] == hidB[..l][l - 1];
      assert afterA[..l] == afterA[..l - 1] + [afterA[l - 1]] && afterB[..l] == afterB[..l - 1] + [afterB[l - 1]];
      assert hidA[..l + 1] == hidA[..l] + [hidA[l]] && hidB[..l + 1] == hidB[..l] + [hidB[l]];
    }
  }

  lemma SameRow<KV, Hid, Lg>(
    cfg: Config<KV, Hid, Lg>, i: nat, before: seq<KV>, hidA: seq<Hid>, afterA: seq<KV>, hidB: seq<Hid>, afterB: seq<KV>)
    requires |before| == |afterA| == |afterB| == |cfg.kv0| && |hidA| == |hidB| == |cfg.kv0| + 1
    requires RowRuns(cfg, i, before, hidA, afterA) && RowRuns(cfg, i, before, hidB, afterB)
    ensures hidA == hidB && afterA == afterB
  {
    var lo: nat, hi: nat :| ChunkSpans(cfg, i, lo, hi)
      && hidA[0] == cfg.model.embed(cfg.prompt[lo..hi], lo)
      && forall l :: 0 <= l < |cfg.kv0| ==>
           cfg.model.layer(l, before[l], hidA[l], cfg.prompt[lo..hi], lo) == (afterA[l], hidA[l + 1]);
    var n := |before|;
    SameCells(cfg, cfg.prompt[lo..hi], lo, before, hidA, afterA, hidB, afterB, n);
    assert hidA[..n + 1] == hidA && hidB[..n + 1] == hidB && afterA[..n] == afterA && afterB[..n] == afterB;
  }

  /** There is only one such table. */
  lemma {:induction false} TableIsUnique<KV, Hid, Lg>(
    cfg: Config<KV, Hid, Lg>, kvA: seq<seq<KV>>, hidA: seq<seq<Hid>>, kvB: seq<seq<KV>>, hidB: seq<seq<Hid>>, n: nat)
    requires cfg.chunkCap > 0 && Fills(cfg, kvA, hidA) && Fills(cfg, kvB, hidB) && n <= |hidA|
    ensures |kvA| == |kvB| && |hidA| == |hidB|
    ensures kvA[..n + 1] == kvB[..n + 1] && hidA[..n] == hidB[..n]
    decreases n
  {
    hide RowRuns, ChunkSpans;
    if n == 0 {
      assert kvA[0] == kvB[0];
      assert kvA[..1] == [kvA[0]] && kvB[..1] == [kvB[0]];
    } else {
      TableIsUnique(cfg, kvA, hidA, kvB, hidB, n - 1);
      assert kvA[..n][n - 1] == kvB[..n][n - 1];
      SameRow(cfg, n - 1, kvA[n - 1], hidA[n - 1], kvA[n], hidB[n - 1], kvB[n]);
      assert kvA[..n + 1] == kvA[..n] + [kvA[n]] && kvB[..n + 1] == kvB[..n] + [kvB[n]];
      assert hidA[..n] == hidA[..n - 1] + [hidA[n - 1]] && hidB[..n] == hidB[..n - 1] + [hidB[n - 1]];
    }
  }

  // ----- The reference of the invariant fills the table ----------------------------------

  lemma ChunkIsSpan<KV, Hid, Lg>(cfg: Config<KV, Hid, Lg>, i: nat)
    requires cfg.Valid() && i < cfg.Count()
    ensures ChunkSpans(cfg, i, cfg.Start(i), cfg.Start(i + 1))
    ensures Chunk(cfg, i) == cfg.prompt[cfg.Start(i)..cfg.Start(i + 1)]
  {
    cfg.Starts(i);
    cfg.StartClosed(i);
  }

  ghost function HiddenRow<KV, Hid, Lg>(cfg: Config<KV, Hid, Lg>, i: nat): seq<Hid>
    requires cfg.Valid()
  {
    seq(|cfg.kv0| + 1, l requires 0 <= l <= |cfg.kv0| => RefHidden(cfg, i, l))
  }

  lemma CellRuns<KV, Hid, Lg>(cfg: Config<KV, Hid, Lg>, i: nat, l: nat)
    requires cfg.Valid() && l < |cfg.kv0|
    ensures cfg.model.layer(l, RefKv(cfg, i)[l], RefHidden(cfg, i, l), Chunk(cfg, i), cfg.Start(i))
         == (RefKv(cfg, i + 1)[l], RefHidden(cfg, i, l + 1))
  {
    hide RefKv, RefHidden, Chunk, Model.Slice, Config.Start;
    SliceCell(cfg, i, l, l + 1);
    var kvs, tokens, pos := RefKv(cfg, i)[l..l + 1], Chunk(cfg, i), cfg.Start(i);
    var trace := cfg.model.SliceRuns(l, kvs, RefHidden(cfg, i, l), tokens, pos);
    assert cfg.model.layer(l + 0, kvs[0], trace[0], tokens, pos)
        == (cfg.model.Slice(l, kvs, RefHidden(cfg, i, l), tokens, pos).0[0], trace[0 + 1]);
    assert RefKv(cfg, i + 1)[l..l + 1][0] == RefKv(cfg, i + 1)[l];
  }

  lemma RowOfReference<KV, Hid, Lg>(cfg: Config<KV, Hid, Lg>, i: nat)
    requires cfg.Valid() && i < cfg.Count()
    ensures RowRuns(cfg, i, RefKv(cfg, i), HiddenRow(cfg, i), RefKv(cfg, i + 1))
  {
    hide RefKv, Config.Start, ChunkSpans;
    ChunkIsSpan(cfg, i);
    forall l | 0 <= l < |cfg.kv0|
      ensures cfg.model.layer(l, RefKv(cfg, i)[l], HiddenRow(cfg, i)[l], Chunk(cfg, i), cfg.Start(i))
           == (RefKv(cfg, i + 1)[l], HiddenRow(cfg, i)[l + 1])
    {
      CellRuns(cfg, i, l);
    }
    assert RefHidden(cfg, i, 0) == cfg.model.embed(Chunk(cfg, i), cfg.Start(i));
  }

  lemma ReferenceFills<KV, Hid, Lg>(cfg: Config<KV, Hid, Lg>) returns (kv: seq<seq<KV>>, hid: seq<seq<Hid>>)
    requires cfg.Valid()
    ensures Fills(cfg, kv, hid) && |hid| == cfg.Count()
    ensures forall i :: 0 <= i < |kv| ==> kv[i] == RefKv(cfg, i)
    ensures forall i :: 0 <= i < |hid| ==> hid[i] == HiddenRow(cfg, i)
  {
    hide RowRuns, HiddenRow;
    ChunkCountIsCeilDiv(cfg.nTokens, cfg.chunkCap);
    kv := seq(cfg.Count() + 1, i requires 0 <= i <= cfg.Count() => RefKv(cfg, i));
    hid := seq(cfg.Count(), i requires 0 <= i < cfg.Count() => HiddenRow(cfg, i));
    HiddenRowShape(cfg);
    forall i | 0 <= i < |hid|
      ensures RowRuns(cfg, i, kv[i], hid[i], kv[i + 1])
    {
      RowOfReference(cfg, i);
    }
  }

  lemma HiddenRowShape<KV, Hid, Lg>(cfg: Config<KV, Hid, Lg>)
    requires cfg.Valid()
    ensures forall i: nat :: |HiddenRow(cfg, i)| == |cfg.kv0| + 1
  {
    hide RefHidden;
  }

  // ----- What travels --------------------------------------------------------------------

  /** f is the frame of chunk i for the worker behind the first layers: the chunk with its place in the
      prompt and the hashes of the prompt before and after it, the hidden value that its first layer
      takes, a reset before the very first chunk only, a bare acknowledgement wanted for all but the
      last one at most, and logits from the last worker at most. */
  ghost predicate FrameOf<KV, Hid, Lg>(
    cfg: Config<KV, Hid, Lg>, hid: seq<seq<Hid>>, j: nat, i: nat, f: Frame<Hid>)
  {
    && j + 2 < |cfg.bounds| && i < |hid| && cfg.bounds[j + 1] < |hid[i]|
    && f.id == cfg.firstId + i
    && f.hidden == hid[i][cfg.bounds[j + 1]]
    && f.ackOnly == (cfg.ackOnly && i + 1 < |hid|)
    && f.logits == (cfg.lastLogits && j + 3 == |cfg.bounds|)
    && f.work.reset == (cfg.reset && i == 0)
    && exists lo: nat, hi: nat :: ChunkSpans(cfg, i, lo, hi)
         && f.work.pos0 == lo && f.work.tokens == cfg.prompt[lo..hi]
         && f.work.prefixHash == cfg.hs.Prefix(cfg.prompt[..lo])
         && f.work.resultHash == cfg.hs.Prefix(cfg.prompt[..hi])
  }

  /** r is the answer to chunk i: its id, the hash of the prompt up to its end, and what was asked for. */
  ghost predicate AnswerOf<KV, Hid, Lg>(
    cfg: Config<KV, Hid, Lg>, hid: seq<seq<Hid>>, i: nat, r: Result<Hid, Lg>)
  {
    && i < |hid| && |hid[i]| == |cfg.kv0| + 1
    && r.id == cfg.firstId + i
    && exists lo: nat, hi: nat :: ChunkSpans(cfg, i, lo, hi)
         && r.hash == cfg.hs.Prefix(cfg.prompt[..hi])
         && r.payload ==
              if cfg.ackOnly && i + 1 < |hid| then Ack
              else if cfg.lastLogits then Logits(cfg.model.head(hid[i][|cfg.kv0|]))
              else Hidden(hi - lo, hid[i][|cfg.kv0|])
  }

  lemma FrameAtIs<KV, Hid, Lg>(cfg: Config<KV, Hid, Lg>, hid: seq<seq<Hid>>, j: nat, i: nat)
    requires cfg.Valid() && j < cfg.Hops() && i < cfg.Count() == |hid| && hid[i] == HiddenRow(cfg, i)
    ensures FrameOf(cfg, hid, j, i, FrameAt(cfg, j, i))
  {
    hide RefHidden, ChunkSpans, Config.Start;
    ChunkIsSpan(cfg, i);
    assert cfg.bounds[j + 1] < cfg.bounds[|cfg.bounds| - 1];
    assert HashAt(cfg, i + 1) == cfg.hs.Prefix(cfg.prompt[..cfg.Start(i + 1)]);
  }

  lemma ResultAtIs<KV, Hid, Lg>(cfg: Config<KV, Hid, Lg>, hid: seq<seq<Hid>>, i: nat)
    requires cfg.Valid() && i < cfg.Count() == |hid| && hid[i] == HiddenRow(cfg, i)
    ensures AnswerOf(cfg, hid, i, ResultAt(cfg, i))
  {
    hide RefHidden, ChunkSpans, Config.Start;
    ChunkIsSpan(cfg, i);
    assert HashAt(cfg, i + 1) == cfg.hs.Prefix(cfg.prompt[..cfg.Start(i + 1)]);
  }
}
