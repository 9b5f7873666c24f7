/** Saving a session from the nodes of one route and restoring it to the nodes of another
    (ds4_distributed.c). */
module KvTransfer {
  import opened Options
  import opened Bytes
  import opened Payload
  import opened KvLayout
  import opened KvSnapshot

  /** The layers one node of a route holds. */
  datatype Range = Range(start: Word32, end: Word32)

  /** The ranges follow each other from layer 0 to the last layer. */
  ghost predicate Tiles(route: seq<Range>, nLayers: Word32) {
    && route != [] && route[0].start == 0
    && (forall k :: 0 <= k < |route| ==> route[k].start <= route[k].end < nLayers)
    && (forall k :: 0 < k < |route| ==> route[k].start == route[k - 1].end + 1)
    && route[|route| - 1].end + 1 == nLayers
  }

  /** dist_kv_route_validate over the coordinator's own range and the plan's entries. */
  method ValidateRoute(nLayers: Word32, local: Range, plan: seq<Range>) returns (ok: bool)
    ensures ok <==> Tiles([local] + plan, nLayers)
  {
    ghost var route := [local] + plan;
    if nLayers == 0 || local.start != 0 || local.end >= nLayers {
      return false;
    }
    var prev := local.end;
    for i := 0 to |plan|
      invariant prev == route[i].end
      invariant forall k :: 0 <= k <= i ==> route[k].start <= route[k].end < nLayers
      invariant forall k :: 0 < k <= i ==> route[k].start == route[k - 1].end + 1
    {
      assert route[i + 1] == plan[i];
      if prev == WORD_MAX || plan[i].start != prev + 1 || plan[i].end < plan[i].start || plan[i].end >= nLayers {
        return false;
      }
      prev := plan[i].end;
    }
    return prev + 1 == nLayers;
  }

  /** The layer after the first k ranges. */
  function Next(route: seq<Range>, k: nat): nat
    requires k <= |route|
  {
    if k == 0 then 0 else route[k - 1].end + 1
  }

  lemma NextStart(route: seq<Range>, nLayers: Word32, k: nat)
    requires Tiles(route, nLayers) && k < |route|
    ensures route[k].start == Next(route, k) <= Next(route, k + 1) <= nLayers
  {
  }

  /** The shard of range r of a session. */
  function ShardOf(e: Engine, s: Snap, r: Range): seq<Byte>
    requires SnapOk(e, s) && r.start <= r.end < e.nLayers
  {
    EncodeShard(s.lay, r.start, r.end, SliceRows(e, s.lay, s.rows, r.start, r.end + 1))
  }

  function ShardsOf(e: Engine, s: Snap, route: seq<Range>): (shards: seq<seq<Byte>>)
    requires SnapOk(e, s) && Tiles(route, e.nLayers)
    ensures |shards| == |route|
  {
    seq(|route|, k requires 0 <= k < |route| => ShardOf(e, s, route[k]))
  }

  // ----- Gathering shards ----------------------------------------------------------------

  /** What the first shards of a save have contributed. */
  datatype Gathered = Gathered(lay: Option<Layout>, rows: Rows)

  const NOTHING := Gathered(None, Rows([], [], []))

  function AppendRows(a: Rows, b: Rows): Rows {
    Rows(a.nComp + b.nComp, a.nIndex + b.nIndex, a.tensors + b.tensors)
  }

  /** One more shard: it must be understood and have the layout of the earlier ones. */
  function AddShard(e: Engine, g: Gathered, r: Range, shard: seq<Byte>): Option<Gathered> {
    match DecodeShard(e, r.start, r.end, shard)
    case None => None
    case Some((lay, rows)) =>
      if g.lay.Some? && g.lay.value != lay then None else Some(Gathered(Some(lay), AppendRows(g.rows, rows)))
  }

  function Gather(e: Engine, route: seq<Range>, shards: seq<seq<Byte>>, k: nat): Option<Gathered>
    requires k <= |route| == |shards|
  {
    if k == 0 then Some(NOTHING)
    else
      match Gather(e, route, shards, k - 1)
      case None => None
      case Some(g) => AddShard(e, g, route[k - 1], shards[k - 1])
  }

  /** The payload a save writes for these shards. */
  function Saved(e: Engine, route: seq<Range>, shards: seq<seq<Byte>>, tokens: seq<Word32>, logits: seq<Byte>)
    : Option<seq<Byte>>
    requires |route| == |shards|
  {
    match Gather(e, route, shards, |route|)
    case None => None
    case Some(g) =>
      if g.lay.None? || g.lay.value.tokenCount != |tokens| || g.lay.value.nLayers != e.nLayers then None
      else Some(SessionBytes(e, Snap(g.lay.value, tokens, logits, g.rows)))
  }

  /** ds4_dist_session_save_payload, once every node has handed over its shard. */
  method SavePayload(e: Engine, route: seq<Range>, shards: seq<seq<Byte>>, tokens: seq<Word32>, logits: seq<Byte>)
    returns (out: Option<seq<Byte>>)
    requires |route| == |shards| && |logits| == 4 * e.vocab
    requires forall k :: 0 <= k < |shards| ==> |shards[k]| <= U64_MAX
    ensures out == Saved(e, route, shards, tokens, logits)
  {
    hide DecodeShard, Encode, EncodeRows, SessionHeader;
    var lay: Option<Layout> := None;
    var rows := Rows([], [], []);
    var k := 0;
    while k < |route|
      invariant 0 <= k <= |route|
      invariant Gather(e, route, shards, k) == Some(Gathered(lay, rows))
    {
      var shard := ParseShard(e, shards[k], route[k].start, route[k].end, lay);
      if shard.None? {
        GatherStaysNone(e, route, shards, k + 1, |route|);
        return None;
      }
      lay := Some(shard.value.0);
      rows := AppendRows(rows, shard.value.1);
      k := k + 1;
    }
    if lay.None? || lay.value.tokenCount != |tokens| || lay.value.nLayers != e.nLayers {
      return None;
    }
    out := Some(Encode(SessionHeader(e, lay.value)) + (Encode(tokens) + (logits + EncodeRows(rows))));
  }

  lemma {:induction false} GatherStaysNone(e: Engine, route: seq<Range>, shards: seq<seq<Byte>>, j: nat, k: nat)
    requires j <= k <= |route| == |shards| && Gather(e, route, shards, j).None?
    ensures Gather(e, route, shards, k).None?
    decreases k
  {
    hide AddShard;
    if j < k {
      GatherStaysNone(e, route, shards, j, k - 1);
    }
  }

  /** dist_kv_parse_layer_payload, reading word by word. */
  method ParseShard(e: Engine, b: seq<Byte>, start: Word32, end: Word32, lay: Option<Layout>)
    returns (r: Option<(Layout, Rows)>)
    requires |b| <= U64_MAX
    ensures r == if DecodeShard(e, start, end, b).Some? && (lay.None? || lay == Some(DecodeShard(e, start, end, b).value.0))
                 then DecodeShard(e, start, end, b) else None
  {
    hide Words, RawLiveOk, SizeOf;
    var h, rest := ReadWords(b, LAYER_FIELDS, WORD_MAX);
    if h.None? {
      return None;
    }
    if !LayerHeaderOk(e, start, end, h.value) {
      return None;
    }
    var got := LayerLayout(h.value);
    if lay.Some? && lay.value != got {
      return None;
    }
    var rows := ParseRows(e, got, start, end - start + 1, rest);
    if rows.None? {
      return None;
    }
    return Some((got, rows.value));
  }

  /** n words from the front, none of them above cap. */
  method ReadWords(b: seq<Byte>, n: nat, cap: nat) returns (r: Option<seq<Word32>>, rest: seq<Byte>)
    ensures r.Some? <==> 4 * n <= |b| && AtMost(Words(b, n), cap)
    ensures r.Some? ==> r.value == Words(b, n) && rest == b[4 * n..]
  {
    var ws: seq<Word32> := [];
    rest := b;
    var i := 0;
    assert rest == b[0..];
    while i < n
      invariant 0 <= i <= n && 4 * i <= |b| && rest == b[4 * i..]
      invariant ws == Words(b, i) && AtMost(ws, cap)
    {
      var word, left := ReadWord(rest);
      if word.None? {
        return None, rest;
      }
      WordsSplit(b, i, 1);
      assert Words(rest, 1) == [word.value];
      ghost var at := |ws|;
      ws := ws + [word.value];
      rest := left;
      i := i + 1;
      if word.value > cap {
        if 4 * n <= |b| {
          WordsSplit(b, i, n - i);
          assert Words(b, n)[at] == word.value;
        }
        return None, rest;
      }
    }
    return Some(ws), rest;
  }

  /** The two tables of row counts and the check that the tensors fill the rest. */
  method ParseRows(e: Engine, lay: Layout, start: nat, n: nat, b: seq<Byte>) returns (r: Option<Rows>)
    requires |b| <= U64_MAX
    ensures r == DecodeRows(e, lay, start, n, b)
  {
    hide Words, SizeOf, RawLiveOk;
    var nComp, rest := ReadWords(b, n, lay.compCap);
    if nComp.None? {
      return None;
    }
    var nIndex, tensors := ReadWords(rest, n, lay.compCap);
    if nIndex.None? {
      return None;
    }
    assert b[4 * n..][4 * n..] == b[8 * n..];
    var expected := TensorBytes(e, lay, start, nComp.value, nIndex.value);
    if expected != Some(|tensors|) {
      return None;
    }
    return Some(Rows(nComp.value, nIndex.value, tensors));
  }

  // ----- A save writes the snapshot, whatever the route ----------------------------------

  /** The layers before the k-th range. */
  function Before(e: Engine, s: Snap, route: seq<Range>, k: nat): Rows
    requires SnapOk(e, s) && Tiles(route, e.nLayers) && k <= |route|
  {
    SliceRows(e, s.lay, s.rows, 0, Next(route, k))
  }

  lemma SlicesJoin(e: Engine, lay: Layout, rows: Rows, n: nat, a: nat, b: nat)
    requires RowsOk(e, lay, 0, n, rows) && a <= b <= n
    ensures AppendRows(SliceRows(e, lay, rows, 0, a), SliceRows(e, lay, rows, a, b)) == SliceRows(e, lay, rows, 0, b)
  {
    hide SizeOf;
    OffsetsMeet(e, lay, rows.nComp, rows.nIndex, 0, a);
    OffsetsMeet(e, lay, rows.nComp, rows.nIndex, a, b);
  }

  lemma {:induction false} GatherOfSlices(e: Engine, s: Snap, route: seq<Range>, k: nat)
    requires SnapOk(e, s) && Tiles(route, e.nLayers) && k <= |route|
    ensures Gather(e, route, ShardsOf(e, s, route), k)
         == Some(Gathered(if k == 0 then None else Some(s.lay), Before(e, s, route, k)))
    decreases k
  {
    hide SizeOf, DecodeShard, EncodeShard, LayoutOk, AppendRows;
    if k == 0 {
      NoRows(e, s);
    } else {
      GatherOfSlices(e, s, route, k - 1);
      NextStart(route, e.nLayers, k - 1);
      var r := route[k - 1];
      SliceIsOk(e, s.lay, s.rows, e.nLayers, r.start, r.end + 1);
      ShardRoundTrip(e, r.start, r.end, s.lay, SliceRows(e, s.lay, s.rows, r.start, r.end + 1));
      SlicesJoin(e, s.lay, s.rows, e.nLayers, r.start, r.end + 1);
    }
  }

  lemma NoRows(e: Engine, s: Snap)
    requires SnapOk(e, s)
    ensures SliceRows(e, s.lay, s.rows, 0, 0) == Rows([], [], [])
  {
    SizeOfNothing(e, s.lay, 0);
  }

  lemma AllRows(e: Engine, s: Snap)
    requires SnapOk(e, s)
    ensures SliceRows(e, s.lay, s.rows, 0, e.nLayers) == s.rows
  {
    hide SizeOf;
    SizeOfNothing(e, s.lay, 0);
    assert s.rows.nComp[..e.nLayers] == s.rows.nComp && s.rows.nIndex[..e.nLayers] == s.rows.nIndex;
  }

  /** Whatever the route, saving the slices of a snapshot writes that snapshot's session payload; the
      bytes do not depend on the route. */
  lemma SaveIsRouteFree(e: Engine, s: Snap, route: seq<Range>)
    requires SnapOk(e, s) && Tiles(route, e.nLayers)
    ensures Saved(e, route, ShardsOf(e, s, route), s.tokens, s.logits) == Some(SessionBytes(e, s))
  {
    hide SizeOf, SessionBytes, Gather, SliceRows, RawLiveOk, ShardsOf;
    GatherOfSlices(e, s, route, |route|);
    assert Next(route, |route|) == e.nLayers;
    AllRows(e, s);
  }

  // ----- A save that succeeds wrote a snapshot -------------------------------------------

  lemma AppendedRowsOk(e: Engine, lay: Layout, n: nat, a: Rows, m: nat, b: Rows)
    requires RowsOk(e, lay, 0, n, a) && RowsOk(e, lay, n, m, b)
    ensures RowsOk(e, lay, 0, n + m, AppendRows(a, b))
    ensures SliceRows(e, lay, AppendRows(a, b), n, n + m) == b
  {
    hide SizeOf;
    SizeOfAppend(e, lay, 0, a.nComp, a.nIndex, b.nComp, b.nIndex);
    var ab := AppendRows(a, b);
    assert ab.nComp[..n] == a.nComp && ab.nIndex[..n] == a.nIndex;
    assert ab.nComp[..n + m] == ab.nComp && ab.nIndex[..n + m] == ab.nIndex;
  }

  /** What comes later does not change the slices that lie before it. */
  lemma AppendKeepsSlices(e: Engine, lay: Layout, n: nat, a: Rows, m: nat, b: Rows, start: nat, stop: nat)
    requires RowsOk(e, lay, 0, n, a) && RowsOk(e, lay, 0, n + m, AppendRows(a, b)) && start <= stop <= n
    ensures SliceRows(e, lay, AppendRows(a, b), start, stop) == SliceRows(e, lay, a, start, stop)
  {
    hide SizeOf;
    var ab := AppendRows(a, b);
    assert ab.nComp[..start] == a.nComp[..start] && ab.nIndex[..start] == a.nIndex[..start];
    assert ab.nComp[..stop] == a.nComp[..stop] && ab.nIndex[..stop] == a.nIndex[..stop];
    OffsetsMeet(e, lay, a.nComp, a.nIndex, start, stop);
  }

  /** The first k shards are the slices of the rows gathered from them. */
  ghost predicate SlicesOf(e: Engine, route: seq<Range>, shards: seq<seq<Byte>>, k: nat, lay: Layout, rows: Rows)
    requires Tiles(route, e.nLayers) && k <= |route| == |shards| && RowsOk(e, lay, 0, Next(route, k), rows)
  {
    forall j :: 0 <= j < k ==> IsSlice(e, route, shards[j], j, k, lay, rows)
  }

  ghost predicate IsSlice(e: Engine, route: seq<Range>, shard: seq<Byte>, j: nat, k: nat, lay: Layout, rows: Rows)
    requires Tiles(route, e.nLayers) && j < k <= |route| && RowsOk(e, lay, 0, Next(route, k), rows)
  {
    NextGrows(route, e.nLayers, j + 1, k);
    shard == EncodeShard(lay, route[j].start, route[j].end, SliceRows(e, lay, rows, route[j].start, route[j].end + 1))
  }

  lemma {:induction false} NextGrows(route: seq<Range>, nLayers: Word32, j: nat, k: nat)
    requires Tiles(route, nLayers) && j <= k <= |route|
    ensures Next(route, j) <= Next(route, k) <= nLayers
    decreases k
  {
    if j < k {
      NextGrows(route, nLayers, j, k - 1);
      NextStart(route, nLayers, k - 1);
    }
  }

  lemma {:induction false} GatheredAreSlices(e: Engine, route: seq<Range>, shards: seq<seq<Byte>>, k: nat)
    requires Tiles(route, e.nLayers) && 0 < k <= |route| == |shards| && Gather(e, route, shards, k).Some?
    ensures var g := Gather(e, route, shards, k).value;
            && g.lay.Some? && LayoutOk(e, g.lay.value)
            && RowsOk(e, g.lay.value, 0, Next(route, k), g.rows)
            && SlicesOf(e, route, shards, k, g.lay.value, g.rows)
    decreases k
  {
    hide SizeOf, DecodeShard, EncodeShard, RowsOk, RawLiveOk, SliceRows, AppendRows;
    var g := Gather(e, route, shards, k).value;
    var r := route[k - 1];
    DecodedShard(e, r.start, r.end, shards[k - 1]);
    var (lay, rows) := DecodeShard(e, r.start, r.end, shards[k - 1]).value;
    NextStart(route, e.nLayers, k - 1);
    if k == 1 {
      FirstGathered(e, lay, rows);
      AppendedRowsOk(e, lay, 0, Rows([], [], []), r.end + 1, rows);
      assert IsSlice(e, route, shards[0], 0, 1, lay, g.rows);
    } else {
      GatheredAreSlices(e, route, shards, k - 1);
      var before := Gather(e, route, shards, k - 1).value.rows;
      AppendedRowsOk(e, lay, r.start, before, r.end + 1 - r.start, rows);
      forall j | 0 <= j < k
        ensures IsSlice(e, route, shards[j], j, k, lay, g.rows)
      {
        if j < k - 1 {
          assert IsSlice(e, route, shards[j], j, k - 1, lay, before);
          NextGrows(route, e.nLayers, j + 1, k - 1);
          AppendKeepsSlices(e, lay, r.start, before, r.end + 1 - r.start, rows, route[j].start, route[j].end + 1);
        }
      }
    }
  }

  lemma FirstGathered(e: Engine, lay: Layout, rows: Rows)
    ensures RowsOk(e, lay, 0, 0, Rows([], [], []))
    ensures AppendRows(Rows([], [], []), rows) == rows
  {
    SizeOfNothing(e, lay, 0);
  }

  /** A save succeeds only on shards that are the slices of one snapshot with this timeline, and then
      writes exactly that snapshot. */
  lemma SaveWritesASnapshot(
    e: Engine, route: seq<Range>, shards: seq<seq<Byte>>, tokens: seq<Word32>, logits: seq<Byte>) returns (s: Snap)
    requires Tiles(route, e.nLayers) && |route| == |shards| && |logits| == 4 * e.vocab
    requires Saved(e, route, shards, tokens, logits).Some?
    ensures SnapOk(e, s) && s.tokens == tokens && s.logits == logits
    ensures shards == ShardsOf(e, s, route)
    ensures Saved(e, route, shards, tokens, logits) == Some(SessionBytes(e, s))
  {
    hide SizeOf, EncodeShard, RawLiveOk, SliceRows, Gather, SessionBytes, RowsOk;
    GatheredAreSlices(e, route, shards, |route|);
    var g := Gather(e, route, shards, |route|).value;
    s := Snap(g.lay.value, tokens, logits, g.rows);
    assert Next(route, |route|) == e.nLayers;
    forall j | 0 <= j < |route|
      ensures shards[j] == ShardOf(e, s, route[j])
    {
      assert IsSlice(e, route, shards[j], j, |route|, g.lay.value, g.rows);
    }
  }
}
