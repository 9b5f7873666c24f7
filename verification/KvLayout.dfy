/** The layout of a saved KV cache and the size of one layer's tensors (ds4_distributed.c). */
module KvLayout {
  import opened Options
  import opened Arith
  import opened Bytes

  /** ds4_dist_kv_layout; the vocabulary size is the engine's. */
  datatype Layout = Layout(
    ctx: Word32, prefillCap: Word32, rawCap: Word32, rawWindow: Word32, compCap: Word32, tokenCount: Word32,
    nLayers: Word32, headDim: Word32, indexerHeadDim: Word32, rawLive: Word32)

  /** What a GLM engine answers about the tensors of one layer: their bytes for these live rows, head
      widths and row counts, if it can tell. */
  type GlmBytes = (nat, Word32, Word32, Word32, Word32, Word32) -> Option<Word64>

  /** What the snapshot code asks the engine about its model. */
  datatype Engine = Engine(nLayers: Word32, vocab: Word32, ratio: nat -> Word32, glm: Option<GlmBytes>)

  function Min(a: nat, b: nat): nat {
    if a < b then a else b
  }

  /** dist_kv_raw_live_valid. */
  predicate RawLiveOk(e: Engine, lay: Layout) {
    var most := Min(lay.tokenCount, lay.rawWindow);
    && lay.rawWindow != 0 && lay.rawCap != 0
    && (if e.glm.Some? then lay.rawLive <= most else lay.rawLive == most) && lay.rawLive <= lay.rawCap
  }

  // ----- Sizes in plain numbers ----------------------------------------------------------

  /** The size of one compressor state tensor. */
  function StateSize(ratio: nat, dim: nat): nat {
    var coff := if ratio == 4 then 2 else 1;
    coff * dim * coff * ratio * 4
  }

  function RowSize(rows: nat, dim: nat): nat {
    rows * dim * 4
  }

  /** The tensor bytes of layer il, where a GLM engine decides; a size it cannot tell is one that no
      payload has. */
  function LayerSize(e: Engine, lay: Layout, il: nat, nComp: Word32, nIndex: Word32): nat {
    match e.glm
    case None => SparseSize(e, lay, il, nComp, nIndex)
    case Some(bytes) =>
      match bytes(il, lay.rawLive, lay.headDim, lay.indexerHeadDim, nComp, nIndex)
      case Some(n) => n
      case None => U64_MAX + 1
  }

  /** The live raw rows, the compressed rows with two compressor states, and for ratio four the same for
      the indexer. */
  function SparseSize(e: Engine, lay: Layout, il: nat, nComp: nat, nIndex: nat): nat {
    var ratio := e.ratio(il);
    RowSize(lay.rawLive, lay.headDim)
    + (if ratio == 0 then 0 else RowSize(nComp, lay.headDim) + 2 * StateSize(ratio, lay.headDim))
    + (if ratio == 4 then RowSize(nIndex, lay.indexerHeadDim) + 2 * StateSize(ratio, lay.indexerHeadDim) else 0)
  }

  /** A layer holds, in floats of four bytes: its live raw rows; if it is compressed, its compressed rows
      and two states; and if it compresses by four, the same again for the indexer. A state has as many
      rows as the ratio and the width of a row, both doubled for ratio four. */
  lemma LayerIsItsTensors(e: Engine, lay: Layout, il: nat, nComp: Word32, nIndex: Word32)
    requires e.glm.None?
    ensures e.ratio(il) == 0 ==> LayerSize(e, lay, il, nComp, nIndex) == 4 * (lay.rawLive * lay.headDim)
    ensures e.ratio(il) != 0 && e.ratio(il) != 4 ==>
              LayerSize(e, lay, il, nComp, nIndex)
              == 4 * (lay.rawLive * lay.headDim + nComp * lay.headDim + 2 * (e.ratio(il) * lay.headDim))
    ensures e.ratio(il) == 4 ==>
              LayerSize(e, lay, il, nComp, nIndex)
              == 4 * (lay.rawLive * lay.headDim + nComp * lay.headDim + 2 * (8 * (2 * lay.headDim)))
                 + 4 * (nIndex * lay.indexerHeadDim + 2 * (8 * (2 * lay.indexerHeadDim)))
  {
    StateByShape(e.ratio(il), lay.headDim);
    StateByShape(e.ratio(il), lay.indexerHeadDim);
  }

  lemma StateByShape(ratio: nat, dim: nat)
    ensures StateSize(ratio, dim) == if ratio == 4 then 4 * (8 * (2 * dim)) else 4 * (ratio * dim)
  {
    if ratio != 4 {
      assert 1 * dim * 1 * ratio * 4 == 4 * (ratio * dim);
    }
  }

  // ----- Sizes as the program computes them ----------------------------------------------

  /** dist_u64_mul. */
  function Mul(a: nat, b: nat): Option<nat> {
    if a != 0 && b > U64_MAX / a then None else Some(a * b)
  }

  /** dist_u64_add. */
  function Add(acc: Option<nat>, add: Option<nat>): Option<nat> {
    if acc.None? || add.None? || acc.value > U64_MAX - add.value then None else Some(acc.value + add.value)
  }

  function Fit(n: nat): Option<nat> {
    if n <= U64_MAX then Some(n) else None
  }

  lemma MulFits(a: nat, b: nat)
    ensures Mul(a, b) == Fit(a * b)
  {
    if a != 0 {
      ExceedsByDivision(a, b, U64_MAX);
    }
  }

  /** Checking every product on the way loses nothing but results that do not fit. */
  lemma MulChain(a: nat, b: nat)
    requires b > 0
    ensures (match Fit(a) case Some(x) => Mul(x, b) case None => None) == Fit(a * b)
  {
    if a <= U64_MAX {
      MulFits(a, b);
    } else {
      MulMono(1, b, a);
    }
  }

  lemma AddFits(a: nat, b: nat)
    ensures Add(Fit(a), Fit(b)) == Fit(a + b)
  {
  }

  function Then(x: Option<nat>, b: nat): Option<nat> {
    match x case Some(v) => Mul(v, b) case None => None
  }

  /** dist_kv_state_bytes. */
  method StateBytes(ratio: Word32, dim: Word32) returns (r: Option<nat>)
    requires ratio != 0
    ensures r == Fit(StateSize(ratio, dim))
  {
    hide Mul, Fit;
    var coff := if ratio == 4 then 2 else 1;
    MulFits(coff, dim);
    MulChain(coff * dim, coff);
    MulChain(coff * dim * coff, ratio);
    MulChain(coff * dim * coff * ratio, 4);
    r := Then(Then(Then(Mul(coff, dim), coff), ratio), 4);
  }

  /** A number of rows times their width in bytes, as a checked product. */
  method RowBytes(rows: Word32, dim: Word32) returns (r: Option<nat>)
    ensures r == Fit(RowSize(rows, dim))
  {
    hide Mul, Fit;
    MulFits(rows, dim);
    MulChain(rows * dim, 4);
    r := Then(Mul(rows, dim), 4);
  }

  /** dist_kv_layer_tensor_bytes: fails exactly when the size does not fit 64 bits, and is exact
      otherwise. */
  method LayerTensorBytes(e: Engine, lay: Layout, il: nat, nComp: Word32, nIndex: Word32) returns (r: Option<nat>)
    ensures r == Fit(LayerSize(e, lay, il, nComp, nIndex))
    ensures r.Some? ==> r.value == LayerSize(e, lay, il, nComp, nIndex)
    ensures e.glm.None? ==> (r.None? <==> LayerSize(e, lay, il, nComp, nIndex) > 0xFFFF_FFFF_FFFF_FFFF)
    ensures e.glm.Some? ==> r == e.glm.value(il, lay.rawLive, lay.headDim, lay.indexerHeadDim, nComp, nIndex)
  {
    hide Mul, Add, StateSize, RowSize;
    if e.glm.Some? {
      return e.glm.value(il, lay.rawLive, lay.headDim, lay.indexerHeadDim, nComp, nIndex);
    }
    r := RowBytes(lay.rawLive, lay.headDim);
    ghost var size := RowSize(lay.rawLive, lay.headDim);
    var ratio := e.ratio(il);
    if ratio == 0 {
      return;
    }
    var rows := RowBytes(nComp, lay.headDim);
    var state := StateBytes(ratio, lay.headDim);
    r := AddThree(r, rows, state, size, RowSize(nComp, lay.headDim), StateSize(ratio, lay.headDim));
    if ratio == 4 {
      size := size + RowSize(nComp, lay.headDim) + 2 * StateSize(ratio, lay.headDim);
      var indexRows := RowBytes(nIndex, lay.indexerHeadDim);
      var indexState := StateBytes(ratio, lay.indexerHeadDim);
      r := AddThree(r, indexRows, indexState, size,
                    RowSize(nIndex, lay.indexerHeadDim), StateSize(ratio, lay.indexerHeadDim));
    }
  }

  /** One set of rows and its two states on top of what is already counted. */
  method AddThree(acc: Option<nat>, rows: Option<nat>, state: Option<nat>, ghost a: nat, ghost b: nat, ghost c: nat)
    returns (r: Option<nat>)
    requires acc == Fit(a) && rows == Fit(b) && state == Fit(c)
    ensures r == Fit(a + b + 2 * c)
  {
    hide Add, Fit;
    AddFits(a, b);
    AddFits(a + b, c);
    AddFits(a + b + c, c);
    r := Add(Add(Add(acc, rows), state), state);
    assert a + b + c + c == a + b + 2 * c;
  }

  // ----- The size of a run of layers -----------------------------------------------------

  /** The tensor bytes of layers start, start + 1, ... with these row counts. */
  function SizeOf(e: Engine, lay: Layout, start: nat, nComp: seq<Word32>, nIndex: seq<Word32>): nat
    requires |nComp| == |nIndex|
    decreases |nComp|
  {
    if nComp == [] then 0
    else LayerSize(e, lay, start, nComp[0], nIndex[0]) + SizeOf(e, lay, start + 1, nComp[1..], nIndex[1..])
  }

  lemma {:induction false} SizeOfAppend(
    e: Engine, lay: Layout, start: nat, a: seq<Word32>, ai: seq<Word32>, b: seq<Word32>, bi: seq<Word32>)
    requires |a| == |ai| && |b| == |bi|
    ensures SizeOf(e, lay, start, a + b, ai + bi) == SizeOf(e, lay, start, a, ai) + SizeOf(e, lay, start + |a|, b, bi)
    decreases |a|
  {
    hide LayerSize;
    if a == [] {
      assert a + b == b && ai + bi == bi;
    } else {
      SizeOfAppend(e, lay, start + 1, a[1..], ai[1..], b, bi);
      assert (a + b)[1..] == a[1..] + b && (ai + bi)[1..] == ai[1..] + bi;
    }
  }

  /** Cutting a run of layers in two cuts its bytes in two. */
  lemma SizeOfCut(e: Engine, lay: Layout, start: nat, a: seq<Word32>, ai: seq<Word32>, k: nat)
    requires |a| == |ai| && k <= |a|
    ensures SizeOf(e, lay, start, a, ai)
         == SizeOf(e, lay, start, a[..k], ai[..k]) + SizeOf(e, lay, start + k, a[k..], ai[k..])
  {
    assert a == a[..k] + a[k..] && ai == ai[..k] + ai[k..];
    SizeOfAppend(e, lay, start, a[..k], ai[..k], a[k..], ai[k..]);
  }

  lemma SizeOfStep(e: Engine, lay: Layout, start: nat, a: seq<Word32>, ai: seq<Word32>, k: nat)
    requires k < |a| == |ai|
    ensures SizeOf(e, lay, start, a[..k + 1], ai[..k + 1])
         == SizeOf(e, lay, start, a[..k], ai[..k]) + LayerSize(e, lay, start + k, a[k], ai[k])
    ensures SizeOf(e, lay, start, a[..k + 1], ai[..k + 1]) <= SizeOf(e, lay, start, a, ai)
  {
    hide LayerSize;
    var (b, bi) := (a[..k + 1], ai[..k + 1]);
    SizeOfCut(e, lay, start, b, bi, k);
    assert b[..k] == a[..k] && bi[..k] == ai[..k] && b[k..] == [a[k]] && bi[k..] == [ai[k]];
    assert SizeOf(e, lay, start + k + 1, [a[k]][1..], [ai[k]][1..]) == 0;
    SizeOfCut(e, lay, start, a, ai, k + 1);
  }

  /** The summing loop of dist_kv_parse_layer_payload. */
  method TensorBytes(e: Engine, lay: Layout, start: nat, nComp: seq<Word32>, nIndex: seq<Word32>) returns (r: Option<nat>)
    requires |nComp| == |nIndex|
    ensures r == Fit(SizeOf(e, lay, start, nComp, nIndex))
  {
    hide LayerSize, SizeOf;
    r := Some(0);
    SizeOfNothing(e, lay, start);
    for i := 0 to |nComp|
      invariant r == Some(SizeOf(e, lay, start, nComp[..i], nIndex[..i])) && r.value <= U64_MAX
    {
      SizeOfStep(e, lay, start, nComp, nIndex, i);
      var size := LayerTensorBytes(e, lay, start + i, nComp[i], nIndex[i]);
      r := Add(r, size);
      if r.None? {
        return None;
      }
    }
    assert nComp[..|nComp|] == nComp && nIndex[..|nComp|] == nIndex;
  }

  lemma SizeOfNothing(e: Engine, lay: Layout, start: nat)
    ensures SizeOf(e, lay, start, [], []) == 0
  {
  }
}
