/** What every reachable state of the pipeline is: a function of how far each thread has come.
    Chunk i is evaluated by one node through all layers in the reference; every queue, channel,
    slot and KV state is then the reference's data for an interval of chunks. */
module PipelineInvariant {
  import opened Options
  import opened Arith
  import opened Bytes
  import opened TokenHash
  import opened WorkerSession
  import opened LayerSlices
  import opened Pipeline

  // ----- The reference: one node, all layers, chunk after chunk --------------------------

  ghost function Chunk<KV, Hid, Lg>(cfg: Config<KV, Hid, Lg>, i: nat): seq<int>
    requires cfg.Valid()
  {
    cfg.Starts(i);
    cfg.prompt[cfg.Start(i)..cfg.Start(i + 1)]
  }

  ghost function Before<KV, Hid, Lg>(cfg: Config<KV, Hid, Lg>, i: nat): seq<int>
    requires cfg.Valid()
  {
    cfg.Starts(i);
    cfg.prompt[..cfg.Start(i)]
  }

  ghost function HashAt<KV, Hid, Lg>(cfg: Config<KV, Hid, Lg>, i: nat): Word64
    requires cfg.Valid()
  {
    cfg.hs.Prefix(Before(cfg, i))
  }

  /** The KV states of all layers after i chunks on a single node. */
  ghost function RefKv<KV, Hid, Lg>(cfg: Config<KV, Hid, Lg>, i: nat): (kvs: seq<KV>)
    requires cfg.Valid()
    ensures |kvs| == |cfg.kv0|
    decreases i
  {
    if i == 0 then if cfg.reset then cfg.model.Blank(0, |cfg.kv0|) else cfg.kv0
    else
      var tokens, pos := Chunk(cfg, i - 1), cfg.Start(i - 1);
      cfg.model.Slice(0, RefKv(cfg, i - 1), cfg.model.embed(tokens, pos), tokens, pos).0
  }

  /** The hidden state of chunk i after the first l layers on a single node. */
  ghost function RefHidden<KV, Hid, Lg>(cfg: Config<KV, Hid, Lg>, i: nat, l: nat): Hid
    requires cfg.Valid() && l <= |cfg.kv0|
  {
    var tokens, pos := Chunk(cfg, i), cfg.Start(i);
    cfg.model.Slice(0, RefKv(cfg, i)[..l], cfg.model.embed(tokens, pos), tokens, pos).1
  }

  /** What a node's KV memory holds after i chunks: nothing is reset before the first one. */
  ghost function KvAt<KV, Hid, Lg>(cfg: Config<KV, Hid, Lg>, i: nat): (kvs: seq<KV>)
    requires cfg.Valid()
    ensures |kvs| == |cfg.kv0|
  {
    if i == 0 then cfg.kv0 else RefKv(cfg, i)
  }

  /** Evaluating layers a .. b of chunk i takes the reference's states to the reference's states. */
  lemma SliceCell<KV, Hid, Lg>(cfg: Config<KV, Hid, Lg>, i: nat, a: nat, b: nat)
    requires cfg.Valid() && a <= b <= |cfg.kv0|
    ensures cfg.model.Slice(a, RefKv(cfg, i)[a..b], RefHidden(cfg, i, a), Chunk(cfg, i), cfg.Start(i))
         == (RefKv(cfg, i + 1)[a..b], RefHidden(cfg, i, b))
  {
    var m, kvs, tokens, pos := cfg.model, RefKv(cfg, i), Chunk(cfg, i), cfg.Start(i);
    var h := m.embed(tokens, pos);
    assert kvs[..a] + kvs[a..b] == kvs[..b];
    m.SliceSplit(0, kvs[..a], kvs[a..b], h, tokens, pos);
    assert kvs[..b] + kvs[b..] == kvs;
    m.SliceSplit(0, kvs[..b], kvs[b..], h, tokens, pos);
    var ka := m.Slice(0, kvs[..a], h, tokens, pos).0;
    var (kb, hb) := m.Slice(a, kvs[a..b], RefHidden(cfg, i, a), tokens, pos);
    var kc := m.Slice(b, kvs[b..], RefHidden(cfg, i, b), tokens, pos).0;
    assert RefKv(cfg, i + 1) == (ka + kb) + kc;
    assert ((ka + kb) + kc)[a..b] == kb;
  }

  lemma BlankSlice<KV, Hid, Lg>(cfg: Config<KV, Hid, Lg>, a: nat, b: nat)
    requires cfg.Valid() && a <= b <= |cfg.kv0| && cfg.reset
    ensures RefKv(cfg, 0)[a..b] == cfg.model.Blank(a, b - a)
  {
  }

  lemma HashNext<KV, Hid, Lg>(cfg: Config<KV, Hid, Lg>, i: nat)
    requires cfg.Valid()
    ensures cfg.hs.Span(HashAt(cfg, i), Chunk(cfg, i)) == HashAt(cfg, i + 1)
    ensures Before(cfg, i + 1) == Before(cfg, i) + Chunk(cfg, i)
  {
    cfg.Starts(i);
    assert Before(cfg, i + 1) == Before(cfg, i) + Chunk(cfg, i);
    cfg.hs.PrefixAppend(Before(cfg, i), Chunk(cfg, i));
  }

  /** h is the hash of the prompt up to the end of chunk i. */
  predicate Expected<KV, Hid, Lg>(cfg: Config<KV, Hid, Lg>, i: nat, h: Word64) {
    cfg.Start(i + 1) <= |cfg.prompt| && h == cfg.hs.Prefix(cfg.prompt[..cfg.Start(i + 1)])
  }

  /** The loop of dist_coordinator_prefill_prompt_pipelined that prepares what each reply must carry:
      the hash of the prompt up to the end of its chunk. */
  method ComputeExpectedHashes<KV, Hid, Lg>(cfg: Config<KV, Hid, Lg>) returns (hashes: seq<Word64>)
    requires cfg.Valid()
    ensures |hashes| == cfg.Count()
    ensures forall i :: 0 <= i < |hashes| ==> Expected(cfg, i, hashes[i])
  {
    var hash := cfg.hs.ComputeSpan(cfg.hs.init, cfg.prompt[..cfg.spanStart]);
    var pos := cfg.spanStart;
    hashes := [];
    var i := 0;
    while i < cfg.Count()
      invariant 0 <= i <= cfg.Count() && |hashes| == i
      invariant pos == cfg.Start(i) <= |cfg.prompt| && hash == cfg.hs.Prefix(cfg.prompt[..pos])
      invariant forall k :: 0 <= k < i ==> Expected(cfg, k, hashes[k])
    {
      cfg.Starts(i);
      HashNext(cfg, i);
      var chunk := if cfg.SpanEnd() - pos < cfg.chunkCap then cfg.SpanEnd() - pos else cfg.chunkCap;
      hash := cfg.hs.ComputeSpan(hash, cfg.prompt[pos..pos + chunk]);
      hashes := hashes + [hash];
      pos := pos + chunk;
      i := i + 1;
    }
  }

  // ----- The data of chunk i -------------------------------------------------------------

  ghost function WorkAt<KV, Hid, Lg>(cfg: Config<KV, Hid, Lg>, i: nat): Work
    requires cfg.Valid()
  {
    Work(cfg.reset && i == 0, cfg.Start(i), Chunk(cfg, i), HashAt(cfg, i), HashAt(cfg, i + 1))
  }

  /** The WORK frame of chunk i on its way into worker j. */
  ghost function FrameAt<KV, Hid, Lg>(cfg: Config<KV, Hid, Lg>, j: nat, i: nat): Frame<Hid>
    requires cfg.Valid() && j < cfg.Hops()
  {
    Frame(cfg.firstId + i, WorkAt(cfg, i), cfg.ackOnly && i + 1 < cfg.Count(),
          cfg.lastLogits && j + 1 == cfg.Hops(), RefHidden(cfg, i, cfg.bounds[j + 1]))
  }

  ghost function PayloadAt<KV, Hid, Lg>(cfg: Config<KV, Hid, Lg>, i: nat): Payload<Hid, Lg>
    requires cfg.Valid()
  {
    var out := RefHidden(cfg, i, |cfg.kv0|);
    if cfg.ackOnly && i + 1 < cfg.Count() then Ack
    else if cfg.lastLogits then Logits(cfg.model.head(out))
    else Hidden(|Chunk(cfg, i)|, out)
  }

  ghost function ResultAt<KV, Hid, Lg>(cfg: Config<KV, Hid, Lg>, i: nat): Result<Hid, Lg>
    requires cfg.Valid()
  {
    Result(cfg.firstId + i, HashAt(cfg, i + 1), PayloadAt(cfg, i))
  }

  ghost function SessionAt<KV, Hid, Lg>(cfg: Config<KV, Hid, Lg>, j: nat, i: nat): State
    requires cfg.Valid() && j < cfg.Hops()
  {
    if i == 0 then cfg.session0[j] else State(Engine(Before(cfg, i), true), HashAt(cfg, i), true)
  }

  ghost predicate FramesAre<KV, Hid, Lg>(cfg: Config<KV, Hid, Lg>, j: nat, q: seq<Frame<Hid>>, lo: nat, hi: nat)
    requires cfg.Valid() && j < cfg.Hops()
  {
    lo <= hi && |q| == hi - lo && forall k :: 0 <= k < |q| ==> q[k] == FrameAt(cfg, j, lo + k)
  }

  ghost predicate ResultsAre<KV, Hid, Lg>(cfg: Config<KV, Hid, Lg>, q: seq<Result<Hid, Lg>>, lo: nat, hi: nat)
    requires cfg.Valid()
  {
    lo <= hi && |q| == hi - lo && forall k :: 0 <= k < |q| ==> q[k] == ResultAt(cfg, lo + k)
  }

  ghost predicate IdsAre<KV, Hid, Lg>(cfg: Config<KV, Hid, Lg>, q: seq<nat>, lo: nat, hi: nat)
  {
    lo <= hi && |q| == hi - lo && forall k :: 0 <= k < |q| ==> q[k] == cfg.firstId + lo + k
  }

  // ----- How far each thread has come ----------------------------------------------------

  /** Per worker: frames written to it, read by it, queued, popped, evaluated, registered as
      pending, results taken from the next worker, matched, and written back. */
  datatype Hop = Hop(sent: nat, read: nat, queued: nat, popped: nat, evald: nat,
                     registered: nat, taken: nat, matched: nat, replied: nat)

  datatype Counts = Counts(windowed: nat, acquired: nat, local: nat, submitted: nat, finished: nat,
                           picked: nat, released: nat, exited: nat,
                           accepted: nat, completed: nat, hops: seq<Hop>)

  /** Jobs worker j is done with: forwarded to the next worker, or answered by the last one. */
  ghost function Done(c: Counts, j: nat): nat
    requires j < |c.hops|
  {
    if j + 1 < |c.hops| then c.hops[j + 1].sent else c.hops[j].replied
  }

  /** Results of worker j that its upstream has taken. */
  ghost function TakenFrom(c: Counts, j: nat): nat
    requires j < |c.hops|
  {
    if j == 0 then c.accepted else c.hops[j - 1].taken
  }

  ghost predicate HopOk<KV, Hid, Lg>(cfg: Config<KV, Hid, Lg>, j: nat, h: Hop, done: nat, taken: nat)
    requires cfg.Valid() && j < cfg.Hops()
  {
    && h.queued <= h.read <= h.queued + 1 && h.read <= h.sent <= h.read + cfg.fwdCap[j]
    && h.popped <= h.queued <= h.popped + cfg.jobDepth[j]
    && done <= h.evald <= h.popped <= done + 1
    && taken <= h.replied <= taken + cfg.retCap[j]
    && (if j + 1 == cfg.Hops() then
          h.replied == done && h.registered == h.taken == h.matched == 0
        else
          && done <= h.registered <= h.evald
          && h.replied <= h.matched <= h.taken <= h.replied + 1
          && h.matched <= h.registered
          && (cfg.pendDepth[j] != 0 ==> h.registered <= h.matched + cfg.pendDepth[j]))
  }

  ghost predicate EndsOk<KV, Hid, Lg>(cfg: Config<KV, Hid, Lg>, c: Counts)
    requires cfg.Valid() && |c.hops| == cfg.Hops()
  {
    && c.submitted <= c.local <= c.acquired <= c.windowed <= c.submitted + 1
    && c.windowed <= cfg.Count() && c.windowed <= c.completed + cfg.window
    && (c.finished == 0 || (c.finished == 1 && c.submitted == c.windowed == cfg.Count()))
    && c.released <= c.hops[0].sent <= c.picked <= c.released + 1
    && c.picked <= c.submitted && c.acquired <= c.released + cfg.slotCount
    && (c.exited == 0 || (c.exited == 1 && c.finished == 1 && c.released == c.picked == c.submitted))
    && c.completed <= c.accepted <= c.completed + 1 && c.accepted <= cfg.Count()
  }

  // ----- The state those counts stand for ------------------------------------------------

  ghost predicate ProducerIs<KV, Hid, Lg>(cfg: Config<KV, Hid, Lg>, c: Counts, s: Sys<KV, Hid, Lg>)
    requires cfg.Valid()
  {
    && s.ppc == (if c.finished == 1 then ProducerDone
                 else if c.windowed == c.submitted then AtWindow
                 else if c.acquired == c.submitted then AtSlot
                 else if c.local == c.submitted then AtEval
                 else AtEnqueue)
    && s.pos == cfg.Start(c.submitted)
    && s.submitted == c.submitted
    && s.nextId == cfg.firstId + c.submitted
    && s.nextHash == HashAt(cfg, c.submitted)
    && s.kv == KvAt(cfg, c.local)[..cfg.bounds[1]]
    && s.producerDone == (c.finished == 1)
  }

  ghost predicate RingIs<KV, Hid, Lg>(cfg: Config<KV, Hid, Lg>, c: Counts, s: Sys<KV, Hid, Lg>)
    requires cfg.Valid() && |c.hops| == cfg.Hops()
  {
    && |s.slots| == cfg.slotCount
    && s.head == Wrap(c.released, cfg.slotCount)
    && s.tail == Wrap(c.submitted, cfg.slotCount)
    && s.queued == c.submitted - c.released
    && (forall i :: c.released <= i < c.local ==> s.slots[Wrap(i, cfg.slotCount)] == Some(FrameAt(cfg, 0, i)))
    && s.spc == (if c.exited == 1 then SenderExited
                 else if c.picked == c.released then SenderIdle
                 else if c.hops[0].sent == c.released then Sending
                 else Sent)
  }

  ghost predicate ReaderIs<KV, Hid, Lg>(cfg: Config<KV, Hid, Lg>, c: Counts, s: Sys<KV, Hid, Lg>)
    requires cfg.Valid()
  {
    && s.accepted == c.accepted && s.completed == c.completed
    && s.done == (c.completed == cfg.Count())
    && s.final == (if c.accepted == cfg.Count() then Some(PayloadAt(cfg, cfg.Count() - 1)) else None)
  }

  ghost function EvalPcAt<KV, Hid, Lg>(cfg: Config<KV, Hid, Lg>, j: nat, h: Hop, done: nat): EvalPc<Hid, Lg>
    requires cfg.Valid() && j < cfg.Hops()
  {
    if h.popped == done then NoJob
    else if h.evald == done then Job(FrameAt(cfg, j, done))
    else if j + 1 == cfg.Hops() then Reply(ResultAt(cfg, done))
    else Forward(FrameAt(cfg, j + 1, done), h.registered != done)
  }

  ghost function RelayPcAt<KV, Hid, Lg>(cfg: Config<KV, Hid, Lg>, j: nat, h: Hop): RelayPc<Hid, Lg>
    requires cfg.Valid() && j < cfg.Hops()
  {
    if j + 1 == cfg.Hops() || h.taken == h.replied then RelayIdle
    else if h.matched == h.replied then Held(ResultAt(cfg, h.replied))
    else Matched(ResultAt(cfg, h.replied))
  }

  ghost predicate WorkerIs<KV, Hid, Lg>(cfg: Config<KV, Hid, Lg>, j: nat, h: Hop, done: nat, w: Worker<KV, Hid, Lg>)
    requires cfg.Valid() && j < cfg.Hops()
  {
    && w.held == (if h.read == h.queued then None else Some(FrameAt(cfg, j, h.queued)))
    && FramesAre(cfg, j, w.jobs, h.popped, h.queued)
    && w.eval == EvalPcAt(cfg, j, h, done)
    && IdsAre(cfg, w.pending, h.matched, h.registered)
    && w.relay == RelayPcAt(cfg, j, h)
    && w.session == SessionAt(cfg, j, h.evald)
    && w.kv == KvAt(cfg, h.evald)[cfg.bounds[j + 1]..cfg.bounds[j + 2]]
  }

  /** One hop: worker j, the channel into it and the channel out of it. */
  ghost predicate HopIs<KV, Hid, Lg>(
    cfg: Config<KV, Hid, Lg>, j: nat, h: Hop, done: nat, taken: nat,
    w: Worker<KV, Hid, Lg>, fwd: seq<Frame<Hid>>, ret: seq<Result<Hid, Lg>>)
    requires cfg.Valid() && j < cfg.Hops()
  {
    && HopOk(cfg, j, h, done, taken)
    && WorkerIs(cfg, j, h, done, w)
    && FramesAre(cfg, j, fwd, h.read, h.sent)
    && ResultsAre(cfg, ret, taken, h.replied)
  }

  ghost predicate HopAt<KV, Hid, Lg>(cfg: Config<KV, Hid, Lg>, c: Counts, s: Sys<KV, Hid, Lg>, k: nat)
    requires cfg.Valid() && k < cfg.Hops()
    requires |c.hops| == |s.fwd| == |s.workers| == |s.ret| == cfg.Hops()
  {
    HopIs(cfg, k, c.hops[k], Done(c, k), TakenFrom(c, k), s.workers[k], s.fwd[k], s.ret[k])
  }

  ghost predicate HopsAre<KV, Hid, Lg>(cfg: Config<KV, Hid, Lg>, c: Counts, s: Sys<KV, Hid, Lg>)
    requires cfg.Valid()
    requires |c.hops| == |s.fwd| == |s.workers| == |s.ret| == cfg.Hops()
  {
    forall j :: 0 <= j < cfg.Hops() ==> HopAt(cfg, c, s, j)
  }

  /** The invariant: the state is the one that consistent counts c stand for. */
  ghost predicate Inv<KV, Hid, Lg>(cfg: Config<KV, Hid, Lg>, c: Counts, s: Sys<KV, Hid, Lg>)
    requires cfg.Valid()
  {
    && !s.failed
    && |c.hops| == |s.fwd| == |s.workers| == |s.ret| == cfg.Hops()
    && EndsOk(cfg, c) && ProducerIs(cfg, c, s) && RingIs(cfg, c, s) && ReaderIs(cfg, c, s)
    && HopsAre(cfg, c, s)
  }

  lemma InvShaped<KV, Hid, Lg>(cfg: Config<KV, Hid, Lg>, c: Counts, s: Sys<KV, Hid, Lg>)
    requires cfg.Valid() && Inv(cfg, c, s)
    ensures Shaped(cfg, s)
  {
    cfg.Starts(c.submitted);
  }

  ghost function Zero<KV, Hid, Lg>(cfg: Config<KV, Hid, Lg>): Counts
    requires cfg.Valid()
  {
    Counts(0, 0, 0, 0, 0, 0, 0, 0, 0, 0, seq(cfg.Hops(), _ => Hop(0, 0, 0, 0, 0, 0, 0, 0, 0)))
  }

  lemma StartZero<KV, Hid, Lg>(cfg: Config<KV, Hid, Lg>)
    requires cfg.Valid()
    ensures cfg.Start(0) == cfg.spanStart && 0 < cfg.Count()
  {
    cfg.Starts(0);
  }

  lemma InitHop<KV, Hid, Lg>(cfg: Config<KV, Hid, Lg>, j: nat)
    requires cfg.Valid() && j < cfg.Hops()
    ensures HopIs(cfg, j, Hop(0, 0, 0, 0, 0, 0, 0, 0, 0), 0, 0, Init(cfg).workers[j], [], [])
  {
    hide FrameAt, ResultAt, RefKv;
  }

  lemma InitInv<KV, Hid, Lg>(cfg: Config<KV, Hid, Lg>)
    requires cfg.Valid()
    ensures Inv(cfg, Zero(cfg), Init(cfg))
  {
    hide HopIs;
    StartZero(cfg);
    forall j | 0 <= j < cfg.Hops()
      ensures HopAt(cfg, Zero(cfg), Init(cfg), j)
    {
      InitHop(cfg, j);
    }
    assert ProducerIs(cfg, Zero(cfg), Init(cfg));
    assert RingIs(cfg, Zero(cfg), Init(cfg));
  }
}
