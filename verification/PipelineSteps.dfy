/** Every step of the pipeline advances exactly one count and keeps the invariant; in particular
    no check of the prefix guard, the relays or the result reader ever fails. */
module PipelineSteps {
  import opened Options
  import opened Arith
  import opened TokenHash
  import opened WorkerSession
  import opened LayerSlices
  import opened Pipeline
  import opened PipelineInvariant

  predicate OnRoute(c: Counts, a: Action) {
    match a
    case ReadFrame(j) => j < |c.hops|
    case EnqueueJob(j) => j < |c.hops|
    case PopJob(j) => j < |c.hops|
    case EvalJob(j) => j < |c.hops|
    case RegisterPending(j) => j < |c.hops|
    case ForwardFrame(j) => j + 1 < |c.hops|
    case ReplyResult(j) => j < |c.hops|
    case TakeResult(j) => j + 1 < |c.hops|
    case MatchResult(j) => j < |c.hops|
    case RelayResult(j) => j < |c.hops|
    case _ => c.hops != []
  }

  /** The count that action a advances. */
  function Advance(c: Counts, a: Action): Counts
    requires OnRoute(c, a)
  {
    match a
    case PassWindow => c.(windowed := c.windowed + 1)
    case AcquireSlot => c.(acquired := c.acquired + 1)
    case EvalLocal => c.(local := c.local + 1)
    case EnqueueSlot => c.(submitted := c.submitted + 1)
    case FinishProducer => c.(finished := c.finished + 1)
    case PickSlot => c.(picked := c.picked + 1)
    case SendSlot => c.(hops := c.hops[0 := c.hops[0].(sent := c.hops[0].sent + 1)])
    case ReleaseSlot => c.(released := c.released + 1)
    case ExitSender => c.(exited := c.exited + 1)
    case AcceptResult => c.(accepted := c.accepted + 1)
    case SignalProgress => c.(completed := c.completed + 1)
    case ReadFrame(j) => c.(hops := c.hops[j := c.hops[j].(read := c.hops[j].read + 1)])
    case EnqueueJob(j) => c.(hops := c.hops[j := c.hops[j].(queued := c.hops[j].queued + 1)])
    case PopJob(j) => c.(hops := c.hops[j := c.hops[j].(popped := c.hops[j].popped + 1)])
    case EvalJob(j) => c.(hops := c.hops[j := c.hops[j].(evald := c.hops[j].evald + 1)])
    case RegisterPending(j) => c.(hops := c.hops[j := c.hops[j].(registered := c.hops[j].registered + 1)])
    case ForwardFrame(j) => c.(hops := c.hops[j + 1 := c.hops[j + 1].(sent := c.hops[j + 1].sent + 1)])
    case ReplyResult(j) => c.(hops := c.hops[j := c.hops[j].(replied := c.hops[j].replied + 1)])
    case TakeResult(j) => c.(hops := c.hops[j := c.hops[j].(taken := c.hops[j].taken + 1)])
    case MatchResult(j) => c.(hops := c.hops[j := c.hops[j].(matched := c.hops[j].matched + 1)])
    case RelayResult(j) => c.(hops := c.hops[j := c.hops[j].(replied := c.hops[j].replied + 1)])
  }

  ghost predicate Taken<KV, Hid, Lg>(cfg: Config<KV, Hid, Lg>, c: Counts, s: Sys<KV, Hid, Lg>, a: Action)
    requires cfg.Valid()
  {
    Inv(cfg, c, s) && Shaped(cfg, s) && OnRoute(c, a) && Act(cfg, s, a).Some?
  }

  // ----- Producer, sender and reader -----------------------------------------------------

  /** A step of the coordinator's threads leaves channels and workers alone. */
  lemma EndStepInv<KV, Hid, Lg>(cfg: Config<KV, Hid, Lg>, c: Counts, s: Sys<KV, Hid, Lg>, c2: Counts, s2: Sys<KV, Hid, Lg>)
    requires cfg.Valid() && Inv(cfg, c, s)
    requires c2.hops == c.hops && c2.accepted == c.accepted
    requires s2.fwd == s.fwd && s2.workers == s.workers && s2.ret == s.ret && !s2.failed
    requires EndsOk(cfg, c2)
    requires ProducerIs(cfg, c2, s2) && RingIs(cfg, c2, s2) && ReaderIs(cfg, c2, s2)
    ensures Inv(cfg, c2, s2)
  {
    hide HopIs, ProducerIs, RingIs, ReaderIs, EndsOk;
    forall j | 0 <= j < cfg.Hops()
      ensures HopAt(cfg, c2, s2, j)
    {
      assert HopAt(cfg, c, s, j);
      assert Done(c2, j) == Done(c, j) && TakenFrom(c2, j) == TakenFrom(c, j);
    }
  }

  /** No worker answers a frame it has not been sent. */
  lemma ResultsBehindFrames<KV, Hid, Lg>(cfg: Config<KV, Hid, Lg>, c: Counts, s: Sys<KV, Hid, Lg>, j: nat)
    requires cfg.Valid() && Inv(cfg, c, s) && j < cfg.Hops()
    ensures TakenFrom(c, j) <= c.hops[j].replied <= c.hops[j].evald <= c.hops[j].sent
  {
    hide ProducerIs, RingIs, ReaderIs, WorkerIs, FramesAre, ResultsAre, EndsOk;
    assert HopAt(cfg, c, s, j);
  }

  lemma PassWindowInv<KV, Hid, Lg>(cfg: Config<KV, Hid, Lg>, c: Counts, s: Sys<KV, Hid, Lg>)
    requires cfg.Valid() && Taken(cfg, c, s, PassWindow)
    ensures Inv(cfg, Advance(c, PassWindow), Act(cfg, s, PassWindow).value)
  {
    hide HopIs, RefKv, RefHidden;
    cfg.Starts(c.submitted);
    ResultsBehindFrames(cfg, c, s, 0);
    EndStepInv(cfg, c, s, Advance(c, PassWindow), Act(cfg, s, PassWindow).value);
  }

  lemma AcquireSlotInv<KV, Hid, Lg>(cfg: Config<KV, Hid, Lg>, c: Counts, s: Sys<KV, Hid, Lg>)
    requires cfg.Valid() && Taken(cfg, c, s, AcquireSlot)
    ensures Inv(cfg, Advance(c, AcquireSlot), Act(cfg, s, AcquireSlot).value)
  {
    hide HopIs, RefKv, RefHidden, FrameAt, HashAt, KvAt, Wrap, Config.Start;
    EndStepInv(cfg, c, s, Advance(c, AcquireSlot), Act(cfg, s, AcquireSlot).value);
  }

  lemma EnqueueSlotRing<KV, Hid, Lg>(cfg: Config<KV, Hid, Lg>, c: Counts, s: Sys<KV, Hid, Lg>)
    requires cfg.Valid() && Shaped(cfg, s) && |c.hops| == cfg.Hops() && RingIs(cfg, c, s)
    requires EnqueueSlotStep(cfg, s).Some? && c.picked <= c.submitted
    requires c.exited == 0
    ensures RingIs(cfg, c.(submitted := c.submitted + 1), EnqueueSlotStep(cfg, s).value)
  {
    WrapSucc(c.submitted, cfg.slotCount);
  }

  lemma EnqueueSlotProducer<KV, Hid, Lg>(cfg: Config<KV, Hid, Lg>, c: Counts, s: Sys<KV, Hid, Lg>)
    requires cfg.Valid() && Shaped(cfg, s) && ProducerIs(cfg, c, s) && EnqueueSlotStep(cfg, s).Some?
    requires c.submitted < c.local <= c.acquired <= c.windowed <= c.submitted + 1 && c.finished == 0
    requires c.submitted < cfg.Count()
    ensures ProducerIs(cfg, c.(submitted := c.submitted + 1), EnqueueSlotStep(cfg, s).value)
  {
    cfg.Starts(c.submitted);
    HashNext(cfg, c.submitted);
  }

  lemma EnqueueSlotInv<KV, Hid, Lg>(cfg: Config<KV, Hid, Lg>, c: Counts, s: Sys<KV, Hid, Lg>)
    requires cfg.Valid() && Taken(cfg, c, s, EnqueueSlot)
    ensures Inv(cfg, Advance(c, EnqueueSlot), Act(cfg, s, EnqueueSlot).value)
  {
    hide HopIs, RefKv, RefHidden, FrameAt, HashAt, KvAt, Wrap;
    var c2, s2 := Advance(c, EnqueueSlot), Act(cfg, s, EnqueueSlot).value;
    EnqueueSlotRing(cfg, c, s);
    EnqueueSlotProducer(cfg, c, s);
    assert ReaderIs(cfg, c2, s2);
    EndStepInv(cfg, c, s, c2, s2);
  }

  lemma FinishProducerInv<KV, Hid, Lg>(cfg: Config<KV, Hid, Lg>, c: Counts, s: Sys<KV, Hid, Lg>)
    requires cfg.Valid() && Taken(cfg, c, s, FinishProducer)
    ensures Inv(cfg, Advance(c, FinishProducer), Act(cfg, s, FinishProducer).value)
  {
    hide HopIs, RefKv, RefHidden, FrameAt, HashAt, KvAt, Wrap;
    cfg.Starts(c.submitted);
    EndStepInv(cfg, c, s, Advance(c, FinishProducer), Act(cfg, s, FinishProducer).value);
  }

  lemma PickSlotInv<KV, Hid, Lg>(cfg: Config<KV, Hid, Lg>, c: Counts, s: Sys<KV, Hid, Lg>)
    requires cfg.Valid() && Taken(cfg, c, s, PickSlot)
    ensures Inv(cfg, Advance(c, PickSlot), Act(cfg, s, PickSlot).value)
  {
    hide HopIs, RefKv, RefHidden, FrameAt, HashAt, KvAt, Wrap, Config.Start;
    EndStepInv(cfg, c, s, Advance(c, PickSlot), Act(cfg, s, PickSlot).value);
  }

  lemma ReleaseSlotRing<KV, Hid, Lg>(cfg: Config<KV, Hid, Lg>, c: Counts, s: Sys<KV, Hid, Lg>)
    requires cfg.Valid() && Shaped(cfg, s) && |c.hops| == cfg.Hops() && RingIs(cfg, c, s)
    requires s.spc == Sent && s.queued != 0 && c.released < c.submitted && c.exited == 0
    requires c.released < c.hops[0].sent <= c.picked <= c.released + 1
    ensures var s2 := s.(spc := SenderIdle, head := (s.head + 1) % cfg.slotCount, queued := s.queued - 1);
            RingIs(cfg, c.(released := c.released + 1), s2)
  {
    WrapSucc(c.released, cfg.slotCount);
  }

  lemma ReleaseSlotInv<KV, Hid, Lg>(cfg: Config<KV, Hid, Lg>, c: Counts, s: Sys<KV, Hid, Lg>)
    requires cfg.Valid() && Taken(cfg, c, s, ReleaseSlot)
    ensures Inv(cfg, Advance(c, ReleaseSlot), Act(cfg, s, ReleaseSlot).value)
  {
    hide HopIs, RefKv, RefHidden, FrameAt, HashAt, KvAt, Wrap, Config.Start;
    var c2, s2 := Advance(c, ReleaseSlot), Act(cfg, s, ReleaseSlot).value;
    ReleaseSlotRing(cfg, c, s);
    assert ProducerIs(cfg, c2, s2);
    assert ReaderIs(cfg, c2, s2);
    EndStepInv(cfg, c, s, c2, s2);
  }

  lemma ExitSenderInv<KV, Hid, Lg>(cfg: Config<KV, Hid, Lg>, c: Counts, s: Sys<KV, Hid, Lg>)
    requires cfg.Valid() && Taken(cfg, c, s, ExitSender)
    ensures Inv(cfg, Advance(c, ExitSender), Act(cfg, s, ExitSender).value)
  {
    hide HopIs, RefKv, RefHidden, FrameAt, HashAt, KvAt, Wrap, Config.Start;
    EndStepInv(cfg, c, s, Advance(c, ExitSender), Act(cfg, s, ExitSender).value);
  }

  lemma SignalProgressInv<KV, Hid, Lg>(cfg: Config<KV, Hid, Lg>, c: Counts, s: Sys<KV, Hid, Lg>)
    requires cfg.Valid() && Taken(cfg, c, s, SignalProgress)
    ensures Inv(cfg, Advance(c, SignalProgress), Act(cfg, s, SignalProgress).value)
  {
    hide HopIs, RefKv, RefHidden, FrameAt, HashAt, KvAt, Wrap, Config.Start;
    EndStepInv(cfg, c, s, Advance(c, SignalProgress), Act(cfg, s, SignalProgress).value);
  }

  /** The slot the producer fills is none of the queued ones. */
  lemma FillKeepsQueued<KV, Hid, Lg>(cfg: Config<KV, Hid, Lg>, c: Counts, s: Sys<KV, Hid, Lg>, f: Frame<Hid>)
    requires cfg.Valid() && Shaped(cfg, s) && |c.hops| == cfg.Hops() && RingIs(cfg, c, s)
    requires c.local == c.submitted < c.released + cfg.slotCount && f == FrameAt(cfg, 0, c.submitted)
    ensures RingIs(cfg, c.(local := c.local + 1), s.(slots := s.slots[s.tail := Some(f)]))
  {
    hide FrameAt;
    var slots := s.slots[s.tail := Some(f)];
    forall i | c.released <= i < c.local + 1
      ensures slots[Wrap(i, cfg.slotCount)] == Some(FrameAt(cfg, 0, i))
    {
      if i < c.local { WrapDistinct(i, c.submitted, cfg.slotCount); }
    }
  }

  /** What the coordinator evaluates for the chunk at its position is the reference's chunk. */
  lemma LocalIsReference<KV, Hid, Lg>(cfg: Config<KV, Hid, Lg>, i: nat)
    requires cfg.Valid() && i < cfg.Count()
    ensures var tokens, pos, b := Chunk(cfg, i), cfg.Start(i), cfg.bounds[1];
            var kvs := KvAt(cfg, i)[..b];
            var before := if cfg.reset && i == 0 then cfg.model.Blank(0, |kvs|) else kvs;
            cfg.model.Slice(0, before, cfg.model.embed(tokens, pos), tokens, pos)
            == (KvAt(cfg, i + 1)[..b], RefHidden(cfg, i, b))
  {
    var b := cfg.bounds[1];
    SliceCell(cfg, i, 0, b);
    assert RefKv(cfg, i)[0..b] == RefKv(cfg, i)[..b];
    assert RefKv(cfg, i + 1)[0..b] == RefKv(cfg, i + 1)[..b];
    if cfg.reset && i == 0 { BlankSlice(cfg, 0, b); }
    assert RefKv(cfg, i)[..0] == [];
    assert RefHidden(cfg, i, 0) == cfg.model.embed(Chunk(cfg, i), cfg.Start(i));
  }

  lemma ChunkIs<KV, Hid, Lg>(cfg: Config<KV, Hid, Lg>, i: nat)
    requires cfg.Valid() && i < cfg.Count()
    ensures cfg.Start(i) < cfg.SpanEnd() && cfg.Start(i) + ChunkAt(cfg, cfg.Start(i)) == cfg.Start(i + 1)
    ensures i + 1 < cfg.Count() <==> cfg.Start(i + 1) < cfg.SpanEnd()
    ensures cfg.Start(i) == cfg.spanStart <==> i == 0
  {
    cfg.Starts(i);
    cfg.Starts(i + 1);
    if i > 0 { cfg.Starts(i - 1); }
  }

  lemma EvalLocalSlot<KV, Hid, Lg>(cfg: Config<KV, Hid, Lg>, i: nat, s: Sys<KV, Hid, Lg>)
    requires cfg.Valid() && Shaped(cfg, s) && i < cfg.Count() && s.ppc == AtEval
    requires s.pos == cfg.Start(i) && s.nextId == cfg.firstId + i && s.nextHash == HashAt(cfg, i)
    requires s.kv == KvAt(cfg, i)[..cfg.bounds[1]]
    ensures EvalLocalStep(cfg, s)
         == Some(s.(ppc := AtEnqueue, kv := KvAt(cfg, i + 1)[..cfg.bounds[1]],
                    slots := s.slots[s.tail := Some(FrameAt(cfg, 0, i))]))
  {
    hide RefKv, RefHidden, Model.Slice, Model.Blank;
    ChunkIs(cfg, i);
    HashNext(cfg, i);
    LocalIsReference(cfg, i);
    var n := ChunkAt(cfg, s.pos);
    var tokens := cfg.prompt[s.pos..s.pos + n];
    assert tokens == Chunk(cfg, i);
    var first := cfg.reset && s.pos == cfg.spanStart;
    var work := Work(first, s.pos, tokens, s.nextHash, cfg.hs.Span(s.nextHash, tokens));
    assert work == WorkAt(cfg, i);
    assert (cfg.ackOnly && s.pos + n < cfg.SpanEnd()) == (cfg.ackOnly && i + 1 < cfg.Count());
    assert |s.kv| == cfg.bounds[1];
  }

  lemma LocalEnabled<KV, Hid, Lg>(cfg: Config<KV, Hid, Lg>, s: Sys<KV, Hid, Lg>)
    requires Shaped(cfg, s) && EvalLocalStep(cfg, s).Some?
    ensures s.ppc == AtEval
  {
  }

  lemma EvalLocalInv<KV, Hid, Lg>(cfg: Config<KV, Hid, Lg>, c: Counts, s: Sys<KV, Hid, Lg>)
    requires cfg.Valid() && Taken(cfg, c, s, EvalLocal)
    ensures Inv(cfg, Advance(c, EvalLocal), Act(cfg, s, EvalLocal).value)
  {
    hide HopIs, RefKv, RefHidden, FrameAt, HashAt, Config.Start, EvalLocalStep;
    var c2, s2 := Advance(c, EvalLocal), Act(cfg, s, EvalLocal).value;
    LocalEnabled(cfg, s);
    EvalLocalSlot(cfg, c.submitted, s);
    FillKeepsQueued(cfg, c, s, FrameAt(cfg, 0, c.submitted));
    assert RingIs(cfg, c2, s2);
    assert ProducerIs(cfg, c2, s2);
    assert ReaderIs(cfg, c2, s2);
    EndStepInv(cfg, c, s, c2, s2);
  }

  // ----- One hop at a time ---------------------------------------------------------------

  lemma ReadHop<KV, Hid, Lg>(cfg: Config<KV, Hid, Lg>, j: nat, h: Hop, done: nat, taken: nat,
                             w: Worker<KV, Hid, Lg>, fq: seq<Frame<Hid>>, rq: seq<Result<Hid, Lg>>)
    requires cfg.Valid() && j < cfg.Hops() && HopIs(cfg, j, h, done, taken, w, fq, rq)
    requires w.held.None? && fq != []
    ensures HopIs(cfg, j, h.(read := h.read + 1), done, taken, w.(held := Some(fq[0])), fq[1..], rq)
  {
    hide FrameAt, ResultAt, KvAt, SessionAt;
  }

  lemma EnqueueHop<KV, Hid, Lg>(cfg: Config<KV, Hid, Lg>, j: nat, h: Hop, done: nat, taken: nat,
                                w: Worker<KV, Hid, Lg>, fq: seq<Frame<Hid>>, rq: seq<Result<Hid, Lg>>)
    requires cfg.Valid() && j < cfg.Hops() && HopIs(cfg, j, h, done, taken, w, fq, rq)
    requires w.held.Some? && |w.jobs| < cfg.jobDepth[j]
    ensures HopIs(cfg, j, h.(queued := h.queued + 1), done, taken,
                  w.(held := None, jobs := w.jobs + [w.held.value]), fq, rq)
  {
    hide FrameAt, ResultAt, KvAt, SessionAt;
  }

  lemma PopHop<KV, Hid, Lg>(cfg: Config<KV, Hid, Lg>, j: nat, h: Hop, done: nat, taken: nat,
                            w: Worker<KV, Hid, Lg>, fq: seq<Frame<Hid>>, rq: seq<Result<Hid, Lg>>)
    requires cfg.Valid() && j < cfg.Hops() && HopIs(cfg, j, h, done, taken, w, fq, rq)
    requires w.eval.NoJob? && w.jobs != []
    ensures HopIs(cfg, j, h.(popped := h.popped + 1), done, taken,
                  w.(jobs := w.jobs[1..], eval := Job(w.jobs[0])), fq, rq)
  {
    hide FrameAt, ResultAt, KvAt, SessionAt;
  }

  lemma RegisterHop<KV, Hid, Lg>(cfg: Config<KV, Hid, Lg>, j: nat, h: Hop, done: nat, taken: nat,
                                 w: Worker<KV, Hid, Lg>, fq: seq<Frame<Hid>>, rq: seq<Result<Hid, Lg>>)
    requires cfg.Valid() && j < cfg.Hops() && HopIs(cfg, j, h, done, taken, w, fq, rq)
    requires w.eval.Forward? && !w.eval.registered && (cfg.pendDepth[j] != 0 ==> |w.pending| < cfg.pendDepth[j])
    ensures HopIs(cfg, j, h.(registered := h.registered + 1), done, taken,
                  w.(eval := w.eval.(registered := true), pending := w.pending + [w.eval.frame.id]), fq, rq)
  {
    hide WorkAt, RefHidden, ResultAt, KvAt, SessionAt;
  }

  lemma ForwardHop<KV, Hid, Lg>(cfg: Config<KV, Hid, Lg>, j: nat, h: Hop, done: nat, taken: nat,
                                w: Worker<KV, Hid, Lg>, fq: seq<Frame<Hid>>, rq: seq<Result<Hid, Lg>>)
    requires cfg.Valid() && j < cfg.Hops() && HopIs(cfg, j, h, done, taken, w, fq, rq)
    requires w.eval.Forward? && w.eval.registered
    ensures j + 1 < cfg.Hops() && w.eval.frame == FrameAt(cfg, j + 1, done)
    ensures HopIs(cfg, j, h, done + 1, taken, w.(eval := NoJob), fq, rq)
  {
    hide FrameAt, ResultAt, KvAt, SessionAt;
  }

  lemma SentHop<KV, Hid, Lg>(cfg: Config<KV, Hid, Lg>, j: nat, h: Hop, done: nat, taken: nat,
                             w: Worker<KV, Hid, Lg>, fq: seq<Frame<Hid>>, rq: seq<Result<Hid, Lg>>)
    requires cfg.Valid() && j < cfg.Hops() && HopIs(cfg, j, h, done, taken, w, fq, rq)
    requires |fq| < cfg.fwdCap[j]
    ensures HopIs(cfg, j, h.(sent := h.sent + 1), done, taken, w, fq + [FrameAt(cfg, j, h.sent)], rq)
  {
    hide FrameAt, ResultAt, KvAt, SessionAt;
  }

  lemma ReplyHop<KV, Hid, Lg>(cfg: Config<KV, Hid, Lg>, j: nat, h: Hop, done: nat, taken: nat,
                              w: Worker<KV, Hid, Lg>, fq: seq<Frame<Hid>>, rq: seq<Result<Hid, Lg>>)
    requires cfg.Valid() && j < cfg.Hops() && HopIs(cfg, j, h, done, taken, w, fq, rq)
    requires w.eval.Reply? && |rq| < cfg.retCap[j]
    ensures j + 1 == cfg.Hops()
    ensures HopIs(cfg, j, h.(replied := h.replied + 1), done + 1, taken, w.(eval := NoJob), fq, rq + [w.eval.result])
  {
    hide FrameAt, ResultAt, KvAt, SessionAt;
  }

  lemma TakeHop<KV, Hid, Lg>(cfg: Config<KV, Hid, Lg>, j: nat, h: Hop, done: nat, taken: nat,
                             w: Worker<KV, Hid, Lg>, fq: seq<Frame<Hid>>, rq: seq<Result<Hid, Lg>>)
    requires cfg.Valid() && j + 1 < cfg.Hops() && HopIs(cfg, j, h, done, taken, w, fq, rq)
    requires w.relay.RelayIdle?
    ensures HopIs(cfg, j, h.(taken := h.taken + 1), done, taken, w.(relay := Held(ResultAt(cfg, h.taken))), fq, rq)
  {
    hide FrameAt, ResultAt, KvAt, SessionAt;
  }

  lemma TakenHop<KV, Hid, Lg>(cfg: Config<KV, Hid, Lg>, j: nat, h: Hop, done: nat, taken: nat,
                              w: Worker<KV, Hid, Lg>, fq: seq<Frame<Hid>>, rq: seq<Result<Hid, Lg>>)
    requires cfg.Valid() && j < cfg.Hops() && HopIs(cfg, j, h, done, taken, w, fq, rq)
    requires rq != []
    ensures rq[0] == ResultAt(cfg, taken)
    ensures HopIs(cfg, j, h, done, taken + 1, w, fq, rq[1..])
  {
    hide FrameAt, ResultAt, KvAt, SessionAt;
  }

  /** The result a relay holds answers the oldest pending request. */
  lemma MatchHop<KV, Hid, Lg>(cfg: Config<KV, Hid, Lg>, j: nat, h: Hop, done: nat, taken: nat,
                              w: Worker<KV, Hid, Lg>, fq: seq<Frame<Hid>>, rq: seq<Result<Hid, Lg>>)
    requires cfg.Valid() && j < cfg.Hops() && HopIs(cfg, j, h, done, taken, w, fq, rq)
    requires w.relay.Held? && h.taken <= h.registered
    ensures w.pending != [] && w.pending[0] == w.relay.result.id
    ensures HopIs(cfg, j, h.(matched := h.matched + 1), done, taken,
                  w.(pending := w.pending[1..], relay := Matched(w.relay.result)), fq, rq)
  {
  }

  lemma RelayHop<KV, Hid, Lg>(cfg: Config<KV, Hid, Lg>, j: nat, h: Hop, done: nat, taken: nat,
                              w: Worker<KV, Hid, Lg>, fq: seq<Frame<Hid>>, rq: seq<Result<Hid, Lg>>)
    requires cfg.Valid() && j < cfg.Hops() && HopIs(cfg, j, h, done, taken, w, fq, rq)
    requires w.relay.Matched? && |rq| < cfg.retCap[j]
    ensures j + 1 < cfg.Hops()
    ensures HopIs(cfg, j, h.(replied := h.replied + 1), done, taken, w.(relay := RelayIdle), fq, rq + [w.relay.result])
  {
    hide FrameAt, ResultAt, KvAt, SessionAt;
  }

  /** The prefix guard accepts chunk i at a session that has evaluated the chunks before it. */
  lemma GuardPasses<KV, Hid, Lg>(cfg: Config<KV, Hid, Lg>, j: nat, i: nat)
    requires cfg.Valid() && j < cfg.Hops() && i < cfg.Count()
    ensures WorkStep(cfg.hs, SessionAt(cfg, j, i), WorkAt(cfg, i), true, NoFault)
         == (SessionAt(cfg, j, i + 1), Evaluated)
  {
    cfg.Starts(i);
    HashNext(cfg, i);
    assert Chunk(cfg, i) != [];
    assert |Before(cfg, i)| == cfg.Start(i);
    if i == 0 {
      StartZero(cfg);
      if cfg.reset {
        assert Before(cfg, 0) == [];
        assert cfg.hs.Prefix([]) == cfg.hs.init;
        assert [] + Chunk(cfg, 0) == Before(cfg, 1);
      } else {
        assert cfg.InSync(cfg.session0[j]);
      }
    }
  }

  lemma SliceOfHop<KV, Hid, Lg>(cfg: Config<KV, Hid, Lg>, j: nat, i: nat)
    requires cfg.Valid() && j < cfg.Hops()
    ensures var lo, hi := cfg.bounds[j + 1], cfg.bounds[j + 2];
            var kvs := KvAt(cfg, i)[lo..hi];
            var before := if cfg.reset && i == 0 then cfg.model.Blank(lo, |kvs|) else kvs;
            cfg.model.Slice(lo, before, RefHidden(cfg, i, lo), Chunk(cfg, i), cfg.Start(i))
            == (KvAt(cfg, i + 1)[lo..hi], RefHidden(cfg, i, hi))
  {
    var lo, hi := cfg.bounds[j + 1], cfg.bounds[j + 2];
    SliceCell(cfg, i, lo, hi);
    if cfg.reset && i == 0 { BlankSlice(cfg, lo, hi); }
  }

  lemma EvaluateIs<KV, Hid, Lg>(cfg: Config<KV, Hid, Lg>, j: nat, i: nat, w: Worker<KV, Hid, Lg>)
    requires cfg.Valid() && j < cfg.Hops() && i < cfg.Count()
    requires w.eval == Job(FrameAt(cfg, j, i)) && w.session == SessionAt(cfg, j, i)
    requires w.kv == KvAt(cfg, i)[cfg.bounds[j + 1]..cfg.bounds[j + 2]]
    ensures Evaluate(cfg, j, w)
         == Some(w.(session := SessionAt(cfg, j, i + 1),
                    kv := KvAt(cfg, i + 1)[cfg.bounds[j + 1]..cfg.bounds[j + 2]],
                    eval := if j + 1 == cfg.Hops() then Reply(ResultAt(cfg, i))
                            else Forward(FrameAt(cfg, j + 1, i), false)))
  {
    hide WorkStep, SessionAt, KvAt, RefHidden;
    GuardPasses(cfg, j, i);
    SliceOfHop(cfg, j, i);
  }

  lemma EvalHop<KV, Hid, Lg>(cfg: Config<KV, Hid, Lg>, j: nat, h: Hop, done: nat, taken: nat,
                             w: Worker<KV, Hid, Lg>, fq: seq<Frame<Hid>>, rq: seq<Result<Hid, Lg>>)
    requires cfg.Valid() && j < cfg.Hops() && HopIs(cfg, j, h, done, taken, w, fq, rq)
    requires w.eval.Job? && h.popped <= cfg.Count()
    ensures Evaluate(cfg, j, w).Some?
    ensures HopIs(cfg, j, h.(evald := h.evald + 1), done, taken, Evaluate(cfg, j, w).value, fq, rq)
  {
    hide FrameAt, ResultAt, KvAt, SessionAt, Evaluate;
    EvaluateIs(cfg, j, done, w);
  }

  // ----- Putting the hops together -------------------------------------------------------

  /** Frames reach worker j only through all the threads before it. */
  lemma {:induction false} SentBound<KV, Hid, Lg>(cfg: Config<KV, Hid, Lg>, c: Counts, s: Sys<KV, Hid, Lg>, j: nat)
    requires cfg.Valid() && Inv(cfg, c, s) && j < cfg.Hops()
    ensures c.hops[j].sent <= c.submitted <= cfg.Count()
  {
    hide ProducerIs, RingIs, ReaderIs, WorkerIs, FramesAre, ResultsAre;
    if j > 0 {
      SentBound(cfg, c, s, j - 1);
      assert HopAt(cfg, c, s, j - 1);
    }
  }

  /** What the coordinator's threads see of the hops is only how many frames were sent to the
      first one. */
  lemma EndsKept<KV, Hid, Lg>(cfg: Config<KV, Hid, Lg>, c: Counts, s: Sys<KV, Hid, Lg>, c2: Counts, s2: Sys<KV, Hid, Lg>)
    requires cfg.Valid() && |c.hops| == |c2.hops| == cfg.Hops()
    requires EndsOk(cfg, c) && ProducerIs(cfg, c, s) && RingIs(cfg, c, s) && ReaderIs(cfg, c, s)
    requires c2 == c.(hops := c2.hops) && c2.hops[0].sent == c.hops[0].sent
    requires s2 == s.(fwd := s2.fwd, workers := s2.workers, ret := s2.ret)
    ensures EndsOk(cfg, c2) && ProducerIs(cfg, c2, s2) && RingIs(cfg, c2, s2) && ReaderIs(cfg, c2, s2)
  {
    hide RefKv, RefHidden, FrameAt, PayloadAt, KvAt;
  }

  /** A step that touches only worker j. */
  lemma WorkerStepInv<KV, Hid, Lg>(
    cfg: Config<KV, Hid, Lg>, c: Counts, s: Sys<KV, Hid, Lg>, j: nat, h: Hop, w: Worker<KV, Hid, Lg>)
    requires cfg.Valid() && Inv(cfg, c, s) && j < cfg.Hops()
    requires h.sent == c.hops[j].sent && h.taken == c.hops[j].taken && h.replied == c.hops[j].replied
    requires HopIs(cfg, j, h, Done(c, j), TakenFrom(c, j), w, s.fwd[j], s.ret[j])
    ensures Inv(cfg, c.(hops := c.hops[j := h]), s.(workers := s.workers[j := w]))
  {
    hide HopIs, EndsOk, ProducerIs, RingIs, ReaderIs;
    var c2, s2 := c.(hops := c.hops[j := h]), s.(workers := s.workers[j := w]);
    forall k | 0 <= k < cfg.Hops()
      ensures HopAt(cfg, c2, s2, k)
    {
      assert HopAt(cfg, c, s, k);
      assert Done(c2, k) == Done(c, k) && TakenFrom(c2, k) == TakenFrom(c, k);
    }
    EndsKept(cfg, c, s, c2, s2);
  }

  lemma EnqueueJobInv<KV, Hid, Lg>(cfg: Config<KV, Hid, Lg>, c: Counts, s: Sys<KV, Hid, Lg>, j: nat)
    requires cfg.Valid() && Taken(cfg, c, s, EnqueueJob(j))
    ensures Inv(cfg, Advance(c, EnqueueJob(j)), Act(cfg, s, EnqueueJob(j)).value)
  {
    hide HopIs, RingIs, ProducerIs, ReaderIs, EndsOk;
    assert HopAt(cfg, c, s, j);
    var h, w := c.hops[j], s.workers[j];
    EnqueueHop(cfg, j, h, Done(c, j), TakenFrom(c, j), w, s.fwd[j], s.ret[j]);
    WorkerStepInv(cfg, c, s, j, h.(queued := h.queued + 1), w.(held := None, jobs := w.jobs + [w.held.value]));
  }

  lemma PopJobInv<KV, Hid, Lg>(cfg: Config<KV, Hid, Lg>, c: Counts, s: Sys<KV, Hid, Lg>, j: nat)
    requires cfg.Valid() && Taken(cfg, c, s, PopJob(j))
    ensures Inv(cfg, Advance(c, PopJob(j)), Act(cfg, s, PopJob(j)).value)
  {
    hide HopIs, RingIs, ProducerIs, ReaderIs, EndsOk;
    assert HopAt(cfg, c, s, j);
    var h, w := c.hops[j], s.workers[j];
    PopHop(cfg, j, h, Done(c, j), TakenFrom(c, j), w, s.fwd[j], s.ret[j]);
    WorkerStepInv(cfg, c, s, j, h.(popped := h.popped + 1), w.(jobs := w.jobs[1..], eval := Job(w.jobs[0])));
  }

  lemma PoppedBound<KV, Hid, Lg>(cfg: Config<KV, Hid, Lg>, c: Counts, s: Sys<KV, Hid, Lg>, j: nat)
    requires cfg.Valid() && Inv(cfg, c, s) && j < cfg.Hops()
    ensures c.hops[j].popped <= cfg.Count()
  {
    hide ProducerIs, RingIs, ReaderIs, WorkerIs, FramesAre, ResultsAre;
    SentBound(cfg, c, s, j);
    assert HopAt(cfg, c, s, j);
  }

  lemma EvalJobInv<KV, Hid, Lg>(cfg: Config<KV, Hid, Lg>, c: Counts, s: Sys<KV, Hid, Lg>, j: nat)
    requires cfg.Valid() && Taken(cfg, c, s, EvalJob(j))
    ensures Inv(cfg, Advance(c, EvalJob(j)), Act(cfg, s, EvalJob(j)).value)
  {
    hide HopIs, RingIs, ProducerIs, ReaderIs, EndsOk, Evaluate;
    assert HopAt(cfg, c, s, j);
    var h, w := c.hops[j], s.workers[j];
    PoppedBound(cfg, c, s, j);
    EvalHop(cfg, j, h, Done(c, j), TakenFrom(c, j), w, s.fwd[j], s.ret[j]);
    WorkerStepInv(cfg, c, s, j, h.(evald := h.evald + 1), Evaluate(cfg, j, w).value);
  }

  lemma RegisterPendingInv<KV, Hid, Lg>(cfg: Config<KV, Hid, Lg>, c: Counts, s: Sys<KV, Hid, Lg>, j: nat)
    requires cfg.Valid() && Taken(cfg, c, s, RegisterPending(j))
    ensures Inv(cfg, Advance(c, RegisterPending(j)), Act(cfg, s, RegisterPending(j)).value)
  {
    hide HopIs, RingIs, ProducerIs, ReaderIs, EndsOk;
    assert HopAt(cfg, c, s, j);
    var h, w := c.hops[j], s.workers[j];
    RegisterHop(cfg, j, h, Done(c, j), TakenFrom(c, j), w, s.fwd[j], s.ret[j]);
    WorkerStepInv(cfg, c, s, j, h.(registered := h.registered + 1),
                  w.(eval := w.eval.(registered := true), pending := w.pending + [w.eval.frame.id]));
  }

  /** A relay that holds a result belongs to a forwarder, and has a request pending for it. */
  lemma HeldIsPending<KV, Hid, Lg>(cfg: Config<KV, Hid, Lg>, c: Counts, s: Sys<KV, Hid, Lg>, j: nat)
    requires cfg.Valid() && Inv(cfg, c, s) && j < cfg.Hops() && s.workers[j].relay.Held?
    ensures j + 1 < cfg.Hops() && c.hops[j].taken <= c.hops[j].registered
  {
    hide ProducerIs, RingIs, ReaderIs, FramesAre, ResultsAre, EvalPcAt, SessionAt, KvAt, FrameAt, ResultAt, IdsAre, EndsOk;
    assert HopAt(cfg, c, s, j);
    ResultsBehindFrames(cfg, c, s, j + 1);
  }

  lemma MatchResultInv<KV, Hid, Lg>(cfg: Config<KV, Hid, Lg>, c: Counts, s: Sys<KV, Hid, Lg>, j: nat)
    requires cfg.Valid() && Taken(cfg, c, s, MatchResult(j))
    ensures Inv(cfg, Advance(c, MatchResult(j)), Act(cfg, s, MatchResult(j)).value)
  {
    hide HopIs, RingIs, ProducerIs, ReaderIs, EndsOk;
    assert HopAt(cfg, c, s, j);
    var h, w := c.hops[j], s.workers[j];
    HeldIsPending(cfg, c, s, j);
    MatchHop(cfg, j, h, Done(c, j), TakenFrom(c, j), w, s.fwd[j], s.ret[j]);
    WorkerStepInv(cfg, c, s, j, h.(matched := h.matched + 1),
                  w.(pending := w.pending[1..], relay := Matched(w.relay.result)));
  }

  /** Nothing that hop k depends on has changed. */
  ghost predicate HopUntouched<KV, Hid, Lg>(c: Counts, s: Sys<KV, Hid, Lg>, c2: Counts, s2: Sys<KV, Hid, Lg>, k: nat)
    requires |c.hops| == |s.fwd| == |s.workers| == |s.ret|
    requires |c2.hops| == |s2.fwd| == |s2.workers| == |s2.ret| == |c.hops|
    requires k < |c.hops|
  {
    && c2.hops[k] == c.hops[k] && Done(c2, k) == Done(c, k) && TakenFrom(c2, k) == TakenFrom(c, k)
    && s2.workers[k] == s.workers[k] && s2.fwd[k] == s.fwd[k] && s2.ret[k] == s.ret[k]
  }

  /** A step that moves a message over a channel touches the two hops at its ends. */
  lemma ChannelStepInv<KV, Hid, Lg>(cfg: Config<KV, Hid, Lg>, c: Counts, s: Sys<KV, Hid, Lg>,
                                    c2: Counts, s2: Sys<KV, Hid, Lg>, j: nat, j2: nat)
    requires cfg.Valid() && Inv(cfg, c, s) && j < cfg.Hops() && j2 < cfg.Hops()
    requires |c2.hops| == |s2.fwd| == |s2.workers| == |s2.ret| == cfg.Hops() && !s2.failed
    requires EndsOk(cfg, c2) && ProducerIs(cfg, c2, s2) && RingIs(cfg, c2, s2) && ReaderIs(cfg, c2, s2)
    requires HopAt(cfg, c2, s2, j) && HopAt(cfg, c2, s2, j2)
    requires forall k :: 0 <= k < cfg.Hops() && k != j && k != j2 ==> HopUntouched(c, s, c2, s2, k)
    ensures Inv(cfg, c2, s2)
  {
    hide HopIs, EndsOk, ProducerIs, RingIs, ReaderIs;
    forall k | 0 <= k < cfg.Hops()
      ensures HopAt(cfg, c2, s2, k)
    {
      if k != j && k != j2 {
        assert HopUntouched(c, s, c2, s2, k);
        assert HopAt(cfg, c, s, k);
      }
    }
  }

  lemma ReadFrameInv<KV, Hid, Lg>(cfg: Config<KV, Hid, Lg>, c: Counts, s: Sys<KV, Hid, Lg>, j: nat)
    requires cfg.Valid() && Taken(cfg, c, s, ReadFrame(j))
    ensures Inv(cfg, Advance(c, ReadFrame(j)), Act(cfg, s, ReadFrame(j)).value)
  {
    hide HopIs, RingIs, ProducerIs, ReaderIs, EndsOk;
    assert HopAt(cfg, c, s, j);
    var c2, s2 := Advance(c, ReadFrame(j)), Act(cfg, s, ReadFrame(j)).value;
    ReadHop(cfg, j, c.hops[j], Done(c, j), TakenFrom(c, j), s.workers[j], s.fwd[j], s.ret[j]);
    EndsKept(cfg, c, s, c2, s2);
    ChannelStepInv(cfg, c, s, c2, s2, j, j);
  }

  lemma ForwardFrameInv<KV, Hid, Lg>(cfg: Config<KV, Hid, Lg>, c: Counts, s: Sys<KV, Hid, Lg>, j: nat)
    requires cfg.Valid() && Taken(cfg, c, s, ForwardFrame(j))
    ensures Inv(cfg, Advance(c, ForwardFrame(j)), Act(cfg, s, ForwardFrame(j)).value)
  {
    hide HopIs, RingIs, ProducerIs, ReaderIs, EndsOk, ResultAt, FrameAt;
    assert HopAt(cfg, c, s, j) && HopAt(cfg, c, s, j + 1);
    var c2, s2 := Advance(c, ForwardFrame(j)), Act(cfg, s, ForwardFrame(j)).value;
    ForwardHop(cfg, j, c.hops[j], Done(c, j), TakenFrom(c, j), s.workers[j], s.fwd[j], s.ret[j]);
    SentHop(cfg, j + 1, c.hops[j + 1], Done(c, j + 1), TakenFrom(c, j + 1), s.workers[j + 1], s.fwd[j + 1], s.ret[j + 1]);
    EndsKept(cfg, c, s, c2, s2);
    ChannelStepInv(cfg, c, s, c2, s2, j, j + 1);
  }

  lemma ReplyResultInv<KV, Hid, Lg>(cfg: Config<KV, Hid, Lg>, c: Counts, s: Sys<KV, Hid, Lg>, j: nat)
    requires cfg.Valid() && Taken(cfg, c, s, ReplyResult(j))
    ensures Inv(cfg, Advance(c, ReplyResult(j)), Act(cfg, s, ReplyResult(j)).value)
  {
    hide HopIs, RingIs, ProducerIs, ReaderIs, EndsOk, ResultAt, FrameAt;
    assert HopAt(cfg, c, s, j);
    var c2, s2 := Advance(c, ReplyResult(j)), Act(cfg, s, ReplyResult(j)).value;
    ReplyHop(cfg, j, c.hops[j], Done(c, j), TakenFrom(c, j), s.workers[j], s.fwd[j], s.ret[j]);
    EndsKept(cfg, c, s, c2, s2);
    ChannelStepInv(cfg, c, s, c2, s2, j, j);
  }

  lemma TakeResultInv<KV, Hid, Lg>(cfg: Config<KV, Hid, Lg>, c: Counts, s: Sys<KV, Hid, Lg>, j: nat)
    requires cfg.Valid() && Taken(cfg, c, s, TakeResult(j))
    ensures Inv(cfg, Advance(c, TakeResult(j)), Act(cfg, s, TakeResult(j)).value)
  {
    hide HopIs, RingIs, ProducerIs, ReaderIs, EndsOk, ResultAt, FrameAt;
    assert HopAt(cfg, c, s, j) && HopAt(cfg, c, s, j + 1);
    var c2, s2 := Advance(c, TakeResult(j)), Act(cfg, s, TakeResult(j)).value;
    TakeHop(cfg, j, c.hops[j], Done(c, j), TakenFrom(c, j), s.workers[j], s.fwd[j], s.ret[j]);
    TakenHop(cfg, j + 1, c.hops[j + 1], Done(c, j + 1), TakenFrom(c, j + 1), s.workers[j + 1], s.fwd[j + 1], s.ret[j + 1]);
    EndsKept(cfg, c, s, c2, s2);
    ChannelStepInv(cfg, c, s, c2, s2, j, j + 1);
  }

  lemma RelayResultInv<KV, Hid, Lg>(cfg: Config<KV, Hid, Lg>, c: Counts, s: Sys<KV, Hid, Lg>, j: nat)
    requires cfg.Valid() && Taken(cfg, c, s, RelayResult(j))
    ensures Inv(cfg, Advance(c, RelayResult(j)), Act(cfg, s, RelayResult(j)).value)
  {
    hide HopIs, RingIs, ProducerIs, ReaderIs, EndsOk, ResultAt, FrameAt;
    assert HopAt(cfg, c, s, j);
    var c2, s2 := Advance(c, RelayResult(j)), Act(cfg, s, RelayResult(j)).value;
    RelayHop(cfg, j, c.hops[j], Done(c, j), TakenFrom(c, j), s.workers[j], s.fwd[j], s.ret[j]);
    EndsKept(cfg, c, s, c2, s2);
    ChannelStepInv(cfg, c, s, c2, s2, j, j);
  }

  /** The slot at the ring's head is written and holds the oldest unsent chunk. */
  lemma SendSlotEnds<KV, Hid, Lg>(
    cfg: Config<KV, Hid, Lg>, c: Counts, s: Sys<KV, Hid, Lg>, c2: Counts, s2: Sys<KV, Hid, Lg>)
    requires cfg.Valid() && |c.hops| == |c2.hops| == cfg.Hops() && Shaped(cfg, s)
    requires EndsOk(cfg, c) && ProducerIs(cfg, c, s) && RingIs(cfg, c, s) && ReaderIs(cfg, c, s)
    requires s.spc == Sending
    requires c2 == c.(hops := c2.hops) && c2.hops[0].sent == c.hops[0].sent + 1
    requires s2 == s.(spc := Sent, fwd := s2.fwd)
    ensures s.slots[s.head] == Some(FrameAt(cfg, 0, c.hops[0].sent))
    ensures EndsOk(cfg, c2) && ProducerIs(cfg, c2, s2) && RingIs(cfg, c2, s2) && ReaderIs(cfg, c2, s2)
  {
    hide RefKv, RefHidden, FrameAt, PayloadAt, KvAt;
  }

  lemma SendSlotInv<KV, Hid, Lg>(cfg: Config<KV, Hid, Lg>, c: Counts, s: Sys<KV, Hid, Lg>)
    requires cfg.Valid() && Taken(cfg, c, s, SendSlot)
    ensures Inv(cfg, Advance(c, SendSlot), Act(cfg, s, SendSlot).value)
  {
    hide HopIs, RingIs, ProducerIs, ReaderIs, EndsOk;
    assert HopAt(cfg, c, s, 0);
    var c2 := Advance(c, SendSlot);
    var s1 := s.(spc := Sent, fwd := s.fwd[0 := s.fwd[0] + [FrameAt(cfg, 0, c.hops[0].sent)]]);
    SendSlotEnds(cfg, c, s, c2, s1);
    SentHop(cfg, 0, c.hops[0], Done(c, 0), TakenFrom(c, 0), s.workers[0], s.fwd[0], s.ret[0]);
    ChannelStepInv(cfg, c, s, c2, s1, 0, 0);
  }

  /** The reader's own idea of the chunk it waits for agrees with the sender's. */
  lemma ReaderAccepts<KV, Hid, Lg>(cfg: Config<KV, Hid, Lg>, c: Counts, s: Sys<KV, Hid, Lg>)
    requires cfg.Valid() && Shaped(cfg, s)
    requires s.accepted == s.completed == c.accepted < cfg.Count() && s.ret[0] != []
    requires s.ret[0][0] == ResultAt(cfg, c.accepted)
    ensures var i := c.accepted;
            AcceptStep(cfg, s)
            == Some(s.(ret := s.ret[0 := s.ret[0][1..]], accepted := i + 1,
                       final := if i + 1 == cfg.Count() then Some(PayloadAt(cfg, i)) else s.final))
  {
    hide RefHidden, RefKv;
    var i := c.accepted;
    cfg.StartClosed(i);
    ChunkIs(cfg, i);
    cfg.Starts(i + 1);
    assert |Chunk(cfg, i)| == cfg.Start(i + 1) - cfg.Start(i);
  }

  lemma AcceptEnds<KV, Hid, Lg>(cfg: Config<KV, Hid, Lg>, c: Counts, s: Sys<KV, Hid, Lg>, s2: Sys<KV, Hid, Lg>)
    requires cfg.Valid() && |c.hops| == cfg.Hops()
    requires EndsOk(cfg, c) && ProducerIs(cfg, c, s) && RingIs(cfg, c, s) && ReaderIs(cfg, c, s)
    requires s.accepted == s.completed < cfg.Count()
    requires s2 == s.(ret := s2.ret, accepted := s.accepted + 1,
                      final := if s.accepted + 1 == cfg.Count() then Some(PayloadAt(cfg, s.accepted)) else s.final)
    ensures var c2 := c.(accepted := c.accepted + 1);
            EndsOk(cfg, c2) && ProducerIs(cfg, c2, s2) && RingIs(cfg, c2, s2) && ReaderIs(cfg, c2, s2)
  {
    hide RefKv, RefHidden, FrameAt, PayloadAt, KvAt;
  }

  lemma AcceptResultInv<KV, Hid, Lg>(cfg: Config<KV, Hid, Lg>, c: Counts, s: Sys<KV, Hid, Lg>)
    requires cfg.Valid() && Taken(cfg, c, s, AcceptResult)
    ensures Inv(cfg, Advance(c, AcceptResult), Act(cfg, s, AcceptResult).value)
  {
    hide HopIs, RingIs, ProducerIs, EndsOk;
    assert HopAt(cfg, c, s, 0);
    TakenHop(cfg, 0, c.hops[0], Done(c, 0), TakenFrom(c, 0), s.workers[0], s.fwd[0], s.ret[0]);
    ReaderAccepts(cfg, c, s);
    var s2 := AcceptStep(cfg, s).value;
    AcceptEnds(cfg, c, s, s2);
    ChannelStepInv(cfg, c, s, Advance(c, AcceptResult), s2, 0, 0);
  }

  // ----- Every step ----------------------------------------------------------------------

  lemma StepOnRoute<KV, Hid, Lg>(cfg: Config<KV, Hid, Lg>, c: Counts, s: Sys<KV, Hid, Lg>, a: Action)
    requires cfg.Valid() && Inv(cfg, c, s) && Shaped(cfg, s) && Act(cfg, s, a).Some?
    ensures OnRoute(c, a)
  {
    hide HopsAre, RingIs, ProducerIs, ReaderIs, EndsOk;
  }

  /** The invariant is inductive: each step advances its own count by one, and no step fails. */
  lemma StepInv<KV, Hid, Lg>(cfg: Config<KV, Hid, Lg>, c: Counts, s: Sys<KV, Hid, Lg>, a: Action)
    requires cfg.Valid() && Inv(cfg, c, s) && Shaped(cfg, s) && Act(cfg, s, a).Some?
    ensures OnRoute(c, a) && Inv(cfg, Advance(c, a), Act(cfg, s, a).value)
  {
    StepOnRoute(cfg, c, s, a);
    hide Inv, Act, Advance, OnRoute;
    match a
    case PassWindow => PassWindowInv(cfg, c, s);
    case AcquireSlot => AcquireSlotInv(cfg, c, s);
    case EvalLocal => EvalLocalInv(cfg, c, s);
    case EnqueueSlot => EnqueueSlotInv(cfg, c, s);
    case FinishProducer => FinishProducerInv(cfg, c, s);
    case PickSlot => PickSlotInv(cfg, c, s);
    case SendSlot => SendSlotInv(cfg, c, s);
    case ReleaseSlot => ReleaseSlotInv(cfg, c, s);
    case ExitSender => ExitSenderInv(cfg, c, s);
    case AcceptResult => AcceptResultInv(cfg, c, s);
    case SignalProgress => SignalProgressInv(cfg, c, s);
    case ReadFrame(j) => ReadFrameInv(cfg, c, s, j);
    case EnqueueJob(j) => EnqueueJobInv(cfg, c, s, j);
    case PopJob(j) => PopJobInv(cfg, c, s, j);
    case EvalJob(j) => EvalJobInv(cfg, c, s, j);
    case RegisterPending(j) => RegisterPendingInv(cfg, c, s, j);
    case ForwardFrame(j) => ForwardFrameInv(cfg, c, s, j);
    case ReplyResult(j) => ReplyResultInv(cfg, c, s, j);
    case TakeResult(j) => TakeResultInv(cfg, c, s, j);
    case MatchResult(j) => MatchResultInv(cfg, c, s, j);
    case RelayResult(j) => RelayResultInv(cfg, c, s, j);
  }
}
