/** What the pipelined prefill guarantees over every run, for every route length, ring size, flow
    window, queue depth and channel capacity: it never fails a check, never gets stuck before the
    end, always ends, and ends with what a single node would have computed. */
module PipelineTheorems {
  import opened Options
  import opened Arith
  import opened TokenHash
  import opened WorkerSession
  import opened LayerSlices
  import opened Pipeline
  import opened PipelineInvariant
  import opened PipelineSteps
  import opened SingleNode

  /** The state after a sequence of actions, or None when one of them could not happen. */
  ghost function Exec<KV, Hid, Lg>(cfg: Config<KV, Hid, Lg>, actions: seq<Action>): Option<Sys<KV, Hid, Lg>>
    requires cfg.Valid()
  {
    if actions == [] then Some(Init(cfg))
    else
      var n := |actions| - 1;
      match Exec(cfg, actions[..n])
      case None => None
      case Some(s) => if Shaped(cfg, s) then Act(cfg, s, actions[n]) else None
  }

  ghost function CountsAfter<KV, Hid, Lg>(cfg: Config<KV, Hid, Lg>, actions: seq<Action>): Counts
    requires cfg.Valid()
  {
    if actions == [] then Zero(cfg)
    else
      var n := |actions| - 1;
      var c := CountsAfter(cfg, actions[..n]);
      if OnRoute(c, actions[n]) then Advance(c, actions[n]) else c
  }

  // ----- Counting steps ------------------------------------------------------------------

  function HopTotal(h: Hop): nat {
    h.sent + h.read + h.queued + h.popped + h.evald + h.registered + h.taken + h.matched + h.replied
  }

  function HopsTotal(hops: seq<Hop>): nat {
    if hops == [] then 0 else HopTotal(hops[0]) + HopsTotal(hops[1..])
  }

  function Total(c: Counts): nat {
    c.windowed + c.acquired + c.local + c.submitted + c.finished + c.picked + c.released + c.exited
      + c.accepted + c.completed + HopsTotal(c.hops)
  }

  lemma {:induction false} HopsTotalUpdate(hops: seq<Hop>, j: nat, h: Hop)
    requires j < |hops|
    ensures HopsTotal(hops[j := h]) == HopsTotal(hops) - HopTotal(hops[j]) + HopTotal(h)
  {
    if j == 0 {
      assert hops[0 := h][1..] == hops[1..];
    } else {
      assert hops[j := h][1..] == hops[1..][j - 1 := h];
      HopsTotalUpdate(hops[1..], j - 1, h);
    }
  }

  /** The hop whose count action a advances, if it is one of theirs. */
  function HopOf(a: Action): Option<nat> {
    match a
    case SendSlot => Some(0)
    case ReadFrame(j) => Some(j)
    case EnqueueJob(j) => Some(j)
    case PopJob(j) => Some(j)
    case EvalJob(j) => Some(j)
    case RegisterPending(j) => Some(j)
    case ForwardFrame(j) => Some(j + 1)
    case ReplyResult(j) => Some(j)
    case TakeResult(j) => Some(j)
    case MatchResult(j) => Some(j)
    case RelayResult(j) => Some(j)
    case _ => None
  }

  lemma AdvanceOneHop(c: Counts, a: Action)
    requires OnRoute(c, a) && HopOf(a).Some?
    ensures var (j, c2) := (HopOf(a).value, Advance(c, a));
            && j < |c.hops| == |c2.hops| && c2 == c.(hops := c.hops[j := c2.hops[j]])
            && HopTotal(c2.hops[j]) == HopTotal(c.hops[j]) + 1
  {
  }

  lemma AdvanceCounts(c: Counts, a: Action)
    requires OnRoute(c, a)
    ensures Total(Advance(c, a)) == Total(c) + 1
  {
    hide HopsTotal, HopTotal;
    if HopOf(a).Some? {
      hide Advance;
      AdvanceOneHop(c, a);
      HopsTotalUpdate(c.hops, HopOf(a).value, Advance(c, a).hops[HopOf(a).value]);
    }
  }

  /** Steps of a complete run: nine per chunk and forwarding worker, six per chunk at the last
      worker, eight per chunk at the coordinator, and two threads that finish. */
  function RunLength(hops: nat, chunks: nat): nat {
    8 * chunks + 2 + if hops == 0 then 0 else (hops - 1) * (9 * chunks) + 6 * chunks
  }

  lemma {:induction false} HopsTotalBound(hops: seq<Hop>, chunks: nat, most: nat)
    requires most == 9 * chunks && hops != []
    requires forall j :: 0 <= j < |hops| - 1 ==> HopTotal(hops[j]) <= most
    requires HopTotal(hops[|hops| - 1]) <= 6 * chunks
    ensures HopsTotal(hops) <= (|hops| - 1) * most + 6 * chunks
    ensures (forall j :: 0 <= j < |hops| - 1 ==> HopTotal(hops[j]) == most)
            && HopTotal(hops[|hops| - 1]) == 6 * chunks
            ==> HopsTotal(hops) == (|hops| - 1) * most + 6 * chunks
  {
    if |hops| == 1 {
      assert HopsTotal(hops[1..]) == 0;
    } else {
      var rest := hops[1..];
      assert forall j :: 0 <= j < |rest| ==> rest[j] == hops[j + 1];
      HopsTotalBound(rest, chunks, most);
      assert (|hops| - 1) * most == (|rest| - 1) * most + most;
    }
  }

  lemma HopBound<KV, Hid, Lg>(cfg: Config<KV, Hid, Lg>, c: Counts, s: Sys<KV, Hid, Lg>, j: nat)
    requires cfg.Valid() && Inv(cfg, c, s) && j < cfg.Hops()
    ensures HopTotal(c.hops[j]) <= (if j + 1 < cfg.Hops() then 9 else 6) * cfg.Count()
  {
    hide ProducerIs, RingIs, ReaderIs, WorkerIs, FramesAre, ResultsAre, EndsOk;
    SentBound(cfg, c, s, j);
    assert HopAt(cfg, c, s, j);
    if j + 1 < cfg.Hops() {
      ResultsBehindFrames(cfg, c, s, j + 1);
      assert HopAt(cfg, c, s, j + 1);
      SentBound(cfg, c, s, j + 1);
    }
  }

  lemma EndsBound<KV, Hid, Lg>(cfg: Config<KV, Hid, Lg>, c: Counts)
    requires cfg.Valid() && |c.hops| == cfg.Hops() && EndsOk(cfg, c)
    ensures Total(c) - HopsTotal(c.hops) <= 8 * cfg.Count() + 2
  {
  }

  /** No run is longer than RunLength. */
  lemma TotalBound<KV, Hid, Lg>(cfg: Config<KV, Hid, Lg>, c: Counts, s: Sys<KV, Hid, Lg>)
    requires cfg.Valid() && Inv(cfg, c, s)
    ensures Total(c) <= RunLength(cfg.Hops(), cfg.Count())
  {
    hide ProducerIs, RingIs, ReaderIs, HopsAre, EndsOk, HopTotal;
    forall j | 0 <= j < cfg.Hops()
      ensures HopTotal(c.hops[j]) <= (if j + 1 < cfg.Hops() then 9 else 6) * cfg.Count()
    {
      HopBound(cfg, c, s, j);
    }
    HopsTotalBound(c.hops, cfg.Count(), 9 * cfg.Count());
    EndsBound(cfg, c);
  }

  // ----- Safety --------------------------------------------------------------------------

  /** Every reachable state satisfies the invariant at the counts of its run, so no prefix hash,
      request id or result check ever fails, and every step advances exactly one count. */
  lemma {:induction false} RunInv<KV, Hid, Lg>(cfg: Config<KV, Hid, Lg>, actions: seq<Action>)
    requires cfg.Valid() && Exec(cfg, actions).Some?
    ensures var c, s := CountsAfter(cfg, actions), Exec(cfg, actions).value;
            && Inv(cfg, c, s) && Shaped(cfg, s) && !s.failed
            && Total(c) == |actions| <= RunLength(cfg.Hops(), cfg.Count())
    decreases |actions|
  {
    hide Inv, OnRoute, Advance, Act, RunLength, Shaped, HopTotal;
    if actions == [] {
      InitInv(cfg);
      ZeroTotal(cfg);
    } else {
      var n := |actions| - 1;
      RunInv(cfg, actions[..n]);
      var c, s := CountsAfter(cfg, actions[..n]), Exec(cfg, actions[..n]).value;
      StepInv(cfg, c, s, actions[n]);
      AdvanceCounts(c, actions[n]);
    }
    var c, s := CountsAfter(cfg, actions), Exec(cfg, actions).value;
    InvShaped(cfg, c, s);
    InvNotFailed(cfg, c, s);
    TotalBound(cfg, c, s);
  }

  lemma InvNotFailed<KV, Hid, Lg>(cfg: Config<KV, Hid, Lg>, c: Counts, s: Sys<KV, Hid, Lg>)
    requires cfg.Valid() && Inv(cfg, c, s)
    ensures !s.failed
  {
  }

  lemma {:induction false} ZeroHops(n: nat)
    ensures HopsTotal(seq(n, _ => Hop(0, 0, 0, 0, 0, 0, 0, 0, 0))) == 0
  {
    if n > 0 {
      var z := seq(n, _ => Hop(0, 0, 0, 0, 0, 0, 0, 0, 0));
      assert z[1..] == seq(n - 1, _ => Hop(0, 0, 0, 0, 0, 0, 0, 0, 0));
      ZeroHops(n - 1);
    }
  }

  lemma ZeroTotal<KV, Hid, Lg>(cfg: Config<KV, Hid, Lg>)
    requires cfg.Valid()
    ensures Total(Zero(cfg)) == 0
  {
    ZeroHops(cfg.Hops());
    assert Zero(cfg).hops == seq(cfg.Hops(), _ => Hop(0, 0, 0, 0, 0, 0, 0, 0, 0));
  }

  // ----- Progress ------------------------------------------------------------------------

  ghost predicate Stuck<KV, Hid, Lg>(cfg: Config<KV, Hid, Lg>, s: Sys<KV, Hid, Lg>)
    requires Shaped(cfg, s)
  {
    forall a :: Act(cfg, s, a).None?
  }

  /** The call has done its work: both coordinator threads left their loops and every chunk's
      result was signalled. */
  ghost predicate Final<KV, Hid, Lg>(cfg: Config<KV, Hid, Lg>, s: Sys<KV, Hid, Lg>)
    requires cfg.Valid()
  {
    s.ppc == ProducerDone && s.spc == SenderExited && s.completed == cfg.Count()
  }

  /** What it means for worker j's relay that it cannot move. */
  lemma RelayStuck<KV, Hid, Lg>(cfg: Config<KV, Hid, Lg>, s: Sys<KV, Hid, Lg>, j: nat)
    requires Shaped(cfg, s) && Stuck(cfg, s) && !s.failed && j < |s.workers|
    ensures !s.workers[j].relay.Held?
    ensures s.workers[j].relay.Matched? ==> |s.ret[j]| >= cfg.retCap[j]
    ensures s.workers[j].relay.RelayIdle? && j + 1 < |s.ret| ==> s.ret[j + 1] == []
  {
    assert Act(cfg, s, RelayResult(j)).None?;
    assert Act(cfg, s, MatchResult(j)).None?;
    assert Act(cfg, s, TakeResult(j)).None?;
  }

  /** What it means for worker j's reader, queue and evaluator that they cannot move. */
  lemma WorkerStuck<KV, Hid, Lg>(cfg: Config<KV, Hid, Lg>, s: Sys<KV, Hid, Lg>, j: nat)
    requires Shaped(cfg, s) && Stuck(cfg, s) && !s.failed && j < |s.workers|
    ensures var w := s.workers[j];
            && (w.held.None? ==> s.fwd[j] == [])
            && (w.held.Some? ==> |w.jobs| >= cfg.jobDepth[j])
            && !w.eval.Job?
            && (w.eval.NoJob? ==> w.jobs == [])
            && (w.eval.Reply? ==> |s.ret[j]| >= cfg.retCap[j])
            && (w.eval.Forward? && !w.eval.registered ==> cfg.pendDepth[j] != 0 && |w.pending| >= cfg.pendDepth[j])
            && (w.eval.Forward? && w.eval.registered && j + 1 < |s.fwd| ==> |s.fwd[j + 1]| >= cfg.fwdCap[j + 1])
  {
    hide Evaluate;
    assert Act(cfg, s, ForwardFrame(j)).None?;
    assert Act(cfg, s, RegisterPending(j)).None?;
    assert Act(cfg, s, ReplyResult(j)).None?;
    assert Act(cfg, s, EvalJob(j)).None?;
    assert Act(cfg, s, PopJob(j)).None?;
    assert Act(cfg, s, EnqueueJob(j)).None?;
    assert Act(cfg, s, ReadFrame(j)).None?;
  }

  /** If results into worker j's upstream are drained and nothing can move, the relays below are
      idle and results drained as well. */
  lemma RelayDrained<KV, Hid, Lg>(cfg: Config<KV, Hid, Lg>, c: Counts, s: Sys<KV, Hid, Lg>, j: nat)
    requires cfg.Valid() && Inv(cfg, c, s) && Shaped(cfg, s) && Stuck(cfg, s)
    requires j + 1 < cfg.Hops() && c.hops[j].replied == TakenFrom(c, j)
    ensures c.hops[j].taken == c.hops[j].matched == c.hops[j].replied == c.hops[j + 1].replied
  {
    hide ProducerIs, RingIs, ReaderIs, EndsOk, FramesAre, FrameAt, ResultAt, SessionAt, KvAt, EvalPcAt, IdsAre, Act, Stuck;
    assert HopAt(cfg, c, s, j) && HopAt(cfg, c, s, j + 1);
    InvNotFailed(cfg, c, s);
    RelayStuck(cfg, s, j);
  }

  lemma {:induction false} ResultsDrained<KV, Hid, Lg>(cfg: Config<KV, Hid, Lg>, c: Counts, s: Sys<KV, Hid, Lg>, j: nat)
    requires cfg.Valid() && Inv(cfg, c, s) && Shaped(cfg, s) && Stuck(cfg, s) && j < cfg.Hops()
    ensures c.hops[j].replied == TakenFrom(c, j) == c.accepted == c.completed
  {
    hide HopsAre, ProducerIs, RingIs, EndsOk;
    if j == 0 {
      ReaderDrained(cfg, c, s);
    } else {
      ResultsDrained(cfg, c, s, j - 1);
      RelayDrained(cfg, c, s, j - 1);
    }
  }

  lemma ReaderDrained<KV, Hid, Lg>(cfg: Config<KV, Hid, Lg>, c: Counts, s: Sys<KV, Hid, Lg>)
    requires cfg.Valid() && Inv(cfg, c, s) && Shaped(cfg, s) && Stuck(cfg, s)
    ensures c.hops[0].replied == c.accepted == c.completed
  {
    hide ProducerIs, RingIs, FramesAre, FrameAt, ResultAt, WorkerIs;
    assert HopAt(cfg, c, s, 0);
    assert Act(cfg, s, SignalProgress).None?;
    assert Act(cfg, s, AcceptResult).None?;
    SentBound(cfg, c, s, 0);
    ResultsBehindFrames(cfg, c, s, 0);
  }

  /** A stuck worker whose downstream is empty is empty itself. */
  lemma WorkerDrained<KV, Hid, Lg>(cfg: Config<KV, Hid, Lg>, c: Counts, s: Sys<KV, Hid, Lg>, j: nat)
    requires cfg.Valid() && Inv(cfg, c, s) && Shaped(cfg, s) && Stuck(cfg, s) && j < cfg.Hops()
    requires c.hops[j].replied == TakenFrom(c, j)
    requires j + 1 < cfg.Hops() ==>
               && c.hops[j].matched == c.hops[j].replied == c.hops[j + 1].sent
               && c.hops[j + 1].read == c.hops[j + 1].sent
    ensures c.hops[j].read == c.hops[j].sent == c.hops[j].replied
  {
    hide ProducerIs, RingIs, ReaderIs, EndsOk, FrameAt, ResultAt, SessionAt, KvAt, Act, Stuck, RelayPcAt;
    assert HopAt(cfg, c, s, j);
    if j + 1 < cfg.Hops() {
      assert HopAt(cfg, c, s, j + 1);
    }
    InvNotFailed(cfg, c, s);
    WorkerStuck(cfg, s, j);
  }

  lemma {:induction false} FramesDrained<KV, Hid, Lg>(cfg: Config<KV, Hid, Lg>, c: Counts, s: Sys<KV, Hid, Lg>, j: nat)
    requires cfg.Valid() && Inv(cfg, c, s) && Shaped(cfg, s) && Stuck(cfg, s) && j < cfg.Hops()
    ensures c.hops[j].read == c.hops[j].sent == c.hops[j].replied
    decreases cfg.Hops() - j
  {
    hide HopsAre, ProducerIs, RingIs, ReaderIs, EndsOk;
    ResultsDrained(cfg, c, s, j);
    if j + 1 < cfg.Hops() {
      ResultsDrained(cfg, c, s, j + 1);
      RelayDrained(cfg, c, s, j);
      FramesDrained(cfg, c, s, j + 1);
    }
    WorkerDrained(cfg, c, s, j);
  }

  lemma SenderDrained<KV, Hid, Lg>(cfg: Config<KV, Hid, Lg>, c: Counts, s: Sys<KV, Hid, Lg>)
    requires cfg.Valid() && Inv(cfg, c, s) && Shaped(cfg, s) && Stuck(cfg, s)
    requires c.hops[0].read == c.hops[0].sent
    ensures c.submitted == c.hops[0].sent && s.queued == 0 && (s.spc == SenderExited || !s.producerDone)
  {
    hide ProducerIs, ReaderIs, WorkerIs, ResultsAre, FrameAt;
    assert HopAt(cfg, c, s, 0);
    assert Act(cfg, s, SendSlot).None?;
    assert Act(cfg, s, ReleaseSlot).None?;
    assert Act(cfg, s, PickSlot).None?;
    assert Act(cfg, s, ExitSender).None?;
  }

  lemma ProducerFinished<KV, Hid, Lg>(cfg: Config<KV, Hid, Lg>, c: Counts, s: Sys<KV, Hid, Lg>)
    requires cfg.Valid() && Inv(cfg, c, s) && Shaped(cfg, s) && Stuck(cfg, s)
    requires s.queued == 0 && s.submitted == s.completed
    ensures s.ppc == ProducerDone && s.producerDone && s.submitted == cfg.Count()
  {
    hide RingIs, ReaderIs, HopsAre, KvAt;
    assert Act(cfg, s, PassWindow).None?;
    assert Act(cfg, s, AcquireSlot).None?;
    assert Act(cfg, s, EvalLocal).None?;
    assert Act(cfg, s, EnqueueSlot).None?;
    assert Act(cfg, s, FinishProducer).None?;
  }

  /** No reachable state short of the end is stuck. */
  lemma StuckOnlyAtTheEnd<KV, Hid, Lg>(cfg: Config<KV, Hid, Lg>, actions: seq<Action>)
    requires cfg.Valid() && Exec(cfg, actions).Some?
    requires Shaped(cfg, Exec(cfg, actions).value) && Stuck(cfg, Exec(cfg, actions).value)
    ensures Final(cfg, Exec(cfg, actions).value)
  {
    hide HopsAre, RingIs, EndsOk, Stuck, Exec, CountsAfter;
    RunInv(cfg, actions);
    var c, s := CountsAfter(cfg, actions), Exec(cfg, actions).value;
    ResultsDrained(cfg, c, s, 0);
    FramesDrained(cfg, c, s, 0);
    SenderDrained(cfg, c, s);
    ProducerFinished(cfg, c, s);
  }

  // ----- The end of a run ----------------------------------------------------------------

  lemma {:induction false} HopComplete<KV, Hid, Lg>(cfg: Config<KV, Hid, Lg>, c: Counts, s: Sys<KV, Hid, Lg>, j: nat)
    requires cfg.Valid() && Inv(cfg, c, s) && j < cfg.Hops() && c.completed == cfg.Count()
    ensures var n := cfg.Count();
            && c.hops[j].evald == c.hops[j].sent == c.hops[j].replied == TakenFrom(c, j) == n
            && (j + 1 < cfg.Hops() ==> c.hops[j].taken == n)
            && HopTotal(c.hops[j]) == (if j + 1 < cfg.Hops() then 9 else 6) * n
  {
    hide ProducerIs, RingIs, ReaderIs, WorkerIs, FramesAre, ResultsAre;
    SentBound(cfg, c, s, j);
    assert HopAt(cfg, c, s, j);
    if j > 0 { HopComplete(cfg, c, s, j - 1); }
    if j + 1 < cfg.Hops() {
      assert HopAt(cfg, c, s, j + 1);
      SentBound(cfg, c, s, j + 1);
      ResultsBehindFrames(cfg, c, s, j + 1);
    }
  }

  lemma FinalTotal<KV, Hid, Lg>(cfg: Config<KV, Hid, Lg>, c: Counts, s: Sys<KV, Hid, Lg>)
    requires cfg.Valid() && Inv(cfg, c, s) && Final(cfg, s)
    ensures Total(c) == RunLength(cfg.Hops(), cfg.Count())
  {
    hide HopsAre, HopTotal;
    assert c.completed == cfg.Count();
    forall j | 0 <= j < cfg.Hops()
      ensures HopTotal(c.hops[j]) == (if j + 1 < cfg.Hops() then 9 else 6) * cfg.Count()
    {
      HopComplete(cfg, c, s, j);
    }
    HopsTotalBound(c.hops, cfg.Count(), 9 * cfg.Count());
  }

  /** A reachable state can move no further exactly when the call is complete, and a complete run
      takes the same number of steps whatever the interleaving. */
  lemma StuckExactlyAtTheEnd<KV, Hid, Lg>(cfg: Config<KV, Hid, Lg>, actions: seq<Action>)
    requires cfg.Valid() && Exec(cfg, actions).Some?
    ensures Shaped(cfg, Exec(cfg, actions).value)
    ensures Stuck(cfg, Exec(cfg, actions).value) <==> Final(cfg, Exec(cfg, actions).value)
    ensures Final(cfg, Exec(cfg, actions).value) <==> |actions| == RunLength(cfg.Hops(), cfg.Count())
  {
    hide Inv, Act, RunLength, Final, CountsAfter, Advance, OnRoute, Total;
    RunInv(cfg, actions);
    var c, s := CountsAfter(cfg, actions), Exec(cfg, actions).value;
    if Final(cfg, s) {
      FinalTotal(cfg, c, s);
    }
    if |actions| == RunLength(cfg.Hops(), cfg.Count()) {
      forall a
        ensures Act(cfg, s, a).None?
      {
        if Act(cfg, s, a).Some? {
          assert (actions + [a])[..|actions|] == actions;
          assert Exec(cfg, actions + [a]) == Act(cfg, s, a);
          RunInv(cfg, actions + [a]);
          assert false;
        }
      }
      assert Stuck(cfg, s);
    }
    if Stuck(cfg, s) {
      StuckOnlyAtTheEnd(cfg, actions);
    }
  }

  /** The logits the call returns: the payload itself, or the local output head on it. */
  function FinalLogits<KV, Hid, Lg>(cfg: Config<KV, Hid, Lg>, s: Sys<KV, Hid, Lg>): Option<Lg> {
    match s.final
    case Some(Logits(values)) => Some(values)
    case Some(Hidden(_, hidden)) => Some(cfg.model.head(hidden))
    case _ => None
  }

  /** Worker j holds the single node's KV states of its layers and a session over the whole span,
      and nothing is left in its queues and channels. */
  ghost predicate HopFinished<KV, Hid, Lg>(cfg: Config<KV, Hid, Lg>, s: Sys<KV, Hid, Lg>, j: nat)
    requires cfg.Valid() && j < cfg.Hops() && |s.workers| == |s.fwd| == |s.ret| == cfg.Hops()
  {
    var span := cfg.prompt[..cfg.SpanEnd()];
    && s.workers[j].kv == RefKv(cfg, cfg.Count())[cfg.bounds[j + 1]..cfg.bounds[j + 2]]
    && s.workers[j].session == State(Engine(span, true), cfg.hs.Prefix(span), true)
    && s.workers[j].pending == [] && s.workers[j].jobs == [] && s.fwd[j] == [] && s.ret[j] == []
  }

  lemma FinalIsReference<KV, Hid, Lg>(cfg: Config<KV, Hid, Lg>, actions: seq<Action>)
    requires cfg.Valid() && Exec(cfg, actions).Some? && Final(cfg, Exec(cfg, actions).value)
    ensures var s, n, b := Exec(cfg, actions).value, cfg.Count(), cfg.bounds;
            && |s.workers| == |s.fwd| == |s.ret| == cfg.Hops() && s.accepted == n
            && FinalLogits(cfg, s) == Some(cfg.model.head(RefHidden(cfg, n - 1, |cfg.kv0|)))
            && s.kv == RefKv(cfg, n)[..b[1]]
            && forall j :: 0 <= j < cfg.Hops() ==> HopFinished(cfg, s, j)
  {
    hide Exec, CountsAfter, RunLength, Total, Inv, Final, FinalLogits, RefKv, RefHidden, Shaped, HopFinished;
    RunInv(cfg, actions);
    var c, s := CountsAfter(cfg, actions), Exec(cfg, actions).value;
    InvSizes(cfg, c, s);
    FinalEnds(cfg, c, s);
    forall j | 0 <= j < cfg.Hops()
      ensures HopFinished(cfg, s, j)
    {
      FinalHop(cfg, c, s, j);
    }
  }

  /** Every interleaving ends with the logits and the per-layer KV states, on the coordinator and on all
      workers, of the table that a single node fills in layer by layer, with every worker's session over
      the whole span, and with nothing left on the way. */
  lemma FinalIsSingleNode<KV, Hid, Lg>(cfg: Config<KV, Hid, Lg>, actions: seq<Action>)
    returns (kv: seq<seq<KV>>, hid: seq<seq<Hid>>)
    requires cfg.Valid() && Exec(cfg, actions).Some? && Final(cfg, Exec(cfg, actions).value)
    ensures Fills(cfg, kv, hid) && |hid| > 0
    ensures var s, n, b := Exec(cfg, actions).value, |hid|, cfg.bounds;
            && |s.workers| == |s.fwd| == |s.ret| == |b| - 2 && s.accepted == n
            && (match s.final
                case Some(Logits(values)) => cfg.lastLogits && values == cfg.model.head(hid[n - 1][|cfg.kv0|])
                case Some(Hidden(_, hidden)) => !cfg.lastLogits && hidden == hid[n - 1][|cfg.kv0|]
                case _ => false)
            && s.kv == kv[n][..b[1]]
            && forall j :: 0 <= j < |s.workers| ==>
                 && s.workers[j].kv == kv[n][b[j + 1]..b[j + 2]]
                 && s.workers[j].session.engine == Engine(cfg.prompt[..cfg.spanStart + cfg.nTokens], true)
                 && s.workers[j].session.hashValid
                 && s.workers[j].session.tokenHash == cfg.hs.Prefix(cfg.prompt[..cfg.spanStart + cfg.nTokens])
                 && s.workers[j].pending == [] && s.workers[j].jobs == [] && s.fwd[j] == [] && s.ret[j] == []
  {
    hide Exec, CountsAfter, Final, RefKv, RefHidden, Shaped, Fills;
    kv, hid := ReferenceFills(cfg);
    FinalIsReference(cfg, actions);
    FinalPayload(cfg, actions);
    assert hid[|hid| - 1][|cfg.kv0|] == RefHidden(cfg, |hid| - 1, |cfg.kv0|);
    assert kv[|hid|] == RefKv(cfg, |hid|) by { FillsShape(cfg, kv, hid); }
    var s := Exec(cfg, actions).value;
    forall j | 0 <= j < cfg.Hops()
      ensures s.workers[j].kv == kv[|hid|][cfg.bounds[j + 1]..cfg.bounds[j + 2]]
      ensures s.workers[j].session == State(Engine(cfg.prompt[..cfg.SpanEnd()], true),
                                            cfg.hs.Prefix(cfg.prompt[..cfg.SpanEnd()]), true)
      ensures s.workers[j].pending == [] && s.workers[j].jobs == [] && s.fwd[j] == [] && s.ret[j] == []
    {
      assert HopFinished(cfg, s, j);
    }
  }

  lemma FillsShape<KV, Hid, Lg>(cfg: Config<KV, Hid, Lg>, kv: seq<seq<KV>>, hid: seq<seq<Hid>>)
    requires cfg.Valid() && Fills(cfg, kv, hid)
    ensures |kv| == |hid| + 1
  {
  }

  lemma FinalPayload<KV, Hid, Lg>(cfg: Config<KV, Hid, Lg>, actions: seq<Action>)
    requires cfg.Valid() && Exec(cfg, actions).Some? && Final(cfg, Exec(cfg, actions).value)
    ensures cfg.Count() > 0 && Exec(cfg, actions).value.final == Some(PayloadAt(cfg, cfg.Count() - 1))
  {
    hide Exec, CountsAfter, HopsAre, RingIs, RefKv, RefHidden, PayloadAt, Total, RunLength;
    RunInv(cfg, actions);
    LastChunkEnds(cfg);
    assert CountsAfter(cfg, actions).completed == cfg.Count();
  }

  /** In every reachable state, whatever is on its way is what a single node's table says: every frame on a
      forward channel or in a worker's hands, and every answer on a return channel, is that of some
      chunk. */
  lemma TrafficIsSingleNode<KV, Hid, Lg>(cfg: Config<KV, Hid, Lg>, actions: seq<Action>, j: nat)
    returns (kv: seq<seq<KV>>, hid: seq<seq<Hid>>)
    requires cfg.Valid() && Exec(cfg, actions).Some? && j + 2 < |cfg.bounds|
    ensures Fills(cfg, kv, hid)
    ensures var s := Exec(cfg, actions).value;
            && j < |s.fwd| == |s.ret| == |s.workers|
            && (forall f :: f in s.fwd[j] || f in s.workers[j].jobs || s.workers[j].held == Some(f) ==>
                  exists i: nat :: FrameOf(cfg, hid, j, i, f))
            && (forall r :: r in s.ret[j] ==> exists i: nat :: AnswerOf(cfg, hid, i, r))
  {
    hide Exec, CountsAfter, Fills, RefKv, RefHidden, FrameAt, ResultAt, EndsOk, ProducerIs, RingIs, ReaderIs, HiddenRow,
         FrameOf, AnswerOf;
    kv, hid := ReferenceFills(cfg);
    RunInv(cfg, actions);
    var c, s := CountsAfter(cfg, actions), Exec(cfg, actions).value;
    assert HopAt(cfg, c, s, j);
    SentBound(cfg, c, s, j);
    InvSizes(cfg, c, s);
    HopOrder(cfg, c, s, j);
    var h := c.hops[j];
    forall f | f in s.fwd[j] || f in s.workers[j].jobs || s.workers[j].held == Some(f)
      ensures exists i: nat :: FrameOf(cfg, hid, j, i, f)
    {
      var i := FrameFrom(cfg, j, h, s.workers[j], s.fwd[j], f);
      FrameAtIs(cfg, hid, j, i);
    }
    forall r | r in s.ret[j]
      ensures exists i: nat :: AnswerOf(cfg, hid, i, r)
    {
      var k :| 0 <= k < |s.ret[j]| && s.ret[j][k] == r;
      ResultAtIs(cfg, hid, TakenFrom(c, j) + k);
    }
  }

  lemma HopOrder<KV, Hid, Lg>(cfg: Config<KV, Hid, Lg>, c: Counts, s: Sys<KV, Hid, Lg>, j: nat)
    requires cfg.Valid() && Inv(cfg, c, s) && j < cfg.Hops()
    ensures var (h, w) := (c.hops[j], s.workers[j]);
            && h.popped <= h.queued <= h.read <= h.sent && h.replied <= h.sent
            && FramesAre(cfg, j, s.fwd[j], h.read, h.sent) && FramesAre(cfg, j, w.jobs, h.popped, h.queued)
            && w.held == (if h.read == h.queued then None else Some(FrameAt(cfg, j, h.queued)))
            && ResultsAre(cfg, s.ret[j], TakenFrom(c, j), h.replied)
  {
    hide FrameAt, ResultAt, EndsOk, ProducerIs, RingIs, ReaderIs, FramesAre, ResultsAre, EvalPcAt, RelayPcAt, KvAt, SessionAt;
    assert HopAt(cfg, c, s, j);
  }

  lemma FrameFrom<KV, Hid, Lg>(
    cfg: Config<KV, Hid, Lg>, j: nat, h: Hop, w: Worker<KV, Hid, Lg>, fq: seq<Frame<Hid>>, f: Frame<Hid>)
    returns (i: nat)
    requires cfg.Valid() && j < cfg.Hops() && h.popped <= h.queued <= h.read <= h.sent <= cfg.Count()
    requires FramesAre(cfg, j, fq, h.read, h.sent) && FramesAre(cfg, j, w.jobs, h.popped, h.queued)
    requires w.held == if h.read == h.queued then None else Some(FrameAt(cfg, j, h.queued))
    requires f in fq || f in w.jobs || w.held == Some(f)
    ensures i < cfg.Count() && f == FrameAt(cfg, j, i)
  {
    hide FrameAt;
    if f in fq {
      var k :| 0 <= k < |fq| && fq[k] == f;
      i := h.read + k;
    } else if f in w.jobs {
      var k :| 0 <= k < |w.jobs| && w.jobs[k] == f;
      i := h.popped + k;
    } else {
      i := h.queued;
    }
  }

  lemma InvSizes<KV, Hid, Lg>(cfg: Config<KV, Hid, Lg>, c: Counts, s: Sys<KV, Hid, Lg>)
    requires cfg.Valid() && Inv(cfg, c, s)
    ensures |c.hops| == |s.fwd| == |s.workers| == |s.ret| == cfg.Hops()
  {
  }

  lemma LastChunkEnds<KV, Hid, Lg>(cfg: Config<KV, Hid, Lg>)
    requires cfg.Valid()
    ensures cfg.Count() > 0 && cfg.Start(cfg.Count()) == cfg.SpanEnd()
  {
    StartZero(cfg);
    cfg.Starts(cfg.Count());
    cfg.Starts(cfg.Count() - 1);
  }

  lemma FinalEnds<KV, Hid, Lg>(cfg: Config<KV, Hid, Lg>, c: Counts, s: Sys<KV, Hid, Lg>)
    requires cfg.Valid() && Inv(cfg, c, s) && Final(cfg, s)
    ensures s.accepted == cfg.Count() > 0 && s.kv == RefKv(cfg, cfg.Count())[..cfg.bounds[1]]
    ensures FinalLogits(cfg, s) == Some(cfg.model.head(RefHidden(cfg, cfg.Count() - 1, |cfg.kv0|)))
  {
    hide HopsAre, RingIs, RefKv, RefHidden;
    LastChunkEnds(cfg);
    assert c.completed == cfg.Count() == c.accepted;
    assert c.finished == 1 && c.submitted == cfg.Count() == c.local;
  }

  lemma FinalHop<KV, Hid, Lg>(cfg: Config<KV, Hid, Lg>, c: Counts, s: Sys<KV, Hid, Lg>, j: nat)
    requires cfg.Valid() && Inv(cfg, c, s) && Final(cfg, s) && j < cfg.Hops()
    ensures HopFinished(cfg, s, j)
  {
    hide RingIs, ProducerIs, RefKv, FrameAt, ResultAt, EvalPcAt, RelayPcAt;
    LastChunkEnds(cfg);
    assert c.completed == cfg.Count();
    HopComplete(cfg, c, s, j);
    assert HopAt(cfg, c, s, j);
  }

  // ----- What is turned down -------------------------------------------------------------

  /** The result reader turns down, in whatever state the call is, everything but the answer to its next
      chunk: with that chunk's id, the hash of the prompt up to its end, and an acknowledgement of a chunk
      before the last, logits, or hidden values of as many tokens where no logits are due. */
  lemma ReaderTurnsDown<KV, Hid, Lg>(cfg: Config<KV, Hid, Lg>, s: Sys<KV, Hid, Lg>, lo: nat, hi: nat)
    requires cfg.Valid() && Shaped(cfg, s) && Act(cfg, s, AcceptResult).Some? && ChunkSpans(cfg, s.accepted, lo, hi)
    ensures s.ret[0] != []
    ensures var (r, t) := (s.ret[0][0], Act(cfg, s, AcceptResult).value);
            var last := hi == cfg.spanStart + cfg.nTokens;
            && (t.failed <==>
                  !(r.id == cfg.firstId + s.accepted && r.hash == cfg.hs.Prefix(cfg.prompt[..hi])
                    && (r.payload.Ack? ==> !last)
                    && (r.payload.Hidden? ==> !cfg.lastLogits && r.payload.rows == hi - lo)))
            && (!t.failed ==> t == s.(ret := s.ret[0 := s.ret[0][1..]], accepted := s.accepted + 1,
                                      final := if last then Some(r.payload) else s.final))
  {
    SpanOfNext(cfg, s.accepted, lo, hi);
    hide Config.Start, Config.Count, ChunkSpans, ChunkCount;
  }

  lemma SpanOfNext<KV, Hid, Lg>(cfg: Config<KV, Hid, Lg>, i: nat, lo: nat, hi: nat)
    requires cfg.Valid() && i < cfg.Count() && ChunkSpans(cfg, i, lo, hi)
    ensures cfg.Start(i + 1) == hi <= |cfg.prompt|
    ensures i + 1 == cfg.Count() <==> hi == cfg.spanStart + cfg.nTokens
    ensures hi - lo == if cfg.nTokens - i * cfg.chunkCap < cfg.chunkCap then cfg.nTokens - i * cfg.chunkCap else cfg.chunkCap
  {
    hide ChunkCount;
    cfg.Starts(i);
    cfg.StartClosed(i);
    cfg.Starts(i + 1);
  }

  /** A relay passes on an answer exactly if it is the answer to its oldest pending request. */
  lemma RelayTurnsDown<KV, Hid, Lg>(cfg: Config<KV, Hid, Lg>, s: Sys<KV, Hid, Lg>, j: nat)
    requires Shaped(cfg, s) && Act(cfg, s, MatchResult(j)).Some?
    ensures j < |s.workers| && s.workers[j].relay.Held?
    ensures var (w, t) := (s.workers[j], Act(cfg, s, MatchResult(j)).value);
            && (t.failed <==> !(w.pending != [] && w.pending[0] == w.relay.result.id))
            && (!t.failed ==> t == s.(workers := s.workers[j := w.(pending := w.pending[1..], relay := Matched(w.relay.result))]))
  {
  }

  /** A worker evaluates a frame exactly if the frame's hashes agree with its tokens, its prefix hash is that
      of the session, and it starts where the session's timeline ends; the session then holds the longer
      one. */
  lemma GuardTurnsDown<KV, Hid, Lg>(cfg: Config<KV, Hid, Lg>, s: Sys<KV, Hid, Lg>, j: nat)
    requires Shaped(cfg, s) && Act(cfg, s, EvalJob(j)).Some?
    ensures j < |s.workers| == |Act(cfg, s, EvalJob(j)).value.workers| && s.workers[j].eval.Job?
    ensures var (w, f, t) := (s.workers[j].session, s.workers[j].eval.frame.work, Act(cfg, s, EvalJob(j)).value);
            var timeline := if f.reset then [] else w.engine.tokens;
            var hash := if f.reset then cfg.hs.init
                        else if w.hashValid then w.tokenHash else cfg.hs.Prefix(w.engine.tokens);
            && (t.failed <==>
                  !(cfg.hs.Span(f.prefixHash, f.tokens) == f.resultHash && hash == f.prefixHash && f.tokens != []
                    && f.pos0 == if w.engine.valid then |timeline| else 0))
            && (!t.failed ==> t.workers[j].session == State(Engine(timeline + f.tokens, true), f.resultHash, true))
  {
    hide Model.Slice;
  }

  // ----- Invariants of the parts ---------------------------------------------------------

  /** The k-th slot of the ring from its head. */
  function SlotFrom(head: nat, k: nat, n: nat): nat
    requires 0 < n
  {
    (head + k) % n
  }

  lemma SlotIsWrapped(released: nat, k: nat, n: nat)
    requires 0 < n
    ensures SlotFrom(Wrap(released, n), k, n) == Wrap(released + k, n)
  {
    WrapAdd(released, k, n);
  }

  /** The sender ring and the flow window, in every reachable state: the ring never overflows, its
      tail is head + queued, the slot being filled is none of the queued ones (the one being sent
      included), and at most a window of chunks is unanswered. */
  lemma RingAndWindow<KV, Hid, Lg>(cfg: Config<KV, Hid, Lg>, actions: seq<Action>)
    requires cfg.Valid() && Exec(cfg, actions).Some?
    ensures var s := Exec(cfg, actions).value;
            && s.queued <= cfg.slotCount && s.head < cfg.slotCount
            && s.tail == SlotFrom(s.head, s.queued, cfg.slotCount)
            && s.submitted <= s.completed + cfg.window
            && (s.ppc == AtEval || s.ppc == AtEnqueue ==>
                  && s.queued < cfg.slotCount && s.submitted < s.completed + cfg.window
                  && forall k :: 0 <= k < s.queued ==> SlotFrom(s.head, k, cfg.slotCount) != s.tail)
            && (s.spc == Sending || s.spc == Sent ==> s.queued > 0)
  {
    hide Exec, CountsAfter, HopsAre, KvAt, FrameAt, SlotFrom, Wrap;
    RunInv(cfg, actions);
    var c, s, n := CountsAfter(cfg, actions), Exec(cfg, actions).value, cfg.slotCount;
    SlotIsWrapped(c.released, s.queued, n);
    if s.ppc == AtEval || s.ppc == AtEnqueue {
      forall k | 0 <= k < s.queued
        ensures SlotFrom(s.head, k, n) != s.tail
      {
        SlotIsWrapped(c.released, k, n);
        WrapDistinct(c.released + k, c.submitted, n);
      }
    }
  }

  ghost function FrameIds<Hid>(q: seq<Frame<Hid>>): (ids: seq<nat>)
    ensures |ids| == |q| && forall k :: 0 <= k < |q| ==> ids[k] == q[k].id
  {
    if q == [] then [] else FrameIds(q[..|q| - 1]) + [q[|q| - 1].id]
  }

  ghost function ResultIds<Hid, Lg>(q: seq<Result<Hid, Lg>>): (ids: seq<nat>)
    ensures |ids| == |q| && forall k :: 0 <= k < |q| ==> ids[k] == q[k].id
  {
    if q == [] then [] else ResultIds(q[..|q| - 1]) + [q[|q| - 1].id]
  }

  ghost function WritingIds<Hid, Lg>(relay: RelayPc<Hid, Lg>): seq<nat> {
    if relay.Matched? then [relay.result.id] else []
  }

  ghost function EvaluatorIds<Hid, Lg>(eval: EvalPc<Hid, Lg>): seq<nat> {
    match eval
    case NoJob => []
    case Job(f) => [f.id]
    case Forward(f, registered) => if registered then [] else [f.id]
    case Reply(r) => [r.id]
  }

  ghost function HeldIds<Hid>(held: Option<Frame<Hid>>): seq<nat> {
    if held.Some? then [held.value.id] else []
  }

  /** The requests inside a worker, oldest first: the answer its relay is about to write back, the
      ones pending further down, the evaluator's job, the job queue, and the frame just read. */
  ghost function InWorker<KV, Hid, Lg>(w: Worker<KV, Hid, Lg>): seq<nat> {
    WritingIds(w.relay) + w.pending + EvaluatorIds(w.eval) + FrameIds(w.jobs) + HeldIds(w.held)
  }

  ghost function IdRange(first: nat, lo: nat, hi: nat): seq<nat>
    requires lo <= hi
  {
    seq(hi - lo, k requires 0 <= k => first + lo + k)
  }

  lemma RangeJoin(first: nat, a: nat, b: nat, c: nat)
    requires a <= b <= c
    ensures IdRange(first, a, b) + IdRange(first, b, c) == IdRange(first, a, c)
  {
  }

  lemma FrameIdsAre<KV, Hid, Lg>(cfg: Config<KV, Hid, Lg>, j: nat, q: seq<Frame<Hid>>, lo: nat, hi: nat)
    requires cfg.Valid() && j < cfg.Hops() && FramesAre(cfg, j, q, lo, hi)
    ensures FrameIds(q) == IdRange(cfg.firstId, lo, hi)
  {
    hide FrameIds, WorkAt, RefHidden;
  }

  lemma ResultIdsAre<KV, Hid, Lg>(cfg: Config<KV, Hid, Lg>, q: seq<Result<Hid, Lg>>, lo: nat, hi: nat)
    requires cfg.Valid() && ResultsAre(cfg, q, lo, hi)
    ensures ResultIds(q) == IdRange(cfg.firstId, lo, hi)
  {
    hide ResultIds, PayloadAt, HashAt;
  }

  lemma PendingIdsAre<KV, Hid, Lg>(cfg: Config<KV, Hid, Lg>, q: seq<nat>, lo: nat, hi: nat)
    requires IdsAre(cfg, q, lo, hi)
    ensures q == IdRange(cfg.firstId, lo, hi)
  {
  }

  lemma ThreadIdsAre<KV, Hid, Lg>(cfg: Config<KV, Hid, Lg>, j: nat, h: Hop, done: nat, taken: nat,
                                  w: Worker<KV, Hid, Lg>, fq: seq<Frame<Hid>>, rq: seq<Result<Hid, Lg>>)
    requires cfg.Valid() && j < cfg.Hops() && HopIs(cfg, j, h, done, taken, w, fq, rq)
    ensures var f := cfg.firstId;
            var last := j + 1 == cfg.Hops();
            var m, r := if last then done else h.matched, if last then done else h.registered;
            && h.replied <= m <= r <= h.popped <= h.queued <= h.read <= h.sent
            && WritingIds(w.relay) == IdRange(f, h.replied, m)
            && w.pending == IdRange(f, m, r)
            && EvaluatorIds(w.eval) == IdRange(f, r, h.popped)
            && HeldIds(w.held) == IdRange(f, h.queued, h.read)
  {
    hide WorkAt, RefHidden, PayloadAt, SessionAt, KvAt, FramesAre, ResultsAre, IdsAre;
    PendingIdsAre(cfg, w.pending, h.matched, h.registered);
  }

  lemma InWorkerIs<KV, Hid, Lg>(cfg: Config<KV, Hid, Lg>, j: nat, h: Hop, done: nat, taken: nat,
                                w: Worker<KV, Hid, Lg>, fq: seq<Frame<Hid>>, rq: seq<Result<Hid, Lg>>)
    requires cfg.Valid() && j < cfg.Hops() && HopIs(cfg, j, h, done, taken, w, fq, rq)
    ensures h.replied <= h.read <= h.sent && InWorker(w) == IdRange(cfg.firstId, h.replied, h.read)
  {
    var f := cfg.firstId;
    FrameIdsAre(cfg, j, w.jobs, h.popped, h.queued);
    ThreadIdsAre(cfg, j, h, done, taken, w, fq, rq);
    hide HopIs, IdRange, WritingIds, EvaluatorIds, FrameIds, HeldIds;
    var last := j + 1 == cfg.Hops();
    var m, r := if last then done else h.matched, if last then done else h.registered;
    RangeJoin(f, h.replied, m, r);
    RangeJoin(f, h.replied, r, h.popped);
    RangeJoin(f, h.replied, h.popped, h.queued);
    RangeJoin(f, h.replied, h.queued, h.read);
  }

  /** The pending list of every forwarder, in every reachable state, oldest first: the result its
      relay holds, the results on the return channel, the requests inside the next worker, those
      on the forward channel, and at most one that is registered but not yet sent. */
  lemma PendingDecomposition<KV, Hid, Lg>(cfg: Config<KV, Hid, Lg>, actions: seq<Action>, j: nat)
    requires cfg.Valid() && Exec(cfg, actions).Some? && j + 1 < cfg.Hops()
    ensures var s := Exec(cfg, actions).value;
            && |s.workers| == |s.fwd| == |s.ret| == cfg.Hops()
            && s.workers[j].pending
               == (if s.workers[j].relay.Held? then [s.workers[j].relay.result.id] else [])
                  + ResultIds(s.ret[j + 1]) + InWorker(s.workers[j + 1]) + FrameIds(s.fwd[j + 1])
                  + (if s.workers[j].eval.Forward? && s.workers[j].eval.registered
                     then [s.workers[j].eval.frame.id] else [])
  {
    hide Exec, CountsAfter, Inv, WorkerIs;
    RunInv(cfg, actions);
    var c, s, f := CountsAfter(cfg, actions), Exec(cfg, actions).value, cfg.firstId;
    InvSizes(cfg, c, s);
    InvHop(cfg, c, s, j);
    InvHop(cfg, c, s, j + 1);
    ChannelIds(cfg, c, s, j);
    var h, g := c.hops[j], c.hops[j + 1];
    InWorkerIs(cfg, j + 1, g, Done(c, j + 1), TakenFrom(c, j + 1), s.workers[j + 1], s.fwd[j + 1], s.ret[j + 1]);
    RangeJoin(f, h.matched, h.taken, g.replied);
    RangeJoin(f, h.matched, g.replied, g.read);
    RangeJoin(f, h.matched, g.read, g.sent);
    RangeJoin(f, h.matched, g.sent, h.registered);
  }

  lemma InvHop<KV, Hid, Lg>(cfg: Config<KV, Hid, Lg>, c: Counts, s: Sys<KV, Hid, Lg>, j: nat)
    requires cfg.Valid() && Inv(cfg, c, s) && j < cfg.Hops()
    ensures HopAt(cfg, c, s, j)
  {
  }

  /** The ids at the two ends of a forwarder: the result its relay holds, and the frame its evaluator has
      registered and not yet sent. */
  lemma EndIdsAre<KV, Hid, Lg>(cfg: Config<KV, Hid, Lg>, j: nat, h: Hop, done: nat, taken: nat,
                               w: Worker<KV, Hid, Lg>, fq: seq<Frame<Hid>>, rq: seq<Result<Hid, Lg>>)
    requires cfg.Valid() && j + 1 < cfg.Hops() && HopIs(cfg, j, h, done, taken, w, fq, rq)
    ensures h.matched <= h.taken && done <= h.registered
    ensures (if w.relay.Held? then [w.relay.result.id] else []) == IdRange(cfg.firstId, h.matched, h.taken)
    ensures (if w.eval.Forward? && w.eval.registered then [w.eval.frame.id] else [])
         == IdRange(cfg.firstId, done, h.registered)
  {
    hide WorkAt, RefHidden, PayloadAt, SessionAt, KvAt, FramesAre, ResultsAre, IdsAre;
  }

  lemma ChannelIds<KV, Hid, Lg>(cfg: Config<KV, Hid, Lg>, c: Counts, s: Sys<KV, Hid, Lg>, j: nat)
    requires cfg.Valid() && Inv(cfg, c, s) && j + 1 < cfg.Hops()
    ensures var h, g, f := c.hops[j], c.hops[j + 1], cfg.firstId;
            && h.matched <= h.taken <= g.replied <= g.read <= g.sent <= h.registered
            && s.workers[j].pending == IdRange(f, h.matched, h.registered)
            && (if s.workers[j].relay.Held? then [s.workers[j].relay.result.id] else []) == IdRange(f, h.matched, h.taken)
            && ResultIds(s.ret[j + 1]) == IdRange(f, h.taken, g.replied)
            && FrameIds(s.fwd[j + 1]) == IdRange(f, g.read, g.sent)
            && (if s.workers[j].eval.Forward? && s.workers[j].eval.registered then [s.workers[j].eval.frame.id] else [])
               == IdRange(f, g.sent, h.registered)
  {
    hide WorkAt, RefHidden, PayloadAt, SessionAt, KvAt, EndsOk, ProducerIs, RingIs, ReaderIs,
         FramesAre, ResultsAre, IdsAre, FrameIds, ResultIds, IdRange, EvalPcAt, RelayPcAt;
    assert HopAt(cfg, c, s, j) && HopAt(cfg, c, s, j + 1);
    var h, g := c.hops[j], c.hops[j + 1];
    ResultsBehindFrames(cfg, c, s, j + 1);
    FrameIdsAre(cfg, j + 1, s.fwd[j + 1], g.read, g.sent);
    ResultIdsAre(cfg, s.ret[j + 1], h.taken, g.replied);
    PendingIdsAre(cfg, s.workers[j].pending, h.matched, h.registered);
    EndIdsAre(cfg, j, h, Done(c, j), TakenFrom(c, j), s.workers[j], s.fwd[j], s.ret[j]);
  }
}
