/** Distributed pipelined prefill (ds4_distributed.c) as a step machine: one action per
    lock-protected region or socket write of the producer, the sender thread, every worker's
    reader, evaluator and relay threads, and the result reader. Channels and queues are FIFO and
    bounded; the route has any number of hops. */
module Pipeline {
  import opened Options
  import opened Arith
  import opened Bytes
  import opened TokenHash
  import opened WorkerSession
  import opened LayerSlices

  // ----- One prefill call ----------------------------------------------------------------

  /** Stage 0 is the coordinator's own slice, stage j + 1 is worker j: stage k holds the layers
      bounds[k] .. bounds[k + 1]. Zero in pendDepth means no limit. */
  datatype Config<!KV, !Hid, !Lg> = Config(
    model: Model<KV, Hid, Lg>,
    hs: Hasher,
    bounds: seq<nat>,
    lastLogits: bool,
    prompt: seq<int>,
    spanStart: nat,
    nTokens: nat,
    chunkCap: nat,
    reset: bool,
    ackOnly: bool,
    firstId: nat,
    window: nat,
    slotCount: nat,
    fwdCap: seq<nat>,
    retCap: seq<nat>,
    jobDepth: seq<nat>,
    pendDepth: seq<nat>,
    kv0: seq<KV>,
    session0: seq<State>)
  {
    function Hops(): int {
      |bounds| - 2
    }

    ghost predicate Valid() {
      && Hops() >= 1
      && bounds[0] == 0
      && (forall a, b :: 0 <= a < b < |bounds| ==> bounds[a] < bounds[b])
      && |kv0| == bounds[|bounds| - 1]
      && 0 < chunkCap && 0 < nTokens && spanStart + nTokens <= |prompt|
      && (reset ==> spanStart == 0)
      && 0 < window && 0 < slotCount
      && |fwdCap| == |retCap| == |jobDepth| == |pendDepth| == |session0| == Hops()
      && (forall j :: 0 <= j < Hops() ==> 0 < fwdCap[j])
      && (forall j :: 0 <= j < Hops() ==> 0 < retCap[j])
      && (forall j :: 0 <= j < Hops() ==> 0 < jobDepth[j])
      && (!reset ==> forall j :: 0 <= j < Hops() ==> InSync(session0[j]))
    }

    /** A session that holds exactly the prefix before the span. */
    ghost predicate InSync(s: State)
      requires spanStart <= |prompt|
    {
      s.engine == Engine(prompt[..spanStart], true) && Sound(hs, s)
    }

    function SpanEnd(): nat {
      spanStart + nTokens
    }

    /** The program computes (nTokens + chunkCap - 1) / chunkCap; see ChunkCountIsCeilDiv. */
    function Count(): nat
      requires 0 < chunkCap
    {
      ChunkCount(nTokens, chunkCap)
    }

    /** Where chunk i starts. */
    function Start(i: nat): nat {
      if i == 0 then spanStart
      else if SpanEnd() - Start(i - 1) < chunkCap then SpanEnd()
      else Start(i - 1) + chunkCap
    }

    /** The chunks tile the span. */
    lemma {:induction false} Starts(i: nat)
      requires 0 < chunkCap && 0 < nTokens
      ensures spanStart <= Start(i) <= Start(i + 1) <= SpanEnd()
      ensures i < Count() <==> Start(i) < SpanEnd()
      ensures Start(i) < SpanEnd() ==> Start(i) < Start(i + 1)
    {
      StartLeft(i);
      if i > 0 {
        Starts(i - 1);
      }
    }

    lemma {:induction false} StartLeft(i: nat)
      requires 0 < chunkCap && 0 < nTokens
      ensures Start(i) <= SpanEnd()
      ensures ChunkCount(SpanEnd() - Start(i), chunkCap) == if i <= Count() then Count() - i else 0
    {
      if i > 0 {
        StartLeft(i - 1);
      }
    }

    /** Where the result reader expects chunk i to start. */
    lemma {:induction false} StartClosed(i: nat)
      requires 0 < chunkCap && 0 < nTokens && i < Count()
      ensures Start(i) == spanStart + i * chunkCap
    {
      if i > 0 {
        StartClosed(i - 1);
        Starts(i - 1);
        Starts(i);
        assert i * chunkCap == (i - 1) * chunkCap + chunkCap;
      }
    }
  }

  // ----- Messages ------------------------------------------------------------------------

  datatype Frame<+Hid> = Frame(id: nat, work: Work, ackOnly: bool, logits: bool, hidden: Hid)

  datatype Payload<+Hid, +Lg> = Ack | Hidden(rows: nat, hidden: Hid) | Logits(values: Lg)

  datatype Result<+Hid, +Lg> = Result(id: nat, hash: Word64, payload: Payload<Hid, Lg>)

  // ----- State ---------------------------------------------------------------------------

  datatype ProducerPc = AtWindow | AtSlot | AtEval | AtEnqueue | ProducerDone

  datatype SenderPc = SenderIdle | Sending | Sent | SenderExited

  /** Where a worker's evaluator thread is with its current job. */
  datatype EvalPc<+Hid, +Lg> =
    | NoJob
    | Job(frame: Frame<Hid>)
    | Forward(frame: Frame<Hid>, registered: bool)
    | Reply(result: Result<Hid, Lg>)

  /** Where a forwarder's relay thread is with the result it read. */
  datatype RelayPc<+Hid, +Lg> =
    | RelayIdle
    | Held(result: Result<Hid, Lg>)
    | Matched(result: Result<Hid, Lg>)

  datatype Worker<+KV, +Hid, +Lg> = Worker(
    held: Option<Frame<Hid>>,
    jobs: seq<Frame<Hid>>,
    eval: EvalPc<Hid, Lg>,
    pending: seq<nat>,
    relay: RelayPc<Hid, Lg>,
    session: State,
    kv: seq<KV>)

  /** fwd[j] carries frames into worker j, ret[j] carries results out of it. */
  datatype Sys<+KV, +Hid, +Lg> = Sys(
    ppc: ProducerPc,
    pos: nat,
    submitted: nat,
    nextId: nat,
    nextHash: Word64,
    kv: seq<KV>,
    slots: seq<Option<Frame<Hid>>>,
    head: nat,
    tail: nat,
    queued: nat,
    producerDone: bool,
    spc: SenderPc,
    fwd: seq<seq<Frame<Hid>>>,
    workers: seq<Worker<KV, Hid, Lg>>,
    ret: seq<seq<Result<Hid, Lg>>>,
    accepted: nat,
    completed: nat,
    done: bool,
    final: Option<Payload<Hid, Lg>>,
    failed: bool)

  predicate Shaped<KV, Hid, Lg>(cfg: Config<KV, Hid, Lg>, s: Sys<KV, Hid, Lg>) {
    && |cfg.bounds| >= 3
    && |s.fwd| == |s.workers| == |s.ret| == cfg.Hops()
    && |cfg.fwdCap| == |cfg.retCap| == |cfg.jobDepth| == |cfg.pendDepth| == cfg.Hops()
    && |cfg.kv0| == cfg.bounds[|cfg.bounds| - 1]
    && 0 < cfg.chunkCap && 0 < cfg.slotCount == |s.slots|
    && s.head < cfg.slotCount && s.tail < cfg.slotCount
    && s.pos <= cfg.SpanEnd() <= |cfg.prompt|
  }

  function Init<KV, Hid, Lg>(cfg: Config<KV, Hid, Lg>): Sys<KV, Hid, Lg>
    requires cfg.Valid()
    ensures Shaped(cfg, Init(cfg))
  {
    Sys(AtWindow, cfg.spanStart, 0, cfg.firstId, cfg.hs.Prefix(cfg.prompt[..cfg.spanStart]),
        cfg.kv0[..cfg.bounds[1]],
        seq(cfg.slotCount, _ => None), 0, 0, 0, false, SenderIdle,
        seq(cfg.Hops(), _ => []),
        seq(cfg.Hops(), j requires 0 <= j < cfg.Hops() =>
          Worker(None, [], NoJob, [], RelayIdle, cfg.session0[j], cfg.kv0[cfg.bounds[j + 1]..cfg.bounds[j + 2]])),
        seq(cfg.Hops(), _ => []),
        0, 0, false, None, false)
  }

  // ----- Steps ---------------------------------------------------------------------------

  datatype Action =
    | PassWindow | AcquireSlot | EvalLocal | EnqueueSlot | FinishProducer
    | PickSlot | SendSlot | ReleaseSlot | ExitSender
    | AcceptResult | SignalProgress
    | ReadFrame(j: nat) | EnqueueJob(j: nat) | PopJob(j: nat) | EvalJob(j: nat)
    | RegisterPending(j: nat) | ForwardFrame(j: nat) | ReplyResult(j: nat)
    | TakeResult(j: nat) | MatchResult(j: nat) | RelayResult(j: nat)

  /** The state after action a, or None when the acting thread is elsewhere or has to wait. A
      check that fails ends the call: the state is then marked failed and nothing steps. */
  function Act<KV, Hid, Lg>(cfg: Config<KV, Hid, Lg>, s: Sys<KV, Hid, Lg>, a: Action): Option<Sys<KV, Hid, Lg>>
    requires Shaped(cfg, s)
  {
    if s.failed then None
    else match a
      case PassWindow => PassWindowStep(cfg, s)
      case AcquireSlot =>
        if s.ppc == AtSlot && s.queued != cfg.slotCount then Some(s.(ppc := AtEval)) else None
      case EvalLocal => EvalLocalStep(cfg, s)
      case EnqueueSlot => EnqueueSlotStep(cfg, s)
      case FinishProducer =>
        if s.ppc == AtWindow && s.pos >= cfg.SpanEnd() then
          Some(s.(ppc := ProducerDone, producerDone := true))
        else None
      case PickSlot =>
        if s.spc == SenderIdle && s.queued != 0 then Some(s.(spc := Sending)) else None
      case SendSlot => SendSlotStep(cfg, s)
      case ReleaseSlot =>
        if s.spc == Sent && s.queued != 0 then
          Some(s.(spc := SenderIdle, head := (s.head + 1) % cfg.slotCount, queued := s.queued - 1))
        else None
      case ExitSender =>
        if s.spc == SenderIdle && s.queued == 0 && s.producerDone then Some(s.(spc := SenderExited)) else None
      case AcceptResult => AcceptStep(cfg, s)
      case SignalProgress =>
        if s.accepted != s.completed then
          Some(s.(completed := s.accepted, done := s.accepted == cfg.Count()))
        else None
      case ReadFrame(j) => if j < |s.workers| then ReadStep(s, j) else None
      case EnqueueJob(j) => if j < |s.workers| then EnqueueJobStep(cfg, s, j) else None
      case PopJob(j) => if j < |s.workers| then PopStep(s, j) else None
      case EvalJob(j) => if j < |s.workers| then EvalStep(cfg, s, j) else None
      case RegisterPending(j) => if j < |s.workers| then RegisterStep(cfg, s, j) else None
      case ForwardFrame(j) => if j < |s.workers| then ForwardStep(cfg, s, j) else None
      case ReplyResult(j) => if j < |s.workers| then ReplyStep(cfg, s, j) else None
      case TakeResult(j) => if j < |s.workers| then TakeStep(s, j) else None
      case MatchResult(j) => if j < |s.workers| then MatchStep(s, j) else None
      case RelayResult(j) => if j < |s.workers| then RelayStep(cfg, s, j) else None
  }

  /** dist_prefill_reader_wait_flow_window: go on while submitted < completed + window. */
  function PassWindowStep<KV, Hid, Lg>(cfg: Config<KV, Hid, Lg>, s: Sys<KV, Hid, Lg>): Option<Sys<KV, Hid, Lg>> {
    if s.ppc != AtWindow || s.pos >= cfg.SpanEnd() then None
    else if s.done then Some(s.(failed := true))
    else if s.submitted < s.completed + cfg.window then Some(s.(ppc := AtSlot))
    else None
  }

  function ChunkAt<KV, Hid, Lg>(cfg: Config<KV, Hid, Lg>, pos: nat): (n: nat)
    requires pos <= cfg.SpanEnd()
    ensures pos + n <= cfg.SpanEnd()
  {
    if cfg.SpanEnd() - pos < cfg.chunkCap then cfg.SpanEnd() - pos else cfg.chunkCap
  }

  /** Evaluate the coordinator's own layers straight into the slot at the ring's tail. */
  function EvalLocalStep<KV, Hid, Lg>(cfg: Config<KV, Hid, Lg>, s: Sys<KV, Hid, Lg>): Option<Sys<KV, Hid, Lg>>
    requires Shaped(cfg, s)
  {
    if s.ppc != AtEval then None
    else
      var n := ChunkAt(cfg, s.pos);
      var tokens := cfg.prompt[s.pos..s.pos + n];
      var first := cfg.reset && s.pos == cfg.spanStart;
      var before := if first then cfg.model.Blank(0, |s.kv|) else s.kv;
      var (kv, hidden) := cfg.model.Slice(0, before, cfg.model.embed(tokens, s.pos), tokens, s.pos);
      var work := Work(first, s.pos, tokens, s.nextHash, cfg.hs.Span(s.nextHash, tokens));
      var frame := Frame(s.nextId, work, cfg.ackOnly && s.pos + n < cfg.SpanEnd(),
                         cfg.lastLogits && cfg.Hops() == 1, hidden);
      Some(s.(ppc := AtEnqueue, kv := kv, slots := s.slots[s.tail := Some(frame)]))
  }

  function EnqueueSlotStep<KV, Hid, Lg>(cfg: Config<KV, Hid, Lg>, s: Sys<KV, Hid, Lg>): Option<Sys<KV, Hid, Lg>>
    requires Shaped(cfg, s)
  {
    if s.ppc != AtEnqueue then None
    else
      var n := ChunkAt(cfg, s.pos);
      Some(s.(ppc := AtWindow, tail := (s.tail + 1) % cfg.slotCount, queued := s.queued + 1,
              nextId := s.nextId + 1, submitted := s.submitted + 1,
              nextHash := cfg.hs.Span(s.nextHash, cfg.prompt[s.pos..s.pos + n]), pos := s.pos + n))
  }

  function SendSlotStep<KV, Hid, Lg>(cfg: Config<KV, Hid, Lg>, s: Sys<KV, Hid, Lg>): Option<Sys<KV, Hid, Lg>>
    requires Shaped(cfg, s)
  {
    if s.spc != Sending || |s.fwd[0]| >= cfg.fwdCap[0] then None
    else if s.slots[s.head].None? then Some(s.(failed := true))
    else Some(s.(spc := Sent, fwd := s.fwd[0 := s.fwd[0] + [s.slots[s.head].value]]))
  }

  /** One turn of dist_prefill_result_reader_main, up to the progress signal. */
  function AcceptStep<KV, Hid, Lg>(cfg: Config<KV, Hid, Lg>, s: Sys<KV, Hid, Lg>): Option<Sys<KV, Hid, Lg>>
    requires Shaped(cfg, s)
  {
    if s.accepted != s.completed || s.accepted >= cfg.Count() || s.ret[0] == [] then None
    else
      var r, i := s.ret[0][0], s.accepted;
      var final := i + 1 == cfg.Count();
      var rows := if cfg.nTokens - i * cfg.chunkCap < cfg.chunkCap then cfg.nTokens - i * cfg.chunkCap
                  else cfg.chunkCap;
      var ok := match r.payload
        case Ack => !final
        case Logits(_) => true
        case Hidden(n, _) => !cfg.lastLogits && n == rows;
      if r.id != cfg.firstId + i || cfg.Start(i + 1) > |cfg.prompt|
         || r.hash != cfg.hs.Prefix(cfg.prompt[..cfg.Start(i + 1)]) || !ok
      then Some(s.(failed := true))
      else Some(s.(ret := s.ret[0 := s.ret[0][1..]], accepted := i + 1,
                   final := if final then Some(r.payload) else s.final))
  }

  function ReadStep<KV, Hid, Lg>(s: Sys<KV, Hid, Lg>, j: nat): Option<Sys<KV, Hid, Lg>>
    requires j < |s.workers| == |s.fwd|
  {
    if s.workers[j].held.Some? || s.fwd[j] == [] then None
    else
      Some(s.(fwd := s.fwd[j := s.fwd[j][1..]],
              workers := s.workers[j := s.workers[j].(held := Some(s.fwd[j][0]))]))
  }

  function EnqueueJobStep<KV, Hid, Lg>(cfg: Config<KV, Hid, Lg>, s: Sys<KV, Hid, Lg>, j: nat): Option<Sys<KV, Hid, Lg>>
    requires j < |s.workers| == |cfg.jobDepth|
  {
    var w := s.workers[j];
    if w.held.None? || |w.jobs| >= cfg.jobDepth[j] then None
    else Some(s.(workers := s.workers[j := w.(held := None, jobs := w.jobs + [w.held.value])]))
  }

  function PopStep<KV, Hid, Lg>(s: Sys<KV, Hid, Lg>, j: nat): Option<Sys<KV, Hid, Lg>>
    requires j < |s.workers|
  {
    var w := s.workers[j];
    if !w.eval.NoJob? || w.jobs == [] then None
    else Some(s.(workers := s.workers[j := w.(jobs := w.jobs[1..], eval := Job(w.jobs[0]))]))
  }

  /** dist_worker_process_work_payload: the prefix guard, the slice, and what to do next. None when
      the guard turns the frame down. */
  function Evaluate<KV, Hid, Lg>(cfg: Config<KV, Hid, Lg>, j: nat, w: Worker<KV, Hid, Lg>): Option<Worker<KV, Hid, Lg>>
    requires |cfg.bounds| >= 3 && j < cfg.Hops() && w.eval.Job?
  {
    var f := w.eval.frame;
    var (session, reply) := WorkStep(cfg.hs, w.session, f.work, true, NoFault);
    if reply != Evaluated then None
    else
      var lo := cfg.bounds[j + 1];
      var before := if f.work.reset then cfg.model.Blank(lo, |w.kv|) else w.kv;
      var (kv, out) := cfg.model.Slice(lo, before, f.hidden, f.work.tokens, f.work.pos0);
      var next :=
        if j + 1 == cfg.Hops() then
          Reply(Result(f.id, f.work.resultHash,
            if f.ackOnly then Ack
            else if f.logits then Logits(cfg.model.head(out))
            else Hidden(|f.work.tokens|, out)))
        else
          Forward(f.(logits := cfg.lastLogits && j + 2 == cfg.Hops(), hidden := out), false);
      Some(w.(session := session, kv := kv, eval := next))
  }

  function EvalStep<KV, Hid, Lg>(cfg: Config<KV, Hid, Lg>, s: Sys<KV, Hid, Lg>, j: nat): Option<Sys<KV, Hid, Lg>>
    requires Shaped(cfg, s) && j < |s.workers|
  {
    if !s.workers[j].eval.Job? then None
    else match Evaluate(cfg, j, s.workers[j])
      case None => Some(s.(failed := true))
      case Some(w) => Some(s.(workers := s.workers[j := w]))
  }

  function RegisterStep<KV, Hid, Lg>(cfg: Config<KV, Hid, Lg>, s: Sys<KV, Hid, Lg>, j: nat): Option<Sys<KV, Hid, Lg>>
    requires j < |s.workers| == |cfg.pendDepth|
  {
    var w := s.workers[j];
    if !w.eval.Forward? || w.eval.registered || (cfg.pendDepth[j] != 0 && |w.pending| >= cfg.pendDepth[j]) then None
    else
      Some(s.(workers := s.workers[j := w.(eval := w.eval.(registered := true),
                                           pending := w.pending + [w.eval.frame.id])]))
  }

  function ForwardStep<KV, Hid, Lg>(cfg: Config<KV, Hid, Lg>, s: Sys<KV, Hid, Lg>, j: nat): Option<Sys<KV, Hid, Lg>>
    requires j < |s.workers| == |s.fwd| == |cfg.fwdCap|
  {
    var w := s.workers[j];
    if j + 1 >= |s.fwd| || !w.eval.Forward? || !w.eval.registered || |s.fwd[j + 1]| >= cfg.fwdCap[j + 1] then None
    else
      Some(s.(fwd := s.fwd[j + 1 := s.fwd[j + 1] + [w.eval.frame]],
              workers := s.workers[j := w.(eval := NoJob)]))
  }

  function ReplyStep<KV, Hid, Lg>(cfg: Config<KV, Hid, Lg>, s: Sys<KV, Hid, Lg>, j: nat): Option<Sys<KV, Hid, Lg>>
    requires j < |s.workers| == |s.ret| == |cfg.retCap|
  {
    var w := s.workers[j];
    if !w.eval.Reply? || |s.ret[j]| >= cfg.retCap[j] then None
    else
      Some(s.(ret := s.ret[j := s.ret[j] + [w.eval.result]],
              workers := s.workers[j := w.(eval := NoJob)]))
  }

  function TakeStep<KV, Hid, Lg>(s: Sys<KV, Hid, Lg>, j: nat): Option<Sys<KV, Hid, Lg>>
    requires j < |s.workers| == |s.ret|
  {
    var w := s.workers[j];
    if j + 1 >= |s.ret| || !w.relay.RelayIdle? || s.ret[j + 1] == [] then None
    else
      Some(s.(ret := s.ret[j + 1 := s.ret[j + 1][1..]],
              workers := s.workers[j := w.(relay := Held(s.ret[j + 1][0]))]))
  }

  /** The relay pops the oldest pending request and insists that the result answers it. */
  function MatchStep<KV, Hid, Lg>(s: Sys<KV, Hid, Lg>, j: nat): Option<Sys<KV, Hid, Lg>>
    requires j < |s.workers|
  {
    var w := s.workers[j];
    if !w.relay.Held? then None
    else if w.pending == [] || w.pending[0] != w.relay.result.id then Some(s.(failed := true))
    else
      Some(s.(workers := s.workers[j := w.(pending := w.pending[1..], relay := Matched(w.relay.result))]))
  }

  function RelayStep<KV, Hid, Lg>(cfg: Config<KV, Hid, Lg>, s: Sys<KV, Hid, Lg>, j: nat): Option<Sys<KV, Hid, Lg>>
    requires j < |s.workers| == |s.ret| == |cfg.retCap|
  {
    var w := s.workers[j];
    if !w.relay.Matched? || |s.ret[j]| >= cfg.retCap[j] then None
    else
      Some(s.(ret := s.ret[j := s.ret[j] + [w.relay.result]],
              workers := s.workers[j := w.(relay := RelayIdle)]))
  }
}
