/** The steps of the pipeline and the objects behind them: what a run does to the ring of send slots,
    to a worker's job queue and to its list of forwarded requests is what the operations of those
    objects do, one for one, and each thread goes on exactly when the object lets it. */
module PipelineStructures {
  import opened Options
  import opened LayerSlices
  import opened WorkerSession
  import opened Pipeline
  import opened PipelineTheorems
  import Q = WorkerQueues
  import R = SenderRing

  // ----- The ring of send slots ----------------------------------------------------------

  /** The slots of s hold contents; a slot that is being filled is free, and a chunk that is being sent
      is still queued. */
  ghost predicate RingHolds<KV, Hid, Lg>(
    cfg: Config<KV, Hid, Lg>, s: Sys<KV, Hid, Lg>, contents: seq<Option<Frame<Hid>>>)
  {
    && |s.slots| == cfg.slotCount
    && R.Represents(s.slots, s.head, s.tail, s.queued, contents)
    && (s.ppc.AtEval? || s.ppc.AtEnqueue? ==> s.queued < cfg.slotCount)
    && (s.spc.Sending? || s.spc.Sent? ==> s.queued > 0)
  }

  /** What Ring.EnqueueSlot and Ring.Sent leave in the ring; no other action changes it. */
  ghost function RingNext<KV, Hid, Lg>(
    cfg: Config<KV, Hid, Lg>, s: Sys<KV, Hid, Lg>, a: Action, contents: seq<Option<Frame<Hid>>>): seq<Option<Frame<Hid>>>
    requires Shaped(cfg, s)
  {
    if a.EnqueueSlot? then contents + [s.slots[s.tail]]
    else if a.ReleaseSlot? && contents != [] then contents[1..]
    else contents
  }

  /** The producer and the sender go on, wait and end as Ring.AcquireSlot and Ring.Front tell them. */
  lemma RingGuards<KV, Hid, Lg>(cfg: Config<KV, Hid, Lg>, s: Sys<KV, Hid, Lg>, contents: seq<Option<Frame<Hid>>>)
    requires Shaped(cfg, s) && !s.failed && RingHolds(cfg, s, contents)
    ensures var acquired := R.AcquireOutcome(false, |contents|, cfg.slotCount, s.tail);
            var front := R.FrontOutcome(false, s.producerDone, |contents|, s.head);
            && (Act(cfg, s, AcquireSlot).Some? <==> s.ppc == AtSlot && acquired == R.Slot(s.tail))
            && (Act(cfg, s, PickSlot).Some? <==> s.spc == SenderIdle && front == R.Slot(s.head))
            && (Act(cfg, s, ExitSender).Some? <==> s.spc == SenderIdle && front == R.Stopped)
            && (Act(cfg, s, SendSlot).Some? && contents[0].Some? ==>
                  Act(cfg, s, SendSlot).value.fwd[0] == s.fwd[0] + [contents[0].value])
  {
    hide R.At;
    if s.queued > 0 {
      R.HeadIsOldest(s.slots, s.head, s.tail, s.queued, contents);
    }
  }

  /** The actions of a worker's threads. */
  predicate OnWorker(a: Action) {
    match a
    case ReadFrame(_) => true
    case EnqueueJob(_) => true
    case PopJob(_) => true
    case EvalJob(_) => true
    case RegisterPending(_) => true
    case ForwardFrame(_) => true
    case ReplyResult(_) => true
    case TakeResult(_) => true
    case MatchResult(_) => true
    case RelayResult(_) => true
    case _ => false
  }

  lemma WorkersKeepRing<KV, Hid, Lg>(cfg: Config<KV, Hid, Lg>, s: Sys<KV, Hid, Lg>, a: Action)
    requires Shaped(cfg, s) && Act(cfg, s, a).Some? && OnWorker(a)
    ensures var t := Act(cfg, s, a).value;
            && t.slots == s.slots && t.head == s.head && t.tail == s.tail && t.queued == s.queued
            && t.ppc == s.ppc && t.spc == s.spc
  {
    hide Evaluate, Config.Start, Config.Count, Config.SpanEnd, Config.Hops,
         PassWindowStep, EvalLocalStep, EnqueueSlotStep, SendSlotStep, AcceptStep;
  }

  lemma EndsKeepWorkers<KV, Hid, Lg>(cfg: Config<KV, Hid, Lg>, s: Sys<KV, Hid, Lg>, a: Action)
    requires Shaped(cfg, s) && Act(cfg, s, a).Some? && !OnWorker(a)
    ensures Act(cfg, s, a).value.workers == s.workers
  {
    hide Config.Start, Config.Count, Config.SpanEnd, Config.Hops,
         ReadStep, EnqueueJobStep, PopStep, EvalStep, RegisterStep, ForwardStep, ReplyStep, TakeStep, MatchStep, RelayStep;
  }

  /** The ring is the business of three actions. */
  lemma OthersKeepRing<KV, Hid, Lg>(cfg: Config<KV, Hid, Lg>, s: Sys<KV, Hid, Lg>, a: Action)
    requires Shaped(cfg, s) && Act(cfg, s, a).Some?
    requires !a.EvalLocal? && !a.EnqueueSlot? && !a.ReleaseSlot?
    ensures var t := Act(cfg, s, a).value;
            && t.slots == s.slots && t.head == s.head && t.tail == s.tail && t.queued == s.queued
            && (t.ppc == s.ppc || !(t.ppc.AtEval? || t.ppc.AtEnqueue?) || (a.AcquireSlot? && s.queued != cfg.slotCount))
            && (t.spc == s.spc || !(t.spc.Sending? || t.spc.Sent?) || (a.PickSlot? && s.queued != 0)
                || (a.SendSlot? && s.spc.Sending?))
  {
    if OnWorker(a) {
      hide Act;
      WorkersKeepRing(cfg, s, a);
    } else {
      hide Config.Start, Config.Count, Config.SpanEnd, Config.Hops, EvalLocalStep, EnqueueSlotStep,
           ReadStep, EnqueueJobStep, PopStep, EvalStep, RegisterStep, ForwardStep, ReplyStep, TakeStep, MatchStep, RelayStep;
    }
  }

  lemma LocalStep<KV, Hid, Lg>(cfg: Config<KV, Hid, Lg>, s: Sys<KV, Hid, Lg>, contents: seq<Option<Frame<Hid>>>)
    requires Shaped(cfg, s) && RingHolds(cfg, s, contents) && Act(cfg, s, EvalLocal).Some?
    ensures RingHolds(cfg, Act(cfg, s, EvalLocal).value, contents)
  {
    hide R.Represents, Config.Start;
    var t := Act(cfg, s, EvalLocal).value;
    R.FillKeeps(s.slots, s.head, s.tail, s.queued, contents, t.slots[s.tail]);
  }

  lemma EnqueueStep<KV, Hid, Lg>(cfg: Config<KV, Hid, Lg>, s: Sys<KV, Hid, Lg>, contents: seq<Option<Frame<Hid>>>)
    requires Shaped(cfg, s) && RingHolds(cfg, s, contents) && Act(cfg, s, EnqueueSlot).Some?
    ensures RingHolds(cfg, Act(cfg, s, EnqueueSlot).value, contents + [s.slots[s.tail]])
  {
    hide R.Represents, Config.Start;
    R.EnqueueAppends(s.slots, s.head, s.tail, s.queued, contents);
  }

  lemma ReleaseStep<KV, Hid, Lg>(cfg: Config<KV, Hid, Lg>, s: Sys<KV, Hid, Lg>, contents: seq<Option<Frame<Hid>>>)
    requires Shaped(cfg, s) && RingHolds(cfg, s, contents) && Act(cfg, s, ReleaseSlot).Some?
    ensures contents != [] && RingHolds(cfg, Act(cfg, s, ReleaseSlot).value, contents[1..])
  {
    hide R.At, Config.Start;
    R.ReleaseDrops(s.slots, s.head, s.tail, s.queued, contents);
  }

  lemma RingStep<KV, Hid, Lg>(
    cfg: Config<KV, Hid, Lg>, s: Sys<KV, Hid, Lg>, a: Action, contents: seq<Option<Frame<Hid>>>)
    requires Shaped(cfg, s) && RingHolds(cfg, s, contents) && Act(cfg, s, a).Some?
    ensures RingHolds(cfg, Act(cfg, s, a).value, RingNext(cfg, s, a, contents))
  {
    hide Act, R.At;
    if a.EvalLocal? {
      LocalStep(cfg, s, contents);
    } else if a.EnqueueSlot? {
      EnqueueStep(cfg, s, contents);
    } else if a.ReleaseSlot? {
      ReleaseStep(cfg, s, contents);
    } else {
      OthersKeepRing(cfg, s, a);
    }
  }

  /** The ring's contents after a run, by the operations alone. */
  ghost function RingAfter<KV, Hid, Lg>(cfg: Config<KV, Hid, Lg>, actions: seq<Action>): seq<Option<Frame<Hid>>>
    requires cfg.Valid()
  {
    if actions == [] then []
    else
      var n := |actions| - 1;
      match Exec(cfg, actions[..n])
      case Some(s) =>
        if Shaped(cfg, s) then RingNext(cfg, s, actions[n], RingAfter(cfg, actions[..n])) else []
      case None => []
  }

  lemma {:induction false} RingOfEveryRun<KV, Hid, Lg>(cfg: Config<KV, Hid, Lg>, actions: seq<Action>)
    requires cfg.Valid() && Exec(cfg, actions).Some?
    ensures RingHolds(cfg, Exec(cfg, actions).value, RingAfter(cfg, actions))
    decreases |actions|
  {
    hide Act, RingNext, Shaped;
    if actions == [] {
      RingAtStart(cfg);
    } else {
      var n := |actions| - 1;
      RingOfEveryRun(cfg, actions[..n]);
      RingStep(cfg, Exec(cfg, actions[..n]).value, actions[n], RingAfter(cfg, actions[..n]));
    }
  }

  lemma RingAtStart<KV, Hid, Lg>(cfg: Config<KV, Hid, Lg>)
    requires cfg.Valid()
    ensures RingHolds(cfg, Init(cfg), [])
  {
    R.StartsEmpty(Init(cfg).slots);
  }

  // ----- A worker's job queue ------------------------------------------------------------

  function JobsOf<KV, Hid, Lg>(w: Worker<KV, Hid, Lg>): Q.Jobs<Frame<Hid>> {
    Q.Jobs(w.jobs, false, false)
  }

  /** The operations that action a performs on the job queue of worker j. */
  function JobEvents<KV, Hid, Lg>(s: Sys<KV, Hid, Lg>, a: Action, j: nat): seq<Q.JobEvent<Frame<Hid>>>
    requires j < |s.workers|
  {
    if a == EnqueueJob(j) && s.workers[j].held.Some? then [Q.Enqueue(s.workers[j].held.value)]
    else if a == PopJob(j) then [Q.Pop]
    else []
  }

  /** The worker's reader hands a job over exactly when the queue takes it, and its evaluator goes on
      exactly when the queue gives it one, with that very job. */
  lemma JobGuards<KV, Hid, Lg>(cfg: Config<KV, Hid, Lg>, s: Sys<KV, Hid, Lg>, j: nat)
    requires Shaped(cfg, s) && !s.failed && j < |s.workers|
    ensures var w := s.workers[j];
            && (Act(cfg, s, EnqueueJob(j)).Some?
                <==> w.held.Some? && JobsOf(w).PutOutcome(cfg.jobDepth[j]) == Q.Taken)
            && (Act(cfg, s, PopJob(j)).Some? <==> w.eval.NoJob? && JobsOf(w).TakeOutcome().Got?)
            && (Act(cfg, s, PopJob(j)).Some? ==>
                  Act(cfg, s, PopJob(j)).value.workers[j].eval == Job(JobsOf(w).TakeOutcome().job))
  {
  }

  lemma EvaluateKeepsQueues<KV, Hid, Lg>(cfg: Config<KV, Hid, Lg>, s: Sys<KV, Hid, Lg>, k: nat)
    requires Shaped(cfg, s) && k < |s.workers| && s.workers[k].eval.Job?
    ensures var r := Evaluate(cfg, k, s.workers[k]);
            r.Some? ==> r.value.jobs == s.workers[k].jobs && r.value.pending == s.workers[k].pending
  {
    hide WorkStep;
  }

  lemma OthersKeepJobs<KV, Hid, Lg>(cfg: Config<KV, Hid, Lg>, s: Sys<KV, Hid, Lg>, a: Action, j: nat)
    requires Shaped(cfg, s) && j < |s.workers| && Act(cfg, s, a).Some? && a != EnqueueJob(j) && a != PopJob(j)
    ensures var t := Act(cfg, s, a).value;
            |t.workers| == |s.workers| && t.workers[j].jobs == s.workers[j].jobs
  {
    if !OnWorker(a) {
      hide Act;
      EndsKeepWorkers(cfg, s, a);
    } else {
      hide Evaluate, Config.Start, Config.Count, Config.SpanEnd,
           PassWindowStep, EvalLocalStep, EnqueueSlotStep, SendSlotStep, AcceptStep;
      if a == EvalJob(j) && s.workers[j].eval.Job? {
        EvaluateKeepsQueues(cfg, s, j);
      }
    }
  }

  /** Every action does to the queue what its operations do. */
  lemma JobsStep<KV, Hid, Lg>(cfg: Config<KV, Hid, Lg>, s: Sys<KV, Hid, Lg>, a: Action, j: nat, log: Q.JobLog<Frame<Hid>>)
    requires Shaped(cfg, s) && j < |s.workers| && Act(cfg, s, a).Some? && log.q == JobsOf(s.workers[j])
    ensures var t := Act(cfg, s, a).value;
            |t.workers| == |s.workers| && log.AfterAll(cfg.jobDepth[j], JobEvents(s, a, j)).q == JobsOf(t.workers[j])
  {
    if a == EnqueueJob(j) || a == PopJob(j) {
      hide Evaluate, Config.Start, Config.Count, Config.SpanEnd;
    } else {
      hide Act;
      OthersKeepJobs(cfg, s, a, j);
    }
  }

  ghost function JobLogAfter<KV, Hid, Lg>(cfg: Config<KV, Hid, Lg>, actions: seq<Action>, j: nat): Q.JobLog<Frame<Hid>>
    requires cfg.Valid() && j < cfg.Hops()
  {
    if actions == [] then Q.EmptyLog<Frame<Hid>>()
    else
      var n := |actions| - 1;
      var log := JobLogAfter(cfg, actions[..n], j);
      match Exec(cfg, actions[..n])
      case Some(s) => if j < |s.workers| then log.AfterAll(cfg.jobDepth[j], JobEvents(s, actions[n], j)) else log
      case None => log
  }

  /** So over every run the jobs of every worker are those of its queue under these operations, none
      lost, doubled or reordered. */
  lemma {:induction false} JobsOfEveryRun<KV, Hid, Lg>(cfg: Config<KV, Hid, Lg>, actions: seq<Action>, j: nat)
    requires cfg.Valid() && Exec(cfg, actions).Some? && j < cfg.Hops()
    ensures var (s, log) := (Exec(cfg, actions).value, JobLogAfter(cfg, actions, j));
            |s.workers| == cfg.Hops() && log.q == JobsOf(s.workers[j]) && log.Conserved(cfg.jobDepth[j])
    decreases |actions|
  {
    hide Act, Q.JobLog.Conserved, Q.JobLog.AfterAll, JobsOf, JobEvents;
    if actions == [] {
      EmptyJobs(cfg, j);
    } else {
      var n := |actions| - 1;
      JobsOfEveryRun(cfg, actions[..n], j);
      var s := Exec(cfg, actions[..n]).value;
      JobsStep(cfg, s, actions[n], j, JobLogAfter(cfg, actions[..n], j));
      Q.JobsAreConserved(JobLogAfter(cfg, actions[..n], j), cfg.jobDepth[j], JobEvents(s, actions[n], j));
    }
  }

  lemma EmptyJobs<KV, Hid, Lg>(cfg: Config<KV, Hid, Lg>, j: nat)
    requires cfg.Valid() && j < cfg.Hops()
    ensures Q.EmptyLog<Frame<Hid>>().q == JobsOf(Init(cfg).workers[j])
    ensures Q.EmptyLog<Frame<Hid>>().Conserved(cfg.jobDepth[j])
  {
  }

  // ----- A worker's forwarded requests ---------------------------------------------------

  /** The list's telemetry does not show in the pipeline, only its ids do. */
  ghost predicate PendingIs<KV, Hid, Lg>(w: Worker<KV, Hid, Lg>, p: Q.Pending) {
    Q.Ids(p.requests) == w.pending && !p.closing
  }

  /** The operations that action a performs on the request list of worker j. A result that answers
      nothing ends the call, so that only the one expected is answered. */
  function PendingEvents<KV, Hid, Lg>(s: Sys<KV, Hid, Lg>, a: Action, j: nat): seq<Q.PendingEvent>
    requires j < |s.workers|
  {
    var w := s.workers[j];
    if a == RegisterPending(j) && w.eval.Forward? then [Q.PendingEvent.Put(w.eval.frame.id)]
    else if a == MatchResult(j) && w.relay.Held? && w.pending != [] && w.pending[0] == w.relay.result.id then [Q.Answer]
    else []
  }

  /** The evaluator registers exactly when the list takes the request, and the relay accepts a result
      exactly when it answers the request the list gives it. */
  lemma PendingGuards<KV, Hid, Lg>(cfg: Config<KV, Hid, Lg>, s: Sys<KV, Hid, Lg>, j: nat, p: Q.Pending)
    requires Shaped(cfg, s) && !s.failed && j < |s.workers| && PendingIs(s.workers[j], p)
    ensures var w := s.workers[j];
            && (Act(cfg, s, RegisterPending(j)).Some?
                <==> w.eval.Forward? && !w.eval.registered && p.PutOutcome(cfg.pendDepth[j]) == Q.Taken)
            && (Act(cfg, s, MatchResult(j)).Some? <==> w.relay.Held?)
            && (w.relay.Held? ==>
                  (Act(cfg, s, MatchResult(j)).value.failed
                   <==> p.requests == [] || p.requests[0].id != w.relay.result.id))
  {
  }

  lemma OthersKeepPending<KV, Hid, Lg>(cfg: Config<KV, Hid, Lg>, s: Sys<KV, Hid, Lg>, a: Action, j: nat)
    requires Shaped(cfg, s) && j < |s.workers| && Act(cfg, s, a).Some? && a != RegisterPending(j) && a != MatchResult(j)
    ensures var t := Act(cfg, s, a).value;
            |t.workers| == |s.workers| && t.workers[j].pending == s.workers[j].pending
  {
    if !OnWorker(a) {
      hide Act;
      EndsKeepWorkers(cfg, s, a);
    } else {
      hide Evaluate, Config.Start, Config.Count, Config.SpanEnd,
           PassWindowStep, EvalLocalStep, EnqueueSlotStep, SendSlotStep, AcceptStep;
      if a == EvalJob(j) && s.workers[j].eval.Job? {
        EvaluateKeepsQueues(cfg, s, j);
      }
    }
  }

  /** Every action does to the list what its operations do. */
  lemma PendingStep<KV, Hid, Lg>(cfg: Config<KV, Hid, Lg>, s: Sys<KV, Hid, Lg>, a: Action, j: nat, log: Q.PendingLog)
    requires Shaped(cfg, s) && j < |s.workers| && Act(cfg, s, a).Some? && PendingIs(s.workers[j], log.p)
    ensures var (t, after) := (Act(cfg, s, a).value, log.AfterAll(cfg.pendDepth[j], PendingEvents(s, a, j)));
            |t.workers| == |s.workers| && PendingIs(t.workers[j], after.p) && after.withdrawn == log.withdrawn
  {
    var rs := log.p.requests;
    if a == RegisterPending(j) {
      hide Evaluate, Config.Start, Config.Count, Config.SpanEnd;
      var id := s.workers[j].eval.frame.id;
      assert Q.Ids(rs + [Q.Request(id, 0)]) == Q.Ids(rs) + [id];
    } else if a == MatchResult(j) {
      hide Evaluate, Config.Start, Config.Count, Config.SpanEnd;
      assert rs != [] ==> Q.Ids(rs[1..]) == Q.Ids(rs)[1..];
    } else {
      hide Act;
      OthersKeepPending(cfg, s, a, j);
    }
  }

  /** A send time noted for a request does not show either. */
  lemma NotingDoesNotShow<KV, Hid, Lg>(w: Worker<KV, Hid, Lg>, p: Q.Pending, id: nat, usec: nat)
    requires PendingIs(w, p)
    ensures PendingIs(w, p.Noted(id, usec))
  {
    assert Q.Ids(p.Noted(id, usec).requests) == Q.Ids(p.requests);
  }

  ghost function PendingLogAfter<KV, Hid, Lg>(cfg: Config<KV, Hid, Lg>, actions: seq<Action>, j: nat): Q.PendingLog
    requires cfg.Valid() && j < cfg.Hops()
  {
    if actions == [] then Q.PendingLog(Q.Pending([], false), [], [], multiset{})
    else
      var n := |actions| - 1;
      var log := PendingLogAfter(cfg, actions[..n], j);
      match Exec(cfg, actions[..n])
      case Some(s) => if j < |s.workers| then log.AfterAll(cfg.pendDepth[j], PendingEvents(s, actions[n], j)) else log
      case None => log
  }

  /** So over every run each worker's pending ids are those of its list under these operations: every
      request registered was answered in its turn or is still pending. */
  lemma {:induction false} PendingOfEveryRun<KV, Hid, Lg>(cfg: Config<KV, Hid, Lg>, actions: seq<Action>, j: nat)
    requires cfg.Valid() && Exec(cfg, actions).Some? && j < cfg.Hops()
    ensures var (s, log) := (Exec(cfg, actions).value, PendingLogAfter(cfg, actions, j));
            && |s.workers| == cfg.Hops() && PendingIs(s.workers[j], log.p)
            && log.Conserved(cfg.pendDepth[j]) && log.withdrawn == multiset{}
    decreases |actions|
  {
    hide Act, Q.PendingLog.Conserved, PendingIs;
    if actions == [] {
      NothingPending(cfg, j);
    } else {
      var n := |actions| - 1;
      PendingOfEveryRun(cfg, actions[..n], j);
      var s := Exec(cfg, actions[..n]).value;
      PendingStep(cfg, s, actions[n], j, PendingLogAfter(cfg, actions[..n], j));
      Q.RequestsAreConserved(PendingLogAfter(cfg, actions[..n], j), cfg.pendDepth[j], PendingEvents(s, actions[n], j));
    }
  }

  lemma NothingPending<KV, Hid, Lg>(cfg: Config<KV, Hid, Lg>, j: nat)
    requires cfg.Valid() && j < cfg.Hops()
    ensures PendingIs(Init(cfg).workers[j], Q.Pending([], false))
    ensures Q.PendingLog(Q.Pending([], false), [], [], multiset{}).Conserved(cfg.pendDepth[j])
  {
  }
}
