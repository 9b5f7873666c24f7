/** One worker KV session and its prefix-hash guard (ds4_distributed.c): WORK frames and
    snapshot loads arrive in any order, and any of the engine calls behind them may fail. */
module WorkerSession {
  import opened Bytes
  import opened TokenHash

  /** The engine session behind the worker (ds4.c): the committed token timeline and whether
      the KV state still matches it. */
  datatype Engine = Engine(tokens: seq<int>, valid: bool)

  /** How an engine call goes wrong: before it touches the KV state, or after. */
  datatype Fault = NoFault | Early | Late

  /** A slice reset invalidates first and may then still fail in the backend. */
  function EngineReset(e: Engine): Engine {
    Engine([], false)
  }

  /** Evaluating a slice demands that the span starts where the timeline ends. */
  function EngineEval(e: Engine, tokens: seq<int>, pos0: nat, fault: Fault): (Engine, bool) {
    if tokens == [] || fault == Early then (e, false)
    else if e.valid && |e.tokens| != pos0 then (e, false)
    else if !e.valid && pos0 != 0 then (e, false)
    else if fault == Late then (e.(valid := false), false)
    else (Engine(e.tokens + tokens, true), true)
  }

  function EngineLoad(e: Engine, tokens: seq<int>, fault: Fault): (Engine, bool) {
    match fault
    case Early => (e, false)
    case Late => (e.(valid := false), false)
    case NoFault => (Engine(tokens, true), true)
  }

  datatype State = State(engine: Engine, tokenHash: Word64, hashValid: bool)

  /** The fields of a WORK frame that the guard looks at. */
  datatype Work = Work(reset: bool, pos0: nat, tokens: seq<int>, prefixHash: Word64, resultHash: Word64)

  datatype Reply =
    | Evaluated
    | MetadataMismatch
    | ResetFailed
    | PrefixMismatch
    | EvalFailed

  /** What happens to a session. Event arguments tell which engine call fails. */
  datatype Event =
    | WorkArrives(work: Work, resetOk: bool, fault: Fault)
    | SnapshotArrives(tokens: seq<int>, claimedHash: Word64, loadFault: Fault)

  /** The session as the evaluator finds it, once the reset flag and a lost hash are dealt with. */
  function Prepared(hs: Hasher, s: State, w: Work): State {
    if w.reset then State(EngineReset(s.engine), hs.init, true)
    else if !s.hashValid then s.(tokenHash := hs.Prefix(s.engine.tokens), hashValid := true)
    else s
  }

  function WorkStep(hs: Hasher, s: State, w: Work, resetOk: bool, fault: Fault): (State, Reply) {
    if hs.Span(w.prefixHash, w.tokens) != w.resultHash then
      (s, MetadataMismatch)
    else if w.reset && !resetOk then
      (s.(engine := EngineReset(s.engine)), ResetFailed)
    else
      var p := Prepared(hs, s, w);
      if p.tokenHash != w.prefixHash then
        (p, PrefixMismatch)
      else
        var (engine, ok) := EngineEval(p.engine, w.tokens, w.pos0, fault);
        if ok then (State(engine, w.resultHash, true), Evaluated)
        else (State(engine, p.tokenHash, false), EvalFailed)
  }

  function LoadStep(hs: Hasher, s: State, tokens: seq<int>, claimed: Word64, fault: Fault): State {
    if hs.Prefix(tokens) != claimed then s
    else
      var (engine, ok) := EngineLoad(s.engine, tokens, fault);
      if ok then State(engine, claimed, true) else s.(engine := engine, hashValid := false)
  }

  function Step(hs: Hasher, s: State, e: Event): State {
    match e
    case WorkArrives(w, resetOk, fault) => WorkStep(hs, s, w, resetOk, fault).0
    case SnapshotArrives(tokens, claimed, fault) => LoadStep(hs, s, tokens, claimed, fault)
  }

  function Run(hs: Hasher, s: State, events: seq<Event>): State {
    if events == [] then s else Step(hs, Run(hs, s, events[..|events| - 1]), events[|events| - 1])
  }

  /** A session created on demand: nothing evaluated, hash not yet known. */
  const Fresh := State(Engine([], false), 0, false)

  // ----- The in-place session ------------------------------------------------------------

  class Session {
    var engine: Engine
    var tokenHash: Word64
    var hashValid: bool
    const hs: Hasher

    constructor (hs: Hasher)
      ensures View() == Fresh && this.hs == hs
    {
      this.hs := hs;
      engine, tokenHash, hashValid := Engine([], false), 0, false;
    }

    function View(): State
      reads this
    {
      State(engine, tokenHash, hashValid)
    }

    /** The locked part of dist_worker_process_work_payload. */
    method ProcessWork(w: Work, resetOk: bool, fault: Fault) returns (reply: Reply)
      modifies this
      ensures (View(), reply) == WorkStep(hs, old(View()), w, resetOk, fault)
      ensures var consistent := hs.Span(w.prefixHash, w.tokens) == w.resultHash;
              var timeline := if w.reset then [] else old(engine.tokens);
              var valid := !w.reset && old(engine.valid);
              var hash := if w.reset then hs.init
                          else if old(hashValid) then old(tokenHash) else hs.Prefix(old(engine.tokens));
              && (reply == MetadataMismatch <==> !consistent)
              && (reply == ResetFailed <==> consistent && w.reset && !resetOk)
              && (reply == PrefixMismatch <==> consistent && (w.reset ==> resetOk) && hash != w.prefixHash)
              && (reply == Evaluated <==>
                    && consistent && (w.reset ==> resetOk) && hash == w.prefixHash
                    && w.tokens != [] && fault == NoFault && w.pos0 == if valid then |timeline| else 0)
              && (reply == MetadataMismatch ==> View() == old(View()))
              && (reply == ResetFailed ==> View() == State(Engine([], false), old(tokenHash), old(hashValid)))
              && (reply == PrefixMismatch ==> View() == State(Engine(timeline, valid), hash, true))
              && (reply == EvalFailed ==>
                    && !hashValid && tokenHash == hash && engine.tokens == timeline
                    && engine.valid == (valid && (w.tokens == [] || w.pos0 != |timeline| || fault == Early)))
              && (reply == Evaluated ==> View() == State(Engine(timeline + w.tokens, true), w.resultHash, true))
    {
      var metadata := hs.ComputeSpan(w.prefixHash, w.tokens);
      if metadata != w.resultHash {
        return MetadataMismatch;
      }
      if w.reset {
        engine := EngineReset(engine);
        if !resetOk {
          return ResetFailed;
        }
        tokenHash, hashValid := hs.init, true;
      } else if !hashValid {
        tokenHash := hs.ComputeSpan(hs.init, engine.tokens);
        hashValid := true;
      }
      if tokenHash != w.prefixHash {
        return PrefixMismatch;
      }
      var ok: bool;
      var evaluated := EngineEval(engine, w.tokens, w.pos0, fault);
      engine, ok := evaluated.0, evaluated.1;
      if ok {
        tokenHash, hashValid := w.resultHash, true;
        reply := Evaluated;
      } else {
        hashValid := false;
        reply := EvalFailed;
      }
    }

    /** The hash check and the locked part of dist_worker_handle_snapshot_load. */
    method LoadSnapshot(tokens: seq<int>, claimed: Word64, fault: Fault) returns (ok: bool)
      modifies this
      ensures View() == LoadStep(hs, old(View()), tokens, claimed, fault)
      ensures ok <==> hs.Prefix(tokens) == claimed && fault == NoFault
      ensures ok ==> View() == State(Engine(tokens, true), claimed, true)
      ensures hs.Prefix(tokens) != claimed ==> View() == old(View())
      ensures hs.Prefix(tokens) == claimed && fault != NoFault ==>
                && !hashValid && tokenHash == old(tokenHash) && engine.tokens == old(engine.tokens)
                && engine.valid == (old(engine.valid) && fault == Early)
    {
      var h := hs.ComputeSpan(hs.init, tokens);
      if h != claimed {
        return false;
      }
      var loaded := EngineLoad(engine, tokens, fault);
      engine, ok := loaded.0, loaded.1;
      if ok {
        tokenHash, hashValid := claimed, true;
      } else {
        hashValid := false;
      }
    }
  }

  // ----- The guard -----------------------------------------------------------------------

  /** The invariant the code is written for: a valid hash is the hash of the timeline. */
  predicate Sound(hs: Hasher, s: State) {
    s.hashValid ==> s.tokenHash == hs.Prefix(s.engine.tokens)
  }

  /** What holds in every state: the hash may be stale only over an emptied, invalid engine. */
  predicate Guarded(hs: Hasher, s: State) {
    s.hashValid ==> s.tokenHash == hs.Prefix(s.engine.tokens) || s.engine == Engine([], false)
  }

  /** The one way a step breaks Sound: a reset whose backend fails after the timeline is gone. */
  predicate LosesTimeline(hs: Hasher, s: State, e: Event) {
    && e.WorkArrives?
    && hs.Span(e.work.prefixHash, e.work.tokens) == e.work.resultHash
    && e.work.reset && !e.resetOk
    && s.hashValid && s.tokenHash != hs.init
  }

  lemma SoundExactlyUnlessResetFails(hs: Hasher, s: State, e: Event)
    requires Sound(hs, s)
    ensures Sound(hs, Step(hs, s, e)) <==> !LosesTimeline(hs, s, e)
  {
    match e
    case WorkArrives(w, resetOk, fault) =>
      var p := Prepared(hs, s, w);
      hs.PrefixAppend(p.engine.tokens, w.tokens);
      assert hs.Prefix([]) == hs.init;
    case SnapshotArrives(_, _, _) =>
  }

  /** Frame w is meant to extend prefix P: its position and prefix hash are P's. Every frame a
      coordinator sends is of this shape for some P. */
  predicate Extends(hs: Hasher, w: Work, P: seq<int>) {
    w.pos0 == |P| && w.prefixHash == hs.Prefix(P)
  }

  ghost predicate FromCoordinator(hs: Hasher, e: Event) {
    e.WorkArrives? ==> exists P :: Extends(hs, e.work, P)
  }

  lemma GuardedStep(hs: Hasher, s: State, e: Event)
    requires Guarded(hs, s) && FromCoordinator(hs, e)
    ensures Guarded(hs, Step(hs, s, e))
  {
    match e
    case WorkArrives(w, resetOk, fault) =>
      var p := Prepared(hs, s, w);
      hs.PrefixAppend(p.engine.tokens, w.tokens);
      assert hs.Prefix([]) == hs.init;
      var P :| Extends(hs, w, P);
      assert w.pos0 == 0 ==> P == [];
    case SnapshotArrives(_, _, _) =>
  }

  /** Over every run of WORK frames, resets, evaluation failures and snapshot loads, with any of
      the engine calls failing anywhere. */
  lemma {:induction false} RunGuarded(hs: Hasher, events: seq<Event>)
    requires forall k :: 0 <= k < |events| ==> FromCoordinator(hs, events[k])
    ensures Guarded(hs, Run(hs, Fresh, events))
  {
    if events != [] {
      var n := |events| - 1;
      RunGuarded(hs, events[..n]);
      GuardedStep(hs, Run(hs, Fresh, events[..n]), events[n]);
    }
  }

  /** Two different token lists that the 64-bit hash cannot tell apart. */
  predicate Collision(hs: Hasher, a: seq<int>, b: seq<int>) {
    a != b && hs.Prefix(a) == hs.Prefix(b)
  }

  /** Safety of evaluation over every run: a frame is evaluated only on the prefix it was meant
      for, up to a hash collision, and the session is then exactly that prefix plus the span. */
  lemma EvaluatedOnlyOnItsPrefix(hs: Hasher, events: seq<Event>, w: Work, P: seq<int>, resetOk: bool, fault: Fault)
    requires forall k :: 0 <= k < |events| ==> FromCoordinator(hs, events[k])
    requires Extends(hs, w, P)
    requires WorkStep(hs, Run(hs, Fresh, events), w, resetOk, fault).1 == Evaluated
    ensures var timeline := Prepared(hs, Run(hs, Fresh, events), w).engine.tokens;
            timeline == P || Collision(hs, timeline, P)
    ensures w.reset ==> P == []
    ensures var after := WorkStep(hs, Run(hs, Fresh, events), w, resetOk, fault).0;
            && after.hashValid && after.engine.valid && Sound(hs, after)
            && after.tokenHash == hs.Prefix(P + w.tokens) == w.resultHash
            && after.engine.tokens == Prepared(hs, Run(hs, Fresh, events), w).engine.tokens + w.tokens
  {
    var s := Run(hs, Fresh, events);
    RunGuarded(hs, events);
    var p := Prepared(hs, s, w);
    assert hs.Prefix([]) == hs.init;
    hs.PrefixAppend(p.engine.tokens, w.tokens);
    hs.PrefixAppend(P, w.tokens);
    assert w.pos0 == 0 ==> P == [];
    assert p.engine == Engine([], false) ==> w.pos0 == 0;
  }

  /** The reply to a coordinator frame without reset, decided by what the session holds. */
  lemma EvaluatedExactlyWhenInSync(hs: Hasher, s: State, w: Work, P: seq<int>, resetOk: bool)
    requires Sound(hs, s) && s.engine.valid && Extends(hs, w, P) && !w.reset && w.tokens != []
    requires w.resultHash == hs.Span(w.prefixHash, w.tokens)
    ensures WorkStep(hs, s, w, resetOk, NoFault).1 == Evaluated
        <==> |s.engine.tokens| == |P| && (s.engine.tokens == P || Collision(hs, s.engine.tokens, P))
  {
  }

  /** After a load that succeeds, in whatever state the session was, the frame that goes on from the loaded
      timeline is evaluated, and leaves the session on the longer one. */
  lemma LoadedIsWorkedOn(hs: Hasher, s: State, tokens: seq<int>, w: Work, resetOk: bool)
    requires !w.reset && w.tokens != [] && Extends(hs, w, tokens) && w.resultHash == hs.Prefix(tokens + w.tokens)
    ensures var loaded := Step(hs, s, SnapshotArrives(tokens, hs.Prefix(tokens), NoFault));
            && loaded == State(Engine(tokens, true), hs.Prefix(tokens), true)
            && WorkStep(hs, loaded, w, resetOk, NoFault)
               == (State(Engine(tokens + w.tokens, true), hs.Prefix(tokens + w.tokens), true), Evaluated)
  {
    hs.PrefixAppend(tokens, w.tokens);
  }

  // ----- Recovery ------------------------------------------------------------------------

  function Flatten(chunks: seq<seq<int>>): seq<int> {
    if chunks == [] then [] else Flatten(chunks[..|chunks| - 1]) + chunks[|chunks| - 1]
  }

  /** The i-th frame of a replay: chunk i on the prefix before it, the first one with reset. */
  function ReplayFrame(hs: Hasher, chunks: seq<seq<int>>, i: nat): Work
    requires i < |chunks|
  {
    var P := Flatten(chunks[..i]);
    Work(i == 0, |P|, chunks[i], hs.Prefix(P), hs.Prefix(P + chunks[i]))
  }

  function ReplayEvents(hs: Hasher, chunks: seq<seq<int>>, n: nat): seq<Event>
    requires n <= |chunks|
  {
    seq(n, i requires 0 <= i < n => WorkArrives(ReplayFrame(hs, chunks, i), true, NoFault))
  }

  /** A replay that starts with a reset succeeds from any state whatever, however the session was
      left, and leaves it sound and holding the whole transcript. */
  lemma {:induction false} ReplayRecovers(hs: Hasher, s: State, chunks: seq<seq<int>>, n: nat)
    requires 0 < n <= |chunks| && forall i :: 0 <= i < |chunks| ==> chunks[i] != []
    ensures var before := Run(hs, s, ReplayEvents(hs, chunks, n - 1));
            WorkStep(hs, before, ReplayFrame(hs, chunks, n - 1), true, NoFault).1 == Evaluated
    ensures var after := Run(hs, s, ReplayEvents(hs, chunks, n));
            after == State(Engine(Flatten(chunks[..n]), true), hs.Prefix(Flatten(chunks[..n])), true)
    decreases n
  {
    var events, m := ReplayEvents(hs, chunks, n), n - 1;
    assert events[..m] == ReplayEvents(hs, chunks, m);
    if m > 0 {
      ReplayRecovers(hs, s, chunks, m);
    } else {
      assert chunks[..m] == [];
      assert hs.Prefix([]) == hs.init;
    }
    var P := Flatten(chunks[..m]);
    hs.PrefixAppend(P, chunks[m]);
    assert chunks[..n][..m] == chunks[..m];
    assert Flatten(chunks[..n]) == P + chunks[m];
    var before := Run(hs, s, ReplayEvents(hs, chunks, m));
    assert Run(hs, s, events) == Step(hs, before, events[m]);
  }

  /** A run that ends with a stale hash: token t is evaluated after a reset, then a second reset
      fails in the backend. */
  function FailedResetRun(hs: Hasher, t: int): State {
    var w := Work(true, 0, [t], hs.init, hs.Prefix([t]));
    Run(hs, Fresh, [WorkArrives(w, true, NoFault), WorkArrives(w, false, NoFault)])
  }

  lemma FailedResetKeepsHash(hs: Hasher, t: int)
    requires hs.step(hs.init, t) != hs.init
    ensures !Sound(hs, FailedResetRun(hs, t))
  {
    var w := Work(true, 0, [t], hs.init, hs.Prefix([t]));
    var e0, e1 := WorkArrives(w, true, NoFault), WorkArrives(w, false, NoFault);
    assert [e0, e1][..1] == [e0] && [e0][..0] == [];
    hs.PrefixAppend([], [t]);
    assert [] + [t] == [t];
    assert Run(hs, Fresh, [e0]) == State(Engine([t], true), hs.Prefix([t]), true);
    assert hs.Prefix([t]) == hs.Span(hs.step(hs.init, t), []);
    assert hs.Prefix([]) == hs.init;
  }

  /** Sound is not an invariant of the program: with its own hash some such run breaks it. */
  lemma SoundCanBeLost()
    ensures exists t :: !Sound(TOKEN_HASH, FailedResetRun(TOKEN_HASH, t))
  {
    SomeTokenMovesHash();
    var t :| TOKEN_HASH.step(TOKEN_HASH.init, t) != TOKEN_HASH.init;
    FailedResetKeepsHash(TOKEN_HASH, t);
  }
}
