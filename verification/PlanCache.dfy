/** The plan a session keeps from one call to the next, while workers come and go on other threads
    (ds4_distributed.c). Each action is one region under the coordinator's lock, or the session
    thread's work between two of them. */
module PlanCache {
  import opened Options
  import opened Bytes
  import opened RouteBlob
  import opened RoutePlan
  import opened Registry
  import S = RouteSearch

  /** Where the session thread stands. */
  datatype Phase =
    | Idle
    | MustBuild                 // the cached plan was stale and has been freed
    | Using                     // evaluating over the plan
    | Recovering(forget: bool)  // an evaluation failed; a failed route is to be forgotten
    | Unplanned                 // rebuilding, with the plan freed
    | Replaying                 // prefilling the transcript again
    | GivingUp                  // the rebuild found no route

  datatype Sys = Sys(reg: State, plan: seq<RouteEntry>, planReady: bool, planGen: nat, phase: Phase)

  datatype Event =
    | Register(w: S.Worker)
    | Leave(fd: int)
    | ShutDown
    | Begin
    | Build(dupOk: bool)
    | Evaluated(failed: bool, remoteError: bool)
    | Forget
    | KeepPlan
    | Replayed(ok: bool)
    | GiveUp

  ghost predicate Sorting(sort: Sorter) {
    forall ws :: Sorts(sort, ws)
  }

  /** Any registry can be sorted. */
  lemma SortingExists()
    ensures Sorting(InsertionSort)
  {
    forall ws
      ensures Sorts(InsertionSort, ws)
    {
      SortExists(ws);
    }
  }

  /** What building a plan from the present registry gives. */
  ghost function Fresh(c: Local, sort: Sorter, reg: State, dupOk: bool): PlanResult
    requires c.Valid() && Sorting(sort) && HelloAll(c, reg.workers)
  {
    SortedIsSearchable(c, sort, reg.workers);
    FreshPlan(c, sort(reg.workers), dupOk)
  }

  function Init(): Sys {
    Sys(State([], 0, false), [], false, 0, Idle)
  }

  /** One step of the coordinator; None when the event cannot happen here. */
  ghost function Next(c: Local, sort: Sorter, s: Sys, e: Event): Option<Sys>
    requires c.Valid() && Sorting(sort) && HelloAll(c, s.reg.workers)
  {
    match e
    case Register(w) => Some(if HelloOk(c, w) then s.(reg := Added(s.reg, w)) else s)
    case Leave(fd) => Some(s.(reg := Removed(s.reg, fd)))
    case ShutDown => Some(s.(reg := s.reg.(shuttingDown := true)))
    case Begin =>
      if s.phase != Idle then None
      else if s.planReady && s.planGen == s.reg.generation then Some(s.(phase := Using))
      else Some(s.(plan := [], phase := MustBuild))
    case Build(dupOk) =>
      var r := Fresh(c, sort, s.reg, dupOk);
      if s.phase == MustBuild then
        Some(if r.Built? then s.(plan := r.entries, planReady := true, planGen := s.reg.generation, phase := Using)
             else s.(plan := [], planReady := false, planGen := 0, phase := Idle))
      else if s.phase == Unplanned || (s.phase == Recovering(false) && s.plan == []) then
        Some(if r.Built? then s.(plan := r.entries, planGen := s.reg.generation, phase := Replaying)
             else s.(plan := [], phase := GivingUp))
      else None
    case Evaluated(failed, remoteError) =>
      if s.phase != Using then None
      else Some(s.(phase := if failed then Recovering(!remoteError) else Idle))
    case Forget =>
      if s.phase != Recovering(true) then None
      else Some(s.(reg := Forgotten(s.reg, s.plan), plan := [], phase := Unplanned))
    case KeepPlan =>
      if s.phase != Recovering(false) || s.plan == [] then None else Some(s.(phase := Replaying))
    case Replayed(ok) =>
      if s.phase != Replaying then None
      else Some(if ok then s.(planReady := true, phase := Idle)
                else s.(planReady := false, planGen := 0, phase := Idle))
    case GiveUp =>
      if s.phase != GivingUp then None else Some(s.(planReady := false, planGen := 0, phase := Idle))
  }

  // ----- The invariant -------------------------------------------------------------------

  predicate Current(s: Sys) {
    s.planReady && s.planGen == s.reg.generation
  }

  ghost predicate Inv(c: Local, sort: Sorter, s: Sys)
    requires c.Valid() && Sorting(sort)
  {
    && Proper(c, s.reg.workers)
    && s.planGen <= s.reg.generation
    && (Current(s) ==> Fresh(c, sort, s.reg, true) == Built(s.plan))
    && (s.phase == MustBuild ==> s.plan == [] && !Current(s))
    && (s.phase.Using? || s.phase.Recovering? || s.phase.Unplanned? || s.phase.Replaying? ==> s.planReady)
    && (s.phase.Unplanned? ==> s.plan == [])
  }

  lemma AddedIsProper(c: Local, reg: State, w: S.Worker)
    requires Proper(c, reg.workers) && HelloOk(c, w)
    ensures Proper(c, Added(reg, w).workers)
    ensures Added(reg, w) == reg || Added(reg, w).generation > reg.generation
  {
    WithoutKeeps(c, reg.workers, w);
    var rest := Without(reg.workers, w);
    forall i | 0 <= i < |rest|
      ensures !Same(w, rest[i])
    {
      assert rest[i] in rest;
    }
  }

  lemma ShrunkIsProper(c: Local, reg: State, fd: int, es: seq<RouteEntry>)
    requires Proper(c, reg.workers)
    ensures Proper(c, Removed(reg, fd).workers) && Proper(c, Forgotten(reg, es).workers)
    ensures Removed(reg, fd) == reg || Removed(reg, fd).generation > reg.generation
    ensures Forgotten(reg, es) == reg || Forgotten(reg, es).generation > reg.generation
  {
    hide Proper;
    DropFirstKeeps(c, reg.workers, ByConnection(fd));
    DropAllKeeps(c, reg.workers, es);
  }

  /** A build that succeeds gives the plan a build with a spare connection would give. */
  lemma BuiltIsFresh(c: Local, sort: Sorter, reg: State, dupOk: bool)
    requires c.Valid() && Sorting(sort) && HelloAll(c, reg.workers)
    ensures Fresh(c, sort, reg, dupOk).Built? ==> Fresh(c, sort, reg, true) == Fresh(c, sort, reg, dupOk)
    ensures Fresh(c, sort, reg, true) == Built([]) ==> Fresh(c, sort, reg, dupOk) == Built([])
  {
    var sorted := sort(reg.workers);
    SortedIsSearchable(c, sort, reg.workers);
    if Fresh(c, sort, reg, true) == Built([]) {
      BuiltPlanCovers(c, sorted, true);
    }
  }

  /** Every entry of a fresh plan stands for a registered worker. */
  lemma FreshEntriesAreRegistered(c: Local, sort: Sorter, reg: State, dupOk: bool, k: nat)
    returns (i: nat)
    requires c.Valid() && Sorting(sort) && HelloAll(c, reg.workers)
    requires Fresh(c, sort, reg, dupOk).Built? && k < |Fresh(c, sort, reg, dupOk).entries|
    ensures i < |reg.workers| && Fresh(c, sort, reg, dupOk).entries[k] == EntryOf(reg.workers[i])
  {
    SortedIsSearchable(c, sort, reg.workers);
    var sorted := sort(reg.workers);
    var w := sorted[Path(c, sorted).value[k]];
    SameWorkers(sorted, reg.workers);
    i :| 0 <= i < |reg.workers| && reg.workers[i] == w;
  }

  /** Forgetting a current plan outdates it, unless it needs no worker at all. */
  lemma ForgettingOutdates(c: Local, sort: Sorter, s: Sys)
    requires c.Valid() && Sorting(sort) && Inv(c, sort, s) && Current(s) && s.plan != []
    ensures Forgotten(s.reg, s.plan).generation > s.planGen
  {
    var i := FreshEntriesAreRegistered(c, sort, s.reg, true, 0);
    EntryIsOk(c, s.reg.workers[i]);
    DropAllDrops(c, s.reg.workers, s.plan, i);
  }

  lemma DropNothing(reg: State)
    ensures Forgotten(reg, []) == reg
  {
  }

  lemma StepInv(c: Local, sort: Sorter, s: Sys, e: Event)
    requires c.Valid() && Sorting(sort) && Inv(c, sort, s) && Next(c, sort, s, e).Some?
    ensures Inv(c, sort, Next(c, sort, s, e).value)
  {
    hide Fresh, Added, Removed, Forgotten, HelloOk;
    match e
    case Register(w) =>
      if HelloOk(c, w) {
        AddedIsProper(c, s.reg, w);
      }
    case Leave(fd) =>
      ShrunkIsProper(c, s.reg, fd, []);
    case Build(dupOk) =>
      BuiltIsFresh(c, sort, s.reg, dupOk);
    case Forget =>
      ShrunkIsProper(c, s.reg, 0, s.plan);
      DropNothing(s.reg);
      if Current(s) && s.plan != [] {
        ForgettingOutdates(c, sort, s);
      }
    case ShutDown =>
      FreshIgnoresRest(c, sort, s.reg, s.reg.(shuttingDown := true));
    case _ =>
  }

  lemma FreshIgnoresRest(c: Local, sort: Sorter, a: State, b: State)
    requires c.Valid() && Sorting(sort) && HelloAll(c, a.workers) && a.workers == b.workers
    ensures Fresh(c, sort, a, true) == Fresh(c, sort, b, true)
  {
  }

  // ----- Recovery ------------------------------------------------------------------------

  /** The events that are the session thread's own; all others may happen at any time. */
  predicate OwnEvent(e: Event) {
    !e.Register? && !e.Leave? && !e.ShutDown?
  }

  /** What the session does after an evaluation. A worker's own error keeps the plan, or builds one if
      there is none; any other failure first forgets the workers of the plan and then builds. Either way
      the transcript is replayed next, and the plan counts as ready exactly when that succeeds; without a
      route the session gives up and is left without a plan. */
  lemma RecoveryGoesOn(c: Local, sort: Sorter, s: Sys, e: Event)
    requires c.Valid() && Sorting(sort) && HelloAll(c, s.reg.workers) && OwnEvent(e)
    ensures var t := Next(c, sort, s, e);
            && (s.phase == Using && t.Some? ==>
                  e.Evaluated? && t.value == s.(phase := if e.failed then Recovering(!e.remoteError) else Idle))
            && (s.phase == Recovering(false) && s.plan != [] ==>
                  (t.Some? <==> e == KeepPlan) && (t.Some? ==> t.value == s.(phase := Replaying)))
            && (s.phase == Recovering(true) ==>
                  && (t.Some? <==> e == Forget)
                  && (t.Some? ==> t.value.plan == [] && t.value.phase == Unplanned
                                  && t.value.reg == Forgotten(s.reg, s.plan)))
            && (s.phase == Unplanned || (s.phase == Recovering(false) && s.plan == []) ==>
                  && (t.Some? <==> e.Build?)
                  && (t.Some? ==> t.value.reg == s.reg && (t.value.phase == Replaying || t.value.phase == GivingUp))
                  && (t.Some? && t.value.phase == Replaying ==>
                        Fresh(c, sort, s.reg, e.dupOk) == Built(t.value.plan) && t.value.planGen == s.reg.generation))
            && (s.phase == Replaying ==>
                  && (t.Some? <==> e.Replayed?)
                  && (t.Some? ==> t.value.phase == Idle && t.value.planReady == e.ok && t.value.plan == s.plan
                                  && t.value.planGen == if e.ok then s.planGen else 0))
            && (s.phase == GivingUp ==>
                  && (t.Some? <==> e == GiveUp)
                  && (t.Some? ==> t.value.phase == Idle && !t.value.planReady && t.value.planGen == 0))
  {
    hide Fresh, Forgotten;
  }

  /** What happens on other threads leaves the session's plan and phase alone, and may happen at any time: a
      HELLO that passes its checks enters the registry in front of the registrations it does not replace, a
      connection takes its first worker with it, and a shutdown lets nobody in any more. */
  lemma OthersGoOn(c: Local, sort: Sorter, s: Sys, e: Event)
    requires c.Valid() && Sorting(sort) && Inv(c, sort, s) && !OwnEvent(e)
    ensures Next(c, sort, s, e).Some?
    ensures var t := Next(c, sort, s, e).value;
            var fit := e.Register? && e.w.modelId == c.modelId && e.w.layerStart <= e.w.layerEnd < c.nLayers
                       && (e.w.hasOutput ==> e.w.layerEnd == c.nLayers - 1) && (c.ctxSize == 0 || e.w.ctxSize >= c.ctxSize)
                       && 0 < e.w.port < 65536 && 0 < |e.w.host| < 1025 && 0 !in e.w.host;
            && t == s.(reg := t.reg)
            && (e.Register? && (s.reg.shuttingDown || !fit) ==> t == s)
            && (fit && !s.reg.shuttingDown ==>
                  && t.reg.workers != [] && t.reg.workers[0] == e.w && t.reg.generation > s.reg.generation
                  && forall v :: v in t.reg.workers[1..] <==>
                       && v in s.reg.workers
                       && !(v.host == e.w.host && v.modelId == e.w.modelId && v.layerStart == e.w.layerStart
                            && v.layerEnd == e.w.layerEnd && v.hasOutput == e.w.hasOutput))
            && (e.Leave? && (forall w :: w in s.reg.workers ==> w.fd != e.fd) ==> t == s)
            && (e.Leave? ==> forall i :: 0 <= i < |s.reg.workers| && FirstOn(s.reg.workers, e.fd, i) ==>
                  && t.reg.workers == s.reg.workers[..i] + s.reg.workers[i + 1..]
                  && t.reg.generation > s.reg.generation)
            && (e.ShutDown? ==> t.reg == s.reg.(shuttingDown := true))
            && (s.reg.shuttingDown ==> t.reg.shuttingDown)
  {
    hide Fresh, Without, DropFirst, Same, FirstOn;
    match e
    case Register(w) =>
      WithoutDrops(s.reg.workers, w);
    case Leave(fd) =>
      ConnectionGoes(s.reg.workers, fd);
    case _ =>
  }

  // ----- Whole runs ----------------------------------------------------------------------

  /** s is reached from the initial state by some interleaving of events. */
  ghost predicate RunsTo(c: Local, sort: Sorter, events: seq<Event>, s: Sys)
    requires c.Valid() && Sorting(sort)
    decreases |events|
  {
    if events == [] then s == Init()
    else exists t :: ReachedBy(c, sort, events, t, s)
  }

  ghost predicate ReachedBy(c: Local, sort: Sorter, events: seq<Event>, t: Sys, s: Sys)
    requires c.Valid() && Sorting(sort) && events != []
    decreases |events|, 0
  {
    var n := |events| - 1;
    RunsTo(c, sort, events[..n], t) && HelloAll(c, t.reg.workers) && Next(c, sort, t, events[n]) == Some(s)
  }

  /** Over every interleaving, a plan that is ready and of the current generation is the plan a fresh
      build would give, and no slice is registered twice from the same place. */
  lemma {:induction false} CachedPlanIsFresh(c: Local, sort: Sorter, events: seq<Event>, s: Sys)
    requires c.Valid() && Sorting(sort) && RunsTo(c, sort, events, s)
    ensures Inv(c, sort, s)
    ensures Current(s) ==> Fresh(c, sort, s.reg, true) == Built(s.plan)
    ensures forall i, j :: 0 <= i < j < |s.reg.workers| ==> !Same(s.reg.workers[i], s.reg.workers[j])
    decreases |events|
  {
    hide Fresh, Next, Added, Removed, Forgotten;
    if events != [] {
      var t :| ReachedBy(c, sort, events, t, s);
      var n := |events| - 1;
      CachedPlanIsFresh(c, sort, events[..n], t);
      StepInv(c, sort, t, events[n]);
    }
  }

  /** So whenever the session goes straight to work over its cached plan, the plan covers exactly the
      layers the coordinator leaves out, over workers registered at that moment. */
  lemma CachedPlanIsUsable(c: Local, sort: Sorter, events: seq<Event>, s: Sys)
    requires c.Valid() && Sorting(sort) && RunsTo(c, sort, events, s) && Current(s)
    ensures s.plan == [] <==> c.Alone()
    ensures s.plan != [] ==> Covers(c, c.end + 1, s.plan)
    ensures forall k :: 0 <= k < |s.plan| ==> exists i :: 0 <= i < |s.reg.workers| && s.plan[k] == EntryOf(s.reg.workers[i])
  {
    CachedPlanIsFresh(c, sort, events, s);
    SortedIsSearchable(c, sort, s.reg.workers);
    BuiltPlanCovers(c, sort(s.reg.workers), true);
    forall k | 0 <= k < |s.plan|
      ensures exists i :: 0 <= i < |s.reg.workers| && s.plan[k] == EntryOf(s.reg.workers[i])
    {
      var i := FreshEntriesAreRegistered(c, sort, s.reg, true, k);
    }
  }

  // ----- The session in place ------------------------------------------------------------

  /** What one undisturbed call of ensure_route does: look at the generation, and build when it moved. */
  ghost function Ensured(c: Local, sort: Sorter, s: Sys, dupOk: bool): Sys
    requires c.Valid() && Sorting(sort) && HelloAll(c, s.reg.workers) && s.phase == Idle
  {
    var begun := Next(c, sort, s, Begin).value;
    if begun.phase == Using then begun else Next(c, sort, begun, Build(dupOk)).value
  }

  /** The fields of ds4_dist_session that concern its route. */
  class Session {
    const coordinator: Coordinator
    const plan: Plan
    var planReady: bool
    var planGeneration: nat

    constructor (coordinator: Coordinator)
      ensures this.coordinator == coordinator && fresh(plan) && plan.entries == []
      ensures !planReady && planGeneration == 0
    {
      this.coordinator, planReady, planGeneration := coordinator, false, 0;
      plan := new Plan();
    }

    ghost function View(phase: Phase): Sys
      reads this, coordinator, plan
    {
      Sys(coordinator.Contents(), plan.entries, planReady, planGeneration, phase)
    }

    /** dist_session_ensure_route. */
    method EnsureRoute(c: Local, sort: Sorter, dupOk: bool) returns (ok: bool)
      requires c.Valid() && Sorting(sort) && HelloAll(c, coordinator.workers)
      modifies this, plan
      ensures View(if ok then Using else Idle) == Ensured(c, sort, old(View(Idle)), dupOk)
      ensures var current := old(planReady) && old(planGeneration) == coordinator.generation;
              && (ok <==> current || Fresh(c, sort, coordinator.Contents(), dupOk).Built?)
              && (current ==> plan.entries == old(plan.entries) && plan.blob == old(plan.blob))
              && (ok && !current ==> plan.entries == Fresh(c, sort, coordinator.Contents(), dupOk).entries)
              && (ok ==> planReady && planGeneration == coordinator.generation)
              && (!ok ==> plan.entries == [] && !planReady && planGeneration == 0)
    {
      var generation := coordinator.generation;
      if planReady && planGeneration == generation {
        return true;
      }
      plan.Free();
      var r := plan.Build(c, sort, coordinator.workers, dupOk);
      if !r.Built? {
        planReady, planGeneration := false, 0;
        return false;
      }
      planReady, planGeneration := true, generation;
      return true;
    }
  }
}
