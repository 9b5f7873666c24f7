/** Building a route plan from the registered workers (ds4_distributed.c). */
module RoutePlan {
  import opened Options
  import opened Bytes
  import opened RouteBlob
  import S = RouteSearch

  /** What the coordinator knows about itself and its model. */
  datatype Local = Local(
    nLayers: Word32, start: Word32, end: Word32, hasOutput: bool, canOutputHead: bool,
    modelId: Word32, ctxSize: Word32, controlForWork: bool)
  {
    predicate Valid() {
      start <= end < nLayers
    }

    function Last(): nat
      requires Valid()
    {
      nLayers - 1
    }

    /** The coordinator evaluates every layer and the output head itself. */
    predicate Alone()
      requires Valid()
    {
      end == Last() && (hasOutput || canOutputHead)
    }
  }

  /** The fields of a registered worker that its HELLO must get right. */
  predicate HelloOk(c: Local, w: S.Worker) {
    && w.modelId == c.modelId
    && w.layerStart <= w.layerEnd < c.nLayers
    && (w.hasOutput ==> w.layerEnd + 1 == c.nLayers)
    && (c.ctxSize != 0 ==> c.ctxSize <= w.ctxSize)
    && 1 <= w.port <= 65535
    && HostOk(w.host)
  }

  ghost predicate HelloAll(c: Local, ws: seq<S.Worker>) {
    forall i :: 0 <= i < |ws| ==> HelloOk(c, ws[i])
  }

  // ----- Sorting -------------------------------------------------------------------------

  /** dist_worker_route_cmp orders by start, then workers with the head, then longest slice. */
  predicate Before(a: S.Worker, b: S.Worker) {
    || a.layerStart < b.layerStart
    || (a.layerStart == b.layerStart &&
        ((a.hasOutput && !b.hasOutput) || (a.hasOutput == b.hasOutput && a.layerEnd > b.layerEnd)))
  }

  /** One order qsort may leave the workers in: entries that compare equal may stand either way. */
  ghost predicate Sorts(sort: seq<S.Worker> -> seq<S.Worker>, ws: seq<S.Worker>) {
    && multiset(sort(ws)) == multiset(ws)
    && forall i, j :: 0 <= i < j < |sort(ws)| ==> !Before(sort(ws)[j], sort(ws)[i])
  }

  /** The comparison is a strict order of the three fields it looks at, whatever else a worker carries. */
  lemma BeforeIsAnOrder(a: S.Worker, b: S.Worker, d: S.Worker)
    ensures !(Before(a, b) && Before(b, a))
    ensures Before(a, b) && Before(b, d) ==> Before(a, d)
    ensures Before(a, b) || Before(b, a)
       <==> (a.layerStart, a.hasOutput, a.layerEnd) != (b.layerStart, b.hasOutput, b.layerEnd)
  {
  }

  ghost predicate Ordered(ws: seq<S.Worker>) {
    forall i, j :: 0 <= i < j < |ws| ==> !Before(ws[j], ws[i])
  }

  function Inserted(w: S.Worker, ws: seq<S.Worker>): seq<S.Worker> {
    if ws != [] && Before(ws[0], w) then [ws[0]] + Inserted(w, ws[1..]) else [w] + ws
  }

  function InsertionSort(ws: seq<S.Worker>): seq<S.Worker> {
    if ws == [] then [] else Inserted(ws[0], InsertionSort(ws[1..]))
  }

  lemma {:induction false} InsertedHolds(w: S.Worker, ws: seq<S.Worker>)
    ensures multiset(Inserted(w, ws)) == multiset{w} + multiset(ws)
  {
    hide Before;
    if ws != [] {
      assert ws == [ws[0]] + ws[1..];
      InsertedHolds(w, ws[1..]);
    }
  }

  lemma PutInFront(x: S.Worker, ws: seq<S.Worker>)
    requires Ordered(ws) && forall k :: 0 <= k < |ws| ==> !Before(ws[k], x)
    ensures Ordered([x] + ws)
  {
    hide Before;
  }

  /** What comes before neither comes before a third. */
  lemma NotBeforeEither(a: S.Worker, b: S.Worker, d: S.Worker)
    requires !Before(a, b) && !Before(b, d)
    ensures !Before(a, d)
  {
  }

  lemma {:induction false} InsertedKeeps(w: S.Worker, ws: seq<S.Worker>)
    requires Ordered(ws)
    ensures Ordered(Inserted(w, ws))
  {
    hide Before;
    if ws != [] && Before(ws[0], w) {
      var rest := Inserted(w, ws[1..]);
      InsertedKeeps(w, ws[1..]);
      InsertedHolds(w, ws[1..]);
      BeforeIsAnOrder(ws[0], w, w);
      forall k | 0 <= k < |rest|
        ensures !Before(rest[k], ws[0])
      {
        assert rest[k] in multiset(rest);
        assert rest[k] == w || rest[k] in ws[1..];
      }
      PutInFront(ws[0], rest);
    } else {
      forall k | 0 <= k < |ws|
        ensures !Before(ws[k], w)
      {
        if k > 0 {
          NotBeforeEither(ws[k], ws[0], w);
        }
      }
      PutInFront(w, ws);
    }
  }

  /** There is an order qsort may leave the workers in, whoever they are. */
  lemma {:induction false} SortExists(ws: seq<S.Worker>)
    ensures Sorts(InsertionSort, ws)
  {
    hide Inserted, Before;
    if ws != [] {
      SortExists(ws[1..]);
      assert ws == [ws[0]] + ws[1..];
      assert Ordered(InsertionSort(ws[1..]));
      InsertedKeeps(ws[0], InsertionSort(ws[1..]));
      InsertedHolds(ws[0], InsertionSort(ws[1..]));
      assert Ordered(InsertionSort(ws));
    }
  }

  lemma SortedIsSearchable(c: Local, sort: seq<S.Worker> -> seq<S.Worker>, ws: seq<S.Worker>)
    requires Sorts(sort, ws) && HelloAll(c, ws)
    ensures HelloAll(c, sort(ws)) && S.Searchable(sort(ws)) && |sort(ws)| == |ws|
  {
    var s := sort(ws);
    assert |s| == |multiset(s)| == |multiset(ws)| == |ws|;
    forall i | 0 <= i < |s|
      ensures HelloOk(c, s[i])
    {
      assert s[i] in multiset(s);
    }
    forall i, j | 0 <= i < j < |s|
      ensures s[i].layerStart <= s[j].layerStart
    {
      assert !Before(s[j], s[i]);
    }
  }

  // ----- The plan a registry gives -------------------------------------------------------

  datatype PlanResult =
    | Built(entries: seq<RouteEntry>)
    | NotAtLayerZero
    | MissingLayer(layer: nat)
    | NoConnection
    | PayloadTooLarge

  function EntryOf(w: S.Worker): RouteEntry {
    RouteEntry(w.host, w.port, w.layerStart, w.layerEnd, if w.hasOutput then F_OUTPUT_LOGITS else 0)
  }

  function PathEntries(ws: seq<S.Worker>, p: seq<nat>): (es: seq<RouteEntry>)
    requires forall k :: 0 <= k < |p| ==> p[k] < |ws|
    ensures |es| == |p|
  {
    seq(|p|, k requires 0 <= k < |p| => EntryOf(ws[p[k]]))
  }

  lemma {:induction false} ChainInRange(localHead: bool, ws: seq<S.Worker>, next: nat, last: nat, p: seq<nat>)
    requires S.Chain(localHead, ws, next, last, p)
    ensures forall k :: 0 <= k < |p| ==> p[k] < |ws|
    decreases |p|
  {
    if |p| > 1 {
      ChainInRange(localHead, ws, ws[p[0]].layerEnd + 1, last, p[1..]);
      assert forall k :: 1 <= k < |p| ==> p[k] == p[1..][k - 1];
    }
  }

  /** The path over the sorted workers that a build uses. */
  function Path(c: Local, sorted: seq<S.Worker>): (r: Option<seq<nat>>)
    requires c.Valid() && S.Searchable(sorted)
    ensures r.Some? ==> S.Chain(c.canOutputHead, sorted, c.end + 1, c.Last(), r.value)
    ensures r.Some? ==> r.value != [] && forall k :: 0 <= k < |r.value| ==> r.value[k] < |sorted|
  {
    var r := S.Find(c.canOutputHead, sorted, 0, c.end + 1, c.Last());
    S.FoundIsChain(c.canOutputHead, sorted, 0, c.end + 1, c.Last());
    if r.Some? then ChainInRange(c.canOutputHead, sorted, c.end + 1, c.Last(), r.value); r else r
  }

  /** What a build from these workers returns; dupOk says whether the first hop's connection can be
      duplicated. */
  function FreshPlan(c: Local, sorted: seq<S.Worker>, dupOk: bool): PlanResult
    requires c.Valid() && S.Searchable(sorted) && HelloAll(c, sorted)
  {
    if c.start != 0 then NotAtLayerZero
    else if c.Alone() then Built([])
    else
      match Path(c, sorted)
      case None => MissingLayer(S.Missing(c.canOutputHead, sorted, 0, c.end + 1, c.Last()))
      case Some(p) =>
        var es := PathEntries(sorted, p);
        if c.controlForWork && !dupOk then NoConnection
        else if |Blob(es)| > WORD_MAX then PayloadTooLarge
        else Built(es)
  }

  // ----- What a plan guarantees ----------------------------------------------------------

  /** The entries run from layer next to the last layer without gap or overlap. */
  ghost predicate Covers(c: Local, next: nat, es: seq<RouteEntry>)
    requires c.Valid()
  {
    && es != []
    && es[0].layerStart == next
    && WellFormed(es, c.nLayers)
    && es[|es| - 1].layerEnd == c.Last()
    && (forall k :: 0 <= k < |es| - 1 ==> es[k].layerEnd < c.Last())
    && (OutputFlag(es[|es| - 1]) || c.canOutputHead)
  }

  lemma EntryIsOk(c: Local, w: S.Worker)
    requires HelloOk(c, w)
    ensures EntryOk(EntryOf(w), c.nLayers) && OutputFlag(EntryOf(w)) == w.hasOutput
  {
  }

  lemma {:induction false} ChainCovers(c: Local, ws: seq<S.Worker>, next: nat, p: seq<nat>)
    requires c.Valid() && HelloAll(c, ws) && S.Chain(c.canOutputHead, ws, next, c.Last(), p)
    requires forall k :: 0 <= k < |p| ==> p[k] < |ws|
    ensures Covers(c, next, PathEntries(ws, p))
    decreases |p|
  {
    var es := PathEntries(ws, p);
    EntryIsOk(c, ws[p[0]]);
    assert es[0] == EntryOf(ws[p[0]]);
    if |p| > 1 {
      ChainCovers(c, ws, ws[p[0]].layerEnd + 1, p[1..]);
      assert es == [es[0]] + PathEntries(ws, p[1..]);
    }
  }

  /** A built plan that needs workers covers exactly the layers after the coordinator's own, and
      every worker that evaluates it will accept its description. */
  lemma BuiltPlanCovers(c: Local, sorted: seq<S.Worker>, dupOk: bool)
    requires c.start <= c.end < c.nLayers && S.Searchable(sorted) && HelloAll(c, sorted)
    requires FreshPlan(c, sorted, dupOk).Built?
    ensures var es := FreshPlan(c, sorted, dupOk).entries;
            && c.start == 0
            && (es == [] <==> c.Alone())
            && (es != [] ==> Covers(c, c.end + 1, es) && IsRoute(Blob(es), |es|, c.nLayers, es))
  {
    if !c.Alone() {
      ChainCovers(c, sorted, c.end + 1, Path(c, sorted).value);
    }
  }

  /** Entry e names worker w: where it listens, what it holds, and whether it has the head. */
  predicate Names(e: RouteEntry, w: S.Worker) {
    && e.host == w.host && e.port == w.port
    && e.layerStart == w.layerStart && e.layerEnd == w.layerEnd
    && e.flags == if w.hasOutput then 1 else 0
  }

  ghost predicate NamesPath(es: seq<RouteEntry>, ws: seq<S.Worker>, p: seq<nat>) {
    |es| == |p| && forall k :: 0 <= k < |p| ==> p[k] < |ws| && Names(es[k], ws[p[k]])
  }

  /** A route over these workers for the layers that the coordinator leaves. */
  ghost predicate RouteFor(c: Local, ws: seq<S.Worker>, p: seq<nat>) {
    c.nLayers > 0 && S.Usable(c.canOutputHead, ws, c.end + 1, c.nLayers - 1, p)
  }

  /** Every outcome of a build, told from the coordinator's slice and the workers' fields: a coordinator
      that does not begin with layer 0 has no plan, one that does everything needs no worker, and
      otherwise the plan names the workers of a route over which hidden states can be handed on, if there
      is one, a connection to its first worker can be had, and its description fits a frame. */
  lemma PlanMeans(c: Local, sorted: seq<S.Worker>, dupOk: bool)
    requires c.Valid() && S.Searchable(sorted) && HelloAll(c, sorted)
    ensures var r := FreshPlan(c, sorted, dupOk);
            var alone := c.end == c.nLayers - 1 && (c.hasOutput || c.canOutputHead);
            var connected := c.controlForWork ==> dupOk;
            && (r.NotAtLayerZero? <==> c.start != 0)
            && (c.start == 0 ==> (r == Built([]) <==> alone))
            && (c.start == 0 && !alone ==> (r.MissingLayer? <==> forall p :: !RouteFor(c, sorted, p)))
            && (r.NoConnection? ==> !connected)
            && (r.PayloadTooLarge? || (r.Built? && r.entries != []) ==> connected)
            && (r.Built? && r.entries != [] ==> exists p :: RouteFor(c, sorted, p) && NamesPath(r.entries, sorted, p))
            && (r.Built? && r.entries != [] ==> Texts(r.entries) && |Blob(r.entries)| <= 0xFFFF_FFFF)
            && (r.PayloadTooLarge? ==> exists es, p ::
                  RouteFor(c, sorted, p) && NamesPath(es, sorted, p) && Texts(es) && |Blob(es)| > 0xFFFF_FFFF)
  {
    hide S.Find, S.Missing, S.Usable, EncodeAll, EncodeReturn;
    S.FindsTheFirstUsable(c.canOutputHead, sorted, c.end + 1, c.nLayers - 1);
    if c.start == 0 && !c.Alone() && Path(c, sorted).Some? {
      var p := Path(c, sorted).value;
      assert RouteFor(c, sorted, p) && NamesPath(PathEntries(sorted, p), sorted, p);
      PathTexts(c, sorted, p);
    }
  }

  /** Of all routes the plan takes one that is best where it first differs from another: that other one
      goes on there with a worker that starts at the same layer and neither has the head where the plan's
      has not, nor, alike in that, reaches further. */
  lemma PlanPrefersHeadThenReach(
    c: Local, sort: seq<S.Worker> -> seq<S.Worker>, ws: seq<S.Worker>, q: seq<nat>) returns (k: nat)
    requires c.Valid() && Sorts(sort, ws) && HelloAll(c, ws) && S.Searchable(sort(ws))
    requires Path(c, sort(ws)).Some? && RouteFor(c, sort(ws), q) && q != Path(c, sort(ws)).value
    ensures var (sorted, p) := (sort(ws), Path(c, sort(ws)).value);
            && k < |p| && k < |q| && p[..k] == q[..k] && p[k] < |sorted| && q[k] < |sorted|
            && var (a, b) := (sorted[p[k]], sorted[q[k]]);
            && a.layerStart == b.layerStart
            && !(b.hasOutput && !a.hasOutput)
            && !(a.hasOutput == b.hasOutput && b.layerEnd > a.layerEnd)
  {
    hide S.Find, S.Missing, S.Searchable, S.Usable;
    var (sorted, p) := (sort(ws), Path(c, sort(ws)).value);
    S.FindsTheFirstUsable(c.canOutputHead, sorted, c.end + 1, c.nLayers - 1);
    var at: int :| S.EarlierAt(p, q, at);
    k := at;
    SameStart(c, sorted, p, q, k);
    assert !Before(sorted[q[k]], sorted[p[k]]);
  }

  /** Where two routes first differ, they go on from the same layer. */
  lemma SameStart(c: Local, ws: seq<S.Worker>, p: seq<nat>, q: seq<nat>, k: nat)
    requires RouteFor(c, ws, p) && RouteFor(c, ws, q) && S.EarlierAt(p, q, k)
    ensures p[k] < |ws| && q[k] < |ws| && ws[p[k]].layerStart == ws[q[k]].layerStart
  {
    if k > 0 {
      assert p[k - 1] == p[..k][k - 1] == q[..k][k - 1] == q[k - 1];
    }
  }

  /** p is a chain of these workers over the layers the coordinator does not evaluate. */
  ghost predicate Reaches(c: Local, ws: seq<S.Worker>, p: seq<nat>)
    requires c.Valid()
  {
    S.Chain(c.canOutputHead, ws, c.end + 1, c.Last(), p)
  }

  ghost predicate LeadsUpTo(c: Local, ws: seq<S.Worker>, p: seq<nat>, layer: nat)
    requires c.Valid()
  {
    S.Partial(c.canOutputHead, ws, c.end + 1, c.Last(), p) && S.Frontier(ws, c.end + 1, p) == layer
  }

  ghost predicate Furthest(c: Local, ws: seq<S.Worker>, layer: nat)
    requires c.Valid()
  {
    && (exists p :: LeadsUpTo(c, ws, p, layer))
    && (forall p, l: nat :: LeadsUpTo(c, ws, p, l) ==> l <= layer)
  }

  /** Whether a route is missing does not depend on how ties are sorted: it is missing exactly when
      the registered workers hold no chain, and the layer reported is the furthest one that a
      partial chain of registered workers leads up to. */
  lemma MissingIsAboutTheRegistry(c: Local, sort: seq<S.Worker> -> seq<S.Worker>, ws: seq<S.Worker>, dupOk: bool)
    requires c.Valid() && c.start == 0 && !c.Alone() && Sorts(sort, ws) && HelloAll(c, ws)
    ensures S.Searchable(sort(ws)) && HelloAll(c, sort(ws))
    ensures var r := FreshPlan(c, sort(ws), dupOk);
            && (r.MissingLayer? <==> forall p :: !Reaches(c, ws, p))
            && (r.MissingLayer? ==> Furthest(c, ws, r.layer))
  {
    hide S.Searchable, S.Find, S.Missing, S.Chain, HelloOk, Furthest;
    SortedIsSearchable(c, sort, ws);
    var sorted := sort(ws);
    SameWorkers(ws, sorted);
    S.FindsTheFirstChain(c.canOutputHead, sorted, c.end + 1, c.Last());
    var r := FreshPlan(c, sorted, dupOk);
    if p :| Reaches(c, ws, p) {
      var q := S.MoveChain(c.canOutputHead, ws, sorted, c.end + 1, c.Last(), p);
    }
    if !r.MissingLayer? {
      var q := S.MoveChain(c.canOutputHead, sorted, ws, c.end + 1, c.Last(), Path(c, sorted).value);
      assert Reaches(c, ws, q);
    } else {
      FrontierIsAboutTheRegistry(c, ws, sorted);
    }
  }

  lemma SameWorkers(ws: seq<S.Worker>, vs: seq<S.Worker>)
    requires multiset(ws) == multiset(vs)
    ensures S.Within(ws, vs) && S.Within(vs, ws)
  {
    forall w: S.Worker
      ensures w in ws <==> w in vs
    {
      assert w in ws <==> w in multiset(ws);
      assert w in vs <==> w in multiset(vs);
    }
  }

  lemma FrontierIsAboutTheRegistry(c: Local, ws: seq<S.Worker>, sorted: seq<S.Worker>)
    requires c.Valid() && S.Searchable(sorted) && S.Within(ws, sorted) && S.Within(sorted, ws)
    requires S.Find(c.canOutputHead, sorted, 0, c.end + 1, c.Last()).None?
    ensures Furthest(c, ws, S.Missing(c.canOutputHead, sorted, 0, c.end + 1, c.Last()))
  {
    var next, last := c.end + 1, c.Last();
    S.MissingIsFurthestFrontier(c.canOutputHead, sorted, next, last);
    forall p, l: nat | LeadsUpTo(c, ws, p, l)
      ensures l <= S.Missing(c.canOutputHead, sorted, 0, next, last)
    {
      var q := S.MovePartial(c.canOutputHead, ws, sorted, next, last, p);
    }
    var p := S.FrontierReached(c.canOutputHead, sorted, 0, next, last);
    var q := S.MovePartial(c.canOutputHead, sorted, ws, next, last, p);
    assert LeadsUpTo(c, ws, q, S.Missing(c.canOutputHead, sorted, 0, next, last));
  }

  // ----- The plan in place ---------------------------------------------------------------

  /** ds4_dist_route_plan. */
  class Plan {
    var entries: seq<RouteEntry>
    var blob: seq<Byte>

    constructor ()
      ensures entries == [] && blob == []
    {
      entries, blob := [], [];
    }

    method Free()
      modifies this
      ensures entries == [] && blob == []
    {
      entries, blob := [], [];
    }

    /** dist_route_plan_append_blob. */
    method AppendBlob(entry: RouteEntry) returns (ok: bool)
      requires |blob| <= WORD_MAX
      modifies this`blob
      ensures ok <==> 0 < |entry.host| < NI_MAXHOST && old(|blob|) + Size(entry) <= WORD_MAX
      ensures blob == if ok then old(blob) + EncodeEntry(entry) else old(blob)
    {
      if |entry.host| == 0 || |entry.host| >= NI_MAXHOST {
        return false;
      }
      var add := ENTRY_BYTES + |entry.host|;
      if add > WORD_MAX || |blob| > WORD_MAX - add {
        return false;
      }
      blob := blob + EncodeEntry(entry);
      return true;
    }

    /** dist_route_plan_append_return_upstream. */
    method AppendReturnUpstream() returns (ok: bool)
      requires |blob| <= WORD_MAX
      modifies this`blob
      ensures ok <==> old(|blob|) + RETURN_BYTES <= WORD_MAX
      ensures blob == if ok then old(blob) + EncodeReturn(UPSTREAM) else old(blob)
    {
      if |blob| > WORD_MAX - RETURN_BYTES {
        return false;
      }
      blob := blob + EncodeReturn(UPSTREAM);
      return true;
    }

    /** The loop of dist_coordinator_build_route_plan over the path found. */
    method AppendPath(c: Local, sorted: seq<S.Worker>, path: seq<nat>, dupOk: bool) returns (failed: Option<PlanResult>)
      requires HelloAll(c, sorted) && path != [] && entries == [] && blob == []
      requires forall k :: 0 <= k < |path| ==> path[k] < |sorted|
      modifies this
      ensures Texts(PathEntries(sorted, path))
      ensures failed == if c.controlForWork && !dupOk then Some(NoConnection)
                        else if |EncodeAll(PathEntries(sorted, path))| > WORD_MAX then Some(PayloadTooLarge)
                        else None
      ensures failed.None? ==> entries == PathEntries(sorted, path) && blob == EncodeAll(entries)
      ensures failed.Some? ==> entries == [] && blob == []
    {
      hide EncodeAll, EncodeEntry;
      ghost var es := PathEntries(sorted, path);
      PathTexts(c, sorted, path);
      EncodeNothing();
      var i := 0;
      while i < |path|
        invariant 0 <= i <= |path|
        invariant entries == es[..i] && blob == EncodeAll(entries) && |blob| <= WORD_MAX
        invariant i > 0 ==> !c.controlForWork || dupOk
      {
        var entry := EntryOf(sorted[path[i]]);
        if c.controlForWork && |entries| == 0 && !dupOk {
          Free();
          return Some(NoConnection);
        }
        EncodeStep(es, i);
        entries := entries + [entry];
        var ok := AppendBlob(entry);
        if !ok {
          EncodeGrows(es, i + 1);
          Free();
          return Some(PayloadTooLarge);
        }
        i := i + 1;
      }
      assert es[..i] == es;
      failed := None;
    }

    /** dist_coordinator_build_route_plan: the plan holds the entries of the fresh plan and their
        encoding, and nothing when the build fails. */
    method Build(c: Local, sort: seq<S.Worker> -> seq<S.Worker>, workers: seq<S.Worker>, dupOk: bool)
      returns (r: PlanResult)
      requires c.Valid() && Sorts(sort, workers) && HelloAll(c, workers)
      modifies this
      ensures S.Searchable(sort(workers)) && HelloAll(c, sort(workers))
      ensures r == FreshPlan(c, sort(workers), dupOk)
      ensures entries == if r.Built? then r.entries else []
      ensures Texts(entries) && blob == if entries == [] then [] else Blob(entries)
    {
      hide EncodeAll, EncodeEntry, EncodeReturn, Sorts, HelloAll, S.Searchable, S.Find, S.Missing, S.Chain;
      entries, blob := [], [];
      SortedIsSearchable(c, sort, workers);
      var sorted := sort(workers);
      var last := c.nLayers - 1;
      if c.start != 0 {
        return NotAtLayerZero;
      }
      if c.end == last && (c.hasOutput || c.canOutputHead) {
        return Built([]);
      }
      var next := c.end + 1;
      var searcher := new S.Searcher(|sorted|);
      var found, missing := searcher.Search(c.canOutputHead, sorted, next, last, next);
      if !found {
        return MissingLayer(missing);
      }
      var path := searcher.path[..searcher.pathLen];
      assert path == Path(c, sorted).value;
      var failed := AppendPath(c, sorted, path, dupOk);
      if failed.Some? {
        return failed.value;
      }
      var ok := AppendReturnUpstream();
      if !ok {
        Free();
        return PayloadTooLarge;
      }
      return Built(entries);
    }
  }

  lemma PathTexts(c: Local, ws: seq<S.Worker>, p: seq<nat>)
    requires HelloAll(c, ws) && forall k :: 0 <= k < |p| ==> p[k] < |ws|
    ensures forall k :: 0 <= k < |p| ==> HostOk(PathEntries(ws, p)[k].host)
  {
    forall k | 0 <= k < |p|
      ensures HostOk(PathEntries(ws, p)[k].host)
    {
      assert HelloOk(c, ws[p[k]]);
    }
  }

  lemma EncodeStep(es: seq<RouteEntry>, i: nat)
    requires Texts(es) && i < |es|
    ensures es[..i + 1] == es[..i] + [es[i]]
    ensures EncodeAll(es[..i + 1]) == EncodeAll(es[..i]) + EncodeEntry(es[i])
  {
    EncodeAllAppend(es[..i], [es[i]]);
    EncodeOne(es[i]);
  }

  lemma EncodeGrows(es: seq<RouteEntry>, i: nat)
    requires Texts(es) && i <= |es|
    ensures |EncodeAll(es[..i])| <= |EncodeAll(es)|
  {
    EncodeAllAppend(es[..i], es[i..]);
    assert es == es[..i] + es[i..];
  }
}
