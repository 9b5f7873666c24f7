/** The coordinator's search for a chain of workers that covers the layers after its own slice
    (ds4_distributed.c). */
module RouteSearch {
  import opened Options
  import opened Bytes

  /** The fields of a registered worker that routing looks at; fd stands for its connection. */
  datatype Worker = Worker(
    fd: int, host: seq<Byte>, port: Word32, modelId: Word32,
    layerStart: Word32, layerEnd: Word32, hasOutput: bool, hasHidden: bool, ctxSize: Word32)

  /** dist_worker_route_candidate_ok. */
  predicate CandidateOk(localHead: bool, w: Worker, last: nat) {
    var needsHidden := w.layerEnd < last || !w.hasOutput;
    && (needsHidden ==> w.hasHidden)
    && (w.layerEnd >= last && !w.hasOutput ==> localHead)
  }

  /** What the HELLO checks leave of a layer range, and the order qsort leaves behind. */
  ghost predicate Searchable(ws: seq<Worker>) {
    && (forall i :: 0 <= i < |ws| ==> ws[i].layerStart <= ws[i].layerEnd)
    && (forall i, j :: 0 <= i < j < |ws| ==> ws[i].layerStart <= ws[j].layerStart)
  }

  // ----- Chains --------------------------------------------------------------------------

  /** Worker p[0] can take over at layer next. */
  predicate Starts(localHead: bool, ws: seq<Worker>, next: nat, last: nat, p: seq<nat>) {
    p != [] && p[0] < |ws| && ws[p[0]].layerStart == next && CandidateOk(localHead, ws[p[0]], last)
  }

  /** p is a contiguous chain of admissible workers from layer next up to layer last. */
  predicate Chain(localHead: bool, ws: seq<Worker>, next: nat, last: nat, p: seq<nat>)
    decreases |p|
  {
    && Starts(localHead, ws, next, last, p)
    && if |p| == 1 then ws[p[0]].layerEnd >= last
       else ws[p[0]].layerEnd < last && Chain(localHead, ws, ws[p[0]].layerEnd + 1, last, p[1..])
  }

  /** p leads from layer next over admissible workers that each stop short of layer last. */
  predicate Partial(localHead: bool, ws: seq<Worker>, next: nat, last: nat, p: seq<nat>)
    decreases |p|
  {
    p == [] ||
    (&& Starts(localHead, ws, next, last, p)
     && ws[p[0]].layerEnd < last
     && Partial(localHead, ws, ws[p[0]].layerEnd + 1, last, p[1..]))
  }

  /** The first layer that partial chain p does not reach. */
  function Frontier(ws: seq<Worker>, next: nat, p: seq<nat>): nat
    decreases |p|
  {
    if p == [] || p[0] >= |ws| then next else Frontier(ws, ws[p[0]].layerEnd + 1, p[1..])
  }

  /** p comes before q in the order the search tries chains. */
  predicate LexLess(p: seq<nat>, q: seq<nat>) {
    p != [] && q != [] && (p[0] < q[0] || (p[0] == q[0] && LexLess(p[1..], q[1..])))
  }

  // ----- The search as a function --------------------------------------------------------

  /** The chain found among workers i, i + 1, ... */
  function Find(localHead: bool, ws: seq<Worker>, i: nat, next: nat, last: nat): Option<seq<nat>>
    requires Searchable(ws)
    decreases last + 1 - next, |ws| - i
  {
    if i >= |ws| || ws[i].layerStart > next then None
    else if ws[i].layerStart < next || !CandidateOk(localHead, ws[i], last) then
      Find(localHead, ws, i + 1, next, last)
    else if ws[i].layerEnd >= last then Some([i])
    else
      match Find(localHead, ws, 0, ws[i].layerEnd + 1, last)
      case Some(p) => Some([i] + p)
      case None => Find(localHead, ws, i + 1, next, last)
  }

  function Max(a: nat, b: nat): nat {
    if a > b then a else b
  }

  /** The missing layer reported when workers i, i + 1, ... lead nowhere. */
  function Missing(localHead: bool, ws: seq<Worker>, i: nat, next: nat, last: nat): (m: nat)
    requires Searchable(ws)
    ensures m >= next
    decreases last + 1 - next, |ws| - i
  {
    if i >= |ws| || ws[i].layerStart > next then next
    else if ws[i].layerStart < next || !CandidateOk(localHead, ws[i], last) || ws[i].layerEnd >= last then
      Missing(localHead, ws, i + 1, next, last)
    else
      Max(Missing(localHead, ws, 0, ws[i].layerEnd + 1, last), Missing(localHead, ws, i + 1, next, last))
  }

  /** One worker passed over. */
  lemma SkipWorker(localHead: bool, ws: seq<Worker>, i: nat, next: nat, last: nat)
    requires Searchable(ws) && i < |ws|
    requires ws[i].layerStart < next || (ws[i].layerStart == next && !CandidateOk(localHead, ws[i], last))
    ensures Find(localHead, ws, i, next, last) == Find(localHead, ws, i + 1, next, last)
    ensures Missing(localHead, ws, i, next, last) == Missing(localHead, ws, i + 1, next, last)
  {
  }

  /** No worker left, or none left that starts early enough. */
  lemma NoWorker(localHead: bool, ws: seq<Worker>, i: nat, next: nat, last: nat)
    requires Searchable(ws) && (i >= |ws| || ws[i].layerStart > next)
    ensures Find(localHead, ws, i, next, last).None? && Missing(localHead, ws, i, next, last) == next
  {
  }

  /** A worker that can take over, with what follows it. */
  lemma TryWorker(localHead: bool, ws: seq<Worker>, i: nat, next: nat, last: nat)
    requires Searchable(ws) && i < |ws| && ws[i].layerStart == next && CandidateOk(localHead, ws[i], last)
    ensures ws[i].layerEnd >= last ==> Find(localHead, ws, i, next, last) == Some([i])
    ensures ws[i].layerEnd < last ==>
              var child := Find(localHead, ws, 0, ws[i].layerEnd + 1, last);
              && Find(localHead, ws, i, next, last)
                 == (if child.Some? then Some([i] + child.value) else Find(localHead, ws, i + 1, next, last))
              && Missing(localHead, ws, i, next, last)
                 == Max(Missing(localHead, ws, 0, ws[i].layerEnd + 1, last), Missing(localHead, ws, i + 1, next, last))
  {
    hide CandidateOk;
  }

  // ----- What the search returns ---------------------------------------------------------

  /** A found path is a chain. */
  lemma {:induction false} FoundIsChain(localHead: bool, ws: seq<Worker>, i: nat, next: nat, last: nat)
    requires Searchable(ws) && next <= last + 1
    ensures var r := Find(localHead, ws, i, next, last);
            r.Some? ==> Chain(localHead, ws, next, last, r.value) && r.value[0] >= i
    decreases last + 1 - next, |ws| - i
  {
    if i >= |ws| || ws[i].layerStart > next {
    } else if ws[i].layerStart < next || !CandidateOk(localHead, ws[i], last) {
      FoundIsChain(localHead, ws, i + 1, next, last);
    } else if ws[i].layerEnd < last {
      FoundIsChain(localHead, ws, 0, ws[i].layerEnd + 1, last);
      FoundIsChain(localHead, ws, i + 1, next, last);
      match Find(localHead, ws, 0, ws[i].layerEnd + 1, last)
      case Some(p) => assert ([i] + p)[1..] == p;
      case None =>
    }
  }

  /** No chain comes before the found path, and none exists when nothing is found. */
  lemma {:induction false} NoEarlierChain(
    localHead: bool, ws: seq<Worker>, i: nat, next: nat, last: nat, q: seq<nat>)
    requires Searchable(ws) && next <= last + 1
    requires Chain(localHead, ws, next, last, q) && q[0] >= i
    ensures var r := Find(localHead, ws, i, next, last); r.Some? && (r.value == q || LexLess(r.value, q))
    decreases last + 1 - next, |ws| - i
  {
    if ws[i].layerStart < next || !CandidateOk(localHead, ws[i], last) {
      NoEarlierChain(localHead, ws, i + 1, next, last, q);
    } else if ws[i].layerEnd >= last {
      assert q[0] == i ==> q == [i];
    } else {
      var rest := Find(localHead, ws, 0, ws[i].layerEnd + 1, last);
      if q[0] == i {
        NoEarlierChain(localHead, ws, 0, ws[i].layerEnd + 1, last, q[1..]);
        assert q == [i] + q[1..];
        assert ([i] + rest.value)[1..] == rest.value;
      } else if rest.None? {
        NoEarlierChain(localHead, ws, i + 1, next, last, q);
      }
    }
  }

  /** The search succeeds exactly when some chain exists, and then returns the first one. */
  lemma FindsTheFirstChain(localHead: bool, ws: seq<Worker>, next: nat, last: nat)
    requires Searchable(ws) && next <= last + 1
    ensures var r := Find(localHead, ws, 0, next, last);
            && ((exists q :: Chain(localHead, ws, next, last, q)) ==> r.Some?)
            && (r.Some? ==> Chain(localHead, ws, next, last, r.value))
            && (r.Some? ==> forall q :: Chain(localHead, ws, next, last, q) ==> r.value == q || LexLess(r.value, q))
  {
    FoundIsChain(localHead, ws, 0, next, last);
    forall q | Chain(localHead, ws, next, last, q)
      ensures var r := Find(localHead, ws, 0, next, last); r.Some? && (r.value == q || LexLess(r.value, q))
    {
      NoEarlierChain(localHead, ws, 0, next, last, q);
    }
    if q :| Chain(localHead, ws, next, last, q) {
      NoEarlierChain(localHead, ws, 0, next, last, q);
    }
  }

  /** No partial chain gets past the reported layer. */
  lemma {:induction false} NoFurtherFrontier(
    localHead: bool, ws: seq<Worker>, i: nat, next: nat, last: nat, p: seq<nat>)
    requires Searchable(ws) && next <= last + 1 && Find(localHead, ws, i, next, last).None?
    requires Partial(localHead, ws, next, last, p) && (p != [] ==> p[0] >= i)
    ensures Frontier(ws, next, p) <= Missing(localHead, ws, i, next, last)
    decreases last + 1 - next, |ws| - i
  {
    if p == [] || i >= |ws| || ws[i].layerStart > next {
    } else if ws[i].layerStart < next || !CandidateOk(localHead, ws[i], last) {
      NoFurtherFrontier(localHead, ws, i + 1, next, last, p);
    } else if p[0] == i {
      NoFurtherFrontier(localHead, ws, 0, ws[i].layerEnd + 1, last, p[1..]);
    } else {
      NoFurtherFrontier(localHead, ws, i + 1, next, last, p);
    }
  }

  /** Some partial chain gets as far as the reported layer. */
  lemma {:induction false} FrontierReached(localHead: bool, ws: seq<Worker>, i: nat, next: nat, last: nat)
    returns (p: seq<nat>)
    requires Searchable(ws) && next <= last + 1 && Find(localHead, ws, i, next, last).None?
    ensures Partial(localHead, ws, next, last, p) && (p != [] ==> p[0] >= i)
    ensures Frontier(ws, next, p) == Missing(localHead, ws, i, next, last)
    decreases last + 1 - next, |ws| - i
  {
    hide CandidateOk;
    if i >= |ws| || ws[i].layerStart > next {
      p := [];
    } else if ws[i].layerStart < next || !CandidateOk(localHead, ws[i], last) {
      p := FrontierReached(localHead, ws, i + 1, next, last);
    } else {
      var deeper := FrontierReached(localHead, ws, 0, ws[i].layerEnd + 1, last);
      var later := FrontierReached(localHead, ws, i + 1, next, last);
      if Frontier(ws, ws[i].layerEnd + 1, deeper) > Frontier(ws, next, later) {
        p := [i] + deeper;
        assert p[1..] == deeper;
      } else {
        p := later;
      }
    }
  }

  /** On failure the reported layer is the furthest one any partial chain leads up to. */
  lemma MissingIsFurthestFrontier(localHead: bool, ws: seq<Worker>, next: nat, last: nat)
    requires Searchable(ws) && next <= last + 1 && Find(localHead, ws, 0, next, last).None?
    ensures var m := Missing(localHead, ws, 0, next, last);
            && (forall p :: Partial(localHead, ws, next, last, p) ==> Frontier(ws, next, p) <= m)
            && (exists p :: Partial(localHead, ws, next, last, p) && Frontier(ws, next, p) == m)
  {
    forall p | Partial(localHead, ws, next, last, p)
      ensures Frontier(ws, next, p) <= Missing(localHead, ws, 0, next, last)
    {
      NoFurtherFrontier(localHead, ws, 0, next, last, p);
    }
    var p := FrontierReached(localHead, ws, 0, next, last);
  }

  // ----- The same in terms of the workers' fields ----------------------------------------

  /** The workers along p follow each other from layer next on without gap or overlap. */
  ghost predicate Contiguous(ws: seq<Worker>, next: nat, p: seq<nat>) {
    && (forall k :: 0 <= k < |p| ==> p[k] < |ws|)
    && (p != [] ==> ws[p[0]].layerStart == next)
    && (forall j, k :: 0 <= j < |p| && k == j + 1 < |p| ==> ws[p[k]].layerStart == ws[p[j]].layerEnd + 1)
  }

  /** p gets from layer next to layer last, only its end gets there, everybody who has to can hand on a
      hidden state, and the head is at the end of it or at home. */
  ghost predicate Usable(localHead: bool, ws: seq<Worker>, next: nat, last: nat, p: seq<nat>) {
    && p != [] && Contiguous(ws, next, p)
    && (forall k :: 0 <= k < |p| - 1 ==> ws[p[k]].layerEnd < last && ws[p[k]].hasHidden)
    && var end := ws[p[|p| - 1]];
    && end.layerEnd >= last
    && (!end.hasOutput ==> end.hasHidden && localHead)
  }

  /** p gets from layer next to some layer before last, and everybody on it can hand on a hidden state. */
  ghost predicate Stretch(ws: seq<Worker>, next: nat, last: nat, p: seq<nat>) {
    Contiguous(ws, next, p) && forall k :: 0 <= k < |p| ==> ws[p[k]].layerEnd < last && ws[p[k]].hasHidden
  }

  ghost function Beyond(ws: seq<Worker>, next: nat, p: seq<nat>): nat
    requires Contiguous(ws, next, p)
  {
    if p == [] then next else ws[p[|p| - 1]].layerEnd + 1
  }

  /** The two agree up to some place, where p takes the earlier worker. */
  ghost predicate Earlier(p: seq<nat>, q: seq<nat>) {
    exists k :: EarlierAt(p, q, k)
  }

  predicate EarlierAt(p: seq<nat>, q: seq<nat>, k: int) {
    0 <= k < |p| && k < |q| && p[..k] == q[..k] && p[k] < q[k]
  }

  lemma ContiguousStep(ws: seq<Worker>, next: nat, p: seq<nat>)
    requires p != []
    ensures Contiguous(ws, next, p)
      <==> p[0] < |ws| && ws[p[0]].layerStart == next && Contiguous(ws, ws[p[0]].layerEnd + 1, p[1..])
  {
    assert forall k :: 0 <= k < |p| - 1 ==> p[1..][k] == p[k + 1];
    assert forall k :: 1 <= k < |p| ==> p[k] == p[1..][k - 1];
  }

  lemma {:induction false} ChainIsUsable(localHead: bool, ws: seq<Worker>, next: nat, last: nat, p: seq<nat>)
    ensures Chain(localHead, ws, next, last, p) <==> Usable(localHead, ws, next, last, p)
    decreases |p|
  {
    hide Contiguous;
    if p != [] && p[0] < |ws| {
      ContiguousStep(ws, next, p);
      if |p| == 1 {
        NothingFollows(ws, ws[p[0]].layerEnd + 1, p[1..]);
      } else {
        ChainIsUsable(localHead, ws, ws[p[0]].layerEnd + 1, last, p[1..]);
        assert p[1..][|p| - 2] == p[|p| - 1];
        assert forall k :: 0 <= k < |p| - 2 ==> p[1..][k] == p[k + 1];
        assert forall k :: 1 <= k < |p| - 1 ==> p[1..][k - 1] == p[k];
      }
    } else if p != [] {
      ContiguousStep(ws, next, p);
    }
  }

  lemma NothingFollows(ws: seq<Worker>, next: nat, p: seq<nat>)
    requires p == []
    ensures Contiguous(ws, next, p)
  {
  }

  lemma {:induction false} PartialIsStretch(localHead: bool, ws: seq<Worker>, next: nat, last: nat, p: seq<nat>)
    ensures Partial(localHead, ws, next, last, p) <==> Stretch(ws, next, last, p)
    ensures Stretch(ws, next, last, p) ==> Frontier(ws, next, p) == Beyond(ws, next, p)
    decreases |p|
  {
    hide Contiguous;
    if p == [] {
      NothingFollows(ws, next, p);
    } else {
      ContiguousStep(ws, next, p);
      if p[0] < |ws| {
        PartialIsStretch(localHead, ws, ws[p[0]].layerEnd + 1, last, p[1..]);
        assert forall k :: 0 <= k < |p| - 1 ==> p[1..][k] == p[k + 1];
        assert forall k :: 1 <= k < |p| ==> p[1..][k - 1] == p[k];
        assert |p| > 1 ==> p[1..][|p| - 2] == p[|p| - 1];
      }
    }
  }

  lemma {:induction false} LexLessIsEarlier(p: seq<nat>, q: seq<nat>)
    ensures LexLess(p, q) <==> Earlier(p, q)
    decreases |p|
  {
    if p != [] && q != [] {
      if p[0] < q[0] {
        assert EarlierAt(p, q, 0);
      } else {
        LexLessIsEarlier(p[1..], q[1..]);
        if p[0] == q[0] && Earlier(p[1..], q[1..]) {
          var k :| EarlierAt(p[1..], q[1..], k);
          assert p[..k + 1] == [p[0]] + p[1..][..k] && q[..k + 1] == [q[0]] + q[1..][..k];
          assert EarlierAt(p, q, k + 1);
        }
        if Earlier(p, q) {
          var k :| EarlierAt(p, q, k);
          assert k > 0 ==> p[..k][0] == p[0] && q[..k][0] == q[0];
          assert k > 0 ==> p[1..][..k - 1] == p[..k][1..] && q[1..][..k - 1] == q[..k][1..];
          assert k > 0 ==> EarlierAt(p[1..], q[1..], k - 1);
        }
      }
    }
  }

  /** The search finds a route exactly when there is one over workers that can hand on what they have to,
      it finds the first of these, and otherwise reports the furthest layer that such workers lead up to. */
  lemma FindsTheFirstUsable(localHead: bool, ws: seq<Worker>, next: nat, last: nat)
    requires Searchable(ws) && next <= last + 1
    ensures var (r, m) := (Find(localHead, ws, 0, next, last), Missing(localHead, ws, 0, next, last));
            && (r.Some? <==> exists p :: Usable(localHead, ws, next, last, p))
            && (r.Some? ==> Usable(localHead, ws, next, last, r.value))
            && (r.Some? ==> forall p :: Usable(localHead, ws, next, last, p) ==> p == r.value || Earlier(r.value, p))
            && (r.None? ==> forall p :: Stretch(ws, next, last, p) ==> Beyond(ws, next, p) <= m)
            && (r.None? ==> exists p :: Stretch(ws, next, last, p) && Beyond(ws, next, p) == m)
  {
    hide Chain, Usable, Partial, Stretch, Earlier, LexLess, Contiguous, Frontier, Beyond;
    var (r, m) := (Find(localHead, ws, 0, next, last), Missing(localHead, ws, 0, next, last));
    FindsTheFirstChain(localHead, ws, next, last);
    forall p
      ensures Chain(localHead, ws, next, last, p) <==> Usable(localHead, ws, next, last, p)
    {
      ChainIsUsable(localHead, ws, next, last, p);
    }
    if r.Some? {
      forall p | Usable(localHead, ws, next, last, p)
        ensures p == r.value || Earlier(r.value, p)
      {
        LexLessIsEarlier(r.value, p);
      }
    } else {
      MissingIsFurthestFrontier(localHead, ws, next, last);
      forall p | Stretch(ws, next, last, p)
        ensures Contiguous(ws, next, p) && Beyond(ws, next, p) <= m
      {
        PartialIsStretch(localHead, ws, next, last, p);
        StretchIsContiguous(ws, next, last, p);
      }
      var p := FrontierReached(localHead, ws, 0, next, last);
      PartialIsStretch(localHead, ws, next, last, p);
      StretchIsContiguous(ws, next, last, p);
    }
  }

  lemma StretchIsContiguous(ws: seq<Worker>, next: nat, last: nat, p: seq<nat>)
    requires Stretch(ws, next, last, p)
    ensures Contiguous(ws, next, p)
  {
  }

  // ----- Other orders of the same workers ------------------------------------------------

  /** Every worker of ws is among vs. */
  ghost predicate Within(ws: seq<Worker>, vs: seq<Worker>) {
    forall i :: 0 <= i < |ws| ==> ws[i] in vs
  }

  lemma {:induction false} MoveChain(
    localHead: bool, ws: seq<Worker>, vs: seq<Worker>, next: nat, last: nat, p: seq<nat>)
    returns (q: seq<nat>)
    requires Within(ws, vs) && Chain(localHead, ws, next, last, p)
    ensures Chain(localHead, vs, next, last, q)
    decreases |p|
  {
    var k :| 0 <= k < |vs| && vs[k] == ws[p[0]];
    if |p| == 1 {
      q := [k];
    } else {
      var rest := MoveChain(localHead, ws, vs, ws[p[0]].layerEnd + 1, last, p[1..]);
      q := [k] + rest;
      assert q[1..] == rest;
    }
  }

  lemma {:induction false} MovePartial(
    localHead: bool, ws: seq<Worker>, vs: seq<Worker>, next: nat, last: nat, p: seq<nat>)
    returns (q: seq<nat>)
    requires Within(ws, vs) && Partial(localHead, ws, next, last, p)
    ensures Partial(localHead, vs, next, last, q) && Frontier(vs, next, q) == Frontier(ws, next, p)
    decreases |p|
  {
    if p == [] {
      q := [];
    } else {
      var k :| 0 <= k < |vs| && vs[k] == ws[p[0]];
      var rest := MovePartial(localHead, ws, vs, ws[p[0]].layerEnd + 1, last, p[1..]);
      q := [k] + rest;
      assert q[1..] == rest;
    }
  }

  // ----- The search in place -------------------------------------------------------------

  class Searcher {
    const path: array<nat>
    var pathLen: nat

    /** One path slot per registered worker. */
    constructor (n: nat)
      ensures path.Length == n && pathLen == 0 && fresh(path)
    {
      path := new nat[n];
      pathLen := 0;
    }

    /** dist_route_search_workers. The path buffer is never overrun, a failed search leaves the
        path as it was, and a successful one appends the chain that Find returns. */
    method Search(localHead: bool, ws: seq<Worker>, next: nat, last: nat, missing0: nat)
      returns (found: bool, missing: nat)
      requires Searchable(ws) && path.Length == |ws| && missing0 == next <= last + 1
      requires forall i :: 0 <= i < |ws| && ws[i].layerStart >= next ==> pathLen <= i
      requires pathLen <= |ws|
      modifies this`pathLen, path
      ensures pathLen <= path.Length
      ensures found == Find(localHead, ws, 0, next, last).Some?
      ensures found ==> old(pathLen) <= pathLen
                        && path[..pathLen] == old(path[..pathLen]) + Find(localHead, ws, 0, next, last).value
      ensures !found ==> pathLen == old(pathLen) && path[..pathLen] == old(path[..pathLen])
      ensures !found ==> missing == Missing(localHead, ws, 0, next, last)
      decreases last + 1 - next
    {
      hide CandidateOk, Find, Missing;
      missing := missing0;
      var sawStart := false;
      var i := 0;
      ghost var len, prefix := pathLen, path[..pathLen];
      while i < |ws|
        invariant 0 <= i <= |ws|
        invariant pathLen == len && path[..len] == prefix
        invariant missing >= next
        invariant Find(localHead, ws, 0, next, last) == Find(localHead, ws, i, next, last)
        invariant Find(localHead, ws, i, next, last).None? ==>
                    Max(missing, Missing(localHead, ws, i, next, last)) == Missing(localHead, ws, 0, next, last)
      {
        var w := ws[i];
        if w.layerStart < next {
          SkipWorker(localHead, ws, i, next, last);
          i := i + 1;
          continue;
        }
        if w.layerStart > next {
          break;
        }
        sawStart := true;
        if !CandidateOk(localHead, w, last) {
          SkipWorker(localHead, ws, i, next, last);
          i := i + 1;
          continue;
        }
        TryWorker(localHead, ws, i, next, last);
        path[pathLen] := i;
        pathLen := pathLen + 1;
        assert path[..pathLen] == prefix + [i];
        if w.layerEnd >= last {
          return true, missing;
        }
        var childFound, childMissing := Search(localHead, ws, w.layerEnd + 1, last, w.layerEnd + 1);
        if childFound {
          return true, missing;
        }
        if childMissing > missing {
          missing := childMissing;
        }
        assert path[..pathLen] == prefix + [i];
        pathLen := pathLen - 1;
        assert path[..len] == prefix;
        i := i + 1;
      }
      NoWorker(localHead, ws, i, next, last);
      if !sawStart && next > missing {
        missing := next;
      }
      found := false;
    }
  }
}
