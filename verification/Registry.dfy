/** The coordinator's worker registry and the plan a session caches from it (ds4_distributed.c). */
module Registry {
  import opened Bytes
  import opened RouteBlob
  import opened RoutePlan
  import S = RouteSearch

  type Sorter = seq<S.Worker> -> seq<S.Worker>

  /** The registry behind the coordinator's lock. */
  datatype State = State(workers: seq<S.Worker>, generation: nat, shuttingDown: bool)

  /** Two registrations of the same slice from the same place. */
  predicate Same(a: S.Worker, b: S.Worker) {
    && a.host == b.host && a.modelId == b.modelId
    && a.layerStart == b.layerStart && a.layerEnd == b.layerEnd && a.hasOutput == b.hasOutput
  }

  /** What a removal looks for: a connection, or the worker behind a plan entry. */
  datatype Key = ByConnection(fd: int) | ByEntry(entry: RouteEntry)
  {
    predicate Hits(w: S.Worker) {
      match this
      case ByConnection(fd) => w.fd == fd
      case ByEntry(e) =>
        && e.port == w.port && e.host == w.host
        && e.layerStart == w.layerStart && e.layerEnd == w.layerEnd && OutputFlag(e) == w.hasOutput
    }
  }

  // ----- What the operations compute -----------------------------------------------------

  /** ws without the registrations that w replaces. */
  function Without(ws: seq<S.Worker>, w: S.Worker): seq<S.Worker> {
    if ws == [] then []
    else if Same(ws[0], w) then Without(ws[1..], w)
    else [ws[0]] + Without(ws[1..], w)
  }

  /** ws without the first worker the key hits. */
  function DropFirst(ws: seq<S.Worker>, key: Key): seq<S.Worker> {
    if ws == [] then []
    else if key.Hits(ws[0]) then ws[1..]
    else [ws[0]] + DropFirst(ws[1..], key)
  }

  function DropAll(ws: seq<S.Worker>, es: seq<RouteEntry>): seq<S.Worker>
    decreases |es|
  {
    if es == [] then ws else DropAll(DropFirst(ws, ByEntry(es[0])), es[1..])
  }

  function Added(s: State, w: S.Worker): State {
    if s.shuttingDown then s else s.(workers := [w] + Without(s.workers, w), generation := s.generation + 1)
  }

  /** Some worker is gone, so that plans made before are out of date. */
  function Shrunk(s: State, workers: seq<S.Worker>): State {
    if |workers| < |s.workers| then s.(workers := workers, generation := s.generation + 1) else s
  }

  function Removed(s: State, fd: int): State {
    Shrunk(s, DropFirst(s.workers, ByConnection(fd)))
  }

  function Forgotten(s: State, es: seq<RouteEntry>): State {
    Shrunk(s, DropAll(s.workers, es))
  }

  // ----- Facts about the lists -----------------------------------------------------------

  /** Every registered worker passed the HELLO checks, and no slice is registered twice from the
      same place. */
  ghost predicate Proper(c: Local, ws: seq<S.Worker>) {
    && HelloAll(c, ws)
    && forall i, j :: 0 <= i < j < |ws| ==> !Same(ws[i], ws[j])
  }

  lemma {:induction false} WithoutKeeps(c: Local, ws: seq<S.Worker>, w: S.Worker)
    requires Proper(c, ws)
    ensures Proper(c, Without(ws, w))
    ensures forall v :: v in Without(ws, w) <==> v in ws && !Same(v, w)
  {
    if ws != [] {
      WithoutKeeps(c, ws[1..], w);
      var rest := Without(ws[1..], w);
      assert ws == [ws[0]] + ws[1..];
      if !Same(ws[0], w) {
        forall i | 0 <= i < |rest|
          ensures !Same(ws[0], rest[i])
        {
          assert rest[i] in ws[1..];
        }
      }
    }
  }

  /** Who goes when w registers: the registrations of the same slice of the same model from the same host. */
  lemma {:induction false} WithoutDrops(ws: seq<S.Worker>, w: S.Worker)
    ensures forall v :: v in Without(ws, w) <==>
              && v in ws
              && !(v.host == w.host && v.modelId == w.modelId && v.layerStart == w.layerStart
                   && v.layerEnd == w.layerEnd && v.hasOutput == w.hasOutput)
  {
    if ws != [] {
      WithoutDrops(ws[1..], w);
      assert ws == [ws[0]] + ws[1..];
    }
  }

  lemma {:induction false} WithoutAppend(a: seq<S.Worker>, b: seq<S.Worker>, w: S.Worker)
    ensures Without(a + b, w) == Without(a, w) + Without(b, w)
  {
    hide Same;
    if a == [] {
      assert a + b == b;
    } else {
      WithoutAppend(a[1..], b, w);
      assert (a + b)[1..] == a[1..] + b;
    }
  }

  /** A list pointer that stands after the entries kept, at entry k of the original list. */
  lemma PointAt(kept: seq<S.Worker>, ws: seq<S.Worker>, k: nat)
    requires k < |ws|
    ensures var list := kept + ws[k..];
            && list[|kept|] == ws[k]
            && list[..|kept|] + list[|kept| + 1..] == kept + ws[k + 1..]
            && list == kept + [ws[k]] + ws[k + 1..]
  {
  }

  lemma WithoutNothing(w: S.Worker)
    ensures Without([], w) == []
  {
  }

  lemma WithoutStep(ws: seq<S.Worker>, k: nat, w: S.Worker)
    requires k < |ws|
    ensures Without(ws[..k + 1], w) == Without(ws[..k], w) + (if Same(ws[k], w) then [] else [ws[k]])
  {
    assert ws[..k + 1] == ws[..k] + [ws[k]];
    WithoutAppend(ws[..k], [ws[k]], w);
    assert Without([ws[k]], w) == if Same(ws[k], w) then [] else [ws[k]];
  }

  ghost predicate FirstHit(ws: seq<S.Worker>, key: Key, i: nat) {
    i < |ws| && key.Hits(ws[i]) && forall j :: 0 <= j < i ==> !key.Hits(ws[j])
  }

  ghost predicate NoHit(ws: seq<S.Worker>, key: Key) {
    forall i :: 0 <= i < |ws| ==> !key.Hits(ws[i])
  }

  /** Dropping takes out the first position the key hits. */
  lemma {:induction false} DropFirstAt(ws: seq<S.Worker>, key: Key, i: nat)
    requires FirstHit(ws, key, i)
    ensures DropFirst(ws, key) == ws[..i] + ws[i + 1..]
  {
    hide Key.Hits;
    if i > 0 {
      assert FirstHit(ws[1..], key, i - 1) by {
        assert forall j :: 0 <= j < i ==> ws[1..][j] == ws[j + 1];
      }
      DropFirstAt(ws[1..], key, i - 1);
      assert !key.Hits(ws[0]);
      assert ws[1..][..i - 1] == ws[1..i] && ws[1..][i..] == ws[i + 1..];
      assert ws[..i] == [ws[0]] + ws[1..i];
    }
  }

  lemma {:induction false} DropFirstNone(ws: seq<S.Worker>, key: Key)
    requires NoHit(ws, key)
    ensures DropFirst(ws, key) == ws
  {
    hide Key.Hits;
    if ws != [] {
      assert forall j :: 0 <= j < |ws| - 1 ==> ws[1..][j] == ws[j + 1];
      DropFirstNone(ws[1..], key);
    }
  }

  lemma {:induction false} DropFirstSize(ws: seq<S.Worker>, key: Key, i: nat)
    ensures |DropFirst(ws, key)| <= |ws|
    ensures i < |ws| && key.Hits(ws[i]) ==> |DropFirst(ws, key)| < |ws|
  {
    hide Key.Hits;
    if ws != [] {
      DropFirstSize(ws[1..], key, if i > 0 then i - 1 else 0);
    }
  }

  lemma {:induction false} DropFirstKeeps(c: Local, ws: seq<S.Worker>, key: Key)
    requires Proper(c, ws)
    ensures Proper(c, DropFirst(ws, key))
    ensures forall v :: v in DropFirst(ws, key) ==> v in ws
  {
    if ws != [] {
      DropFirstKeeps(c, ws[1..], key);
      var rest := DropFirst(ws[1..], key);
      forall i | 0 <= i < |rest|
        ensures !Same(ws[0], rest[i])
      {
        assert rest[i] in ws[1..];
      }
    }
  }

  lemma {:induction false} DropAllKeeps(c: Local, ws: seq<S.Worker>, es: seq<RouteEntry>)
    requires Proper(c, ws)
    ensures Proper(c, DropAll(ws, es)) && |DropAll(ws, es)| <= |ws|
    decreases |es|
  {
    if es != [] {
      DropFirstKeeps(c, ws, ByEntry(es[0]));
      DropFirstSize(ws, ByEntry(es[0]), 0);
      DropAllKeeps(c, DropFirst(ws, ByEntry(es[0])), es[1..]);
    }
  }

  /** The entry names the worker by where it listens, what it holds and whether it has the head. */
  lemma EntryHits(e: RouteEntry, w: S.Worker)
    ensures ByEntry(e).Hits(w) <==>
              && w.host == e.host && w.port == e.port && w.layerStart == e.layerStart && w.layerEnd == e.layerEnd
              && w.hasOutput == (e.flags % 2 == 1)
  {
  }

  /** In a proper registry an entry names at most one worker, so that dropping it leaves none. */
  lemma {:induction false} DropFirstExactly(c: Local, ws: seq<S.Worker>, e: RouteEntry)
    requires Proper(c, ws)
    ensures forall w :: w in DropFirst(ws, ByEntry(e)) <==> w in ws && !ByEntry(e).Hits(w)
  {
    if ws != [] {
      assert ws == [ws[0]] + ws[1..];
      if ByEntry(e).Hits(ws[0]) {
        forall w | w in ws[1..]
          ensures !ByEntry(e).Hits(w)
        {
          var i :| 0 <= i < |ws| - 1 && ws[1..][i] == w;
          assert ws[i + 1] == w && HelloOk(c, ws[0]) && HelloOk(c, ws[i + 1]);
          assert !Same(ws[0], ws[i + 1]);
        }
      } else {
        DropFirstExactly(c, ws[1..], e);
      }
    }
  }

  /** Forgetting a plan's workers removes exactly the workers that its entries name. */
  lemma {:induction false} ForgottenExactly(c: Local, ws: seq<S.Worker>, es: seq<RouteEntry>)
    requires Proper(c, ws)
    ensures forall w :: w in DropAll(ws, es) <==> w in ws && forall e :: e in es ==> !ByEntry(e).Hits(w)
    decreases |es|
  {
    hide Proper, DropFirst, Key.Hits;
    if es != [] {
      assert es == [es[0]] + es[1..];
      DropFirstExactly(c, ws, es[0]);
      DropFirstKeeps(c, ws, ByEntry(es[0]));
      ForgottenExactly(c, DropFirst(ws, ByEntry(es[0])), es[1..]);
    }
  }

  /** Forgetting a plan one of whose workers is registered removes somebody. */
  lemma DropAllDrops(c: Local, ws: seq<S.Worker>, es: seq<RouteEntry>, i: nat)
    requires Proper(c, ws) && es != [] && i < |ws| && ByEntry(es[0]).Hits(ws[i])
    ensures |DropAll(ws, es)| < |ws|
  {
    DropFirstSize(ws, ByEntry(es[0]), i);
    DropFirstKeeps(c, ws, ByEntry(es[0]));
    DropAllKeeps(c, DropFirst(ws, ByEntry(es[0])), es[1..]);
  }

  ghost predicate FirstOn(ws: seq<S.Worker>, fd: int, i: nat) {
    i < |ws| && ws[i].fd == fd && forall j :: 0 <= j < i ==> ws[j].fd != fd
  }

  /** What leaves with a connection: the first worker on it. */
  lemma ConnectionGoes(ws: seq<S.Worker>, fd: int)
    ensures (forall i :: 0 <= i < |ws| ==> ws[i].fd != fd) ==> DropFirst(ws, ByConnection(fd)) == ws
    ensures forall i :: 0 <= i < |ws| && FirstOn(ws, fd, i) ==>
              DropFirst(ws, ByConnection(fd)) == ws[..i] + ws[i + 1..]
  {
    if forall i :: 0 <= i < |ws| ==> ws[i].fd != fd {
      DropFirstNone(ws, ByConnection(fd));
    }
    forall i | 0 <= i < |ws| && FirstOn(ws, fd, i)
      ensures DropFirst(ws, ByConnection(fd)) == ws[..i] + ws[i + 1..]
    {
      DropFirstAt(ws, ByConnection(fd), i);
    }
  }

  // ----- The registry in place -----------------------------------------------------------

  class Coordinator {
    var workers: seq<S.Worker>
    var generation: nat
    var shuttingDown: bool

    constructor ()
      ensures Contents() == State([], 0, false)
    {
      workers, generation, shuttingDown := [], 0, false;
    }

    function Contents(): State
      reads this
    {
      State(workers, generation, shuttingDown)
    }

    /** dist_coordinator_add_worker, under the lock. */
    method AddWorker(w: S.Worker)
      modifies this
      ensures Contents() == Added(old(Contents()), w)
      ensures shuttingDown == old(shuttingDown)
      ensures shuttingDown ==> workers == old(workers) && generation == old(generation)
      ensures !shuttingDown ==> workers != [] && workers[0] == w && generation == old(generation) + 1
      ensures !shuttingDown ==> forall v :: v in workers[1..] <==>
                && v in old(workers)
                && !(v.host == w.host && v.modelId == w.modelId && v.layerStart == w.layerStart
                     && v.layerEnd == w.layerEnd && v.hasOutput == w.hasOutput)
    {
      hide Without, Same;
      WithoutDrops(workers, w);
      if shuttingDown {
        return;
      }
      ghost var before, kept, seen := workers, [], 0;
      WithoutNothing(w);
      assert before[..0] == [];
      var i := 0;
      while i < |workers|
        invariant 0 <= seen <= |before| && i == |kept| && kept == Without(before[..seen], w)
        invariant workers == kept + before[seen..]
        invariant generation == old(generation) && shuttingDown == old(shuttingDown)
        decreases |workers| - i
      {
        WithoutStep(before, seen, w);
        PointAt(kept, before, seen);
        if Same(workers[i], w) {
          workers := workers[..i] + workers[i + 1..];
        } else {
          kept := kept + [before[seen]];
          i := i + 1;
        }
        seen := seen + 1;
      }
      assert before[..seen] == before;
      workers := [w] + workers;
      generation := generation + 1;
    }

    /** Unlinks the first worker the key hits. */
    method Unlink(key: Key) returns (found: bool)
      modifies this`workers
      ensures workers == DropFirst(old(workers), key)
      ensures found <==> |workers| < old(|workers|)
      ensures !found ==> workers == old(workers)
    {
      var i := 0;
      while i < |workers|
        invariant 0 <= i <= |workers| && workers == old(workers)
        invariant forall j :: 0 <= j < i ==> !key.Hits(workers[j])
      {
        if key.Hits(workers[i]) {
          DropFirstAt(workers, key, i);
          workers := workers[..i] + workers[i + 1..];
          return true;
        }
        i := i + 1;
      }
      DropFirstNone(workers, key);
      return false;
    }

    /** dist_coordinator_remove_worker, under the lock. */
    method RemoveWorker(fd: int)
      modifies this
      ensures Contents() == Removed(old(Contents()), fd)
      ensures (forall i :: 0 <= i < |old(workers)| ==> old(workers)[i].fd != fd) ==> Contents() == old(Contents())
      ensures forall i :: 0 <= i < |old(workers)| && FirstOn(old(workers), fd, i) ==>
                workers == old(workers)[..i] + old(workers)[i + 1..] && generation == old(generation) + 1
    {
      ConnectionGoes(workers, fd);
      var found := Unlink(ByConnection(fd));
      if found {
        generation := generation + 1;
      }
    }

    /** dist_coordinator_forget_route_workers, under the lock: however many workers go, the
        generation advances once. */
    method ForgetRouteWorkers(es: seq<RouteEntry>)
      modifies this
      ensures Contents() == Forgotten(old(Contents()), es)
    {
      var removedAny := false;
      var i := 0;
      while i < |es|
        invariant 0 <= i <= |es|
        invariant DropAll(workers, es[i..]) == DropAll(old(workers), es)
        invariant |workers| <= old(|workers|) && (removedAny <==> |workers| < old(|workers|))
        invariant !removedAny ==> workers == old(workers)
        invariant generation == old(generation) && shuttingDown == old(shuttingDown)
      {
        assert es[i..][0] == es[i] && es[i..][1..] == es[i + 1..];
        var found := Unlink(ByEntry(es[i]));
        if found {
          removedAny := true;
        }
        i := i + 1;
      }
      if removedAny {
        generation := generation + 1;
      }
    }
  }
}
