/** A worker's bounded job queue, and the list of requests it has forwarded and not yet seen answered
    (ds4_distributed.c). Each operation is the region under the queue's lock; an operation that would
    wait on a condition variable reports that it is blocked and changes nothing. */
module WorkerQueues {
  import opened Options
  import opened LinkedFifo

  datatype Put = Blocked | Refused | Taken

  // ----- The job queue -------------------------------------------------------------------

  datatype Take<+T> = Waiting | Finished | Got(job: T)

  /** jobs are the queued ones, oldest first. */
  datatype Jobs<T> = Jobs(jobs: seq<T>, closed: bool, canceled: bool)
  {
    function PutOutcome(depth: nat): Put {
      if closed || canceled then Refused else if |jobs| >= depth then Blocked else Taken
    }

    function Enqueued(depth: nat, job: T): Jobs<T> {
      if PutOutcome(depth) == Taken then this.(jobs := jobs + [job]) else this
    }

    function TakeOutcome(): Take<T> {
      if canceled || (jobs == [] && closed) then Finished
      else if jobs == [] then Waiting
      else Got(jobs[0])
    }

    function Popped(): Jobs<T> {
      if TakeOutcome().Got? then this.(jobs := jobs[1..]) else this
    }

    function Closed(): Jobs<T> {
      this.(closed := true)
    }

    function Canceled(): Jobs<T> {
      Jobs([], true, true)
    }
  }

  /** ds4_dist_worker_job_queue. */
  class JobQueue<T> {
    const list: Fifo<T>
    const depth: nat
    var closed: bool
    var canceled: bool

    ghost predicate Valid()
      reads this, list, list.nodes
    {
      list.Valid()
    }

    ghost function State(): Jobs<T>
      reads this, list
    {
      Jobs(list.contents, closed, canceled)
    }

    constructor (depth: nat)
      ensures Valid() && State() == Jobs([], false, false) && this.depth == depth
      ensures fresh(list) && list.nodes == []
    {
      this.depth, closed, canceled := depth, false, false;
      list := new Fifo();
    }

    /** dist_worker_job_queue_enqueue. */
    method Enqueue(job: T) returns (r: Put)
      requires Valid()
      modifies list, list.nodes
      ensures Valid() && fresh(set n | n in list.nodes && n !in old(list.nodes))
      ensures r == old(State()).PutOutcome(depth)
      ensures State() == old(State()).Enqueued(depth, job)
      ensures (r == Refused <==> closed || canceled) && closed == old(closed) && canceled == old(canceled)
      ensures r == Blocked <==> !closed && !canceled && |old(list.contents)| >= depth
      ensures list.contents == if r == Taken then old(list.contents) + [job] else old(list.contents)
    {
      if !closed && !canceled && list.count >= depth {
        return Blocked;
      }
      if closed || canceled {
        return Refused;
      }
      list.Append(job);
      return Taken;
    }

    /** dist_worker_job_queue_pop. */
    method Pop() returns (r: Take<T>)
      requires Valid()
      modifies list
      ensures Valid() && forall n :: n in list.nodes ==> n in old(list.nodes)
      ensures r == old(State()).TakeOutcome()
      ensures State() == old(State()).Popped()
      ensures r.Finished? <==> canceled || (old(list.contents) == [] && closed)
      ensures r.Waiting? <==> !canceled && !closed && old(list.contents) == []
      ensures r.Got? ==> [r.job] + list.contents == old(list.contents)
      ensures !r.Got? ==> list.contents == old(list.contents)
    {
      if list.head == null && !closed && !canceled {
        return Waiting;
      }
      if canceled || list.head == null {
        return Finished;
      }
      var job := list.PopFront();
      assert old(list.contents)[0] == job && old(list.contents)[1..] == list.contents;
      return Got(job);
    }

    /** dist_worker_job_queue_finish. */
    method Finish()
      requires Valid()
      modifies this
      ensures Valid() && State() == old(State()).Closed()
      ensures closed && canceled == old(canceled) && list.contents == old(list.contents)
    {
      closed := true;
    }

    /** dist_worker_job_queue_cancel. */
    method Cancel()
      requires Valid()
      modifies this, list
      ensures Valid() && State() == old(State()).Canceled()
      ensures closed && canceled && list.contents == []
    {
      closed, canceled := true, true;
      list.Clear();
    }
  }

  // ----- Runs of the job queue -----------------------------------------------------------

  datatype JobEvent<T> = Enqueue(job: T) | Pop | Finish | Cancel

  /** The queue together with what has gone in and what became of it. */
  datatype JobLog<T> = JobLog(q: Jobs<T>, accepted: seq<T>, popped: seq<T>, dropped: seq<T>)
  {
    function After(depth: nat, e: JobEvent<T>): JobLog<T> {
      match e
      case Enqueue(job) =>
        JobLog(q.Enqueued(depth, job), if q.PutOutcome(depth) == Taken then accepted + [job] else accepted, popped, dropped)
      case Pop =>
        var r := q.TakeOutcome();
        JobLog(q.Popped(), accepted, if r.Got? then popped + [r.job] else popped, dropped)
      case Finish => this.(q := q.Closed())
      case Cancel => this.(q := q.Canceled(), dropped := dropped + q.jobs)
    }

    function AfterAll(depth: nat, events: seq<JobEvent<T>>): JobLog<T>
      decreases |events|
    {
      if events == [] then this else After(depth, events[0]).AfterAll(depth, events[1..])
    }

    /** Every job taken in was handed out, dropped or is still queued, in this order. */
    ghost predicate Conserved(depth: nat) {
      && accepted == popped + dropped + q.jobs
      && |q.jobs| <= depth
      && (dropped != [] ==> q.canceled)
      && (q.canceled ==> q.jobs == [] && q.closed)
    }
  }

  function EmptyLog<T>(): JobLog<T> {
    JobLog(Jobs([], false, false), [], [], [])
  }

  lemma EnqueueStep<T>(log: JobLog<T>, depth: nat, job: T)
    requires log.Conserved(depth)
    ensures log.After(depth, Enqueue(job)).Conserved(depth)
  {
    var out := log.popped + log.dropped;
    assert out + (log.q.jobs + [job]) == out + log.q.jobs + [job];
  }

  lemma PopStep<T>(log: JobLog<T>, depth: nat)
    requires log.Conserved(depth)
    ensures log.After(depth, Pop).Conserved(depth)
  {
    var jobs := log.q.jobs;
    if log.q.TakeOutcome().Got? {
      assert log.dropped == [] && jobs == [jobs[0]] + jobs[1..];
      assert log.popped + [] + jobs == log.popped + [jobs[0]] + [] + jobs[1..];
    }
  }

  lemma JobStep<T>(log: JobLog<T>, depth: nat, e: JobEvent<T>)
    requires log.Conserved(depth)
    ensures log.After(depth, e).Conserved(depth)
    ensures log.q.closed ==> log.After(depth, e).accepted == log.accepted && log.After(depth, e).q.closed
  {
    match e
    case Enqueue(job) => EnqueueStep(log, depth, job);
    case Pop => PopStep(log, depth);
    case Finish =>
    case Cancel =>
  }

  /** From any such point on, jobs are neither lost, duplicated nor reordered, and the depth is kept. */
  lemma {:induction false} JobsAreConserved<T>(log: JobLog<T>, depth: nat, events: seq<JobEvent<T>>)
    requires log.Conserved(depth)
    ensures log.AfterAll(depth, events).Conserved(depth)
    decreases |events|
  {
    if events != [] {
      JobStep(log, depth, events[0]);
      JobsAreConserved(log.After(depth, events[0]), depth, events[1..]);
    }
  }

  lemma JobsOfEveryRun<T>(depth: nat, events: seq<JobEvent<T>>)
    ensures EmptyLog<T>().AfterAll(depth, events).Conserved(depth)
  {
    JobsAreConserved(EmptyLog<T>(), depth, events);
  }

  lemma PopTakes<T>(log: JobLog<T>, depth: nat)
    requires log.q.jobs != [] && !log.q.canceled
    ensures log.After(depth, Pop)
         == JobLog(log.q.(jobs := log.q.jobs[1..]), log.accepted, log.popped + [log.q.jobs[0]], log.dropped)
  {
  }

  function Pops<T>(n: nat): (e: seq<JobEvent<T>>)
    ensures |e| == n
  {
    if n == 0 then [] else [Pop] + Pops<T>(n - 1)
  }

  /** After finish, popping goes on handing out everything that is queued, in order and without
      waiting, and only then reports the end. */
  lemma {:induction false} FinishDrains<T>(log: JobLog<T>, depth: nat, n: nat)
    requires log.Conserved(depth) && log.q.closed && !log.q.canceled && n <= |log.q.jobs|
    ensures var end := log.AfterAll(depth, Pops<T>(n));
            && end.popped == log.popped + log.q.jobs[..n]
            && end.q == log.q.(jobs := log.q.jobs[n..])
            && end.q.TakeOutcome() == if n < |log.q.jobs| then Got(log.q.jobs[n]) else Finished
    decreases n
  {
    hide JobLog.Conserved, JobLog.After;
    if n > 0 {
      JobStep(log, depth, Pop);
      PopTakes(log, depth);
      FinishDrains(log.After(depth, Pop), depth, n - 1);
      assert Pops<T>(n)[1..] == Pops<T>(n - 1);
      assert log.q.jobs[..n] == [log.q.jobs[0]] + log.q.jobs[1..][..n - 1];
      assert log.q.jobs[1..][n - 1..] == log.q.jobs[n..];
    }
  }

  /** After cancel, whatever happens, nothing is handed out any more and nothing is taken in. */
  lemma {:induction false} CancelIsFinal<T>(log: JobLog<T>, depth: nat, events: seq<JobEvent<T>>)
    requires log.Conserved(depth) && log.q.canceled
    ensures var end := log.AfterAll(depth, events);
            && end.q.canceled && end.q.TakeOutcome() == Finished
            && end.popped == log.popped && end.accepted == log.accepted
    decreases |events|
  {
    if events != [] {
      JobStep(log, depth, events[0]);
      CancelIsFinal(log.After(depth, events[0]), depth, events[1..]);
    }
  }

  // ----- The requests awaiting an answer -------------------------------------------------

  /** One forwarded request; the measured send time stands for its telemetry. */
  datatype Request = Request(id: nat, sendUsec: nat)

  function Ids(rs: seq<Request>): (ids: seq<nat>)
    ensures |ids| == |rs|
  {
    seq(|rs|, i requires 0 <= i < |rs| => rs[i].id)
  }

  /** Where the first request with this id stands, or the length if there is none. */
  function IndexOf(rs: seq<Request>, id: nat): (k: nat)
    ensures k <= |rs|
    ensures k < |rs| ==> rs[k].id == id
    ensures forall i :: 0 <= i < k ==> rs[i].id != id
  {
    if rs == [] || rs[0].id == id then 0 else 1 + IndexOf(rs[1..], id)
  }

  datatype Pending = Pending(requests: seq<Request>, closing: bool)
  {
    function PutOutcome(depth: nat): Put {
      if closing then Refused else if depth != 0 && |requests| >= depth then Blocked else Taken
    }

    function Enqueued(depth: nat, id: nat): Pending {
      if PutOutcome(depth) == Taken then this.(requests := requests + [Request(id, 0)]) else this
    }

    function Popped(): Pending {
      if requests == [] then this else this.(requests := requests[1..])
    }

    function Removed(id: nat): Pending {
      var k := IndexOf(requests, id);
      if k < |requests| then this.(requests := Without(requests, k)) else this
    }

    function Noted(id: nat, usec: nat): Pending {
      var k := IndexOf(requests, id);
      if k < |requests| then this.(requests := requests[k := Request(id, usec)]) else this
    }
  }

  function HasId(id: nat): Request -> bool {
    (r: Request) => r.id == id
  }

  lemma FirstAtIsIndex(rs: seq<Request>, id: nat)
    ensures forall k :: FirstAt(rs, HasId(id), k) ==> k == IndexOf(rs, id)
    ensures (forall r :: r in rs ==> !HasId(id)(r)) ==> IndexOf(rs, id) == |rs|
  {
    var k := IndexOf(rs, id);
    if k < |rs| {
      assert rs[k] in rs && HasId(id)(rs[k]);
    }
  }

  /** Request i is the first with this id. */
  ghost predicate FirstWith(rs: seq<Request>, id: nat, i: nat) {
    i < |rs| && rs[i].id == id && forall j :: 0 <= j < i ==> rs[j].id != id
  }

  lemma FirstWithIsIndex(rs: seq<Request>, id: nat)
    ensures forall i: nat :: FirstWith(rs, id, i) <==> i == IndexOf(rs, id) && i < |rs|
    ensures IndexOf(rs, id) < |rs| <==> exists i :: 0 <= i < |rs| && rs[i].id == id
  {
    hide IndexOf;
    var k := IndexOf(rs, id);
    if k < |rs| {
      assert rs[k].id == id;
    }
  }

  /** The request list of ds4_dist_worker_forwarder. */
  class PendingRequests {
    const list: Fifo<Request>
    const depth: nat
    var closing: bool

    ghost predicate Valid()
      reads this, list, list.nodes
    {
      list.Valid()
    }

    ghost function State(): Pending
      reads this, list
    {
      Pending(list.contents, closing)
    }

    constructor (depth: nat)
      ensures Valid() && State() == Pending([], false) && this.depth == depth
      ensures fresh(list) && list.nodes == []
    {
      this.depth, closing := depth, false;
      list := new Fifo();
    }

    /** dist_worker_forwarder_enqueue_request; a depth of zero means no bound. */
    method Enqueue(id: nat) returns (r: Put)
      requires Valid()
      modifies list, list.nodes
      ensures Valid() && fresh(set n | n in list.nodes && n !in old(list.nodes))
      ensures r == old(State()).PutOutcome(depth)
      ensures State() == old(State()).Enqueued(depth, id)
      ensures r == Refused <==> closing
      ensures r == Blocked <==> !closing && depth != 0 && |old(list.contents)| >= depth
      ensures list.contents == old(list.contents) + if r == Taken then [Request(id, 0)] else []
    {
      if !closing && depth != 0 && list.count >= depth {
        return Blocked;
      }
      if closing {
        return Refused;
      }
      list.Append(Request(id, 0));
      return Taken;
    }

    /** dist_worker_forwarder_pop_request. */
    method Pop() returns (r: Option<Request>)
      requires Valid()
      modifies list
      ensures Valid() && forall n :: n in list.nodes ==> n in old(list.nodes)
      ensures r == if old(list.contents) == [] then None else Some(old(list.contents)[0])
      ensures State() == old(State()).Popped()
    {
      if list.head == null {
        return None;
      }
      var request := list.PopFront();
      assert old(list.contents)[0] == request && old(list.contents)[1..] == list.contents;
      return Some(request);
    }

    /** dist_worker_forwarder_remove_request. */
    method Remove(id: nat) returns (found: bool)
      requires Valid()
      modifies list, list.nodes
      ensures Valid() && forall n :: n in list.nodes ==> n in old(list.nodes)
      ensures found <==> IndexOf(old(list.contents), id) < |old(list.contents)|
      ensures State() == old(State()).Removed(id)
      ensures found <==> exists i :: 0 <= i < |old(list.contents)| && old(list.contents)[i].id == id
      ensures forall i :: 0 <= i < |old(list.contents)| && FirstWith(old(list.contents), id, i) ==>
                list.contents == old(list.contents)[..i] + old(list.contents)[i + 1..]
    {
      hide IndexOf, Distinct, HasId, FirstWith;
      FirstWithIsIndex(list.contents, id);
      FirstAtIsIndex(list.contents, id);
      found := list.RemoveFirst(HasId(id));
    }

    /** dist_worker_forwarder_note_send_done. */
    method NoteSendDone(id: nat, usec: nat)
      requires Valid()
      modifies list`contents, list.nodes
      ensures Valid() && list.nodes == old(list.nodes)
      ensures State() == old(State()).Noted(id, usec)
      ensures |list.contents| == |old(list.contents)|
      ensures forall i :: 0 <= i < |list.contents| ==>
                list.contents[i] == if FirstWith(old(list.contents), id, i) then Request(id, usec) else old(list.contents)[i]
    {
      hide IndexOf, Distinct, FirstWith;
      FirstWithIsIndex(list.contents, id);
      FirstAtIsIndex(list.contents, id);
      list.UpdateFirst(HasId(id), (r: Request) => r.(sendUsec := usec));
    }

    /** dist_worker_forwarder_clear_requests. */
    method Clear()
      requires Valid()
      modifies list
      ensures Valid() && State() == Pending([], old(closing))
    {
      list.Clear();
    }

    /** dist_worker_forwarder_close_queue. */
    method Close()
      requires Valid()
      modifies this
      ensures Valid() && State() == Pending(old(list.contents), true)
    {
      closing := true;
    }
  }

  // ----- Runs of the request list --------------------------------------------------------

  datatype PendingEvent = Put(id: nat) | Answer | Withdraw(id: nat) | SendDone(id: nat, usec: nat) | CloseList | ClearList

  /** The list together with the ids taken in, answered, and taken out without an answer. */
  datatype PendingLog = PendingLog(p: Pending, accepted: seq<nat>, answered: seq<nat>, withdrawn: multiset<nat>)
  {
    function After(depth: nat, e: PendingEvent): PendingLog {
      match e
      case Put(id) =>
        PendingLog(p.Enqueued(depth, id), if p.PutOutcome(depth) == Taken then accepted + [id] else accepted,
                   answered, withdrawn)
      case Answer =>
        PendingLog(p.Popped(), accepted,
                   if p.requests == [] then answered else answered + [p.requests[0].id], withdrawn)
      case Withdraw(id) =>
        PendingLog(p.Removed(id), accepted, answered,
                   if IndexOf(p.requests, id) < |p.requests| then withdrawn + multiset{id} else withdrawn)
      case SendDone(id, usec) => this.(p := p.Noted(id, usec))
      case CloseList => this.(p := p.(closing := true))
      case ClearList => this.(p := p.(requests := []), withdrawn := withdrawn + multiset(Ids(p.requests)))
    }

    function AfterAll(depth: nat, events: seq<PendingEvent>): PendingLog
      decreases |events|
    {
      if events == [] then this else After(depth, events[0]).AfterAll(depth, events[1..])
    }

    /** Every id taken in was answered, withdrawn or is still pending; answers come in the order of
        the requests, and so will those still to come. */
    ghost predicate Conserved(depth: nat) {
      && multiset(accepted) == multiset(answered) + withdrawn + multiset(Ids(p.requests))
      && Subsequence(answered + Ids(p.requests), accepted)
      && (depth != 0 ==> |p.requests| <= depth)
    }
  }

  ghost predicate Subsequence(a: seq<nat>, b: seq<nat>) {
    || a == []
    || (b != [] && ((a[0] == b[0] && Subsequence(a[1..], b[1..])) || Subsequence(a, b[1..])))
  }

  lemma {:induction false} SubsequenceGrows(a: seq<nat>, b: seq<nat>, x: nat)
    requires Subsequence(a, b)
    ensures Subsequence(a + [x], b + [x])
    decreases |b|
  {
    var bx := b + [x];
    if b == [] {
      assert (a + [x])[1..] == [];
    } else {
      assert bx[1..] == b[1..] + [x];
      if a != [] && a[0] == b[0] && Subsequence(a[1..], b[1..]) {
        SubsequenceGrows(a[1..], b[1..], x);
        assert (a + [x])[1..] == a[1..] + [x];
      } else {
        SubsequenceGrows(a, b[1..], x);
      }
    }
  }

  lemma {:induction false} SubsequenceShrinks(a: seq<nat>, b: seq<nat>, k: nat)
    requires Subsequence(a, b) && k < |a|
    ensures Subsequence(Without(a, k), b)
    decreases |b|
  {
    if a[0] == b[0] && Subsequence(a[1..], b[1..]) {
      if k == 0 {
        assert Without(a, 0) == a[1..];
        SubsequenceSkips(a[1..], b);
      } else {
        SubsequenceShrinks(a[1..], b[1..], k - 1);
        assert Without(a, k)[1..] == Without(a[1..], k - 1);
      }
    } else {
      SubsequenceShrinks(a, b[1..], k);
      SubsequenceSkips(Without(a, k), b);
    }
  }

  lemma SubsequenceSkips(a: seq<nat>, b: seq<nat>)
    requires b != [] && Subsequence(a, b[1..])
    ensures Subsequence(a, b)
  {
  }

  lemma {:induction false} SubsequencePrefix(a: seq<nat>, b: seq<nat>, n: nat)
    requires Subsequence(a, b) && n <= |a|
    ensures Subsequence(a[..n], b)
    decreases |b|
  {
    if n == 0 {
    } else if a[0] == b[0] && Subsequence(a[1..], b[1..]) {
      SubsequencePrefix(a[1..], b[1..], n - 1);
      assert a[..n][1..] == a[1..][..n - 1];
    } else {
      SubsequencePrefix(a, b[1..], n);
    }
  }

  lemma IdsWithout(rs: seq<Request>, k: nat)
    requires k < |rs|
    ensures Ids(Without(rs, k)) == Without(Ids(rs), k)
    ensures multiset(Ids(rs)) == multiset(Ids(Without(rs, k))) + multiset{rs[k].id}
  {
    var ids := Ids(rs);
    assert Ids(Without(rs, k)) == Without(ids, k);
    assert ids == ids[..k] + [ids[k]] + ids[k + 1..];
  }

  lemma PutStep(log: PendingLog, depth: nat, id: nat)
    requires log.Conserved(depth)
    ensures log.After(depth, PendingEvent.Put(id)).Conserved(depth)
  {
    hide Subsequence;
    var rs := log.p.requests;
    if log.p.PutOutcome(depth) == Taken {
      assert Ids(rs + [Request(id, 0)]) == Ids(rs) + [id];
      SubsequenceGrows(log.answered + Ids(rs), log.accepted, id);
      assert log.answered + Ids(rs) + [id] == log.answered + (Ids(rs) + [id]);
    }
  }

  lemma AnswerStep(log: PendingLog, depth: nat)
    requires log.Conserved(depth)
    ensures log.After(depth, Answer).Conserved(depth)
  {
    hide Subsequence;
    var rs := log.p.requests;
    if rs != [] {
      assert Ids(rs) == [rs[0].id] + Ids(rs[1..]);
      assert log.answered + Ids(rs) == log.answered + [rs[0].id] + Ids(rs[1..]);
    }
  }

  lemma WithdrawnOrder(answered: seq<nat>, ids: seq<nat>, accepted: seq<nat>, k: nat)
    requires Subsequence(answered + ids, accepted) && k < |ids|
    ensures Subsequence(answered + Without(ids, k), accepted)
  {
    hide Subsequence;
    SubsequenceShrinks(answered + ids, accepted, |answered| + k);
    assert Without(answered + ids, |answered| + k) == answered + Without(ids, k);
  }

  lemma WithdrawStep(log: PendingLog, depth: nat, id: nat)
    requires log.Conserved(depth)
    ensures log.After(depth, Withdraw(id)).Conserved(depth)
  {
    hide Subsequence, Ids, Without;
    var rs := log.p.requests;
    var k := IndexOf(rs, id);
    if k < |rs| {
      IdsWithout(rs, k);
      WithdrawnOrder(log.answered, Ids(rs), log.accepted, k);
    }
  }

  lemma ClearStep(log: PendingLog, depth: nat)
    requires log.Conserved(depth)
    ensures log.After(depth, ClearList).Conserved(depth)
  {
    hide Subsequence;
    var rs := log.p.requests;
    SubsequencePrefix(log.answered + Ids(rs), log.accepted, |log.answered|);
    assert (log.answered + Ids(rs))[..|log.answered|] == log.answered;
    assert Ids([]) == [] && log.answered + [] == log.answered;
  }

  lemma PendingStep(log: PendingLog, depth: nat, e: PendingEvent)
    requires log.Conserved(depth)
    ensures log.After(depth, e).Conserved(depth)
  {
    match e
    case Put(id) => PutStep(log, depth, id);
    case Answer => AnswerStep(log, depth);
    case Withdraw(id) => WithdrawStep(log, depth, id);
    case SendDone(id, usec) => assert Ids(log.p.Noted(id, usec).requests) == Ids(log.p.requests);
    case CloseList =>
    case ClearList => ClearStep(log, depth);
  }

  /** From any such point on, with removals from the middle, ids are conserved, answers keep the order
      of the requests, and the bound holds. */
  lemma {:induction false} RequestsAreConserved(log: PendingLog, depth: nat, events: seq<PendingEvent>)
    requires log.Conserved(depth)
    ensures log.AfterAll(depth, events).Conserved(depth)
    decreases |events|
  {
    if events != [] {
      PendingStep(log, depth, events[0]);
      RequestsAreConserved(log.After(depth, events[0]), depth, events[1..]);
    }
  }

  lemma RequestsOfEveryRun(depth: nat, events: seq<PendingEvent>)
    ensures PendingLog(Pending([], false), [], [], multiset{}).AfterAll(depth, events).Conserved(depth)
  {
    var start := PendingLog(Pending([], false), [], [], multiset{});
    assert Ids([]) == [];
    RequestsAreConserved(start, depth, events);
  }
}
