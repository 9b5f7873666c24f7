/** Reading the pieces of a plan from their drives at the same time, with reads that may fall short
    (argodrive_read.h). */
module ReplicaRead {
  import opened Options
  import opened Bytes
  import opened ReplicaPlan
  import opened Sums

  /** What one pread call came back with. */
  datatype Outcome = Interrupted | Got(bytes: nat) | Failed

  /** How far each source's loop is, which loops have ended, and the buffer they share. */
  datatype State = State(done: seq<nat>, ended: seq<bool>, dst: seq<Byte>)

  /** A read of a planned span into a buffer that held before. The replicas are identical, so that
      every source reads the same file. */
  datatype Job = Job(file: seq<Byte>, offset: nat, pieces: seq<Piece>, before: seq<Byte>)
  {
    ghost predicate Valid() {
      && Tiles(pieces, offset, |before|)
      && offset + |before| <= |file|
    }

    /** Where piece i begins in the buffer. */
    function Slot(i: nat): int
      requires i < |pieces|
    {
      pieces[i].offset - offset
    }
  }

  lemma {:induction false} PiecesInOrder(job: Job, i: nat, j: nat)
    requires job.Valid() && i < j < |job.pieces|
    ensures End(job.pieces[i]) <= job.pieces[j].offset
    decreases j
  {
    if i < j - 1 {
      PiecesInOrder(job, i, j - 1);
    }
  }

  lemma PieceInside(job: Job, i: nat)
    requires job.Valid() && i < |job.pieces|
    ensures job.offset <= job.pieces[i].offset && End(job.pieces[i]) <= job.offset + |job.before|
  {
    if i > 0 {
      PiecesInOrder(job, 0, i);
    }
    if i < |job.pieces| - 1 {
      PiecesInOrder(job, i, |job.pieces| - 1);
    }
  }

  function Init(job: Job): State {
    State(seq(|job.pieces|, _ => 0), seq(|job.pieces|, _ => false), job.before)
  }

  predicate Shaped(job: Job, s: State) {
    && |s.done| == |s.ended| == |job.pieces| && |s.dst| == |job.before|
    && forall i :: 0 <= i < |s.done| ==> s.done[i] <= job.pieces[i].length
  }

  /** dst with data written from position at. */
  function Write(dst: seq<Byte>, at: nat, data: seq<Byte>): (r: seq<Byte>)
    requires at + |data| <= |dst|
    ensures |r| == |dst|
    ensures forall k :: 0 <= k < |dst| ==> r[k] == if at <= k < at + |data| then data[k - at] else dst[k]
  {
    dst[..at] + data + dst[at + |data|..]
  }

  /** One turn of the loop of source i: None when that loop is over or the outcome is impossible. */
  function Step(job: Job, s: State, i: nat, o: Outcome): (r: Option<State>)
    requires job.Valid() && Shaped(job, s)
    ensures r.Some? ==> Shaped(job, r.value)
  {
    if i >= |job.pieces| || s.ended[i] then None
    else
      PieceInside(job, i);
      var p, n := job.pieces[i], s.done[i];
      if n >= p.length then Some(s.(ended := s.ended[i := true]))
      else
        match o
        case Interrupted => Some(s)
        case Failed => Some(s.(ended := s.ended[i := true]))
        case Got(k) =>
          if k == 0 then Some(s.(ended := s.ended[i := true]))
          else if k > p.length - n then None
          else Some(s.(done := s.done[i := n + k],
                       dst := Write(s.dst, job.Slot(i) + n, job.file[p.offset + n..p.offset + n + k])))
  }

  /** Byte k of piece i holds the file's byte once it was read, and is untouched until then. */
  ghost predicate ByteOk(job: Job, s: State, i: nat, k: nat)
    requires job.Valid() && Shaped(job, s) && i < |job.pieces| && k < job.pieces[i].length
  {
    PieceInside(job, i);
    s.dst[job.Slot(i) + k] == if k < s.done[i] then job.file[job.pieces[i].offset + k] else job.before[job.Slot(i) + k]
  }

  ghost predicate Inv(job: Job, s: State)
    requires job.Valid()
  {
    && Shaped(job, s)
    && forall i, k :: 0 <= i < |job.pieces| && 0 <= k < job.pieces[i].length ==> ByteOk(job, s, i, k)
  }

  lemma InitInv(job: Job)
    requires job.Valid()
    ensures Inv(job, Init(job))
  {
  }

  /** Whatever a source reads lands in its own piece and nowhere else. */
  lemma StepKeepsByte(job: Job, s: State, i: nat, o: Outcome, j: nat, k: nat)
    requires job.Valid() && Inv(job, s) && Step(job, s, i, o).Some?
    requires j < |job.pieces| && k < job.pieces[j].length
    ensures ByteOk(job, Step(job, s, i, o).value, j, k)
  {
    hide Tiles, Write;
    assert ByteOk(job, s, j, k);
    PieceInside(job, i);
    PieceInside(job, j);
    if i < j {
      PiecesInOrder(job, i, j);
    } else if j < i {
      PiecesInOrder(job, j, i);
    } else if o.Got? {
      var p, n := job.pieces[i], s.done[i];
      if 0 < o.bytes <= p.length - n && n <= k < n + o.bytes {
        assert job.file[p.offset + n..p.offset + n + o.bytes][k - n] == job.file[p.offset + k];
      }
    }
  }

  lemma StepInv(job: Job, s: State, i: nat, o: Outcome)
    requires job.Valid() && Inv(job, s) && Step(job, s, i, o).Some?
    ensures Inv(job, Step(job, s, i, o).value)
  {
    var t := Step(job, s, i, o).value;
    PieceInside(job, i);
    hide Step, Job.Valid, ByteOk;
    forall j, k | 0 <= j < |job.pieces| && 0 <= k < job.pieces[j].length
      ensures ByteOk(job, t, j, k)
    {
      StepKeepsByte(job, s, i, o, j, k);
    }
  }

  /** The state that a schedule of loop turns leads to. */
  function Run(job: Job, s: State, schedule: seq<(nat, Outcome)>): Option<State>
    requires job.Valid() && Shaped(job, s)
    decreases |schedule|
  {
    if schedule == [] then Some(s)
    else
      match Step(job, s, schedule[0].0, schedule[0].1)
      case None => None
      case Some(t) => Run(job, t, schedule[1..])
  }

  lemma {:induction false} RunInv(job: Job, s: State, schedule: seq<(nat, Outcome)>)
    requires job.Valid() && Inv(job, s) && Run(job, s, schedule).Some?
    ensures Inv(job, Run(job, s, schedule).value)
    decreases |schedule|
  {
    hide Step, ByteOk;
    if schedule != [] {
      StepInv(job, s, schedule[0].0, schedule[0].1);
      RunInv(job, Step(job, s, schedule[0].0, schedule[0].1).value, schedule[1..]);
    }
  }

  // ----- Who was waited for --------------------------------------------------------------

  /** What is counted for each source; the counters wrap at 64 bits. */
  datatype Stats = Stats(readCount: Word64, landsLast: Word64, gapNs: Word64)

  /** The source that took part and landed last, the first of them where several did. */
  ghost predicate LandsLast(pieces: seq<Piece>, times: seq<Word64>, n: nat, last: int)
    requires n <= |pieces| == |times|
  {
    && 0 <= last < n && pieces[last].length != 0
    && forall j :: 0 <= j < n && pieces[j].length != 0 ==>
         times[j] <= times[last] && (times[j] == times[last] ==> last <= j)
  }

  /** A source next to it: none of the others that took part landed later. */
  ghost predicate NextToLast(pieces: seq<Piece>, times: seq<Word64>, n: nat, last: int, second: int)
    requires n <= |pieces| == |times|
  {
    && 0 <= second < n && second != last && pieces[second].length != 0
    && forall j :: 0 <= j < n && j != last && pieces[j].length != 0 ==> times[j] <= times[second]
  }

  /** Nobody but possibly last took part. */
  ghost predicate Alone(pieces: seq<Piece>, n: nat, last: int)
    requires n <= |pieces|
  {
    forall j :: 0 <= j < n && j != last ==> pieces[j].length == 0
  }

  /** The barrier attribution of ar_complete: with two or more sources taking part, each of them has a
      read counted, and the one that landed last is charged the time by which it did. */
  method Attribute(pieces: seq<Piece>, times: seq<Word64>, stats: array<Stats>) returns (last: int, second: int)
    requires |pieces| == |times| == stats.Length
    modifies stats
    ensures last >= 0 ==> LandsLast(pieces, times, |pieces|, last)
    ensures second >= 0 ==> last >= 0 && NextToLast(pieces, times, |pieces|, last, second)
    ensures second < 0 ==> (|pieces| <= 1 || Alone(pieces, |pieces|, last)) && stats[..] == old(stats[..])
    ensures second >= 0 ==> forall i :: 0 <= i < stats.Length ==>
              stats[i] == if pieces[i].length == 0 then old(stats[i])
                          else var s := old(stats[i]);
                               Stats((s.readCount + 1) % TWO_64,
                                     if i == last then (s.landsLast + 1) % TWO_64 else s.landsLast,
                                     if i == last then (s.gapNs + (times[last] - times[second])) % TWO_64 else s.gapNs)
  {
    last, second := -1, -1;
    if |pieces| <= 1 {
      return;
    }
    for i := 0 to |pieces|
      invariant last < 0 ==> Alone(pieces, i, last) && second < 0
      invariant last >= 0 ==> LandsLast(pieces, times, i, last)
      invariant if second >= 0 then NextToLast(pieces, times, i, last, second) else Alone(pieces, i, last)
    {
      if pieces[i].length == 0 {
        continue;
      }
      if last < 0 || times[i] > times[last] {
        second := last;
        last := i;
      } else if second < 0 || times[i] > times[second] {
        second := i;
      }
    }
    if second < 0 {
      return;
    }
    var s := stats[last];
    stats[last] := s.(landsLast := (s.landsLast + 1) % TWO_64,
                      gapNs := (s.gapNs + (times[last] - times[second])) % TWO_64);
    forall i | 0 <= i < stats.Length && pieces[i].length != 0 {
      stats[i] := stats[i].(readCount := (stats[i].readCount + 1) % TWO_64);
    }
  }

  // ----- The verdict ---------------------------------------------------------------------

  /** The verdict of ar_complete: the bytes that landed, and whether every slice is full. */
  method Complete(pieces: seq<Piece>, counts: seq<nat>) returns (ok: bool, bytes: nat)
    requires |pieces| == |counts|
    ensures bytes == Sum(counts)
    ensures ok <==> forall i :: 0 <= i < |pieces| ==> counts[i] == pieces[i].length
  {
    ok, bytes := true, 0;
    for i := 0 to |pieces|
      invariant bytes == Sum(counts[..i])
      invariant ok <==> forall j :: 0 <= j < i ==> counts[j] == pieces[j].length
    {
      SumStep(counts, i);
      bytes := bytes + counts[i];
      if counts[i] != pieces[i].length {
        ok := false;
      }
    }
    assert counts[..|pieces|] == counts;
  }

  predicate Full(job: Job, s: State)
    requires Shaped(job, s)
  {
    forall i :: 0 <= i < |job.pieces| ==> s.done[i] == job.pieces[i].length
  }

  // ----- How far a source gets -----------------------------------------------------------

  function Min(a: nat, b: nat): nat {
    if a < b then a else b
  }

  /** A read that ends its loop: it failed, or found the end of the file. */
  predicate Trouble(o: Outcome) {
    o.Failed? || o == Got(0)
  }

  function BytesOf(o: Outcome): nat {
    if o.Got? then o.bytes else 0
  }

  /** What some reads bring together, up to the first that ends the loop. */
  function Came(outcomes: seq<Outcome>): nat {
    if outcomes == [] || Trouble(outcomes[0]) then 0 else BytesOf(outcomes[0]) + Came(outcomes[1..])
  }

  ghost predicate Troubled(outcomes: seq<Outcome>) {
    exists t :: 0 <= t < |outcomes| && Trouble(outcomes[t])
  }

  lemma {:induction false} CameStep(outcomes: seq<Outcome>, o: Outcome)
    ensures Came(outcomes + [o]) == Came(outcomes) + if Troubled(outcomes) || Trouble(o) then 0 else BytesOf(o)
    ensures Troubled(outcomes + [o]) <==> Troubled(outcomes) || Trouble(o)
    decreases |outcomes|
  {
    hide Trouble, BytesOf;
    var longer := outcomes + [o];
    assert longer[|outcomes|] == o && forall t :: 0 <= t < |outcomes| ==> longer[t] == outcomes[t];
    if outcomes == [] {
      assert longer[1..] == [];
    } else {
      CameStep(outcomes[1..], o);
      assert longer[1..] == outcomes[1..] + [o];
      assert outcomes == [outcomes[0]] + outcomes[1..];
    }
  }

  /** What the reads of source i come back with. */
  function Own(schedule: seq<(nat, Outcome)>, i: nat): seq<Outcome> {
    if schedule == [] then []
    else
      var (j, o) := schedule[|schedule| - 1];
      Own(schedule[..|schedule| - 1], i) + if j == i then [o] else []
  }

  /** How far a loop over length bytes is after these outcomes, and whether it is over. */
  ghost predicate GotThrough(length: nat, done: nat, ended: bool, outcomes: seq<Outcome>) {
    && done == Min(length, Came(outcomes))
    && (ended ==> done == length || Troubled(outcomes))
    && (!ended ==> !Troubled(outcomes))
  }

  lemma NotStarted(length: nat)
    ensures GotThrough(length, 0, false, [])
  {
  }

  /** One more outcome. */
  lemma GoesThrough(length: nat, done: nat, ended: bool, outcomes: seq<Outcome>, o: Outcome, done1: nat, ended1: bool)
    requires GotThrough(length, done, ended, outcomes)
    requires done1 == if ended || Trouble(o) then done else Min(length, done + BytesOf(o))
    requires ended1 == (ended || done >= length || Trouble(o))
    ensures GotThrough(length, done1, ended1, outcomes + [o])
  {
    hide Came, Troubled, Trouble, BytesOf;
    CameStep(outcomes, o);
  }

  lemma GotAsFarAs(length: nat, done: nat, ended: bool, outcomes: seq<Outcome>)
    requires GotThrough(length, done, ended, outcomes)
    ensures done == Min(length, Came(outcomes))
  {
  }

  lemma OwnStep(schedule: seq<(nat, Outcome)>, t: nat, i: nat)
    requires t < |schedule|
    ensures Own(schedule[..t + 1], i)
         == if schedule[t].0 == i then Own(schedule[..t], i) + [schedule[t].1] else Own(schedule[..t], i)
  {
    assert schedule[..t + 1][..t] == schedule[..t];
  }

  /** A source gets exactly as far as its own reads bring it: all of its slice, or what came before the
      first read that failed or found the end of the file. Interrupted reads cost nothing, and what the
      other sources do does not matter. */
  lemma {:induction false} SourceGets(job: Job, schedule: seq<(nat, Outcome)>, i: nat)
    requires job.Valid() && Run(job, Init(job), schedule).Some? && i < |job.pieces|
    ensures var s := Run(job, Init(job), schedule).value;
            && Shaped(job, s)
            && s.done[i] == Min(job.pieces[i].length, Came(Own(schedule, i)))
            && GotThrough(job.pieces[i].length, s.done[i], s.ended[i], Own(schedule, i))
    decreases |schedule|
  {
    hide Tiles, Step, Run, Job.Valid, Own, GotThrough, Came, Trouble, BytesOf;
    Started(job);
    if schedule == [] {
      NoneOwn(i);
      NotStarted(job.pieces[i].length);
    } else {
      var n := |schedule| - 1;
      var (j, o) := schedule[n];
      RunSplits(job, Init(job), schedule, n);
      SourceGets(job, schedule[..n], i);
      RunAppend(job, Init(job), schedule[..n], j, o);
      assert schedule == schedule[..n] + [(j, o)];
      assert schedule[..n + 1] == schedule;
      OwnStep(schedule, n, i);
      var s := Run(job, Init(job), schedule[..n]).value;
      StepGets(job, s, j, o, i);
      if j == i {
        var t := Step(job, s, j, o).value;
        GoesThrough(job.pieces[i].length, s.done[i], s.ended[i], Own(schedule[..n], i), o, t.done[i], t.ended[i]);
      }
    }
    var s := Run(job, Init(job), schedule).value;
    GotAsFarAs(job.pieces[i].length, s.done[i], s.ended[i], Own(schedule, i));
  }

  lemma NoneOwn(i: nat)
    ensures Own([], i) == []
  {
  }

  /** What one turn does to how far source i is. */
  lemma StepGets(job: Job, s: State, j: nat, o: Outcome, i: nat)
    requires job.Valid() && Shaped(job, s) && Step(job, s, j, o).Some? && i < |job.pieces|
    ensures var t := Step(job, s, j, o).value;
            && Shaped(job, t)
            && (j != i ==> t.done[i] == s.done[i] && t.ended[i] == s.ended[i])
            && (j == i ==>
                  && t.done[i] == (if s.ended[i] || Trouble(o) then s.done[i]
                                   else Min(job.pieces[i].length, s.done[i] + BytesOf(o)))
                  && t.ended[i] == (s.ended[i] || s.done[i] >= job.pieces[i].length || Trouble(o)))
  {
    hide Tiles, Write;
  }

  lemma {:induction false} RunSplits(job: Job, s: State, schedule: seq<(nat, Outcome)>, n: nat)
    requires job.Valid() && Shaped(job, s) && Run(job, s, schedule).Some? && n <= |schedule|
    ensures Run(job, s, schedule[..n]).Some?
    decreases n
  {
    hide Step, Shaped, Job.Valid;
    if n > 0 {
      RunSplits(job, Step(job, s, schedule[0].0, schedule[0].1).value, schedule[1..], n - 1);
      assert schedule[..n][0] == schedule[0] && schedule[..n][1..] == schedule[1..][..n - 1];
    }
  }

  /** Every byte of the buffer belongs to some piece. */
  lemma {:induction false} PieceOf(job: Job, k: nat, m: nat) returns (i: nat)
    requires job.Valid() && 0 < m <= |job.pieces| && job.offset + k < End(job.pieces[m - 1])
    ensures i < m && job.pieces[i].offset <= job.offset + k < End(job.pieces[i])
    decreases m
  {
    if m > 1 && job.offset + k < End(job.pieces[m - 2]) {
      i := PieceOf(job, k, m - 1);
    } else {
      i := m - 1;
    }
  }

  lemma {:induction false} LengthsAddUp(job: Job, m: nat)
    requires job.Valid() && 0 < m <= |job.pieces|
    ensures Sum(seq(m, i requires 0 <= i < m => job.pieces[i].length)) == End(job.pieces[m - 1]) - job.offset
    decreases m
  {
    var lengths := seq(m, i requires 0 <= i < m => job.pieces[i].length);
    assert lengths[..m - 1] == seq(m - 1, i requires 0 <= i < m - 1 => job.pieces[i].length);
    if m > 1 {
      LengthsAddUp(job, m - 1);
    } else {
      assert lengths[..0] == [];
    }
  }

  /** Over every interleaving of the loops and every pattern of short reads, a read whose slices are all
      full has filled the buffer with exactly the file's bytes, and one that falls short anywhere
      reports fewer bytes than the buffer holds. */
  lemma ReadIsAllOrNothing(job: Job, schedule: seq<(nat, Outcome)>, s: State)
    requires job.Valid() && Run(job, Init(job), schedule) == Some(s)
    ensures Shaped(job, s)
    ensures Full(job, s) ==> s.dst == job.file[job.offset..job.offset + |job.before|]
    ensures Full(job, s) <==> Sum(s.done) == |job.before|
    ensures Sum(s.done) <= |job.before|
  {
    hide Step, Full, ByteOk, Tiles;
    InitInv(job);
    RunInv(job, Init(job), schedule);
    if Full(job, s) {
      FullIsTheFile(job, s);
    }
    FullBySum(job, s);
  }

  lemma FullIsTheFile(job: Job, s: State)
    requires job.Valid() && Inv(job, s) && Full(job, s)
    ensures s.dst == job.file[job.offset..job.offset + |job.before|]
  {
    forall k | 0 <= k < |job.before|
      ensures s.dst[k] == job.file[job.offset + k]
    {
      var i := PieceOf(job, k, |job.pieces|);
      PieceInside(job, i);
      assert ByteOk(job, s, i, job.offset + k - job.pieces[i].offset);
    }
  }

  lemma FullBySum(job: Job, s: State)
    requires job.Valid() && Shaped(job, s)
    ensures Full(job, s) <==> Sum(s.done) == |job.before|
    ensures Sum(s.done) <= |job.before|
  {
    var n := |job.pieces|;
    LengthsAddUp(job, n);
    SumCompare(s.done, seq(n, i requires 0 <= i < n => job.pieces[i].length));
  }

  // ----- One source's loop in place ------------------------------------------------------

  /** ar_exact against the outcomes of its reads, of which it uses as many as it needs: only the bytes
      it reports are written, they are the file's, and they stay in its slice. */
  method Exact(file: seq<Byte>, offset: nat, length: nat, dst: array<Byte>, at: nat, outcomes: seq<Outcome>)
    returns (n: nat)
    requires offset + length <= |file| && at + length <= dst.Length
    modifies dst
    ensures n <= length
    ensures forall k :: 0 <= k < dst.Length ==>
              dst[k] == if at <= k < at + n then file[offset + (k - at)] else old(dst[k])
    ensures n == Min(length, Came(outcomes))
  {
    hide Came, Troubled;
    n := 0;
    var turn := 0;
    ghost var over := false;
    NotStarted(length);
    while n < length && turn < |outcomes|
      invariant n <= length
      invariant forall k :: 0 <= k < dst.Length ==>
                  dst[k] == if at <= k < at + n then file[offset + (k - at)] else old(dst[k])
      invariant turn <= |outcomes| && !over && GotThrough(length, n, over, outcomes[..turn])
      decreases |outcomes| - turn
    {
      var outcome := outcomes[turn];
      assert outcomes[..turn + 1] == outcomes[..turn] + [outcome];
      GoesThrough(length, n, over, outcomes[..turn], outcome,
                  if Trouble(outcome) then n else Min(length, n + BytesOf(outcome)), Trouble(outcome));
      turn := turn + 1;
      if outcome.Interrupted? {
        continue;
      }
      if outcome.Failed? || outcome.bytes == 0 {
        over := true;
        break;
      }
      // a read returns no more than it was asked for
      var got := if outcome.bytes > length - n then length - n else outcome.bytes;
      forall k | at + n <= k < at + n + got {
        dst[k] := file[offset + (k - at)];
      }
      n := n + got;
    }
    RestIsIdle(length, n, over, outcomes, turn);
  }

  /** A loop that is over, or has everything, takes no notice of further outcomes. */
  lemma {:induction false} RestIsIdle(length: nat, done: nat, ended: bool, outcomes: seq<Outcome>, turn: nat)
    requires turn <= |outcomes| && GotThrough(length, done, ended, outcomes[..turn])
    requires turn < |outcomes| ==> ended || done == length
    ensures done == Min(length, Came(outcomes))
    decreases |outcomes| - turn
  {
    hide Came, Troubled;
    if turn == |outcomes| {
      assert outcomes[..turn] == outcomes;
    } else {
      assert outcomes[..turn + 1] == outcomes[..turn] + [outcomes[turn]];
      GoesThrough(length, done, ended, outcomes[..turn], outcomes[turn], done, true);
      RestIsIdle(length, done, true, outcomes, turn + 1);
    }
  }

  // ----- The whole read ------------------------------------------------------------------

  const LLONG_MAX: nat := 0x7FFF_FFFF_FFFF_FFFF

  lemma {:induction false} RunAppend(job: Job, s: State, schedule: seq<(nat, Outcome)>, i: nat, o: Outcome)
    requires job.Valid() && Shaped(job, s) && Run(job, s, schedule).Some?
    ensures Shaped(job, Run(job, s, schedule).value)
    ensures Run(job, s, schedule + [(i, o)]) == Step(job, Run(job, s, schedule).value, i, o)
    decreases |schedule|
  {
    hide Step, Shaped, Job.Valid;
    var longer := schedule + [(i, o)];
    if schedule == [] {
      assert longer[0] == (i, o) && longer[1..] == [];
    } else {
      RunAppend(job, Step(job, s, schedule[0].0, schedule[0].1).value, schedule[1..], i, o);
      assert longer[0] == schedule[0] && longer[1..] == schedule[1..] + [(i, o)];
    }
  }

  /** One turn of the loop of source i on the shared buffer. A read returns no more than it was asked
      for, and a loop that is over does nothing more. */
  method Turn(ghost job: Job, file: seq<Byte>, offset: nat, pieces: seq<Piece>, dst: array<Byte>,
              done0: seq<nat>, ended0: seq<bool>, i: nat, o: Outcome)
    returns (done: seq<nat>, ended: seq<bool>, ghost came: Outcome)
    requires job.Valid() && job.file == file && job.offset == offset && job.pieces == pieces
    requires dst.Length >= |job.before| && Shaped(job, State(done0, ended0, dst[..|job.before|]))
    modifies dst
    ensures dst[|job.before|..] == old(dst[|job.before|..])
    ensures if i < |pieces| && !ended0[i]
            then Step(job, State(done0, ended0, old(dst[..|job.before|])), i, came)
                 == Some(State(done, ended, dst[..|job.before|]))
            else done == done0 && ended == ended0 && dst[..] == old(dst[..])
    ensures |done| == |ended| == |pieces|
    ensures forall j :: 0 <= j < |pieces| && j != i ==> done[j] == done0[j] && ended[j] == ended0[j]
    ensures i < |pieces| ==>
              && done[i] == (if ended0[i] || Trouble(o) then done0[i] else Min(pieces[i].length, done0[i] + BytesOf(o)))
              && ended[i] == (ended0[i] || done0[i] >= pieces[i].length || Trouble(o))
  {
    hide Tiles;
    done, ended, came := done0, ended0, o;
    if i >= |pieces| || ended0[i] {
      return;
    }
    PieceInside(job, i);
    var p, n := pieces[i], done0[i];
    if n >= p.length || o.Failed? || (o.Got? && o.bytes == 0) {
      ended := ended[i := true];
    } else if o.Got? {
      var got := if o.bytes > p.length - n then p.length - n else o.bytes;
      came := Got(got);
      var at := p.offset - offset + n;
      forall k | at <= k < at + got {
        dst[k] := file[p.offset + n + (k - at)];
      }
      done := done[i := n + got];
      assert dst[..|job.before|] == Write(old(dst[..|job.before|]), at, file[p.offset + n..p.offset + n + got]);
    }
  }

  /** Byte k of a piece of which n bytes were read. */
  predicate Landed(file: seq<Byte>, offset: nat, p: Piece, n: nat, k: nat, before: seq<Byte>, dst: seq<Byte>) {
    && offset <= p.offset && p.offset - offset + k < |before| == |dst| && p.offset + k < |file|
    && dst[p.offset - offset + k] == if k < n then file[p.offset + k] else before[p.offset - offset + k]
  }

  lemma LandedBytes(job: Job, schedule: seq<(nat, Outcome)>, s: State)
    requires job.Valid() && Run(job, Init(job), schedule) == Some(s)
    ensures |s.done| == |job.pieces|
    ensures forall i, k :: 0 <= i < |job.pieces| && 0 <= k < job.pieces[i].length ==>
              Landed(job.file, job.offset, job.pieces[i], s.done[i], k, job.before, s.dst)
  {
    hide Step, Tiles, Run;
    InitInv(job);
    RunInv(job, Init(job), schedule);
    forall i, k | 0 <= i < |job.pieces| && 0 <= k < job.pieces[i].length
      ensures Landed(job.file, job.offset, job.pieces[i], s.done[i], k, job.before, s.dst)
    {
      PieceInside(job, i);
      assert ByteOk(job, s, i, k);
    }
  }

  lemma NoneStarted(pieces: seq<Piece>, done: seq<nat>, ended: seq<bool>, schedule: seq<(nat, Outcome)>)
    requires |done| == |ended| == |pieces| && forall i :: 0 <= i < |pieces| ==> done[i] == 0 && !ended[i]
    ensures forall i :: 0 <= i < |pieces| ==> GotThrough(pieces[i].length, done[i], ended[i], Own(schedule[..0], i))
  {
  }

  lemma Started(job: Job)
    requires job.Valid()
    ensures Shaped(job, Init(job)) && Run(job, Init(job), []) == Some(Init(job))
  {
  }

  lemma ShapeOf(job: Job, s: State)
    requires Shaped(job, s)
    ensures |s.done| == |s.ended| == |job.pieces| && |s.dst| == |job.before|
    ensures forall i :: 0 <= i < |s.done| ==> s.done[i] <= job.pieces[i].length
    ensures Full(job, s) <==> forall i :: 0 <= i < |job.pieces| ==> s.done[i] == job.pieces[i].length
  {
  }

  predicate Accepts(r: Reader, decodePhase: bool, offset: Word64, length: Word64, dst: array?<Byte>) {
    dst != null && offset + length <= LLONG_MAX && Plannable(r, decodePhase, offset, length)
  }

  lemma PlannableFits(r: Reader, decodePhase: bool, offset: Word64, length: Word64)
    requires Plannable(r, decodePhase, offset, length)
    ensures offset + length <= r.size
  {
  }

  /** ar_read against the turns its sources take until the barrier lets it go on; a source that gets no
      further turn has failed. A refused request touches nothing. Otherwise each slice holds the
      file's bytes as far as its source got and what was there before from there on, the bytes are
      counted, and success means that the whole range is the file's. */
  method Read(r: Reader, decodePhase: bool, file: seq<Byte>, offset: Word64, length: Word64, dst: array?<Byte>,
              schedule: seq<(nat, Outcome)>)
    returns (ok: bool, bytes: nat, ghost pieces: seq<Piece>, ghost landed: seq<nat>)
    requires r.size == |file|
    requires dst != null ==> length <= dst.Length
    modifies dst
    ensures !Accepts(r, decodePhase, offset, length, dst) ==>
              !ok && bytes == 0 && (dst != null ==> dst[..] == old(dst[..]))
    ensures Accepts(r, decodePhase, offset, length, dst) ==>
              && Tiles(pieces, offset, length) && |landed| == |pieces| == |r.sources|
              && (forall i :: 0 <= i < |pieces| ==> landed[i] <= pieces[i].length)
              && (forall i, k :: 0 <= i < |pieces| && 0 <= k < pieces[i].length ==>
                    Landed(file, offset, pieces[i], landed[i], k, old(dst[..length]), dst[..length]))
              && (ok <==> forall i :: 0 <= i < |pieces| ==> landed[i] == pieces[i].length)
              && bytes == Sum(landed) <= length
              && (ok <==> bytes == length)
              && dst[length..] == old(dst[length..])
    ensures ok ==> dst != null && offset + length <= |file| && dst[..length] == file[offset..offset + length]
    ensures
      && dst != null && offset + length <= 0x7FFF_FFFF_FFFF_FFFF && offset + length <= |file|
      && !r.invalid && 1 <= |r.sources| <= 3 && length > 0
      && (forall i :: 0 <= i < |r.sources| ==>
            1 <= (if decodePhase && r.sources[i].decodeWeight != 0 then r.sources[i].decodeWeight else r.sources[i].weight) <= 100)
      ==> |pieces| == |r.sources|
    ensures Accepts(r, decodePhase, offset, length, dst) ==>
              && IsPlan(r, decodePhase, length, pieces)
              && forall i :: 0 <= i < |pieces| ==> landed[i] == Min(pieces[i].length, Came(Own(schedule, i)))
  {
    hide Plannable, Tiles, Step, Shaped, Full, Run, Sum, Landed, Came, Own, Fair, IsPlan,
         GotThrough, Trouble, BytesOf;
    PlannableMeans(r, decodePhase, offset, length);
    pieces, landed := [], [];
    if dst == null || offset > LLONG_MAX || length > LLONG_MAX - offset {
      return false, 0, pieces, landed;
    }
    ghost var counts, theta;
    var planned: Option<seq<Piece>>;
    planned, counts, theta := Plan(r, decodePhase, offset, length);
    if planned.None? {
      return false, 0, pieces, landed;
    }
    PlannableFits(r, decodePhase, offset, length);
    FairIsPlan(r, decodePhase, length, planned.value, counts, theta);
    ghost var job := Job(file, offset, planned.value, dst[..length]);
    var done, ended := seq(|planned.value|, _ => 0), seq(|planned.value|, _ => false);
    ghost var ran: seq<(nat, Outcome)> := [];
    Started(job);
    NoneStarted(planned.value, done, ended, schedule);
    for turn := 0 to |schedule|
      invariant Shaped(job, State(done, ended, dst[..length]))
      invariant Run(job, Init(job), ran) == Some(State(done, ended, dst[..length]))
      invariant dst[length..] == old(dst[length..])
      invariant |done| == |ended| == |planned.value|
      invariant forall j :: 0 <= j < |done| ==>
                  GotThrough(planned.value[j].length, done[j], ended[j], Own(schedule[..turn], j))
    {
      var (i, o) := schedule[turn];
      ghost var done0, ended0 := done, ended;
      ghost var now := State(done, ended, dst[..length]);
      ShapeOf(job, now);
      ghost var came;
      done, ended, came := Turn(job, file, offset, planned.value, dst, done, ended, i, o);
      if i < |planned.value| && !now.ended[i] {
        RunAppend(job, Init(job), ran, i, came);
        ran := ran + [(i, came)];
      }
      forall j | 0 <= j < |done|
        ensures GotThrough(planned.value[j].length, done[j], ended[j], Own(schedule[..turn + 1], j))
      {
        OwnStep(schedule, turn, j);
        if j == i {
          GoesThrough(planned.value[j].length, done0[j], ended0[j], Own(schedule[..turn], j), o, done[j], ended[j]);
        }
      }
    }
    ghost var last := State(done, ended, dst[..length]);
    ShapeOf(job, last);
    assert schedule[..|schedule|] == schedule;
    forall j | 0 <= j < |done|
      ensures done[j] == Min(planned.value[j].length, Came(Own(schedule, j)))
    {
      GotAsFarAs(planned.value[j].length, done[j], ended[j], Own(schedule, j));
    }
    ok, bytes := Complete(planned.value, done);
    pieces, landed := planned.value, done;
    ReadIsAllOrNothing(job, ran, last);
    LandedBytes(job, ran, last);
  }
}
