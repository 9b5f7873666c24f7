/** Reading Engram rows for many tokens at once: sorted, deduplicated, split over several readers and
    put back in token order (ds4_engram.c). */
module EngramBatch {
  import opened Options
  import opened Bytes
  import opened Arith

  const COLS: nat := 24

  /** A table file: how many rows it has, and what each row decodes to, if it can be read. */
  datatype Table<R> = Table(rows: nat, decode: Word32 -> Option<R>)
  {
    predicate Readable(row: Word32) {
      row < rows && decode(row).Some?
    }
  }

  /** ds4_engram_read: one row after the other, into slots at, at + 1, ... */
  method Read<R>(t: Table<R>, rows: seq<Word32>, out: array<R>, at: nat) returns (ok: bool)
    requires at + |rows| <= out.Length
    modifies out
    ensures ok <==> forall i :: 0 <= i < |rows| ==> t.Readable(rows[i])
    ensures ok ==> forall i :: 0 <= i < |rows| ==> out[at + i] == t.decode(rows[i]).value
    ensures forall k :: 0 <= k < out.Length && !(at <= k < at + |rows|) ==> out[k] == old(out[k])
  {
    for i := 0 to |rows|
      invariant forall j :: 0 <= j < i ==> rows[j] < t.rows
    {
      if rows[i] >= t.rows {
        return false;
      }
    }
    for i := 0 to |rows|
      invariant forall j :: 0 <= j < i ==> t.Readable(rows[j])
      invariant forall j :: 0 <= j < i ==> out[at + j] == t.decode(rows[j]).value
      invariant forall k :: 0 <= k < out.Length && !(at <= k < at + |rows|) ==> out[k] == old(out[k])
    {
      var row := t.decode(rows[i]);
      if row.None? {
        return false;
      }
      out[at + i] := row.value;
    }
    return true;
  }

  // ----- Requests ------------------------------------------------------------------------

  datatype Request = Request(row: Word32, output: nat)

  /** No two requests want the same slot, and every slot lies in the batch. */
  ghost predicate Distinct(rs: seq<Request>) {
    && (forall i :: 0 <= i < |rs| ==> rs[i].output < |rs|)
    && (forall i, j :: 0 <= i < j < |rs| ==> rs[i].output != rs[j].output)
  }

  /** How many times the row changes along rs, counting the first: the reads of one reader. */
  function Runs(rs: seq<Request>): nat {
    if rs == [] then 0
    else Runs(rs[..|rs| - 1]) + if |rs| > 1 && rs[|rs| - 2].row == rs[|rs| - 1].row then 0 else 1
  }

  lemma RunsStep(rs: seq<Request>, i: nat)
    requires i < |rs|
    ensures Runs(rs[..i + 1]) == Runs(rs[..i]) + if i > 0 && rs[i].row == rs[i - 1].row then 0 else 1
  {
    assert rs[..i + 1][..i] == rs[..i];
  }

  /** Slot k is wanted by none of these requests. */
  ghost predicate Untouched(rs: seq<Request>, base: nat, k: nat) {
    forall i :: 0 <= i < |rs| ==> k != base + rs[i].output
  }

  ghost predicate PartReadable<R>(t: Table<R>, rs: seq<Request>) {
    forall i :: 0 <= i < |rs| ==> t.Readable(rs[i].row)
  }

  ghost predicate PartDone<R>(t: Table<R>, rs: seq<Request>, out: seq<R>, base: nat) {
    forall i :: 0 <= i < |rs| ==>
      && t.Readable(rs[i].row) && base + rs[i].output < |out|
      && out[base + rs[i].output] == t.decode(rs[i].row).value
  }

  /** previous is a slot that holds the row of request i - 1. */
  ghost predicate Previous(rs: seq<Request>, base: nat, i: nat, previous: nat)
    requires i <= |rs|
  {
    i > 0 ==> exists h :: 0 <= h < i && previous == base + rs[h].output && rs[h].row == rs[i - 1].row
  }

  /** One turn of the loop of read_batch_part: it writes the slot of request i and no other, and reads
      the row again only where it differs from the one before. */
  method ReadTurn<R>(t: Table<R>, rs: seq<Request>, out: array<R>, base: nat, i: nat, previous: nat)
    returns (ok: bool, next: nat, took: nat)
    requires i < |rs| && forall h :: 0 <= h < |rs| ==> base + rs[h].output < out.Length
    requires forall h :: 0 <= h < i ==> rs[h].output != rs[i].output
    requires PartDone(t, rs[..i], out[..], base) && Previous(rs, base, i, previous)
    modifies out
    ensures ok <==> t.Readable(rs[i].row)
    ensures ok ==> PartDone(t, rs[..i + 1], out[..], base) && Previous(rs, base, i + 1, next)
    ensures Runs(rs[..i]) + took == Runs(rs[..i + 1])
    ensures forall k :: 0 <= k < out.Length && k != base + rs[i].output ==> out[k] == old(out[k])
  {
    hide Runs;
    RunsStep(rs, i);
    var dst := base + rs[i].output;
    if i > 0 && rs[i].row == rs[i - 1].row {
      ghost var h :| 0 <= h < i && previous == base + rs[h].output && rs[h].row == rs[i - 1].row;
      assert rs[..i][h] == rs[h];
      out[dst] := out[previous];
      return true, previous, 0;
    }
    ok := Read(t, [rs[i].row], out, dst);
    if ok {
      assert t.Readable([rs[i].row][0]) && out[dst + 0] == t.decode([rs[i].row][0]).value;
    } else {
      assert !t.Readable([rs[i].row][0]);
    }
    next, took := dst, 1;
  }

  /** read_batch_part over its requests, alone: it writes the slots of these requests and no others, and
      reads a row again only where it differs from the one before. */
  method ReadPart<R>(t: Table<R>, rs: seq<Request>, out: array<R>, base: nat) returns (ok: bool, fetched: nat)
    requires forall i :: 0 <= i < |rs| ==> base + rs[i].output < out.Length
    requires forall i, j :: 0 <= i < j < |rs| ==> rs[i].output != rs[j].output
    modifies out
    ensures ok <==> PartReadable(t, rs)
    ensures ok ==> PartDone(t, rs, out[..], base) && fetched == Runs(rs)
    ensures forall k :: 0 <= k < out.Length && Untouched(rs, base, k) ==> out[k] == old(out[k])
  {
    hide Runs;
    var previous: nat := 0;
    fetched := 0;
    NoRuns();
    for i := 0 to |rs|
      invariant PartDone(t, rs[..i], out[..], base) && Previous(rs, base, i, previous)
      invariant fetched == Runs(rs[..i])
      invariant forall k :: 0 <= k < out.Length && Untouched(rs, base, k) ==> out[k] == old(out[k])
    {
      var read, next, took := ReadTurn(t, rs, out, base, i, previous);
      if !read {
        return false, fetched;
      }
      previous, fetched := next, fetched + took;
    }
    assert rs[..|rs|] == rs;
    return true, fetched;
  }

  lemma NoRuns()
    ensures Runs([]) == 0
  {
  }

  // ----- Parts ---------------------------------------------------------------------------

  /** Where part p of readers begins among count requests. */
  function PartStart(count: nat, p: nat, readers: nat): nat
    requires readers > 0
  {
    count * p / readers
  }

  lemma PartsTile(count: nat, p: nat, readers: nat)
    requires p < readers
    ensures PartStart(count, p, readers) <= PartStart(count, p + 1, readers) <= count
  {
    DivMod(count * p, readers);
    DivMod(count * (p + 1), readers);
    var (a, b) := (PartStart(count, p, readers), PartStart(count, p + 1, readers));
    assert count * (p + 1) == count * p + count;
    MulMono(p + 1, readers, count);
    assert count * (p + 1) <= readers * count;
    if b < a {
      MulMono(b + 1, a, readers);
    }
    if b > count {
      MulMono(count + 1, b, readers);
    }
  }

  /** No reader has more than one request more than any other. */
  lemma PartsAreEven(count: nat, p: nat, readers: nat)
    requires p < readers
    ensures count / readers <= PartStart(count, p + 1, readers) - PartStart(count, p, readers) <= count / readers + 1
  {
    var (q, r) := (count / readers, count % readers);
    DivMod(count, readers);
    StartParts(count, p, readers, q, r);
    StartParts(count, p + 1, readers, q, r);
    Distribute(q, p, 1);
    Distribute(r, p, 1);
    DivStep(r * p, r, readers);
  }

  lemma StartParts(count: nat, p: nat, readers: nat, q: nat, r: nat)
    requires readers > 0 && count == q * readers + r
    ensures PartStart(count, p, readers) == q * p + r * p / readers
  {
    Distribute(p, q * readers, r);
    Reorder(q, readers, p);
    DivMod(r * p, readers);
    Distribute(readers, q * p, r * p / readers);
    DivUnique(count * p, readers, q * p + r * p / readers, r * p % readers);
  }

  lemma Reorder(a: nat, b: nat, c: nat)
    ensures a * b * c == a * c * b
  {
  }

  lemma DivStep(x: nat, r: nat, n: nat)
    requires r < n
    ensures x / n <= (x + r) / n <= x / n + 1
  {
    DivMod(x, n);
    var (q, rest) := (x / n, x % n + r);
    Distribute(n, q, 1);
    if rest < n {
      DivUnique(x + r, n, q, rest);
    } else {
      DivUnique(x + r, n, q + 1, rest - n);
    }
  }

  lemma PartEnds(count: nat, readers: nat)
    requires readers > 0
    ensures PartStart(count, 0, readers) == 0 && PartStart(count, readers, readers) == count
  {
    DivUnique(count * readers, readers, count, 0);
    DivUnique(count * 0, readers, 0, 0);
  }

  /** Every request belongs to some part. */
  lemma {:induction false} PartOf(count: nat, readers: nat, i: nat, m: nat) returns (p: nat)
    requires 0 < m <= readers && i < PartStart(count, m, readers)
    ensures p < m && PartStart(count, p, readers) <= i < PartStart(count, p + 1, readers)
    decreases m
  {
    PartEnds(count, readers);
    if m > 1 && i < PartStart(count, m - 1, readers) {
      p := PartOf(count, readers, i, m - 1);
    } else {
      p := m - 1;
    }
  }

  /** The requests of one part. */
  function Part(rs: seq<Request>, p: nat, readers: nat): seq<Request>
    requires p < readers
  {
    PartsTile(|rs|, p, readers);
    rs[PartStart(|rs|, p, readers)..PartStart(|rs|, p + 1, readers)]
  }

  lemma PartsApart(rs: seq<Request>, p: nat, q: nat, readers: nat, i: nat, base: nat)
    requires Distinct(rs) && p < readers && q < readers && p != q && i < |Part(rs, p, readers)|
    ensures Untouched(Part(rs, q, readers), base, base + Part(rs, p, readers)[i].output)
  {
    PartsTile(|rs|, p, readers);
    PartsTile(|rs|, q, readers);
    PartOrder(|rs|, p, q, readers);
    PartOrder(|rs|, q, p, readers);
  }

  lemma {:induction false} PartOrder(count: nat, p: nat, q: nat, readers: nat)
    requires p < readers && q <= readers
    ensures p < q ==> PartStart(count, p + 1, readers) <= PartStart(count, q, readers)
    decreases q
  {
    if p + 1 < q {
      PartOrder(count, p, q - 1, readers);
      PartsTile(count, q - 1, readers);
    }
  }

  // ----- The parts at the same time ------------------------------------------------------

  /** Where a part's loop is: its next request, the slot of its last read, its reads, and whether a row
      could not be read. */
  datatype Progress = Progress(at: nat, previous: nat, fetched: nat, failed: bool)

  /** The requests before the next one are done, by one read for each change of row. */
  ghost predicate PartAt<R>(t: Table<R>, part: seq<Request>, g: Progress, out: seq<R>, base: nat) {
    && g.at <= |part|
    && PartDone(t, part[..g.at], out, base) && Previous(part, base, g.at, g.previous)
    && g.fetched == Runs(part[..g.at])
    && (g.failed ==> g.at < |part| && !t.Readable(part[g.at].row))
  }

  ghost predicate PartsAt<R>(t: Table<R>, rs: seq<Request>, readers: nat, gs: seq<Progress>, out: seq<R>, base: nat) {
    |gs| == readers && forall p :: 0 <= p < readers ==> PartAt(t, Part(rs, p, readers), gs[p], out, base)
  }

  predicate Over(part: seq<Request>, g: Progress) {
    g.failed || g.at == |part|
  }

  lemma PartShape(rs: seq<Request>, p: nat, readers: nat, base: nat)
    requires Distinct(rs) && p < readers
    ensures var part := Part(rs, p, readers);
            && (forall h :: 0 <= h < |part| ==> part[h].output < |rs|)
            && (forall h, i :: 0 <= h < i < |part| ==> part[h].output != part[i].output)
  {
    PartsTile(|rs|, p, readers);
    var begin := PartStart(|rs|, p, readers);
    forall h | 0 <= h < |Part(rs, p, readers)|
      ensures Part(rs, p, readers)[h] == rs[begin + h]
    {
    }
  }

  /** A turn of part q leaves every other part as it was. */
  lemma PartKept<R>(t: Table<R>, rs: seq<Request>, p: nat, q: nat, readers: nat, g: Progress, i: nat,
                    before: seq<R>, after: seq<R>, base: nat)
    requires Distinct(rs) && p < readers && q < readers && p != q
    requires PartAt(t, Part(rs, p, readers), g, before, base) && |before| == |after|
    requires i < |Part(rs, q, readers)|
    requires forall k :: 0 <= k < |after| && k != base + Part(rs, q, readers)[i].output ==> after[k] == before[k]
    ensures PartAt(t, Part(rs, p, readers), g, after, base)
  {
    hide Part, Runs, Distinct;
    PartsApart(rs, q, p, readers, i, base);
    var part := Part(rs, p, readers);
    forall h | 0 <= h < g.at
      ensures after[base + part[..g.at][h].output] == before[base + part[..g.at][h].output]
    {
      assert part[h] == part[..g.at][h];
    }
  }

  /** One turn of one part's loop; a loop that is over does nothing more. */
  method Turn<R>(t: Table<R>, rs: seq<Request>, readers: nat, gs: seq<Progress>, out: array<R>, base: nat, p: nat)
    returns (after: seq<Progress>)
    requires Distinct(rs) && base + |rs| <= out.Length && p < readers && PartsAt(t, rs, readers, gs, out[..], base)
    modifies out
    ensures PartsAt(t, rs, readers, after, out[..], base)
    ensures if Over(Part(rs, p, readers), gs[p]) then after[p] == gs[p]
            else after[p].failed || after[p].at == gs[p].at + 1
    ensures forall q :: 0 <= q < readers && q != p ==> after[q] == gs[q]
    ensures forall k :: 0 <= k < out.Length && !(base <= k < base + |rs|) ==> out[k] == old(out[k])
  {
    hide Part, Runs, Distinct, PartAt, PartDone, Previous;
    var part, g := Part(rs, p, readers), gs[p];
    PartShape(rs, p, readers, base);
    if Over(part, g) {
      return gs;
    }
    PartNow(t, part, g, out[..], base);
    ghost var before := out[..];
    var ok, next, took := ReadTurn(t, part, out, base, g.at, g.previous);
    after := gs[p := if ok then Progress(g.at + 1, next, g.fetched + took, false) else g.(failed := true)];
    if ok {
      PartNext(t, part, after[p], out[..], base);
    } else {
      PartFailed(t, part, g, before, out[..], base);
    }
    forall q | 0 <= q < readers && q != p
      ensures PartAt(t, Part(rs, q, readers), gs[q], out[..], base)
    {
      PartKept(t, rs, q, p, readers, gs[q], g.at, before, out[..], base);
    }
  }

  lemma PartNow<R>(t: Table<R>, part: seq<Request>, g: Progress, out: seq<R>, base: nat)
    requires PartAt(t, part, g, out, base) && !Over(part, g)
    ensures g.at < |part| && PartDone(t, part[..g.at], out, base) && Previous(part, base, g.at, g.previous)
    ensures g.fetched == Runs(part[..g.at])
  {
  }

  lemma PartNext<R>(t: Table<R>, part: seq<Request>, g: Progress, out: seq<R>, base: nat)
    requires g.at <= |part| && PartDone(t, part[..g.at], out, base) && Previous(part, base, g.at, g.previous)
    requires g.fetched == Runs(part[..g.at]) && !g.failed
    ensures PartAt(t, part, g, out, base)
  {
    hide PartDone, Previous, Runs;
  }

  /** A row that could not be read leaves the earlier slots alone. */
  lemma PartFailed<R>(t: Table<R>, part: seq<Request>, g: Progress, before: seq<R>, after: seq<R>, base: nat)
    requires PartAt(t, part, g, before, base) && g.at < |part| && !t.Readable(part[g.at].row) && |before| == |after|
    requires forall h, i :: 0 <= h < i < |part| ==> part[h].output != part[i].output
    requires forall k :: 0 <= k < |after| && k != base + part[g.at].output ==> after[k] == before[k]
    ensures PartAt(t, part, g.(failed := true), after, base)
  {
    hide Runs;
  }

  /** The parts of one batch, read by their readers at the same time: turns says whose loop goes on when,
      and whoever is not finished then is waited for. Whatever the turns, a failing part does not stop
      the others. */
  method RunParts<R>(t: Table<R>, rs: seq<Request>, out: array<R>, base: nat, readers: nat, turns: seq<nat>)
    returns (ok: bool, counts: seq<nat>)
    requires Distinct(rs) && base + |rs| <= out.Length && readers > 0
    modifies out
    ensures ok <==> forall p :: 0 <= p < readers ==> PartReadable(t, Part(rs, p, readers))
    ensures ok ==> forall p :: 0 <= p < readers ==> PartDone(t, Part(rs, p, readers), out[..], base)
    ensures |counts| == readers
    ensures ok ==> forall p :: 0 <= p < readers ==> counts[p] == Runs(Part(rs, p, readers))
    ensures forall k :: 0 <= k < out.Length && !(base <= k < base + |rs|) ==> out[k] == old(out[k])
  {
    hide Part, Runs, Distinct, PartAt, PartReadable, PartDone;
    var gs: seq<Progress> := seq(readers, _ => Progress(0, 0, 0, false));
    PartsBegin(t, rs, readers, gs, out[..], base);
    for m := 0 to |turns|
      invariant PartsAt(t, rs, readers, gs, out[..], base)
      invariant forall k :: 0 <= k < out.Length && !(base <= k < base + |rs|) ==> out[k] == old(out[k])
    {
      if turns[m] < readers {
        gs := Turn(t, rs, readers, gs, out, base, turns[m]);
      }
    }
    for p := 0 to readers
      invariant PartsAt(t, rs, readers, gs, out[..], base)
      invariant forall q :: 0 <= q < p ==> Over(Part(rs, q, readers), gs[q])
      invariant forall k :: 0 <= k < out.Length && !(base <= k < base + |rs|) ==> out[k] == old(out[k])
    {
      gs := WaitFor(t, rs, readers, gs, out, base, p);
    }
    ok := true;
    for p := 0 to readers
      invariant ok <==> forall q :: 0 <= q < p ==> !gs[q].failed
    {
      if gs[p].failed {
        ok := false;
      }
    }
    counts := seq(readers, p requires 0 <= p < readers => gs[p].fetched);
    forall p | 0 <= p < readers
      ensures PartReadable(t, Part(rs, p, readers)) <==> !gs[p].failed
      ensures !gs[p].failed ==> PartDone(t, Part(rs, p, readers), out[..], base) && gs[p].fetched == Runs(Part(rs, p, readers))
    {
      PartOver(t, Part(rs, p, readers), gs[p], out[..], base);
    }
  }

  lemma PartsBegin<R>(t: Table<R>, rs: seq<Request>, readers: nat, gs: seq<Progress>, out: seq<R>, base: nat)
    requires gs == seq(readers, _ => Progress(0, 0, 0, false))
    ensures PartsAt(t, rs, readers, gs, out, base)
  {
    hide Part;
    NoRuns();
  }

  lemma PartOver<R>(t: Table<R>, part: seq<Request>, g: Progress, out: seq<R>, base: nat)
    requires PartAt(t, part, g, out, base) && Over(part, g)
    ensures PartReadable(t, part) <==> !g.failed
    ensures !g.failed ==> PartDone(t, part, out, base) && g.fetched == Runs(part)
  {
    hide Runs;
    assert part[..|part|] == part;
  }

  /** The part runs to its end while nobody else does. */
  method WaitFor<R>(t: Table<R>, rs: seq<Request>, readers: nat, gs: seq<Progress>, out: array<R>, base: nat, p: nat)
    returns (after: seq<Progress>)
    requires Distinct(rs) && base + |rs| <= out.Length && p < readers && PartsAt(t, rs, readers, gs, out[..], base)
    modifies out
    ensures PartsAt(t, rs, readers, after, out[..], base) && Over(Part(rs, p, readers), after[p])
    ensures forall q :: 0 <= q < readers && q != p ==> after[q] == gs[q]
    ensures forall k :: 0 <= k < out.Length && !(base <= k < base + |rs|) ==> out[k] == old(out[k])
  {
    hide Part, Runs, Distinct, PartDone, Previous;
    after := gs;
    while !Over(Part(rs, p, readers), after[p])
      invariant PartsAt(t, rs, readers, after, out[..], base)
      invariant forall q :: 0 <= q < readers && q != p ==> after[q] == gs[q]
      invariant forall k :: 0 <= k < out.Length && !(base <= k < base + |rs|) ==> out[k] == old(out[k])
      decreases if after[p].failed then 0 else |Part(rs, p, readers)| - after[p].at + 1
    {
      after := Turn(t, rs, readers, after, out, base, p);
    }
  }
}
