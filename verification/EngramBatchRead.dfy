/** ds4_engram_read_batch: the whole read, batch by batch, and how many table reads it takes
    (ds4_engram.c). */
module EngramBatchRead {
  import opened Bytes
  import opened Arith
  import opened EngramBatch
  import opened Sums

  const BATCH_TOKENS: nat := 2048

  // ----- How many reads ------------------------------------------------------------------

  lemma {:induction false} RunsConcat(a: seq<Request>, b: seq<Request>)
    ensures Runs(a) + Runs(b) <= Runs(a + b) + 1
    ensures Runs(a + b) <= Runs(a) + Runs(b)
    decreases |b|
  {
    if b == [] {
      assert a + b == a;
    } else {
      var c := b[..|b| - 1];
      RunsConcat(a, c);
      assert (a + b)[..|a + b| - 1] == a + c;
      if c == [] {
        assert a + c == a;
      }
    }
  }

  /** Splitting the requests over m readers costs at most m - 1 extra reads. */
  lemma {:induction false} PartsCost(rs: seq<Request>, readers: nat, counts: seq<nat>, m: nat)
    requires 0 < m <= readers == |counts|
    requires forall p :: 0 <= p < readers ==> counts[p] == Runs(Part(rs, p, readers))
    ensures PartStart(|rs|, m, readers) <= |rs|
    ensures Runs(rs[..PartStart(|rs|, m, readers)]) <= Sum(counts[..m]) <= Runs(rs[..PartStart(|rs|, m, readers)]) + m - 1
    decreases m
  {
    hide Runs, PartStart;
    PartsTile(|rs|, m - 1, readers);
    var (a, b) := (PartStart(|rs|, m - 1, readers), PartStart(|rs|, m, readers));
    assert counts[..m][..m - 1] == counts[..m - 1];
    assert rs[..b] == rs[..a] + Part(rs, m - 1, readers);
    RunsConcat(rs[..a], Part(rs, m - 1, readers));
    if m == 1 {
      PartEnds(|rs|, readers);
      assert rs[..a] == [];
      NoRuns();
    } else {
      PartsCost(rs, readers, counts, m - 1);
    }
  }

  function RowSet(rs: seq<Request>): set<Word32> {
    set i | 0 <= i < |rs| :: rs[i].row
  }

  ghost predicate Ascending(rs: seq<Request>) {
    forall i, j :: 0 <= i < j < |rs| ==> rs[i].row <= rs[j].row
  }

  lemma RowSetStep(rs: seq<Request>)
    requires rs != []
    ensures RowSet(rs) == RowSet(rs[..|rs| - 1]) + {rs[|rs| - 1].row}
  {
    var n := |rs| - 1;
    forall row
      ensures row in RowSet(rs) <==> row in RowSet(rs[..n]) + {rs[n].row}
    {
      if row in RowSet(rs[..n]) {
        var i :| 0 <= i < n && rs[..n][i].row == row;
        assert rs[i].row == row;
      }
      if i :| 0 <= i < |rs| && rs[i].row == row {
        assert i < n ==> rs[..n][i].row == row;
      }
    }
  }

  lemma InRowSet(rs: seq<Request>, row: Word32)
    ensures row in RowSet(rs) <==> exists i :: 0 <= i < |rs| && rs[i].row == row
  {
  }

  /** Once sorted, equal rows stand together, so the changes count the distinct rows. */
  lemma {:induction false} RunsAreDistinctRows(rs: seq<Request>)
    requires Ascending(rs)
    ensures Runs(rs) == |RowSet(rs)|
    decreases |rs|
  {
    hide RowSet;
    if rs == [] {
      EmptyRowSet();
    } else {
      var n := |rs| - 1;
      RunsAreDistinctRows(rs[..n]);
      RowSetStep(rs);
      InRowSet(rs[..n], rs[n].row);
      if n > 0 && rs[n - 1].row == rs[n].row {
        assert rs[..n][n - 1].row == rs[n].row;
        assert RowSet(rs) == RowSet(rs[..n]);
      } else if n > 0 {
        assert rs[n - 1].row < rs[n].row;
        assert rs[n].row !in RowSet(rs[..n]);
      } else {
        assert rs[n].row !in RowSet(rs[..n]);
      }
    }
  }

  lemma EmptyRowSet()
    ensures RowSet([]) == {}
  {
  }

  // ----- Sorting the requests ------------------------------------------------------------

  /** An order qsort may leave requests in: ascending rows, equal rows in any order. */
  ghost predicate Sorts(sort: seq<Request> -> seq<Request>) {
    forall rs :: SortsOne(rs, sort(rs))
  }

  ghost predicate SortsOne(rs: seq<Request>, sorted: seq<Request>) {
    multiset(sorted) == multiset(rs) && Ascending(sorted)
  }

  function Inserted(x: Request, rs: seq<Request>): seq<Request> {
    if rs != [] && rs[0].row < x.row then [rs[0]] + Inserted(x, rs[1..]) else [x] + rs
  }

  function InsertionSort(rs: seq<Request>): seq<Request> {
    if rs == [] then [] else Inserted(rs[0], InsertionSort(rs[1..]))
  }

  lemma {:induction false} InsertedHolds(x: Request, rs: seq<Request>)
    ensures multiset(Inserted(x, rs)) == multiset{x} + multiset(rs)
  {
    if rs != [] {
      assert rs == [rs[0]] + rs[1..];
      InsertedHolds(x, rs[1..]);
    }
  }

  lemma PutInFront(x: Request, rs: seq<Request>)
    requires Ascending(rs) && forall k :: 0 <= k < |rs| ==> x.row <= rs[k].row
    ensures Ascending([x] + rs)
  {
  }

  lemma {:induction false} InsertedKeeps(x: Request, rs: seq<Request>)
    requires Ascending(rs)
    ensures Ascending(Inserted(x, rs))
  {
    if rs != [] && rs[0].row < x.row {
      var rest := Inserted(x, rs[1..]);
      InsertedKeeps(x, rs[1..]);
      InsertedHolds(x, rs[1..]);
      forall k | 0 <= k < |rest|
        ensures rs[0].row <= rest[k].row
      {
        assert rest[k] in multiset(rest);
        assert rest[k] == x || rest[k] in rs[1..];
      }
      PutInFront(rs[0], rest);
    } else {
      PutInFront(x, rs);
    }
  }

  lemma {:induction false} SortExists(rs: seq<Request>)
    ensures SortsOne(rs, InsertionSort(rs))
  {
    hide Inserted;
    if rs != [] {
      SortExists(rs[1..]);
      InsertedKeeps(rs[0], InsertionSort(rs[1..]));
      InsertedHolds(rs[0], InsertionSort(rs[1..]));
      assert rs == [rs[0]] + rs[1..];
    }
  }

  /** Any list of requests can be sorted. */
  lemma SortingExists()
    ensures Sorts(InsertionSort)
  {
    forall rs
      ensures SortsOne(rs, InsertionSort(rs))
    {
      SortExists(rs);
    }
  }

  /** The requests of a batch, in token order: request i wants slot i. */
  ghost predicate InOrder(rs: seq<Request>) {
    forall i :: 0 <= i < |rs| ==> rs[i].output == i
  }

  lemma {:induction false} OneEach(rs: seq<Request>, n: nat)
    requires InOrder(rs) && n <= |rs|
    ensures forall x :: multiset(rs[..n])[x] <= 1
    ensures forall x :: x in multiset(rs[..n]) ==> x.output < n
    decreases n
  {
    if n > 0 {
      OneEach(rs, n - 1);
      assert rs[..n] == rs[..n - 1] + [rs[n - 1]];
    }
  }

  lemma SortedIsDistinct(rs: seq<Request>, sorted: seq<Request>)
    requires InOrder(rs) && SortsOne(rs, sorted)
    ensures |sorted| == |rs| && Distinct(sorted) && RowSet(sorted) == RowSet(rs)
    ensures forall i :: 0 <= i < |sorted| ==> sorted[i].output < |rs| && rs[sorted[i].output] == sorted[i]
    ensures forall k :: 0 <= k < |rs| ==> rs[k] in sorted
  {
    OneEach(rs, |rs|);
    assert rs[..|rs|] == rs;
    assert |sorted| == |multiset(sorted)| == |multiset(rs)| == |rs|;
    forall i | 0 <= i < |sorted|
      ensures sorted[i].output < |rs| && rs[sorted[i].output] == sorted[i]
    {
      assert sorted[i] in multiset(sorted);
      assert sorted[i] in multiset(rs);
    }
    forall k | 0 <= k < |rs|
      ensures rs[k] in sorted
    {
      assert rs[k] in multiset(rs);
      assert rs[k] in multiset(sorted);
    }
    forall i, j | 0 <= i < j < |sorted|
      ensures sorted[i].output != sorted[j].output
    {
      if sorted[i].output == sorted[j].output {
        assert sorted[i] == sorted[j];
        Twice(sorted, i, j);
      }
    }
    SameRowSet(rs, sorted);
  }

  lemma SameRowSet(rs: seq<Request>, sorted: seq<Request>)
    requires forall i :: 0 <= i < |sorted| ==> sorted[i].output < |rs| && rs[sorted[i].output] == sorted[i]
    requires forall k :: 0 <= k < |rs| ==> rs[k] in sorted
    ensures RowSet(sorted) == RowSet(rs)
  {
    forall row
      ensures row in RowSet(sorted) <==> row in RowSet(rs)
    {
      if row in RowSet(sorted) {
        var i :| 0 <= i < |sorted| && sorted[i].row == row;
        assert rs[sorted[i].output].row == row;
      }
      if row in RowSet(rs) {
        var k :| 0 <= k < |rs| && rs[k].row == row;
        assert rs[k] in sorted;
        var i :| 0 <= i < |sorted| && sorted[i] == rs[k];
      }
    }
  }

  lemma Twice(s: seq<Request>, i: nat, j: nat)
    requires i < j < |s| && s[i] == s[j]
    ensures multiset(s)[s[i]] >= 2
  {
    assert s == s[..i] + [s[i]] + s[i + 1..j] + [s[j]] + s[j + 1..];
  }

  // ----- One batch -----------------------------------------------------------------------

  /** Reads one batch: it succeeds exactly when every wanted row is readable, then holds what each slot
      wanted, and takes no more table reads than distinct rows plus one for each further reader. */
  method ReadOneBatch<R>(
    t: Table<R>, requests: seq<Request>, sort: seq<Request> -> seq<Request>, out: array<R>, base: nat,
    readers: nat, turns: seq<nat>)
    returns (ok: bool, fetched: nat)
    requires InOrder(requests) && Sorts(sort) && base + |requests| <= out.Length
    requires readers > 0
    modifies out
    ensures ok <==> PartReadable(t, requests)
    ensures ok ==> PartDone(t, requests, out[..], base)
    ensures forall k :: 0 <= k < out.Length && !(base <= k < base + |requests|) ==> out[k] == old(out[k])
    ensures ok ==> |RowSet(requests)| <= fetched <= |RowSet(requests)| + readers - 1
  {
    hide Part, Runs, Sum, RowSet, Distinct;
    var rs := sort(requests);
    assert SortsOne(requests, rs);
    SortedIsDistinct(requests, rs);
    var counts: seq<nat>;
    ok, counts := RunParts(t, rs, out, base, readers, turns);
    if ok {
      PartsCost(rs, readers, counts, readers);
      PartEnds(|rs|, readers);
      assert counts[..readers] == counts && rs[..|rs|] == rs;
      RunsAreDistinctRows(rs);
    }
    SumOfNats(counts);
    fetched := Sum(counts);
    SlotsFilled(t, requests, rs, out[..], base, readers, ok);
  }

  /** Every request lies in some part. */
  lemma PartHolding(rs: seq<Request>, readers: nat, k: nat) returns (p: nat, i: nat)
    requires 0 < readers && k < |rs|
    ensures p < readers && i < |Part(rs, p, readers)| && Part(rs, p, readers)[i] == rs[k]
  {
    hide PartStart;
    PartEnds(|rs|, readers);
    p := PartOf(|rs|, readers, k, readers);
    PartsTile(|rs|, p, readers);
    i := k - PartStart(|rs|, p, readers);
  }

  lemma SlotFilled<R>(t: Table<R>, rs: seq<Request>, request: Request, out: seq<R>, base: nat, readers: nat)
    requires request in rs && 0 < readers
    requires forall p :: 0 <= p < readers ==> PartDone(t, Part(rs, p, readers), out, base)
    ensures t.Readable(request.row)
    ensures base + request.output < |out| && out[base + request.output] == t.decode(request.row).value
  {
    hide Part;
    var k :| 0 <= k < |rs| && rs[k] == request;
    var p, i := PartHolding(rs, readers, k);
    assert PartDone(t, Part(rs, p, readers), out, base);
  }

  lemma UnreadableIsRequested<R>(t: Table<R>, rs: seq<Request>, readers: nat) returns (k: nat)
    requires exists p :: 0 <= p < readers && !PartReadable(t, Part(rs, p, readers))
    ensures k < |rs| && !t.Readable(rs[k].row)
  {
    var p :| 0 <= p < readers && !PartReadable(t, Part(rs, p, readers));
    var i :| 0 <= i < |Part(rs, p, readers)| && !t.Readable(Part(rs, p, readers)[i].row);
    PartsTile(|rs|, p, readers);
    k := PartStart(|rs|, p, readers) + i;
    assert rs[k] == Part(rs, p, readers)[i];
  }

  /** So the parts together decide about every request and fill every slot. */
  lemma SlotsFilled<R>(
    t: Table<R>, requests: seq<Request>, rs: seq<Request>, out: seq<R>, base: nat, readers: nat, ok: bool)
    requires InOrder(requests) && SortsOne(requests, rs) && 0 < readers
    requires ok <==> forall p :: 0 <= p < readers ==> PartReadable(t, Part(rs, p, readers))
    requires ok ==> forall p :: 0 <= p < readers ==> PartDone(t, Part(rs, p, readers), out, base)
    ensures ok <==> PartReadable(t, requests)
    ensures ok ==> PartDone(t, requests, out, base)
  {
    hide Distinct, RowSet, Part, SortsOne;
    SortedIsDistinct(requests, rs);
    if ok {
      forall i | 0 <= i < |requests|
        ensures
          && t.Readable(requests[i].row) && base + requests[i].output < |out|
          && out[base + requests[i].output] == t.decode(requests[i].row).value
      {
        SlotFilled(t, rs, requests[i], out, base, readers);
      }
    } else {
      var k := UnreadableIsRequested(t, rs, readers);
      assert requests[rs[k].output] == rs[k];
    }
  }

  // ----- The whole read ------------------------------------------------------------------

  /** The row that packed slot k wants: its token's column, at that token's place in the input. */
  function Wanted(rows: seq<Word32>, stride: nat, tokens: nat, k: nat): Word32
    requires Fits(rows, stride, tokens) && k < tokens * COLS
  {
    WantedInRange(rows, stride, tokens, k);
    rows[k / COLS * stride + k % COLS]
  }

  /** The input holds COLS rows for every token, stride apart. */
  ghost predicate Fits(rows: seq<Word32>, stride: nat, tokens: nat) {
    tokens > 0 ==> stride >= COLS && (tokens - 1) * stride + COLS <= |rows|
  }

  lemma WantedInRange(rows: seq<Word32>, stride: nat, tokens: nat, k: nat)
    requires Fits(rows, stride, tokens) && k < tokens * COLS
    ensures k / COLS * stride + k % COLS < |rows|
  {
    MulMono(k / COLS, tokens - 1, stride);
  }

  function Min(a: nat, b: nat): nat {
    if a < b then a else b
  }

  function BatchTokens(tokens: nat, start: nat): nat
    requires start <= tokens
  {
    Min(tokens - start, BATCH_TOKENS)
  }

  /** What the batch that begins at token start asks for. */
  function BatchRequests(rows: seq<Word32>, stride: nat, tokens: nat, start: nat): (rs: seq<Request>)
    requires Fits(rows, stride, tokens) && start <= tokens
    ensures InOrder(rs) && |rs| == BatchTokens(tokens, start) * COLS
  {
    seq(BatchTokens(tokens, start) * COLS,
        i requires 0 <= i < BatchTokens(tokens, start) * COLS => Request(Wanted(rows, stride, tokens, start * COLS + i), i))
  }

  /** A small batch has one reader, another as many as configured but no more than requests. */
  function Readers(configured: nat, count: nat): nat {
    if count >= 256 then Min(configured, count) else 1
  }

  /** The reads of one batch: each of its distinct rows, and at most one more for each further reader. */
  ghost predicate Frugal(rs: seq<Request>, configured: nat, fetched: nat) {
    |RowSet(rs)| <= fetched < |RowSet(rs)| + Readers(configured, |rs|)
  }

  method RangeCheck(limit: nat, rows: seq<Word32>, tokens: nat, stride: nat) returns (ok: bool)
    requires Fits(rows, stride, tokens)
    ensures ok <==> forall k :: 0 <= k < tokens * COLS ==> Wanted(rows, stride, tokens, k) < limit
  {
    for k := 0 to tokens * COLS
      invariant forall j :: 0 <= j < k ==> Wanted(rows, stride, tokens, j) < limit
    {
      if Wanted(rows, stride, tokens, k) >= limit {
        return false;
      }
    }
    return true;
  }

  /** The row for column j of token i is in the table and can be read. */
  predicate Serves<R>(t: Table<R>, rows: seq<Word32>, stride: nat, i: nat, j: nat) {
    i * stride + j < |rows| && rows[i * stride + j] < t.rows && t.decode(rows[i * stride + j]).Some?
  }

  /** And stands in slot j of token i. */
  predicate Served<R(==)>(t: Table<R>, rows: seq<Word32>, stride: nat, i: nat, j: nat, out: seq<R>) {
    Serves(t, rows, stride, i, j) && i * 24 + j < |out| && out[i * 24 + j] == t.decode(rows[i * stride + j]).value
  }

  lemma SlotOf(rows: seq<Word32>, stride: nat, tokens: nat, i: nat, j: nat)
    requires Fits(rows, stride, tokens) && i < tokens && j < COLS
    ensures i * COLS + j < tokens * COLS && i * stride + j < |rows|
    ensures Wanted(rows, stride, tokens, i * COLS + j) == rows[i * stride + j]
  {
    DivUnique(i * COLS + j, COLS, i, j);
    MulMono(i + 1, tokens, COLS);
    WantedInRange(rows, stride, tokens, i * COLS + j);
  }

  /** Slot by slot is token by token and column by column. */
  lemma SlotsAreColumns<R>(t: Table<R>, rows: seq<Word32>, stride: nat, tokens: nat, out: seq<R>)
    requires Fits(rows, stride, tokens) && |out| == tokens * COLS
    ensures (forall k :: 0 <= k < tokens * COLS ==> t.Readable(Wanted(rows, stride, tokens, k)))
      <==> forall i, j :: 0 <= i < tokens && 0 <= j < COLS ==> Serves(t, rows, stride, i, j)
    ensures (forall k :: 0 <= k < tokens * COLS ==>
               t.Readable(Wanted(rows, stride, tokens, k)) && out[k] == t.decode(Wanted(rows, stride, tokens, k)).value)
      ==> forall i, j :: 0 <= i < tokens && 0 <= j < COLS ==> Served(t, rows, stride, i, j, out)
  {
    hide Fits, Wanted;
    if forall k :: 0 <= k < tokens * COLS ==> t.Readable(Wanted(rows, stride, tokens, k)) {
      forall i, j | 0 <= i < tokens && 0 <= j < COLS
        ensures Serves(t, rows, stride, i, j)
      {
        SlotOf(rows, stride, tokens, i, j);
        assert t.Readable(Wanted(rows, stride, tokens, i * COLS + j));
      }
    }
    if forall i, j :: 0 <= i < tokens && 0 <= j < COLS ==> Serves(t, rows, stride, i, j) {
      forall k | 0 <= k < tokens * COLS
        ensures t.Readable(Wanted(rows, stride, tokens, k))
      {
        DivMod(k, COLS);
        assert k / COLS < tokens;
        assert Serves(t, rows, stride, k / COLS, k % COLS);
        SlotOf(rows, stride, tokens, k / COLS, k % COLS);
      }
    }
    if forall k :: 0 <= k < tokens * COLS ==>
         t.Readable(Wanted(rows, stride, tokens, k)) && out[k] == t.decode(Wanted(rows, stride, tokens, k)).value {
      forall i, j | 0 <= i < tokens && 0 <= j < COLS
        ensures Served(t, rows, stride, i, j, out)
      {
        SlotOf(rows, stride, tokens, i, j);
        assert t.Readable(Wanted(rows, stride, tokens, i * COLS + j));
      }
    }
  }

  predicate OutOfTable<R>(t: Table<R>, rows: seq<Word32>, stride: nat, i: nat, j: nat) {
    i * stride + j < |rows| && rows[i * stride + j] >= t.rows
  }

  /** The rows that n tokens from token first on ask for. */
  ghost predicate Asked(rows: seq<Word32>, stride: nat, first: nat, n: nat, row: Word32) {
    exists i, j :: first <= i < first + n && 0 <= j < 24 && RowAt(rows, stride, i, j, row)
  }

  predicate RowAt(rows: seq<Word32>, stride: nat, i: nat, j: nat, row: Word32) {
    i * stride + j < |rows| && rows[i * stride + j] == row
  }

  /** A batch of up to 2048 tokens took a read for each of its rows, and no more but one for every reader
      after the first: none for fewer than 256 slots, and no more readers than slots. */
  ghost predicate BatchCost(rows: seq<Word32>, stride: nat, tokens: nat, first: nat, configured: nat, took: nat)
    requires first <= tokens
  {
    var n := if tokens - first < 2048 then tokens - first else 2048;
    var readers := if 24 * n < 256 then 1 else if configured < 24 * n then configured else 24 * n;
    exists asked: set<Word32> ::
      && (forall row :: row in asked <==> Asked(rows, stride, first, n, row))
      && |asked| <= took <= |asked| + readers - 1
  }

  lemma FrugalIsCost(rows: seq<Word32>, stride: nat, tokens: nat, first: nat, configured: nat, took: nat)
    requires Fits(rows, stride, tokens) && first < tokens
    requires Frugal(BatchRequests(rows, stride, tokens, first), configured, took)
    ensures BatchCost(rows, stride, tokens, first, configured, took)
  {
    hide Fits, Wanted;
    var rs := BatchRequests(rows, stride, tokens, first);
    var n := BatchTokens(tokens, first);
    forall row: Word32
      ensures row in RowSet(rs) <==> Asked(rows, stride, first, n, row)
    {
      if k :| 0 <= k < |rs| && rs[k].row == row {
        DivMod(k, COLS);
        var (i, j) := (first + k / COLS, k % COLS);
        SlotOf(rows, stride, tokens, i, j);
        assert first * COLS + k == i * COLS + j;
        assert RowAt(rows, stride, i, j, row);
      }
      if i, j :| first <= i < first + n && 0 <= j < 24 && RowAt(rows, stride, i, j, row) {
        SlotOf(rows, stride, tokens, i, j);
        var k := (i - first) * COLS + j;
        MulMono(i - first, n - 1, COLS);
        assert rs[k].row == Wanted(rows, stride, tokens, first * COLS + k);
      }
    }
  }

  lemma OutsideIsWanted<R>(t: Table<R>, rows: seq<Word32>, stride: nat, tokens: nat, i: nat, j: nat)
    requires Fits(rows, stride, tokens) && i < tokens && j < COLS && OutOfTable(t, rows, stride, i, j)
    ensures exists k :: 0 <= k < tokens * COLS && Wanted(rows, stride, tokens, k) >= t.rows
  {
    hide Fits, Wanted;
    SlotOf(rows, stride, tokens, i, j);
    assert Wanted(rows, stride, tokens, i * COLS + j) >= t.rows;
  }

  /** One turn of the loop over the batches, on the slots of the batch that begins at token start. */
  method ReadNext<R>(
    t: Table<R>, rows: seq<Word32>, tokens: nat, stride: nat, out: array<R>,
    sort: seq<Request> -> seq<Request>, configured: nat, turns: seq<nat>, start: nat)
    returns (ok: bool, took: nat)
    requires Fits(rows, stride, tokens) && start < tokens && out.Length == tokens * COLS && Sorts(sort)
    requires configured > 0
    modifies out
    ensures var (from, until) := (start * COLS, (start + BatchTokens(tokens, start)) * COLS);
            && (ok <==> forall k :: from <= k < until ==> t.Readable(Wanted(rows, stride, tokens, k)))
            && (ok ==> forall k :: from <= k < until ==> out[k] == t.decode(Wanted(rows, stride, tokens, k)).value)
            && forall k :: 0 <= k < from ==> out[k] == old(out[k])
    ensures ok ==> Frugal(BatchRequests(rows, stride, tokens, start), configured, took)
  {
    hide Fits, Wanted, Sorts, RowSet;
    var requests := BatchRequests(rows, stride, tokens, start);
    var base := start * COLS;
    ok, took := ReadOneBatch(t, requests, sort, out, base, Readers(configured, |requests|), turns);
    forall k | base <= k < base + |requests|
      ensures requests[k - base] == Request(Wanted(rows, stride, tokens, k), k - base)
      ensures ok ==> t.Readable(Wanted(rows, stride, tokens, k)) && out[k] == t.decode(Wanted(rows, stride, tokens, k)).value
    {
      var request := requests[k - base];
      assert ok ==> out[..][base + request.output] == t.decode(request.row).value;
    }
    if !ok {
      var i :| 0 <= i < |requests| && !t.Readable(requests[i].row);
      assert requests[base + i - base] == Request(Wanted(rows, stride, tokens, base + i), i);
    }
  }

  /** Its loop over the batches, slot by slot. Batch j begins at token j * BATCH_TOKENS; fetched[j] is the
      number of table reads it took. */
  method ReadSlots<R>(
    t: Table<R>, rows: seq<Word32>, tokens: nat, stride: nat, out: array<R>,
    sort: seq<Request> -> seq<Request>, configured: nat, turns: nat -> seq<nat>)
    returns (ok: bool, fetched: seq<nat>)
    requires Fits(rows, stride, tokens) && out.Length == tokens * COLS && Sorts(sort)
    requires configured > 0
    modifies out
    ensures ok <==> forall k :: 0 <= k < tokens * COLS ==> t.Readable(Wanted(rows, stride, tokens, k))
    ensures ok ==> forall k :: 0 <= k < tokens * COLS ==> out[k] == t.decode(Wanted(rows, stride, tokens, k)).value
    ensures (exists k :: 0 <= k < tokens * COLS && Wanted(rows, stride, tokens, k) >= t.rows) ==> out[..] == old(out[..])
    ensures ok ==> (|fetched| - 1) * BATCH_TOKENS < tokens <= |fetched| * BATCH_TOKENS
    ensures forall j :: 0 <= j < |fetched| ==>
              && j * BATCH_TOKENS < tokens
              && Frugal(BatchRequests(rows, stride, tokens, j * BATCH_TOKENS), configured, fetched[j])
  {
    hide Fits, Wanted, Sorts, RowSet, BatchRequests, Frugal;
    fetched := [];
    var inRange := RangeCheck(t.rows, rows, tokens, stride);
    if !inRange {
      return false, fetched;
    }
    if tokens == 0 {
      return true, fetched;
    }
    var start := 0;
    while start < tokens
      invariant 0 <= start <= tokens && (start == |fetched| * BATCH_TOKENS || start == tokens)
      invariant (|fetched| - 1) * BATCH_TOKENS < start <= |fetched| * BATCH_TOKENS
      invariant forall j :: 0 <= j < |fetched| ==>
                  && j * BATCH_TOKENS < tokens
                  && Frugal(BatchRequests(rows, stride, tokens, j * BATCH_TOKENS), configured, fetched[j])
      invariant forall k :: 0 <= k < start * COLS ==> t.Readable(Wanted(rows, stride, tokens, k))
      invariant forall k :: 0 <= k < start * COLS ==> out[k] == t.decode(Wanted(rows, stride, tokens, k)).value
    {
      var read, took := ReadNext(t, rows, tokens, stride, out, sort, configured, turns(start), start);
      if !read {
        return false, fetched;
      }
      fetched := fetched + [took];
      start := start + BatchTokens(tokens, start);
    }
    return true, fetched;
  }

  /** ds4_engram_read_batch, with the turns that each batch's readers take given by its first token:
      whatever the order of equal rows, the number of readers and the turns they take, it
      succeeds exactly when every wanted row could be read on its own, and every slot then holds
      what reading its row directly gives. Batch j begins at token j * BATCH_TOKENS; fetched[j] is the
      number of table reads it took. */
  method ReadBatch<R>(
    t: Table<R>, rows: seq<Word32>, tokens: nat, stride: nat, out: array<R>,
    sort: seq<Request> -> seq<Request>, configured: nat, turns: nat -> seq<nat>)
    returns (ok: bool, fetched: seq<nat>)
    requires Fits(rows, stride, tokens) && out.Length == tokens * COLS && Sorts(sort)
    requires configured > 0
    modifies out
    ensures ok <==> forall i, j :: 0 <= i < tokens && 0 <= j < COLS ==> Serves(t, rows, stride, i, j)
    ensures ok ==> forall i, j :: 0 <= i < tokens && 0 <= j < COLS ==> Served(t, rows, stride, i, j, out[..])
    ensures (exists i, j :: 0 <= i < tokens && 0 <= j < COLS && OutOfTable(t, rows, stride, i, j)) ==> out[..] == old(out[..])
    ensures ok ==> (|fetched| - 1) * BATCH_TOKENS < tokens <= |fetched| * BATCH_TOKENS
    ensures forall j :: 0 <= j < |fetched| ==>
              && j * BATCH_TOKENS < tokens
              && BatchCost(rows, stride, tokens, j * BATCH_TOKENS, configured, fetched[j])
  {
    hide Fits, Wanted, Sorts, BatchRequests, Frugal, Serves, Served, OutOfTable, BatchCost;
    if i, j :| 0 <= i < tokens && 0 <= j < COLS && OutOfTable(t, rows, stride, i, j) {
      OutsideIsWanted(t, rows, stride, tokens, i, j);
    }
    ok, fetched := ReadSlots(t, rows, tokens, stride, out, sort, configured, turns);
    SlotsAreColumns(t, rows, stride, tokens, out[..]);
    forall j | 0 <= j < |fetched|
      ensures BatchCost(rows, stride, tokens, j * BATCH_TOKENS, configured, fetched[j])
    {
      FrugalIsCost(rows, stride, tokens, j * BATCH_TOKENS, configured, fetched[j]);
    }
  }
}
