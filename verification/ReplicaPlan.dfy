/** Splitting one read over up to three identical drives in proportion to their weights
    (argodrive_read.h). */
module ReplicaPlan {
  import opened Options
  import opened Bytes
  import opened Arith
  import opened Sums

  const BLOCK: nat := 256 * 1024

  datatype Source = Source(weight: Word32, decodeWeight: Word32)

  /** ar_effective_weight. */
  function EffectiveWeight(s: Source, decodePhase: bool): Word32 {
    if decodePhase && s.decodeWeight != 0 then s.decodeWeight else s.weight
  }

  datatype Piece = Piece(offset: Word64, length: Word64)

  // ----- Quotas --------------------------------------------------------------------------

  predicate WeightsOk(ws: seq<nat>) {
    1 <= |ws| <= 3 && forall i :: 0 <= i < |ws| ==> 1 <= ws[i] <= 100
  }

  /** The whole blocks source i is owed. */
  function Floor(blocks: nat, total: nat, w: nat): nat
    requires total > 0
  {
    blocks * w / total
  }

  function Remainder(blocks: nat, total: nat, w: nat): (r: nat)
    requires total > 0
    ensures r < total
  {
    blocks * w % total
  }

  function Floors(blocks: nat, total: nat, ws: seq<nat>): (fs: seq<nat>)
    requires total > 0
    ensures |fs| == |ws|
  {
    seq(|ws|, i requires 0 <= i < |ws| => Floor(blocks, total, ws[i]))
  }

  function Remainders(blocks: nat, total: nat, ws: seq<nat>): (rs: seq<nat>)
    requires total > 0
    ensures |rs| == |ws| && forall i :: 0 <= i < |rs| ==> rs[i] < total
  {
    seq(|ws|, i requires 0 <= i < |ws| => Remainder(blocks, total, ws[i]))
  }

  /** A quota is its whole blocks and its remainder. */
  lemma Quota(blocks: nat, total: nat, w: nat)
    requires total > 0
    ensures blocks * w == Floor(blocks, total, w) * total + Remainder(blocks, total, w)
  {
    DivMod(blocks * w, total);
  }

  /** The remainders add up to the blocks that the floors leave over, in units of total. */
  lemma {:induction false} LeftOver(blocks: nat, total: nat, ws: seq<nat>)
    requires total > 0
    ensures blocks * Sum(ws) == Sum(Floors(blocks, total, ws)) * total + Sum(Remainders(blocks, total, ws))
  {
    hide Floor, Remainder;
    if ws != [] {
      var n := |ws| - 1;
      LeftOver(blocks, total, ws[..n]);
      Quota(blocks, total, ws[n]);
      assert Floors(blocks, total, ws)[..n] == Floors(blocks, total, ws[..n]);
      assert Remainders(blocks, total, ws)[..n] == Remainders(blocks, total, ws[..n]);
      Distribute(blocks, Sum(ws[..n]), ws[n]);
      Distribute(total, Sum(Floors(blocks, total, ws[..n])), Floor(blocks, total, ws[n]));
    } else {
      assert Floors(blocks, total, ws) == [] && Remainders(blocks, total, ws) == [];
    }
  }

  // ----- The best split ------------------------------------------------------------------

  function Abs(x: int): nat {
    if x < 0 then -x else x
  }

  /** How far count is from the quota of weight w, in units of one total-th of a block. */
  function Deviation(blocks: nat, total: nat, w: nat, count: nat): nat {
    Abs(count * total - blocks * w)
  }

  function Deviations(blocks: nat, total: nat, ws: seq<nat>, counts: seq<nat>): (ds: seq<nat>)
    requires |counts| == |ws|
    ensures |ds| == |ws|
  {
    seq(|ws|, i requires 0 <= i < |ws| => Deviation(blocks, total, ws[i], counts[i]))
  }

  /** Each source has its floor or one more, and those with one more have the largest remainders:
      none below theta, while no other is above it. */
  ghost predicate Greedy(blocks: nat, total: nat, ws: seq<nat>, counts: seq<nat>, theta: nat)
    requires total > 0 && |counts| == |ws|
  {
    && 0 < theta <= total
    && forall i :: 0 <= i < |ws| ==> GreedyAt(blocks, total, ws[i], counts[i], theta)
  }

  ghost predicate GreedyAt(blocks: nat, total: nat, w: nat, count: nat, theta: nat)
    requires total > 0
  {
    var (f, r) := (Floor(blocks, total, w), Remainder(blocks, total, w));
    (count == f && r <= theta) || (count == f + 1 && theta <= r)
  }

  /** Moving e - s blocks to a source costs at least what a linear price would charge. */
  lemma PriceBound(t: int, theta: int, r: int, s: int, e: int)
    requires 0 <= theta <= t && 0 <= r < t && ((s == 0 && r <= theta) || (s == 1 && theta <= r))
    ensures Abs(e * t - r) >= Abs(s * t - r) + (e - s) * (t - 2 * theta)
  {
    var et, price := e * t, e * theta;
    if e >= 1 {
      MulMono(1, e, t);
      MulMono(1, e, theta);
    } else {
      MulMono(e, 0, t);
      MulMono(e, 0, t - theta);
      Distribute(e, t, -theta);
    }
    PriceTerms(t, theta, s, e);
    PriceCases(t, theta, r, s, e, et, price);
  }

  lemma PriceTerms(t: int, theta: int, s: int, e: int)
    requires s == 0 || s == 1
    ensures (e - s) * (t - 2 * theta) == e * t - 2 * (e * theta) - s * (t - 2 * theta)
    ensures s * t == if s == 0 then 0 else t
  {
    Distribute(t - 2 * theta, e, -s);
    Distribute(e, t, -2 * theta);
  }

  /** The cases of PriceBound, with its two products as plain numbers. */
  lemma PriceCases(t: int, theta: int, r: int, s: int, e: int, et: int, price: int)
    requires 0 <= theta <= t && 0 <= r < t && ((s == 0 && r <= theta) || (s == 1 && theta <= r))
    requires if e >= 1 then et >= t && price >= theta else et <= 0 && et <= price
    ensures s == 0 ==> Abs(et - r) >= Abs(-r) + et - 2 * price
    ensures s == 1 ==> Abs(et - r) >= Abs(t - r) + et - 2 * price - (t - 2 * theta)
  {
  }

  lemma DeviationBound(blocks: nat, total: nat, w: nat, count: nat, other: nat, theta: nat)
    requires total > 0 && theta <= total && GreedyAt(blocks, total, w, count, theta)
    ensures Deviation(blocks, total, w, other)
         >= Deviation(blocks, total, w, count) + (other - count) * (total - 2 * theta)
  {
    hide Floor, Remainder, Abs;
    var (f, r) := (Floor(blocks, total, w), Remainder(blocks, total, w));
    Quota(blocks, total, w);
    PriceBound(total, theta, r, count - f, other - f);
    var minusF: int := -(f as int);
    Distribute(total, other, minusF);
    Distribute(total, count, minusF);
    assert minusF * total == -(f * total);
    assert (other - f) - (count - f) == other - count;
  }

  lemma {:induction false} PricesAddUp(
    blocks: nat, total: nat, ws: seq<nat>, counts: seq<nat>, others: seq<nat>, theta: nat)
    requires total > 0 && |counts| == |others| == |ws| && Greedy(blocks, total, ws, counts, theta)
    ensures Sum(Deviations(blocks, total, ws, others))
         >= Sum(Deviations(blocks, total, ws, counts)) + (Sum(others) - Sum(counts)) * (total - 2 * theta)
    decreases |ws|
  {
    hide Deviation, GreedyAt;
    if ws == [] {
      assert Deviations(blocks, total, ws, others) == [] && Deviations(blocks, total, ws, counts) == [];
    } else {
      var n := |ws| - 1;
      PricesAddUp(blocks, total, ws[..n], counts[..n], others[..n], theta);
      assert Deviations(blocks, total, ws, others)[..n] == Deviations(blocks, total, ws[..n], others[..n]);
      assert Deviations(blocks, total, ws, counts)[..n] == Deviations(blocks, total, ws[..n], counts[..n]);
      DeviationBound(blocks, total, ws[n], counts[n], others[n], theta);
      var before: int := Sum(others[..n]) - Sum(counts[..n]);
      var last: int := (others[n] as int) - (counts[n] as int);
      Distribute(total - 2 * theta, before, last);
    }
  }

  /** No other split of the same blocks lies closer to the weights. */
  lemma GreedyIsBest(blocks: nat, total: nat, ws: seq<nat>, counts: seq<nat>, others: seq<nat>, theta: nat)
    requires total > 0 && |counts| == |others| == |ws| && Greedy(blocks, total, ws, counts, theta)
    requires Sum(others) == Sum(counts)
    ensures Sum(Deviations(blocks, total, ws, counts)) <= Sum(Deviations(blocks, total, ws, others))
  {
    hide Greedy, Deviations, Sum;
    PricesAddUp(blocks, total, ws, counts, others, theta);
    assert (Sum(others) - Sum(counts)) * (total - 2 * theta) == 0;
  }

  /** A source that was given a block on top of its floor. */
  predicate Extra(blocks: nat, total: nat, w: nat, count: nat)
    requires total > 0
  {
    count == Floor(blocks, total, w) + 1
  }

  /** Of two sources with the same remainder the earlier one is served first. */
  ghost predicate EarlierFirst(blocks: nat, total: nat, ws: seq<nat>, counts: seq<nat>)
    requires total > 0 && |counts| == |ws|
  {
    forall i, j :: 0 <= i < j < |ws| && Remainder(blocks, total, ws[i]) == Remainder(blocks, total, ws[j]) ==>
      Extra(blocks, total, ws[j], counts[j]) ==> Extra(blocks, total, ws[i], counts[i])
  }

  /** Whoever comes before a source that was given an extra block was given one too. */
  lemma ExtraIsClosed(blocks: nat, total: nat, ws: seq<nat>, counts: seq<nat>, theta: nat, i: nat, j: nat)
    requires total > 0 && |counts| == |ws| && i < |ws| && j < |ws|
    requires Greedy(blocks, total, ws, counts, theta) && EarlierFirst(blocks, total, ws, counts)
    requires var (ri, rj) := (Remainder(blocks, total, ws[i]), Remainder(blocks, total, ws[j])); ri > rj || (ri == rj && i < j)
    requires Extra(blocks, total, ws[j], counts[j])
    ensures Extra(blocks, total, ws[i], counts[i])
  {
    hide Floor, Remainder;
    assert GreedyAt(blocks, total, ws[i], counts[i], theta) && GreedyAt(blocks, total, ws[j], counts[j], theta);
  }

  /** If a source got more in one such split than in the other, none got less. */
  lemma NoneGotLess(
    blocks: nat, total: nat, ws: seq<nat>, a: seq<nat>, thetaA: nat, b: seq<nat>, thetaB: nat, i: nat, j: nat)
    requires total > 0 && |a| == |b| == |ws| && i < |ws| && j < |ws|
    requires Greedy(blocks, total, ws, a, thetaA) && EarlierFirst(blocks, total, ws, a)
    requires Greedy(blocks, total, ws, b, thetaB) && EarlierFirst(blocks, total, ws, b)
    requires a[i] > b[i]
    ensures b[j] <= a[j]
  {
    hide Floor, Remainder, EarlierFirst;
    assert GreedyAt(blocks, total, ws[i], a[i], thetaA) && GreedyAt(blocks, total, ws[i], b[i], thetaB);
    assert GreedyAt(blocks, total, ws[j], a[j], thetaA) && GreedyAt(blocks, total, ws[j], b[j], thetaB);
    if b[j] > a[j] {
      var (ri, rj) := (Remainder(blocks, total, ws[i]), Remainder(blocks, total, ws[j]));
      if ri > rj || (ri == rj && i < j) {
        ExtraIsClosed(blocks, total, ws, b, thetaB, i, j);
      } else {
        ExtraIsClosed(blocks, total, ws, a, thetaA, j, i);
      }
      assert false;
    }
  }

  /** There is only one split of the blocks by largest remainder, the earlier source first. */
  lemma OnlyOneSplit(blocks: nat, total: nat, ws: seq<nat>, a: seq<nat>, thetaA: nat, b: seq<nat>, thetaB: nat)
    requires total > 0 && |a| == |b| == |ws| && Sum(a) == Sum(b)
    requires Greedy(blocks, total, ws, a, thetaA) && EarlierFirst(blocks, total, ws, a)
    requires Greedy(blocks, total, ws, b, thetaB) && EarlierFirst(blocks, total, ws, b)
    ensures a == b
  {
    hide Greedy, EarlierFirst, Sum;
    if i: nat :| i < |ws| && a[i] > b[i] {
      forall j | 0 <= j < |ws|
        ensures b[j] <= a[j]
      {
        NoneGotLess(blocks, total, ws, a, thetaA, b, thetaB, i, j);
      }
      SumCompare(b, a);
    } else {
      SumCompare(a, b);
    }
  }

  /** Of two sources of the same weight the earlier one gets no less. */
  lemma EqualWeights(blocks: nat, total: nat, ws: seq<nat>, counts: seq<nat>, theta: nat, i: nat, j: nat)
    requires total > 0 && |counts| == |ws| && i < j < |ws| && ws[i] == ws[j]
    requires Greedy(blocks, total, ws, counts, theta) && EarlierFirst(blocks, total, ws, counts)
    ensures counts[j] <= counts[i] <= counts[j] + 1
  {
    hide Floor, Remainder;
    assert GreedyAt(blocks, total, ws[i], counts[i], theta) && GreedyAt(blocks, total, ws[j], counts[j], theta);
  }

  // ----- Apportioning the blocks ---------------------------------------------------------

  /** What the loop knows about one source: not picked yet, or picked once with its remainder spent. */
  ghost predicate PickedAt(blocks: nat, total: nat, w: nat, count: nat, left: nat, theta: nat)
    requires total > 0
  {
    var (f, r) := (Floor(blocks, total, w), Remainder(blocks, total, w));
    (count == f && left == r && r <= theta) || (count == f + 1 && left == 0 && theta <= r)
  }

  lemma FloorsFit(blocks: nat, total: nat, ws: seq<nat>)
    requires total > 0 && Sum(ws) == total
    ensures Sum(Floors(blocks, total, ws)) <= blocks
    ensures Sum(Remainders(blocks, total, ws)) == (blocks - Sum(Floors(blocks, total, ws))) * total
  {
    hide Floors, Remainders, Sum;
    LeftOver(blocks, total, ws);
    var minus: int := -Sum(Floors(blocks, total, ws));
    Distribute(total, blocks, minus);
    if Sum(Floors(blocks, total, ws)) > blocks {
      MulMono(blocks + 1, Sum(Floors(blocks, total, ws)), total);
      SumOfNats(Remainders(blocks, total, ws));
    }
  }

  lemma PositiveTotal(ws: seq<nat>)
    requires WeightsOk(ws)
    ensures Sum(ws) > 0
  {
    SumMono(seq(|ws|, _ => 1), ws);
    OnesSum(|ws|);
  }

  lemma NothingPicked(blocks: nat, total: nat, ws: seq<nat>)
    requires total > 0
    ensures var (fs, rs) := (Floors(blocks, total, ws), Remainders(blocks, total, ws));
            forall i :: 0 <= i < |ws| ==> PickedAt(blocks, total, ws[i], fs[i], rs[i], total)
  {
    hide Floor, Remainder;
  }

  lemma LargestIsPositive(xs: seq<nat>, best: nat)
    requires best < |xs| && (forall i :: 0 <= i < |xs| ==> xs[i] <= xs[best]) && Sum(xs) > 0
    ensures xs[best] > 0
  {
    if xs[best] == 0 {
      SumOfNothing(xs);
    }
  }

  /** The blocks of a length, and each of them as often as a weight, stay within 64 bits. */
  lemma ProductFits(blocks: nat, w: nat)
    requires blocks <= U64_MAX / BLOCK && w <= 100
    ensures blocks * w <= U64_MAX
  {
    MulMono(w, 100, blocks);
  }

  /** Up to three weights of at most a hundred. */
  lemma TotalFits(ws: seq<nat>, i: nat)
    requires |ws| <= 3 && i <= |ws| && forall j :: 0 <= j < |ws| ==> ws[j] <= 100
    ensures 0 <= Sum(ws[..i]) <= 100 * i
  {
    if i > 0 {
      SumStep(ws, i - 1);
      TotalFits(ws, i - 1);
    }
  }

  method TotalOf(ws: seq<Word32>) returns (total: Word32)
    requires WeightsOk(ws)
    ensures total == Sum(ws)
  {
    total := 0;
    for i := 0 to |ws|
      invariant total == Sum(ws[..i])
    {
      SumStep(ws, i);
      TotalFits(ws, i + 1);
      total := total + ws[i];
    }
    assert ws[..|ws|] == ws;
  }

  method Largest(xs: seq<nat>) returns (best: nat)
    requires xs != []
    ensures best < |xs| && forall i :: 0 <= i < |xs| ==> xs[i] <= xs[best]
    ensures forall i :: 0 <= i < best ==> xs[i] < xs[best]
  {
    best := 0;
    for i := 1 to |xs|
      invariant best < i && best < |xs| && forall j :: 0 <= j < i ==> xs[j] <= xs[best]
      invariant forall j :: 0 <= j < best ==> xs[j] < xs[best]
    {
      if xs[i] > xs[best] {
        best := i;
      }
    }
  }

  /** The first loop over the sources in ar_plan: their quotas as 64-bit quotients and remainders. */
  method Quotas(blocks: Word64, total: Word32, ws: seq<Word32>)
    returns (counts: seq<Word64>, remainder: seq<Word64>, given: Word64)
    requires WeightsOk(ws) && total == Sum(ws) > 0 && blocks <= U64_MAX / BLOCK
    ensures counts == Floors(blocks, total, ws) && remainder == Remainders(blocks, total, ws)
    ensures given == Sum(counts)
  {
    hide Sum;
    counts, remainder, given := [], [], 0;
    ghost var fs, rs := Floors(blocks, total, ws), Remainders(blocks, total, ws);
    FloorsFit(blocks, total, ws);
    SumOfNone(fs);
    for i := 0 to |ws|
      invariant counts == fs[..i] && remainder == rs[..i] && given == Sum(fs[..i])
    {
      ProductFits(blocks, ws[i]);
      var product: Word64 := blocks * ws[i];
      SumStep(fs, i);
      PartOfSum(fs, i);
      Shrinks(product, total);
      counts := counts + [product / total];
      remainder := remainder + [product % total];
      given := given + counts[i];
    }
    assert fs[..|ws|] == fs && rs[..|ws|] == rs;
  }

  lemma SumOfNone(xs: seq<int>)
    ensures Sum(xs[..0]) == 0
  {
  }

  /** A quotient and a remainder are no larger than what was divided. */
  lemma Shrinks(a: nat, n: nat)
    requires n > 0
    ensures 0 <= a / n <= a && 0 <= a % n <= a
  {
    DivMod(a, n);
    MulMono(1, n, a / n);
  }

  /** The largest-remainder loops of ar_plan: every block is given to somebody, every source gets its
      floor or one block more, and the ones with one more have the largest remainders. */
  method Apportion(blocks: Word64, ws: seq<Word32>) returns (counts: seq<Word64>, total: Word32, ghost theta: nat)
    requires WeightsOk(ws) && blocks <= U64_MAX / BLOCK
    ensures total == Sum(ws) > 0
    ensures |counts| == |ws| && Sum(counts) == blocks
    ensures Greedy(blocks, total, ws, counts, theta) && EarlierFirst(blocks, total, ws, counts)
  {
    hide Floor, Remainder, Sum, Floors, Remainders;
    total := TotalOf(ws);
    PositiveTotal(ws);
    var remainder: seq<Word64>;
    var given: Word64;
    counts, remainder, given := Quotas(blocks, total, ws);
    FloorsFit(blocks, total, ws);
    NothingPicked(blocks, total, ws);
    theta := total;
    while given < blocks
      invariant |counts| == |remainder| == |ws| && given == Sum(counts) <= blocks && 0 < theta <= total
      invariant forall i :: 0 <= i < |ws| ==> remainder[i] < total
      invariant Sum(remainder) >= (blocks - given) * total
      invariant forall i :: 0 <= i < |ws| ==> PickedAt(blocks, total, ws[i], counts[i], remainder[i], theta)
      invariant EarlierFirst(blocks, total, ws, counts)
      decreases blocks - given
    {
      var best := Largest(remainder);
      MulMono(1, blocks - given, total);
      LargestIsPositive(remainder, best);
      PartOfSum(counts, best);
      SumUpdate(counts, best, counts[best] + 1);
      SumUpdate(remainder, best, 0);
      Distribute(total, blocks - given - 1, 1);
      theta := remainder[best];
      counts := counts[best := counts[best] + 1];
      remainder := remainder[best := 0];
      given := given + 1;
    }
  }

  /** Every source gets its quota rounded down or up: it misses it by less than a block, and exact
      quotas are met exactly. */
  lemma QuotaIsRounded(blocks: nat, total: nat, ws: seq<nat>, counts: seq<nat>, theta: nat, i: nat)
    requires total > 0 && |counts| == |ws| && i < |ws| && Greedy(blocks, total, ws, counts, theta)
    ensures Deviation(blocks, total, ws[i], counts[i]) < total
    ensures Remainder(blocks, total, ws[i]) == 0 ==> Deviation(blocks, total, ws[i], counts[i]) == 0
  {
    hide Floor, Remainder;
    assert GreedyAt(blocks, total, ws[i], counts[i], theta);
    Quota(blocks, total, ws[i]);
    Distribute(total, Floor(blocks, total, ws[i]), 1);
  }

  // ----- The plan ------------------------------------------------------------------------

  datatype Reader = Reader(sources: seq<Source>, invalid: bool, size: Word64)

  function Weights(r: Reader, decodePhase: bool): (ws: seq<Word32>)
    ensures |ws| == |r.sources|
  {
    seq(|r.sources|, i requires 0 <= i < |r.sources| => EffectiveWeight(r.sources[i], decodePhase))
  }

  predicate Plannable(r: Reader, decodePhase: bool, offset: nat, length: nat) {
    && !r.invalid && length > 0 && offset + length <= r.size
    && WeightsOk(Weights(r, decodePhase))
  }

  /** The pieces follow each other from offset to offset + length. */
  ghost predicate Tiles(pieces: seq<Piece>, offset: nat, length: nat) {
    && pieces != [] && pieces[0].offset == offset
    && (forall i :: 0 < i < |pieces| ==> pieces[i].offset == End(pieces[i - 1]))
    && End(pieces[|pieces| - 1]) == offset + length
  }

  function End(p: Piece): nat {
    p.offset + p.length
  }

  /** The first source also takes the bytes that do not fill a block. */
  function PieceLength(counts: seq<nat>, length: nat, i: nat): nat
    requires i < |counts|
  {
    counts[i] * BLOCK + if i == 0 then length % BLOCK else 0
  }

  /** Where piece i begins, counted from the offset of the request. */
  function Start(counts: seq<nat>, length: nat, i: nat): int
    requires i <= |counts|
  {
    Sum(counts[..i]) * BLOCK + if i == 0 then 0 else length % BLOCK
  }

  lemma PieceFits(counts: seq<nat>, length: nat, i: nat)
    requires i < |counts| && Sum(counts) == length / BLOCK
    ensures counts[i] * BLOCK <= PieceLength(counts, length, i)
    ensures 0 <= Start(counts, length, i)
    ensures Start(counts, length, i) + PieceLength(counts, length, i) == Start(counts, length, i + 1) <= length
  {
    hide Sum;
    SumStep(counts, i);
    PrefixSums(counts, i, i);
    PartOfSum(counts, i);
    DivMod(length, BLOCK);
  }

  lemma WholeLength(counts: seq<nat>, length: nat)
    requires counts != [] && Sum(counts) == length / BLOCK
    ensures Start(counts, length, 0) == 0 && Start(counts, length, |counts|) == length
  {
    assert counts[..|counts|] == counts;
    DivMod(length, BLOCK);
  }

  ghost predicate Fair(r: Reader, decodePhase: bool, length: nat, pieces: seq<Piece>, counts: seq<nat>, theta: nat) {
    var ws := Weights(r, decodePhase);
    && |pieces| == |counts| == |ws| && Sum(ws) > 0
    && Greedy(length / BLOCK, Sum(ws), ws, counts, theta)
    && EarlierFirst(length / BLOCK, Sum(ws), ws, counts)
    && forall i :: 0 <= i < |pieces| ==> pieces[i].length == PieceLength(counts, length, i)
  }

  /** pieces is what planning the request gives; see PlanIsDetermined. */
  ghost predicate IsPlan(r: Reader, decodePhase: bool, length: nat, pieces: seq<Piece>) {
    exists counts: seq<nat>, theta: nat :: Fair(r, decodePhase, length, pieces, counts, theta) && Sum(counts) == length / BLOCK
  }

  lemma FairIsPlan(r: Reader, decodePhase: bool, length: nat, pieces: seq<Piece>, counts: seq<nat>, theta: nat)
    requires Fair(r, decodePhase, length, pieces, counts, theta) && Sum(counts) == length / BLOCK
    ensures IsPlan(r, decodePhase, length, pieces) && |pieces| == |r.sources|
  {
  }

  lemma BlocksFit(length: Word64)
    ensures length / BLOCK <= U64_MAX / BLOCK
  {
  }

  lemma PlannableMeans(r: Reader, decodePhase: bool, offset: Word64, length: Word64)
    ensures Plannable(r, decodePhase, offset, length) <==>
      && !r.invalid && 1 <= |r.sources| <= 3 && length > 0 && offset + length <= r.size
      && forall i :: 0 <= i < |r.sources| ==>
           1 <= (if decodePhase && r.sources[i].decodeWeight != 0 then r.sources[i].decodeWeight else r.sources[i].weight) <= 100
  {
    var ws := Weights(r, decodePhase);
    assert forall i :: 0 <= i < |r.sources| ==>
      ws[i] == if decodePhase && r.sources[i].decodeWeight != 0 then r.sources[i].decodeWeight else r.sources[i].weight;
  }

  /** ar_plan: fails exactly when the request cannot be planned; otherwise the pieces tile the span, stay
      inside the file, and share its blocks by largest remainder. */
  method Plan(r: Reader, decodePhase: bool, offset: Word64, length: Word64)
    returns (pieces: Option<seq<Piece>>, ghost counts: seq<Word64>, ghost theta: nat)
    ensures pieces.Some? <==> Plannable(r, decodePhase, offset, length)
    ensures pieces.Some? <==>
      && !r.invalid && 1 <= |r.sources| <= 3 && length > 0 && offset + length <= r.size
      && forall i :: 0 <= i < |r.sources| ==>
           1 <= (if decodePhase && r.sources[i].decodeWeight != 0 then r.sources[i].decodeWeight else r.sources[i].weight) <= 100
    ensures pieces.Some? ==> Tiles(pieces.value, offset, length)
    ensures pieces.Some? ==> forall i :: 0 <= i < |pieces.value| ==> End(pieces.value[i]) <= r.size
    ensures pieces.Some? ==> Fair(r, decodePhase, length, pieces.value, counts, theta)
                             && Sum(counts) == length / BLOCK
  {
    hide Greedy, EarlierFirst, Sum, Start;
    counts, theta := [], 0;
    PlannableMeans(r, decodePhase, offset, length);
    if r.invalid || |r.sources| < 1 || |r.sources| > 3 || length == 0 || offset > r.size || length > r.size - offset {
      return None, counts, theta;
    }
    var ws := Weights(r, decodePhase);
    for i := 0 to |ws|
      invariant forall j :: 0 <= j < i ==> 1 <= ws[j] <= 100
    {
      if ws[i] == 0 || ws[i] > 100 {
        return None, counts, theta;
      }
    }
    BlocksFit(length);
    var shares, total, bound := Apportion(length / BLOCK, ws);
    counts, theta := shares, bound;
    var out: seq<Piece> := [];
    var pos: Word64 := offset;
    WholeLength(shares, length);
    for i := 0 to |ws|
      invariant |out| == i && pos == offset + Start(shares, length, i)
      invariant forall j :: 0 <= j < i ==> out[j].length == PieceLength(shares, length, j) && End(out[j]) <= pos
      invariant i > 0 ==> out[0].offset == offset && End(out[i - 1]) == pos
      invariant forall j :: 0 < j < i ==> out[j].offset == End(out[j - 1])
    {
      PieceFits(shares, length, i);
      var whole: Word64 := shares[i] * BLOCK;
      var n: Word64 := whole + if i == 0 then length % BLOCK else 0;
      out := out + [Piece(pos, n)];
      pos := pos + n;
    }
    assert pos - offset == length;
    return Some(out), counts, theta;
  }

  /** What each source of a plan reads: the first one also the bytes that fill no block, and every one a
      number of blocks that misses its proportional share by less than a block. In the decode phase a
      source's share goes by its decode weight, if it has one. */
  lemma PlanIsProportional(
    r: Reader, decodePhase: bool, length: nat, pieces: seq<Piece>, counts: seq<nat>, theta: nat, i: nat)
    returns (ws: seq<nat>)
    requires Fair(r, decodePhase, length, pieces, counts, theta) && i < |counts|
    ensures |ws| == |r.sources| == |pieces| == |counts|
    ensures forall k :: 0 <= k < |ws| ==>
              ws[k] == if decodePhase && r.sources[k].decodeWeight > 0 then r.sources[k].decodeWeight
                       else r.sources[k].weight
    ensures pieces[i].length == counts[i] * 262144 + if i == 0 then length % 262144 else 0
    ensures -Sum(ws) < counts[i] * Sum(ws) - length / 262144 * ws[i] < Sum(ws)
  {
    hide Greedy, Sum, Deviation;
    ws := Weights(r, decodePhase);
    QuotaIsRounded(length / BLOCK, Sum(ws), ws, counts, theta, i);
    DeviationBelow(length / BLOCK, Sum(ws), ws[i], counts[i]);
  }

  lemma DeviationBelow(blocks: nat, total: nat, w: nat, count: nat)
    requires Deviation(blocks, total, w, count) < total
    ensures -(total as int) < count * total - blocks * w < total
  {
  }

  /** Nothing that planning computes leaves 64 bits: not the products of the quotas, nor the running
      sum of whole blocks, nor any piece in bytes, nor any position in the file. */
  lemma NothingWraps(
    r: Reader, decodePhase: bool, offset: Word64, length: Word64, pieces: seq<Piece>, counts: seq<nat>, theta: nat, i: nat)
    requires Plannable(r, decodePhase, offset, length)
    requires Tiles(pieces, offset, length) && Fair(r, decodePhase, length, pieces, counts, theta)
    requires Sum(counts) == length / BLOCK && i < |counts|
    ensures var (blocks, ws) := (length / BLOCK, Weights(r, decodePhase));
            && blocks * ws[i] <= U64_MAX
            && Sum(Floors(blocks, Sum(ws), ws)[..i + 1]) <= blocks
    ensures counts[i] * BLOCK <= PieceLength(counts, length, i) <= length
    ensures End(pieces[i]) <= offset + length <= r.size <= U64_MAX
  {
    hide Sum, Greedy, Floors, PieceLength;
    var (blocks, ws) := (length / BLOCK, Weights(r, decodePhase));
    BlocksFit(length);
    ProductFits(blocks, ws[i]);
    FloorsFit(blocks, Sum(ws), ws);
    PartOfSum(Floors(blocks, Sum(ws), ws), i);
    PieceFits(counts, length, i);
    EndsInOrder(pieces, i, |pieces| - 1);
  }

  lemma {:induction false} EndsInOrder(pieces: seq<Piece>, i: nat, j: nat)
    requires i <= j < |pieces| && forall k :: 0 < k < |pieces| ==> pieces[k].offset == End(pieces[k - 1])
    ensures End(pieces[i]) <= End(pieces[j])
    decreases j
  {
    if i < j {
      EndsInOrder(pieces, i, j - 1);
    }
  }

  /** Any other way to hand out the blocks of a planned read is at least as far from the weights. */
  lemma PlanIsBest(
    r: Reader, decodePhase: bool, length: nat, pieces: seq<Piece>, counts: seq<nat>, theta: nat, others: seq<nat>)
    requires Fair(r, decodePhase, length, pieces, counts, theta)
    requires |others| == |counts| && Sum(others) == Sum(counts)
    ensures var ws := Weights(r, decodePhase);
            Sum(Deviations(length / BLOCK, Sum(ws), ws, counts)) <= Sum(Deviations(length / BLOCK, Sum(ws), ws, others))
  {
    var ws := Weights(r, decodePhase);
    GreedyIsBest(length / BLOCK, Sum(ws), ws, counts, others, theta);
  }

  /** A request has one plan: whatever else tiles its span and shares its blocks in this way is the same. */
  lemma PlanIsDetermined(r: Reader, decodePhase: bool, offset: Word64, length: Word64, a: seq<Piece>, b: seq<Piece>)
    requires Tiles(a, offset, length) && IsPlan(r, decodePhase, length, a)
    requires Tiles(b, offset, length) && IsPlan(r, decodePhase, length, b)
    ensures a == b
  {
    hide Greedy, EarlierFirst, Sum, PieceLength;
    var countsA: seq<nat>, thetaA: nat :|
      Fair(r, decodePhase, length, a, countsA, thetaA) && Sum(countsA) == length / BLOCK;
    var countsB: seq<nat>, thetaB: nat :|
      Fair(r, decodePhase, length, b, countsB, thetaB) && Sum(countsB) == length / BLOCK;
    var ws := Weights(r, decodePhase);
    OnlyOneSplit(length / BLOCK, Sum(ws), ws, countsA, thetaA, countsB, thetaB);
    SamePieces(a, b, |a|);
    assert a[..|a|] == a && b[..|b|] == b;
  }

  lemma {:induction false} SamePieces(a: seq<Piece>, b: seq<Piece>, n: nat)
    requires n <= |a| == |b| && a != [] && a[0].offset == b[0].offset
    requires forall i :: 0 <= i < |a| ==> a[i].length == b[i].length
    requires forall i :: 0 < i < |a| ==> a[i].offset == End(a[i - 1]) && b[i].offset == End(b[i - 1])
    ensures a[..n] == b[..n]
    decreases n
  {
    if n > 0 {
      SamePieces(a, b, n - 1);
      assert a[..n] == a[..n - 1] + [a[n - 1]] && b[..n] == b[..n - 1] + [b[n - 1]];
      if n > 1 {
        assert a[..n - 1][n - 2] == b[..n - 1][n - 2];
      }
    }
  }
}
