/** Picking the best tokens out of a row of logits (ds4_distributed.c). */
module TopLogprobs {

  /** A C float, up to rounding: the comparisons below are exact. */
  datatype Float = Finite(value: real) | PosInf | NegInf | NaN

  /** The C operator >. */
  predicate Greater(a: Float, b: Float) {
    match (a, b)
    case (Finite(x), Finite(y)) => x > y
    case (Finite(_), NegInf) => true
    case (PosInf, Finite(_)) => true
    case (PosInf, NegInf) => true
    case _ => false
  }

  /** Where a number stands, or none for a NaN. */
  function Level(a: Float): int {
    match a
    case NegInf => -1
    case PosInf => 1
    case _ => 0
  }

  /** Infinities stand at the ends, and nothing compares with a NaN. */
  lemma GreaterMeans(a: Float, b: Float)
    ensures Greater(a, b) <==>
              !a.NaN? && !b.NaN? && (Level(a) > Level(b) || (a.Finite? && b.Finite? && a.value > b.value))
  {
  }

  /** dist_logits_argmax: nothing is greater than the result, and everything before it is less, if it is
      a number at all. */
  method Argmax(logits: seq<Float>) returns (best: nat)
    ensures logits == [] ==> best == 0
    ensures logits != [] ==> best < |logits|
    ensures logits != [] ==> forall j :: 0 <= j < |logits| ==> !Greater(logits[j], logits[best])
    ensures logits != [] ==> forall j :: 0 <= j < best ==> logits[j].NaN? || Greater(logits[best], logits[j])
    ensures logits != [] && (forall j :: 0 <= j < |logits| ==> logits[j].Finite?) ==>
              && (forall j :: 0 <= j < |logits| ==> logits[j].value <= logits[best].value)
              && (forall j :: 0 <= j < best ==> logits[j].value < logits[best].value)
  {
    best := 0;
    var i := 1;
    while i < |logits|
      invariant 1 <= i && best < i && (logits != [] ==> i <= |logits| && best < |logits|)
      invariant logits != [] ==> forall j :: 0 <= j < i ==> !Greater(logits[j], logits[best])
      invariant logits != [] ==> forall j :: 0 <= j < best ==> logits[j].NaN? || Greater(logits[best], logits[j])
    {
      if Greater(logits[i], logits[best]) {
        best := i;
      }
      i := i + 1;
    }
    if logits == [] {
      best := 0;
    }
  }

  // ----- The order of tokens -------------------------------------------------------------

  datatype Score = Score(id: nat, logit: real)

  /** s is the score of a token with a finite logit among the first n. */
  predicate ScoreOf(logits: seq<Float>, n: nat, s: Score) {
    s.id < n <= |logits| && logits[s.id] == Finite(s.logit)
  }

  /** Higher logits first, then lower ids. */
  predicate Better(a: Score, b: Score) {
    a.logit > b.logit || (a.logit == b.logit && a.id < b.id)
  }

  /** top holds the best k finite tokens among the first n, best first: all of them if there are no more
      than k. */
  ghost predicate IsTop(logits: seq<Float>, n: nat, k: nat, top: seq<Score>) {
    && n <= |logits| && |top| <= k
    && (forall p :: 0 <= p < |top| ==> ScoreOf(logits, n, top[p]))
    && (forall p, q :: 0 <= p < q < |top| ==> Better(top[p], top[q]))
    && (forall s :: ScoreOf(logits, n, s) && s !in top ==> |top| == k && Beaten(top, s))
  }

  /** Everything in top comes before s. */
  ghost predicate Beaten(top: seq<Score>, s: Score) {
    forall p :: 0 <= p < |top| ==> Better(top[p], s)
  }

  /** There is only one such list. */
  lemma {:induction false} TopIsUnique(logits: seq<Float>, n: nat, k: nat, a: seq<Score>, b: seq<Score>, p: nat)
    requires IsTop(logits, n, k, a) && IsTop(logits, n, k, b) && p <= |a| && p <= |b|
    ensures a[..p] == b[..p]
    decreases p
  {
    if p > 0 {
      TopIsUnique(logits, n, k, a, b, p - 1);
      NotWorse(logits, n, k, a, b, p - 1);
      NotWorse(logits, n, k, b, a, p - 1);
    }
  }

  lemma NotWorse(logits: seq<Float>, n: nat, k: nat, a: seq<Score>, b: seq<Score>, p: nat)
    requires IsTop(logits, n, k, a) && IsTop(logits, n, k, b) && p < |a| && p < |b| && a[..p] == b[..p]
    ensures !Better(b[p], a[p])
  {
    assert ScoreOf(logits, n, b[p]);
    SamePrefix(a, b, p);
  }

  lemma SamePrefix(a: seq<Score>, b: seq<Score>, p: nat)
    requires p <= |a| && p <= |b| && a[..p] == b[..p]
    ensures forall q :: 0 <= q < p ==> a[q] == b[q]
  {
    assert forall q :: 0 <= q < p ==> a[q] == a[..p][q] == b[..p][q] == b[q];
  }

  lemma NotLonger(logits: seq<Float>, n: nat, k: nat, a: seq<Score>, b: seq<Score>)
    requires IsTop(logits, n, k, a) && IsTop(logits, n, k, b)
    ensures |b| <= |a|
  {
    if |a| < |b| {
      TopIsUnique(logits, n, k, a, b, |a|);
      SamePrefix(a, b, |a|);
      Missing(logits, n, k, b, a, |a|);
      assert false;
    }
  }

  /** The token at position p of top is not among the first p. */
  lemma Missing(logits: seq<Float>, n: nat, k: nat, top: seq<Score>, first: seq<Score>, p: nat)
    requires IsTop(logits, n, k, top) && p == |first| < |top| && forall q :: 0 <= q < p ==> first[q] == top[q]
    ensures top[p] !in first && ScoreOf(logits, n, top[p])
  {
  }

  lemma OnlyOneTop(logits: seq<Float>, n: nat, k: nat, a: seq<Score>, b: seq<Score>)
    requires IsTop(logits, n, k, a) && IsTop(logits, n, k, b)
    ensures a == b
  {
    NotLonger(logits, n, k, a, b);
    NotLonger(logits, n, k, b, a);
    TopIsUnique(logits, n, k, a, b, |a|);
    assert a[..|a|] == a && b[..|a|] == b;
  }

  // ----- One more token ------------------------------------------------------------------

  /** top with s put in at position p and anything past the first k dropped. */
  function Insert(top: seq<Score>, p: nat, s: Score, k: nat): seq<Score>
    requires p <= |top|
  {
    var longer := top[..p] + [s] + top[p..];
    if |longer| <= k then longer else longer[..k]
  }

  lemma SkipToken(logits: seq<Float>, n: nat, k: nat, top: seq<Score>)
    requires IsTop(logits, n, k, top) && n < |logits|
    requires logits[n].Finite? ==> 0 < k == |top| && logits[n].value <= top[k - 1].logit
    ensures IsTop(logits, n + 1, k, top)
  {
    forall s | ScoreOf(logits, n + 1, s) && s !in top
      ensures |top| == k && Beaten(top, s)
    {
      if s.id == n {
        forall p | 0 <= p < |top|
          ensures Better(top[p], s)
        {
          assert p == k - 1 || Better(top[p], top[k - 1]);
          assert ScoreOf(logits, n, top[p]);
        }
      } else {
        assert ScoreOf(logits, n, s);
      }
    }
  }

  /** The place at which the new token s goes in: after everything at least as good. */
  ghost predicate PlaceOf(top: seq<Score>, p: nat, s: Score) {
    && p <= |top|
    && (forall q :: 0 <= q < p ==> top[q].logit >= s.logit)
    && (forall q :: p <= q < |top| ==> s.logit > top[q].logit)
  }

  lemma InsertToken(logits: seq<Float>, n: nat, k: nat, top: seq<Score>, p: nat, s: Score)
    requires IsTop(logits, n, k, top) && n < |logits| && logits[n] == Finite(s.logit) && s.id == n
    requires PlaceOf(top, p, s) && p < k
    ensures IsTop(logits, n + 1, k, Insert(top, p, s, k))
  {
    var longer := top[..p] + [s] + top[p..];
    var out := Insert(top, p, s, k);
    forall q | 0 <= q < |longer|
      ensures longer[q] == if q < p then top[q] else if q == p then s else top[q - 1]
      ensures ScoreOf(logits, n + 1, longer[q])
    {
      if q < p {
        assert ScoreOf(logits, n, top[q]);
      } else if q > p {
        assert ScoreOf(logits, n, top[q - 1]);
      }
    }
    forall a, b | 0 <= a < b < |longer|
      ensures Better(longer[a], longer[b])
    {
      InsertOrder(logits, n, k, top, p, s, a, b);
    }
    forall t | ScoreOf(logits, n + 1, t) && t !in out
      ensures |out| == k && Beaten(out, t)
    {
      Left(logits, n, k, top, p, s, t);
    }
  }

  lemma InsertOrder(logits: seq<Float>, n: nat, k: nat, top: seq<Score>, p: nat, s: Score, a: nat, b: nat)
    requires IsTop(logits, n, k, top) && s.id == n && PlaceOf(top, p, s) && a < b <= |top|
    ensures var longer := top[..p] + [s] + top[p..]; Better(longer[a], longer[b])
  {
    if b == p {
      assert ScoreOf(logits, n, top[a]);
    } else if a != p {
      var x := if a < p then a else a - 1;
      var y := if b < p then b else b - 1;
      assert Better(top[x], top[y]);
    }
  }

  /** The token that the insertion pushes out. */
  lemma LastLeft(logits: seq<Float>, n: nat, k: nat, top: seq<Score>, p: nat, s: Score, t: Score)
    requires IsTop(logits, n, k, top) && n < |logits| && logits[n] == Finite(s.logit) && s.id == n
    requires PlaceOf(top, p, s) && p < k && t in top && t !in Insert(top, p, s, k)
    ensures |Insert(top, p, s, k)| == k && Beaten(Insert(top, p, s, k), t)
  {
    var longer := top[..p] + [s] + top[p..];
    var out := Insert(top, p, s, k);
    var q :| 0 <= q < |top| && top[q] == t;
    assert longer[if q < p then q else q + 1] == t;
    assert q == k - 1 && |longer| == k + 1;
    forall a | 0 <= a < |out|
      ensures Better(out[a], t)
    {
      InsertOrder(logits, n, k, top, p, s, a, k);
    }
  }

  /** A token that was left out already. */
  lemma OtherLeft(top: seq<Score>, k: nat, p: nat, s: Score, t: Score)
    requires PlaceOf(top, p, s) && p < k && |top| == k && Beaten(top, t)
    ensures |Insert(top, p, s, k)| == k && Beaten(Insert(top, p, s, k), t)
  {
    var out := Insert(top, p, s, k);
    forall a | 0 <= a < |out|
      ensures Better(out[a], t)
    {
      if a != p {
        assert Better(top[if a < p then a else a - 1], t);
      } else if p < |top| {
        assert Better(top[p], t);
      }
    }
  }

  /** A token left out after the insertion is beaten by all that stayed. */
  lemma Left(logits: seq<Float>, n: nat, k: nat, top: seq<Score>, p: nat, s: Score, t: Score)
    requires IsTop(logits, n, k, top) && n < |logits| && logits[n] == Finite(s.logit) && s.id == n
    requires PlaceOf(top, p, s) && p < k
    requires ScoreOf(logits, n + 1, t) && t !in Insert(top, p, s, k)
    ensures |Insert(top, p, s, k)| == k && Beaten(Insert(top, p, s, k), t)
  {
    assert Insert(top, p, s, k)[p] == s;
    assert t.id != n;
    assert ScoreOf(logits, n, t);
    if t in top {
      LastLeft(logits, n, k, top, p, s, t);
    } else {
      OtherLeft(top, k, p, s, t);
    }
  }

  // ----- Log-probabilities ---------------------------------------------------------------

  const FLT_MAX: real := 340282346638528859811704183484516925440.0

  /** The largest finite logit among the first n. */
  function MaxFinite(logits: seq<Float>, n: nat): real
    requires n <= |logits|
  {
    if n == 0 then -FLT_MAX
    else
      var m := MaxFinite(logits, n - 1);
      if logits[n - 1].Finite? && logits[n - 1].value > m then logits[n - 1].value else m
  }

  /** The sum of exp(logit - shift) over the finite logits among the first n. */
  function Mass(exp: real -> real, logits: seq<Float>, n: nat, shift: real): real
    requires n <= |logits|
  {
    if n == 0 then 0.0
    else Mass(exp, logits, n - 1, shift) + if logits[n - 1].Finite? then exp(logits[n - 1].value - shift) else 0.0
  }

  /** What the log-probabilities subtract from the logits. */
  function LogSum(exp: real -> real, log: real -> real, logits: seq<Float>): real {
    var m := MaxFinite(logits, |logits|);
    m + log(Mass(exp, logits, |logits|, m))
  }

  /** The two loops before the table is filled. */
  method ComputeLogSum(exp: real -> real, log: real -> real, logits: seq<Float>) returns (logsum: real)
    ensures logsum == LogSum(exp, log, logits)
  {
    var max := -FLT_MAX;
    for i := 0 to |logits|
      invariant max == MaxFinite(logits, i)
    {
      if logits[i].Finite? && logits[i].value > max {
        max := logits[i].value;
      }
    }
    var sum := 0.0;
    for i := 0 to |logits|
      invariant sum == Mass(exp, logits, i, max)
    {
      if logits[i].Finite? {
        sum := sum + exp(logits[i].value - max);
      }
    }
    return max + log(sum);
  }

  /** exp turns sums into products, is positive, and is undone by log. */
  ghost predicate ExpLog(exp: real -> real, log: real -> real) {
    && (forall x: real, y: real :: exp(x + y) == exp(x) * exp(y))
    && (forall x: real :: exp(x) > 0.0)
    && (forall y: real :: y > 0.0 ==> exp(log(y)) == y)
  }

  lemma ExpShift(exp: real -> real, log: real -> real, v: real, m: real, d: real)
    requires ExpLog(exp, log)
    ensures exp(v - (m + d)) * exp(d) == exp(v - m)
  {
    assert exp(v - (m + d) + d) == exp(v - (m + d)) * exp(d);
    assert v - (m + d) + d == v - m;
  }

  lemma DistributeReal(a: real, b: real, c: real)
    ensures (a + b) * c == a * c + b * c
  {
  }

  lemma {:induction false} MassScales(exp: real -> real, log: real -> real, logits: seq<Float>, n: nat, m: real, d: real)
    requires ExpLog(exp, log) && n <= |logits|
    ensures Mass(exp, logits, n, m + d) * exp(d) == Mass(exp, logits, n, m)
    decreases n
  {
    hide ExpLog;
    if n > 0 {
      MassScales(exp, log, logits, n - 1, m, d);
      if logits[n - 1].Finite? {
        var v := logits[n - 1].value;
        ExpShift(exp, log, v, m, d);
        DistributeReal(Mass(exp, logits, n - 1, m + d), exp(v - (m + d)), exp(d));
      }
    }
  }

  lemma {:induction false} MassIsPositive(exp: real -> real, log: real -> real, logits: seq<Float>, n: nat, m: real)
    requires ExpLog(exp, log) && n <= |logits|
    ensures Mass(exp, logits, n, m) >= 0.0
    ensures (exists i :: 0 <= i < n && logits[i].Finite?) ==> Mass(exp, logits, n, m) > 0.0
    decreases n
  {
    if n > 0 {
      MassIsPositive(exp, log, logits, n - 1, m);
      if logits[n - 1].Finite? {
        assert exp(logits[n - 1].value - m) > 0.0;
      }
    }
  }

  /** They are the logarithms of probabilities: over all tokens with a finite logit these add up to one. */
  lemma Normalized(exp: real -> real, log: real -> real, logits: seq<Float>)
    requires ExpLog(exp, log) && exists i :: 0 <= i < |logits| && logits[i].Finite?
    ensures Mass(exp, logits, |logits|, LogSum(exp, log, logits)) == 1.0
  {
    hide Mass, MaxFinite;
    var m := MaxFinite(logits, |logits|);
    var sum := Mass(exp, logits, |logits|, m);
    MassIsPositive(exp, log, logits, |logits|, m);
    MassScales(exp, log, logits, |logits|, m, log(sum));
    assert exp(log(sum)) == sum;
    CancelFactor(Mass(exp, logits, |logits|, m + log(sum)), exp(log(sum)), sum);
  }

  lemma CancelFactor(x: real, e: real, s: real)
    requires e == s > 0.0 && x * e == s
    ensures x == 1.0
  {
    assert (x - 1.0) * s == 0.0;
  }

  // ----- The table in place --------------------------------------------------------------

  /** One entry of the table, ds4_dist_logprob. */
  datatype Slot = Slot(score: Score, logprob: real)

  function Scores(slots: seq<Slot>): (scores: seq<Score>)
    ensures |scores| == |slots|
  {
    seq(|slots|, q requires 0 <= q < |slots| => slots[q].score)
  }

  /** dist_logits_top_logprobs over real numbers: the first n slots hold exactly the best k tokens with
      finite logits, best first, each with its log-probability. */
  method TopLogits(exp: real -> real, log: real -> real, logits: seq<Float>, slots: array<Slot>) returns (n: nat)
    modifies slots
    ensures n <= slots.Length && IsTop(logits, |logits|, slots.Length, Scores(slots[..n]))
    ensures forall q :: 0 <= q < n ==> slots[q].logprob == slots[q].score.logit - LogSum(exp, log, logits)
  {
    hide IsTop, LogSum;
    var k := slots.Length;
    n := 0;
    EmptyTop(logits, k);
    if k == 0 {
      NoTop(logits);
      assert Scores(slots[..0]) == [];
      return;
    }
    var logsum := ComputeLogSum(exp, log, logits);
    assert Scores(slots[..0]) == [];
    for i := 0 to |logits|
      invariant n <= k && IsTop(logits, i, k, Scores(slots[..n]))
      invariant forall q :: 0 <= q < n ==> slots[q].logprob == slots[q].score.logit - logsum
    {
      ghost var top := Scores(slots[..n]);
      if !logits[i].Finite? || (n == k && logits[i].value <= slots[k - 1].score.logit) {
        assert n == k ==> top[k - 1] == slots[k - 1].score;
        SkipToken(logits, i, k, top);
        continue;
      }
      var s := Score(i, logits[i].value);
      TopDescends(logits, i, k, top);
      var last := if n < k then n else k - 1;
      assert forall q :: 0 <= q < n ==> top[q] == slots[q].score;
      n := last + 1;
      var pos := ShiftIn(slots, last, s, logsum, top);
      FilledGap(Scores(slots[..n]), top, pos, s, k);
      InsertToken(logits, i, k, top, pos, s);
    }
  }

  lemma NoTop(logits: seq<Float>)
    ensures IsTop(logits, |logits|, 0, [])
  {
  }

  /** What slot q holds while the gap for the new token is at pos. */
  function AroundGap(top: seq<Score>, pos: nat, q: nat): Score
    requires q != pos && (q < pos ==> q < |top|) && (q > pos ==> q <= |top|)
  {
    if q < pos then top[q] else top[q - 1]
  }

  /** The inner loop: everything below s moves down one slot, the last of a full table falling out. */
  method ShiftIn(slots: array<Slot>, last: nat, s: Score, logsum: real, ghost top: seq<Score>) returns (pos: nat)
    requires last < slots.Length && last <= |top|
    requires forall q :: 0 <= q < last ==> slots[q].score == top[q] && slots[q].logprob == top[q].logit - logsum
    requires Descends(top)
    requires forall q :: last <= q < |top| ==> s.logit > top[q].logit
    modifies slots
    ensures pos <= last && PlaceOf(top, pos, s)
    ensures slots[pos].score == s
    ensures forall q :: 0 <= q <= last && q != pos ==> slots[q].score == AroundGap(top, pos, q)
    ensures forall q :: 0 <= q <= last ==> slots[q].logprob == slots[q].score.logit - logsum
  {
    hide Descends;
    pos := last;
    while pos > 0 && s.logit > slots[pos - 1].score.logit
      invariant 0 <= pos <= last
      invariant forall q :: 0 <= q <= last && q != pos ==>
                  slots[q].score == AroundGap(top, pos, q) && slots[q].logprob == slots[q].score.logit - logsum
      invariant forall q :: pos <= q < |top| ==> s.logit > top[q].logit
    {
      assert slots[pos - 1].score == AroundGap(top, pos, pos - 1);
      slots[pos] := slots[pos - 1];
      pos := pos - 1;
    }
    assert pos > 0 ==> slots[pos - 1].score == AroundGap(top, pos, pos - 1);
    AboveStay(top, pos, s);
    slots[pos] := Slot(s, s.logit - logsum);
  }

  lemma FilledGap(list: seq<Score>, top: seq<Score>, pos: nat, s: Score, k: nat)
    requires pos <= |top| && pos < |list| <= |top| + 1 && |list| == (if |top| < k then |top| + 1 else k) && |top| <= k
    requires list[pos] == s && forall q :: 0 <= q < |list| && q != pos ==> list[q] == AroundGap(top, pos, q)
    ensures list == Insert(top, pos, s, k)
  {
    var r := Insert(top, pos, s, k);
    forall q | 0 <= q < |list|
      ensures list[q] == r[q]
    {
      if q != pos {
        assert list[q] == AroundGap(top, pos, q);
      }
    }
  }

  lemma AboveStay(top: seq<Score>, pos: nat, s: Score)
    requires Descends(top) && pos <= |top| && (pos > 0 ==> top[pos - 1].logit >= s.logit)
    ensures forall q :: 0 <= q < pos ==> top[q].logit >= s.logit
  {
  }

  ghost predicate Descends(top: seq<Score>) {
    forall p, q :: 0 <= p <= q < |top| ==> top[p].logit >= top[q].logit
  }

  lemma EmptyTop(logits: seq<Float>, k: nat)
    ensures IsTop(logits, 0, k, [])
  {
  }

  lemma TopDescends(logits: seq<Float>, n: nat, k: nat, top: seq<Score>)
    requires IsTop(logits, n, k, top)
    ensures Descends(top)
  {
    forall p, q | 0 <= p < q < |top|
      ensures top[p].logit >= top[q].logit
    {
      assert Better(top[p], top[q]);
    }
  }

  /** With all logits finite, the best token is the one that argmax returns. */
  lemma FirstIsArgmax(logits: seq<Float>, k: nat, top: seq<Score>, best: nat)
    requires logits != [] && k > 0 && forall i :: 0 <= i < |logits| ==> logits[i].Finite?
    requires IsTop(logits, |logits|, k, top)
    requires best < |logits| && forall j :: 0 <= j < |logits| ==> !Greater(logits[j], logits[best])
    requires forall j :: 0 <= j < best ==> logits[j].NaN? || Greater(logits[best], logits[j])
    ensures top != [] && top[0].id == best
  {
    var s := Score(best, logits[best].value);
    assert ScoreOf(logits, |logits|, s);
    if s in top {
      var p :| 0 <= p < |top| && top[p] == s;
      assert ScoreOf(logits, |logits|, top[0]);
      assert p > 0 ==> Better(top[0], top[p]);
    }
  }
}
