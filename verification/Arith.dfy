/** Small facts of integer arithmetic that the solver does not find in larger proofs. */
module Arith {

  lemma MulMono(a: int, b: int, c: int)
    requires a <= b && 0 <= c
    ensures a * c <= b * c
  {
  }

  lemma Distribute(a: int, b: int, c: int)
    ensures a * (b + c) == a * b + a * c && (b + c) * a == b * a + c * a
  {
  }

  lemma DivMod(a: int, b: int)
    requires 0 < b
    ensures a == a / b * b + a % b && 0 <= a % b < b
  {
  }

  lemma DivUnique(a: int, n: int, q: int, r: int)
    requires 0 < n && a == q * n + r && 0 <= r < n
    ensures a / n == q && a % n == r
  {
    DivMod(a, n);
    var d := a / n - q;
    assert d * n == r - a % n by { assert (a / n - q) * n == a / n * n - q * n; }
    if d >= 1 { MulMono(1, d, n); } else if d <= -1 { MulMono(d, -1, n); }
  }

  /** The program's test for a product that exceeds a limit, by division. */
  lemma ExceedsByDivision(a: nat, b: nat, limit: nat)
    requires 0 < a
    ensures b > limit / a <==> b * a > limit
  {
    DivMod(limit, a);
    var q := limit / a;
    if b > q {
      MulMono(q + 1, b, a);
      Distribute(a, q, 1);
    } else {
      MulMono(b, q, a);
    }
  }

  /** i % n by repeated subtraction: the same number, without the solver's theory of division. */
  function Wrap(i: nat, n: nat): (r: nat)
    requires 0 < n
    ensures r < n
  {
    if i < n then i else Wrap(i - n, n)
  }

  lemma {:induction false} WrapIsMod(i: nat, n: nat)
    requires 0 < n
    ensures Wrap(i, n) == i % n
  {
    if i < n {
      DivUnique(i, n, 0, i);
    } else {
      WrapIsMod(i - n, n);
      DivMod(i - n, n);
      var q := (i - n) / n;
      assert (q + 1) * n == q * n + n;
      DivUnique(i, n, q + 1, (i - n) % n);
    }
  }

  /** Advancing a ring index with wrap-around. */
  lemma {:induction false} WrapSucc(i: nat, n: nat)
    requires 0 < n
    ensures (Wrap(i, n) + 1) % n == Wrap(i + 1, n)
  {
    if i < n {
      WrapIsMod(i + 1, n);
    } else {
      WrapSucc(i - n, n);
    }
  }

  /** Positions closer than n fall on distinct slots of a ring of n. */
  lemma {:induction false} WrapDistinct(a: nat, b: nat, n: nat)
    requires 0 < n && a < b < a + n
    ensures Wrap(a, n) != Wrap(b, n)
    decreases a
  {
    if a >= n { WrapDistinct(a - n, b - n, n); }
  }

  /** How many chunks of cap cover n: the program's ceiling division, by repeated subtraction. */
  function ChunkCount(n: nat, cap: nat): (c: nat)
    requires 0 < cap
    ensures n > 0 ==> c > 0
  {
    if n == 0 then 0 else if n <= cap then 1 else 1 + ChunkCount(n - cap, cap)
  }

  lemma {:induction false} ChunkCountIsCeilDiv(n: nat, cap: nat)
    requires 0 < cap
    ensures ChunkCount(n, cap) == (n + cap - 1) / cap
  {
    if n == 0 {
      DivUnique(cap - 1, cap, 0, cap - 1);
    } else if n <= cap {
      DivUnique(n + cap - 1, cap, 1, n - 1);
    } else {
      ChunkCountIsCeilDiv(n - cap, cap);
      DivMod(n - 1, cap);
      var q := (n - 1) / cap;
      assert (q + 1) * cap == q * cap + cap;
      DivUnique(n + cap - 1, cap, q + 1, (n - 1) % cap);
    }
  }

  lemma {:induction false} WrapAdd(i: nat, k: nat, n: nat)
    requires 0 < n
    ensures (Wrap(i, n) + k) % n == Wrap(i + k, n)
  {
    if i < n {
      WrapIsMod(i + k, n);
    } else {
      WrapAdd(i - n, k, n);
    }
  }
}
