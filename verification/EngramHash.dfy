/** The rolling n-gram hash that picks Engram table rows (ds4_engram.c). */
module EngramHash {
  import opened Arith
  import opened Bits
  import opened Bytes
  import opened Sums

  const LAYERS: nat := 2
  const NGRAM: nat := 4
  const HEADS: nat := 8
  const COLS: nat := 24
  const DEAD: int := -1
  const INT32_MAX: nat := 0x7FFF_FFFF
  const INT64_MAX: nat := 0x7FFF_FFFF_FFFF_FFFF

  /** ds4_engram_layout; the tables have their declared dimensions. */
  datatype Layout = Layout(
    tokenMap: seq<Word32>, compressed: Word32, pad: Word32, rows: seq<Word32>,
    multipliers: seq<seq<Word64>>, primes: seq<seq<Word32>>)
  {
    ghost predicate Shaped() {
      && |tokenMap| < TWO_32
      && |rows| == |multipliers| == |primes| == LAYERS
      && (forall i :: 0 <= i < LAYERS ==> |multipliers[i]| == NGRAM && |primes[i]| == COLS)
    }

    /** What a model must satisfy to be loaded. */
    ghost predicate Valid() {
      && Shaped()
      && |tokenMap| > 0 && 0 < compressed <= INT32_MAX && pad < compressed
      && (forall i :: 0 <= i < |tokenMap| ==> tokenMap[i] < compressed)
      && (forall i :: 0 <= i < LAYERS ==> LayerValid(compressed, rows[i], multipliers[i], primes[i]))
    }
  }

  ghost predicate LayerValid(compressed: nat, rows: Word32, multipliers: seq<Word64>, primes: seq<Word32>) {
    && (forall j :: 0 <= j < |multipliers| ==> MultiplierOk(compressed, multipliers[j]))
    && (forall j :: 0 <= j < |primes| ==> primes[j] >= 2)
    && Sum(primes) == rows
  }

  /** Odd, and so small that no product with an id leaves the signed 64-bit range. */
  predicate MultiplierOk(compressed: nat, m: Word64) {
    m % 2 == 1 && m * compressed <= INT64_MAX
  }

  lemma ValidMeans(l: Layout)
    requires l.Shaped()
    ensures l.Valid() <==>
      && |l.tokenMap| > 0 && 0 < l.compressed <= 0x7FFF_FFFF && l.pad < l.compressed
      && (forall t :: 0 <= t < |l.tokenMap| ==> l.tokenMap[t] < l.compressed)
      && forall a :: 0 <= a < 2 ==>
           && (forall j :: 0 <= j < 4 ==>
                 l.multipliers[a][j] % 2 == 1 && l.multipliers[a][j] * l.compressed <= 0x7FFF_FFFF_FFFF_FFFF)
           && (forall col :: 0 <= col < 24 ==> l.primes[a][col] >= 2)
           && Sum(l.primes[a]) == l.rows[a]
  {
    hide Sum;
    if l.Valid() {
      forall a | 0 <= a < 2
        ensures LayerValid(l.compressed, l.rows[a], l.multipliers[a], l.primes[a])
      {
      }
    }
  }

  /** ds4_engram_layout_valid. */
  method LayoutValid(l: Layout) returns (ok: bool)
    requires l.Shaped()
    ensures ok <==> l.Valid()
    ensures ok <==>
      && |l.tokenMap| > 0 && 0 < l.compressed <= 0x7FFF_FFFF && l.pad < l.compressed
      && (forall t :: 0 <= t < |l.tokenMap| ==> l.tokenMap[t] < l.compressed)
      && forall a :: 0 <= a < 2 ==>
           && (forall j :: 0 <= j < 4 ==>
                 l.multipliers[a][j] % 2 == 1 && l.multipliers[a][j] * l.compressed <= 0x7FFF_FFFF_FFFF_FFFF)
           && (forall col :: 0 <= col < 24 ==> l.primes[a][col] >= 2)
           && Sum(l.primes[a]) == l.rows[a]
  {
    hide Sum;
    ValidMeans(l);
    if |l.tokenMap| == 0 || l.compressed == 0 || l.compressed > INT32_MAX || l.pad >= l.compressed {
      return false;
    }
    for i := 0 to |l.tokenMap|
      invariant forall k :: 0 <= k < i ==> l.tokenMap[k] < l.compressed
    {
      if l.tokenMap[i] >= l.compressed {
        return false;
      }
    }
    for layer := 0 to LAYERS
      invariant forall k :: 0 <= k < layer ==> LayerValid(l.compressed, l.rows[k], l.multipliers[k], l.primes[k])
    {
      var valid := LayerIsValid(l.compressed, l.rows[layer], l.multipliers[layer], l.primes[layer]);
      if !valid {
        return false;
      }
    }
    return true;
  }

  /** One turn of its loop over the layers. */
  method LayerIsValid(compressed: nat, rows: Word32, multipliers: seq<Word64>, primes: seq<Word32>) returns (ok: bool)
    requires compressed > 0
    ensures ok <==> LayerValid(compressed, rows, multipliers, primes)
  {
    for i := 0 to |multipliers|
      invariant forall k :: 0 <= k < i ==> MultiplierOk(compressed, multipliers[k])
    {
      ExceedsByDivision(compressed, multipliers[i], INT64_MAX);
      if multipliers[i] % 2 != 1 || multipliers[i] > INT64_MAX / compressed {
        return false;
      }
    }
    var total: nat := 0;
    for i := 0 to |primes|
      invariant forall k :: 0 <= k < i ==> primes[k] >= 2
      invariant total == Sum(primes[..i])
    {
      SumStep(primes, i);
      if primes[i] < 2 {
        return false;
      }
      total := total + primes[i];
    }
    assert primes[..|primes|] == primes;
    return total == rows;
  }

  // ----- The rows of one position --------------------------------------------------------

  function Product(id: Word32, m: Word64): nat {
    id * m
  }

  /** The running hash after the ids 0 to j, with products and sums that wrap at 64 bits. */
  function HashUpTo(ids: seq<Word32>, ms: seq<Word64>, j: nat): Word64
    requires j < |ids| == |ms|
  {
    var product := Product(ids[j], ms[j]) % TWO_64;
    if j == 0 then product else Xor64(HashUpTo(ids, ms, j - 1), product)
  }

  /** How many of the products of ids 0 to j with their multipliers have bit k set. */
  function Ones(ids: seq<Word32>, ms: seq<Word64>, j: nat, k: nat): nat
    requires j < |ids| == |ms|
  {
    Bit(ids[j] * ms[j], k) + if j == 0 then 0 else Ones(ids, ms, j - 1, k)
  }

  /** Each bit of the hash says whether an odd number of the products have it. */
  ghost predicate IsHash(h: Word64, ids: seq<Word32>, ms: seq<Word64>, j: nat)
    requires j < |ids| == |ms|
  {
    forall k :: 0 <= k < 64 ==> Bit(h, k) == Ones(ids, ms, j, k) % 2
  }

  lemma {:induction false} HashBit(ids: seq<Word32>, ms: seq<Word64>, j: nat, k: nat)
    requires j < |ids| == |ms| && k < 64
    ensures Bit(HashUpTo(ids, ms, j), k) == Ones(ids, ms, j, k) % 2
    decreases j
  {
    hide Xor, Bit, Product;
    SomePowers();
    LowBits(ids[j] * ms[j], 64, k);
    ProductBit(ids[j], ms[j], k);
    if j > 0 {
      HashBit(ids, ms, j - 1, k);
      BitOfXor(HashUpTo(ids, ms, j - 1), Product(ids[j], ms[j]) % TWO_64, k);
    }
  }

  lemma ProductBit(id: Word32, m: Word64, k: nat)
    requires k < 64
    ensures Bit(Product(id, m) % TWO_64, k) == Bit(id * m, k)
  {
    SomePowers();
    LowBits(id * m, 64, k);
  }

  /** And there is only one word with these bits. */
  lemma HashIsParity(ids: seq<Word32>, ms: seq<Word64>, j: nat, h: Word64)
    requires j < |ids| == |ms|
    ensures IsHash(h, ids, ms, j) <==> h == HashUpTo(ids, ms, j)
  {
    hide Ones, HashUpTo, Bit;
    forall k | 0 <= k < 64
      ensures Bit(HashUpTo(ids, ms, j), k) == Ones(ids, ms, j, k) % 2
    {
      HashBit(ids, ms, j, k);
    }
    SomePowers();
    if IsHash(h, ids, ms, j) {
      SameBits(h, HashUpTo(ids, ms, j), 64);
    }
  }

  /** The row of column col: the hash over the ids that its n-gram reaches, reduced by its prime and
      moved past the bands of the columns before it. */
  function Row(ids: seq<Word32>, ms: seq<Word64>, ps: seq<Word32>, col: nat): Word32
    requires |ids| == |ms| == NGRAM && |ps| == COLS && col < COLS
  {
    if ps[col] == 0 then 0
    else (HashUpTo(ids, ms, col / HEADS + 1) % ps[col] + Sum(ps[..col])) % TWO_32
  }

  function LayerRows(ids: seq<Word32>, ms: seq<Word64>, ps: seq<Word32>): (rows: seq<Word32>)
    requires |ids| == |ms| == NGRAM && |ps| == COLS
    ensures |rows| == COLS
  {
    seq(COLS, col requires 0 <= col < COLS => Row(ids, ms, ps, col))
  }

  /** The rows of all layers for a window of ids. */
  function TokenRows(l: Layout, ids: seq<Word32>): (rows: seq<Word32>)
    requires l.Shaped() && |ids| == NGRAM
    ensures |rows| == LAYERS * COLS
  {
    LayerRows(ids, l.multipliers[0], l.primes[0]) + LayerRows(ids, l.multipliers[1], l.primes[1])
  }

  lemma Reduced(hash: nat, prime: nat, offset: nat)
    requires 0 < prime && offset + prime < TWO_32
    ensures offset <= (hash % prime + offset) % TWO_32 == hash % prime + offset < offset + prime
  {
  }

  /** Each row lies in the band of its own column; the bands lie end to end and fill the layer. */
  lemma RowInBand(rows: Word32, ids: seq<Word32>, ms: seq<Word64>, ps: seq<Word32>, compressed: nat, col: nat)
    requires |ids| == |ms| == NGRAM && |ps| == COLS && col < COLS && LayerValid(compressed, rows, ms, ps)
    ensures Sum(ps[..col]) <= Row(ids, ms, ps, col) < Sum(ps[..col + 1]) <= rows
    ensures Row(ids, ms, ps, col) == HashUpTo(ids, ms, col / HEADS + 1) % ps[col] + Sum(ps[..col])
    ensures forall other :: col < other < COLS ==> Sum(ps[..col + 1]) <= Sum(ps[..other])
  {
    hide HashUpTo, MultiplierOk, Sum;
    SumStep(ps, col);
    PrefixSums(ps, col, COLS);
    PrefixSums(ps, col + 1, COLS);
    assert ps[..COLS] == ps;
    Reduced(HashUpTo(ids, ms, col / HEADS + 1), ps[col], Sum(ps[..col]));
    forall other | col < other < COLS
      ensures Sum(ps[..col + 1]) <= Sum(ps[..other])
    {
      PrefixSums(ps, col + 1, other);
    }
  }

  /** With a valid layout no product of an id and a multiplier wraps. */
  lemma ProductsDoNotWrap(compressed: nat, id: Word32, m: Word64)
    requires id < compressed && MultiplierOk(compressed, m)
    ensures Product(id, m) <= INT64_MAX && Product(id, m) % TWO_64 == Product(id, m)
  {
    assert id * m <= compressed * m;
  }
}
