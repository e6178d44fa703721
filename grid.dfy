/** Integer arithmetic of the warper: turning a normalised UV coordinate into a
    cell of the R x R grid, linearising (batch, v, u) into one buffer slot, and
    rescaling an image position into [-1, 1]. */
module Grid {

  /** Rounding to the nearest integer with ties to even, as `torch.round` does. */
  function Round(x: real): (r: int)
    ensures x - 0.5 <= r as real <= x + 0.5
    ensures (r as real - x == 0.5 || x - r as real == 0.5) ==> r % 2 == 0
  {
    var f := x.Floor;
    var d := x - f as real;
    if d < 0.5 then f
    else if d > 0.5 then f + 1
    else if f % 2 == 0 then f
    else f + 1
  }

  /** `clamp(min=lo, max=hi)` for lo <= hi. */
  function Clamp(n: int, lo: int, hi: int): (r: int)
    requires lo <= hi
    ensures lo <= r <= hi
    ensures lo <= n <= hi ==> r == n
    ensures n < lo ==> r == lo
    ensures hi < n ==> r == hi
  {
    if n < lo then lo else if hi < n then hi else n
  }

  /** Grid coordinate of a normalised UV value t: scale by R - 1, round, clamp
      into [0, R - 1]. Whatever t is, the result is a valid cell; for t in
      [0, 1] the clamp changes nothing and the cell is the nearest one. */
  function GridCoord(t: real, res: nat): (r: nat)
    requires res >= 1
    ensures r < res
    ensures 0.0 <= t <= 1.0 ==>
      r == Round(t * (res - 1) as real) &&
      t * (res - 1) as real - 0.5 <= r as real <= t * (res - 1) as real + 0.5
  {
    var scaled := t * (res - 1) as real;
    ScaleUnit(t, (res - 1) as real);
    if 0.0 <= t <= 1.0 then
      RoundInRange(scaled, res - 1);
      Clamp(Round(scaled), 0, res - 1)
    else Clamp(Round(scaled), 0, res - 1)
  }

  /** Rounding a value of [0, hi] gives an integer of [0, hi]. */
  lemma RoundInRange(x: real, hi: int)
    requires 0.0 <= x <= hi as real
    ensures 0 <= Round(x) <= hi
  {
    var r := Round(x);
    assert -1.0 < r as real < hi as real + 1.0;
  }

  /** Scaling a non-negative n by a factor in [0, 1] stays within [0, n]. */
  lemma ScaleUnit(t: real, n: real)
    requires 0.0 <= n
    ensures 0.0 <= t <= 1.0 ==> 0.0 <= t * n <= n
  {
    if 0.0 <= t <= 1.0 {
      assert n - t * n == (1.0 - t) * n;
    }
  }

  /** Row-major linear index of (i, j, k) in an array of extents (_, n, m):
      i * n * m + j * m + k, so k varies fastest and i slowest. This is the
      order in which a contiguous tensor is flattened by `view(-1)` and
      unflattened by `reshape`. */
  function Linear(i: nat, j: nat, k: nat, n: nat, m: nat): nat
  {
    i * n * m + j * m + k
  }

  /** Multiplying by a non-negative factor preserves order. */
  lemma MulMono(a: int, b: int, d: int)
    requires a <= b && 0 <= d
    ensures a * d <= b * d
  {
    var k := b - a;
    assert b * d == a * d + k * d;
  }

  /** Euclidean division is unique: q and r are n's quotient and remainder. */
  lemma DivModUnique(n: int, d: int, q: int, r: int)
    requires 0 < d && 0 <= r < d && n == q * d + r
    ensures n / d == q && n % d == r
  {
    var q', r' := n / d, n % d;
    assert n == q' * d + r';
    if q > q' {
      MulMono(q' + 1, q, d);
    } else if q < q' {
      MulMono(q + 1, q', d);
    }
  }

  /** The offset j * m + k of a position inside one n x m block. */
  lemma InBlock(j: nat, k: nat, n: nat, m: nat)
    requires j < n && k < m
    ensures j * m + k < n * m
  {
    MulMono(j, n - 1, m);
  }

  /** q * (n * m) + (j * m + k) regrouped. */
  lemma Regroup(s: int, q: int, j: int, k: int, n: int, m: int)
    requires s == q * (n * m) + (j * m + k)
    ensures s == (q * n + j) * m + k
    ensures s == q * n * m + j * m + k
  {
  }

  /** An index in range lands inside the a * n * m elements of the array. */
  lemma LinearBound(i: nat, j: nat, k: nat, a: nat, n: nat, m: nat)
    requires i < a && j < n && k < m
    ensures Linear(i, j, k, n, m) < a * n * m
  {
    InBlock(j, k, n, m);
    MulMono(i + 1, a, n * m);
  }

  /** Unflattening a linear index recovers the position it came from. */
  lemma LinearDecode(i: nat, j: nat, k: nat, n: nat, m: nat)
    requires j < n && k < m
    ensures Linear(i, j, k, n, m) / (n * m) == i
    ensures (Linear(i, j, k, n, m) % (n * m)) / m == j
    ensures Linear(i, j, k, n, m) % m == k
  {
    var l := Linear(i, j, k, n, m);
    InBlock(j, k, n, m);
    Regroup(l, i, j, k, n, m);
    DivModUnique(l, n * m, i, j * m + k);
    DivModUnique(j * m + k, m, j, k);
    DivModUnique(l, m, i * n + j, k);
  }

  /** Every linear index below a * n * m is the index of the position obtained
      by unflattening it, so flattening misses nothing. */
  lemma LinearEncode(l: nat, a: nat, n: nat, m: nat)
    requires l < a * n * m
    ensures n > 0 && m > 0 && n * m > 0
    ensures l / (n * m) < a && (l % (n * m)) / m < n && l % m < m
    ensures Linear(l / (n * m), (l % (n * m)) / m, l % m, n, m) == l
  {
    var nm := n * m;
    var q, r := l / nm, l % nm;
    if q >= a {
      MulMono(a, q, nm);
    }
    var j, k := r / m, r % m;
    if j >= n {
      MulMono(n, j, m);
    }
    Regroup(l, q, j, k, n, m);
    DivModUnique(l, m, q * n + j, k);
  }

  /** Flat slot of cell (v, u) of batch element b in a buffer of R * R rows per
      batch element: b * R^2 + v * R + u, u varying fastest. */
  function Slot(b: nat, v: nat, u: nat, res: nat): nat
  {
    Linear(b, v, u, res, res)
  }

  /** The cell (b, v, u) stored in row s of a buffer of batch * res * res
      rows: the inverse of Slot. */
  function Unslot(s: nat, batch: nat, res: nat): (cell: (nat, nat, nat))
    requires s < batch * res * res
    ensures cell.0 < batch && cell.1 < res && cell.2 < res
    ensures Slot(cell.0, cell.1, cell.2, res) == s
  {
    LinearEncode(s, batch, res, res);
    (s / (res * res), (s % (res * res)) / res, s % res)
  }

  /** Two distinct cells in range never share a slot. */
  lemma SlotInjective(b: nat, v: nat, u: nat, b': nat, v': nat, u': nat, res: nat)
    requires v < res && u < res && v' < res && u' < res
    requires Slot(b, v, u, res) == Slot(b', v', u', res)
    ensures b == b' && v == v' && u == u'
  {
    LinearDecode(b, v, u, res, res);
    LinearDecode(b', v', u', res, res);
  }

  /** `2 * pos / (dim - 1) - 1`: an image position in [0, dim - 1] mapped
      linearly onto [-1, 1], first pixel to -1 and last to 1. */
  function Rescale(pos: nat, dim: nat): (r: real)
    requires dim >= 2
    ensures pos < dim ==> -1.0 <= r <= 1.0
    ensures pos == 0 ==> r == -1.0
    ensures pos == dim - 1 ==> r == 1.0
  {
    var q := 2.0 * pos as real / (dim - 1) as real;
    assert q * (dim - 1) as real == 2.0 * pos as real;
    assert pos < dim ==> q <= 2.0;
    q - 1.0
  }
}
