/** Scatter-accumulate: adding rows of values into the rows of a buffer named
    by an index vector, summing on collision (`Tensor.index_add_` along
    dimension 0), and the pure description of what the buffer then holds. */
module Scatter {

  /** One row of an `index_add_`: the buffer row it is added into and the
      values added there. */
  datatype Sample = Sample(slot: nat, vec: seq<real>)

  /** Every sample carries exactly `width` values. */
  predicate Uniform(a: seq<Sample>, width: nat)
  {
    forall k :: 0 <= k < |a| ==> |a[k].vec| == width
  }

  /** Every sample targets one of `rows` rows and carries `width` values. */
  predicate Fits(a: seq<Sample>, rows: nat, width: nat)
  {
    Uniform(a, width) && forall k :: 0 <= k < |a| ==> a[k].slot < rows
  }

  /** Every sample has a value in column j. */
  predicate HasColumn(a: seq<Sample>, j: nat)
  {
    forall k :: 0 <= k < |a| ==> j < |a[k].vec|
  }

  /** Number of samples that target row s. */
  function Hits(a: seq<Sample>, s: nat): (n: nat)
    ensures n <= |a|
  {
    if a == [] then 0
    else Hits(a[..|a| - 1], s) + (if a[|a| - 1].slot == s then 1 else 0)
  }

  /** Sum of column j over the samples that target row s. */
  function Total(a: seq<Sample>, s: nat, j: nat): real
    requires HasColumn(a, j)
  {
    if a == [] then 0.0
    else Total(a[..|a| - 1], s, j) + (if a[|a| - 1].slot == s then a[|a| - 1].vec[j] else 0.0)
  }

  /** The count buffer after `index_add_` of ones into zeros: row s holds the
      number of samples mapped to s. */
  function CountBuffer(a: seq<Sample>, rows: nat): (w: seq<real>)
    ensures |w| == rows
  {
    seq(rows, s requires 0 <= s < rows => Hits(a, s) as real)
  }

  /** The feature buffer after `index_add_` of the samples into zeros: row s
      holds the column-wise sum of the samples mapped to s. */
  function SumBuffer(a: seq<Sample>, rows: nat, width: nat): (f: seq<seq<real>>)
    requires Uniform(a, width)
    ensures |f| == rows && forall s :: 0 <= s < rows ==> |f[s]| == width
  {
    seq(rows, s requires 0 <= s < rows =>
      seq(width, j requires 0 <= j < width => Total(a, s, j)))
  }

  /** The all-ones source of the count scatter, one single-column row per sample. */
  function Ones(a: seq<Sample>): (o: seq<Sample>)
    ensures |o| == |a| && Uniform(o, 1)
    ensures forall k :: 0 <= k < |a| ==> o[k].slot == a[k].slot
  {
    seq(|a|, k requires 0 <= k < |a| => Sample(a[k].slot, [1.0]))
  }

  /** Adding ones counts: the count column of row s is its number of hits. */
  lemma {:induction false} TotalOfOnes(a: seq<Sample>, s: nat)
    ensures Total(Ones(a), s, 0) == Hits(a, s) as real
  {
    if a != [] {
      var n := |a| - 1;
      assert Ones(a)[..n] == Ones(a[..n]);
      TotalOfOnes(a[..n], s);
    }
  }

  /** A row that no sample targets keeps its zero. */
  lemma {:induction false} NoHitsNoTotal(a: seq<Sample>, s: nat, j: nat)
    requires HasColumn(a, j)
    requires Hits(a, s) == 0
    ensures Total(a, s, j) == 0.0
  {
    if a != [] {
      NoHitsNoTotal(a[..|a| - 1], s, j);
    }
  }

  /** Splitting the samples splits the hits. */
  lemma {:induction false} ConcatHits(a: seq<Sample>, b: seq<Sample>, s: nat)
    ensures Hits(a + b, s) == Hits(a, s) + Hits(b, s)
  {
    if b == [] {
      assert a + b == a;
    } else {
      var n := |b| - 1;
      assert (a + b)[..|a + b| - 1] == a + b[..n];
      ConcatHits(a, b[..n], s);
    }
  }

  /** Splitting the samples splits the sums. */
  lemma {:induction false} ConcatTotal(a: seq<Sample>, b: seq<Sample>, s: nat, j: nat)
    requires HasColumn(a, j) && HasColumn(b, j)
    ensures HasColumn(a + b, j)
    ensures Total(a + b, s, j) == Total(a, s, j) + Total(b, s, j)
  {
    if b == [] {
      assert a + b == a;
    } else {
      var n := |b| - 1;
      assert (a + b)[..|a + b| - 1] == a + b[..n];
      ConcatTotal(a, b[..n], s, j);
    }
  }

  /** A reordering has a column wherever the original has one. */
  lemma PermutedColumn(a: seq<Sample>, b: seq<Sample>, j: nat)
    requires multiset(a) == multiset(b) && HasColumn(a, j)
    ensures HasColumn(b, j)
  {
    forall k | 0 <= k < |b| ensures j < |b[k].vec| {
      assert b[k] in multiset(a);
    }
  }

  /** Counting is order-independent: any reordering of the samples gives
      every row the same number of hits. */
  lemma {:induction false} HitsOrderIndependent(a: seq<Sample>, b: seq<Sample>, s: nat)
    requires multiset(a) == multiset(b)
    ensures Hits(a, s) == Hits(b, s)
  {
    if a == [] {
      assert |b| == |multiset(b)| == 0;
    } else {
      var n := |a| - 1;
      assert a[n] in multiset(b);
      var i :| 0 <= i < |b| && b[i] == a[n];
      RemoveSame(a, b, i);
      HitsWithout(b, i, s);
      HitsOrderIndependent(a[..n], b[..i] + b[i + 1..], s);
    }
  }

  /** Taking sample i out of b removes exactly its hit on row s. */
  lemma HitsWithout(b: seq<Sample>, i: nat, s: nat)
    requires i < |b|
    ensures Hits(b, s) == Hits(b[..i] + b[i + 1..], s) + (if b[i].slot == s then 1 else 0)
  {
    var x, lo, hi := b[i], b[..i], b[i + 1..];
    Around(b, i);
    HitsSnoc(lo, x, s);
    ConcatHits(lo + [x], hi, s);
    ConcatHits(lo, hi, s);
  }

  /** One more sample adds one hit to its own row only. */
  lemma HitsSnoc(a: seq<Sample>, x: Sample, s: nat)
    ensures Hits(a + [x], s) == Hits(a, s) + (if x.slot == s then 1 else 0)
  {
    assert (a + [x])[..|a|] == a;
  }

  /** A sequence is its prefix before i, its element i and its suffix after i. */
  lemma Around(b: seq<Sample>, i: nat)
    requires i < |b|
    ensures b == b[..i] + [b[i]] + b[i + 1..]
  {
  }

  /** Accumulation is a sum, not a last write: any reordering of the samples
      gives every row the same sums. */
  lemma {:induction false} TotalOrderIndependent(a: seq<Sample>, b: seq<Sample>, s: nat, j: nat)
    requires multiset(a) == multiset(b)
    requires HasColumn(a, j)
    ensures HasColumn(b, j)
    ensures Total(a, s, j) == Total(b, s, j)
  {
    PermutedColumn(a, b, j);
    if a == [] {
      assert |b| == |multiset(b)| == 0;
    } else {
      var n := |a| - 1;
      assert a[n] in multiset(b);
      var i :| 0 <= i < |b| && b[i] == a[n];
      RemoveSame(a, b, i);
      TotalWithout(b, i, s, j);
      TotalOrderIndependent(a[..n], b[..i] + b[i + 1..], s, j);
    }
  }

  /** One more sample adds its value to its own row only. */
  lemma TotalSnoc(a: seq<Sample>, x: Sample, s: nat, j: nat)
    requires HasColumn(a, j) && j < |x.vec|
    ensures HasColumn(a + [x], j)
    ensures Total(a + [x], s, j) == Total(a, s, j) + (if x.slot == s then x.vec[j] else 0.0)
  {
    assert (a + [x])[..|a|] == a;
  }

  /** The samples before and after position i keep column j. */
  lemma SplitColumn(b: seq<Sample>, i: nat, j: nat)
    requires HasColumn(b, j) && i < |b|
    ensures HasColumn(b[..i], j) && HasColumn(b[i + 1..], j)
    ensures b == b[..i] + [b[i]] + b[i + 1..]
  {
    var hi := b[i + 1..];
    forall k | 0 <= k < |hi| ensures j < |hi[k].vec| {
      assert hi[k] == b[i + 1 + k];
    }
  }

  /** Taking sample i out of b removes exactly its contribution to row s. */
  lemma TotalWithout(b: seq<Sample>, i: nat, s: nat, j: nat)
    requires HasColumn(b, j) && i < |b|
    ensures HasColumn(b[..i] + b[i + 1..], j)
    ensures Total(b, s, j) ==
      Total(b[..i] + b[i + 1..], s, j) + (if b[i].slot == s then b[i].vec[j] else 0.0)
  {
    var x, lo, hi := b[i], b[..i], b[i + 1..];
    SplitColumn(b, i, j);
    TotalSnoc(lo, x, s, j);
    ConcatTotal(lo + [x], hi, s, j);
    ConcatTotal(lo, hi, s, j);
  }

  /** Taking the last sample off a and the same sample off b, at position i,
      leaves two reorderings of one another. */
  lemma RemoveSame(a: seq<Sample>, b: seq<Sample>, i: nat)
    requires multiset(a) == multiset(b)
    requires a != [] && i < |b| && b[i] == a[|a| - 1]
    ensures multiset(a[..|a| - 1]) == multiset(b[..i] + b[i + 1..])
  {
    var x := b[i];
    assert a == a[..|a| - 1] + [x];
    assert b == b[..i] + [x] + b[i + 1..];
    assert multiset(a[..|a| - 1]) == multiset(a) - multiset{x};
    assert multiset(b[..i] + b[i + 1..]) == multiset(b) - multiset{x};
  }

  /** Sum of the hits of rows 0 .. rows - 1. */
  function SumHits(a: seq<Sample>, rows: nat): nat
  {
    if rows == 0 then 0 else SumHits(a, rows - 1) + Hits(a, rows - 1)
  }

  /** Number of rows among 0 .. rows - 1 that at least one sample targets. */
  function Covered(a: seq<Sample>, rows: nat): nat
  {
    if rows == 0 then 0 else Covered(a, rows - 1) + (if Hits(a, rows - 1) > 0 then 1 else 0)
  }

  /** One more sample adds one hit to the rows below `rows` exactly when it
      targets one of them. */
  lemma {:induction false} SumHitsSnoc(a: seq<Sample>, x: Sample, rows: nat)
    ensures SumHits(a + [x], rows) == SumHits(a, rows) + (if x.slot < rows then 1 else 0)
  {
    if rows > 0 {
      SumHitsSnoc(a, x, rows - 1);
      assert (a + [x])[..|a + [x]| - 1] == a;
    }
  }

  /** The counts of all rows add up to the number of samples. */
  lemma {:induction false} CountsSumToSamples(a: seq<Sample>, rows: nat, width: nat)
    requires Fits(a, rows, width)
    ensures SumHits(a, rows) == |a|
  {
    if a == [] {
      assert SumHits(a, rows) == 0 by { NoSamplesNoHits(rows); }
    } else {
      var n := |a| - 1;
      assert a == a[..n] + [a[n]];
      CountsSumToSamples(a[..n], rows, width);
      SumHitsSnoc(a[..n], a[n], rows);
    }
  }

  lemma {:induction false} NoSamplesNoHits(rows: nat)
    ensures SumHits([], rows) == 0 && Covered([], rows) == 0
  {
    if rows > 0 {
      NoSamplesNoHits(rows - 1);
    }
  }

  /** A covered row has at least one hit, so there are no more covered rows
      than hits. */
  lemma {:induction false} CoveredAtMostHits(a: seq<Sample>, rows: nat)
    ensures Covered(a, rows) <= SumHits(a, rows)
  {
    if rows > 0 {
      CoveredAtMostHits(a, rows - 1);
    }
  }

  /** There are at most as many covered rows as samples. */
  lemma CoveredAtMostSamples(a: seq<Sample>, rows: nat, width: nat)
    requires Fits(a, rows, width)
    ensures Covered(a, rows) <= |a|
  {
    CoveredAtMostHits(a, rows);
    CountsSumToSamples(a, rows, width);
  }

  /** Samples no two of which share a row. */
  predicate DistinctSlots(a: seq<Sample>)
  {
    forall k, l :: 0 <= k < l < |a| ==> a[k].slot != a[l].slot
  }

  /** Without collisions a row is hit at most once. */
  lemma {:induction false} DistinctAtMostOnce(a: seq<Sample>, s: nat)
    requires DistinctSlots(a)
    ensures Hits(a, s) <= 1
    ensures Hits(a, s) == 1 <==> exists k :: 0 <= k < |a| && a[k].slot == s
  {
    if a != [] {
      var n := |a| - 1;
      DistinctAtMostOnce(a[..n], s);
      if a[n].slot == s {
        NotHit(a[..n], s);
      }
      if exists k :: 0 <= k < |a| && a[k].slot == s {
        var k :| 0 <= k < |a| && a[k].slot == s;
        if k < n {
          assert a[..n][k].slot == s;
        }
      }
    }
  }

  /** A row no sample targets has no hits. */
  lemma {:induction false} NotHit(a: seq<Sample>, s: nat)
    requires forall k :: 0 <= k < |a| ==> a[k].slot != s
    ensures Hits(a, s) == 0
  {
    if a != [] {
      NotHit(a[..|a| - 1], s);
    }
  }

  /** Without collisions every sample covers a row of its own. */
  lemma {:induction false} CoveredWithoutCollisions(a: seq<Sample>, rows: nat, width: nat)
    requires Fits(a, rows, width) && DistinctSlots(a)
    ensures Covered(a, rows) == |a|
  {
    CountsSumToSamples(a, rows, width);
    CoveredIsSumHits(a, rows);
  }

  lemma {:induction false} CoveredIsSumHits(a: seq<Sample>, rows: nat)
    requires DistinctSlots(a)
    ensures Covered(a, rows) == SumHits(a, rows)
  {
    if rows > 0 {
      CoveredIsSumHits(a, rows - 1);
      DistinctAtMostOnce(a, rows - 1);
    }
  }

  /** If every value added into row s in column j lies in [-1, 1], the sum
      lies between -hits and hits. */
  lemma {:induction false} TotalBounds(a: seq<Sample>, s: nat, j: nat)
    requires HasColumn(a, j)
    requires forall k :: 0 <= k < |a| && a[k].slot == s ==> -1.0 <= a[k].vec[j] <= 1.0
    ensures -(Hits(a, s) as real) <= Total(a, s, j) <= Hits(a, s) as real
  {
    if a != [] {
      TotalBounds(a[..|a| - 1], s, j);
    }
  }

  /** Reordering the samples leaves both buffers unchanged. */
  lemma BuffersOrderIndependent(a: seq<Sample>, b: seq<Sample>, rows: nat, width: nat)
    requires multiset(a) == multiset(b)
    requires Uniform(a, width)
    ensures Uniform(b, width)
    ensures CountBuffer(a, rows) == CountBuffer(b, rows)
    ensures SumBuffer(a, rows, width) == SumBuffer(b, rows, width)
  {
    forall k | 0 <= k < |b| ensures |b[k].vec| == width {
      assert b[k] in multiset(a);
    }
    forall s | 0 <= s < rows ensures Hits(a, s) == Hits(b, s) {
      HitsOrderIndependent(a, b, s);
    }
    forall s | 0 <= s < rows ensures SumBuffer(a, rows, width)[s] == SumBuffer(b, rows, width)[s] {
      forall j | 0 <= j < width ensures Total(a, s, j) == Total(b, s, j) {
        TotalOrderIndependent(a, b, s, j);
      }
    }
  }

  /** `target.index_add_(0, index, source)` with sample k standing for row k of
      `source` and entry k of `index`: every sample's values are added into
      the row it names, so each row ends up with its old contents plus the
      sums of the samples that target it. */
  method IndexAdd(target: array2<real>, a: seq<Sample>)
    requires Fits(a, target.Length0, target.Length1)
    modifies target
    ensures forall s, j :: 0 <= s < target.Length0 && 0 <= j < target.Length1 ==>
      target[s, j] == old(target[s, j]) + Total(a, s, j)
  {
    for k := 0 to |a|
      invariant forall s, j :: 0 <= s < target.Length0 && 0 <= j < target.Length1 ==>
        target[s, j] == old(target[s, j]) + Total(a[..k], s, j)
    {
      var row := a[k].slot;
      for j := 0 to target.Length1
        invariant forall s, j' :: 0 <= s < target.Length0 && 0 <= j' < target.Length1 ==>
          target[s, j'] == old(target[s, j']) + Total(a[..k], s, j') +
                           (if s == row && j' < j then a[k].vec[j'] else 0.0)
      {
        target[row, j] := target[row, j] + a[k].vec[j];
      }
      assert a[..k + 1][..k] == a[..k];
    }
    assert a[..|a|] == a;
  }

  /** The two scatters of the warper: a zeroed (rows x 1) count buffer and a
      zeroed (rows x width) feature buffer, `index_add_` of ones into the first
      and of the samples into the second. */
  method Accumulate(a: seq<Sample>, rows: nat, width: nat) returns (counts: seq<real>, sums: seq<seq<real>>)
    requires Fits(a, rows, width)
    ensures counts == CountBuffer(a, rows)
    ensures sums == SumBuffer(a, rows, width)
  {
    var w := new real[rows, 1]((_, _) => 0.0);
    IndexAdd(w, Ones(a));
    var f := new real[rows, width]((_, _) => 0.0);
    IndexAdd(f, a);
    counts := seq(rows, s requires 0 <= s < rows reads w => w[s, 0]);
    sums := seq(rows, s requires 0 <= s < rows reads f =>
              seq(width, j requires 0 <= j < width reads f => f[s, j]));
    forall s | 0 <= s < rows ensures counts[s] == Hits(a, s) as real {
      TotalOfOnes(a, s);
    }
    forall s | 0 <= s < rows ensures sums[s] == SumBuffer(a, rows, width)[s] {
    }
  }
}
