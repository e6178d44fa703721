/** What the warper promises about its output: its shape and error cases,
    the contents of every UV cell, the coverage mask, and independence from
    the order of the samples. */
module Properties {
  import opened Tensors
  import opened Grid
  import opened Pixels
  import opened Scatter
  import opened Warp

  /** Row s of the pooled buffer: column j < width is the sum of column j of
      the samples mapped to s divided by (count + EPS), the last column is
      the mask, and a row no sample reaches is zero throughout. */
  lemma PooledRow(a: seq<Sample>, rows: nat, width: nat, s: nat)
    requires Uniform(a, width) && s < rows
    ensures |Pooled(a, rows, width)| == rows && |Pooled(a, rows, width)[s]| == width + 1
    ensures Pooled(a, rows, width)[s][width] == if Hits(a, s) > 0 then 1.0 else 0.0
    ensures forall j :: 0 <= j < width ==>
      Pooled(a, rows, width)[s][j] == Total(a, s, j) / (Hits(a, s) as real + EPS)
    ensures Hits(a, s) == 0 ==> forall j :: 0 <= j <= width ==> Pooled(a, rows, width)[s][j] == 0.0
  {
    if Hits(a, s) == 0 {
      forall j | 0 <= j < width ensures Total(a, s, j) == 0.0 {
        NoHitsNoTotal(a, s, j);
      }
    }
  }

  /** The reshape is the inverse of the slot formula: every buffer row s
      reappears, column by column, at the cell obtained by decoding s, and
      cell (b, v, u) of the result shows row Slot(b, v, u). */
  lemma ReshapeInverse(buf: seq<seq<real>>, batch: nat, res: nat, width: nat, s: nat, c: nat)
    requires |buf| == batch * res * res
    requires forall r :: 0 <= r < |buf| ==> |buf[r]| == width
    requires s < |buf| && c < width
    ensures At(Reshape(buf, batch, res, width), Unslot(s, batch, res).0, c,
               Unslot(s, batch, res).1, Unslot(s, batch, res).2) == buf[s][c]
  {
    var cell := Unslot(s, batch, res);
    ReshapeAt(buf, batch, res, width, cell.0, c, cell.1, cell.2);
  }

  /** Element [b, c, v, u] of the reshaped buffer is column c of row
      Slot(b, v, u). */
  lemma ReshapeAt(buf: seq<seq<real>>, batch: nat, res: nat, width: nat, b: nat, c: nat, v: nat, u: nat)
    requires |buf| == batch * res * res
    requires forall r :: 0 <= r < |buf| ==> |buf[r]| == width
    requires b < batch && c < width && v < res && u < res
    ensures Slot(b, v, u, res) < |buf|
    ensures At(Reshape(buf, batch, res, width), b, c, v, u) == buf[Slot(b, v, u, res)][c]
  {
    LinearBound(b, v, u, batch, res, res);
  }

  /** The result of the warper, or the error it stops with: a mismatch of
      batch size, height or width is reported first, then a missing IUV
      channel, then a zero resolution with foreground to scatter; otherwise the
      output has shape (B, C + 3, R, R). */
  lemma WarpOutcome(dp: Tensor, fm: Tensor, res: nat)
    requires Admissible(dp, fm)
    ensures !Aligned(dp, fm) ==> WarpSpec(dp, fm, res) == Err(ShapeMismatch)
    ensures Aligned(dp, fm) && dp.dims.channels < 3 ==> WarpSpec(dp, fm, res) == Err(MissingChannel)
    ensures WarpSpec(dp, fm, res).Ok? <==>
      Aligned(dp, fm) && dp.dims.channels >= 3 && (res >= 1 || |Foreground(dp)| == 0)
    ensures WarpSpec(dp, fm, res).Ok? ==>
      WellFormed(WarpSpec(dp, fm, res).value) &&
      WarpSpec(dp, fm, res).value.dims ==
        Dims(fm.dims.batch, fm.dims.channels + 3, res, res)
  {
  }

  /** Every element [b, c, v, u] of the output: with k the number of
      foreground samples whose slot is Slot(b, v, u), a channel c < C + 2 is
      the sum of their channel c divided by k + EPS, the mask channel C + 2
      is 1 exactly when k > 0, and an uncovered cell reads 0 in every
      channel. */
  lemma WarpCell(dp: Tensor, fm: Tensor, res: nat, b: nat, c: nat, v: nat, u: nat)
    requires Admissible(dp, fm) && WarpSpec(dp, fm, res).Ok?
    requires b < fm.dims.batch && c < fm.dims.channels + 3 && v < res && u < res
    ensures Ready(dp, fm)
    ensures var t, a, s := WarpSpec(dp, fm, res).value, WarpSamples(dp, fm, res), Slot(b, v, u, res);
      && WellFormed(t) && t.dims == Dims(fm.dims.batch, fm.dims.channels + 3, res, res)
      && At(t, b, c, v, u) ==
           (if c < fm.dims.channels + 2 then Total(a, s, c) / (Hits(a, s) as real + EPS)
            else if Hits(a, s) > 0 then 1.0 else 0.0)
      && (Hits(a, s) == 0 ==> At(t, b, c, v, u) == 0.0)
  {
    PooledCell(WarpSamples(dp, fm, res), fm.dims.batch, res, fm.dims.channels + 2, fm.dims.channels + 3, b, c, v, u);
  }

  /** Element [b, c, v, u] of the reshaped pooled buffer of any samples:
      column c of pooled row Slot(b, v, u). */
  lemma PooledCell(a: seq<Sample>, batch: nat, res: nat, width: nat, k: nat, b: nat, c: nat, v: nat, u: nat)
    requires Uniform(a, width) && k == width + 1
    requires b < batch && c < k && v < res && u < res
    ensures Slot(b, v, u, res) < batch * res * res
    ensures WellFormed(Reshape(Pooled(a, batch * res * res, width), batch, res, k))
    ensures Reshape(Pooled(a, batch * res * res, width), batch, res, k).dims == Dims(batch, k, res, res)
    ensures At(Reshape(Pooled(a, batch * res * res, width), batch, res, k), b, c, v, u) ==
      (if c < width then Total(a, Slot(b, v, u, res), c) / (Hits(a, Slot(b, v, u, res)) as real + EPS)
       else if Hits(a, Slot(b, v, u, res)) > 0 then 1.0 else 0.0)
    ensures Hits(a, Slot(b, v, u, res)) == 0 ==>
      At(Reshape(Pooled(a, batch * res * res, width), batch, res, k), b, c, v, u) == 0.0
  {
    var rows := batch * res * res;
    LinearBound(b, v, u, batch, res, res);
    PooledRow(a, rows, width, Slot(b, v, u, res));
    ReshapeAt(Pooled(a, rows, width), batch, res, k, b, c, v, u);
  }

  /** The coordinate channels C (column) and C + 1 (row) of every cell stay in
      [-1, 1]: they average positions that were rescaled into [-1, 1]. */
  lemma WarpCoordinateChannels(dp: Tensor, fm: Tensor, res: nat, b: nat, v: nat, u: nat)
    requires Admissible(dp, fm) && WarpSpec(dp, fm, res).Ok?
    requires b < fm.dims.batch && v < res && u < res
    ensures var t, c := WarpSpec(dp, fm, res).value, fm.dims.channels;
      && WellFormed(t) && t.dims == Dims(fm.dims.batch, c + 3, res, res)
      && -1.0 <= At(t, b, c, v, u) <= 1.0
      && -1.0 <= At(t, b, c + 1, v, u) <= 1.0
  {
    var c := fm.dims.channels;
    var a := WarpSamples(dp, fm, res);
    var s := Slot(b, v, u, res);
    WarpCell(dp, fm, res, b, c, v, u);
    WarpCell(dp, fm, res, b, c + 1, v, u);
    SampleCoordinates(dp, fm, res);
    var t := WarpSpec(dp, fm, res).value;
    CoordinateMean(a, s, c, At(t, b, c, v, u));
    CoordinateMean(a, s, c + 1, At(t, b, c + 1, v, u));
  }

  /** The pooled value of a channel whose every sample lies in [-1, 1] lies
      in [-1, 1] too. */
  lemma CoordinateMean(a: seq<Sample>, s: nat, j: nat, x: real)
    requires HasColumn(a, j)
    requires forall k :: 0 <= k < |a| ==> -1.0 <= a[k].vec[j] <= 1.0
    requires x == Total(a, s, j) / (Hits(a, s) as real + EPS)
    ensures -1.0 <= x <= 1.0
  {
    TotalBounds(a, s, j);
    MeanBound(Total(a, s, j), Hits(a, s) as real);
  }

  /** The two coordinate values of every sample lie in [-1, 1]. */
  lemma SampleCoordinates(dp: Tensor, fm: Tensor, res: nat)
    requires Ready(dp, fm)
    ensures var a, c := WarpSamples(dp, fm, res), fm.dims.channels;
      && HasColumn(a, c) && HasColumn(a, c + 1)
      && (forall k :: 0 <= k < |a| ==> -1.0 <= a[k].vec[c] <= 1.0)
      && (forall k :: 0 <= k < |a| ==> -1.0 <= a[k].vec[c + 1] <= 1.0)
  {
    var a, c := WarpSamples(dp, fm, res), fm.dims.channels;
    forall k | 0 <= k < |a| ensures -1.0 <= a[k].vec[c] <= 1.0 && -1.0 <= a[k].vec[c + 1] <= 1.0 {
      var fg := Foreground(dp);
      assert a[k].vec == Gather(fm, fg[k]);
    }
  }

  /** A sum of h values in [-1, 1], divided by h + EPS, lies in [-1, 1]. */
  lemma MeanBound(total: real, h: real)
    requires h >= 0.0 && -h <= total <= h
    ensures -1.0 <= total / (h + EPS) <= 1.0
  {
    var q := total / (h + EPS);
    assert q * (h + EPS) == total;
  }

  /** Number of cells, among the first n in (b, v, u) order, whose mask
      channel reads 1. */
  function MaskedCells(t: Tensor, n: nat): nat
    requires WellFormed(t) && t.dims.channels >= 1 && t.dims.height == t.dims.width
    requires n <= t.dims.batch * t.dims.width * t.dims.width
  {
    if n == 0 then 0
    else MaskedCells(t, n - 1) + (if LastChannel(t, n - 1) == 1.0 then 1 else 0)
  }

  /** The last channel of the cell that buffer row s is reshaped into. */
  function LastChannel(t: Tensor, s: nat): real
    requires WellFormed(t) && t.dims.channels >= 1 && t.dims.height == t.dims.width
    requires s < t.dims.batch * t.dims.width * t.dims.width
  {
    var cell := Unslot(s, t.dims.batch, t.dims.width);
    At(t, cell.0, t.dims.channels - 1, cell.1, cell.2)
  }

  /** In the reshaped pooled buffer of any samples, the mask reads 1 on
      exactly the rows that some sample targets. */
  lemma PooledMaskCount(a: seq<Sample>, batch: nat, res: nat, width: nat, k: nat, n: nat)
    requires Uniform(a, width) && k == width + 1 && n <= batch * res * res
    ensures WellFormed(Reshape(Pooled(a, batch * res * res, width), batch, res, k))
    ensures MaskedCells(Reshape(Pooled(a, batch * res * res, width), batch, res, k), n) == Covered(a, n)
  {
    var t := Reshape(Pooled(a, batch * res * res, width), batch, res, k);
    forall s | 0 <= s < n
      ensures LastChannel(t, s) == if Hits(a, s) > 0 then 1.0 else 0.0
    {
      MaskAt(a, batch, res, width, k, s);
    }
    MaskCount(t, a, n);
  }

  /** A tensor whose mask, row by row, says whether some sample targets the
      row has as many masked cells as there are covered rows. */
  lemma {:induction false} MaskCount(t: Tensor, a: seq<Sample>, n: nat)
    requires WellFormed(t) && t.dims.channels >= 1 && t.dims.height == t.dims.width
    requires n <= t.dims.batch * t.dims.width * t.dims.width
    requires forall s :: 0 <= s < n ==> LastChannel(t, s) == if Hits(a, s) > 0 then 1.0 else 0.0
    ensures MaskedCells(t, n) == Covered(a, n)
  {
    if n > 0 {
      MaskCount(t, a, n - 1);
    }
  }

  /** The mask of the cell that row s is reshaped into is 1 iff some sample
      targets row s. */
  lemma MaskAt(a: seq<Sample>, batch: nat, res: nat, width: nat, k: nat, s: nat)
    requires Uniform(a, width) && k == width + 1 && s < batch * res * res
    ensures WellFormed(Reshape(Pooled(a, batch * res * res, width), batch, res, k))
    ensures LastChannel(Reshape(Pooled(a, batch * res * res, width), batch, res, k), s)
      == if Hits(a, s) > 0 then 1.0 else 0.0
  {
    var rows := batch * res * res;
    var buf := Pooled(a, rows, width);
    ReshapeInverse(buf, batch, res, k, s, width);
    PooledRow(a, rows, width, s);
  }

  /** The mask is set on exactly the covered slots. */
  lemma MaskedAreCovered(dp: Tensor, fm: Tensor, res: nat, n: nat)
    requires Admissible(dp, fm) && WarpSpec(dp, fm, res).Ok?
    requires n <= fm.dims.batch * res * res
    ensures Ready(dp, fm)
    ensures WellFormed(WarpSpec(dp, fm, res).value)
    ensures MaskedCells(WarpSpec(dp, fm, res).value, n) == Covered(WarpSamples(dp, fm, res), n)
  {
    WarpValue(dp, fm, res);
    PooledMaskCount(WarpSamples(dp, fm, res), fm.dims.batch, res, fm.dims.channels + 2, fm.dims.channels + 3, n);
  }

  /** A successful warp is the reshaped pooled buffer of the warp samples. */
  lemma WarpValue(dp: Tensor, fm: Tensor, res: nat)
    requires Admissible(dp, fm) && WarpSpec(dp, fm, res).Ok?
    ensures Ready(dp, fm)
    ensures WarpSpec(dp, fm, res).value ==
      Reshape(Pooled(WarpSamples(dp, fm, res), fm.dims.batch * res * res, fm.dims.channels + 2),
              fm.dims.batch, res, fm.dims.channels + 3)
  {
  }

  /** Coverage: the counts of all cells add up to the number of foreground
      pixels, so at most that many cells carry mask 1; when no two foreground
      pixels share a slot, exactly that many do. */
  lemma WarpCoverage(dp: Tensor, fm: Tensor, res: nat)
    requires Admissible(dp, fm) && WarpSpec(dp, fm, res).Ok?
    ensures Ready(dp, fm)
    ensures WellFormed(WarpSpec(dp, fm, res).value)
    ensures var a, rows := WarpSamples(dp, fm, res), fm.dims.batch * res * res;
      && |a| == |Foreground(dp)|
      && SumHits(a, rows) == |Foreground(dp)|
      && MaskedCells(WarpSpec(dp, fm, res).value, rows) <= |Foreground(dp)|
      && (DistinctSlots(a) ==> MaskedCells(WarpSpec(dp, fm, res).value, rows) == |Foreground(dp)|)
  {
    var a, rows := WarpSamples(dp, fm, res), fm.dims.batch * res * res;
    MaskedAreCovered(dp, fm, res, rows);
    CountsSumToSamples(a, rows, fm.dims.channels + 2);
    CoveredAtMostSamples(a, rows, fm.dims.channels + 2);
    if DistinctSlots(a) {
      CoveredWithoutCollisions(a, rows, fm.dims.channels + 2);
    }
  }

  /** With no confidence above the threshold, the whole output is zero,
      mask included. */
  lemma WarpNoForeground(dp: Tensor, fm: Tensor, res: nat, b: nat, c: nat, v: nat, u: nat)
    requires Admissible(dp, fm) && WarpSpec(dp, fm, res).Ok?
    requires forall p: Pixel :: InImage(p, dp.dims.batch, dp.dims.height, dp.dims.width) ==>
      Confidence(dp, p) <= THRESHOLD
    requires b < fm.dims.batch && c < fm.dims.channels + 3 && v < res && u < res
    ensures WellFormed(WarpSpec(dp, fm, res).value)
    ensures WarpSpec(dp, fm, res).value.dims == Dims(fm.dims.batch, fm.dims.channels + 3, res, res)
    ensures At(WarpSpec(dp, fm, res).value, b, c, v, u) == 0.0
  {
    WarpCell(dp, fm, res, b, c, v, u);
    var fg := Foreground(dp);
    if fg != [] {
      ForegroundMember(dp, fg[0]);
      assert false;
    }
    var a := WarpSamples(dp, fm, res);
    assert a == [];
  }

  /** The output does not depend on the order in which the foreground
      samples are scattered: pooling any reordering gives the same tensor. */
  lemma WarpOrderIndependent(dp: Tensor, fm: Tensor, res: nat, other: seq<Sample>)
    requires Admissible(dp, fm) && WarpSpec(dp, fm, res).Ok?
    requires Ready(dp, fm) && multiset(other) == multiset(WarpSamples(dp, fm, res))
    ensures var d := fm.dims;
      Uniform(other, d.channels + 2) &&
      Reshape(Pooled(other, d.batch * res * res, d.channels + 2), d.batch, res, d.channels + 3)
        == WarpSpec(dp, fm, res).value
  {
    var d := fm.dims;
    BuffersOrderIndependent(WarpSamples(dp, fm, res), other, d.batch * res * res, d.channels + 2);
  }

  /** Sample k comes from foreground pixel k: its slot is the cell given by
      UV channels 1 (u) and 2 (v) of that pixel, and its vector is the
      pixel's features followed by its rescaled column and row. */
  lemma WarpSampleOrigin(dp: Tensor, fm: Tensor, res: nat, k: nat)
    requires Ready(dp, fm) && res >= 1
    requires k < |Foreground(dp)|
    ensures var p, a := Foreground(dp)[k], WarpSamples(dp, fm, res);
      && k < |a|
      && InImage(p, dp.dims.batch, dp.dims.height, dp.dims.width)
      && a[k].slot == Slot(p.b, GridCoord(At(dp, p.b, 2, p.y, p.x), res),
                                GridCoord(At(dp, p.b, 1, p.y, p.x), res), res)
      && a[k].vec == Gather(fm, p)
  {
  }
}
