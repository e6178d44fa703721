/** The feature warper: image-space pixel features of a batch are scattered
    into an R x R UV grid per batch element through an IUV correspondence
    map, averaged over collisions, and returned with a coverage mask as
    a (B, C + 3, R, R) tensor. */
module Warp {
  import opened Tensors
  import opened Grid
  import opened Pixels
  import opened Scatter

  /** The guard added to every count before dividing by it (1e-8). */
  const EPS: real := 0.00000001

  datatype WarpError =
    | ShapeMismatch   // batch size, height or width of the two inputs differ
    | MissingChannel  // the IUV map has no confidence and two UV channels
    | SlotOutOfRange  // resolution 0: a foreground sample has no row to go to

  datatype Result<T> = Ok(value: T) | Err(error: WarpError)

  /** The two inputs agree in batch size, height and width. */
  predicate Aligned(dp: Tensor, fm: Tensor)
  {
    && dp.dims.batch == fm.dims.batch
    && dp.dims.height == fm.dims.height
    && dp.dims.width == fm.dims.width
  }

  /** What the model asks of a caller: two rectangular tensors, and, when the
      shape checks pass and some pixel is foreground, an image that is not a
      single row or column (for which the coordinate rescale divides 0 by 0). */
  predicate Admissible(dp: Tensor, fm: Tensor)
  {
    && WellFormed(dp) && WellFormed(fm)
    && (Aligned(dp, fm) && dp.dims.channels >= 3 && |Foreground(dp)| > 0 ==>
          fm.dims.height != 1 && fm.dims.width != 1)
  }

  /** Inputs that get past the shape checks and carry the three IUV channels. */
  predicate Ready(dp: Tensor, fm: Tensor)
  {
    Admissible(dp, fm) && Aligned(dp, fm) && dp.dims.channels >= 3
  }

  /** The gathered vector of pixel p: its C feature values, then its column
      and its row rescaled to [-1, 1]. */
  function Gather(fm: Tensor, p: Pixel): (vec: seq<real>)
    requires WellFormed(fm) && fm.dims.height != 1 && fm.dims.width != 1
    requires InImage(p, fm.dims.batch, fm.dims.height, fm.dims.width)
    ensures |vec| == fm.dims.channels + 2
    ensures forall c :: 0 <= c < fm.dims.channels ==> vec[c] == At(fm, p.b, c, p.y, p.x)
    ensures vec[fm.dims.channels] == Rescale(p.x, fm.dims.width)
    ensures vec[fm.dims.channels + 1] == Rescale(p.y, fm.dims.height)
    ensures -1.0 <= vec[fm.dims.channels] <= 1.0 && -1.0 <= vec[fm.dims.channels + 1] <= 1.0
  {
    var d := fm.dims;
    seq(d.channels, c requires 0 <= c < d.channels => At(fm, p.b, c, p.y, p.x))
      + [Rescale(p.x, d.width), Rescale(p.y, d.height)]
  }

  /** The buffer row that pixel p is scattered into: u from UV channel 1 and
      v from UV channel 2 of the IUV map, each turned into a grid coordinate. */
  function PixelSlot(dp: Tensor, p: Pixel, res: nat): (s: nat)
    requires WellFormed(dp) && dp.dims.channels >= 3 && res >= 1
    requires InImage(p, dp.dims.batch, dp.dims.height, dp.dims.width)
    ensures s < dp.dims.batch * res * res
  {
    var u := GridCoord(At(dp, p.b, 1, p.y, p.x), res);
    var v := GridCoord(At(dp, p.b, 2, p.y, p.x), res);
    LinearBound(p.b, v, u, dp.dims.batch, res, res);
    Slot(p.b, v, u, res)
  }

  /** One sample per foreground pixel, in foreground order: its slot and its
      gathered vector. */
  function Samples(dp: Tensor, fm: Tensor, res: nat): (a: seq<Sample>)
    requires Ready(dp, fm) && res >= 1
    ensures |a| == |Foreground(dp)|
    ensures Fits(a, fm.dims.batch * res * res, fm.dims.channels + 2)
  {
    var fg := Foreground(dp);
    seq(|fg|, k requires 0 <= k < |fg| => Sample(PixelSlot(dp, fg[k], res), Gather(fm, fg[k])))
  }

  /** Each buffer row divided by its count + EPS, with the mask column
      (count > 0) appended. */
  function Normalise(counts: seq<real>, sums: seq<seq<real>>): (buf: seq<seq<real>>)
    requires |counts| == |sums|
    requires forall s :: 0 <= s < |counts| ==> counts[s] >= 0.0
    ensures |buf| == |sums|
    ensures forall s :: 0 <= s < |sums| ==> |buf[s]| == |sums[s]| + 1
  {
    seq(|sums|, s requires 0 <= s < |sums| =>
      seq(|sums[s]|, j requires 0 <= j < |sums[s]| => sums[s][j] / (counts[s] + EPS))
        + [if counts[s] > 0.0 then 1.0 else 0.0])
  }

  /** The pooled buffer: the two scatters of the samples into zeroed buffers,
      normalised. */
  function Pooled(a: seq<Sample>, rows: nat, width: nat): (buf: seq<seq<real>>)
    requires Uniform(a, width)
    ensures |buf| == rows && forall s :: 0 <= s < rows ==> |buf[s]| == width + 1
  {
    Normalise(CountBuffer(a, rows), SumBuffer(a, rows, width))
  }

  /** The (B * R^2, K) buffer viewed as (B, R, R, K) and permuted to
      (B, K, R, R): element [b, c, v, u] is column c of row b*R^2 + v*R + u. */
  function Reshape(buf: seq<seq<real>>, batch: nat, res: nat, width: nat): (t: Tensor)
    requires |buf| == batch * res * res
    requires forall s :: 0 <= s < |buf| ==> |buf[s]| == width
    ensures WellFormed(t) && t.dims == Dims(batch, width, res, res)
  {
    Tensor(Dims(batch, width, res, res),
      seq(batch, b requires 0 <= b < batch =>
        seq(width, c requires 0 <= c < width =>
          seq(res, v requires 0 <= v < res =>
            seq(res, u requires 0 <= u < res =>
              LinearBound(b, v, u, batch, res, res);
              buf[Slot(b, v, u, res)][c])))))
  }

  /** The samples the warper scatters: none when the resolution is 0 (the
      only case in which it succeeds then is an empty foreground). */
  function WarpSamples(dp: Tensor, fm: Tensor, res: nat): (a: seq<Sample>)
    requires Ready(dp, fm)
    ensures Fits(a, fm.dims.batch * res * res, fm.dims.channels + 2)
    ensures res >= 1 ==> |a| == |Foreground(dp)|
  {
    if res == 0 then [] else Samples(dp, fm, res)
  }

  /** The warper's result as a function of its inputs: fail on the shape
      checks, otherwise scatter the foreground samples and pool them. */
  function WarpSpec(dp: Tensor, fm: Tensor, res: nat): Result<Tensor>
    requires Admissible(dp, fm)
  {
    if !Aligned(dp, fm) then Err(ShapeMismatch)
    else if dp.dims.channels < 3 then Err(MissingChannel)
    else if res == 0 && |Foreground(dp)| > 0 then Err(SlotOutOfRange)
    else
      var d := fm.dims;
      var a := WarpSamples(dp, fm, res);
      Ok(Reshape(Pooled(a, d.batch * res * res, d.channels + 2), d.batch, res, d.channels + 3))
  }

  /** `warp_feature`: the shape checks, the pure stages of the pipeline, the
      two in-place scatters, then normalisation and the reshape. */
  method WarpFeature(dp: Tensor, fm: Tensor, res: nat) returns (r: Result<Tensor>)
    requires Admissible(dp, fm)
    ensures r == WarpSpec(dp, fm, res)
  {
    if !Aligned(dp, fm) {
      return Err(ShapeMismatch);
    }
    if dp.dims.channels < 3 {
      return Err(MissingChannel);
    }
    var fg := Foreground(dp);
    if res == 0 && |fg| > 0 {
      return Err(SlotOutOfRange);
    }
    var d := fm.dims;
    var rows := d.batch * res * res;
    var a := WarpSamples(dp, fm, res);
    var counts, sums := Accumulate(a, rows, d.channels + 2);
    r := Ok(Reshape(Normalise(counts, sums), d.batch, res, d.channels + 3));
  }
}
