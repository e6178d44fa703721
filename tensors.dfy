/** Dense rank-4 tensors of reals, the shape in which both inputs of the
    warper and its output are handed around. */
module Tensors {

  /** Extents of a rank-4 tensor in (batch, channels, height, width) order. */
  datatype Dims = Dims(batch: nat, channels: nat, height: nat, width: nat)

  /** A rank-4 tensor indexed vals[b][c][y][x]. The extents are kept beside the
      values so that a tensor with an empty leading axis still has a shape. */
  datatype Tensor = Tensor(dims: Dims, vals: seq<seq<seq<seq<real>>>>)

  /** The nested sequences are rectangular and agree with the recorded extents. */
  predicate WellFormed(t: Tensor)
  {
    && |t.vals| == t.dims.batch
    && (forall b :: 0 <= b < |t.vals| ==> |t.vals[b]| == t.dims.channels)
    && (forall b, c :: 0 <= b < |t.vals| && 0 <= c < |t.vals[b]| ==>
          |t.vals[b][c]| == t.dims.height)
    && (forall b, c, y :: 0 <= b < |t.vals| && 0 <= c < |t.vals[b]| && 0 <= y < |t.vals[b][c]| ==>
          |t.vals[b][c][y]| == t.dims.width)
  }

  /** Element [b, c, y, x]. */
  function At(t: Tensor, b: nat, c: nat, y: nat, x: nat): real
    requires WellFormed(t)
    requires b < t.dims.batch && c < t.dims.channels && y < t.dims.height && x < t.dims.width
  {
    t.vals[b][c][y][x]
  }
}
