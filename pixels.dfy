/** The pixels of a batch in enumeration order, and the foreground selection
    that keeps only those whose confidence exceeds the threshold. */
module Pixels {
  import opened Tensors
  import opened Grid

  /** A pixel position (batch element, row, column). */
  datatype Pixel = Pixel(b: nat, y: nat, x: nat)

  /** Confidence above which a pixel counts as foreground (strictly above). */
  const THRESHOLD: real := 0.5

  /** Position of pixel p in the batch-major, row, column enumeration. */
  function Flat(p: Pixel, height: nat, width: nat): nat
  {
    Linear(p.b, p.y, p.x, height, width)
  }

  predicate InImage(p: Pixel, batch: nat, height: nat, width: nat)
  {
    p.b < batch && p.y < height && p.x < width
  }

  /** Every (batch, row, column) triple of a B x H x W grid, flattened the way
      the index vectors are built: the batch index is `arange(B)` expanded over
      (H, W) and flattened, so entry i is i / (H * W); the row and column
      indices are the flattened meshgrid of (H, W) repeated B times, so entry i
      is (i % (H * W)) / W and (i % (H * W)) % W. */
  function Enumerate(batch: nat, height: nat, width: nat): (ps: seq<Pixel>)
    ensures |ps| == batch * height * width
    ensures forall i :: 0 <= i < |ps| ==> InImage(ps[i], batch, height, width)
  {
    var plane := height * width;
    if plane == 0 then []
    else seq(batch * plane, i requires 0 <= i < batch * plane => Unflatten(i, batch, height, width))
  }

  /** The pixel at flat position i of a batch of height x width planes. */
  function Unflatten(i: nat, batch: nat, height: nat, width: nat): (p: Pixel)
    requires i < batch * (height * width)
    ensures InImage(p, batch, height, width)
  {
    LinearEncode(i, batch, height, width);
    var plane := height * width;
    Pixel(i / plane, (i % plane) / width, (i % plane) % width)
  }

  /** The i-th enumerated pixel lies in the grid and sits at flat position i. */
  lemma EnumerateAt(batch: nat, height: nat, width: nat, i: nat)
    requires i < batch * height * width
    ensures InImage(Enumerate(batch, height, width)[i], batch, height, width)
    ensures Flat(Enumerate(batch, height, width)[i], height, width) == i
  {
    LinearEncode(i, batch, height, width);
    var plane := height * width;
    var r := i % plane;
    DivModUnique(r, width, r / width, r % width);
    DivModUnique(i, width, (i / plane) * height + r / width, r % width);
  }

  /** Pixel (b, y, x) of the grid is enumerated at position b*H*W + y*W + x:
      batch slowest, column fastest. */
  lemma EnumerateIndex(batch: nat, height: nat, width: nat, p: Pixel)
    requires InImage(p, batch, height, width)
    ensures Flat(p, height, width) < batch * height * width
    ensures Enumerate(batch, height, width)[Flat(p, height, width)] == p
  {
    var i := Flat(p, height, width);
    LinearBound(p.b, p.y, p.x, batch, height, width);
    LinearDecode(p.b, p.y, p.x, height, width);
    var plane := height * width;
    assert (i % plane) % width == p.x by {
      DivModUnique(i % plane, width, p.y, p.x);
    }
  }

  /** Foreground confidence (channel 0 of the IUV map) of pixel p. */
  function Confidence(dp: Tensor, p: Pixel): real
    requires WellFormed(dp) && dp.dims.channels >= 1
    requires InImage(p, dp.dims.batch, dp.dims.height, dp.dims.width)
  {
    At(dp, p.b, 0, p.y, p.x)
  }

  /** Confidence of each pixel of ps, in order. */
  function Confidences(dp: Tensor, ps: seq<Pixel>): (conf: seq<real>)
    requires WellFormed(dp) && dp.dims.channels >= 1
    requires forall i :: 0 <= i < |ps| ==> InImage(ps[i], dp.dims.batch, dp.dims.height, dp.dims.width)
    ensures |conf| == |ps|
    ensures forall i :: 0 <= i < |ps| ==> conf[i] == Confidence(dp, ps[i])
  {
    seq(|ps|, i requires 0 <= i < |ps| => Confidence(dp, ps[i]))
  }

  /** The confidence vector of the enumeration holds, at the flat position
      b*H*W + y*W + x of each pixel of the image, channel 0 of the IUV map at
      that pixel. */
  lemma EnumeratedConfidence(dp: Tensor, p: Pixel)
    requires WellFormed(dp) && dp.dims.channels >= 1
    requires InImage(p, dp.dims.batch, dp.dims.height, dp.dims.width)
    ensures Flat(p, dp.dims.height, dp.dims.width) <
      |Confidences(dp, Enumerate(dp.dims.batch, dp.dims.height, dp.dims.width))|
    ensures Confidences(dp, Enumerate(dp.dims.batch, dp.dims.height, dp.dims.width))
      [Flat(p, dp.dims.height, dp.dims.width)] == At(dp, p.b, 0, p.y, p.x)
  {
    EnumerateIndex(dp.dims.batch, dp.dims.height, dp.dims.width, p);
  }

  /** Positions of a boolean mask `conf > THRESHOLD`, in increasing order:
      the positions that boolean-mask indexing keeps. */
  function Kept(conf: seq<real>): (k: seq<nat>)
    ensures forall i :: 0 <= i < |k| ==> k[i] < |conf|
  {
    if conf == [] then []
    else
      var n := |conf| - 1;
      Kept(conf[..n]) + (if conf[n] > THRESHOLD then [n] else [])
  }

  /** The kept positions are strictly increasing, and a position is kept
      exactly when its confidence is above the threshold. */
  lemma {:induction false} KeptSpec(conf: seq<real>)
    ensures forall i, j :: 0 <= i < j < |Kept(conf)| ==> Kept(conf)[i] < Kept(conf)[j]
    ensures forall i: nat :: i in Kept(conf) <==> i < |conf| && conf[i] > THRESHOLD
  {
    if conf != [] {
      var n := |conf| - 1;
      KeptSpec(conf[..n]);
      var prefix := Kept(conf[..n]);
      assert forall i :: 0 <= i < |prefix| ==> prefix[i] in prefix;
    }
  }

  /** The foreground pixels of the batch: the enumeration filtered by
      confidence, i.e. the index vectors indexed with the `valid` mask. */
  function Foreground(dp: Tensor): (fg: seq<Pixel>)
    requires WellFormed(dp) && dp.dims.channels >= 1
    ensures forall k :: 0 <= k < |fg| ==> InImage(fg[k], dp.dims.batch, dp.dims.height, dp.dims.width)
  {
    var d := dp.dims;
    var ps := Enumerate(d.batch, d.height, d.width);
    var keep := Kept(Confidences(dp, ps));
    seq(|keep|, k requires 0 <= k < |keep| => ps[keep[k]])
  }

  /** A pixel is foreground exactly when it lies in the image and its
      confidence is strictly above 0.5; a confidence of exactly 0.5 is
      background. */
  lemma ForegroundMember(dp: Tensor, p: Pixel)
    requires WellFormed(dp) && dp.dims.channels >= 1
    ensures p in Foreground(dp) <==>
      InImage(p, dp.dims.batch, dp.dims.height, dp.dims.width) && Confidence(dp, p) > THRESHOLD
  {
    var d := dp.dims;
    var ps := Enumerate(d.batch, d.height, d.width);
    var fg := Foreground(dp);
    KeptSpec(Confidences(dp, ps));
    if InImage(p, d.batch, d.height, d.width) && Confidence(dp, p) > THRESHOLD {
      EnumerateIndex(d.batch, d.height, d.width, p);
      var i := Flat(p, d.height, d.width);
      var keep := Kept(Confidences(dp, ps));
      assert i in keep;
      var k :| 0 <= k < |keep| && keep[k] == i;
      assert fg[k] == p;
    }
    if p in fg {
      var k :| 0 <= k < |fg| && fg[k] == p;
      var keep := Kept(Confidences(dp, ps));
      assert keep[k] in keep;
    }
  }

  /** Filtering keeps the enumeration order: foreground pixels come in
      strictly increasing flat position, batch-major, then row, then column. */
  lemma ForegroundOrder(dp: Tensor, i: nat, j: nat)
    requires WellFormed(dp) && dp.dims.channels >= 1
    requires i < j < |Foreground(dp)|
    ensures Flat(Foreground(dp)[i], dp.dims.height, dp.dims.width) <
            Flat(Foreground(dp)[j], dp.dims.height, dp.dims.width)
  {
    var d := dp.dims;
    var ps := Enumerate(d.batch, d.height, d.width);
    var keep := Kept(Confidences(dp, ps));
    KeptSpec(Confidences(dp, ps));
    assert keep[i] in keep && keep[j] in keep;
    EnumerateAt(d.batch, d.height, d.width, keep[i]);
    EnumerateAt(d.batch, d.height, d.width, keep[j]);
  }
}
