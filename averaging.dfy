/** The averaging phase of main.cpp: per-position, per-channel totals over
    all input images (all of the first image's size), then the mean image
    whose channels are the totals divided by the number of images, rounded
    to the nearest integer. */
module Averaging {
  import opened Results
  import opened Netpbm

  datatype AverageError =
    | DimensionMismatch(index: nat) // image `index` differs in height or width from the first

  /** The sum of channel c at (i, j) over the first n images. */
  ghost function ChannelSum(imgs: seq<Image>, n: nat, i: nat, j: nat, c: nat): (total: nat)
    requires n <= |imgs| && c < 3
    requires forall x | 0 <= x < n :: imgs[x].Valid() && i < imgs[x].height && j < imgs[x].width
    reads PixelArrays(imgs)
    ensures total <= 255 * n
  {
    if n == 0 then 0
    else
      assert imgs[n - 1].pixels in PixelArrays(imgs);
      assert imgs[n - 1].Valid() && i < imgs[n - 1].height && j < imgs[n - 1].width;
      ChannelSum(imgs, n - 1, i, j, c) + Channel(imgs[n - 1].pixels[i, j], c)
  }

  /** round(total / n) for a non-negative total: the integer nearest to
      total / n, halves rounded up. */
  function MeanChannel(total: nat, n: nat): (r: nat)
    requires n > 0
    ensures 2 * n * r <= 2 * total + n < 2 * n * (r + 1)
  {
    var r := (2 * total + n) / (2 * n);
    assert 2 * n * r <= 2 * total + n < 2 * n * r + 2 * n;
    r
  }

  /** A mean of n channel values fits in a channel. */
  lemma MeanChannelIsByte(total: nat, n: nat)
    requires n > 0 && total <= 255 * n
    ensures MeanChannel(total, n) <= 255
  {
    assert 2 * total + n < 256 * (2 * n);
  }

  /** The pixel whose channels are the rounded means of three totals over n images. */
  function MeanOf(r: nat, g: nat, b: nat, n: nat): Pixel
    requires n > 0 && r <= 255 * n && g <= 255 * n && b <= 255 * n
  {
    MeanChannelIsByte(r, n);
    MeanChannelIsByte(g, n);
    MeanChannelIsByte(b, n);
    Pixel(MeanChannel(r, n), MeanChannel(g, n), MeanChannel(b, n))
  }

  /** The mean pixel at (i, j): each channel the rounded mean of that channel over all n images. */
  ghost function MeanPixel(imgs: seq<Image>, n: nat, i: nat, j: nat): (p: Pixel)
    requires 0 < n <= |imgs|
    requires forall x | 0 <= x < n :: imgs[x].Valid() && i < imgs[x].height && j < imgs[x].width
    reads PixelArrays(imgs)
    ensures forall c | 0 <= c < 3 :: Channel(p, c) == MeanChannel(ChannelSum(imgs, n, i, j, c), n)
  {
    MeanOf(ChannelSum(imgs, n, i, j, 0), ChannelSum(imgs, n, i, j, 1), ChannelSum(imgs, n, i, j, 2), n)
  }

  /** The loops over the first image: totals start as its channel values. */
  method FirstTotals(first: Image) returns (totals: array3<nat>)
    requires first.Valid()
    ensures fresh(totals)
    ensures totals.Length0 == first.height && totals.Length1 == first.width && totals.Length2 == 3
    ensures forall a, b, c | 0 <= a < first.height && 0 <= b < first.width && 0 <= c < 3 ::
      totals[a, b, c] == Channel(first.pixels[a, b], c)
  {
    totals := new nat[first.height, first.width, 3];
    var i := 0;
    while i < first.height
      invariant 0 <= i <= first.height
      invariant forall a, b, c | 0 <= a < i && 0 <= b < first.width && 0 <= c < 3 ::
        totals[a, b, c] == Channel(first.pixels[a, b], c)
    {
      var j := 0;
      while j < first.width
        invariant 0 <= j <= first.width
        invariant forall a, b, c | 0 <= a < first.height && 0 <= b < first.width && 0 <= c < 3 && (a < i || (a == i && b < j)) ::
          totals[a, b, c] == Channel(first.pixels[a, b], c)
      {
        totals[i, j, 0] := first.pixels[i, j].r;
        totals[i, j, 1] := first.pixels[i, j].g;
        totals[i, j, 2] := first.pixels[i, j].b;
        j := j + 1;
      }
      i := i + 1;
    }
  }

  /** The loops over a later image of the same size: its channel values are added to the totals. */
  method AddImage(totals: array3<nat>, img: Image)
    requires img.Valid() && totals.Length0 == img.height && totals.Length1 == img.width && totals.Length2 == 3
    modifies totals
    ensures forall a, b, c | 0 <= a < img.height && 0 <= b < img.width && 0 <= c < 3 ::
      totals[a, b, c] == old(totals[a, b, c]) + Channel(img.pixels[a, b], c)
  {
    var i := 0;
    while i < img.height
      invariant 0 <= i <= img.height
      invariant forall a, b, c | 0 <= a < img.height && 0 <= b < img.width && 0 <= c < 3 ::
        totals[a, b, c] == old(totals[a, b, c]) + (if a < i then Channel(img.pixels[a, b], c) else 0)
    {
      var j := 0;
      while j < img.width
        invariant 0 <= j <= img.width
        invariant forall a, b, c | 0 <= a < img.height && 0 <= b < img.width && 0 <= c < 3 ::
          totals[a, b, c] == old(totals[a, b, c]) + (if a < i || (a == i && b < j) then Channel(img.pixels[a, b], c) else 0)
      {
        totals[i, j, 0] := totals[i, j, 0] + img.pixels[i, j].r;
        totals[i, j, 1] := totals[i, j, 1] + img.pixels[i, j].g;
        totals[i, j, 2] := totals[i, j, 2] + img.pixels[i, j].b;
        j := j + 1;
      }
      i := i + 1;
    }
  }

  /** The loops that create the mean image from the totals over n images. */
  method MeanImage(totals: array3<nat>, n: nat) returns (mean: Image)
    requires n > 0 && totals.Length2 == 3
    requires forall a, b, c | 0 <= a < totals.Length0 && 0 <= b < totals.Length1 && 0 <= c < 3 :: totals[a, b, c] <= 255 * n
    ensures fresh(mean) && fresh(mean.pixels) && mean.Valid()
    ensures mean.height == totals.Length0 && mean.width == totals.Length1
    ensures forall a, b | 0 <= a < mean.height && 0 <= b < mean.width ::
      mean.pixels[a, b] == MeanOf(totals[a, b, 0], totals[a, b, 1], totals[a, b, 2], n)
  {
    mean := new Image(totals.Length0, totals.Length1);
    var i := 0;
    while i < mean.height
      invariant 0 <= i <= mean.height
      invariant forall a, b | 0 <= a < i && 0 <= b < mean.width ::
        mean.pixels[a, b] == MeanOf(totals[a, b, 0], totals[a, b, 1], totals[a, b, 2], n)
    {
      var j := 0;
      while j < mean.width
        invariant 0 <= j <= mean.width
        invariant forall a, b | 0 <= a < mean.height && 0 <= b < mean.width && (a < i || (a == i && b < j)) ::
          mean.pixels[a, b] == MeanOf(totals[a, b, 0], totals[a, b, 1], totals[a, b, 2], n)
      {
        mean.pixels[i, j] := MeanOf(totals[i, j, 0], totals[i, j, 1], totals[i, j, 2], n);
        j := j + 1;
      }
      i := i + 1;
    }
  }

  /** The averaging phase: the first image fixes the size; the first later
      image of another size aborts the phase; otherwise the result is a new
      image holding the rounded mean of every channel at every position. */
  method Average(imgs: seq<Image>) returns (res: Result<Image, AverageError>)
    requires |imgs| >= 1 && forall x | 0 <= x < |imgs| :: imgs[x].Valid()
    ensures res.Failure? <==>
      exists x | 1 <= x < |imgs| :: imgs[x].height != imgs[0].height || imgs[x].width != imgs[0].width
    ensures res.Failure? ==>
      && 1 <= res.error.index < |imgs|
      && (imgs[res.error.index].height != imgs[0].height || imgs[res.error.index].width != imgs[0].width)
      && SameShape(imgs, res.error.index, imgs[0].height, imgs[0].width)
    ensures res.Success? ==>
      && fresh(res.value) && fresh(res.value.pixels) && res.value.Valid()
      && res.value.height == imgs[0].height && res.value.width == imgs[0].width
      && SameShape(imgs, |imgs|, imgs[0].height, imgs[0].width)
      && forall i, j | 0 <= i < res.value.height && 0 <= j < res.value.width ::
           res.value.pixels[i, j] == old(MeanPixel(imgs, |imgs|, i, j))
  {
    var height, width := imgs[0].height, imgs[0].width;
    var totals := FirstTotals(imgs[0]);
    var x := 1;
    while x < |imgs|
      invariant 1 <= x <= |imgs|
      invariant SameShape(imgs, x, height, width)
      invariant forall a, b, c | 0 <= a < height && 0 <= b < width && 0 <= c < 3 ::
        totals[a, b, c] == old(ChannelSum(imgs, x, a, b, c))
    {
      var img := imgs[x];
      if img.height != height || img.width != width {
        return Failure(DimensionMismatch(x));
      }
      AddImage(totals, img);
      x := x + 1;
    }
    var mean := MeanImage(totals, |imgs|);
    return Success(mean);
  }
}
