/** The output phase of main.cpp: for every record, every ranking depth d
    and every power, one image whose pixel at (i, j) blends the colours of
    the top d slots of that position's tracker, or copies the mean pixel
    when their powered scores add up to nothing and warnings are shown. */
module Output {
  import opened Results
  import opened Netpbm
  import opened TopK
  import opened Ranking

  /** One output image's settings: the ranking depth and the power of the scores. */
  datatype OutputSpec = OutputSpec(depth: int, power: real)

  datatype OutputError = PowerIndexOutOfRange // score_powers[0] read on an empty power list

  // ---------------------------------------------------------------------
  // Which outputs are made: the loops over ranking_index and sp_index.

  /** The outputs of one ranking depth: a depth of 1 gives a single output
      with power 1.0, any other depth one output per power, in list order. */
  function RankOutputs(depth: int, powers: seq<real>): seq<OutputSpec> {
    if depth == 1 then [OutputSpec(1, 1.0)]
    else seq(|powers|, p requires 0 <= p < |powers| => OutputSpec(depth, powers[p]))
  }

  /** The outputs of one as the loop is written: with depth 1 the loop still
      reads powers[0] before replacing it by 1.0, which does not exist when the
      power list is empty. */
  function RankOutputsAsWritten(depth: int, powers: seq<real>): Result<seq<OutputSpec>, OutputError> {
    if depth == 1 && |powers| == 0 then Failure(PowerIndexOutOfRange)
    else Success(RankOutputs(depth, powers))
  }

  /** An empty power list with a ranking depth of 1: the loop as written reads
      past the end of the list where a single output with power 1.0 is meant. */
  lemma EmptyPowersDepthOne()
    ensures RankOutputsAsWritten(1, []).Failure?
    ensures RankOutputs(1, []) == [OutputSpec(1, 1.0)]
  {
  }

  /** Wherever the list read would be in range, the loop as written yields the intended outputs. */
  lemma AsWrittenAgreesWhenPowersGiven(depth: int, powers: seq<real>)
    requires |powers| > 0 || depth != 1
    ensures RankOutputsAsWritten(depth, powers) == Success(RankOutputs(depth, powers))
  {
  }

  /** The outputs of a record: its ranking depths in order, each with its outputs. */
  function Configurations(rankings: seq<int>, powers: seq<real>): seq<OutputSpec> {
    if |rankings| == 0 then []
    else Configurations(rankings[..|rankings| - 1], powers) + RankOutputs(rankings[|rankings| - 1], powers)
  }

  /** An output is made exactly for a listed depth, with power 1.0 for depth 1
      and with a listed power for any other depth. */
  lemma {:induction false} ConfigurationsMembership(rankings: seq<int>, powers: seq<real>, o: OutputSpec)
    ensures o in Configurations(rankings, powers) <==>
      o.depth in rankings && (if o.depth == 1 then o.power == 1.0 else o.power in powers)
    decreases |rankings|
  {
    if |rankings| > 0 {
      var front := rankings[..|rankings| - 1];
      var d := rankings[|rankings| - 1];
      ConfigurationsMembership(front, powers, o);
      assert rankings == front + [d];
      var outs := RankOutputs(d, powers);
      assert o in outs <==> o.depth == d && (if d == 1 then o.power == 1.0 else o.power in powers) by {
        if d != 1 && o.depth == d && o.power in powers {
          var p :| 0 <= p < |powers| && powers[p] == o.power;
          assert outs[p] == o;
        }
      }
    }
  }

  /** A depth of 1 yields one output whatever the power list. */
  lemma {:induction false} DepthOneOutputCount(rankings: seq<int>, powers: seq<real>)
    requires forall n | 0 <= n < |rankings| :: rankings[n] == 1
    ensures Configurations(rankings, powers) == seq(|rankings|, _ => OutputSpec(1, 1.0))
    decreases |rankings|
  {
    if |rankings| > 0 {
      var front := rankings[..|rankings| - 1];
      assert forall n | 0 <= n < |front| :: front[n] == rankings[n];
      DepthOneOutputCount(front, powers);
    }
  }

  /** Each output's depth is one of the record's rankings. */
  lemma ConfigurationsDepthListed(rankings: seq<int>, powers: seq<real>)
    ensures forall a | 0 <= a < |Configurations(rankings, powers)| :: Configurations(rankings, powers)[a].depth in rankings
  {
    var c := Configurations(rankings, powers);
    forall a | 0 <= a < |c| ensures c[a].depth in rankings {
      ConfigurationsMembership(rankings, powers, c[a]);
    }
  }

  /** Sorted rankings are processed from the deepest to the shallowest. */
  lemma {:induction false} ConfigurationsDescending(rankings: seq<int>, powers: seq<real>)
    requires SortedDescending(rankings)
    ensures forall a, b | 0 <= a < b < |Configurations(rankings, powers)| ::
      Configurations(rankings, powers)[a].depth >= Configurations(rankings, powers)[b].depth
    decreases |rankings|
  {
    if |rankings| > 0 {
      var front := rankings[..|rankings| - 1];
      var d := rankings[|rankings| - 1];
      assert SortedDescending(front) by {
        assert forall a | 0 <= a < |front| :: front[a] == rankings[a];
      }
      ConfigurationsDescending(front, powers);
      ConfigurationsDepthListed(front, powers);
      var c0 := Configurations(front, powers);
      var outs := RankOutputs(d, powers);
      var c := Configurations(rankings, powers);
      assert c == c0 + outs;
      forall a, b | 0 <= a < b < |c| ensures c[a].depth >= c[b].depth {
        if b >= |c0| {
          assert c[b] == outs[b - |c0|];
          if a < |c0| {
            assert c[a] == c0[a] && c0[a] in c0;
            assert c0[a].depth in front;
            var n :| 0 <= n < |front| && front[n] == c0[a].depth;
            assert rankings[n] >= rankings[|rankings| - 1];
          } else {
            assert c[a] == outs[a - |c0|];
          }
        } else {
          assert c[a] == c0[a] && c[b] == c0[b];
        }
      }
    }
  }

  // ---------------------------------------------------------------------
  // One output pixel.

  /** The top d slots of a tracker: none for a depth below 1. */
  function Top(row: seq<Entry>, d: int): (t: seq<Entry>)
    requires d <= |row|
    ensures |t| == if d <= 0 then 0 else d
    ensures forall k | 0 <= k < |t| :: t[k] == row[k]
  {
    if d <= 0 then [] else row[..d]
  }

  /** The sum of pow(score, power) over the entries; `pow` stands for the C library pow. */
  function TotalScore(top: seq<Entry>, power: real, pow: (real, real) -> real): real {
    if |top| == 0 then 0.0 else TotalScore(top[..|top| - 1], power, pow) + pow(top[|top| - 1].score, power)
  }

  /** The output pixel for the top entries: the mean pixel when their powered
      scores add up to 0 or less and warnings are shown, otherwise the blend of
      their colours. `blend` stands for the floating-point weighting of the
      colours by pow(score, power) / total (1 minus that with inverted scores),
      rounded to bytes. */
  function OutputPixel(top: seq<Entry>, power: real, meanPixel: Pixel, hideWarnings: bool, invertScores: bool,
                       pow: (real, real) -> real, blend: (seq<Entry>, real, real, bool) -> Pixel): Pixel
  {
    var total := TotalScore(top, power, pow);
    if total <= 0.0 && !hideWarnings then meanPixel else blend(top, power, total, invertScores)
  }

  /** With warnings shown, a position whose top scores add up to 0 or less
      copies the mean pixel, and any other position is blended. */
  lemma ZeroTotalCopiesMean(top: seq<Entry>, power: real, meanPixel: Pixel, invertScores: bool,
                            pow: (real, real) -> real, blend: (seq<Entry>, real, real, bool) -> Pixel)
    ensures TotalScore(top, power, pow) <= 0.0 ==> OutputPixel(top, power, meanPixel, false, invertScores, pow, blend) == meanPixel
    ensures TotalScore(top, power, pow) > 0.0 ==>
      OutputPixel(top, power, meanPixel, false, invertScores, pow, blend) == blend(top, power, TotalScore(top, power, pow), invertScores)
  {
  }

  /** With warnings hidden the mean pixel is never copied: every position is
      blended, a total of 0 included. */
  lemma HiddenWarningsAlwaysBlend(top: seq<Entry>, power: real, meanPixel: Pixel, invertScores: bool,
                                  pow: (real, real) -> real, blend: (seq<Entry>, real, real, bool) -> Pixel)
    ensures OutputPixel(top, power, meanPixel, true, invertScores, pow, blend) == blend(top, power, TotalScore(top, power, pow), invertScores)
  {
  }

  /** Powered zero scores add up to zero. */
  lemma {:induction false} TotalScoreOfZeros(top: seq<Entry>, power: real, pow: (real, real) -> real)
    requires pow(0.0, power) == 0.0
    requires forall k | 0 <= k < |top| :: top[k].score == 0.0
    ensures TotalScore(top, power, pow) == 0.0
    decreases |top|
  {
    if |top| > 0 {
      var front := top[..|top| - 1];
      assert forall k | 0 <= k < |front| :: front[k] == top[k];
      TotalScoreOfZeros(front, power, pow);
    }
  }

  /** A position at which no image ever scored above 0 shows the mean pixel
      (warnings shown, and pow(0, power) = 0 as for every positive power). */
  lemma UnscoredPositionShowsMean(k: nat, es: seq<Entry>, d: int, power: real, meanPixel: Pixel, invertScores: bool,
                                  pow: (real, real) -> real, blend: (seq<Entry>, real, real, bool) -> Pixel)
    requires d <= k && pow(0.0, power) == 0.0
    requires forall n | 0 <= n < |es| :: es[n].score <= 0.0
    ensures OutputPixel(Top(ObserveAll(Initial(k), es), d), power, meanPixel, false, invertScores, pow, blend) == meanPixel
  {
    NoPositiveScoreKeepsInitial(k, es);
    TotalScoreOfZeros(Top(Initial(k), d), power, pow);
  }

  // ---------------------------------------------------------------------
  // Making the images.

  /** The loop over k: the sum of pow(score, power) over the top `depth` slots at (i, j). */
  method TopTotal(dr: DifferenceRecord, i: nat, j: nat, depth: int, power: real, pow: (real, real) -> real)
    returns (total: real)
    requires dr.Valid() && i < dr.height && j < dr.width && depth <= dr.numPixelsToRank
    ensures total == TotalScore(Top(dr.Row(i, j), depth), power, pow)
  {
    ghost var top := Top(dr.Row(i, j), depth);
    total := 0.0;
    var k := 0;
    while k < depth
      invariant 0 <= k <= |top|
      invariant total == TotalScore(top[..k], power, pow)
    {
      dr.RowAt(i, j, k);
      assert top[..k + 1][..k] == top[..k];
      total := total + pow(dr.biggestDifferences[i, j, k], power);
      k := k + 1;
    }
    assert top[..k] == top;
  }

  /** The pixel that the output for spec shows at (i, j). */
  function Expected(dr: DifferenceRecord, spec: OutputSpec, mean: Image, hideWarnings: bool,
                    pow: (real, real) -> real, blend: (seq<Entry>, real, real, bool) -> Pixel, i: nat, j: nat): Pixel
    requires dr.Valid() && mean.Valid() && mean.height == dr.height && mean.width == dr.width
    requires spec.depth <= dr.numPixelsToRank && i < dr.height && j < dr.width
    reads dr.biggestDifferences, dr.mostDifferentPixels, mean.pixels
  {
    OutputPixel(Top(dr.Row(i, j), spec.depth), spec.power, mean.pixels[i, j], hideWarnings, dr.invertScores, pow, blend)
  }

  /** The body of the loop over j: the total of the top scores, then the
      mean pixel or the blend. */
  method PixelOf(dr: DifferenceRecord, spec: OutputSpec, mean: Image, hideWarnings: bool,
                 pow: (real, real) -> real, blend: (seq<Entry>, real, real, bool) -> Pixel, i: nat, j: nat)
    returns (p: Pixel)
    requires dr.Valid() && mean.Valid() && mean.height == dr.height && mean.width == dr.width
    requires spec.depth <= dr.numPixelsToRank && i < dr.height && j < dr.width
    ensures p == Expected(dr, spec, mean, hideWarnings, pow, blend, i, j)
  {
    var top := Top(dr.Row(i, j), spec.depth);
    var total := TopTotal(dr, i, j, spec.depth, spec.power, pow);
    if total <= 0.0 && !hideWarnings {
      p := mean.pixels[i, j];
    } else {
      p := blend(top, spec.power, total, dr.invertScores);
    }
  }

  /** img is the output of spec for record dr over the mean image: of the
      record's size, every pixel the output pixel of the top `spec.depth`
      slots at that position. */
  predicate Shows(img: Image, dr: DifferenceRecord, spec: OutputSpec, mean: Image, hideWarnings: bool,
                  pow: (real, real) -> real, blend: (seq<Entry>, real, real, bool) -> Pixel)
    requires dr.Valid() && mean.Valid() && mean.height == dr.height && mean.width == dr.width
    reads img.pixels, dr.biggestDifferences, dr.mostDifferentPixels, mean.pixels
  {
    && img.Valid() && img.height == dr.height && img.width == dr.width
    && spec.depth <= dr.numPixelsToRank
    && forall i, j | 0 <= i < img.height && 0 <= j < img.width ::
         img.pixels[i, j] == Expected(dr, spec, mean, hideWarnings, pow, blend, i, j)
  }

  /** The loop over j (with the loop over k inside) for row i of one output. */
  method SynthesizeRow(img: Image, dr: DifferenceRecord, spec: OutputSpec, mean: Image, hideWarnings: bool,
                       pow: (real, real) -> real, blend: (seq<Entry>, real, real, bool) -> Pixel, i: nat)
    requires dr.Valid() && mean.Valid() && mean.height == dr.height && mean.width == dr.width
    requires spec.depth <= dr.numPixelsToRank && i < dr.height
    requires img.Valid() && img.height == dr.height && img.width == dr.width && img.pixels != mean.pixels
    modifies img.pixels
    ensures forall b | 0 <= b < dr.width :: img.pixels[i, b] == Expected(dr, spec, mean, hideWarnings, pow, blend, i, b)
    ensures forall a, b | 0 <= a < dr.height && 0 <= b < dr.width && a != i :: img.pixels[a, b] == old(img.pixels[a, b])
  {
    var j := 0;
    while j < dr.width
      invariant 0 <= j <= dr.width
      invariant forall b | 0 <= b < j :: img.pixels[i, b] == old(Expected(dr, spec, mean, hideWarnings, pow, blend, i, b))
      invariant forall a, b | 0 <= a < dr.height && 0 <= b < dr.width && a != i :: img.pixels[a, b] == old(img.pixels[a, b])
    {
      var p := PixelOf(dr, spec, mean, hideWarnings, pow, blend, i, j);
      assert p == old(Expected(dr, spec, mean, hideWarnings, pow, blend, i, j));
      img.pixels[i, j] := p;
      j := j + 1;
    }
    forall b | 0 <= b < dr.width
      ensures img.pixels[i, b] == Expected(dr, spec, mean, hideWarnings, pow, blend, i, b)
    {
      assert img.pixels[i, b] == old(Expected(dr, spec, mean, hideWarnings, pow, blend, i, b));
    }
  }

  /** The loops over i, j and k for one output: a new image whose every
      pixel is the output pixel of the top `depth` slots at that position. */
  method Synthesize(dr: DifferenceRecord, spec: OutputSpec, mean: Image, hideWarnings: bool,
                    pow: (real, real) -> real, blend: (seq<Entry>, real, real, bool) -> Pixel)
    returns (img: Image)
    requires dr.Valid() && mean.Valid() && mean.height == dr.height && mean.width == dr.width
    requires spec.depth <= dr.numPixelsToRank
    ensures fresh(img) && fresh(img.pixels)
    ensures Shows(img, dr, spec, mean, hideWarnings, pow, blend)
  {
    img := new Image(dr.height, dr.width);
    var i := 0;
    while i < dr.height
      invariant 0 <= i <= dr.height && fresh(img.pixels)
      invariant forall a, b | 0 <= a < i && 0 <= b < dr.width ::
        img.pixels[a, b] == Expected(dr, spec, mean, hideWarnings, pow, blend, a, b)
    {
      SynthesizeRow(img, dr, spec, mean, hideWarnings, pow, blend, i);
      i := i + 1;
    }
  }

  /** The loop over sp_index for one ranking depth: one new image per output
      that RankOutputs lists, in order. */
  method DepthOutputs(dr: DifferenceRecord, depth: int, mean: Image, hideWarnings: bool,
                      pow: (real, real) -> real, blend: (seq<Entry>, real, real, bool) -> Pixel)
    returns (specs: seq<OutputSpec>, imgs: seq<Image>)
    requires dr.Valid() && mean.Valid() && mean.height == dr.height && mean.width == dr.width
    requires depth <= dr.numPixelsToRank
    ensures specs == RankOutputs(depth, dr.scorePowers) && |imgs| == |specs|
    ensures forall n | 0 <= n < |imgs| :: fresh(imgs[n]) && Shows(imgs[n], dr, specs[n], mean, hideWarnings, pow, blend)
  {
    var powers := |dr.scorePowers|;
    if depth == 1 {
      powers := 1;
    }
    ghost var outs := RankOutputs(depth, dr.scorePowers);
    specs, imgs := [], [];
    var p := 0;
    while p < powers
      invariant 0 <= p <= powers && |outs| == powers
      invariant specs == outs[..p] && |imgs| == |specs|
      invariant forall n | 0 <= n < |imgs| :: fresh(imgs[n]) && Shows(imgs[n], dr, specs[n], mean, hideWarnings, pow, blend)
    {
      var power := if depth == 1 then 1.0 else dr.scorePowers[p];
      var spec := OutputSpec(depth, power);
      assert spec == outs[p];
      var img := Synthesize(dr, spec, mean, hideWarnings, pow, blend);
      assert outs[..p + 1] == outs[..p] + [spec];
      specs, imgs := specs + [spec], imgs + [img];
      p := p + 1;
    }
    assert outs[..p] == outs;
  }

  /** The outputs of one record, in the order the loops over ranking_index
      and sp_index make them: the specs listed by Configurations, each with a
      new image showing it. */
  method RecordOutputs(dr: DifferenceRecord, mean: Image, hideWarnings: bool,
                       pow: (real, real) -> real, blend: (seq<Entry>, real, real, bool) -> Pixel)
    returns (specs: seq<OutputSpec>, imgs: seq<Image>)
    requires dr.Valid() && mean.Valid() && mean.height == dr.height && mean.width == dr.width
    requires forall d | d in dr.rankingsToSave :: d <= dr.numPixelsToRank
    ensures specs == Configurations(dr.rankingsToSave, dr.scorePowers) && |imgs| == |specs|
    ensures forall n | 0 <= n < |imgs| :: fresh(imgs[n]) && Shows(imgs[n], dr, specs[n], mean, hideWarnings, pow, blend)
  {
    specs, imgs := [], [];
    var r := 0;
    while r < |dr.rankingsToSave|
      invariant 0 <= r <= |dr.rankingsToSave|
      invariant specs == Configurations(dr.rankingsToSave[..r], dr.scorePowers) && |imgs| == |specs|
      invariant forall n | 0 <= n < |imgs| :: fresh(imgs[n]) && Shows(imgs[n], dr, specs[n], mean, hideWarnings, pow, blend)
    {
      var depth := dr.rankingsToSave[r];
      assert depth in dr.rankingsToSave;
      var s, i := DepthOutputs(dr, depth, mean, hideWarnings, pow, blend);
      assert dr.rankingsToSave[..r + 1][..r] == dr.rankingsToSave[..r];
      specs, imgs := specs + s, imgs + i;
      r := r + 1;
    }
    assert dr.rankingsToSave[..r] == dr.rankingsToSave;
  }

  /** The output phase: the loop over drs_index, each record's outputs in turn. */
  method AllOutputs(drs: seq<DifferenceRecord>, mean: Image, hideWarnings: bool,
                    pow: (real, real) -> real, blend: (seq<Entry>, real, real, bool) -> Pixel)
    returns (specs: seq<seq<OutputSpec>>, imgs: seq<seq<Image>>)
    requires mean.Valid()
    requires forall d | 0 <= d < |drs| ::
      && drs[d].Valid() && drs[d].height == mean.height && drs[d].width == mean.width
      && forall r | r in drs[d].rankingsToSave :: r <= drs[d].numPixelsToRank
    ensures |specs| == |drs| && |imgs| == |drs|
    ensures forall d | 0 <= d < |drs| ::
      && specs[d] == Configurations(drs[d].rankingsToSave, drs[d].scorePowers) && |imgs[d]| == |specs[d]|
      && forall n | 0 <= n < |imgs[d]| ::
           fresh(imgs[d][n]) && Shows(imgs[d][n], drs[d], specs[d][n], mean, hideWarnings, pow, blend)
  {
    specs, imgs := [], [];
    var d := 0;
    while d < |drs|
      invariant 0 <= d <= |drs| && |specs| == d && |imgs| == d
      invariant forall e | 0 <= e < d ::
        && specs[e] == Configurations(drs[e].rankingsToSave, drs[e].scorePowers) && |imgs[e]| == |specs[e]|
        && forall n | 0 <= n < |imgs[e]| ::
             fresh(imgs[e][n]) && Shows(imgs[e][n], drs[e], specs[e][n], mean, hideWarnings, pow, blend)
    {
      var s, i := RecordOutputs(drs[d], mean, hideWarnings, pow, blend);
      specs, imgs := specs + [s], imgs + [i];
      d := d + 1;
    }
  }
}
