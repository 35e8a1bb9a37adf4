/** The difference records of main.cpp and the differentiating phase: one
    record per selected difference function, each keeping at every pixel
    position a rank tracker of K slots (scores in `biggestDifferences`,
    colours in `mostDifferentPixels`), and the pass that feeds every image's
    pixels into every record's trackers. */
module Ranking {
  import opened Results
  import opened Netpbm
  import opened TopK

  datatype SettingsError =
    | NoRankings      // rankingsToSave[0] on an empty vector
    | NonPositiveRank // K = 0: slot K - 1 wraps around; K < 0: the tracker vectors cannot be allocated

  // ---------------------------------------------------------------------
  // Number of ranks to keep: the rankings are sorted from largest to
  // smallest (std::sort with std::greater<int>) and the first one is K.

  predicate SortedDescending(v: seq<int>) {
    forall a, b | 0 <= a < b < |v| :: v[a] >= v[b]
  }

  /** A head no smaller than the first entry keeps a descending list descending. */
  lemma ConsDescending(y: int, t: seq<int>)
    requires SortedDescending(t) && (|t| > 0 ==> y >= t[0])
    ensures SortedDescending([y] + t)
  {
    forall a, b | 0 <= a < b < |[y] + t| ensures ([y] + t)[a] >= ([y] + t)[b] {
      if a == 0 {
        assert t[0] >= t[b - 1];
      }
    }
  }

  /** x placed into the descending list v before the first entry smaller than it. */
  function InsertDescending(x: int, v: seq<int>): (r: seq<int>)
    requires SortedDescending(v)
    ensures SortedDescending(r)
    ensures multiset(r) == multiset(v) + multiset{x}
    ensures |r| > 0 && (r[0] == x || (|v| > 0 && r[0] == v[0]))
  {
    if |v| == 0 || x >= v[0] then
      ConsDescending(x, v);
      [x] + v
    else
      var rest := InsertDescending(x, v[1..]);
      assert v == [v[0]] + v[1..];
      ConsDescending(v[0], rest);
      [v[0]] + rest
  }

  /** The rankings ordered from largest to smallest: a descending permutation of v. */
  function SortDescending(v: seq<int>): (r: seq<int>)
    ensures SortedDescending(r)
    ensures multiset(r) == multiset(v)
  {
    if |v| == 0 then []
    else
      assert v == [v[0]] + v[1..];
      InsertDescending(v[0], SortDescending(v[1..]))
  }

  /** NUM_PIXELS_TO_RANK: the first of the sorted rankings. An empty list,
      or a largest ranking below 1, leaves no slot K - 1 to compare against. */
  function NumPixelsToRank(sorted: seq<int>): (r: Result<nat, SettingsError>)
    requires SortedDescending(sorted)
    ensures |sorted| == 0 <==> r == Failure(NoRankings)
    ensures r == Failure(NonPositiveRank) <==> |sorted| > 0 && forall d | d in sorted :: d < 1
    ensures r.Success? ==> r.value >= 1 && r.value in sorted && forall d | d in sorted :: d <= r.value
  {
    if |sorted| == 0 then Failure(NoRankings)
    else if sorted[0] < 1 then
      assert forall n | 0 <= n < |sorted| :: sorted[n] <= sorted[0];
      Failure(NonPositiveRank)
    else
      assert sorted[0] in sorted;
      assert forall n | 0 <= n < |sorted| :: sorted[n] <= sorted[0];
      Success(sorted[0])
  }

  // ---------------------------------------------------------------------

  /** A DifferenceRecord: a difference function with its ranking settings and,
      for each of the height x width positions, K ranked scores and colours
      stored at [i, j, rank]. */
  class DifferenceRecord {
    const name: string
    /** The difference function; its floating-point body is not modelled. */
    const metric: (Pixel, Pixel) -> real
    const numPixelsToRank: nat
    const invertScores: bool
    const scorePowers: seq<real>
    const rankingsToSave: seq<int>
    const height: nat
    const width: nat
    const biggestDifferences: array3<real>
    const mostDifferentPixels: array3<Pixel>

    predicate Valid() {
      && numPixelsToRank >= 1
      && biggestDifferences.Length0 == height && biggestDifferences.Length1 == width
      && biggestDifferences.Length2 == numPixelsToRank
      && mostDifferentPixels.Length0 == height && mostDifferentPixels.Length1 == width
      && mostDifferentPixels.Length2 == numPixelsToRank
    }

    /** The tracker at position (i, j): its K (score, colour) slots, ranks 0 to K - 1. */
    function Row(i: nat, j: nat): (r: seq<Entry>)
      requires Valid() && i < height && j < width
      reads biggestDifferences, mostDifferentPixels
      ensures |r| == numPixelsToRank
    {
      seq(numPixelsToRank, k requires 0 <= k < numPixelsToRank reads biggestDifferences, mostDifferentPixels =>
        Entry(biggestDifferences[i, j, k], mostDifferentPixels[i, j, k]))
    }

    /** The record of one difference function with its settings filled in:
        every tracker holds K scores 0 and K white colours. */
    constructor (name: string, metric: (Pixel, Pixel) -> real, numPixelsToRank: nat, invertScores: bool,
                 scorePowers: seq<real>, rankingsToSave: seq<int>, height: nat, width: nat)
      requires numPixelsToRank >= 1
      ensures Valid() && fresh(biggestDifferences) && fresh(mostDifferentPixels)
      ensures this.name == name && this.metric == metric && this.numPixelsToRank == numPixelsToRank
      ensures this.invertScores == invertScores && this.scorePowers == scorePowers
      ensures this.rankingsToSave == rankingsToSave && this.height == height && this.width == width
      ensures forall i, j | 0 <= i < height && 0 <= j < width :: Row(i, j) == Initial(numPixelsToRank)
    {
      this.name := name;
      this.metric := metric;
      this.numPixelsToRank := numPixelsToRank;
      this.invertScores := invertScores;
      this.scorePowers := scorePowers;
      this.rankingsToSave := rankingsToSave;
      this.height := height;
      this.width := width;
      mostDifferentPixels := new Pixel[height, width, numPixelsToRank]((i, j, k) => White);
      biggestDifferences := new real[height, width, numPixelsToRank]((i, j, k) => 0.0);
    }

    /** The `while (rank >= 0 && diff > ...) --rank; ++rank` scan from the
        last slot upwards: the rank of an accepted difference, which lies
        inside the tracker, so the source's out-of-range report never fires. */
    method FindRank(i: nat, j: nat, diff: real) returns (rank: nat)
      requires Valid() && i < height && j < width && Accepts(Row(i, j), diff)
      ensures rank == SuffixStart(Row(i, j), diff) && rank < numPixelsToRank
    {
      ghost var s := Row(i, j);
      var r: int := numPixelsToRank - 1;
      while r >= 0 && diff > biggestDifferences[i, j, r]
        invariant -1 <= r < numPixelsToRank
        invariant forall k | r < k < numPixelsToRank :: s[k].score < diff
      {
        r := r - 1;
      }
      SuffixStartUnique(s, diff, r + 1);
      rank := r + 1;
    }

    /** The `backwards_iterator` loop: slots rank .. K - 2 move one place down,
        the last slot's old content is dropped, slots before rank stay. */
    method ShiftDown(i: nat, j: nat, rank: nat)
      requires Valid() && i < height && j < width && rank < numPixelsToRank
      modifies biggestDifferences, mostDifferentPixels
      ensures forall k | 0 <= k <= rank ::
        biggestDifferences[i, j, k] == old(biggestDifferences[i, j, k]) &&
        mostDifferentPixels[i, j, k] == old(mostDifferentPixels[i, j, k])
      ensures forall k | rank < k < numPixelsToRank ::
        biggestDifferences[i, j, k] == old(biggestDifferences[i, j, k - 1]) &&
        mostDifferentPixels[i, j, k] == old(mostDifferentPixels[i, j, k - 1])
      ensures forall a, b, k | 0 <= a < height && 0 <= b < width && 0 <= k < numPixelsToRank && (a != i || b != j) ::
        biggestDifferences[a, b, k] == old(biggestDifferences[a, b, k]) &&
        mostDifferentPixels[a, b, k] == old(mostDifferentPixels[a, b, k])
    {
      var back := numPixelsToRank - 1;
      while back > rank
        invariant rank <= back <= numPixelsToRank - 1
        invariant forall k | 0 <= k <= back ::
          biggestDifferences[i, j, k] == old(biggestDifferences[i, j, k]) &&
          mostDifferentPixels[i, j, k] == old(mostDifferentPixels[i, j, k])
        invariant forall k | back < k < numPixelsToRank ::
          biggestDifferences[i, j, k] == old(biggestDifferences[i, j, k - 1]) &&
          mostDifferentPixels[i, j, k] == old(mostDifferentPixels[i, j, k - 1])
        invariant forall a, b, k | 0 <= a < height && 0 <= b < width && 0 <= k < numPixelsToRank && (a != i || b != j) ::
        biggestDifferences[a, b, k] == old(biggestDifferences[a, b, k]) &&
        mostDifferentPixels[a, b, k] == old(mostDifferentPixels[a, b, k])
      {
        biggestDifferences[i, j, back] := biggestDifferences[i, j, back - 1];
        mostDifferentPixels[i, j, back] := mostDifferentPixels[i, j, back - 1];
        back := back - 1;
      }
    }

    /** Slot k of the tracker at (i, j) holds score and colour [i, j, k]. */
    lemma RowAt(i: nat, j: nat, k: nat)
      requires Valid() && i < height && j < width && k < numPixelsToRank
      ensures |Row(i, j)| == numPixelsToRank
      ensures Row(i, j)[k] == Entry(biggestDifferences[i, j, k], mostDifferentPixels[i, j, k])
    {
    }

    /** The shift followed by the two writes at rank. */
    method InsertAtRank(i: nat, j: nat, rank: nat, diff: real, color: Pixel)
      requires Valid() && i < height && j < width && rank < numPixelsToRank
      modifies biggestDifferences, mostDifferentPixels
      ensures forall k | 0 <= k < rank ::
        biggestDifferences[i, j, k] == old(biggestDifferences[i, j, k]) &&
        mostDifferentPixels[i, j, k] == old(mostDifferentPixels[i, j, k])
      ensures biggestDifferences[i, j, rank] == diff && mostDifferentPixels[i, j, rank] == color
      ensures forall k | rank < k < numPixelsToRank ::
        biggestDifferences[i, j, k] == old(biggestDifferences[i, j, k - 1]) &&
        mostDifferentPixels[i, j, k] == old(mostDifferentPixels[i, j, k - 1])
      ensures forall a, b, k | 0 <= a < height && 0 <= b < width && 0 <= k < numPixelsToRank && (a != i || b != j) ::
        biggestDifferences[a, b, k] == old(biggestDifferences[a, b, k]) &&
        mostDifferentPixels[a, b, k] == old(mostDifferentPixels[a, b, k])
    {
      ShiftDown(i, j, rank);
      biggestDifferences[i, j, rank] := diff;
      mostDifferentPixels[i, j, rank] := color;
    }

    /** One observation at (i, j): a difference `diff` that beats the score in
        the last slot is ranked, the slots from its rank on move one place
        down and the last one is dropped; any other difference changes nothing.
        No other position changes. */
    method Observe(i: nat, j: nat, diff: real, color: Pixel)
      requires Valid() && i < height && j < width
      modifies biggestDifferences, mostDifferentPixels
      ensures Row(i, j) == Observed(old(Row(i, j)), Entry(diff, color))
      ensures forall a, b | 0 <= a < height && 0 <= b < width && (a != i || b != j) :: Row(a, b) == old(Row(a, b))
    {
      ghost var s := old(Row(i, j));
      ghost var e := Entry(diff, color);
      forall k | 0 <= k < numPixelsToRank
        ensures s[k] == Entry(biggestDifferences[i, j, k], mostDifferentPixels[i, j, k])
      {
        RowAt(i, j, k);
      }
      if diff > biggestDifferences[i, j, numPixelsToRank - 1] {
        var rank := FindRank(i, j, diff);
        assert Observed(s, e) == InsertAt(s, rank, e);
        InsertAtRank(i, j, rank, diff, color);
        forall k | 0 <= k < numPixelsToRank ensures Row(i, j)[k] == InsertAt(s, rank, e)[k] {
          InsertAtIndex(s, rank, e, k);
          RowAt(i, j, k);
        }
        RowAt(i, j, 0);
      }
      forall a, b | 0 <= a < height && 0 <= b < width && (a != i || b != j) ensures Row(a, b) == old(Row(a, b)) {
        assert |Row(a, b)| == |old(Row(a, b))|;
        assert forall k | 0 <= k < numPixelsToRank :: Row(a, b)[k] == old(Row(a, b))[k];
      }
    }
  }

  // ---------------------------------------------------------------------
  // Setting up the records (the loop over drs that fills in the shared
  // settings and the trackers) and the differentiating phase.

  /** h x w records whose trackers are pairwise separate arrays. */
  predicate Records(drs: seq<DifferenceRecord>, h: nat, w: nat) {
    && (forall n | 0 <= n < |drs| :: drs[n].Valid() && drs[n].height == h && drs[n].width == w)
    && (forall m, n | 0 <= m < |drs| && 0 <= n < |drs| && m != n ::
          drs[m].biggestDifferences != drs[n].biggestDifferences &&
          drs[m].mostDifferentPixels != drs[n].mostDifferentPixels)
  }

  ghost function ScoreArrays(drs: seq<DifferenceRecord>): set<array3<real>> {
    set n | 0 <= n < |drs| :: drs[n].biggestDifferences
  }

  ghost function ColorArrays(drs: seq<DifferenceRecord>): set<array3<Pixel>> {
    set n | 0 <= n < |drs| :: drs[n].mostDifferentPixels
  }

  /** The loop over the selected difference functions that fills in the shared
      settings: the rankings sorted from largest to smallest, K the first of
      them, and trackers of K scores 0 and K white colours at every position. */
  method SetUpRecords(selected: seq<(string, (Pixel, Pixel) -> real)>, rankingsToSave: seq<int>,
                      powersOfScore: seq<real>, invertScores: bool, height: nat, width: nat)
    returns (res: Result<seq<DifferenceRecord>, SettingsError>)
    ensures res.Failure? <==> NumPixelsToRank(SortDescending(rankingsToSave)).Failure?
    ensures res.Failure? ==> res.error == NumPixelsToRank(SortDescending(rankingsToSave)).error
    ensures res.Success? ==> Records(res.value, height, width) && |res.value| == |selected|
    ensures res.Success? ==> forall n | 0 <= n < |selected| ::
      var dr := res.value[n];
      && fresh(dr.biggestDifferences) && fresh(dr.mostDifferentPixels)
      && dr.name == selected[n].0 && dr.metric == selected[n].1
      && dr.numPixelsToRank == NumPixelsToRank(SortDescending(rankingsToSave)).value
      && dr.rankingsToSave == SortDescending(rankingsToSave)
      && dr.scorePowers == powersOfScore && dr.invertScores == invertScores
      && forall i, j | 0 <= i < height && 0 <= j < width :: dr.Row(i, j) == Initial(dr.numPixelsToRank)
  {
    var sorted := SortDescending(rankingsToSave);
    var k := NumPixelsToRank(sorted);
    if k.Failure? {
      return Failure(k.error);
    }
    var drs: seq<DifferenceRecord> := [];
    var n := 0;
    while n < |selected|
      invariant 0 <= n <= |selected| && |drs| == n
      invariant Records(drs, height, width)
      invariant forall m | 0 <= m < n ::
        var dr := drs[m];
        && fresh(dr.biggestDifferences) && fresh(dr.mostDifferentPixels)
        && dr.name == selected[m].0 && dr.metric == selected[m].1
        && dr.numPixelsToRank == k.value && dr.rankingsToSave == sorted
        && dr.scorePowers == powersOfScore && dr.invertScores == invertScores
        && forall i, j | 0 <= i < height && 0 <= j < width :: dr.Row(i, j) == Initial(dr.numPixelsToRank)
    {
      var dr := new DifferenceRecord(selected[n].0, selected[n].1, k.value, invertScores, powersOfScore, sorted, height, width);
      drs := drs + [dr];
      n := n + 1;
    }
    return Success(drs);
  }

  /** The pixels of one input image, row by row, as readImage decodes them
      from its file. */
  type Grid = seq<seq<Pixel>>

  predicate GridShape(g: Grid, h: nat, w: nat) {
    |g| == h && forall i | 0 <= i < h :: |g[i]| == w
  }

  /** The difference function's verdict on an image pixel against the mean pixel, with the image pixel's colour. */
  function Observation(dr: DifferenceRecord, meanPx: Pixel, px: Pixel): Entry {
    Entry(dr.metric(meanPx, px), px)
  }

  /** The observation position (i, j) of dr receives from an image: its pixel there against the mean pixel there. */
  function ObservationAt(dr: DifferenceRecord, h: nat, w: nat, mean: Grid, frame: Grid, i: nat, j: nat): Entry
    requires GridShape(mean, h, w) && GridShape(frame, h, w) && i < h && j < w
  {
    Observation(dr, mean[i][j], frame[i][j])
  }

  /** The observations position (i, j) of dr receives from the first x images, in image order. */
  function Observations(dr: DifferenceRecord, h: nat, w: nat, mean: Grid, frames: seq<Grid>, x: nat, i: nat, j: nat): (es: seq<Entry>)
    requires GridShape(mean, h, w) && (forall y | 0 <= y < |frames| :: GridShape(frames[y], h, w))
    requires i < h && j < w && x <= |frames|
    ensures |es| == x
  {
    if x == 0 then []
    else
      assert GridShape(frames[x - 1], h, w);
      Observations(dr, h, w, mean, frames, x - 1, i, j) + [ObservationAt(dr, h, w, mean, frames[x - 1], i, j)]
  }

  /** Record d of the innermost loop observes px against meanPx at (i, j);
      no other position of it and no other record changes. */
  method ObserveRecord(drs: seq<DifferenceRecord>, h: nat, w: nat, d: nat, i: nat, j: nat, meanPx: Pixel, px: Pixel)
    requires Records(drs, h, w) && d < |drs| && i < h && j < w
    modifies drs[d].biggestDifferences, drs[d].mostDifferentPixels
    ensures drs[d].Row(i, j) == Observed(old(drs[d].Row(i, j)), Observation(drs[d], meanPx, px))
    ensures forall n, a, b | 0 <= n < |drs| && 0 <= a < h && 0 <= b < w && (n != d || a != i || b != j) ::
      drs[n].Row(a, b) == old(drs[n].Row(a, b))
  {
    var diff := drs[d].metric(meanPx, px);
    drs[d].Observe(i, j, diff, px);
    forall n, a, b | 0 <= n < |drs| && n != d && 0 <= a < h && 0 <= b < w
      ensures drs[n].Row(a, b) == old(drs[n].Row(a, b))
    {
      assert drs[n].biggestDifferences != drs[d].biggestDifferences && drs[n].mostDifferentPixels != drs[d].mostDifferentPixels;
    }
  }

  /** The innermost loop: position (i, j) of every record observes the image
      pixel px against the mean pixel meanPx, scored by that record's function. */
  method ObservePixel(drs: seq<DifferenceRecord>, h: nat, w: nat, i: nat, j: nat, meanPx: Pixel, px: Pixel)
    requires Records(drs, h, w) && i < h && j < w
    modifies ScoreArrays(drs), ColorArrays(drs)
    ensures forall n | 0 <= n < |drs| ::
      drs[n].Row(i, j) == Observed(old(drs[n].Row(i, j)), Observation(drs[n], meanPx, px))
    ensures forall n, a, b | 0 <= n < |drs| && 0 <= a < h && 0 <= b < w && (a != i || b != j) ::
      drs[n].Row(a, b) == old(drs[n].Row(a, b))
  {
    var d := 0;
    while d < |drs|
      invariant 0 <= d <= |drs|
      invariant forall n | 0 <= n < d ::
        drs[n].Row(i, j) == Observed(old(drs[n].Row(i, j)), Observation(drs[n], meanPx, px))
      invariant forall n, a, b | 0 <= n < |drs| && 0 <= a < h && 0 <= b < w && (d <= n || a != i || b != j) ::
        drs[n].Row(a, b) == old(drs[n].Row(a, b))
    {
      assert drs[d].biggestDifferences in ScoreArrays(drs) && drs[d].mostDifferentPixels in ColorArrays(drs);
      ObserveRecord(drs, h, w, d, i, j, meanPx, px);
      d := d + 1;
    }
  }

  /** The loops over i and j for one image: every position of every record
      observes that image's pixel against the mean pixel. */
  method ObserveImage(drs: seq<DifferenceRecord>, h: nat, w: nat, mean: Grid, frame: Grid)
    requires GridShape(mean, h, w) && Records(drs, h, w) && GridShape(frame, h, w)
    modifies ScoreArrays(drs), ColorArrays(drs)
    ensures forall n, a, b | 0 <= n < |drs| && 0 <= a < h && 0 <= b < w ::
      drs[n].Row(a, b) == Observed(old(drs[n].Row(a, b)), ObservationAt(drs[n], h, w, mean, frame, a, b))
  {
    var i := 0;
    while i < h
      invariant 0 <= i <= h
      invariant forall n, a, b | 0 <= n < |drs| && 0 <= a < h && 0 <= b < w ::
        drs[n].Row(a, b) == if a < i then Observed(old(drs[n].Row(a, b)), ObservationAt(drs[n], h, w, mean, frame, a, b))
                            else old(drs[n].Row(a, b))
    {
      var j := 0;
      while j < w
        invariant 0 <= j <= w
        invariant forall n, a, b | 0 <= n < |drs| && 0 <= a < h && 0 <= b < w ::
          drs[n].Row(a, b) == if a < i || (a == i && b < j) then Observed(old(drs[n].Row(a, b)), ObservationAt(drs[n], h, w, mean, frame, a, b))
                              else old(drs[n].Row(a, b))
      {
        ObservePixel(drs, h, w, i, j, mean[i][j], frame[i][j]);
        j := j + 1;
      }
      i := i + 1;
    }
  }

  /** Observing image x after the first x images is observing the first x + 1 images. */
  lemma ObservingNextImage(drs: seq<DifferenceRecord>, h: nat, w: nat, mean: Grid, frames: seq<Grid>, x: nat)
    requires GridShape(mean, h, w) && (forall y | 0 <= y < |frames| :: GridShape(frames[y], h, w)) && x < |frames|
    ensures forall n, a, b, r0 {:trigger ObserveAll(r0, Observations(drs[n], h, w, mean, frames, x + 1, a, b))} | 0 <= n < |drs| && 0 <= a < h && 0 <= b < w ::
      ObserveAll(r0, Observations(drs[n], h, w, mean, frames, x + 1, a, b)) ==
      Observed(ObserveAll(r0, Observations(drs[n], h, w, mean, frames, x, a, b)), ObservationAt(drs[n], h, w, mean, frames[x], a, b))
  {
    forall n, a, b, r0 | 0 <= n < |drs| && 0 <= a < h && 0 <= b < w
      ensures ObserveAll(r0, Observations(drs[n], h, w, mean, frames, x + 1, a, b)) ==
        Observed(ObserveAll(r0, Observations(drs[n], h, w, mean, frames, x, a, b)), ObservationAt(drs[n], h, w, mean, frames[x], a, b))
    {
      ObserveAllSnoc(r0, Observations(drs[n], h, w, mean, frames, x, a, b), ObservationAt(drs[n], h, w, mean, frames[x], a, b));
    }
  }

  /** The loop over the images: each is observed, in order, at every
      position of every record. */
  method ObserveImages(drs: seq<DifferenceRecord>, h: nat, w: nat, mean: Grid, frames: seq<Grid>)
    requires GridShape(mean, h, w) && Records(drs, h, w)
    requires forall y | 0 <= y < |frames| :: GridShape(frames[y], h, w)
    modifies ScoreArrays(drs), ColorArrays(drs)
    ensures forall n, a, b | 0 <= n < |drs| && 0 <= a < h && 0 <= b < w ::
      drs[n].Row(a, b) == ObserveAll(old(drs[n].Row(a, b)), Observations(drs[n], h, w, mean, frames, |frames|, a, b))
  {
    var x := 0;
    while x < |frames|
      invariant 0 <= x <= |frames|
      invariant forall n, a, b | 0 <= n < |drs| && 0 <= a < h && 0 <= b < w ::
        drs[n].Row(a, b) == ObserveAll(old(drs[n].Row(a, b)), Observations(drs[n], h, w, mean, frames, x, a, b))
    {
      ObserveImage(drs, h, w, mean, frames[x]);
      ObservingNextImage(drs, h, w, mean, frames, x);
      x := x + 1;
    }
  }

  /** The differentiating phase: the images, one after the other, are
      observed at every position of every record. Trackers that start as
      set up hold, best first, the K best of the K initial entries and all
      observations. */
  method DifferentiatingPass(drs: seq<DifferenceRecord>, h: nat, w: nat, mean: Grid, frames: seq<Grid>)
    requires GridShape(mean, h, w) && Records(drs, h, w)
    requires forall y | 0 <= y < |frames| :: GridShape(frames[y], h, w)
    modifies ScoreArrays(drs), ColorArrays(drs)
    ensures forall n, a, b | 0 <= n < |drs| && 0 <= a < h && 0 <= b < w ::
      drs[n].Row(a, b) == ObserveAll(old(drs[n].Row(a, b)), Observations(drs[n], h, w, mean, frames, |frames|, a, b))
    ensures forall n, a, b | 0 <= n < |drs| && 0 <= a < h && 0 <= b < w &&
        old(drs[n].Row(a, b)) == Initial(drs[n].numPixelsToRank) ::
      IsTopK(drs[n].Row(a, b), multiset(Initial(drs[n].numPixelsToRank)) + multiset(Observations(drs[n], h, w, mean, frames, |frames|, a, b)),
             drs[n].numPixelsToRank)
  {
    ObserveImages(drs, h, w, mean, frames);
    forall n, a, b | 0 <= n < |drs| && 0 <= a < h && 0 <= b < w &&
        old(drs[n].Row(a, b)) == Initial(drs[n].numPixelsToRank)
      ensures IsTopK(drs[n].Row(a, b), multiset(Initial(drs[n].numPixelsToRank)) + multiset(Observations(drs[n], h, w, mean, frames, |frames|, a, b)),
                     drs[n].numPixelsToRank)
    {
      ObserveAllIsTopK(drs[n].numPixelsToRank, Observations(drs[n], h, w, mean, frames, |frames|, a, b));
    }
  }
}
