# LeastAverageImage: a verified model of the averaging, ranking and output core

LeastAverageImage reads a sequence of same-sized PPM images and first computes
their mean image. It then keeps, at every pixel position and for every
selected difference function, the K pixels that differ most from the mean
pixel, with their scores. Finally it writes one image per ranking depth d
and score power: each of its pixels blends the colours of the top d pixels
at that position, weighted by their powered scores.

This project models that core in Dafny:

- `results.dfy` (module `Results`): `Option` and `Result`.
- `netpbm.dfy` (module `Netpbm`): the image buffer of netpbm.c as a class:
  - `createImage`, `setPixel` and `filledRectangle`;
  - the packed 3-bytes-per-pixel layout `writeImage` builds;
  - the scaled decoding `readImage` performs once the header is read.
- `utility.dfy` (module `Utility`): `endWithSlash`, `stob`, `splitByChars`, and
  `toDoubles` / `toInts`.
- `topk.dfy` (module `TopK`): the per-position rank tracker as a value.
  - This is a list of K (score, colour) entries.
  - `Observed` gives the list after one difference arrives, following the
    rank scan and shift in main.cpp; `ObserveAll` gives it after a stream.
  - The main theorem: after any stream, the list holds, best first, the K
    best of the initial entries and all the observed ones.
- `ranking.dfy` (module `Ranking`):
  - the reverse sort of the rankings and K;
  - the `DifferenceRecord` class, whose tracker arrays are updated in place
    exactly as main.cpp does;
  - the set-up loop;
  - the differentiating pass over images, rows, columns and records.
- `averaging.dfy` (module `Averaging`): the averaging phase, that is, the
  totals, the dimension check and the rounded means.
- `output.dfy` (module `Output`):
  - which outputs a record produces, and in what order;
  - the per-pixel choice between copying the mean pixel and blending;
  - the loops that synthesise every output image.

Each modelled loop of the C++ is a Dafny `method` with a `while` loop. Its
`ensures` ties the result or the new state to a specification function
(`Observed`, `ObserveAll`, `Configurations`, `OutputPixel`, `MeanPixel`,
`Packed`, `DecodedPixel`). The lemmas beside those functions prove what the
program promises.

Some paths of the program have undefined behaviour or abort the process.
The model makes each of them an explicit error value:
- main.cpp: an empty ranking list, a largest ranking below 1, and an image
  of another size in the averaging phase;
- netpbm.c: a non-positive image size, missing data, a zero maximum value,
  and an invalid output file name.

## Model

| member | source | states |
|---|---|---|
| Netpbm.Image.constructor | src/netpbm.c:15-34 | createImage: a height x width image whose every pixel is white (255, 255, 255) |
| Netpbm.Image.SetPixel | src/netpbm.c:293-312 | only the pixel at (vPos, hPos) changes, and only when it lies inside the image; it becomes the channel-wise recolouring, every other pixel keeps its value |
| Netpbm.UpdatedChannel | src/netpbm.c:297-310 | INVERT complements the channel (u + v = 255), a value in 0..255 replaces it, NO_CHANGE and any other argument keep it |
| Netpbm.Recoloured | src/netpbm.c:297-310 | the pixel setPixel writes, each channel updated from its own argument as UpdatedChannel states; RecolourTwice and InvertTwiceRestores state its behaviour when applied twice |
| Netpbm.RecolourTwice | src/netpbm.c:297-310 | applying setPixel twice with the same arguments restores every inverted channel and keeps every other channel at its first new value |
| Netpbm.InvertTwiceRestores | src/netpbm.c:297-310 | inverting all three channels twice gives the original pixel |
| Netpbm.Image.FilledRectangle | src/netpbm.c:337-354 | exactly the in-image cells of the closed rectangle between the two corners are recoloured, whichever order the corners come in; nothing else changes |
| Netpbm.RectangleCornerOrder | src/netpbm.c:339-350 | the rectangle does not depend on which corner is named first, in either coordinate |
| Netpbm.MapSize | src/netpbm.c:141 | `mapsize`, (24 * width + 7) / 8 * height; MapSizeIsThreeBytesPerPixel proves it is 3 * width * height |
| Netpbm.MemPos | src/netpbm.c:156 | readImage's `mempos`; MemPosIsOffset proves it is the row-major triple offset, and MemPosInData that it lies inside the data |
| Netpbm.MapSizeIsThreeBytesPerPixel | src/netpbm.c:199 | mapsize at 24 bits per pixel is exactly 3 * width * height bytes |
| Netpbm.MemPosIsOffset | src/netpbm.c:156 | readImage's mempos for (i, j) is 3 * (i * width + j), the triple writeImage fills for that pixel |
| Netpbm.OffsetOrder | src/netpbm.c:204-209 | pixels earlier in row-major order occupy byte triples wholly before later ones |
| Netpbm.OffsetInBuffer | src/netpbm.c:199-209 | every pixel's triple lies inside a buffer of 3 * width * height bytes |
| Netpbm.PutPixel | src/netpbm.c:206-208 | the three `temp[mempos++]` writes put r, g, b at o, o+1, o+2 and touch no other byte |
| Netpbm.RowInBuffer | src/netpbm.c:204-209 | the triples of row i are consecutive, from the row's first byte to the next row's, and lie inside the buffer |
| Netpbm.PackRow | src/netpbm.c:205-209 | the inner loop packs every pixel of row i at its triple and changes no byte outside that row |
| Netpbm.WriteImage | src/netpbm.c:173-225 | a file name whose next-to-last character is not p/P, or an empty image, is refused; otherwise the data has mapsize bytes, with every pixel's channels at its triple |
| Netpbm.DecodedChannel | src/netpbm.c:157-159 | `(unsigned char) (byte * 255 / imax)` with C truncating division and the cast modulo 256; DecodeIdentityAt255 and DecodedChannelInRange state its values |
| Netpbm.DecodedChannelInRange | src/netpbm.c:157-159 | a byte no larger than a positive imax scales to byte * 255 / imax, in 0..255, so the cast does not wrap |
| Netpbm.DecodeIdentityAt255 | src/netpbm.c:157-159 | with maximum value 255 the decoding `byte*255/imax` cast to unsigned char gives back the byte |
| Netpbm.MemPosInData | src/netpbm.c:141-159 | once at least mapsize bytes were read, every mempos, mempos+1 and mempos+2 is inside the data |
| Netpbm.ReadImage | src/netpbm.c:98-163 | a non-positive size, short data and a zero maximum value are errors (all three together are the failure cases); otherwise a new image of the header's size whose pixel (i, j) is the decoded triple at mempos |
| Netpbm.WriteThenRead | src/netpbm.c:141-209 | reading back with maximum value 255 the bytes writeImage packs gives exactly the original pixels, whenever writing succeeds |
| Utility.EndWithSlash | src/utility.cpp:3-10 | the empty string throws out_of_range; otherwise the result starts with s, ends in '/' or '\\', is s itself when s already ends in a slash, and s + "/" otherwise |
| Utility.EndWithSlashIdempotent | src/utility.cpp:3-10 | normalising an already normalised path changes nothing |
| Utility.Stob | src/utility.cpp:13-24 | true exactly for "true", false exactly for "false", invalid_argument for every other string |
| Utility.SplitByChars | src/utility.cpp:26-49 | splitByChars, peeling the last separator off the end. SplitAtSeparator (a separator splits s into the tokens before it followed by the tokens after it) and SplitWithoutSeparator (a separator-free s is [] or [s]) together fix its value on every input: the maximal separator-free runs of s, in order |
| Utility.SplitAtSeparator | src/utility.cpp:28-47 | for a separator c, the tokens of a + [c] + b are the tokens of a followed by the tokens of b: every token boundary lies at a separator, and no token spans one |
| Utility.FindLastOfAppend | src/utility.cpp:29 | find_last_of on x + y is y's last separator shifted by the length of x when y has one, and otherwise x's |
| Utility.FindLastOf | src/utility.cpp:29 | find_last_of: None when no character of s is a separator; otherwise a separator position after which no separator occurs |
| Utility.SplitTokensHaveNoSeparator | src/utility.cpp:26-49 | no token contains a split character |
| Utility.SplitTokensNonEmpty | src/utility.cpp:26-49 | no token is empty (leading, trailing and repeated separators give nothing) |
| Utility.SplitConcatIsWithout | src/utility.cpp:26-49 | the tokens, joined in order, are s with its separators removed: nothing is lost or reordered |
| Utility.SplitWithoutSeparator | src/utility.cpp:31-40 | a string without separators splits into [s], or into nothing when s is empty |
| Utility.ToNumbers | src/utility.cpp:51-107 | lenient mode returns the values of exactly the parseable entries in order; strict mode fails exactly when some entry does not parse |
| Utility.ParsedAppend | src/utility.cpp:63-77 | the parsed values of a concatenation are the concatenation of the parsed values, so the input order is kept |
| Utility.ParsedAllInOrder | src/utility.cpp:51-78 | when every entry parses, the result has one value per entry, each at its entry's own position |
| TopK.Initial | src/main.cpp:261-263 | a new tracker holds K entries, each of score 0 and colour white |
| TopK.SuffixStart | src/main.cpp:276-280 | the rank the scan finds: every slot from it on scores below diff, the slot before it (if any) at least diff |
| TopK.SuffixStartUnique | src/main.cpp:276-280 | those properties determine the rank uniquely |
| TopK.Accepts | src/main.cpp:275 | the O(1) test that a difference beats the last slot's score; AcceptedShape and RejectedUnchanged state what follows from each outcome |
| TopK.InsertAt | src/main.cpp:284-289 | the entry written at rank r after shifting slots r..K-2 down and dropping slot K-1; InsertAtIndex states every slot of the result |
| TopK.Observed | src/main.cpp:275-290 | an observation keeps the tracker's K slots |
| TopK.ObserveAll | src/main.cpp:268-296 | a stream of observations keeps the tracker's K slots |
| TopK.ObserveAllSnoc | src/main.cpp:268-296 | observing a stream and then one more difference is observing the longer stream |
| TopK.AcceptedShape | src/main.cpp:275-290 | an accepted difference gets a rank inside the list; every entry before it scores at least as much (ties are not displaced), every entry from it on scores less; the new list is the old prefix, the new entry, then the old entries shifted down with the last one dropped |
| TopK.RejectedUnchanged | src/main.cpp:275 | a difference not above the last slot's score changes nothing |
| TopK.ObservedDescending | src/main.cpp:275-290 | observing keeps the scores sorted from highest to lowest |
| TopK.ObservedMultiset | src/main.cpp:284-289 | an accepted observation trades exactly the last entry for the new one |
| TopK.ObservedKeepsTopK | src/main.cpp:272-290 | one observation turns the K best of a pool into the K best of the pool with the new entry |
| TopK.InitialIsTopK | src/main.cpp:261-263 | the initial tracker is the K best of its own entries |
| TopK.ObserveAllKeepsTopK | src/main.cpp:268-296 | a stream of observations turns the K best of a pool into the K best of the pool plus the stream |
| TopK.ObserveAllIsTopK | src/main.cpp:261-296 | after any stream, the tracker holds, best first, the K best of the K initial entries and all observed ones |
| TopK.NoPositiveScoreKeepsInitial | src/main.cpp:261-296 | a stream in which no difference is positive leaves the initial tracker unchanged |
| Ranking.InsertDescending | src/main.cpp:53 | insertion into a descending list keeps it descending, adds exactly x, and puts either x or the old first entry at the front |
| Ranking.SortDescending | src/main.cpp:53 | std::sort with std::greater: a descending permutation of the rankings |
| Ranking.NumPixelsToRank | src/main.cpp:54 | K is the first of the sorted rankings: the largest one, which is at least 1; an empty list, or one whose entries are all below 1, is an error |
| Ranking.DifferenceRecord.Row | src/main.cpp:25-26 | a position's tracker has K slots |
| Ranking.DifferenceRecord.constructor | src/main.cpp:254-264 | a record holds the shared settings and, at every position, K scores 0 and K white colours in new arrays |
| Ranking.DifferenceRecord.RowAt | src/main.cpp:25-26 | slot k of a position's tracker is the score and colour stored at [i][j][k] |
| Ranking.DifferenceRecord.FindRank | src/main.cpp:276-283 | the scan from the last slot upwards returns SuffixStart; the rank is inside the tracker, so the out-of-range report at line 281 never fires |
| Ranking.DifferenceRecord.ShiftDown | src/main.cpp:284-287 | slots rank+1..K-1 take the old contents of slots rank..K-2; slots up to rank and all other positions are unchanged |
| Ranking.DifferenceRecord.InsertAtRank | src/main.cpp:284-289 | after the shift, slot rank holds diff and the image pixel; everything else is as ShiftDown leaves it |
| Ranking.DifferenceRecord.Observe | src/main.cpp:275-290 | the tracker at (i, j) becomes Observed(old tracker, (diff, colour)); no other position changes |
| Ranking.SetUpRecords | src/main.cpp:254-264 | fails exactly when K is undefined; otherwise one record per selected function, in order, with the sorted rankings, K, the powers, the invert flag and all-initial trackers in pairwise separate arrays |
| Ranking.Observation | src/main.cpp:273 | the record's difference function applied to (mean pixel, image pixel), paired with the image pixel; ObserveRecord states that this is what the tracker observes |
| Ranking.Observations | src/main.cpp:268-273 | a position receives one observation per image |
| Ranking.ObserveRecord | src/main.cpp:273-290 | record d's tracker at (i, j) observes the image pixel against the mean pixel; no other record or position changes |
| Ranking.ObservePixel | src/main.cpp:272-291 | the loop over drs_index: every record's tracker at (i, j) observes that pixel; nothing else changes |
| Ranking.ObserveImage | src/main.cpp:270-293 | the loops over i and j: every position of every record observes its pixel of the image |
| Ranking.ObservingNextImage | src/main.cpp:268-296 | observing image x after the first x images is observing the first x + 1 images |
| Ranking.ObserveImages | src/main.cpp:268-296 | the loop over images: every tracker becomes ObserveAll(old tracker, its observations in image order) |
| Ranking.DifferentiatingPass | src/main.cpp:266-296 | as ObserveImages, and every tracker that started initial holds the K best of the initial entries and all observations |
| Averaging.ChannelSum | src/main.cpp:175-208 | a channel total over n images is at most 255 * n |
| Averaging.MeanChannel | src/main.cpp:212-214 | round(total / n): the integer r with 2nr <= 2 total + n < 2n(r + 1), the nearest integer with halves rounded up |
| Averaging.MeanChannelIsByte | src/main.cpp:212-214 | the mean of n channel values fits in an unsigned char, so the cast does not wrap |
| Averaging.MeanPixel | src/main.cpp:209-216 | each channel of the mean pixel is the rounded mean of that channel's total over all images |
| Averaging.FirstTotals | src/main.cpp:175-186 | the totals start as the first image's channel values |
| Averaging.AddImage | src/main.cpp:199-205 | every total grows by the image's channel value at that position |
| Averaging.MeanImage | src/main.cpp:209-216 | a new image of the totals' size whose pixels are the rounded means of the totals |
| Averaging.Average | src/main.cpp:175-216 | fails exactly when some later image's size differs from the first, naming the first such image; otherwise a new image of the first image's size whose every pixel is the mean pixel of all images |
| Output.RankOutputs | src/main.cpp:307-315 | the outputs of one ranking depth as intended: one output with power 1.0 for depth 1, one output per listed power otherwise; ConfigurationsMembership and DepthOneOutputCount state it |
| Output.RankOutputsAsWritten | src/main.cpp:307-315 | the same loop as written, failing where it reads `score_powers[0]` of an empty list; EmptyPowersDepthOne and AsWrittenAgreesWhenPowersGiven state where it differs |
| Output.Configurations | src/main.cpp:304-315 | the outputs of a record, its ranking depths in order, each with its outputs; ConfigurationsMembership, ConfigurationsDepthListed, ConfigurationsDescending and DepthOneOutputCount state its contents and order |
| Output.EmptyPowersDepthOne | src/main.cpp:307-315 | with no powers and a ranking of 1, the loop as written reads score_powers[0] out of range, where a single output with power 1.0 is meant |
| Output.AsWrittenAgreesWhenPowersGiven | src/main.cpp:307-315 | whenever the read is in range, the loop as written yields the intended outputs |
| Output.ConfigurationsMembership | src/main.cpp:304-315 | an output is made exactly for each listed depth: with power 1.0 for depth 1, and with each listed power for any other depth |
| Output.DepthOneOutputCount | src/main.cpp:308-315 | rankings that are all 1 give one output each, whatever the powers |
| Output.ConfigurationsDepthListed | src/main.cpp:305-306 | every output's depth is one of the record's rankings |
| Output.ConfigurationsDescending | src/main.cpp:304-311 | with the rankings reverse-sorted, outputs are made from the deepest ranking to the shallowest |
| Output.Top | src/main.cpp:320 | the top d slots of a tracker, none when d < 1 |
| Output.TotalScore | src/main.cpp:319-322 | the sum of pow(score, power) over the top entries; TopTotal states that the loop over k computes it, TotalScoreOfZeros its value on zero scores |
| Output.OutputPixel | src/main.cpp:323-341 | the mean pixel when the total is 0 or less and warnings are shown, the blend otherwise; ZeroTotalCopiesMean and HiddenWarningsAlwaysBlend state both cases |
| Output.ZeroTotalCopiesMean | src/main.cpp:319-341 | with warnings shown, a total of powered scores of 0 or less copies the mean pixel, any other total blends |
| Output.HiddenWarningsAlwaysBlend | src/main.cpp:323-341 | with warnings hidden the mean pixel is never copied: every position is blended |
| Output.TotalScoreOfZeros | src/main.cpp:319-322 | powered zero scores add up to zero |
| Output.UnscoredPositionShowsMean | src/main.cpp:319-326 | a position where no image ever scored above 0 shows the mean pixel, with warnings shown and pow(0, p) = 0 |
| Output.TopTotal | src/main.cpp:319-322 | the loop over k sums pow(score, power) over the top d slots |
| Output.PixelOf | src/main.cpp:319-341 | one output pixel is the mean pixel or the blend, as OutputPixel decides |
| Output.SynthesizeRow | src/main.cpp:318-342 | row i of the output gets its output pixels; other rows are unchanged |
| Output.Synthesize | src/main.cpp:316-343 | a new image, of the record's size, every pixel of which is the output pixel of the top d slots at that position |
| Output.DepthOutputs | src/main.cpp:306-361 | the loop over sp_index makes one new image per output RankOutputs lists, in order, each showing its output |
| Output.RecordOutputs | src/main.cpp:305-362 | the outputs of one record, in the order Configurations lists them, each a new image showing that output |
| Output.AllOutputs | src/main.cpp:304-363 | for every record in order, its outputs and their images |

## Left out

- File I/O is not modelled:
  - opening and closing files;
  - the PPM header (`P` check, comment lines, the width, height and maximum-value line);
  - `fread` / `fwrite`.
  `ReadImage` takes the parsed header values and the bytes after the header. `WriteImage` returns the packed bytes.
- The settings file (`ini`, iniparser.cpp) and the reading of every setting in main.cpp:34-94 are not modelled:
  - the settings feed their values into the modelled functions;
  - the abort when no difference function is selected, and the album frame check, are not modelled.
- List mode and album mode are not modelled, because they only compute file names and tags:
  - the input file names;
  - the output tag;
  - `intToString` / `doubleToString`;
  - `use_tag_as_entire_filename`;
  - output file names.
- The difference functions (differencefunctions.cpp) and the metric selection (the `DO_*` flags) are not modelled. A record's metric is a function parameter, because those functions are floating-point arithmetic.
- Floating point is not modelled:
  - `pow` and the colour weighting (newRGB and the final `round`) are parameters `pow` and `blend`;
  - scores are Dafny `real`s (no NaN, no rounding error).
- Averaging.MeanChannel: computes the mean exactly in integers. The source divides in double precision before `round`, and does not lose precision for realistic image counts.
- Averaging.ChannelSum: does not model the 64-bit wrap-around of the `unsigned long long` totals. It could only happen after more than 7 * 10^16 images.
- Averaging.Average: requires at least one image. The source reads `inputFilenames[0]` unguarded; its settings checks (main.cpp:89-92 and 144-147) ensure at least one image.
- Ranking.DifferentiatingPass: takes the mean image and the input images as decoded pixel grids of the records' size.
  - The source reads each image again with `readImage` and does not check its size in this phase (main.cpp:269).
  - Because the grids are values, the model does not capture images aliasing the trackers.
- Ranking.DifferentiatingPass, Output.AllOutputs: require the mean image and every input image to be exactly HEIGHT x WIDTH, the first image's size. The source checks this only in the averaging phase.
  - In skip-averaging mode the source never compares the pre-averaged image (main.cpp:165-169) or any image of the differentiating pass (main.cpp:269) with HEIGHT x WIDTH.
  - A larger image is there silently cropped to its top-left HEIGHT x WIDTH part. A smaller one is read out of bounds (undefined behaviour).
  - The model covers neither case, and it does not state the link between the averaging phase's `Image` and the grids.
- Netpbm.ReadImage, Netpbm.WriteImage, Netpbm.WriteThenRead: do not model netpbm.c's 32-bit `int` arithmetic; sizes and offsets are unbounded integers.
  - `mapsize = (24*width + 7)/8*height` (netpbm.c:141, 199) and `mempos` (netpbm.c:156) overflow once 3 * width * height exceeds 2^31 - 1, about 716 million pixels. Comparing `fread`'s count with `mapsize` (netpbm.c:144-146) then compares against a wrapped value.
  - From that size on, readImage and writeImage have undefined behaviour, while the model reads and writes such images correctly.
- Netpbm.Image.FilledRectangle: does not model the signed overflow of `m++` / `n++` (netpbm.c:351-352) when the larger corner coordinate is INT_MAX. The source's `m <= m2` then never fails (undefined behaviour); the model's coordinates are unbounded, and the loop ends after that row or column.
- `copyPixel` (netpbm.c:449-459) is modelled as assignment of a `Pixel` value, which has the same effect.
- `deleteImage`, the matrix functions, `line`, `rectangle`, `ellipse`, `filledEllipse`, `image2Matrix` and `matrix2Image` in netpbm.c are not part of this model. AbstractImage is not part of this model either.
- Output.AllOutputs, and the methods it calls, return the images and their output parameters; writing each image and deleting it afterwards (main.cpp:344-360) are left out as I/O.
- Undefined behaviour, and one exception, are modelled as error results instead of the source's unpredictable behaviour:
  - `rankingsToSave[0]` on an empty vector at main.cpp:54 (`NoRankings`);
  - a largest ranking below 1 (`NonPositiveRank`). For K = 0 the unsigned index `num_pixels_to_rank - 1` wraps around (main.cpp:275). For a negative K, `std::vector<Pixel>(NUM_PIXELS_TO_RANK, white)` at main.cpp:262-263 converts the int to a huge size and throws `std::length_error` before any index is read;
  - a zero `imax` in readImage, a division by zero at netpbm.c:157-159 (`ZeroMaxValue`);
  - an output file name shorter than 2 characters, for which `filename[strlen(filename) - 2]` at netpbm.c:180 reads out of bounds (`InvalidFileName`, the same error as the source's exit at netpbm.c:187-189 for a name of 2 or more characters).
- Console messages (progress, warnings, the rank error report) are left out.

## Findings

| source | as written | input that shows it | evidently intended | confidence | as-written member | corrected member |
|---|---|---|---|---|---|---|
| src/main.cpp:311-315 | for a ranking of 1 the loop runs once and reads `score_powers[0]` before replacing it by 1.0 | `general_powers_of_score` with no numbers (an empty list) and `general_rankings_to_save` containing 1 | one output with power 1.0 for depth 1, whatever the power list | not executed; out-of-range read of an empty std::vector | Output.RankOutputsAsWritten | Output.RankOutputs |

`Output.EmptyPowersDepthOne` exhibits the out-of-range case of
`RankOutputsAsWritten`, and `Output.AsWrittenAgreesWhenPowersGiven` shows that
it is the only case in which the two functions differ. The rest of the model
uses `RankOutputs`; `Output.DepthOutputs` does not read the power list at
depth 1. `Output.ConfigurationsMembership` and `Output.DepthOneOutputCount`
prove the intended property about it.
