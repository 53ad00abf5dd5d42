# imgsmlr in Dafny

imgsmlr is a PostgreSQL extension for image similarity search. This project
models its numeric core:

- the signature pipeline of `imgsmlr.c`:
  - the in-place Haar wavelet transform of a 64×64 pattern;
  - the 16-value signature taken from it;
  - the weighted distances between patterns and between signatures;
  - the block-wise blur of `shuffle_pattern`;
  - the min/max rescale of `normalizePattern`;
  - the text input of both types;
- the GiST operations of `imgsmlr_idx.c` over index keys:
  - keys are one signature (a point) or two (a min/max box);
  - box construction and growth, and the union of the keys of a page;
  - box volumes and the insertion penalty;
  - the quadratic page split;
  - the distance from a query to a box used to order the search.

Floats are modelled as reals, so sums, products, the halving by 4 and min/max
are exact. `sqrt` and `strtof` are parameters, not implementations. Each C
function is a method over arrays or sequences, with the same loops as the C.
Each method is proved against a specification function, and the properties the
code relies on are proved as lemmas about those functions.

Modules, one file each:

| module | file | content |
|---|---|---|
| `Types` | types.dfy | the constants of `imgsmlr.h`, min/max, squares, ratios |
| `Grid` | grid.dfy | a pattern as a flat row-major `seq<real>`, `Snap` of a 64×64 `array2<real>`, powers of two, quadrants |
| `Wavelet` | wavelet.dfy | `waveletTransform` |
| `Distance` | distance.dfy | `calcDiff`, `pattern_distance`, `signature_distance` |
| `Signature` | signature.dfy | `calcSumm`, `calcSignature` |
| `Shuffle` | shuffle.dfy | `shuffle`, `shuffle_pattern` |
| `Normalize` | normalize.dfy | `normalizePattern` |
| `TextInput` | textinput.dfy | `read_float`, `signature_in`, `pattern_in` |
| `Keys` | keys.dfy | key shapes, `set_signature`, `extend_signature`, `signature_union` |
| `Volumes` | volumes.dfy | `union_intersect_size`, `key_size`, `signature_penalty` |
| `GistDistance` | gistdistance.dfy | `signature_gist_distance` |
| `PickSplit` | picksplit.dfy | `signature_picksplit` |

Representation choices:

- A key is a `seq<real>` of length 16 (a point) or 32 (lower corner, then upper
  corner). This is the length check of `CHECK_SIGNATURE_KEY` in imgsmlr.h.
  `Lo(k, i)` is `k[i]`. `Hi(k, i)` is `k[16 + i]` for a box and `k[i]` for a
  point, as the `keyMax` / `srcMax` offsets of the C code choose.
- Box buffers that the C code writes are `array<real>` of length 32: the two
  consecutive `Signature`s behind `VARDATA`.
- An entry vector is a `seq<Key>`. Entry 0 is unused; entries 1..maxoff are
  split.

Two facts about the code that a reader might not expect:

- Signature weights. calcSignature (imgsmlr.c:617-624) starts from side 32
  and halves it before the first level, so it gives the weights 1, 2, 4, 8,
  16 to the quadrants of side 16, 8, 4, 2, 1. The three 32×32 quadrants are
  not used. The 1×1 quadrants, which get the largest weight, hold the
  coarsest details.
- Trailing text. signature_in and pattern_in (imgsmlr.c:399-400, 346-348)
  stop after the last value they read and never test what follows, so they
  accept trailing text: `"(1,...,16) garbage"` reads as `"(1,...,16)"`.
  `TextInput.ValuesIgnoreTrailing` states this.

## Model

| member | source | states |
|---|---|---|
| Wavelet.BlockInvertible | imgsmlr.c:564-577 | the average and the three details of a 2×2 block give back each of its four cells: one level of the transform is invertible |
| Wavelet.BlockInjective | imgsmlr.c:564-577 | two blocks with the same average and details are the same block |
| Wavelet.ConstantBlock | imgsmlr.c:564-577 | a constant block has the constant as average and three zero details |
| Wavelet.Shrink | imgsmlr.c:572-579 | one averaging pass as a value: cell (i, j) with i, j < h becomes the average of block (2i..2i+1, 2j..2j+1); every other cell is kept |
| Wavelet.AveragePass | imgsmlr.c:572-579 | the in-place averaging loop leaves src equal to the out-of-place `Shrink` of its old contents: no cell is read after it is overwritten |
| Wavelet.WriteDetails | imgsmlr.c:564-569 | one (i, j) step writes the three detail values of block (i, j) at (i+size, j), (i, j+size), (i+size, j+size) and changes no other cell |
| Wavelet.DetailPass | imgsmlr.c:560-571 | the detail loops write exactly the three quadrants of side `size` at (size, 0), (0, size), (size, size) with their details, and leave every other dst cell as it was |
| Wavelet.WaveletTransform | imgsmlr.c:554-586 | every dst cell inside the top-left size×size square gets the Haar coefficient of the original src and every cell outside keeps its value; src ends as the fully averaged pattern |
| Wavelet.Tiling | imgsmlr.c:556-585 | every cell other than (0, 0) lies in exactly one quadrant of exactly one level, and (0, 0) in none, so the recursion writes every dst cell exactly once |
| Wavelet.QuadrantPosition | imgsmlr.c:564-569 | a cell at offset (p, q) in quadrant o of level t is classified back to level t, quadrant o and offset (p, q) |
| Wavelet.QuadrantCoefficient | imgsmlr.c:564-569 | the coefficient at offset (p, q) of quadrant o of level t is that quadrant's detail of block (p, q) of level 2t |
| Wavelet.RingCoefficient | imgsmlr.c:564-569 | a cell of the ring written at side size/2 holds its coefficient |
| Wavelet.LevelShift | imgsmlr.c:576-580 | recursing on the averaged src with half the size gives the same levels as the original call |
| Wavelet.CoefficientShift | imgsmlr.c:576-580 | the recursive call on the averaged src computes the same coefficients for the top-left half |
| Wavelet.Untouched | imgsmlr.c:572-579 | passes of side n and smaller never change a src cell outside the top-left n/2 square |
| Wavelet.ResidueCells | imgsmlr.c:572-580 | after the whole recursion, a src cell holds the value of the last pass that wrote it, and cells outside the top-left half keep the input |
| Wavelet.CellRecovered | imgsmlr.c:564-577 | each cell of a level is recovered from the next coarser level and the three details of its block |
| Wavelet.LevelsAgree | imgsmlr.c:554-586 | two sources with the same coefficients have the same levels, from (0, 0) upwards |
| Wavelet.TransformInjective | imgsmlr.c:554-586 | two sources with the same coefficients are the same pattern: the transform loses nothing |
| Wavelet.ConstantLevel | imgsmlr.c:572-579 | averaging a constant pattern keeps it constant at every level |
| Wavelet.ConstantTransform | imgsmlr.c:554-586 | a constant pattern has DC coefficient equal to the constant and all other coefficients 0 |
| Signature.RowSummProps | imgsmlr.c:598-602 | the sum of squares along a row is non-negative, and 0 when the row is 0 |
| Signature.RectSummProps | imgsmlr.c:596-603 | the sum of squares of a block is non-negative, and 0 when the block is 0 |
| Signature.CalcSummSquared | imgsmlr.c:594-603 | the loops of calcSumm compute the sum of squares of block (x, y, sX, sY) |
| Signature.CalcSumm | imgsmlr.c:592-605 | calcSumm returns sqrt of that sum |
| Signature.NextLevel | imgsmlr.c:617-624 | the levels visited have sides 16, 8, 4, 2, 1 with weights 1, 2, 4, 8, 16: the side halves and the weight doubles from one level to the next |
| Signature.LevelEntries | imgsmlr.c:620-622 | entries 3k, 3k+1, 3k+2 are the weighted energies of the (size, 0), (0, size) and (size, size) blocks of level k |
| Signature.SignatureOfEntries | imgsmlr.c:611-626 | a 16-value sequence whose entries 0..14 are the level entries and whose entry 15 is cell (0, 0) is the signature |
| Signature.WriteEntry | imgsmlr.c:620-622 | one `signature->values[i++] = …` stores weight × energy of one block and changes no other entry |
| Signature.WriteLevel | imgsmlr.c:619-623 | one round of the loop fills the next three entries in order, keeping the earlier ones |
| Signature.CalcSignature | imgsmlr.c:611-626 | the whole signature equals `SignatureOf(pattern)`: three entries per level over five levels in order, then the unweighted cell (0, 0) at index 15 |
| Signature.SignatureNonNeg | imgsmlr.c:620-622 | with a non-negative sqrt, entries 0..14 are non-negative |
| Signature.FlatSignature | imgsmlr.c:611-626 | a transformed pattern whose only non-zero cell is (0, 0) = v has signature 0, …, 0, v |
| Signature.UniformSignature | imgsmlr.c:611-626 | the signature of the transform of a constant pattern v is 0, …, 0, v |
| Distance.RowDiffProps | imgsmlr.c:442-447 | the squared-difference sum along a row is non-negative, symmetric in A and B, and 0 for A = B |
| Distance.RectDiffProps | imgsmlr.c:440-448 | the same for a block |
| Distance.CalcDiff | imgsmlr.c:435-450 | calcDiff computes the squared-difference sum of block (x, y, sX, sY) |
| Distance.PatternDistanceWeights | imgsmlr.c:468-477 | the pattern distance sum weights the three quadrants of sides 32, 16, 8, 4, 2, 1 by 1, 2, 4, 8, 16, 32 and the DC difference by 64 |
| Distance.LevelsFromProps | imgsmlr.c:468-477 | the weighted sum over the levels from a side down is non-negative, symmetric, and 0 for equal patterns |
| Distance.PatternDistanceProps | imgsmlr.c:468-478 | the pattern distance sum before sqrt is non-negative, symmetric, and 0 for equal patterns |
| Distance.PatternDistanceSquared | imgsmlr.c:464-477 | the loop of pattern_distance computes that weighted sum |
| Distance.PatternDistance | imgsmlr.c:458-481 | pattern_distance returns sqrt of that sum |
| Distance.SigDiffProps | imgsmlr.c:494-498 | the squared-difference sum of the first n components is non-negative, symmetric, and 0 for equal signatures |
| Distance.SignatureDistanceProps | imgsmlr.c:494-498 | the same for all 16 components |
| Distance.SignatureDistanceSquared | imgsmlr.c:491-498 | the loop of signature_distance computes the squared Euclidean distance |
| Distance.SignatureDistance | imgsmlr.c:487-502 | signature_distance returns sqrt of that sum |
| Shuffle.WindowBounds | imgsmlr.c:231-234 | the window rows [ii_min, ii_max) lie inside the block, contain row i, and lie within [i − w, i + w] (the same for columns) |
| Shuffle.CentreShare | imgsmlr.c:241-246 | the centre cell has weight r = 1 |
| Shuffle.RowShareProps | imgsmlr.c:239-247 | the weights of a row add up to at least 0, and to at least 1 when the row holds the centre |
| Shuffle.WindowShareProps | imgsmlr.c:237-248 | sum_r is at least 0, and at least 1 (so sum_r > 0) since the window holds the centre |
| Shuffle.RowMassNonNeg | imgsmlr.c:239-247 | the weighted squares of a row add up to at least 0 |
| Shuffle.WindowMassNonNeg | imgsmlr.c:237-249 | sum is never negative |
| Shuffle.RowMassLocal | imgsmlr.c:239-247 | a row sum reads only the src cells of that row segment |
| Shuffle.WindowMassLocal | imgsmlr.c:237-248 | the window sum reads only the src cells in the window |
| Shuffle.BlurredLocal | imgsmlr.c:231-251 | the new value of (i, j) depends only on the src cells of the block within distance w of (i, j) |
| Shuffle.ZeroRowMass | imgsmlr.c:239-247 | a zero row segment adds nothing to sum |
| Shuffle.ZeroWindowMass | imgsmlr.c:237-248 | a zero window gives sum = 0 |
| Shuffle.ZeroBlur | imgsmlr.c:237-251 | a block that is 0 stays 0 |
| Shuffle.CellTerms | imgsmlr.c:241-246 | one innermost step adds value² × r and r, where r is the clipped weight, or 0 and 0 when r ≤ 0 |
| Shuffle.AddRow | imgsmlr.c:239-247 | the jj loop adds the row's weighted squares to sum and its weights to sum_r |
| Shuffle.WindowSums | imgsmlr.c:231-248 | the ii/jj loops compute sum and sum_r over the clamped window |
| Shuffle.Shuffle | imgsmlr.c:222-254 | shuffle writes every cell of [x, x+sX) × [y, y+sY) with its blurred value, computed from the old src only, and changes no other dst cell |
| Shuffle.LevelCell | imgsmlr.c:273-279 | a cell of the ring of side h is blurred in its own quadrant with radius h/4 |
| Shuffle.CornerKept | imgsmlr.c:268-279 | the top-left 4×4 cells are never changed |
| Shuffle.FlatDetailsKept | imgsmlr.c:268-279 | a pattern that is 0 outside the top-left 4×4 square comes out unchanged |
| Shuffle.ShuffleLevel | imgsmlr.c:275-278 | one round blurs the three quadrants of side `size` with radius size/4 ≥ 1, keeps every other dst cell, and leaves src unchanged |
| Shuffle.ShufflePattern | imgsmlr.c:261-287 | the result starts as a copy of src; each cell outside the top-left 4×4 square is the blur of its quadrant of src; the cells inside keep src's value |
| Normalize.LowAfterProps | imgsmlr.c:529-540 | `min`, which starts at 1, ends at most 1, at most every value scanned, and equal to 1 or to one of them |
| Normalize.HighAfterProps | imgsmlr.c:529-540 | `max`, which starts at 0, ends at least 0, at least every value scanned, and equal to 0 or to one of them |
| Normalize.ExtremesAttained | imgsmlr.c:529-540 | for a pattern in [0, 1], `min` and `max` are its least and greatest cells |
| Normalize.LowestIs | imgsmlr.c:529-540 | for a pattern in [0, 1], a lower bound that some cell attains is `min` |
| Normalize.HighestIs | imgsmlr.c:529-540 | for a pattern in [0, 1], an upper bound that some cell attains is `max` |
| Normalize.Extremes | imgsmlr.c:529-540 | the first pair of loops computes `min` and `max` |
| Normalize.RescaledProps | imgsmlr.c:545 | (v − min)/(max − min) maps [min, max] into [0, 1], is monotone and strictly monotone, and sends min to 0 and max to 1 |
| Normalize.NormalizedAt | imgsmlr.c:541-547 | each cell of the result is the rescaled cell of the input |
| Normalize.NormalizePattern | imgsmlr.c:527-548 | the in-place rewrite leaves the pattern equal to the rescaled input |
| Normalize.NormalizedRange | imgsmlr.c:541-547 | the result lies in [0, 1] and keeps the order of the cells |
| Normalize.NormalizedSpan | imgsmlr.c:527-548 | for a pattern in [0, 1], the result has least cell 0 and greatest cell 1 |
| Normalize.NormalizedIdempotent | imgsmlr.c:527-548 | for a pattern in [0, 1], normalizing twice is the same as normalizing once |
| TextInput.TokenStartSkips | imgsmlr.c:299-319 | read_float passes over only ' ', '(', ')' and ',' and stops at the first other character |
| TextInput.Scan | imgsmlr.c:321-330 | a number read moves the cursor forward |
| TextInput.ScanFails | imgsmlr.c:310-328 | read_float fails exactly at the end of the string or when strtof consumes nothing |
| TextInput.ReadFloat | imgsmlr.c:293-331 | read_float returns the scanned number and cursor, or the syntax error |
| TextInput.ReadMany | imgsmlr.c:399-400 | n successful reads yield n values and move the cursor forward |
| TextInput.StoppedStays | imgsmlr.c:310-328 | once a read fails, reading more values fails too |
| TextInput.ReadManyPrefix | imgsmlr.c:399-400 | the first k of n values read are the k values read on their own: values come in order |
| TextInput.TokenStartSame | imgsmlr.c:299-319 | where a number starts depends only on the text up to that point |
| TextInput.ScanLocal | imgsmlr.c:299-330 | one read_float depends only on the separators, the character where they stop and the characters strtof examines: a text agreeing there gives the same number and cursor or the same error, and the number lies within that text |
| TextInput.TrailingTextIgnored | imgsmlr.c:399-400 | n reads never look past what their read_float calls examine: a text agreeing on that reads the same values or fails the same way |
| TextInput.ValuesIgnoreTrailing | imgsmlr.c:399-402 | anything appended after what the n reads examine leaves the input's result unchanged: trailing text is accepted |
| TextInput.Values | imgsmlr.c:399-400 | a successful input of n values has exactly n values |
| TextInput.SignatureIn | imgsmlr.c:390-403 | signature_in reads exactly 16 values from the start, in order, or raises the syntax error |
| TextInput.ReadNext | imgsmlr.c:347-348 | the inner loop of pattern_in reads the next n values, or reports the error that reading them all would raise |
| TextInput.StoreRow | imgsmlr.c:347-348 | a row of values goes to row i of the pattern, leaving the other rows unchanged |
| TextInput.PatternIn | imgsmlr.c:337-351 | pattern_in succeeds exactly when 4096 values can be read, and then cell (i, j) is value 64·i + j |
| Keys.PointKey | imgsmlr.h:37 | a one-signature key is a degenerate box, with lower and upper corner both equal to the point |
| Keys.AsBoxSame | imgsmlr_idx.c:104-114 | set_signature's box has the key's corners: a point becomes a degenerate box, a box is copied unchanged, and well-formedness is kept |
| Keys.SetSignature | imgsmlr_idx.c:104-114 | the buffer ends holding the key as a box |
| Keys.ExtendedAxes | imgsmlr_idx.c:124-132 | after extend_signature each lower corner is the Min and each upper corner the Max of the two |
| Keys.ExtendedBounds | imgsmlr_idx.c:116-133 | the grown box contains the old box and the key, is the least box that does, and is well-formed when either was |
| Keys.ExtendSignature | imgsmlr_idx.c:116-133 | the in-place update leaves the buffer equal to the grown box |
| Keys.UnionOf | imgsmlr_idx.c:147-152 | the union is a two-signature box |
| Keys.ExtremeCorners | imgsmlr_idx.c:147-152 | the folded lower corner on each axis is at most every key's and equals one of them, and likewise for the upper corner |
| Keys.UnionAxis | imgsmlr_idx.c:147-152 | the union's corners on each axis are the minimum of all lower corners and the maximum of all upper corners |
| Keys.UnionBounds | imgsmlr_idx.c:135-156 | the union contains every key, and each of its corners is some key's corner |
| Keys.UnionLeast | imgsmlr_idx.c:135-156 | any box that contains all the keys contains their union, and the union of well-formed keys is well-formed |
| Keys.UnionPrefix | imgsmlr_idx.c:147-152 | the union of the first n keys depends only on those keys |
| Keys.SameBox | imgsmlr_idx.c:135-156 | two boxes that contain each other are the same box, value for value |
| Keys.WholeCoversParts | imgsmlr_idx.c:135-156 | the union of two groups of keys taken together contains the union of each group |
| Keys.PartsCoverWhole | imgsmlr_idx.c:135-156 | the union of the two groups' unions contains the union of all their keys |
| Keys.UnionNested | imgsmlr_idx.c:135-156 | union is associative: uniting the boxes of two groups of keys gives exactly the union of all the keys, so a parent box can be rebuilt from its children's boxes |
| Keys.UnionSelf | imgsmlr_idx.c:135-156 | union is idempotent: uniting a group of keys with itself gives the same box |
| Keys.SignatureUnion | imgsmlr_idx.c:135-156 | signature_union returns a new box equal to the union of all entries, with size 2·64 + 4 bytes |
| Volumes.RangeBelow | imgsmlr_idx.c:220-229 | on an axis where the first box is well-formed, the clamped intersection range lies between 0 and the union range |
| Volumes.IntersectNonNeg | imgsmlr_idx.c:202-234 | the clamp of negative ranges to 0 makes the intersection volume never negative |
| Volumes.IntersectDisjoint | imgsmlr_idx.c:224-229 | boxes apart on one axis have intersection volume 0 |
| Volumes.VolumeMono | imgsmlr_idx.c:237-255 | a well-formed box inside another has a volume between 0 and the other's |
| Volumes.UnionIsExtended | imgsmlr_idx.c:202-234 | the union volume of union_intersect_size is key_size of the box that extend_signature would build |
| Volumes.IntersectBelowUnion | imgsmlr_idx.c:202-234 | when the first box is well-formed, 0 ≤ intersection volume ≤ union volume |
| Volumes.UnionIntersectSize | imgsmlr_idx.c:202-234 | the loop computes the product of the union ranges and the product of the clamped intersection ranges |
| Volumes.KeySize | imgsmlr_idx.c:237-255 | key_size computes the product of the ranges (upper − lower) over the 16 axes |
| Volumes.PenaltyProps | imgsmlr_idx.c:183-199 | the penalty is ≥ 0 when the original box is well-formed, and 0 when it already contains the new key |
| Volumes.SignaturePenalty | imgsmlr_idx.c:183-199 | signature_penalty returns the union volume minus the original volume |
| GistDistance.AxisInside | imgsmlr_idx.c:449-455 | an axis on which the query lies within the box adds nothing |
| GistDistance.AxisBelowPoint | imgsmlr_idx.c:449-455 | what an axis adds is at most the squared difference from the query to any value of the box on that axis |
| GistDistance.AxisPoint | imgsmlr_idx.c:449-455 | for a point key, an axis adds the squared difference from the query to the point |
| GistDistance.GapInside | imgsmlr_idx.c:448-456 | the sum is 0 for a query inside the box |
| GistDistance.GapBelowPoint | imgsmlr_idx.c:448-456 | the sum is non-negative and at most the squared Euclidean distance from the query to any signature in the box |
| GistDistance.GapPoint | imgsmlr_idx.c:448-456 | for a point key the sum is the squared signature distance |
| GistDistance.BoxDistanceProps | imgsmlr_idx.c:434-459 | the squared distance is 0 inside the box, a lower bound of the signature distance to every signature in the box (admissible), and equal to the signature distance for a point key |
| GistDistance.GistDistanceSquared | imgsmlr_idx.c:441-456 | the loop computes the sum of squared gaps below the lower and above the upper corner |
| GistDistance.SignatureGistDistance | imgsmlr_idx.c:434-459 | signature_gist_distance returns sqrt of that sum |
| PickSplit.FirstWidestUnique | imgsmlr_idx.c:313-319 | because ties go to the earlier pair, at most one pair of seeds meets the seed specification |
| PickSplit.BestStep | imgsmlr_idx.c:313-319 | one comparison keeps the best pair seen so far, with the earliest of equal wastes |
| PickSplit.BestRow | imgsmlr_idx.c:295-320 | the pairs of row i, once all compared, are those before row i + 1 |
| PickSplit.PickSeeds | imgsmlr_idx.c:292-320 | the seed loops return the first pair i < j in scan order with the largest union − intersection |
| PickSplit.ChosenProps | imgsmlr_idx.c:363-404 | the scan selects an entry exactly when one is undistributed; the selected entry is undistributed, max_delta is its delta, and no undistributed entry has a larger abs(delta) |
| PickSplit.SelectNext | imgsmlr_idx.c:363-404 | the inner loop returns the entry and max_delta of that scan, with abs(delta) compared first, then direction, and the first entry taken when nothing is chosen yet |
| PickSplit.UndistributedNone | imgsmlr_idx.c:347 | the count of undistributed entries is between 0 and maxoff, 0 exactly when all are distributed, and maxoff when none is |
| PickSplit.UndistributedStep | imgsmlr_idx.c:422-423 | marking one undistributed entry lowers the count by one |
| PickSplit.SideBoxStep | imgsmlr_idx.c:410-420 | placing an entry on a side extends that side's box with the entry |
| PickSplit.SideBoxContains | imgsmlr_idx.c:410-420 | a side's box contains every entry on that side |
| PickSplit.SplitCovers | imgsmlr_idx.c:361-425 | after the split every entry is on exactly one side, and that side's box contains it |
| PickSplit.Adjoin | imgsmlr_idx.c:410-422 | appending an undistributed entry to one list keeps the lists apart and `distributed` in step with them |
| PickSplit.ProgressStart | imgsmlr_idx.c:328-347 | after the seeds are placed, the lists `[seed_1]` and `[seed_2]` meet the loop invariant, with maxoff − 2 entries left |
| PickSplit.SelectionValid | imgsmlr_idx.c:363-405 | while entries are left, the selected offset is valid and undistributed |
| PickSplit.PlaceLeft | imgsmlr_idx.c:408-414 | placing the entry on the left keeps the loop invariant, with one entry fewer left |
| PickSplit.PlaceRight | imgsmlr_idx.c:415-421 | placing the entry on the right keeps the loop invariant, with one entry fewer left |
| PickSplit.ProgressDone | imgsmlr_idx.c:361-424 | when no entry is left, the two lists partition 1..maxoff |
| PickSplit.ChosenRange | imgsmlr_idx.c:363-404 | the offset the scan selects always indexes the entry vector, InvalidOffsetNumber included |
| PickSplit.RoundsStep | imgsmlr_idx.c:363-423 | one round of the loop (select, place on the side GoesLeft picks, mark) takes the specification `Rounds` of the whole distribution one step, and the selected entry is valid and undistributed |
| PickSplit.RoundsPartition | imgsmlr_idx.c:361-424 | from any state of the loop, the lists `Rounds` ends with partition 1..maxoff, keep the seeds at their heads and are non-empty |
| PickSplit.NoneDistributed | imgsmlr_idx.c:288 | palloc0 gives a new all-false `distributed` array |
| PickSplit.SeedBox | imgsmlr_idx.c:328-338 | a new box buffer holds the seed as a box, and size_l / size_r is its volume |
| PickSplit.Place | imgsmlr_idx.c:410-413 | the entry is appended to the list and the side's box grows to cover it, with its new volume |
| PickSplit.ToLeft | imgsmlr_idx.c:408-422 | the left branch appends the entry to the left list, grows datum_l, marks the entry distributed and keeps the invariant |
| PickSplit.ToRight | imgsmlr_idx.c:415-422 | the right branch does the same on the right |
| PickSplit.Distribute | imgsmlr_idx.c:363-423 | one round distributes exactly the selected undistributed entry, on the left iff max_delta < 0 or (max_delta = 0 and nleft < nright), and keeps the invariant |
| PickSplit.MarkSeeds | imgsmlr_idx.c:340-346 | seed_1 heads the left list, seed_2 heads the right list, and both are marked distributed |
| PickSplit.DistributeAll | imgsmlr_idx.c:361-424 | the distribution loop runs until no entry is left, keeping the invariant, and ends with exactly the lists `Rounds` gives from the seed lists: every round places the entry the scan selects on the side the max_delta rule picks |
| PickSplit.Sentinels | imgsmlr_idx.c:425 | FirstOffsetNumber is written after the last entry of each list, and the entries are kept |
| PickSplit.SignaturePicksplit | imgsmlr_idx.c:258-431 | the two lists are non-empty, together hold maxoff entries, partition 1..maxoff, start with the seeds and end with the sentinel; they are exactly the lists `Rounds` gives from the seeds, so which entry goes to which side is determined; each box is the union of its side's entries |

## Left out

- Image decoding, resampling and the pixel reads of `makePattern` (`image2pattern`, `jpeg2pattern`, `png2pattern`, `gif2pattern`) are GD library calls. They are not part of this model.
- Float rounding: `float` and `double` are modelled as exact reals.
- `sqrt` is a parameter `sqrt: real -> real`. Where a property needs more, the requires say `sqrt(0.0) == 0.0` (shuffle) or that it is non-negative (`Signature.SignatureNonNeg`).
- `strtof` is a parameter: given the text and a position, it returns the value and the number of characters used. A second parameter, `examined`, gives how many characters it looks at from there. This can be more than it consumes: `"16e+)"` consumes 2 characters and examines 5, and `0x`, `inf`/`infinity` and `nan(` forms look further ahead. `TextInput.ScanLocal`, `TextInput.TrailingTextIgnored` and `TextInput.ValuesIgnoreTrailing` assume only that `strtof` examines at least what it consumes and decides from the characters it examines (`ExaminesOnly`). The exact lookahead of the C library is not modelled.
- `pattern_out` and `signature_out` (`%f` formatting) are not modelled, and no text round-trip is claimed.
- The `ereport(ERROR, …)` of `read_float` is modelled as the `InvalidSyntax` result. Nothing models the message text or the transaction abort.
- PostgreSQL and GiST plumbing is not modelled: palloc and varlena headers (except the byte size of the union), detoasting, `signature_compress`, `signature_decompress` and `signature_consistent`, which only returns true with recheck.
- `signature_same` is not modelled. Its equal-size branch calls `memcpy` where a comparison is evidently meant.
- The DEBUG_INFO dumps (file I/O) are not modelled.
- Normalize.NormalizePattern: requires max > min, because the C code divides by max − min. `Normalize.ExtremesAttained`, `Normalize.NormalizedSpan` and `Normalize.NormalizedIdempotent` also assume inputs in [0, 1], because `min` starts at 1 and `max` at 0.
- Signature.RowSummProps: states "≥ 0" and "all-zero row ⇒ 0" but not the converse (sum 0 ⇒ row all zero).
- Signature.RectSummProps: states "≥ 0" and "all-zero block ⇒ 0" but not the converse (sum 0 ⇒ block all zero).
- PickSplit.SignaturePicksplit: requires at least two entries to split (an entry vector of length ≥ 3). The C code does not check this.
- PickSplit.SignaturePicksplit: does not claim that the lists are in index order. The comment at imgsmlr_idx.c:350-358 says they are, but selecting by largest abs(delta) does not keep that order.
- PickSplit.SignaturePicksplit: offsets are unbounded integers, not the 16-bit `OffsetNumber`.
- PickSplit.SignaturePicksplit: the output lists are returned as arrays, not written into the fields of a `GIST_SPLITVEC`.
- TextInput.PatternIn: fills the pattern one row at a time from values read in order. The C code stores each value as it is read. On failure the C code raises an error and the partly filled pattern is discarded; the model returns `ok = false`.
- Shuffle.ZeroBlur: covers zero blocks only, as does `Shuffle.FlatDetailsKept`. No general smoothing property is stated for non-zero blocks beyond locality and the weight bounds.
