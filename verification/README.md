# Verified models of darktable's core algorithms

darktable is a photo workflow application and raw developer. This project models the parts of its C
core whose correctness is hardest to see from the code, and proves what they are for:

* **The bilateral grid** (`Bilateral*.dfy`). An image is splatted into a small 3-D grid by several
  threads, each into its own slice of rows of one buffer; the slices are then merged downwards in place
  over the same buffer, and the grid is blurred along its three axes, again in place. Proved: sliced
  splat and overlapping merge leave exactly what one sequential splat would, no slice touches another
  slice's rows, every pixel ends up with mass 100 / sigma_s^2 at its own place, and the blurs are the separable composition of their stencils; for
  grids with a short axis, which cells the blurs address instead and when those are outside.
* **The LRU cache** (`Cache*.dfy`). A hash table, an LRU list, a running cost and per-entry locks, used
  concurrently under one mutex. Each region that holds the mutex is one atomic step of a transition
  system; lock releases and demotions happen between the steps. Proved over every interleaving: the
  structures agree, costs add up, lookups succeed exactly as the locks counted from outside allow, entries
  stay while anything is outstanding on them, garbage collection
  evicts exactly the oldest free entries it needs to, and every run is a run of an abstract timestamped map.
* **The box filters** (`Bits.dfy`, `Box*.dfy`). Sliding mean, maximum and minimum with a ring buffer and
  in-place output against the naive window definitions, in two dimensions.
* **Collections** (`CustomOrder.dfy`, `WhereClause.dfy`, `Serializer.dfy`, `PrintBuffer.dfy`,
  `CollectionConf.dfy`, `History.dfy`). Sparse 64-bit
  positions that implement list splices, the compiler from rules to a WHERE text, the text form of a
  collection, and the move-to-front history.
* **The calculator** (`Calculator.dfy`): a recursive-descent evaluator over a token stream.
* **HSL** (`Hsl.dfy`), **custom primaries** (`Primaries.dfy`) and **colour labels with undo**
  (`ColorLabels.dfy`, `LabelUndo.dfy`).

Floating-point arithmetic is modelled by exact reals; C integers are mathematical integers, with their
widths written out where the behaviour depends on them (32-bit buckets of positions, 8-bit label masks,
bit masks of ring buffers). Code that updates buffers, tables or parser state in place is modelled by
methods over arrays and classes, each proved against a specification function or predicate; the main
laws are lemmas about those specifications. `dafny verify dfyconfig.toml` checks the whole project.

Some properties one would expect do not hold of the code for all inputs. They are stated here with the
exact condition under which they do hold:

* The merge of the bilateral grid stays inside its buffer if and only if the image has more than one
  pixel or there are at most four slices (`BilateralGeometry.MergeStaysInBuffer`): for a single pixel the
  effective sigma is 1/4, and with five or more threads the destination rows run past the buffer.
* The line blurs treat every line as at least four samples long, so they filter their own line if and
  only if its length is at least 4 (`BilateralBlur.FiltersOwnLineIff`), and on a shorter axis every
  following line starts later. The three passes stay inside the buffer if and only if
  `BilateralPasses.BlurFits` holds (`BilateralPasses.BlurStaysInBuffer`); the grid of a 100 x 1 image has
  only two rows and does not satisfy it (`BilateralPasses.ElongatedImageOverruns`).
* The ring mask of the vertical max and min passes is taken from a height that was clipped to the image.
  The result is the box extremum for all images if and only if the clipped height is a power of two, the
  image is at most radius + 1 rows high, or it has exactly three rows (`BoxExtremum2D.BoxExact`).
* Moving images before a target in the custom order is the list splice if and only if the bucket of the
  target has room (`CustomOrder.MoveExact`); otherwise positions collide or pass each other.
* A collection saved into a buffer is restored unchanged, with every print inside, if and only if its
  strings have no `$` and at most 399 characters and its text is no longer than the buffer; the last `$`
  may be cut off. The one exception is the default rule, which loading also falls back to and which
  survives any buffer of at least six bytes (`PrintBuffer.RoundTripExact`). Callers pass 4096 bytes: ten
  ordinary rules always fit, eleven can be cut short and twelve can be printed past the buffer.
* RGB and HSL are inverse exactly where the 2^-16 guard of the saturation's denominator is inactive
  (`Hsl.RgbRoundTrip`, `Hsl.HslRoundTrip`).
* Undoing a label toggle restores the labels of any list if and only if some image of it is invalid or
  lacked the label or every image is listed an odd number of times (`ColorLabels.UndoToggleExact`).

Where code and comments disagree the code is followed. `src/common/box_filters.cc:324-331` computes a
power of two larger than the window and then clips it, which is why the ring of the extremum passes can
be too short; the mean filter computes its own unclipped mask (lines 242-244) and is not affected.

## Model

| member | source | states |
|---|---|---|
| `BilateralGeometry.GridSizeBounds` | src/common/bilateral.c:41-81 | for every image, sigmas and thread count the grid is well formed, with 2..3001 points along x and y and 5..51 along z |
| `BilateralGeometry.SpatialResolution` | src/common/bilateral.c:41-72 | each spatial axis has at most extent / sigma_s steps, rounded and kept within 4..3000, with sigma_s at least 1/2; one axis has exactly those and gives the common sigma |
| `BilateralGeometry.RangeResolution` | src/common/bilateral.c:41-81 | the lightness axis has 100 / sigma_r steps, rounded and kept within 4..50, and they make up the range of 100 |
| `BilateralGeometry.SigmaAtLeastHalf` | src/common/bilateral.c:41-81 | the effective spatial sigma is at least 1/2 exactly for images with more than one pixel; a single pixel gets sigma 1/4 |
| `BilateralGeometry.HatAtGridPoint` | src/common/bilateral.c:130-155 | clamping, floor and fraction of a coordinate are the values of the tent function at every grid point |
| `BilateralGeometry.SliceKeepsToItsRows` | src/common/bilateral.c:168-208 | every image row of a slice lands, with its upper neighbour row, inside the sliceRows rows reserved for that slice |
| `BilateralGeometry.SliceMovesUp` | src/common/bilateral.c:238-259 | for sigma >= 1/2 the destination of every slice after the first lies strictly above its source |
| `BilateralGeometry.MergeLayout` | src/common/bilateral.c:238-259 | destinations are never below sources, and coincide only for slices that hold nothing |
| `BilateralGeometry.MergeStaysInBuffer` | src/common/bilateral.c:157-182 | the merge touches only rows of the buffer if and only if the image has more than one pixel or at most four slices are used |
| `BilateralGeometry.OnePixelOverrun` | src/common/bilateral.c:238-259 | a single pixel with five or more slices makes the merge leave the buffer |
| `BilateralSplat.Deposit` | src/common/bilateral.c:218-235 | the four pairwise updates add to every cell exactly the weights of the corners that address it |
| `BilateralSplat.PayloadAsWritten` | src/common/bilateral.c:210-235 | the kernel of the reference splat is the product of the contributions as the code computes it, 100 / sigma_s^2 per pixel |
| `BilateralSplat.ShareIsTent` | src/common/bilateral.c:130-155 | the eight corner weights, seen from any cell of the buffer, are the three-dimensional tent of the pixel |
| `BilateralSplat.SplatPixel` | src/common/bilateral.c:209-235 | one pixel adds its tent to the buffer and every corner index is in range |
| `BilateralSplat.SplatImageRow` | src/common/bilateral.c:205-235 | one image row adds the sum of the tents of its pixels |
| `BilateralSplat.SplatSlice` | src/common/bilateral.c:199-236 | a thread adds exactly its slice's sum, shifted to its own rows, and changes nothing else |
| `BilateralSplat.SliceIsConfined` | src/common/bilateral.c:199-236 | a slice contributes nothing outside its own rows, so the parallel slices are free of races |
| `BilateralSplat.SplatSlices` | src/common/bilateral.c:199-236 | after the slices have run, in any order, every slice's rows hold that slice's sum |
| `BilateralSplat.NothingMergedYet` | src/common/bilateral.c:238-259 | no row that is about to be read or cleared has received merged data |
| `BilateralSplat.MergeRow` | src/common/bilateral.c:244-258 | the destination row becomes the sum of both rows, the source row is cleared or kept, all other rows stay |
| `BilateralSplat.MergeStep` | src/common/bilateral.c:238-259 | one merged row leads from the state before it to the state after it, and keeps all unread source rows |
| `BilateralSplat.MergeOneRow` | src/common/bilateral.c:244-258 | one iteration of the row loop, with its clear condition, keeps the merge invariant |
| `BilateralSplat.MergeSlice` | src/common/bilateral.c:238-259 | merging one slice adds its rows to the rows finished so far |
| `BilateralSplat.Merge` | src/common/bilateral.c:238-259 | the overlapping in-place merge leaves in every grid row the sum of all image rows |
| `BilateralGrid.Grid.constructor` | src/common/bilateral.c:157-182 | a fresh zeroed buffer with the geometry of the image |
| `BilateralFormula.DirectIsFormula` | src/common/bilateral.c:184-236 | the direct splat in closed form: pixel (j, i) has mass 100 / sigma_s^2, shared out by max(0, 1 - distance) around i / sigma_s, j / sigma_s and in[4 * (j * width + i)] / sigma_r, each kept within the grid |
| `BilateralGrid.Grid.Splat` | src/common/bilateral.c:184-260 | for every image and thread count, sliced splat and merge leave in the grid rows exactly what one sequential splat would, which is that closed form |
| `BilateralMass.HatsSumToOne` | src/common/bilateral.c:130-155 | the weights of a coordinate over all grid points of an axis sum to one |
| `BilateralMass.MassIsConserved` | src/common/bilateral.c:184-260 | the total of the direct splat is width * height * 100 / sigma_s^2 whatever the image |
| `BilateralMass.SplatMass` | src/common/bilateral.c:184-260 | and so is the total of the grid rows of the buffer that the sliced splat leaves |
| `BilateralMoments.HatCentre` | src/common/bilateral.c:130-155 | the weights of a coordinate have that coordinate as their centre |
| `BilateralMoments.SplatMoments` | src/common/bilateral.c:184-260 | after the splat the sums of value, x * value, y * value, z * value and every product of these coordinates times value are those of the image, every pixel of mass 100 / sigma_s^2 counted at its own clamped column, row and lightness |
| `BilateralBlur.Stencils` | src/common/bilateral.c:262-305 | the taps are (1, 4, 6, 4, 1) / 16 and (-2, -4, 0, 4, 2) / 16 |
| `BilateralBlur.UnitSample` | src/common/bilateral.c:262-337 | a unit sample spreads as 1, 4, 6, 4, 1 over 16 under the smoothing filter and as 2, 4, 0, -4, -2 over 16 under the slope filter |
| `BilateralBlur.ConstantLine` | src/common/bilateral.c:262-337 | away from the ends a constant is kept by the one and becomes 0 under the other |
| `BilateralBlur.RampLine` | src/common/bilateral.c:262-337 | a unit ramp is kept by the one and has slope 1 under the other |
| `BilateralBlur.Update` | src/common/bilateral.c:262-337 | one store of the line loop replaces one sample by its filtered value and keeps the samples ahead |
| `BilateralBlur.BlurLine` | src/common/bilateral.c:262-337 | in place and for every stride, a line becomes its zero-padded five-tap convolution, each cell written once; the line is taken to have at least four samples |
| `BilateralBlur.FiltersOwnLineIff` | src/common/bilateral.c:299-337 | one line: the blur depends on the line's own samples only, for all lines, if and only if it has at least four |
| `BilateralBlur.ShortAxisHappens` | src/common/bilateral.c:41-81 | a 100 x 1 image gets a grid axis of two points |
| `BilateralBlur.BlurLines` | src/common/bilateral.c:262-337 | a whole pass for every size and all strides that address it injectively: each line of max(size, 4) samples is filtered once and nothing else changes; a line shorter than four pushes the start of the next one on by what it overshot |
| `BilateralBlur.LinesPass` | src/common/bilateral.c:262-337 | a pass is the five-tap stencil along the lines of the zero-padded field |
| `BilateralBlur.UnitSpreads` | src/common/bilateral.c:339-353 | a unit grid point becomes the product of the three weights around it, cut off at the border of the grid |
| `BilateralPasses.SeparateX` | src/common/bilateral.c:339-353 | the x pass addresses distinct cells: on a short axis those of a grid four points wide |
| `BilateralPasses.SeparateY` | src/common/bilateral.c:339-353 | the y pass addresses distinct cells: on a short axis every column starts further down than the one before |
| `BilateralPasses.XInsideIff` | src/common/bilateral.c:346-348 | the indices of the x pass are cells of the buffer if and only if size_y * max(size_x, 4) <= rows * size_x |
| `BilateralPasses.YInsideIff` | src/common/bilateral.c:349-350 | the indices of the y pass are cells of the buffer if and only if every row its columns slide to is a row of the buffer |
| `BilateralPasses.BlurStaysInBuffer` | src/common/bilateral.c:339-353 | all three passes address only cells of the buffer if and only if the widened grid and the last sliding column fit |
| `BilateralPasses.RegularGridFits` | src/common/bilateral.c:339-353 | which always holds with at least four points along x and y, and then nothing is widened and nothing slides |
| `BilateralPasses.ElongatedImageOverruns` | src/common/bilateral.c:339-353 | the grid of a 100 x 1 image on one thread does not satisfy it |
| `BilateralPasses.RegularChain` | src/common/bilateral.c:339-353 | on a regular grid the three passes are the composition of the smoothing stencil along x and y and the derivative stencil along z |
| `BilateralPasses.Blur` | src/common/bilateral.c:339-353 | on every grid that it stays inside of, the blur is its three passes over the cells described; on a regular grid the separable composition of the stencils, so a single unit becomes the product of 1, 4, 6, 4, 1 over 16 along x and y and 2, 4, 0, -4, -2 over 16 along z |
| `CacheModel.EmptyInv` | src/common/cache.c:30-42 | a new cache satisfies the invariant |
| `CacheModel.StepKeepsInv` | src/common/cache.c:78-370 | every atomic step keeps it: table and list hold the same entries once, each under its key, cost is the sum of the entry costs, no writer shares an entry, the list is in order of last use |
| `CacheModel.RunKeepsInv` | src/common/cache.c:78-370 | so it holds in every state of every interleaving of get, testget, remove, gc, release and demotion |
| `CacheModel.PinnedSurvives` | src/common/cache.c:231-334 | no step removes a locked or demoting entry |
| `CacheModel.PinnedNeverLost` | src/common/cache.c:231-334 | over every run, an entry that stays pinned stays in the table under its key |
| `CacheLedger.RunAgrees` | src/common/cache.c:78-370 | counting from outside, one lock for every successful lookup and one less for every release, gives the readers and the writer of every entry after every run |
| `CacheLedger.OutstandingStays` | src/common/cache.c:231-334 | in every run an entry stays under its key while a lock or a demotion is outstanding on it, and a write lock excludes all others |
| `CacheLedger.LookupsSucceed` | src/common/cache.c:78-172 | in every run a read lookup of a present entry succeeds exactly if no write lock is outstanding, and a write lookup exactly if no lock is |
| `CacheLedger.RemovalSucceeds` | src/common/cache.c:231-286 | in every run an entry is removed exactly if nothing is outstanding on it |
| `CacheLedger.CollectionSpares` | src/common/cache.c:290-334 | in every run whatever gc drops had nothing outstanding on it |
| `CachePolicy.GcExact` | src/common/cache.c:290-334 | gc evicts exactly the free entries of a prefix of the list, keeps the order of the survivors, never evicts once the cost is below the limit, and stops short of it only at the end of the list |
| `CachePolicy.GcBound` | src/common/cache.c:290-334 | after gc the cost is below the limit or consists of pinned entries alone |
| `CachePolicy.MissBound` | src/common/cache.c:175-219 | after any miss the cost is at most the larger of 0.8 * quota and the pinned cost, plus the new entry |
| `CachePolicy.MissInserts` | src/common/cache.c:175-219 | a miss at no more than 0.8 * quota evicts nothing |
| `CachePolicy.MissCollects` | src/common/cache.c:175-219 | a miss above 0.8 * quota first evicts the free entries of a prefix of the list, no more than needed to get below it |
| `CachePolicy.LimitIs` | src/common/cache.c:290-297 | the threshold of gc is the given share of the quota |
| `CachePolicy.GcEvictsOldest` | src/common/cache.c:290-334 | an evicted entry was free and used before every free entry that stays |
| `CachePolicy.ListIsUseOrder` | src/common/cache.c:97-100 | the list of keys is the abstract map from keys to times of last use, sorted by time |
| `CacheAbstract.GcView` | src/common/cache.c:290-334 | the list walk of gc is: forget the oldest free key until the cost is below the limit or none is left |
| `CacheAbstract.StepRefines` | src/common/cache.c:78-370 | every step is a step of a machine that has only a map from keys to entries with times of last use: no table, list, order or addresses |
| `CacheAbstract.RunRefines` | src/common/cache.c:78-370 | and every run of the cache is the run of that machine on the same requests |
| `Cache.Cache.constructor` | src/common/cache.c:30-42 | a new cache object shows the empty state |
| `Cache.Cache.BubbleUp` | src/common/cache.c:97-100 | a hit locks the entry and moves it to the end of the list |
| `Cache.Cache.TestGet` | src/common/cache.c:78-120 | one attempt is one testget step: it succeeds exactly without a writer, and without readers if it asks to write, takes one lock, and otherwise changes nothing |
| `Cache.Cache.TryGet` | src/common/cache.c:125-229 | one attempt of get is one step: hit, retry on a failed lock, or miss with gc and insertion |
| `Cache.Cache.Allocate` | src/common/cache.c:184-219 | the second half of a miss inserts the entry locked, newest and with its cost |
| `Cache.Cache.TryRemove` | src/common/cache.c:231-286 | one attempt of remove is one step: missing, retry while locked or demoting, or removed |
| `Cache.Cache.Drop` | src/common/cache.c:262-286 | an entry leaves table, list and cost together |
| `Cache.Cache.Collect` | src/common/cache.c:290-334 | the list walk of gc is the gc step of the model |
| `Cache.Cache.Release` | src/common/cache.c:336-370 | a release gives back the write lock, or else exactly one read lock, and changes nothing else |
| `Cache.Unlink` | src/common/cache.c:290-334 | unlinking removes the entry's occurrence and keeps the order of the rest |
| `Bits.NearbyDiffer` | src/common/box_filters.cc:237-244 | under a full mask of k bits, indices less than 2^k apart have different slots |
| `Bits.MaskMerges` | src/common/box_filters.cc:444-474 | a mask of at least 4 that is not of the form 2^k - 1 sends two different indices, at most half the mask apart, to one slot |
| `BoxRing.RingSizeBounds` | src/common/box_filters.cc:324-331 | the unclipped ring is longer than the window and at most twice as long |
| `BoxRing.ComputeEffectiveHeight` | src/common/box_filters.cc:324-331 | the shifting loop computes that power of two, clipped to the height |
| `BoxRing.ComputeMask` | src/common/box_filters.cc:242-244 | the mean filter's loop computes the full unclipped mask |
| `BoxRing.FitsIsIntact` | src/common/box_filters.cc:405-474 | when the ring fits, every row of every window is still in its slot when it is needed |
| `BoxRing.RingLosesRow` | src/common/box_filters.cc:405-474 | when it does not fit, some window row is overwritten before some output that needs it |
| `BoxRing.IntactIff` | src/common/box_filters.cc:324-331 | no window row is ever lost if and only if the clipped height is a power of two, or height <= radius + 1, or height == 3 |
| `BoxRing.HeightSixRadiusThree` | src/common/box_filters.cc:405-474 | with height 6 and radius 3, row 1 is gone when row 4 is output |
| `BoxExtremum.ScanWindow` | src/common/box_filters.cc:372-378 | the scan returns the extremum of the window |
| `BoxExtremum.WorstIs` | src/common/box_filters.cc:372-378 | scans start from the smallest and the largest single precision number |
| `BoxExtremum.Slide` | src/common/box_filters.cc:381-400 | dropping a sample, rescanning only if it was the extremum, and adding one keeps the extremum of the window |
| `BoxExtremum.BoxRow` | src/common/box_filters.cc:381-400 | the row pass writes, in place, the extremum of every clipped window |
| `BoxExtremum.Rescan` | src/common/box_filters.cc:405-440 | a rescan of the ring yields the extremum of what the slots of the window hold, per lane |
| `BoxExtremum.RescanMeaning` | src/common/box_filters.cc:405-440 | and that is the extremum of exactly the window rows whose slots are not overwritten |
| `BoxExtremum.ColumnStep` | src/common/box_filters.cc:405-440 | one row of the column pass keeps the state of ring, maxima and finished rows |
| `BoxExtremum.BoxColumns` | src/common/box_filters.cc:405-440 | for every mask, the in-place column pass outputs the extremum over the surviving window rows and touches no other column |
| `BoxExtremum2D.RowPass` | src/common/box_filters.cc:444-460 | all rows are filtered, each once |
| `BoxExtremum2D.ColumnGroup` | src/common/box_filters.cc:461-474 | one call on 16, 4 or 1 columns filters those columns and leaves the others |
| `BoxExtremum2D.ColumnPass` | src/common/box_filters.cc:461-474 | the 16/4/1 partition filters every column exactly once |
| `BoxExtremum2D.Compose` | src/common/box_filters.cc:444-474 | a column extremum of row extrema is the extremum of the box |
| `BoxExtremum2D.BoxFilter` | src/common/box_filters.cc:444-474 | in place and for all sizes, every pixel becomes the extremum over its columns and the window rows that survive in the ring; the direction covers max and min (lines 476-574 are the twins) |
| `BoxExtremum2D.OutputIsFunction` | src/common/box_filters.cc:444-474 | that result is a function of the image: no two outputs satisfy it |
| `BoxExtremum2D.FittingRingIsExact` | src/common/box_filters.cc:655-675 | with a fitting ring that is the extremum over the clipped (2w+1) x (2w+1) box |
| `BoxExtremum2D.BoxExact` | src/common/box_filters.cc:655-675 | it is the naive box extremum for all images if and only if the ring fits or the image is empty |
| `BoxMean.Accumulate` | src/common/box_filters.cc:48-102 | over exact reals the Kahan form and the plain form both add the same values, with compensation zero |
| `BoxMean.Enter` | src/common/box_filters.cc:233-294 | a row enters the sums and the ring, and no live row of the ring is lost |
| `BoxMean.Leave` | src/common/box_filters.cc:233-294 | the row that leaves is read from the ring with its original value |
| `BoxMean.Emit` | src/common/box_filters.cc:121-128 | the mean is stored over a row that is no longer needed from the buffer |
| `BoxMean.RunSweep` | src/common/box_filters.cc:233-294 | the five phases output the mean of every clipped window, including radii at or beyond the height |
| `BoxMean.BlurLanes` | src/common/box_filters.cc:177-294 | the same for any layout of lanes with enough distance between live ring slots, compensated or not |
| `BoxMean2D.MeanRing` | src/common/box_filters.cc:324-342 | all live slots of the mean ring are apart and inside the scratch space even when that is clipped to the height |
| `BoxMean2D.MeanGroup` | src/common/box_filters.cc:233-294 | one group of columns is averaged in place and the others stay |
| `BoxMean2D.BlurVertical` | src/common/box_filters.cc:296-320 | groups of 16, 4 and 1 average every column once |
| `BoxMean2D.MeanLine` | src/common/box_filters.cc:177-230 | one row of interleaved channels is averaged in place |
| `BoxMean2D.BlurHorizontal` | src/common/box_filters.cc:177-230 | every row becomes its row of window means |
| `BoxMean2D.Separable` | src/common/box_filters.cc:344-370 | a column mean of row means is the mean over the clipped rectangle |
| `BoxMean2D.MeanOnce` | src/common/box_filters.cc:344-370 | one iteration replaces every pixel by the mean over its clipped rectangle, per channel |
| `BoxMean2D.BoxMeanFilter` | src/common/box_filters.cc:576-601 | iterations of it are the iterated rectangle mean, for every size, radius and both summation forms |
| `CustomOrder.NoOverflowIsRoom` | src/common/collection.c:2939-2964 | if nothing in the target's 32-bit bucket is pushed out of it, there is room |
| `CustomOrder.MoveExact` | src/common/collection.c:2966-3098 | a move before a target yields the spliced order, selection contiguous and in order before the target and the others unchanged, if and only if there is room |
| `CustomOrder.MoveToEndOrders` | src/common/collection.c:3039-3098 | without a target the selection comes in order after everything, in fresh buckets |
| `CustomOrder.MoveRefines` | src/common/collection.c:2966-3098 | every allowed move on positions refines the splice on the list |
| `CustomOrder.MovesRefineSplices` | src/common/collection.c:2966-3098 | over any sequence of allowed moves the table stays the order of the spliced list and positions stay distinct |
| `CustomOrder.OverflowExample` | src/common/collection.c:2939-2964 | three images whose move overflows a bucket and gives two of them one position |
| `CustomOrder.Positions.Shift` | src/common/collection.c:2939-2964 | rows at or above the position, inside its bucket, move up by the length and no others |
| `CustomOrder.Positions.Place` | src/common/collection.c:3008-3036 | the selection gets consecutive positions from a start, in selection order |
| `CustomOrder.MovedPositions` | src/common/collection.c:2939-3036 | before a target: an unselected image moves up by the number of selected ones exactly if its position is not below the target's and has the same upper 32 bits, all others stay, and the selected ones take the freed positions |
| `CustomOrder.AppendedPositions` | src/common/collection.c:3039-3098 | without a target: the selected images get consecutive multiples of 2^32 above the largest position and all others stay |
| `CustomOrder.ReserveSuffices` | src/common/collection.c:2939-3036 | if no image of the target's 32-bit bucket is pushed out of it, the move is the splice |
| `CustomOrder.Positions.MoveBefore` | src/common/collection.c:2966-3098 | the table after the call, position by position with 32-bit buckets, for target, missing target and empty selection |
| `WhereClause.FoldIsRuns` | src/common/collection.c:2515-2554 | reading the rules left to right is the OR of maximal AND runs |
| `WhereClause.ListMeans` | src/common/collection.c:2515-2554 | the text of a rule list parses under SQL precedence to the OR of its AND runs, AND NOT negating its rule |
| `WhereClause.WhereMeans` | src/common/collection.c:457-499 | for every rule and filter list the WHERE text is well formed, parsed to its end, and means the rules and the filters together |
| `WhereClause.OffIsDeleted` | src/common/collection.c:2674-2692 | a switched-off filter leaves the text a deleted one would |
| `WhereClause.GetQueryPart` | src/common/collection.c:2515-2554 | a rule's part and the count of parts, for the off, empty, first and later cases |
| `WhereClause.QueryParts` | src/common/collection.c:2647-2692 | the rule loop produces the parts of the list, the first one without conjunction |
| `WhereClause.UpdateQuery` | src/common/collection.c:2640-2692 | the array of query parts holds those of 1 to 10 collect rules, never switched off, then those of up to 10 filters |
| `WhereClause.ExtendedWhere` | src/common/collection.c:457-499 | the text joins the two sections of that array, with the counts clamped as they were when it was filled |
| `WhereClause.WhereText` | src/common/collection.c:2640-2692 | from any configuration: the text means max(1, min(n, 10)) collect rules with their texts and modes and never switched off, and the first min(n, 10) filters as configured, under every valuation of their conditions |
| `Serializer.IntRoundTrip` | src/common/collection.c:2415-2446 | every printed integer scans back, whatever non-digit follows |
| `Serializer.RuleRoundTrip` | src/common/collection.c:2471-2512 | a printed rule with a plain string scans back and the skip lands behind it |
| `Serializer.RoundTrip` | src/common/collection.c:2415-2513 | the whole text of at least one rule gives back the rules (empty strings as "%") if and only if all strings have no '$' and at most 399 characters |
| `Serializer.SeparatorInString` | src/common/collection.c:2471-2512 | a string with '$' in it does not come back |
| `PrintBuffer.PutAllIs` | src/common/collection.c:2415-2446 | prints into a buffer of a given size keep the front of everything printed, and one goes outside exactly if the prints before the last are longer than the buffer |
| `PrintBuffer.StoredIs` | src/common/collection.c:2415-2446 | the same for the prints of a collection |
| `PrintBuffer.RoundTripExact` | src/common/collection.c:2415-2513 | for every buffer size: all prints stay inside and deserializing what is stored gives the same rules if and only if all strings are plain and the text, which may lose its last '$', fits the buffer, or the collection is the default rule and the buffer has six bytes |
| `PrintBuffer.ElevenRulesAreCut` | src/common/collection.c:3106-3108 | eleven rules with 399 characters each stay in the 4096 bytes that callers pass but come back cut |
| `PrintBuffer.TwelveRulesOverrun` | src/common/collection.c:3106-3108 | with twelve such rules a print goes outside |
| `PrintBuffer.TenRulesFit` | src/common/collection.c:3106-3108 | ten rules with plain strings and numbers below 1000 always come back through 4096 bytes |
| `Serializer.EmptyCollection` | src/common/collection.c:2453-2465 | no rule comes back as one rule of mode 0, item 0 and text "%" |
| `Serializer.NoNumber` | src/common/collection.c:2448-2465 | so does every text that does not start with a number |
| `Serializer.SpaceAndPlus` | src/common/collection.c:2448-2480 | white space and a plus sign in front of a number are skipped |
| `Serializer.PlainIs` | src/common/collection.c:2471-2480 | a plain string has no '$' and at most 399 characters |
| `Serializer.DecodedPlain` | src/common/collection.c:2471-2512 | whatever the text, only plain strings are ever loaded |
| `Serializer.TextIsStable` | src/common/collection.c:2415-2446 | serializing the restored rules gives the same text |
| `CollectionConf.ConfRoundTrip` | src/common/collection.c:2415-2513 | saving a configuration through a buffer and loading it over any other restores its rules under exactly that condition |
| `CollectionConf.Snprintf` | src/common/collection.c:2421-2444 | a print writes what fits with its terminator, nothing without room, and is outside once the room has become negative |
| `CollectionConf.Conf.Serialize` | src/common/collection.c:2415-2446 | the cells hold the front of the text as a C string; the prints stay inside and it decodes to the rules exactly under that condition |
| `CollectionConf.Conf.Deserialize` | src/common/collection.c:2448-2513 | any text, well formed or not, loads its longest scannable prefix or the default rule; later slots keep their values |
| `CollectionConf.Conf.Load` | src/common/collection.c:2466-2512 | the rule loop with its two failure branches |
| `History.Save` | src/common/collection.c:3100-3165 | in place, the slots become the current collection, then the others in order with their positions, then blanks; every other entry but the last is still there, and slots past the maximum stay |
| `History.SavedKeepsLast` | src/common/collection.c:3120-3161 | the last entry is kept too if the collection was in the history before |
| `History.SavedOnlyOld` | src/common/collection.c:3120-3161 | behind the front there are only old entries with their own positions, or blanks |
| `History.CompactSlots` | src/common/collection.c:3123-3146 | the first loop removes all equal entries and closes the gaps |
| `History.ShiftSlots` | src/common/collection.c:3148-3161 | the second loop moves every slot down by one and drops the last |
| `History.SavedTexts` | src/common/collection.c:3100-3165 | on the texts this is move-to-front with a bounded length |
| `History.HistoryIsRecent` | src/common/collection.c:3100-3165 | after any run of saves the history is the most recent distinct collections, latest first, up to the maximum |
| `History.SlotsAreRecent` | src/common/collection.c:3100-3165 | the same for any run of saves on the slots themselves, started from blank slots |
| `History.RecentByLastUse` | src/common/collection.c:3120-3161 | that list is ordered by last use without repetition |
| `History.RecentHolds` | src/common/collection.c:3120-3161 | and holds exactly the saved collections |
| `History.SaveTwice` | src/common/collection.c:3109-3116 | saving the same collection again changes nothing |
| `Calculator.PrimaryText` | src/common/calculator.c:304-330 | a parenthesised or atomic text is consumed exactly and gives its value |
| `Calculator.UnaryText` | src/common/calculator.c:278-302 | signs bind tighter than powers |
| `Calculator.PowersText` | src/common/calculator.c:255-276 | powers associate to the left |
| `Calculator.MultiplicativeText` | src/common/calculator.c:222-253 | products, quotients, remainders and ratios associate to the left and bind tighter than sums |
| `Calculator.AdditiveText` | src/common/calculator.c:194-220 | sums and differences associate to the left and consume exactly their tokens |
| `Calculator.SolveText` | src/common/calculator.c:334-399 | for every expression tree, solving its minimally parenthesised token list gives the tree's value |
| `Calculator.OperatorsMean` | src/common/calculator.c:194-302 | each operator of a tree is its operation of the number type, and a minus sign is a negation |
| `Calculator.WellFormedIs` | src/common/calculator.c:194-302 | trees over the seven binary operators and the two signs are the well formed ones |
| `Calculator.Parser.ParseAdditive` | src/common/calculator.c:194-220 | value and tokens left are those of the grammar function, and the recursion terminates on every token list |
| `Calculator.Parser.ParseMultiplicative` | src/common/calculator.c:222-253 | the same for products |
| `Calculator.Parser.ParsePower` | src/common/calculator.c:255-276 | the same for powers |
| `Calculator.Parser.ParseUnary` | src/common/calculator.c:278-302 | the same for signs |
| `Calculator.Parser.ParsePrimary` | src/common/calculator.c:304-330 | the same for numbers and parentheses, with NaN on anything else |
| `Calculator.SolveFormula` | src/common/calculator.c:334-399 | a leading `++` or `--` gives x + 1 or x - 1, tokens left over give NaN, anything else is the formula's value |
| `Hsl.ExtremesReturn` | src/common/colorspaces.h:284-344 | the largest channel comes back from saturation and lightness exactly where the guard is inactive |
| `Hsl.HueReturns` | src/common/colorspaces.h:284-344 | with both extremes, the hue gives back all three channels in every sextant |
| `Hsl.HueShows` | src/common/colorspaces.h:284-344 | channels made from a hue show that hue and both extremes again |
| `Hsl.RgbRoundTrip` | src/common/colorspaces.h:284-344 | for rgb in the unit cube, rgb to hsl and back is the identity if and only if the pixel is grey or the guard is inactive |
| `Hsl.GuardIs` | src/common/colorspaces.h:294-298 | the guard in numbers: denominators of saturation below 1/65536 are replaced by it, which is inactive exactly for lightness between 1/131072 and 1 - 1/131072 |
| `Hsl.DarkRedIsLost` | src/common/colorspaces.h:284-344 | the colour (2^-18, 0, 0) does not come back |
| `Hsl.HslRoundTrip` | src/common/colorspaces.h:284-344 | for h in [0,1), s in (0,1], l in (0,1), hsl to rgb and back is the identity if and only if the guard is inactive |
| `Hsl.Ranges` | src/common/colorspaces.h:284-344 | both conversions stay in the unit ranges, the hue below 1 |
| `Primaries.EdgeIsHit` | src/common/custom_primaries.c:22-39 | the determinant quotient is the distance at which the ray's side of the edge line becomes zero |
| `Primaries.FindDistanceToEdge` | src/common/custom_primaries.c:41-63 | the running minimum is the smallest of the three edge distances and the largest float |
| `Primaries.NoDirection` | src/common/custom_primaries.c:41-63 | without a direction the distance is the largest single precision number |
| `Primaries.StaysInside` | src/common/custom_primaries.c:65-81 | with the white point strictly inside, any direction and scaling in [0,1] stays inside the triangle |
| `Primaries.BoundaryAtFullScaling` | src/common/custom_primaries.c:65-81 | at scaling 1 the point is on the boundary if and only if an edge line ahead is in float range |
| `Primaries.UnitDirectionInRange` | src/common/custom_primaries.c:65-81 | which holds for every unit direction when the primaries' coordinates are at most a quarter of the largest float |
| `Primaries.UnrotatedStays` | src/common/custom_primaries.c:65-81 | without rotation and at scaling 1 a primary is mapped to itself |
| `Primaries.UnrotatedScaling` | src/common/custom_primaries.c:65-81 | without rotation scaling is proportional towards the white point |
| `Primaries.RotateAndScalePrimary` | src/common/custom_primaries.c:65-81 | the placed primary is inside, and on the boundary at scaling 1 exactly under that range condition |
| `ColorLabels.RunRow` | src/common/colorlabels.c:160-218 | on distinct images, the labels of a listed image after an action are the action's mask of its labels before |
| `ColorLabels.RunElsewhere` | src/common/colorlabels.c:160-218 | unlisted and invalid images keep their labels |
| `ColorLabels.SetLeaves` | src/common/colorlabels.c:160-239 | setting leaves on every listed valid image exactly the given ones of the five labels |
| `ColorLabels.AddLeaves` | src/common/colorlabels.c:160-239 | adding leaves the given ones and those it had |
| `ColorLabels.FiveClears` | src/common/colorlabels.c:241-254 | colour 5 removes all five labels of every listed valid image |
| `ColorLabels.UndoRestores` | src/common/colorlabels.c:64-99 | undoing an action on distinct images restores the table and redoing reproduces it |
| `ColorLabels.ToggleIs` | src/common/colorlabels.c:241-269 | a toggle removes the label from all listed images if all have it and otherwise puts it on all |
| `ColorLabels.ToggleThrice` | src/common/colorlabels.c:241-269 | a toggle leaves the label on all or on none, and three toggles are one |
| `ColorLabels.UndoSettled` | src/common/colorlabels.c:64-99 | set and add are undone even when images repeat |
| `ColorLabels.UndoToggleExact` | src/common/colorlabels.c:64-99 | for every list and colour, undoing a toggle or clear restores the table if and only if the colour is none of the five, some image is invalid or lacked the label, or every image is listed an odd number of times |
| `ColorLabels.RepeatedImageLosesLabel` | src/common/colorlabels.c:81-99 | an image listed twice loses its label when the toggle is undone |
| `LabelUndo.StepKeepsInv` | src/common/colorlabels.c:81-99 | set, toggle, undo and redo keep the undo and redo lists consistent with the table |
| `LabelUndo.SessionUndoes` | src/common/colorlabels.c:81-99 | in every session on distinct images, undoing everything recorded in LIFO order gives back the first table |
| `LabelUndo.FreshSessionUndoes` | src/common/colorlabels.c:81-99 | in particular from a table for which nothing has been recorded |
| `LabelUndo.UndosThenRedos` | src/common/colorlabels.c:81-99 | any number of undos followed by as many redos changes nothing |
| `LabelUndo.Labels.PopUndoExecute` | src/common/colorlabels.c:64-79 | the colour loop inserts what appears and deletes what vanishes, for valid images only |
| `LabelUndo.Labels.PopUndo` | src/common/colorlabels.c:81-99 | a group is replayed in list order, masks swapped for undo |
| `LabelUndo.Labels.Settle` | src/common/colorlabels.c:160-182 | a toggle becomes an addition as soon as one image lacks the label |
| `LabelUndo.Labels.ExecuteAction` | src/common/colorlabels.c:160-218 | the table and the recorded changes are those of the specified action |
| `LabelUndo.Labels.Assign` | src/common/colorlabels.c:220-239 | set or add with an undo record, or without one; an empty list records nothing |
| `LabelUndo.Labels.ToggleOnList` | src/common/colorlabels.c:241-269 | toggle, or clear for colour 5, with or without an undo record |
| `LabelUndo.Labels.Travel` | src/common/colorlabels.c:81-99 | one undo or redo takes the latest group of its list and puts it on the other list |

## Left out

- Floating-point rounding, SIMD, alignment, prefetching and timing messages: arithmetic is over exact reals, so the compensation of Kahan summation is shown to be harmless, not to be more accurate.
- GTK widgets, OpenCL host code and kernels, XMP files, signals and configuration storage: foreign state; tables and configuration keys are maps, sets and arrays here.
- `dt_bilateral_slice` and `dt_bilateral_slice_to_output`: reading the grid back would add interpolation formulas without a law of their own.
- `dt_box_mean_horizontal` and `dt_box_mean_vertical`: single passes of the modelled mean; the dispatch on channel counts is replaced by an arbitrary channel count.
- BilateralGrid.Grid.Splat: needs more than one pixel or at most four slices, which is the exact condition of MergeStaysInBuffer, and a zeroed buffer, since every caller splats once into a new grid; the number of threads is the one the grid was made for.
- BilateralSplat.SplatSlices: threads are interleaved slice by slice, in any order; SliceIsConfined is what makes finer interleavings equivalent.
- BilateralPasses.Blur: needs the exact condition under which the passes address only cells of the buffer; what they do to other memory is not modelled.
- CacheModel.StepKeepsInv: callbacks do not change an entry's cost after insertion, gc runs with the mutex held, and the retry loops of get and remove are repeated attempts.
- BoxExtremum2D.BoxFilter: pixel values lie within the finite floats, since the scans start from the largest finite float.
- CustomOrder.Positions.Shift: the source is one SQL UPDATE, so the method is one assignment of the whole table; that it refines a splice is MoveExact.
- CustomOrder.Positions.MoveBefore: positions are unbounded, so overflow of 64 bits is not modelled, and neither are the SQL statements that read the selection.
- WhereClause.ExtendedWhere: condition texts are opaque atoms; the form that excludes one rule is not modelled, because it can start a clause with a bare conjunction.
- WhereClause.UpdateQuery: the number of filters is not negative; a negative one would make the array too small.
- CollectionConf.Conf.Deserialize: scanned integers are unbounded, which matters only for texts that were not printed from C integers.
- CollectionConf.Conf.Serialize: what happens after a print has gone outside the buffer is not modelled, only when one does; strings of the configuration have no NUL characters, being C strings.
- History.Save: slots are an array that is long enough for the maximum; the serialized text is a parameter.
- Calculator.SolveFormula: works on tokens; the character scanner (which reads adjacent signs as `++` or `--`) and the number syntax of `g_ascii_strtod` are not modelled, and nothing is claimed about which ill-formed inputs give NaN, because `pow(1, NaN)` and the comparisons of max and min can hide it.
- Hsl.RgbRoundTrip: the fourth channel, which hsl2rgb sets to zero, is not modelled.
- Primaries.RotateAndScalePrimary: the direction is a parameter in place of atan2, cos and sin of the rotated angle.
- LabelUndo.StepKeepsInv: the undo engine is two lists and a new record empties the redo list; filters, groups of several records and actions without undo are not part of a session.
- Query text of single rules, date parsing, regular expressions, selection caching, import, export and image operations: no model.
