# Mega-CNA-Viewer core, modelled in Dafny

Mega-CNA-Viewer shows copy-number alterations (CNA) of a sequenced tumour sample. Every genomic position
has a B-allele frequency (BAF) and a depth ratio (DR). The viewer compares these with a *theoretical
distribution*: the (BAF, DR) pairs that every genotype (total copy number, minor-allele count) would
produce at a given purity and ploidy. This project models the computational core of the viewer:

- `cna_table.dfy` (module `TheoreticalDistribution`): the builder of the theoretical distribution
  (`CNATable`). It covers the BAF and DR formulas, the number of minor counts per copy number, and the
  nested loops that push onto four parallel lists. A zip/unzip pair converts between those lists and
  the row records `{BAF, DR, total, minor}` that the rest of the program reads.
- `matching.dfy` (module `Matching`): the `Matcher` and its expanding-threshold box search `findMatch`.
  It is written as a class with a `while` loop and an inner search loop, and is proved against a
  specification of "the pass that ends the loop".
- `annotation.dfy` (module `Annotation`): gene annotation. Records are objects, and their `geneName`
  field is written in place, chromosome group by chromosome group.
- `segment_table.dfy` (module `Segments`): the mean, median and standard-deviation helpers, and the
  `brushselected`/`brushEnd` handlers of the segment table.
- `chart_option.dfy` (module `ChartData`): the data of a chart option. This is the line length, the
  scatter pairs, and the de-duplicated, labelled BAF and DR reference lines.
- `cna_plot.dfy` (module `CnaPlotting`): the region query of the plot. It covers the `chrN[:start:end]`
  pattern, the split, the range check and the position filter, and a `CnaPlot` class that records the
  options it renders.
- `parser.dfy` (module `Parsing`): the form and CSV-row parsers of both front ends. They differ only in
  which NaN fields a row may have.
- `js_values.dfy` (module `JsValues`) and `sequences.dfy` (module `Sequences`): JavaScript numbers
  (a real or NaN), thrown errors as `Result`/`Outcome` values, and the sequence operations the program
  uses (`split`, `join`, `filter`, de-duplication through a `Set`, `String(n)` of a natural number).

JavaScript numbers are `real`s or `NaN`. `null`/`undefined` is `None`. A thrown exception is a
`Failure`/`Fail` value. `parseFloat`, `parseInt` and `Number(string)` are parameters of type
`string -> Num`.

## Model

| member | source | states |
|---|---|---|
| JsValues.Abs | observable/src/matching.js:36 | `Math.abs` of a real is non-negative and is the value or its negation |
| JsValues.Sub | src/cna_plot.js:54 | subtraction of JS numbers is NaN exactly when an operand is NaN, and otherwise inverts addition |
| Sequences.Map | src/chart_option.js:45-46 | `Array.prototype.map` keeps the length, and element i of the result is f applied to element i |
| Sequences.DistinctFrom | src/chart_option.js:45-46 | de-duplication after a set of seen values: no repeats, only unseen input elements, every unseen element kept (order: `DistinctFromSnoc`) |
| Sequences.Distinct | src/chart_option.js:45-46 | `[...new Set(s)]` has no repeats and holds exactly the elements of `s` (order: `DistinctSnoc`) |
| Sequences.DistinctFromSnoc | src/chart_option.js:45-46 | appending x to the input appends x to the result exactly when x was neither seen nor already in the input |
| Sequences.DistinctSnoc | src/chart_option.js:45-46 | `[...new Set(s + [x])]` is `[...new Set(s)]` followed by x when x is new: insertion (first-appearance) order |
| Sequences.DistinctHead | src/chart_option.js:45-46 | the first element of `[...new Set(s)]` is the first element of `s` (first-appearance order) |
| Sequences.DistinctOfRepeated | src/chart_option.js:45-46 | `[...new Set([x, x])]` is `[x]` |
| Sequences.DistinctOfTwo | src/chart_option.js:45-46 | `[...new Set([x, y])]` is `[x, y]` for different values |
| Sequences.DistinctFromMap | src/chart_option.js:45-46 | for an injective map, de-duplicating the images equals the images of the de-duplicated list (general seen set) |
| Sequences.DistinctMap | src/chart_option.js:45-46 | for an injective map, de-duplication commutes with the map |
| Sequences.Filter | src/cna_plot.js:21-26 | `Array.prototype.filter` keeps exactly the elements satisfying the predicate, never more than the input (order and copies: `FilterOrder`) |
| Sequences.FilterOrder | src/cna_plot.js:21-26 | the filtered list is a subsequence of the input (same order), and holds every copy of each element that passes and no copy of one that fails |
| Sequences.FilterSubsequence | src/cna_plot.js:21-26 | the filtered list is a subsequence of the input |
| Sequences.FilterCount | src/cna_plot.js:21-26 | the filtered list holds no more copies of any element than the input |
| Sequences.FilterCountOf | src/cna_plot.js:21-26 | an element that passes keeps all its copies, one that fails keeps none |
| Sequences.Split | src/cna_plot.js:52 | `String.prototype.split` with one character gives at least one part, none containing the separator |
| Sequences.Join | src/chart_option.js:32 | `parts.join(sep)` on a one-character separator; `JoinSplit` and `SplitJoin` state it is the inverse of `split` |
| Sequences.JoinSplit | src/chart_option.js:32 | joining the parts of a split with the same separator restores the string |
| Sequences.SplitWithoutSeparator | src/cna_plot.js:52 | a string without the separator splits into itself alone |
| Sequences.SplitAfterPart | src/cna_plot.js:52 | a leading part without the separator is split off as the first part |
| Sequences.SplitJoin | src/chart_option.js:32 | splitting a `join` of separator-free parts recovers the parts |
| Sequences.NatToString | src/chart_option.js:32 | the decimal text of a natural number is a non-empty digit string with that value and no leading zero |
| Sequences.NatToStringInjective | src/chart_option.js:32 | different numbers have different decimal texts |
| TheoreticalDistribution.MaxB | src/cna_table.js:51-53 | `#get_max_b_num(t)` is the least m >= 1 with t < 2m, so minor counts 0..m-1 are those with 2*minor <= t (0→1, 1→1, 2→2, 3→2, 4→3) |
| TheoreticalDistribution.Baf | src/cna_table.js:24-29 | the BAF formula (minor*p + 1 - p) / (total*p + 2(1 - p)); bounds and injectivity are `BafBounds` and `BafInjective` |
| TheoreticalDistribution.DepthRatio | src/cna_table.js:38-43 | the DR formula ((1 - p) + (total/2)p) / ((ploidy/2)p + 1 - p), a function of the total only; see `DepthRatioIncreasing` |
| TheoreticalDistribution.Group | src/cna_table.js:66-73 | the points of one copy number: `maxB(cn)` points, minor count m at index m, total cn, and BAF and DR given by the formulas |
| TheoreticalDistribution.Distribution | src/cna_table.js:62-76 | the rows of the table: the groups of the copy numbers, concatenated in `copies` order; see `DistributionLength`, `DistributionAt`, `DistributionEntry` |
| TheoreticalDistribution.Unzip | src/cna_table.js:63 | the four parallel lists of a row list have equal length and hold the rows' fields, index by index |
| TheoreticalDistribution.Zip | src/cna_table.js:63 | the row records read from four parallel lists keep length and order |
| TheoreticalDistribution.ZipUnzip | src/cna_table.js:63 | zipping the unzipped rows gives the rows back |
| TheoreticalDistribution.UnzipZip | src/cna_table.js:63 | unzipping the zipped lists gives the lists back |
| TheoreticalDistribution.UnzipSnoc | src/cna_table.js:69-72 | appending one row pushes one value onto each of the four lists |
| TheoreticalDistribution.DistributionSnoc | src/cna_table.js:65-74 | one more copy number appends exactly its group |
| TheoreticalDistribution.BuildCnTable | src/cna_table.js:62-77 | the nested push loops produce four parallel lists equal to the unzipped distribution |
| TheoreticalDistribution.DistributionLength | src/cna_table.js:62-76 | the table has one entry per (copy number, minor count) pair, i.e. the sum of `maxB(cn)`, duplicates in `copies` included |
| TheoreticalDistribution.DistributionAt | src/cna_table.js:65-73 | entries are grouped in `copies` order: entry `SumMaxB(copies[..k]) + m` is minor count m of `copies[k]` |
| TheoreticalDistribution.DistributionEntry | src/cna_table.js:65-73 | every entry's total is one of the copies, 2*minor <= total, and BAF and DR are the formulas of its total and minor count |
| TheoreticalDistribution.BafBounds | src/cna_table.js:24-29 | with 0 < purity <= 1 and 2*minor <= total, the BAF lies in [0, 1/2] |
| TheoreticalDistribution.DistributionBafBounds | src/cna_table.js:66-69 | every BAF of the table lies in [0, 1/2] when 0 < purity <= 1 |
| TheoreticalDistribution.DrDenominatorPositive | src/cna_table.js:39-41 | with 0 < purity <= 1 and ploidy > 0 the DR denominator is positive |
| TheoreticalDistribution.BafDenominatorZero | src/cna_table.js:25-27 | with 0 < purity <= 1 the BAF denominator vanishes exactly for total 0 at purity 1 |
| TheoreticalDistribution.DepthRatioAtPloidy | src/cna_table.js:38-43 | a total equal to the ploidy has DR 1 |
| TheoreticalDistribution.DepthRatioIncreasing | src/cna_table.js:38-43 | for a positive purity, DR increases strictly with the total |
| TheoreticalDistribution.DepthRatioInjective | src/cna_table.js:38-43 | for a positive purity, equal DRs mean equal totals |
| TheoreticalDistribution.BafInjective | src/cna_table.js:24-29 | for a positive purity, within one total, equal BAFs mean equal minor counts |
| TheoreticalDistribution.ZeroBafComesFirst | src/cna_table.js:24-29 | a BAF of 0 arises only at purity 1 with minor 0, and then the first entry has BAF 0 too |
| TheoreticalDistribution.DiploidExample | src/cna_table.js:62-76 | purity 1, ploidy 2, copies [2] give (BAF 0, DR 1, 2, 0) and (BAF 1/2, DR 1, 2, 1) |
| TheoreticalDistribution.CnaTable.constructor | src/cna_table.js:10-15 | the parameters are stored and the table's rows are the distribution of them |
| Matching.FirstInBox | observable/src/matching.js:32-40 | the inner loop stops at the first point in list order inside the box, or finds none |
| Matching.LastPassUnique | observable/src/matching.js:31 | at most one pass ends the loop, so the result is determined |
| Matching.Matcher.constructor | observable/src/matching.js:14-17 | the distribution and the step are stored |
| Matching.Matcher.Pass | observable/src/matching.js:32-41 | one pass sets `total`/`minor` from the first point in the box, or leaves them unchanged when there is none |
| Matching.Matcher.FindMatch | observable/src/matching.js:24-46 | if some pass accepts, the result copies the record, its total is non-zero, and it is the genotype of the first point in the box in the pass that ends the loop |
| Matching.NaNNeverAccepted | observable/src/matching.js:31-43 | a NaN BAF or DR fails every comparison, so no pass ends the loop |
| Matching.EmptyNeverAccepted | observable/src/matching.js:31-43 | an empty distribution never ends the loop |
| Matching.CoveringPass | observable/src/matching.js:42 | for a positive step, some pass reaches any distance, and every later one does too |
| Matching.BoxDistance | observable/src/matching.js:36 | every point enters the box of a finite record from some threshold on |
| Matching.AcceptedWhenFirstTotalNonZero | observable/src/matching.js:31-43 | a finite record terminates when the first point's total is non-zero and the step is positive |
| Matching.StuckWhenFirstTotalZero | observable/src/matching.js:31-43 | when the first point has total 0, from some pass on no pass ends the loop |
| Matching.ExactHitFirstPass | observable/src/matching.js:29-39 | an exact hit with non-zero total, and no earlier exact hit, is taken on the first pass |
| Matching.SameCoordinatesSameGenotype | observable/src/matching.js:36-38 | for a positive purity, two table entries at the same (BAF, DR) are the same genotype |
| Matching.DistributionDistinct | src/cna_table.js:62-76 | without repeated copy numbers, the table has no repeated entry |
| Matching.TheoreticalPointRecovered | observable/src/matching.js:29-39 | for positive purity, matching a theoretical point with non-zero total returns that point's genotype on the first pass, also when copy numbers repeat |
| Annotation.Record.constructor | observable/src/utils/annotation.js:4-5 | a record holds its chromosome and position, with no gene name yet |
| Annotation.LastIndexAtMost | observable/src/utils/annotation.js:6 | `findLastIndex(start <= pos)` is the largest index whose start is at most `pos`, or -1 |
| Annotation.Starts | observable/src/utils/annotation.js:2 | the start points are the intervals' starts, index by index |
| Annotation.GeneFor | observable/src/utils/annotation.js:5-11 | a gene name, when given, is that of an interval other than the first one that contains the position; `GeneForCharacterised` states which |
| Annotation.GeneForCharacterised | observable/src/utils/annotation.js:6-11 | for the last index i with start <= pos, the gene name is interval i's iff i > 0 and pos <= its end, and null otherwise |
| Annotation.BeforeEveryStart | observable/src/utils/annotation.js:9-10 | a position before every start gets null |
| Annotation.FirstIntervalNeverAnnotates | observable/src/utils/annotation.js:7 | the interval at index 0 never annotates, even when it contains the position |
| Annotation.SortedSelectsContainingInterval | observable/src/utils/annotation.js:6-8 | with ascending starts, a position inside interval i > 0 and before the next start gets that interval's name |
| Annotation.OnlyTheCandidateIsChecked | observable/src/utils/annotation.js:6-7 | for all intervals: when the last interval starting at or before the position ends before it, the record gets null, even if an earlier interval (not the first) contains the position |
| Annotation.AnnotateChromosome | observable/src/utils/annotation.js:1-13 | every record of the list gets the gene name of the rule; with `undefined` intervals it throws and changes nothing |
| Annotation.Chromosomes | observable/src/utils/annotation.js:17-20 | `Object.keys` of the grouping lists every record's chromosome |
| Annotation.ChromosomesOnce | observable/src/utils/annotation.js:17-20 | each chromosome is visited once, and only chromosomes of the data are visited |
| Annotation.RecordsOn | observable/src/utils/annotation.js:17-21 | a chromosome's group is exactly that chromosome's records |
| Annotation.IntervalsOn | observable/src/utils/annotation.js:18-22 | a chromosome has an interval group iff some interval is on that chromosome |
| Annotation.IntervalsOnSelects | observable/src/utils/annotation.js:18-22 | a chromosome's interval group holds exactly that chromosome's intervals, every copy, as a subsequence of the annotation (annotation order) |
| Annotation.BeforeNext | observable/src/utils/annotation.js:20 | one more iteration handles one more chromosome |
| Annotation.AnnotateGroup | observable/src/utils/annotation.js:21-23 | one iteration annotates exactly the records of its chromosome, or throws when the chromosome has no intervals; other records keep their name |
| Annotation.Annotate | observable/src/utils/annotation.js:16-25 | it completes iff every chromosome of the data has intervals, and then every record has its chromosome's gene name; otherwise it throws at the first such chromosome, after annotating the earlier ones |
| Segments.Values | observable/src/segment_table.js:55 | the values of NaN-free numbers, index by index |
| Segments.SumBounds | observable/src/segment_table.js:106 | the sum lies between n times any lower bound and n times any upper bound |
| Segments.Mean | observable/src/segment_table.js:105-108 | the mean is NaN exactly for an empty list or a NaN value, and otherwise times the length is the sum |
| Segments.MeanBounds | observable/src/segment_table.js:105-108 | the mean of a non-empty list lies between any bounds of its values |
| Segments.LowerBoundPermuted | observable/src/segment_table.js:116 | a lower bound carries over to a permutation |
| Segments.SortedCons | observable/src/segment_table.js:116 | an element no larger than every element of a sorted list can lead it |
| Segments.Insert | observable/src/segment_table.js:116 | insertion into a sorted list stays sorted and adds exactly the element |
| Segments.SortAscending | observable/src/segment_table.js:116 | `toSorted((a, b) => a - b)` is an ascending permutation of its input |
| Segments.SortedHeads | observable/src/segment_table.js:116 | two sorted arrangements of the same values have the same first value |
| Segments.SameTails | observable/src/segment_table.js:116 | removing an equal first value from two arrangements of the same values leaves the same values |
| Segments.SortedUnique | observable/src/segment_table.js:116 | sorting is determined by the multiset: two sorted arrangements of it are equal |
| Segments.Middle | observable/src/segment_table.js:117-118 | the middle element for odd length, the average of the two middle elements for even length; of a sorted list it lies between the first and last element |
| Segments.Median | observable/src/segment_table.js:115-119 | the median is NaN exactly for an empty list or a NaN value |
| Segments.ValuesCount | observable/src/segment_table.js:116 | each value occurs among the values as often as its number occurs in the data |
| Segments.MedianOrderIndependent | observable/src/segment_table.js:115-119 | the median depends only on the multiset of the data, not on its order |
| Segments.MedianBounds | observable/src/segment_table.js:115-119 | the median of a non-empty list lies between any bounds of its values |
| Segments.MedianOfArrangement | observable/src/segment_table.js:115-119 | the median is the middle of any ascending arrangement of the values |
| Segments.MedianOfThree | observable/src/segment_table.js:115-119 | odd length: the median of an unsorted three-element list is its middle value |
| Segments.MedianOfTwo | observable/src/segment_table.js:115-119 | even length: the median is the average of the two middle values after sorting |
| Segments.SquareSign | observable/src/segment_table.js:129 | a square is non-negative and zero only at zero |
| Segments.SumSquaresNonNegative | observable/src/segment_table.js:129 | the sum of squared deviations is non-negative |
| Segments.SumSquaresZero | observable/src/segment_table.js:129 | the squared deviations add up to 0 exactly when every value equals the mean |
| Segments.Variance | observable/src/segment_table.js:127-130 | the std computation throws exactly on an empty list, is NaN exactly when a value or the stored mean is NaN, and otherwise times the length is the sum of squared deviations from the stored mean (population divisor) |
| Segments.VarianceExample | observable/src/segment_table.js:127-130 | [0.1, 0.2, 0.3] has mean 0.2 and variance 1/150 around it |
| Segments.VarianceNonNegative | observable/src/segment_table.js:127-130 | a numeric variance is never negative |
| Segments.VarianceZeroIffConstant | observable/src/segment_table.js:127-130 | around its own mean, a list has variance 0 exactly when all values are equal |
| Segments.JsSlice | observable/src/segment_table.js:54 | `slice(start, end)` is empty when start >= end, and otherwise is the elements from start up to end |
| Segments.SegmentTable.constructor | observable/src/segment_table.js:32-35 | the handlers start with no positions, an empty row and no added rows |
| Segments.SegmentTable.BrushSelected | observable/src/segment_table.js:36-40 | `start` is the first selected index, `end` the last, and `pop()` removes the last from the event's array |
| Segments.SegmentTable.BrushEnd | observable/src/segment_table.js:42-66 | a falsy index (0 included) or start <= end returns at once; an index past the data throws; otherwise the slice is empty and the first std throws after chr, positions, BAF mean and BAF median were written, so no row is added |
| ChartData.LineLength | src/chart_option.js:95-101 | the line length is at least the data length, at least 10, a multiple of 10, and equals a length that already is both |
| ChartData.LineLengthLeast | src/chart_option.js:95-101 | it is the least such value |
| ChartData.Scatter | src/chart_option.js:16-17 | the scatter data has one pair `[i, value of row i]` per row |
| ChartData.GenotypeLabel | src/chart_option.js:32 | the label `${minor}/${total}`; `GenotypeLabelSplits` and `GenotypeLabelInjective` state it names the genotype uniquely |
| ChartData.GenotypeLabelSplits | src/chart_option.js:32 | a label `minor/total` splits on `/` into the decimal minor and total |
| ChartData.GenotypeLabelInjective | src/chart_option.js:32 | different genotypes have different labels |
| ChartData.BafGroup | src/chart_option.js:28 | a BAF's group holds exactly the rows with that BAF |
| ChartData.BafGroupOrder | src/chart_option.js:28-32 | a group lists its rows in table order with every copy, so the label join follows table order |
| ChartData.UniqueBaf | src/chart_option.js:27-37 | one item per distinct BAF in first-appearance order, labelled by the join of its group's `minor/total` labels |
| ChartData.UniqueBafDistinct | src/chart_option.js:27-37 | no two items share a BAF |
| ChartData.UniqueBafCovers | src/chart_option.js:27-37 | every BAF of the table has an item |
| ChartData.UniqueBafOrigin | src/chart_option.js:27-37 | every item's BAF comes from the table |
| ChartData.UniqueBafLabel | src/chart_option.js:32 | every item's group is non-empty, and splitting its label on spaces gives the group's labels in table order |
| ChartData.UniqueDr | src/chart_option.js:44-54 | the i-th distinct DR is labelled with the i-th distinct total, or unlabelled past the totals |
| ChartData.UniqueDrLabelsTotals | src/chart_option.js:44-54 | on the builder's table with purity > 0 the counts match and every DR line is labelled with the total whose DR it is |
| ChartData.GenerateLines | src/chart_option.js:64-88 | one line per item, on the given axes, with the item's label, from `[0, y]` to `[lineLength, y]` |
| ChartData.NewChartOption | src/chart_option.js:12-20 | the stored tables, the line length of the data, both scatter series, BAF lines on axes 0/0 and DR lines on 1/1; what the option guarantees is stated by `LinesSpanScatter` and `BafLinesWithinAxis` |
| ChartData.LinesSpanScatter | src/chart_option.js:15-19 | every reference line spans the x position of every scatter point |
| ChartData.BafLinesWithinAxis | src/chart_option.js:18 | on the builder's table with purity in (0, 1] every BAF line lies in [0, 0.6], the BAF axis range |
| ChartData.ZeroBafItemFirst | src/chart_option.js:28-29 | on the builder's table with purity in (0, 1], a BAF item at 0 is the first item, so for such purity integer-key ordering does not reorder the items |
| ChartData.IntegerBafsOutsidePurityRange | src/chart_option.js:28-29 | for purity -1, ploidy 2 and copies [2, 3] the table's BAFs include the integers 1 and 2 besides 0.5, so outside purity (0, 1] the first-appearance item order (1, 0.5, 2) differs from the integer-first key order |
| ChartData.DiploidBafLines | src/chart_option.js:27-37 | the diploid example has BAF lines "0/2" at 0 and "1/2" at 1/2 |
| ChartData.DiploidDrLines | src/chart_option.js:44-54 | the diploid example has one DR line, labelled 2, at 1 |
| CnaPlotting.LeadingDigits | src/cna_plot.js:8 | the length of the leading run of digits |
| CnaPlotting.MatchesPattern | src/cna_plot.js:8 | the position pattern: `chr`, a name 1-22, X or Y, then the end of the string or `:digits:digits` with nothing required after it; `BareChromosomeMatches`, `TrailingTextAccepted`, `RejectedForms` and `MatchedShape` state what it accepts |
| CnaPlotting.FilteredData | src/cna_plot.js:19-27 | with both bounds truthy, exactly the rows on the chromosome with start <= pos <= end (inclusive); otherwise exactly the rows on the chromosome (order: `FilteredDataOrder`) |
| CnaPlotting.FilteredDataOrder | src/cna_plot.js:21-26 | the filtered rows are a subsequence of the table (data order), with every copy of a kept row |
| CnaPlotting.RerenderResult | src/cna_plot.js:41-67 | an empty position renders the whole table; a string not matching the pattern is rejected as "Invalid pattern"; rendered rows come from the data table |
| CnaPlotting.ChromosomeNameHasNoColon | src/cna_plot.js:8 | a chromosome name accepted by the pattern contains no `:` |
| CnaPlotting.DigitsHaveNoColon | src/cna_plot.js:8 | a digit string contains no `:` |
| CnaPlotting.SplitFirstPart | src/cna_plot.js:52 | a string not starting with the separator has a first part starting with its first character |
| CnaPlotting.LeadingDigitsOf | src/cna_plot.js:8 | digits followed by a non-digit have exactly that many leading digits |
| CnaPlotting.BareChromosomeMatches | src/cna_plot.js:8 | every `chrN` with N in 1-22, X or Y matches |
| CnaPlotting.TrailingTextAccepted | src/cna_plot.js:8 | `chrN:start:end` followed by any text matches, since the pattern is not anchored after the range |
| CnaPlotting.RejectedForms | src/cna_plot.js:8 | `chr23`, `chr0` and `chr1:5` do not match |
| CnaPlotting.SplitRange | src/cna_plot.js:52 | splitting `head:start:rest` gives head and start as the first two parts |
| CnaPlotting.MatchedShape | src/cna_plot.js:8 | a match is `chr`, a chromosome name, then either nothing more or a range group |
| CnaPlotting.MatchedParts | src/cna_plot.js:52 | a match splits into `chrN` alone, or `chrN`, a digit string and a part starting with a digit |
| CnaPlotting.RegionParts | src/cna_plot.js:48-56 | a well-formed `chrN:start:end` matches and splits into its three parts |
| CnaPlotting.SplitThree | src/cna_plot.js:52 | three separator-free parts joined by `:` split back into them |
| CnaPlotting.RegionQuery | src/cna_plot.js:41-67 | a well-formed `chrN:start:end` gives the range error iff end < start, and otherwise exactly the rows on `chrN` with start <= pos <= end |
| CnaPlotting.NaNBoundSelectsNothing | src/cna_plot.js:20-23 | a bound that converts to NaN selects no row |
| CnaPlotting.TrailingTextRendersNothing | src/cna_plot.js:20-24 | trailing text that makes the end bound NaN renders an empty table instead of an error |
| CnaPlotting.ChromosomeQuery | src/cna_plot.js:52-62 | `chrN` renders exactly the rows of chromosome `chrN` |
| CnaPlotting.CnaPlot.constructor | src/cna_plot.js:5-17 | the tables are stored and one option of the whole table is rendered |
| CnaPlotting.CnaPlot.UpdateDataTable | src/cna_plot.js:37-39 | only the data table is replaced |
| CnaPlotting.CnaPlot.RerenderPlot | src/cna_plot.js:41-67 | the returned message is the query's message, one option of the query's rows is rendered when it renders, none otherwise, and the data table is not changed |
| Parsing.TrimStart | observable/src/parser.js:30 | trimming the start never lengthens the string |
| Parsing.TrimEnd | observable/src/parser.js:30 | trimming the end never lengthens the string |
| Parsing.Trim | observable/src/parser.js:30 | `s.trim()`: both white-space ends removed; `TrimInfix` and `TrimIdempotent` state the result |
| Parsing.TrimStartSpec | observable/src/parser.js:30 | exactly the leading run of white space is removed |
| Parsing.TrimEndSpec | observable/src/parser.js:30 | exactly the trailing run of white space is removed |
| Parsing.TrimInfix | observable/src/parser.js:30 | `trim()` gives a piece of the string with no white space at either end |
| Parsing.TrimIdempotent | observable/src/parser.js:30 | trimming twice is trimming once |
| Parsing.NumbersOf | observable/src/parser.js:31 | the NaN filter keeps only numbers of the input and every number of it, as a subsequence of the input (order kept) |
| Parsing.NumbersOfCount | observable/src/parser.js:31 | each value is kept as often as it occurs as a number: only NaN is dropped |
| Parsing.NumbersOfAllNumbers | observable/src/parser.js:31 | without NaN, nothing is dropped and the order is kept |
| Parsing.NumbersOfNoNumbers | observable/src/parser.js:31 | only NaN leaves nothing |
| Parsing.ParseForm | observable/src/parser.js:13-38 | a non-object form is "Invalid form data"; a NaN purity, ploidy or normal ploidy is "Invalid numeic data"; otherwise a missing copy-number field throws a TypeError, exactly when it is missing, and "No valid copy numbers found" is returned exactly when no copy number parses; a success holds the four values in order, with the copy numbers non-empty |
| Parsing.ParseFormNoRangeCheck | observable/src/parser.js:20-36 | any parsed numbers are accepted, whatever their range |
| Parsing.PartNumbers | src/parser.js:17-18 | each comma-separated part is parsed after trimming, one number per part |
| Parsing.CopyNumbers | observable/src/parser.js:29-31 | at most one copy number per comma-separated part, the parsed parts in order with the NaN ones left out |
| Parsing.CopyNumbersAllParse | src/parser.js:17-19 | when every part parses, the copy numbers are the parsed parts in order |
| Parsing.CopyNumbersNoneParse | src/parser.js:17-23 | when no part parses, no copy number is left |
| Parsing.LenProperty | src/parser.js:30 | `row.chr.len` is undefined on a string |
| Parsing.ChrGuardVacuous | src/parser.js:30-32 | the chromosome guard is vacuous: strings have no `len` property, `undefined < 4` is false, so it never throws |
| Parsing.InvalidRowMessageInjective | src/parser.js:39 | different rows give different error messages |
| Parsing.ParseRow | src/parser.js:33-47 | a row fails iff the policy rejects its parsed numbers (only `pos` for the observable parser, any field for the other), with the row's message; otherwise chr is copied and the fields are the parsed numbers |
| Parsing.ParsePrefix | src/parser.js:29-48 | either every row of the prefix parses, in order, or the error is that of the first failing row |
| Parsing.ParseData | src/parser.js:28-49 | a success has one row per input row; a failure carries the message of some row index |
| Parsing.ParseDataRows | src/parser.js:29-48 | a successful parse has the input's length, with row i parsed from input row i |
| Parsing.ParseDataFailure | src/parser.js:29-48 | a failure carries the error of the first rejected row, and every earlier row parses |
| Parsing.NaNValuesPolicy | observable/src/parser.js:56-59 | a row whose BAF and DR are NaN is kept by the observable parser and rejected with "Invalid numeric data at row 0" by the other |

## Left out

- Floating point: numbers are exact reals. The matcher's accumulated `currentThreshold += step` is modelled as `k * step`, and Infinity is not modelled.
- Division by zero: the builder's formulas require non-zero denominators (`Defined`), whereas JavaScript would give Infinity or NaN. `BafDenominatorZero` and `DrDenominatorPositive` state when the denominators vanish.
- Copy numbers in the builder are natural numbers. The parser yields arbitrary reals, and fractional or negative copy numbers are not carried into the builder.
- The internals of `parseFloat`, `parseInt` and `Number` (ECMA-262, sections 19.2.4, 19.2.5 and 7.1.4) are function parameters. This includes the `parseInt` truncation of the matched total and minor, which keeps the stored natural numbers.
- Matching.Matcher.FindMatch: it requires that some pass ends the loop. That is exactly the condition under which the source terminates, and the cases that do not terminate are stated as lemmas.
- Segments.Variance: the standard deviation is stated as the population variance, because `Math.sqrt` is left out. The NaN and throw behaviour is the same.
- Segments.Median: a list containing NaN gives NaN. The result of the sort comparator on NaN values is not modelled.
- Segments.SegmentTable: the Tabulator table, `addRow` (which the handler cannot reach) and row deletion are left out. So are the chart event wiring and the `params.batch` event structure.
- The DOM, `echarts.init`, `setOption`, window resizing, the chart's option object, tooltips and formatters are left out. `CnaPlot` records each rendered option in a sequence instead. The source calls `getOption` while the class defines `get_option`, so rendering is treated as external.
- ChartData.UniqueBaf: the `Object.keys` string keys are modelled as the BAF numbers. The item order is first appearance. For purity in (0, 1], `ZeroBafItemFirst` shows this is also the key order on the builder's tables. The parser does not check the purity range, and outside it a BAF can be an integer other than 0 (`IntegerBafsOutsidePurityRange`: purity -1, ploidy 2, copies [2, 3] gives BAFs 1, 0.5, 2, 1). JavaScript then lists the integer-like keys first ("1", "2", "0.5"), and that item order is not modelled.
- Annotation: the fields of a record other than `chr`, `pos` and `geneName` are not modelled.
- Annotation.Chromosomes: chromosome groups are visited in order of first appearance. That is the `Object.keys` order for labels such as `chr1` or `chrX`. JavaScript lists integer-like keys ("1", "2") first, in ascending order, and that order is not modelled. For such labels, which groups `Annotate` has annotated before it throws may differ.
- DistinctFrom: the contract states set semantics only. The first-appearance order is proved separately by `DistinctFromSnoc`, to keep the callers' proofs small.
- Distinct: the contract states set semantics only. The insertion order of `[...new Set(s)]` is proved separately by `DistinctSnoc`.
- Filter: the contract states membership only. The order and the copies kept are proved separately by `FilterOrder`.
- BafGroup: the table order of a group is proved separately by `BafGroupOrder`.
- FilteredData: the data order of the result is proved separately by `FilteredDataOrder`.
- NumbersOf: the copy counts are proved separately by `NumbersOfCount`.
- `console.log` in the observable `parseData` is left out.
- The regular expression's `g` flag has no effect on `String.prototype.match`, which is the only use. The pattern is modelled as a predicate on strings.
