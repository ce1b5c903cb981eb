# sequintools calibration core, in Dafny

This project models the calibration engine of sequintools and proves properties of that model. The engine downsamples the aligned reads that fall in sequin (synthetic spike-in) regions of a BAM file so that their coverage matches a target, and it keeps both mates of a read pair together. The project covers four parts of the repository:

- **Regions** (`region.dfy`, `src/region.rs`): the `contig:beg-end` rendering of a region and the BED loader. The loader splits the text into lines, splits each line on whitespace and reads the first four columns, failing with the 1-based line number.
- **Coverage** (`coverage.dfy` and `stats.dfy`, `src/coverage.rs`):
  - `coverage_for_region`: flank clipping with its three failures, the fetch, and a dense per-base depth array filled in place by walking each counted record's CIGAR;
  - the summary statistics: min, max, mean, the coefficient-of-variation guard, and the fraction at or above a threshold.
- **Library calibration engine** (`calibration.dfy`, `src/calibration.rs`):
  - per-region keep probabilities, in the fixed-coverage and sample-mean modes;
  - the mate-aware `subsample` step and the scan over every target region's records;
  - flank clipping, window begins, and read-start counting per window;
  - seeded selection of reads per window, the per-region keep sets and the records written (sample-profile mode);
  - the final pass over the whole file, and the `calibrate` entry point.
- **Legacy calibration path** (`legacy.dfy`, `src/calibrate.rs`), the path the command-line tool runs:
  - its own `subsample`, which refuses a read whose mate starts first, without drawing;
  - its own `choose_from`, which fails when asked for more than there is, in which case the caller takes every read;
  - its own `window_starts`, with a different window range;
  - `calibrate_regions`;
  - `mean_depth`, which builds a pileup depth map and then a dense histogram;
  - `calibrated_contigs`.

  Legacy `starts_in` and `records_that_start_in_region` do the same as their library counterparts, so the library definitions are reused (`Calibration.StartsInSpec`, `Calibration.RecordsStartingInSpec`). Every error on the legacy path is a panic (`unwrap`, or u64/u32 arithmetic that overflows in a debug build), so an `Err(e)` outcome of a legacy member means the code panics for reason `e`.

Conventions used throughout:

- The indexed BAM reader is a value: the header's contig names, where the index is the tid, and the records in file order. A fetch of `[beg, end)` yields, in file order, the records on the contig whose aligned span overlaps the interval (`Alignment.Fetch`).
- Random number generation is a parameter:
  - `draws(j)` is the j-th `f64` drawn by the scan's seeded generator;
  - `choices(n)` is the stream that a freshly seeded generator yields to `choose_from` when it is asked for `n` indices.

  The model fixes how these streams are consumed: one draw per undecided read name, and a reseed for every window. It does not fix their values.
- Integers are unbounded. Plain `+` and `-` on u64 and u32 follow debug-build semantics: an overflow or underflow is an explicit panic outcome, like `step_by(0)` and out-of-bounds indexing (`Calibration.PanicReason`). The explicitly checked arithmetic of `coverage_for_region` becomes its error outcomes. The legacy path's `as u32`, `as u64` and `as i32` casts are written out (`LegacyCalibrate.AsU32`, `LegacyCalibrate.AsU64`, `LegacyCalibrate.U32AsI32`).
- Floating-point means and probabilities are `real`.

The code and the design description disagree on two points; the model follows the code:

- **Library `window_starts`.** It iterates `(beg..end).step_by(window_size)`, so the last partial window is kept. It is not dropped. `Calibration.WindowBegs` and `Calibration.WindowsCover` state this.
- **Legacy `window_starts`.** It iterates `(beg + flank .. end - flank - window_size)`, so it drops the last window even when that window is full. The region 99..199 with windows of 10 has nine windows (`LegacyCalibrate.WindowsDropLast`, `LegacyCalibrate.NineWindows`).

The library's `starts_in` counts starts in the closed window `[beg, end]` but fetches the half-open `[beg, end)`. So a read that starts on a window's last base is never counted (`Calibration.StartsInCountsHalfOpen`).

## Model

| member | source | states |
|---|---|---|
| Regions.DecValueOfDec | src/region.rs:42 | the decimal rendering of a number reads back as that number |
| Regions.ParseU64 | src/region.rs:71-84 | `u64::from_str` accepts only an optional `+` followed by digits |
| Regions.ParseU64OfDec | src/region.rs:71-84 | a rendered u64, with or without a leading `+`, parses back to itself |
| Regions.Display | src/region.rs:40-44 | `contig:beg-end` has the length of its parts plus the two separators |
| Regions.ParseDisplayParts | src/region.rs:40-44 | a display string splits at its last colon and at the first dash after it |
| Regions.DisplayRoundTrip | src/region.rs:40-44 | the display of any region reads back as its contig, begin and end, even when the contig contains colons |
| Regions.Lines | src/region.rs:61 | `lines()` yields lines with no newline in them |
| Regions.Fields | src/region.rs:62 | `split_whitespace()` yields non-empty fields with no whitespace |
| Regions.ParseLine | src/region.rs:62-90 | fewer than four columns is a column-count error; otherwise a begin that is not a u64 is a begin error, and then an end that is not a u64 is an end error, each carrying the offending text and the line number; on success, contig and name are columns 1 and 4, and begin and end are the parsed values of columns 2 and 3 |
| Regions.LoadFromBed | src/region.rs:57-93 | success exactly when every line parses, with one region per line in order; otherwise the error of the first failing line |
| Regions.ParseBedRow | src/region.rs:62-90 | the tab-separated row of a region with whitespace-free contig and name parses back to that region, on any line, whether or not beg < end |
| Regions.FieldsOfRow | src/region.rs:62 | four tab-separated whitespace-free tokens are exactly the row's fields |
| Alignment.Tid | src/coverage.rs:113-118 | a tid is the first header position naming the contig; there is none exactly when the header does not name it |
| Alignment.FetchTid | src/calibration.rs:210 | a fetch yields exactly the file's records that overlap the interval on the contig, and no more records than the file has |
| Alignment.Fetch | src/coverage.rs:113-119 | a fetch by name fails exactly when the header lacks the contig; otherwise it is the fetch on the contig's tid |
| Stats.Min | src/coverage.rs:26-28 | the minimum is absent exactly for an empty vector; it is an element and no element is below it |
| Stats.Max | src/coverage.rs:31-33 | the maximum is absent exactly for an empty vector; it is an element and no element is above it |
| Stats.CountAtLeast | src/coverage.rs:79 | the count at a threshold is at most the vector's length |
| Stats.SumZeroIffAllZero | src/coverage.rs:65-70 | a sum of depths is zero exactly when every depth is zero |
| Stats.CountAtLeastAll | src/coverage.rs:73-81 | a threshold at or below every entry counts them all |
| Stats.CountAtLeastAntitone | src/coverage.rs:73-81 | raising the threshold never raises the count |
| Stats.CountAtLeastNone | src/coverage.rs:73-81 | a threshold above every entry counts none |
| Stats.SumBounds | src/coverage.rs:36-43 | a sum lies between length times a lower bound and length times an upper bound |
| Stats.AverageBetween | src/coverage.rs:36-43 | an average lies between any lower and upper bounds of the entries |
| Coverage.RegionCoverage.MinDepth | src/coverage.rs:26-28 | the lowest depth, absent exactly for an empty vector |
| Coverage.RegionCoverage.MaxDepth | src/coverage.rs:31-33 | the highest depth, absent exactly for an empty vector |
| Coverage.RegionCoverage.Mean | src/coverage.rs:36-43 | the mean is absent exactly for an empty vector; mean times length is the sum |
| Coverage.RegionCoverage.PercentAboveThreshold | src/coverage.rs:73-81 | the fraction is absent exactly for an empty vector; it lies in [0, 1] and times the length it is the number of positions at or above the threshold |
| Coverage.MeanBetweenMinAndMax | src/coverage.rs:26-43 | min <= mean <= max |
| Coverage.HasCvIff | src/coverage.rs:65-70 | a coefficient of variation is reported exactly when the vector is non-empty and has a non-zero depth |
| Coverage.PercentAboveZero | src/coverage.rs:73-81 | every position reaches threshold 0 |
| Coverage.PercentAboveMax | src/coverage.rs:73-81 | no position reaches a threshold above the maximum |
| Coverage.PercentAboveAntitone | src/coverage.rs:73-81 | the fraction never rises with the threshold |
| Coverage.CoversSnoc | src/coverage.rs:132-148 | appending a CIGAR operation adds exactly that operation's aligned block |
| Coverage.CoversBeforeEnd | src/coverage.rs:132-148 | every covered position lies before the end of the reference span |
| Coverage.HitsIsCovers | src/coverage.rs:132-148 | the cursor walk adds 1 at a position exactly when some M/=/X block contains it, and never more |
| Coverage.DepthIsCoveringCount | src/coverage.rs:120-148 | the depth at a position is the number of counted records covering it |
| Coverage.DuplicatesCount | src/coverage.rs:123-128 | the duplicate flag does not affect whether a record counts |
| Coverage.AddBlock | src/coverage.rs:134-141 | one M/=/X block adds 1 at every array position it overlaps and changes nothing else |
| Coverage.AddRecord | src/coverage.rs:130-148 | one record's CIGAR walk adds its hits to every array position |
| Coverage.CountDepths | src/coverage.rs:111-149 | the filled array has one entry per position, each the depth over all records |
| Coverage.CoverageForRegion | src/coverage.rs:84-158 | `coverage_for_region` returns exactly the specified coverage or error |
| Coverage.CoverageErrors | src/coverage.rs:90-118 | each of flank overflow, flank underflow, empty-after-flank and success occurs exactly under its condition |
| Coverage.CoverageMeaning | src/coverage.rs:111-157 | on success: the original region, one entry per clipped position, each the number of counted fetched records covering it |
| Coverage.NoRecordsNoCoverage | src/coverage.rs:111 | with no records every depth is 0 and the maximum is 0 |
| Coverage.SkippedRecordAddsNothing | src/coverage.rs:123-128 | an unmapped, secondary, supplementary or low-quality record adds no depth |
| Calibration.FetchRecords | src/calibration.rs:210 | a fetch fails exactly for an unknown contig, with a fetch error naming it |
| Calibration.MeanOrZero | src/calibration.rs:310 | the mean is non-negative, and mean times length is the sum |
| Calibration.MeanCoverages | src/calibration.rs:300-315 | succeeds exactly when every region's coverage does; keyed by every region name; all means non-negative |
| Calibration.Probabilities | src/calibration.rs:262-288 | succeeds exactly when every target has a sample mean, a non-zero mean and a sample mean no greater than its mean; each probability times the target mean is the sample mean; otherwise a non-empty set of failures, each a target's first failing check |
| Calibration.FailuresEmpty | src/calibration.rs:262-288 | no failure is collected exactly when no target fails a check |
| Calibration.ProbabilitiesInUnitInterval | src/calibration.rs:285 | each probability lies in [0, 1] and is positive exactly when the sample mean is |
| Calibration.FixedFoldProbabilities | src/calibration.rs:252-261 | without sample regions each target's sample mean is the fold coverage |
| Calibration.ConstantSampleProbabilities | src/calibration.rs:252-288 | with a fixed fold coverage the run succeeds exactly when every target mean is non-zero and at least the fold; each probability is fold over mean |
| Calibration.SubsampleSpec | src/calibration.rs:329-359 | duplicates are dropped; kept names are kept; considered names are dropped; otherwise one draw, kept when at most the threshold; the keep set grows by at most the record's name |
| Calibration.Sampler.Subsample | src/calibration.rs:329-359 | the sampler's keep set and generator position follow the decision |
| Calibration.Step | src/calibration.rs:215-228 | one record adds its name to the considered set, grows the keep set only by that name, never changes a considered name's membership, and draws at most once, for a new name |
| Calibration.StepProgress | src/calibration.rs:209-229 | one record of the scan makes progress over its name |
| Calibration.ScanRecordsInvariant | src/calibration.rs:211-229 | over a region's records, the keep set grows only by their names and each new name costs at most one draw |
| Calibration.ScanRegionsInvariant | src/calibration.rs:209-230 | across all target regions no name is drawn for twice, and a name's membership is settled once it has been considered |
| Calibration.ScanRegionRecords | src/calibration.rs:211-229 | the inner record loop computes the specified scan state or error |
| Calibration.CalibrateByFixedCoverage | src/calibration.rs:188-233 | `calibrate_by_fixed_coverage` computes the specified keep set and generator position, or error |
| Calibration.ClipRegions | src/calibration.rs:448-458 | succeeds exactly when no begin overflows and no end underflows; keeps order, contig and name; shifts both ends by the flank; no beg < end check |
| Calibration.ClipByZero | src/calibration.rs:448-458 | clipping by 0 is the identity |
| Calibration.ClipTwice | src/calibration.rs:448-458 | clipping by a and then by b is clipping by a + b |
| Calibration.WindowBegs | src/calibration.rs:572 | there are windows exactly for a non-empty region; the first begins at beg, every begin lies in the region, and the last window reaches its end |
| Calibration.WindowsCover | src/calibration.rs:572 | every position of the region lies in some window |
| Calibration.WindowsEvenlySpaced | src/calibration.rs:572 | window k begins at beg + k * window_size |
| Calibration.WindowsDisjoint | src/calibration.rs:572 | windows do not overlap |
| Calibration.CountStarts | src/calibration.rs:602-607 | a start count is at most the number of records |
| Calibration.StartsInCountsHalfOpen | src/calibration.rs:598-609 | `starts_in` counts the contig's records starting in [beg, end - 1], not [beg, end] |
| Calibration.StartsIn | src/calibration.rs:598-609 | the counting loop computes the specified count |
| Calibration.StartsOverMeaning | src/calibration.rs:571-586 | one count per window, each the count of the window's starts over the whole file |
| Calibration.WindowStartsMeaning | src/calibration.rs:565-587 | `window_starts` returns one count per window of the region, each the contig's records starting in the window before its last base |
| Calibration.WindowStarts | src/calibration.rs:565-587 | the window loop computes the specified counts or error |
| Calibration.StartFilter | src/calibration.rs:629-636 | keeps exactly the records starting in [beg, end] |
| Calibration.RecordsStartingMeaning | src/calibration.rs:621-638 | `records_that_start_in_region` yields the contig's records starting in [beg, end), in file order |
| Calibration.RecordsThatStartInRegion | src/calibration.rs:621-638 | the method computes the specified records or error |
| Calibration.StartingIn | src/calibration.rs:629-636 | the filter loop keeps exactly the records starting in [beg, end], in order |
| Calibration.ChooseFrom | src/calibration.rs:651-654 | min(size, n) distinct indices below size; none for n = 0 |
| Calibration.Reverse | src/calibration.rs:505 | same length, entries in reverse order |
| Calibration.PickedNames | src/calibration.rs:538-543 | the names at the chosen indices, all from the window's records |
| Calibration.WindowPicks | src/calibration.rs:527-543 | a window picks only names of reads starting in it |
| Calibration.PickedNamesAtMost | src/calibration.rs:537-543 | no more names than indices |
| Calibration.WindowPicksAtMost | src/calibration.rs:537-543 | a window contributes at most its quota, and at most the number of reads starting in it |
| Calibration.KeepFromNames | src/calibration.rs:514-544 | the keep set holds only names the windows picked |
| Calibration.KeepFromWindows | src/calibration.rs:524 | when the loop succeeds, the target has no more windows than the sample's counts |
| Calibration.WithNames | src/calibration.rs:545-550 | exactly the records whose name is kept |
| Calibration.AddPicks | src/calibration.rs:538-543 | adds exactly the picked names |
| Calibration.AddWindowPicks | src/calibration.rs:519-543 | adds exactly one window's picks |
| Calibration.KeepNames | src/calibration.rs:514-544 | the window loop computes the specified keep set or panic |
| Calibration.WriteKept | src/calibration.rs:545-550 | the write loop writes exactly the kept-name records, in order |
| Calibration.CalibrateRegion | src/calibration.rs:489-550 | one target region's calibration computes the specified output or error |
| Calibration.CalibrateRegionWrites | src/calibration.rs:489-550 | on success the target has a sample region and no more windows than it; every written record comes from the file, lies on the target's contig and starts inside the target |
| Calibration.CalibrateRegions | src/calibration.rs:476-553 | `calibrate_regions` writes the targets' outputs in order |
| Calibration.CalRegionsAfter | src/calibration.rs:489-551 | earlier output does not affect later output |
| Calibration.CalRegionsConcat | src/calibration.rs:489-551 | calibrating a + b writes a's output, then b's |
| Calibration.CalRegionsConcatFrom | src/calibration.rs:489-551 | the same, after earlier output |
| Calibration.CalRegionsFromInput | src/calibration.rs:489-551 | every written record comes from the file and lies on some target's contig |
| Calibration.RegionMap | src/calibration.rs:417-420 | the sample map is keyed by exactly the region names |
| Calibration.RegionMapFrom | src/calibration.rs:417-420 | each name maps to a sample region of that name |
| Calibration.RegionMapLastWins | src/calibration.rs:417-420 | among regions with the same name, the last one wins |
| Calibration.PlanAsWrittenRepeats | src/calibration.rs:422-436 | as written, the targets are calibrated once for every header contig holding one |
| Calibration.CalRegionsRepeat | src/calibration.rs:427-435 | calibrating the targets k times writes their output k times |
| Calibration.AsWrittenRepeatsOutput | src/calibration.rs:422-436 | as written, the sample-profile mode writes the calibrated output once per header contig that holds a target |
| Calibration.OnContig | src/calibration.rs:422-426 | a target region on the contig is kept with its multiplicity; any other target region is dropped |
| Calibration.PlanCorrectedCount | src/calibration.rs:422-436 | corrected, with distinct header names, each target is calibrated as often as it is listed when its contig is calibrated |
| Calibration.CorrectedPlanOnce | src/calibration.rs:422-436 | corrected: each target is calibrated as often as it is listed when the header names its contig, and never otherwise |
| Calibration.CalibrateBySampleProfile | src/calibration.rs:387-438 | the corrected sample-profile mode computes the specified output or error |
| Calibration.CalibrateContigs | src/calibration.rs:422-436 | the corrected header loop writes each header contig's targets in header order |
| Calibration.SequinTidsMeaning | src/calibration.rs:86-103 | a tid is a sequin tid exactly when the header names at that position the contig of some target |
| Calibration.TargetTidIsSequin | src/calibration.rs:86-103 | each target contig's tid is a sequin tid |
| Calibration.FinalPassOutput | src/calibration.rs:153-165 | the final pass writes exactly the file's records that are kept, or whose mate is not on a sequin contig when uncalibrated reads are wanted |
| Calibration.FinalPass | src/calibration.rs:153-165 | the final-pass loop writes the specified records in file order |
| Calibration.Calibrate | src/calibration.rs:75-168 | `calibrate` computes the specified output or error; in the sample-profile mode it runs the corrected header loop |
| Calibration.FixedModesWriteReadGroups | src/calibration.rs:105-165 | fixed and sample-mean modes: output only from the file; two same-name records with mates on sequin contigs are written together or not at all; mates off sequin contigs are written when wanted |
| Calibration.ProfileModeWrites | src/calibration.rs:136-165 | sample-profile mode: output only from the file; a written record with its mate on a sequin contig lies on a target's contig; mates off sequin contigs are written when wanted |
| Reservoir.ChooseMultiple | src/calibration.rs:651-654 | min(size, amount) distinct indices, each below size |
| LegacyCalibrate.AsU32 | src/calibrate.rs:549-550 | `as u32` is the identity in range, and negative i32 values wrap |
| LegacyCalibrate.AsU64 | src/calibrate.rs:765-766 | `as u64` of an i32 is the identity for non-negative values, and negative values wrap; legacy `CalibrateRegions` applies it to the i32 flank |
| LegacyCalibrate.U32AsI32 | src/calibrate.rs:455 | `as i32` is the identity up to i32::MAX and inverse to `as u32` |
| LegacyCalibrate.SubsampleSpec | src/calibrate.rs:398-425 | duplicates are dropped; kept names are kept; a read whose mate starts earlier is dropped without a draw; otherwise one draw, kept when at most the threshold |
| LegacyCalibrate.Sampler.Subsample | src/calibrate.rs:398-425 | the sampler's keep set and generator position follow the decision |
| LegacyCalibrate.PairKeptWhole | src/calibrate.rs:408-416 | the second mate follows the first mate's decision, at no draw |
| LegacyCalibrate.ChooseFrom | src/calibrate.rs:920-929 | succeeds exactly when n <= size, with n distinct indices below size; otherwise the "sample size is too big" message |
| LegacyCalibrate.ChooseFromAgrees | src/calibrate.rs:920-929 | agrees with the library choice on success; on failure the library one takes every index |
| LegacyCalibrate.AllIndices | src/calibrate.rs:799-801 | the indices 0 .. size-1 in order |
| LegacyCalibrate.Selection | src/calibrate.rs:796-802 | every selected index is in range |
| LegacyCalibrate.WindowPicks | src/calibrate.rs:788-807 | a window picks only names of reads starting in it |
| LegacyCalibrate.WindowPicksFallback | src/calibrate.rs:796-807 | a quota above the reads available picks every one of their names |
| LegacyCalibrate.WindowPicksAtMost | src/calibrate.rs:796-807 | at most the reads starting in the window, and at most the quota when it fits |
| LegacyCalibrate.RangePanic | src/calibrate.rs:859-860 | no panic exactly when beg + flank fits in u64 and flank + window_size <= end |
| LegacyCalibrate.WindowStarts | src/calibrate.rs:849-877 | the legacy window loop computes the specified counts or panic |
| LegacyCalibrate.WindowsDropLast | src/calibrate.rs:859-862 | stopping window_size short of the end drops exactly the last window |
| LegacyCalibrate.WindowCount | src/calibrate.rs:862 | the number of windows is the region length over window_size, rounded up |
| LegacyCalibrate.LegacyWindowStartsMeaning | src/calibrate.rs:849-877 | one count per window of [beg + flank, end - flank - ws), each the contig's starts in the window before its last base |
| LegacyCalibrate.NineWindows | src/calibrate.rs:859-876 | the region 99..199 with windows of 10 yields nine counts |
| LegacyCalibrate.AddWindowPicks | src/calibrate.rs:776-807 | adds exactly one window's picks |
| LegacyCalibrate.WindowSelection | src/calibrate.rs:796-802 | the choice, or every index when the choice fails |
| LegacyCalibrate.KeepNames | src/calibrate.rs:770-808 | the window loop computes the specified keep set or panic |
| LegacyCalibrate.CalibrateRegion | src/calibrate.rs:746-816 | one region's legacy calibration computes the specified output or panic |
| LegacyCalibrate.CalibrateRegionWrites | src/calibrate.rs:769-815 | every written record comes from the file, lies on the region's contig and starts inside the unclipped region |
| LegacyCalibrate.CalibrateRegionWindows | src/calibrate.rs:763-785 | when the loop succeeds, the region has no more windows than its sample |
| LegacyCalibrate.CalibrateRegions | src/calibrate.rs:738-817 | legacy `calibrate_regions` writes every region's output in order, with the i32 flank taken `as u64` |
| LegacyCalibrate.CalRegionsFromInput | src/calibrate.rs:746-816 | every written record comes from the file and lies on some region's contig |
| LegacyCalibrate.CountsTowardDepthMeaning | src/calibrate.rs:555-578 | the pileup filter excludes unmapped, secondary, QC-failed, duplicate, supplementary and low-quality alignments, and nothing else |
| LegacyCalibrate.ColumnDepth | src/calibrate.rs:570-579 | a column's depth is at most its alignment count |
| LegacyCalibrate.MaxDepthSetting | src/calibrate.rs:543-547 | a max depth of 0 becomes i32::MAX, and any other value is used as given; the limit is never 0 |
| LegacyCalibrate.ScanColumnsMeaning | src/calibrate.rs:564-583 | in-range positions take the depth of their last column; other entries are unchanged; the total grows by the in-range depths |
| LegacyCalibrate.DepthResult.Depths | src/calibrate.rs:455 | the histogram depths, read as i32 |
| LegacyCalibrate.DepthResult.Min | src/calibrate.rs:454-456 | the lowest i32 depth, absent exactly for an empty histogram |
| LegacyCalibrate.DepthResult.Max | src/calibrate.rs:458-460 | the highest i32 depth, absent exactly for an empty histogram |
| LegacyCalibrate.DepthResult.Mean | src/calibrate.rs:462-470 | absent exactly for an empty histogram; mean times length is the sum |
| LegacyCalibrate.DepthMap | src/calibrate.rs:559-583 | the column loop computes the specified map and total, or panic |
| LegacyCalibrate.CountDepth | src/calibrate.rs:570-579 | the filtered count of one column |
| LegacyCalibrate.FillHistogram | src/calibrate.rs:584-587 | the dense histogram of the clipped region, position by position |
| LegacyCalibrate.MeanDepth | src/calibrate.rs:533-593 | `mean_depth` computes the specified result or panic |
| LegacyCalibrate.MeanDepthMeaning | src/calibrate.rs:549-592 | one entry per clipped position, each the depth of its last column or 0; the total is the in-range depths' sum |
| LegacyCalibrate.CalibratedContigs | src/calibrate.rs:932-939 | succeeds exactly when every BED line parses; yields exactly the contigs of its regions |
| LegacyCalibrate.ContigSet | src/calibrate.rs:933-937 | exactly the regions' contigs |

## Left out

- File I/O is not modelled: opening and writing BAM files, building indexes, reading the BED file from disk, `eprintln`, and the process exit. The BED text, the reader and the pileup columns are parameters instead.
- The pileup engine of htslib is not modelled. `LegacyCalibrate.MeanDepth` takes the columns it yields as a parameter, so the max-depth cap is not applied to them.
- The PCG32 generator and the rand crate's `choose_multiple` are not modelled; their outputs are parameters. `Reservoir.ChooseMultiple` is a reservoir-sampling stand-in. Only its contract is claimed to match the library: distinct indices below size, min(size, amount) of them.
- The standard deviation and the coefficient of variation are not modelled. They need `sqrt` in floating point, so only the condition under which a CV is reported is modelled (`Coverage.HasCvIff`).
- Floating-point rounding is not modelled: f32/f64 means, ratios and the draw-versus-threshold comparison are exact `real` arithmetic.
- The legacy `calibrate_regions_by_fixed_coverage` loop (src/calibrate.rs:347-396) is not modelled. Its `subsample` step is (`LegacyCalibrate.SubsampleSpec`).
- Legacy `calibrate_by_sample_coverage` (src/calibrate.rs:647-716) is not modelled. It is the header loop around legacy `calibrate_regions` and fetches the target lengths; `calibrate_regions` itself is modelled.
- `copy_unmapped_reads`, `copy_uncalibrated_contigs`, `write_summary_report`, `write_csv` and the rayon-parallel `calculate_coverage` are not modelled. They are I/O and reporting around the core.
- LegacyCalibrate.ScanColumns: a column with more than u32::MAX passing alignments is treated as a panic, where `count() as u32` would truncate. A pileup never holds that many alignments.
- LegacyCalibrate.DepthResult.Mean: the mean is the exact sum over the length; the i32 accumulator's possible overflow is not modelled.
- LegacyCalibrate.MeanDepth: the `pos as u64` cast of a negative pileup position is not modelled, because column positions are u32.
- Calibration.ClipRegions: release-build wrap-around is not modelled. A begin that overflows or an end that underflows is a panic, as in a debug build; a release build would wrap and go on.
- LegacyCalibrate.RangePanic: the same. The legacy window range panics where a debug build does; release-build wrap-around is not modelled.
- LegacyCalibrate.MeanDepth: the same for the u32 `beg + flank` and `end - flank`, and for `end - 1` when `end == 0`.
- Calibration.WindowStarts: the same for `beg + window_size - 1`.
- Calibration.KeepNames: the same for `wb + window_size`.
- Coverage.RegionCoverage.Mean: the source sums depths into a u32 (`sum::<u32>()`); the model's sum is exact. A region whose depths sum past u32::MAX (for example 1 Mb at 5000x) would panic in a debug build and wrap in a release build. Neither is modelled, and `Calibration.MeanOrZero` and `Calibration.MeanCoverages` inherit this.
- Coverage.CountDepths: a depth is a `nat`. The u32 counter `coverage[idx] += 1` could only overflow with more than u32::MAX records covering one position, and that overflow is not modelled.
- Calibration.Calibrate: in the sample-profile mode it runs the corrected header loop (see Findings), so each target region's output is written once. The loop as written is `Calibration.SampleProfileAsWritten`; it writes that output once per header contig holding a target.
- LegacyCalibrate.MaxDepthSetting: the cap htslib applies to each pileup column is not modelled; `LegacyCalibrate.MeanDepth` takes the columns as already capped.
- Read names are strings; their UTF-8 conversion and its failure are not modelled.
- Calibration.Probabilities: on failure the model returns the set of every failing target. The source reports whichever one its hash map yields first, an order the model does not fix.

## Findings

The legacy path the command-line tool runs has the same loop shape: legacy `calibrate_by_sample_coverage` (src/calibrate.rs:693-696) calls `calibrate_regions` with all regions once for every calibrated header contig. That loop is not part of this model, but it repeats its output in the same way.

| source | as written | input that shows it | evidently intended | confidence | as-written member | corrected member |
|---|---|---|---|---|---|---|
| src/calibration.rs:422-436 | for every header contig that holds a target region, `calibrate_regions` runs over all target regions | target regions on two header contigs: every selected read is written twice | each target region calibrated once, by the loop iteration for its own contig | medium, not executed | Calibration.AsWrittenRepeatsOutput | Calibration.CorrectedPlanOnce |
