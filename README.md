# Integer cores of the 50L detector analysis scripts

This project models three offline analysis tools for the raw waveform data
of the 50L particle detector. Each tool reads records of ADC samples, one sample per
channel and tick. The model covers only their integer logic. Inputs are taken
as already baseline-subtracted integer waveforms.

- **Peak-window charge integrator** (`charge_collected.dfy`, module
  `ChargeCollected`). It scans three adjacent collection channels (low,
  center, high) tick by tick.
  - It skips muon ticks, where all three channels are above threshold.
  - It opens a window when the center rises strictly above threshold, adding
    a prefix of up to 5 earlier ticks.
  - It continues the window while the center stays above threshold.
  - It closes on the first tick at or below threshold, adding a suffix of up
    to 5 ticks that starts at the closing tick.
  - A closed window appends its low, center, high and total sums to four area
    lists. With induction gating on, it appends only when `check_induction`
    sees a coincident bipolar signal on two induction-plane triplets;
    otherwise it counts an induction skip.
  - The scan is a `method` over a loop (`ScanRecord`, `ProcessRecords`). It
    is proved against a functional fold (`ScanUpTo`, `RunUpTo`), and the
    window properties are lemmas about one `Step` of that fold.
- **k-dist** (`k_dist.dfy`, module `KDist`).
  - Hits are the positions whose sample exceeds 200.
  - Each hit is classified into one of three planes by its channel.
  - For each hit, the Manhattan distances to all hits of its own plane are
    collected and sorted, and the k-th is kept.
  - The kept values are returned sorted in descending order.
  - The loops are `method`s proved equal to functional definitions.
  - `sorting.dfy` (module `Sorting`) gives the sorted-permutation and rank
    facts about Python's sorting that this relies on.
- **Selective-extrema histogram** (`adc_extrema_histogram.dfy`, module
  `AdcExtremaHistogram`).
  - `get_extrema` reduces each row of a matrix.
  - For every record, the tool takes one channel over at most the first 800
    ticks. It finds the maximum, the first tick reaching it, and the minimum
    over the 50 ticks starting there.
  - It writes these into two zero-initialised arrays (`array<int>`, updated
    in place) and counts `ValueError` records as mismatches.
  - It then drops every zero entry from each array.

`common.dfy` (module `Common`) holds the shared pieces:
- the two exceptions the code runs into (`ValueError`, `IndexError`);
- a `Result` type that carries them;
- Python slicing and indexing.

An exception is modelled as an `Err` outcome. A `ValueError` caught by a
record loop counts that record as a mismatch. An uncaught one (`IndexError`
in the extrema tool) ends the run, which the model reports as `raised`.

## Model

| member | source | states |
|---|---|---|
| Common.Slice | energy-deposit/charge_collected.py:54-55 | Python slicing with non-negative bounds: the length is the clipped range and each element is the one at the corresponding offset |
| Common.Index | k-dist/k_dist.py:90 | Python list indexing: defined exactly for -len <= i < len, negative indices count from the end, anything else is IndexError |
| ChargeCollected.CheckMuon | energy-deposit/charge_collected.py:39-43 | a tick is a muon tick iff all three samples are strictly above the threshold |
| ChargeCollected.WindowMax | energy-deposit/charge_collected.py:56 | `np.max` over every channel of a non-empty run of ticks: an upper bound that some tick attains |
| ChargeCollected.WindowMin | energy-deposit/charge_collected.py:56 | `np.min` over every channel of a non-empty run of ticks: a lower bound that some tick attains |
| ChargeCollected.SliceMaxAbove | energy-deposit/charge_collected.py:54-56 | the window's maximum exceeds the threshold iff some sample in ticks [lo, time] exceeds it |
| ChargeCollected.SliceMinBelow | energy-deposit/charge_collected.py:54-56 | the window's minimum is below the bound iff some sample in ticks [lo, time] is below it |
| ChargeCollected.CheckInduction | energy-deposit/charge_collected.py:45-56 | over ticks [max(0, time-15), time]: true iff some first-triplet sample exceeds 40 and some second-triplet sample is below -40; ValueError exactly when a reduced slice is empty, the second one only if the first test passed |
| ChargeCollected.PrefixStart | energy-deposit/charge_collected.py:184-187 | the window opened at t starts at most `prefix` ticks back, never below tick 0, and exactly `prefix` back unless clipped at 0 |
| ChargeCollected.SuffixEnd | energy-deposit/charge_collected.py:201-204 | the suffix added when closing at t ends within the record, at most `suffix` ticks on, exactly `suffix` unless clipped at the end, and always includes tick t |
| ChargeCollected.TickMax | energy-deposit/charge_collected.py:56 | the largest of one tick's three samples: bounds each of them and is one of them |
| ChargeCollected.TickMin | energy-deposit/charge_collected.py:56 | the smallest of one tick's three samples: bounded by each of them and is one of them |
| ChargeCollected.InductionStart | energy-deposit/charge_collected.py:50-52 | the induction window starts at tick 0 when fewer than 15 ticks precede `time`, and exactly 15 ticks back otherwise |
| ChargeCollected.WindowTotalSplits | energy-deposit/charge_collected.py:187-190 | the all-channel sum of a tick range is the sum of its three channel sums |
| ChargeCollected.MuonTickSkipped | energy-deposit/charge_collected.py:178-180 | a muon tick increments the muon counter and changes nothing else |
| ChargeCollected.NoOpenAtOrBelowThreshold | energy-deposit/charge_collected.py:181-198 | with no window open, a center sample at or below the threshold (equality included) changes nothing |
| ChargeCollected.OpenAddsClampedPrefix | energy-deposit/charge_collected.py:183-192 | opening at t adds exactly ticks [t - min(prefix, t), t] to every sum and emits nothing |
| ChargeCollected.ContinueAddsTick | energy-deposit/charge_collected.py:193-197 | an open window above threshold adds exactly the current tick to every sum |
| ChargeCollected.CloseAddsClampedSuffix | energy-deposit/charge_collected.py:198-237 | an accepted close adds exactly ticks [t, t + min(suffix, n - t)), appends the four sums and resets them to zero |
| ChargeCollected.GatedCloseRejects | energy-deposit/charge_collected.py:198-237 | a close rejected by the induction check appends nothing, increments the induction-skip count and resets the sums |
| ChargeCollected.GatedCloseRaises | energy-deposit/charge_collected.py:199-200 | a gated close whose induction check raises ends the record's scan with ValueError |
| ChargeCollected.ScanTick | energy-deposit/charge_collected.py:178-237 | one loop pass including the temporary overwrite of `prefix` and `suffix`: equals one `Step` of the fold, raises iff the step does, and leaves `prefix` and `suffix` at their configured values |
| ChargeCollected.ScanRecord | energy-deposit/charge_collected.py:172-237 | the tick loop of one record yields exactly the fold over all its ticks, with a still-open window dropped |
| ChargeCollected.ScanAdvances | energy-deposit/charge_collected.py:177-237 | a successful step at tick n extends the scan of the first n ticks to n + 1 ticks |
| ChargeCollected.ScanStopsAt | energy-deposit/charge_collected.py:238-239 | a step that raises ends the record with the tally it had before that tick, marked as raised |
| ChargeCollected.RaisedIsFinal | energy-deposit/charge_collected.py:238-239 | once a record's scan has raised, later ticks change nothing |
| ChargeCollected.ProcessRecords | energy-deposit/charge_collected.py:151-239 | the record loop equals the fold over all records; area lists stay aligned; mismatches are at most the records and, without gating or with induction waveforms as long as the record, exactly the failed extractions |
| ChargeCollected.AddWindowKeepsConsistent | energy-deposit/charge_collected.py:187-190 | adding a tick range keeps total == low + center + high |
| ChargeCollected.EmitKeepsAligned | energy-deposit/charge_collected.py:211-214 | appending consistent sums keeps the four lists of equal length with every total the sum of its three areas |
| ChargeCollected.CloseKeepsInvariant | energy-deposit/charge_collected.py:198-237 | a close that does not raise, accepted or rejected, keeps the sums consistent and the lists aligned |
| ChargeCollected.StepKeepsInvariant | energy-deposit/charge_collected.py:177-237 | every branch of a step, the resets included, keeps the sums consistent and the lists aligned |
| ChargeCollected.ScanKeepsInvariant | energy-deposit/charge_collected.py:172-237 | after any number of ticks a scan in progress has consistent sums and aligned lists |
| ChargeCollected.RunKeepsAligned | energy-deposit/charge_collected.py:160-239 | after any number of records the lists are aligned and the mismatch count is at most the number of records |
| ChargeCollected.ScanCountsMuons | energy-deposit/charge_collected.py:177-180 | a scan that did not raise counted exactly the muon ticks |
| ChargeCollected.ScanRaisesOnlyWhenGated | energy-deposit/charge_collected.py:199-200 | without gating a scan never raises and never skips for induction; with induction waveforms as long as the record it never raises |
| ChargeCollected.StepExtends | energy-deposit/charge_collected.py:211-231 | a step only appends to the area lists and never decreases a counter |
| ChargeCollected.ScanOnlyAppends | energy-deposit/charge_collected.py:177-237 | what the scan has produced after k ticks is a prefix of what it has produced after n >= k ticks |
| ChargeCollected.OpenWindowAtEndDiscarded | energy-deposit/charge_collected.py:177-198 | if no later tick can close the window, nothing more is appended or skipped, so a window open at the end is lost |
| ChargeCollected.MismatchesAreExtractFailures | energy-deposit/charge_collected.py:161-239 | without gating, or with covering induction waveforms, the mismatch count equals the number of failed extractions |
| ChargeCollected.MuonTicksRejectedExample | energy-deposit/charge_collected.py:178-180 | two all-channel 150 ticks are counted as muons and nothing is summed |
| ChargeCollected.SinglePulseExample | energy-deposit/charge_collected.py:177-231 | with prefix and suffix 1, the pulse 0,50,120,130,40,0,0 gives one window of center area 340 |
| ChargeCollected.PulseScan | energy-deposit/charge_collected.py:181-197 | the first four ticks of that pulse open the window at tick 2 with tick 1 as prefix and take in tick 3 |
| ChargeCollected.QuietTail | energy-deposit/charge_collected.py:198 | quiet ticks with no open window leave the tally unchanged |
| ChargeCollected.SilentInductionExample | energy-deposit/charge_collected.py:199-216 | the same pulse with gating and silent induction channels emits nothing and counts one induction skip |
| ChargeCollected.TruncatedTailExample | energy-deposit/charge_collected.py:177-198 | a record ending mid-pulse emits nothing |
| KDist.ManhattanDist | k-dist/k_dist.py:43-47 | the Manhattan distance is non-negative |
| KDist.ManhattanZeroIffSame | k-dist/k_dist.py:43-47 | the distance is zero iff the positions are equal |
| KDist.ManhattanSymmetric | k-dist/k_dist.py:43-47 | the distance is symmetric |
| KDist.ManhattanTriangle | k-dist/k_dist.py:43-47 | the distance obeys the triangle inequality |
| KDist.IdentifyPlane | k-dist/k_dist.py:49-58 | the plane is 0, 1 or 2 |
| KDist.PlaneBands | k-dist/k_dist.py:56-58 | plane 0 iff channel < 48, plane 1 iff 48 <= channel < 88, plane 2 iff channel >= 88 |
| KDist.PlaneMonotone | k-dist/k_dist.py:49-58 | the plane is monotone in the channel |
| KDist.RowHitsExactly | k-dist/k_dist.py:76 | the hits of one channel's first m ticks are exactly its positions above 200, in tick order |
| KDist.OrderedConcat | k-dist/k_dist.py:76 | concatenating two row-major lists, the first wholly before the second, stays row-major |
| KDist.HitsUpToExactly | k-dist/k_dist.py:76 | the hits of the first n channels are exactly their positions above 200, in row-major order |
| KDist.HitsAreAboveThreshold | k-dist/k_dist.py:76 | the hit list holds exactly the positions whose sample is strictly above 200, in the row-major order `np.where` uses |
| KDist.DistancesSplit | k-dist/k_dist.py:85-88 | a hit's distance list distributes over concatenation of the scanned hits |
| KDist.OtherPlaneIgnored | k-dist/k_dist.py:86-88 | a hit in another plane contributes nothing to the list |
| KDist.DistancesMembers | k-dist/k_dist.py:85-88 | every entry is the distance to a same-plane hit and every same-plane hit's distance is an entry |
| KDist.DistancesLength | k-dist/k_dist.py:85-88 | the list has exactly one entry per same-plane hit, the hit itself included |
| KDist.DistancesNonNegative | k-dist/k_dist.py:85-88 | every listed distance is non-negative |
| KDist.SelfAtDistanceZero | k-dist/k_dist.py:83-88 | a hit's own list contains 0 |
| KDist.KDistanceDefined | k-dist/k_dist.py:89-90 | `dist[k]` succeeds iff -count <= k < count for the number of same-plane hits, else IndexError |
| KDist.ZeroDistIsZero | k-dist/k_dist.py:83-90 | the 0-distance of every hit is 0 |
| KDist.KDistanceMonotone | k-dist/k_dist.py:89-90 | for a fixed hit the k-distance does not decrease as k grows |
| KDist.KDistanceIsKthSmallest | k-dist/k_dist.py:89-90 | the k-distance is the (k+1)-th smallest same-plane distance: at most k lie below it and more than k at or below it |
| KDist.PerHitUpTo | k-dist/k_dist.py:79-90 | one outcome per examined hit |
| KDist.PerHitUpToAt | k-dist/k_dist.py:79-90 | the i-th outcome is the k-distance of the i-th hit |
| KDist.PerHitAt | k-dist/k_dist.py:79-90 | the i-th outcome over all hits is the k-distance of the i-th hit |
| KDist.PerHit | k-dist/k_dist.py:79-90 | one outcome per hit of the record |
| KDist.CollectPerHit | k-dist/k_dist.py:79-90 | the outer loop's list exists iff every outcome so far succeeded, and then holds their values in order; otherwise the error is that of some hit |
| KDist.NoRecoveryAfterError | k-dist/k_dist.py:79-90 | once a hit has raised, later hits do not change the outcome |
| KDist.CollectAllOk | k-dist/k_dist.py:79-90 | when every hit succeeds the list is exactly their values |
| KDist.PerHitErrors | k-dist/k_dist.py:90 | a hit's outcome can fail only with IndexError |
| KDist.KDistResultShape | k-dist/k_dist.py:76-92 | the result fails iff some hit's k-distance fails, only with IndexError; otherwise it is a descending permutation of the per-hit values |
| KDist.AllZeroSorted | k-dist/k_dist.py:92 | sorting an all-zero list in descending order leaves it unchanged |
| KDist.ZeroDistAllZero | k-dist/k_dist.py:76-92 | with k = 0 the result is one zero per hit |
| KDist.SamePlaneDistances | k-dist/k_dist.py:80-88 | the inner loop builds exactly the same-plane distance list |
| KDist.KDistanceOfHit | k-dist/k_dist.py:80-90 | one outer pass (build, sort in place, index k) yields the hit's k-distance outcome |
| KDist.KDistance | k-dist/k_dist.py:76-92 | the loops fail with IndexError iff some hit's `dist[k]` fails; otherwise they return one value per hit, sorted descending, a permutation of the per-hit k-distances |
| Sorting.Insert | k-dist/k_dist.py:89 | insertion adds one element |
| Sorting.InsertAddsOne | k-dist/k_dist.py:89 | insertion adds exactly one occurrence of the value and keeps every other element |
| Sorting.InsertOrdered | k-dist/k_dist.py:89 | inserting into an ascending list keeps it ascending |
| Sorting.InsertKeepsOrder | k-dist/k_dist.py:89 | inserting into an ascending list keeps it ascending and adds exactly one occurrence |
| Sorting.SortAscending | k-dist/k_dist.py:89 | `list.sort()` keeps the length |
| Sorting.SortAscendingSorts | k-dist/k_dist.py:89 | `list.sort()` returns an ascending permutation of its input |
| Sorting.Reverse | k-dist/k_dist.py:92 | reversal keeps the length and mirrors the indices |
| Sorting.ReversePermutes | k-dist/k_dist.py:92 | reversal is a permutation |
| Sorting.SortDescending | k-dist/k_dist.py:92 | `sorted(reverse=True)` keeps the length |
| Sorting.SortDescendingSorts | k-dist/k_dist.py:92 | `sorted(reverse=True)` returns a non-increasing permutation of its input |
| Sorting.CountLess | k-dist/k_dist.py:89-90 | the number of elements below a value is at most the length |
| Sorting.CountAtMost | k-dist/k_dist.py:89-90 | the number of elements at most a value is at most the length |
| Sorting.CountsRespectPermutation | k-dist/k_dist.py:89-90 | rank counts depend only on the multiset of elements |
| Sorting.AscendingRank | k-dist/k_dist.py:89-90 | in an ascending list at most k elements lie below position k's element and more than k at or below it |
| Sorting.KthSmallest | k-dist/k_dist.py:89-90 | position k of the sorted list is the (k+1)-th smallest element of the input |
| AdcExtremaHistogram.SeqMaxIsMax | adc-extrema-histogram/adc_extrema_histogram.py:129 | `np.max` of a non-empty waveform is attained and bounds every sample |
| AdcExtremaHistogram.SeqMinIsMin | adc-extrema-histogram/adc_extrema_histogram.py:131 | `np.min` of a non-empty waveform is attained and bounds every sample from below |
| AdcExtremaHistogram.Reduce | adc-extrema-histogram/adc_extrema_histogram.py:29-39 | the chosen operator's result is the maximum or the minimum of the row |
| AdcExtremaHistogram.GetExtrema | adc-extrema-histogram/adc_extrema_histogram.py:29-39 | ValueError iff the rows are empty, otherwise one value per row, each that row's extremum |
| AdcExtremaHistogram.Lane | adc-extrema-histogram/adc_extrema_histogram.py:128 | a valid, possibly negative, channel index normalised to a column |
| AdcExtremaHistogram.WaveformSpec | adc-extrema-histogram/adc_extrema_histogram.py:128 | the waveform exists iff the channel indexes the columns (else IndexError), has min(800, ticks) samples, and each is that tick's sample of the channel |
| AdcExtremaHistogram.FirstIndex | adc-extrema-histogram/adc_extrema_histogram.py:130 | the index lies in the waveform and holds the value |
| AdcExtremaHistogram.FirstIndexIsFirst | adc-extrema-histogram/adc_extrema_histogram.py:130 | no earlier index holds the value |
| AdcExtremaHistogram.ExtremaOfSpec | adc-extrema-histogram/adc_extrema_histogram.py:129-131 | ValueError iff the waveform is empty; otherwise the maximum, the first tick reaching it, and the minimum of the clipped 50-tick slice from there, with min <= max |
| AdcExtremaHistogram.RecordOutcomeCases | adc-extrema-histogram/adc_extrema_histogram.py:126-135 | IndexError iff the record extracted and the channel is out of range; ValueError iff extraction failed or the waveform is empty; a success has its peak inside the 800-tick window and min <= max |
| AdcExtremaHistogram.Outcomes | adc-extrema-histogram/adc_extrema_histogram.py:125 | one outcome per record |
| AdcExtremaHistogram.OutcomesAt | adc-extrema-histogram/adc_extrema_histogram.py:125-135 | the i-th outcome is that of the i-th record |
| AdcExtremaHistogram.MaxSlots | adc-extrema-histogram/adc_extrema_histogram.py:122 | one maximum slot per record |
| AdcExtremaHistogram.MinSlots | adc-extrema-histogram/adc_extrema_histogram.py:123 | one minimum slot per record |
| AdcExtremaHistogram.Mismatches | adc-extrema-histogram/adc_extrema_histogram.py:134-135 | at most one mismatch per record |
| AdcExtremaHistogram.Survivors | adc-extrema-histogram/adc_extrema_histogram.py:132-133 | at most one stored result per record |
| AdcExtremaHistogram.SlotsAt | adc-extrema-histogram/adc_extrema_histogram.py:122-135 | slot i holds record i's values when it succeeded and stays 0 when it raised |
| AdcExtremaHistogram.SlotsMatch | adc-extrema-histogram/adc_extrema_histogram.py:122-135 | two arrays holding every record's slot values, index by index, are the slot lists of the records |
| AdcExtremaHistogram.TryRecord | adc-extrema-histogram/adc_extrema_histogram.py:126-131 | the try block run step by step on record idx yields that record's outcome |
| AdcExtremaHistogram.StoreOutcome | adc-extrema-histogram/adc_extrema_histogram.py:132-135 | a success writes both slots at idx and nothing else; a ValueError writes nothing and adds one mismatch; the filled prefix of both arrays grows by one record |
| AdcExtremaHistogram.ExtremaArrays | adc-extrema-histogram/adc_extrema_histogram.py:122-135 | two fresh arrays, one slot per record; the loop ends early iff some record raises IndexError; otherwise each slot holds its record's values (0 for a ValueError record) and the mismatch count is the number of ValueError records |
| AdcExtremaHistogram.MismatchesPartition | adc-extrema-histogram/adc_extrema_histogram.py:125-135 | with no IndexError, every record is either a mismatch or stored |
| AdcExtremaHistogram.NonzeroFilter | adc-extrema-histogram/adc_extrema_histogram.py:139-140 | the boolean mask never lengthens the array |
| AdcExtremaHistogram.NonzeroFilterSplits | adc-extrema-histogram/adc_extrema_histogram.py:139-140 | the mask distributes over concatenation, so order is kept |
| AdcExtremaHistogram.NonzeroFilterKeepsNonzero | adc-extrema-histogram/adc_extrema_histogram.py:139-140 | the masked array holds every nonzero value as often as the input does and no zero |
| AdcExtremaHistogram.NonzeroFilterIdempotent | adc-extrema-histogram/adc_extrema_histogram.py:139-140 | masking twice is masking once |
| AdcExtremaHistogram.MaxesOf | adc-extrema-histogram/adc_extrema_histogram.py:132 | one maximum per stored result |
| AdcExtremaHistogram.MinsOf | adc-extrema-histogram/adc_extrema_histogram.py:133 | one minimum per stored result |
| AdcExtremaHistogram.AsWrittenFiltersSurvivors | adc-extrema-histogram/adc_extrema_histogram.py:138-140 | the filtered arrays equal the stored results' values with their zeros dropped, each array on its own |
| AdcExtremaHistogram.MaxFilterSurvivors | adc-extrema-histogram/adc_extrema_histogram.py:139 | the filtered maximum array is the stored maxima with zeros dropped |
| AdcExtremaHistogram.MinFilterSurvivors | adc-extrema-histogram/adc_extrema_histogram.py:140 | the filtered minimum array is the stored minima with zeros dropped |
| AdcExtremaHistogram.ZeroMinimumRecord | adc-extrema-histogram/adc_extrema_histogram.py:126-131 | the record whose channel reads 5, 0, 0 is processed with maximum 5 at tick 0 and minimum 0 |
| AdcExtremaHistogram.GenuineZeroDropped | adc-extrema-histogram/adc_extrema_histogram.py:138-140 | for the record whose channel reads 5, 0, 0 (maximum 5, minimum 0, no mismatch), the filter keeps the maximum 5 but drops the minimum 0, so the two arrays fall out of step |
| AdcExtremaHistogram.KeepProcessed | adc-extrema-histogram/adc_extrema_histogram.py:138 | keeping only the slots of processed records never lengthens the array |
| AdcExtremaHistogram.KeepProcessedAligned | adc-extrema-histogram/adc_extrema_histogram.py:138 | keeping the slots of processed records gives exactly their maxima and minima, pairwise aligned |
| AdcExtremaHistogram.Histograms | adc-extrema-histogram/adc_extrema_histogram.py:138 | the corrected filter gives one maximum and one minimum per processed record |
| AdcExtremaHistogram.GenuineZeroKept | adc-extrema-histogram/adc_extrema_histogram.py:138 | under the corrected filter the same record gives maxima [5] and minima [0]: its genuine zero minimum is kept |

The following members are plain definitions with no contract of their own. Each
models the cited lines, and the members named after it state its properties:

- `ChargeCollected.Step` (energy-deposit/charge_collected.py:177-237), one pass of the tick loop: `MuonTickSkipped`, `NoOpenAtOrBelowThreshold`, `OpenAddsClampedPrefix`, `ContinueAddsTick`, `CloseAddsClampedSuffix`, `GatedCloseRejects`, `GatedCloseRaises`, `StepKeepsInvariant`, `StepExtends`.
- `ChargeCollected.Close` (energy-deposit/charge_collected.py:198-237), the closing branch: `CloseAddsClampedSuffix`, `GatedCloseRejects`, `GatedCloseRaises`, `CloseKeepsInvariant`.
- `ChargeCollected.ScanUpTo` (energy-deposit/charge_collected.py:177-237) and `ChargeCollected.Finish` (energy-deposit/charge_collected.py:238-239), the tick loop of one record and its result: `ScanRecord`, `ScanAdvances`, `ScanStopsAt`, `RaisedIsFinal`, `ScanKeepsInvariant`, `ScanCountsMuons`, `ScanRaisesOnlyWhenGated`, `ScanOnlyAppends`, `OpenWindowAtEndDiscarded`.
- `ChargeCollected.RunUpTo` (energy-deposit/charge_collected.py:160-239), the record loop: `ProcessRecords`, `RunKeepsAligned`, `MismatchesAreExtractFailures`.
- `ChargeCollected.AddWindow` (energy-deposit/charge_collected.py:187-190), `ChargeCollected.AddTick` (energy-deposit/charge_collected.py:194-197) and `ChargeCollected.Emit` (energy-deposit/charge_collected.py:211-214): `AddWindowKeepsConsistent`, `EmitKeepsAligned`, `OpenAddsClampedPrefix`, `ContinueAddsTick`, `CloseAddsClampedSuffix`.
- `KDist.Hits` (k-dist/k_dist.py:76): `HitsAreAboveThreshold`.
- `KDist.Distances` (k-dist/k_dist.py:80-88): `DistancesMembers`, `DistancesLength`, `DistancesNonNegative`, `SelfAtDistanceZero`, `SamePlaneDistances`.
- `KDist.KDistanceOf` (k-dist/k_dist.py:89-90): `KDistanceDefined`, `KDistanceIsKthSmallest`, `KDistanceMonotone`, `KDistanceOfHit`.
- `KDist.KDistResult` (k-dist/k_dist.py:76-92): `KDistResultShape`, `KDistance`.
- `KDist.OkValues` (k-dist/k_dist.py:90), the values of the successful outcomes: `CollectAllOk`, `KDistResultShape`.
- `AdcExtremaHistogram.Waveform` (adc-extrema-histogram/adc_extrema_histogram.py:128): `WaveformSpec`.
- `AdcExtremaHistogram.ExtremaOf` (adc-extrema-histogram/adc_extrema_histogram.py:129-131): `ExtremaOfSpec`.
- `AdcExtremaHistogram.RecordOutcome` (adc-extrema-histogram/adc_extrema_histogram.py:126-135): `RecordOutcomeCases`, `TryRecord`.

## Left out

- Reading HDF5 files and unpacking fragments through `fiftyl_toolkit` are foreign library calls. A record arrives already extracted, or as `ExtractFailed`, which stands for the `ValueError` the extraction step raises on a shape mismatch.
- Median baseline subtraction uses a float median. The waveforms are taken as already centred integers.
- numpy's fixed-width integers are modelled as unbounded `int`. This covers the window sums (energy-deposit/charge_collected.py:187-224) and the k-dist distances (k-dist/k_dist.py:43-47, 85-88). With 14-bit ADC samples and records of realistic length, these int64 values cannot wrap around.
- The extrema tool stores values in float arrays; the model stores the same integer values in `array<int>`.
- Plotting, histogram binning, saving arrays, argument parsing, directory creation, progress bars and `sys.exit` are I/O and are not modelled.
- Configuration comes in as parameters: the channel, the `--induction` flag, and `k` for k-dist.
- An `IndexError` in the extrema tool is not caught and ends the program. The model stops the record loop and reports `raised`, leaving the arrays in an unspecified state.
- `get_extrema` is never called by the extrema tool's `main`. It is modelled on its own.
- AdcExtremaHistogram.GetExtrema: reports `ValueError` whenever the matrix has width 0, even when it also has no rows. This follows numpy's refusal to reduce an empty axis; the exact numpy behaviour for a 0-by-0 array is not modelled separately.
- The k-dist plot and its histogram are not modelled; the model stops at the returned `k_distance` list.

## Findings

| source | as written | input that shows it | evidently intended | confidence | as-written member | corrected member |
|---|---|---|---|---|---|---|
| adc-extrema-histogram/adc_extrema_histogram.py:138-140 | every zero entry is dropped from each array, and the two arrays are filtered independently, although the comment says only the entries of mismatched records should go | one record whose raw channel reads 5, 0, 0: the median is 0, so the centred waveform is 5, 0, 0, with maximum 5 at tick 0, minimum 0 and no mismatch | drop exactly the slots of records that raised, keeping maxima and minima pairwise aligned | medium, not executed | AdcExtremaHistogram.GenuineZeroDropped | AdcExtremaHistogram.GenuineZeroKept |
