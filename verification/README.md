# Clustering: a Dafny model of the sensor-processing scripts

This project models a set of Python scripts that process accelerometer
and gyroscope recordings of study participants. The preprocessing, export,
euclidean clustering and manual separation scripts run over the ids
11..38; `kmeans_clustering.py`, `kmeans_todas_pessoas.py` and
`kmeans_clustering_original.py` run over a fixed list of thirteen ids:
3, 4, 5, 6, 11, 12, 14, 15, 16, 18, 23, 32 and 35.

**Sleep periods.** An interactive script asks for sleep periods as typed
clock times. It normalises each typed time to `HH:MM` and builds a
start/end interval, rolling it over midnight when needed. It then labels
every sample DORMINDO (asleep) or ACORDADO (awake) and splits each sensor
table. Finally it writes the periods to a text file.

**Reading the periods back.** A visualiser reads that file back with a
regular expression. It anchors each `HH:MM` pair to absolute times,
relative to the first recorded instant.

**K-means scripts.** Several scripts cluster fixed-size, non-overlapping
windows of the synchronised table:

- concatenated raw readings, in `kmeans_clustering.py`,
  `kmeans_todas_pessoas.py`, `kmeans_exploratorio.py` and
  `scripts/clustering_euclidiano/kmeans_clustering_original.py`;
- per-window spread and mean of the magnitudes, in the two copies of
  `kmeans_clustering_euclidean.py`.

Each script then names the clusters by ranking them on a per-window key.
They keep per-participant results and counters.

**Downsampling and exports.**

- Two scripts downsample the tables by keeping every 2nd or every 10th
  row.
- Two scripts locate the time and x/y/z columns by name and export clean
  tables.
- One script rewrites a clean table for Excel, with `;` separators and
  decimal commas.

**Manual separation.** A manual script classifies rows as movement or rest
by thresholding a rolling standard deviation.

## Time and library calls

Time is a whole number of seconds. A day is `DAY` = 86400 seconds, and the
date of an instant is the start of its day.

Library calls become parameters of the model:

- K-means labels, inertia and silhouette scores;
- square roots and standard deviations;
- number formatting and `astype(str)`;
- reading a CSV (`None` when it raises).

Typed lines and file contents are given as strings.

## One function, several copies

The scripts carry many copies of the same functions, and the model
defines each behaviour once:

- **Windowing.** The window loop `range(0, len(df) - w + 1, w)` is
  `Windowing.WindowFeatures` (concatenated rows) or
  `Windowing.SummaryFeatures` (magnitude summaries).
  `KmeansOriginal.CriarFeaturesJanela` adds the mean timestamp.
- **Cluster naming.** `map_clusters_to_movement` in its three copies is
  `ClusterNaming.MapClustersToMovement`. Each script supplies its own
  per-window key: slot 0 of the summary vector in both euclidean copies
  (`KmeansEuclidean.MapClustersToMovement`), or the mean accelerometer
  magnitude in the original script
  (`KmeansOriginal.MapClustersToMovement`).
- **The run over participants.** The loop over participants is in
  `Runs`:
  - a list of results with counters (`CollectResults`);
  - a dictionary keyed by id (`CollectIntoMap`);
  - success/failure counters over a boolean step (`CountOutcomes`).

## Model

| member | source | states |
|---|---|---|
| ClockInput.ZFill | scripts/separacao_visual/separacao_interativa.py:126-127 | the result is at least `width` long, ends with the input, and holds only '0's before it |
| ClockInput.KeepDigits | scripts/separacao_visual/separacao_interativa.py:131 | the kept characters are all digits and no more than the input |
| ClockInput.KeepDigitsMembers | scripts/separacao_visual/separacao_interativa.py:131 | a character is kept iff it occurs in the input and is a digit |
| ClockInput.KeepDigitsAllDigits | scripts/separacao_visual/separacao_interativa.py:131 | input made only of digits is kept whole |
| ClockInput.KeepDigitsAppend | scripts/separacao_visual/separacao_interativa.py:131 | the digits of a + b are the digits of a followed by those of b, so the digits keep their order |
| ClockInput.NormalizeEmpty | scripts/separacao_visual/separacao_interativa.py:117-119 | the input is refused as empty exactly when every character is Python whitespace (ASCII and Unicode spaces, NEL, line and paragraph separators) |
| ClockInput.NormalizeWithColon | scripts/separacao_visual/separacao_interativa.py:122-128 | with a ':' the input is accepted iff it splits into exactly two non-empty digit fields; the result is the two fields zero-padded to two, never truncated |
| ClockInput.NormalizeWithoutColon | scripts/separacao_visual/separacao_interativa.py:130-138 | without ':' only digits count: four give "DD:DD", three are left-padded first, any other count is refused |
| ClockInput.NormalizeShape | scripts/separacao_visual/separacao_interativa.py:122-136 | every accepted input normalises to digits, one ':', digits, with at least two digits on each side |
| ClockInput.ClockShapeIsNormal | scripts/separacao_visual/separacao_interativa.py:122-128 | a text of that shape is its own normal form |
| ClockInput.NormalizeIdempotent | scripts/separacao_visual/separacao_interativa.py:111-138 | normalising a normalised time returns it unchanged |
| ClockInput.ParseHourMinute | scripts/separacao_visual/separacao_interativa.py:147-148 | a time read with `%H:%M` is a minute of the day below 24*60 |
| ClockInput.FormatHourMinute | scripts/separacao_visual/separacao_interativa.py:156 | a rendered clock time is five characters |
| ClockInput.ParseFormatRoundTrip | scripts/separacao_visual/separacao_interativa.py:147-156 | reading back a rendered clock time gives the same minute of the day |
| ClockInput.FormatIsNormal | scripts/separacao_visual/separacao_interativa.py:156 | a rendered clock time is already in normal form |
| SleepPeriods.DayStart | scripts/separacao_visual/separacao_interativa.py:142 | the day start is a multiple of a day, at most the instant and less than a day before it |
| SleepPeriods.MakePeriodSound | scripts/separacao_visual/separacao_interativa.py:140-155 | an entry is kept iff both times normalise and read as `%H:%M`; a kept period starts on the base day and ends after its start, at most one day later |
| SleepPeriods.CollectStops | scripts/separacao_visual/separacao_interativa.py:101-103 | an empty start line ends the collection with what was gathered |
| SleepPeriods.ObterPeriodosSono | scripts/separacao_visual/separacao_interativa.py:89-163 | the prompt loop returns the collection of the typed lines; the period number is one more than the periods stored |
| SleepPeriods.CollectedPeriodsWellFormed | scripts/separacao_visual/separacao_interativa.py:150-155 | every stored period starts on the base day, ends after it starts and at most one day later |
| SleepPeriods.CollectedPeriodsCount | scripts/separacao_visual/separacao_interativa.py:96-157 | each stored period consumed two typed lines, so there are fewer than half as many periods as lines |
| SleepSplit.MarkPeriod | scripts/separacao_visual/separacao_interativa.py:174-175 | one masked assignment keeps the column length |
| SleepSplit.Marked | scripts/separacao_visual/separacao_interativa.py:168-179 | the state column has one entry per row |
| SleepSplit.MarkedMeaning | scripts/separacao_visual/separacao_interativa.py:168-179 | a row is DORMINDO iff its timestamp lies in at least one closed interval [inicio, fim] |
| SleepSplit.Select | scripts/separacao_visual/separacao_interativa.py:182-186 | a selection is never longer than the table |
| SleepSplit.Positions | scripts/separacao_visual/separacao_interativa.py:182-186 | the selected positions are row positions of the table |
| SleepSplit.PositionsExact | scripts/separacao_visual/separacao_interativa.py:182-186 | the positions labelled with a state ascend and are exactly the rows with that state |
| SleepSplit.SelectAtPositions | scripts/separacao_visual/separacao_interativa.py:182-186 | a selection keeps exactly the rows labelled with its state, in table order |
| SleepSplit.SplitPartition | scripts/separacao_visual/separacao_interativa.py:182-186 | the DORMINDO and ACORDADO tables together hold every row once: lengths add up and the multisets add up to the table |
| SleepSplit.SelectMembership | scripts/separacao_visual/separacao_interativa.py:182-186 | a sample is selected iff some row holding it has that state |
| SleepSplit.SplitMeaning | scripts/separacao_visual/separacao_interativa.py:168-193 | after marking, the asleep table holds exactly the rows inside some period and the awake table the others |
| SleepSplit.SepararDados | scripts/separacao_visual/separacao_interativa.py:165-193 | both tables are marked in place and the four returned tables are the selections; the rows are untouched |
| PeriodsFile.ClockText | scripts/separacao_visual/separacao_interativa.py:221 | `strftime('%H:%M')` gives two digits, ':', two digits |
| PeriodsFile.WritePeriodsFile | scripts/separacao_visual/separacao_interativa.py:217-221 | the writing loop produces the header, the rule and one numbered line per period |
| PeriodsFile.LinesCoverFile | scripts/separacao_visual/visualizar_separacao.py:43-44 | iterating over the lines of a file covers it exactly, with '\n' only at the end of a line |
| PeriodsFile.UniversalNewlinesSpec | scripts/separacao_visual/visualizar_separacao.py:43-44 | reading in text mode turns "\r\n" and a lone '\r' into '\n': no '\r' remains, text without '\r' reads as it is, and reading is idempotent |
| PeriodsFile.NoCarriageReturnRead | scripts/separacao_visual/visualizar_separacao.py:43-44 | text without '\r' reads unchanged |
| PeriodsFile.LinesOfTerminated | scripts/separacao_visual/visualizar_separacao.py:43-44 | lines written with a newline each are read back one by one |
| PeriodsFile.MatchLength | scripts/separacao_visual/visualizar_separacao.py:49 | a match of `\d{1,2}:\d{2}` is 4 or 5 characters long and fits in the line |
| PeriodsFile.FoundAreClockTokens | scripts/separacao_visual/visualizar_separacao.py:49 | everything `findall` returns is a whole match of the pattern |
| PeriodsFile.PairsAreClockTokens | scripts/separacao_visual/visualizar_separacao.py:49-51 | every pair read holds two clock-shaped texts |
| PeriodsFile.ReadPairs | scripts/separacao_visual/visualizar_separacao.py:42-52 | the reading loop returns the first two matches of every line that is not skipped, in file order |
| PeriodsFile.CarregarPeriodosSono | scripts/separacao_visual/visualizar_separacao.py:35-52 | a missing file gives no periods; otherwise the pairs read from its lines, split after universal-newline translation |
| PeriodsFile.HeaderSkipped | scripts/separacao_visual/visualizar_separacao.py:46 | the header line is skipped |
| PeriodsFile.RuleSkipped | scripts/separacao_visual/visualizar_separacao.py:46 | the line of '=' is skipped |
| PeriodsFile.PeriodLineTimes | scripts/separacao_visual/visualizar_separacao.py:49 | the pattern finds exactly the two clock times in a written period line |
| PeriodsFile.PeriodLineRead | scripts/separacao_visual/visualizar_separacao.py:45-51 | a written period line reads back as its (start, end) clock texts |
| PeriodsFile.ReadBackWritten | scripts/separacao_visual/visualizar_separacao.py:43-51 | reading a written periods file returns exactly the written (HH:MM, HH:MM) pairs in order |
| PeriodConvert.ConverterPeriodosParaTimestamps | scripts/separacao_visual/visualizar_separacao.py:55-91 | the conversion loop returns the conversion of the pairs, in order |
| PeriodConvert.StartPlacement | scripts/separacao_visual/visualizar_separacao.py:73-79 | the start lands in [ref, ref + 1 day), moved a day only when the same-day time is before ref |
| PeriodConvert.EndPlacement | scripts/separacao_visual/visualizar_separacao.py:82-87 | the end lands on the start's date, moved a day when not after the start, so start < end <= start + 1 day |
| PeriodConvert.PlaceSound | scripts/separacao_visual/visualizar_separacao.py:72-87 | placing raises iff an hour or minute is out of range; otherwise start and end are as above |
| PeriodConvert.ConvertAllFails | scripts/separacao_visual/visualizar_separacao.py:65-87 | the conversion fails iff some pair reads as two integers with an hour or minute out of range |
| PeriodConvert.ConvertAllSound | scripts/separacao_visual/visualizar_separacao.py:65-89 | at most one period per pair (pairs that do not read as integers are skipped); every period starts within a day from ref and ends after its start, at most a day later |
| PeriodConvert.PyIntOfDigits | scripts/separacao_visual/visualizar_separacao.py:67 | `int()` of plain decimal digits is their value |
| PeriodConvert.ReadClockDigits | scripts/separacao_visual/visualizar_separacao.py:67 | "DD:DD" reads as its two two-digit numbers |
| PeriodConvert.ReadClockText | scripts/separacao_visual/visualizar_separacao.py:67-68 | a written clock text reads back as the hour and minute of its instant |
| PeriodConvert.ConvertClockPairs | scripts/separacao_visual/visualizar_separacao.py:65-89 | converting the clock texts of periods succeeds one for one and keeps each clock time |
| PeriodConvert.WrittenPeriodsConvert | scripts/separacao_visual/visualizar_separacao.py:55-91 | periods written, read back and converted keep their minute of the day, one converted period per written one |
| Windowing.DivFromBounds | kmeans_clustering.py:89 | the number of whole windows is the largest count that fits |
| Windowing.WindowFits | kmeans_clustering.py:89-90 | every window of the loop lies inside the table |
| Windowing.WindowMembership | kmeans_clustering_euclidean.py:90-91 | row r lies in window k iff it is among the first (n / w) * w rows and k == r / w: windows do not overlap and cover all but the tail |
| Windowing.DroppedTail | kmeans_clustering.py:89 | exactly n % w trailing rows, fewer than a window, are dropped |
| Windowing.SumBounds | scripts/clustering_euclidiano/kmeans_clustering_original.py:104-106 | a sum of values between bounds lies between count times the bounds |
| Windowing.MeanBounds | scripts/clustering_euclidiano/kmeans_clustering_original.py:104-106 | a mean lies between any lower and upper bound of its values |
| Windowing.Flatten | kmeans_clustering.py:93-98 | a window of rows gives six values per row |
| Windowing.FlattenSlot | kmeans_clustering.py:93-98 | slot 6j + c of the vector is value c (x, y, z, gx, gy, gz) of row j |
| Windowing.ConcatRows | kmeans_clustering.py:93-98 | the inner loop builds the flattened window |
| Windowing.ConcatWindows | kmeans_clustering.py:89-100 | one vector per whole window |
| Windowing.WindowFeatures | kmeans_clustering.py:75-102 | one vector per whole window, n / w of them, each the flattened rows of its window |
| Windowing.FeatureSlot | kmeans_clustering.py:89-98 | vector k holds 6w values, slot 6j + c being value c of row kw + j |
| Windowing.Magnitudes | scripts/clustering_euclidiano/kmeans_clustering_euclidean.py:94-97 | one magnitude per row |
| Windowing.SummarySlots | scripts/clustering_euclidiano/kmeans_clustering_euclidean.py:100-105 | a summary vector has four slots |
| Windowing.SummaryFeatures | scripts/clustering_euclidiano/kmeans_clustering_euclidean.py:70-113 | one four-slot vector (accel std, accel mean, gyro std, gyro mean) and one timestamp, row kw + w/2, per whole window |
| Windowing.MiddleRowInWindow | scripts/clustering_euclidiano/kmeans_clustering_euclidean.py:110 | the chosen timestamp row lies in its own window |
| ClusterNaming.InsertUniqueSpec | scripts/clustering_euclidiano/kmeans_clustering_euclidean.py:143 | inserting an id keeps the list ascending and adds exactly that id |
| ClusterNaming.UniqueSpec | scripts/clustering_euclidiano/kmeans_clustering_euclidean.py:143 | `np.unique` gives the distinct labels, ascending, each once |
| ClusterNaming.Masked | scripts/clustering_euclidiano/kmeans_clustering_euclidean.py:148 | a cluster that occurs has at least one window |
| ClusterNaming.ClusterMeans | scripts/clustering_euclidiano/kmeans_clustering_euclidean.py:144-148 | the loop gives each distinct cluster the mean key of its windows |
| ClusterNaming.InsertByKey | scripts/clustering_euclidiano/kmeans_clustering_euclidean.py:151 | a stable insertion adds exactly one id |
| ClusterNaming.SortByKey | scripts/clustering_euclidiano/kmeans_clustering_euclidean.py:151 | sorting by mean is a permutation of the ids |
| ClusterNaming.InsertByKeyOrdered | scripts/clustering_euclidiano/kmeans_clustering_euclidean.py:151 | inserting a larger id keeps the order by key, ties by id |
| ClusterNaming.SortByKeyOrdered | scripts/clustering_euclidiano/kmeans_clustering_euclidean.py:151-152 | sorted ids ascend by mean, ties keeping ascending id order (sort stability) |
| ClusterNaming.MovementNamesDistinct | scripts/clustering_euclidiano/kmeans_clustering_euclidean.py:155-165 | different ranks get different names, with three clusters or with generic names |
| ClusterNaming.RankOf | scripts/clustering_euclidiano/kmeans_clustering_euclidean.py:162-165 | the rank of an id is its position in the ordered list |
| ClusterNaming.RankOfDistinct | scripts/clustering_euclidiano/kmeans_clustering_euclidean.py:162-165 | in a list without duplicates, the rank of the id at position r is r |
| ClusterNaming.AssignSpec | scripts/clustering_euclidiano/kmeans_clustering_euclidean.py:161-165 | every ranked id gets the name of its rank and no two ids share a name |
| ClusterNaming.MapClustersToMovement | scripts/clustering_euclidiano/kmeans_clustering_euclidean.py:136-175 | the ids are the distinct labels ranked by mean key, each named by rank, names distinct, and every window carries the name of its cluster |
| ClusterNaming.MeansRanked | scripts/clustering_euclidiano/kmeans_clustering_euclidean.py:148-152 | an order by the computed means ranks the clusters by the mean key of their windows |
| ClusterNaming.OrderedFacts | scripts/clustering_euclidiano/kmeans_clustering_euclidean.py:151-152 | a permutation of distinct ids holds the same ids, each once |
| ClusterNaming.UniqueCountOne | scripts/clustering_euclidiano/kmeans_clustering_euclidean.py:143 | an ascending list holds each id at most once |
| KmeansEuclidean.SpreadColumn | scripts/clustering_euclidiano/kmeans_clustering_euclidean.py:148 | one key per window |
| KmeansEuclidean.MapClustersToMovement | scripts/clustering_euclidiano/kmeans_clustering_euclidean.py:136-175 | the clusters are ranked by mean accelerometer spread (slot 0), and the naming is sound for that key |
| KmeansEuclidean.DistribuicaoGeral | scripts/clustering_euclidiano/kmeans_clustering_euclidean.py:346-360 | the tallies count the three names over all participants, and the total counts every window |
| KmeansEuclidean.ThreeNamesWithin | scripts/clustering_euclidiano/kmeans_clustering_euclidean.py:355-358 | within one participant the three names never outnumber the windows |
| KmeansEuclidean.TalliesWithinTotal | scripts/clustering_euclidiano/kmeans_clustering_euclidean.py:346-360 | the three tallies together never exceed the total number of windows |
| KmeansEuclidean.SharesBounded | scripts/clustering_euclidiano/kmeans_clustering_euclidean.py:362-363 | the shares are non-negative, sum to at most one, and are 0 when there are no windows |
| KmeansEuclidean.MovementsOf | scripts/clustering_euclidiano/kmeans_clustering_euclidean.py:355 | one label list per kept participant |
| KmeansEuclidean.AnalisarTodasPessoas | scripts/clustering_euclidiano/kmeans_clustering_euclidean.py:298-388 | participants 11..38 are analysed once each; the results are those that returned, in id order; successes + errors == 28; a distribution exists iff some participant returned, and it holds the shares |
| KmeansEuclidean.DistributionBounded | scripts/clustering_euclidiano/kmeans_clustering_euclidean.py:344-363 | the reported shares are proper fractions that sum to at most one |
| KmeansRoot.AnalisarTodasPessoas | kmeans_clustering_euclidean.py:313-351 | the result dictionary has exactly the ids in 11..38 whose analysis returned, each with its result, and at most 28 entries |
| KmeansOriginal.TimestampsOf | scripts/clustering_euclidiano/kmeans_clustering_original.py:104 | one timestamp per row |
| KmeansOriginal.CriarFeaturesJanela | scripts/clustering_euclidiano/kmeans_clustering_original.py:75-109 | one flattened vector and the mean of its timestamps per whole window |
| KmeansOriginal.MeanTimestampWithinWindow | scripts/clustering_euclidiano/kmeans_clustering_original.py:104-106 | on a table in time order, a window's mean timestamp lies between its first and last timestamps |
| KmeansOriginal.AccelNorms | scripts/clustering_euclidiano/kmeans_clustering_original.py:142-145 | one magnitude per point of the vector |
| KmeansOriginal.WindowMagnitudes | scripts/clustering_euclidiano/kmeans_clustering_original.py:133-147 | one mean magnitude per vector |
| KmeansOriginal.MeanAccelMagnitudePerWindow | scripts/clustering_euclidiano/kmeans_clustering_original.py:133-147 | the nested loops give each vector the mean accelerometer magnitude of its w points, read at slots 6j..6j+2 |
| KmeansOriginal.AccelNormsOfWindow | scripts/clustering_euclidiano/kmeans_clustering_original.py:143-145 | on a flattened window, point j's magnitude is that of row j's accelerometer axes |
| KmeansOriginal.MagnitudeReadsAccelOnly | scripts/clustering_euclidiano/kmeans_clustering_original.py:143-146 | vectors that agree on the accelerometer slots get the same mean magnitude: gyroscope values are never read |
| KmeansOriginal.MapClustersToMovement | scripts/clustering_euclidiano/kmeans_clustering_original.py:150-178 | the clusters are ranked by mean accelerometer magnitude, and the naming is sound for that key |
| KmeansOriginal.AnalisarTodasPessoas | scripts/clustering_euclidiano/kmeans_clustering_original.py:285-324 | the dictionary has exactly the 13 listed ids whose analysis returned, each with its result |
| KmeansExploratorio.MetodoCotovelo | kmeans_exploratorio.py:55-78 | the sweep returns iff every fit for k in 2..max_k returns; one inertia and one silhouette per k, the silhouette 0 unless 2 <= k < n |
| KmeansExploratorio.CompararTamanhosJanela | kmeans_exploratorio.py:107-143 | the loop returns the sweep records for window sizes 2..max_window |
| KmeansExploratorio.SweepStep | kmeans_exploratorio.py:120-143 | the sweep up to w extends the sweep up to w - 1 by the record of w |
| KmeansExploratorio.SweepRecordsSound | kmeans_exploratorio.py:120-143 | every record has a size in 2..hi, its window count n / w >= k, its inertia, and silhouette 0 when k < 2 or when the count is k |
| KmeansExploratorio.SweepAscending | kmeans_exploratorio.py:120-143 | records come in strictly ascending window size |
| KmeansExploratorio.SweepKeeps | kmeans_exploratorio.py:120-143 | a size that gives at least k windows is recorded |
| KmeansExploratorio.SweepComplete | kmeans_exploratorio.py:120-143 | a size in 2..hi is recorded iff it gives at least k windows |
| KmeansTodasPessoas.ProcessarPessoa | kmeans_todas_pessoas.py:59-85 | the summary is load, windows of two, cluster and count; any failure gives None, including fewer than two windows, on which `aplicar_kmeans` always raises |
| KmeansTodasPessoas.KeptSummariesHavePoints | kmeans_todas_pessoas.py:59-103 | every summary the run keeps has at least two points, so each percentage is defined |
| KmeansTodasPessoas.ResumoCounts | kmeans_todas_pessoas.py:75-82 | the point count is rows / 2, and with labels in {0, 1} the two cluster counts add up to the labels |
| KmeansTodasPessoas.TwoLabelCounts | kmeans_todas_pessoas.py:80-81 | labels drawn from {0, 1} are each counted once between the two counts |
| KmeansTodasPessoas.GridRows | kmeans_todas_pessoas.py:109-111 | four plots per row: enough rows for every plot and no empty row |
| KmeansTodasPessoas.PlotarTodasPessoas | kmeans_todas_pessoas.py:87-111 | the summaries of the listed participants that returned, in list order, and the grid rows for them |
| KmeansTodasPessoas.Percentual | kmeans_todas_pessoas.py:154 | for a summary with points, the share of cluster 1 in percent: never negative, at most 100 when cluster 1 is part of the windows, and 0 iff cluster 1 is empty |
| KmeansTodasPessoas.RedIffMajority | kmeans_todas_pessoas.py:154-155 | a bar is red iff cluster 1 holds more than half of the windows |
| Downsampling.StrideSpec | scripts/downsample_visualizacao/downsample_e_visualizar.py:25 | `iloc[::f]` holds ceil(n / f) rows, row k being input row kf |
| Downsampling.StrideOne | scripts/downsample_visualizacao/downsample_e_visualizar.py:25 | a factor of 1 keeps every row |
| Downsampling.StrideKeepsFirst | scripts/downsample_visualizacao/downsample_e_visualizar.py:25 | a non-empty table keeps its first row |
| Downsampling.StrideOrder | scripts/downsample_visualizacao/downsample_e_visualizar.py:25 | kept rows keep their relative order |
| Downsampling.FazerDownsampling | scripts/preprocessing/downsampling_script.py:20-53 | success iff the read succeeds; the counts are the rows read and ceil(n / 2); both 0 on failure |
| Downsampling.HalfKeepsEvenRows | scripts/preprocessing/downsampling_script.py:39 | exactly rows 0, 2, 4, ... are written |
| Downsampling.HeaderOnlyFileRaises | scripts/preprocessing/downsampling_script.py:78 | a header-only file is read with 0 rows, and the reduction print then divides by zero |
| Downsampling.Reducao | scripts/preprocessing/downsampling_script.py:78 | the reduction is defined iff the original count is positive |
| Downsampling.ProcessarPessoa | scripts/preprocessing/downsampling_script.py:55-98 | each flag is set iff that sensor's downsampling succeeded |
| Downsampling.AsWrittenAgreesOnNonEmpty | scripts/preprocessing/downsampling_script.py:55-98 | the written and the corrected versions agree whenever no successful read was empty |
| Downsampling.CountAny | scripts/preprocessing/downsampling_script.py:126-127 | at most one person per flag pair |
| Downsampling.CountersBounds | scripts/preprocessing/downsampling_script.py:116-132 | each sensor counter is at most the people processed, who are at most the sum of the two |
| Downsampling.AllFlags | scripts/preprocessing/downsampling_script.py:122 | one flag pair for each of the 28 people |
| Downsampling.MainCounters | scripts/preprocessing/downsampling_script.py:116-132 | over the corrected `processar_pessoa`, the three counters count the people with any, accelerometer and gyroscope success, with the bounds above |
| Downsampling.AsWrittenRaisesIff | scripts/preprocessing/downsampling_script.py:55-98 | the written `processar_pessoa` raises iff a read returns a header-only table; otherwise it gives the corrected flags |
| Downsampling.MainAsWritten | scripts/preprocessing/downsampling_script.py:116-132 | the written `main` ends with ZeroDivisionError iff some person of 11..38 has a header-only file, at the first such person; otherwise its counters are those of the corrected run |
| Downsampling.SuperDownsampleAll | scripts/downsample_visualizacao/downsample_e_visualizar.py:28-139 | ids 11..38 are attempted in order; a table is written iff its read succeeds (the gyroscope only after the accelerometer succeeded), and it is every 10th row |
| Runs.FirstIndex | DATA/SuperDownsample_Data/view_downsample.py:31-50 | the index found is the first column passing the test, or the column count; the same search finds the first id whose step raises |
| ColumnDetection.Scan | DATA/SuperDownsample_Data/view_downsample.py:33-35 | `None` iff no column passes; otherwise the first column that passes |
| ColumnDetection.TimestampHoldsTime | DATA/SuperDownsample_Data/view_downsample.py:25 | the 'timestamp' test adds nothing to the 'time' test |
| ColumnDetection.FindTimeColumn | DATA/SuperDownsample_Data/view_downsample.py:22-27 | the first column whose lower-cased name holds "time", else the first column |
| ColumnDetection.FindAxisColumn | DATA/SuperDownsample_Data/view_downsample.py:30-50 | a column found is one of the columns |
| ColumnDetection.ExactMatchWins | DATA/SuperDownsample_Data/view_downsample.py:31-35 | the earliest exact case-insensitive match is returned, whatever the later passes would find |
| ColumnDetection.FourthPassRedundant | DATA/SuperDownsample_Data/view_downsample.py:46-49 | the one-letter pass never decides: the result is that of the first three passes |
| ColumnDetection.FoundNameNonEmpty | DATA/SuperDownsample_Data/view_downsample.py:73 | with a non-empty axis a found name is never empty, so the truth test is the test for `None` |
| ColumnDetection.PassNeedsName | DATA/SuperDownsample_Data/view_downsample.py:30-50 | the empty name passes none of the four tests |
| ColumnDetection.SelectColumns | DATA/SuperDownsample_Data/view_downsample.py:73-78 | the selection is `[time_col, x_col, y_col, z_col]`: the detected time column, then the detected x, y and z columns, all columns of the table |
| ColumnDetection.SelectColumnsIffAxes | DATA/SuperDownsample_Data/view_downsample.py:73-78 | the export goes ahead iff all three axes are found |
| ColumnDetection.ViewMain | DATA/SuperDownsample_Data/view_downsample.py:53-93 | status 1 iff the input is missing, has no header line (the uncaught `read_csv` error) or lacks an axis; otherwise the detected time, x, y and z columns, in that order, are written under time, x, y, z |
| ColumnDetection.ProcessId | DATA/SuperDownsample_Data/export_all_clean.py:41-65 | raises iff the input exists without a header line; `True` iff the input has a header and all three axes are found |
| ColumnDetection.ExportAllMain | DATA/SuperDownsample_Data/export_all_clean.py:68-80 | the run ends with the exception of the first participant of 11..38 whose input has no header line; without one, the successes count the participants whose export went ahead and successes + failures == 28 |
| ExcelExport.Present | DATA/SuperDownsample_Data/export_for_excel.py:22 | a column is kept iff it is expected and present |
| ExcelExport.SelectExpected | DATA/SuperDownsample_Data/export_for_excel.py:19-22 | the output columns are those of time, x, y, z that are present; all others are dropped |
| ExcelExport.PresentOrdered | DATA/SuperDownsample_Data/export_for_excel.py:22 | kept columns are a subsequence of the expected list: its order is kept |
| ExcelExport.PresentDistinct | DATA/SuperDownsample_Data/export_for_excel.py:22 | from a list without repetitions, each kept column is kept once |
| ExcelExport.SelectExpectedOrdered | DATA/SuperDownsample_Data/export_for_excel.py:19-22 | the selected columns appear in the fixed order time, x, y, z, each at most once |
| ExcelExport.DecimalCommaSpec | DATA/SuperDownsample_Data/export_for_excel.py:28 | every '.' becomes ',' and every other character is kept in place; same length, and no '.' remains |
| ExcelExport.DecimalCommaRoundTrip | DATA/SuperDownsample_Data/export_for_excel.py:28 | on text without ',', turning the commas back into points restores it |
| ExcelExport.RewriteCellsSpec | DATA/SuperDownsample_Data/export_for_excel.py:28 | a column is rewritten iff all its cells are numbers; then each cell is its formatted number with a decimal comma |
| ExcelExport.TimeCells | DATA/SuperDownsample_Data/export_for_excel.py:32 | the time column keeps its length |
| ExcelExport.RewriteAxisSpec | DATA/SuperDownsample_Data/export_for_excel.py:25-28 | rewriting one axis keeps the keys and lengths and leaves the other columns alone |
| ExcelExport.ConvertedIffNumeric | DATA/SuperDownsample_Data/export_for_excel.py:16-32 | the conversion succeeds iff the x, y and z columns present are numeric |
| ExcelExport.ConvertedShape | DATA/SuperDownsample_Data/export_for_excel.py:19-32 | a converted table keeps exactly the selected columns with their row counts, and its time column is the text of the original time cells |
| ExcelExport.ConvertedAxis | DATA/SuperDownsample_Data/export_for_excel.py:25-28 | each cell of a present axis is the six-decimal text of its number with a decimal comma |
| ExcelExport.Frame.constructor | DATA/SuperDownsample_Data/export_for_excel.py:17 | the frame holds the columns and cells read |
| ExcelExport.Frame.Select | DATA/SuperDownsample_Data/export_for_excel.py:22 | the frame is reduced to the selected columns in place |
| ExcelExport.Frame.FormatAxis | DATA/SuperDownsample_Data/export_for_excel.py:26-28 | one axis column is rewritten in place, or the rewrite raises |
| ExcelExport.Frame.TimeAsText | DATA/SuperDownsample_Data/export_for_excel.py:31-32 | the time column, if present, is replaced by its text in place |
| ExcelExport.ConvertFile | DATA/SuperDownsample_Data/export_for_excel.py:16-35 | the frame is reduced to the selected columns; the conversion succeeds iff the table converts, and then the frame holds the converted table |
| ExcelExport.PersonIdSpec | DATA/SuperDownsample_Data/export_for_excel.py:45 | the id holds no '_'; a stem without '_' is its own id; `acelerometro_<id>` gives back the id |
| ExcelExport.OutputNameInjective | DATA/SuperDownsample_Data/export_for_excel.py:46 | distinct ids give distinct output files |
| ExcelExport.OutputNames | DATA/SuperDownsample_Data/export_for_excel.py:44-46 | one output name per input file |
| ExcelExport.ExportMain | DATA/SuperDownsample_Data/export_for_excel.py:39-47 | nothing is written without files; the files are converted in the given order and named after their ids; a conversion that raises ends the run after the outputs before it |
| MotionThreshold.ClassifyMonotone | scripts/separacao_manual/visualizacao_manual.py:178-180 | raising the threshold never turns a row to movement; an undefined (NaN) deviation is rest |
| MotionThreshold.RollingStd | scripts/separacao_manual/visualizacao_manual.py:172-173 | one deviation per row |
| MotionThreshold.Estados | scripts/separacao_manual/visualizacao_manual.py:178-180 | one state per row |
| MotionThreshold.EstadosSpec | scripts/separacao_manual/visualizacao_manual.py:172-180 | a row is movement iff a full 50-row window is centred on it and its deviation exceeds the threshold; tables under 50 rows are all rest |
| MotionThreshold.StatesPartition | scripts/separacao_manual/visualizacao_manual.py:183-185 | every row gets exactly one state: parado + movimento == total |
| MotionThreshold.Magnitudes | scripts/separacao_manual/visualizacao_manual.py:70-80 | one magnitude per row |
| MotionThreshold.Frame.constructor | scripts/separacao_manual/visualizacao_manual.py:156 | a frame as given to the separation holds its axes and none of the columns the separation adds |
| MotionThreshold.Frame.SepararManualMovimento | scripts/separacao_manual/visualizacao_manual.py:156-196 | the magnitude, deviation and state columns are added to the given frame, whose rows are unchanged; movement iff the deviation is defined and above the threshold; parado + movimento == total_pontos |
| MotionThreshold.RunAll | scripts/separacao_manual/visualizacao_manual.py:296-305 | participants 11..38 are analysed once each; successes count the `True` results and successes + errors == 28 |
| Runs.Range | scripts/preprocessing/downsampling_script.py:5 | `range(lo, hi)` as a list |
| Runs.DownsampledIds | scripts/preprocessing/downsampling_script.py:5 | the 28 ids 11..38, ascending |
| Runs.ListedIds | kmeans_todas_pessoas.py:89 | the 13 listed ids, ascending |
| Runs.Successes | kmeans_todas_pessoas.py:96-103 | no more results than ids |
| Runs.SuccessesSound | scripts/clustering_euclidiano/kmeans_clustering_euclidean.py:316-334 | every kept result is an id of the list with the result of its analysis |
| Runs.SuccessesComplete | scripts/clustering_euclidiano/kmeans_clustering_euclidean.py:316-334 | every id whose analysis returned is kept |
| Runs.SuccessesOrdered | scripts/clustering_euclidiano/kmeans_clustering_euclidean.py:316-334 | results keep the ascending id order |
| Runs.CollectResults | scripts/clustering_euclidiano/kmeans_clustering_euclidean.py:308-334 | the loop keeps the results that returned; sucessos counts them and sucessos + erros == the ids |
| Runs.CountPassing | scripts/separacao_manual/visualizacao_manual.py:300-305 | no more successes than ids |
| Runs.CountPassingExtremes | scripts/separacao_manual/visualizacao_manual.py:300-305 | the count is the whole list iff every step succeeds, and 0 iff none does |
| Runs.CountOutcomes | DATA/SuperDownsample_Data/export_all_clean.py:69-76 | the successes are the count of passing ids and successes + failures == the ids |
| Runs.CountOutcomesOrRaise | DATA/SuperDownsample_Data/export_all_clean.py:69-76 | a loop without `try` ends with the first raising id; when none raises, the successes are the count of passing ids and successes + failures == the ids |
| Runs.CollectIntoMap | kmeans_clustering.py:231-250 | the dictionary has exactly the ids whose analysis returned, each with its result |
| Runs.KeysFromList | kmeans_clustering.py:229-256 | a dictionary keyed by ids of a list has at most as many entries |
| Text.SplitOnJoin | scripts/separacao_visual/separacao_interativa.py:123 | the pieces of `split` hold no separator and join back to the string |
| Text.SplitJoin | scripts/separacao_visual/separacao_interativa.py:123 | separator-free pieces joined with the separator split back into themselves |
| Text.StripEmptyIff | scripts/separacao_visual/separacao_interativa.py:117-118 | a stripped string is empty iff every character is Python whitespace (ASCII and Unicode spaces, NEL, line and paragraph separators) |

## Left out

- Input and output. These are left out: reading CSV files and directories, `mkdir`, writing CSVs (the written tables are returned), printing, and plotting with matplotlib. A read is a parameter that returns `None` when pandas raises.
- scikit-learn. `StandardScaler`, `KMeans` and `silhouette_score` are not modelled: cluster labels, inertia and silhouette scores are parameters.
- Floating point. Values are exact reals. Square roots, vector norms and standard deviations are given functions, and NaN is `None`. Rounding is not modelled.
- Clock and calendar parsing. `pd.to_datetime` and `datetime.combine(...).replace(...)` work on whole seconds from an epoch that starts at midnight. Time zones, leap seconds and dates as text are not modelled.
- `merge_asof` synchronisation. The nearest-timestamp join with a 0.1 s tolerance and the `dropna` after it are not modelled: the synchronised table is the input of every clustering model.
- `carregar_dados_pessoa`. The per-participant file paths (and the special case of participant 3) are folded into the `load`/`analyze` parameters.
- Formatting. `'{:.6f}'.format` and `astype(str)` are the parameters `fmt` and `show` of `ExcelExport`.
- File order. `sorted(glob(...))` is not modelled: the stems are given already sorted.
- Character case. `str.lower()` is modelled on ASCII letters only, in `Text.Lower`.
- Text.IsDigit: `str.isdigit()` is modelled on the ASCII digits only; Python also accepts other Unicode digits (superscripts, Arabic-Indic digits and the like), which no typed clock time or CSV header in these scripts is expected to hold.
- Mean timestamp fallback. In `kmeans_clustering_original.py` the fallback to the first timestamp when `mean()` raises is left out, because the mean of numeric timestamps does not raise.
- Empty windows. A window size of 0, for which `range` would raise, is excluded by `requires w >= 1`. Every script passes a positive size.
- Dead code. In the root `kmeans_clustering_euclidean.py`, the second naming block after the `return` of `map_clusters_to_movement` (lines 175-189) is unreachable and is not modelled. The `[DEBUG]` loop before that `return` runs on every call but only prints, so it falls under input and output.
- The manual separation is not called. `main` of `visualizacao_manual.py` only loads and plots, so `separar_manual_movimento` is modelled as a method on a frame. `MotionThreshold.RunAll` takes the outcome of `analisar_pessoa` as a parameter.
- Rolling window alignment. The pandas alignment of a centred rolling window of even size is taken as rows `i - 25 .. i + 24`, with the default `min_periods` equal to the window.
- `verificar_timestamps.py` and `visualizacao_amostras.py` (diagnostic printing and plotting) are not part of this model.
- Missing values. `pd.read_csv` reads an empty numeric field as NaN, which `'{:.6f}'.format` writes as `nan`; `ExcelExport.Cell` has no NaN cell, so such a field is outside the model.
- ExcelExport.ConvertFile: when a rewrite raises, the partially rewritten frame is not described, because the exception ends the run and the frame is discarded.
- Downsampling.MainCounters: counts over the corrected `processar_pessoa`. The script as written stops at the first header-only file; that run is `Downsampling.MainAsWritten`.
- ColumnDetection.FindAxisColumn: its own contract only says that a found name is a column. The order of the passes is stated by `ColumnDetection.ExactMatchWins` and `ColumnDetection.FourthPassRedundant`.
- KmeansOriginal.MeanTimestampWithinWindow: assumes timestamps in ascending order, as after `merge_asof`, which sorts by timestamp.

## Findings

| source | as written | input that shows it | evidently intended | confidence | as-written member | corrected member |
|---|---|---|---|---|---|---|
| scripts/preprocessing/downsampling_script.py:78 | the reduction percentage divides by the original row count after a successful read | an accelerometer CSV with a header and no data rows: it reads with 0 rows, so `pontos_final/pontos_orig` raises ZeroDivisionError, which escapes `processar_pessoa` and ends `main` (`Downsampling.HeaderOnlyFileRaises`) | report the downsampled (empty) file and set the sensor's flag, as for any successful read | not executed | Downsampling.ProcessarPessoaAsWritten | Downsampling.ProcessarPessoa |
