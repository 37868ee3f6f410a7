# Audio similarity search: a Dafny model

This project models the retrieval core of an audio-similarity tool. Each
recording is described by feature channels, one value per audio segment:
amplitude, pitch, loudness, zero-crossing rate and silent ratio. A query is
compared with every recording in a dataset, and the `k` closest file paths
come back. The model covers four pieces of logic:

- `euclidean_distance`. The distance between two channels is the smallest
  `|a - b|` over every pair of a value `a` of one channel and a value `b` of
  the other. Either channel may be of any length. If either is empty, the
  call fails.
- `find_nearest_neighbors`. Each dataset entry scores the mean of those
  distances, taken over the query's keys except `Audio_File`. The
  `(file, score)` pairs are sorted by ascending score with a stable sort, and
  the first `k` files are returned.
- The segment loop of `split_audio`. It cuts `n` samples into windows
  `[start, min(start + w, n))` whose starts advance by `w - o`.
- `calculate_silent_ratio`. It gives the share of samples whose magnitude is
  below a threshold.

Modules, one per file:

| file | module | what it holds |
|---|---|---|
| reals.dfy | `Reals` | `Abs`, `Sum`, `Mean` and their bounds |
| search_errors.dfy | `SearchErrors` | the failures a search can raise, and `Result` |
| distance.dfy | `SequenceDistance` | the cross-sequence minimum distance |
| stable_sort.dfy | `StableSort` | a stable insertion sort of `(file, score)` pairs |
| neighbors.dfy | `Neighbors` | scoring, ranking and taking the first `k` |
| windowing.dfy | `Windowing` | the `split_audio` segment loop |
| silence.dfy | `Silence` | the silent ratio |

Modelling choices:

- Channels are `seq<real>`. The reader of the feature file parses each
  channel as a list of floats, so `sqrt((a - b) ** 2)` is `|a - b|`.
- The query dict is an ordered `seq<Channel>`, in Python's insertion order.
  Dataset entries are `Entry(audioFile, channels: map<string, seq<real>>)`.
- Failures are values: `MissingChannel(name)` for the `KeyError` at the
  channel lookup, and `EmptySequence` for numpy's `min` of an empty matrix.
  The failure reported is the first one in dataset order, then query order.
  For one channel, a missing key is reported before an empty sequence,
  because the lookup happens before the distance.
- A query with no channel besides `Audio_File` averages no distances. numpy
  gives NaN for every entry, `list.sort` then keeps the list as it is, and
  the first `k` files come back in dataset order. `FindNearest` has this as
  a separate branch.
- `k` follows Python slicing: a negative `k` drops `|k|` files from the end
  (`SliceLength`, `Take`).
- An empty dataset returns `[]` without any error: the scoring loop runs no
  turns and the slice of an empty list is empty (`FindNearest`). Channels of
  an entry that the query does not name are never read, so an entry with
  extra channels scores like one without them (`ExtraChannelsIgnored`).
- Python's sort is Timsort. It is modelled as an insertion sort.
  `StableSort.StableSortUnique` proves that every stable ascending sort of
  the same pairs gives the same sequence, so the choice of algorithm cannot
  change the result.
- The silent ratio of an empty segment raises `ZeroDivisionError`. It is
  modelled as the `ZeroDivision` result.

## Model

| member | source | states |
|---|---|---|
| SequenceDistance.PointDistanceFacts | utils/k_nearest_neighbor.py:10 | the distance between two values is non-negative, zero exactly when they are equal, and symmetric |
| SequenceDistance.PointDistance | utils/k_nearest_neighbor.py:10 | definition of one matrix cell, `abs(a - b)`; `PointDistanceFacts` states what it satisfies |
| SequenceDistance.Distance | utils/k_nearest_neighbor.py:7-12 | the distance is defined exactly when both channels are non-empty; otherwise it fails with the empty-sequence error |
| SequenceDistance.RowMin | utils/k_nearest_neighbor.py:9-10 | definition of the minimum of one row of the matrix; `RowMinIsMinimum` proves it is the least cell of the row and is attained |
| SequenceDistance.CrossMin | utils/k_nearest_neighbor.py:7-12 | definition of `np.min(dists)` as the minimum over the rows; `CrossMinIsMinimum` proves it is the least cell of the matrix and is attained |
| SequenceDistance.DistanceIsMinimum | utils/k_nearest_neighbor.py:7-12 | the distance is at most the distance of every pair (a_i, b_j), equals the distance of some pair, and is non-negative |
| SequenceDistance.RowMinIsMinimum | utils/k_nearest_neighbor.py:9-10 | the minimum of one row of the matrix is at most every entry of the row and equals one of them |
| SequenceDistance.CrossMinIsMinimum | utils/k_nearest_neighbor.py:7-12 | the minimum over all rows is the minimum over the whole cross product |
| SequenceDistance.MinPairDistanceUnique | utils/k_nearest_neighbor.py:12 | a minimum of the cross product is unique, so the distance is fully described by its minimum property |
| SequenceDistance.MinPairDistanceTranspose | utils/k_nearest_neighbor.py:7-12 | the minimum of the matrix equals the minimum of its transpose |
| SequenceDistance.DistanceSymmetric | utils/k_nearest_neighbor.py:7-12 | swapping the two channels gives the same distance or the same failure |
| SequenceDistance.DistanceToSelf | utils/k_nearest_neighbor.py:7-12 | a non-empty channel is at distance 0 from itself |
| SequenceDistance.DistanceZeroIff | utils/k_nearest_neighbor.py:7-12 | the distance is 0 exactly when the two channels share a value |
| SequenceDistance.EuclideanDistance | utils/k_nearest_neighbor.py:3-13 | the nested loop over the matrix fails exactly on an empty channel; otherwise it returns the minimum pair distance, which equals the functional definition |
| SequenceDistance.MismatchedLengthsExample | utils/k_nearest_neighbor.py:7-12 | channels of lengths 2 and 1 are accepted: [0, 10] and [10] are at distance 0 |
| SequenceDistance.EmptyChannelFails | utils/k_nearest_neighbor.py:12 | an empty channel on either side fails with the empty-sequence error, not with 0 or NaN |
| Reals.Abs | utils/k_nearest_neighbor.py:10 | the magnitude is non-negative and equals x or -x |
| Reals.Mean | utils/k_nearest_neighbor.py:27 | definition of `np.mean` of a non-empty list, the sum over the length; `MeanWithin`, `MeanBetweenElements` and `MeanZeroIff` state what it satisfies |
| Reals.MeanWithin | utils/k_nearest_neighbor.py:27 | a mean of values in [lo, hi] lies in [lo, hi] |
| Reals.MeanNonNegative | utils/k_nearest_neighbor.py:27 | a mean of non-negative distances is non-negative |
| Reals.MeanBetweenElements | utils/k_nearest_neighbor.py:27 | the mean is at least one of the values and at most one of the values |
| Reals.MeanZeroIff | utils/k_nearest_neighbor.py:27 | a mean of non-negative values is 0 exactly when every value is 0 |
| StableSort.Insert | utils/k_nearest_neighbor.py:31 | inserting a pair adds exactly that pair to the multiset |
| StableSort.InsertSorted | utils/k_nearest_neighbor.py:31 | inserting into a sorted sequence keeps it sorted by score |
| StableSort.SortByScore | utils/k_nearest_neighbor.py:31 | the sort result is ascending by score and a permutation of its input |
| StableSort.InsertKeepsTies | utils/k_nearest_neighbor.py:31 | after inserting a pair into a list, every run of equal scores is the run it would be with the pair placed at the front |
| StableSort.SortByScoreIsStable | utils/k_nearest_neighbor.py:31 | for every score, the pairs with that score keep their input order |
| StableSort.SortByScoreIsStableSort | utils/k_nearest_neighbor.py:31 | the sort is sorted, a permutation, and stable |
| StableSort.StableSortUnique | utils/k_nearest_neighbor.py:31 | any two stable ascending sorts of the same pairs are equal, so Timsort and the insertion sort agree |
| Neighbors.QueryChannels | utils/k_nearest_neighbor.py:21-23 | the walk over the query's keys that skips `Audio_File` keeps no more channels than the query has; `QueryChannelsMembers`, `QueryChannelsSingle` and `QueryChannelsConcat` pin which channels are kept and in what order |
| Neighbors.QueryChannelsMembers | utils/k_nearest_neighbor.py:21-23 | a channel is compared exactly when it is a key of the query other than `Audio_File` |
| Neighbors.QueryChannelsSingle | utils/k_nearest_neighbor.py:22-23 | a single key is skipped exactly when it is `Audio_File` |
| Neighbors.QueryChannelsConcat | utils/k_nearest_neighbor.py:21-23 | filtering a concatenation gives the concatenation of the filters, so the kept keys stay in query order |
| Neighbors.ChannelDistances | utils/k_nearest_neighbor.py:20-25 | the per-channel distances are defined exactly when every query channel is present and both sequences are non-empty; distance i is that of channel i; otherwise the first failing channel's error is reported |
| Neighbors.DistancesNonNegative | utils/k_nearest_neighbor.py:24-25 | every per-channel distance is non-negative |
| Neighbors.EntryScore | utils/k_nearest_neighbor.py:20-27 | an entry's score is defined exactly when all its channels compare, and is then non-negative; otherwise it carries the first channel's failure |
| Neighbors.ScoreAll | utils/k_nearest_neighbor.py:19-28 | the pairs are defined exactly when every entry scores; pair i holds entry i's file and score; otherwise the first failing entry's error is reported |
| Neighbors.SliceLength | utils/k_nearest_neighbor.py:34 | a slice `[:k]` of n items keeps min(k, n) items when k >= 0, and drops min(-k, n) items from the end when k < 0 |
| Neighbors.Take | utils/k_nearest_neighbor.py:34 | `s[:k]` keeps the first min(k, len(s)) items for k >= 0, and for k < 0 is the part before the last min(-k, len(s)) items |
| Neighbors.Files | utils/k_nearest_neighbor.py:34 | definition of `[item[0] for item in ...]`, one file per pair; `FilesOfSort` states that sorting permutes the files |
| Neighbors.FindNearest | utils/k_nearest_neighbor.py:15-36 | the search succeeds exactly when every entry is comparable on the query's channels; the result has the slice length of the dataset, draws each file at most as often as the dataset holds it, and is empty for an empty dataset; a failure is the first failing entry's |
| Neighbors.FilesOfSort | utils/k_nearest_neighbor.py:31-34 | sorting the pairs permutes their files |
| Neighbors.ResultLength | utils/k_nearest_neighbor.py:34 | for k >= 0 the result has min(k, number of entries) files |
| Neighbors.NearestAreClosest | utils/k_nearest_neighbor.py:28-34 | the result is the files of a prefix of the stable ascending sort of the scored pairs; its scores never decrease; no pair left out scores below a returned one |
| Neighbors.AllReturnedWhenKCoversDataset | utils/k_nearest_neighbor.py:31-34 | when k reaches the dataset size, every dataset file comes back, as often as it occurs |
| Neighbors.TiesKeepDatasetOrder | utils/k_nearest_neighbor.py:31 | among pairs of equal score, the returned ones are the first ones in dataset order |
| Neighbors.WithScoreOfPrefix | utils/k_nearest_neighbor.py:34 | the run of a score in a prefix is a prefix of the run in the whole |
| Neighbors.NoDuplicatesWhenFilesDistinct | utils/k_nearest_neighbor.py:28-34 | when the dataset's file paths are distinct, the returned ones are distinct too |
| Neighbors.ExtraChannelsIgnored | utils/k_nearest_neighbor.py:21-24 | two entries that agree on the query's channels get the same distances, whatever other channels they hold |
| Neighbors.ScoreZeroIff | utils/k_nearest_neighbor.py:24-27 | an entry scores 0 exactly when every query channel shares a value with the entry's channel |
| Neighbors.ScoreBetweenChannelDistances | utils/k_nearest_neighbor.py:27 | the score lies between the smallest and the largest channel distance |
| Neighbors.ExampleEntryScores | utils/k_nearest_neighbor.py:20-27 | with query pitch [1], entry "a" (pitch [1]) scores 0 and entry "b" (pitch [5]) scores 4 |
| Neighbors.ExampleClosestFirst | utils/k_nearest_neighbor.py:15-36 | the same example with k = 1 returns ["a"] |
| Neighbors.ExampleMissingChannel | utils/k_nearest_neighbor.py:24 | an entry without the query's `pitch` key fails with that key |
| Neighbors.ExampleEmptyChannel | utils/k_nearest_neighbor.py:12 | an empty query channel fails with the empty-sequence error |
| Windowing.CountIsCeiling | utils/pre_process_data.py:103-106 | window k starts before the end exactly when k is below ceil(n / (w - o)) |
| Windowing.Windows | utils/pre_process_data.py:103-106 | closed form of the slice bounds, one window per segment; `WindowsInBounds`, `WindowStride`, `WindowsCover` and `SplitAudio` relate it to the loop |
| Windowing.WindowsInBounds | utils/pre_process_data.py:103-105 | every window starts before n, ends no later than n, and holds min(w, n - start) samples |
| Windowing.WindowLength | utils/pre_process_data.py:103-105 | for w >= 1 every segment holds between 1 and w samples |
| Windowing.FirstWindow | utils/pre_process_data.py:102-105 | there are no segments exactly when there are no samples, and the first starts at 0 |
| Windowing.WindowStride | utils/pre_process_data.py:103-106 | consecutive starts differ by exactly w - o |
| Windowing.NoWindowAfterLast | utils/pre_process_data.py:103-106 | one hop past the last window starts at or after n, which is why the loop stops there |
| Windowing.LastWindowEndsAtEnd | utils/pre_process_data.py:104-106 | for 0 <= o < w the last segment ends at the last sample |
| Windowing.WindowsCover | utils/pre_process_data.py:103-106 | every sample index lies inside some segment |
| Windowing.SplitAudio | utils/pre_process_data.py:101-106 | the loop stops after ceil(n / (w - o)) turns, and segment i is the slice of window i |
| Silence.CountSilent | utils/pre_process_data.py:84 | the number of silent samples is at most the length |
| Silence.CountSilentIsCardinality | utils/pre_process_data.py:84 | the count is the number of positions whose magnitude is below the threshold |
| Silence.CountSilentExtremes | utils/pre_process_data.py:84 | the count is the length exactly when every sample is silent, and 0 exactly when none is |
| Silence.CountSilentAppend | utils/pre_process_data.py:84 | the count of a concatenation is the sum of the counts |
| Silence.CountSilentMonotone | utils/pre_process_data.py:84 | a higher threshold never counts fewer samples |
| Silence.SilentRatio | utils/pre_process_data.py:72-90 | an empty segment divides by zero; otherwise the ratio lies in [0, 1], and is 1 exactly when every sample counts and 0 exactly when none does |
| Silence.SilentRatioExtremes | utils/pre_process_data.py:84-88 | the ratio is 1 exactly when every sample is silent, and 0 exactly when none is |
| Silence.SilentRatioMonotone | utils/pre_process_data.py:84-88 | a higher threshold never lowers the ratio |
| Silence.NonPositiveThresholdNoSilence | utils/pre_process_data.py:84-88 | with a threshold of 0 or below the ratio is 0 |
| Silence.SegmentRatioDefined | utils/pre_process_data.py:87-88 | every segment that the loop cuts with w >= 1 has a ratio, so the division by zero cannot happen there |
| Silence.ExampleRatio | utils/pre_process_data.py:72-90 | with the default threshold 0.01, three quiet samples out of four give 0.75 |

## Left out

- Reading audio (`librosa.load`), pitch tracking (`piptrack`) and zero crossings (`zero_crossings`) are library calls whose behaviour is not visible here. The segment loop takes the samples as a parameter.
- Loudness (`log10`), pitch and average amplitude are floating-point computations that depend on libraries, and are not modelled.
- The conversions `int(window_size_ms / 1000 * sr)` and `int(window_size * overlap_ratio)` are not modelled. The window size `w` and overlap `o` are given naturals, so a negative overlap ratio is not covered.
- Windowing.SplitAudio: requires `n == 0 || o < w`. With samples and a hop `w - o` of zero or less, the loop in the source never ends, and the model does not describe that run.
- Windowing.LastWindowEndsAtEnd: states only the case 0 <= o < w that the types allow, since negative overlaps are not modelled.
- Writing and reading the feature file (`save_features_to_csv`, `read_features_from_csv`, the header on a new file) is file I/O. It also round-trips floats through Python's text formatting, which is not modelled.
- Walking a folder of recordings (`save_audio_features_to_csv`, defined twice) is I/O orchestration.
- Neighbors.FindNearest: scores are real numbers, so IEEE effects are not modelled. Only the NaN score of a query without channels is modelled, by its effect on the order. Rounding, infinities and NaN values inside channels are not.
- Neighbors.FindNearest: the query is a sequence of channels and may repeat a name, which a Python dict cannot. Such a query is handled like any other, with one comparison per listed channel. The value of the query's `Audio_File` key is never read and is not modelled.
- Neighbors.NoDuplicatesWhenFilesDistinct: requires distinct file paths in the dataset. If the dataset repeats a path, the code can return that path twice.
- The `KeyError` that `item['Audio_File']` would raise for an entry without that key, after its channels have compared, is not modelled. Every `Entry` carries a file path, because the feature reader (utils/pre_process_data.py line 142) always sets that key.
