# NetToxAnalysis: resampler and estimation loop in Dafny

This project models the two pieces of discrete logic in the NetToxAnalysis
pipeline and proves properties about them.

1. **The adaptive dual-window resampler** (`4_resample.py`). Each channel's
   scored messages are counted in 5-minute buckets. Every bucket then gets
   an estimate (`retox`):
   - A bucket holding at least five messages takes Tier 1 (`mav_true`): the
     mean of the channel's scores in the closed window `[t, t + 5min]`,
     provided that window holds at least five scores.
   - Any other bucket takes Tier 2 (`mav_false`): the mean of the latest five
     (at most) of the channel's scores in the closed trailing day
     `[t + 5min - 1day, t + 5min]`.
   - An estimate is missing when its tier finds no evidence.
2. **The sliding-window estimation loop** (`5_estimate.py`):
   - The resampled long frame is pivoted into a wide frame, with one row per
     bucket start and one column per channel.
   - The columns are numbered with global IDs.
   - The wide frame is cut into consecutive windows of `window_size` rows.
   - Each window drops the channels that have a missing cell, and its
     surviving channels get local IDs.
   - The estimator's result and the local-to-global ID map are stored under
     the window's first valid timestamp.
   - The estimator (IDTxl's `MultivariateTE`) is a function parameter
     `analyse: Frame -> R`.

Layout: one module per file.

| file | module | contents |
|---|---|---|
| `wrappers.dfy` | `Wrappers` | `Option` |
| `ordering.dfy` | `Ordering` | strict orders, sortedness, Python string order, sorted de-duplication |
| `stats.dfy` | `Stats` | sum, min, max and mean of reals (`np.average`) |
| `buckets.dfy` | `Buckets` | observations, buckets, `groupby(source).resample('5T').count()` |
| `averaging.dfy` | `Averaging` | `.loc` windows, `tail(5)`, `mav_true`, `mav_false`, `re_tox` |
| `resample.dfy` | `Resample` | the whole resampled frame over all channels |
| `pivot.dfy` | `Pivoting` | frames, `pd.pivot` |
| `ids.dfy` | `Ids` | `dict(zip(labels, range(n)))`, the ID remap |
| `estimation.dfy` | `Estimation` | `iloc`, `dropna`, `first_valid_index`, the window loop |
| `pipeline.dfy` | `Pipeline` | the hand-over from the resampler to the estimator |

Modelling choices:
- Timestamps are whole seconds (`int`), and a bucket starts at `floor(t / 300) * 300`. Because a day is a whole number of buckets, pandas' midnight-anchored `5T` bins give the same starts.
- Scores are exact `real`s. A missing estimate or cell (NaN in pandas) is `None`.
- `str(first_valid_index())` is modelled as an `Option<int>`: `None` stands for the string `"None"`. `str` is injective on timestamps, so equal keys in the model are equal keys in the source.
- Windows are pandas slices with Python's bound normalisation. A negative bound counts from the end, and bounds are clamped to the frame. This keeps negative or oversized window sizes faithful.
- The resampler's observations `data` stand for the frame after `set_index(...).sort_index()`. Only `tail(5)` depends on their order, and the claim that it keeps the latest observations (`Averaging.KeptAreLatest`) requires `SortedByTime(data)`.
- The estimator reads the resampler's buckets back as rows `(source, bucket start, retox)` (`Pipeline.ToRows`). That the CSV round trip between the two scripts gives back exactly these rows is assumed, not proved (see "Left out").

What the code does at its edges:
- **Window keys.** Results are stored under `str(first_valid_index())`, so windows with equal keys overwrite each other and there can be fewer than `iterations` results. Every window with no rows or no surviving channel keys on `"None"` (`Estimation.WindowKey`, `Estimation.RunKeys`, `Estimation.RunLastWins`).
- **ID maps of windows without rows or full channels.** The local ID table is built for every window. A window that has rows but no channel without a missing cell gets an empty ID map (`Estimation.ConversionSelects`). A window that starts past the last row has no rows, so `dropna(axis=1, how='any')` keeps every column; its ID map is the identity on all global IDs (`Estimation.PastEndWindow`, `Estimation.PastEndIdentity`).
- **Tier 1 after the gate.** When every score is present, a bucket that passes the `count >= 5` gate always has a defined Tier 1: the half-open bucket `[t, t + 5min)` lies inside the closed window `[t, t + 5min]` (`Resample.Tier1DefinedWhenGated`). With a missing score the program's Tier 1 can be NaN even so, because `count()` skips missing scores while `len(values)` and `np.average` do not; such observations are outside the model (see "Left out").

## Model

| member | source | states |
|---|---|---|
| Buckets.OfChannelSound | 4_resample.py:50 | every observation selected for a channel comes from the data |
| Buckets.OfChannelComplete | 4_resample.py:50 | every observation of the channel is selected |
| Buckets.OfChannelMultiset | 4_resample.py:65 | `OfChannel` keeps each observation of the channel exactly as often as it occurs in the data, and no other observation |
| Buckets.OfChannelSorted | 4_resample.py:16 | selecting a channel from time-sorted data keeps time order |
| Buckets.BucketIndex | 4_resample.py:21 | the bucket of time `t` starts at or before `t` and ends after it, at multiples of 300 s |
| Buckets.PresampleEmpty | 4_resample.py:19-22 | `Presample`: a channel has no buckets exactly when it has no observation |
| Buckets.PresampleShape | 4_resample.py:19-25 | a channel's buckets start 5-minute aligned and are consecutive; each belongs to the channel and counts its observations in `[start, start + 5min)`; each starts with a missing `retox` |
| Buckets.PresampleBucket | 4_resample.py:19-25 | one bucket: its channel, its count over the half-open interval, and its missing estimate |
| Buckets.PresampleCovers | 4_resample.py:19-22 | every observation of a channel lies in exactly one of its buckets |
| Buckets.PresampleEndsOccupied | 4_resample.py:19-22 | the first and the last bucket of a channel each hold an observation, so the range spans exactly the channel's observations |
| Buckets.PresamplePartitions | 4_resample.py:19-22 | the bucket counts of a channel add up to its number of observations |
| Averaging.Closed | 4_resample.py:53 | `.loc[lo:hi]` selects only observations whose time lies in the closed interval |
| Averaging.ClosedSound | 4_resample.py:53 | the window selects only observations of its input |
| Averaging.ClosedComplete | 4_resample.py:53 | every input observation inside the closed interval is selected |
| Averaging.ClosedMultiset | 4_resample.py:69 | `.loc[lo:hi]` keeps each observation inside the closed interval exactly as often as its input holds it, and no other |
| Averaging.ChannelWindowMultiset | 4_resample.py:65-69 | a channel's closed window holds each observation of the channel inside the interval as often as the data does, and nothing else |
| Averaging.ChannelWindowTotals | 4_resample.py:50-53 | `ShortWindow`/`LongWindow`: a channel's closed window has as many observations, and the same score total, as the data holds for that channel and interval, counted independently over the data |
| Averaging.ChannelWindowMembers | 4_resample.py:50-53 | an observation is in a channel's closed window exactly when it belongs to the data and the channel and its time lies in the interval |
| Averaging.ShortWindowMembers | 4_resample.py:52-53 | `ShortWindow`: the Tier 1 window holds exactly the channel's observations in `[t, t + 5min]` |
| Averaging.LongWindowMembers | 4_resample.py:65-68 | `LongWindow`: the Tier 2 window holds exactly the channel's observations in `[t + 5min - 1day, t + 5min]` |
| Averaging.ClosedSorted | 4_resample.py:16 | a window of time-sorted observations is time-sorted |
| Averaging.HalfOpenWithinClosed | 4_resample.py:52-54 | the half-open bucket count never exceeds the size of the closed Tier 1 window |
| Averaging.Tail | 4_resample.py:69 | `tail(n)` is the suffix of length `min(n, len)` |
| Averaging.MavTrueAtMeans | 4_resample.py:52-57 | Tier 1 is defined exactly when at least five observations of the channel in the data lie in `[t, t + 5min]`, and then their number times the value is the sum of their scores |
| Averaging.MavTrue | 4_resample.py:46-59 | `mav_true` gives one Tier 1 value per bucket timestamp, in order |
| Averaging.MavTrueWithinRange | 4_resample.py:55 | a defined Tier 1 lies between the smallest and the largest score it averages |
| Averaging.Kept | 4_resample.py:67-69 | Tier 2 keeps the last `min(5, len)` observations of the trailing day, a suffix of that window |
| Averaging.KeptWithin | 4_resample.py:65-69 | every kept observation comes from the data, belongs to the channel and lies in `[t + 5min - 1day, t + 5min]` |
| Averaging.KeptAreLatest | 4_resample.py:69 | on time-sorted data, no observation of the trailing day that is left out is later than a kept one |
| Averaging.MavFalseAt | 4_resample.py:66-73 | Tier 2 is defined exactly when the trailing day holds an observation of the channel, and is then the mean of the kept scores |
| Averaging.MavFalseAtDefined | 4_resample.py:67-70 | Tier 2 is defined exactly when at least one observation of the channel in the data lies in `[t + 5min - 1day, t + 5min]` |
| Averaging.MavFalse | 4_resample.py:61-75 | `mav_false` gives one Tier 2 value per bucket timestamp, in order |
| Averaging.MavFalseWithinRange | 4_resample.py:69-71 | a defined Tier 2 averages between one and five scores and lies between the smallest and the largest of them |
| Averaging.ReTox | 4_resample.py:33-44 | `re_tox` keeps every bucket's channel, start and count and the group's length; each bucket gets Tier 1 when `count >= 5` and Tier 2 otherwise, both for the group's channel |
| Averaging.Tier1ImpliesTier2 | 4_resample.py:67-68 | a defined Tier 1 implies a defined Tier 2, because the 5-minute window lies inside the trailing day |
| Averaging.ChannelIsolation | 4_resample.py:65 | inserting an observation of another channel anywhere changes neither tier nor the channel's buckets |
| Stats.MeanBounded | 4_resample.py:55 | bounds on every score bound their mean |
| Stats.MeanWithinRange | 4_resample.py:71 | a mean lies between the minimum and the maximum |
| Stats.MeanTimesLength | 4_resample.py:55 | `np.average` times the number of values is their sum |
| Resample.Tier1DefinedWhenGated | 4_resample.py:38-40 | a bucket that passes the gate always has a defined Tier 1 |
| Resample.ReToxChannel | 4_resample.py:38-44 | `Estimate`: a channel's resampled buckets are its presampled buckets with only `retox` replaced by the estimate of the bucket's own tier |
| Resample.MissingExactlyWhenNoEvidence | 4_resample.py:38-42 | an estimate is missing exactly when the bucket fails the gate and the trailing day is empty; a gated bucket carries the mean of its closed window |
| Resample.ReToxChannelFaithful | 4_resample.py:38-42 | every resampled bucket counts its channel's half-open interval and carries its tier's estimate |
| Resample.Channels | 4_resample.py:28 | the groups are the distinct channels of the data in strictly increasing string order |
| Resample.ChannelsComplete | 4_resample.py:28 | every channel of the data is a group |
| Resample.ResampledOrdered | 4_resample.py:28 | `Resampled`: the resampled frame is strictly increasing in (channel, start), so no key repeats |
| Resample.ResampledBuckets | 4_resample.py:28 | every resampled bucket belongs to a channel of the data, counts its interval and carries its tier's estimate |
| Resample.ResampledHasChannelBuckets | 4_resample.py:28 | every bucket of the channel of any observation, empty ones included, is in the resampled frame with its estimate |
| Resample.ResampledOnlyChannelBuckets | 4_resample.py:28 | every bucket of the resampled frame is a bucket of its own channel's run, so its start is 5-minute aligned and inside that channel's range |
| Resample.ResampledCovers | 4_resample.py:28 | every observation falls in a resampled bucket of its own channel |
| Ordering.StrLtIsOrder | 4_resample.py:20 | Python's string comparison is a strict total order |
| Ordering.SortedDistinct | 4_resample.py:20 | the sorted distinct keys are strictly sorted and hold exactly the input's elements |
| Pivoting.HasDuplicateIff | 5_estimate.py:38 | the duplicate check succeeds exactly when some (start, channel) pair repeats |
| Pivoting.PivotIndex | 5_estimate.py:35 | the pivot's rows are the distinct bucket starts in strictly increasing order |
| Pivoting.PivotColumns | 5_estimate.py:38 | the pivot's columns are the distinct channels in strictly increasing order |
| Pivoting.Pivot | 5_estimate.py:38 | the pivot fails exactly when a key repeats; otherwise it has one cell per row and column |
| Pivoting.PivotPlaces | 5_estimate.py:38 | every row lands in the cell of its start and channel |
| Pivoting.PivotCell | 5_estimate.py:38 | a cell holds the estimate of the row with its key, and is missing when no row has that key |
| Ids.Enumerate | 5_estimate.py:41 | each label is numbered by a position that holds it, and exactly the labels are numbered |
| Ids.EnumerateLastWins | 5_estimate.py:41 | a repeated label keeps its last position |
| Ids.EnumerateInjective | 5_estimate.py:65 | distinct labels get distinct IDs |
| Ids.EnumerateDistinct | 5_estimate.py:41 | for distinct labels the numbering is a bijection onto `0 .. n - 1` in label order |
| Ids.Remap | 5_estimate.py:79 | the remap is defined on the local IDs and sends each to the global ID of the same channel |
| Ids.LocalToGlobal | 5_estimate.py:79 | the conversion map of the kept labels is keyed by their local IDs and sends each to the global ID of the same label |
| Ids.RemapSelection | 5_estimate.py:79 | for columns kept at increasing positions, local ID `k` goes to the position of the `k`-th kept column; the map is defined on exactly `0 .. k - 1`, is strictly increasing and never goes below `k` |
| Estimation.ILoc | 5_estimate.py:62 | `iloc[begin:end]` is the contiguous run of rows from the normalised `begin` up to the normalised `end`, none when `end` is not after `begin`, with all columns |
| Estimation.WindowRows | 5_estimate.py:54 | window `i` holds the existing rows `[i * W, (i + 1) * W)` in order: `W` rows, fewer at the end, none past it |
| Estimation.WindowOfRow | 5_estimate.py:82-83 | each row lies in exactly one window, so the windows neither overlap nor leave gaps |
| Estimation.FullColumns | 5_estimate.py:62 | the kept positions are increasing and each one names a column without a missing cell |
| Estimation.DropNAKeeps | 5_estimate.py:62 | `DropNA`: a column survives `dropna` exactly when it has no missing cell; survivors keep their order and cells, so no cell is missing |
| Estimation.FirstValidFrom | 5_estimate.py:76 | the result is the label of the first row holding a value, or missing when no row does |
| Estimation.FirstValidAfterDropNA | 5_estimate.py:76 | `FirstValidIndex`: after `dropna` the first valid index is the first row's label, unless the window has no rows or no columns |
| Estimation.EmbeddingChannels | 5_estimate.py:79 | `Embedding`: every surviving channel is a pivot column, so the global lookup never fails |
| Estimation.LocalIds | 5_estimate.py:65 | a window's surviving channels are distinct and at most `n`; their local IDs are a bijection onto `0 .. k - 1` in column order |
| Estimation.Conversion | 5_estimate.py:79 | the ID map of a window is keyed by exactly its local IDs |
| Estimation.ConversionSelects | 5_estimate.py:79 | local ID `k` goes to the position of the same channel among the pivot's columns; the map covers exactly `0 .. k - 1` and is strictly increasing |
| Estimation.WindowKey | 5_estimate.py:76 | a window's key is its first row's timestamp, or missing when it has no rows (it starts past the end) or no channel |
| Estimation.PastEndWindow | 5_estimate.py:62 | a window that starts past the last row has no rows, keeps every channel of the pivot, and has a missing key |
| Estimation.PastEndIdentity | 5_estimate.py:65-79 | for distinct channels, the ID map of a window past the last row is the identity on all global IDs |
| Estimation.Store | 5_estimate.py:76 | both dictionaries have exactly the keys of the stored entries |
| Estimation.StoreLastWins | 5_estimate.py:76 | the last entry with a key decides what is stored under it |
| Estimation.Entries | 5_estimate.py:57 | the loop writes one entry per iteration, exactly `max(iterations, 0)` of them |
| Estimation.RunNoIterations | 5_estimate.py:57 | a loop that does not run leaves both dictionaries empty |
| Estimation.RunStep | 5_estimate.py:76-79 | `Run`: iteration `n` writes window `n`'s result and ID map over the dictionaries of the earlier iterations, giving those of `n + 1` |
| Estimation.RunKeys | 5_estimate.py:76-79 | after `n` iterations the dictionaries share their keys, which are exactly the keys of the windows processed |
| Estimation.RunLastWins | 5_estimate.py:76-79 | under each key sit the result and ID map of the last window with that key |
| Estimation.EstimateAll | 5_estimate.py:54-83 | the loop, with `begin` and `end` advanced by `W`, builds the dictionaries of `n` iterations; both dictionaries have the same keys |
| Pipeline.OrderedRowsUnique | 5_estimate.py:38 | buckets in strictly increasing (channel, start) order give rows with no repeated key |
| Pipeline.ResampledPivots | 5_estimate.py:38 | the resampled frame always pivots, and the pivot's columns are distinct |
| Pipeline.PivotHasEveryChannel | 5_estimate.py:41 | every channel of the data is a pivot column, so it has a global ID |

## Left out

- `2_classify.py` is not part of this model. Its `build_client` and `make_request` wrap the Perspective API client, and the rest is file reading, prompting and JSON writing.
- The IDTxl estimator and its settings (`5_estimate.py:13-24`, `70`, `73`) are an opaque library. They are the parameter `analyse`, and its behaviour on empty or one-column windows is the library's.
- CSV reading and writing, `pd.to_datetime`, the pickle dumps and the `print` calls are not modelled. They are I/O.
- The CSV round trip between the scripts (`4_resample.py:31`, `5_estimate.py:29-35`) is assumed to give back the resampler's rows unchanged (`Pipeline.ToRows` only copies fields). `read_csv` infers column types, so this holds only for channel labels it keeps as strings. An all-digit channel column is parsed as integers, so its pivot columns and global IDs follow numeric order (9 before 10) instead of the string order the model proves. Labels such as `NA` or `None` are read as NaN and dropped by `groupby`.
- Observations with a missing score are outside the model: `Obs.score` is a `real`. In pandas, `count()` (`4_resample.py:21`) skips a NaN score, but `len(values)` and `np.average` (`4_resample.py:53-55`) include it. A gated bucket whose closed window holds a NaN score therefore gets a NaN Tier 1.
- The order `sort_index()` (`4_resample.py:16`) gives observations with equal timestamps is not modelled. That sort is not stable. The model takes `data` in whatever order it comes, which decides only which of several equal-time observations `tail(5)` keeps.
- An exception raised by the estimator (`5_estimate.py:73`) is not modelled. In the program it aborts the run before any result is written (`5_estimate.py:85-91`); the model's `analyse` is total.
- The loading path of `4_resample.py` is not modelled. `4_resample.py:13` calls `pd.to_datetimetime`, which pandas does not define, so that script as written stops there. The model starts from parsed observations.
- Floating point is not modelled. Scores and means are exact reals, and NaN is `None`, with no IEEE propagation.
- pandas partial-string slicing is not modelled. `.loc` with string bounds would include sub-second times up to the end of the stop second. The model assumes whole-second timestamps, so the windows are exactly closed intervals.
- `window_size` left at `None` on the command line is not modelled. Python would then compute `begin += None` and fail. The model takes an integer window size.
- `--iterations` left at `None` is not modelled. `range(None)` (`5_estimate.py:57`) raises `TypeError`. The model takes an integer number of iterations.
- Averaging.ReTox: requires a non-empty group. `groupby(...).apply` never passes an empty group, and on one the source's `get_level_values(0)[0]` raises `IndexError`.
- Ids.Remap: requires the local numbering to be injective. Dafny's map comprehension needs that to be well defined. Every local numbering the source builds is injective (`Ids.EnumerateInjective`).
- Estimation.SliceBound: states only that the normalised bound lies within the frame. Where it puts the rows of a slice is stated through `Estimation.ILoc`, whose start and length are given in terms of the normalised bounds for every `begin` and `end`, negative ones included.
- Stats.Mean: carries no contract of its own. Its properties are `Stats.MeanBounded`, `Stats.MeanWithinRange` and `Stats.MeanTimesLength`.
- Averaging.MavTrueAt: carries no contract of its own. What it means over the data is `Averaging.MavTrueAtMeans`, and its bounds are `Averaging.MavTrueWithinRange`.
- Buckets.Presample: carries no contract of its own. Its properties are `Buckets.PresampleEmpty`, `Buckets.PresampleShape`, `Buckets.PresampleBucket`, `Buckets.PresampleCovers`, `Buckets.PresampleEndsOccupied` and `Buckets.PresamplePartitions`.
- Averaging.ShortWindow and Averaging.LongWindow: carry no contract of their own. Their properties are `Averaging.ShortWindowMembers`, `Averaging.LongWindowMembers`, `Averaging.ChannelWindowMultiset` and `Averaging.ChannelWindowTotals`.
- Resample.Estimate: carries no contract of its own. Its properties are `Resample.ReToxChannel`, `Resample.Tier1DefinedWhenGated` and `Resample.MissingExactlyWhenNoEvidence`.
- Resample.Resampled: carries no contract of its own. Its properties are `Resample.ResampledOrdered`, `Resample.ResampledBuckets`, `Resample.ResampledHasChannelBuckets`, `Resample.ResampledOnlyChannelBuckets`, `Resample.ResampledCovers` and those in `Pipeline`.
- Estimation.DropNA and Estimation.Embedding: state only the shape of their result. Their properties are `Estimation.DropNAKeeps`, `Estimation.EmbeddingChannels`, `Estimation.LocalIds` and `Estimation.PastEndWindow`.
- Estimation.FirstValidIndex: carries no contract of its own. It is `Estimation.FirstValidFrom` from row 0, and its value after `dropna` is `Estimation.FirstValidAfterDropNA`.
- Estimation.Store: the order of the dictionaries' keys is not modelled. Python dicts keep first-insertion order, and `update` on an existing key keeps its first position (`5_estimate.py:76`, `79`), so the pickles (`5_estimate.py:87`, `91`) store window keys `A, None, B, None` in the order `A, None, B`. The model's dictionaries are unordered Dafny `map`s: their key sets and values are stated (`Estimation.Store`, `Estimation.StoreLastWins`, `Estimation.RunKeys`, `Estimation.RunLastWins`), their order is not.
- Estimation.Run: carries no contract of its own. Its properties are `Estimation.RunNoIterations`, `Estimation.RunStep`, `Estimation.RunKeys` and `Estimation.RunLastWins`, and `Estimation.EstimateAll` is proved equal to it.
- The bit-identical re-run property of the resampler is not stated. It holds for every function of the model because they are deterministic.
