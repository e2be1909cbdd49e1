# Experiment analysis: grouping, ordering and aggregation, verified

`docs/experement_analysis.py` compares two schedulers (particle swarm
optimisation, "Pso", and a genetic algorithm, "Genetic") over a log of
experiment runs and draws four charts. Before any chart is drawn, the script
runs a small aggregation engine, and that engine is what this project models
and proves things about:

- **Grouping.** The runs are grouped by their raw `Configuration` string
  (lines 13-22). A group is created at the first sight of a configuration,
  whatever its algorithm. Each group collects its PSO runs in input order and
  keeps only the first Genetic run.
- **Ordering.** The groups are sorted by the integer ordinal of the
  configuration (lines 25-26). The ordinal is the last whitespace-separated
  word before the first `:`. The sort is stable.
- **Durations.** `time_to_seconds` (lines 42-50) reads `"H:M:S"` or
  `"H:M:S.F"` as seconds, and gives 0 for anything it cannot read.
- **Aggregation.** One loop (lines 52-78) fills ten parallel lists:
  - every group gets a label and a GA entry;
  - every group with PSO runs gets the mean, minimum and maximum of its
    makespans and of its parsed times, and the task count of its first PSO
    run.
- **Derived series.** Two series are computed from those lists:
  - the task-count chart keeps the first group for every distinct task count,
    ordered by task count (lines 127-130);
  - the ratio chart divides the PSO mean by the GA value wherever a GA value
    exists, with 1-based positions as tick labels (lines 151-152 and 157).

Each module is a `.dfy` file:

| file | module | what it holds |
|---|---|---|
| `wrappers.dfy` | `Wrappers` | `Option` and `Result` |
| `sequences.dfy` | `Sequences` | first failing element; prefix facts |
| `text.dfy` | `Text` | `split`, `split(sep, 1)`, `strip`, last word of `split()`, slicing to a length |
| `numerals.dfy` | `Numerals` | digit strings, `int()` of a signed numeral, `str()` of an integer, the `0.F` fraction |
| `records.dfy` | `Records` | the experiment record |
| `durations.dfy` | `Durations` | `time_to_seconds` |
| `config_keys.dfy` | `ConfigKeys` | ordinal token, sort key, label |
| `grouping.dfy` | `Grouping` | the grouping loop and its specification |
| `stable_sort.dfy` | `StableSort` | a stable sort on an integer key |
| `ordering.dfy` | `Ordering` | the sort of the groups by ordinal |
| `statistics.dfy` | `Statistics` | mean, min, max |
| `aggregation.dfy` | `Aggregation` | the aggregation loop, its specification, the whole pipeline |
| `derived.dfy` | `Derived` | the unique task indices, the ratio series and its tick labels |

How the model represents the source:

- The two loops that mutate state become methods with `while` loops:
  - `Grouping.GroupByConfiguration` keeps the dictionary as a map plus the
    order in which its keys were inserted.
  - `Aggregation.Aggregate` appends to the parallel lists.
- Each method is proved equal to a specification function. The properties are
  then proved about that function.
- Numbers are exact reals.
- NaN is `None`.
- An exception that ends the script is a `Failure` value.

Two facts about the script that are easy to miss:

- The task-count chart is ordered by ascending task count, not by
  configuration: `np.unique` returns the first-occurrence indices in the order
  of the sorted distinct values.
- Two configurations may share an ordinal. `sorted` is stable, so such groups
  keep the order in which their configurations first appear in the log.

## Model

| member | source | states |
|---|---|---|
| Grouping.GroupByConfiguration | docs/experement_analysis.py:13-22 | the loop's items are exactly the specified dictionary: keys in first-appearance order, each with its PSO runs and first Genetic run |
| Grouping.Grouped | docs/experement_analysis.py:13-22 | the dictionary the loop builds; partners `ConfigurationsAreKeys`, `FirstAppearanceOrder`, `PsoTrialsMembers` and `FirstGeneticIsFirst` state its keys, their order and each group |
| Grouping.ConfigurationsAreKeys | docs/experement_analysis.py:14-17 | every configuration of the log is a key, whatever its algorithm; only those are keys; no key repeats |
| Grouping.FirstAppearanceOrder | docs/experement_analysis.py:16-17 | keys are ordered by the index of their first appearance in the log |
| Grouping.FirstIndex | docs/experement_analysis.py:14-17 | the index where a configuration first appears |
| Grouping.FirstIndexTail | docs/experement_analysis.py:14-17 | a key not at the head of the log is a key of its tail |
| Grouping.FirstIndexStep | docs/experement_analysis.py:14-17 | a later run does not move an existing key's first appearance |
| Grouping.FirstIndexNew | docs/experement_analysis.py:16-17 | a new configuration first appears at the run that inserts it |
| Grouping.PsoTrialsMembers | docs/experement_analysis.py:19-20 | a group's PSO list holds exactly the Pso runs of that configuration |
| Grouping.PsoTrialsAppend | docs/experement_analysis.py:19-20 | PSO lists only grow by appending, in input order |
| Grouping.FirstGeneticIsFirst | docs/experement_analysis.py:21-22 | the GA slot is empty iff the configuration has no Genetic run; otherwise it holds the earliest one |
| Grouping.GeneticNeverOverwritten | docs/experement_analysis.py:21-22 | once filled, the GA slot is never overwritten by later runs |
| Grouping.AbsentConfiguration | docs/experement_analysis.py:16-17 | a configuration not yet seen has an empty group |
| Grouping.ExampleGrouped | docs/experement_analysis.py:13-22 | two PSO runs and then a Genetic run of one configuration make one group with both PSO runs in order and the Genetic run |
| Text.Split | docs/experement_analysis.py:46 | split on a separator gives one more piece than there are separators, none containing it |
| Text.JoinSplit | docs/experement_analysis.py:46 | joining the pieces of a split restores the string |
| Text.SplitJoin | docs/experement_analysis.py:46 | splitting a join of separator-free pieces gives the pieces back |
| Text.SplitWithoutSeparator | docs/experement_analysis.py:47 | a string without the separator splits into itself |
| Text.SplitAtSeparator | docs/experement_analysis.py:47 | a split at the first separator is the head followed by the split of the rest |
| Text.SplitOnce | docs/experement_analysis.py:54 | `split(':', 1)` gives one piece iff there is no separator; otherwise head, separator and tail rebuild the string, with no separator in the head |
| Text.SplitOnceAt | docs/experement_analysis.py:54 | the one split is at the first separator |
| Text.SplitOnceHead | docs/experement_analysis.py:53-54 | both splits agree on the text before the first `:` |
| Text.TrimStart | docs/experement_analysis.py:54 | removes exactly the leading whitespace |
| Text.TrimEnd | docs/experement_analysis.py:54 | removes exactly the trailing whitespace |
| Text.Strip | docs/experement_analysis.py:54 | the result neither starts nor ends with whitespace |
| Text.StripIsMiddle | docs/experement_analysis.py:54 | the stripped text is a contiguous slice of the input |
| Text.StripIgnoresLeadingSpace | docs/experement_analysis.py:54 | stripping ignores any whitespace put in front |
| Text.TrimStartIgnoresLeadingSpace | docs/experement_analysis.py:54 | trimming the start ignores any whitespace put in front |
| Text.Truncate | docs/experement_analysis.py:54 | `[:20]` is a prefix of at most 20 characters: the whole string when it is short enough, otherwise exactly its first 20 characters |
| Text.TrailingRun | docs/experement_analysis.py:26 | the longest whitespace-free suffix |
| Text.LastWord | docs/experement_analysis.py:26 | `split()[-1]` is absent iff the text is all whitespace (Python raises IndexError); otherwise it is a non-empty word without whitespace |
| Text.LastWordOf | docs/experement_analysis.py:26 | in words, a word, trailing blanks, the last word is that word |
| Text.TrimEndOf | docs/experement_analysis.py:26 | trailing blanks after a non-blank end are removed exactly |
| Text.TrailingRunOf | docs/experement_analysis.py:26 | after a blank, a whitespace-free word is the trailing run |
| Numerals.Frac | docs/experement_analysis.py:48 | `float('0.' + F)` lies in [0, 1); its exact value is given by the partner `FracValue` |
| Numerals.FracValue | docs/experement_analysis.py:48 | `float('0.' + F)` shifted left by the number of digits of F is the integer F: `.500` is 500/1000 |
| Numerals.FracTrailingZero | docs/experement_analysis.py:48 | trailing zeros do not change the fraction (`.5` and `.500` add the same) |
| Numerals.NatToString | docs/experement_analysis.py:157 | `str(n)` is a numeral that reads back as n, with no leading zero unless it is "0" |
| Numerals.IntToString | docs/experement_analysis.py:26 | `str(n)`, used to build configurations whose ordinal is read back at line 26; partner `ParseIntRoundTrip`: `int(str(n)) == n` for every integer |
| Numerals.ParseInt | docs/experement_analysis.py:48 | `int()` of a whitespace-free token succeeds iff it is an optional sign followed by digits; the value is the digits' value, negated after `-` |
| Numerals.NumeralParses | docs/experement_analysis.py:48 | `int()` of an unsigned numeral is its value |
| Numerals.ParseIntRoundTrip | docs/experement_analysis.py:26 | `int(str(n)) == n` for every integer |
| Durations.TimeToSeconds | docs/experement_analysis.py:42-50 | `time_to_seconds`; partners `WholeSeconds`, `FractionalSeconds`, `ExtraSegmentsIgnored`, `NegativeHours` and the four `...IsZero` lemmas state its value case by case |
| Durations.ReadFields | docs/experement_analysis.py:46-48 | the arithmetic after the split into three fields; partner `FieldsRead`: the reading of any three colon-free fields |
| Durations.FieldsSplit | docs/experement_analysis.py:46 | "H:M:S" unpacks into its three fields |
| Durations.FieldsRead | docs/experement_analysis.py:46-48 | three colon-free fields are read as hours, minutes and seconds |
| Durations.WholeSeconds | docs/experement_analysis.py:46-48 | "H:M:S" is H*3600 + M*60 + S |
| Durations.FractionalSeconds | docs/experement_analysis.py:47-48 | "H:M:S.F" adds the decimal fraction 0.F |
| Durations.ExtraSegmentsIgnored | docs/experement_analysis.py:47 | text after a second `.` in the seconds is ignored |
| Durations.NegativeHours | docs/experement_analysis.py:48 | a signed hours field is accepted and counts backwards, so a duration can be negative |
| Durations.NotAStringIsZero | docs/experement_analysis.py:43-44 | a ComputationTime that is not a string gives 0 |
| Durations.WrongFieldCountIsZero | docs/experement_analysis.py:46-50 | anything other than exactly two `:` gives 0 |
| Durations.NonNumericFieldIsZero | docs/experement_analysis.py:48-50 | an hours, minutes or whole-seconds field that is not a signed numeral gives 0, with or without a fraction |
| Durations.BadFractionIsZero | docs/experement_analysis.py:48-50 | with numeral hours, minutes and seconds, a fraction holding a character `float()` never accepts there gives 0 |
| Durations.ExampleWithFraction | docs/experement_analysis.py:42-50 | "1:02:03.500" is 3723.5 seconds |
| Durations.ExampleWholeSeconds | docs/experement_analysis.py:42-50 | "0:00:10" is 10 seconds |
| ConfigKeys.OrdinalToken | docs/experement_analysis.py:26 | the last word before the first `:` is absent iff that text is all whitespace; otherwise it is non-empty and has no whitespace |
| ConfigKeys.Ordinal | docs/experement_analysis.py:26 | the sort key exists iff there is an ordinal token and it is a signed numeral; its value is the numeral's, negated after `-` |
| ConfigKeys.Label | docs/experement_analysis.py:53-55 | a label exists iff there is a token and a `:`; it starts with the token and `": "`, and its name part is at most 20 characters |
| ConfigKeys.TokenOfKey | docs/experement_analysis.py:26 | for "words w : rest", the token is w |
| ConfigKeys.LabelOfKey | docs/experement_analysis.py:53-55 | for "words w : rest", the label is w, `": "`, and the stripped rest cut to 20 characters |
| ConfigKeys.IntToStringIsToken | docs/experement_analysis.py:26 | a printed integer is a non-empty word without `:` |
| ConfigKeys.OrdinalOfKey | docs/experement_analysis.py:26 | a configuration whose token is `str(n)` sorts under n |
| ConfigKeys.ExampleOrdinal | docs/experement_analysis.py:26 | "1: Small" has ordinal 1 |
| StableSort.Sort | docs/experement_analysis.py:25-26 | `sorted(..., key=...)` as insertion sort; partner `SortIsStableSort` |
| StableSort.InsertAddsOne | docs/experement_analysis.py:25-26 | inserting adds exactly the one element |
| StableSort.InsertKeepsOrder | docs/experement_analysis.py:25-26 | inserting into a sorted list keeps it sorted |
| StableSort.InsertIsStable | docs/experement_analysis.py:25-26 | inserting in front keeps the order of each key's elements |
| StableSort.SortIsStableSort | docs/experement_analysis.py:25-26 | `sorted` orders by key, is a permutation, and keeps the input order among equal keys |
| Sequences.FirstFailing | docs/experement_analysis.py:25-26 | finds the first element where a check fails, or reports that none fails |
| Ordering.SortByOrdinal | docs/experement_analysis.py:25-26 | fails, naming the first such configuration, iff some configuration has no readable ordinal; otherwise returns a permutation ordered non-decreasingly by ordinal, with equal ordinals in first-appearance order |
| Statistics.Mean | docs/experement_analysis.py:62 | `np.mean` on exact reals; partners `MeanBetween` and `MeanWithinRange`: it lies between the minimum and the maximum |
| Statistics.Min | docs/experement_analysis.py:63 | `min` is an element no larger than any other |
| Statistics.Max | docs/experement_analysis.py:64 | `max` is an element no smaller than any other |
| Statistics.SumBounds | docs/experement_analysis.py:62 | a sum of values in [lo, hi] lies in [n*lo, n*hi] |
| Statistics.MeanBetween | docs/experement_analysis.py:62 | a mean of values in [lo, hi] lies in [lo, hi] |
| Statistics.MeanWithinRange | docs/experement_analysis.py:62-68 | min ≤ mean ≤ max |
| Statistics.ExampleStatistics | docs/experement_analysis.py:62-64 | makespans 100 and 120 have mean 110, minimum 100 and maximum 120 |
| Aggregation.WithTrials | docs/experement_analysis.py:58 | the groups `if values['PSO']` lets through: every group with PSO runs is among them, each of them is one of the groups and has PSO runs, and there are no more of them than groups |
| Aggregation.WithTrialsOne | docs/experement_analysis.py:58 | a single group is kept, once, exactly when it has PSO runs |
| Aggregation.WithTrialsAppend | docs/experement_analysis.py:52-58 | the kept groups of a concatenation are those of each part in order, so the filter keeps input order and never repeats a group |
| Aggregation.PerGroupStep | docs/experement_analysis.py:53-78 | one more group adds one label and one GA entry for it |
| Aggregation.PerTrialGroupStep | docs/experement_analysis.py:58-70 | one more PSO-bearing group adds its statistics and its first task count |
| Aggregation.Makespans | docs/experement_analysis.py:59 | `[e['Makespan'] for e in values['PSO']]`; partner `AggregatedDescribes` places its mean, minimum and maximum at the group's PSO entry |
| Aggregation.Times | docs/experement_analysis.py:60 | `[time_to_seconds(e['ComputationTime']) for e in values['PSO']]`; partner `AggregatedDescribes` places its mean, minimum and maximum at the group's PSO entry |
| Aggregation.GaMakespan | docs/experement_analysis.py:73-77 | the GA makespan of a group, or NaN without a GA run; partner `AggregatedDescribes`: entry i of `ga_makespan` is that of sorted group i |
| Aggregation.GaTime | docs/experement_analysis.py:73-78 | the parsed GA time of a group, or NaN without a GA run; partner `AggregatedDescribes`: entry i of `ga_time` is that of sorted group i |
| Aggregation.AddGroupDescribes | docs/experement_analysis.py:52-78 | one pass of the loop body keeps the lists describing the groups seen so far: after group e they describe the groups before it followed by e |
| Aggregation.Aggregated | docs/experement_analysis.py:52-78 | the lists after the loop, one group at a time; partner `AggregatedDescribes` |
| Aggregation.AggregatedDescribes | docs/experement_analysis.py:52-78 | label and GA entry i belong to sorted group i; PSO entry j belongs to the j-th group with PSO runs |
| Aggregation.DescribedBounds | docs/experement_analysis.py:62-68 | every PSO min ≤ mean ≤ max, for makespans and for times |
| Aggregation.Aggregate | docs/experement_analysis.py:52-78 | the loop leaves the specified lists, which line up with the sorted groups as above |
| Aggregation.Analyze | docs/experement_analysis.py:13-78 | grouping, sort and loop: it fails on the first unreadable ordinal, otherwise on the first sorted configuration without `:`, otherwise it returns the lists for the sorted groups |
| Aggregation.WithTrialsCoversAll | docs/experement_analysis.py:58 | every group passes the PSO test iff no group is skipped |
| Aggregation.AlignedIffAllHaveTrials | docs/experement_analysis.py:58-78 | the PSO lists are as long as the GA list iff every group has PSO runs |
| Aggregation.ExampleAggregated | docs/experement_analysis.py:52-78 | two PSO runs with makespans 100 and 120 on 5 tasks and a GA run with makespan 90 give the group's label, PSO mean 110, minimum 100, maximum 120, GA makespan 90 and task count 5 |
| Aggregation.ExamplePipeline | docs/experement_analysis.py:13-78 | the three runs of that example, as a log, group into one entry that the sort keeps, every configuration has a label, and the loop gives PSO mean 110, minimum 100, maximum 120, GA 90 and task count 5 |
| Derived.Divide | docs/experement_analysis.py:152 | the quotient is finite iff the divisor is non-zero, and then quotient × divisor = dividend |
| Derived.Positions | docs/experement_analysis.py:151-157 | `np.where(valid)[0]`; partner `PositionsAreThePresentOnes` |
| Derived.PositionsAreThePresentOnes | docs/experement_analysis.py:151 | `np.where(valid)` holds exactly the positions with a GA value, increasing |
| Derived.AllPresentKeepsAll | docs/experement_analysis.py:151 | with no GA value missing, every position is kept |
| Derived.Ratios | docs/experement_analysis.py:151-152 | `pso_avg[valid] / ga[valid]`; partner `RatiosAtPositions` |
| Derived.RatiosAtPositions | docs/experement_analysis.py:151-152 | ratio k is the PSO mean over the GA value at the k-th present position; a missing GA value yields no ratio |
| Derived.TickLabels | docs/experement_analysis.py:157 | `[str(i+1) for i in np.where(valid)[0]]`; partner `TicksNamePositions` |
| Derived.TicksNamePositions | docs/experement_analysis.py:157 | tick k is the 1-based number of the position of ratio k |
| Derived.ExampleRatio | docs/experement_analysis.py:151-157 | a PSO mean of 110 against a GA makespan of 90 gives one bar of 110/90 with tick "1" |
| Derived.FirstOccurrences | docs/experement_analysis.py:127 | the first-occurrence index of every distinct task count, in index order; partner `FirstOccurrencesSpec` |
| Derived.FirstOccurrencesSpec | docs/experement_analysis.py:127 | increasing indices, each the first occurrence of its value, covering every value |
| Derived.FirstOccurrenceUnique | docs/experement_analysis.py:127 | a value has only one first occurrence |
| Derived.UniqueIndices | docs/experement_analysis.py:127 | `np.unique(task_counts, return_index=True)[1]`; partners `UniqueIndicesAreFirst`, `UniqueIndicesAscend`, `UniqueIndicesCover` |
| Derived.UniqueIndicesAreFirst | docs/experement_analysis.py:127 | `np.unique(..., return_index=True)[1]` holds first-occurrence indices only |
| Derived.UniqueIndicesAscend | docs/experement_analysis.py:127 | the task counts at those indices rise strictly |
| Derived.UniqueIndicesCover | docs/experement_analysis.py:127 | every task count is found at one of them |
| Derived.TaskSeries | docs/experement_analysis.py:127-130 | the three lists read at the unique indices; partners `TaskSeriesSpec` and `SinglePsoGroupReadsFirstGa` |
| Derived.TaskSeriesSpec | docs/experement_analysis.py:127-130 | one point per distinct task count, in ascending order; each point carries the PSO mean and GA value of the first group with that task count |
| Derived.SinglePsoGroupReadsFirstGa | docs/experement_analysis.py:127-130 | with one group that has PSO runs, the single point takes its GA value from the first sorted group, whichever group its task count came from |

## Left out

- Loading the JSON log (lines 7-10) is I/O. The records are an input sequence.
- Every plotting call (lines 83-163, apart from the index computations at
  127-130, 151-152 and 157) is drawing through matplotlib, a foreign library.
- The unused `datetime` import (line 4) is left out.
- Floating point:
  - makespans, means and seconds are exact reals;
  - `np.mean` rounding is not modelled;
  - NaN is `None`;
  - a division by zero in the ratio series is `NonFinite`, without telling inf from nan.
- Records are typed as follows:
  - `Makespan` is a number;
  - `TaskCount` is an integer;
  - `ComputationTime` is a string or "not a string".
- A missing dictionary key (KeyError) is not modelled.
- A GA record is a non-empty dictionary. `if values['GA']` therefore tests only
  whether a record is present.
- Uncaught exceptions become a `Failure` result, and nothing after them runs:
  - `int()` or `[-1]` raising in the sort key (line 26) gives `UnreadableOrdinal`;
  - `split(':', 1)[1]` raising (line 54) gives `MissingColon`.
- Durations.TimeToSeconds: only fields made of an optional sign and ASCII
  digits are read. Python's `int()`/`float()` also accept surrounding
  whitespace, underscores, exponents (`float('0.5e3')`), `inf`/`nan` and
  non-ASCII digits; the model reads all of these as 0.
- ConfigKeys.Ordinal: the same restriction applies to the ordinal token.
- Text.IsSpace: whitespace is the ASCII part of Python's `str.isspace`. Other
  Unicode whitespace is treated as ordinary text.
- Derived.Ratios: requires the PSO mean list and the GA list to be equally
  long. When some group has no PSO runs, the PSO lists are shorter than the GA
  list, and the script fails before or at the ratio chart:
  - the bar charts at lines 88-91 and 108-111 raise unless the PSO lists
    broadcast against the positions, which needs them to hold exactly one
    entry (or none, with a single group);
  - when they do broadcast, the mask `valid` at line 151 is still computed
    from the GA list alone, and it is the boolean indexing of the shorter PSO
    mean array at line 152 that raises IndexError.
  That crash is not modelled.
- Derived.TaskSeries: models lines 127-130 as written, for PSO lists of any
  length up to the GA list's. When exactly one group has PSO runs, the
  script reaches these lines with misaligned lists, and the single point
  pairs that group's task count and PSO mean with the GA makespan of sorted
  group 0, which may be another group's (`SinglePsoGroupReadsFirstGa`).
  The model reproduces this pairing and does not correct it.
