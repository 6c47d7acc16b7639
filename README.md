# GitHub measurement evaluation core, in Dafny

This project models the evaluation core of the GitHub measurements of the
SocialSim toolkit. It has two parts.

`metrics_config.py` is the first part:
- the measurement registry: the 8 user-centric and 17 repo-centric descriptors, merged into `measurement_params`;
- `prefilter`, which keeps the event rows whose fields are in the allowed values;
- `run_metrics`, which runs one measurement on the ground truth and the simulation, node by node, and then each metric;
- `run_all_metrics`, the battery over the registry entries selected by scale and node type, with `without_keys` for the metadata;
- `json_convert`, which renders a report for JSON output;
- `pretty_time`, which renders a duration as `<h>h<mm>m<ss>s`.

`utils/jsonReader.py` is the second part:
- `extractEvent`, which turns one archived record into a CSV line;
- `extract_date`, which reads a `YYYYMMDD` string;
- the nested loops of `extract_events`, which name the hourly archive files between two dates.

The modules follow the program:

| module | what it models |
|---|---|
| `Wrappers` | `Option` and `Result` |
| `Decimal` | `str` of a natural number, `int` of a digit string, `zfill`/`rjust` |
| `TimeFormat` | `pretty_time` |
| `Events` | the 4-column event rows, a filter as a sequence of clauses, `prefilter` |
| `Values` | the JSON-like values of a report, callables, `named_partial`, `json_convert` |
| `Registry` | the descriptors, the dictionary merge, the metadata dictionary |
| `Ranking` | the default top-100 nodes of a node-scale measurement |
| `Dispatch` | `run_metrics` |
| `DispatchProperties` | what `run_metrics` promises |
| `Battery` | `run_all_metrics` |
| `JsonReader` | `jsonReader.py` |

`Prefilter`, `RunMetrics`, `RunAllMetrics` and `ArchiveNames` are methods with loops, like the source. Each is proved equal to a specification function, and the lemmas about it are stated on that function.

The measurement and metric functions live in other files. They come in as the `Collaborators` parameter: `measure` and `score`, applied to labels `Fn(module, name, kwargs)`. The module keeps apart the functions that both measurement modules define under one name (`getGiniCoef`, `getPalmaCoef`); a label renders as its name alone, as `__name__` does. Every call the engine makes is recorded in a call log. The clock is a parameter, giving the elapsed seconds after each metric.

Where the code and its documented intent differ, the model follows the code:
- A top-level filter that empties the ground truth or the simulation makes `run_metrics` return `(None, None, None)`. `run_all_metrics` then indexes `None` and raises, so the battery stops at that measurement. It does not go on with the remaining measurements. The model returns `Failure(MetadataOnNone(m))` for the first such measurement `m`.
- The module comment of `jsonReader.py` describes the CSV line as `DATE OBJECT USER EVENT_TYPE`. `extractEvent` writes time, event type, user and object, in that order.
- The `obj == math.nan` test of `json_convert` never holds, so a NaN score is written as `str(nan)`.
- The `None in (y1, ...)` test of `extract_events` never holds, because `extract_date` always returns numbers.
- The day loop of `extract_events` runs from the start day to the end day in every month. A range that crosses a month end therefore names the wrong days, or none at all.

## Model

| member | source | states |
|---|---|---|
| TimeFormat.PrettyTime | github-measurements/metrics_config.py:16-24 | `pretty_time` of whole seconds: the `<h>h<mm>m<ss>s` rendering ends in `s` and is exactly nine characters below 100 hours; its meaning is stated by `PrettyTimeRoundTrip` |
| TimeFormat.Field2 | github-measurements/metrics_config.py:21-23 | a field is padded to at least two digits, and is exactly two below 100 |
| TimeFormat.SecondsSplit | github-measurements/metrics_config.py:18-19 | the two divmods by 60 give h, m, s with h*3600 + m*60 + s == t |
| TimeFormat.ReadJoinedFields | github-measurements/metrics_config.py:24 | three digit fields joined by h, m and s read back as h*3600 + m*60 + s |
| TimeFormat.PrettyTimeRoundTrip | github-measurements/metrics_config.py:16-24 | reading the rendered duration back gives the seconds it was made from |
| TimeFormat.PrettyTimeInjective | github-measurements/metrics_config.py:16-24 | two different durations never render the same |
| Decimal.DecimalString | github-measurements/metrics_config.py:21-23 | `str(n)` is a non-empty run of digits; 1 digit below 10, 2 below 100, 4 from 1000 to 9999 |
| Decimal.DecimalRoundTrip | github-measurements/utils/jsonReader.py:49-52 | `int(str(n)) == n` |
| Decimal.ZeroPad | github-measurements/utils/jsonReader.py:70-73 | `zfill(width)` has length max(width, len) and keeps a digit string all digits |
| Decimal.LeadingZerosValue | github-measurements/utils/jsonReader.py:52 | `int` ignores leading zeros |
| Decimal.PaddedValue | github-measurements/utils/jsonReader.py:70-73 | a zero-padded number reads back as the same number |
| Values.NamedPartial | github-measurements/metrics_config.py:11-14 | `named_partial` keeps the wrapped function's module and `__name__` and adds the bound keyword arguments after those already bound |
| Values.JsonConvert | github-measurements/metrics_config.py:497-510 | the result holds no None, callable, float or tuple anywhere |
| Values.RenderedIsFixed | github-measurements/metrics_config.py:497-510 | a value that is already rendered is returned unchanged |
| Values.JsonConvertIdempotent | github-measurements/metrics_config.py:497-510 | converting twice is the same as converting once |
| Values.ConvertKeepsShape | github-measurements/metrics_config.py:506-509 | lists and tuples become lists of the converted elements; dictionaries keep their keys and hold the converted values |
| Values.NamedPartialRendersWrappedName | github-measurements/metrics_config.py:11-14 | a `named_partial` renders as the wrapped function's name |
| Values.NaNRendersAsStr | github-measurements/metrics_config.py:500-505 | a NaN float renders as `"nan"`, not `"NaN"` |
| Events.Admits | github-measurements/metrics_config.py:353 | one `isin` test: the row's field is present and among the allowed values (a predicate; `KeptOnlyAdmits` and `KeptCounts` state its role) |
| Events.Kept | github-measurements/metrics_config.py:336-355 | the rows every clause admits, in their order (characterised by the `Kept*` lemmas below) |
| Events.Prefilter | github-measurements/metrics_config.py:336-355 | the loop over the filter's fields returns exactly `Kept(data, filters)` |
| Events.KeptNarrows | github-measurements/metrics_config.py:352-353 | filtering by one more clause equals narrowing the filtered rows by it |
| Events.KeptAppend | github-measurements/metrics_config.py:353 | filtering distributes over concatenation of rows |
| Events.KeptWithoutFilters | github-measurements/metrics_config.py:352 | an empty filter keeps every row |
| Events.KeptEmptyAllowed | github-measurements/metrics_config.py:353 | a clause with no allowed values keeps nothing |
| Events.KeptIsSubsequence | github-measurements/metrics_config.py:353 | the kept rows are a subsequence of the input, in order |
| Events.KeptOnlyAdmits | github-measurements/metrics_config.py:353 | every kept row satisfies every clause |
| Events.KeptCounts | github-measurements/metrics_config.py:353 | each row is kept as often as it occurs when it satisfies all clauses, else never |
| Registry.Describe | github-measurements/metrics_config.py:29-331 | the 25 dictionary literals: question, scale, node type, filter, measurement and metrics of each entry (its properties are `RegistryWellFormed`, `NodeScaleEntries`, `UserNodeEntries`, `MeasurementHome`) |
| Registry.MeasurementHome | github-measurements/metrics_config.py:29-331 | each measurement is a function of `UserCentricMeasurements` for a user entry and of `RepoCentricMeasurements` for a repo entry |
| Registry.UserRepoCallablesDiffer | github-measurements/metrics_config.py:104-328 | a user and a repo measurement are never the same callable, so the user `getGiniCoef`/`getPalmaCoef` differ from the repo ones of the same name |
| Registry.KeyInjective | github-measurements/metrics_config.py:29-331 | no two measurements share a dictionary key |
| Registry.Lookup | github-measurements/metrics_config.py:378 | a name is found exactly when it is registered, with its own descriptor |
| Registry.Update | github-measurements/metrics_config.py:333 | `dict.update`: each key of the second dictionary is assigned in turn (stated by `AssignFresh` and `UpdateDisjoint`) |
| Registry.AssignFresh | github-measurements/metrics_config.py:333 | assigning a new key appends it at the end of the dictionary order |
| Registry.UpdateDisjoint | github-measurements/metrics_config.py:333 | `update` with disjoint keys is concatenation in insertion order |
| Registry.EntryOrdinals | github-measurements/metrics_config.py:29-331 | the registry has 8 user entries followed by 17 repo entries, in source order |
| Registry.OrderFacts | github-measurements/metrics_config.py:29-331 | the 25 names are distinct and cover every measurement |
| Registry.LookupEntries | github-measurements/metrics_config.py:378 | looking up a listed name gives its descriptor |
| Registry.MergeIsAppend | github-measurements/metrics_config.py:333 | the user and repo literals share no key, so the update appends the repo entries after the user ones |
| Registry.MeasurementParamsMerge | github-measurements/metrics_config.py:333 | the merged registry is the user entries then the repo entries: 25 distinct names, each mapped to its descriptor |
| Registry.RegistryWellFormed | github-measurements/metrics_config.py:29-331 | every descriptor has at least one metric, no repeated metric name, and none named `eta` or `metadata` |
| Registry.NodeScaleEntries | github-measurements/metrics_config.py:29-331 | exactly six entries are node-scale |
| Registry.UserNodeEntries | github-measurements/metrics_config.py:29-134 | the user-centric dictionary holds exactly the user-node entries |
| Registry.MetricsValue | github-measurements/metrics_config.py:491 | the metadata's `metrics` dictionary has the metric names as keys and callables as values |
| Ranking.Dedup | github-measurements/metrics_config.py:395-396 | the group keys: no duplicates, the same members as the input |
| Ranking.Present | github-measurements/metrics_config.py:395 | `groupby` sees exactly the non-missing ids of the column |
| Ranking.Counts | github-measurements/metrics_config.py:395 | one count per event type the node has rows of |
| Ranking.SortAsc | github-measurements/metrics_config.py:396 | the counts in ascending order, as a permutation |
| Ranking.InsertAscSorted | github-measurements/metrics_config.py:396 | inserting into an ascending list keeps it ascending |
| Ranking.DoubledMedian | github-measurements/metrics_config.py:396 | twice the median lies between twice the smallest and twice the largest count |
| Ranking.InsertDescSorted | github-measurements/metrics_config.py:396 | inserting into a descending list keeps it descending |
| Ranking.SortDesc | github-measurements/metrics_config.py:396 | `sort_values(ascending=False)`: descending by key, a permutation of the input |
| Ranking.SortDescKeepsDistinct | github-measurements/metrics_config.py:396 | sorting distinct ids keeps them distinct |
| Ranking.SortDescMembers | github-measurements/metrics_config.py:396 | sorting keeps the length and the members |
| Ranking.PrefixIsTop | github-measurements/metrics_config.py:397 | a prefix of a descending list holds the largest keys |
| Ranking.TopOfSorted | github-measurements/metrics_config.py:396-397 | `head(k)` of the sorted ids: min(k, n) distinct ids, descending, none left out ranking above one kept |
| Ranking.CountsOfPresentNode | github-measurements/metrics_config.py:395 | a node that occurs has at least one group, and every group is non-empty |
| Ranking.ActivityOfPresentNode | github-measurements/metrics_config.py:396 | a node that occurs has a positive doubled median |
| Ranking.DefaultNodes | github-measurements/metrics_config.py:394-397 | `head(100)` of the nodes sorted by decreasing median: at most 100 ids (what it ranks is `DefaultNodesRanked`) |
| Ranking.DefaultNodesRanked | github-measurements/metrics_config.py:394-397 | the default nodes are min(100, #ids) distinct ids of the data, by non-increasing median, with no id left out more active than one kept |
| Dispatch.RunMetricsOf | github-measurements/metrics_config.py:357-462 | `run_metrics` as a function: no metrics dictionary exactly when a filter leaves a side empty, and then no call is made |
| Dispatch.RunMetrics | github-measurements/metrics_config.py:357-462 | the method's result and call log are exactly `RunMetricsOf` |
| Dispatch.RunNode | github-measurements/metrics_config.py:403-460 | one node pass: the node's rows, the two measurements and the metric loop, as `Step` |
| Dispatch.MeasureBoth | github-measurements/metrics_config.py:421-438 | a side with rows is measured once, an empty side gives `[]` and sets the skip flag |
| Dispatch.WriteScores | github-measurements/metrics_config.py:441-460 | the metric loop writes every metric and then `eta` into the node's dictionary or the top level |
| Dispatch.Slices | github-measurements/metrics_config.py:405-419 | each node's slice is its own rows at node scale and all rows at population scale |
| Dispatch.WriteTwice | github-measurements/metrics_config.py:451-460 | writing a metric and then `eta` through the node's dictionary is one row update |
| DispatchProperties.LastIndex | github-measurements/metrics_config.py:403-407 | the last position at which a node occurs |
| DispatchProperties.ScoresKeys | github-measurements/metrics_config.py:444-460 | after j metrics the dictionary holds the first j metric names, plus `eta` once one was written |
| DispatchProperties.ScoresEntries | github-measurements/metrics_config.py:444-457 | each metric's entry is its score, or None when a side was empty |
| DispatchProperties.RowContents | github-measurements/metrics_config.py:441-460 | a node's dictionary is all metric names plus `eta`, with each metric's entry and the last `eta` |
| DispatchProperties.NodeKeys | github-measurements/metrics_config.py:403-407 | at node scale the output has exactly one key per node seen |
| DispatchProperties.NodeRows | github-measurements/metrics_config.py:403-460 | a node's dictionary is the one written at its last occurrence |
| DispatchProperties.NodeScaleOutput | github-measurements/metrics_config.py:403-460 | after all nodes, the keys are the nodes and each holds the row of its last occurrence |
| DispatchProperties.ScoreCallsShape | github-measurements/metrics_config.py:444-449 | the metric calls are registered metrics on the two measurements, and there are none when a side was empty |
| DispatchProperties.CallsAreSound | github-measurements/metrics_config.py:421-449 | every call measures a non-empty slice, or scores the measurements of a node both of whose slices are non-empty |
| DispatchProperties.RunMetricsVacuous | github-measurements/metrics_config.py:385-390 | the result is `(None, None, None)` with no calls exactly when the top-level filter empties either side |
| DispatchProperties.RunMetricsCalls | github-measurements/metrics_config.py:403-449 | every call of a whole run is sound |
| DispatchProperties.RunMetricsNodeScale | github-measurements/metrics_config.py:394-460 | node scale: one dictionary per node, holding every metric of that node's slices and the `eta` of its last pass |
| DispatchProperties.RunMetricsPopulation | github-measurements/metrics_config.py:398-460 | population scale: the node lists are ignored; one top-level dictionary of the metrics plus `eta`, and both measurements returned |
| DispatchProperties.RunMetricsNoNodes | github-measurements/metrics_config.py:380-403 | an empty node list gives an empty dictionary, None measurements and no calls |
| DispatchProperties.RunMetricsLastNode | github-measurements/metrics_config.py:421-438 | the measurements returned are those of the last node, with `[]` for an empty slice |
| DispatchProperties.RunMetricsDefaultNodes | github-measurements/metrics_config.py:385-397 | without a node list, the nodes are the top-100 of the filtered ground truth, each occurring in a row that passes the filter |
| Battery.WithoutKeys | github-measurements/metrics_config.py:477-481 | the copy has exactly the keys not excluded, with their values |
| Battery.Matches | github-measurements/metrics_config.py:486 | the comprehension's test: `scale` and `node_type` each absent or equal to the descriptor's (a predicate; `SelectedMatches` relates it to the id lists) |
| Battery.Metadata | github-measurements/metrics_config.py:491 | the `metadata` entry: every key of the descriptor's dictionary except `measurement`, with its value |
| Battery.Selection | github-measurements/metrics_config.py:486 | an entry is selected exactly when its scale and node type match the arguments |
| Battery.Outcomes | github-measurements/metrics_config.py:488-489 | one `run_metrics` outcome per selected entry, in order |
| Battery.RunAllMetricsOf | github-measurements/metrics_config.py:464-495 | `run_all_metrics` as a function of the runner: the report or the first abort, and the calls (stated by the `RunAllMetrics*` lemmas) |
| Battery.RunAllMetrics | github-measurements/metrics_config.py:464-495 | the method's report and call log are exactly `RunAllMetricsOf` |
| Battery.RunEntries | github-measurements/metrics_config.py:488-491 | the loop over the selected entries gives exactly `Collect` over their outcomes |
| Battery.RunEntry | github-measurements/metrics_config.py:489 | one entry's run is `run_metrics` with that measurement's clock |
| Battery.CollectStep | github-measurements/metrics_config.py:488-491 | one step either stops at a None result or stores the metrics with their metadata |
| Battery.CollectStops | github-measurements/metrics_config.py:489-491 | once stopped, nothing later changes the battery |
| Battery.SelectedMatches | github-measurements/metrics_config.py:486 | the selection test on a name is the test on its descriptor |
| Battery.SelectionOfEntries | github-measurements/metrics_config.py:486 | selecting from registry entries is selecting their names |
| Battery.SelectionOfEntriesStep | github-measurements/metrics_config.py:486 | the first registry entry is kept exactly when its id is selected |
| Battery.SelectIdsAppend | github-measurements/metrics_config.py:486 | selection distributes over concatenation |
| Battery.SelectionDistinct | github-measurements/metrics_config.py:486 | the selection of distinct names is distinct |
| Battery.SelectAll | github-measurements/metrics_config.py:486 | with neither argument every entry is selected, in order |
| Battery.SelectIdsAll | github-measurements/metrics_config.py:486 | a list of matching names is selected whole |
| Battery.SelectIdsNone | github-measurements/metrics_config.py:486 | a list of non-matching names is dropped |
| Battery.UserOrderNodeScale | github-measurements/metrics_config.py:29-134 | the only user-centric node-scale entry is `user_activity_timeline` |
| Battery.UserOrderPopulationScale | github-measurements/metrics_config.py:29-134 | seven user-centric entries are population-scale |
| Battery.RepoOrderNodeScale | github-measurements/metrics_config.py:136-331 | the first five repo entries are the node-scale ones |
| Battery.RepoOrderPopulationScale | github-measurements/metrics_config.py:136-331 | the remaining twelve repo entries are population-scale |
| Battery.RepoOrderNotUser | github-measurements/metrics_config.py:136-333 | no repo entry is a user entry |
| Battery.UserOrderAsUser | github-measurements/metrics_config.py:29-134 | the user entries are all selected by node type `user` |
| Battery.UserOrderAsRepo | github-measurements/metrics_config.py:29-134 | no user entry is selected by node type `repo` |
| Battery.RepoOrderByNodeType | github-measurements/metrics_config.py:136-331 | the repo entries are selected by `repo` and not by `user` |
| Battery.NodeScaleSelection | github-measurements/metrics_config.py:486 | `scale="node"` selects the six node-scale entries in order; `"population"` selects 19 |
| Battery.NodeTypeSelection | github-measurements/metrics_config.py:486 | node type `user` selects the user-centric dictionary and `repo` the repo-centric one |
| Battery.UnknownScaleSelectsNothing | github-measurements/metrics_config.py:486 | a scale other than node or population selects nothing |
| Battery.MetadataKeys | github-measurements/metrics_config.py:491 | the metadata keys are `question`, `scale`, `node_type` and `metrics`, plus `filters` where the entry has one: the modelled descriptor fields without `measurement` |
| Battery.MetadataValues | github-measurements/metrics_config.py:491 | the metadata keeps the metrics, scale and node type, and holds no callable at its top level |
| Battery.CollectFailed | github-measurements/metrics_config.py:488-491 | the battery stops exactly when some run gave None, and it names the first |
| Battery.CollectEntries | github-measurements/metrics_config.py:488-491 | without a stop, every run's metrics are stored under its key with its metadata |
| Battery.CollectKeys | github-measurements/metrics_config.py:488-490 | without a stop, the report's keys are the selected measurements' keys |
| Battery.RunnerVacuous | github-measurements/metrics_config.py:385-390 | an entry's run gives None exactly when its filter is vacuous |
| Battery.FirstVacuous | github-measurements/metrics_config.py:488-491 | the first selected entry whose filter is vacuous |
| Battery.RunAllMetricsAborts | github-measurements/metrics_config.py:488-491 | the battery fails exactly when some selected filter is vacuous |
| Battery.RunAllMetricsFirstFailure | github-measurements/metrics_config.py:488-491 | a failure names the first selected entry with a vacuous filter |
| Battery.BatteryStopsAtVacuousFilter | github-measurements/metrics_config.py:385-491 | both facts above for the battery over `run_metrics` itself |
| Battery.ReportAborts | github-measurements/metrics_config.py:488-491 | the report fails exactly when some entry is vacuous, for any runner that gives None exactly then |
| Battery.ReportFirstFailure | github-measurements/metrics_config.py:488-491 | a failed report names the first vacuous entry |
| Battery.CollectAborts | github-measurements/metrics_config.py:488-491 | the loop stops exactly at the first None result |
| Battery.KeyNotEta | github-measurements/metrics_config.py:29-331 | no measurement key is `eta` |
| Battery.SelectedKeysDistinct | github-measurements/metrics_config.py:486 | the selected entries have distinct keys |
| Battery.RunAllMetricsKeys | github-measurements/metrics_config.py:483-495 | a successful report has exactly the selected keys plus `eta`, with the battery's `eta` |
| Battery.ReportKeys | github-measurements/metrics_config.py:483-495 | the same for any key function |
| Battery.RunAllMetricsEntries | github-measurements/metrics_config.py:488-491 | each selected measurement's entry holds its metrics and its metadata |
| Battery.ReportEntries | github-measurements/metrics_config.py:488-491 | the same for any key function with distinct keys other than `eta` |
| JsonReader.EventTime | github-measurements/utils/jsonReader.py:30 | the time column has the length of `created_at` (its characters are stated by `EventTimeShape`) |
| JsonReader.ExtractEvent | github-measurements/utils/jsonReader.py:19-32 | the CSV line starts with the time column and ends with a newline (its fields are stated by `ExtractEventFields`) |
| JsonReader.Replace | github-measurements/utils/jsonReader.py:30 | `replace` of one character: same length, every occurrence replaced, all else kept |
| JsonReader.EventTimeShape | github-measurements/utils/jsonReader.py:30 | the time column keeps the length, turns every T and Z into a space, and has neither left |
| JsonReader.Split | github-measurements/utils/jsonReader.py:32 | splitting a line at a separator gives at least one field, none holding the separator |
| JsonReader.SplitJoin | github-measurements/utils/jsonReader.py:32 | splitting joined fields gives them back when none holds the separator |
| JsonReader.ExtractEventFields | github-measurements/utils/jsonReader.py:19-32 | the line ends in a newline and splits into time, type, user or `None`, object or `None` |
| JsonReader.ExtractDate | github-measurements/utils/jsonReader.py:42-52 | year, month and day fit four, two and two digits |
| JsonReader.PaddedLength | github-measurements/utils/jsonReader.py:70-73 | a number below 10^width pads to exactly width digits |
| JsonReader.ExtractDateRoundTrip | github-measurements/utils/jsonReader.py:42-52 | a `YYYYMMDD` spelling followed by anything reads back as the date |
| JsonReader.ExtractDateFallback | github-measurements/utils/jsonReader.py:46-52 | a string that does not start with eight digits reads as (0, 0, 0) |
| JsonReader.ConfiguredDates | github-measurements/utils/jsonReader.py:15-16 | the configured dates read as 17 and 31 August 2017 |
| JsonReader.ReadUnderSkipsDirectories | github-measurements/utils/jsonReader.py:70-71 | the reader skips the two digit-named directories |
| JsonReader.ReadNameOf | github-measurements/utils/jsonReader.py:70-73 | the fields spelled in a name read back as numbers |
| JsonReader.FileName | github-measurements/utils/jsonReader.py:70-73 | every archive name lies under the `Anon/` input directory (read back by `FileNameRoundTrip`) |
| JsonReader.TwoDigits | github-measurements/utils/jsonReader.py:71 | `zfill(2)` of a number below 100 is two digits with the same value |
| JsonReader.FileNameRoundTrip | github-measurements/utils/jsonReader.py:70-73 | reading an archive name gives back its year, month, day and hour |
| JsonReader.FileNameInjective | github-measurements/utils/jsonReader.py:70-73 | distinct hours have distinct archive names |
| JsonReader.ArchiveNamesOf | github-measurements/utils/jsonReader.py:66-73 | the names of the four nested loops, year, month, day, hour (stated by `ArchiveNamesCount`, `ArchiveNamesAt`, `ArchiveNamesEmpty`) |
| JsonReader.ArchiveNames | github-measurements/utils/jsonReader.py:66-73 | the four nested loops name exactly `ArchiveNamesOf` |
| JsonReader.AppendYear | github-measurements/utils/jsonReader.py:67-73 | the month loop appends the year's block |
| JsonReader.AppendMonth | github-measurements/utils/jsonReader.py:68-73 | the day loop appends the month's block |
| JsonReader.AppendDay | github-measurements/utils/jsonReader.py:69-73 | the hour loop appends the day's 24 names |
| JsonReader.ArchiveNamesCount | github-measurements/utils/jsonReader.py:66-69 | one name per year, month, day and hour of the ranges |
| JsonReader.ArchiveNamesEmpty | github-measurements/utils/jsonReader.py:66-68 | an end month or day below the start one gives no names, even for a later end date |
| JsonReader.ArchiveNamesAt | github-measurements/utils/jsonReader.py:66-73 | the names are the product of the ranges, hour fastest, then day, month and year |
| JsonReader.ExtractRangeOf | github-measurements/utils/jsonReader.py:54-73 | the archives between two `YYYYMMDD` strings (stated by `ConfiguredArchives`, `MonthEndRangeEmpty`) |
| JsonReader.ExtractEvents | github-measurements/utils/jsonReader.py:54-73 | reads both dates and names exactly the archives between them |
| JsonReader.ConfiguredRange | github-measurements/utils/jsonReader.py:59-60 | the configured range names the archives of 17 to 31 August 2017 |
| JsonReader.FifteenDays | github-measurements/utils/jsonReader.py:66-69 | fifteen days of one month give 360 names, from hour 0 of the first to hour 23 of the last |
| JsonReader.ConfiguredArchives | github-measurements/utils/jsonReader.py:59-73 | the configured run reads 360 archives, from hour 0 of 17 August to hour 23 of 31 August 2017 |
| JsonReader.MonthEndDates | github-measurements/utils/jsonReader.py:42-52 | `20170831` and `20170901` read as their dates |
| JsonReader.MonthEndRangeEmpty | github-measurements/utils/jsonReader.py:66-68 | the range 31 August to 1 September 2017 reads no archive |

## Left out

- The measurement and metric functions (`UserCentricMeasurements`, `RepoCentricMeasurements`, `Metrics`) are not part of this model. They are the `measure` and `score` parameters, and only their names and bound keyword arguments are modelled.
- `EvaluationEngine`, `main`, argument parsing, the CSV reading with pandas, `json.dumps` and file writes: I/O.
- Console output (`print`) and the timing with `timeit`.
- The clock: `time()` is an `elapsed` parameter giving whole seconds. `pretty_time` of a float (with `round` on the seconds) is modelled for whole seconds only.
- Battery.MetadataKeys: `Descriptor` leaves out the free-text fields `query`, `quantify` and `phenomena`, which no code path reads. The program's metadata dictionary (metrics_config.py:491) carries them too, so the key set stated here lacks those three.
- `prefilter`'s renaming of the columns to `time, event, user, repo`: rows are records with these fields from the start.
- Dictionary keys that are not strings, and `json_convert` applied to keys: every key in a report is a string, so conversion leaves keys unchanged.
- Ranking.DefaultNodes: the order among nodes with the same median. pandas `groupby` yields the nodes in ascending id order and `sort_values(ascending=False)` then sorts with an unstable quicksort, so the program's order among ties is left to the implementation. The model keeps ties in order of first appearance, a choice of its own.
- `readJson`, gzip decompression and JSON parsing of the archives: I/O. `ExtractEvents` returns the archive names in the order they would be read.
- Records missing `actor`, `repo`, `created_at` or `type` raise `KeyError` in the source; the model's `Record` always has them. Ids are strings.
- JsonReader.ExtractDate: matches ASCII digits only, where Python's `\d` also accepts other Unicode digits.
- Battery.RunAllMetricsAborts, Battery.RunAllMetricsFirstFailure, Battery.RunAllMetricsKeys, Battery.RunAllMetricsEntries: stated for any runner. The abort lemmas assume one that gives None exactly for a vacuous filter. `Battery.RunnerVacuous` shows that `run_metrics` is such a runner.
- Battery.RunAllMetrics: the `eta` of the battery is rendered from a total that is a parameter, not from the clock.
- Registry: `scale` and `node_type` are enumerations. The arguments of `run_all_metrics` stay strings and are compared with the enumerations' names.
- `get_community_repos.py` is context and not part of this model.
