# MacScavenger core, modelled in Dafny

MacScavenger counts Wi-Fi devices around a set of sniffers ("capture devices"). It
also estimates how many of them use MAC address randomisation. Each sniffer reports
probe-request records `(ap, epoch, rssi, ie, ssid)`. `ie` is the fingerprint of a
device's information elements, and `ssid` is the per-session identifier under which
it was seen.

The analyzer works in stages:
1. It cuts the record stream into equal time windows.
2. It keeps only records whose `ie`+`ssid` key every reporting sniffer saw.
3. It takes the running median epoch of the window.
4. It groups the records by `(ie, ssid)` into a sniffer → rssi list measurement.
5. It localizes each group to a set of regions.
6. It resolves each group against a registry:
   - a repeat in the same burst changes nothing;
   - a returning ssid is counted once more;
   - an unknown ssid with a known `ie`, close enough in space and time to the latest
     ssid of that `ie`, is recorded as an alias of it;
   - otherwise both ssids are counted;
   - an `ie` never seen before is counted as a new singleton.
7. Finally it appends the regions to the registry under the running median.

The registry holds two MongoDB collections:
- a state collection: `ie` → `ssid` → timestamp key → list of regions;
- a summary collection: `ssid` → `seen` count and `alias` set.

The model keeps both in memory, and every update follows the MongoDB operator that
its builder encodes:
- `$push` with upsert appends;
- `$inc` with upsert counts from 0;
- `$addToSet` adds to a set.

Besides the pipeline, the project models:
- the discrete parts of the localizer:
  - the access point bounding box and the bin count;
  - cost-to-weight normalisation;
  - the Graham scan convex hull over grid cells;
  - the first-match search of `is_equal`;
- the sniffer swarm: its device list and each device's brace-delimited stub
  reassembly buffer and packet counter;
- the shell's validators and its device-list commands.

How each part is modelled:
- Every Python module becomes a Dafny module.
- Objects whose fields the source updates become classes:
  - `Analyzer.ScavengerAnalyzer`, with its pending buffer and running median;
  - `DataBase.Registry`;
  - `Localizer.Localizer`;
  - `Sync.Swarm` and `Sync.CaptureDevice`;
  - `Shell.ScavengerShell`.
- Their loops are methods proved against specification functions:
  - `Windowing.Windows`;
  - `Correlation.IntersectOverlapping`;
  - `Aggregation.Groups`;
  - `Resolution.Resolve` and `Resolution.ResolveAll`;
  - `Resolution.AppendAll`;
  - `ConvexHull.Arranged`;
  - `Localizer.IsEqualSpec`;
  - `Stubs.FindStubs` and `Stubs.RemoveEach`.
- The lemmas beside those functions state what the source promises.

Shared helpers:
- `Builtins` models Python's `int()`, `str(int)`, `str.split`, `str.replace(p, '')`
  and string ordering.
- `Sorting` models Python's stable `sorted`.
- `Grouping` models pandas' first-appearance `unique` and boolean selection.

## Model

| member | source | states |
|---|---|---|
| Analyzer.ScavengerAnalyzer.constructor | MacScavengerAnalyzer.py:13-21 | Defaults: interval 10 s, walking speed 2 km/h, burst threshold 1 s, minimum of 3 sniffers, verbosity 0. The localizer is built from the AP layout with 0.5 m per bin. Registry and summary start empty, and there is no running median. |
| Analyzer.ScavengerAnalyzer.CreateEvenIntervals | MacScavengerAnalyzer.py:56-63 | When buffer++batch spans more than one bucket, every window of `Windows` is emitted and the buffer empties. Otherwise nothing is emitted and the buffer becomes buffer++batch. |
| Windowing.Bucket | MacScavengerAnalyzer.py:58 | The bucket index is the floor of (epoch − reference epoch) / width. |
| Windowing.WindowsPartition | MacScavengerAnalyzer.py:57-59 | The windows together hold exactly the records of the combined frame, as a multiset. |
| Windowing.WindowsOrdered | MacScavengerAnalyzer.py:58-59 | Every window is non-empty and holds exactly the records of its bucket, in frame order. Windows come in strictly ascending bucket order. |
| Windowing.WindowAt | MacScavengerAnalyzer.py:59 | The i-th window is the selection of the i-th bucket key, and its first record lies in that bucket. |
| Windowing.BucketKeysFacts | MacScavengerAnalyzer.py:58-59 | The bucket keys are distinct and strictly ascending. Each record's bucket is a key, and each key is some record's bucket. |
| Windowing.WindowCount | MacScavengerAnalyzer.py:60-63 | There is more than one window iff two records of the frame fall in different buckets. |
| Windowing.FlattenSelects | MacScavengerAnalyzer.py:59 | Concatenating the per-bucket selections is gathering the frame by the bucket keys. |
| Grouping.DistinctBy | MacScavengerAnalyzer.py:71 | The distinct-values list of a column: the keys are distinct, each key occurs in the input, and every input key is listed. |
| Grouping.DistinctByFirstAppearance | MacScavengerAnalyzer.py:71 | The distinct values come in order of first appearance: for two listed keys, some row with the earlier key comes before every row with the later one. So the per-sniffer frames follow the sniffers' first rows. |
| Grouping.SelectMember | MacScavengerAnalyzer.py:72 | Boolean selection keeps a row iff the row is in the frame and its key matches. |
| Grouping.Select | MacScavengerAnalyzer.py:72 | Boolean selection keeps only matching rows, and it is non-empty when some row matches. |
| Grouping.SelectSubMultiset | MacScavengerAnalyzer.py:72 | A selection takes nothing that was not in the frame. |
| Grouping.SelectMultiplicity | MacScavengerAnalyzer.py:72 | A matching row is kept as often as it occurs in the frame. |
| Grouping.GatherPartition | MacScavengerAnalyzer.py:59 | Gathering by a distinct key list covering every row yields a permutation of the rows. |
| Grouping.GatherLength | MacScavengerAnalyzer.py:59 | Such a gathering keeps the row count. |
| Grouping.GatherCons | MacScavengerAnalyzer.py:59 | Adding a row in front adds it exactly once to the gathering when its key is listed. |
| Grouping.GatherOfEmpty | MacScavengerAnalyzer.py:59 | Gathering an empty frame yields nothing. |
| Correlation.IntersectOverlapping | MacScavengerAnalyzer.py:70-83 | A result exists only when at least the minimum number of sniffers reported, and it is non-empty. |
| Correlation.IntersectOverlappingNone | MacScavengerAnalyzer.py:73-83 | The result is None iff there are too few sniffers, the frame is empty, or no record's ie+ssid key was seen by every sniffer. |
| Correlation.IntersectAllMeans | MacScavengerAnalyzer.py:74 | A key is in the intersection iff every sniffer's key set holds it. |
| Correlation.CorroboratedMeans | MacScavengerAnalyzer.py:66-74 | A record is corroborated iff its ie+ssid concatenation is in the intersection over all distinct sniffers. |
| Correlation.SurvivorsAreCorroborated | MacScavengerAnalyzer.py:74-77 | The output keeps each corroborated record exactly as often as the frame holds it, duplicates included, and drops every other record. |
| Correlation.PerSnifferMultiplicity | MacScavengerAnalyzer.py:75-77 | Concatenating the filtered per-sniffer frames keeps a record as often as the frame does, iff its sniffer is listed and its key is common. |
| Correlation.FilteredMultiplicity | MacScavengerAnalyzer.py:72-75 | One sniffer's filtered frame keeps a record as often as the frame does, iff it is that sniffer's and its key is common. |
| Correlation.CorroboratedSurvives | MacScavengerAnalyzer.py:75-78 | A corroborated record makes the concatenation non-empty. |
| Correlation.SurvivorIsCorroborated | MacScavengerAnalyzer.py:75-78 | A non-empty concatenation contains a corroborated record of the frame. |
| Analyzer.ScavengerAnalyzer.GroupIesAndSsids | MacScavengerAnalyzer.py:85-96 | Sets the running median to `Median(w)` and returns `Groups(w)`, leaving the buffer alone. |
| Analyzer.ScavengerAnalyzer.ApplyExtendLists | MacScavengerAnalyzer.py:95 | The per-group loop builds exactly `Groups(w)`. |
| Aggregation.ExtendLists | MacScavengerAnalyzer.py:86-91 | The dictionary loop yields `MeasurementOf(data)`: each sniffer mapped to its rssi values in row order. |
| Aggregation.MeasurementKeys | MacScavengerAnalyzer.py:88-91 | A sniffer is a key of the measurement iff some row names it. |
| Aggregation.MeasurementList | MacScavengerAnalyzer.py:90 | A sniffer's list is the rssi of its rows in order, and it is never empty. |
| Aggregation.MeasurementOfSnoc | MacScavengerAnalyzer.py:89-90 | A further row extends its sniffer's list by its rssi, creating the list if needed. |
| Aggregation.MeasurementTotal | MacScavengerAnalyzer.py:86-91 | The list lengths of a measurement sum to the number of rows. |
| Aggregation.TotalIsGathered | MacScavengerAnalyzer.py:86-91 | The list lengths over a key list equal the size of the rows gathered by those keys. |
| Aggregation.MedianIsEpoch | MacScavengerAnalyzer.py:93-94 | The running median is the epoch of some record of the window. |
| Aggregation.MedianRank | MacScavengerAnalyzer.py:93-94 | It is the upper median: at most len/2 epochs are below it, and more than len/2 are at most it. |
| Aggregation.SortedEpochs | MacScavengerAnalyzer.py:93 | `sort_values('epoch')` yields ascending epochs. |
| Aggregation.SortedCounts | MacScavengerAnalyzer.py:94 | In an ascending list, the element at index h has at most h elements below it and more than h at or below it. |
| Aggregation.CountPermutation | MacScavengerAnalyzer.py:93 | Counting elements that satisfy a predicate does not depend on their order. |
| Aggregation.CountAppend | MacScavengerAnalyzer.py:93 | Counting distributes over concatenation. |
| Aggregation.KeyLeTotalPreorder | MacScavengerAnalyzer.py:95 | Python's (ie, ssid) tuple order is total and transitive. |
| Aggregation.GroupKeysFacts | MacScavengerAnalyzer.py:95 | The group keys are distinct and ascending. Every record's (ie, ssid) is a key, and every key comes from a record. |
| Aggregation.GroupsOrdered | MacScavengerAnalyzer.py:95 | Groups come in strictly ascending (ie, ssid) order, one per key. |
| Aggregation.GroupsCover | MacScavengerAnalyzer.py:95 | Every record's (ie, ssid) has a group. |
| Aggregation.GroupWitnessed | MacScavengerAnalyzer.py:95 | Every group has a non-empty measurement and comes from a record of the window. |
| Aggregation.GroupMeasurement | MacScavengerAnalyzer.py:95 | A sniffer is a key of a group's measurement iff some row of the window with the group's (ie, ssid) names it. The group's rows are exactly the window's rows with that pair, and its lists together hold one reading per such row. |
| Aggregation.PairSniffers | MacScavengerAnalyzer.py:95 | A sniffer is listed for an (ie, ssid) pair iff some row of the window with that pair names it. |
| Analyzer.ScavengerAnalyzer.Localize | MacScavengerAnalyzer.py:98-101 | Each group becomes an entry with the same ie and ssid, whose localization is `localize` of its measurement. |
| Analyzer.ScavengerAnalyzer.Decide | MacScavengerAnalyzer.py:104-138 | The loop body's decision equals `Resolve` on the registry state, with the running median and the analyzer's settings. |
| Analyzer.ScavengerAnalyzer.DecideAgainstLatest | MacScavengerAnalyzer.py:117-136 | Case B: finds the latest timestamp key of the ie document and compares against it, as `CompareWithLatest` states. |
| Analyzer.ScavengerAnalyzer.CompareWithEntry | MacScavengerAnalyzer.py:120-136 | Computes the truncated elapsed seconds and the first ssid in document order holding the latest key. A negative elapsed fails; otherwise `is_equal` decides between alias and unrelated, as `CompareAt` states. |
| Analyzer.ScavengerAnalyzer.Record | MacScavengerAnalyzer.py:108-138 | The summary writes of a decision, and nothing in the state collection. |
| Analyzer.ScavengerAnalyzer.InterpretResults | MacScavengerAnalyzer.py:103-140 | The summary after the loop, and the first failure if any, are `ResolveAll` over the entries. The state collection is untouched. |
| Analyzer.ScavengerAnalyzer.ToDatabase | MacScavengerAnalyzer.py:142-145 | The state becomes `AppendAll`: every region of every entry pushed under (ie, ssid, running median). The summary is untouched. |
| Analyzer.ScavengerAnalyzer.ProcessWindow | MacScavengerAnalyzer.py:38-44 | A window without survivors changes nothing. Otherwise: the median is set, all lookups resolve against the state before the window, then the regions are appended unless the resolver failed. |
| Analyzer.ScavengerAnalyzer.Summary | MacScavengerAnalyzer.py:147-156 | Unique ids and uniquely seen are the number of summary documents. The randomizing count is the number of ssids with a non-empty alias set, the non-randomizing count the number seen more than once; both are bounded by the document count, and "seen multiple times" is their sum. |
| Resolution.CaseASummary | MacScavengerAnalyzer.py:105-112 | For a registered (ie, ssid), the max stored key always parses and the entry never fails. If median − int(max key) is below the threshold in ns, the summary is unchanged. Otherwise the entry's ssid is counted once more, every other count stays, and no alias set changes. |
| Resolution.CaseBElapsed | MacScavengerAnalyzer.py:119-123 | For a known ie with an unknown ssid: resolution fails iff median − latest key ≤ −1 s, because elapsed truncates toward zero. |
| Resolution.CaseBDecision | MacScavengerAnalyzer.py:119-136 | Otherwise the decision is an alias or unrelated, naming the first ssid in document order that holds the latest key, which differs from the entry's ssid. |
| Resolution.CaseCSummary | MacScavengerAnalyzer.py:137-138 | An unknown ie never fails. Its ssid is counted once more, every other count stays, and no alias set changes. |
| Resolution.CaseBOutcome | MacScavengerAnalyzer.py:122-133 | A negative elapsed is the failure. Otherwise `is_equal` finding a pair within reach gives exactly an alias of the latest ssid, finding none gives exactly an unrelated pair, and an `is_equal` failure gives exactly the distance failure. |
| Resolution.CaseBSummary | MacScavengerAnalyzer.py:116-136 | For a known ie without this ssid and a non-negative elapsed time, compared against the latest ssid's regions at the latest key: within reach, the entry's ssid joins the latest ssid's aliases and no count changes. Out of reach, the latest ssid and the entry's ssid are each counted once more and no alias set changes. An `is_equal` failure aborts the batch. |
| Resolution.ApplyEffect | MacScavengerAnalyzer.py:108-138 | The summary effect of each decision on every ssid. A burst repeat changes nothing. A reappearance or first sighting counts the entry's ssid once. An alias adds the entry's ssid to the latest ssid's aliases. An unrelated pair counts both ssids once. |
| Resolution.ResolveUntouched | MacScavengerAnalyzer.py:104-138 | Resolving an entry leaves the counts and aliases of an ssid that is neither its own nor one of its ie's ssids unchanged. |
| Resolution.ResolveAllUntouched | MacScavengerAnalyzer.py:104-138 | The same holds over a whole window of entries. |
| Resolution.TruncDiv | MacScavengerAnalyzer.py:120 | `int(a / b)`: the quotient truncated toward zero. |
| Resolution.ElapsedSign | MacScavengerAnalyzer.py:120-122 | Elapsed seconds are negative iff the deficit is at least 1 s. Deficits under 1 s give 0. |
| Resolution.LatestKey | MacScavengerAnalyzer.py:119 | The latest entry is a stored timestamp key, and no stored key exceeds it in string order. |
| Resolution.LatestFromOrder | MacScavengerAnalyzer.py:119 | The string maximum of the per-ssid maxima is the latest key. |
| Resolution.LatestEntry | MacScavengerAnalyzer.py:119 | The loop over the ssids computes `LatestKey`. |
| Resolution.LatestKeyHeld | MacScavengerAnalyzer.py:119-121 | Some ssid holds the latest key, and it parses as an integer. |
| Resolution.FirstHolding | MacScavengerAnalyzer.py:121 | `[...][0]`: an ssid holding the key, present iff some ssid in document order holds it. |
| Resolution.FirstHoldingIsFirst | MacScavengerAnalyzer.py:121 | No ssid before it in document order holds the key. |
| Resolution.AppendAllLookup | MacScavengerAnalyzer.py:142-145 | After `_to_database`, each (ie, ssid, key) list is extended by the entries' regions for that ie and ssid when the key is the median's, and is otherwise unchanged. |
| Resolution.PushAllLookup | MacScavengerAnalyzer.py:144-145 | Pushing one entry's regions extends only its own list, in order. |
| Resolution.AppendAllValid | MacScavengerAnalyzer.py:142-145 | Appending keeps every document well formed. |
| Resolution.PushAllValid | MacScavengerAnalyzer.py:144-145 | The same holds for one entry's regions. |
| DataBase.Registry.constructor | MacScavengerDataBase.py:8-13 | Freshly named collections: registry and summary start empty. |
| DataBase.Registry.GetPreviousAppearanceIeSsid | MacScavengerDataBase.py:15-16 | A document is found iff one exists for the ie and it has the ssid field, and it is that document. |
| DataBase.Registry.GetPreviousAppearanceIe | MacScavengerDataBase.py:18-19 | A document is found iff one exists for the ie. |
| DataBase.Registry.HasTimestamp | MacScavengerDataBase.py:80-92 | The timestamp query matches iff the ie document has the ssid and the str(timestamp) key. |
| DataBase.FindOne | MacScavengerDataBase.py:15-19 | `find_one` returns the ie's document iff it holds the queried field. |
| DataBase.Registry.AddSsidToSummary | MacScavengerDataBase.py:21-22 | The summary gets `$inc seen 1` on the entry's ssid, and the state is unchanged. |
| DataBase.Registry.AddSsidAlias | MacScavengerDataBase.py:24-25 | The summary gets `$addToSet` of the entry's ssid on the latest ssid's aliases, and the state is unchanged. |
| DataBase.Registry.AddSingleSsid | MacScavengerDataBase.py:27-28 | The summary gets `$inc seen 1` on the ssid. |
| DataBase.Registry.AddMultipleSsids | MacScavengerDataBase.py:30-32 | Applies the single increment once per list element, in order. |
| DataBase.IncrementAllCounts | MacScavengerDataBase.py:30-32 | Each ssid's count grows by its number of occurrences in the list, so duplicates count twice. Aliases are untouched, and every listed ssid gets a document. |
| DataBase.IncCounts | MacScavengerDataBase.py:52-55 | `$inc` with upsert adds to the ssid's count starting from 0, and changes no alias and no other count. |
| DataBase.AddToSetUnion | MacScavengerDataBase.py:107-110 | `$addToSet` with upsert unions the alias into that ssid's set only, and leaves counts alone. |
| DataBase.AddToSetIdempotent | MacScavengerDataBase.py:107-110 | Adding the same alias twice equals adding it once. |
| DataBase.Registry.AddRegionToEntry | MacScavengerDataBase.py:34-37 | The state gets the `$push` of the region under (ie, ssid, str(median)). The summary is unchanged, and the registry stays well formed. |
| DataBase.PushAppends | MacScavengerDataBase.py:95-98 | The push appends the region to the end of its own list and to no other. |
| DataBase.PushShape | MacScavengerDataBase.py:95-98 | The upsert creates the missing levels, leaves other documents equal, and keeps the ssid order of the document. |
| DataBase.PushValid | MacScavengerDataBase.py:34-37 | A push keeps the registry well formed. |
| DataBase.PushDocumentValid | MacScavengerDataBase.py:95-98 | A push keeps one document well formed. |
| DataBase.Registry.GetDocumentCount | MacScavengerDataBase.py:39-40 | The number of summary documents. |
| DataBase.Registry.GetUniquelySeen | MacScavengerDataBase.py:42-43 | Equal to the document count. |
| DataBase.Registry.GetNonRandomizing | MacScavengerDataBase.py:45-46 | The number of summary documents with seen > 1, at most the document count. |
| DataBase.Registry.GetRandomizing | MacScavengerDataBase.py:48-49 | The number of summary documents with an alias field, at most the document count. |
| DataBase.AliasCountsAsRandomizing | MacScavengerDataBase.py:24-49 | After an alias is added, the latest ssid counts as randomizing, and no ssid stops counting. |
| DataBase.TwiceCountsAsNonRandomizing | MacScavengerDataBase.py:30-46 | Counting an ssid twice from a non-negative count makes it non-randomizing. |
| Localizer.Localizer.constructor | MacScavengerLocalizer.py:14-20 | Bounds from the AP positions; 20 draws, 0.5 m per bin, n = 2, f_scale = 1. |
| Localizer.GetBoundsFromPositions | MacScavengerLocalizer.py:79-82 | ([min x, min y], [max x, max y]): lower ≤ upper, every AP inside the box, and every bound attained by some AP. |
| Localizer.MinOf | MacScavengerLocalizer.py:81 | `min` is an element that no element is below. |
| Localizer.MaxOf | MacScavengerLocalizer.py:81 | `max` is an element that no element is above. |
| Localizer.GetNumberOfBins | MacScavengerLocalizer.py:89-90 | `int()` of the upper bounds divided by the bin size: truncation toward zero on either sign. |
| Localizer.Trunc | MacScavengerLocalizer.py:90 | `int()` of a real truncates toward zero. |
| Localizer.CalculateNormalizedWeights | MacScavengerLocalizer.py:84-87 | Yields NaN weights (0/0, modelled as None) iff the non-empty costs are all equal. Otherwise one weight per cost; no costs give no weights. |
| Localizer.NormalizedWeightsRange | MacScavengerLocalizer.py:84-87 | The weights lie in [0.1, 0.9]. The minimum cost gets 0.9 and the maximum cost 0.1. |
| Localizer.NormalizedWeightsOrder | MacScavengerLocalizer.py:85-86 | A cheaper cost gets a strictly larger weight. |
| Localizer.WeightRange | MacScavengerLocalizer.py:85-86 | 1 − (0.1 + (x − min)·0.8/(max − min)) lies in [0.1, 0.9], with 0.9 at min and 0.1 at max. |
| Localizer.WeightDecreasing | MacScavengerLocalizer.py:85-86 | That weight is strictly decreasing in the cost. |
| Localizer.ShapeOf | MacScavengerLocalizer.py:32-43 | Three or more vertices make a polygon, two a segment, one a point. An empty region fails. |
| Localizer.Product | MacScavengerLocalizer.py:30 | `itertools.product`: empty iff either side is empty, and it holds exactly the pairs of the two sides. |
| Localizer.Localizer.MeasurePair | MacScavengerLocalizer.py:32-46 | The distance of a pair is the shape distance times the bin size, when both regions are non-empty. |
| Localizer.Localizer.IsEqual | MacScavengerLocalizer.py:28-50 | The loop computes `IsEqualSpec`: the first pair within reach, else the minimum of all distances, else a failure. |
| Localizer.SearchCloseStep | MacScavengerLocalizer.py:31-49 | One step of the loop: an empty region fails, a pair within reach returns it, and otherwise its distance is recorded and the search goes on. |
| Localizer.CloseIsFirstWithinReach | MacScavengerLocalizer.py:45-49 | A close result is a pair within reach, and every earlier pair is measured and out of reach. |
| Localizer.ApartMeansAllOutOfReach | MacScavengerLocalizer.py:45-50 | An apart result means every pair is out of reach. Its value is the minimum of all recorded distances, and it is attained. |
| Localizer.IsEqualMonotone | MacScavengerLocalizer.py:45-49 | Raising the elapsed time or the walking speed can only turn apart into close. |
| Localizer.SearchCloseMonotone | MacScavengerLocalizer.py:45-49 | A larger reach keeps a close result close. |
| Localizer.ReachMonotone | MacScavengerLocalizer.py:45 | t·(km_per_h/3.6) grows with t and with the speed. |
| Localizer.IsEqualOfNoRegions | MacScavengerLocalizer.py:50 | With no previous or no actual regions, `min([])` fails. |
| ConvexHull.GetConvexHull | MacScavengerLocalizer.py:92-129 | The hull exists iff there is a point. It starts with the (x, y)-smallest input point, uses only input points, has at most as many vertices as the input, and makes no right turn. A single point yields itself. |
| ConvexHull.LexMinPoint | MacScavengerLocalizer.py:105 | `min` by (x, y) is an input point no other point precedes. |
| ConvexHull.RemoveFirst | MacScavengerLocalizer.py:106 | `pop(index(start))` removes exactly one copy of the start. |
| ConvexHull.SlopeOf | MacScavengerLocalizer.py:99-100 | The slope is infinite exactly for vertically aligned points. |
| ConvexHull.SlopeLeAntisymmetric | MacScavengerLocalizer.py:109 | Slopes with infinity last are ordered antisymmetrically. |
| ConvexHull.BySlopeTotalPreorder | MacScavengerLocalizer.py:109 | The sort key is a total preorder. |
| ConvexHull.ArrangeRuns | MacScavengerLocalizer.py:110-122 | The run loop computes `Arranged` of the slope-sorted candidates. |
| ConvexHull.ArrangeRun | MacScavengerLocalizer.py:113-118 | A closed run is copied as is when it has one element, and otherwise sorted nearest first. |
| ConvexHull.ArrangePermutation | MacScavengerLocalizer.py:110-121 | Arranging the runs loses and adds no candidate. |
| ConvexHull.ArrangedPermutation | MacScavengerLocalizer.py:110-121 | The arranged list is a permutation of the sorted one. |
| ConvexHull.ArrangeOrder | MacScavengerLocalizer.py:108-121 | Candidates ascend by slope. Equal-slope runs are nearest first, except the last slope, which is farthest first. |
| ConvexHull.CandidatesInOrder | MacScavengerLocalizer.py:105-122 | The full candidate order of the hull: that order, a permutation of the sorted candidates, and every candidate an input point with its true squared distance. |
| ConvexHull.PushAndPop | MacScavengerLocalizer.py:125-128 | Appending a point and popping below the top while the last three turn right keeps the base and ends with the point. The stack stays free of right turns and only loses points. |
| ConvexHull.PopBelowTop | MacScavengerLocalizer.py:128 | `ans.pop(-2)` keeps base and top and shortens the stack by one. |
| ConvexHull.GrahamScan | MacScavengerLocalizer.py:124-128 | The scan keeps the start at the bottom and ends with the last candidate. It never has a right turn and uses only its inputs. |
| ConvexHull.ScanFrom | MacScavengerLocalizer.py:108-128 | Sorting, arranging and scanning the rest of the points gives a right-turn-free chain from the start over input points. |
| ConvexHull.CandidatesFromInput | MacScavengerLocalizer.py:108-122 | Any permutation of the candidates consists of input points with their distances to the start. |
| Sync.Alive | MacScavengerSync.py:115-118 | The online flag alone iff there were no retries, else the flag followed by the retry count. |
| Sync.CaptureDevice.constructor | MacScavengerSync.py:132-146 | Name, host and port as given. Empty stub, zero packets and retries, and every flag off. |
| Sync.CaptureDevice.RemoveMultipathFading | MacScavengerSync.py:148-149 | The data passes unchanged. |
| Sync.CaptureDevice.RegisterDataPackets | MacScavengerSync.py:173-175 | The packet counter grows by the batch length, the batch is returned, and nothing else changes. |
| Sync.CaptureDevice.PutTogetherStubs | MacScavengerSync.py:162-171 | The parsed stubs of stub+chunk, left to right. On success the new stub is stub+chunk with each match deleted in turn; a stub that does not parse fails and keeps the old stub. |
| Sync.ParseAll | MacScavengerSync.py:169 | The list comprehension succeeds iff every stub parses, and then yields their values in order. |
| Stubs.FindStubs | MacScavengerSync.py:163-165 | Every match is an opening brace, at least one non-brace and a closing brace. |
| Stubs.StubPrefix | MacScavengerSync.py:163-165 | A match at the front is a stub, and none exists when no prefix is one. |
| Stubs.Reassembly | MacScavengerSync.py:163-170 | Complete objects followed by a tail without a closing brace are found exactly, in order, and deleting them leaves the tail for the next chunk. |
| Stubs.FindStubsOfConcat | MacScavengerSync.py:165 | The objects of a concatenation of stubs are those stubs. |
| Stubs.RemoveEachConcat | MacScavengerSync.py:166-168 | Deleting each listed stub from a concatenation keeps exactly the unlisted ones. |
| Stubs.NoStubWithoutClose | MacScavengerSync.py:165 | Text without a closing brace has no match. |
| Builtins.RemoveAll | MacScavengerSync.py:168 | `str.replace(p, '')` never lengthens the text. |
| Builtins.RemoveAllKeepsTail | MacScavengerSync.py:168 | Deleting a pattern leaves a tail that lacks the pattern's last character untouched. |
| Sync.Swarm.constructor | MacScavengerSync.py:17-23 | The device list starts empty. |
| Sync.Swarm.AddDevice | MacScavengerSync.py:42-43 | Appends at the end. |
| Sync.Swarm.RemoveDevice | MacScavengerSync.py:30-31 | Removes only the first occurrence of the device. An absent device fails and changes nothing. |
| Sync.Swarm.ClearDevices | MacScavengerSync.py:33-34 | Empties the list. |
| Sync.Swarm.DoesExist | MacScavengerSync.py:36-40 | Returns `FirstNamed`: the first device with the name, or None. |
| Sync.FirstNamed | MacScavengerSync.py:36-40 | A found device is in the list with that name. None means no device has the name. |
| Sync.FirstNamedIsFirst | MacScavengerSync.py:37-39 | No earlier device has the name. |
| Sync.IndexOf | MacScavengerSync.py:31 | `list.remove` targets the first index holding the device. |
| Sync.Swarm.SaveSwarm | MacScavengerSync.py:49-53 | The (name, host, port) triples in list order. |
| Sync.Records | MacScavengerSync.py:52 | One triple per device, in order. |
| Sync.Swarm.Load | MacScavengerSync.py:55-58 | Appends one fresh device per record, in order, without clearing. |
| Sync.Swarm.GetSwarmOverview | MacScavengerSync.py:112-128 | None iff there are no devices, else one row per device in order. |
| Sync.Overview | MacScavengerSync.py:114-119 | One row per device, with the device's fields and its Alive column. |
| Shell.IsFileValid | MacScavengerShell.py:157-166 | False for an empty file, else true iff every record's keys are exactly {ap, epoch, ie, rssi, ssid}. |
| Shell.ScavengerShell.constructor | MacScavengerShell.py:18-21 | A shell over an empty swarm. |
| Shell.ScavengerShell.DoAdd | MacScavengerShell.py:110-126 | A token count other than 3 adds nothing, and so does a port `int()` rejects. Otherwise exactly one device (name, host, int port) is appended; negative ports pass. |
| Builtins.Split | MacScavengerShell.py:111 | `str.split()` yields only non-empty whitespace-free words. |
| Builtins.SplitJoinWords | MacScavengerShell.py:111 | Splitting words joined by blanks gives back the words. |
| Builtins.ParseIntToString | MacScavengerShell.py:119 | `int(str(n)) == n` for every integer. |
| Builtins.ParseRejectsForeign | MacScavengerShell.py:119-122 | `int()` as modelled rejects a token containing any character other than ASCII digits, underscores and signs. |
| Builtins.NatToStringValue | MacScavengerShell.py:119 | The decimal digits of a natural denote it. |
| Shell.AddLineParses | MacScavengerShell.py:111-122 | A typed line "name host port" splits into three tokens whose last parses back to the port, negatives included. |
| Shell.ScavengerShell.DoRm | MacScavengerShell.py:137-143 | Removes the first device with the name, else leaves the list unchanged. |
| Shell.ScavengerShell.DoClear | MacScavengerShell.py:131-132 | Empties the list. |
| Shell.SplitExt | MacScavengerShell.py:38 | `os.path.splitext`: root and extension concatenate to the path. |
| Shell.SplitExtShape | MacScavengerShell.py:38 | An extension is a dot followed by no dot and no separator, and the root keeps a stem. |
| Shell.LastIndex | MacScavengerShell.py:38 | The last index of a character, or −1. |
| Shell.SavePath | MacScavengerShell.py:64-68 | "config" for empty input, and always root + ".yaml", whatever extension was given. |
| Shell.DefaultSavePath | MacScavengerShell.py:64-68 | Empty input saves to ./config/config.yaml. |
| Shell.LoadPath | MacScavengerShell.py:38-44 | ".yaml" is added only when the name has no extension. |
| Shell.SaveLoadSamePath | MacScavengerShell.py:38-68 | A name with no extension or with ".yaml" loads from the file it is saved to. |
| Shell.ScavengerShell.DoSave | MacScavengerShell.py:63-71 | Writes the swarm's triples under `SavePath`. |
| Shell.ScavengerShell.DoLoad | MacScavengerShell.py:36-49 | Clears the list, then loads the records of `LoadPath` when that file exists; a missing file leaves the list empty. |
| Shell.ScavengerShell.SaveThenLoad | MacScavengerShell.py:37-70 | Saving under a name and loading it back reproduces the device triples in order. |
| Builtins.MaxString | MacScavengerAnalyzer.py:107-119 | Python's `max` over keys is the lexicographic maximum. |
| Builtins.LexLeTotal | MacScavengerAnalyzer.py:107-119 | Python string order is total. |
| Builtins.LexLeTransitive | MacScavengerAnalyzer.py:107-119 | Python string order is transitive. |
| Builtins.LexLeAntisymmetric | MacScavengerAnalyzer.py:107-119 | Python string order is antisymmetric. |
| Sorting.SortBySorted | MacScavengerAnalyzer.py:93 | `sorted` under a total preorder yields a sorted list. |
| Sorting.SortByPermutation | MacScavengerAnalyzer.py:93 | `sorted` yields a permutation of its input. |

## Left out

- Floating point. Reals are exact, so slopes, weights, bin counts and reach are computed without rounding. The hull compares squared distances instead of `** 0.5`; the order is the same.
- Hashing. `sha1` of ie+ssid is modelled as the concatenation itself (no collisions).
- Time values. Epochs are integer nanoseconds; pandas datetime parsing is not modelled.
- The pandas index quirk in `_create_even_intervals`. `epoch[0]` becomes ambiguous once the buffer is non-empty; the model takes the first buffered record as the reference.
- Analyzer.ScavengerAnalyzer.constructor: requires a positive interval, because a zero-second `timedelta64` unit is not meaningful. It also requires a non-empty AP layout, because `min` over no positions raises.
- Resolution.LatestKey: the latest entry is the string maximum of the timestamp keys, as written. It is not a numeric maximum.
- Analyzer.ScavengerAnalyzer.Decide: requires a running median and a well-formed registry. `_group_ies_and_ssids` always sets the median before a window is interpreted, and the registry only receives parseable keys.
- Localization: `localize`, multilateration, random restarts and the heatmap peaks are numeric and random. `localize` is a function-valued field supplied at construction.
- Shapes: shapely's shape distance is a foreign call; it is a function-valued field too.
- MongoDB: the server check in the registry constructor and collection naming by clock. Both collections simply start empty.
- Dotted ssids. MongoDB would read `ssid.timestamp` with a dot inside the ssid as a deeper path; the model treats the ssid as one key.
- The streaming pipeline: streamz wiring, glob/JSON loading and `start(data_path)` are not modelled. `ProcessWindow` stands in for one window's path through it.
- Shell glue: `start(path, is_dir)` is called by the shell with an extra argument the analyzer does not take.
- Sockets, threads and stream plumbing in the swarm: `capture_and_fetch`, `stop_capture`, `connect_device`, `setup_ap`, `stop_process`, `timed_window` and the database writers.
- Swarm's own `put_together_stubs`: its `last_stub` starts as a dict, so the concatenation fails. Only the capture device's version is modelled.
- Sync.CaptureDevice.PutTogetherStubs: bytes decoding is left out and the chunk is already text. `ast.literal_eval` is a parse function given as a parameter, and a stub it rejects fails the whole call.
- Shell file I/O: yaml files become a map from path to device records. Record fields missing from a yaml file, JSON content that is not a list, and the directory walk of `do_analyze` are not modelled.
- Shell.IsFileValid: takes each record as its key set, so the `sorted(keys())` list comparison becomes set equality.
- Builtins.ParsePythonInt: accepts ASCII digits only. Python's `int()` also accepts other Unicode decimal digits, so a port typed with such digits is rejected by the model's DoAdd.
- Shell.ScavengerShell.constructor: in Python the swarm is a class attribute, so every shell shares one. The model gives each shell its own swarm; the program creates a single shell.
- Prompts and printing: readline, the `ls` refresh loop, `termtables` rendering, the verbose prints and the summary printout. `Summary` returns the four numbers instead.
- `ast.literal_eval` of AP positions is not modelled.
- MacScavengerMonitor.py is not part of this model: TCP servers, tshark and channel hopping.
- KalmanFilter.py is not part of this model (floating point filtering).
- helper_code and SyncDataBaseInterfaces are not part of this model: deployment scripts, one-off file merging and storage writers.
