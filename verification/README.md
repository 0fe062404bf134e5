# travel-cost, modelled in Dafny

travel-cost turns the spreadsheets exported by three business-travel
platforms into one JSON dataset for a cost report. Those platforms are
Alibaba (阿里商旅), Ctrip (携程商旅) and Zaitu (在途商旅). This model covers the
pipeline's core, one Dafny module per concern:

- **DateMatcher** (`date_matcher.dfy`): reading the date range of a travel
  file from its name. It counts the days the range spends in each `YYYY-MM`
  month and picks the month with the most days.
- **RosterMonth** (`roster_month.dfy`): reading the month of a roster
  (花名册) file from its name, and choosing the roster for a travel month that
  has none of its own.
- **FileScanner** (`file_scanner.dfy`): classifying the file names of the
  raw-data directory and attaching a roster to every travel file. It also
  picks the files modified since they were last processed.
- **Roster** (`roster.dfy`): the active employees of one roster sheet and the
  per-month employee index. It also covers the cumulative roster index that
  each month updates (a class whose maps change in place), and what loading
  the index returns.
- **MergeData** (`merge_data.dfy`): combining the monthly files, the
  five-way amount/count summary, and the record-position indexes.
- **Sampling** (`sampling.dfy`): the lightweight report's sample, which
  keeps the latest records of each type.
- **Rows**, **Records**, **Ctrip**, **Alibaba**, **Zaitu**: the per-vendor row
  extractors, the records they write, and how merging reads those records
  back. They also cover the Zaitu sheet lookup by name.

Supporting modules model the Python library behaviour the core relies on:

- **Wrappers**: `Option`.
- **Text**: strings, `strip`, `split`, ASCII case, lexicographic order.
- **Dicts**: insertion-ordered dictionaries as association lists.
- **Sorting**: a stable sort by key and filtering.
- **Calendar**: `datetime.date`.
- **Regex**: the fixed `re.search` patterns of the date matcher.

Modelling choices:

- **Amounts** are whole cents (`int`). Python's `float()` on a cell is a
  function parameter `num: string -> Option<int>`, with `None` where it
  raises.
- **Spreadsheet rows** are sequences of cells. An empty cell (NaN) is `None`,
  and any other cell is the text `str()` gives for it.
- **Clocks and the file system** become parameters: the list of file names,
  modification times, and the contents of files already read.

Loops in the source become methods whose postconditions tie them to a
specification function. The properties of that function are then proved as
lemmas. Examples are `BuildSummary`, `BuildIndexes`, `CalculateDaysByMonth`,
`ScanAndClassifyFiles`, `UpdateRosterIndex`, `SampleData` and
`Zaitu.SplitAddress`.

## Model

| member | source | states |
|---|---|---|
| DateMatcher.FirstMax | scripts/utils/date_matcher.py:33 | the position `max(items, key=count)` stops at holds a largest count and is the first such |
| DateMatcher.DateRange.TotalDays | scripts/utils/date_matcher.py:21-24 | `total_days` is the number of days from start to end inclusive, and is not positive for a reversed range |
| DateMatcher.DateRange.MainMonth | scripts/utils/date_matcher.py:26-34 | the main month is missing exactly when no month is counted; otherwise it is the key of the first largest count |
| DateMatcher.CalculateDaysByMonth | scripts/utils/date_matcher.py:153-176 | the day-by-day walk yields the range with the day counts of `DaysByMonth` |
| DateMatcher.TallyTotal | scripts/utils/date_matcher.py:164-170 | each counted day adds exactly one to the sum of the counts |
| DateMatcher.TallyCount | scripts/utils/date_matcher.py:169 | a month's count grows by the number of days counted under it |
| DateMatcher.TallyKeysAscending | scripts/utils/date_matcher.py:164-170 | keys counted in chronological order are inserted in ascending order, each being a counted key |
| DateMatcher.RangeMonthKeysNonDecreasing | scripts/utils/date_matcher.py:167-170 | the days of a range meet their month keys in non-decreasing order |
| DateMatcher.DaysSumToTotal | scripts/utils/date_matcher.py:21-24 | over a non-empty range the day counts add up to `total_days`; over a reversed range nothing is counted and there is no main month |
| DateMatcher.DaysCountEachMonth | scripts/utils/date_matcher.py:164-170 | the count under a key is the number of days of the range in that month |
| DateMatcher.DaysKeysAreMonths | scripts/utils/date_matcher.py:164-170 | the keys are exactly the months the range touches |
| DateMatcher.FirstMaxAscending | scripts/utils/date_matcher.py:33 | with ascending keys, the chosen entry has the largest count and, on a tie, the smallest key |
| DateMatcher.MainMonthEarliestOnTie | scripts/utils/date_matcher.py:26-34 | on a computed range the main month has the most days, and on a tie it is the earliest month |
| DateMatcher.WholeMonthOneKey | scripts/utils/date_matcher.py:140-146 | a whole calendar month is counted under one key with that month's length |
| DateMatcher.MakeDate | scripts/utils/date_matcher.py:64 | `date(y, m, d)` succeeds exactly for a valid date and gives that date |
| DateMatcher.ExtractDateFromString | scripts/utils/date_matcher.py:44-87 | any date read from the text is a valid date |
| DateMatcher.ExtractCompactRoundTrip | scripts/utils/date_matcher.py:59-66 | a date written `YYYYMMDD` at the start of the text is read back, whatever the year hint |
| DateMatcher.MonthEnd | scripts/utils/date_matcher.py:126-129 | December 31 for month 12, otherwise the day before the first of the next month; month 0 means December of the year before; None exactly where `date` raises |
| DateMatcher.MonthSpan | scripts/utils/date_matcher.py:120-130 | a month range runs from the first day of one month to the last day of the other, both valid |
| DateMatcher.DayRangeBounds | scripts/utils/date_matcher.py:106-113 | the `YYYYMMDD-YYYYMMDD` tier yields only valid dates |
| DateMatcher.MonthRangeBounds | scripts/utils/date_matcher.py:116-132 | the `YYYYMM-YYYYMM` tier yields only valid dates |
| DateMatcher.OneMonthBounds | scripts/utils/date_matcher.py:135-148 | the single `YYYYMM` tier yields only valid dates |
| DateMatcher.DateBounds | scripts/utils/date_matcher.py:90-150 | the bounds are missing exactly when all three tiers fail, and are valid dates otherwise |
| DateMatcher.ParseDateRangeFromFilename | scripts/utils/date_matcher.py:90-150 | no range exactly when no tier yields bounds; otherwise the range of those bounds with their day counts |
| DateMatcher.DayRangeName | scripts/utils/date_matcher.py:106-113 | a name holding `YYYYMMDD-YYYYMMDD`, with no digit before it, yields the two days it spells |
| DateMatcher.MonthRangeNoDayRun | scripts/utils/date_matcher.py:106 | a name whose digits are two runs of six around `-` has no run of eight digits, so the first tier fails |
| DateMatcher.MonthRangeName | scripts/utils/date_matcher.py:116-130 | a name holding `YYYYMM-YYYYMM` spans the first day of one month to the last day of the other |
| DateMatcher.OneMonthName | scripts/utils/date_matcher.py:135-146 | a name holding one `YYYYMM` and no `-` covers that whole month, counted under one key |
| DateMatcher.DaysAcrossTwoMonths | scripts/utils/date_matcher.py:164-170 | a range into the next month is counted under two keys: the rest of the first month, then the days of the second |
| DateMatcher.AlibabaDays | scripts/utils/date_matcher.py:264 | 2025-11-25 to 2025-12-24 counts 6 and 24 days, so it belongs to 2025-12 |
| DateMatcher.AlibabaName | scripts/utils/date_matcher.py:264 | `阿里20251125-20251224.xlsx` spans 2025-11-25 to 2025-12-24 |
| DateMatcher.ZaituName | scripts/utils/date_matcher.py:97 | `在途202510-202511.xls` spans 2025-10-01 to 2025-11-30 |
| DateMatcher.ZaituDays | scripts/utils/date_matcher.py:97 | October and November 2025 count 31 and 30 days, so the file belongs to 2025-10 |
| DateMatcher.TieName | scripts/utils/date_matcher.py:106-113 | `携程20250117-20250215.xlsx` spans 2025-01-17 to 2025-02-15 |
| DateMatcher.TieDays | scripts/utils/date_matcher.py:33 | fifteen days in each month: the tie goes to the earlier month |
| RosterMonth.MonthLabel | scripts/utils/date_matcher.py:198 | `f'{year}-{month:02d}'` reads back as a year and a month |
| RosterMonth.ExtractRosterMonth | scripts/utils/date_matcher.py:179-207 | any month read from a roster name splits into year and month digits around `-` |
| RosterMonth.FirstAtMost | scripts/utils/date_matcher.py:251-253 | the loop stops at the first key not after the target, and finds none only when every key is after it |
| RosterMonth.SortedMonths | scripts/utils/date_matcher.py:250 | `sorted(keys)` is a permutation of the keys in ascending order |
| RosterMonth.NearestKey | scripts/utils/date_matcher.py:248-256 | the last two tiers always pick one of the roster months |
| RosterMonth.FindMatchingRoster | scripts/utils/date_matcher.py:210-258 | no roster exactly when there are none; otherwise one of the given rosters |
| RosterMonth.Fallback | scripts/utils/date_matcher.py:235-258 | the tiers after the exact match find a roster exactly when there is one, and only a given roster |
| RosterMonth.NearestIsEarliestOrLatest | scripts/utils/date_matcher.py:247-256 | the fourth tier takes the EARLIEST month not after the target, not the nearest; otherwise the latest month |
| RosterMonth.FindTiers | scripts/utils/date_matcher.py:224-256 | in calendar terms: the month itself, the month before in the same year, the month after in the same year, then the last tiers |
| RosterMonth.NeighbourKeys | scripts/utils/date_matcher.py:235-245 | the neighbouring months the source builds are the month keys of the same year |
| RosterMonth.OneDigitMonthNotTwo | scripts/utils/date_matcher.py:195 | `YYYY年M月` does not match the two-digit alternative |
| RosterMonth.RosterMonthCn | scripts/utils/date_matcher.py:195-198 | a name with `YYYY年M月` or `YYYY年MM月` and no earlier digit yields that month, zero-padded |
| RosterMonth.RosterMonthSix | scripts/utils/date_matcher.py:201-205 | without `年`, six digits in a row yield `YYYY-MM` as written |
| RosterMonth.RosterMonthNone | scripts/utils/date_matcher.py:179-207 | no month exactly when neither form is found |
| RosterMonth.RosterKeyCn | scripts/utils/date_matcher.py:195-198 | a four-digit year with a valid month gives that month's key |
| RosterMonth.RosterKeySix | scripts/utils/date_matcher.py:201-205 | six digits give `YYYY-MM` for any two-digit month, 00 and 13 to 99 included: the month is not validated |
| RosterMonth.RosterNameCn | scripts/utils/date_matcher.py:267 | `2025年12月花名册.xlsx` belongs to 2025-12 |
| RosterMonth.RosterNameMonth13 | scripts/utils/date_matcher.py:201-205 | `花名册202513.xlsx` yields the key `2025-13` |
| RosterMonth.NearestOfTwo | scripts/utils/date_matcher.py:250-256 | of two months, the last tiers take the earlier when it is not after the target, else the later |
| RosterMonth.FallbackBeyondNeighbours | scripts/utils/date_matcher.py:247-256 | with no roster for the month or its neighbours, the last tiers decide |
| RosterMonth.FallbackEarliest | scripts/utils/date_matcher.py:251-253 | with two earlier rosters that are not the month before, the EARLIER one is taken |
| RosterMonth.FallbackLatest | scripts/utils/date_matcher.py:255-256 | with two rosters beyond the next month, the LATER one is taken |
| RosterMonth.FallbackNextBeforeEarlier | scripts/utils/date_matcher.py:241-245 | the month after wins over an earlier month of the same year |
| FileScanner.KeywordsCaseless | scripts/utils/file_scanner.py:97-113 | no keyword holds an ASCII letter, so lower-casing cannot affect the tests |
| FileScanner.ClassifyByName | scripts/utils/file_scanner.py:87-115 | roster exactly when the name holds 花名册; otherwise the first vendor prefix that matches, in the order 阿里, 携程, 在途 |
| FileScanner.VendorPrefixDecides | scripts/utils/file_scanner.py:103-113 | a name without the roster word is filed under the vendor whose prefix it has |
| FileScanner.ScanResult.AllTravelFiles | scripts/utils/file_scanner.py:49-52 | the Alibaba, Ctrip and Zaitu lists, one after the other |
| FileScanner.ScanResult.RosterMonths | scripts/utils/file_scanner.py:54-57 | the roster months, as a permutation, in ascending order |
| FileScanner.ScanResult.GetRosterMap | scripts/utils/file_scanner.py:59-61 | each month with its roster file name, in the same order |
| FileScanner.RosterMapGet | scripts/utils/file_scanner.py:59-61 | the map finds, for every month, the name of the file stored for it |
| FileScanner.TargetMonth | scripts/utils/file_scanner.py:149-150 | a target month exists for every forward range and always reads as `YYYY-MM` |
| FileScanner.MainMonthShaped | scripts/utils/file_scanner.py:150 | the main month of a forward range exists and splits as a month |
| FileScanner.StepVendor | scripts/utils/file_scanner.py:147-160 | a file is appended to its own vendor's list and to no other |
| FileScanner.StepRosters | scripts/utils/file_scanner.py:135-145 | a roster file with a month is stored under that month, replacing an earlier one; nothing else changes the rosters |
| FileScanner.CollectFresh | scripts/utils/file_scanner.py:131-160 | after the first loop every travel file has a well-formed target month or none, and no roster yet |
| FileScanner.Attached | scripts/utils/file_scanner.py:164-169 | only the roster field changes; a roster is attached exactly when there is a target month and some roster, and it is one of the rosters |
| FileScanner.AttachAll | scripts/utils/file_scanner.py:164-169 | every file keeps its place and all but its roster; it gets the roster `find_matching_roster_file` picks for its target month, and none without a target month or without rosters |
| FileScanner.ScanAndClassifyFiles | scripts/utils/file_scanner.py:118-171 | the two loops produce the scan value `Scanned(files)` |
| FileScanner.ClassifyFiles | scripts/utils/file_scanner.py:131-160 | the first loop collects `Collect(files)` |
| FileScanner.AttachRosters | scripts/utils/file_scanner.py:162-169 | the second loop attaches rosters in place, as `AttachAll` does |
| FileScanner.CollectVendors | scripts/utils/file_scanner.py:147-160 | each vendor list holds exactly the names classified under that vendor, in the order listed |
| FileScanner.LastRoster | scripts/utils/file_scanner.py:137-143 | the file found is a listed roster file whose name yields the month |
| FileScanner.CollectRosters | scripts/utils/file_scanner.py:137-143 | the roster kept for a month is the last roster file, in listing order, that yields it |
| FileScanner.GetFilesToProcess | scripts/utils/file_scanner.py:214-258 | all files when forced; otherwise exactly the files modified after their recorded time, in order |
| FileScanner.FilesToProcessExactly | scripts/utils/file_scanner.py:251-256 | unforced, a file is chosen exactly when it is stale; without a record, exactly when its time is positive |
| Roster.ActiveRecords | scripts/process_roster.py:55-81 | no more records than rows, each being the record of an active row with a name |
| Roster.ActiveRecordsComplete | scripts/process_roster.py:55-81 | every active row with a name contributes its record |
| Roster.FromActiveSnoc | scripts/process_roster.py:66-79 | the records of a prefix of the rows stay records of all of them |
| Roster.EmptyNameDropped | scripts/process_roster.py:68-78 | an empty name cell reads as "nan" and the row is dropped |
| Roster.ListedStatusesActive | scripts/process_roster.py:57-58 | every listed status passes the filter |
| Roster.ActiveEmployeeRecords | scripts/process_roster.py:58-81 | the row loop yields exactly `ActiveRecords(rows)` |
| Roster.LastInfo | scripts/process_roster.py:94-103 | no info exactly when no record has the name; otherwise the info of a record with that name |
| Roster.IndexLastWins | scripts/process_roster.py:84-104 | the index has each name once, exactly the records' names, and each name maps to its last record |
| Roster.IndexCount | scripts/process_roster.py:151 | the index has one entry per distinct name |
| Roster.BuildEmployeeIndex | scripts/process_roster.py:84-104 | one assignment per record builds `IndexOf(records)` |
| Roster.MergeAll | scripts/process_roster.py:203-218 | merging removes no name and adds the snapshot's names |
| Roster.Refreshed | scripts/process_roster.py:204-218 | a known name with a later recorded month keeps its entry; otherwise it takes the month and the new departments |
| Roster.MergeLookup | scripts/process_roster.py:203-218 | one merge step changes only the merged name's entry |
| Roster.MergeAllOutside | scripts/process_roster.py:203-218 | a name absent from the snapshot keeps its entry or stays absent |
| Roster.MergeAllAt | scripts/process_roster.py:203-218 | each snapshot name ends with the entry `Refreshed` computes from its old one |
| Roster.LatestAtLeastMonth | scripts/process_roster.py:209-214 | after merging, every snapshot name's latest month is recorded and not older than the month |
| Roster.NewerMonthWins | scripts/process_roster.py:213-218 | merging two months in either order gives a shared name the newer month and its departments |
| Roster.RosterIndex.constructor | scripts/process_roster.py:181-201 | a missing or unreadable index reads as empty, and a missing key reads as `{}` |
| Roster.RosterIndex.Saved | scripts/process_roster.py:220-223 | the saved file holds both maps |
| Roster.RosterIndex.UpdateRosterIndex | scripts/process_roster.py:165-225 | the month's entry records the file and head count; `allEmployees` becomes the merge of the month's index |
| Roster.MonthCount | scripts/process_roster.py:196 | the head count recorded is the number of distinct names |
| Roster.LoadEmployeeIndex | scripts/process_roster.py:228-254 | empty without an index; a month with a snapshot file gives that snapshot's employees; otherwise `allEmployees`, `{}` when missing |
| MergeData.ParseAmount | scripts/merge_data.py:19-40 | the price of a flight, hotel or train, the total of a ride; a non-zero amount only comes from those fields |
| MergeData.DatePart | scripts/merge_data.py:66-70 | a space-free prefix of the time: up to the first space, else ten characters, else empty |
| MergeData.ParseDate | scripts/merge_data.py:43-70 | empty for an unknown type; otherwise the date part of the type's time field |
| MergeData.EmployeeName | scripts/merge_data.py:73-90 | the passenger of a flight or ride, otherwise the employee |
| MergeData.GroupingKeys | scripts/merge_data.py:163-168 | the department is unknown only when missing; an empty employee becomes unknown; a month key is seven characters of the date or unknown |
| MergeData.TimedRecordMonth | scripts/merge_data.py:166 | a record timed `YYYY-MM-DD hh:mm:ss` is grouped under that day's month key |
| MergeData.UntimedRecordMonth | scripts/merge_data.py:166 | an unknown type or an empty time goes under the unknown month |
| MergeData.Indices | scripts/merge_data.py:217-229 | the positions of the records under a key, exactly those, increasing |
| MergeData.TalliesEntries | scripts/merge_data.py:159-183 | each group holds the sum and number of its key's records; keys are distinct; every record's key has a group |
| MergeData.TalliesTotal | scripts/merge_data.py:159-183 | the groups of one dimension together hold every record and every amount |
| MergeData.TotalPermutation | scripts/merge_data.py:188-197 | reordering the groups keeps their total |
| MergeData.SortedGroups | scripts/merge_data.py:188-197 | the listed groups are a reordering of the tallies: by key for months, by decreasing amount otherwise, with employees cut at 100 |
| MergeData.SummaryTotals | scripts/merge_data.py:150-197 | `totalRecords` is the number of records; each dimension except employees accounts for every record and cent |
| MergeData.SummaryEntries | scripts/merge_data.py:185-197 | every listed group is its key's tally, and no key is listed twice |
| MergeData.SummaryCovers | scripts/merge_data.py:185-197 | every record's key is listed, in every dimension but the truncated employees |
| MergeData.SummaryDescending | scripts/merge_data.py:188-197 | amounts never increase, and groups of equal amount keep their first-occurrence order (not for employees) |
| MergeData.MonthsAscending | scripts/merge_data.py:192-193 | months are listed in strictly increasing key order |
| MergeData.EmployeesTruncated | scripts/merge_data.py:194-195 | at most 100 employees, and none left out has a larger amount than one listed |
| MergeData.DescendingOrder | scripts/merge_data.py:189 | `sorted(reverse=True)` by amount is non-increasing and stable, and keeps keys distinct |
| MergeData.TakeLargest | scripts/merge_data.py:195 | cutting a non-increasing list leaves out no larger amount than one kept |
| MergeData.BuildSummary | scripts/merge_data.py:140-198 | the one-pass loop yields `SummaryOf(records)` |
| MergeData.IndexLists | scripts/merge_data.py:231-237 | each listed list holds its key's positions; keys are strictly ascending |
| MergeData.IndexCovers | scripts/merge_data.py:217-229 | every position is listed under its record's key |
| MergeData.IndexPartition | scripts/merge_data.py:201-237 | a position is listed only under its own key; lists increase; keys strictly ascend |
| MergeData.IndexMatchesSummary | scripts/merge_data.py:170-229 | a key's index list is as long as the summary's count for it |
| MergeData.PositionsValues | scripts/merge_data.py:225-229 | each key's list holds exactly the positions of its records |
| MergeData.BuildIndexes | scripts/merge_data.py:201-237 | the one-pass loop yields `IndexesOf(records)` |
| MergeData.MergedRecords | scripts/merge_data.py:108-118 | every merged record comes from a readable non-roster file, and every record of such a file is merged |
| MergeData.MergedInOrder | scripts/merge_data.py:108-118 | merging keeps file order: the records of two lists of files one after the other are those of the first list, then those of the second |
| MergeData.MergedOne | scripts/merge_data.py:113-118 | a single file contributes all its records when it is readable and not a roster snapshot, and none otherwise |
| MergeData.MonthsOf | scripts/merge_data.py:121-122 | exactly the months named by readable non-roster files |
| MergeData.SourcesOf | scripts/merge_data.py:123-124 | exactly the sources named by readable non-roster files |
| MergeData.SortedSet | scripts/merge_data.py:135-136 | `sorted(set)` lists exactly the set's strings in strictly ascending order |
| MergeData.MergeMonthlyData | scripts/merge_data.py:93-137 | the records of the readable non-roster files in order, and their months and sources sorted without repeats |
| Sampling.RecordDate | scripts/generate_lightweight_html.py:33-40 | the first non-empty of departure, check-in and pick-up time, and "" exactly when all are empty |
| Sampling.BlockFacts | scripts/generate_lightweight_html.py:42-43 | a type keeps min(count, limit) of its records, latest first, all from the input |
| Sampling.FirstOf | scripts/generate_lightweight_html.py:25-27 | the position of the first record of a type, or the length when there is none |
| Sampling.ByTypeDistinct | scripts/generate_lightweight_html.py:25-27 | each type is grouped once |
| Sampling.ByTypeCovers | scripts/generate_lightweight_html.py:25-27 | every record's type is a group |
| Sampling.ByTypeOrder | scripts/generate_lightweight_html.py:25-27 | the groups come in the order of their types' first occurrence |
| Sampling.ByTypeValues | scripts/generate_lightweight_html.py:25-27 | each group holds all the records of its type, in input order |
| Sampling.SampleOf | scripts/generate_lightweight_html.py:16-56 | fails exactly when a record has no type; otherwise the counts, summary, update time and months are carried over and it is marked as a sample |
| Sampling.SampleOfType | scripts/generate_lightweight_html.py:29-43 | each type's sample is the first `max` of its records sorted latest first, ties in input order |
| Sampling.SampleBounded | scripts/generate_lightweight_html.py:42-43 | each type contributes at most `max` records, latest first, all from the input |
| Sampling.SampleCount | scripts/generate_lightweight_html.py:55 | `sampledRecords` sums each type's record count capped at `max` |
| Sampling.SampleOrder | scripts/generate_lightweight_html.py:31-43 | the sample comes in type blocks, in the order of the types' first occurrence |
| Sampling.LightweightSample | scripts/generate_lightweight_html.py:86 | the report's sample holds at most 200 records per type, whatever limit it is given |
| Sampling.GroupByType | scripts/generate_lightweight_html.py:25-27 | the grouping loop fails exactly on a record without a type, and otherwise builds `ByType(records)` |
| Sampling.KeepLatest | scripts/generate_lightweight_html.py:30-43 | the second loop yields `Sampled(byType, max)` |
| Sampling.SampleData | scripts/generate_lightweight_html.py:16-56 | the two loops yield `SampleOf(data, max)` |
| Rows.NameFrom | scripts/process_zaitu.py:69-75 | the stripped first column, or the second when the first is blank; none exactly when both are blank |
| Rows.DatePrefix | scripts/process_ctrip.py:151-152 | the "202" test is subsumed by the "20" test |
| Rows.IsoDateNotAPassenger | scripts/process_ctrip.py:151-152 | a `YYYY-MM-DD` date is never taken for a passenger |
| Rows.FallbackOnlyOnParseFailure | scripts/process_zaitu.py:107-117 | the fallback column is read only when the first is present and fails to parse; an empty first column gives 0 |
| Rows.Abs | scripts/process_ctrip.py:267 | `abs` is non-negative and equals the value or its negation |
| Rows.RouteCities | scripts/process_ctrip.py:166-172 | no hyphen gives two empty cities; otherwise the first city is the stripped text before the first hyphen |
| Rows.RouteOfTwo | scripts/process_ctrip.py:166-172 | `a-b` splits back into `a` and `b`, stripped |
| Rows.RouteCitiesTrimmed | scripts/process_ctrip.py:169-172 | both cities are free of hyphens and of white space at their ends |
| Rows.JoinedParts | scripts/process_alibaba.py:123 | date and time are joined by one space; a missing time leaves the date alone |
| Rows.UnlistedDept | scripts/process_ctrip.py:160 | a name missing from the roster gets empty departments |
| Records.MergeReadsRecord | scripts/merge_data.py:19-168 | merging reads back each record's amount, person, source and department; an unlisted person goes under "" rather than 未知部门 |
| Ctrip.InferAirline | scripts/process_ctrip.py:80-85 | '' for a flight number under two characters; otherwise '' or a name from the airline table |
| Ctrip.AirlineByCode | scripts/process_ctrip.py:83-84 | the airline depends only on the first two characters, upper-cased |
| Ctrip.AirlineCaseless | scripts/process_ctrip.py:83 | lower-casing a flight number does not change its airline |
| Ctrip.GuilinHoldsGY | scripts/process_ctrip.py:48-56 | the duplicated code GY names 桂林航空, the later entry, in either case |
| Ctrip.ConvertCabin | scripts/process_ctrip.py:88-93 | '' for an empty code; otherwise the code unchanged or a class name |
| Ctrip.CabinLetter | scripts/process_ctrip.py:71-93 | a single letter converts to its class in either case, or stays when unknown |
| Ctrip.ConvertCabinIdempotent | scripts/process_ctrip.py:88-93 | converting twice is converting once |
| Ctrip.ClassNameStays | scripts/process_ctrip.py:71-77 | each class name converts to itself |
| Ctrip.FlightKeptExactly | scripts/process_ctrip.py:131-220 | kept exactly for a wide row with a plausible passenger, a departure time, a flight number and a non-zero price; price and passenger as read |
| Ctrip.FlightPlausible | scripts/process_ctrip.py:151-194 | every flight written has a plausible passenger, a departure and flight number, a non-zero price and the Ctrip source |
| Ctrip.FlightRoute | scripts/process_ctrip.py:166-172 | a route `a-b` fills in both cities |
| Ctrip.ExtractHotel | scripts/process_ctrip.py:248-267 | a hotel's stored price is never negative |
| Ctrip.HotelKeptExactly | scripts/process_ctrip.py:223-277 | kept exactly for a wide row whose guest is neither blank nor a header or total word; the price is the size of the amount |
| Ctrip.ExtractCar | scripts/process_ctrip.py:280-286 | Ctrip rides are never extracted |
| Alibaba.FlightKeptExactly | scripts/process_alibaba.py:56-135 | kept exactly for a wide row naming a plausible traveller or booker, a flight number, a date and both cities; any price is kept |
| Alibaba.FlightDeparture | scripts/process_alibaba.py:123 | the departure is date and time joined by a space, or the date alone |
| Alibaba.ExtractHotel | scripts/process_alibaba.py:138-144 | Alibaba hotel stays are never extracted |
| Alibaba.TrainKeptExactly | scripts/process_alibaba.py:147-198 | kept exactly for a wide row naming a traveller or a booker, who becomes the employee; the price as read |
| Alibaba.CarPassenger | scripts/process_alibaba.py:214-226 | the traveller unless blank or an `EMP` number, else the booker; none exactly when neither applies |
| Alibaba.CarSkipsEmployeeNumber | scripts/process_alibaba.py:219-224 | an `EMP` number is never taken for the passenger |
| Alibaba.CarKeptExactly | scripts/process_alibaba.py:201-284 | kept exactly for a wide row with a passenger; the platform's car type unless empty; places have no district |
| Zaitu.ExactFirst | scripts/process_zaitu.py:42-44 | the exact search returns the sheet of the first listed name the workbook has |
| Zaitu.ExactNone | scripts/process_zaitu.py:42-44 | the exact search fails exactly when the workbook has none of the names |
| Zaitu.FuzzyFirst | scripts/process_zaitu.py:47-50 | the fuzzy search returns the first sheet, in workbook order, that contains a name or is contained in one |
| Zaitu.FuzzyNone | scripts/process_zaitu.py:47-50 | the fuzzy search fails exactly when no sheet resembles a name |
| Zaitu.FindPrefersExact | scripts/process_zaitu.py:40-52 | an exact name wins over any resembling sheet, even one placed earlier |
| Zaitu.FindNone | scripts/process_zaitu.py:29-52 | nothing is found exactly when no sheet resembles a name of the kind; an unknown kind finds nothing |
| Zaitu.ExactBeatsEarlierResemblance | scripts/process_zaitu.py:21-50 | with sheets 机票交易汇总 then 机票, flights read 机票 |
| Zaitu.ZaituRouteAsCtrip | scripts/process_zaitu.py:97-104 | the extra route guards change nothing: the split is that of the Ctrip sheet |
| Zaitu.FlightKeptExactly | scripts/process_zaitu.py:55-139 | kept exactly for a wide row naming a plausible passenger or booker; no flight number, time or price needed |
| Zaitu.HotelKeptExactly | scripts/process_zaitu.py:142-198 | kept exactly for a wide row naming a guest or booker; the price keeps its sign and the district is empty |
| Zaitu.TrainKeptExactly | scripts/process_zaitu.py:201-258 | kept exactly for a wide row naming a traveller or booker, with a non-zero price |
| Zaitu.ChainsAgree | scripts/process_zaitu.py:299-300 | both `or` chains stop at the first true value; without one, the defaulted chain ends in '' |
| Zaitu.GuardedTextFirstTruthy | scripts/process_zaitu.py:299-314 | the guarded text is the stripped text of the first true column, '' when that is an empty cell or there is none |
| Zaitu.AddressOf | scripts/process_zaitu.py:327-346 | a district exactly when the text has a slash; an address exactly when it has two |
| Zaitu.SplitAddress | scripts/process_zaitu.py:326-346 | the in-place updates of a place give `AddressOf(raw)` |
| Zaitu.AddressOfParts | scripts/process_zaitu.py:329-335 | three slash-free parts give city, district and address, stripped |
| Zaitu.AddressDropsRest | scripts/process_zaitu.py:329-335 | text after a third slash is dropped |
| Zaitu.AddressOfPlain | scripts/process_zaitu.py:328-331 | a text without a slash is all city |
| Zaitu.ExtractCar | scripts/process_zaitu.py:261-351 | the step-by-step extraction yields `CarOf(row, roster, num)` |
| Zaitu.CarKeptShape | scripts/process_zaitu.py:268-304 | kept exactly when the passenger chain is a text and the pick-up time is not empty |
| Zaitu.CarKeptExactly | scripts/process_zaitu.py:268-304 | kept exactly when the first true passenger and pick-up columns hold texts and the pick-up is not blank; both are stored stripped |
| Zaitu.NaNOriginCity | scripts/process_zaitu.py:317-327 | an empty cell as the first true origin column makes the city the text "nan" |

## Left out

- Reading and writing files, Excel sheets and JSON are left out. This covers
  `scan_excel_files`, the `read_*_sheet` helpers, the `process_*_file` and
  `process_*` drivers, and `process_all.py`. Their inputs and outputs are
  parameters and values.
- Modification times are parameters. `update_processed_metadata` only writes
  them back, so it is left out.
- `print_scan_summary` is left out; it only prints.
- The processing timestamps (`processedAt`, `lastUpdate`) are left out.
- Amounts are whole cents, not floating point. Python's `float()` is an
  uninterpreted parse `num`, and `round(x, 2)` is the identity on cents.
- `DateRange.main_month_ratio` is not modelled; it is a float quotient used
  only for printing.
- Python's `OverflowError` is not modelled. The day-by-day walk raises it
  after a range ending on 9999-12-31, and `except ValueError` does not catch
  it, so Python aborts. The model counts the range.
- MonthRangeBounds: for an end month `000100`, Python computes the day
  before 0001-01-01 and aborts with an uncaught `OverflowError`. The model's
  `MonthEnd` gives None there, so the tier fails and the single-month tier
  is tried next.
- `\d`, `isdigit`, `int`, `upper` and `lower` are modelled on ASCII; Unicode
  digits and Unicode case are not. `strip` follows Python's Unicode white
  space set.
- Years below 1000 are printed by `%Y` without padding on some platforms.
  The month key assumes four digits.
- `process_roster_file`: the check for required columns and the
  fallback to the first sheet are not modelled. Rows are given as values.
- `process_roster` is not modelled; it only chains the modelled steps with
  file output.
- `scan_and_classify_files` attaches rosters to objects that the vendor
  lists share. The model returns the updated lists and does not capture that
  aliasing.
- Sampling.SampleOf: a record without `type` makes Python raise
  `KeyError`; the model returns None.
- Sampling.SampleOf: a missing `summary` becomes `{}` in Python; the model
  keeps None.
- Sampling.LightweightSample: the `max_records` argument is ignored, as in
  the source; the limit is always 200.
- Alibaba.FlightKeptExactly: the order number is written with
  `str(int(x))`, which drops a trailing `.0`; the model keeps the cell's
  text.
- Alibaba.TrainKeptExactly: the train's order number is written with
  `str(int(x))` when the cell is numeric; the model keeps the cell's text,
  so "123.0" stays "123.0" where Python writes "123".
- Alibaba.CarKeptExactly: the ride's order number is written with
  `str(int(x))` when the cell is numeric; the model keeps the cell's text,
  so "123.0" stays "123.0" where Python writes "123".
- Zaitu.ExtractCar: a numeric zero in an `or` chain counts as false in
  Python. Cells are texts in the model, so only an empty text does.
- Zaitu.ExtractCar: duplicate column labels (`row.get` then returning a
  Series) are not modelled.
- `merge_data` itself is not modelled; it only wires the modelled steps to
  files. The roster index it copies is passed through unchanged.

## Notes

- The month after the target is tried before any earlier month. With
  target 2025-10 and rosters for 2025-08 and 2025-11, 2025-11 is chosen,
  not 2025-08 (`RosterMonth.FindTiers`,
  `RosterMonth.FallbackNextBeforeEarlier`).
- The fourth fallback tier is commented as finding the nearest month. It
  takes the earliest month not after the target
  (`RosterMonth.NearestIsEarliestOrLatest`, `RosterMonth.FallbackEarliest`).
- The Alibaba flight sheet's booking time is read from column 3, the booker
  column, as the code does.
