# AI-powered employment dashboard: a Dafny model of its analytics core

The dashboard reads two tables of tech-industry events: a layoffs table and a
hiring table. Each row has a date, a company, a count, an industry, a location,
and the year, month and quarter of the date. From these the dashboard derives:

- a fused monthly table per company: a full outer join of the two tables
  after grouping on (company, year, month), with net change, employment ratio
  and the first day of the month;
- per-industry yearly trends;
- a summary bundle: totals, top-10 companies, monthly series and industry impact;
- a filter on company, year, month and industry;
- rule-based "AI" insights, trend predictions and fixed recommendations;
- generated sample tables, the sorted company list and the overall date range.

This project models that core in Dafny and proves what each operation
promises. The group-bys share one generic model:

- `Grouping.GroupSum` and `Grouping.Series` model `df.groupby(key)[val].sum()`.
- `Ranking.SortDesc` and `Ranking.TopN` model `sort_values(ascending=False)` and `head(n)`.
- `idxmax` is `Ranking.PeakEntry`.
- `Statistics` models `std()` and `pct_change()`.

There is one exception. The pre-aggregation of the fusion,
`agg({'layoffs': 'sum', 'industry': 'first', 'location': 'first'})`, also
keeps the first row's industry and location. It has its own model,
`DataFusion.Aggregate`.

Modules `DataFusion`, `AiInsights` and `DataGenerator` follow the three source
files. A narrative insight line is modelled by the facts it reports, such as
`PeakLayoffs(year, total)`, not by its text.

Behaviours of the code that the model keeps:

- A company-month with 100 layoffs and 40 hires fuses to net change −60,
  hires minus layoffs (data_fusion.py:39). `DataFusion.FuseExampleBothSides`
  proves it.
- The recovery line counts as a recovery signal only for a net strictly
  above 0 (ai_insights.py:47).
- The recovery line is skipped when the latest hiring year has no layoffs
  (ai_insights.py:45).
- `generate_ai_insights` raises on an empty table (ai_insights.py:16-32) and
  on a month outside 1..12 (ai_insights.py:41). The model returns `None`
  exactly then.
- A selection that is given but empty does not filter, because the test is
  `if companies:` (data_fusion.py:108).

## Model

| member | source | states |
|---|---|---|
| DataFusion.Aggregate | data_fusion.py:8-19 | The pre-aggregated table has a group exactly for each (company, year, month) present in the input. |
| DataFusion.AggregateSpec | data_fusion.py:8-19 | Each group's total is the sum of the counts of the rows with that key; its industry and location are those of the first such row (`'first'`). |
| DataFusion.FusedRowFor | data_fusion.py:31-43 | The fused row of a key has net change hires − layoffs, and its employment ratio times (layoffs + 1) equals the hires, i.e. the ratio is hires / (layoffs + 1). |
| DataFusion.Fuse | data_fusion.py:4-48 | `fuse_employment_data` has one row per distinct (company, year, month) of the two tables, and every row nets hires against layoffs. Which rows these are is stated by `FuseKeys`, `FuseRow` and `FusedRowForSpec`. |
| DataFusion.FuseKeys | data_fusion.py:22-28 | The fused table has no two rows with the same (company, year, month), and it has a row for a key exactly when either input table has it (full outer join). |
| DataFusion.FusedRowForSpec | data_fusion.py:22-43 | A fused row holds the summed layoffs and hires of its key, with 0 for a side missing from the join. Its industry and location come from the layoffs side when that side has the key, else from the hiring side. Its net change is hires − layoffs, and its date is the first of its month. |
| DataFusion.FuseRow | data_fusion.py:22-46 | Every row of the fused table is the fused row of its own key, and that key occurs on one side at least. |
| DataFusion.EmploymentRatioSpec | data_fusion.py:39-40 | The employment ratio hires / (layoffs + 1) is non-negative and reaches 1 exactly when the net change is positive. |
| DataFusion.JoinRowsSums | data_fusion.py:22-32 | Summing a column of the joined rows equals summing the groups of the joined keys. |
| DataFusion.FuseTotals | data_fusion.py:8-32 | Fusion neither loses nor invents counts: the fused layoffs and hires columns add up to the totals of the two input tables. |
| DataFusion.FuseExampleBothSides | data_fusion.py:4-48 | 100 layoffs and 40 hires of one company-month fuse into one row with net change −60 and ratio 40/101, dated the first of the month. |
| DataFusion.FuseExampleHiresOnly | data_fusion.py:22-32 | With an empty layoffs table, a hiring row becomes a fused row with 0 layoffs. |
| DataFusion.IndustryTrends | data_fusion.py:50-73 | `calculate_industry_trends` has one row per distinct (industry, year) of the two tables, and each row nets hires against layoffs. The rows are stated by `IndustryTrendsSpec`. |
| DataFusion.IndustryTrendsSpec | data_fusion.py:54-71 | One trend row per (industry, year) present in either table and no other. Each row holds both sides' group sums, and net change = hires − layoffs. |
| DataFusion.IndustryTrendsZeroFill | data_fusion.py:64-69 | A side without an (industry, year) contributes 0 (`fillna(0)`), so the net change is the other side's total, negated for layoffs. |
| DataFusion.SummaryStatistics | data_fusion.py:75-102 | The net employment change is total hires − total layoffs. Each top list has at most 10 entries. The industry impact has one entry per industry of the layoffs table. The summary lemmas below state each field. |
| DataFusion.TopEntriesAreGroups | data_fusion.py:83-84 | Every listed top entry is a company of the table with its summed count. |
| DataFusion.TopEntriesDominate | data_fusion.py:83-84 | No company left out of the top list has a larger total than one listed. |
| DataFusion.TopOfSeries | data_fusion.py:83-84 | Ranking a group-by and taking the first n gives min(n, number of groups) distinct groups, in non-increasing order, each with its true total, and no omitted group exceeds a listed one. |
| DataFusion.SummaryTotalsSpec | data_fusion.py:78-80 | The totals are the column sums, which are non-negative, and the net change is hires − layoffs. |
| DataFusion.SummaryTopSpec | data_fusion.py:83-84 | The two top-10 lists are the ten largest companies by layoffs and by hires, as stated by `TopOfSeries`. |
| DataFusion.SummaryMonthlySpec | data_fusion.py:87-88 | The monthly series has a (year, month) exactly when the table has a row in it, with that month's summed count. |
| DataFusion.SummaryIndustrySpec | data_fusion.py:91 | The industry impact lists every industry once with its layoff total, in non-increasing order. |
| DataFusion.KeepIn | data_fusion.py:109 | One `df[df[col].isin(selection)]` keeps rows of the input only, each with its column in the selection, and never grows the table. |
| DataFusion.Narrow | data_fusion.py:108-109 | One `if selection:` step keeps rows of the input only, never grows the table, and, when the selection is given and non-empty, keeps only rows whose column lies in it. |
| DataFusion.FilterData | data_fusion.py:104-120 | `filter_data` returns rows of the input only, each admitted by every given, non-empty selection, and never more rows than the input. Which rows it keeps is stated by `FilterDataSpec` and `MatchingSpec`. |
| DataFusion.FilterDataSpec | data_fusion.py:104-120 | The four successive narrowing steps keep exactly the rows that every given, non-empty selection admits, in their original order. They equal the one-pass reference `Matching`. |
| DataFusion.MatchingSpec | data_fusion.py:104-120 | The filtered table is no longer than the input. A row appears in it exactly when it is in the input and admitted, and as many times as in the input. |
| DataFusion.MatchingIsSubsequence | data_fusion.py:106-118 | The filtered rows are a subsequence of the input: row order is kept. |
| DataFusion.FilterUnconstrained | data_fusion.py:106-118 | With no given, non-empty selection the table is returned unchanged. |
| DataFusion.MatchingIdempotent | data_fusion.py:104-120 | Applying the reference filter twice is the same as applying it once. |
| DataFusion.FilterIdempotent | data_fusion.py:104-120 | Filtering an already filtered table with the same selections changes nothing. |
| DataFusion.MatchingWider | data_fusion.py:104-120 | Re-applying the reference filter with selections that admit every row the first one kept changes nothing. |
| DataFusion.FilterWider | data_fusion.py:104-120 | Filtering a filtered table again with wider selections, i.e. selections admitting every row the first filter kept, changes nothing. |
| DataFusion.FilterLargerListNarrows | data_fusion.py:108-109 | A larger selection list alone is not wider: a company selection `[]` does not filter, so following it with `["A"]` drops a row of company "B" that the first filter kept. |
| DataFusion.FilterDataAppend | data_fusion.py:108-118 | Filtering distributes over concatenation of tables. |
| DataFusion.FilterDataSingle | data_fusion.py:108-118 | On one row, the four steps keep it exactly when the filter admits it. |
| DataFusion.NarrowSingle | data_fusion.py:108-109 | One `isin` step keeps a row exactly when the column is unconstrained or its value is selected. |
| Grouping.GroupSumSpec | data_fusion.py:87 | A group-by sum has a group exactly for the keys present, and each group's value is the sum over the rows with that key. |
| Grouping.GroupSumAll | data_fusion.py:87-88 | The same, for all keys at once. |
| Grouping.KeysOf | data_fusion.py:83 | The group keys are distinct, are exactly the keys occurring in the table, number at most the rows, and are non-empty for a non-empty table. |
| Grouping.Series | data_fusion.py:83 | A group-by Series has as many entries as the table has distinct keys. `SeriesSpec` states what the entries are. |
| Grouping.SeriesSpec | data_fusion.py:83 | A group-by Series has distinct keys and an entry (key, total) exactly for each group with its true total. |
| Grouping.SumByKeyIsTotal | data_fusion.py:8-9 | Summing groups over distinct keys that cover every row gives the column total: grouping conserves the sum. |
| Ranking.SortDesc | data_fusion.py:83 | The descending sort is non-increasing and a permutation (same multiset) of its input. |
| Ranking.TopN | data_fusion.py:97-98 | `head(n)` of the descending ranking has min(n, size) entries in non-increasing order. |
| Ranking.TopNSpec | data_fusion.py:97-98 | `head(n)` of the ranking has min(n, size) entries, non-increasing, a sub-multiset of the input, and nothing left out exceeds a listed entry. |
| Ranking.SortDescHead | ai_insights.py:26-27 | The first entry of the descending ranking is from the input and has the largest total. |
| Ranking.PermutationKeysDistinct | data_fusion.py:91 | Reordering a Series keeps its keys distinct. |
| Ranking.PeakEntry | ai_insights.py:16-17 | `idxmax`/`max` of a Series: an entry of the series with the largest total, and the smallest key among equal totals. |
| Ranking.Max | ai_insights.py:44 | Python's `max` of a non-empty list is an element that no element exceeds. |
| Calendar.FirstOfMonth | data_fusion.py:43 | The date built from (year, month, day=1) is valid for a month 1..12 and no date of that month is before it. |
| AiInsights.PeakOfSeries | ai_insights.py:16-17 | The peak of a non-empty yearly group-by is a year of the table with its true total, the largest, and the earliest year among ties. |
| AiInsights.LeaderOfSeries | ai_insights.py:26-27 | The head of the descending ranking of a non-empty table's groups is a group with its true total that no group exceeds. |
| AiInsights.LatestYear | ai_insights.py:44 | The latest year occurs in the table and no year of the table is later. |
| AiInsights.PeakLayoffsRule | ai_insights.py:15-18 | The peak-layoffs line names a year of the layoffs table. `PeakLayoffsRuleSpec` states that it is the peak year. |
| AiInsights.PeakHiringRule | ai_insights.py:20-23 | The peak-hiring line names a year of the hiring table. `PeakHiringRuleSpec` states that it is the peak year. |
| AiInsights.IndustryRule | ai_insights.py:25-28 | The most-affected-industry line names an industry of the layoffs table. `IndustryRuleSpec` states that it leads. |
| AiInsights.CompanyRule | ai_insights.py:30-34 | The top-net-hirer line names a company of the fused table. `CompanyRuleSpec` states that it leads. |
| AiInsights.PeakMonth | ai_insights.py:37-38 | The seasonal month is a month of the layoffs table. `PeakMonthSpec` states that it is the peak month. |
| AiInsights.PeakLayoffsRuleSpec | ai_insights.py:12-18 | The peak-layoffs line names the year with the largest yearly layoff total (the earliest such year) and reports that total. |
| AiInsights.PeakHiringRuleSpec | ai_insights.py:13-23 | The peak-hiring line names the year with the largest yearly hiring total (the earliest such year) and reports that total. |
| AiInsights.IndustryRuleSpec | ai_insights.py:26-28 | The most-affected-industry line names an industry whose layoff total, which it reports, no industry exceeds. |
| AiInsights.CompanyRuleSpec | ai_insights.py:31-34 | The top-net-hirer line names a company whose summed net change, which it reports, no company exceeds. |
| AiInsights.PeakMonthSpec | ai_insights.py:37-38 | The seasonal month has the largest layoff total summed over all years, and is the earliest such month. |
| AiInsights.RecoveryRule | ai_insights.py:44-50 | At most one recovery line is produced. |
| AiInsights.RecoveryRuleSpec | ai_insights.py:44-50 | The recovery line is present exactly when the latest hiring year also has layoffs. It reports that year's hires − layoffs and is a recovery signal exactly when the net is above 0, otherwise continued challenges. |
| AiInsights.YearlySpread | ai_insights.py:53-54 | The spread of a table's yearly totals is defined exactly when the table spans at least two years. |
| AiInsights.VolatilityRule | ai_insights.py:53-58 | Market volatility is reported exactly when both spreads are defined and the layoffs' exceeds the hires'; stability otherwise, including the NaN cases. |
| AiInsights.LeadingInsights | ai_insights.py:15-41 | Every successful call starts with five lines. |
| AiInsights.GenerateInsights | ai_insights.py:6-60 | `generate_ai_insights` succeeds only when all three tables are non-empty, and then yields at least six lines. The lemmas below state each line. |
| AiInsights.InsightsDefined | ai_insights.py:6-41 | For layoffs rows whose month comes from a date, insights are produced exactly when all three tables are non-empty. Otherwise the source raises, modelled as `None`. |
| AiInsights.InsightsLayoffPeak | ai_insights.py:15-18 | The first line is the peak-layoffs line, for the peak year. |
| AiInsights.InsightsHiringPeak | ai_insights.py:20-23 | The second line is the peak-hiring line, for the peak year. |
| AiInsights.InsightsIndustry | ai_insights.py:25-28 | The third line is the most-affected-industry line, for a leading industry. |
| AiInsights.InsightsCompany | ai_insights.py:30-34 | The fourth line is the top-net-hirer line, for a leading company. |
| AiInsights.InsightsSeason | ai_insights.py:36-41 | The fifth line is the seasonal line, for the peak layoff month. |
| AiInsights.InsightsCount | ai_insights.py:43-58 | A successful call yields six lines, or seven exactly when the latest hiring year also has layoffs. |
| AiInsights.InsightsRecoveryLine | ai_insights.py:43-50 | When there are seven lines, the sixth is the recovery line. |
| AiInsights.InsightsVolatilityLine | ai_insights.py:52-58 | The last line is always the volatility line. |
| AiInsights.SingleYearIsStable | ai_insights.py:52-58 | If the layoffs table spans a single year, its deviation is NaN and the stability line is reported. |
| AiInsights.ExampleYears | ai_insights.py:12-13 | On the example tables, the yearly group-bys are {2021: 100, 2022: 500} and {2021: 300, 2022: 200}. |
| AiInsights.ExampleSeries | ai_insights.py:12-13 | The same group-bys as Series, in year order. |
| AiInsights.PeakLayoffsExample | ai_insights.py:15-18 | On the example, the peak-layoffs line names 2022 with 500. |
| AiInsights.RecoveryExample | ai_insights.py:43-50 | On the example, the recovery line is continued challenges for 2022 with net 200 − 500 = −300. |
| AiInsights.VolatilityExample | ai_insights.py:52-56 | On the example, the layoff variance (80000) exceeds the hiring variance (5000), so market volatility is reported. |
| AiInsights.PreviousYear | ai_insights.py:76-80 | With at least two years, the previous year is a year of the table before the latest, and the latest such year (the second-to-last row of the year-ordered group-by). |
| AiInsights.LayoffRule | ai_insights.py:84-87 | The layoff trend yields at most one line, and only a layoff line. |
| AiInsights.HiringRule | ai_insights.py:89-92 | The hiring trend yields at most one line, and only a hiring line. |
| AiInsights.LayoffRuleSpec | ai_insights.py:84-87 | In exact arithmetic, on counts: decreasing layoffs ⇔ prev > 0 and 10·cur < 9·prev; increasing ⇔ 10·cur > 11·prev with prev > 0, or any layoffs after a year of none; never both. |
| AiInsights.HiringRuleSpec | ai_insights.py:89-92 | In exact arithmetic, on counts: strong hiring ⇔ 10·cur > 11·prev with prev > 0, or any hires after a year of none; declining ⇔ prev > 0 and 10·cur < 9·prev; never both. |
| AiInsights.TrendRules | ai_insights.py:74-92 | At most two trend lines. |
| AiInsights.TrendRulesSplit | ai_insights.py:68-92 | With two years or more, the trend lines are the layoff rule on the latest and previous yearly layoff totals, then the hiring rule on the yearly hiring totals. All these totals are non-negative. |
| AiInsights.LayoffTrendSpec | ai_insights.py:68-87 | With fewer than two years there is no trend line. Otherwise the layoff lines follow `LayoffRuleSpec` on the latest and previous yearly layoff totals of the fused table. |
| AiInsights.HiringTrendSpec | ai_insights.py:68-92 | With two years or more, the hiring lines follow `HiringRuleSpec` on the latest and previous yearly hiring totals. |
| AiInsights.FromYear | ai_insights.py:95 | The boolean mask keeps exactly the rows from a given year on, each as many times as it occurs in the table, and drops all others. |
| AiInsights.RecentWindow | ai_insights.py:95 | The recent window has rows of the fused table only, and is empty exactly when the fused table is. `RecentWindowSpec` states which rows it keeps. |
| AiInsights.RecentWindowSpec | ai_insights.py:95 | The recent window holds exactly the rows of the latest year and the year before, each with its multiplicity in the fused table, so the momentum sums count repeated rows. |
| AiInsights.MomentumRule | ai_insights.py:95-100 | At most one momentum line. |
| AiInsights.MomentumSpec | ai_insights.py:94-100 | The momentum line is present exactly when the fused table has rows. It names an industry whose net change, summed over the recent window, no industry exceeds. |
| AiInsights.PredictTrends | ai_insights.py:62-102 | At most three predictions, and none for an empty fused table. |
| AiInsights.GenerateRecommendations | ai_insights.py:104-114 | Four distinct recommendations. |
| AiInsights.RecommendationsConstant | ai_insights.py:104-114 | The recommendations depend on neither the insights nor the predictions. |
| Statistics.SampleSpread | ai_insights.py:53-54 | `std()` is defined exactly for two or more values, with a non-negative variance. |
| Statistics.SpreadOfTwo | ai_insights.py:53-54 | The sample variance of two values a and b is (a − b)² / 2. |
| Statistics.StdOrderIsVarianceOrder | ai_insights.py:55 | Comparing two defined standard deviations is the same as comparing their variances. |
| Statistics.PctChange | ai_insights.py:76-77 | `pct_change` is finite exactly when the previous value is non-zero, and then rate · prev = cur − prev. |
| Statistics.AboveTenPercent | ai_insights.py:86-89 | In exact arithmetic, `pct_change > 0.1` holds exactly when, in whole numbers, 10·(cur − prev) > prev for a positive previous value (reversed for a negative one) or cur > 0 after a previous value of 0 (+inf); NaN never passes. |
| Statistics.BelowMinusTenPercent | ai_insights.py:84-91 | In exact arithmetic, `pct_change < -0.1` holds exactly when, in whole numbers, 10·(cur − prev) < −prev for a positive previous value (reversed for a negative one) or cur < 0 after a previous value of 0 (−inf); NaN never passes. |
| DataGenerator.SpanIsElapsedDays | data_generator.py:27-31 | `(end_date − start_date).days` is 1826 days from 1 January 2020 to 31 December 2024. |
| DataGenerator.SpanWithinPeriod | data_generator.py:27-31 | The years 2020–2024 hold 1827 days, one more than the largest offset. |
| DataGenerator.OffsetDate | data_generator.py:31 | Every drawable day offset lands on a valid date of 2020–2024. |
| DataGenerator.DrawDate | data_generator.py:31 | A drawn date is valid and lies in 2020–2024. |
| Calendar.AddDays | data_generator.py:31 | Adding days to 1 January gives a valid date no earlier than that year. |
| Calendar.AddDaysRoundTrip | data_generator.py:31 | Counting the days back from `start + timedelta(n)` gives n. |
| DataGenerator.RandInt | data_generator.py:31-40 | `randint(lo, hi)` lies in [lo, hi] inclusive. |
| DataGenerator.ChoiceIn | data_generator.py:32-34 | `choice` returns one of the offered values. |
| DataGenerator.Quarter | data_generator.py:50 | `(month − 1) // 3 + 1` is a quarter 1..4 containing the month. |
| DataGenerator.QuarterLabel | data_generator.py:50 | The label is "Q" followed by the quarter's digit. |
| DataGenerator.QuarterLabelIn | data_generator.py:50 | The label is one of Q1–Q4. |
| DataGenerator.LayoffRecord | data_generator.py:30-51 | Every generated layoffs row, whatever the draws, has these properties: its year and month agree with its date in 2020–2024; its company, industry and location come from the fixed lists; its quarter label matches the month; its count is in [50, 2000] in 2022–2023 and [10, 500] otherwise. |
| DataGenerator.HireRecord | data_generator.py:55-78 | Every generated hiring row, whatever the draws, has the same properties, with counts in [100, 3000] in 2020–2021, [20, 800] in 2022–2023 and [50, 1500] in 2024. |
| DataGenerator.GenerateLayoffs | data_generator.py:30-51 | The first loop yields 500 rows, the i-th built from its own five draws. |
| DataGenerator.GenerateHires | data_generator.py:55-78 | The second loop yields 600 rows, built from the draws after the layoffs' ones. |
| DataGenerator.GenerateSampleData | data_generator.py:6-83 | 500 layoffs rows and 600 hiring rows, each built from its own draws and each valid as above. |
| DataGenerator.LexIrreflexive | data_generator.py:88 | Python's string order is irreflexive. |
| DataGenerator.LexTransitive | data_generator.py:88 | Python's string order is transitive. |
| DataGenerator.LexTotal | data_generator.py:88 | Python's string order is total on distinct strings. |
| DataGenerator.Insert | data_generator.py:88 | Inserting a new name keeps the list strictly ascending, adds exactly that name, and grows it by one. |
| DataGenerator.SortNames | data_generator.py:88 | `sorted` of distinct names is strictly ascending with the same elements and length. |
| DataGenerator.CompanyList | data_generator.py:85-88 | `get_company_list` is strictly ascending and no longer than the two tables together. `CompanyListSpec` states its contents. |
| DataGenerator.CompanyListSpec | data_generator.py:85-88 | The company list is strictly ascending, so it has no duplicates, and it holds exactly the companies of either table. |
| DataGenerator.EarliestDate | data_generator.py:92 | `min()` of the date column exists exactly for a non-empty table, is one of its dates, and no date is before it. |
| DataGenerator.LatestDate | data_generator.py:93 | `max()` of the date column exists exactly for a non-empty table, is one of its dates, and no date is after it. |
| DataGenerator.PyMin | data_generator.py:92 | Builtin `min(a, b)` returns one of its arguments. It returns a NaT first argument as it is. For two dates it returns one that neither date precedes. |
| DataGenerator.PyMax | data_generator.py:93 | Builtin `max(a, b)` returns one of its arguments. It returns a NaT first argument as it is. For two dates it returns one that neither date follows. |
| DataGenerator.DateRange | data_generator.py:90-94 | Each end of `get_date_range` is a date exactly when the layoffs table is non-empty. An empty layoffs table makes both ends NaT, whatever the hiring table holds. |
| DataGenerator.DateRangeStart | data_generator.py:92 | With both tables non-empty, the range starts at the earliest date of either table. |
| DataGenerator.DateRangeEnd | data_generator.py:93 | With both tables non-empty, the range ends at the latest date of either table. |
| DataGenerator.DateRangeSpec | data_generator.py:90-94 | With both tables non-empty, the range runs from the earliest to the latest date of either table, and its start is not after its end. |
| DataGenerator.DateRangeEmptySide | data_generator.py:92-93 | An empty layoffs table makes both ends NaT, because builtin `min`/`max` keep a NaT first argument. An empty hiring table leaves the layoffs table's own range. |

## Left out

- The Streamlit application (`app.py`) and its charts are not part of this model, nor is the caching of the generated data.
- The text and number formatting of the insight, prediction and recommendation messages are not modelled. Each line is modelled by the facts it reports.
- Row order of pandas results is not modelled: the keys are ordered by `groupby`, and `merge(how='outer')` orders rows too. The model states only order-independent facts about the fused table, the industry trends and the monthly series.
- The `seed` and state of Python's `random` module are a parameter `rng`: draw k of the stream is `rng(k)`, and the i-th layoffs row uses draws 5i..5i+4. How CPython maps its generator state onto `randint` and `choice` is not modelled.
- The DataFrame construction, column dtypes, `to_datetime`, and the dates as `datetime` objects are represented by plain records and the model's own Gregorian calendar.
- DataFusion.Fuse: does not reject a (company, year, month) key whose month lies outside 1..12. `pd.to_datetime(...assign(day=1))` at data_fusion.py:43 raises on such a key, while the model builds a fused row whose date is not a valid date (`Calendar.FirstOfMonth` promises validity only for months 1..12).
- Floating-point arithmetic is exact: ratios and `pct_change` use exact reals. The infinities and NaN of `pct_change` are kept as their own cases. The rounding changes one boundary. At exactly +10% (1000 → 1100), Python gives `1100/1000 - 1` = 0.10000000000000009, which is above 0.1. So ai_insights.py:86 and ai_insights.py:89 report increasing layoffs and strong hiring, while `AiInsights.LayoffRule(1100, 1000)` and `AiInsights.HiringRule(1100, 1000)` report nothing. At exactly −10% the two agree.
- AiInsights.LayoffRuleSpec: states the growth tests in exact arithmetic, so at exactly +10% it reports no line where the floating-point source reports increasing layoffs (see the line above).
- AiInsights.HiringRuleSpec: states the growth tests in exact arithmetic, so at exactly +10% it reports no line where the floating-point source reports strong hiring.
- Statistics.AboveTenPercent: is exact-arithmetic `> 0.1`, which differs from the floating-point test at exactly +10%.
- Integer overflow of numpy's int64 columns is not modelled; the counts are unbounded naturals.
- Exceptions raised by `generate_ai_insights` (`idxmax` on an empty Series, `index[0]` of an empty ranking, the month lookup) are modelled as the result `None`. The exception types are not modelled.
- AiInsights.IndustryRuleSpec: when several industries tie for the largest total, `sort_values` (not a stable sort) may pick any of them. The contract states only that the named industry is a maximal one.
- AiInsights.CompanyRuleSpec: for the same reason, the contract states only that the named company is a maximal one.
- AiInsights.MomentumSpec: for the same reason, the contract states only that the named industry is a maximal one in the recent window.
- AiInsights.YearlySpread: represents `std()` by the variance, not its square root. The comparisons agree by `Statistics.StdOrderIsVarianceOrder`.
- DataFusion.SummaryTopSpec: ties in the top-10 ranking are resolved by one fixed choice. The contract states only the ranking properties, not which of the tied companies are listed.
- DataGenerator.QuarterLabel: requires a month 1..12. Every date the generator builds has one.
