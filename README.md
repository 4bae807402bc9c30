# ETF flows: a verified model of the data pipeline

The application scrapes the daily net flows of the US spot Bitcoin ETFs: one row per
trading day, one column per ticker, and a `Total`. It keeps the rows and shows them as a
table and two charts. This project models the in-memory part of that pipeline and proves
what it computes:

- **Page enrichment** (`src/app/page.tsx`). Rows without a valid `Date` are dropped, and
  ticker columns are discovered in first-seen order. Each cell is normalised: `-` becomes
  0, and a value in parentheses becomes negative. `TotalCheck` is accumulated, the days
  are ranked by `TotalCheck`, and a running-sum copy is built per ticker.
- **Flows table** (`src/components/farside/FlowsTable.tsx`). Days are ranked by their
  cleaned total. They are then grouped into years, months and weeks with `findIndex` and
  `unshift`, with period totals and per-ticker yearly totals. Months are ranked globally.
- **Chart data** (`ChartsWrapper.tsx`, `FarsideAreaChart.tsx`,
  `FarsidePercentChart.tsx`). The flows are sorted by close of business and cumulated.
  Each chart then builds one series per ticker: its flows, a `showSerie` flag and a
  guarded percentage share of the day total. The series are filtered and sorted by
  config index. The percent chart skips GBTC.
- **Scrape job persistence** (`src/inngest/scrap-farside-btc-and-store-it.function.ts`).
  Nothing is written when the parse is empty. Otherwise the last five days are upserted,
  oldest first, under a slug of the formatted day, and the last day's key is notified.
- **Ticker configuration** (`src/config/farside.config.ts`, `src/utils/farside.util.ts`).
  These are the index tables every series sorts by, `getConfig`'s fallback and
  `monthName`.
- **Header button** (`src/components/layouts/HeaderButton.tsx`). The first link or
  sublink with the page's path is found, and the current-path rule is applied.

Modelling conventions:

- A JavaScript object is a `Row`: a sequence of key/value fields in insertion order.
  Assigning to an existing key keeps its place; assigning to a new key appends it.
- Cells are strings, numbers or null. Flows are exact `real`s, and NaN is an explicit
  `None` or `NaN` case.
- The libraries the code calls are fields of `Externals.Env`, passed in as total
  functions. These are dayjs validity, year/month/week and formatting, numeral, `Number`,
  `String`, `cleanFlow`, `roundNToXDecimals` and `Date.getTime`. Every property therefore
  holds whatever they compute.
- `Array.prototype.sort` is stable, as ECMAScript 2019 requires. It is modelled by
  `Sorting.SortedIndices`, a stable insertion sort of indices; a descending sort is an
  ascending sort on negated keys.
- Loops that mutate state are Dafny methods on arrays, sequences or a class. Each is
  proved equal to a specification function, and the properties are proved about that
  function.

## Behaviour worth knowing

- **First sighting**: a ticker's cell in the first row that has the ticker is neither
  normalised nor counted in `TotalCheck` (`src/app/page.tsx:33`). So in a two-row example
  whose first row reads `10`, `(5)`, the first record keeps `"10"` and `"(5)"` with
  `TotalCheck` 0, not `{A: 10, B: -5}` with total 5.
- **Zero total**: the percentage guard tests `TotalCheck === 0` or a NaN quotient, not a
  zero day total. A nonzero flow over a zero day total therefore yields an infinite
  share of the flow's sign (`ChartSeries.Percent.Infinite`).
- **Days within a week** are kept newest first, because each day is `unshift`ed; they are
  not kept in input order. Year, month and week buckets appear in reverse order of first
  appearance.
- **Window**: the job always upserts the last five days; the window size is not a
  parameter.
- **Ties in a ranking** follow input order, because of the stable sort.

## Model

| member | source | states |
|---|---|---|
| PageEnrich.Kept | src/app/page.tsx:22-23 | every kept row is an input row with a valid `Date`; never more rows than the input |
| PageEnrich.KeptConcat | src/app/page.tsx:22-23 | the filter distributes over concatenation, so input order is kept and each kept row appears once |
| PageEnrich.KeptComplete | src/app/page.tsx:22-23 | every input row with a valid `Date` is kept |
| PageEnrich.TickerKeys | src/app/page.tsx:31-32 | the ticker keys of a row are keys of that row other than `Date`, date-like keys and `Total` |
| PageEnrich.TickersOf | src/app/page.tsx:21-33 | the `tickers` list after the pass: the ticker keys of the kept days in first-seen order (TickersOfSpec, TickersFirstSeen) |
| PageEnrich.TickersOfSpec | src/app/page.tsx:31-33 | the ticker list is duplicate-free, holds only ticker keys that some row has, and holds every ticker key of every row |
| PageEnrich.TickersFirstSeen | src/app/page.tsx:33 | tickers are listed in order of their first occurrence across the rows |
| PageEnrich.TickersOfStep | src/app/page.tsx:33 | after one more row, the list gains that row's new ticker keys at its end |
| PageEnrich.RemoveParens | src/app/page.tsx:37 | the result has no parentheses and is no longer than the input |
| PageEnrich.RemoveParensNoop | src/app/page.tsx:37 | a string without parentheses is left as it is |
| PageEnrich.Normalised | src/app/page.tsx:31-34 | a cell is normalised when its key is a ticker column already in `tickers` |
| PageEnrich.Signed | src/app/page.tsx:36-38 | numeral of the string without parentheses times -1 when it holds one, none when numeral gives null or NaN |
| PageEnrich.Contribution | src/app/page.tsx:34-40 | what a cell adds to `TotalCheck`: its signed number when normalised and parsed, else 0 |
| PageEnrich.NormaliseFields | src/app/page.tsx:28-42 | the copy of a day has the same keys, in the same order, with each cell normalised |
| PageEnrich.EnrichRow | src/app/page.tsx:25-44 | the enriched day's `TotalCheck` is the sum of the contributions of its cells |
| PageEnrich.EnrichRowKeys | src/app/page.tsx:26-43 | enrichment keeps the day's keys and appends `TotalCheck` after them when the day had none |
| PageEnrich.EnrichRowAt | src/app/page.tsx:28-42 | every cell other than `TotalCheck` reads back as its normalised value |
| PageEnrich.Enriched | src/app/page.tsx:24-45 | one enriched day per kept row, each with a numeric `TotalCheck` |
| PageEnrich.EnrichedAt | src/app/page.tsx:24-45 | day j is enriched against the tickers discovered in the rows before it |
| PageEnrich.CellCases | src/app/page.tsx:31-41 | a cell is kept and counts 0 unless its ticker is known; a known `-` becomes 0; otherwise it becomes sign times the parsed value, or is kept and counts 0 when unparsable |
| PageEnrich.KnownDashIsZero | src/app/page.tsx:34 | a `-` cell of a known ticker becomes 0 and adds nothing to `TotalCheck` |
| PageEnrich.ParenthesisedIsNegative | src/app/page.tsx:36-40 | a parenthesised cell of a known ticker becomes minus the value of the string without parentheses, and `TotalCheck` gains that value |
| PageEnrich.UncountedCellsKept | src/app/page.tsx:31-38 | non-ticker cells, cells of unknown tickers and unparsable cells keep their value and add nothing |
| PageEnrich.FirstSightingNotCounted | src/app/page.tsx:33 | in the row where a ticker first appears, its cell keeps its raw value, counts 0, and the ticker is known from then on |
| PageEnrich.FirstDayTotalCheckIsZero | src/app/page.tsx:33-43 | the first kept day always has `TotalCheck` 0 |
| PageEnrich.EnrichEntry | src/app/page.tsx:28-41 | one turn of the entry loop extends the normalised prefix, the ticker list and the running `totalCheck` by one cell |
| PageEnrich.EnrichDay | src/app/page.tsx:25-44 | the `map` body computes the enriched day and the ticker list extended by the day's new tickers |
| PageEnrich.Enrich | src/app/page.tsx:21-45 | the `filter` and `map` compute the enriched kept rows and the first-seen ticker list |
| Sorting.SortedIndices | src/app/page.tsx:48 | the order a stable numeric sort produces, as the list of input indices (SortedIndicesSpec) |
| Sorting.SortedIndicesSpec | src/app/page.tsx:48 | the sort order is a permutation of the indices, ascending by key, with equal keys in input order |
| Sorting.PositionOrder | src/app/page.tsx:48 | distinct days get distinct positions; a smaller key comes first, and of equal keys the earlier day comes first |
| Sorting.PositionOnto | src/app/page.tsx:48 | every position holds exactly one day |
| Sorting.SortedBy | src/components/farside/ChartsWrapper.tsx:14-16 | the sorted copy: element p is the input element at sorted index p (SortedBySpec) |
| Sorting.SortedBySpec | src/components/farside/ChartsWrapper.tsx:14-16 | the sorted copy is a permutation of the input, ascending by key, stable, with each element at its position |
| Ranking.FindIndex | src/app/page.tsx:50 | `findIndex`: the first row whose field equals the value, or none when no row has it |
| Ranking.LastWrite | src/app/page.tsx:49-51 | the last sorted entry whose `findIndex` lands on row i, if any |
| Ranking.Ranked | src/app/page.tsx:49-51 | row i after the rank loop: ranked with that entry's position + 1, or unchanged (RankedDistinct, RankedCells) |
| Ranking.AssignRanks | src/app/page.tsx:49-52 | the rank loop writes, into each day, the rank of the last sorted entry whose field `findIndex` maps to it |
| Ranking.RankPosition | src/app/page.tsx:50-51 | one turn of the rank loop: the rows ranked by the first p sorted entries become the rows ranked by the first p + 1 |
| Ranking.RankedDistinct | src/app/page.tsx:49-51 | with distinct match fields, each day gets `rank` = its sorted position + 1 |
| Ranking.LastWriteDistinct | src/app/page.tsx:49-51 | with distinct match fields, the last of the first m sorted entries that writes day i is its own sorted position, and none does when that position is m or later |
| Ranking.RankedCells | src/app/page.tsx:49-51 | with distinct match fields, only `rank` changes, and it is the position + 1 |
| Ranking.RanksArePermutation | src/app/page.tsx:48-52 | the ranks lie in 1..N, are pairwise distinct, and every rank is taken |
| PageRank.DescendingKeys | src/app/page.tsx:48 | the sort key of each day is minus its `TotalCheck` |
| PageRank.RankDays | src/app/page.tsx:48-52 | the in-place rank loop leaves each day ranked by the descending `TotalCheck` order, matching on `Date` |
| PageRank.DayRanks | src/app/page.tsx:48-52 | with distinct dates: rank = position + 1, nothing but `rank` changes, ranks are distinct, a larger `TotalCheck` ranks first, and ties follow input order |
| PageCumulate.Flows | src/app/page.tsx:59-60 | a ticker's cleaned flows of days 0..d, NaN read as 0 |
| PageCumulate.RunningFlow | src/app/page.tsx:57-63 | a ticker's cell of day d after cumulation: this day's cleaned flow plus the previous day's cell (RunningFlowIsPrefixSum) |
| PageCumulate.RunningFlowIsPrefixSum | src/app/page.tsx:56-63 | the running value is the sum of the cleaned flows of days 0..d |
| PageCumulate.CumRow | src/app/page.tsx:57-63 | day d once the first m tickers have been cumulated (CumRowOther, CumRowTicker) |
| PageCumulate.CumRowOther | src/app/page.tsx:57-63 | cells of keys not yet visited in the ticker loop keep their value |
| PageCumulate.CumRowTicker | src/app/page.tsx:57-63 | a visited ticker's cell holds its running flow |
| PageCumulate.Cumulated | src/app/page.tsx:55-64 | the cumulative copy has one row per day |
| PageCumulate.CumulateDay | src/app/page.tsx:57-63 | the ticker loop rewrites day d from the cumulated day d-1 and changes no other day |
| PageCumulate.CumulateTicker | src/app/page.tsx:58-62 | one turn of the ticker loop sets day d's cell to its number (NaN as 0), then adds the previous day's cell after the first day; no other day changes |
| PageCumulate.CumulateCell | src/app/page.tsx:58-62 | that cell update, applied to day d cumulated over the first m tickers, gives day d cumulated over the first m + 1 |
| PageCumulate.Cumulate | src/app/page.tsx:55-64 | the cumulation works on a fresh copy, leaves the input untouched, and computes the cumulative rows |
| PageCumulate.CumulatedSpec | src/app/page.tsx:55-64 | a ticker's cell on day d is the prefix sum of its cleaned flows; other cells are carried over |
| PageCumulate.CumulatedStep | src/app/page.tsx:59-62 | day 0 holds the cleaned flow; day d holds the cleaned flow plus day d-1's cumulated value |
| Page.BuildPage | src/app/page.tsx:21-64 | the page's data: fresh arrays holding the ranked enriched days, a duplicate-free ticker list, and the cumulative copy |
| FlowsTable.DayKeys | src/components/farside/FlowsTable.tsx:36 | the table's day sort key is minus `cleanFlow(total)` |
| FlowsTable.DayRanks | src/components/farside/FlowsTable.tsx:36-40 | with distinct `xata_id`s: rank = position + 1, only `rank` changes, ranks are distinct, a larger cleaned total ranks first, and ties follow input order |
| FlowsGroup.AddFlows | src/components/farside/FlowsTable.tsx:99-105 | every ticker entry starts at 0 and gains the day's non-NaN flow; other entries are unchanged |
| FlowsGroup.StoreInWeeks | src/components/farside/FlowsTable.tsx:74-86 | find-or-unshift of the day's week, then storing the day, yields the week grouping with that day added |
| FlowsGroup.StoreInMonths | src/components/farside/FlowsTable.tsx:66-86 | find-or-unshift of the day's month, then storing the day, yields the month grouping with that day added |
| FlowsGroup.StoreDay | src/components/farside/FlowsTable.tsx:57-105 | one turn of the day loop turns the grouping of the earlier days into the grouping with this day |
| FlowsGroup.Grouped | src/components/farside/FlowsTable.tsx:56-106 | the years, months and weeks the grouping loop builds, bucket by bucket, with their totals (GroupedTotals, GroupedDayCount, DayPlaced) |
| FlowsGroup.GroupDays | src/components/farside/FlowsTable.tsx:56-106 | the grouping loop computes the declarative year/month/week grouping |
| FlowsGroup.WeekAdd | src/components/farside/FlowsTable.tsx:83-84 | adding a day to a week prepends it and adds its total |
| FlowsGroup.MonthAdd | src/components/farside/FlowsTable.tsx:83-85 | adding a day to a month regroups its weeks and adds its total |
| FlowsGroup.YearAdd | src/components/farside/FlowsTable.tsx:86 | adding a day to a year adds its total |
| FlowsGroup.WeeksIndices | src/components/farside/FlowsTable.tsx:76-79 | week indices are distinct, in reverse order of first appearance, and each week holds exactly its days |
| FlowsGroup.MonthsIndices | src/components/farside/FlowsTable.tsx:68-71 | month indices are distinct, in reverse order of first appearance, and each month holds exactly its days |
| FlowsGroup.GroupedIndices | src/components/farside/FlowsTable.tsx:60-63 | year indices come in reverse order of first appearance, and each year holds exactly its days |
| FlowsGroup.GroupedWellFormed | src/components/farside/FlowsTable.tsx:58-80 | year indices are distinct; month indices within a year and week indices within a month are distinct; each month carries its year |
| FlowsGroup.WeeksTotal | src/components/farside/FlowsTable.tsx:84 | each week's total is the sum of its days' totals, and all weeks add up to all days |
| FlowsGroup.MonthsTotal | src/components/farside/FlowsTable.tsx:84-85 | each month's total is the sum of its weeks' totals, and all months add up to all days |
| FlowsGroup.GroupedTotals | src/components/farside/FlowsTable.tsx:84-86 | week = sum of its days, month = sum of its weeks, year = sum of its months, and all years = all days |
| FlowsGroup.DayPlaced | src/components/farside/FlowsTable.tsx:56-83 | every input day is in the week bucket of its year, month and week |
| FlowsGroup.DayBelongs | src/components/farside/FlowsTable.tsx:56-83 | a day in a week bucket is an input day with that bucket's year, month and week |
| FlowsGroup.DaysBelong | src/components/farside/FlowsTable.tsx:56-83 | every day in every bucket is an input day whose year, month and week match the bucket |
| FlowsGroup.GroupedDayCount | src/components/farside/FlowsTable.tsx:56-83 | the buckets hold as many days as the input: none lost, none duplicated |
| FlowsGroup.GroupedFlows | src/components/farside/FlowsTable.tsx:99-105 | each year has an entry for exactly the tickers; it is the sum of the ticker's non-NaN flows in that year, and the years add up to all days |
| FlowsTable.MonthKeys | src/components/farside/FlowsTable.tsx:109-112 | the month sort key is minus the month's `totalPeriod`, in flattened order |
| FlowsTable.FlatAt | src/components/farside/FlowsTable.tsx:109-111 | month j of year i is at offset(i) + j of the flattened list |
| FlowsTable.FlatOrder | src/components/farside/FlowsTable.tsx:109-111 | flattening keeps year-then-month order |
| FlowsTable.Unflat | src/components/farside/FlowsTable.tsx:109-111 | every flattened month comes from some year and month |
| FlowsTable.RankFind | src/components/farside/FlowsTable.tsx:114-115 | in a well-formed grouping, the two `findIndex` calls locate the month's own year and month |
| FlowsTable.PositionsDiffer | src/components/farside/FlowsTable.tsx:112 | months get distinct sort positions; a larger total comes first; ties keep flattened order |
| FlowsTable.MonthsRanked | src/components/farside/FlowsTable.tsx:108-117 | every month ranked: rank = its position in the descending sort of all months + 1 (MonthRanks, MonthRanksOnto) |
| FlowsTable.RankMonths | src/components/farside/FlowsTable.tsx:108-117 | the month rank loop computes the globally month-ranked grouping |
| FlowsTable.MonthRanks | src/components/farside/FlowsTable.tsx:108-117 | only month ranks change; each is position + 1 in 1..M; ranks are distinct, a larger total ranks first, and ties keep flattened order |
| FlowsTable.MonthRanksOnto | src/components/farside/FlowsTable.tsx:113-116 | every rank 1..M is held by some month |
| FlowsTable.PrepareTable | src/components/farside/FlowsTable.tsx:35-117 | the day ranks are written into the `data` array in place, and the table is the month-ranked grouping of the ranked days |
| ChartsWrapper.TimeKeys | src/components/farside/ChartsWrapper.tsx:15 | the sort key of a row is its close-of-business time |
| ChartsWrapper.ByTimeSpec | src/components/farside/ChartsWrapper.tsx:14-16 | the sorted copy is a permutation of the flows, ascending by close of business, with ties in input order |
| ChartsWrapper.ByTime | src/components/farside/ChartsWrapper.tsx:14-16 | the copy sorted by close-of-business time (ByTimeSpec) |
| ChartsWrapper.CumulateSortedDay | src/components/farside/ChartsWrapper.tsx:20-31 | the ticker loop rewrites row d from cumulated row d-1 and changes no other row |
| ChartsWrapper.CumulateSortedTicker | src/components/farside/ChartsWrapper.tsx:22-29 | one turn of the ticker loop replaces row d by a copy whose cell is its number (NaN as 0) plus, after the first row, the previous row's cell or 0; no other row changes |
| ChartsWrapper.SortedCell | src/components/farside/ChartsWrapper.tsx:22-29 | one cell replacement: the number (NaN as 0) plus, after the first row, the previous row's cell or 0 |
| ChartsWrapper.SortedCellStep | src/components/farside/ChartsWrapper.tsx:22-29 | that replacement, applied to row d cumulated over the first m tickers, gives row d cumulated over the first m + 1 |
| ChartsWrapper.CumulateFlows | src/components/farside/ChartsWrapper.tsx:13-35 | a fresh array holding the cumulation of the time-sorted copy; the input array is not modified |
| ChartSeries.Kept | src/components/charts/FarsidePercentChart.tsx:175-177 | the tickers that get a series: the definition of the in-order filter; KeptMembers and KeptDistinct state which tickers it keeps and that they stay distinct; its own contract bounds the length only |
| ChartSeries.KeptMembers | src/components/charts/FarsidePercentChart.tsx:175-177 | a visited ticker is exactly a ticker that is not skipped |
| ChartSeries.KeptDistinct | src/components/charts/FarsideAreaChart.tsx:196-207 | distinct tickers give distinct visited tickers |
| ChartSeries.KeptAll | src/components/charts/FarsideAreaChart.tsx:193-194 | the area chart visits every ticker |
| ChartSeries.CellFlow | src/components/charts/FarsideAreaChart.tsx:195 | `Number(day[ticker] ?? 0)`: a missing cell is 0, an unparsable one NaN, a number itself |
| ChartSeries.DayTotal | src/components/charts/FarsideAreaChart.tsx:192-209 | `totalFlowsForDay`: the flows of the kept tickers added from 0, NaN absorbing (DayTotalSum states it as a sum) |
| ChartSeries.Guarded | src/components/charts/FarsideAreaChart.tsx:218-219 | the share before rounding: 0 when `TotalCheck` is 0 or the quotient is NaN, an infinity of the flow's sign for a nonzero flow over a zero total, else flow / total * 100 (ShareOf, SharesSum) |
| ChartSeries.Rounded | src/components/charts/FarsideAreaChart.tsx:220 | `roundNToXDecimals` applied to a finite share; an infinite share is kept with its sign |
| ChartSeries.FlowsOf | src/components/charts/FarsideAreaChart.tsx:195-208 | one flow per day: `Number(day[t] ?? 0)` |
| ChartSeries.PercentsOf | src/components/charts/FarsideAreaChart.tsx:214-221 | one rounded, guarded share per day |
| ChartSeries.Ticks | src/components/charts/FarsideAreaChart.tsx:188-189 | one timestamp per day, in day order |
| ChartSeries.FindSerie | src/components/charts/FarsideAreaChart.tsx:196 | `findIndex` by key: the first series with the key, or -1 when none has it |
| ChartSeries.Built | src/components/charts/FarsideAreaChart.tsx:186-222 | no series without days; otherwise one series per visited ticker |
| ChartSeries.Visible | src/components/charts/FarsideAreaChart.tsx:225-226 | the filter keeps at most the series it is given |
| ChartSeries.ByIndex | src/components/charts/FarsideAreaChart.tsx:228 | the sort by index keeps the number of series |
| ChartSeries.Chart | src/components/charts/FarsideAreaChart.tsx:225-228 | the chart's series: the built series filtered by `showSerie`, then sorted by config index (ChartMembers, ByIndexOrder) |
| ChartSeries.PushFlows | src/components/charts/FarsideAreaChart.tsx:192-211 | the flow loop of day d leaves the day total and each series extended by day d's flow and `showSerie` update |
| ChartSeries.PushFlow | src/components/charts/FarsideAreaChart.tsx:194-210 | one turn of the flow loop: skip, or find-or-create the series, push the flow, add it to the total and set `showSerie` |
| ChartSeries.PushPercents | src/components/charts/FarsideAreaChart.tsx:214-221 | the share loop of day d completes the series built over days 0..d |
| ChartSeries.PushPercent | src/components/charts/FarsideAreaChart.tsx:215-220 | one turn of the share loop pushes the guarded, rounded share of the ticker's series, or skips a ticker without one |
| ChartSeries.BuildSeries | src/components/charts/FarsideAreaChart.tsx:186-228 | the whole `useEffect` loop computes the timestamps and the filtered, index-sorted series |
| ChartSeries.BuiltSeries | src/components/charts/FarsideAreaChart.tsx:186-222 | series keys are the visited tickers in order; series i has its config index, one flow and one share per day, `flows[d]` is the day's flow and `flowsPercent[d]` the rounded share; `showSerie` holds iff some flow is truthy |
| ChartSeries.BuiltKeys | src/components/charts/FarsideAreaChart.tsx:196-207 | with distinct tickers, series keys are distinct and are exactly the non-skipped tickers |
| ChartSeries.DayTotalSum | src/components/charts/FarsideAreaChart.tsx:192-209 | the day total is finite iff every flow is, and then it is the sum of the day's flows |
| ChartSeries.ShareOf | src/components/charts/FarsideAreaChart.tsx:218-220 | with a nonzero total and a nonzero `TotalCheck`, a share is flow / total * 100 |
| ChartSeries.SharesSum | src/components/charts/FarsideAreaChart.tsx:214-221 | with a finite, nonzero day total and a nonzero `TotalCheck`, every share is finite and the shares sum to 100 |
| ChartSeries.HiddenShare | src/components/charts/FarsideAreaChart.tsx:210-219 | a flow that never turns `showSerie` on has share 0 over a nonzero total |
| ChartSeries.VisibleMembers | src/components/charts/FarsideAreaChart.tsx:225-226 | a series survives the filter iff it has flows and is shown |
| ChartSeries.ChartMembers | src/components/charts/FarsideAreaChart.tsx:225-228 | the chart is a permutation of the visible series, and holds exactly the built series that are shown |
| ChartSeries.ByIndexOrder | src/components/charts/FarsideAreaChart.tsx:228 | the sorted series are a permutation of the input, ascending by config index; sorted position p holds input series `SortedIndices(keys)[p]`, input series i sits at `Position(keys, i)`, and series with equal index keep their input order |
| ChartSeries.VisibleShares | src/components/charts/FarsidePercentChart.tsx:208-209 | filtering out series whose shares are 0 keeps the sum of shares |
| ChartSeries.ByIndexShares | src/components/charts/FarsidePercentChart.tsx:211 | sorting by index keeps the sum of shares |
| ChartSeries.BuiltShares | src/components/charts/FarsidePercentChart.tsx:196-204 | the built series' unrounded shares on day d are the day's shares, and hidden series have share 0 |
| ChartSeries.BuiltShareAt | src/components/charts/FarsidePercentChart.tsx:196-204 | series i's unrounded share on day d is ticker i's share, and 0 when hidden |
| ChartSeries.ChartSharesSum | src/components/charts/FarsidePercentChart.tsx:196-211 | with a finite, nonzero day total and a nonzero `TotalCheck`, the unrounded shares of the final series sum to 100 |
| ChartSeries.ChartSerie | src/components/charts/FarsideAreaChart.tsx:186-228 | a charted series is a non-skipped ticker with its config index, shown, with one flow and one share per day, each equal to the day's flow and guarded share |
| Charts.ConfigIndex | src/components/charts/FarsideAreaChart.tsx:200 | a known ticker's index lies below the fallback index; an unknown ticker gets the fallback index |
| Charts.AreaChart | src/components/charts/FarsideAreaChart.tsx:186-228 | the area chart's timestamps and series: every ticker visited, shares rounded by the default rounding |
| Charts.PercentChart | src/components/charts/FarsidePercentChart.tsx:168-211 | the percent chart's timestamps and series: GBTC skipped, shares rounded to 2 decimals |
| Charts.AreaSerie | src/components/charts/FarsideAreaChart.tsx:192-221 | an area series has its `getConfig` index and one share per day against the total over all tickers |
| Charts.PercentNoGbtc | src/components/charts/FarsidePercentChart.tsx:177 | the percent chart has no GBTC series |
| Charts.GbtcIgnored | src/components/charts/FarsidePercentChart.tsx:177-192 | when GBTC is not visited, changing a day's GBTC cell leaves the day total as it was |
| Charts.PercentTotalIgnoresGbtc | src/components/charts/FarsidePercentChart.tsx:174-194 | the percent chart's day total does not depend on GBTC |
| Charts.KnownFirst | src/components/charts/FarsideAreaChart.tsx:228 | chart series are in config order, and a ticker without a config entry never precedes one with an entry |
| FarsideConfig.Tickers | src/config/farside.config.ts:3-70 | the tickers of a table, in declaration order |
| FarsideConfig.Lookup | src/utils/farside.util.ts:6 | indexing a config record: none for a missing key, otherwise the entry of that ticker |
| FarsideConfig.LookupEntry | src/config/farside.config.ts:3-70 | in a well-indexed table, looking up an entry's ticker gives that entry's config |
| FarsideConfig.EtfTickersConfigIndexed | src/config/farside.config.ts:3-70 | the BTC table has 11 entries with indices 0..10 in declaration order, for IBIT … BTC |
| FarsideConfig.EthEtfTickersConfigIndexed | src/config/farside.config.ts:72-127 | the ETH table has 9 entries with indices 0..8 in declaration order |
| FarsideConfig.ColorsDefined | src/config/farside.config.ts:3-127 | every entry defines a light and a dark colour |
| FarsideConfig.SortByIndexIsDeclarationOrder | src/config/farside.config.ts:3-70 | sorting a well-indexed table by index gives its declaration order |
| FarsideConfig.EtfTickersByIndex | src/config/farside.config.ts:4-69 | sorting the BTC tickers by index gives IBIT, FBTC, BITB, ARKB, BTCO, EZBC, BRRR, HODL, BTCW, GBTC, BTC |
| FarsideUtil.GetConfig | src/utils/farside.util.ts:4-12 | a known ticker gets its table entry; any other ticker gets itself as provider, index 11, black/white and `/` |
| FarsideUtil.GetConfigKnown | src/utils/farside.util.ts:4-6 | the i-th BTC ticker gets its entry, with index i |
| FarsideUtil.FallbackSortsLast | src/utils/farside.util.ts:9 | an unknown ticker's index is greater than every known ticker's |
| FarsideUtil.MonthName | src/utils/farside.util.ts:14-15 | a month name exists exactly for 0..11 |
| FarsideUtil.MonthNameInjective | src/utils/farside.util.ts:14-15 | distinct month indices have distinct names |
| ScrapeJob.Lower | src/inngest/scrap-farside-btc-and-store-it.function.ts:68 | lowercasing leaves no capital, maps no non-space to a space, and fixes non-capitals |
| ScrapeJob.Slug | src/inngest/scrap-farside-btc-and-store-it.function.ts:68 | the key has the label's length; each space becomes `-` and each other character is lowercased |
| ScrapeJob.SlugClean | src/inngest/scrap-farside-btc-and-store-it.function.ts:68 | a key has no space and no capital, and slugging it again changes nothing |
| ScrapeJob.Window | src/inngest/scrap-farside-btc-and-store-it.function.ts:64 | `slice(-5)` is the last min(5, n) days |
| ScrapeJob.XataId | src/inngest/scrap-farside-btc-and-store-it.function.ts:67-68 | the key of a day: the formatted day, lower-cased, spaces replaced by dashes |
| ScrapeJob.EntityOf | src/inngest/scrap-farside-btc-and-store-it.function.ts:76-92 | one cleaned flow column per stored ticker |
| ScrapeJob.Upserted | src/inngest/scrap-farside-btc-and-store-it.function.ts:74-111 | `upsert`: update under `where` when present, else create under the create key |
| ScrapeJob.UpsertIsWrite | src/inngest/scrap-farside-btc-and-store-it.function.ts:74-111 | with identical payloads under its own key, an upsert is a plain write |
| ScrapeJob.Persisted | src/inngest/scrap-farside-btc-and-store-it.function.ts:65-113 | the store after upserting the days in order, each under its key with its columns (PersistedIsOverride, PersistedDay) |
| ScrapeJob.Written | src/inngest/scrap-farside-btc-and-store-it.function.ts:65-113 | the keys written are exactly the keys of the upserted days |
| ScrapeJob.PersistedIsOverride | src/inngest/scrap-farside-btc-and-store-it.function.ts:65-113 | the store after the loop is the old store overridden by what the days write |
| ScrapeJob.PersistedIdempotent | src/inngest/scrap-farside-btc-and-store-it.function.ts:65-113 | running the job again on the same days leaves the store unchanged |
| ScrapeJob.PersistedUntouched | src/inngest/scrap-farside-btc-and-store-it.function.ts:65-113 | no key is deleted, and a key outside the window keeps its entity |
| ScrapeJob.PersistedDay | src/inngest/scrap-farside-btc-and-store-it.function.ts:76-109 | the last day of a key is stored with its columns; `total` is `cleanFlow(Total)` and each flow is `cleanFlow` of its column |
| ScrapeJob.FlowStore.Upsert | src/inngest/scrap-farside-btc-and-store-it.function.ts:74-111 | the store's map becomes the upserted map |
| ScrapeJob.Run | src/inngest/scrap-farside-btc-and-store-it.function.ts:57-123 | an empty parse writes nothing and reports empty data; otherwise the window is persisted in order and the last day's key is notified and stored |
| HeaderButton.IsCurrentPath | src/components/layouts/HeaderButton.tsx:15-18 | the home page is current only on exact equality, any other page on a prefix of the pathname (CurrentPathRule) |
| HeaderButton.CurrentPathRule | src/components/layouts/HeaderButton.tsx:15-18 | `/` is current only on `/`; any other page is current on itself and below it |
| HeaderButton.Candidates | src/components/layouts/HeaderButton.tsx:20-24 | the search order: each link, then its sublinks, link by link (CandidatesSplit) |
| HeaderButton.FirstMatch | src/components/layouts/HeaderButton.tsx:20-25 | the first candidate whose path is the page path (FirstMatchSpec) |
| HeaderButton.FirstMatchSpec | src/components/layouts/HeaderButton.tsx:20-25 | nothing is found iff no candidate has the path; otherwise the result is a candidate with the path, and no earlier candidate has it |
| HeaderButton.FirstMatchConcat | src/components/layouts/HeaderButton.tsx:20-22 | a match among earlier candidates hides every later one |
| HeaderButton.CandidatesSplit | src/components/layouts/HeaderButton.tsx:20-25 | the search order of a list is that of its prefix, then that of its suffix |
| HeaderButton.SearchLink | src/components/layouts/HeaderButton.tsx:21-24 | the link itself, then its sublinks until one matches: the first match of that order |
| HeaderButton.FindLink | src/components/layouts/HeaderButton.tsx:19-25 | the nested loop finds the first link with the path in the order link i, its sublinks, link i+1 |
| HeaderButton.Render | src/components/layouts/HeaderButton.tsx:12-32 | nothing when no link matches or the match is disabled; otherwise a button to the current path if disabled, else to the page, highlighted when current |
| Rows.ToNumber | src/app/page.tsx:59-60 | `Number(null)` is 0, and a missing cell is NaN |
| Rows.KeysSet | src/app/page.tsx:34-43 | assigning to an existing key keeps the key order; a new key is appended |
| Rows.GetSetOther | src/app/page.tsx:34-43 | assigning to one key leaves every other key's value as it was |

## Left out

- I/O is not modelled: the HTML fetch through the proxy, the JSON file read, Prisma's
  queries, the Telegram message and its contents, inngest's scheduling, `step.run`
  retries and the debug logging. The store is a map from key to entity, and the job's
  result is the outcome without its timestamped body text.
- The HTML table extraction and `enrichFarsideJson` are not part of this model. The job
  starts from `parsedData`.
- dayjs, numeral, `Number`, `String`, `cleanFlow`, `roundNToXDecimals` and `Date` are
  uninterpreted functions (`Externals.Env`). `numeral(s).multiply(sign).value()` is taken
  as `sign` times the parsed value, and as null when `s` does not parse.
- Floating point is not modelled: flows are exact reals. NaN is an explicit case, and
  ±Infinity appears only as `ChartSeries.Percent.Infinite`, the signed share of a nonzero flow
  over a zero day total. The source's NaN comparator results for invalid dates are not
  modelled either.
- ChartSeries.Rounded: `roundNToXDecimals` is not part of this model. It is a parameter
  on finite shares, and an infinite share is taken to pass through it unchanged, sign
  included; what the helper really returns for ±Infinity is not modelled.
- Rendering is not modelled: JSX, ECharts options, themes, `hexColor`, the table's
  `totalsToShow` state, the header's icons and `Not found` label, and the colour strings
  beyond being defined.
- JavaScript property order for integer-like keys and prototype keys (`"toString" in
  EtfTickers`) are not modelled. `ticker in EtfTickers` is read as "is one of the 11 BTC
  tickers", and `EtfTickers.GBTC` as the string `"GBTC"`.
- `toLowerCase` is modelled on ASCII letters only.
- ChartsWrapper passes `etf`, `areaData` and `percentData` to charts that read
  `farsideData` (the files are from different revisions). The model takes both charts'
  input as the days given to them, which is what `src/app/page.tsx:70-71` passes.
- Only the columns both upsert payloads share are modelled. `xata_id` is taken from the
  create payload.
- The year buckets' `rank` stays 0, as in the source, and the commented-out monthly
  per-ticker loop is not modelled.
- PageCumulate.Cumulate: requires distinct tickers. With a repeated ticker the source adds
  that column twice; the ticker list it receives is proved duplicate-free
  (PageEnrich.TickersOfSpec).
- ChartsWrapper.CumulateFlows: requires distinct tickers, for the same reason. With
  numbers only, `|| 0` on the previous, already numeric cell is a no-op, so both
  cumulations share one definition.
- Charts.AreaChart: requires distinct tickers. With a repeated ticker the source pushes
  two flows into one series per day.
- Charts.PercentChart: requires distinct tickers, for the same reason.
- ChartSeries.BuildSeries: requires distinct tickers, for the same reason.
- FlowsGroup.GroupDays: requires every day's `Number(total)` to be a number, since NaN
  totals would make the source's sums NaN. It also requires distinct tickers.
- FlowsTable.PrepareTable: requires numeric totals and distinct tickers, as GroupDays does.
- PageRank.DayRanks: the permutation property is stated for distinct dates only.
  PageRank.RankDays states what the loop does for any input: each sorted entry's rank
  goes to the first day with its date.
- FlowsTable.DayRanks: the permutation property is stated for distinct `xata_id`s only,
  for the same reason.
- PageEnrich.Enrich: requires each raw row to have distinct keys, which every JavaScript
  object has.
