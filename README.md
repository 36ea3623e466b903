# Umami custom analytics dashboard — a Dafny model

This project models the custom multi-domain analytics dashboard built on top of
Umami, together with its two provisioning scripts:

- **the domain-list pipeline** (`src/lib/custom/utils.ts`): search filter, tag
  filter, the five sort orders of the domain list (a stable in-place sort of a
  copied array), the favourites split, the time, change and bounce-rate
  formatters, the date-range lengths and the rows of the CSV export;
- **the mock-data generator and its cache** (`src/lib/custom/mockData.ts`): the
  shape of the generated series (daily points, then 24 hours of yesterday and
  24 of today), the deterministic fields of every domain record, the
  index-by-index merge of all series into the dashboard totals, and the
  one-slot cache behind `getMockData`/`regenerateMockData`;
- **the conversion of Umami API answers** (`src/lib/custom/api.ts`): the
  change-percent rule, average time, the record built from two periods of
  stats, the pageview series, de-duplication of websites by id, the two time
  windows, the fallback record of a failed website and the cross-domain totals;
- **the dashboard components** (`src/components/custom`): the CSV export of
  `ExportButton.tsx`, the metric toggle, the grid layout arithmetic of the
  virtualised domain grid, and the tag dialog;
- **the provisioning scripts** (`automation-scripts`): the `domain;id` file
  written by `add-domains-to-umami.js` and read by `deploy-tracking.js`, the
  script-name derivation, the idempotent injection of the tracking tag into
  HTML pages, and the insertion of the redirect block into an nginx
  configuration.

Numbers are integers. Percentage changes are integer **tenths** of a percent,
which is what `Math.round(x * 1000) / 10` and `toFixed(1)` produce. The API
bounce rate, which the source never rounds, is a `real`. `Math.round(n / d)`
of two integers is `JsMath.RoundDiv`, the integer nearest to the exact
quotient with halves rounded up. Where the source rounds a scaled quotient
such as `(b / v) * 100`, the floating-point intermediate can fall just below
a half, and the model then rounds up where the source rounds down (see
`Utils.CalculateBounceRate` under "Left out").
`String.prototype.localeCompare` is a parameter `collate`. The model assumes
only that `collate` is antisymmetric in sign and transitive. Random values
are chosen by methods that may return any value of the source's range. Dates
are opaque keys produced by a `daysAgo` parameter. Whatever comes from the
network, a file or the environment (responses, file contents, environment
settings) is an input to the model.

The files are:

- `types.dfy`: the records;
- `utils.dfy`, `mock_data.dfy`, `api.dfy`, `export_button.dfy`,
  `metric_toggle.dfy`, `domains_grid.dfy`, `tag_manager.dfy`,
  `deploy_tracking.dfy` and `add_domains.dfy`: one per source file;
- helper modules `wrappers.dfy`, `js_math.dfy`, `seqs.dfy`, `strings.dfy`,
  `sorting.dfy` (the stable sort) and `csv.dfy` (the quoted CSV format
  shared by both exports, and a reader for it).

## Model

| member | source | states |
|---|---|---|
| Types.ParseSortOption | src/lib/custom/types.ts:61-66 | a key reads as an option exactly when it is that option's key; every other string is no sort option |
| Types.SortOptionKeyParses | src/lib/custom/types.ts:61-66 | the five sort keys are distinct and each reads back as its own option |
| Sorting.StableSortPermutes | src/lib/custom/utils.ts:70-92 | the sort returns a permutation of its input (same multiset) |
| Sorting.StableSortSorted | src/lib/custom/utils.ts:70-92 | with a consistent comparator the sort's result is ordered by the comparator |
| Sorting.StableSortKeepsTies | src/lib/custom/utils.ts:70-92 | the sort is stable: the elements that compare equal to any x appear in the same order as in the input |
| Sorting.InsertAt | src/lib/custom/utils.ts:70-92 | one in-place insertion step: the prefix up to i+1 becomes the sorted insertion of the old a[i] into the old prefix, the rest of the array is unchanged |
| Sorting.SortInPlace | src/lib/custom/utils.ts:70-92 | sorting the array in place leaves exactly the stable sort of its old contents |
| Utils.ComparatorConsistent | src/lib/custom/utils.ts:73-88 | each of the five comparators is consistent when the collation is |
| Utils.SortDomains | src/lib/custom/utils.ts:70-92 | `sortDomains` sorts a copy in an array and returns the specified order, a permutation of the input |
| Utils.SortedDomainsPermutes | src/lib/custom/utils.ts:70-92 | for every sort key the result has the same elements, with the same multiplicities, as the input |
| Utils.UnknownSortKeepsOrder | src/lib/custom/utils.ts:89-90 | a string that is no sort option returns the list in input order |
| Utils.SortedDomainsByKey | src/lib/custom/utils.ts:73-88 | each known key sorts stably with its own comparator |
| Utils.SortedByOption | src/lib/custom/utils.ts:73-88 | each known key's result is ordered by its comparator |
| Utils.SortVisitorsDesc | src/lib/custom/utils.ts:80-81 | `visitors_desc` gives non-increasing current visitors, as the test at src/lib/custom/__tests__/mockData.test.ts:58-61 checks |
| Utils.SortVisitorsAsc | src/lib/custom/utils.ts:83-84 | `visitors_asc` gives non-decreasing current visitors |
| Utils.SortPageviewsDesc | src/lib/custom/utils.ts:86-87 | `pageviews_desc` gives non-increasing current pageviews |
| Utils.SortByName | src/lib/custom/utils.ts:74-78 | `name_asc` orders names by the collation, `name_desc` in reverse, as the test at src/lib/custom/__tests__/mockData.test.ts:55-56 checks |
| Utils.SortIsStable | src/lib/custom/utils.ts:70-92 | domains that tie under the chosen order keep their input order |
| Utils.VisitorTiesKeepOrder | src/lib/custom/utils.ts:80-84 | domains with equal visitor counts keep their input order under both visitor sorts |
| Utils.FilterDomainsBySearch | src/lib/custom/utils.ts:97-109 | a blank query returns the input; otherwise the result keeps, in order, exactly the domains whose lower-cased domain or name contains the lower-cased, untrimmed query |
| Utils.AnySelected | src/lib/custom/utils.ts:122 | `selectedTags.some(tag => tags.includes(tag))` holds exactly when the two lists share a tag |
| Utils.FilterDomainsByTags | src/lib/custom/utils.ts:114-123 | an empty selection returns the input; otherwise the result keeps, in order, exactly the domains sharing a tag with the selection |
| Utils.SeparateFavorites | src/lib/custom/utils.ts:128-136 | favourites and the rest are two order-preserving sub-lists that keep exactly their kind; their lengths and multisets add up to the input's |
| Utils.ApplyFiltersAndSort | src/lib/custom/utils.ts:141-159 | the result is the sort of the tag filter of the search filter; a domain occurs in it as often as in the input if it passes both filters, otherwise never |
| Utils.FormatTimeParses | src/lib/custom/utils.ts:26-36 | `formatTime` loses nothing: its text reads back as the same number of seconds |
| Utils.SecondsParse | src/lib/custom/utils.ts:27-29 | under a minute the text is `Ns` and reads back as N |
| Utils.WholeMinutesParse | src/lib/custom/utils.ts:30-34 | a whole number of minutes is written `Mm` |
| Utils.MinutesAndSecondsParse | src/lib/custom/utils.ts:30-35 | otherwise the text is `Mm Ss` with S the remainder |
| Utils.FormatTimeExamples | src/lib/custom/__tests__/mockData.test.ts:46-50 | 45 gives `45s`, 65 gives `1m 5s`, 120 gives `2m` |
| Utils.ChangeIndicatorsAgree | src/lib/custom/utils.ts:41-65 | the colour class, the arrow and the sign of the formatted change agree: positive with up and `+`, negative with down and `-`, neutral with `0.0%` |
| Utils.FormatTenthsParses | src/lib/custom/utils.ts:62 | the one-decimal text of a magnitude reads back as the same number of tenths |
| Utils.FormatChangeParses | src/lib/custom/utils.ts:61-65 | the formatted change reads back as the same signed number of tenths |
| Utils.CalculateBounceRate | src/lib/custom/utils.ts:238-241 | 0 without visits; otherwise the exact quotient bounces*100/visits rounded to the nearest integer, halves up |
| Utils.BounceRateIsPercentage | src/lib/custom/utils.ts:238-241 | when bounces do not exceed visits the rate is between 0 and 100 |
| Utils.DateRangeDays | src/lib/custom/utils.ts:214-225 | 7 exactly for 7d, 90 exactly for 90d, 28 exactly for 28d and custom |
| Utils.ExportRow | src/lib/custom/utils.ts:258-267 | every data row has as many cells as the eight headers |
| Utils.ExportRows | src/lib/custom/utils.ts:258-267 | one row per domain, in input order |
| Utils.ExportCsvParses | src/lib/custom/utils.ts:247-271 | for quote- and newline-free text the exported file reads back as the header followed by the rows |
| Utils.ExportRowPlain | src/lib/custom/utils.ts:258-267 | every generated cell of a row is plain when the domain, name and tags are |
| Utils.FormatTimePlain | src/lib/custom/utils.ts:26-36 | a formatted time never contains a quote or a newline |
| Csv.ParseFormatTable | src/components/custom/ExportButton.tsx:67 | quoting every cell, joining cells by `,` and rows by a newline is reversible for plain cells |
| Csv.ParseFormatRow | src/components/custom/ExportButton.tsx:67 | one formatted row of plain cells reads back as its cells |
| Csv.FormatRowPlain | src/components/custom/ExportButton.tsx:67 | a formatted row of plain cells holds no newline, so rows stay apart |
| Csv.QuotesCollide | src/components/custom/ExportButton.tsx:67 | since quotes are not escaped, a cell `a","b` and the two cells `a`, `b` are written identically |
| MockData.RandomInt | src/lib/custom/mockData.ts:44-46 | the value lies in [min, max] |
| MockData.RandomChange | src/lib/custom/mockData.ts:51-53 | the change lies between -50.0% and +100.0%, in tenths |
| MockData.HourKeyParses | src/lib/custom/mockData.ts:66 | the hour key is the date, a space, the two-digit hour and `:00`; its hour reads back |
| MockData.HourKeysDistinct | src/lib/custom/mockData.ts:64-66 | the 24 hours of a day have distinct keys |
| MockData.GenerateHourlyData | src/lib/custom/mockData.ts:59-76 | 24 points keyed by hour 00 to 23, every value in its random range |
| MockData.GenerateTimeSeries | src/lib/custom/mockData.ts:81-108 | days-2 daily points from days-1 days ago down to 2 days ago, then yesterday's 24 hours, then today's 24 hours, each value in its range |
| MockData.SeriesSumBounds | src/lib/custom/mockData.ts:121-136 | a sum of n values within [lo, hi] lies within [n*lo, n*hi] |
| MockData.MetricFrom | src/lib/custom/mockData.ts:121-168 | current is the rounded mean of the last seven points; the change is in its random range; previous is current scaled by (1 - c/100) for some change c of that range, rounded |
| MockData.GenerateDomainMetrics | src/lib/custom/mockData.ts:113-177 | the id is `domain-<index+1>`, domain, name and tags come from the sample, the favicon is the Google URL, only the first two are favourites, realtime visitors lie in [0, 50], the series has the generated shape, every current value is the mean of its last seven points |
| MockData.CurrentWithinHourlyRange | src/lib/custom/mockData.ts:121-136 | the last seven points are today's last hours, so every current value lies in the hourly range |
| MockData.GenerateAggregatedMetrics | src/lib/custom/mockData.ts:182-236 | the merged series has the first domain's length; point i takes the first domain's date, sums pageviews, visits and visitors over the domains and averages bounces and time; the totals are sums over the merged series, the mean time, the one-decimal bounce rate and the sum of realtime visitors |
| MockData.AggregateOfOne | src/lib/custom/mockData.ts:186-213 | merging a single domain gives back its series |
| MockData.TotalsCountEveryPoint | src/lib/custom/mockData.ts:200-219 | the pageview, visit and visitor totals count every point of every domain's first n points |
| MockData.DomainsTotalStep | src/lib/custom/mockData.ts:188-205 | adding index n to the merge adds the sum over the domains of their point n |
| MockData.ColumnsTotal | src/lib/custom/mockData.ts:200-219 | a series whose point i is the domains' column i sums to the domains' total of the first points |
| MockData.RealtimeSumNonNegative | src/lib/custom/mockData.ts:233 | the realtime total of non-negative counts is non-negative |
| MockData.GenerateMockData | src/lib/custom/mockData.ts:241-251 | one generated record per sample domain, in order, their aggregation, and the tag list |
| MockData.MockDataShape | src/lib/custom/__tests__/mockData.test.ts:6-37 | ten domains, tags on offer, the first two favourites, and 136 points per series, not the 28 the test at line 22 expects |
| MockData.MockDataCache.constructor | src/lib/custom/mockData.ts:256 | the cache starts empty |
| MockData.MockDataCache.GetMockData | src/lib/custom/mockData.ts:258-263 | generates on the first call, then returns the cached data unchanged |
| MockData.MockDataCache.RegenerateMockData | src/lib/custom/mockData.ts:268-271 | replaces the cache with newly generated data and returns it |
| Api.Keys | src/lib/custom/api.ts:81 | the de-duplication key of every website, `id` or else `website_id`, in order |
| Api.MapSetKeys | src/lib/custom/api.ts:80-82 | setting a key in an insertion-ordered map keeps the key order when the key is present and appends it otherwise |
| Api.MapSetDisplaces | src/lib/custom/api.ts:80-82 | setting a key replaces that key's entry and keeps every other entry |
| Api.FirstOccurrences | src/lib/custom/api.ts:80-82 | the distinct keys, each at its first occurrence |
| Api.DedupeKeys | src/lib/custom/api.ts:78-82 | the de-duplicated websites come in the order of each key's first occurrence |
| Api.DedupeUnique | src/lib/custom/api.ts:78-82 | keys are unique and every input key survives |
| Api.DedupeLastWins | src/lib/custom/api.ts:78-82 | each surviving website is the last one with its key |
| Api.TeamWebsitesMembers | src/lib/custom/api.ts:58-76 | the flattened team lists hold exactly the websites of the teams that listed theirs; a team answering with an error status contributes nothing |
| Api.TeamWebsitesConcat | src/lib/custom/api.ts:58-76 | `flat()` keeps response order and every copy: the websites of two runs of responses are the two results concatenated |
| Api.TeamWebsitesSingle | src/lib/custom/api.ts:64-72 | one team's listing gives its own list, an error status nothing |
| Api.FetchUserWebsites | src/lib/custom/api.ts:30-90 | no token is an error; a rejected personal request, a failed team listing and a rejected team request are errors, each exactly when it happens first; otherwise the personal websites followed by the team websites, de-duplicated by key, a listing with an error status contributing none |
| Api.FetchedWebsitesCovered | src/lib/custom/api.ts:42-82 | the listing succeeds exactly when no request was rejected, and then has unique keys and covers every personal and team website |
| Api.CalculateChange | src/lib/custom/api.ts:145-148 | 100% for growth from zero, 0 for zero to zero, else the exact (current-previous)/previous as a percentage, rounded to the nearest tenth, halves up |
| Api.ChangeMonotone | src/lib/custom/api.ts:145-148 | no change is 0.0%, and the change grows with the current value |
| Api.ChangeAtLeastMinus100 | src/lib/custom/api.ts:145-148 | a non-negative current value never falls below -100% |
| Api.ChangeExact | src/lib/custom/api.ts:145-148 | an exact change of t tenths is reported as t |
| Api.AverageTime | src/lib/custom/api.ts:162-167 | total time divided by visits, rounded, and 0 without visits |
| Api.Favicon | src/lib/custom/api.ts:173-175 | a favicon exactly when the website has a domain |
| Api.ConvertStatsToMetrics | src/lib/custom/api.ts:138-210 | id and name copied, domain falling back to name, missing stats read as 0, average time of each period, every change by the change rule, the given series, not a favourite, no tags, no realtime visitors |
| Api.ErrorRecord | src/lib/custom/api.ts:271-288 | the fallback record keeps the identity and favicon and has every metric, the series and the tags empty |
| Api.ErrorRecordIsEmptyConversion | src/lib/custom/api.ts:169-209 | the fallback record is what conversion gives for empty stats and no series |
| Api.ConvertPageviewsToTimeSeries | src/lib/custom/api.ts:215-228 | a missing or non-list payload gives no points; otherwise one point per item, in order |
| Api.SeriesTotals | src/lib/custom/api.ts:220-227 | the series counts every item's pageviews (missing as 0) and no visits |
| Api.Windows | src/lib/custom/api.ts:236-241 | the current window ends now and lasts `days` days; the previous window ends where it starts and has the same length |
| Api.SeriesUnit | src/lib/custom/api.ts:261 | hourly points exactly for ranges of at most two days |
| Api.Request | src/lib/custom/api.ts:248-262 | each website is asked for both windows and the unit of the range |
| Api.DomainData | src/lib/custom/api.ts:249-289 | any failed request gives the fallback record, otherwise the converted stats |
| Api.ApiTotals | src/lib/custom/api.ts:294-311 | sums of the current values, bounces over max(visits, 1) as a percentage, mean time over max(n, 1), no realtime total and no series |
| Api.TotalsOfNothing | src/lib/custom/api.ts:294-311 | no domains give zero totals |
| Api.TotalBounceRateIsPercentage | src/lib/custom/api.ts:298-304 | when no domain has more bounces than visits, the total bounce rate is between 0 and 100 |
| Api.TotalAvgTimeWithin | src/lib/custom/api.ts:305-308 | the total average time lies within the domains' bound |
| Api.FetchDashboardData | src/lib/custom/api.ts:233-323 | a failed website listing is passed on; otherwise one record per website, in order, with the totals and no tags |
| JsMath.RoundDiv | src/lib/custom/api.ts:164 | `Math.round(n / d)` of integers: the integer nearest to the exact quotient, halves rounded up |
| JsMath.RoundDivUnique | src/lib/custom/api.ts:147 | that integer is the only one within half a unit |
| JsMath.RoundDivMonotone | src/lib/custom/mockData.ts:122-136 | rounding a quotient is monotone |
| JsMath.RoundedMeanWithin | src/lib/custom/mockData.ts:122-136 | a rounded mean of values in [lo, hi] stays in [lo, hi] |
| JsMath.FloorDiv | src/components/custom/DomainsGrid.tsx:23-24 | `Math.floor(n / d)` |
| JsMath.CeilDiv | src/components/custom/DomainsGrid.tsx:65 | `Math.ceil(n / d)` |
| JsMath.TruncMod | src/lib/custom/utils.ts:31 | JavaScript's `%`, whose sign follows the dividend |
| ExportButton.ClockTimeParses | src/components/custom/ExportButton.tsx:9-13 | `m:ss` with zero-padded seconds reads back as the same number of seconds |
| ExportButton.ClockTimeExamples | src/components/custom/ExportButton.tsx:9-13 | 65 gives `1:05`, 600 gives `10:00` |
| ExportButton.Fixed1Parses | src/components/custom/ExportButton.tsx:49-54 | `toFixed(1)` of a value in tenths reads back |
| ExportButton.MetricLabel | src/components/custom/ExportButton.tsx:20-29 | bounces are labelled `Bounces (%)`, and every other metric than the first four falls through to `Avg. Time` |
| ExportButton.LabelsDistinct | src/components/custom/ExportButton.tsx:20-29 | different metrics get different labels |
| ExportButton.BuildHeader | src/components/custom/ExportButton.tsx:17-34 | the header: `Domain`, `Name`, the three cells of each active metric in order, `Tags`, `Favorite`, `Realtime Visitors` |
| ExportButton.BuildRow | src/components/custom/ExportButton.tsx:39-61 | a row: domain, name, the three cells of each active metric, tags, favourite, realtime count |
| ExportButton.GenerateCsv | src/components/custom/ExportButton.tsx:15-68 | the text is the header and one row per domain, quoted and joined |
| ExportButton.HeaderRow | src/components/custom/ExportButton.tsx:17-34 | the header has 5 + 3·(active metrics) cells |
| ExportButton.DataRow | src/components/custom/ExportButton.tsx:39-61 | each row has 5 + 3·(active metrics) cells |
| ExportButton.TableShape | src/components/custom/ExportButton.tsx:36-64 | one header and one row per domain in input order, all of the same width |
| ExportButton.MetricColumns | src/components/custom/ExportButton.tsx:19-55 | the k-th group of three metric cells belongs to the k-th active metric, in header and rows |
| ExportButton.ColumnsLineUp | src/components/custom/ExportButton.tsx:17-61 | the header's and each row's cells of a metric sit at the same columns |
| ExportButton.RowEnds | src/components/custom/ExportButton.tsx:17-61 | the fixed first two and last three cells of header and rows |
| ExportButton.MetricCellsDecode | src/components/custom/ExportButton.tsx:43-54 | the current cell reads back as the current value (a clock time, a one-decimal number or an integer), the change as tenths, the previous value as an integer |
| ExportButton.LastCellsPlain | src/components/custom/ExportButton.tsx:57-61 | tags joined by `; `, `Yes`/`No`, the realtime count: plain whenever the tags are |
| ExportButton.DataRowPlain | src/components/custom/ExportButton.tsx:39-61 | a row is plain when the domain's texts are |
| ExportButton.HeaderRowPlain | src/components/custom/ExportButton.tsx:17-34 | the header is plain |
| ExportButton.ExportParses | src/components/custom/ExportButton.tsx:15-68 | the generated text reads back as the table |
| ExportButton.ExportFileName | src/components/custom/ExportButton.tsx:81 | `umami-analytics-<range>-<date>.csv`, the date being the timestamp's text up to its first `T`, or all of it when it has none |
| MetricToggle.MetricsOfferedOnce | src/components/custom/MetricToggle.tsx:16-22 | every metric is offered, each once |
| MetricToggle.HandleToggle | src/components/custom/MetricToggle.tsx:25-35 | the only active metric cannot be removed; an active metric is removed with all its copies, every other entry kept in order and as often as before; an inactive one is appended |
| MetricToggle.FilterNoRepeats | src/components/custom/MetricToggle.tsx:31 | removing a metric from a list without repeats leaves none |
| MetricToggle.ToggleKeepsShape | src/components/custom/MetricToggle.tsx:25-35 | a non-empty list without repeats stays so under any toggle |
| MetricToggle.ToggleTwiceRestores | src/components/custom/MetricToggle.tsx:31-33 | adding an inactive metric and toggling it again restores the list |
| DomainsGrid.LayoutWidth | src/components/custom/DomainsGrid.tsx:62 | an unmeasured width counts as 1000 |
| DomainsGrid.GridDimensions | src/components/custom/DomainsGrid.tsx:21-27 | at least one column; as many 300-pixel slots as fit; the column width is the remaining width shared out, rounded down |
| DomainsGrid.UnmeasuredLayout | src/components/custom/DomainsGrid.tsx:62 | the dimensions computed while the width is still 0 (the 1000-pixel fallback): 3 columns of 306 pixels |
| DomainsGrid.ColumnsFit | src/components/custom/DomainsGrid.tsx:21-27 | columns and gaps never exceed the width |
| DomainsGrid.ColumnWidthBounds | src/components/custom/DomainsGrid.tsx:19-24 | with two or more columns each is at least 270 pixels |
| DomainsGrid.NarrowColumns | src/components/custom/DomainsGrid.tsx:19-24 | at width 600 the columns are 270 pixels, under the 280 minimum |
| DomainsGrid.RowCount | src/components/custom/DomainsGrid.tsx:65 | enough rows for every domain and no empty last row |
| DomainsGrid.GridHeight | src/components/custom/DomainsGrid.tsx:66-69 | the rows' height capped by the viewport allowance, and equal to one of the two |
| DomainsGrid.CellDomain | src/components/custom/DomainsGrid.tsx:72-77 | cell (row, column) shows domain row·columns + column, and nothing past the end |
| DomainsGrid.EveryDomainShown | src/components/custom/DomainsGrid.tsx:65-77 | every domain is shown by an in-range cell |
| DomainsGrid.CellsShowDistinctDomains | src/components/custom/DomainsGrid.tsx:72-77 | no two in-range cells show the same domain |
| TagManager.Submit | src/components/custom/TagManager.tsx:15-27 | nothing for a blank name, a duplicate for a trimmed name already listed (exact match), otherwise the trimmed new name is created |
| TagManager.CreatedOnce | src/components/custom/TagManager.tsx:18-25 | a created name is trimmed, and submitting it again once listed is a duplicate |
| TagManager.ButtonMatchesSubmit | src/components/custom/TagManager.tsx:64 | the Add button is enabled exactly when submitting does something |
| TagManager.TagDialog.constructor | src/components/custom/TagManager.tsx:12-13 | closed, with an empty input |
| TagManager.TagDialog.Open | src/components/custom/TagManager.tsx:37 | opens, keeping the input and its 50-character bound |
| TagManager.TagDialog.Close | src/components/custom/TagManager.tsx:49 | closes, keeping the input and its 50-character bound |
| TagManager.TagDialog.Edit | src/components/custom/TagManager.tsx:61-62 | the input holds at most 50 characters |
| TagManager.TagDialog.HandleSubmit | src/components/custom/TagManager.tsx:15-27 | the input is cleared exactly when a tag is created |
| TagManager.DeletePrompt | src/components/custom/TagManager.tsx:30 | the confirmation names the tag |
| TagManager.HandleDelete | src/components/custom/TagManager.tsx:29-33 | the tag is deleted exactly when the user confirms |
| DeployTracking.GenerateScriptName | automation-scripts/deploy-tracking.js:38-42 | the first 8 characters of the id without dashes, then `.js`; no dash in the result |
| DeployTracking.ScriptNameIgnoresDashes | automation-scripts/deploy-tracking.js:38-42 | dashes in the id do not matter; ids of 8 or more other characters give 11-character names |
| DeployTracking.ParseLine | automation-scripts/deploy-tracking.js:53-58 | a line is refused exactly when its first or second `;` field is blank; otherwise the trimmed fields and the derived script name, extra fields ignored |
| DeployTracking.MapUntilError | automation-scripts/deploy-tracking.js:53-59 | mapping stops at the first refused line; it succeeds exactly when every line parses |
| DeployTracking.ParseSites | automation-scripts/deploy-tracking.js:50-59 | one site per line of the trimmed content, each with a domain and an id; it succeeds exactly when every line parses, and otherwise fails with the first line that does not |
| DeployTracking.BlankFileRejected | automation-scripts/deploy-tracking.js:51-57 | a blank file is refused, since its one empty line has no domain |
| DeployTracking.TrackingTag | automation-scripts/deploy-tracking.js:187 | the tag carries `data-website-id` and the script name |
| DeployTracking.InsertionPoint | automation-scripts/deploy-tracking.js:197-203 | before the first `</head>`, else before the first `</body>` |
| DeployTracking.InjectTrackingCode | automation-scripts/deploy-tracking.js:186-214 | an already tracked page is left alone and reported so; otherwise the indented tag is inserted at the insertion point, or appended after a newline, and the page is tracked |
| DeployTracking.InjectIsReplace | automation-scripts/deploy-tracking.js:197-203 | the insertion is the first-occurrence `replace` of the closing tag |
| DeployTracking.InjectFlagMeansChanged | automation-scripts/deploy-tracking.js:192-213 | the returned flag is true exactly when the page changed, and a changed page only grew |
| DeployTracking.InjectIdempotent | automation-scripts/deploy-tracking.js:187-194 | a second injection changes nothing and reports nothing added |
| DeployTracking.InjectPages | automation-scripts/deploy-tracking.js:283-291 | the pages written and the count of pages that got the tag; a dry run writes nothing but still counts |
| DeployTracking.WrittenPagesAt | automation-scripts/deploy-tracking.js:209-211 | page k is rewritten only outside a dry run |
| DeployTracking.SecondRunInjectsNothing | automation-scripts/deploy-tracking.js:283-291 | running the injection over its own output injects into no page and rewrites none |
| DeployTracking.UmamiHost | automation-scripts/deploy-tracking.js:96 | the server URL without its `http://` or `https://`, and then without one trailing `/` exactly when it ends in one |
| DeployTracking.SchemeLength | automation-scripts/deploy-tracking.js:96 | the length of a leading `https://` or `http://`, else 0 |
| DeployTracking.UmamiHostExamples | automation-scripts/deploy-tracking.js:96 | examples of the stripping, only one trailing slash removed |
| DeployTracking.RedirectBlock | automation-scripts/deploy-tracking.js:99-118 | the block configures the script's location |
| DeployTracking.FirstServerBlock | automation-scripts/deploy-tracking.js:121 | the leftmost place where the pattern `server\s*{[^}]*}` matches |
| DeployTracking.ClosingBrace | automation-scripts/deploy-tracking.js:121 | the first `}` after the `{` of `server {`, which `[^}]*` cannot cross, whether or not it closes the server block |
| DeployTracking.InsertIntoServerBlock | automation-scripts/deploy-tracking.js:121-126 | no match exactly when there is no server block; otherwise the block is inserted, with a newline, just before that `}` |
| DeployTracking.UpdateNginxConfig | automation-scripts/deploy-tracking.js:81-126 | a dry run, and only a dry run, does nothing; otherwise an existing `location = /<script>`, and only that, leaves the configuration alone; without a server block it is an error; otherwise the result is the configuration with the redirect block inserted just before the first `}` after the `{` of the first `server {` match, which closes a nested block when the server block has one |
| DeployTracking.NestedBlockInsertion | automation-scripts/deploy-tracking.js:121-123 | in `server {location /{x}}` the pattern's `}` is the nested block's (index 20), not the server block's |
| DeployTracking.NginxIdempotent | automation-scripts/deploy-tracking.js:90-93 | an updated configuration is left alone by the next run |
| DeployTracking.NoServerRefused | automation-scripts/deploy-tracking.js:121-126 | a configuration without the word `server` is refused |
| DeployTracking.HtmlNameIgnoresCase | automation-scripts/deploy-tracking.js:175 | `/\.html?$/i` ignores letter case |
| DeployTracking.HtmlNameExamples | automation-scripts/deploy-tracking.js:172-175 | `.HTM` is a page and `.xhtml` is not; `node_modules` is skipped |
| AddDomains.ValidateConfig | automation-scripts/add-domains-to-umami.js:29-47 | every failing check is collected, none is skipped, in the order URL, user name, password, input file |
| AddDomains.TrimAll | automation-scripts/add-domains-to-umami.js:130 | every line trimmed |
| AddDomains.ReadDomains | automation-scripts/add-domains-to-umami.js:121-137 | the trimmed lines that are non-empty and not `#` comments, in order |
| AddDomains.ReadDomainsKeeps | automation-scripts/add-domains-to-umami.js:129-134 | exactly the domain lines are kept |
| AddDomains.ReadDomainsClean | automation-scripts/add-domains-to-umami.js:129-134 | every domain read is non-empty, not a comment and trimmed |
| AddDomains.TeamFor | automation-scripts/add-domains-to-umami.js:180 | no team under skip-team, otherwise the configured team |
| AddDomains.CreateWebsiteBody | automation-scripts/add-domains-to-umami.js:91-100 | name and domain are the domain; the team is sent exactly when it is a non-empty string |
| AddDomains.SkipTeamOmitsTeam | automation-scripts/add-domains-to-umami.js:92-100 | the body carries a team exactly when teams are not skipped and one is configured |
| AddDomains.RegisterAll | automation-scripts/add-domains-to-umami.js:172-199 | successes and failures as the loop collects them |
| AddDomains.EachDomainOnce | automation-scripts/add-domains-to-umami.js:172-199 | the results and the errors are together as many as the domains, and each domain's outcome is in the list it belongs to |
| AddDomains.Positions | automation-scripts/add-domains-to-umami.js:172-199 | the positions whose outcome is an id (or an error), strictly increasing, every such position included |
| AddDomains.SuccessesInOrder | automation-scripts/add-domains-to-umami.js:172-183 | the results are exactly the domains whose outcome is an id, each with that id, in input order |
| AddDomains.FailuresInOrder | automation-scripts/add-domains-to-umami.js:195-198 | the errors are exactly the domains whose outcome is an error, each with its message, in input order |
| AddDomains.ResultLines | automation-scripts/add-domains-to-umami.js:141 | one `domain;id` line per result |
| AddDomains.ResultsFile | automation-scripts/add-domains-to-umami.js:202-205 | the results file is written exactly when a domain succeeded |
| AddDomains.ErrorsFile | automation-scripts/add-domains-to-umami.js:212-224 | the error file is written exactly when a domain failed, and holds the `domain<TAB>message` lines of the failures joined by newlines |
| AddDomains.ErrorLines | automation-scripts/add-domains-to-umami.js:222 | one tab-separated `domain error` line per failure |
| AddDomains.LineParses | automation-scripts/add-domains-to-umami.js:141 | a written line reads back through the deployment script's parser |
| AddDomains.ResultsFileLines | automation-scripts/add-domains-to-umami.js:141 | the written file splits back into its lines |
| AddDomains.WriteThenParse | automation-scripts/add-domains-to-umami.js:141 | the written file parses in deploy-tracking.js to the same domains and ids, with their script names |

## Left out

- Network and authentication: every `fetch`, the token lookup, `login`, the
  `createWebsite` transport, the `verifyTracking` requests and
  `automation-scripts/cloudflare-purge-cache.js`. Responses are inputs:
  options, results, or a function from request to responses.
- File system, shell and process: reading and writing files, `execAsync`
  (grep, find, `nginx -t`, `systemctl reload`), `process.exit`, the delays
  between requests, the console output. File contents and existence are
  inputs.
- `findNginxConfig`, `findSiteDirectory` and the directory walk of
  `findHtmlFiles`: only its file-name test and its list of skipped
  directories are modelled.
- `processSite` bookkeeping (the `steps` record and `success` flag) and
  `main` of `deploy-tracking.js`.
- React rendering, hooks, `src/lib/custom/hooks.ts`, and the chart and card
  components.
- `debounce`, `formatDate` and `formatNumber`, and `getMetricColor` and
  `getMetricLabel` of utils.ts: timers, locale dates, floating-point
  display and colour constants.
- The Blob and DOM download in both CSV exports: only the text is modelled.
- Floating point: changes are integer tenths, and the mock bounce rate is a
  rounded count of tenths. The API bounce rate is an exact `real`.
- `Math.random` and `Date`: random values can be any value of their range,
  and dates are opaque keys from `daysAgo`. The `lastUpdate` timestamp is
  not modelled.
- `localeCompare` is an abstract collation. `toLowerCase` folds ASCII
  letters only.
- The `$` patterns of `String.replace` replacement text: script names, ids
  and server URLs are taken literally.
- The line splitting of `readline`: `AddDomains.ReadDomains` takes the
  lines as input.
- The hard-coded defaults of the script's settings: credentials, URLs and
  the team id are parameters.
- Reference identity: the cached dashboard is a value, so "the same object"
  is modelled as the same value.
- The stale test expecting 28 points per series: the code produces 136
  (`MockData.MockDataShape`).
- The comment "last 7 days" in `generateDomainMetrics`: the code averages the
  last seven points of the series, which are today's last seven hours.
  `MockData.MetricFrom` follows the code.
- CalculateBounceRate: rounds the exact quotient, while the source rounds the
  floating-point value `(bounces / visits) * 100`. At an exact half the
  double can fall just below it: for 23 bounces in 40 visits the source
  gives 57 and the model 58, and likewise 29 in 200 gives 14 against 15.
  `MockData.MockBounceRate` and the drifted `previous` of
  `MockData.MetricFrom` are exact in the same way.
- Api.CalculateChange: rounds the exact relative change, while the source
  rounds the double `((current - previous) / previous) * 1000`. For a
  previous value of 400 and a current one of 601 the source gives 50.2%
  (502 tenths) and the model 50.3% (503 tenths).
- TagManager.TagDialog.Edit: bounds the input by 50 characters, while the
  `maxLength` of an HTML input counts UTF-16 code units, so a text with
  characters outside the Basic Multilingual Plane is cut shorter by the
  browser.
- DomainsGrid.UnmeasuredLayout: the grid itself is not rendered while the
  width is 0 (`DomainsGrid.tsx:139`); only the dimensions computed then are
  stated.
- ExportButton.ClockTimeParses: only for non-negative seconds. For negative
  values JavaScript's `%` yields a negative second count, and the text does
  not read back.
- ExportButton.MetricCellsDecode: requires a non-negative average time for
  the same reason.
- MetricToggle.ToggleKeepsShape: requires a list without repeats. With
  `[m, m]` the removal filter drops both copies. The toggle itself never
  creates a repeat.
- DomainsGrid.ColumnWidthBounds: guarantees 270 pixels, not the 280 of
  `MIN_CARD_WIDTH`. The layout subtracts one gap more than there are
  columns, which costs each of c columns 20/c pixels, and
  `DomainsGrid.NarrowColumns` shows 270 pixels at width 600.
- AddDomains.RegisterAll: requires one outcome per domain. The outcome of
  each `createWebsite` call is an input.
- MockData.GenerateAggregatedMetrics: requires at least one domain, a
  non-empty first series and no shorter series. Otherwise the source
  reads past an array and throws.
- DeployTracking.InjectPages: takes the per-page injection as a function
  parameter. `DeployTracking.SecondRunInjectsNothing` instantiates it with
  `InjectTrackingCode`.
- Csv.ParseFormatTable: the round trip holds only for cells without quotes
  or newlines, because the exports do not escape quotes
  (`Csv.QuotesCollide`).
