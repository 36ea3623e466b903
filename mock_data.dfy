/** The mock dashboard data (src/lib/custom/mockData.ts): per-domain series of
    daily points followed by two days of hourly points, per-domain metrics
    averaged from the series, the cross-domain aggregation that merges the
    series index by index, and the one-slot cache in front of the generator.
    Random values are any value of their range; calendar dates come from the
    `daysAgo` parameter, which names the day `n` days before today. */
module MockData {
  import opened Wrappers
  import opened JsMath
  import opened Strings
  import opened Types

  datatype SampleDomain = SampleDomain(domain: string, name: string, tags: seq<string>)

  const SampleDomains: seq<SampleDomain> := [
    SampleDomain("casino-royal.com", "Casino Royal", ["casino", "gaming"]),
    SampleDomain("betonline.io", "Bet Online", ["betting", "sports"]),
    SampleDomain("pokerstars.net", "Poker Stars", ["casino", "poker"]),
    SampleDomain("shopify-store.com", "E-Shop Pro", ["ecommerce"]),
    SampleDomain("crypto-exchange.io", "Crypto Exchange", ["crypto", "finance"]),
    SampleDomain("news-portal.com", "News Portal", ["media", "news"]),
    SampleDomain("fitness-tracker.app", "Fitness App", ["health", "mobile"]),
    SampleDomain("learning-platform.edu", "EduLearn", ["education", "saas"]),
    SampleDomain("social-network.social", "SocialHub", ["social", "community"]),
    SampleDomain("analytics-dashboard.io", "Analytics Pro", ["saas", "b2b"])
  ]

  const AvailableTags: seq<string> := [
    "casino", "betting", "gaming", "poker", "sports", "ecommerce", "crypto", "finance", "media",
    "news", "health", "mobile", "education", "saas", "social", "community", "b2b"
  ]

  // ---------------------------------------------------------------------
  // Random values

  /** `randomInt(min, max)`: some integer of [min, max]. */
  method RandomInt(min: int, max: int) returns (r: int)
    requires min <= max
    ensures min <= r <= max
  {
    r :| min <= r <= max;
  }

  /** `randomChange()`: a change between -50% and +100%, in tenths. */
  method RandomChange() returns (tenths: int)
    ensures -500 <= tenths <= 1000
  {
    tenths := RandomInt(-500, 1000);
  }

  // ---------------------------------------------------------------------
  // Series

  /** The key of one hour of a day: "<date> HH:00". */
  function HourKey(date: string, hour: nat): string {
    date + " " + PadStart(NatToString(hour), 2, '0') + ":00"
  }

  /** The two digits of an hour key read back as the hour. */
  lemma HourKeyParses(date: string, hour: nat)
    requires hour < 24
    ensures |HourKey(date, hour)| == |date| + 6
    ensures ParseNat(HourKey(date, hour)[|date| + 1..|date| + 3]) == Some(hour)
  {
    var digits := NatToString(hour);
    NatToStringParses(hour);
    if hour < 10 {
      var d := DigitChar(hour);
      assert digits == [d];
      var hh := PadStart(digits, 2, '0');
      assert hh == ['0', d];
      assert ['0', d][..1] == ['0'] && ['0'][..0] == [];
      assert DigitsValue(['0', d]) == DigitsValue(['0']) * 10 + DigitValue(d);
      var key := HourKey(date, hour);
      assert key == date + " " + hh + ":00";
      assert key[|date| + 1..|date| + 3] == hh;
    } else {
      assert digits == NatToString(hour / 10) + [DigitChar(hour % 10)];
      assert |digits| == 2;
      var hh := PadStart(digits, 2, '0');
      assert hh == digits;
      var key := HourKey(date, hour);
      assert key == date + " " + hh + ":00";
      assert key[|date| + 1..|date| + 3] == hh;
    }
  }

  /** Different hours of a day have different keys. */
  lemma HourKeysDistinct(date: string, h1: nat, h2: nat)
    requires h1 < 24 && h2 < 24 && h1 != h2
    ensures HourKey(date, h1) != HourKey(date, h2)
  {
    HourKeyParses(date, h1);
    HourKeyParses(date, h2);
  }

  predicate Within(v: int, lo: int, hi: int) {
    lo <= v <= hi
  }

  /** The ranges of an hourly mock point. */
  predicate HourlyInRange(p: TimeSeriesPoint) {
    Within(p.pageviews, 50, 300) && Within(p.visits, 40, 200) && Within(p.visitors, 30, 150)
    && Within(p.bounces, 10, 40) && Within(p.avgTime, 20, 180)
  }

  /** The ranges of a daily mock point. */
  predicate DailyInRange(p: TimeSeriesPoint) {
    Within(p.pageviews, 100, 5000) && Within(p.visits, 80, 3000) && Within(p.visitors, 50, 2000)
    && Within(p.bounces, 20, 60) && Within(p.avgTime, 30, 300)
  }

  /** `generateHourlyData(date)`: 24 points, one per hour in order. */
  method GenerateHourlyData(dateStr: string) returns (series: seq<TimeSeriesPoint>)
    ensures |series| == 24
    ensures forall h :: 0 <= h < 24 ==> series[h].date == HourKey(dateStr, h) && HourlyInRange(series[h])
  {
    series := [];
    var hour := 0;
    while hour < 24
      invariant 0 <= hour <= 24 && |series| == hour
      invariant forall h :: 0 <= h < hour ==> series[h].date == HourKey(dateStr, h) && HourlyInRange(series[h])
    {
      var pageviews := RandomInt(50, 300);
      var visits := RandomInt(40, 200);
      var visitors := RandomInt(30, 150);
      var bounces := RandomInt(10, 40);
      var avgTime := RandomInt(20, 180);
      var point := TimeSeriesPoint(HourKey(dateStr, hour), pageviews, visits, visitors, bounces, avgTime);
      HourlyStep(series, point, dateStr);
      series := series + [point];
      hour := hour + 1;
    }
  }

  /** Appending the point of the next hour keeps the hourly invariant. */
  lemma HourlyStep(series: seq<TimeSeriesPoint>, point: TimeSeriesPoint, dateStr: string)
    requires forall h :: 0 <= h < |series| ==> series[h].date == HourKey(dateStr, h) && HourlyInRange(series[h])
    requires point.date == HourKey(dateStr, |series|)
    requires Within(point.pageviews, 50, 300) && Within(point.visits, 40, 200) && Within(point.visitors, 30, 150)
    requires Within(point.bounces, 10, 40) && Within(point.avgTime, 20, 180)
    ensures var longer := series + [point];
      forall h :: 0 <= h < |longer| ==> longer[h].date == HourKey(dateStr, h) && HourlyInRange(longer[h])
  {
    var longer := series + [point];
    assert longer[|series|] == point;
    assert forall h :: 0 <= h < |series| ==> longer[h] == series[h];
  }

  /** The number of daily points of a series for `days` days. */
  function DailyCount(days: int): nat {
    if days >= 2 then days - 2 else 0
  }

  /** The shape of a series for `days` days: the daily points from `days - 1`
      days ago down to two days ago, then the hours of yesterday, then the
      hours of today. */
  ghost predicate SeriesShape(series: seq<TimeSeriesPoint>, days: int, daysAgo: int -> string) {
    var n := DailyCount(days);
    && |series| == n + 48
    && (forall k :: 0 <= k < n ==> series[k].date == daysAgo(days - 1 - k) && DailyInRange(series[k]))
    && (forall h :: 0 <= h < 24 ==> series[n + h].date == HourKey(daysAgo(1), h) && HourlyInRange(series[n + h]))
    && (forall h :: 0 <= h < 24 ==> series[n + 24 + h].date == HourKey(daysAgo(0), h) && HourlyInRange(series[n + 24 + h]))
  }

  /** `generateTimeSeries(days)`. */
  method GenerateTimeSeries(days: int, daysAgo: int -> string) returns (series: seq<TimeSeriesPoint>)
    ensures SeriesShape(series, days, daysAgo)
  {
    series := [];
    var i := days - 1;
    while i >= 2
      invariant i <= days - 1 && |series| == days - 1 - i
      invariant i >= 1 || i == days - 1
      invariant forall k :: 0 <= k < |series| ==> series[k].date == daysAgo(days - 1 - k) && DailyInRange(series[k])
    {
      var pageviews := RandomInt(100, 5000);
      var visits := RandomInt(80, 3000);
      var visitors := RandomInt(50, 2000);
      var bounces := RandomInt(20, 60);
      var avgTime := RandomInt(30, 300);
      series := series + [TimeSeriesPoint(daysAgo(i), pageviews, visits, visitors, bounces, avgTime)];
      i := i - 1;
    }
    var daily := series;
    var yesterday := GenerateHourlyData(daysAgo(1));
    series := series + yesterday;
    var today := GenerateHourlyData(daysAgo(0));
    series := series + today;
    ShapeOfParts(daily, yesterday, today, days, daysAgo);
  }

  lemma ShapeOfParts(daily: seq<TimeSeriesPoint>, yesterday: seq<TimeSeriesPoint>, today: seq<TimeSeriesPoint>,
                     days: int, daysAgo: int -> string)
    requires |daily| == DailyCount(days)
    requires forall k :: 0 <= k < |daily| ==> daily[k].date == daysAgo(days - 1 - k) && DailyInRange(daily[k])
    requires |yesterday| == 24
    requires forall h :: 0 <= h < 24 ==> yesterday[h].date == HourKey(daysAgo(1), h) && HourlyInRange(yesterday[h])
    requires |today| == 24
    requires forall h :: 0 <= h < 24 ==> today[h].date == HourKey(daysAgo(0), h) && HourlyInRange(today[h])
    ensures SeriesShape(daily + yesterday + today, days, daysAgo)
  {
    var series := daily + yesterday + today;
    var n := |daily|;
    forall h | 0 <= h < 24 ensures series[n + h] == yesterday[h] && series[n + 24 + h] == today[h] {
    }
  }

  // ---------------------------------------------------------------------
  // Per-domain metrics

  /** `series.reduce((sum, d) => sum + d.<m>, 0)` */
  function SeriesSum(series: seq<TimeSeriesPoint>, m: MetricType): int {
    if series == [] then 0 else SeriesSum(series[..|series| - 1], m) + PointValue(series[|series| - 1], m)
  }

  lemma {:induction false} SeriesSumBounds(series: seq<TimeSeriesPoint>, m: MetricType, lo: int, hi: int)
    requires forall k :: 0 <= k < |series| ==> lo <= PointValue(series[k], m) <= hi
    ensures |series| * lo <= SeriesSum(series, m) <= |series| * hi
  {
    if series != [] {
      var n := |series| - 1;
      var front := series[..n];
      assert forall k :: 0 <= k < n ==> front[k] == series[k];
      SeriesSumBounds(front, m, lo, hi);
      assert SeriesSum(series, m) == SeriesSum(front, m) + PointValue(series[n], m);
      assert lo <= PointValue(series[n], m) <= hi;
      assert (n + 1) * lo == n * lo + lo && (n + 1) * hi == n * hi + hi;
    }
  }

  /** The current value of a metric: the rounded mean of the last seven points. */
  function LastSevenMean(series: seq<TimeSeriesPoint>, m: MetricType): int
    requires |series| >= 7
  {
    RoundDiv(SeriesSum(series[|series| - 7..], m), 7)
  }

  /** `Math.round(current * (1 - change / 100))` with the change in tenths. */
  function PreviousFrom(current: int, changeTenths: int): int {
    RoundDiv(current * (1000 - changeTenths), 1000)
  }

  /** What the generator fixes about the record of the sample at `index`. */
  ghost predicate GeneratedFrom(d: DomainMetrics, config: SampleDomain, index: nat, daysAgo: int -> string) {
    && d.id == "domain-" + NatToString(index + 1)
    && d.domain == config.domain
    && d.name == config.name
    && d.favicon == Some("https://www.google.com/s2/favicons?domain=" + config.domain + "&sz=32")
    && d.isFavorite == (index < 2)
    && d.tags == config.tags
    && 0 <= d.realtimeVisitors <= 50
    && SeriesShape(d.timeSeries, 90, daysAgo)
    && (forall m :: MetricOf(d, m).current == LastSevenMean(d.timeSeries, m))
    && (forall m :: -500 <= MetricOf(d, m).change <= 1000)
  }

  method MetricFrom(series: seq<TimeSeriesPoint>, m: MetricType) returns (v: MetricValue)
    requires |series| >= 7
    ensures v.current == LastSevenMean(series, m)
    ensures -500 <= v.change <= 1000
    ensures exists drift :: -500 <= drift <= 1000 && v.previous == PreviousFrom(v.current, drift)
  {
    var current := LastSevenMean(series, m);
    var drift := RandomChange();
    var change := RandomChange();
    v := MetricValue(current, PreviousFrom(current, drift), change);
  }

  /** `generateDomainMetrics(config, index)`. */
  method GenerateDomainMetrics(config: SampleDomain, index: nat, daysAgo: int -> string) returns (d: DomainMetrics)
    ensures GeneratedFrom(d, config, index, daysAgo)
  {
    var timeSeries := GenerateTimeSeries(90, daysAgo);
    var pageviews := MetricFrom(timeSeries, Pageviews);
    var visits := MetricFrom(timeSeries, Visits);
    var visitors := MetricFrom(timeSeries, Visitors);
    var bounces := MetricFrom(timeSeries, Bounces);
    var avgTime := MetricFrom(timeSeries, AvgTime);
    var realtime := RandomInt(0, 50);
    d := DomainMetrics(
      "domain-" + NatToString(index + 1), config.domain, config.name,
      Some("https://www.google.com/s2/favicons?domain=" + config.domain + "&sz=32"),
      pageviews, visits, visitors, bounces, avgTime, timeSeries,
      index < 2, config.tags, realtime);
  }

  /** The last seven points of the ninety-day series are hours of today, so
      every current value lies in the hourly range of its metric. */
  lemma CurrentWithinHourlyRange(d: DomainMetrics, config: SampleDomain, index: nat, daysAgo: int -> string)
    requires GeneratedFrom(d, config, index, daysAgo)
    ensures Within(d.pageviews.current, 50, 300) && Within(d.visits.current, 40, 200)
    ensures Within(d.visitors.current, 30, 150) && Within(d.bounces.current, 10, 40)
    ensures Within(d.avgTime.current, 20, 180)
  {
    var s := d.timeSeries;
    var last := s[|s| - 7..];
    assert SeriesShape(s, 90, daysAgo);
    assert DailyCount(90) == 88;
    forall k | 0 <= k < 7 ensures HourlyInRange(last[k]) {
      var h := 17 + k;
      assert s[DailyCount(90) + 24 + h].date == HourKey(daysAgo(0), h) && HourlyInRange(s[DailyCount(90) + 24 + h]);
      assert last[k] == s[DailyCount(90) + 24 + h];
    }
    SeriesSumBounds(last, Pageviews, 50, 300);
    SeriesSumBounds(last, Visits, 40, 200);
    SeriesSumBounds(last, Visitors, 30, 150);
    SeriesSumBounds(last, Bounces, 10, 40);
    SeriesSumBounds(last, AvgTime, 20, 180);
    RoundedMeanWithin(SeriesSum(last, Pageviews), 7, 50, 300);
    RoundedMeanWithin(SeriesSum(last, Visits), 7, 40, 200);
    RoundedMeanWithin(SeriesSum(last, Visitors), 7, 30, 150);
    RoundedMeanWithin(SeriesSum(last, Bounces), 7, 10, 40);
    RoundedMeanWithin(SeriesSum(last, AvgTime), 7, 20, 180);
    assert MetricOf(d, Pageviews).current == d.pageviews.current;
    assert MetricOf(d, Visits).current == d.visits.current;
    assert MetricOf(d, Visitors).current == d.visitors.current;
    assert MetricOf(d, Bounces).current == d.bounces.current;
    assert MetricOf(d, AvgTime).current == d.avgTime.current;
  }

  // ---------------------------------------------------------------------
  // Aggregation

  /** What the aggregation needs: at least one domain, a non-empty first
      series, and no series shorter than the first. */
  predicate Aggregatable(domains: seq<DomainMetrics>) {
    && |domains| > 0
    && |domains[0].timeSeries| > 0
    && forall k :: 0 <= k < |domains| ==> |domains[k].timeSeries| >= |domains[0].timeSeries|
  }

  /** The value of metric m at index i of a domain's series (0 past its end). */
  function ValueAt(d: DomainMetrics, i: nat, m: MetricType): int {
    if i < |d.timeSeries| then PointValue(d.timeSeries[i], m) else 0
  }

  /** The sum over the domains of their point i. */
  function ColumnSum(domains: seq<DomainMetrics>, i: nat, m: MetricType): int {
    if domains == [] then 0 else ColumnSum(domains[..|domains| - 1], i, m) + ValueAt(domains[|domains| - 1], i, m)
  }

  /** The merged point i: the first domain's date, the sums of the additive
      metrics, and the rounded means of bounces and average time. */
  function MergedPoint(domains: seq<DomainMetrics>, i: nat): TimeSeriesPoint
    requires Aggregatable(domains) && i < |domains[0].timeSeries|
  {
    TimeSeriesPoint(
      domains[0].timeSeries[i].date,
      ColumnSum(domains, i, Pageviews),
      ColumnSum(domains, i, Visits),
      ColumnSum(domains, i, Visitors),
      RoundDiv(ColumnSum(domains, i, Bounces), |domains|),
      RoundDiv(ColumnSum(domains, i, AvgTime), |domains|))
  }

  function RealtimeSum(domains: seq<DomainMetrics>): int {
    if domains == [] then 0 else RealtimeSum(domains[..|domains| - 1]) + domains[|domains| - 1].realtimeVisitors
  }

  /** `Math.round(bounceRate * 10) / 10` of the percentage bounces/visits. */
  function MockBounceRate(bounces: int, visits: int): real {
    if visits > 0 then (RoundDiv(bounces * 1000, visits) as real) / 10.0 else 0.0
  }

  /** agg is the aggregation of domains: the series merged index by index,
      totals summed over the merged series. */
  ghost predicate IsAggregateOf(agg: AggregatedMetrics, domains: seq<DomainMetrics>)
    requires Aggregatable(domains)
  {
    var series := agg.timeSeries;
    && |series| == |domains[0].timeSeries|
    && (forall i :: 0 <= i < |series| ==> series[i] == MergedPoint(domains, i))
    && agg.pageviews == SeriesSum(series, Pageviews)
    && agg.visits == SeriesSum(series, Visits)
    && agg.visitors == SeriesSum(series, Visitors)
    && agg.avgTime == RoundDiv(SeriesSum(series, AvgTime), |series|)
    && agg.bounceRate == MockBounceRate(SeriesSum(series, Bounces), SeriesSum(series, Visits))
    && agg.realtimeTotal == RealtimeSum(domains)
  }

  /** `generateAggregatedMetrics(domains)`. */
  method GenerateAggregatedMetrics(domains: seq<DomainMetrics>) returns (agg: AggregatedMetrics)
    requires Aggregatable(domains)
    ensures IsAggregateOf(agg, domains)
  {
    var allTimeSeries: seq<TimeSeriesPoint> := [];
    var daysCount := |domains[0].timeSeries|;
    var i := 0;
    while i < daysCount
      invariant 0 <= i <= daysCount && |allTimeSeries| == i
      invariant forall j :: 0 <= j < i ==> allTimeSeries[j] == MergedPoint(domains, j)
    {
      var aggregated := TimeSeriesPoint(domains[0].timeSeries[i].date, 0, 0, 0, 0, 0);
      var k := 0;
      while k < |domains|
        invariant 0 <= k <= |domains|
        invariant aggregated.date == domains[0].timeSeries[i].date
        invariant aggregated.pageviews == ColumnSum(domains[..k], i, Pageviews)
        invariant aggregated.visits == ColumnSum(domains[..k], i, Visits)
        invariant aggregated.visitors == ColumnSum(domains[..k], i, Visitors)
        invariant aggregated.bounces == ColumnSum(domains[..k], i, Bounces)
        invariant aggregated.avgTime == ColumnSum(domains[..k], i, AvgTime)
      {
        var point := domains[k].timeSeries[i];
        assert domains[..k + 1][..k] == domains[..k];
        aggregated := aggregated.(
          pageviews := aggregated.pageviews + point.pageviews,
          visits := aggregated.visits + point.visits,
          visitors := aggregated.visitors + point.visitors,
          bounces := aggregated.bounces + point.bounces,
          avgTime := aggregated.avgTime + point.avgTime);
        k := k + 1;
      }
      assert domains[..|domains|] == domains;
      aggregated := aggregated.(
        avgTime := RoundDiv(aggregated.avgTime, |domains|),
        bounces := RoundDiv(aggregated.bounces, |domains|));
      allTimeSeries := allTimeSeries + [aggregated];
      i := i + 1;
    }
    var totalPageviews := SeriesSum(allTimeSeries, Pageviews);
    var totalVisits := SeriesSum(allTimeSeries, Visits);
    var totalVisitors := SeriesSum(allTimeSeries, Visitors);
    var totalBounces := SeriesSum(allTimeSeries, Bounces);
    var avgTime := RoundDiv(SeriesSum(allTimeSeries, AvgTime), |allTimeSeries|);
    agg := AggregatedMetrics(
      totalPageviews, totalVisits, totalVisitors,
      MockBounceRate(totalBounces, totalVisits), avgTime,
      RealtimeSum(domains), allTimeSeries);
  }

  /** Aggregating one domain gives back its own series. */
  lemma AggregateOfOne(d: DomainMetrics, agg: AggregatedMetrics)
    requires Aggregatable([d]) && IsAggregateOf(agg, [d])
    ensures agg.timeSeries == d.timeSeries
  {
    forall i | 0 <= i < |d.timeSeries| ensures agg.timeSeries[i] == d.timeSeries[i] {
      var p := d.timeSeries[i];
      assert [d][..0] == [];
      forall m ensures ColumnSum([d], i, m) == PointValue(p, m) {
        assert ColumnSum([d], i, m) == ColumnSum([], i, m) + ValueAt(d, i, m);
      }
      RoundDivExact(p.bounces, 1);
      RoundDivExact(p.avgTime, 1);
      assert agg.timeSeries[i] == MergedPoint([d], i);
    }
  }

  /** The sum over the domains of their first n points. */
  function DomainsTotal(domains: seq<DomainMetrics>, n: nat, m: MetricType): int {
    if domains == [] then 0
    else
      var d := domains[|domains| - 1];
      DomainsTotal(domains[..|domains| - 1], n, m) + SeriesSum(d.timeSeries[..if n <= |d.timeSeries| then n else |d.timeSeries|], m)
  }

  predicate Additive(m: MetricType) {
    m == Pageviews || m == Visits || m == Visitors
  }

  lemma {:induction false} DomainsTotalZero(domains: seq<DomainMetrics>, m: MetricType)
    ensures DomainsTotal(domains, 0, m) == 0
  {
    if domains != [] {
      DomainsTotalZero(domains[..|domains| - 1], m);
    }
  }

  lemma {:induction false} DomainsTotalStep(domains: seq<DomainMetrics>, n: nat, m: MetricType)
    requires forall k :: 0 <= k < |domains| ==> |domains[k].timeSeries| > n
    ensures DomainsTotal(domains, n + 1, m) == DomainsTotal(domains, n, m) + ColumnSum(domains, n, m)
  {
    if domains != [] {
      var d := domains[|domains| - 1];
      DomainsTotalStep(domains[..|domains| - 1], n, m);
      assert d.timeSeries[..n + 1][..n] == d.timeSeries[..n];
    }
  }

  /** Summing the merged series equals summing every domain's series: each
      additive total counts every point of every domain exactly once. */
  lemma {:induction false} TotalsCountEveryPoint(domains: seq<DomainMetrics>, agg: AggregatedMetrics, m: MetricType)
    requires Aggregatable(domains) && IsAggregateOf(agg, domains) && Additive(m)
    ensures SeriesSum(agg.timeSeries, m) == DomainsTotal(domains, |agg.timeSeries|, m)
  {
    var series := agg.timeSeries;
    forall i | 0 <= i < |series|
      ensures PointValue(series[i], m) == ColumnSum(domains, i, m)
    {
      assert series[i] == MergedPoint(domains, i);
    }
    ColumnsTotal(domains, series, m);
  }

  /** A series whose every point is its column's sum adds up to the total
      of the domains over as many points. */
  lemma ColumnsTotal(domains: seq<DomainMetrics>, series: seq<TimeSeriesPoint>, m: MetricType)
    requires forall k :: 0 <= k < |domains| ==> |domains[k].timeSeries| >= |series|
    requires forall i :: 0 <= i < |series| ==> PointValue(series[i], m) == ColumnSum(domains, i, m)
    ensures SeriesSum(series, m) == DomainsTotal(domains, |series|, m)
  {
    DomainsTotalZero(domains, m);
    var k := 0;
    while k < |series|
      invariant 0 <= k <= |series|
      invariant SeriesSum(series[..k], m) == DomainsTotal(domains, k, m)
    {
      assert series[..k + 1][..k] == series[..k];
      DomainsTotalStep(domains, k, m);
      k := k + 1;
    }
    assert series[..|series|] == series;
  }

  /** Realtime visitors of non-negative counts add up to a non-negative total. */
  lemma {:induction false} RealtimeSumNonNegative(domains: seq<DomainMetrics>)
    requires forall k :: 0 <= k < |domains| ==> domains[k].realtimeVisitors >= 0
    ensures RealtimeSum(domains) >= 0
  {
    if domains != [] {
      RealtimeSumNonNegative(domains[..|domains| - 1]);
    }
  }

  // ---------------------------------------------------------------------
  // The generated dashboard and its cache

  /** Everything `generateMockData` promises about its result. */
  ghost predicate IsMockData(data: DashboardData, daysAgo: int -> string) {
    && |data.domains| == |SampleDomains|
    && (forall k :: 0 <= k < |data.domains| ==> GeneratedFrom(data.domains[k], SampleDomains[k], k, daysAgo))
    && Aggregatable(data.domains)
    && IsAggregateOf(data.totals, data.domains)
    && data.availableTags == AvailableTags
  }

  /** `generateMockData()`. */
  method GenerateMockData(daysAgo: int -> string) returns (data: DashboardData)
    ensures IsMockData(data, daysAgo)
  {
    var domains: seq<DomainMetrics> := [];
    var index := 0;
    while index < |SampleDomains|
      invariant 0 <= index <= |SampleDomains| && |domains| == index
      invariant forall k :: 0 <= k < index ==> GeneratedFrom(domains[k], SampleDomains[k], k, daysAgo)
    {
      var d := GenerateDomainMetrics(SampleDomains[index], index, daysAgo);
      domains := domains + [d];
      index := index + 1;
    }
    assert forall k :: 0 <= k < |domains| ==> |domains[k].timeSeries| == 136;
    var totals := GenerateAggregatedMetrics(domains);
    data := DashboardData(domains, totals, AvailableTags);
  }

  /** The generated dashboard has ten domains, the first two favourites,
      tags on offer, and 136 points (88 days, then 48 hours) in every
      domain's series and in the merged series. */
  lemma MockDataShape(data: DashboardData, daysAgo: int -> string)
    requires IsMockData(data, daysAgo)
    ensures |data.domains| == 10 && |data.availableTags| > 0
    ensures forall k :: 0 <= k < 10 ==> data.domains[k].isFavorite == (k < 2)
    ensures forall k :: 0 <= k < 10 ==> |data.domains[k].timeSeries| == 136
    ensures |data.totals.timeSeries| == 136
  {
    assert GeneratedFrom(data.domains[0], SampleDomains[0], 0, daysAgo);
  }

  /** `getMockData` / `regenerateMockData` over the module-level cache. */
  class MockDataCache {
    var cachedMockData: Option<DashboardData>
    const daysAgo: int -> string

    ghost predicate Valid()
      reads this
    {
      cachedMockData.Some? ==> IsMockData(cachedMockData.value, daysAgo)
    }

    constructor(daysAgo: int -> string)
      ensures this.daysAgo == daysAgo && cachedMockData == None && Valid()
    {
      this.daysAgo := daysAgo;
      cachedMockData := None;
    }

    /** Generates on the first call and returns the cached data on every
        later one. */
    method GetMockData() returns (data: DashboardData)
      requires Valid()
      modifies this
      ensures Valid() && cachedMockData == Some(data) && IsMockData(data, daysAgo)
      ensures old(cachedMockData).Some? ==> data == old(cachedMockData).value
    {
      if cachedMockData.None? {
        var generated := GenerateMockData(daysAgo);
        cachedMockData := Some(generated);
      }
      data := cachedMockData.value;
    }

    /** Replaces the cached data with a newly generated one. */
    method RegenerateMockData() returns (data: DashboardData)
      requires Valid()
      modifies this
      ensures Valid() && cachedMockData == Some(data) && IsMockData(data, daysAgo)
    {
      var generated := GenerateMockData(daysAgo);
      cachedMockData := Some(generated);
      data := generated;
    }
  }
}
