/** The records of the custom analytics dashboard (src/lib/custom/types.ts).
    Metric values are integers; percentage changes are integer tenths of a
    percent; dates are opaque string keys. */
module Types {
  import opened Wrappers

  /** The five metrics a domain card and the export can show. */
  datatype MetricType = Pageviews | Visits | Visitors | Bounces | AvgTime

  /** The five orders of the domain list. */
  datatype SortOption = NameAsc | NameDesc | VisitorsDesc | VisitorsAsc | PageviewsDesc

  /** The string under which each sort option travels through the UI. */
  function SortOptionKey(o: SortOption): string {
    match o
    case NameAsc => "name_asc"
    case NameDesc => "name_desc"
    case VisitorsDesc => "visitors_desc"
    case VisitorsAsc => "visitors_asc"
    case PageviewsDesc => "pageviews_desc"
  }

  /** Reads a sort key; any other string is not a sort option. */
  function ParseSortOption(key: string): (r: Option<SortOption>)
    ensures r.Some? ==> SortOptionKey(r.value) == key
    ensures r.None? ==> forall o :: SortOptionKey(o) != key
  {
    if key == "name_asc" then Some(NameAsc)
    else if key == "name_desc" then Some(NameDesc)
    else if key == "visitors_desc" then Some(VisitorsDesc)
    else if key == "visitors_asc" then Some(VisitorsAsc)
    else if key == "pageviews_desc" then Some(PageviewsDesc)
    else None
  }

  /** Each option's key reads back as that option. */
  lemma SortOptionKeyParses(o: SortOption)
    ensures ParseSortOption(SortOptionKey(o)) == Some(o)
  {
  }

  /** A metric in the current period, in the previous one, and the change
      between them in tenths of a percent. */
  datatype MetricValue = MetricValue(current: int, previous: int, change: int)

  datatype TimeSeriesPoint = TimeSeriesPoint(
    date: string,
    pageviews: int,
    visits: int,
    visitors: int,
    bounces: int,
    avgTime: int)

  /** One tracked website and its metrics (the `lastUpdate` timestamp is not
      modelled). */
  datatype DomainMetrics = DomainMetrics(
    id: string,
    domain: string,
    name: string,
    favicon: Option<string>,
    pageviews: MetricValue,
    visits: MetricValue,
    visitors: MetricValue,
    bounces: MetricValue,
    avgTime: MetricValue,
    timeSeries: seq<TimeSeriesPoint>,
    isFavorite: bool,
    tags: seq<string>,
    realtimeVisitors: int)

  /** The cross-domain totals of the dashboard. The interface declares the
      pageview, visit, visitor and realtime totals and the merged series; both
      producers of totals also attach a bounce rate (a percentage) and an
      average time, which the dashboard reads, so the model carries them. */
  datatype AggregatedMetrics = AggregatedMetrics(
    pageviews: int,
    visits: int,
    visitors: int,
    bounceRate: real,
    avgTime: int,
    realtimeTotal: int,
    timeSeries: seq<TimeSeriesPoint>)

  datatype DashboardData = DashboardData(
    domains: seq<DomainMetrics>,
    totals: AggregatedMetrics,
    availableTags: seq<string>)

  /** The date-range selector of the filter bar. */
  datatype DateRange = Last7Days | Last28Days | Last90Days | Custom

  /** The value of one metric at one point of a series. */
  function PointValue(p: TimeSeriesPoint, m: MetricType): int {
    match m
    case Pageviews => p.pageviews
    case Visits => p.visits
    case Visitors => p.visitors
    case Bounces => p.bounces
    case AvgTime => p.avgTime
  }

  /** The metric of a domain selected by a MetricType. */
  function MetricOf(d: DomainMetrics, m: MetricType): MetricValue {
    match m
    case Pageviews => d.pageviews
    case Visits => d.visits
    case Visitors => d.visitors
    case Bounces => d.bounces
    case AvgTime => d.avgTime
  }
}
