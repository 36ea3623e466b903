/** The real-data path of the dashboard (src/lib/custom/api.ts): collecting
    the user's websites, turning Umami's stats and pageview payloads into
    DomainMetrics, and totalling them. Every network response is a parameter;
    for the stats requests `None` stands for a request that failed, and the
    website listings say how they failed (see `Response`). */
module Api {
  import opened Wrappers
  import opened JsMath
  import opened Seqs
  import opened Types

  /** A website as the Umami API lists it. A field the payload leaves out and
      an empty string are both falsy in the source, and both are "" here. */
  datatype Website = Website(id: string, websiteId: string, domain: string, name: string)

  /** The key under which websites are de-duplicated: `w.id || w.website_id`. */
  function WebsiteKey(w: Website): string {
    if w.id != "" then w.id else w.websiteId
  }

  function Keys(ws: seq<Website>): (ks: seq<string>)
    ensures |ks| == |ws|
    ensures forall j :: 0 <= j < |ws| ==> ks[j] == WebsiteKey(ws[j])
  {
    seq(|ws|, j requires 0 <= j < |ws| => WebsiteKey(ws[j]))
  }

  predicate Distinct(ks: seq<string>) {
    forall i, j :: 0 <= i < j < |ks| ==> ks[i] != ks[j]
  }

  lemma KeysConcat(a: seq<Website>, b: seq<Website>)
    ensures Keys(a + b) == Keys(a) + Keys(b)
  {
  }

  /** `Map.prototype.set` on the entries of a Map keyed by WebsiteKey: an
      entry under the same key is overwritten where it stands, otherwise the
      website is appended. */
  function MapSet(entries: seq<Website>, w: Website): (r: seq<Website>)
    ensures w in r
    ensures forall e :: e in r ==> e == w || e in entries
  {
    if entries == [] then [w]
    else if WebsiteKey(entries[0]) == WebsiteKey(w) then [w] + entries[1..]
    else [entries[0]] + MapSet(entries[1..], w)
  }

  /** The keys after `set`: unchanged when w's key is present, otherwise
      w's key is appended at the end. */
  lemma {:induction false} MapSetKeys(entries: seq<Website>, w: Website)
    ensures Keys(MapSet(entries, w)) ==
      if WebsiteKey(w) in Keys(entries) then Keys(entries) else Keys(entries) + [WebsiteKey(w)]
  {
    if entries != [] {
      var e, key := entries[0], WebsiteKey(w);
      var rest := Keys(entries[1..]);
      assert Keys(entries) == [WebsiteKey(e)] + rest by {
        assert entries == [e] + entries[1..];
        KeysConcat([e], entries[1..]);
        assert Keys([e]) == [WebsiteKey(e)];
      }
      if WebsiteKey(e) == key {
        assert Keys(MapSet(entries, w)) == [key] + rest by {
          KeysConcat([w], entries[1..]);
          assert Keys([w]) == [key];
        }
        assert key in Keys(entries);
      } else {
        var tail := MapSet(entries[1..], w);
        assert Keys(MapSet(entries, w)) == [WebsiteKey(e)] + Keys(tail) by {
          KeysConcat([e], tail);
          assert Keys([e]) == [WebsiteKey(e)];
        }
        MapSetKeys(entries[1..], w);
        assert key in Keys(entries) <==> key in rest;
        if key !in rest {
          assert [WebsiteKey(e)] + (rest + [key]) == ([WebsiteKey(e)] + rest) + [key];
        }
      }
    }
  }

  /** When keys are distinct, only the entry under w's key is displaced. */
  lemma {:induction false} MapSetDisplaces(entries: seq<Website>, w: Website)
    requires Distinct(Keys(entries))
    ensures forall e :: e in MapSet(entries, w) ==> e == w || (e in entries && WebsiteKey(e) != WebsiteKey(w))
  {
    if entries != [] && WebsiteKey(entries[0]) != WebsiteKey(w) {
      KeysConcat([entries[0]], entries[1..]);
      assert entries == [entries[0]] + entries[1..];
      MapSetDisplaces(entries[1..], w);
    } else if entries != [] {
      forall e | e in entries[1..] ensures WebsiteKey(e) != WebsiteKey(w) {
        var j :| 0 <= j < |entries[1..]| && entries[1..][j] == e;
        assert Keys(entries)[j + 1] != Keys(entries)[0];
      }
    }
  }

  /** `Array.from(new Map(ws.map(w => [key(w), w])).values())`. */
  function Dedupe(ws: seq<Website>): seq<Website> {
    if ws == [] then [] else MapSet(Dedupe(ws[..|ws| - 1]), ws[|ws| - 1])
  }

  /** Reference definition of the key order of a Map: each key where it
      first occurs, later repeats dropped. */
  function FirstOccurrences(ks: seq<string>): (r: seq<string>)
    ensures forall k :: k in r <==> k in ks
    ensures Distinct(r)
  {
    if ks == [] then []
    else
      var p := FirstOccurrences(ks[..|ks| - 1]);
      assert forall k :: k in ks <==> k in ks[..|ks| - 1] || k == ks[|ks| - 1];
      if ks[|ks| - 1] in p then p else p + [ks[|ks| - 1]]
  }

  /** The de-duplicated list holds each key once, in first-occurrence order. */
  lemma {:induction false} DedupeKeys(ws: seq<Website>)
    ensures Keys(Dedupe(ws)) == FirstOccurrences(Keys(ws))
  {
    if ws != [] {
      var front := ws[..|ws| - 1];
      DedupeKeys(front);
      MapSetKeys(Dedupe(front), ws[|ws| - 1]);
      assert Keys(ws)[..|ws| - 1] == Keys(front);
    }
  }

  /** No two websites of the result share a key, and every input key is there. */
  lemma DedupeUnique(ws: seq<Website>)
    ensures Distinct(Keys(Dedupe(ws)))
    ensures forall w :: w in ws ==> WebsiteKey(w) in Keys(Dedupe(ws))
  {
    DedupeKeys(ws);
    forall w | w in ws ensures WebsiteKey(w) in Keys(ws) {
      var j :| 0 <= j < |ws| && ws[j] == w;
    }
  }

  /** Position i holds the last website of ws with its key. */
  predicate LastOfKey(ws: seq<Website>, i: int) {
    0 <= i < |ws| && forall k :: i < k < |ws| ==> WebsiteKey(ws[k]) != WebsiteKey(ws[i])
  }

  /** A last occurrence in a prefix stays last when the appended website
      has another key. */
  lemma LastOfKeyExtends(ws: seq<Website>, i: int)
    requires ws != [] && LastOfKey(ws[..|ws| - 1], i)
    requires WebsiteKey(ws[i]) != WebsiteKey(ws[|ws| - 1])
    ensures LastOfKey(ws, i)
  {
    var front := ws[..|ws| - 1];
    forall k | i < k < |ws| ensures WebsiteKey(ws[k]) != WebsiteKey(ws[i]) {
      if k < |ws| - 1 {
        assert ws[k] == front[k];
      }
    }
  }

  /** Of several websites under one key, the last one listed wins. */
  lemma {:induction false} DedupeLastWins(ws: seq<Website>)
    ensures forall e :: e in Dedupe(ws) ==> exists i :: LastOfKey(ws, i) && ws[i] == e
  {
    if ws != [] {
      var n := |ws|;
      var front := ws[..n - 1];
      DedupeLastWins(front);
      DedupeUnique(front);
      var prev := Dedupe(front);
      assert Dedupe(ws) == MapSet(prev, ws[n - 1]);
      MapSetDisplaces(prev, ws[n - 1]);
      forall e | e in Dedupe(ws) ensures exists i :: LastOfKey(ws, i) && ws[i] == e {
        if e == ws[n - 1] {
          assert LastOfKey(ws, n - 1);
        } else {
          assert e in prev && WebsiteKey(e) != WebsiteKey(ws[n - 1]);
          var i :| LastOfKey(front, i) && front[i] == e;
          LastOfKeyExtends(ws, i);
          assert ws[i] == e;
        }
      }
    }
  }

  /** The answer to a website listing: the listed data, an error status
      (`!response.ok`), or a rejection (the fetch rejected or the body did
      not parse as JSON). */
  datatype Response<T> = Listed(data: T) | ErrorStatus | Rejected

  /** The websites a listing contributes: its data, or none after an error
      status. */
  function ListedOr(r: Response<seq<Website>>): seq<Website> {
    if r.Listed? then r.data else []
  }

  /** The websites of the team requests, `flat()`tened: a team that answers
      with an error status adds none. */
  function TeamWebsites(responses: seq<Response<seq<Website>>>): seq<Website> {
    if responses == [] then [] else ListedOr(responses[0]) + TeamWebsites(responses[1..])
  }

  /** The team websites are exactly the websites of the teams that listed
      theirs. */
  lemma {:induction false} TeamWebsitesMembers(responses: seq<Response<seq<Website>>>)
    ensures forall w :: w in TeamWebsites(responses) <==>
      exists k :: 0 <= k < |responses| && responses[k].Listed? && w in responses[k].data
  {
    if responses != [] {
      TeamWebsitesMembers(responses[1..]);
      assert forall k :: 1 <= k < |responses| ==> responses[k] == responses[1..][k - 1];
    }
  }

  /** The team websites are the responses' lists concatenated in order. */
  lemma {:induction false} TeamWebsitesConcat(a: seq<Response<seq<Website>>>, b: seq<Response<seq<Website>>>)
    ensures TeamWebsites(a + b) == TeamWebsites(a) + TeamWebsites(b)
  {
    if a == [] {
      assert a + b == b;
    } else {
      var x, rest := a[0], a[1..];
      assert a == [x] + rest && a + b == [x] + (rest + b);
      TeamWebsitesConcat(rest, b);
      TeamWebsitesCons(x, rest + b);
      TeamWebsitesCons(x, rest);
    }
  }

  lemma TeamWebsitesCons(x: Response<seq<Website>>, rest: seq<Response<seq<Website>>>)
    ensures TeamWebsites([x] + rest) == ListedOr(x) + TeamWebsites(rest)
  {
    assert ([x] + rest)[1..] == rest;
  }

  /** One team's request: a listing gives its own list, an error status
      nothing. */
  lemma TeamWebsitesSingle(ws: seq<Website>)
    ensures TeamWebsites([Listed(ws)]) == ws
    ensures TeamWebsites([ErrorStatus]) == []
  {
    assert [Listed(ws)][1..] == [];
    var failed: seq<Response<seq<Website>>> := [ErrorStatus];
    assert failed[1..] == [];
  }

  /** Some team request was rejected: `Promise.all` then rejects. */
  predicate SomeRejected(responses: seq<Response<seq<Website>>>) {
    exists k :: 0 <= k < |responses| && responses[k].Rejected?
  }

  datatype ApiError = NoToken | TeamsFailed | RequestRejected

  /** `fetchUserWebsites`: no token, a rejected personal request (made
      first), a failed team listing and a rejected team request are errors;
      a listing that answers with an error status contributes no websites;
      the personal websites come first and the list is de-duplicated by key. */
  function FetchUserWebsites(hasToken: bool, personal: Response<seq<Website>>,
                             teams: Option<seq<Response<seq<Website>>>>): (r: Result<seq<Website>, ApiError>)
    ensures !hasToken <==> r == Err(NoToken)
    ensures r == Err(RequestRejected) <==>
      hasToken && (personal.Rejected? || (teams.Some? && SomeRejected(teams.value)))
    ensures r == Err(TeamsFailed) <==> hasToken && !personal.Rejected? && teams.None?
    ensures r.Ok? ==> r.value == Dedupe(ListedOr(personal) + TeamWebsites(teams.value))
  {
    if !hasToken then Err(NoToken)
    else if personal.Rejected? then Err(RequestRejected)
    else if teams.None? then Err(TeamsFailed)
    else if SomeRejected(teams.value) then Err(RequestRejected)
    else Ok(Dedupe(ListedOr(personal) + TeamWebsites(teams.value)))
  }

  /** Every website some successful response listed is in the result under
      its key, and a team website replaces a personal one with its key. */
  lemma FetchedWebsitesCovered(personal: Response<seq<Website>>, teams: seq<Response<seq<Website>>>)
    ensures var r := FetchUserWebsites(true, personal, Some(teams));
      r.Ok? <==> !personal.Rejected? && forall k :: 0 <= k < |teams| ==> !teams[k].Rejected?
    ensures var r := FetchUserWebsites(true, personal, Some(teams));
      r.Ok? ==>
      && Distinct(Keys(r.value))
      && (personal.Listed? ==> forall w :: w in personal.data ==> WebsiteKey(w) in Keys(r.value))
      && (forall k, w :: 0 <= k < |teams| && teams[k].Listed? && w in teams[k].data ==> WebsiteKey(w) in Keys(r.value))
  {
    var all := ListedOr(personal) + TeamWebsites(teams);
    TeamWebsitesMembers(teams);
    DedupeUnique(all);
  }

  /** A stats payload: each metric's `value`, None where the payload leaves
      it out. */
  datatype Stats = Stats(
    pageviews: Option<int>,
    visits: Option<int>,
    visitors: Option<int>,
    bounces: Option<int>,
    totaltime: Option<int>)

  const NoStats := Stats(None, None, None, None, None)

  /** `stats.<metric>?.value || 0` */
  function ValueOr0(v: Option<int>): int {
    v.GetOr(0)
  }

  /** `calculateChange` in tenths of a percent: with no previous value, 100%
      for any growth and 0 otherwise; else the relative change rounded to the
      nearest tenth of a percent. */
  function CalculateChange(current: int, previous: int): (r: int)
    ensures previous == 0 ==> r == (if current > 0 then 1000 else 0)
    ensures previous > 0 ==> (2 * r - 1) * previous <= 2000 * (current - previous) < (2 * r + 1) * previous
  {
    if previous == 0 then (if current > 0 then 1000 else 0)
    else RoundDiv((current - previous) * 1000, previous)
  }

  /** No change reads as 0.0%, and the change grows with the current value. */
  lemma ChangeMonotone(c1: int, c2: int, previous: int)
    requires previous > 0 && c1 <= c2
    ensures CalculateChange(previous, previous) == 0
    ensures CalculateChange(c1, previous) <= CalculateChange(c2, previous)
  {
    RoundDivExact(0, previous);
    RoundDivMonotone((c1 - previous) * 1000, (c2 - previous) * 1000, previous);
  }

  /** A count cannot fall by more than 100%. */
  lemma ChangeAtLeastMinus100(current: int, previous: int)
    requires current >= 0 && previous > 0
    ensures CalculateChange(current, previous) >= -1000
  {
    RoundDivExact(-1000, previous);
    RoundDivMonotone(-1000 * previous, (current - previous) * 1000, previous);
  }

  /** A current value exactly t tenths of a percent above the previous one
      yields the change t. */
  lemma ChangeExact(current: int, previous: int, t: int)
    requires previous > 0 && current * 1000 == previous * (1000 + t)
    ensures CalculateChange(current, previous) == t
  {
    assert (current - previous) * 1000 == t * previous;
    RoundDivExact(t, previous);
  }

  /** `Math.round(totaltime / visits)`, or 0 without visits. */
  function AverageTime(totaltime: int, visits: int): (r: int)
    ensures visits <= 0 ==> r == 0
    ensures visits > 0 ==> (2 * r - 1) * visits <= 2 * totaltime < (2 * r + 1) * visits
  {
    if visits > 0 then RoundDiv(totaltime, visits) else 0
  }

  function Metric(current: int, previous: int): MetricValue {
    MetricValue(current, previous, CalculateChange(current, previous))
  }

  /** `website.domain || website.name` */
  function DisplayDomain(w: Website): string {
    if w.domain != "" then w.domain else w.name
  }

  function Favicon(w: Website): (r: Option<string>)
    ensures r.Some? <==> w.domain != ""
  {
    if w.domain != "" then Some("https://www.google.com/s2/favicons?domain=" + w.domain + "&sz=32") else None
  }

  /** Every metric's change is the change between its own current and
      previous values. */
  ghost predicate ChangesConsistent(d: DomainMetrics) {
    forall m :: MetricOf(d, m).change == CalculateChange(MetricOf(d, m).current, MetricOf(d, m).previous)
  }

  /** `convertStatsToMetrics` */
  function ConvertStatsToMetrics(w: Website, current: Stats, previous: Stats,
                                 timeSeries: seq<TimeSeriesPoint>): (d: DomainMetrics)
    ensures d.id == w.id && d.name == w.name && d.domain == DisplayDomain(w) && d.favicon == Favicon(w)
    ensures ChangesConsistent(d)
    ensures d.pageviews.current == ValueOr0(current.pageviews) && d.pageviews.previous == ValueOr0(previous.pageviews)
    ensures d.visits.current == ValueOr0(current.visits) && d.visits.previous == ValueOr0(previous.visits)
    ensures d.visitors.current == ValueOr0(current.visitors) && d.visitors.previous == ValueOr0(previous.visitors)
    ensures d.bounces.current == ValueOr0(current.bounces) && d.bounces.previous == ValueOr0(previous.bounces)
    ensures d.avgTime.current == AverageTime(ValueOr0(current.totaltime), d.visits.current)
    ensures d.avgTime.previous == AverageTime(ValueOr0(previous.totaltime), d.visits.previous)
    ensures d.timeSeries == timeSeries && !d.isFavorite && d.tags == [] && d.realtimeVisitors == 0
  {
    var visits := ValueOr0(current.visits);
    var visitsBefore := ValueOr0(previous.visits);
    DomainMetrics(
      w.id, DisplayDomain(w), w.name, Favicon(w),
      Metric(ValueOr0(current.pageviews), ValueOr0(previous.pageviews)),
      Metric(visits, visitsBefore),
      Metric(ValueOr0(current.visitors), ValueOr0(previous.visitors)),
      Metric(ValueOr0(current.bounces), ValueOr0(previous.bounces)),
      Metric(AverageTime(ValueOr0(current.totaltime), visits),
             AverageTime(ValueOr0(previous.totaltime), visitsBefore)),
      timeSeries, false, [], 0)
  }

  /** The minimal record returned for a website whose requests failed. */
  function ErrorRecord(w: Website): (d: DomainMetrics)
    ensures d.id == w.id && d.domain == DisplayDomain(w) && d.favicon == Favicon(w)
    ensures forall m :: MetricOf(d, m) == MetricValue(0, 0, 0)
    ensures d.timeSeries == [] && d.tags == [] && !d.isFavorite
  {
    var zero := MetricValue(0, 0, 0);
    DomainMetrics(w.id, DisplayDomain(w), w.name, Favicon(w),
                  zero, zero, zero, zero, zero, [], false, [], 0)
  }

  /** The error record is exactly what converting two empty payloads gives. */
  lemma ErrorRecordIsEmptyConversion(w: Website)
    ensures ErrorRecord(w) == ConvertStatsToMetrics(w, NoStats, NoStats, [])
  {
  }

  /** One item of the pageviews payload: a label `t`, a date `x` and a count `y`. */
  datatype PageviewItem = PageviewItem(t: string, x: string, y: Option<int>)

  /** The pageviews payload: absent, a non-array `pageviews` field, or an array. */
  datatype PageviewsPayload = Missing | NotArray | Items(items: seq<PageviewItem>)

  function PointOf(item: PageviewItem): TimeSeriesPoint {
    TimeSeriesPoint(if item.t != "" then item.t else item.x, ValueOr0(item.y), 0, 0, 0, 0)
  }

  /** `convertPageviewsToTimeSeries`: one point per item, carrying only the
      pageview count; anything but an array gives the empty series. */
  function ConvertPageviewsToTimeSeries(payload: PageviewsPayload): (r: seq<TimeSeriesPoint>)
    ensures !payload.Items? ==> r == []
    ensures payload.Items? ==> |r| == |payload.items|
    ensures payload.Items? ==> forall k :: 0 <= k < |r| ==> r[k] == PointOf(payload.items[k])
  {
    match payload
    case Items(items) => seq(|items|, k requires 0 <= k < |items| => PointOf(items[k]))
    case _ => []
  }

  /** The series' pageviews add up to the payload's counts; its other
      columns add up to zero. */
  lemma {:induction false} SeriesTotals(items: seq<PageviewItem>)
    ensures var s := ConvertPageviewsToTimeSeries(Items(items));
      && Sum(s, (p: TimeSeriesPoint) => p.pageviews) == Sum(items, (i: PageviewItem) => ValueOr0(i.y))
      && Sum(s, (p: TimeSeriesPoint) => p.visits) == 0
  {
    if items != [] {
      var front := items[..|items| - 1];
      SeriesTotals(front);
      var s := ConvertPageviewsToTimeSeries(Items(items));
      assert s[..|s| - 1] == ConvertPageviewsToTimeSeries(Items(front));
    }
  }

  const DayMs := 24 * 60 * 60 * 1000

  /** A request window in milliseconds since the epoch. */
  datatype Window = Window(startAt: int, endAt: int)

  datatype Unit = Hour | Day

  /** The current window ends now and spans `days` days; the previous window
      is as long and ends where the current one starts. */
  function Windows(now: int, days: int): (w: (Window, Window))
    ensures w.0.endAt == now && w.0.endAt - w.0.startAt == days * 86400000
    ensures w.1.endAt == w.0.startAt && w.1.endAt - w.1.startAt == w.0.endAt - w.0.startAt
  {
    var start := now - days * DayMs;
    (Window(start, now), Window(start - days * DayMs, start))
  }

  /** Ranges of up to two days are read by the hour, longer ones by the day. */
  function SeriesUnit(days: int): (u: Unit)
    ensures u == Hour <==> days <= 2
  {
    if days <= 2 then Hour else Day
  }

  /** What the three requests about one website sent and answered. */
  datatype SiteRequest = SiteRequest(website: Website, current: Window, previous: Window, unit: Unit)
  datatype SiteResponses = SiteResponses(current: Option<Stats>, previous: Option<Stats>, pageviews: Option<PageviewsPayload>)

  /** One website's record: its conversion when all three requests succeed,
      the error record otherwise. */
  function DomainData(w: Website, responses: SiteResponses): (d: DomainMetrics)
    ensures responses.current.None? || responses.previous.None? || responses.pageviews.None? ==> d == ErrorRecord(w)
    ensures responses.current.Some? && responses.previous.Some? && responses.pageviews.Some? ==>
      d == ConvertStatsToMetrics(w, responses.current.value, responses.previous.value,
                                 ConvertPageviewsToTimeSeries(responses.pageviews.value))
  {
    match (responses.current, responses.previous, responses.pageviews)
    case (Some(c), Some(p), Some(pv)) => ConvertStatsToMetrics(w, c, p, ConvertPageviewsToTimeSeries(pv))
    case _ => ErrorRecord(w)
  }

  function SumCurrent(domains: seq<DomainMetrics>, m: MetricType): int {
    Sum(domains, (d: DomainMetrics) => MetricOf(d, m).current)
  }

  /** The totals of the real-data dashboard: summed counts, bounces over
      visits as a percentage, the rounded mean of the average times, and no
      realtime total or merged series. */
  function ApiTotals(domains: seq<DomainMetrics>): (t: AggregatedMetrics)
    ensures t.pageviews == SumCurrent(domains, Pageviews)
    ensures t.visits == SumCurrent(domains, Visits)
    ensures t.visitors == SumCurrent(domains, Visitors)
    ensures t.bounceRate * (Max(t.visits, 1) as real) == (SumCurrent(domains, Bounces) as real) * 100.0
    ensures t.avgTime == RoundDiv(SumCurrent(domains, AvgTime), Max(|domains|, 1))
    ensures t.realtimeTotal == 0 && t.timeSeries == []
  {
    var visits := SumCurrent(domains, Visits);
    AggregatedMetrics(
      SumCurrent(domains, Pageviews),
      visits,
      SumCurrent(domains, Visitors),
      (SumCurrent(domains, Bounces) as real) / (Max(visits, 1) as real) * 100.0,
      RoundDiv(SumCurrent(domains, AvgTime), Max(|domains|, 1)),
      0,
      [])
  }

  /** No websites, no traffic: all totals are zero. */
  lemma TotalsOfNothing()
    ensures ApiTotals([]) == AggregatedMetrics(0, 0, 0, 0.0, 0, 0, [])
  {
    RoundDivExact(0, 1);
  }

  lemma RatioIsPercentage(part: int, whole: int)
    requires 0 <= part <= whole && whole >= 1
    ensures 0.0 <= (part as real) / (whole as real) * 100.0 <= 100.0
  {
    var q := (part as real) / (whole as real);
    assert q * (whole as real) == part as real;
  }

  /** With no domain bouncing more than it is visited, the total bounce
      rate is a percentage. */
  lemma TotalBounceRateIsPercentage(domains: seq<DomainMetrics>)
    requires forall d :: d in domains ==> 0 <= d.bounces.current <= d.visits.current
    ensures 0.0 <= ApiTotals(domains).bounceRate <= 100.0
  {
    var bounces, visits := SumCurrent(domains, Bounces), SumCurrent(domains, Visits);
    SumNonNegative(domains, (d: DomainMetrics) => MetricOf(d, Bounces).current);
    SumMonotone(domains, (d: DomainMetrics) => MetricOf(d, Bounces).current,
                (d: DomainMetrics) => MetricOf(d, Visits).current);
    RatioIsPercentage(bounces, Max(visits, 1));
  }

  /** The total average time lies between 0 and the largest average time. */
  lemma TotalAvgTimeWithin(domains: seq<DomainMetrics>, most: int)
    requires forall d :: d in domains ==> 0 <= d.avgTime.current <= most
    ensures 0 <= ApiTotals(domains).avgTime
    ensures domains != [] ==> ApiTotals(domains).avgTime <= most
  {
    MeanAvgTimeWithin(domains, most);
  }

  /** The rounded mean of the average times lies between 0 and the largest. */
  lemma MeanAvgTimeWithin(domains: seq<DomainMetrics>, most: int)
    requires forall d :: d in domains ==> 0 <= d.avgTime.current <= most
    ensures var mean := RoundDiv(SumCurrent(domains, AvgTime), Max(|domains|, 1));
      0 <= mean && (domains != [] ==> mean <= most)
  {
    var total := SumCurrent(domains, AvgTime);
    SumNonNegative(domains, (d: DomainMetrics) => MetricOf(d, AvgTime).current);
    if domains == [] {
      RoundDivExact(0, 1);
    } else {
      SumAtMost(domains, (d: DomainMetrics) => MetricOf(d, AvgTime).current, most);
      RoundedMeanWithin(total, |domains|, 0, most);
    }
  }

  /** `fetchDashboardData(days)`: a failure to list the websites fails the
      whole load; otherwise one record per website, in order, each built from
      the answers to its requests, and the totals over them. No tags are
      offered. */
  function FetchDashboardData(days: int, now: int, websites: Result<seq<Website>, ApiError>,
                              fetch: SiteRequest -> SiteResponses): (r: Result<DashboardData, ApiError>)
    ensures websites.Err? ==> r == Err(websites.error)
    ensures websites.Ok? ==> r.Ok? && |r.value.domains| == |websites.value|
    ensures websites.Ok? ==> forall k :: 0 <= k < |websites.value| ==>
      r.value.domains[k] == DomainData(websites.value[k], fetch(Request(websites.value[k], days, now)))
    ensures r.Ok? ==> r.value.totals == ApiTotals(r.value.domains) && r.value.availableTags == []
  {
    match websites
    case Err(e) => Err(e)
    case Ok(ws) =>
      var domains := seq(|ws|, k requires 0 <= k < |ws| => DomainData(ws[k], fetch(Request(ws[k], days, now))));
      Ok(DashboardData(domains, ApiTotals(domains), []))
  }

  /** The requests sent about one website. */
  function Request(w: Website, days: int, now: int): (q: SiteRequest)
    ensures q.website == w && (q.current, q.previous) == Windows(now, days) && q.unit == SeriesUnit(days)
  {
    var windows := Windows(now, days);
    SiteRequest(w, windows.0, windows.1, SeriesUnit(days))
  }
}
