/** The domain-list pipeline of the dashboard and its small formatters
    (src/lib/custom/utils.ts): search filter, tag filter, the five sort
    orders, the favourites split, the time and change formatters, the bounce
    rate, the date-range lengths and the rows of the CSV export. */
module Utils {
  import opened Wrappers
  import opened JsMath
  import opened Seqs
  import opened Strings
  import opened Sorting
  import opened Types
  import Csv

  // ---------------------------------------------------------------------
  // Sorting

  /** The comparator each sort option hands to `Array.prototype.sort`.
      `collate` stands for `String.prototype.localeCompare`. */
  function Comparator(o: SortOption, collate: (string, string) -> int): (DomainMetrics, DomainMetrics) -> int {
    match o
    case NameAsc => (a: DomainMetrics, b: DomainMetrics) => collate(a.name, b.name)
    case NameDesc => (a: DomainMetrics, b: DomainMetrics) => collate(b.name, a.name)
    case VisitorsDesc => (a: DomainMetrics, b: DomainMetrics) => b.visitors.current - a.visitors.current
    case VisitorsAsc => (a: DomainMetrics, b: DomainMetrics) => a.visitors.current - b.visitors.current
    case PageviewsDesc => (a: DomainMetrics, b: DomainMetrics) => b.pageviews.current - a.pageviews.current
  }

  /** Every comparator is consistent when the collation is. */
  lemma ComparatorConsistent(o: SortOption, collate: (string, string) -> int)
    requires Consistent(collate)
    ensures Consistent(Comparator(o, collate))
  {
    var cmp := Comparator(o, collate);
    forall a: DomainMetrics, b: DomainMetrics ensures cmp(a, b) > 0 <==> cmp(b, a) < 0 {
      if o.NameAsc? {
        Flip(collate, a.name, b.name);
      } else if o.NameDesc? {
        Flip(collate, b.name, a.name);
      }
    }
    forall a: DomainMetrics, b: DomainMetrics, c: DomainMetrics | cmp(a, b) <= 0 && cmp(b, c) <= 0
      ensures cmp(a, c) <= 0
    {
      if o.NameAsc? {
        Trans(collate, a.name, b.name, c.name);
      } else if o.NameDesc? {
        Trans(collate, c.name, b.name, a.name);
      }
    }
  }

  /** What `sortDomains` returns: a stably sorted copy for a known sort key,
      the copy in input order for any other key. */
  function SortedDomains(domains: seq<DomainMetrics>, sortBy: string, collate: (string, string) -> int): seq<DomainMetrics> {
    match ParseSortOption(sortBy)
    case None => domains
    case Some(o) => StableSort(domains, Comparator(o, collate))
  }

  /** `sortDomains`: copies the list into a fresh array and sorts the copy in
      place; the caller's sequence is a value and cannot change. */
  method SortDomains(domains: seq<DomainMetrics>, sortBy: string, collate: (string, string) -> int)
    returns (sorted: seq<DomainMetrics>)
    ensures sorted == SortedDomains(domains, sortBy, collate)
    ensures multiset(sorted) == multiset(domains)
  {
    var copy := new DomainMetrics[|domains|](i requires 0 <= i < |domains| => domains[i]);
    assert copy[..] == domains;
    match ParseSortOption(sortBy) {
      case None =>
      case Some(o) =>
        SortInPlace(copy, Comparator(o, collate));
        StableSortPermutes(domains, Comparator(o, collate));
    }
    sorted := copy[..];
  }

  /** Sorting returns a permutation of its input. */
  lemma SortedDomainsPermutes(domains: seq<DomainMetrics>, sortBy: string, collate: (string, string) -> int)
    ensures multiset(SortedDomains(domains, sortBy, collate)) == multiset(domains)
    ensures |SortedDomains(domains, sortBy, collate)| == |domains|
  {
    if ParseSortOption(sortBy).Some? {
      StableSortPermutes(domains, Comparator(ParseSortOption(sortBy).value, collate));
    }
  }

  /** A key that names no sort option leaves the order alone. */
  lemma UnknownSortKeepsOrder(domains: seq<DomainMetrics>, sortBy: string, collate: (string, string) -> int)
    requires forall o :: SortOptionKey(o) != sortBy
    ensures SortedDomains(domains, sortBy, collate) == domains
  {
  }

  lemma SortedDomainsByKey(domains: seq<DomainMetrics>, o: SortOption, collate: (string, string) -> int)
    ensures SortedDomains(domains, SortOptionKey(o), collate) == StableSort(domains, Comparator(o, collate))
  {
    SortOptionKeyParses(o);
  }

  lemma {:induction false} SortedByOption(domains: seq<DomainMetrics>, o: SortOption, collate: (string, string) -> int)
    requires Consistent(collate)
    ensures SortedBy(SortedDomains(domains, SortOptionKey(o), collate), Comparator(o, collate))
  {
    SortedDomainsByKey(domains, o, collate);
    ComparatorConsistent(o, collate);
    StableSortSorted(domains, Comparator(o, collate));
  }

  /** `visitors_desc`: visitor counts never increase along the result. */
  lemma SortVisitorsDesc(domains: seq<DomainMetrics>, collate: (string, string) -> int)
    requires Consistent(collate)
    ensures var r := SortedDomains(domains, "visitors_desc", collate);
      forall i, j :: 0 <= i < j < |r| ==> r[i].visitors.current >= r[j].visitors.current
  {
    SortedByOption(domains, VisitorsDesc, collate);
  }

  /** `visitors_asc`: visitor counts never decrease along the result. */
  lemma SortVisitorsAsc(domains: seq<DomainMetrics>, collate: (string, string) -> int)
    requires Consistent(collate)
    ensures var r := SortedDomains(domains, "visitors_asc", collate);
      forall i, j :: 0 <= i < j < |r| ==> r[i].visitors.current <= r[j].visitors.current
  {
    SortedByOption(domains, VisitorsAsc, collate);
  }

  /** `pageviews_desc`: pageview counts never increase along the result. */
  lemma SortPageviewsDesc(domains: seq<DomainMetrics>, collate: (string, string) -> int)
    requires Consistent(collate)
    ensures var r := SortedDomains(domains, "pageviews_desc", collate);
      forall i, j :: 0 <= i < j < |r| ==> r[i].pageviews.current >= r[j].pageviews.current
  {
    SortedByOption(domains, PageviewsDesc, collate);
  }

  /** `name_asc` / `name_desc`: names in collation order, or its reverse. */
  lemma SortByName(domains: seq<DomainMetrics>, collate: (string, string) -> int)
    requires Consistent(collate)
    ensures var r := SortedDomains(domains, "name_asc", collate);
      forall i, j :: 0 <= i < j < |r| ==> collate(r[i].name, r[j].name) <= 0
    ensures var r := SortedDomains(domains, "name_desc", collate);
      forall i, j :: 0 <= i < j < |r| ==> collate(r[j].name, r[i].name) <= 0
  {
    SortedByOption(domains, NameAsc, collate);
    SortedByOption(domains, NameDesc, collate);
  }

  /** Stability: domains the comparator ties keep their input order. */
  lemma SortIsStable(domains: seq<DomainMetrics>, o: SortOption, collate: (string, string) -> int, x: DomainMetrics)
    requires Consistent(collate)
    ensures TiesWith(SortedDomains(domains, SortOptionKey(o), collate), x, Comparator(o, collate))
         == TiesWith(domains, x, Comparator(o, collate))
  {
    SortedDomainsByKey(domains, o, collate);
    ComparatorConsistent(o, collate);
    StableSortKeepsTies(domains, x, Comparator(o, collate));
  }

  predicate HasVisitors(d: DomainMetrics, v: int) {
    d.visitors.current == v
  }

  /** Under either visitor order, the domains with a given visitor count
      appear in the same order as in the input. */
  lemma VisitorTiesKeepOrder(domains: seq<DomainMetrics>, o: SortOption, collate: (string, string) -> int, v: int)
    requires Consistent(collate) && (o == VisitorsDesc || o == VisitorsAsc)
    ensures Filter(SortedDomains(domains, SortOptionKey(o), collate), d => HasVisitors(d, v))
         == Filter(domains, d => HasVisitors(d, v))
  {
    var zero := MetricValue(0, 0, 0);
    var x := DomainMetrics("", "", "", None, zero, zero, MetricValue(v, 0, 0), zero, zero, [], false, [], 0);
    var cmp := Comparator(o, collate);
    var p := (d: DomainMetrics) => HasVisitors(d, v);
    SortIsStable(domains, o, collate, x);
    TiesWithFilter(domains, x, cmp, p);
    TiesWithFilter(SortedDomains(domains, SortOptionKey(o), collate), x, cmp, p);
  }

  // ---------------------------------------------------------------------
  // Filters

  /** The search predicate: the lower-cased domain or name contains the
      already lower-cased query. */
  predicate MatchesSearch(d: DomainMetrics, lowerQuery: string) {
    Contains(ToLower(d.domain), lowerQuery) || Contains(ToLower(d.name), lowerQuery)
  }

  /** `filterDomainsBySearch`: a blank query returns the list itself;
      otherwise the domains matching the lower-cased (untrimmed) query, in
      order. */
  function FilterDomainsBySearch(domains: seq<DomainMetrics>, query: string): (r: seq<DomainMetrics>)
    ensures AllWhitespace(query) ==> r == domains
    ensures !AllWhitespace(query) ==> KeepsExactly(r, domains, d => MatchesSearch(d, ToLower(query)))
  {
    if Trim(query) == "" then domains
    else
      var lowerQuery := ToLower(query);
      FilterKeepsExactly(domains, d => MatchesSearch(d, lowerQuery));
      Filter(domains, d => MatchesSearch(d, lowerQuery))
  }

  /** `selectedTags.some(tag => tags.includes(tag))` */
  predicate SharesTag(tags: seq<string>, selected: seq<string>) {
    exists i :: 0 <= i < |selected| && selected[i] in tags
  }

  function AnySelected(selected: seq<string>, tags: seq<string>): (b: bool)
    ensures b <==> SharesTag(tags, selected)
  {
    if selected == [] then false
    else if selected[0] in tags then true
    else
      var b := AnySelected(selected[1..], tags);
      assert b ==> SharesTag(tags, selected) by {
        if b {
          var i :| 0 <= i < |selected[1..]| && selected[1..][i] in tags;
          assert selected[i + 1] in tags;
        }
      }
      assert SharesTag(tags, selected) ==> b by {
        if SharesTag(tags, selected) {
          var i :| 0 <= i < |selected| && selected[i] in tags;
          assert selected[1..][i - 1] == selected[i];
        }
      }
      b
  }

  /** `filterDomainsByTags`: no selection returns the list itself; otherwise
      the domains carrying at least one selected tag, in order. */
  function FilterDomainsByTags(domains: seq<DomainMetrics>, selectedTags: seq<string>): (r: seq<DomainMetrics>)
    ensures selectedTags == [] ==> r == domains
    ensures selectedTags != [] ==> KeepsExactly(r, domains, (d: DomainMetrics) => SharesTag(d.tags, selectedTags))
  {
    if |selectedTags| == 0 then domains
    else
      FilterKeepsExactly(domains, (d: DomainMetrics) => AnySelected(selectedTags, d.tags));
      Filter(domains, (d: DomainMetrics) => AnySelected(selectedTags, d.tags))
  }

  predicate IsFavorite(d: DomainMetrics) {
    d.isFavorite
  }

  predicate IsRegular(d: DomainMetrics) {
    !d.isFavorite
  }

  /** `separateFavorites`: the favourites and the other domains, each in input
      order; together they are the input. */
  function SeparateFavorites(domains: seq<DomainMetrics>): (r: (seq<DomainMetrics>, seq<DomainMetrics>))
    ensures KeepsExactly(r.0, domains, IsFavorite)
    ensures KeepsExactly(r.1, domains, IsRegular)
    ensures |r.0| + |r.1| == |domains|
    ensures multiset(r.0) + multiset(r.1) == multiset(domains)
  {
    FilterKeepsExactly(domains, IsFavorite);
    FilterKeepsExactly(domains, IsRegular);
    FilterSplit(domains, IsFavorite, IsRegular);
    (Filter(domains, IsFavorite), Filter(domains, IsRegular))
  }

  /** The combined condition of the two filters. */
  predicate PassesFilters(d: DomainMetrics, searchQuery: string, selectedTags: seq<string>) {
    && (AllWhitespace(searchQuery) || MatchesSearch(d, ToLower(searchQuery)))
    && (selectedTags == [] || SharesTag(d.tags, selectedTags))
  }

  /** `applyFiltersAndSort`: search filter, then tag filter, then sort. The
      result holds each input domain that passes both filters as often as the
      input does, and nothing else. */
  method ApplyFiltersAndSort(domains: seq<DomainMetrics>, searchQuery: string, selectedTags: seq<string>,
                             sortBy: string, collate: (string, string) -> int)
    returns (r: seq<DomainMetrics>)
    ensures r == SortedDomains(FilterDomainsByTags(FilterDomainsBySearch(domains, searchQuery), selectedTags), sortBy, collate)
    ensures forall x :: multiset(r)[x] == if PassesFilters(x, searchQuery, selectedTags) then multiset(domains)[x] else 0
  {
    var filtered := domains;
    filtered := FilterDomainsBySearch(filtered, searchQuery);
    var bySearch := filtered;
    filtered := FilterDomainsByTags(filtered, selectedTags);
    r := SortDomains(filtered, sortBy, collate);
    forall x ensures multiset(r)[x] == if PassesFilters(x, searchQuery, selectedTags) then multiset(domains)[x] else 0 {
      assert multiset(bySearch)[x] == if AllWhitespace(searchQuery) || MatchesSearch(x, ToLower(searchQuery)) then multiset(domains)[x] else 0;
      assert multiset(filtered)[x] == if selectedTags == [] || SharesTag(x.tags, selectedTags) then multiset(bySearch)[x] else 0;
    }
  }

  // ---------------------------------------------------------------------
  // Formatters

  /** `formatTime` of utils.ts: "Ns" under a minute, "Mm" on whole minutes,
      "Mm Ss" otherwise. */
  function FormatTime(seconds: int): string {
    if seconds < 60 then IntToString(seconds) + "s"
    else
      var minutes := FloorDiv(seconds, 60);
      var remaining := TruncMod(seconds, 60);
      if remaining == 0 then NatToString(minutes) + "m"
      else NatToString(minutes) + "m " + NatToString(remaining) + "s"
  }

  /** Reads a duration written by FormatTime back into seconds. */
  function ParseDuration(text: string): Option<int> {
    if |text| >= 1 && text[|text| - 1] == 's' then
      var body := text[..|text| - 1];
      match CharIndex(body, 'm')
      case None => ParseInt(body)
      case Some(i) =>
        if i + 1 < |body| && body[i + 1] == ' ' then
          match (ParseNat(body[..i]), ParseNat(body[i + 2..]))
          case (Some(m), Some(s)) => Some(m * 60 + s)
          case _ => None
        else None
    else if |text| >= 1 && text[|text| - 1] == 'm' then
      match ParseNat(text[..|text| - 1])
      case Some(m) => Some(m * 60)
      case None => None
    else None
  }

  /** FormatTime loses nothing: its text reads back as the same number of
      seconds. */
  lemma FormatTimeParses(seconds: int)
    ensures ParseDuration(FormatTime(seconds)) == Some(seconds)
  {
    if seconds < 60 {
      SecondsParse(seconds);
    } else if TruncMod(seconds, 60) == 0 {
      WholeMinutesParse(seconds);
    } else {
      MinutesAndSecondsParse(seconds);
    }
  }

  lemma SecondsParse(seconds: int)
    requires seconds < 60
    ensures ParseDuration(FormatTime(seconds)) == Some(seconds)
  {
    var text := FormatTime(seconds);
    var n := IntToString(seconds);
    assert text[..|text| - 1] == n;
    IntToStringChars(seconds, 'm');
    IntToStringParses(seconds);
  }

  lemma WholeMinutesParse(seconds: int)
    requires seconds >= 60 && TruncMod(seconds, 60) == 0
    ensures ParseDuration(FormatTime(seconds)) == Some(seconds)
  {
    var text := FormatTime(seconds);
    var minutes := FloorDiv(seconds, 60);
    NatToStringParses(minutes);
    assert text[..|text| - 1] == NatToString(minutes);
  }

  lemma MinutesAndSecondsParse(seconds: int)
    requires seconds >= 60 && TruncMod(seconds, 60) != 0
    ensures ParseDuration(FormatTime(seconds)) == Some(seconds)
  {
    var text := FormatTime(seconds);
    var minutes := FloorDiv(seconds, 60);
    var remaining := TruncMod(seconds, 60);
    var m := NatToString(minutes);
    var s := NatToString(remaining);
    NatToStringParses(minutes);
    NatToStringParses(remaining);
    var body := text[..|text| - 1];
    assert body == m + ['m'] + (" " + s);
    IntToStringChars(minutes, 'm');
    CharIndexAfter(m, 'm', " " + s);
    assert body[..|m|] == m;
    assert body[|m| + 2..] == s;
  }

  /** The examples of the formatter's documentation and tests. */
  lemma FormatTimeExamples()
    ensures FormatTime(45) == "45s"
    ensures FormatTime(65) == "1m 5s"
    ensures FormatTime(120) == "2m"
  {
    assert NatToString(45) == NatToString(4) + [DigitChar(5)];
  }

  /** `getChangeColorClass` */
  function ChangeColorClass(change: int): string {
    if change > 0 then "positive" else if change < 0 then "negative" else "neutral"
  }

  /** `getChangeArrow` */
  function ChangeArrow(change: int): string {
    if change > 0 then "\U{2191}" else if change < 0 then "\U{2193}" else "\U{2192}"
  }

  /** `Math.abs(x).toFixed(1)` for a value held as tenths. */
  function FormatTenths(tenths: nat): string {
    NatToString(tenths / 10) + "." + [DigitChar(tenths % 10)]
  }

  /** `formatChange`: sign, one decimal, percent sign. The change is in tenths
      of a percent. */
  function FormatChange(change: int): string {
    var sign := if change > 0 then "+" else if change < 0 then "-" else "";
    sign + FormatTenths(if change < 0 then -change else change) + "%"
  }

  /** The colour, the arrow and the sign of the formatted change always agree. */
  lemma ChangeIndicatorsAgree(change: int)
    ensures ChangeColorClass(change) == "positive" <==> ChangeArrow(change) == "\U{2191}"
    ensures ChangeColorClass(change) == "positive" <==> FormatChange(change)[0] == '+'
    ensures ChangeColorClass(change) == "negative" <==> ChangeArrow(change) == "\U{2193}"
    ensures ChangeColorClass(change) == "negative" <==> FormatChange(change)[0] == '-'
    ensures ChangeColorClass(change) == "neutral" <==> FormatChange(change) == "0.0%"
  {
    var a := if change < 0 then -change else change;
    assert FormatTenths(a)[0] == NatToString(a / 10)[0];
    if change == 0 {
      assert FormatTenths(0) == "0.0";
    }
  }

  function ParseTenths(text: string): Option<nat> {
    if |text| >= 3 && text[|text| - 2] == '.' && IsDigit(text[|text| - 1]) then
      match ParseNat(text[..|text| - 2])
      case None => None
      case Some(n) => Some(n * 10 + DigitValue(text[|text| - 1]))
    else None
  }

  /** Reads a formatted change back into tenths of a percent. */
  function ParseChange(text: string): Option<int> {
    if |text| >= 1 && text[|text| - 1] == '%' then
      var body := text[..|text| - 1];
      if |body| >= 1 && body[0] == '+' then
        match ParseTenths(body[1..]) case None => None case Some(t) => Some(t as int)
      else if |body| >= 1 && body[0] == '-' then
        match ParseTenths(body[1..]) case None => None case Some(t) => Some(-(t as int))
      else
        match ParseTenths(body) case None => None case Some(t) => Some(t as int)
    else None
  }

  lemma FormatTenthsParses(t: nat)
    ensures ParseTenths(FormatTenths(t)) == Some(t)
  {
    var text := FormatTenths(t);
    NatToStringParses(t / 10);
    assert text[..|text| - 2] == NatToString(t / 10);
  }

  /** FormatChange keeps the exact change: its text reads back to it. */
  lemma FormatChangeParses(change: int)
    ensures ParseChange(FormatChange(change)) == Some(change)
  {
    var a := if change < 0 then -change else change;
    var text := FormatChange(change);
    FormatTenthsParses(a);
    var body := text[..|text| - 1];
    if change > 0 {
      assert body == "+" + FormatTenths(a) && body[1..] == FormatTenths(a);
    } else if change < 0 {
      assert body == "-" + FormatTenths(a) && body[1..] == FormatTenths(a);
    } else {
      assert body == FormatTenths(0);
      assert body[0] == '0';
    }
  }

  /** `calculateBounceRate`: bounces per visit as a whole percentage, the
      exact quotient rounded half up; zero when there are no visits. */
  function CalculateBounceRate(bounces: int, visits: int): (r: int)
    ensures visits == 0 ==> r == 0
    ensures visits > 0 ==> (2 * r - 1) * visits <= 200 * bounces < (2 * r + 1) * visits
  {
    if visits == 0 then 0 else RoundDiv(bounces * 100, visits)
  }

  /** With no more bounces than visits the rate is a percentage. */
  lemma BounceRateIsPercentage(bounces: int, visits: int)
    requires 0 <= bounces <= visits
    ensures 0 <= CalculateBounceRate(bounces, visits) <= 100
  {
    if visits > 0 {
      RoundDivExact(0, visits);
      RoundDivExact(100, visits);
      RoundDivMonotone(0, bounces * 100, visits);
      RoundDivMonotone(bounces * 100, 100 * visits, visits);
    }
  }

  /** `getDateRangeDays` */
  function DateRangeDays(range: DateRange): (days: int)
    ensures days == 7 <==> range == Last7Days
    ensures days == 90 <==> range == Last90Days
    ensures days == 28 <==> range == Last28Days || range == Custom
  {
    match range
    case Last7Days => 7
    case Last28Days => 28
    case Last90Days => 90
    case Custom => 28
  }

  // ---------------------------------------------------------------------
  // CSV export of utils.ts

  const ExportHeaders: seq<string> :=
    ["Domain", "Name", "Pageviews", "Visits", "Visitors", "Bounce Rate", "Avg Time", "Tags"]

  /** One data row of the export: eight cells. */
  function ExportRow(d: DomainMetrics): (row: seq<string>)
    ensures |row| == |ExportHeaders|
  {
    [ d.domain, d.name,
      IntToString(d.pageviews.current), IntToString(d.visits.current), IntToString(d.visitors.current),
      IntToString(CalculateBounceRate(d.bounces.current, d.visits.current)) + "%",
      FormatTime(d.avgTime.current),
      Join(d.tags, ";") ]
  }

  function ExportRows(domains: seq<DomainMetrics>): (rows: seq<seq<string>>)
    ensures |rows| == |domains|
    ensures forall k :: 0 <= k < |domains| ==> rows[k] == ExportRow(domains[k])
  {
    if domains == [] then [] else [ExportRow(domains[0])] + ExportRows(domains[1..])
  }

  /** The text `exportToCSV` puts in the downloaded file. */
  function ExportCsv(domains: seq<DomainMetrics>): string {
    Csv.FormatTable([ExportHeaders] + ExportRows(domains))
  }

  /** Text the format carries unchanged: no double quote and no newline. */
  predicate PlainText(s: string) {
    Csv.PlainCell(s)
  }

  lemma JoinPlain(parts: seq<string>, delim: string)
    requires Csv.PlainCell(delim)
    requires forall k :: 0 <= k < |parts| ==> Csv.PlainCell(parts[k])
    ensures Csv.PlainCell(Join(parts, delim))
  {
    Csv.NoCharInJoin(parts, delim, '"');
    Csv.NoCharInJoin(parts, delim, '\n');
  }

  /** The export reads back as the header row and one eight-cell row per
      domain, in input order, whenever the domain, name and tags are plain. */
  lemma ExportCsvParses(domains: seq<DomainMetrics>)
    requires forall k :: 0 <= k < |domains| ==>
      PlainText(domains[k].domain) && PlainText(domains[k].name)
      && forall t :: t in domains[k].tags ==> PlainText(t)
    ensures Csv.ParseTable(ExportCsv(domains)) == Some([ExportHeaders] + ExportRows(domains))
  {
    var rows := [ExportHeaders] + ExportRows(domains);
    forall k | 0 <= k < |rows| ensures |rows[k]| >= 1 && forall j :: 0 <= j < |rows[k]| ==> Csv.PlainCell(rows[k][j]) {
      if k > 0 {
        assert rows[k] == ExportRows(domains)[k - 1] == ExportRow(domains[k - 1]);
        ExportRowPlain(domains[k - 1]);
      } else {
        assert rows[0] == ExportHeaders;
        HeadersPlain();
      }
    }
    assert Csv.PlainTable(rows);
    Csv.ParseFormatTable(rows);
  }

  lemma HeadersPlain()
    ensures forall j :: 0 <= j < |ExportHeaders| ==> Csv.PlainCell(ExportHeaders[j])
  {
  }

  lemma ExportRowPlain(d: DomainMetrics)
    requires PlainText(d.domain) && PlainText(d.name)
    requires forall t :: t in d.tags ==> PlainText(t)
    ensures forall j :: 0 <= j < |ExportRow(d)| ==> Csv.PlainCell(ExportRow(d)[j])
  {
    var b := CalculateBounceRate(d.bounces.current, d.visits.current);
    forall n | n in {d.pageviews.current, d.visits.current, d.visitors.current, b}
      ensures Csv.PlainCell(IntToString(n))
    {
      IntToStringChars(n, '"');
      IntToStringChars(n, '\n');
    }
    assert Csv.PlainCell(IntToString(b) + "%");
    FormatTimePlain(d.avgTime.current);
    forall k | 0 <= k < |d.tags| ensures Csv.PlainCell(d.tags[k]) {
      assert d.tags[k] in d.tags;
    }
    JoinPlain(d.tags, ";");
  }

  lemma FormatTimePlain(seconds: int)
    ensures Csv.PlainCell(FormatTime(seconds))
  {
    IntToStringChars(seconds, '"');
    IntToStringChars(seconds, '\n');
    if seconds >= 60 {
      IntToStringChars(FloorDiv(seconds, 60), '"');
      IntToStringChars(FloorDiv(seconds, 60), '\n');
      IntToStringChars(TruncMod(seconds, 60), '"');
      IntToStringChars(TruncMod(seconds, 60), '\n');
    }
  }
}
