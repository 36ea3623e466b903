/** The CSV export of the metric cards (src/components/custom/ExportButton.tsx):
    a header naming the active metrics, one row per domain with three cells
    per active metric, and the shared quoted-cell framing of module Csv. */
module ExportButton {
  import opened Wrappers
  import opened JsMath
  import opened Strings
  import opened Types
  import opened Seqs
  import Csv
  import Utils

  /** `formatTime`: whole minutes, a colon, and the remaining seconds padded
      to two characters with zeros ("1:05"). */
  function ClockTime(seconds: int): string {
    IntToString(FloorDiv(seconds, 60)) + ":" + PadStart(IntToString(TruncMod(seconds, 60)), 2, '0')
  }

  /** Reads "m:ss" back into seconds. */
  function ParseClock(text: string): Option<int> {
    match CharIndex(text, ':')
    case None => None
    case Some(i) =>
      if |text| != i + 3 then None
      else
        match (ParseInt(text[..i]), ParseNat(text[i + 1..]))
        case (Some(m), Some(s)) => Some(m * 60 + s)
        case _ => None
  }

  /** Two-digit seconds parse back to their value. */
  lemma PaddedSecondsParse(s: nat)
    requires s < 60
    ensures |PadStart(IntToString(s), 2, '0')| == 2
    ensures ParseNat(PadStart(IntToString(s), 2, '0')) == Some(s)
  {
    var text := PadStart(IntToString(s), 2, '0');
    if s < 10 {
      assert text == ['0', DigitChar(s)];
      assert text[..1] == ['0'] && text[..1][..0] == [];
      assert DigitsValue(text) == DigitsValue(['0']) * 10 + s;
    } else {
      assert NatToString(s) == NatToString(s / 10) + [DigitChar(s % 10)];
      NatToStringParses(s);
    }
  }

  /** The clock text of a non-negative duration reads back to it. */
  lemma ClockTimeParses(seconds: int)
    requires seconds >= 0
    ensures ParseClock(ClockTime(seconds)) == Some(seconds)
  {
    var m, s := FloorDiv(seconds, 60), TruncMod(seconds, 60);
    var head, tail := IntToString(m), PadStart(IntToString(s), 2, '0');
    var text := ClockTime(seconds);
    assert text == head + [':'] + tail;
    IntToStringChars(m, ':');
    CharIndexAfter(head, ':', tail);
    PaddedSecondsParse(s);
    IntToStringParses(m);
    assert text[..|head|] == head && text[|head| + 1..] == tail;
  }

  lemma ClockTimeExamples()
    ensures ClockTime(65) == "1:05"
    ensures ClockTime(600) == "10:00"
  {
    assert NatToString(10) == NatToString(1) + [DigitChar(0)];
  }

  /** `x.toFixed(1)` for a number held in tenths. */
  function Fixed1(tenths: int): string {
    (if tenths < 0 then "-" else "") + Utils.FormatTenths(if tenths < 0 then -tenths else tenths)
  }

  function ParseFixed1(text: string): Option<int> {
    if |text| >= 1 && text[0] == '-' then
      match Utils.ParseTenths(text[1..]) case None => None case Some(t) => Some(-(t as int))
    else
      match Utils.ParseTenths(text) case None => None case Some(t) => Some(t as int)
  }

  lemma Fixed1Parses(tenths: int)
    ensures ParseFixed1(Fixed1(tenths)) == Some(tenths)
  {
    var a := if tenths < 0 then -tenths else tenths;
    Utils.FormatTenthsParses(a);
    var t := Utils.FormatTenths(a);
    assert t[0] == NatToString(a / 10)[0] && IsDigit(t[0]);
    if tenths < 0 {
      assert Fixed1(tenths) == "-" + t;
      assert Fixed1(tenths)[1..] == t;
    } else {
      assert Fixed1(tenths) == t;
    }
  }

  /** The header caption of a metric; anything that is not one of the first
      four metrics is labelled "Avg. Time". */
  function MetricLabel(m: MetricType): (caption: string)
    ensures m == Bounces <==> caption == "Bounces (%)"
    ensures m == AvgTime <==> caption == "Avg. Time"
  {
    match m
    case Pageviews => "Pageviews"
    case Visits => "Visits"
    case Visitors => "Visitors"
    case Bounces => "Bounces (%)"
    case _ => "Avg. Time"
  }

  /** Distinct metrics get distinct labels. */
  lemma LabelsDistinct(m1: MetricType, m2: MetricType)
    requires m1 != m2
    ensures MetricLabel(m1) != MetricLabel(m2)
  {
  }

  function HeaderCells(m: MetricType): seq<string> {
    var caption := MetricLabel(m);
    [caption, caption + " Change (%)", caption + " Previous"]
  }

  /** The header cells of the active metrics, three per metric in order. */
  function MetricHeaders(metrics: seq<MetricType>): (r: seq<string>)
    ensures |r| == 3 * |metrics|
  {
    FlatMapLength(metrics, HeaderCells);
    FlatMap(metrics, HeaderCells)
  }

  function HeaderRow(metrics: seq<MetricType>): (r: seq<string>)
    ensures |r| == 5 + 3 * |metrics|
  {
    ["Domain", "Name"] + MetricHeaders(metrics) + ["Tags", "Favorite", "Realtime Visitors"]
  }

  /** The current value of a metric as the export writes it: a clock time
      for the average time, one decimal for bounces, an integer otherwise. */
  function CurrentCell(d: DomainMetrics, m: MetricType): string {
    var value := MetricOf(d, m);
    if m == AvgTime then ClockTime(value.current)
    else if m == Bounces then Fixed1(value.current * 10)
    else IntToString(value.current)
  }

  function MetricCells(d: DomainMetrics, m: MetricType): seq<string> {
    [CurrentCell(d, m), Fixed1(MetricOf(d, m).change), IntToString(MetricOf(d, m).previous)]
  }

  /** The cells of metric m in the row of d. */
  function CellsOf(d: DomainMetrics): MetricType -> seq<string> {
    m => MetricCells(d, m)
  }

  function MetricRowCells(d: DomainMetrics, metrics: seq<MetricType>): (r: seq<string>)
    ensures |r| == 3 * |metrics|
  {
    FlatMapLength(metrics, CellsOf(d));
    FlatMap(metrics, CellsOf(d))
  }

  /** The closing cells of a row: tags joined by "; ", the favourite flag
      and the realtime count. */
  function LastCells(d: DomainMetrics): seq<string> {
    [Join(d.tags, "; "), if d.isFavorite then "Yes" else "No", IntToString(d.realtimeVisitors)]
  }

  function DataRow(d: DomainMetrics, metrics: seq<MetricType>): (r: seq<string>)
    ensures |r| == 5 + 3 * |metrics|
  {
    [d.domain, d.name] + MetricRowCells(d, metrics) + LastCells(d)
  }

  /** The row of a domain, for the active metrics. */
  function RowOf(metrics: seq<MetricType>): DomainMetrics -> seq<string> {
    d => DataRow(d, metrics)
  }

  function DataRows(domains: seq<DomainMetrics>, metrics: seq<MetricType>): seq<seq<string>> {
    Map(domains, RowOf(metrics))
  }

  /** The table the export writes: the header, then one row per domain. */
  function Table(domains: seq<DomainMetrics>, metrics: seq<MetricType>): seq<seq<string>> {
    [HeaderRow(metrics)] + DataRows(domains, metrics)
  }

  /** The header row of `generateCSV`, pushed cell by cell. */
  method BuildHeader(activeMetrics: seq<MetricType>) returns (headers: seq<string>)
    ensures headers == HeaderRow(activeMetrics)
  {
    headers := ["Domain", "Name"];
    for k := 0 to |activeMetrics|
      invariant headers == ["Domain", "Name"] + MetricHeaders(activeMetrics[..k])
    {
      var caption := MetricLabel(activeMetrics[k]);
      headers := headers + [caption, caption + " Change (%)", caption + " Previous"];
      FlatMapStep(activeMetrics, HeaderCells, k);
    }
    assert activeMetrics[..|activeMetrics|] == activeMetrics;
    headers := headers + ["Tags", "Favorite", "Realtime Visitors"];
  }

  /** One data row of `generateCSV`, pushed cell by cell. */
  method BuildRow(domain: DomainMetrics, activeMetrics: seq<MetricType>) returns (row: seq<string>)
    ensures row == DataRow(domain, activeMetrics)
  {
    row := [domain.domain, domain.name];
    for k := 0 to |activeMetrics|
      invariant row == [domain.domain, domain.name] + MetricRowCells(domain, activeMetrics[..k])
    {
      var metric := activeMetrics[k];
      var value := MetricOf(domain, metric);
      var current: string;
      if metric == AvgTime {
        current := ClockTime(value.current);
      } else if metric == Bounces {
        current := Fixed1(value.current * 10);
      } else {
        current := IntToString(value.current);
      }
      assert current == CurrentCell(domain, metric);
      var cells := [current, Fixed1(value.change), IntToString(value.previous)];
      assert cells == CellsOf(domain)(metric);
      FlatMapStep(activeMetrics, CellsOf(domain), k);
      row := row + cells;
    }
    assert activeMetrics[..|activeMetrics|] == activeMetrics;
    row := row + [Join(domain.tags, "; "), if domain.isFavorite then "Yes" else "No",
                  IntToString(domain.realtimeVisitors)];
  }

  /** `generateCSV`: the header, then one row pushed per domain, framed as
      CSV. */
  method GenerateCsv(domains: seq<DomainMetrics>, activeMetrics: seq<MetricType>) returns (csv: string)
    ensures csv == Csv.FormatTable(Table(domains, activeMetrics))
  {
    var headers := BuildHeader(activeMetrics);
    var rows := [headers];
    for i := 0 to |domains|
      invariant rows == [HeaderRow(activeMetrics)] + DataRows(domains[..i], activeMetrics)
    {
      var row := BuildRow(domains[i], activeMetrics);
      MapStep(domains, RowOf(activeMetrics), i);
      rows := rows + [row];
    }
    assert domains[..|domains|] == domains;
    csv := Csv.FormatTable(rows);
  }

  /** The three cells of metric k sit at columns 2 + 3k .. 4 + 3k, in the
      header and in every data row alike. */
  lemma MetricColumns(d: DomainMetrics, metrics: seq<MetricType>, k: nat)
    requires k < |metrics|
    ensures MetricHeaders(metrics)[3 * k..3 * k + 3] == HeaderCells(metrics[k])
    ensures MetricRowCells(d, metrics)[3 * k..3 * k + 3] == MetricCells(d, metrics[k])
  {
    FlatMapSlice(metrics, HeaderCells, k);
    FlatMapSlice(metrics, CellsOf(d), k);
  }

  /** The exported table: one header and one row per domain in input order,
      every row as wide as the header, 5 + 3 cells per active metric. */
  lemma TableShape(domains: seq<DomainMetrics>, metrics: seq<MetricType>)
    ensures var t := Table(domains, metrics);
      && |t| == |domains| + 1
      && t[0] == HeaderRow(metrics)
      && (forall i :: 0 <= i < |domains| ==> t[i + 1] == DataRow(domains[i], metrics))
      && (forall i :: 0 <= i < |t| ==> |t[i]| == 5 + 3 * |metrics|)
  {
    var t := Table(domains, metrics);
    forall i | 0 <= i < |domains|
      ensures t[i + 1] == DataRow(domains[i], metrics)
    {
      TableRow(domains, metrics, i);
    }
    TableRows([HeaderRow(metrics)], DataRows(domains, metrics), 5 + 3 * |metrics|);
  }

  /** Row i + 1 of the table is the row of domain i. */
  lemma TableRow(domains: seq<DomainMetrics>, metrics: seq<MetricType>, i: nat)
    requires i < |domains|
    ensures var t := Table(domains, metrics);
      |t| == |domains| + 1 && t[i + 1] == DataRow(domains[i], metrics)
  {
    var rows := DataRows(domains, metrics);
    assert rows[i] == DataRow(domains[i], metrics);
  }

  /** Every row of a header followed by rows of the header's width has
      that width. */
  lemma TableRows(header: seq<seq<string>>, rows: seq<seq<string>>, width: nat)
    requires |header| == 1 && |header[0]| == width
    requires forall i :: 0 <= i < |rows| ==> |rows[i]| == width
    ensures forall i :: 0 <= i < |header + rows| ==> |(header + rows)[i]| == width
  {
  }



  lemma SliceOfMiddle<T>(a: seq<T>, m: seq<T>, b: seq<T>, i: nat, j: nat)
    requires i <= j <= |m|
    ensures (a + m + b)[|a| + i..|a| + j] == m[i..j]
  {
  }

  /** Each metric's three row cells sit under its three header cells, at
      columns 2 + 3k .. 4 + 3k. */
  lemma ColumnsLineUp(d: DomainMetrics, metrics: seq<MetricType>, k: nat)
    requires k < |metrics|
    ensures HeaderRow(metrics)[2 + 3 * k..5 + 3 * k] == HeaderCells(metrics[k])
    ensures DataRow(d, metrics)[2 + 3 * k..5 + 3 * k] == MetricCells(d, metrics[k])
  {
    MetricColumns(d, metrics, k);
    HeaderColumn(metrics, k);
    RowColumn(d, metrics, k);
  }

  lemma HeaderColumn(metrics: seq<MetricType>, k: nat)
    requires 3 * k + 3 <= |MetricHeaders(metrics)|
    ensures HeaderRow(metrics)[2 + 3 * k..5 + 3 * k] == MetricHeaders(metrics)[3 * k..3 * k + 3]
  {
    SliceOfMiddle(["Domain", "Name"], MetricHeaders(metrics), ["Tags", "Favorite", "Realtime Visitors"], 3 * k, 3 * k + 3);
  }

  lemma RowColumn(d: DomainMetrics, metrics: seq<MetricType>, k: nat)
    requires 3 * k + 3 <= |MetricRowCells(d, metrics)|
    ensures DataRow(d, metrics)[2 + 3 * k..5 + 3 * k] == MetricRowCells(d, metrics)[3 * k..3 * k + 3]
  {
    SliceOfMiddle([d.domain, d.name], MetricRowCells(d, metrics), LastCells(d), 3 * k, 3 * k + 3);
  }

  /** Rows open with the domain and its name and close with the tags joined
      by "; ", "Yes" or "No" for a favourite, and the realtime count; the
      header names those columns. */
  lemma RowEnds(d: DomainMetrics, metrics: seq<MetricType>)
    ensures HeaderRow(metrics)[..2] == ["Domain", "Name"]
    ensures HeaderRow(metrics)[2 + 3 * |metrics|..] == ["Tags", "Favorite", "Realtime Visitors"]
    ensures DataRow(d, metrics)[..2] == [d.domain, d.name]
    ensures DataRow(d, metrics)[2 + 3 * |metrics|..] ==
      [Join(d.tags, "; "), if d.isFavorite then "Yes" else "No", IntToString(d.realtimeVisitors)]
  {
    var tail := ["Tags", "Favorite", "Realtime Visitors"];
    assert HeaderRow(metrics) == (["Domain", "Name"] + MetricHeaders(metrics)) + tail;
    assert DataRow(d, metrics) == ([d.domain, d.name] + MetricRowCells(d, metrics)) + LastCells(d);
  }

  /** A metric's three cells read back to its current value (in the unit its
      cell uses), its change and its previous value. */
  lemma MetricCellsDecode(d: DomainMetrics, m: MetricType)
    requires m == AvgTime ==> d.avgTime.current >= 0
    ensures var cells, v := MetricCells(d, m), MetricOf(d, m);
      && (m == AvgTime ==> ParseClock(cells[0]) == Some(v.current))
      && (m == Bounces ==> ParseFixed1(cells[0]) == Some(v.current * 10))
      && (m != AvgTime && m != Bounces ==> ParseInt(cells[0]) == Some(v.current))
      && ParseFixed1(cells[1]) == Some(v.change)
      && ParseInt(cells[2]) == Some(v.previous)
  {
    var v := MetricOf(d, m);
    if m == AvgTime {
      ClockTimeParses(v.current);
    } else if m == Bounces {
      Fixed1Parses(v.current * 10);
    } else {
      IntToStringParses(v.current);
    }
    Fixed1Parses(v.change);
    IntToStringParses(v.previous);
  }

  /** The cells the export computes never hold a quote or a newline. */
  lemma NumberCellsPlain(n: int)
    ensures Csv.PlainCell(IntToString(n)) && Csv.PlainCell(Fixed1(n)) && Csv.PlainCell(ClockTime(n))
  {
    IntToStringChars(n, '"');
    IntToStringChars(n, '\n');
    var a := if n < 0 then -n else n;
    IntToStringChars(a / 10, '"');
    IntToStringChars(a / 10, '\n');
    var s := TruncMod(n, 60);
    IntToStringChars(FloorDiv(n, 60), '"');
    IntToStringChars(FloorDiv(n, 60), '\n');
    IntToStringChars(s, '"');
    IntToStringChars(s, '\n');
  }

  /** Text from the domain list that the framing can carry. */
  predicate PlainDomain(d: DomainMetrics) {
    Csv.PlainCell(d.domain) && Csv.PlainCell(d.name) && forall t :: t in d.tags ==> Csv.PlainCell(t)
  }

  predicate PlainRow(cells: seq<string>) {
    forall c :: c in cells ==> Csv.PlainCell(c)
  }

  lemma PlainConcat(a: string, b: string)
    requires Csv.PlainCell(a) && Csv.PlainCell(b)
    ensures Csv.PlainCell(a + b)
  {
  }

  lemma PlainTriple(a: string, b: string, c: string)
    requires Csv.PlainCell(a) && Csv.PlainCell(b) && Csv.PlainCell(c)
    ensures PlainRow([a, b, c])
  {
  }

  lemma PlainRowConcat(a: seq<string>, b: seq<string>)
    requires PlainRow(a) && PlainRow(b)
    ensures PlainRow(a + b)
  {
  }

  lemma HeaderCellsPlain(m: MetricType)
    ensures PlainRow(HeaderCells(m))
  {
    var caption := MetricLabel(m);
    assert Csv.PlainCell(caption) by {
      match m
      case Pageviews =>
      case Visits =>
      case Visitors =>
      case Bounces =>
      case AvgTime =>
    }
    PlainConcat(caption, " Change (%)");
    PlainConcat(caption, " Previous");
  }

  lemma {:induction false} MetricHeadersPlain(metrics: seq<MetricType>)
    ensures PlainRow(MetricHeaders(metrics))
  {
    if metrics != [] {
      MetricHeadersPlain(metrics[..|metrics| - 1]);
      HeaderCellsPlain(metrics[|metrics| - 1]);
      PlainRowConcat(MetricHeaders(metrics[..|metrics| - 1]), HeaderCells(metrics[|metrics| - 1]));
    }
  }

  lemma CurrentCellPlain(d: DomainMetrics, m: MetricType)
    ensures Csv.PlainCell(CurrentCell(d, m))
  {
    var v := MetricOf(d, m);
    if m == AvgTime {
      NumberCellsPlain(v.current);
    } else if m == Bounces {
      NumberCellsPlain(v.current * 10);
    } else {
      NumberCellsPlain(v.current);
    }
  }

  lemma MetricCellsPlain(d: DomainMetrics, m: MetricType)
    ensures PlainRow(MetricCells(d, m))
  {
    var v := MetricOf(d, m);
    CurrentCellPlain(d, m);
    NumberCellsPlain(v.change);
    NumberCellsPlain(v.previous);
    PlainTriple(CurrentCell(d, m), Fixed1(v.change), IntToString(v.previous));
  }

  lemma {:induction false} MetricRowCellsPlain(d: DomainMetrics, metrics: seq<MetricType>)
    ensures PlainRow(MetricRowCells(d, metrics))
  {
    if metrics != [] {
      var front := metrics[..|metrics| - 1];
      MetricRowCellsPlain(d, front);
      MetricCellsPlain(d, metrics[|metrics| - 1]);
      assert MetricRowCells(d, metrics) == MetricRowCells(d, front) + MetricCells(d, metrics[|metrics| - 1]);
      PlainRowConcat(MetricRowCells(d, front), MetricCells(d, metrics[|metrics| - 1]));
    }
  }

  lemma HeaderRowPlain(metrics: seq<MetricType>)
    ensures PlainRow(HeaderRow(metrics))
  {
    MetricHeadersPlain(metrics);
    assert Csv.PlainCell("Domain") && Csv.PlainCell("Name");
    assert Csv.PlainCell("Tags") && Csv.PlainCell("Favorite") && Csv.PlainCell("Realtime Visitors");
    PlainTriple("Tags", "Favorite", "Realtime Visitors");
    assert PlainRow(["Domain", "Name"]);
    PlainRowConcat(["Domain", "Name"], MetricHeaders(metrics));
    PlainRowConcat(["Domain", "Name"] + MetricHeaders(metrics), ["Tags", "Favorite", "Realtime Visitors"]);
  }

  lemma LastCellsPlain(d: DomainMetrics)
    requires forall t :: t in d.tags ==> Csv.PlainCell(t)
    ensures PlainRow(LastCells(d))
  {
    var tags := Join(d.tags, "; ");
    assert Csv.PlainCell(tags) by {
      assert forall k :: 0 <= k < |d.tags| ==> d.tags[k] in d.tags;
      Csv.NoCharInJoin(d.tags, "; ", '"');
      Csv.NoCharInJoin(d.tags, "; ", '\n');
    }
    var favorite := if d.isFavorite then "Yes" else "No";
    assert Csv.PlainCell(favorite);
    NumberCellsPlain(d.realtimeVisitors);
    assert LastCells(d) == [tags, favorite, IntToString(d.realtimeVisitors)];
  }


  lemma DataRowPlain(d: DomainMetrics, metrics: seq<MetricType>)
    requires PlainDomain(d)
    ensures PlainRow(DataRow(d, metrics))
  {
    MetricRowCellsPlain(d, metrics);
    LastCellsPlain(d);
    assert DataRow(d, metrics) == [d.domain, d.name] + MetricRowCells(d, metrics) + LastCells(d);
    PlainRowConcat([d.domain, d.name], MetricRowCells(d, metrics));
    PlainRowConcat([d.domain, d.name] + MetricRowCells(d, metrics), LastCells(d));
  }

  /** When no domain, name or tag holds a quote or a newline, the exported
      text reads back to the exported table. */
  lemma ExportParses(domains: seq<DomainMetrics>, metrics: seq<MetricType>)
    requires forall d :: d in domains ==> PlainDomain(d)
    ensures Csv.ParseTable(Csv.FormatTable(Table(domains, metrics))) == Some(Table(domains, metrics))
  {
    var t := Table(domains, metrics);
    HeaderRowPlain(metrics);
    forall i, j | 0 <= i < |t| && 0 <= j < |t[i]| ensures Csv.PlainCell(t[i][j]) {
      if i > 0 {
        assert domains[i - 1] in domains;
        DataRowPlain(domains[i - 1], metrics);
      }
      assert t[i][j] in t[i];
    }
    Csv.ParseFormatTable(t);
  }

  /** The name of the downloaded file: the range and the calendar date of
      an ISO timestamp. */
  function ExportFileName(dateRange: string, isoTimestamp: string): (name: string)
    ensures StartsWith(name, "umami-analytics-" + dateRange + "-")
    ensures EndsWith(name, ".csv")
    ensures |name| >= |"umami-analytics-" + dateRange + "-"| + 4
    ensures 'T' !in name[|"umami-analytics-" + dateRange + "-"|..|name| - 4]
    ensures var date := name[|"umami-analytics-" + dateRange + "-"|..|name| - 4];
      |date| <= |isoTimestamp| && date == isoTimestamp[..|date|] &&
      (|date| == |isoTimestamp| || isoTimestamp[|date|] == 'T')
  {
    var date := Split(isoTimestamp, 'T')[0];
    SplitFirstPiece(isoTimestamp, 'T');
    var name := "umami-analytics-" + dateRange + "-" + date + ".csv";
    assert name[|"umami-analytics-" + dateRange + "-"|..|name| - 4] == date;
    name
  }
}
