/** The CSV text both dashboard exports produce: every cell wrapped in double
    quotes (embedded quotes are not escaped), cells joined by "," and rows by
    "\n", with no trailing newline. ParseTable reads such text back; the two
    agree on tables whose cells hold no double quote and no newline. */
module Csv {
  import opened Wrappers
  import opened Strings

  function Quote(cell: string): string {
    "\"" + cell + "\""
  }

  function QuoteAll(cells: seq<string>): (r: seq<string>)
    ensures |r| == |cells|
    ensures forall k :: 0 <= k < |cells| ==> r[k] == Quote(cells[k])
  {
    if cells == [] then [] else [Quote(cells[0])] + QuoteAll(cells[1..])
  }

  /** `row.map(cell => `"${cell}"`).join(',')` */
  function FormatRow(cells: seq<string>): string {
    Join(QuoteAll(cells), ",")
  }

  function FormatRows(rows: seq<seq<string>>): (r: seq<string>)
    ensures |r| == |rows|
    ensures forall k :: 0 <= k < |rows| ==> r[k] == FormatRow(rows[k])
  {
    if rows == [] then [] else [FormatRow(rows[0])] + FormatRows(rows[1..])
  }

  /** `rows.map(formatRow).join('\n')` */
  function FormatTable(rows: seq<seq<string>>): string {
    Join(FormatRows(rows), "\n")
  }

  /** Reads one line of quoted cells separated by commas. */
  function ParseRow(line: string): Option<seq<string>>
    decreases |line|, 1
  {
    if |line| < 2 || line[0] != '"' then None
    else
      match CharIndex(line[1..], '"')
      case None => None
      case Some(k) => ParseAfterCell(line[1..k + 1], line[k + 2..])
  }

  /** What follows a cell: the end of the line, or a comma and more cells. */
  function ParseAfterCell(cell: string, rest: string): Option<seq<string>>
    decreases |rest|, 0
  {
    if rest == [] then Some([cell])
    else if rest[0] != ',' then None
    else
      match ParseRow(rest[1..])
      case None => None
      case Some(cells) => Some([cell] + cells)
  }

  function ParseRows(lines: seq<string>): Option<seq<seq<string>>> {
    if lines == [] then Some([])
    else
      match ParseRow(lines[0])
      case None => None
      case Some(cells) =>
        match ParseRows(lines[1..])
        case None => None
        case Some(rows) => Some([cells] + rows)
  }

  /** Reads a whole CSV text: one row per line. */
  function ParseTable(text: string): Option<seq<seq<string>>> {
    ParseRows(Split(text, '\n'))
  }

  /** A cell the unescaped format can carry: no double quote, no newline. */
  predicate PlainCell(cell: string) {
    '"' !in cell && '\n' !in cell
  }

  /** A table the format round-trips: at least one row, every row with at
      least one cell, and every cell plain. */
  predicate PlainTable(rows: seq<seq<string>>) {
    && |rows| >= 1
    && (forall k :: 0 <= k < |rows| ==> |rows[k]| >= 1)
    && (forall k, j :: 0 <= k < |rows| && 0 <= j < |rows[k]| ==> PlainCell(rows[k][j]))
  }

  lemma NoCharInJoin(parts: seq<string>, delim: string, c: char)
    requires c !in delim
    requires forall k :: 0 <= k < |parts| ==> c !in parts[k]
    ensures c !in Join(parts, delim)
  {
  }

  lemma {:induction false} FormatRowPlain(cells: seq<string>)
    requires forall j :: 0 <= j < |cells| ==> PlainCell(cells[j])
    ensures '\n' !in FormatRow(cells)
  {
    NoCharInJoin(QuoteAll(cells), ",", '\n');
  }

  /** The first cell of a line: everything up to the next double quote. */
  lemma ParseRowFirst(c: string, rest: string)
    requires '"' !in c
    ensures ParseRow(Quote(c) + rest) == ParseAfterCell(c, rest)
  {
    var line := Quote(c) + rest;
    assert line[1..] == c + ['"'] + rest;
    CharIndexAfter(c, '"', rest);
    assert line[1..|c| + 1] == c;
    assert line[|c| + 2..] == rest;
  }


  lemma FormatRowCons(cells: seq<string>)
    requires |cells| >= 2
    ensures FormatRow(cells) == Quote(cells[0]) + "," + FormatRow(cells[1..])
  {
    assert QuoteAll(cells)[1..] == QuoteAll(cells[1..]);
  }

  lemma {:induction false} ParseFormatRow(cells: seq<string>)
    requires |cells| >= 1
    requires forall j :: 0 <= j < |cells| ==> PlainCell(cells[j])
    ensures ParseRow(FormatRow(cells)) == Some(cells)
  {
    var c := cells[0];
    if |cells| == 1 {
      assert FormatRow(cells) == Quote(c) + "";
      ParseRowFirst(c, "");
      assert cells == [c];
    } else {
      FormatRowCons(cells);
      var rest := "," + FormatRow(cells[1..]);
      assert FormatRow(cells) == Quote(c) + rest;
      ParseRowFirst(c, rest);
      assert rest[1..] == FormatRow(cells[1..]);
      ParseFormatRow(cells[1..]);
      assert cells == [c] + cells[1..];
    }
  }

  lemma {:induction false} ParseFormatRows(rows: seq<seq<string>>)
    requires forall k :: 0 <= k < |rows| ==> |rows[k]| >= 1
    requires forall k, j :: 0 <= k < |rows| && 0 <= j < |rows[k]| ==> PlainCell(rows[k][j])
    ensures ParseRows(FormatRows(rows)) == Some(rows)
  {
    if rows != [] {
      ParseFormatRow(rows[0]);
      assert FormatRows(rows)[1..] == FormatRows(rows[1..]);
      ParseFormatRows(rows[1..]);
      assert rows == [rows[0]] + rows[1..];
    }
  }

  /** A plain table read back from its CSV text is the same table. */
  lemma ParseFormatTable(rows: seq<seq<string>>)
    requires PlainTable(rows)
    ensures ParseTable(FormatTable(rows)) == Some(rows)
  {
    var lines := FormatRows(rows);
    forall k | 0 <= k < |lines| ensures '\n' !in lines[k] {
      FormatRowPlain(rows[k]);
    }
    SplitJoin(lines, '\n');
    ParseFormatRows(rows);
  }

  /** Quotes are not escaped: a cell holding `","` reads exactly like two cells. */
  lemma QuotesCollide()
    ensures FormatTable([["a\",\"b"]]) == FormatTable([["a", "b"]])
  {
    var one, two := ["a\",\"b"], ["a", "b"];
    assert one[1..] == [] && two[1..] == ["b"] && two[1..][1..] == [];
    assert FormatRow(one) == "\"a\",\"b\"";
    assert FormatRow(two) == "\"a\"" + "," + "\"b\"";
  }
}
