/** The spreadsheet export: the report as rows (title, column headings, one
    numbered row per entry, totals) and the markup text handed to the
    download, an HTML table that spreadsheet programs open, preceded by a
    byte order mark. Currency and date rendering are locale library calls
    and come in as parameters. */
module Report {
  import opened Decimal
  import opened Amounts
  import opened Ledger

  /** U+FEFF, written before the markup so that the file reads as UTF-8. */
  const BOM: char := '\U{FEFF}'

  /** The fixed start of the markup: the workbook namespaces, the encoding
      declaration, the worksheet name hint and the table styles. */
  const Head: string :=
    ""
    + "\n      <html xmlns:o=\"urn:schemas-microsoft-com:office:office\" xmlns:x=\"urn:schemas-microsoft-com:office:excel\" xmlns=\"http://www.w3.org/TR/REC-html40\">"
    + "\n      <head>"
    + "\n        <meta charset=\"UTF-8\">"
    + "\n        <!--[if gte mso 9]><xml><x:ExcelWorkbook><x:ExcelWorksheets><x:ExcelWorksheet><x:Name>Maintenance Report</x:Name><x:WorksheetOptions><x:DisplayGridlines/></x:WorksheetOptions></x:ExcelWorksheet></x:ExcelWorksheets></x:ExcelWorkbook></xml><![endif]-->"
    + "\n        <style>"
    + "\n          /* Basic styles for Excel output */"
    + "\n          body { font-family: Arial, sans-serif; }"
    + "\n          table { border-collapse: collapse; width: 100%; }"
    + "\n          th { background-color: #E5E7EB; color: #000; border: 1px solid #000; padding: 10px; text-align: center; font-weight: bold; }"
    + "\n          td { border: 1px solid #000; padding: 8px; text-align: center; vertical-align: middle; }"
    + "\n          .text-left { text-align: left; }"
    + "\n          .total-row { background-color: #E5E7EB; font-weight: bold; font-size: 1.1em; }"
    + "\n          .title-row { font-size: 18px; font-weight: bold; text-align: center; border: none; padding: 20px; }"
    + "\n        </style>"
    + "\n      </head>"
    + "\n      <body>"
    + "\n        <table>"

  /** The fixed end of the markup. */
  const Tail: string := "\n        </table>\n      </body>\n      </html>\n    "

  /** `toUpperCase` on one character, for ASCII letters. */
  function UpperChar(c: char): char {
    if 'a' <= c <= 'z' then (c as int - 32) as char else c
  }

  /** `toUpperCase`: every lower-case ASCII letter becomes its capital, every
      other character stays. */
  function ToUpper(s: string): (r: string)
    ensures |r| == |s|
    ensures forall i :: 0 <= i < |s| ==> r[i] == UpperChar(s[i])
    ensures forall i :: 0 <= i < |r| ==> !('a' <= r[i] <= 'z')
  {
    if s == [] then [] else [UpperChar(s[0])] + ToUpper(s[1..])
  }

  /** `formatDate`: an empty deadline shows as empty text; any other goes to
      the locale date renderer. */
  function FormatDate(render: string -> string, date: string): (r: string)
    ensures date == "" ==> r == ""
    ensures date != "" ==> r == render(date)
  {
    if date == "" then "" else render(date)
  }

  /** One column heading: its width and its label. */
  datatype HeaderCell = HeaderCell(width: string, caption: string)

  /** The column headings of the report. */
  const Header: seq<HeaderCell> := [
    HeaderCell("60px", "Sr.No"), HeaderCell("300px", "Item"), HeaderCell("100px", "Month"),
    HeaderCell("120px", "Amount"), HeaderCell("150px", "Payment deadline"), HeaderCell("100px", "Status")]

  /** A row of the report table. */
  datatype Row =
    | TitleRow(text: string)
    | HeaderRow(cells: seq<HeaderCell>)
    | DataRow(number: nat, item: string, month: string, amount: string, deadline: string, status: string)
    | TotalRow(amount: string)

  /** The row of one entry, numbered `n`. */
  function DataRowOf(n: nat, e: Entry, money: Num -> string, date: string -> string): (row: Row)
    ensures row.DataRow? && row.number == n
    ensures row.item == e.item && row.month == e.month && row.status == e.status
    ensures row.amount == money(e.amount)
    ensures row.deadline == if e.deadline == "" then "" else date(e.deadline)
  {
    DataRow(n, e.item, e.month, money(e.amount), FormatDate(date, e.deadline), e.status)
  }

  /** The rows of `items`, numbered consecutively from `first`. */
  function DataRows(items: seq<Entry>, first: nat, money: Num -> string, date: string -> string): (rows: seq<Row>)
    ensures |rows| == |items|
    ensures forall k :: 0 <= k < |items| ==> rows[k] == DataRowOf(first + k, items[k], money, date)
  {
    if items == [] then []
    else [DataRowOf(first, items[0], money, date)] + DataRows(items[1..], first + 1, money, date)
  }

  /** The report table: the upper-cased title, the headings, entry `k` as row
      number `k + 1` in list order, and the formatted total last. */
  function Rows(title: string, items: seq<Entry>, money: Num -> string, date: string -> string): (rows: seq<Row>)
    ensures |rows| == |items| + 3
    ensures rows[0] == TitleRow(ToUpper(title)) && rows[1] == HeaderRow(Header)
    ensures forall k :: 0 <= k < |items| ==> rows[k + 2] == DataRowOf(k + 1, items[k], money, date)
    ensures rows[|rows| - 1] == TotalRow(money(Value(Total(items))))
  {
    [TitleRow(ToUpper(title)), HeaderRow(Header)] + DataRows(items, 1, money, date)
      + [TotalRow(money(Value(Total(items))))]
  }

  /** The markup of the column headings. */
  function HeaderCells(cells: seq<HeaderCell>): (r: string)
    ensures r == "" <==> cells == []
    ensures cells != [] ==> r[0] == '\n'
  {
    if cells == [] then ""
    else
      "\n            <th style=\"width: " + cells[0].width + ";\">" + cells[0].caption + "</th>"
      + HeaderCells(cells[1..])
  }

  /** The markup of one row, with the line breaks and indentation of the
      template it comes from: every row starts on a new line. */
  function RenderRow(row: Row): (r: string)
    ensures |r| > 0 && r[0] == '\n'
  {
    "\n" +
    match row
    case TitleRow(text) =>
      "          <tr>\n            <td colspan=\"6\" class=\"title-row\" style=\"border: none;\">"
      + text + "</td>\n          </tr>"
    case HeaderRow(cells) =>
      "          <tr>" + HeaderCells(cells) + "\n          </tr>\n          "
    case DataRow(number, item, month, amount, deadline, status) =>
      "            <tr>\n              <td>" + NatToString(number)
      + "</td>\n              <td class=\"text-left\">" + item
      + "</td>\n              <td>" + month
      + "</td>\n              <td>" + amount
      + "</td>\n              <td>" + deadline
      + "</td>\n              <td>" + status
      + "</td>\n            </tr>\n          "
    case TotalRow(amount) =>
      "          <tr class=\"total-row\">\n            <td colspan=\"3\" style=\"text-align: center;\">TOTAL</td>\n            <td>"
      + amount + "</td>\n            <td colspan=\"2\"></td>\n          </tr>"
  }

  /** `parts.join('')`: the parts one after the other. */
  function Join(parts: seq<string>): (r: string)
    ensures |parts| > 0 ==> parts[0] <= r
    ensures |parts| == 1 ==> r == parts[0]
    ensures (forall i :: 0 <= i < |parts| ==> parts[i] == "") ==> r == ""
  {
    if parts == [] then "" else parts[0] + Join(parts[1..])
  }

  /** `rows.map(render)`. */
  function Map(render: Row -> string, rows: seq<Row>): (parts: seq<string>)
    ensures |parts| == |rows|
  {
    seq(|rows|, i requires 0 <= i < |rows| => render(rows[i]))
  }

  /** The markup of a sequence of rows, one after the other. */
  function RenderRows(rows: seq<Row>): (r: string)
    ensures r == "" <==> rows == []
    ensures rows != [] ==> r[0] == '\n'
  {
    var parts := Map(RenderRow, rows);
    if rows == [] then
      assert parts == [];
      Join(parts)
    else
      var first := RenderRow(rows[0]);
      assert parts[0] == first && first[0] == '\n';
      assert first <= Join(parts);
      Join(parts)
  }

  /** The text handed to the download: the byte order mark, then the markup
      of the report table. */
  function Document(title: string, items: seq<Entry>, money: Num -> string, date: string -> string): (doc: string)
    ensures |doc| > 0 && doc[0] == BOM
  {
    [BOM] + Head + RenderRows(Rows(title, items, money, date)) + Tail
  }

  /** The heading markup of joined heading lists is the joined markup. */
  lemma {:induction false} HeaderCellsConcat(a: seq<HeaderCell>, b: seq<HeaderCell>)
    ensures HeaderCells(a + b) == HeaderCells(a) + HeaderCells(b)
  {
    if a == [] {
      assert a + b == b;
    } else {
      assert (a + b)[1..] == a[1..] + b;
      HeaderCellsConcat(a[1..], b);
    }
  }

  /** One heading is a `th` cell on its own line, with its width as the
      style and its caption as the content. */
  lemma HeaderCellsSingle(c: HeaderCell)
    ensures HeaderCells([c]) == "\n            <th style=\"width: " + c.width + ";\">" + c.caption + "</th>"
  {
    assert [c][1..] == [];
  }

  /** Joining distributes over concatenation. */
  lemma {:induction false} JoinConcat(a: seq<string>, b: seq<string>)
    ensures Join(a + b) == Join(a) + Join(b)
  {
    if a == [] {
      assert a + b == b;
    } else {
      assert (a + b)[1..] == a[1..] + b;
      JoinConcat(a[1..], b);
    }
  }

  /** Mapping distributes over concatenation. */
  lemma MapConcat(render: Row -> string, a: seq<Row>, b: seq<Row>)
    ensures Map(render, a + b) == Map(render, a) + Map(render, b)
  {
    var whole, parts := Map(render, a + b), Map(render, a) + Map(render, b);
    forall i | 0 <= i < |whole| ensures whole[i] == parts[i] {
      assert (a + b)[i] == if i < |a| then a[i] else b[i - |a|];
    }
  }

  /** Rendering distributes over joining row sequences. */
  lemma RenderRowsConcat(a: seq<Row>, b: seq<Row>)
    ensures RenderRows(a + b) == RenderRows(a) + RenderRows(b)
  {
    MapConcat(RenderRow, a, b);
    JoinConcat(Map(RenderRow, a), Map(RenderRow, b));
  }

  /** A single row renders as itself. */
  lemma RenderRowsSingle(r: Row)
    ensures RenderRows([r]) == RenderRow(r)
  {
    MapJoinSingle(RenderRow, r);
  }

  /** Mapping and joining a single row gives that row's text. */
  lemma MapJoinSingle(render: Row -> string, r: Row)
    ensures Join(Map(render, [r])) == render(r)
  {
    var m := Map(render, [r]);
    assert m == [render(r)];
    assert Join(m) == m[0] + Join([]);
  }

  /** Four pieces render one after the other. */
  lemma RenderPieces(t: Row, h: Row, data: seq<Row>, z: Row)
    ensures RenderRows([t, h] + data + [z])
      == RenderRow(t) + RenderRow(h) + RenderRows(data) + RenderRow(z)
  {
    MapJoinPieces(RenderRow, t, h, data, z);
  }

  /** Four pieces mapped and joined, for any rendering of rows. */
  lemma MapJoinPieces(render: Row -> string, t: Row, h: Row, data: seq<Row>, z: Row)
    ensures Join(Map(render, [t, h] + data + [z]))
      == render(t) + render(h) + Join(Map(render, data)) + render(z)
  {
    var th := [t, h];
    MapConcat(render, th + data, [z]);
    JoinConcat(Map(render, th + data), Map(render, [z]));
    MapConcat(render, th, data);
    JoinConcat(Map(render, th), Map(render, data));
    assert Map(render, th) == [render(t), render(h)];
    assert Join([render(t), render(h)]) == render(t) + Join([render(h)]);
    MapJoinSingle(render, z);
  }

  /** The table markup is the title row, the heading row, the entries' rows
      in list order and the totals row, one after the other. */
  lemma TableLayout(title: string, items: seq<Entry>, money: Num -> string, date: string -> string)
    ensures RenderRows(Rows(title, items, money, date))
      == RenderRow(TitleRow(ToUpper(title))) + RenderRow(HeaderRow(Header))
         + RenderRows(DataRows(items, 1, money, date)) + RenderRow(TotalRow(money(Value(Total(items)))))
  {
    var t, h, z := TitleRow(ToUpper(title)), HeaderRow(Header), TotalRow(money(Value(Total(items))));
    var data := DataRows(items, 1, money, date);
    assert Rows(title, items, money, date) == [t, h] + data + [z];
    RenderPieces(t, h, data, z);
  }

  /** Appending an entry appends exactly one data row, numbered one past the
      last, and leaves the earlier rows as they were. */
  lemma {:induction false} DataRowsAppend(items: seq<Entry>, e: Entry, first: nat, money: Num -> string, date: string -> string)
    ensures DataRows(items + [e], first, money, date)
      == DataRows(items, first, money, date) + [DataRowOf(first + |items|, e, money, date)]
  {
    var r := DataRows(items + [e], first, money, date);
    var r' := DataRows(items, first, money, date) + [DataRowOf(first + |items|, e, money, date)];
    assert |r| == |r'|;
    forall k | 0 <= k < |r| ensures r[k] == r'[k] {
      assert (items + [e])[k] == if k < |items| then items[k] else e;
    }
  }

  /** An empty ledger exports the title, the headings and a totals row of
      zero, with no data row. */
  lemma EmptyLedgerExport(title: string, money: Num -> string, date: string -> string)
    ensures Rows(title, [], money, date)
      == [TitleRow(ToUpper(title)), HeaderRow(Header), TotalRow(money(Value(0.0)))]
  {
  }

  /** Two entries of 100 and 250 export a totals row showing 350. */
  lemma TwoEntriesExport(title: string, a: Entry, b: Entry, money: Num -> string, date: string -> string)
    requires a.amount == Value(100.0) && b.amount == Value(250.0)
    ensures |Rows(title, [a, b], money, date)| == 5
    ensures Rows(title, [a, b], money, date)[4] == TotalRow(money(Value(350.0)))
  {
    assert [a, b][..1] == [a];
    assert Total([a]) == 100.0 by {
      assert [a][..0] == [];
    }
    assert Total([a, b]) == 350.0;
  }

  /** An entry without a deadline shows an empty deadline cell. */
  lemma NoDeadlineCell(n: nat, e: Entry, money: Num -> string, date: string -> string)
    requires e.deadline == ""
    ensures DataRowOf(n, e, money, date).deadline == ""
  {
  }

  /** Upper-casing twice is upper-casing once. */
  lemma ToUpperIdempotent(s: string)
    ensures ToUpper(ToUpper(s)) == ToUpper(s)
  {
    var u := ToUpper(s);
    assert forall i :: 0 <= i < |u| ==> UpperChar(u[i]) == u[i];
  }
}
