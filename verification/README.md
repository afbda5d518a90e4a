# Monthly Maintenance Maker: a verified model of the ledger and export core

The Monthly Maintenance Maker is a single React component (`App.jsx`). It
records a month's maintenance expenses and downloads them as an `.xls` report.
This project models in Dafny the logic inside that component:

- **Month options** (`MonthOptions`, `month_options.dfy`). The form offers five
  billing months: next month, the current month and the three before it. Each
  label looks like `Jul-25`. The source computes them with
  `new Date(year, month - i, 1)` and relies on JavaScript carrying an
  out-of-range month index into the year. The model does the same with integer
  arithmetic.
- **Ledger** (`Ledger`, `ledger.dfy`; state in `Maker`, `maker.dfy`). The
  ordered list of entries and the entry form, with these handlers:
  - input change;
  - guarded add, which appends and then clears the form;
  - delete by id;
  - the total, a left fold where a non-numeric amount counts as 0.

  The class `Maker.MaintenanceMaker` holds `items`, `newItem` and
  `reportTitle` and updates them in place, as the component's state hooks do.
- **Amounts** (`Amounts`, `amounts.dfy`). What `parseFloat` makes of the
  amount text: a number or NaN.
- **Export** (`Report`, `report.dfy`). The report as rows:
  - the upper-cased title;
  - the fixed column headings;
  - one row per entry, numbered from 1;
  - the totals row.

  These rows are rendered to the exact markup of the template in `App.jsx`.
  The text handed to the download is a byte order mark (U+FEFF) followed by
  that markup.
- **Decimal text** (`Decimal`, `decimal.dfy`). `toString()` of an integer and
  `slice(-2)`, used for the year suffix and the row numbers.

Inputs that come from the browser are parameters:
- the current year and month index, used instead of `new Date()`;
- the new entry's id, used instead of `Date.now()`;
- the currency and date renderers, used instead of `Intl.NumberFormat` and
  `toLocaleDateString`.

The source file has CRLF line endings. A JavaScript template literal turns
each CRLF into LF, so the modelled markup uses `\n`.

## Model

| member | source | states |
|---|---|---|
| `Decimal.NatToString` | App.jsx:128 | the decimal text of a row number is non-empty, all digits, one character long exactly for numbers below 10, and starts with `0` only for 0 itself |
| `Decimal.IntToString` | App.jsx:33 | `toString()` of an integer starts with `-` exactly for a negative number; the digits after the optional sign read back as the number's magnitude and have no leading zero (except for 0 itself) |
| `Decimal.LastTwo` | App.jsx:33 | `slice(-2)` is the last two characters of the text, or the whole text when it is shorter |
| `Decimal.NatToStringRoundTrip` | App.jsx:128 | reading the digits of a number's text back gives the number |
| `Decimal.LastTwoOfNat` | App.jsx:33 | `slice(-2)` of a number of two or more digits is its tens digit then its units digit |
| `Decimal.LastTwoOfYear` | App.jsx:33 | the two-character year suffix is the year modulo 100 written with two digits |
| `Amounts.ExponentOf` | App.jsx:60 | an exponent part is read only after `e` or `E`; without one the exponent is 0, and it is negative only after `e-` |
| `Amounts.DecimalValue` | App.jsx:60 | the value of integer and fraction digits is never negative |
| `Amounts.Scale` | App.jsx:60 | scaling by a power of ten keeps a non-negative value non-negative |
| `Amounts.UnsignedPrefix` | App.jsx:60 | the leading unsigned literal (digits, optional point and fraction, optional exponent) is NaN exactly when the text does not start with a digit or with a point and a digit; otherwise it is not negative |
| `Amounts.ParseFloat` | App.jsx:60 | `parseFloat` gives NaN exactly when, after an optional sign, no number starts the text; only a leading minus gives a negative value |
| `Amounts.ParseNatText` | App.jsx:60 | the text of a whole number parses back to that number |
| `Amounts.ParseDigits` | App.jsx:60 | a run of digits alone parses as its value |
| `Amounts.DigitRunStops` | App.jsx:60 | the digit run of a literal ends exactly where a non-digit or the end of the text follows the digits |
| `Amounts.DecimalPrefix` | App.jsx:60 | integer digits, a point and fraction digits read as the integer part plus the fraction over its power of ten |
| `Amounts.ParseDecimalText` | App.jsx:60 | an amount such as `1500.75` is stored as exactly that value |
| `Amounts.ParseNegativeDecimalText` | App.jsx:60 | a leading minus before such an amount gives its negation |
| `Amounts.Negated` | App.jsx:60 | a minus before any unsigned literal negates its value |
| `Amounts.ExponentDigits` | App.jsx:60 | `e` followed by digits is an exponent of the digits' value |
| `Amounts.ExponentSigned` | App.jsx:60 | an exponent part `e` or `E`, then no sign, `+` or `-`, then digits, is the digits' value, negated after `-` |
| `Amounts.ExponentValue` | App.jsx:60 | an exponent marker followed by an optionally signed digit run reads as that run's value, negated after a minus |
| `Amounts.SignThenDigits` | App.jsx:60 | taking an optional sign off signed digits leaves the digits, and the text starts with `-` only when the sign is a minus |
| `Amounts.FractionExponentPrefix` | App.jsx:60 | integer digits, a point, fraction digits and an exponent part read as the decimal value scaled by ten to the exponent |
| `Amounts.ParseFractionExponentText` | App.jsx:60 | an amount such as `1.5e3` is stored as its decimal value scaled by ten to its exponent |
| `Amounts.ExponentPrefix` | App.jsx:60 | integer digits followed by an exponent part (`e` or `E`) are the digits' value scaled by ten to that exponent |
| `Amounts.ParseExponentText` | App.jsx:60 | an amount such as `1e3` is stored as the digits' value times ten to the exponent (1000) |
| `Amounts.ScaleUp` | App.jsx:60 | a non-negative exponent multiplies a whole number by that power of ten |
| `Amounts.ParseNegativeExponentExample` | App.jsx:60 | `2.5E-1` is stored as 0.25 |
| `Amounts.Contribution` | App.jsx:21 | `parseFloat(x) \|\| 0` counts as 0 exactly when the amount is NaN or zero, and as the amount itself otherwise |
| `MonthOptions.ShortName` | App.jsx:32 | each `en-US` short month name has three characters and starts with a capital |
| `MonthOptions.FullYear` | App.jsx:31 | the `Date` constructor reads a year 0..99 as 1900 more and keeps every other year as it is, so the year it uses never falls in 0..99 |
| `MonthOptions.Label` | App.jsx:32-34 | an option label is the short month name, `-` and one or two year characters, and exactly two for a year of two digits or more |
| `MonthOptions.PeriodOf` | App.jsx:31 | `new Date(year, m, 1)` lands on a month index 0..11 in the year that keeps `year * 12 + m` unchanged (years 0..99 read as 1900..1999) |
| `MonthOptions.Next` | App.jsx:31 | the month after a valid month is valid and one month later by the month count |
| `MonthOptions.Prev` | App.jsx:31 | the month before a valid month is valid and one month earlier by the month count |
| `MonthOptions.OptionAt` | App.jsx:31-34 | the option for loop offset `k - 1` is five or six characters, with `-` at position 3 after the short name of month index `month - (k - 1)` modulo 12 |
| `MonthOptions.GetMonthOptions` | App.jsx:24-37 | the loop returns the five labels for offsets -1 to 3 in that order, and no two labels are alike |
| `MonthOptions.OptionsUpTo` | App.jsx:30-35 | after `n` iterations the options array holds `n` labels, the `k`-th for offset `k - 1` |
| `MonthOptions.OptionsUpToStep` | App.jsx:30-35 | each iteration pushes the label for the next offset onto the end of the array |
| `MonthOptions.FiveOptionsDistinct` | App.jsx:30-36 | the five returned labels are pairwise different |
| `MonthOptions.OptionsInCalendarOrder` | App.jsx:27-31 | the five labels are, in order, next month, this month and one, two and three months back |
| `MonthOptions.OptionsDistinct` | App.jsx:30-35 | any two of the five options differ, so each one keys its own `<option>` |
| `MonthOptions.PeriodUnique` | App.jsx:31 | two normalised months with the same month count are equal |
| `MonthOptions.PeriodStep` | App.jsx:31 | a month index one higher is the next calendar month and one lower is the previous one, across year boundaries too |
| `MonthOptions.OffsetsAreCalendarMonths` | App.jsx:30-31 | offsets -1, 0, 1, 2 and 3 give next month, this month and one, two and three months back |
| `MonthOptions.NextPrev` | App.jsx:31 | stepping a month forward and back, or back and forward, returns to that month |
| `MonthOptions.Rollover` | App.jsx:31 | month index -1 is December of the year before, and index 12 is January of the year after |
| `MonthOptions.NameRoundTrip` | App.jsx:32 | each short month name has three letters and reads back as its month index |
| `MonthOptions.LabelMonth` | App.jsx:32-34 | a label's first three characters name its month |
| `MonthOptions.LabelsOfNearMonths` | App.jsx:31-34 | months fewer than twelve apart have different labels |
| `MonthOptions.LabelShape` | App.jsx:32-34 | a label is the short month name, `-` and the year modulo 100 in two digits |
| `MonthOptions.LabelRoundTrip` | App.jsx:32-34 | reading a label back gives its month index and its year modulo 100 |
| `MonthOptions.ParseShaped` | App.jsx:34 | text made of a month name, `-` and two digits reads back as that month and the digits' value |
| `MonthOptions.TwoDigits` | App.jsx:33-34 | two digit characters are both digits and read back as their two-digit number |
| `MonthOptions.YearSuffixDigits` | App.jsx:33 | the tens and units digits of a year make up the year modulo 100, the value `slice(-2)` shows |
| `MonthOptions.OptionIs` | App.jsx:31-34 | the option for an offset that lands on a known calendar month is that month's short name, `-` and two year digits |
| `MonthOptions.July2025First` | App.jsx:30-35 | in mid-July 2025 the first option is Aug-25 |
| `MonthOptions.July2025Current` | App.jsx:30-35 | in mid-July 2025 the second option is Jul-25 |
| `MonthOptions.July2025Last` | App.jsx:30-35 | in mid-July 2025 the last option is Apr-25 |
| `MonthOptions.January2025Back` | App.jsx:30-35 | in mid-January 2025 the third option rolls back into 2024 as Dec-24 |
| `MonthOptions.January2025Last` | App.jsx:30-35 | in mid-January 2025 the last option is Oct-24 |
| `MonthOptions.December2025First` | App.jsx:30-35 | in mid-December 2025 the first option rolls forward into 2026 as Jan-26 |
| `Ledger.WithField` | App.jsx:44-47 | `{ ...prev, [name]: value }` sets the named field and keeps every other field |
| `Ledger.WithoutId` | App.jsx:76 | the filter keeps exactly the entries whose id differs, never grows the list, and changes nothing when no entry has the id |
| `Ledger.WithId` | App.jsx:76 | the entries the filter drops are exactly the entries of the list that carry the id |
| `Ledger.CanAdd` | App.jsx:53 | an add goes ahead exactly when both the item text and the amount text are non-empty |
| `Ledger.NewEntry` | App.jsx:57-61 | a new entry has the given id, the form's item, month, deadline and status, and the amount as `parseFloat` reads it |
| `Ledger.Cleared` | App.jsx:65-71 | the cleared form keeps the month, has status `Pending` and empty item, amount and deadline, so it cannot be added again as it is |
| `Ledger.Total` | App.jsx:21 | the left fold from 0 is never negative when no amount is negative |
| `Ledger.GuardIgnoresOtherFields` | App.jsx:53 | the add guard looks at the item and amount text only, not at the month, deadline or status |
| `Ledger.TotalConcat` | App.jsx:21 | the total of two joined lists is the sum of their totals |
| `Ledger.TotalAfterAdd` | App.jsx:21 | appending an entry adds its parsed amount to the total, and adds nothing when that amount is NaN |
| `Ledger.TotalSplit` | App.jsx:21 | the total of the kept entries plus the total of the dropped ones is the old total |
| `Ledger.WithoutIdConcat` | App.jsx:76 | the filter works piece by piece, so kept entries keep their relative order |
| `Ledger.RemoveOnly` | App.jsx:76 | when a single entry has the id, deleting it removes just that entry and shortens the list by one |
| `Ledger.AddThenDelete` | App.jsx:55-62 | adding an entry with an id no other entry has, then deleting that id, gives back the earlier list |
| `Ledger.DeleteIdempotent` | App.jsx:76 | deleting the same id twice is the same as deleting it once |
| `Ledger.AddKeepsIdsUnique` | App.jsx:58 | adding with an id no other entry has keeps the ids unique |
| `Ledger.DeleteKeepsIdsUnique` | App.jsx:76 | deleting keeps unique ids unique |
| `Report.ToUpper` | App.jsx:116 | upper-casing keeps the length, maps each character in place, and leaves no lower-case ASCII letter |
| `Report.ToUpperIdempotent` | App.jsx:116 | upper-casing twice is upper-casing once |
| `Report.FormatDate` | App.jsx:89-90 | an empty deadline shows as empty text, and any other goes to the date renderer |
| `Report.HeaderCells` | App.jsx:118-125 | the heading markup is empty exactly when there are no headings, and otherwise starts on a new line |
| `Report.HeaderCellsConcat` | App.jsx:118-125 | the heading markup of joined heading lists is the joined markup, so the headings appear in list order |
| `Report.HeaderCellsSingle` | App.jsx:119-124 | one heading is a `<th style="width: …;">…</th>` cell on its own line with its width and caption |
| `Report.RenderRow` | App.jsx:115-140 | the markup of every row is non-empty and starts on a new line |
| `Report.Join` | App.jsx:135 | `join('')` starts with the first part, is that part alone for a single part, and is empty when every part is |
| `Report.DataRowOf` | App.jsx:127-133 | an entry's row carries the given number, the item, month and status verbatim, the amount through the currency renderer, and an empty deadline cell exactly when the deadline is empty, the date renderer's text otherwise |
| `Report.RenderRows` | App.jsx:126-135 | the markup of a row list is empty exactly when the list is, and otherwise starts on a new line |
| `Report.DataRows` | App.jsx:126-135 | one row per entry, in list order, entry `k` numbered `first + k`, with the item text verbatim |
| `Report.Rows` | App.jsx:115-140 | the title row with the upper-cased title, then the heading row, then entry `k` as row number `k + 1`, then the totals row with the formatted total; the table has three rows more than the list has entries |
| `Report.Document` | App.jsx:147 | the downloaded text is non-empty and starts with the byte order mark |
| `Report.Map` | App.jsx:126 | `map` gives one part per row |
| `Report.MapConcat` | App.jsx:126 | mapping a joined row list gives the joined mapped lists |
| `Report.JoinConcat` | App.jsx:135 | `join('')` of joined part lists is the concatenation of their joins |
| `Report.MapJoinSingle` | App.jsx:126-135 | mapping and joining a one-row list gives that row's text |
| `Report.RenderRowsConcat` | App.jsx:135 | the markup of joined row lists is the joined markup |
| `Report.RenderPieces` | App.jsx:114-140 | the markup of the title row, the heading row, the data rows and a last row is their texts in that order |
| `Report.MapJoinPieces` | App.jsx:114-140 | for any rendering of rows, mapping and joining four pieces gives their texts in order |
| `Report.RenderRowsSingle` | App.jsx:126-135 | a one-row list renders as that row's markup |
| `Report.TableLayout` | App.jsx:114-140 | the table markup is the title row, the heading row, the entry rows in order and the totals row |
| `Report.DataRowsAppend` | App.jsx:126-135 | appending an entry appends exactly one row, numbered one past the last, and leaves earlier rows unchanged |
| `Report.EmptyLedgerExport` | App.jsx:126-140 | an empty ledger exports the title, the headings and a totals row of 0, and no data row |
| `Report.TwoEntriesExport` | App.jsx:136-140 | entries of 100 and 250 export five rows, the last one showing the formatted 350 |
| `Report.NoDeadlineCell` | App.jsx:90 | an empty deadline gives an empty deadline cell |
| `Maker.MaintenanceMaker.TotalAmount` | App.jsx:21 | the total of an empty ledger is 0, and the total is never negative while no amount is negative |
| `Maker.MaintenanceMaker.constructor` | App.jsx:6-18 | the component starts with no entries, the empty form with status `Pending`, and the default title |
| `Maker.MaintenanceMaker.HandleInputChange` | App.jsx:42-48 | the named form field takes the new value; the entries, the title and the other fields stay as they were |
| `Maker.MaintenanceMaker.HandleAddItem` | App.jsx:51-72 | an empty item or amount text changes nothing. Otherwise the form becomes one entry appended at the end: it takes the form's item, month, deadline and status, the parsed amount and the given id. The total grows by that amount, the form is cleared to `''` with status `Pending` and keeps its month, and the title is unchanged |
| `Maker.MaintenanceMaker.HandleDelete` | App.jsx:75-77 | the entries become the filtered list, the total drops by the total of the removed entries, and the form and title are unchanged |
| `Maker.MaintenanceMaker.SetReportTitle` | App.jsx:285 | the title takes the typed value; the entries and form are unchanged |
| `Maker.MaintenanceMaker.ExportToExcel` | App.jsx:96-147 | the exported text is the document for the current title and entries, starting with the byte order mark |

## Left out

- Rendering, styling, icons, the on-screen table and its empty state (App.jsx:158-371): presentation only.
- The Blob, the object URL, the link element and the click that starts the download (App.jsx:147-154): browser I/O. The model stops at the text handed to the Blob.
- `formatCurrency` (App.jsx:80-86): `Intl.NumberFormat` with the `en-IN` locale, INR and whole-unit rounding is a locale library call on floating-point numbers. It is a function parameter `money` of the export.
- `formatDate` past its empty-string guard (App.jsx:91-92): the date parsing and `toLocaleDateString` are locale library calls. They are a function parameter `date`.
- The clock: `new Date()` (App.jsx:26) and `Date.now()` (App.jsx:58) are parameters. Ids are not assumed unique, because nothing in the component guarantees it; the lemmas on unique ids take uniqueness as a hypothesis.
- Floating point: amounts and the total are exact reals, so rounding in `parseFloat` and `+` is not modelled, and neither is overflow: `parseFloat("1e400")` is `Infinity` in the browser, while the model stores 10^400 exactly.
- `Amounts.ParseFloat`: models an optional sign, integer digits, an optional point with fraction digits and an optional exponent (`1e3` is 1000, `2.5E-1` is 0.25). It does not model leading white space or `Infinity`: a `type="number"` input reports neither, since it empties any value that is not a valid floating-point number.
- `Amounts.Contribution`: applies `parseFloat(x) || 0` to a stored number `x` as `x` itself. This holds because `parseFloat` of a number's own text gives the number back.
- `Report.RenderRow`: its contract says only that every row starts on a new line. The exact text of each row is its definition, and `Report.TableLayout` places the rows in the table.
- `Report.ToUpper`: upper-cases ASCII letters only. `toUpperCase` also maps other letters, and some of them (such as `ß`) to two characters.
- `MonthOptions.PeriodOf`: does not model the limit of JavaScript dates (about 275,000 years either side of 1970), beyond which `toLocaleString` gives "Invalid Date", `getFullYear()` gives NaN, and the label reads "Invalid Date-aN".
- The HTML `required` attributes on the item, month and amount inputs (App.jsx:200-233) are browser form validation. They are not part of `handleAddItem`, so the model, like the handler, accepts an empty month.
- `e.preventDefault()` (App.jsx:52) has no effect on the modelled state.
