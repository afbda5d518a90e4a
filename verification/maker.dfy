/** The `MaintenanceMaker` component's state and event handlers: the ledger,
    the entry form and the report title, each replaced by the handlers one
    event at a time. The clock value used as a new entry's id, and the
    locale renderers used by the export, come in as parameters. */
module Maker {
  import opened Amounts
  import opened Ledger
  import opened Report

  /** The report title the component starts with. */
  const DefaultTitle: string := "OFFICE MAINTENANCE SPENDING JULY 2025"

  class MaintenanceMaker {
    /** The ledger, in the order the entries were added. */
    var items: seq<Entry>
    /** The entry form. */
    var newItem: Form
    /** The editable report title. */
    var reportTitle: string

    constructor ()
      ensures items == [] && newItem == EmptyForm && reportTitle == DefaultTitle
    {
      items := [];
      newItem := EmptyForm;
      reportTitle := DefaultTitle;
    }

    /** The total shown under the table and exported: 0 for an empty
        ledger, and never negative while no amount is negative. */
    function TotalAmount(): (r: real)
      reads this
      ensures items == [] ==> r == 0.0
      ensures (forall i :: 0 <= i < |items| ==> Contribution(items[i].amount) >= 0.0) ==> r >= 0.0
    {
      Total(items)
    }

    /** `handleInputChange`: the input named `name` now holds `value`;
        nothing else changes. */
    method HandleInputChange(name: Field, value: string)
      modifies this
      ensures newItem == WithField(old(newItem), name, value)
      ensures items == old(items) && reportTitle == old(reportTitle)
    {
      newItem := WithField(newItem, name, value);
    }

    /** `handleAddItem`, with `now` the clock reading that becomes the id.
        A form with an empty item or amount changes nothing. Otherwise the
        form becomes one new entry at the end of the list, the total grows by
        its amount, and the form is cleared except for its month. */
    method HandleAddItem(now: int)
      modifies this
      ensures !CanAdd(old(newItem)) ==> items == old(items) && newItem == old(newItem)
      ensures CanAdd(old(newItem)) ==>
        items == old(items) + [NewEntry(old(newItem), now)] && newItem == Cleared(old(newItem))
      ensures CanAdd(old(newItem)) ==>
        TotalAmount() == old(TotalAmount()) + Contribution(ParseFloat(old(newItem).amount))
      ensures reportTitle == old(reportTitle)
    {
      if !CanAdd(newItem) {
        return;
      }
      TotalAfterAdd(items, newItem, now);
      items := items + [NewEntry(newItem, now)];
      newItem := Cleared(newItem);
    }

    /** `handleDelete`: every entry with the id goes, the others stay in
        order, and the total loses exactly what went. */
    method HandleDelete(id: int)
      modifies this
      ensures items == WithoutId(old(items), id)
      ensures TotalAmount() == old(TotalAmount()) - Total(WithId(old(items), id))
      ensures newItem == old(newItem) && reportTitle == old(reportTitle)
    {
      TotalSplit(items, id);
      items := WithoutId(items, id);
    }

    /** The title input's change handler. */
    method SetReportTitle(title: string)
      modifies this
      ensures reportTitle == title
      ensures items == old(items) && newItem == old(newItem)
    {
      reportTitle := title;
    }

    /** `exportToExcel`, up to the download: the text put in the file, the
        byte order mark first. */
    method ExportToExcel(money: Num -> string, date: string -> string) returns (content: string)
      ensures content == Document(reportTitle, items, money, date)
      ensures |content| > 0 && content[0] == BOM
    {
      content := Document(reportTitle, items, money, date);
    }
  }
}
