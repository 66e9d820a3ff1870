/**
 * The report editor dialog: whether it is shown and which report it holds.
 * Opening shows the clicked report; cancel and save hide the dialog and keep the
 * report; a field edit replaces the held report by a copy with that field changed.
 */
module ReportEditor {
  import opened Wrappers
  import opened Entities
  import opened ReportView

  class ReportModal {
    var reportVisible: bool
    var report: Option<Report>

    /** The dialog is only ever shown with a report in it. */
    ghost predicate Valid()
      reads this
    {
      reportVisible ==> report.Some?
    }

    /** The page starts with the dialog hidden and no report. */
    constructor ()
      ensures Valid() && !reportVisible && report == None
    {
      reportVisible := false;
      report := None;
    }

    /** A click on a cell shows the dialog with that cell's report. */
    method OpenReport(r: Report)
      modifies this
      ensures Valid()
      ensures reportVisible && report == Some(r)
    {
      reportVisible := true;
      report := Some(r);
    }

    /**
     * Save: returns the report sent to the backend, keyed by its owner and name,
     * and hides the dialog whatever the save's outcome; the held report is kept.
     * The Save button exists only inside the shown dialog.
     */
    method HandleReportOk() returns (submitted: Report)
      requires Valid() && reportVisible
      modifies this`reportVisible
      ensures Valid()
      ensures !reportVisible && report == old(report)
      ensures submitted == report.value
    {
      submitted := report.value;
      reportVisible := false;
    }

    /** Cancel: hides the dialog and sends nothing; the held report is kept. */
    method HandleReportCancel()
      requires Valid()
      modifies this`reportVisible
      ensures Valid()
      ensures !reportVisible && report == old(report)
    {
      reportVisible := false;
    }

    /**
     * A field edit: the value is parsed when the key is the score, and the held
     * report is replaced by a copy with that one field changed. The rating
     * control that edits exists only inside the shown dialog.
     */
    method UpdateReportField(key: string, value: FieldValue, parseInt: FieldValue -> int)
      requires Valid() && reportVisible
      modifies this`report
      ensures Valid()
      ensures reportVisible == old(reportVisible)
      ensures report == Some(SetField(old(report).value, key, ParseReportField(key, value, parseInt)))
    {
      var v := ParseReportField(key, value, parseInt);
      report := Some(SetField(report.value, key, v));
    }
  }

  /**
   * Opening a cell's report and rating it: the dialog's report differs from the
   * cell's in the score alone, and is shown as not available exactly when the
   * cell's report has no text.
   */
  method OpenAndRate(cell: Report, value: FieldValue, parseInt: FieldValue -> int) returns (edited: Report)
    ensures edited == cell.(score := parseInt(value))
    ensures GetTag(edited).NotAvailable? <==> cell.text == ""
  {
    var modal := new ReportModal();
    modal.OpenReport(cell);
    modal.UpdateReportField("score", value, parseInt);
    ParsedScoreFits(cell, value, parseInt);
    edited := modal.report.value;
  }
}
