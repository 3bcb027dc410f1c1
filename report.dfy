/**
 * The "Adj Euthanasia Rate" sheet: a header, then one line per month with its
 * label, Total and the two rates, a NaN rate being written as 0. `Run` is the
 * script from the fetched records to that sheet's rows.
 */
module Report {
  import opened Wrappers
  import opened Records
  import opened MonthLabels
  import opened Aggregation
  import opened Metrics

  datatype SheetRow =
    | Header(titles: seq<string>)
    | Line(month: string, totalIntake: nat, actualRate: Rate, adjustedRate: Rate)

  const SheetTitle: string := "Adj Euthanasia Rate"
  const Titles: seq<string> := ["Month", "Total Intake", "Actual Euthanasia Rate %", "Adjusted Euthanasia Rate %"]

  /** A rate as it is written to a cell: NaN becomes 0, anything else stays. */
  function Shown(r: Rate): (shown: Rate)
    ensures !shown.Undefined?
    ensures r.Undefined? ==> shown == Percent(0.0)
    ensures !r.Undefined? ==> shown == r
  {
    if r.Undefined? then Percent(0.0) else r
  }

  function SheetLine(row: Row, total: nat, euthRate: Rate, adjEuthRate: Rate): SheetRow {
    Line(row.monthYear, total, Shown(euthRate), Shown(adjEuthRate))
  }

  /** The lines written for a table's rows and its derived columns, in table order. */
  function SheetLines(rows: seq<Row>, totals: seq<nat>, euthRates: seq<Rate>, adjEuthRates: seq<Rate>): (s: seq<SheetRow>)
    requires |totals| == |rows| && |euthRates| == |rows| && |adjEuthRates| == |rows|
    ensures |s| == |rows|
    ensures forall i :: 0 <= i < |rows| ==>
      && s[i].Line?
      && s[i].month == rows[i].monthYear
      && s[i].totalIntake == totals[i]
      && s[i].actualRate == Shown(euthRates[i])
      && s[i].adjustedRate == Shown(adjEuthRates[i])
  {
    seq(|rows|, i requires 0 <= i < |rows| => SheetLine(rows[i], totals[i], euthRates[i], adjEuthRates[i]))
  }

  /** The whole sheet for an aggregated table. */
  function AdjustedSheet(rows: seq<Row>): (sheet: seq<SheetRow>)
    requires AllWellFormed(rows)
    ensures |sheet| == |rows| + 1 && sheet[0] == Header(Titles)
    ensures forall i :: 0 <= i < |rows| ==>
      && sheet[i + 1].Line?
      && sheet[i + 1].month == rows[i].monthYear
      && sheet[i + 1].totalIntake == RowTotal(rows[i])
      && sheet[i + 1].actualRate == Shown(EuthRate(rows[i]))
      && sheet[i + 1].adjustedRate == Shown(AdjEuthRate(rows[i].euthanasia, Baseline(rows, Totals(rows))))
  {
    var totals := Totals(rows);
    [Header(Titles)] + SheetLines(rows, totals, EuthRates(rows, totals), AdjEuthRates(rows, Baseline(rows, totals)))
  }

  /** A worksheet that rows are appended to. */
  class Worksheet {
    const title: string
    var rows: seq<SheetRow>

    constructor (title: string)
      ensures this.title == title && rows == []
    {
      this.title := title;
      rows := [];
    }

    method Append(row: SheetRow)
      modifies this
      ensures rows == old(rows) + [row]
    {
      rows := rows + [row];
    }
  }

  /** Writes the header, then one line per row of the table, in table order. */
  method WriteAdjustedRates(m: Monthly, ws: Worksheet)
    requires |m.total| == |m.rows| && |m.euthRate| == |m.rows| && |m.adjEuthRate| == |m.rows|
    modifies ws
    ensures ws.rows == old(ws.rows) + [Header(Titles)] + SheetLines(m.rows, m.total, m.euthRate, m.adjEuthRate)
  {
    ws.Append(Header(Titles));
    var i := 0;
    while i < |m.rows|
      invariant 0 <= i <= |m.rows|
      invariant ws.rows == old(ws.rows) + [Header(Titles)]
        + SheetLines(m.rows[..i], m.total[..i], m.euthRate[..i], m.adjEuthRate[..i])
    {
      ws.Append(SheetLine(m.rows[i], m.total[i], m.euthRate[i], m.adjEuthRate[i]));
      assert SheetLines(m.rows[..i + 1], m.total[..i + 1], m.euthRate[..i + 1], m.adjEuthRate[..i + 1])
          == SheetLines(m.rows[..i], m.total[..i], m.euthRate[..i], m.adjEuthRate[..i])
           + [SheetLine(m.rows[i], m.total[i], m.euthRate[i], m.adjEuthRate[i])];
      i := i + 1;
    }
    assert m.rows[..i] == m.rows && m.total[..i] == m.total;
    assert m.euthRate[..i] == m.euthRate && m.adjEuthRate[..i] == m.adjEuthRate;
  }

  /** Adds the derived columns to an aggregated table and writes the adjusted-rate sheet. */
  method BuildSheet(rows: seq<Row>) returns (sheet: seq<SheetRow>)
    requires AllWellFormed(rows)
    ensures sheet == AdjustedSheet(rows)
  {
    var monthly := new Monthly(rows);
    monthly.AddTotal();
    monthly.AddEuthRate();
    var baseline := Baseline(monthly.rows, monthly.total);
    monthly.AddAdjEuthRate(baseline);
    var ws := new Worksheet(SheetTitle);
    WriteAdjustedRates(monthly, ws);
    assert ws.rows == [Header(Titles)] + SheetLines(monthly.rows, monthly.total, monthly.euthRate, monthly.adjEuthRate);
    sheet := ws.rows;
  }

  /**
   * The script without its I/O: aggregate the fetched records, add the
   * derived columns, and write the adjusted-rate sheet; or the failure that
   * stops it.
   */
  method Run(rs: seq<Record>) returns (r: Result<seq<SheetRow>, Failure>)
    ensures Aggregate(rs).Err? ==> r == Err(Aggregate(rs).error)
    ensures Aggregate(rs).Ok? ==> r == Ok(AdjustedSheet(Aggregate(rs).value))
  {
    var aggregated := Aggregate(rs);
    if aggregated.Err? {
      return Err(aggregated.error);
    }
    var sheet := BuildSheet(aggregated.value);
    r := Ok(sheet);
  }

  /**
   * Every line of the sheet carries its month's label and Total, and its
   * month's EuthRate as written: a percentage in [0, 100], 0 for a month whose
   * Total is 0 (ShownEuthRate gives its value).
   */
  lemma {:induction false} SheetCells(rows: seq<Row>, i: nat)
    requires AllWellFormed(rows) && i < |rows|
    ensures |AdjustedSheet(rows)| == |rows| + 1 && AdjustedSheet(rows)[0] == Header(Titles)
    ensures var line := AdjustedSheet(rows)[i + 1];
      && line.Line?
      && line.month == rows[i].monthYear
      && line.totalIntake == RowTotal(rows[i])
      && line.actualRate == Shown(EuthRate(rows[i]))
      && line.actualRate.Percent? && 0.0 <= line.actualRate.value <= 100.0
      && (RowTotal(rows[i]) == 0 ==> line.actualRate == Percent(0.0))
  {
    ShownEuthRate(rows[i]);
  }

  /** The actual rate as written: a percentage in [0, 100], 0 for a month whose Total is 0. */
  lemma ShownEuthRate(row: Row)
    ensures var shown := Shown(EuthRate(row));
      && shown.Percent? && 0.0 <= shown.value <= 100.0
      && (RowTotal(row) == 0 ==> shown == Percent(0.0))
      && (RowTotal(row) > 0 ==> shown.value * RowTotal(row) as real == row.euthanasia as real * 100.0)
  {
    EuthRateRange(row);
  }

  /**
   * The adjusted rate on a line is its month's AdjEuthRate as written: a
   * percentage when the baseline is positive (ShownAdjEuthRate gives its
   * value), 0 when there is no baseline, never NaN.
   */
  lemma {:induction false} SheetAdjustedCells(rows: seq<Row>, i: nat)
    requires AllWellFormed(rows) && i < |rows|
    ensures var line, b := AdjustedSheet(rows)[i + 1], Baseline(rows, Totals(rows));
      && line.Line?
      && line.adjustedRate == Shown(AdjEuthRate(rows[i].euthanasia, b))
      && !line.adjustedRate.Undefined?
      && (b.None? ==> line.adjustedRate == Percent(0.0))
      && (b.Some? && b.value > 0.0 ==> line.adjustedRate.Percent?)
  {
    ShownAdjEuthRate(rows[i].euthanasia, Baseline(rows, Totals(rows)));
  }

  /** The adjusted rate as written: never NaN, 0 without a baseline, Euthanasia over a positive baseline. */
  lemma ShownAdjEuthRate(euthanasia: nat, b: Option<real>)
    requires b.Some? ==> b.value >= 0.0
    ensures var shown := Shown(AdjEuthRate(euthanasia, b));
      && !shown.Undefined?
      && (b.None? ==> shown == Percent(0.0))
      && (b.Some? && b.value > 0.0 ==> shown.Percent? && shown.value * b.value == euthanasia as real * 100.0)
  {
  }

  /** With no month before the cutoff, every adjusted rate on the sheet is written as 0. */
  lemma SheetWithoutBaseline(rows: seq<Row>)
    requires AllWellFormed(rows)
    requires forall r :: r in rows ==> !BeforeCutoff(r.monthYear)
    ensures forall i :: 1 <= i < |AdjustedSheet(rows)| ==> AdjustedSheet(rows)[i].adjustedRate == Percent(0.0)
  {
    NoBaselineNoAdjustedRate(rows, Totals(rows));
  }

  /** An empty fetch writes no sheet: it fails for the missing `datetime` column. */
  lemma EmptyFetchFails()
    ensures Aggregate([]) == Err(MissingColumn("datetime"))
  {
  }
}
