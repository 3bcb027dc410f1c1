/**
 * The derived columns of the monthly table: Total, EuthRate, the baseline
 * intake before March 2020 and AdjEuthRate. Rates are exact reals; the
 * floating-point results NaN and +inf are kept as explicit cases.
 */
module Metrics {
  import opened Wrappers
  import opened Records
  import opened MonthLabels
  import opened Aggregation

  /** A rate as a floating-point division leaves it: a number, NaN, or +inf. */
  datatype Rate = Percent(value: real) | Undefined | Infinite

  /** `num / den * 100` under floating-point division by a non-negative denominator. */
  function Percentage(num: nat, den: real): (r: Rate)
    requires den >= 0.0
    ensures r.Undefined? <==> num == 0 && den == 0.0
    ensures r.Infinite? <==> num > 0 && den == 0.0
    ensures r.Percent? ==> den > 0.0 && r.value * den == num as real * 100.0
  {
    if den > 0.0 then Percent(num as real / den * 100.0)
    else if num == 0 then Undefined
    else Infinite
  }

  /** The Total column of one row: the sum of its four kept outcome counts. */
  function RowTotal(row: Row): (t: nat)
    ensures forall c :: row.Get(c) <= t
  {
    row.adoption + row.transfer + row.euthanasia + row.returnToOwner
  }

  function Totals(rows: seq<Row>): (ts: seq<nat>)
    ensures |ts| == |rows|
    ensures forall i, c :: 0 <= i < |rows| ==> rows[i].Get(c) <= ts[i]
  {
    seq(|rows|, i requires 0 <= i < |rows| => RowTotal(rows[i]))
  }

  /** The EuthRate column: Euthanasia over Total, as a percentage, row by row. */
  function EuthRates(rows: seq<Row>, totals: seq<nat>): (rs: seq<Rate>)
    requires |totals| == |rows|
    ensures |rs| == |rows|
    ensures totals == Totals(rows) ==> forall i :: 0 <= i < |rows| ==> rs[i] == EuthRate(rows[i])
  {
    seq(|rows|, i requires 0 <= i < |rows| => Percentage(rows[i].euthanasia, totals[i] as real))
  }

  function EuthRate(row: Row): (r: Rate)
    ensures r.Undefined? <==> RowTotal(row) == 0
    ensures r.Percent? ==> r.value * RowTotal(row) as real == row.euthanasia as real * 100.0
  {
    Percentage(row.euthanasia, RowTotal(row) as real)
  }

  /**
   * The raw rate is a percentage between 0 and 100 whenever the month has a
   * total, is NaN exactly when the total is 0, and is never infinite.
   */
  lemma EuthRateRange(row: Row)
    ensures RowTotal(row) == 0 <==> EuthRate(row).Undefined?
    ensures RowTotal(row) > 0 ==> EuthRate(row).Percent? && 0.0 <= EuthRate(row).value <= 100.0
    ensures !EuthRate(row).Infinite?
  {
    var t := RowTotal(row);
    if t > 0 {
      RealDivUpper(row.euthanasia as real, 1.0, t as real);
    }
  }

  /** The month the baseline period ends before: rows dated before 2020-03-01 form the baseline. */
  const Cutoff: YearMonth := YearMonth(2020, 3)

  predicate BeforeCutoff(s: string)
    requires WellFormed(s)
  {
    SortKey(s) < MonthIndex(Cutoff)
  }

  /** The Total values of the rows dated before the cutoff, in table order. */
  function PreCutoff(rows: seq<Row>, totals: seq<nat>): (ts: seq<nat>)
    requires AllWellFormed(rows) && |totals| == |rows|
    ensures |ts| <= |rows|
  {
    if rows == [] then []
    else
      assert forall r :: r in rows[1..] ==> r in rows;
      (if BeforeCutoff(rows[0].monthYear) then [totals[0]] else []) + PreCutoff(rows[1..], totals[1..])
  }

  /**
   * Adding a row at the end adds its Total to the baseline's values exactly
   * when the row is dated before the cutoff.
   */
  lemma {:induction false} PreCutoffAppend(rows: seq<Row>, totals: seq<nat>, r: Row, t: nat)
    requires AllWellFormed(rows + [r]) && |totals| == |rows|
    ensures AllWellFormed(rows)
    ensures PreCutoff(rows + [r], totals + [t]) == PreCutoff(rows, totals) + (if BeforeCutoff(r.monthYear) then [t] else [])
  {
    assert forall x :: x in rows ==> x in rows + [r];
    assert r in rows + [r];
    if rows == [] {
      assert [r][1..] == [] && ([] + [r]) == [r] && ([] + [t]) == [t];
    } else {
      assert (rows + [r])[1..] == rows[1..] + [r];
      assert (totals + [t])[1..] == totals[1..] + [t];
      PreCutoffAppend(rows[1..], totals[1..], r, t);
    }
  }

  function Sum(xs: seq<nat>): nat {
    if xs == [] then 0 else xs[0] + Sum(xs[1..])
  }

  /** The mean of a sequence; None for an empty one, where the division gives NaN. */
  function Mean(xs: seq<nat>): (m: Option<real>)
    ensures m.None? <==> xs == []
    ensures m.Some? ==> m.value >= 0.0
    ensures m.Some? ==> m.value * |xs| as real == Sum(xs) as real
  {
    if xs == [] then None
    else
      RealDivTimes(Sum(xs) as real, |xs| as real);
      Some(Sum(xs) as real / |xs| as real)
  }

  lemma RealDivTimes(s: real, n: real)
    requires n > 0.0
    ensures s / n * n == s
  {
  }

  lemma {:induction false} SumBetween(xs: seq<nat>, lo: nat, hi: nat)
    requires forall k :: 0 <= k < |xs| ==> lo <= xs[k] <= hi
    ensures lo * |xs| <= Sum(xs) <= hi * |xs|
  {
    if xs != [] {
      SumBetween(xs[1..], lo, hi);
      assert lo * |xs| == lo + lo * |xs[1..]|;
      assert hi * |xs| == hi + hi * |xs[1..]|;
    }
  }

  lemma RealDivLower(a: real, s: real, n: real)
    requires n > 0.0 && a * n <= s
    ensures a <= s / n
  {
  }

  lemma RealDivUpper(s: real, b: real, n: real)
    requires n > 0.0 && s <= b * n
    ensures s / n <= b
  {
  }

  lemma RealOfProduct(a: int, b: int)
    ensures (a * b) as real == a as real * b as real
  {
  }

  lemma QuotientBetween(s: int, n: int, lo: int, hi: int)
    requires n > 0 && lo * n <= s <= hi * n
    ensures lo as real <= s as real / n as real <= hi as real
  {
    RealOfProduct(lo, n);
    RealOfProduct(hi, n);
    RealDivLower(lo as real, s as real, n as real);
    RealDivUpper(s as real, hi as real, n as real);
  }

  /** A mean lies between any lower and upper bound of the values averaged. */
  lemma MeanBetween(xs: seq<nat>, lo: nat, hi: nat)
    requires xs != []
    requires forall k :: 0 <= k < |xs| ==> lo <= xs[k] <= hi
    ensures lo as real <= Mean(xs).value <= hi as real
  {
    SumBetween(xs, lo, hi);
    QuotientBetween(Sum(xs), |xs|, lo, hi);
  }

  /** The baseline intake: the mean Total over the rows dated before the cutoff. */
  function Baseline(rows: seq<Row>, totals: seq<nat>): (b: Option<real>)
    requires AllWellFormed(rows) && |totals| == |rows|
    ensures b.None? <==> PreCutoff(rows, totals) == []
    ensures b.Some? ==> b.value >= 0.0
  {
    Mean(PreCutoff(rows, totals))
  }

  /** A defined baseline times the number of pre-cutoff months is the sum of their Totals. */
  lemma {:induction false} BaselineIsMean(rows: seq<Row>, totals: seq<nat>)
    requires AllWellFormed(rows) && |totals| == |rows|
    ensures var pre := PreCutoff(rows, totals);
      Baseline(rows, totals).Some? ==> Baseline(rows, totals).value * |pre| as real == Sum(pre) as real
  {
    var pre := PreCutoff(rows, totals);
    if pre != [] {
      assert Baseline(rows, totals) == Mean(pre);
    }
  }

  /** The AdjEuthRate of one row: Euthanasia over the baseline, as a percentage. */
  function AdjEuthRate(euthanasia: nat, baseline: Option<real>): (r: Rate)
    requires baseline.Some? ==> baseline.value >= 0.0
    ensures baseline.None? ==> r == Undefined
    ensures baseline.Some? && baseline.value > 0.0 ==>
      r.Percent? && r.value * baseline.value == euthanasia as real * 100.0
    ensures baseline == Some(0.0) ==> (r.Undefined? <==> euthanasia == 0) && (r.Infinite? <==> euthanasia > 0)
  {
    match baseline
    case None => Undefined
    case Some(b) => Percentage(euthanasia, b)
  }

  function AdjEuthRates(rows: seq<Row>, baseline: Option<real>): (rs: seq<Rate>)
    requires baseline.Some? ==> baseline.value >= 0.0
    ensures |rs| == |rows|
    ensures forall i, j :: 0 <= i < |rows| && 0 <= j < |rows| && rows[i].euthanasia == rows[j].euthanasia ==> rs[i] == rs[j]
    ensures baseline.None? ==> forall i :: 0 <= i < |rows| ==> rs[i] == Undefined
    ensures forall i :: 0 <= i < |rows| ==> rs[i] == AdjEuthRate(rows[i].euthanasia, baseline)
    ensures baseline.Some? && baseline.value > 0.0 ==> forall i :: 0 <= i < |rows| ==>
      rs[i].Percent? && rs[i].value * baseline.value == rows[i].euthanasia as real * 100.0
  {
    seq(|rows|, i requires 0 <= i < |rows| => AdjEuthRate(rows[i].euthanasia, baseline))
  }

  /** The baseline is undefined exactly when no row is dated before the cutoff. */
  lemma {:induction false} BaselineUndefined(rows: seq<Row>, totals: seq<nat>)
    requires AllWellFormed(rows) && |totals| == |rows|
    ensures Baseline(rows, totals).None? <==> forall r :: r in rows ==> !BeforeCutoff(r.monthYear)
  {
    if rows != [] {
      assert forall r :: r in rows[1..] ==> r in rows;
      BaselineUndefined(rows[1..], totals[1..]);
      assert forall r :: r in rows ==> r == rows[0] || r in rows[1..];
    }
  }

  lemma {:induction false} PreCutoffBetween(rows: seq<Row>, totals: seq<nat>, lo: nat, hi: nat)
    requires AllWellFormed(rows) && |totals| == |rows|
    requires forall i :: 0 <= i < |rows| && BeforeCutoff(rows[i].monthYear) ==> lo <= totals[i] <= hi
    ensures forall k :: 0 <= k < |PreCutoff(rows, totals)| ==> lo <= PreCutoff(rows, totals)[k] <= hi
  {
    if rows != [] {
      assert forall r :: r in rows[1..] ==> r in rows;
      forall i | 0 <= i < |rows[1..]| && BeforeCutoff(rows[1..][i].monthYear)
        ensures lo <= totals[1..][i] <= hi
      {
        assert rows[1..][i] == rows[i + 1];
      }
      PreCutoffBetween(rows[1..], totals[1..], lo, hi);
    }
  }

  /**
   * When every month before the cutoff has a Total between lo and hi, the
   * baseline lies between lo and hi too.
   */
  lemma BaselineBetween(rows: seq<Row>, totals: seq<nat>, lo: nat, hi: nat)
    requires AllWellFormed(rows) && |totals| == |rows|
    requires Baseline(rows, totals).Some?
    requires forall i :: 0 <= i < |rows| && BeforeCutoff(rows[i].monthYear) ==> lo <= totals[i] <= hi
    ensures lo as real <= Baseline(rows, totals).value <= hi as real
  {
    PreCutoffBetween(rows, totals, lo, hi);
    MeanBetween(PreCutoff(rows, totals), lo, hi);
  }

  /** The baseline reads only rows dated before the cutoff: later rows may change freely. */
  lemma {:induction false} PreCutoffIgnoresLaterRows(rows: seq<Row>, totals: seq<nat>, rows': seq<Row>, totals': seq<nat>)
    requires AllWellFormed(rows) && |totals| == |rows|
    requires |rows'| == |rows| && |totals'| == |rows|
    requires forall i :: 0 <= i < |rows| ==> rows'[i].monthYear == rows[i].monthYear
    requires forall i :: 0 <= i < |rows| && BeforeCutoff(rows[i].monthYear) ==> totals'[i] == totals[i]
    ensures AllWellFormed(rows') && PreCutoff(rows', totals') == PreCutoff(rows, totals)
  {
    assert forall r :: r in rows' ==> exists i :: 0 <= i < |rows| && r == rows'[i];
    assert AllWellFormed(rows') by {
      forall r | r in rows' ensures WellFormed(r.monthYear) {
        var i :| 0 <= i < |rows| && r == rows'[i];
        assert rows[i] in rows;
      }
    }
    if rows != [] {
      assert forall r :: r in rows[1..] ==> r in rows;
      forall i | 0 <= i < |rows[1..]| && BeforeCutoff(rows[1..][i].monthYear)
        ensures totals'[1..][i] == totals[1..][i]
      {
        assert rows[1..][i] == rows[i + 1];
      }
      PreCutoffIgnoresLaterRows(rows[1..], totals[1..], rows'[1..], totals'[1..]);
    }
  }

  /**
   * A row's AdjEuthRate does not depend on its own Total: replacing a row dated
   * on or after the cutoff by one with the same label and Euthanasia count,
   * whatever its other counts, leaves its adjusted rate unchanged.
   */
  lemma AdjustedIgnoresOwnTotal(rows: seq<Row>, i: nat, row': Row)
    requires AllWellFormed(rows) && i < |rows|
    requires row'.monthYear == rows[i].monthYear && row'.euthanasia == rows[i].euthanasia
    requires !BeforeCutoff(rows[i].monthYear)
    ensures AllWellFormed(rows[i := row'])
    ensures Baseline(rows[i := row'], Totals(rows[i := row'])) == Baseline(rows, Totals(rows))
    ensures AdjEuthRates(rows[i := row'], Baseline(rows[i := row'], Totals(rows[i := row'])))[i]
         == AdjEuthRates(rows, Baseline(rows, Totals(rows)))[i]
  {
    PreCutoffIgnoresLaterRows(rows, Totals(rows), rows[i := row'], Totals(rows[i := row']));
  }

  /** With no row before the cutoff, every AdjEuthRate is NaN. */
  lemma NoBaselineNoAdjustedRate(rows: seq<Row>, totals: seq<nat>)
    requires AllWellFormed(rows) && |totals| == |rows|
    requires forall r :: r in rows ==> !BeforeCutoff(r.monthYear)
    ensures forall i :: 0 <= i < |rows| ==> AdjEuthRates(rows, Baseline(rows, totals))[i] == Undefined
  {
    BaselineUndefined(rows, totals);
  }

  /** In an aggregated table, a month's Total never exceeds the surviving records of that month. */
  lemma {:induction false} TotalWithinMonth(rs: seq<Record>)
    ensures Aggregate(rs).Ok? ==> forall i :: 0 <= i < |Aggregate(rs).value| ==>
      RowTotal(Aggregate(rs).value[i]) <= InMonth(Survivors(rs), Aggregate(rs).value[i].monthYear)
  {
    if Aggregate(rs).Ok? {
      var rows := Aggregate(rs).value;
      forall i | 0 <= i < |rows| ensures RowTotal(rows[i]) <= InMonth(Survivors(rs), rows[i].monthYear) {
        assert rows[i].adoption == rows[i].Get(Adoption) && rows[i].transfer == rows[i].Get(Transfer);
        assert rows[i].euthanasia == rows[i].Get(Euthanasia) && rows[i].returnToOwner == rows[i].Get(ReturnToOwner);
        KeptCountsWithinMonth(Survivors(rs), rows[i].monthYear);
      }
    }
  }

  /**
   * In an aggregated table, a month's Total is exactly the number of its
   * surviving records whose outcome type is one of the four kept ones.
   */
  lemma {:induction false} TotalIsKeptInMonth(rs: seq<Record>)
    ensures Aggregate(rs).Ok? ==> forall i :: 0 <= i < |Aggregate(rs).value| ==>
      RowTotal(Aggregate(rs).value[i]) == KeptInMonth(Survivors(rs), Aggregate(rs).value[i].monthYear)
  {
    if Aggregate(rs).Ok? {
      var rows := Aggregate(rs).value;
      forall i | 0 <= i < |rows| ensures RowTotal(rows[i]) == KeptInMonth(Survivors(rs), rows[i].monthYear) {
        RowTotalIsKept(rows[i], Survivors(rs));
      }
    }
  }

  /** A row whose cells are the counts of a month has as Total the month's records with a kept outcome type. */
  lemma RowTotalIsKept(row: Row, ls: seq<Labelled>)
    requires forall c :: row.Get(c) == Count(ls, row.monthYear, c.Name())
    ensures RowTotal(row) == KeptInMonth(ls, row.monthYear)
  {
    assert row.adoption == row.Get(Adoption) && row.transfer == row.Get(Transfer);
    assert row.euthanasia == row.Get(Euthanasia) && row.returnToOwner == row.Get(ReturnToOwner);
    KeptCountsAreKeptInMonth(ls, row.monthYear);
  }

  /**
   * The monthly table, to which the script adds the Total, EuthRate and
   * AdjEuthRate columns one after another. A column not yet added is empty.
   */
  class Monthly {
    var rows: seq<Row>
    var total: seq<nat>
    var euthRate: seq<Rate>
    var adjEuthRate: seq<Rate>

    constructor (rows: seq<Row>)
      ensures this.rows == rows && total == [] && euthRate == [] && adjEuthRate == []
    {
      this.rows := rows;
      total, euthRate, adjEuthRate := [], [], [];
    }

    /** Adds Total, the sum of the four outcome columns. */
    method AddTotal()
      modifies this
      ensures rows == old(rows) && euthRate == old(euthRate) && adjEuthRate == old(adjEuthRate)
      ensures total == Totals(rows)
    {
      total := Totals(rows);
    }

    /** Adds EuthRate, computed from the Euthanasia and Total columns. */
    method AddEuthRate()
      requires |total| == |rows|
      modifies this
      ensures rows == old(rows) && total == old(total) && adjEuthRate == old(adjEuthRate)
      ensures euthRate == EuthRates(rows, total)
    {
      euthRate := EuthRates(rows, total);
    }

    /** Adds AdjEuthRate, computed from the Euthanasia column and the baseline intake. */
    method AddAdjEuthRate(baseline: Option<real>)
      requires baseline.Some? ==> baseline.value >= 0.0
      modifies this
      ensures rows == old(rows) && total == old(total) && euthRate == old(euthRate)
      ensures adjEuthRate == AdjEuthRates(rows, baseline)
    {
      adjEuthRate := AdjEuthRates(rows, baseline);
    }
  }
}
