/** The month-by-month value list and the two tables built from it: the
    year-wise summary and the monthly statement. Each is built by a loop that
    carries a running total and appends one entry per step. */
module Tables {
  import opened Projection

  /** One row of the year-wise summary. */
  datatype YearRow = YearRow(year: int, invested: int, value: real)

  /** One row of the monthly statement. */
  datatype MonthRow = MonthRow(month: int, investedTillNow: int, value: real)

  /** The growth loop: entry `i` is the value after month `i + 1` of
      `total := total * (1 + r) + c`. */
  method GrowthSeries(monthlyInvestment: int, r: real, months: nat) returns (values: seq<real>)
    ensures |values| == months
    ensures forall i :: 0 <= i < months ==> values[i] == Balance(monthlyInvestment as real, r, i + 1)
  {
    var c := monthlyInvestment as real;
    values := [];
    var total := 0.0;
    for i := 0 to months
      invariant |values| == i
      invariant total == Balance(c, r, i)
      invariant forall j :: 0 <= j < i ==> values[j] == Balance(c, r, j + 1)
    {
      total := total * (1.0 + r) + c;
      values := values + [total];
    }
  }

  /** The year-wise summary: row `y` reports year `y + 1`, the amount invested
      in its twelve-month years so far, and the list's value at the last month
      of that year. Every index read lies inside `values`. */
  method YearlySummary(monthlyInvestment: int, years: nat, values: seq<real>) returns (rows: seq<YearRow>)
    requires years * 12 <= |values|
    ensures |rows| == years
    ensures forall k :: 0 <= k < years ==>
      rows[k] == YearRow(k + 1, monthlyInvestment * 12 * (k + 1), values[(k + 1) * 12 - 1])
  {
    rows := [];
    for y := 1 to years + 1
      invariant |rows| == y - 1
      invariant forall k :: 0 <= k < y - 1 ==>
        rows[k] == YearRow(k + 1, monthlyInvestment * 12 * (k + 1), values[(k + 1) * 12 - 1])
    {
      var monthIndex := y * 12 - 1;
      rows := rows + [YearRow(y, monthlyInvestment * 12 * y, values[monthIndex])];
    }
  }

  /** The monthly statement: its own running value, with the same step as the
      growth loop; row `i` reports month `i + 1`, the contributions paid so far
      and the value after that month. */
  method MonthlyStatement(monthlyInvestment: int, r: real, months: nat) returns (rows: seq<MonthRow>)
    ensures |rows| == months
    ensures forall i :: 0 <= i < months ==>
      rows[i] == MonthRow(i + 1, monthlyInvestment * (i + 1), Balance(monthlyInvestment as real, r, i + 1))
  {
    var c := monthlyInvestment as real;
    rows := [];
    var value := 0.0;
    for i := 0 to months
      invariant |rows| == i
      invariant value == Balance(c, r, i)
      invariant forall j :: 0 <= j < i ==>
        rows[j] == MonthRow(j + 1, monthlyInvestment * (j + 1), Balance(c, r, j + 1))
    {
      value := value * (1.0 + r) + c;
      rows := rows + [MonthRow(i + 1, monthlyInvestment * (i + 1), value)];
    }
  }

  /** The growth loop with the annuity-due step `total := (total + c) * (1 + r)`:
      every entry equals the closed-form maturity value for that many months. */
  method DueGrowthSeries(monthlyInvestment: int, r: real, months: nat) returns (values: seq<real>)
    requires r > 0.0
    ensures |values| == months
    ensures forall i :: 0 <= i < months ==> values[i] == FutureValue(monthlyInvestment as real, r, i + 1)
  {
    var c := monthlyInvestment as real;
    values := [];
    var total := 0.0;
    for i := 0 to months
      invariant |values| == i
      invariant total == DueBalance(c, r, i)
      invariant forall j :: 0 <= j < i ==> values[j] == FutureValue(c, r, j + 1)
    {
      total := (total + c) * (1.0 + r);
      DueBalanceMatchesFutureValue(c, r, i + 1);
      values := values + [total];
    }
  }

  /** The year-wise summary fed with the annuity-due list: each year's row
      reports the same figure the closed form gives for that horizon. */
  method DueYearlySummary(monthlyInvestment: int, r: real, years: nat) returns (rows: seq<YearRow>)
    requires r > 0.0
    ensures |rows| == years
    ensures forall k :: 0 <= k < years ==>
      rows[k] == YearRow(k + 1, monthlyInvestment * 12 * (k + 1),
                         FutureValue(monthlyInvestment as real, r, (k + 1) * 12))
  {
    var values := DueGrowthSeries(monthlyInvestment, r, years * 12);
    rows := YearlySummary(monthlyInvestment, years, values);
  }
}
