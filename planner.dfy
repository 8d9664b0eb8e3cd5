/** The calculation block of the planner page, in the order the page runs it:
    the summary figures, the three scenarios, the goal suggestion, then the
    value list and the two tables. The four sidebar inputs are parameters. */
module Planner {
  import opened Projection
  import opened Tables

  datatype Option<T> = None | Some(value: T)

  /** The sidebar inputs: monthly investment, duration in years, expected
      annual return in percent, and an optional goal (0 when not given). */
  datatype Inputs = Inputs(monthlyInvestment: int, years: int, expectedReturn: int, goalAmount: int)

  /** The headline figures. */
  datatype Summary = Summary(months: nat, monthlyRate: real, invested: int, futureValue: real, gain: real)

  /** The pessimistic and optimistic forecasts beside the expected one. */
  datatype Scenarios = Scenarios(pessimisticRate: int, pessimistic: real, optimisticRate: int, optimistic: real)

  /** The goal suggestion: the monthly contribution that reaches the goal, and
      how far the planned investment gets towards it. */
  datatype GoalAdvice = GoalAdvice(targetSip: real, progress: real)

  datatype Report = Report(
    summary: Summary,
    scenarios: Scenarios,
    goal: Option<GoalAdvice>,
    values: seq<real>,
    yearly: seq<YearRow>,
    statement: seq<MonthRow>)

  /** Months, monthly rate, invested amount, maturity value and returns. */
  function Summarize(inp: Inputs): (s: Summary)
    requires inp.years >= 1 && inp.expectedReturn >= 1
    ensures s.months == inp.years * 12 && s.monthlyRate > 0.0
    ensures s.monthlyRate * 1200.0 == inp.expectedReturn as real
    ensures s.invested == inp.monthlyInvestment * 12 * inp.years
    ensures s.futureValue == FutureValue(inp.monthlyInvestment as real, s.monthlyRate, s.months)
    ensures s.futureValue == s.invested as real + s.gain
    ensures inp.monthlyInvestment > 0 ==> s.gain > 0.0
    ensures inp.monthlyInvestment >= 0 ==> s.gain >= 0.0
  {
    var months := inp.years * 12;
    var c := inp.monthlyInvestment as real;
    var r := MonthlyRate(inp.expectedReturn);
    var invested := inp.monthlyInvestment * months;
    var fv := FutureValue(c, r, months);
    assert invested == inp.monthlyInvestment * 12 * inp.years;
    assert invested as real == c * months as real;
    var s := Summary(months, r, invested, fv, fv - invested as real);
    if c >= 0.0 then FutureValueAtLeastInvested(c, r, months); s else s
  }

  /** The forecasts at `max(1, expected - 2)` and `expected + 2` percent. */
  function Forecast(inp: Inputs): (f: Scenarios)
    requires inp.years >= 1 && inp.expectedReturn >= 1
    ensures f.pessimisticRate == PessimisticRate(inp.expectedReturn)
    ensures f.optimisticRate == OptimisticRate(inp.expectedReturn)
    ensures f.pessimistic == FutureValue(inp.monthlyInvestment as real, MonthlyRate(f.pessimisticRate), inp.years * 12)
    ensures f.optimistic == FutureValue(inp.monthlyInvestment as real, MonthlyRate(f.optimisticRate), inp.years * 12)
    ensures 1 <= f.pessimisticRate <= inp.expectedReturn < f.optimisticRate
    ensures inp.monthlyInvestment > 0 ==>
      f.pessimistic <= Summarize(inp).futureValue < f.optimistic
    ensures inp.monthlyInvestment > 0 && inp.expectedReturn >= 2 ==>
      f.pessimistic < Summarize(inp).futureValue
  {
    var months := inp.years * 12;
    var c := inp.monthlyInvestment as real;
    var p, o := PessimisticRate(inp.expectedReturn), OptimisticRate(inp.expectedReturn);
    var pess := FutureValue(c, MonthlyRate(p), months);
    var opt := FutureValue(c, MonthlyRate(o), months);
    var f := Scenarios(p, pess, o, opt);
    if c > 0.0 then ScenarioOrdering(c, inp.expectedReturn, months); f else f
  }

  /** The goal suggestion, present exactly when a positive goal was entered. */
  function Advise(inp: Inputs, futureValue: real): (g: Option<GoalAdvice>)
    requires inp.years >= 1 && inp.expectedReturn >= 1
    ensures g.Some? <==> inp.goalAmount > 0
    ensures g.Some? ==>
      FutureValue(g.value.targetSip, MonthlyRate(inp.expectedReturn), inp.years * 12) == inp.goalAmount as real
    ensures g.Some? ==> g.value.progress == GoalProgress(futureValue, inp.goalAmount as real)
    ensures g.Some? ==> g.value.progress <= 1.0 && (futureValue >= 0.0 ==> 0.0 <= g.value.progress)
    ensures g.Some? ==> (g.value.progress == 1.0 <==> futureValue >= inp.goalAmount as real)
  {
    if inp.goalAmount > 0 then
      var r := MonthlyRate(inp.expectedReturn);
      var months := inp.years * 12;
      var goal := inp.goalAmount as real;
      TargetSipReachesGoal(goal, r, months);
      Some(GoalAdvice(TargetSip(goal, r, months), GoalProgress(futureValue, goal)))
    else
      None
  }

  /** The whole calculation block. The statement repeats the growth loop's
      values month for month, the year-wise rows read the list at each year's
      last month, and the headline maturity value is the list's last entry
      grown by one more month. */
  method Plan(inp: Inputs) returns (rep: Report)
    requires inp.years >= 1 && inp.expectedReturn >= 1
    ensures rep.summary == Summarize(inp)
    ensures rep.scenarios == Forecast(inp)
    ensures rep.goal == Advise(inp, rep.summary.futureValue)
    ensures |rep.values| == rep.summary.months == |rep.statement|
    ensures |rep.yearly| == inp.years
    ensures forall i :: 0 <= i < |rep.values| ==>
      rep.values[i] == Balance(inp.monthlyInvestment as real, rep.summary.monthlyRate, i + 1)
    ensures forall i :: 0 <= i < |rep.statement| ==>
      rep.statement[i] == MonthRow(i + 1, inp.monthlyInvestment * (i + 1), rep.values[i])
    ensures forall k :: 0 <= k < inp.years ==>
      rep.yearly[k] == YearRow(k + 1, inp.monthlyInvestment * 12 * (k + 1), rep.statement[(k + 1) * 12 - 1].value)
    ensures rep.yearly[inp.years - 1].invested == rep.summary.invested
    ensures rep.summary.futureValue == (1.0 + rep.summary.monthlyRate) * rep.values[|rep.values| - 1]
  {
    var summary := Summarize(inp);
    var scenarios := Forecast(inp);
    var goal := Advise(inp, summary.futureValue);
    var values := GrowthSeries(inp.monthlyInvestment, summary.monthlyRate, summary.months);
    var yearly := YearlySummary(inp.monthlyInvestment, inp.years, values);
    var statement := MonthlyStatement(inp.monthlyInvestment, summary.monthlyRate, summary.months);
    assert yearly[inp.years - 1].invested == inp.monthlyInvestment * 12 * inp.years;
    assert values[summary.months - 1] == Balance(inp.monthlyInvestment as real, summary.monthlyRate, summary.months);
    FutureValueIsGrownBalance(inp.monthlyInvestment as real, summary.monthlyRate, summary.months);
    rep := Report(summary, scenarios, goal, values, yearly, statement);
  }
}
