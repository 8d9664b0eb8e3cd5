/** The SIP projection arithmetic: the closed-form maturity value, the monthly
    recurrence the tables are built from, the scenario rates, the inverse that
    solves for the monthly contribution, and goal progress. Every quantity is
    exact over `real`. */
module Projection {

  /** `x ** n` for a natural exponent, by repeated multiplication. */
  function Pow(x: real, n: nat): real
  {
    if n == 0 then 1.0 else x * Pow(x, n - 1)
  }

  /** The monthly rate of an annual percentage: divided by 12, then by 100. */
  function MonthlyRate(annualPercent: int): (r: real)
    ensures r * 1200.0 == annualPercent as real
    ensures r > 0.0 <==> annualPercent >= 1
  {
    annualPercent as real / 12.0 / 100.0
  }

  /** The closed-form maturity value of `n` monthly contributions `c` at
      monthly rate `r`: the future value of an annuity due. */
  function FutureValue(c: real, r: real, n: nat): real
    requires r > 0.0
  {
    c * ((Pow(1.0 + r, n) - 1.0) * (1.0 + r) / r)
  }

  /** The value after `k` months of the step `total := total * (1 + r) + c`,
      starting from 0: grow the balance, then add this month's contribution. */
  function Balance(c: real, r: real, k: nat): real
  {
    if k == 0 then 0.0 else Balance(c, r, k - 1) * (1.0 + r) + c
  }

  /** The value after `k` months of the step `total := (total + c) * (1 + r)`:
      add this month's contribution, then grow it with the balance for the month. */
  function DueBalance(c: real, r: real, k: nat): real
  {
    if k == 0 then 0.0 else (DueBalance(c, r, k - 1) + c) * (1.0 + r)
  }

  /** The pessimistic scenario's annual rate: two points below the expected
      rate, but never below 1. */
  function PessimisticRate(expected: int): (p: int)
    ensures p >= 1 && p >= expected - 2
    ensures p == 1 || p == expected - 2
  {
    if 1 >= expected - 2 then 1 else expected - 2
  }

  /** The optimistic scenario's annual rate: two points above the expected rate. */
  function OptimisticRate(expected: int): (o: int)
    ensures o > expected && o - expected == 2
  {
    expected + 2
  }

  /** The monthly contribution that reaches `goal` after `n` months at monthly
      rate `r`; the divisor is never zero once `r > 0` and `n >= 1`. */
  function TargetSip(goal: real, r: real, n: nat): real
    requires r > 0.0 && n >= 1
  {
    PowAboveOne(1.0 + r, n);
    goal * r / ((Pow(1.0 + r, n) - 1.0) * (1.0 + r))
  }

  /** How far `futureValue` goes towards `goal`, capped at 1. */
  function GoalProgress(futureValue: real, goal: real): (p: real)
    requires goal > 0.0
    ensures p <= 1.0
    ensures futureValue >= 0.0 ==> p >= 0.0
    ensures p == 1.0 <==> futureValue >= goal
    ensures p < 1.0 ==> p * goal == futureValue
  {
    var ratio := futureValue / goal;
    if ratio <= 1.0 then ratio else 1.0
  }

  // ---------------------------------------------------------------------------
  // Properties of the definitions. Callers use these forms. Each is proved by
  // its `...Named` form below, which receives the values of the definitions as
  // plain variables and is used only by the other proofs in this module.

  lemma {:induction false} PowAboveOne(x: real, n: nat)
    requires x > 1.0 && n >= 1
    ensures Pow(x, n) > 1.0
  {
    PowAboveOneNamed(x, n, Pow(x, n));
  }

  /** The monthly recurrence sums a geometric series: `r * v(n) = c * ((1 + r)^n - 1)`. */
  lemma {:induction false} BalanceGeometricSum(c: real, r: real, n: nat)
    ensures r * Balance(c, r, n) == c * (Pow(1.0 + r, n) - 1.0)
  {
    GeometricSumNamed(c, r, n, Balance(c, r, n), Pow(1.0 + r, n));
  }

  /** The closed form is the recurrence's value grown by one more month. */
  lemma {:induction false} FutureValueIsGrownBalance(c: real, r: real, n: nat)
    requires r > 0.0
    ensures FutureValue(c, r, n) == (1.0 + r) * Balance(c, r, n)
  {
    GrownBalanceNamed(c, r, n, Balance(c, r, n), FutureValue(c, r, n));
  }

  /** The closed form never equals the month-by-month value it is shown beside:
      for a positive contribution it exceeds it by `r` times that value. */
  lemma {:induction false} SeriesFallsShortOfClosedForm(c: real, r: real, n: nat)
    requires c > 0.0 && r > 0.0 && n >= 1
    ensures FutureValue(c, r, n) - Balance(c, r, n) == r * Balance(c, r, n)
    ensures FutureValue(c, r, n) > Balance(c, r, n)
  {
    FallsShortNamed(c, r, n, Balance(c, r, n), FutureValue(c, r, n));
  }

  /** The annuity-due step is the ordinary step shifted by one month's growth. */
  lemma {:induction false} DueBalanceIsGrownBalance(c: real, r: real, n: nat)
    ensures DueBalance(c, r, n) == (1.0 + r) * Balance(c, r, n)
  {
    DueGrownNamed(c, r, n, Balance(c, r, n), DueBalance(c, r, n));
  }

  /** The annuity-due recurrence reproduces the closed form exactly, at every month. */
  lemma {:induction false} DueBalanceMatchesFutureValue(c: real, r: real, n: nat)
    requires r > 0.0
    ensures DueBalance(c, r, n) == FutureValue(c, r, n)
  {
    DueMatchesNamed(c, r, n, DueBalance(c, r, n), FutureValue(c, r, n));
  }

  /** With a non-negative rate the recurrence never falls below what was paid in. */
  lemma {:induction false} BalanceAtLeastInvested(c: real, r: real, n: nat)
    requires c >= 0.0 && r >= 0.0
    ensures Balance(c, r, n) >= c * n as real
  {
    AtLeastInvestedNamed(c, r, n, Balance(c, r, n));
  }

  /** The maturity value covers the invested amount `c * n`, and exceeds it
      (the returns are positive) once something was invested. */
  lemma {:induction false} FutureValueAtLeastInvested(c: real, r: real, n: nat)
    requires c >= 0.0 && r > 0.0
    ensures FutureValue(c, r, n) >= c * n as real
    ensures c > 0.0 && n >= 1 ==> FutureValue(c, r, n) > c * n as real
  {
    FutureValueAtLeastInvestedNamed(c, r, n, FutureValue(c, r, n));
  }

  /** A higher rate never lowers the month-by-month value. */
  lemma {:induction false} BalanceMonotoneInRate(c: real, r: real, s: real, n: nat)
    requires c >= 0.0 && 0.0 <= r <= s
    ensures Balance(c, r, n) <= Balance(c, s, n)
  {
    MonotoneNamed(c, r, s, n, Balance(c, r, n), Balance(c, s, n));
  }

  /** The maturity value strictly increases with the rate. */
  lemma {:induction false} FutureValueIncreasingInRate(c: real, r: real, s: real, n: nat)
    requires c > 0.0 && 0.0 < r < s && n >= 1
    ensures FutureValue(c, r, n) < FutureValue(c, s, n)
  {
    IncreasingNamed(c, r, s, n, FutureValue(c, r, n), FutureValue(c, s, n));
  }

  /** Both scenario rates are at least 1 percent, so neither scenario divides
      by zero, and the three maturity values are ordered pessimistic <=
      expected < optimistic (strictly below once the expected rate is 2 or more). */
  lemma {:induction false} ScenarioOrdering(c: real, expected: int, n: nat)
    requires c > 0.0 && expected >= 1 && n >= 1
    ensures MonthlyRate(PessimisticRate(expected)) > 0.0
    ensures MonthlyRate(OptimisticRate(expected)) > 0.0
    ensures PessimisticRate(expected) <= expected < OptimisticRate(expected)
    ensures FutureValue(c, MonthlyRate(PessimisticRate(expected)), n) <= FutureValue(c, MonthlyRate(expected), n)
    ensures expected >= 2 ==>
      FutureValue(c, MonthlyRate(PessimisticRate(expected)), n) < FutureValue(c, MonthlyRate(expected), n)
    ensures FutureValue(c, MonthlyRate(expected), n) < FutureValue(c, MonthlyRate(OptimisticRate(expected)), n)
  {
    var p, o := PessimisticRate(expected), OptimisticRate(expected);
    if p < expected {
      FutureValueIncreasingInRate(c, MonthlyRate(p), MonthlyRate(expected), n);
    }
    FutureValueIncreasingInRate(c, MonthlyRate(expected), MonthlyRate(o), n);
  }

  /** Investing the suggested contribution every month reaches the goal exactly. */
  lemma {:induction false} TargetSipReachesGoal(goal: real, r: real, n: nat)
    requires r > 0.0 && n >= 1
    ensures FutureValue(TargetSip(goal, r, n), r, n) == goal
  {
    ReachesGoalNamed(goal, r, n, TargetSip(goal, r, n), FutureValue(TargetSip(goal, r, n), r, n));
  }

  /** The solver inverts the closed form: asking for the maturity value of a
      contribution gives that contribution back. */
  lemma {:induction false} TargetSipRecoversContribution(c: real, r: real, n: nat)
    requires r > 0.0 && n >= 1
    ensures TargetSip(FutureValue(c, r, n), r, n) == c
  {
    RecoversNamed(c, r, n, FutureValue(c, r, n), TargetSip(FutureValue(c, r, n), r, n));
  }

  // ---------------------------------------------------------------------------
  // The same properties over named values. Keeping the definitions' values
  // as variables keeps the solver's nonlinear real arithmetic small.

  lemma {:induction false} PowAtLeastOneNamed(x: real, n: nat, q: real)
    requires x >= 1.0 && q == Pow(x, n)
    ensures q >= 1.0
  {
    if n > 0 {
      var p := Pow(x, n - 1);
      PowAtLeastOneNamed(x, n - 1, p);
      PowStep(x, n, p, q);
      ProductAtLeastOne(x, p, q);
    }
  }

  lemma {:induction false} PowAboveOneNamed(x: real, n: nat, q: real)
    requires x > 1.0 && n >= 1 && q == Pow(x, n)
    ensures q > 1.0
  {
    var p := Pow(x, n - 1);
    PowAtLeastOneNamed(x, n - 1, p);
    PowStep(x, n, p, q);
    ProductAboveOne(x, p, q);
  }

  lemma {:induction false} GeometricSumNamed(c: real, r: real, n: nat, b': real, p': real)
    requires b' == Balance(c, r, n) && p' == Pow(1.0 + r, n)
    ensures r * b' == c * (p' - 1.0)
  {
    if n > 0 {
      var b, p := Balance(c, r, n - 1), Pow(1.0 + r, n - 1);
      GeometricSumNamed(c, r, n - 1, b, p);
      BalanceStep(c, r, n, b, b');
      PowStep(1.0 + r, n, p, p');
      GeometricStep(c, r, b, p, b', p');
    }
  }

  lemma {:induction false} GrownBalanceNamed(c: real, r: real, n: nat, b: real, fv: real)
    requires r > 0.0 && b == Balance(c, r, n) && fv == FutureValue(c, r, n)
    ensures fv == (1.0 + r) * b
  {
    var p := Pow(1.0 + r, n);
    GeometricSumNamed(c, r, n, b, p);
    FutureValueDef(c, r, n, p, fv);
    ScaleGeometricSum(c, r, p, b, fv);
  }

  lemma {:induction false} FallsShortNamed(c: real, r: real, n: nat, b: real, fv: real)
    requires c > 0.0 && r > 0.0 && n >= 1
    requires b == Balance(c, r, n) && fv == FutureValue(c, r, n)
    ensures fv - b == r * b && fv > b
  {
    GrownBalanceNamed(c, r, n, b, fv);
    AtLeastInvestedNamed(c, r, n, b);
    PositiveTimesCount(c, n);
    GrownExceeds(r, b, fv);
  }

  lemma {:induction false} DueGrownNamed(c: real, r: real, n: nat, b': real, d': real)
    requires b' == Balance(c, r, n) && d' == DueBalance(c, r, n)
    ensures d' == (1.0 + r) * b'
  {
    if n > 0 {
      var b, d := Balance(c, r, n - 1), DueBalance(c, r, n - 1);
      DueGrownNamed(c, r, n - 1, b, d);
      BalanceStep(c, r, n, b, b');
      DueBalanceStep(c, r, n, d, d');
      DueStep(c, r, b, d, d', b');
    }
  }

  lemma {:induction false} DueMatchesNamed(c: real, r: real, n: nat, d: real, fv: real)
    requires r > 0.0 && d == DueBalance(c, r, n) && fv == FutureValue(c, r, n)
    ensures d == fv
  {
    var b := Balance(c, r, n);
    DueGrownNamed(c, r, n, b, d);
    GrownBalanceNamed(c, r, n, b, fv);
  }

  lemma {:induction false} AtLeastInvestedNamed(c: real, r: real, n: nat, b': real)
    requires c >= 0.0 && r >= 0.0 && b' == Balance(c, r, n)
    ensures b' >= c * n as real
  {
    if n > 0 {
      var b := Balance(c, r, n - 1);
      AtLeastInvestedNamed(c, r, n - 1, b);
      CountStep(c, n);
      NonNegativeTimesCount(c, n - 1);
      BalanceStep(c, r, n, b, b');
      StepAtLeastInvested(c, r, c * (n - 1) as real, b, b');
    }
  }

  lemma {:induction false} FutureValueAtLeastInvestedNamed(c: real, r: real, n: nat, fv: real)
    requires c >= 0.0 && r > 0.0 && fv == FutureValue(c, r, n)
    ensures fv >= c * n as real
    ensures c > 0.0 && n >= 1 ==> fv > c * n as real
  {
    var b := Balance(c, r, n);
    GrownBalanceNamed(c, r, n, b, fv);
    AtLeastInvestedNamed(c, r, n, b);
    NonNegativeTimesCount(c, n);
    if c > 0.0 && n >= 1 {
      PositiveTimesCount(c, n);
    }
    GrownAtLeast(r, c * n as real, b, fv);
  }

  lemma {:induction false} MonotoneNamed(c: real, r: real, s: real, n: nat, br': real, bs': real)
    requires c >= 0.0 && 0.0 <= r <= s
    requires br' == Balance(c, r, n) && bs' == Balance(c, s, n)
    ensures br' <= bs'
  {
    if n > 0 {
      var br, bs := Balance(c, r, n - 1), Balance(c, s, n - 1);
      MonotoneNamed(c, r, s, n - 1, br, bs);
      AtLeastInvestedNamed(c, r, n - 1, br);
      NonNegativeTimesCount(c, n - 1);
      BalanceStep(c, r, n, br, br');
      BalanceStep(c, s, n, bs, bs');
      StepMonotone(c, r, s, br, bs, br', bs');
    }
  }

  lemma {:induction false} IncreasingNamed(c: real, r: real, s: real, n: nat, fr: real, fs: real)
    requires c > 0.0 && 0.0 < r < s && n >= 1
    requires fr == FutureValue(c, r, n) && fs == FutureValue(c, s, n)
    ensures fr < fs
  {
    var br, bs := Balance(c, r, n), Balance(c, s, n);
    GrownBalanceNamed(c, r, n, br, fr);
    GrownBalanceNamed(c, s, n, bs, fs);
    MonotoneNamed(c, r, s, n, br, bs);
    AtLeastInvestedNamed(c, r, n, br);
    PositiveTimesCount(c, n);
    GrownMonotone(r, s, br, bs, fr, fs);
  }

  lemma {:induction false} ReachesGoalNamed(goal: real, r: real, n: nat, t: real, fv: real)
    requires r > 0.0 && n >= 1
    requires t == TargetSip(goal, r, n) && fv == FutureValue(t, r, n)
    ensures fv == goal
  {
    var p := Pow(1.0 + r, n);
    PowAboveOneNamed(1.0 + r, n, p);
    TargetSipDef(goal, r, n, p, t);
    FutureValueDef(t, r, n, p, fv);
    SolveThenScale(goal, r, p, t, fv);
  }

  lemma {:induction false} RecoversNamed(c: real, r: real, n: nat, fv: real, t: real)
    requires r > 0.0 && n >= 1
    requires fv == FutureValue(c, r, n) && t == TargetSip(fv, r, n)
    ensures t == c
  {
    var p := Pow(1.0 + r, n);
    PowAboveOneNamed(1.0 + r, n, p);
    FutureValueDef(c, r, n, p, fv);
    TargetSipDef(fv, r, n, p, t);
    ScaleThenSolve(c, r, p, fv, t);
  }

  // ---------------------------------------------------------------------------
  // One unfolding of each definition, with its values named

  lemma {:induction false} PowStep(x: real, n: nat, p: real, p': real)
    requires n >= 1 && p == Pow(x, n - 1) && p' == Pow(x, n)
    ensures p' == x * p
  {
  }

  lemma {:induction false} BalanceStep(c: real, r: real, n: nat, b: real, b': real)
    requires n >= 1 && b == Balance(c, r, n - 1) && b' == Balance(c, r, n)
    ensures b' == b * (1.0 + r) + c
  {
  }

  lemma {:induction false} DueBalanceStep(c: real, r: real, n: nat, d: real, d': real)
    requires n >= 1 && d == DueBalance(c, r, n - 1) && d' == DueBalance(c, r, n)
    ensures d' == (d + c) * (1.0 + r)
  {
  }

  lemma {:induction false} FutureValueDef(c: real, r: real, n: nat, p: real, fv: real)
    requires r > 0.0 && p == Pow(1.0 + r, n) && fv == FutureValue(c, r, n)
    ensures fv == c * ((p - 1.0) * (1.0 + r) / r)
  {
  }

  lemma {:induction false} TargetSipDef(goal: real, r: real, n: nat, p: real, t: real)
    requires r > 0.0 && n >= 1 && p == Pow(1.0 + r, n) && p > 1.0 && t == TargetSip(goal, r, n)
    ensures t == goal * r / ((p - 1.0) * (1.0 + r))
  {
  }

  // ---------------------------------------------------------------------------
  // Real arithmetic, on plain variables

  lemma {:induction false} CancelFactor(x: real, y: real, k: real)
    requires k != 0.0 && x * k == y * k
    ensures x == y
  {
    assert (x - y) * k == 0.0;
  }

  lemma {:induction false} MulBoth(x: real, y: real, k: real)
    requires x == y
    ensures k * x == k * y
  {
  }

  lemma {:induction false} ProductAtLeastOne(x: real, p: real, q: real)
    requires x >= 1.0 && p >= 1.0 && q == x * p
    ensures q >= 1.0
  {
    assert (x - 1.0) * p >= 0.0;
  }

  lemma {:induction false} ProductAboveOne(x: real, p: real, q: real)
    requires x > 1.0 && p >= 1.0 && q == x * p
    ensures q > 1.0
  {
    assert (x - 1.0) * p > 0.0;
  }

  lemma {:induction false} CountStep(c: real, n: nat)
    requires n >= 1
    ensures c * n as real == c * (n - 1) as real + c
  {
  }

  lemma {:induction false} NonNegativeTimesCount(c: real, n: nat)
    requires c >= 0.0
    ensures c * n as real >= 0.0
  {
  }

  lemma {:induction false} PositiveTimesCount(c: real, n: nat)
    requires c > 0.0 && n >= 1
    ensures c * n as real > 0.0
  {
  }

  /** One step of the geometric sum. */
  lemma {:induction false} GeometricStep(c: real, r: real, b: real, p: real, b': real, p': real)
    requires r * b == c * (p - 1.0)
    requires b' == b * (1.0 + r) + c && p' == (1.0 + r) * p
    ensures r * b' == c * (p' - 1.0)
  {
    MulBoth(r * b, c * (p - 1.0), r);
  }

  /** One step of the annuity-due recurrence against the ordinary one. */
  lemma {:induction false} DueStep(c: real, r: real, b: real, d: real, d': real, b': real)
    requires d == (1.0 + r) * b
    requires d' == (d + c) * (1.0 + r) && b' == b * (1.0 + r) + c
    ensures d' == (1.0 + r) * b'
  {
  }

  /** One step of the recurrence keeps it at or above the amount paid in. */
  lemma {:induction false} StepAtLeastInvested(c: real, r: real, paid: real, b: real, b': real)
    requires c >= 0.0 && r >= 0.0 && paid >= 0.0 && b >= paid
    requires b' == b * (1.0 + r) + c
    ensures b' >= paid + c
  {
    assert b * r >= 0.0;
  }

  /** One step of the recurrence at two rates keeps them ordered. */
  lemma {:induction false} StepMonotone(c: real, r: real, s: real, br: real, bs: real, br': real, bs': real)
    requires 0.0 <= r <= s && 0.0 <= br <= bs
    requires br' == br * (1.0 + r) + c && bs' == bs * (1.0 + s) + c
    ensures br' <= bs'
  {
    assert (bs - br) * (1.0 + r) >= 0.0;
    assert bs * (s - r) >= 0.0;
  }

  /** Growing a positive value by a positive rate strictly increases it by `r * b`. */
  lemma {:induction false} GrownExceeds(r: real, b: real, fv: real)
    requires r > 0.0 && b > 0.0 && fv == (1.0 + r) * b
    ensures fv - b == r * b && fv > b
  {
    assert r * b > 0.0;
  }

  /** Growing a value at least `paid` by a positive rate keeps it at least
      `paid`, and strictly above once `paid` is positive. */
  lemma {:induction false} GrownAtLeast(r: real, paid: real, b: real, fv: real)
    requires r > 0.0 && paid >= 0.0 && b >= paid && fv == (1.0 + r) * b
    ensures fv >= paid
    ensures paid > 0.0 ==> fv > paid
  {
    var g := r * b;
    assert g >= 0.0;
    assert fv == b + g;
    if paid > 0.0 {
      assert b > 0.0;
      assert g > 0.0;
    }
  }

  /** Growing the larger of two positive values by the larger rate gives the larger result. */
  lemma {:induction false} GrownMonotone(r: real, s: real, br: real, bs: real, fr: real, fs: real)
    requires 0.0 < r < s && 0.0 < br <= bs
    requires fr == (1.0 + r) * br && fs == (1.0 + s) * bs
    ensures fr < fs
  {
    var d, e := bs - br, s - r;
    assert d >= 0.0 && e > 0.0;
    var rd, es := r * d, e * bs;
    assert rd >= 0.0 && es > 0.0;
    assert fr == br + r * br;
    assert fs == bs + r * bs + es;
    assert r * bs == r * br + rd;
  }

  /** If `r * b == c * (p - 1)` then the closed-form value `fv` over `p` is `(1 + r) * b`. */
  lemma {:induction false} ScaleGeometricSum(c: real, r: real, p: real, b: real, fv: real)
    requires r != 0.0 && r * b == c * (p - 1.0)
    requires fv == c * ((p - 1.0) * (1.0 + r) / r)
    ensures fv == (1.0 + r) * b
  {
    var a := (p - 1.0) * (1.0 + r);
    var q := a / r;
    assert q * r == a;
    MulBoth(q * r, a, c);
    MulBoth(r * b, c * (p - 1.0), 1.0 + r);
    calc {
      (c * q) * r;
      c * (q * r);
      c * a;
      (1.0 + r) * (c * (p - 1.0));
      (1.0 + r) * (r * b);
      ((1.0 + r) * b) * r;
    }
    CancelFactor(c * q, (1.0 + r) * b, r);
  }

  /** Solving for the contribution `t`, then applying the closed form, gives the goal back. */
  lemma {:induction false} SolveThenScale(goal: real, r: real, p: real, t: real, fv: real)
    requires r > 0.0 && p > 1.0
    requires t == goal * r / ((p - 1.0) * (1.0 + r))
    requires fv == t * ((p - 1.0) * (1.0 + r) / r)
    ensures fv == goal
  {
    var a := (p - 1.0) * (1.0 + r);
    assert a > 0.0;
    var q := a / r;
    assert t * a == goal * r;
    assert q * r == a;
    MulBoth(q * r, a, t);
    CancelFactor(t * q, goal, r);
  }

  /** Applying the closed form, then solving for the contribution `t`, gives the contribution back. */
  lemma {:induction false} ScaleThenSolve(c: real, r: real, p: real, fv: real, t: real)
    requires r > 0.0 && p > 1.0
    requires fv == c * ((p - 1.0) * (1.0 + r) / r)
    requires t == fv * r / ((p - 1.0) * (1.0 + r))
    ensures t == c
  {
    var a := (p - 1.0) * (1.0 + r);
    assert a > 0.0;
    var q := a / r;
    assert q * r == a;
    assert t * a == fv * r;
    MulBoth(fv, c * q, r);
    MulBoth(q * r, a, c);
    CancelFactor(t, c, a);
  }
}
