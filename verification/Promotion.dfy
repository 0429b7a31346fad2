/** The promotion decision for the prop-firm scenario, and the drawdown it rests on. */
module Promotion {
  import opened Common

  // ------------------------------------------------------------------------------------------
  // The compounded path
  // ------------------------------------------------------------------------------------------

  /** The finite months, in order. */
  function FiniteOnly(monthly: seq<Float>): (r: seq<real>)
    ensures |r| <= |monthly|
  {
    if monthly == [] then []
    else
      var before := FiniteOnly(monthly[..|monthly| - 1]);
      match monthly[|monthly| - 1]
      case Finite(v) => before + [v]
      case PlusInfinity | MinusInfinity | NaN => before
  }

  /** The equity after t months, from a start of one. */
  function Equity(rs: seq<real>, t: nat): real
    requires t <= |rs|
  {
    if t == 0 then 1.0 else Equity(rs, t - 1) * (1.0 + rs[t - 1])
  }

  /** The highest equity up to t. */
  function Peak(rs: seq<real>, t: nat): (p: real)
    requires t <= |rs|
    ensures p >= 1.0
  {
    if t == 0 then 1.0
    else if Equity(rs, t) > Peak(rs, t - 1) then Equity(rs, t) else Peak(rs, t - 1)
  }

  /** The fraction of the running peak that is lost at t. */
  function Drawdown(rs: seq<real>, t: nat): real
    requires t <= |rs|
  {
    (Peak(rs, t) - Equity(rs, t)) / Peak(rs, t)
  }

  /** The fraction lost between two times. */
  function Decline(rs: seq<real>, s: nat, t: nat): real
    requires s <= t <= |rs|
  {
    if Equity(rs, s) > 0.0 then (Equity(rs, s) - Equity(rs, t)) / Equity(rs, s) else 0.0
  }

  ghost predicate LargestDrawdown(rs: seq<real>, n: nat, d: real)
    requires n <= |rs|
  {
    (forall t :: 0 <= t <= n ==> Drawdown(rs, t) <= d) && (exists t :: 0 <= t <= n && Drawdown(rs, t) == d)
  }

  ghost predicate LargestLoss(rs: seq<real>, n: nat, l: real)
    requires n <= |rs|
  {
    l >= 0.0 && (forall i :: 0 <= i < n ==> -rs[i] <= l) && (l == 0.0 || exists i :: 0 <= i < n && -rs[i] == l)
  }

  lemma NoDrawdownAtStart(rs: seq<real>)
    ensures LargestDrawdown(rs, 0, 0.0)
  {
    assert Drawdown(rs, 0) == 0.0;
  }

  lemma NextDrawdown(rs: seq<real>, t: nat, d: real)
    requires 0 < t <= |rs| && LargestDrawdown(rs, t - 1, d)
    ensures LargestDrawdown(rs, t, if Drawdown(rs, t) > d then Drawdown(rs, t) else d)
  {
    hide Drawdown;
    var s :| 0 <= s <= t - 1 && Drawdown(rs, s) == d;
  }

  lemma NextLoss(rs: seq<real>, t: nat, l: real)
    requires 0 < t <= |rs| && LargestLoss(rs, t - 1, l)
    ensures LargestLoss(rs, t, if -rs[t - 1] > l then -rs[t - 1] else l)
  {
  }

  lemma DrawdownIsNotNegative(rs: seq<real>, t: nat)
    requires t <= |rs|
    ensures Drawdown(rs, t) >= 0.0
  {
    assert Peak(rs, t) >= Equity(rs, t);
  }

  datatype PathStats = PathStats(worstMonthLoss: real, maxDrawdown: real)

  /** The largest monthly loss and the largest drawdown from a running peak, over the finite months. */
  method MonthlyPathStats(monthly: seq<Float>) returns (stats: PathStats)
    ensures var rs := FiniteOnly(monthly);
      LargestLoss(rs, |rs|, stats.worstMonthLoss) && LargestDrawdown(rs, |rs|, stats.maxDrawdown)
  {
    hide Equity, Peak, Drawdown, LargestDrawdown, LargestLoss, Lost, FiniteOnly;
    ghost var rs := FiniteOnly(monthly);
    var equity, peak, maxDrawdown, worst := 1.0, 1.0, 0.0, 0.0;
    ghost var t := 0;
    Start(rs);
    for i := 0 to |monthly|
      invariant t == |FiniteOnly(monthly[..i])| <= |rs| && rs[..t] == FiniteOnly(monthly[..i])
      invariant equity == Equity(rs, t) && peak == Peak(rs, t) && peak >= 1.0
      invariant LargestLoss(rs, t, worst) && LargestDrawdown(rs, t, maxDrawdown)
    {
      FiniteOnlySnoc(monthly, i);
      assert monthly[i].Finite? ==> rs[t] == monthly[i].value;
      if monthly[i].Finite? {
        var r := monthly[i].value;
        t := t + 1;
        PathStep(rs, t);
        NextLoss(rs, t, worst);
        NextDrawdown(rs, t, maxDrawdown);
        if -r > worst { worst := -r; }
        equity := equity * (1.0 + r);
        if equity > peak { peak := equity; }
        if peak > 0.0 {
          var drawdown := Lost(peak, equity);
          if drawdown > maxDrawdown { maxDrawdown := drawdown; }
        }
      }
    }
    assert monthly[..|monthly|] == monthly;
    stats := PathStats(worst, maxDrawdown);
  }

  lemma Start(rs: seq<real>)
    ensures Equity(rs, 0) == Peak(rs, 0) == 1.0 && LargestLoss(rs, 0, 0.0) && LargestDrawdown(rs, 0, 0.0)
  {
    NoDrawdownAtStart(rs);
  }

  lemma PathStep(rs: seq<real>, t: nat)
    requires 0 < t <= |rs|
    ensures Equity(rs, t) == Equity(rs, t - 1) * (1.0 + rs[t - 1])
    ensures Peak(rs, t) == (if Equity(rs, t) > Peak(rs, t - 1) then Equity(rs, t) else Peak(rs, t - 1)) >= 1.0
    ensures Drawdown(rs, t) == Lost(Peak(rs, t), Equity(rs, t))
  {
    DrawdownIsNotNegative(rs, t);
  }

  /** The fraction of a peak that is lost. */
  function Lost(peak: real, equity: real): real
    requires peak > 0.0
  {
    var d := (peak - equity) / peak;
    if d > 0.0 then d else 0.0
  }

  lemma FiniteOnlySnoc(monthly: seq<Float>, i: nat)
    requires i < |monthly|
    ensures var before, after := FiniteOnly(monthly[..i]), FiniteOnly(monthly[..i + 1]);
      && (monthly[i].Finite? ==> after == before + [monthly[i].value]) && (!monthly[i].Finite? ==> after == before)
      && |after| <= |FiniteOnly(monthly)| && after == FiniteOnly(monthly)[..|after|]
  {
    assert monthly[..i + 1][..i] == monthly[..i];
    FiniteOnlyPrefix(monthly, i + 1);
  }

  /** Months that are not numbers are left out; numbers stay, in order. */
  lemma {:induction false} OnlyNumbersStay(a: seq<Float>, m: Float, b: seq<Float>)
    ensures FiniteOnly(a + [m] + b) == FiniteOnly(a) + (if m.Finite? then [m.value] else []) + FiniteOnly(b)
  {
    var s := a + [m] + b;
    if b == [] {
      assert s[..|s| - 1] == a && FiniteOnly([]) == [];
      assert FiniteOnly(a) + [] == FiniteOnly(a);
    } else {
      assert s[..|s| - 1] == a + [m] + b[..|b| - 1] && s[|s| - 1] == b[|b| - 1];
      OnlyNumbersStay(a, m, b[..|b| - 1]);
    }
  }

  lemma {:induction false} FiniteOnlyPrefix(monthly: seq<Float>, i: nat)
    requires i <= |monthly|
    ensures FiniteOnly(monthly[..i]) <= FiniteOnly(monthly)
  {
    if i < |monthly| {
      FiniteOnlyPrefix(monthly[..|monthly| - 1], i);
      assert monthly[..|monthly| - 1][..i] == monthly[..i];
    } else {
      assert monthly[..i] == monthly;
    }
  }

  // ------------------------------------------------------------------------------------------
  // Drawdown from the running peak is the largest decline between any two times
  // ------------------------------------------------------------------------------------------

  ghost predicate NoMoreThanAll(rs: seq<real>) {
    forall i :: 0 <= i < |rs| ==> rs[i] >= -1.0
  }

  lemma {:induction false} EquityIsNotNegative(rs: seq<real>, t: nat)
    requires NoMoreThanAll(rs) && t <= |rs|
    ensures Equity(rs, t) >= 0.0
  {
    if t > 0 {
      EquityIsNotNegative(rs, t - 1);
      Product(Equity(rs, t - 1), 1.0 + rs[t - 1]);
    }
  }

  lemma Product(a: real, b: real)
    requires a >= 0.0 && b >= 0.0
    ensures a * b >= 0.0
  {
  }

  lemma {:induction false} PeakIsAbove(rs: seq<real>, s: nat, t: nat)
    requires s <= t <= |rs|
    ensures Equity(rs, s) <= Peak(rs, t)
    decreases t
  {
    if s < t { PeakIsAbove(rs, s, t - 1); }
  }

  lemma {:induction false} PeakIsReached(rs: seq<real>, t: nat) returns (s: nat)
    requires t <= |rs|
    ensures s <= t && Equity(rs, s) == Peak(rs, t)
  {
    if t == 0 || Equity(rs, t) > Peak(rs, t - 1) {
      s := t;
    } else {
      s := PeakIsReached(rs, t - 1);
    }
  }

  lemma LossAndRest(p: real, e: real)
    requires p > 0.0
    ensures (p - e) / p == 1.0 - e / p
  {
    var x, y := (p - e) / p, e / p;
    assert x * p == p - e && y * p == e;
    assert (x + y - 1.0) * p == x * p + y * p - p == 0.0;
    if x + y - 1.0 > 0.0 {
      Larger(0.0, x + y - 1.0, p, p);
    } else if x + y - 1.0 < 0.0 {
      Larger(0.0, 1.0 - x - y, p, p);
    }
  }

  /** Losing down to the same level loses the larger fraction from the higher start. */
  lemma LossFromHigher(low: real, a: real, b: real)
    requires 0.0 <= low && 0.0 < a <= b
    ensures (a - low) / a <= (b - low) / b
  {
    LossAndRest(a, low);
    LossAndRest(b, low);
    Quotient(low, a, b);
  }

  lemma Quotient(low: real, a: real, b: real)
    requires 0.0 <= low && 0.0 < a <= b
    ensures low / b <= low / a
  {
    var x, y := low / a, low / b;
    assert low == x * a == y * b;
    if y > x {
      Larger(x, y, a, b);
    }
  }

  lemma Larger(x: real, y: real, a: real, b: real)
    requires 0.0 <= x < y && 0.0 < a <= b
    ensures x * a < y * b
  {
    assert x * a <= x * b;
    assert x * b < y * b;
  }

  lemma DeclineIsWithin(rs: seq<real>, s: nat, t: nat)
    requires s <= t <= |rs| && Equity(rs, t) >= 0.0
    ensures Decline(rs, s, t) <= Drawdown(rs, t)
  {
    PeakIsAbove(rs, s, t);
    DrawdownIsNotNegative(rs, t);
    hide Peak, Equity;
    if Equity(rs, s) > 0.0 {
      LossFromHigher(Equity(rs, t), Equity(rs, s), Peak(rs, t));
    }
  }

  ghost predicate LargestDecline(rs: seq<real>, d: real) {
    && (forall s, t :: 0 <= s <= t <= |rs| ==> Decline(rs, s, t) <= d)
    && (exists s, t :: 0 <= s <= t <= |rs| && Decline(rs, s, t) == d)
  }

  lemma AtMostOne(p: real, e: real)
    requires p >= 1.0 && e >= 0.0
    ensures (p - e) / p <= 1.0
  {
    LossAndRest(p, e);
    assert e / p >= 0.0;
  }

  /** A fall of no more than everything from the running peak leaves the equity at nought or above. */
  lemma SmallDrawdownKeepsEquity(rs: seq<real>, t: nat)
    requires t <= |rs| && Drawdown(rs, t) <= 1.0
    ensures Equity(rs, t) >= 0.0
  {
    var p, e := Peak(rs, t), Equity(rs, t);
    hide Peak, Equity;
    LossAndRest(p, e);
    var y := e / p;
    assert y * p == e && y >= 0.0;
    Product(y, p);
  }

  /** A maximum drawdown of no more than everything is the largest decline between any two times, the
      start included. */
  lemma DrawdownIsLargestDecline(rs: seq<real>, d: real)
    requires LargestDrawdown(rs, |rs|, d) && d <= 1.0
    ensures LargestDecline(rs, d) && 0.0 <= d
  {
    var t :| 0 <= t <= |rs| && Drawdown(rs, t) == d;
    var s := PeakIsReached(rs, t);
    DrawdownIsNotNegative(rs, t);
    assert Decline(rs, s, t) == d;
    hide Decline, Equity, Peak, Drawdown;
    forall x, y | 0 <= x <= y <= |rs| ensures Decline(rs, x, y) <= d {
      SmallDrawdownKeepsEquity(rs, y);
      DeclineIsWithin(rs, x, y);
    }
  }

  /** When no month loses more than everything, neither does the path. */
  lemma DrawdownIsAtMostOne(rs: seq<real>, d: real)
    requires NoMoreThanAll(rs) && LargestDrawdown(rs, |rs|, d)
    ensures 0.0 <= d <= 1.0
  {
    var t :| 0 <= t <= |rs| && Drawdown(rs, t) == d;
    EquityIsNotNegative(rs, t);
    DrawdownIsNotNegative(rs, t);
    AtMostOne(Peak(rs, t), Equity(rs, t));
  }

  /** A monthly loss is a decline over one month, unless everything was lost before. */
  lemma LossIsWithin(rs: seq<real>, i: nat)
    requires NoMoreThanAll(rs) && i < |rs|
    ensures -rs[i] <= 0.0 || exists t :: 0 <= t <= |rs| && Drawdown(rs, t) >= -rs[i]
  {
    var e, f := Equity(rs, i), Equity(rs, i + 1);
    EquityIsNotNegative(rs, i);
    if e > 0.0 {
      EquityIsNotNegative(rs, i + 1);
      DeclineIsWithin(rs, i, i + 1);
      OneMonth(e, f, rs[i]);
      assert Drawdown(rs, i + 1) >= -rs[i];
    } else {
      AllLost(Peak(rs, i));
      assert Drawdown(rs, i) == 1.0 >= -rs[i];
    }
  }

  lemma OneMonth(e: real, f: real, r: real)
    requires e > 0.0 && f == e * (1.0 + r)
    ensures (e - f) / e == -r
  {
    assert e - f == e * -r;
  }

  lemma AllLost(p: real)
    requires p >= 1.0
    ensures (p - 0.0) / p == 1.0
  {
  }

  lemma DrawdownCoversWorstMonth(rs: seq<real>, d: real, l: real)
    requires NoMoreThanAll(rs) && LargestDrawdown(rs, |rs|, d) && LargestLoss(rs, |rs|, l)
    ensures l <= d
  {
    DrawdownIsNotNegative(rs, 0);
    hide Drawdown, NoMoreThanAll;
    if i :| 0 <= i < |rs| && -rs[i] == l {
      LossIsWithin(rs, i);
    }
  }

  /** Half is lost, then more than everything, then the debt doubles. */
  function Debtor(d: real): seq<real> {
    [-0.5, -d, 1.0]
  }

  /** From the start the path falls by d, from its second point by more. */
  lemma DebtorPath(d: real)
    requires d > 1.0
    ensures var rs := Debtor(d);
      && |rs| == 3 && (forall t :: 0 <= t <= 3 ==> Peak(rs, t) == 1.0)
      && Drawdown(rs, 0) == 0.0 && Drawdown(rs, 1) == 0.5 && Drawdown(rs, 2) == 0.5 + 0.5 * d && Drawdown(rs, 3) == d
      && Decline(rs, 1, 3) == 2.0 * d - 1.0
  {
    var rs := Debtor(d);
    assert Equity(rs, 0) == 1.0;
    assert Equity(rs, 1) == 0.5;
    assert Equity(rs, 2) == 0.5 * (1.0 - d);
    assert Equity(rs, 3) == 1.0 - d;
    assert Peak(rs, 0) == 1.0;
    assert Peak(rs, 1) == 1.0;
    assert Peak(rs, 2) == 1.0;
    assert Peak(rs, 3) == 1.0;
    forall t | 0 <= t <= 3 ensures Peak(rs, t) == 1.0 {
      assert t == 0 || t == 1 || t == 2 || t == 3;
    }
  }

  /** A reported drawdown is the largest decline, whatever the months were, exactly when it is no more
      than everything: for any larger one some months decline by more between two times. */
  lemma ReportedDrawdownIsLargestDeclineIff(d: real)
    ensures (forall rs :: LargestDrawdown(rs, |rs|, d) ==> LargestDecline(rs, d)) <==> d <= 1.0
  {
    if d <= 1.0 {
      forall rs | LargestDrawdown(rs, |rs|, d) ensures LargestDecline(rs, d) { DrawdownIsLargestDecline(rs, d); }
    } else {
      var rs := Debtor(d);
      DebtorPath(d);
      hide Drawdown, Decline, Debtor;
      forall t | 0 <= t <= |rs| ensures Drawdown(rs, t) <= d {
        assert t == 0 || t == 1 || t == 2 || t == 3;
      }
      assert LargestDrawdown(rs, |rs|, d);
      assert !LargestDecline(rs, d) by {
        assert Decline(rs, 1, 3) > d;
      }
    }
  }

  // ------------------------------------------------------------------------------------------
  // The decision
  // ------------------------------------------------------------------------------------------

  datatype Thresholds = Thresholds(pboMax: real, dsrMin: real, touchesTotal: nat, tStatMin: real, nMinOos: nat)

  datatype PropFirm = PropFirm(monthlyTarget: real, maxOverallDrawdown: real, minPassRate: real)

  /** The candidate, the out-of-sample evidence about it, and what the session has spent; `expectancy`
      is the mean and its standard error, when there is one. */
  datatype Case = Case(
    pboSweep: Float, dsr: Option<Float>, excess: Float, expectancy: Option<(real, real)>, bandSurvives: bool,
    trades: nat, monthly: seq<Float>, touchesSpent: nat, pboSession: Option<Float>)

  datatype Conjunct =
    | OosTouchAlreadySpent | PboSweep | PboSession | Dsr | ExcessOverExpectedMax | OosExpectancy | OosTStat
    | OosCostBand | OosTradeCount | GoalMetric | ScenarioPathConstraint

  function Rank(c: Conjunct): nat {
    match c
    case OosTouchAlreadySpent => 0
    case PboSweep => 1
    case PboSession => 2
    case Dsr => 3
    case ExcessOverExpectedMax => 4
    case OosExpectancy => 5
    case OosTStat => 6
    case OosCostBand => 7
    case OosTradeCount => 8
    case GoalMetric => 9
    case ScenarioPathConstraint => 10
  }

  /** Comparison with a real; not-a-number compares false. */
  predicate Above(x: Float, y: real) {
    x.PlusInfinity? || (x.Finite? && x.value > y)
  }

  predicate AtLeast(x: Float, y: real) {
    x.PlusInfinity? || (x.Finite? && x.value >= y)
  }

  predicate AtMost(x: Float, y: real) {
    x.MinusInfinity? || (x.Finite? && x.value <= y)
  }

  function Clearing(monthly: seq<Float>, target: real): (n: nat)
    ensures n <= |monthly|
  {
    if monthly == [] then 0
    else Clearing(monthly[..|monthly| - 1], target) + (if AtLeast(monthly[|monthly| - 1], target) then 1 else 0)
  }

  /** The months that clear the target: a number at least as large, or plus infinity. */
  ghost function ClearingMonths(monthly: seq<Float>, target: real): set<int> {
    set i | 0 <= i < |monthly| && (monthly[i] == PlusInfinity || (monthly[i].Finite? && monthly[i].value >= target))
  }

  /** Each month that clears the target is counted once. */
  lemma {:induction false} ClearingCounts(monthly: seq<Float>, target: real)
    ensures Clearing(monthly, target) == |ClearingMonths(monthly, target)|
  {
    if monthly != [] {
      var n := |monthly| - 1;
      ClearingCounts(monthly[..n], target);
      var before := ClearingMonths(monthly[..n], target);
      if AtLeast(monthly[n], target) {
        assert ClearingMonths(monthly, target) == before + {n};
      } else {
        assert ClearingMonths(monthly, target) == before;
      }
    }
  }

  /** The path rule: some month, and neither a single month nor a fall from the peak beyond the limit. */
  ghost predicate PathHolds(monthly: seq<Float>, limit: real) {
    var rs := FiniteOnly(monthly);
    && monthly != [] && 0.0 <= limit
    && (forall i :: 0 <= i < |rs| ==> -rs[i] <= limit)
    && (forall t :: 0 <= t <= |rs| ==> Drawdown(rs, t) <= limit)
  }

  ghost predicate Holds(c: Conjunct, x: Case, th: Thresholds, firm: PropFirm) {
    match c
    case OosTouchAlreadySpent => x.touchesSpent <= th.touchesTotal
    case PboSweep => !Above(x.pboSweep, th.pboMax)
    case PboSession => x.pboSession != None && x.pboSession.value.Finite? && x.pboSession.value.value <= th.pboMax
    case Dsr => x.dsr != None && x.dsr.value.Finite? && x.dsr.value.value >= th.dsrMin
    case ExcessOverExpectedMax => !AtMost(x.excess, 0.0)
    case OosExpectancy => x.expectancy != None && x.expectancy.value.0 > 0.0
    case OosTStat => x.expectancy != None && x.expectancy.value.0 > th.tStatMin * x.expectancy.value.1
    case OosCostBand => x.bandSurvives
    case OosTradeCount => x.trades >= th.nMinOos
    case GoalMetric => x.monthly != []
        && Clearing(x.monthly, firm.monthlyTarget) as real >= firm.minPassRate * |x.monthly| as real
    case ScenarioPathConstraint => PathHolds(x.monthly, firm.maxOverallDrawdown)
  }

  method CountClearing(monthly: seq<Float>, target: real) returns (n: nat)
    ensures n == Clearing(monthly, target)
  {
    n := 0;
    for i := 0 to |monthly|
      invariant n == Clearing(monthly[..i], target)
    {
      assert monthly[..i + 1][..i] == monthly[..i];
      if AtLeast(monthly[i], target) { n := n + 1; }
    }
    assert monthly[..|monthly|] == monthly;
  }

  lemma RateIs(clearing: nat, months: nat, bar: real)
    requires months > 0
    ensures clearing as real / months as real < bar <==> clearing as real < bar * months as real
  {
    var rate := clearing as real / months as real;
    assert rate * months as real == clearing as real;
    if rate < bar {
      assert rate * months as real < bar * months as real;
    } else {
      assert rate * months as real >= bar * months as real;
    }
  }

  lemma PathHoldsIff(monthly: seq<Float>, stats: PathStats, limit: real)
    requires var rs := FiniteOnly(monthly);
      LargestLoss(rs, |rs|, stats.worstMonthLoss) && LargestDrawdown(rs, |rs|, stats.maxDrawdown)
    ensures PathHolds(monthly, limit) <==> monthly != [] && stats.worstMonthLoss <= limit && stats.maxDrawdown <= limit
  {
    hide FiniteOnly, Drawdown;
  }

  /** The first conjunct that fails, in their order, or none. */
  method Promote(x: Case, th: Thresholds, firm: PropFirm) returns (failing: Option<Conjunct>)
    ensures failing != None ==>
      !Holds(failing.value, x, th, firm) && forall c :: Rank(c) < Rank(failing.value) ==> Holds(c, x, th, firm)
    ensures failing == None <==> forall c :: Holds(c, x, th, firm)
  {
    hide PathHolds, Clearing, LargestDrawdown, LargestLoss, FiniteOnly;
    var months := |x.monthly|;
    var clearing := CountClearing(x.monthly, firm.monthlyTarget);
    var stats := MonthlyPathStats(x.monthly);
    PathHoldsIff(x.monthly, stats, firm.maxOverallDrawdown);
    var pathFails := months == 0
        || stats.worstMonthLoss > firm.maxOverallDrawdown || stats.maxDrawdown > firm.maxOverallDrawdown;

    if x.touchesSpent > th.touchesTotal { return Some(OosTouchAlreadySpent); }
    if Above(x.pboSweep, th.pboMax) { return Some(PboSweep); }
    if x.pboSession == None || !x.pboSession.value.Finite? { return Some(PboSession); }
    if x.pboSession.value.value > th.pboMax { return Some(PboSession); }
    if x.dsr == None { return Some(Dsr); }
    if !x.dsr.value.Finite? || x.dsr.value.value < th.dsrMin { return Some(Dsr); }
    if AtMost(x.excess, 0.0) { return Some(ExcessOverExpectedMax); }
    if x.expectancy == None { return Some(OosExpectancy); }
    var (e, se) := x.expectancy.value;
    if e <= 0.0 { return Some(OosExpectancy); }
    if e - th.tStatMin * se <= 0.0 { return Some(OosTStat); }
    if !x.bandSurvives { return Some(OosCostBand); }
    if x.trades < th.nMinOos { return Some(OosTradeCount); }
    if months == 0 { return Some(GoalMetric); }
    RateIs(clearing, months, firm.minPassRate);
    if clearing as real / months as real < firm.minPassRate { return Some(GoalMetric); }
    if pathFails { return Some(ScenarioPathConstraint); }
    return None;
  }

  /** A promotion is the documented inequality, conjunct by conjunct: what is not a number fails wherever a
      number is needed, and passes only the two tests that compare with a refusal in mind. */
  lemma PromotionIs(x: Case, th: Thresholds, firm: PropFirm)
    ensures (forall c :: Holds(c, x, th, firm)) <==>
      && x.touchesSpent <= th.touchesTotal
      && x.pboSweep != PlusInfinity && (x.pboSweep.Finite? ==> x.pboSweep.value <= th.pboMax)
      && (exists p :: x.pboSession == Some(Finite(p)) && p <= th.pboMax)
      && (exists d :: x.dsr == Some(Finite(d)) && d >= th.dsrMin)
      && x.excess != MinusInfinity && (x.excess.Finite? ==> x.excess.value > 0.0)
      && (exists e, se :: x.expectancy == Some((e, se)) && e > 0.0 && e - th.tStatMin * se > 0.0)
      && x.bandSurvives && x.trades >= th.nMinOos && x.monthly != []
      && |ClearingMonths(x.monthly, firm.monthlyTarget)| as real / |x.monthly| as real >= firm.minPassRate
      && PathHolds(x.monthly, firm.maxOverallDrawdown)
  {
    hide PathHolds, Clearing, ClearingMonths;
    ClearingCounts(x.monthly, firm.monthlyTarget);
    if x.monthly != [] { RateIs(Clearing(x.monthly, firm.monthlyTarget), |x.monthly|, firm.minPassRate); }
    if forall c :: Holds(c, x, th, firm) {
      assert Holds(OosTouchAlreadySpent, x, th, firm) && Holds(PboSweep, x, th, firm) && Holds(PboSession, x, th, firm);
      assert Holds(Dsr, x, th, firm) && Holds(ExcessOverExpectedMax, x, th, firm);
      assert Holds(OosExpectancy, x, th, firm) && Holds(OosTStat, x, th, firm) && Holds(OosCostBand, x, th, firm);
      assert Holds(OosTradeCount, x, th, firm) && Holds(GoalMetric, x, th, firm);
      assert Holds(ScenarioPathConstraint, x, th, firm);
      assert x.pboSession == Some(Finite(x.pboSession.value.value)) && x.dsr == Some(Finite(x.dsr.value.value));
      assert x.expectancy == Some((x.expectancy.value.0, x.expectancy.value.1));
    }
  }

  /** When no month loses more than everything, the path rule is a rule about declines: it holds exactly
      when there is a month, the limit is not negative, and no decline between two times exceeds it. */
  lemma PathHoldsIffNoDecline(monthly: seq<Float>, limit: real)
    requires NoMoreThanAll(FiniteOnly(monthly))
    ensures PathHolds(monthly, limit) <==>
      var rs := FiniteOnly(monthly);
      monthly != [] && 0.0 <= limit && forall s, t :: 0 <= s <= t <= |rs| ==> Decline(rs, s, t) <= limit
  {
    hide FiniteOnly;
    var rs := FiniteOnly(monthly);
    if PathHolds(monthly, limit) {
      forall s, t | 0 <= s <= t <= |rs| ensures Decline(rs, s, t) <= limit {
        EquityIsNotNegative(rs, t);
        DeclineIsWithin(rs, s, t);
      }
    }
    if forall s, t :: 0 <= s <= t <= |rs| ==> Decline(rs, s, t) <= limit {
      forall t | 0 <= t <= |rs| ensures Drawdown(rs, t) <= limit {
        var s := PeakIsReached(rs, t);
        assert Decline(rs, s, t) == Drawdown(rs, t);
      }
      if 0.0 <= limit {
        forall i | 0 <= i < |rs| ensures -rs[i] <= limit {
          LossIsWithin(rs, i);
        }
      }
    }
  }

  /** No decline between two times goes beyond a limit. */
  ghost predicate NoDeclineBeyond(rs: seq<real>, limit: real) {
    forall s, t :: 0 <= s <= t <= |rs| ==> Decline(rs, s, t) <= limit
  }

  lemma SmallLimitBoundsDeclines(monthly: seq<Float>, limit: real)
    requires PathHolds(monthly, limit) && limit <= 1.0
    ensures NoDeclineBeyond(FiniteOnly(monthly), limit)
  {
    var rs := FiniteOnly(monthly);
    hide FiniteOnly, Decline, Drawdown;
    forall s, t | 0 <= s <= t <= |rs| ensures Decline(rs, s, t) <= limit {
      SmallDrawdownKeepsEquity(rs, t);
      DeclineIsWithin(rs, s, t);
    }
  }

  function Floats(rs: seq<real>): (r: seq<Float>)
    ensures |r| == |rs|
  {
    if rs == [] then [] else Floats(rs[..|rs| - 1]) + [Finite(rs[|rs| - 1])]
  }

  lemma {:induction false} FloatsAreFinite(rs: seq<real>)
    ensures FiniteOnly(Floats(rs)) == rs
  {
    if rs != [] {
      FloatsAreFinite(rs[..|rs| - 1]);
      assert Floats(rs)[..|rs| - 1] == Floats(rs[..|rs| - 1]);
    }
  }

  lemma LargeLimitMissesADecline(limit: real)
    requires limit > 1.0
    ensures PathHolds(Floats(Debtor(limit)), limit) && !NoDeclineBeyond(FiniteOnly(Floats(Debtor(limit))), limit)
  {
    var rs := Debtor(limit);
    DebtorPath(limit);
    FloatsAreFinite(rs);
    forall i | 0 <= i < |rs| ensures -rs[i] <= limit {
    }
    hide Debtor, Drawdown, Decline, FiniteOnly, Floats;
    forall t | 0 <= t <= |rs| ensures Drawdown(rs, t) <= limit {
      assert t == 0 || t == 1 || t == 2 || t == 3;
    }
    assert Decline(rs, 1, 3) > limit;
  }

  /** The path rule keeps every decline within its limit, for all evidence, exactly when the configured
      limit is no more than everything. */
  lemma RuleBoundsDeclinesIff(limit: real)
    ensures (forall monthly :: PathHolds(monthly, limit) ==> NoDeclineBeyond(FiniteOnly(monthly), limit)) <==>
        limit <= 1.0
  {
    hide PathHolds, NoDeclineBeyond, FiniteOnly, Floats, Debtor;
    if limit <= 1.0 {
      forall monthly | PathHolds(monthly, limit) ensures NoDeclineBeyond(FiniteOnly(monthly), limit) {
        SmallLimitBoundsDeclines(monthly, limit);
      }
    } else {
      LargeLimitMissesADecline(limit);
    }
  }

  /** A promotion under such a limit means what the rule is for, whatever the evidence: no decline between
      any two times of the out-of-sample path goes beyond the limit, and the pass rate meets its bar. */
  lemma PromotedIsWithinTheRules(x: Case, th: Thresholds, firm: PropFirm)
    requires (forall c :: Holds(c, x, th, firm)) && firm.maxOverallDrawdown <= 1.0
    ensures NoDeclineBeyond(FiniteOnly(x.monthly), firm.maxOverallDrawdown)
    ensures Clearing(x.monthly, firm.monthlyTarget) as real >= firm.minPassRate * |x.monthly| as real
  {
    hide Clearing;
    assert Holds(ScenarioPathConstraint, x, th, firm) && Holds(GoalMetric, x, th, firm);
    hide PathHolds;
    SmallLimitBoundsDeclines(x.monthly, firm.maxOverallDrawdown);
  }
}
