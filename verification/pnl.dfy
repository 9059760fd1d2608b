/** Profit and loss of the actual BTC purchases against the current price,
    and the one-year price change metric. */
module PnL {
  import opened Wrappers
  import opened Portfolio
  import opened Sums

  /** The three figures shown for the actual holdings. */
  datatype Summary = Summary(totalProfitLoss: real, totalInvestment: real, percentageChange: real)

  /** Gain of one purchase if it were sold at `current`. */
  function ProfitLoss(p: Purchase, current: real): real
  {
    (current - p.priceChf) * p.amount
  }

  function TotalProfitLoss(ps: seq<Purchase>, current: real): real
  {
    SumOver(ps, p => ProfitLoss(p, current))
  }

  function TotalInvestment(ps: seq<Purchase>): real
  {
    SumOver(ps, Cost)
  }

  function TotalAmount(ps: seq<Purchase>): real
  {
    SumOver(ps, (p: Purchase) => p.amount)
  }

  /** `gain` as a percentage of `base`, or 0 when `base` is 0. */
  function PercentChange(gain: real, base: real): (r: real)
    ensures base == 0.0 ==> r == 0.0
    ensures base != 0.0 ==> r * base == gain * 100.0
  {
    if base != 0.0 then gain / base * 100.0 else 0.0
  }

  /** Total gain equals the current value of all BTC bought minus the CHF spent. */
  lemma ProfitLossClosedForm(ps: seq<Purchase>, current: real)
    ensures TotalProfitLoss(ps, current) == current * TotalAmount(ps) - TotalInvestment(ps)
  {
    var f := p => ProfitLoss(p, current);
    var g := (p: Purchase) => p.amount;
    forall i | 0 <= i < |ps|
      ensures f(ps[i]) == current * g(ps[i]) - Cost(ps[i])
    {
      assert (current - ps[i].priceChf) * ps[i].amount == current * ps[i].amount - ps[i].amount * ps[i].priceChf;
    }
    SumOverLinear(ps, f, g, Cost, current);
  }

  /** The CHF invested is never negative for purchases the form accepts. */
  lemma InvestmentNonNegative(ps: seq<Purchase>)
    ensures AllValid(ps) ==> TotalInvestment(ps) >= 0.0
  {
    if AllValid(ps) {
      forall i | 0 <= i < |ps|
        ensures Cost(ps[i]) >= 0.0
      {
        assert Valid(ps[i]);
      }
      SumOverNonNegative(ps, Cost);
    }
  }

  /** When every purchase was at or below the current price the total is a gain. */
  lemma GainWhenPriceAboveEveryPurchase(ps: seq<Purchase>, current: real)
    requires AllValid(ps)
    requires forall i :: 0 <= i < |ps| ==> ps[i].priceChf <= current
    ensures TotalProfitLoss(ps, current) >= 0.0
  {
    var f := p => ProfitLoss(p, current);
    forall i | 0 <= i < |ps|
      ensures f(ps[i]) >= 0.0
    {
      assert Valid(ps[i]);
    }
    SumOverNonNegative(ps, f);
  }

  /** The stored order of purchases does not affect any total. */
  lemma TotalsIgnoreOrder(ps: seq<Purchase>, qs: seq<Purchase>, current: real)
    requires multiset(ps) == multiset(qs)
    ensures TotalProfitLoss(ps, current) == TotalProfitLoss(qs, current)
    ensures TotalInvestment(ps) == TotalInvestment(qs)
    ensures TotalAmount(ps) == TotalAmount(qs)
  {
    SumOverPermutation(ps, qs, p => ProfitLoss(p, current));
    SumOverPermutation(ps, qs, Cost);
    SumOverPermutation(ps, qs, (p: Purchase) => p.amount);
  }

  /** The figures for the actual holdings; an empty purchase list shows zeros
      without computing anything. */
  function ActualPnL(ps: seq<Purchase>, current: real): (s: Summary)
    ensures |ps| == 0 ==> s == Summary(0.0, 0.0, 0.0)
    ensures s.totalInvestment == TotalInvestment(ps)
    ensures s.totalProfitLoss == current * TotalAmount(ps) - TotalInvestment(ps)
    ensures AllValid(ps) ==> s.totalInvestment >= 0.0
    ensures s.totalInvestment == 0.0 ==> s.percentageChange == 0.0
    ensures s.totalInvestment != 0.0 ==> s.percentageChange * s.totalInvestment == s.totalProfitLoss * 100.0
  {
    ProfitLossClosedForm(ps, current);
    InvestmentNonNegative(ps);
    if |ps| == 0 then Summary(0.0, 0.0, 0.0)
    else
      var total := TotalProfitLoss(ps, current);
      var invested := TotalInvestment(ps);
      Summary(total, invested, PercentChange(total, invested))
  }

  /** Worked example: 0.1 BTC bought at 40000 CHF, now worth 50000 CHF. */
  lemma SinglePurchaseExample()
    ensures ActualPnL([Purchase(0, 0.1, 40000.0)], 50000.0) == Summary(1000.0, 4000.0, 25.0)
  {
    var ps := [Purchase(0, 0.1, 40000.0)];
    assert ps[1..] == [];
    assert TotalProfitLoss(ps, 50000.0) == 1000.0;
    assert TotalInvestment(ps) == 4000.0;
  }

  /** Change of `current` against the first row of the BTC series, in percent.
      The first row is indexed and divided by without a guard, so an empty
      series or a zero first price yields no figure. */
  function YearOverYear(s: seq<PricePoint>, current: real): (r: Result<real, PriceError>)
    ensures |s| == 0 <==> r == Failure(EmptySeries)
    ensures |s| > 0 ==> (s[0].price == 0.0 <==> r == Failure(ZeroPrice(s[0].date)))
    ensures |s| > 0 && s[0].price != 0.0 ==> r.Success?
    ensures r.Success? ==> r.value * s[0].price == (current - s[0].price) * 100.0
    ensures r.Success? && current == s[0].price ==> r.value == 0.0
  {
    if |s| == 0 then Failure(EmptySeries)
    else if s[0].price == 0.0 then Failure(ZeroPrice(s[0].date))
    else Success(PercentChange(current - s[0].price, s[0].price))
  }
}
