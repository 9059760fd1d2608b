/** The S&P 500 comparison: the CHF spent on each purchase is imagined to buy
    index shares at the index price on that day, and those shares are valued
    at the latest index price. */
module Benchmark {
  import opened Wrappers
  import opened Portfolio
  import opened Sums
  import opened Aligner
  import PnL

  /** The imagined index position bought instead of one purchase. */
  datatype Investment = Investment(shares: real, profitLoss: real)

  /** The two figures shown for the index comparison. */
  datatype BenchSummary = BenchSummary(totalProfitLoss: real, percentageChange: real)

  /** The index price a purchase is joined to: the as-of price, which must
      exist and must not be zero since the CHF amount is divided by it. */
  function PriceThen(s: seq<PricePoint>, d: int): Result<real, PriceError>
  {
    match AsOfPrice(s, d)
    case None => Failure(NoPriceBefore(d))
    case Some(p) => if p == 0.0 then Failure(ZeroPrice(d)) else Success(p)
  }

  /** The joined price is that of the latest row dated on or before the
      purchase, when that row exists and its price is not zero. A purchase
      lacks an index price exactly when the whole series is dated after it;
      any other failure is a zero price. */
  lemma {:induction false} PriceThenIsLatestRow(s: seq<PricePoint>, d: int)
    ensures PriceThen(s, d).Success? <==>
              LatestIndexUpTo(s, d).Some? && s[LatestIndexUpTo(s, d).value].price != 0.0
    ensures PriceThen(s, d).Success? ==> PriceThen(s, d).value == s[LatestIndexUpTo(s, d).value].price
    ensures PriceThen(s, d) == Failure(NoPriceBefore(d)) <==> forall j :: 0 <= j < |s| ==> s[j].date > d
    ensures PriceThen(s, d).Failure? ==>
              PriceThen(s, d) == Failure(NoPriceBefore(d)) || PriceThen(s, d) == Failure(ZeroPrice(d))
  {
    AsOfPriceIsLatestRow(s, d);
  }

  /** Index shares bought with the purchase's CHF at `priceThen`, and their
      gain when valued at `current`. */
  function Substitute(p: Purchase, priceThen: real, current: real): (inv: Investment)
    requires priceThen != 0.0
    ensures inv.shares * priceThen == Cost(p)
    ensures inv.profitLoss == inv.shares * current - Cost(p)
    ensures current == priceThen ==> inv.profitLoss == 0.0
  {
    var shares := p.amount * p.priceChf / priceThen;
    Investment(shares, shares * (current - priceThen))
  }

  predicate Aligned(s: seq<PricePoint>, d: int)
  {
    PriceThen(s, d).Success?
  }

  /** The index position for every purchase, in purchase order; the first
      purchase that cannot be joined stops the loop with its error. */
  function SubstituteAll(ps: seq<Purchase>, s: seq<PricePoint>, current: real): (r: Result<seq<Investment>, PriceError>)
    ensures r.Success? <==> forall i :: 0 <= i < |ps| ==> Aligned(s, ps[i].date)
    ensures r.Success? ==> |r.value| == |ps|
    ensures r.Success? ==> forall i :: 0 <= i < |ps| ==>
              Aligned(s, ps[i].date) && r.value[i] == Substitute(ps[i], PriceThen(s, ps[i].date).value, current)
    ensures r.Success? ==> GainsInClosedForm(r.value, ps, current)
    ensures r.Failure? ==>
              exists i :: (0 <= i < |ps| && !Aligned(s, ps[i].date)
                           && (forall j :: 0 <= j < i ==> Aligned(s, ps[j].date))
                           && r.error == PriceThen(s, ps[i].date).error)
  {
    if |ps| == 0 then Success([])
    else
      match PriceThen(s, ps[0].date)
      case Failure(e) => Failure(e)
      case Success(p) =>
        match SubstituteAll(ps[1..], s, current)
        case Failure(e) =>
          assert forall i :: 1 <= i < |ps| ==> ps[i] == ps[1..][i - 1];
          Failure(e)
        case Success(rest) =>
          assert forall i :: 1 <= i < |ps| ==> ps[i] == ps[1..][i - 1];
          var inv := Substitute(ps[0], p, current);
          GainsInClosedFormCons(inv, rest, ps, current);
          Success([inv] + rest)
  }

  /** Each position gained its shares' value at `current` minus what its
      purchase cost. */
  predicate GainsInClosedForm(invs: seq<Investment>, ps: seq<Purchase>, current: real)
  {
    |invs| == |ps| && forall i :: 0 <= i < |ps| ==> invs[i].profitLoss == invs[i].shares * current - Cost(ps[i])
  }

  /** Prepending a position whose gain is in closed form keeps the whole
      sequence in closed form. */
  lemma GainsInClosedFormCons(inv: Investment, rest: seq<Investment>, ps: seq<Purchase>, current: real)
    requires |ps| > 0
    requires inv.profitLoss == inv.shares * current - Cost(ps[0])
    requires GainsInClosedForm(rest, ps[1..], current)
    ensures GainsInClosedForm([inv] + rest, ps, current)
  {
    assert forall i :: 1 <= i < |ps| ==> ([inv] + rest)[i] == rest[i - 1] && ps[i] == ps[1..][i - 1];
  }

  function SharesOf(inv: Investment): real { inv.shares }

  function ProfitOf(inv: Investment): real { inv.profitLoss }

  /** The index figures. With no purchases nothing is looked up and both are
      zero; otherwise the current index price is the series' last row, which
      must exist. The percentage uses the same invested CHF as the actual
      figures. */
  function BenchmarkPnL(ps: seq<Purchase>, s: seq<PricePoint>): (r: Result<BenchSummary, PriceError>)
    ensures |ps| == 0 ==> r == Success(BenchSummary(0.0, 0.0))
    ensures |ps| > 0 && |s| == 0 ==> r == Failure(EmptySeries)
    ensures |ps| > 0 && |s| > 0 ==> (r.Success? <==> forall i :: 0 <= i < |ps| ==> Aligned(s, ps[i].date))
    ensures r.Success? && |ps| > 0 ==>
              var current := s[|s| - 1].price;
              var joined := SubstituteAll(ps, s, current);
              && joined.Success?
              && r.value.totalProfitLoss == SumOver(joined.value, ProfitOf)
              && r.value.totalProfitLoss == current * SumOver(joined.value, SharesOf) - PnL.TotalInvestment(ps)
    ensures r.Success? && PnL.TotalInvestment(ps) == 0.0 ==> r.value.percentageChange == 0.0
    ensures r.Success? && PnL.TotalInvestment(ps) != 0.0 ==>
              r.value.percentageChange * PnL.TotalInvestment(ps) == r.value.totalProfitLoss * 100.0
  {
    if |ps| == 0 then Success(BenchSummary(0.0, 0.0))
    else if |s| == 0 then Failure(EmptySeries)
    else
      var current := s[|s| - 1].price;
      match SubstituteAll(ps, s, current)
      case Failure(e) => Failure(e)
      case Success(invs) =>
        BenchmarkClosedForm(ps, s, current);
        var total := SumOver(invs, ProfitOf);
        Success(BenchSummary(total, PnL.PercentChange(total, PnL.TotalInvestment(ps))))
  }

  /** The index gain equals the current value of all imagined shares minus
      the CHF spent, mirroring the closed form of the actual gain. */
  lemma {:induction false} BenchmarkClosedForm(ps: seq<Purchase>, s: seq<PricePoint>, current: real)
    requires SubstituteAll(ps, s, current).Success?
    ensures var invs := SubstituteAll(ps, s, current).value;
            SumOver(invs, ProfitOf) == current * SumOver(invs, SharesOf) - PnL.TotalInvestment(ps)
  {
    var invs := SubstituteAll(ps, s, current).value;
    ClosedFormOfPositions(invs, ps, current);
  }

  /** Positions that each gained their value now minus what their purchase
      cost gain, together, the value now of all their shares minus the CHF
      spent. */
  lemma {:induction false} ClosedFormOfPositions(invs: seq<Investment>, ps: seq<Purchase>, current: real)
    requires GainsInClosedForm(invs, ps, current)
    ensures SumOver(invs, ProfitOf) == current * SumOver(invs, SharesOf) - PnL.TotalInvestment(ps)
  {
    if |ps| > 0 {
      assert invs[0].profitLoss == invs[0].shares * current - Cost(ps[0]);
      ClosedFormOfPositions(invs[1..], ps[1..], current);
      ClosedFormStep(invs[0].profitLoss, invs[0].shares, Cost(ps[0]),
                     SumOver(invs[1..], ProfitOf), SumOver(invs[1..], SharesOf), PnL.TotalInvestment(ps[1..]), current);
    }
  }

  /** One purchase's gain added to the closed form of the rest keeps the
      closed form. */
  lemma ClosedFormStep(gain: real, shares: real, spent: real, restGain: real, restShares: real, restSpent: real, current: real)
    requires gain == shares * current - spent
    requires restGain == current * restShares - restSpent
    ensures gain + restGain == current * (shares + restShares) - (spent + restSpent)
  {
  }

  /** If the index stands where it stood at every purchase, the comparison
      shows neither gain nor loss. */
  lemma FlatIndexGivesZero(ps: seq<Purchase>, s: seq<PricePoint>)
    requires |s| > 0
    requires forall i :: 0 <= i < |ps| ==> AsOfPrice(s, ps[i].date) == Some(s[|s| - 1].price)
    requires s[|s| - 1].price != 0.0
    ensures BenchmarkPnL(ps, s) == Success(BenchSummary(0.0, 0.0))
  {
    var current := s[|s| - 1].price;
    if |ps| > 0 {
      assert forall i :: 0 <= i < |ps| ==> Aligned(s, ps[i].date);
      var invs := SubstituteAll(ps, s, current).value;
      forall i | 0 <= i < |invs|
        ensures ProfitOf(invs[i]) == 0.0
      {
        assert PriceThen(s, ps[i].date).value == current;
      }
      SumOverZero(invs, ProfitOf);
    }
  }

  /** With a positive amount invested, the two percentages rank the BTC and
      index outcomes exactly as their CHF gains do. */
  lemma PercentagesCompareLikeGains(ps: seq<Purchase>, btcNow: real, s: seq<PricePoint>)
    requires PnL.TotalInvestment(ps) > 0.0
    requires BenchmarkPnL(ps, s).Success?
    ensures var a := PnL.ActualPnL(ps, btcNow);
            var b := BenchmarkPnL(ps, s).value;
            a.percentageChange <= b.percentageChange <==> a.totalProfitLoss <= b.totalProfitLoss
  {
    var a := PnL.ActualPnL(ps, btcNow);
    var b := BenchmarkPnL(ps, s).value;
    var inv := PnL.TotalInvestment(ps);
    assert a.percentageChange * inv == a.totalProfitLoss * 100.0;
    assert b.percentageChange * inv == b.totalProfitLoss * 100.0;
    ScaledOrder(a.percentageChange, b.percentageChange, a.totalProfitLoss, b.totalProfitLoss, inv);
  }

  /** Two percentages of the same positive base are ordered as their gains. */
  lemma ScaledOrder(pa: real, pb: real, ga: real, gb: real, base: real)
    requires base > 0.0
    requires pa * base == ga * 100.0
    requires pb * base == gb * 100.0
    ensures pa <= pb <==> ga <= gb
  {
    if pa <= pb {
      assert pa * base <= pb * base;
    } else {
      assert pa * base > pb * base;
    }
  }

  /** Worked example: 4000 CHF invested when the index stood at 4000 CHF,
      index now at 4400 CHF. */
  lemma SinglePurchaseExample()
    ensures BenchmarkPnL([Purchase(0, 0.1, 40000.0)], [PricePoint(0, 4000.0), PricePoint(7, 4400.0)])
            == Success(BenchSummary(400.0, 10.0))
  {
    var ps := [Purchase(0, 0.1, 40000.0)];
    var s := [PricePoint(0, 4000.0), PricePoint(7, 4400.0)];
    assert RowsUpTo(s[1..], 0) == [];
    assert RowsUpTo(s, 0) == [s[0]];
    assert ps[1..] == [];
    assert PnL.TotalInvestment(ps) == 4000.0;
    assert PriceThen(s, 0) == Success(4000.0);
    assert Substitute(ps[0], 4000.0, 4400.0) == Investment(1.0, 400.0);
    assert SubstituteAll(ps[1..], s, 4400.0) == Success([]);
    var invs := SubstituteAll(ps, s, 4400.0).value;
    assert invs == [Investment(1.0, 400.0)];
    assert invs[1..] == [];
    assert SumOver(invs, ProfitOf) == 400.0;
    assert PnL.PercentChange(400.0, 4000.0) == 10.0;
    assert SubstituteAll(ps, s, 4400.0) == Success(invs);
  }
}
