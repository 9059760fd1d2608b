/** The records the profit/loss engine reads: stored purchases and rows of a
    price series. Money is exact `real` in CHF; dates are day ordinals. */
module Portfolio {

  /** One stored purchase: the day it happened, the BTC amount bought and the
      CHF price paid per BTC. */
  datatype Purchase = Purchase(date: int, amount: real, priceChf: real)

  /** The purchase form only accepts non-negative amounts and prices. */
  predicate Valid(p: Purchase)
  {
    p.amount >= 0.0 && p.priceChf >= 0.0
  }

  predicate AllValid(ps: seq<Purchase>)
  {
    forall i :: 0 <= i < |ps| ==> Valid(ps[i])
  }

  /** The CHF spent on a purchase. */
  function Cost(p: Purchase): real
  {
    p.amount * p.priceChf
  }

  /** One row of a price series: a day and the CHF price on that day. */
  datatype PricePoint = PricePoint(date: int, price: real)

  /** Rows appear in ascending date order, as the price providers deliver them. */
  predicate SortedByDate(s: seq<PricePoint>)
  {
    forall i, j :: 0 <= i < j < |s| ==> s[i].date <= s[j].date
  }

  /** The earliest purchase date of a non-empty purchase list. */
  function EarliestDate(ps: seq<Purchase>): (d: int)
    requires |ps| > 0
    ensures exists i :: 0 <= i < |ps| && ps[i].date == d
    ensures forall i :: 0 <= i < |ps| ==> d <= ps[i].date
  {
    if |ps| == 1 then ps[0].date
    else
      var rest := EarliestDate(ps[1..]);
      assert forall i :: 1 <= i < |ps| ==> ps[i] == ps[1..][i - 1];
      if ps[0].date <= rest then ps[0].date else rest
  }
}
