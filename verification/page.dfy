/** One evaluation of the profit page: which histories are requested from the
    price providers, and the figures computed from what they return. The
    providers are parameters: the BTC provider maps a number of days of
    history to rows, the index provider maps a first day to rows. */
module Page {
  import opened Wrappers
  import opened Portfolio
  import opened Aligner
  import PnL
  import opened Benchmark

  /** Extra days of BTC history requested before the earliest purchase. */
  const LookbackDays: nat := 30

  /** Days of BTC history requested when there are no purchases. */
  const DefaultHistoryDays: nat := 365

  /** Days the index history starts before the earliest purchase, as the
      source requests it: none. */
  const AsWrittenIndexLead: nat := 0

  /** Days the index history starts before the earliest purchase in the
      corrected page: the same lead the BTC request has. */
  const CorrectedIndexLead: nat := LookbackDays

  /** The earliest purchase date, absent when nothing was bought. */
  function FirstPurchase(ps: seq<Purchase>): Option<int>
  {
    if |ps| == 0 then None else Some(EarliestDate(ps))
  }

  /** Days of BTC history requested: from the earliest purchase to today plus
      the lead, or one year when nothing was bought. */
  function BtcDays(earliest: Option<int>, today: int): int
  {
    match earliest
    case None => DefaultHistoryDays
    case Some(e) => (today - e) + LookbackDays
  }

  /** The requested BTC history begins exactly `LookbackDays` before the
      earliest purchase, so every purchase lies at least that far inside it. */
  lemma BtcHistoryLeadsEveryPurchase(ps: seq<Purchase>, today: int)
    requires |ps| > 0
    ensures var first := today - BtcDays(FirstPurchase(ps), today);
            && (forall i :: 0 <= i < |ps| ==> first + LookbackDays <= ps[i].date)
            && (exists i :: 0 <= i < |ps| && first + LookbackDays == ps[i].date)
  {
    var e := EarliestDate(ps);
    var i :| 0 <= i < |ps| && ps[i].date == e;
    assert today - BtcDays(FirstPurchase(ps), today) + LookbackDays == ps[i].date;
  }

  /** What a price provider delivers for a request starting at `start`:
      rows no earlier than `start`, at least one of them within `gap` days
      of it (the longest market closure), all at positive prices. */
  predicate Covers(s: seq<PricePoint>, start: int, gap: int)
  {
    && (forall i :: 0 <= i < |s| ==> start <= s[i].date && s[i].price > 0.0)
    && exists k :: 0 <= k < |s| && s[k].date < start + gap
  }

  /** Everything the profit page shows that is computed. The index
      comparison is absent when the page stopped before reaching it. */
  datatype PageMetrics = PageMetrics(
    actual: PnL.Summary,
    yearOverYear: Result<real, PriceError>,
    benchmark: Option<Result<BenchSummary, PriceError>>)

  /** One evaluation of the page, with the index history requested
      `indexLead` days before the earliest purchase. Indexing an empty BTC
      history for the one-year change raises and ends the page before the
      index comparison. */
  function Evaluate(ps: seq<Purchase>, today: int, btcNow: real,
                    btcHistory: int -> seq<PricePoint>, spHistory: int -> seq<PricePoint>,
                    indexLead: nat): (m: PageMetrics)
    ensures m.actual == PnL.ActualPnL(ps, btcNow)
    ensures m.yearOverYear == PnL.YearOverYear(btcHistory(BtcDays(FirstPurchase(ps), today)), btcNow)
    ensures m.benchmark.None? <==> m.yearOverYear == Failure(EmptySeries)
    ensures m.benchmark.Some? && |ps| == 0 ==> m.benchmark.value == Success(BenchSummary(0.0, 0.0))
    ensures m.benchmark.Some? && |ps| > 0 ==>
              m.benchmark.value == BenchmarkPnL(ps, spHistory(EarliestDate(ps) - indexLead))
  {
    var btcSeries := btcHistory(BtcDays(FirstPurchase(ps), today));
    var yearChange := PnL.YearOverYear(btcSeries, btcNow);
    var bench :=
      if yearChange == Failure(EmptySeries) then None
      else if |ps| == 0 then Some(Success(BenchSummary(0.0, 0.0)))
      else Some(BenchmarkPnL(ps, spHistory(EarliestDate(ps) - indexLead)));
    PageMetrics(PnL.ActualPnL(ps, btcNow), yearChange, bench)
  }

  /** The page as written, with a first purchase on a Saturday (day 5,
      counting from a Monday): the index provider delivers from the following
      Monday (day 7), well within an ordinary weekend closure, and the
      comparison finds no index price for the purchase. */
  lemma AsWrittenWindowMissesWeekendPurchase()
    ensures var ps := [Purchase(5, 0.1, 40000.0)];
            var btc := (days: int) => [PricePoint(0, 30000.0)];
            var sp := (start: int) => [PricePoint(7, 4000.0), PricePoint(14, 4400.0)];
            && Covers(sp(5), 5, 3)
            && Evaluate(ps, 100, 50000.0, btc, sp, AsWrittenIndexLead).benchmark == Some(Failure(NoPriceBefore(5)))
  {
    var ps := [Purchase(5, 0.1, 40000.0)];
    var s := [PricePoint(7, 4000.0), PricePoint(14, 4400.0)];
    assert EarliestDate(ps) == 5;
    assert s[0].date < 5 + 3;
    NoPriceIffAllLater(s, 5);
    assert PriceThen(s, 5) == Failure(NoPriceBefore(5));
  }

  /** With the corrected lead, every purchase finds an index price as long
      as the market closure the provider can show is no longer than the lead.
      `e` is any day on or before every purchase, such as the earliest
      purchase date. */
  lemma CorrectedWindowJoinsEveryPurchase(ps: seq<Purchase>, s: seq<PricePoint>, e: int, gap: int)
    requires |ps| > 0
    requires forall i :: 0 <= i < |ps| ==> e <= ps[i].date
    requires gap <= CorrectedIndexLead
    requires Covers(s, e - CorrectedIndexLead, gap)
    ensures BenchmarkPnL(ps, s).Success?
  {
    var k :| 0 <= k < |s| && s[k].date < e - CorrectedIndexLead + gap;
    forall i | 0 <= i < |ps|
      ensures Aligned(s, ps[i].date)
    {
      AsOfPriceFromRow(s, ps[i].date, k);
      AsOfPriceIsLatestRow(s, ps[i].date);
    }
  }

  /** The corrected page: with an index provider that never shows a closure
      longer than the lead, the comparison is computed whenever the page
      reaches it. */
  lemma EvaluateJoinsEveryPurchase(ps: seq<Purchase>, today: int, btcNow: real,
                                   btcHistory: int -> seq<PricePoint>, spHistory: int -> seq<PricePoint>, gap: int)
    requires gap <= CorrectedIndexLead
    requires forall start :: Covers(spHistory(start), start, gap)
    ensures var m := Evaluate(ps, today, btcNow, btcHistory, spHistory, CorrectedIndexLead);
            m.benchmark.Some? ==> m.benchmark.value.Success?
  {
    if |ps| > 0 {
      var e := EarliestDate(ps);
      var start := e - CorrectedIndexLead;
      assert Covers(spHistory(start), start, gap);
      CorrectedWindowJoinsEveryPurchase(ps, spHistory(start), e, gap);
    }
  }
}
