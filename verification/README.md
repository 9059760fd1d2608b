# BoomerBitcoin profit page: profit/loss engine in Dafny

This project models the computational core of the "Gewinn" (profit) page of a
personal Bitcoin tracker. The page loads the user's stored BTC purchases
(date, BTC amount, CHF price per BTC) and shows three figures:

- the actual profit or loss of all purchases at the current BTC price, with a
  percentage of the CHF invested;
- the change of the current BTC price against the first row of the BTC price
  history;
- the S&P 500 comparison. The CHF spent on each purchase is imagined to buy
  index shares at the index price of the purchase day, found by an as-of
  lookup. Those shares are valued at the latest index price.

Money is exact `real` (CHF), dates are integer day ordinals, and price
histories are sequences of `PricePoint` rows. The network providers are
function parameters, and so are the current BTC price and today's date.

Modules:

- `Wrappers`: `Option`, `Result` and `PriceError`. `PriceError` names the three
  ways a price-based figure can fail: an empty series, no row on or before a
  date, or a zero divisor.
- `Sums`: `SumOver`, the column sum used for every total, with lemmas for
  append, order independence, sign and linearity.
- `Portfolio`: the `Purchase` and `PricePoint` records, purchase validity as
  the purchase form enforces it, and the earliest purchase date.
- `Aligner`: the as-of lookup at `pages/2_Gewinn.py:163`. It is written as the
  source does it: select the rows dated on or before the day, then take the
  last one. It is proved equal to a reference "greatest qualifying index"
  definition.
- `PnL`: the actual profit/loss summary and the one-year change.
- `Benchmark`: the index substitution and its summary.
- `Page`: the BTC history length requested from its provider, and one
  evaluation of the whole page with the index history's lead as a parameter.

Behaviour of the code that the model keeps:

- Duplicate dates are not averaged. Line 163 takes the last qualifying row
  in series order.
- A purchase with no index row on or before its date is not skipped. The
  selection at line 163 is empty and its `.iloc[-1]` raises. The model returns
  `Failure(NoPriceBefore(date))`.
- A purchase is not clamped to the first index row either. The code has no
  fallback for it.
- A zero index price is not excluded. Line 164 divides by it, which NumPy
  turns into inf/NaN. The model returns `Failure(ZeroPrice(date))` (see
  "## Left out").
- A purchase may have a zero amount. The purchase form accepts any
  non-negative amount and price (`pages/1_MeineBitcoin.py:32-33`), so
  `Portfolio.Valid` says non-negative.

## Model

| member | source | states |
|---|---|---|
| Portfolio.EarliestDate | pages/2_Gewinn.py:85-87 | the earliest purchase date is the date of some purchase and no purchase is earlier |
| Aligner.LatestIndexUpTo | pages/2_Gewinn.py:163 | reference as-of row: some index whose row is dated on or before the day, with every later row dated after it; none exactly when every row is dated after the day |
| Aligner.AsOfPriceIsLatestRow | pages/2_Gewinn.py:163 | selecting the rows dated on or before the day and taking the last one gives the price at the greatest qualifying index, and nothing when there is none |
| Aligner.NoPriceIffAllLater | pages/2_Gewinn.py:163 | the lookup fails exactly when every series row is dated after the purchase date |
| Aligner.SortedAsOfIsMostRecent | pages/2_Gewinn.py:163 | on a date-sorted series the returned price belongs to a row whose date is the greatest date not after the purchase date |
| Aligner.AsOfPriceFromRow | pages/2_Gewinn.py:163 | one row dated on or before the purchase date is enough for a price, and the price is one of the series' prices |
| Aligner.WeeklySeriesExample | pages/2_Gewinn.py:163 | rows on days 1, 8, 15 at 100, 110, 105: day 10 gives 110, and a day before all rows gives no price |
| PnL.PercentChange | pages/2_Gewinn.py:121 | a zero base gives 0; otherwise the result is the percentage that, applied to the base, gives the gain, so no division by zero occurs |
| PnL.ProfitLossClosedForm | pages/2_Gewinn.py:116-120 | summed per-purchase gains equal the current price times the BTC bought, minus the CHF invested |
| PnL.InvestmentNonNegative | pages/2_Gewinn.py:120 | the CHF invested is non-negative when every purchase has a non-negative amount and price |
| PnL.GainWhenPriceAboveEveryPurchase | pages/2_Gewinn.py:116-117 | with the current price at or above every purchase price, the total is not a loss |
| PnL.TotalsIgnoreOrder | pages/2_Gewinn.py:116-120 | the gain, investment and amount totals are the same for every order in which the purchases are loaded |
| PnL.ActualPnL | pages/2_Gewinn.py:115-134 | no purchases give 0, 0, 0%; the gain has the closed form, the investment is the column sum and non-negative for valid purchases, and the percentage is 0 or gain/investment*100 |
| PnL.SinglePurchaseExample | pages/2_Gewinn.py:115-121 | 0.1 BTC at 40000 CHF with BTC at 50000 CHF gives 1000 CHF on 4000 CHF invested, 25% |
| PnL.YearOverYear | pages/2_Gewinn.py:137-138 | fails exactly on an empty series (`EmptySeries`) or a zero first price (`ZeroPrice`), and succeeds otherwise with the percentage change of the current price against the first row's price |
| Benchmark.PriceThenIsLatestRow | pages/2_Gewinn.py:163-164 | the joined index price is the price of the reference latest row dated on or before the purchase, exactly when that row exists and its price is non-zero; the failure is `NoPriceBefore` exactly when every row is dated after the purchase, and `ZeroPrice` otherwise |
| Benchmark.Substitute | pages/2_Gewinn.py:160-166 | the imagined shares cost exactly the purchase's CHF at the price then; their gain is their value now minus that CHF; a flat index gives no gain |
| Benchmark.SubstituteAll | pages/2_Gewinn.py:157-170 | succeeds exactly when every purchase is joined, then gives one position per purchase in order, each gaining its shares' value now minus its purchase's CHF; otherwise it reports the error of the first purchase that cannot be joined |
| Benchmark.BenchmarkPnL | pages/2_Gewinn.py:151-187 | no purchases give 0 and 0% without touching the series; an empty series fails; otherwise it succeeds exactly when every purchase is joined, the total is the sum of the per-purchase gains at the last row's price and equals that price times all imagined shares minus the CHF invested, and the percentage uses the actual figures' investment and zero guard |
| Benchmark.BenchmarkClosedForm | pages/2_Gewinn.py:160-173 | the index gain equals the latest index price times all imagined shares, minus the CHF invested |
| Benchmark.ClosedFormOfPositions | pages/2_Gewinn.py:166-173 | positions that each gained their shares' value now minus their purchase's CHF gain, summed, the value now of all their shares minus the CHF invested |
| Benchmark.FlatIndexGivesZero | pages/2_Gewinn.py:154-173 | if the index stood at its latest price on every purchase day, the comparison shows 0 and 0% |
| Benchmark.PercentagesCompareLikeGains | pages/2_Gewinn.py:121-175 | with a positive investment, the BTC and index percentages are ordered as their CHF gains are |
| Benchmark.SinglePurchaseExample | pages/2_Gewinn.py:151-175 | 4000 CHF invested at index 4000, index now 4400: 400 CHF, 10% |
| Page.BtcHistoryLeadsEveryPurchase | pages/2_Gewinn.py:51-58 | the day count requested from the BTC provider makes the history begin exactly 30 days before the earliest purchase, so every purchase lies at least 30 days inside it |
| Page.AsWrittenWindowMissesWeekendPurchase | pages/2_Gewinn.py:151-163 | the page as written (index history from the earliest purchase date): a first purchase on a Saturday gets no index price, although the provider delivered from the following Monday |
| Page.CorrectedWindowJoinsEveryPurchase | pages/2_Gewinn.py:151-163 | corrected half of the finding: with the index history starting 30 days before every purchase, every purchase is joined whenever market closures are no longer than the lead and prices are positive |
| Page.Evaluate | pages/2_Gewinn.py:81-187 | one page evaluation: the actual figures and the one-year change of the requested BTC history; the index comparison is absent exactly when the empty BTC history stopped the page, zero for no purchases, and otherwise the benchmark figures of the index history requested `indexLead` days before the earliest purchase (0 as written) |
| Page.EvaluateJoinsEveryPurchase | pages/2_Gewinn.py:151-166 | corrected half of the finding: with the 30-day index lead and a provider whose closures fit within it, the page computes the index comparison whenever it reaches it |

## Findings

| source | as written | input that shows it | evidently intended | confidence | as-written member | corrected member |
|---|---|---|---|---|---|---|
| pages/2_Gewinn.py:151-163 | the index history is requested from the earliest purchase date itself (line 153), and line 163 needs a row on or before every purchase date | a first purchase on a Saturday: the index history starts on the following Monday, so the selection at line 163 is empty and `.iloc[-1]` raises | request the index history with a lead before the earliest purchase, as the BTC request does with its 30 extra days (line 54) | medium, not executed | Page.AsWrittenWindowMissesWeekendPurchase | Page.EvaluateJoinsEveryPurchase |

`Page.Evaluate` takes the index lead as a parameter. `Page.AsWrittenIndexLead`
(0 days) is the page as written, and `Page.CorrectedIndexLead` (30 days) is the
corrected page. `Page.CorrectedWindowJoinsEveryPurchase` is the corrected
window's property for one index history.

## Left out

- Caching with a time-to-live (`pages/2_Gewinn.py:17`, `50`, `70`; `pages/1_MeineBitcoin.py:14`): it depends on wall-clock time and is framework memoization. Each evaluation is a pure function of its inputs.
- The MongoDB store: reading, inserting and deleting purchases (`pages/2_Gewinn.py:11-15`, `81`; `pages/1_MeineBitcoin.py`). This is persistence. Purchases arrive as a sequence, and only the record shape and the form's non-negativity are kept.
- The HTTP and yfinance fetches (`pages/2_Gewinn.py:17-75`) are network calls. This covers the choice between the `Close` and `Adj Close` columns and the USD→CHF multiplication. Histories are provider parameters. A failed index fetch becomes an empty table (lines 45-48), which the model covers as an empty index history: line 154 then raises, and the model's comparison is `Failure(EmptySeries)`.
- The index fetcher's one-year default window (`pages/2_Gewinn.py:21-22`): the page always passes the earliest purchase date, so the page never reaches this branch.
- Weekly resampling and timestamp-to-date conversion of the BTC history (`pages/2_Gewinn.py:62-67`): these are pandas library semantics. Only the resulting series matters.
- Charting and number formatting (`pages/2_Gewinn.py:98-112`, `124-128`, `140-144`, `177-181`): these are display only.
- IEEE floating-point rounding: all amounts and prices are exact reals.
- Duplicate-date averaging is not modelled, because the code does not do it.
- Benchmark.BenchmarkPnL: a zero index price is a `ZeroPrice` error. The source would instead divide and continue with inf/NaN.
- PnL.YearOverYear: a zero first price is a `ZeroPrice` error. The source would instead show inf/NaN.
- Page.Evaluate: the BTC history fetch (lines 58-61) and the current-price fetch (lines 72-75) have no error handling. A failed fetch raises at line 90 or line 93 before any figure is shown. The model's providers always deliver, so this failure is not modelled. An empty BTC history that was delivered is modelled: it stops the page at line 137.
