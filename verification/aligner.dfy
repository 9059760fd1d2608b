/** The as-of lookup that joins a purchase date to a price series: the price
    of the last row dated on or before the purchase. */
module Aligner {
  import opened Wrappers
  import opened Portfolio

  /** The rows dated on or before `d`, in their original order (a boolean
      row selection on the series). */
  function RowsUpTo(s: seq<PricePoint>, d: int): (r: seq<PricePoint>)
    ensures |r| <= |s|
    ensures forall k :: 0 <= k < |r| ==> r[k].date <= d
  {
    if |s| == 0 then []
    else if s[0].date <= d then [s[0]] + RowsUpTo(s[1..], d)
    else RowsUpTo(s[1..], d)
  }

  /** The price of the last selected row; `None` when the selection is empty,
      which is where the source's positional `[-1]` access raises. */
  function AsOfPrice(s: seq<PricePoint>, d: int): Option<real>
  {
    var rows := RowsUpTo(s, d);
    if |rows| == 0 then None else Some(rows[|rows| - 1].price)
  }

  /** Reference definition of the as-of row: the greatest index whose row is
      dated on or before `d`, found by scanning from the end. */
  function LatestIndexUpTo(s: seq<PricePoint>, d: int): (r: Option<nat>)
    ensures r.Some? ==> r.value < |s| && s[r.value].date <= d
    ensures r.Some? ==> forall j :: r.value < j < |s| ==> s[j].date > d
    ensures r.None? <==> forall j :: 0 <= j < |s| ==> s[j].date > d
  {
    if |s| == 0 then None
    else if s[|s| - 1].date <= d then Some(|s| - 1)
    else LatestIndexUpTo(s[..|s| - 1], d)
  }

  /** The row selection and the backwards scan agree: the source's lookup
      returns the price at the greatest qualifying index. */
  lemma {:induction false} AsOfPriceIsLatestRow(s: seq<PricePoint>, d: int)
    ensures LatestIndexUpTo(s, d).None? ==> AsOfPrice(s, d) == None
    ensures LatestIndexUpTo(s, d).Some? ==> AsOfPrice(s, d) == Some(s[LatestIndexUpTo(s, d).value].price)
  {
    if |s| > 0 {
      var init := s[..|s| - 1];
      var last := s[|s| - 1];
      RowsUpToAppend(init, last, d);
      assert s == init + [last];
      AsOfPriceIsLatestRow(init, d);
      if last.date > d {
        assert forall j :: 0 <= j < |init| ==> init[j] == s[j];
      }
    }
  }

  /** Selecting from a series extended by one row extends the selection by
      that row exactly when it qualifies. */
  lemma {:induction false} RowsUpToAppend(s: seq<PricePoint>, x: PricePoint, d: int)
    ensures RowsUpTo(s + [x], d) == RowsUpTo(s, d) + (if x.date <= d then [x] else [])
  {
    if |s| == 0 {
      assert s + [x] == [x];
      assert RowsUpTo([x][1..], d) == [];
    } else {
      assert (s + [x])[1..] == s[1..] + [x];
      RowsUpToAppend(s[1..], x, d);
    }
  }

  /** The lookup fails exactly when every row is dated after the query. */
  lemma NoPriceIffAllLater(s: seq<PricePoint>, d: int)
    ensures AsOfPrice(s, d).None? <==> forall j :: 0 <= j < |s| ==> s[j].date > d
  {
    AsOfPriceIsLatestRow(s, d);
  }

  /** On a date-sorted series the as-of row carries the greatest date not
      after the query, and its price is the one returned. */
  lemma SortedAsOfIsMostRecent(s: seq<PricePoint>, d: int)
    requires SortedByDate(s)
    requires AsOfPrice(s, d).Some?
    ensures exists i :: 0 <= i < |s| && s[i].date <= d && s[i].price == AsOfPrice(s, d).value
                      && forall j :: 0 <= j < |s| && s[j].date <= d ==> s[j].date <= s[i].date
  {
    AsOfPriceIsLatestRow(s, d);
    var i := LatestIndexUpTo(s, d).value;
    assert forall j :: 0 <= j < |s| && s[j].date <= d ==> j <= i;
  }

  /** A row dated on or before the query guarantees a price, and that price
      is one of the series' prices. */
  lemma AsOfPriceFromRow(s: seq<PricePoint>, d: int, k: nat)
    requires k < |s| && s[k].date <= d
    ensures AsOfPrice(s, d).Some?
    ensures exists i :: 0 <= i < |s| && s[i].price == AsOfPrice(s, d).value
  {
    AsOfPriceIsLatestRow(s, d);
  }

  /** Worked example: weekly rows on days 1, 8 and 15 at 100, 110 and 105. */
  lemma WeeklySeriesExample()
    ensures AsOfPrice([PricePoint(1, 100.0), PricePoint(8, 110.0), PricePoint(15, 105.0)], 10) == Some(110.0)
    ensures AsOfPrice([PricePoint(1, 100.0), PricePoint(8, 110.0), PricePoint(15, 105.0)], 0) == None
  {
    var s := [PricePoint(1, 100.0), PricePoint(8, 110.0), PricePoint(15, 105.0)];
    assert RowsUpTo(s[2..], 10) == [];
    assert RowsUpTo(s[1..], 10) == [s[1]];
    assert RowsUpTo(s, 10) == [s[0], s[1]];
    assert RowsUpTo(s[2..], 0) == [];
    assert RowsUpTo(s[1..], 0) == [];
  }
}
