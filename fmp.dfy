/** The lookup logic of fmp_api.py that sits beside the HTTP calls: the
    bounded backward search for a closing price, and the assembly of
    year-indexed series from the three statement collections. The fetches
    themselves are inputs: the collections as sequences of entries, the
    price history as a function from day number to an optional close. */
module Fmp {
  import opened Records

  /** At most this many days are tried: base_date, base_date - 1, ... */
  const SearchDays: nat := 14

  datatype PriceLookup = Found(price: real, day: int) | NotFound

  /** `if price:` — a missing price and a price of 0 both mean "no price". */
  predicate IsHit(p: Option<real>)
  {
    p.Some? && p.value != 0.0
  }

  /** get_valid_price: the most recent day in [baseDay - 13, baseDay] with a
      non-zero close, found by trying days in decreasing order; `queried`
      lists the days whose price was requested. */
  method GetValidPrice(priceOn: int -> Option<real>, baseDay: int)
    returns (r: PriceLookup, ghost queried: seq<int>)
    ensures 1 <= |queried| <= SearchDays
    ensures forall i :: 0 <= i < |queried| ==> queried[i] == baseDay - i
    ensures r.Found? ==> && baseDay - (SearchDays - 1) <= r.day <= baseDay
                         && priceOn(r.day) == Some(r.price) && r.price != 0.0
                         && queried[|queried| - 1] == r.day
                         && forall d :: r.day < d <= baseDay ==> !IsHit(priceOn(d))
    ensures r.NotFound? <==> forall d :: baseDay - (SearchDays - 1) <= d <= baseDay ==> !IsHit(priceOn(d))
    ensures r.NotFound? ==> |queried| == SearchDays
  {
    queried := [];
    var i := 0;
    while i < SearchDays
      invariant 0 <= i <= SearchDays
      invariant |queried| == i && forall k :: 0 <= k < i ==> queried[k] == baseDay - k
      invariant forall d :: baseDay - i < d <= baseDay ==> !IsHit(priceOn(d))
    {
      var day := baseDay - i;
      var price := priceOn(day);
      queried := queried + [day];
      if price.Some? && price.value != 0.0 {
        return Found(price.value, day), queried;
      }
      i := i + 1;
    }
    return NotFound, queried;
  }

  /** What get_by_year returns, as far as its callers read it: the fields of
      the first entry for `year`, or the empty dictionary. */
  function FieldsForYear(data: seq<Entry>, year: int): map<string, real>
  {
    match FindByYear(data, year)
    case Some(e) => e.fields
    case None => map[]
  }

  /** The fields of the first entry for the year, or nothing when no entry
      carries it. */
  lemma FieldsForYearIsFirstMatch(data: seq<Entry>, year: int)
    ensures (forall k :: 0 <= k < |data| ==> !MatchesYear(data[k], year)) ==> FieldsForYear(data, year) == map[]
    ensures forall k :: (0 <= k < |data| && MatchesYear(data[k], year)
                         && forall j :: 0 <= j < k ==> !MatchesYear(data[j], year))
                        ==> FieldsForYear(data, year) == data[k].fields
  {
    FindByYearSpec(data, year);
    forall k | 0 <= k < |data| && MatchesYear(data[k], year)
                && forall j :: 0 <= j < k ==> !MatchesYear(data[j], year)
      ensures FieldsForYear(data, year) == data[k].fields
    {
      FindByYearFirst(data, year, k);
    }
  }

  /** get_by_year: a linear search that returns the first entry whose
      calendar-year text is str(year), or {}. */
  method GetByYear(data: seq<Entry>, year: int) returns (fields: map<string, real>)
    ensures fields == FieldsForYear(data, year)
  {
    var n := 0;
    while n < |data|
      invariant 0 <= n <= |data|
      invariant forall j :: 0 <= j < n ==> !MatchesYear(data[j], year)
    {
      SpellsYearIsYearText(data[n].calendarYear, year);
      if data[n].calendarYear == YearText(year) {
        FindByYearFirst(data, year, n);
        return data[n].fields;
      }
      n := n + 1;
    }
    FindByYearSpec(data, year);
    return map[];
  }

  /** One row of the yearly table, before rounding; `roic` is None where the
      source prints a dash. */
  datatype YearRow = YearRow(year: int, revenueMillions: real, freeCashFlowMillions: real,
                             eps: real, roic: Option<real>)

  /** The row get_year_data_by_range builds for a year. */
  function RowFor(income: seq<Entry>, cashflow: seq<Entry>, metrics: seq<Entry>, year: int): YearRow
  {
    var i := FieldsForYear(income, year);
    var c := FieldsForYear(cashflow, year);
    var m := FieldsForYear(metrics, year);
    YearRow(year, Get(i, "revenue") / Million, Get(c, "freeCashFlow") / Million, Get(i, "eps"),
            if "roic" in m then Some(m["roic"]) else None)
  }

  /** The rows for years start, start + 1, ..., in the order the loop
      appends them. */
  function Rows(income: seq<Entry>, cashflow: seq<Entry>, metrics: seq<Entry>, startYear: int, count: nat)
    : (rows: seq<YearRow>)
    ensures |rows| == count
  {
    if count == 0 then []
    else Rows(income, cashflow, metrics, startYear, count - 1) + [RowFor(income, cashflow, metrics, startYear + count - 1)]
  }

  lemma {:induction false} RowsAt(income: seq<Entry>, cashflow: seq<Entry>, metrics: seq<Entry>,
                                  startYear: int, count: nat, i: nat)
    requires i < count
    ensures Rows(income, cashflow, metrics, startYear, count)[i] == RowFor(income, cashflow, metrics, startYear + i)
  {
    var prefix := Rows(income, cashflow, metrics, startYear, count - 1);
    assert Rows(income, cashflow, metrics, startYear, count) == prefix + [RowFor(income, cashflow, metrics, startYear + count - 1)];
    if i < count - 1 {
      RowsAt(income, cashflow, metrics, startYear, count - 1, i);
    } else {
      assert startYear + i == startYear + count - 1;
    }
  }

  /** Number of years range(start_year, start_year + years + 1) visits. */
  function RangeLength(years: int): nat
  {
    if years + 1 > 0 then years + 1 else 0
  }

  /** `key` of the entry for each year start, start + 1, ..., built the way
      the loop appends to its lists. */
  function SeriesFor(data: seq<Entry>, key: string, startYear: int, count: nat): (s: seq<real>)
    ensures |s| == count
  {
    if count == 0 then []
    else SeriesFor(data, key, startYear, count - 1) + [Get(FieldsForYear(data, startYear + count - 1), key)]
  }

  /** Index i of a series holds the field of year start_year + i, and 0
      where the year or the field is missing. */
  lemma {:induction false} SeriesForAt(data: seq<Entry>, key: string, startYear: int, count: nat, i: nat)
    requires i < count
    ensures SeriesFor(data, key, startYear, count)[i] == Get(FieldsForYear(data, startYear + i), key)
  {
    var prefix := SeriesFor(data, key, startYear, count - 1);
    assert SeriesFor(data, key, startYear, count) == prefix + [Get(FieldsForYear(data, startYear + count - 1), key)];
    if i < count - 1 {
      SeriesForAt(data, key, startYear, count - 1, i);
    } else {
      assert startYear + i == startYear + count - 1;
    }
  }

  /** The per-share series handed to the growth estimator, in the source's
      key order. */
  function MosMetrics(income: seq<Entry>, metrics: seq<Entry>, startYear: int, count: nat): MetricSeries
  {
    [("book", SeriesFor(metrics, "bookValuePerShare", startYear, count)),
     ("eps", SeriesFor(income, "eps", startYear, count)),
     ("revenue", SeriesFor(metrics, "revenuePerShare", startYear, count)),
     ("cashflow", SeriesFor(metrics, "operatingCashFlowPerShare", startYear, count))]
  }

  /** The four series have distinct names and one value per year. */
  lemma MosMetricsShape(income: seq<Entry>, metrics: seq<Entry>, startYear: int, count: nat)
    ensures var ms := MosMetrics(income, metrics, startYear, count);
            && DistinctKeys(ms) && |ms| == 4
            && (forall k :: 0 <= k < |ms| ==> |ms[k].1| == count)
  {
  }

  /** get_year_data_by_range over already-fetched collections: one row and
      one value per metric for each year start_year .. start_year + years. */
  method GetYearDataByRange(income: seq<Entry>, cashflow: seq<Entry>, metrics: seq<Entry>,
                            startYear: int, years: int := 4)
    returns (results: seq<YearRow>, mosMetrics: MetricSeries)
    ensures |results| == RangeLength(years)
    ensures forall i :: 0 <= i < |results| ==>
              results[i] == RowFor(income, cashflow, metrics, startYear + i) && results[i].year == startYear + i
    ensures mosMetrics == MosMetrics(income, metrics, startYear, RangeLength(years))
  {
    results := [];
    var bookList, epsList, revenueList, cashflowList := [], [], [], [];
    var year := startYear;
    while year < startYear + years + 1
      invariant startYear <= year && year - startYear <= RangeLength(years)
      invariant results == Rows(income, cashflow, metrics, startYear, year - startYear)
      invariant bookList == SeriesFor(metrics, "bookValuePerShare", startYear, year - startYear)
      invariant epsList == SeriesFor(income, "eps", startYear, year - startYear)
      invariant revenueList == SeriesFor(metrics, "revenuePerShare", startYear, year - startYear)
      invariant cashflowList == SeriesFor(metrics, "operatingCashFlowPerShare", startYear, year - startYear)
    {
      var i := GetByYear(income, year);
      var c := GetByYear(cashflow, year);
      var m := GetByYear(metrics, year);

      var revenue := Get(i, "revenue") / Million;
      var fcf := Get(c, "freeCashFlow") / Million;
      var eps := Get(i, "eps");
      var roic := if "roic" in m then Some(m["roic"]) else None;
      results := results + [YearRow(year, revenue, fcf, eps, roic)];

      bookList := bookList + [Get(m, "bookValuePerShare")];
      epsList := epsList + [Get(i, "eps")];
      revenueList := revenueList + [Get(m, "revenuePerShare")];
      cashflowList := cashflowList + [Get(m, "operatingCashFlowPerShare")];

      year := year + 1;
    }
    assert year - startYear == RangeLength(years);
    mosMetrics := [("book", bookList), ("eps", epsList), ("revenue", revenueList), ("cashflow", cashflowList)];
    forall i | 0 <= i < |results|
      ensures results[i] == RowFor(income, cashflow, metrics, startYear + i)
    {
      RowsAt(income, cashflow, metrics, startYear, |results|, i);
    }
  }

  /** A year no entry of the collection carries reads as 0 in its series,
      at its own position. */
  lemma MissingYearReadsZero(data: seq<Entry>, key: string, startYear: int, count: nat, i: nat)
    requires i < count && forall k :: 0 <= k < |data| ==> !MatchesYear(data[k], startYear + i)
    ensures SeriesFor(data, key, startYear, count)[i] == 0.0
  {
    SeriesForAt(data, key, startYear, count, i);
    FindByYearSpec(data, startYear + i);
  }
}
