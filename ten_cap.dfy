/** The owner-earnings / ten-cap calculator of ten_cap.py: reconstruct one
    year's owner earnings from raw statement fields (with fallback field
    names), divide by the share count, and capitalise at 10%. */
module TenCap {
  import opened Records

  /** Only this share of the capital expenditure counts as maintenance. */
  const MaintenanceCapexShare: real := 0.5
  /** The ten-cap price is EPS / 0.10. */
  const CapitalizationRate: real := 0.10

  const DepreciationFields: seq<string> :=
    ["depreciationAndAmortization", "depreciation",
     "depreciationAmortizationDepletion", "depreciationDepletionAndAmortization"]
  const SharesField: string := "weightedAverageShsOut"
  const DilutedSharesField: string := "weightedAverageShsOutDil"

  /** calculate_owner_earnings, all amounts in millions. */
  function OwnerEarnings(profitBeforeTax: real, depreciation: real,
                         workingCapitalChange: real, maintenanceCapex: real): (r: real)
    ensures maintenanceCapex >= 0.0 ==> r <= profitBeforeTax + depreciation + workingCapitalChange
    ensures maintenanceCapex > 0.0 ==> r < profitBeforeTax + depreciation + workingCapitalChange
  {
    profitBeforeTax + depreciation + workingCapitalChange - maintenanceCapex * MaintenanceCapexShare
  }

  /** Owner earnings are 0 when all four inputs are, move one for one with
      profit, depreciation and the working-capital change, and fall by half
      of each unit of capex: together this fixes the formula for all inputs. */
  lemma OwnerEarningsSensitivity(p: real, d: real, w: real, c: real, x: real)
    ensures OwnerEarnings(0.0, 0.0, 0.0, 0.0) == 0.0
    ensures OwnerEarnings(p + x, d, w, c) == OwnerEarnings(p, d, w, c) + x
    ensures OwnerEarnings(p, d + x, w, c) == OwnerEarnings(p, d, w, c) + x
    ensures OwnerEarnings(p, d, w + x, c) == OwnerEarnings(p, d, w, c) + x
    ensures OwnerEarnings(p, d, w, c + x) == OwnerEarnings(p, d, w, c) - x / 2.0
  {
  }

  /** calculate_working_capital_change: the total and its two components,
      in millions; missing fields count as 0. */
  function WorkingCapitalChange(cashflow: map<string, real>): (r: (real, map<string, real>))
    ensures r.1.Keys == {"accounts_receivable", "accounts_payable"}
    ensures r.1["accounts_receivable"] * Million == Get(cashflow, "accountsReceivables")
    ensures r.1["accounts_payable"] * Million == Get(cashflow, "accountsPayables")
    ensures r.0 == r.1["accounts_receivable"] + r.1["accounts_payable"]
  {
    var receivable := Get(cashflow, "accountsReceivables") / Million;
    var payable := Get(cashflow, "accountsPayables") / Million;
    (receivable + payable, map["accounts_receivable" := receivable, "accounts_payable" := payable])
  }

  /** Python's `a or b or c or d` over numbers: the first non-zero value,
      or 0 when all are zero. */
  function FirstNonZero(values: seq<real>): (r: real)
    ensures r == 0.0 <==> forall i :: 0 <= i < |values| ==> values[i] == 0.0
    ensures r != 0.0 ==> exists k :: 0 <= k < |values| && values[k] == r
                                     && forall j :: 0 <= j < k ==> values[j] == 0.0
  {
    if |values| == 0 then 0.0
    else if values[0] != 0.0 then values[0]
    else
      var r := FirstNonZero(values[1..]);
      assert forall k :: 1 <= k < |values| ==> values[k] == values[1..][k - 1];
      r
  }

  function FieldValues(fields: map<string, real>, keys: seq<string>): (vs: seq<real>)
    ensures |vs| == |keys| && forall i :: 0 <= i < |keys| ==> vs[i] == Get(fields, keys[i])
  {
    seq(|keys|, i requires 0 <= i < |keys| => Get(fields, keys[i]))
  }

  /** Depreciation in millions: the first non-zero of the four fallback
      fields, 0 if all are zero or missing. */
  function Depreciation(cashflow: map<string, real>): (r: real)
    ensures r == 0.0 <==> forall j :: 0 <= j < |DepreciationFields| ==> Get(cashflow, DepreciationFields[j]) == 0.0
  {
    FirstNonZero(FieldValues(cashflow, DepreciationFields)) / Million
  }

  /** Shares outstanding in millions: the first non-zero of key-metrics
      weighted, key-metrics diluted, income weighted, income diluted. */
  function SharesOutstanding(metrics: map<string, real>, income: map<string, real>): (r: real)
    ensures r == 0.0 <==> Get(metrics, SharesField) == 0.0 && Get(metrics, DilutedSharesField) == 0.0
                          && Get(income, SharesField) == 0.0 && Get(income, DilutedSharesField) == 0.0
  {
    var candidates := FieldValues(metrics, [SharesField, DilutedSharesField])
                      + FieldValues(income, [SharesField, DilutedSharesField]);
    assert candidates == [Get(metrics, SharesField), Get(metrics, DilutedSharesField),
                          Get(income, SharesField), Get(income, DilutedSharesField)];
    assert (forall i :: 0 <= i < |candidates| ==> candidates[i] == 0.0)
       <==> candidates[0] == 0.0 && candidates[1] == 0.0 && candidates[2] == 0.0 && candidates[3] == 0.0;
    FirstNonZero(candidates) / Million
  }

  /** |capitalExpenditure| in millions. */
  function MaintenanceCapex(cashflow: map<string, real>): (r: real)
    ensures r >= 0.0
    ensures r * Million == Get(cashflow, "capitalExpenditure") || r * Million == -Get(cashflow, "capitalExpenditure")
  {
    var capex := Get(cashflow, "capitalExpenditure");
    (if capex < 0.0 then -capex else capex) / Million
  }

  /** The records of the three collections for one year, or None when a
      collection is empty or lacks the year. */
  function YearRecords(income: seq<Entry>, cashflow: seq<Entry>, metrics: seq<Entry>, year: int)
    : (r: Option<(Entry, Entry, Entry)>)
    ensures r.None? <==> |income| == 0 || |cashflow| == 0 || |metrics| == 0
                         || FindByYear(income, year).None? || FindByYear(cashflow, year).None?
                         || FindByYear(metrics, year).None?
    ensures r.Some? ==> MatchesYear(r.value.0, year) && MatchesYear(r.value.1, year) && MatchesYear(r.value.2, year)
    ensures r.Some? ==> r.value == (FindByYear(income, year).value, FindByYear(cashflow, year).value,
                                    FindByYear(metrics, year).value)
  {
    FindByYearSpec(income, year);
    FindByYearSpec(cashflow, year);
    FindByYearSpec(metrics, year);
    if |income| == 0 || |cashflow| == 0 || |metrics| == 0 then None
    else
      var incomeYear := FindByYear(income, year);
      var cashflowYear := FindByYear(cashflow, year);
      var metricsYear := FindByYear(metrics, year);
      if incomeYear.None? || cashflowYear.None? || metricsYear.None? then None
      else Some((incomeYear.value, cashflowYear.value, metricsYear.value))
  }

  /** The per-year figures, in millions, before the share guard. */
  datatype TenCapFigures = TenCapFigures(
    profitBeforeTax: real, depreciation: real, workingCapitalChange: real,
    maintenanceCapex: real, sharesOutstanding: real)

  function Figures(income: Entry, cashflow: Entry, metrics: Entry): (f: TenCapFigures)
    ensures f.profitBeforeTax * Million == Get(income.fields, "incomeBeforeTax")
    ensures f.depreciation == Depreciation(cashflow.fields)
    ensures f.workingCapitalChange == WorkingCapitalChange(cashflow.fields).0
    ensures f.maintenanceCapex == MaintenanceCapex(cashflow.fields)
    ensures f.sharesOutstanding == SharesOutstanding(metrics.fields, income.fields)
  {
    TenCapFigures(
      Get(income.fields, "incomeBeforeTax") / Million,
      Depreciation(cashflow.fields),
      WorkingCapitalChange(cashflow.fields).0,
      MaintenanceCapex(cashflow.fields),
      SharesOutstanding(metrics.fields, income.fields))
  }

  function FiguresOwnerEarnings(f: TenCapFigures): real
  {
    OwnerEarnings(f.profitBeforeTax, f.depreciation, f.workingCapitalChange, f.maintenanceCapex)
  }

  /** calculate_ten_cap_price over already-fetched collections: None when a
      collection is empty, a year record is missing or the share count is
      not positive; otherwise ten times owner earnings per share. */
  function CalculateTenCapPrice(income: seq<Entry>, cashflow: seq<Entry>, metrics: seq<Entry>, year: int)
    : (r: Option<real>)
    ensures r.None? <==> YearRecords(income, cashflow, metrics, year).None?
                         || (var (i, c, m) := YearRecords(income, cashflow, metrics, year).value;
                             Figures(i, c, m).sharesOutstanding <= 0.0)
    ensures r.Some? ==> var (i, c, m) := YearRecords(income, cashflow, metrics, year).value;
                        var f := Figures(i, c, m);
                        f.sharesOutstanding > 0.0 && r.value * f.sharesOutstanding == 10.0 * FiguresOwnerEarnings(f)
  {
    match YearRecords(income, cashflow, metrics, year)
    case None => None
    case Some((i, c, m)) =>
      var f := Figures(i, c, m);
      if f.sharesOutstanding <= 0.0 then None
      else
        var ownerEarnings := FiguresOwnerEarnings(f);
        var eps := if f.sharesOutstanding > 0.0 then ownerEarnings / f.sharesOutstanding else 0.0;
        Some(eps / CapitalizationRate)
  }

  /** get_ten_cap_data: passes the ten-cap price (or None) through. */
  function GetTenCapData(income: seq<Entry>, cashflow: seq<Entry>, metrics: seq<Entry>, year: int)
    : (r: Option<real>)
    ensures r == CalculateTenCapPrice(income, cashflow, metrics, year)
  {
    var tenCapPrice := CalculateTenCapPrice(income, cashflow, metrics, year);
    if tenCapPrice.None? then None else tenCapPrice
  }

  /** The `or` chain stops at the first non-zero value. */
  lemma {:induction false} FirstNonZeroAt(values: seq<real>, k: nat)
    requires k < |values| && values[k] != 0.0
    requires forall j :: 0 <= j < k ==> values[j] == 0.0
    ensures FirstNonZero(values) == values[k]
  {
    if k > 0 {
      assert values[1..][k - 1] == values[k];
      FirstNonZeroAt(values[1..], k - 1);
    }
  }

  /** Depreciation is the first non-zero fallback field in millions, and 0
      exactly when all four fields are zero or missing. */
  lemma DepreciationFallback(cashflow: map<string, real>, k: nat)
    requires k < |DepreciationFields| && Get(cashflow, DepreciationFields[k]) != 0.0
    requires forall j :: 0 <= j < k ==> Get(cashflow, DepreciationFields[j]) == 0.0
    ensures Depreciation(cashflow) * Million == Get(cashflow, DepreciationFields[k])
  {
    FirstNonZeroAt(FieldValues(cashflow, DepreciationFields), k);
  }

  /** The share count prefers the key-metrics record over the income
      record, and the weighted count over the diluted one. */
  lemma SharesFallback(metrics: map<string, real>, income: map<string, real>)
    ensures Get(metrics, SharesField) != 0.0 ==>
              SharesOutstanding(metrics, income) * Million == Get(metrics, SharesField)
    ensures Get(metrics, SharesField) == 0.0 && Get(metrics, DilutedSharesField) != 0.0 ==>
              SharesOutstanding(metrics, income) * Million == Get(metrics, DilutedSharesField)
    ensures Get(metrics, SharesField) == 0.0 && Get(metrics, DilutedSharesField) == 0.0
            && Get(income, SharesField) != 0.0 ==>
              SharesOutstanding(metrics, income) * Million == Get(income, SharesField)
    ensures Get(metrics, SharesField) == 0.0 && Get(metrics, DilutedSharesField) == 0.0
            && Get(income, SharesField) == 0.0 ==>
              SharesOutstanding(metrics, income) * Million == Get(income, DilutedSharesField)
  {
    var values := [Get(metrics, SharesField), Get(metrics, DilutedSharesField),
                   Get(income, SharesField), Get(income, DilutedSharesField)];
    assert values == FieldValues(metrics, [SharesField, DilutedSharesField])
                     + FieldValues(income, [SharesField, DilutedSharesField]);
    if values[0] != 0.0 {
      FirstNonZeroAt(values, 0);
    } else if values[1] != 0.0 {
      FirstNonZeroAt(values, 1);
    } else if values[2] != 0.0 {
      FirstNonZeroAt(values, 2);
    } else if values[3] != 0.0 {
      FirstNonZeroAt(values, 3);
    }
  }

  /** The cash-flow entry with the sign of capitalExpenditure flipped. */
  function FlipCapex(e: Entry): Entry
  {
    e.(fields := e.fields["capitalExpenditure" := -Get(e.fields, "capitalExpenditure")])
  }

  function FlipAllCapex(es: seq<Entry>): (r: seq<Entry>)
    ensures |r| == |es| && forall k :: 0 <= k < |es| ==> r[k] == FlipCapex(es[k])
  {
    seq(|es|, k requires 0 <= k < |es| => FlipCapex(es[k]))
  }

  lemma {:induction false} FindByYearFlipped(es: seq<Entry>, year: int)
    ensures FindByYear(FlipAllCapex(es), year)
         == (match FindByYear(es, year) case None => None case Some(e) => Some(FlipCapex(e)))
  {
    if |es| > 0 && !MatchesYear(es[0], year) {
      assert FlipAllCapex(es)[1..] == FlipAllCapex(es[1..]);
      FindByYearFlipped(es[1..], year);
    }
  }

  lemma FiguresFlipped(i: Entry, c: Entry, m: Entry)
    ensures Figures(i, FlipCapex(c), m) == Figures(i, c, m)
  {
    var fields := FlipCapex(c).fields;
    forall j | 0 <= j < |DepreciationFields|
      ensures Get(fields, DepreciationFields[j]) == Get(c.fields, DepreciationFields[j])
    {
      assert DepreciationFields[j] != "capitalExpenditure";
    }
    assert FieldValues(fields, DepreciationFields) == FieldValues(c.fields, DepreciationFields);
    assert Get(fields, "accountsReceivables") == Get(c.fields, "accountsReceivables");
    assert Get(fields, "accountsPayables") == Get(c.fields, "accountsPayables");
    assert MaintenanceCapex(fields) == MaintenanceCapex(c.fields);
  }

  /** Maintenance capex is |capitalExpenditure|: flipping the sign of every
      cash-flow entry's capitalExpenditure leaves the ten-cap price unchanged. */
  lemma CapexSignIrrelevant(income: seq<Entry>, cashflow: seq<Entry>, metrics: seq<Entry>, year: int)
    ensures CalculateTenCapPrice(income, FlipAllCapex(cashflow), metrics, year)
         == CalculateTenCapPrice(income, cashflow, metrics, year)
  {
    FindByYearFlipped(cashflow, year);
    var records := YearRecords(income, cashflow, metrics, year);
    if records.Some? {
      var (i, c, m) := records.value;
      FiguresFlipped(i, c, m);
      assert YearRecords(income, FlipAllCapex(cashflow), metrics, year) == Some((i, FlipCapex(c), m));
    }
  }

  /** 100M profit before tax, 20M depreciation, -5M working capital change,
      10M capital expenditure and 50M shares: owner earnings 110M, EPS 2.2,
      ten-cap price 22. */
  lemma TenCapExample(year: int)
    ensures var y := YearText(year);
            CalculateTenCapPrice(
              [Entry(y, map["incomeBeforeTax" := 100000000.0])],
              [Entry(y, map["depreciationAndAmortization" := 20000000.0,
                            "accountsReceivables" := -5000000.0,
                            "capitalExpenditure" := -10000000.0])],
              [Entry(y, map["weightedAverageShsOut" := 50000000.0])],
              year) == Some(22.0)
  {
    var y := YearText(year);
    var i := Entry(y, map["incomeBeforeTax" := 100000000.0]);
    var c := Entry(y, map["depreciationAndAmortization" := 20000000.0,
                          "accountsReceivables" := -5000000.0,
                          "capitalExpenditure" := -10000000.0]);
    var m := Entry(y, map["weightedAverageShsOut" := 50000000.0]);
    SpellsYearIsYearText(y, year);
    assert FindByYear([i], year) == Some(i);
    assert FindByYear([c], year) == Some(c);
    assert FindByYear([m], year) == Some(m);
    FirstNonZeroAt(FieldValues(c.fields, DepreciationFields), 0);
    SharesFallback(m.fields, i.fields);
    assert "accountsPayables" !in c.fields;
    var f := Figures(i, c, m);
    assert f == TenCapFigures(100.0, 20.0, -5.0, 10.0, 50.0);
    assert FiguresOwnerEarnings(f) == 110.0;
  }
}
