/** Shared vocabulary of the valuation engine: optional values, the raw
    statement entries the financial-data provider returns, the per-metric
    series handed from the lookup layer to the growth estimator, and the
    text Python's str() gives for a year. */
module Records {

  datatype Option<+T> = None | Some(value: T)

  /** Provider amounts are converted to millions by dividing by this. */
  const Million: real := 1000000.0

  /** One entry of an income, cash-flow or key-metrics collection:
      `calendarYear` is the text str(entry.get('calendarYear')) produces,
      `fields` holds the entry's numeric fields. */
  datatype Entry = Entry(calendarYear: string, fields: map<string, real>)

  /** dict.get(key, 0): a field the entry lacks reads as 0. */
  function Get(fields: map<string, real>, key: string): real
  {
    if key in fields then fields[key] else 0.0
  }

  /** An insertion-ordered dictionary from metric name to its yearly
      values; index i of a series is year data_start_year + i. */
  type MetricSeries = seq<(string, seq<real>)>

  /** A dictionary never holds a key twice. */
  predicate DistinctKeys(ms: MetricSeries)
  {
    forall i, j :: 0 <= i < j < |ms| ==> ms[i].0 != ms[j].0
  }

  function KeysOf(ms: MetricSeries): set<string>
  {
    set i | 0 <= i < |ms| :: ms[i].0
  }

  predicate IsDigit(c: char)
  {
    '0' <= c <= '9'
  }

  function DigitChar(d: nat): (c: char)
    requires d < 10
    ensures IsDigit(c)
  {
    (48 + d) as char
  }

  /** Decimal text of a natural number, without leading zeros. */
  function NatText(n: nat): string
  {
    if n < 10 then [DigitChar(n)] else NatText(n / 10) + [DigitChar(n % 10)]
  }

  /** The text of a number is a non-empty run of digits, with two or more
      digits exactly from 10 on. */
  lemma {:induction false} NatTextDigits(n: nat)
    ensures |NatText(n)| >= 1 && (n >= 10 <==> |NatText(n)| >= 2)
    ensures forall i :: 0 <= i < |NatText(n)| ==> IsDigit(NatText(n)[i])
  {
    if n >= 10 {
      NatTextDigits(n / 10);
    }
  }

  /** str(year) for a Python int. */
  function YearText(year: int): string
  {
    if year < 0 then "-" + NatText(-year) else NatText(year)
  }

  /** str(year) starts with '-' exactly for negative years. */
  lemma YearTextSign(year: int)
    ensures |YearText(year)| >= 1 && (YearText(year)[0] == '-' <==> year < 0)
  {
    NatTextDigits(if year < 0 then -year else year);
  }

  lemma {:induction false} NatTextInjective(a: nat, b: nat)
    requires NatText(a) == NatText(b)
    ensures a == b
  {
    var s := NatText(a);
    NatTextDigits(a);
    NatTextDigits(b);
    if a < 10 || b < 10 {
      assert |s| == 1;
      assert a < 10 && b < 10;
      assert DigitChar(a) == s[0] == DigitChar(b);
      assert (DigitChar(a) as int) == 48 + a;
    } else {
      assert DigitChar(a % 10) == s[|s| - 1] == DigitChar(b % 10);
      assert (DigitChar(a % 10) as int) == 48 + a % 10;
      assert (DigitChar(b % 10) as int) == 48 + b % 10;
      assert NatText(a / 10) == s[..|s| - 1] == NatText(b / 10);
      NatTextInjective(a / 10, b / 10);
    }
  }

  /** Comparing str(year) texts, as the source does, is comparing years:
      an entry's calendar year text names at most one year. */
  lemma YearTextInjective(a: int, b: int)
    requires YearText(a) == YearText(b)
    ensures a == b
  {
    YearTextSign(a);
    YearTextSign(b);
    if a < 0 && b < 0 {
      assert NatText(-a) == YearText(a)[1..] == NatText(-b);
      NatTextInjective(-a, -b);
    } else if a >= 0 && b >= 0 {
      NatTextInjective(a, b);
    }
  }

  /** `s` spells `n` in decimal, read from its last digit. */
  predicate SpellsNat(s: string, n: nat)
  {
    && |s| > 0 && s[|s| - 1] == DigitChar(n % 10)
    && if n < 10 then |s| == 1 else SpellsNat(s[..|s| - 1], n / 10)
  }

  predicate SpellsYear(s: string, year: int)
  {
    if year < 0 then |s| > 0 && s[0] == '-' && SpellsNat(s[1..], -year) else SpellsNat(s, year)
  }

  lemma {:induction false} SpellsNatIsNatText(s: string, n: nat)
    ensures SpellsNat(s, n) <==> s == NatText(n)
  {
    if n < 10 {
      assert n % 10 == n;
    } else if |s| > 0 {
      var init := s[..|s| - 1];
      SpellsNatIsNatText(init, n / 10);
      assert s == init + [s[|s| - 1]];
      if s == NatText(n) {
        assert init == NatText(n / 10);
      }
    } else {
      NatTextDigits(n);
    }
  }

  /** Spelling a year digit by digit is comparing with str(year). */
  lemma SpellsYearIsYearText(s: string, year: int)
    ensures SpellsYear(s, year) <==> s == YearText(year)
  {
    if year < 0 {
      if |s| > 0 {
        SpellsNatIsNatText(s[1..], -year);
        assert s == [s[0]] + s[1..];
      }
    } else {
      SpellsNatIsNatText(s, year);
    }
  }

  /** The entry's calendar-year text is str(year). */
  predicate MatchesYear(e: Entry, year: int)
  {
    SpellsYear(e.calendarYear, year)
  }

  /** The first entry whose calendar-year text equals str(year), or None:
      next((d for d in data if str(d.get('calendarYear')) == str(year)), None). */
  function FindByYear(data: seq<Entry>, year: int): (r: Option<Entry>)
    ensures r.Some? ==> MatchesYear(r.value, year)
    ensures |data| == 0 ==> r.None?
  {
    if |data| == 0 then None
    else if MatchesYear(data[0], year) then Some(data[0])
    else FindByYear(data[1..], year)
  }

  /** The search finds nothing exactly when no entry is for the year, and
      what it finds is an entry of the collection for the year. */
  lemma {:induction false} FindByYearSpec(data: seq<Entry>, year: int)
    ensures FindByYear(data, year).None? <==> forall k :: 0 <= k < |data| ==> !MatchesYear(data[k], year)
    ensures FindByYear(data, year).Some? ==> FindByYear(data, year).value in data
                                              && MatchesYear(FindByYear(data, year).value, year)
  {
    if |data| > 0 && !MatchesYear(data[0], year) {
      FindByYearSpec(data[1..], year);
      assert forall k :: 1 <= k < |data| ==> data[k] == data[1..][k - 1];
    }
  }

  /** The search stops at the first entry for the year. */
  lemma {:induction false} FindByYearFirst(data: seq<Entry>, year: int, k: nat)
    requires k < |data| && MatchesYear(data[k], year)
    requires forall j :: 0 <= j < k ==> !MatchesYear(data[j], year)
    ensures FindByYear(data, year) == Some(data[k])
  {
    if k > 0 {
      assert data[1..][k - 1] == data[k];
      FindByYearFirst(data[1..], year, k - 1);
    }
  }
}
