// get_url: the Yahoo Finance historical-data URL for one ticker and one of the
// five quarterly periods, January 2020 to March 2021.
module YahooUrl {
  import opened Outcomes

  const UrlPrefix: string := "https://finance.yahoo.com/quote/%5E"
  const HistoryPath: string := "/history?"
  const UrlSuffix: string := "&interval=1d&filter=history&frequency=1d&includeAdjustedClose=true"

  /**
   * The period table of get_url: for each key 1..5 the two UNIX timestamps,
   * as the digits written in its query string `period1=<start>&period2=<end>`.
   */
  const Periods: map<int, (string, string)> := map[
    1 := ("1577836800", "1585699200"),  // first quarter 2020
    2 := ("1585699200", "1593561600"),  // second quarter 2020
    3 := ("1593561600", "1601510400"),  // third quarter 2020
    4 := ("1601510400", "1609459200"),  // fourth quarter 2020
    5 := ("1609459200", "1617235200")   // first quarter 2021
  ]

  /** The query string the period table holds under key `period`. */
  function PeriodQuery(period: int): string
    requires period in Periods
  {
    "period1=" + Periods[period].0 + "&period2=" + Periods[period].1
  }

  /**
   * The URL of the daily history of `ticker` (given without the leading `^`)
   * over the given period; a period outside the table raises KeyError.
   */
  function GetUrl(ticker: string, period: int): (r: Result<string>)
    ensures r.Ok? <==> 1 <= period <= 5
    ensures r.Err? ==> r.error == UnknownPeriod(period)
    ensures r.Ok? ==> |r.value| == |UrlPrefix| + |ticker| + TailLength
  {
    if period in Periods then
      PeriodQueryLength(period);
      Ok(UrlPrefix + ticker + HistoryTail(period))
    else
      Err(UnknownPeriod(period))
  }

  /** Everything a history URL holds after the ticker; its length is the same for all five periods. */
  function HistoryTail(period: int): string
    requires period in Periods
  {
    HistoryPath + PeriodQuery(period) + UrlSuffix
  }

  const TailLength: nat := |HistoryPath| + 37 + |UrlSuffix|

  lemma PeriodQueryLength(period: int)
    requires period in Periods
    ensures |HistoryTail(period)| == TailLength
  {
  }

  /** Distinct periods have distinct tails. */
  lemma HistoryTailInjective(p: int, q: int)
    requires p in Periods && q in Periods && HistoryTail(p) == HistoryTail(q)
    ensures p == q
  {
    // the five start timestamps differ in their fourth digit: 7, 5, 3, 1 and 9
    assert HistoryTail(p)[|HistoryPath| + 11] == Periods[p].0[3];
    assert HistoryTail(q)[|HistoryPath| + 11] == Periods[q].0[3];
  }

  /** The period whose URL ends with `tail`, if any. */
  function PeriodOfTail(tail: string): (r: Option<int>)
    ensures r.Some? ==> r.value in Periods && HistoryTail(r.value) == tail
    ensures r.None? ==> forall p :: p in Periods ==> HistoryTail(p) != tail
  {
    if tail == HistoryTail(1) then Some(1)
    else if tail == HistoryTail(2) then Some(2)
    else if tail == HistoryTail(3) then Some(3)
    else if tail == HistoryTail(4) then Some(4)
    else if tail == HistoryTail(5) then Some(5)
    else None
  }

  /** Reads the ticker and the period back out of a URL of the shape GetUrl builds. */
  function ParseHistoryUrl(url: string): Option<(string, int)>
  {
    if |url| < |UrlPrefix| + TailLength || url[..|UrlPrefix|] != UrlPrefix then None
    else match PeriodOfTail(url[|url| - TailLength..])
      case None => None
      case Some(p) => Some((url[|UrlPrefix|..|url| - TailLength], p))
  }

  /** The URL of every valid period determines its ticker and its period, whatever the ticker. */
  lemma UrlRoundTrip(ticker: string, period: int)
    requires 1 <= period <= 5
    ensures ParseHistoryUrl(GetUrl(ticker, period).value) == Some((ticker, period))
  {
    var url := GetUrl(ticker, period).value;
    PeriodQueryLength(period);
    assert url[..|UrlPrefix|] == UrlPrefix;
    assert url[|url| - TailLength..] == HistoryTail(period);
    assert url[|UrlPrefix|..|url| - TailLength] == ticker;
    var found := PeriodOfTail(HistoryTail(period));
    HistoryTailInjective(found.value, period);
  }

  /** ParseHistoryUrl accepts nothing but the URLs GetUrl builds. */
  lemma ParseHistoryUrlSound(url: string, ticker: string, period: int)
    requires ParseHistoryUrl(url) == Some((ticker, period))
    ensures GetUrl(ticker, period) == Ok(url)
  {
    PeriodQueryLength(period);
    assert url == url[..|UrlPrefix|] + url[|UrlPrefix|..|url| - TailLength] + url[|url| - TailLength..];
  }

  /** Two requests never share a URL: distinct (ticker, period) pairs give distinct URLs. */
  lemma GetUrlInjective(t1: string, p1: int, t2: string, p2: int)
    requires GetUrl(t1, p1).Ok? && GetUrl(t1, p1) == GetUrl(t2, p2)
    ensures t1 == t2 && p1 == p2
  {
    UrlRoundTrip(t1, p1);
    UrlRoundTrip(t2, p2);
  }

  // The timestamps of the period table as numbers.

  /** The value of the decimal numeral formed by the first `count` characters of s. */
  function DigitsValue(s: string, count: nat): nat
    requires count <= |s|
  {
    if count == 0 then 0 else 10 * DigitsValue(s, count - 1) + (s[count - 1] as int - '0' as int) % 10
  }

  /** The (period1, period2) timestamps of a period, as numbers. */
  function PeriodRange(period: int): (nat, nat)
    requires period in Periods
  {
    (DigitsValue(Periods[period].0, 10), DigitsValue(Periods[period].1, 10))
  }

  lemma ValueOf1577836800()
    ensures DigitsValue("1577836800", 10) == 1577836800
  {
    assert DigitsValue("1577836800", 2) == 15;
    assert DigitsValue("1577836800", 4) == 1577;
    assert DigitsValue("1577836800", 6) == 157783;
    assert DigitsValue("1577836800", 8) == 15778368;
  }

  lemma ValueOf1585699200()
    ensures DigitsValue("1585699200", 10) == 1585699200
  {
    assert DigitsValue("1585699200", 2) == 15;
    assert DigitsValue("1585699200", 4) == 1585;
    assert DigitsValue("1585699200", 6) == 158569;
    assert DigitsValue("1585699200", 8) == 15856992;
  }

  lemma ValueOf1593561600()
    ensures DigitsValue("1593561600", 10) == 1593561600
  {
    assert DigitsValue("1593561600", 2) == 15;
    assert DigitsValue("1593561600", 4) == 1593;
    assert DigitsValue("1593561600", 6) == 159356;
    assert DigitsValue("1593561600", 8) == 15935616;
  }

  lemma ValueOf1601510400()
    ensures DigitsValue("1601510400", 10) == 1601510400
  {
    assert DigitsValue("1601510400", 2) == 16;
    assert DigitsValue("1601510400", 4) == 1601;
    assert DigitsValue("1601510400", 6) == 160151;
    assert DigitsValue("1601510400", 8) == 16015104;
  }

  lemma ValueOf1609459200()
    ensures DigitsValue("1609459200", 10) == 1609459200
  {
    assert DigitsValue("1609459200", 2) == 16;
    assert DigitsValue("1609459200", 4) == 1609;
    assert DigitsValue("1609459200", 6) == 160945;
    assert DigitsValue("1609459200", 8) == 16094592;
  }

  lemma ValueOf1617235200()
    ensures DigitsValue("1617235200", 10) == 1617235200
  {
    assert DigitsValue("1617235200", 2) == 16;
    assert DigitsValue("1617235200", 4) == 1617;
    assert DigitsValue("1617235200", 6) == 161723;
    assert DigitsValue("1617235200", 8) == 16172352;
  }

  /** The timestamps of each period, as numbers. */
  lemma PeriodRangeValues(period: int)
    requires period in Periods
    ensures period == 1 ==> PeriodRange(period) == (1577836800, 1585699200)
    ensures period == 2 ==> PeriodRange(period) == (1585699200, 1593561600)
    ensures period == 3 ==> PeriodRange(period) == (1593561600, 1601510400)
    ensures period == 4 ==> PeriodRange(period) == (1601510400, 1609459200)
    ensures period == 5 ==> PeriodRange(period) == (1609459200, 1617235200)
  {
    if period == 1 {
      assert Periods[1] == ("1577836800", "1585699200");
      ValueOf1577836800();
      ValueOf1585699200();
    } else if period == 2 {
      assert Periods[2] == ("1585699200", "1593561600");
      ValueOf1585699200();
      ValueOf1593561600();
    } else if period == 3 {
      assert Periods[3] == ("1593561600", "1601510400");
      ValueOf1593561600();
      ValueOf1601510400();
    } else if period == 4 {
      assert Periods[4] == ("1601510400", "1609459200");
      ValueOf1601510400();
      ValueOf1609459200();
    } else if period == 5 {
      assert Periods[5] == ("1609459200", "1617235200");
      ValueOf1609459200();
      ValueOf1617235200();
    }
  }

  /** Every range is non-empty, and each one ends exactly where the next one starts: no gap, no overlap. */
  lemma PeriodRangesContiguous(period: int)
    requires period in Periods
    ensures PeriodRange(period).0 < PeriodRange(period).1
    ensures period + 1 in Periods ==> PeriodRange(period).1 == PeriodRange(period + 1).0
  {
    PeriodRangeValues(period);
    if period + 1 in Periods {
      PeriodRangeValues(period + 1);
    }
  }

  // A proleptic Gregorian calendar in UTC, the reference the timestamps are checked against.

  predicate IsLeapYear(y: int)
  {
    y % 4 == 0 && (y % 100 != 0 || y % 400 == 0)
  }

  /** The number of leap years among 1..y. */
  function LeapYearsThrough(y: nat): nat
  {
    y / 4 - y / 100 + y / 400
  }

  /** Days of a common year before the first of month m (1..12). */
  const CommonDaysBeforeMonth: seq<nat> := [0, 31, 59, 90, 120, 151, 181, 212, 243, 273, 304, 334]

  /** Days of year y before the first of month m (1..12): February has 29 days in a leap year. */
  function DaysBeforeMonth(y: int, m: int): nat
    requires 1 <= m <= 12
  {
    CommonDaysBeforeMonth[m - 1] + (if m > 2 && IsLeapYear(y) then 1 else 0)
  }

  /** Seconds from 1970-01-01T00:00Z to midnight UTC on the first day of month m of year y. */
  function MonthStart(y: nat, m: int): nat
    requires y >= 1970 && 1 <= m <= 12
  {
    86400 * (365 * (y - 1970) + LeapYearsThrough(y - 1) - LeapYearsThrough(1969) + DaysBeforeMonth(y, m))
  }

  /** Seconds from the epoch to the first day of calendar quarter q (1..4) of year y. */
  function QuarterStart(y: nat, q: int): nat
    requires y >= 1970 && 1 <= q <= 4
  {
    MonthStart(y, 3 * (q - 1) + 1)
  }

  /**
   * Period k is the k-th calendar quarter counted from the first quarter of
   * 2020: it runs from midnight UTC on the quarter's first day to midnight UTC
   * on the first day of the next quarter.
   */
  lemma PeriodRangesAreQuarters(period: int)
    requires period in Periods
    ensures PeriodRange(period) == (QuarterStart(PeriodYear(period), PeriodQuarter(period)),
                                    QuarterStart(PeriodYear(period + 1), PeriodQuarter(period + 1)))
  {
    PeriodRangeValues(period);
    QuarterStartValues();
  }

  /** The calendar year of the k-th quarter counted from the first quarter of 2020. */
  function PeriodYear(k: int): nat
  {
    if k <= 4 then 2020 else 2021
  }

  /** The quarter of the year (1..4) of the k-th quarter counted from the first quarter of 2020. */
  function PeriodQuarter(k: int): (q: int)
    ensures 1 <= k <= 8 ==> 1 <= q <= 4
  {
    if k <= 4 then k else k - 4
  }

  /** The first seconds of the six quarters from January 2020 to April 2021. */
  lemma QuarterStartValues()
    ensures QuarterStart(2020, 1) == 1577836800
    ensures QuarterStart(2020, 2) == 1585699200
    ensures QuarterStart(2020, 3) == 1593561600
    ensures QuarterStart(2020, 4) == 1601510400
    ensures QuarterStart(2021, 1) == 1609459200
    ensures QuarterStart(2021, 2) == 1617235200
  {
  }
}
