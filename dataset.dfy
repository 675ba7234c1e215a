// create_json_for_ticker: one page per quarter, each page's records reversed
// so that they run from the oldest day to the newest, the quarters in order.
module Dataset {
  import opened Outcomes
  import opened YahooUrl
  import opened TableParser

  /** The list read backwards: lst[::-1]. */
  function Reversed<T>(s: seq<T>): (r: seq<T>)
    ensures |r| == |s|
    ensures forall i :: 0 <= i < |s| ==> r[i] == s[|s| - 1 - i]
  {
    if s == [] then [] else Reversed(s[1..]) + [s[0]]
  }

  /** Reading a list backwards twice gives it back. */
  lemma ReversedTwice<T>(s: seq<T>)
    ensures Reversed(Reversed(s)) == s
  {
  }

  /** Reversal keeps every element, as often as it occurs. */
  lemma {:induction false} ReversedKeepsElements<T>(s: seq<T>)
    ensures multiset(Reversed(s)) == multiset(s)
  {
    if s != [] {
      ReversedKeepsElements(s[1..]);
      assert s == [s[0]] + s[1..];
    }
  }

  /** The lists one after the other, as `+=` builds them. */
  function Flattened<T>(lists: seq<seq<T>>): seq<T>
  {
    if lists == [] then [] else Flattened(lists[..|lists| - 1]) + lists[|lists| - 1]
  }

  /** The sum of the lengths of the lists. */
  function TotalLength<T>(lists: seq<seq<T>>): nat
  {
    if lists == [] then 0 else TotalLength(lists[..|lists| - 1]) + |lists[|lists| - 1]|
  }

  /** The combined list: each list reversed, in order, one after the other. */
  function Gathered<T>(lists: seq<seq<T>>): (r: seq<T>)
    ensures |r| == TotalLength(lists)
  {
    if lists == [] then [] else Gathered(lists[..|lists| - 1]) + Reversed(lists[|lists| - 1])
  }

  /** The records of list p come right after those of the lists before it, last record first. */
  lemma {:induction false} GatheredAt<T>(lists: seq<seq<T>>, p: int, q: int)
    requires 0 <= p < |lists| && 0 <= q < |lists[p]|
    ensures TotalLength(lists[..p]) + q < |Gathered(lists)|
    ensures Gathered(lists)[TotalLength(lists[..p]) + q] == lists[p][|lists[p]| - 1 - q]
  {
    var n := |lists|;
    var front := lists[..n - 1];
    var last := lists[n - 1];
    assert Gathered(lists) == Gathered(front) + Reversed(last);
    if p == n - 1 {
      assert lists[..p] == front;
      assert Gathered(lists)[|Gathered(front)| + q] == Reversed(last)[q];
    } else {
      GatheredAt(front, p, q);
      assert front[..p] == lists[..p];
      assert front[p] == lists[p];
      var i := TotalLength(lists[..p]) + q;
      assert i < |Gathered(front)|;
      assert Gathered(lists)[i] == Gathered(front)[i];
    }
  }

  /** The lists before p are no longer than the lists before the last one. */
  lemma {:induction false} TotalLengthGrows<T>(lists: seq<seq<T>>, p: int)
    requires 0 <= p < |lists|
    ensures TotalLength(lists[..p]) + |lists[p]| <= TotalLength(lists)
  {
    var n := |lists|;
    assert lists[..n][..n - 1] == lists[..n - 1];
    assert lists[..n] == lists;
    if p < n - 1 {
      TotalLengthGrows(lists[..n - 1], p);
      assert lists[..n - 1][..p] == lists[..p];
    }
  }

  /** Nothing is removed or merged: the combined list is a permutation of the lists put together. */
  lemma {:induction false} GatheredKeepsRecords<T>(lists: seq<seq<T>>)
    ensures multiset(Gathered(lists)) == multiset(Flattened(lists))
  {
    if lists != [] {
      GatheredKeepsRecords(lists[..|lists| - 1]);
      ReversedKeepsElements(lists[|lists| - 1]);
    }
  }

  /** The parsed records of the page fetched for one quarter. */
  function PeriodRecords(ticker: string, tableAt: string -> Table, period: int): Result<seq<Record>>
    requires 1 <= period <= 5
  {
    ParsedTable(tableAt(GetUrl(ticker, period).value))
  }

  /** The five quarters' parses, in period order. */
  function PeriodResults(ticker: string, tableAt: string -> Table): (rs: seq<Result<seq<Record>>>)
    ensures |rs| == 5 && forall k :: 0 <= k < 5 ==> rs[k] == PeriodRecords(ticker, tableAt, k + 1)
  {
    seq(5, k requires 0 <= k < 5 => PeriodRecords(ticker, tableAt, k + 1))
  }

  /**
   * The list create_json_for_ticker saves for ticker, where tableAt(url)
   * is the table of the page the request for url returns: the first period
   * whose page raises stops the run, and otherwise the five parses are
   * gathered.
   */
  function DatasetFor(ticker: string, tableAt: string -> Table): (r: Result<seq<Record>>)
    ensures r.Ok? <==> forall p :: 1 <= p <= 5 ==> PeriodRecords(ticker, tableAt, p).Ok?
    ensures r.Err? ==> exists p :: 1 <= p <= 5 && PeriodRecords(ticker, tableAt, p) == Err(r.error)
  {
    var rs := PeriodResults(ticker, tableAt);
    match AllOk(rs)
    case Err(e) =>
      assert exists p :: 1 <= p <= 5 && PeriodRecords(ticker, tableAt, p) == Err(e) by {
        var k :| FirstFailure(rs, k) && rs[k] == Err(e);
        assert PeriodRecords(ticker, tableAt, k + 1) == Err(e);
      }
      Err(e)
    case Ok(lists) =>
      assert forall p :: 1 <= p <= 5 ==> rs[p - 1] == PeriodRecords(ticker, tableAt, p);
      Ok(Gathered(lists))
  }

  /** Concatenating each period's records reversed, in period order 1 to 5. */
  method CreateDatasetForTicker(ticker: string, tableAt: string -> Table) returns (r: Result<seq<Record>>)
    ensures r == DatasetFor(ticker, tableAt)
  {
    ghost var rs := PeriodResults(ticker, tableAt);
    var stockData: seq<Record> := [];
    ghost var lists: seq<seq<Record>> := [];
    for period := 1 to 6
      invariant |lists| == period - 1 && SucceededWith(rs, lists)
      invariant stockData == Gathered(lists)
    {
      var url := GetUrl(ticker, period).value;
      var records := ConvertHtmlToList(tableAt(url));
      if records.Err? {
        AllOkFailsAfter(rs, lists);
        return Err(records.error);
      }
      SucceededWithOneMore(rs, lists, records.value);
      stockData := stockData + Reversed(records.value);
      assert (lists + [records.value])[..|lists|] == lists;
      lists := lists + [records.value];
    }
    AllOkOfSucceeded(rs, lists);
    return Ok(stockData);
  }

  /** When every page parses, the dataset gathers the five parses. */
  lemma DatasetOfParsedPages(ticker: string, tableAt: string -> Table, lists: seq<seq<Record>>)
    requires |lists| == 5 && forall k :: 0 <= k < 5 ==> PeriodRecords(ticker, tableAt, k + 1) == Ok(lists[k])
    ensures DatasetFor(ticker, tableAt) == Ok(Gathered(lists))
  {
    var rs := PeriodResults(ticker, tableAt);
    assert SucceededWith(rs, lists) by {
      forall k | 0 <= k < 5 ensures rs[k] == Ok(lists[k]) {
      }
    }
    AllOkOfSucceeded(rs, lists);
  }

  /**
   * The combined list holds all the records, no more and no fewer, and
   * starts with the last record of the first list.
   */
  lemma GatheredSummary<T>(lists: seq<seq<T>>)
    ensures |Gathered(lists)| == TotalLength(lists)
    ensures multiset(Gathered(lists)) == multiset(Flattened(lists))
    ensures |lists| > 0 && |lists[0]| > 0 ==> |Gathered(lists)| > 0 && Gathered(lists)[0] == lists[0][|lists[0]| - 1]
  {
    GatheredKeepsRecords(lists);
    if |lists| > 0 && |lists[0]| > 0 {
      assert TotalLength(lists[..0]) == 0 by {
        assert lists[..0] == [];
      }
      GatheredAt(lists, 0, 0);
    }
  }

  /** The first period whose page raises decides the error; no dataset is produced. */
  lemma DatasetStopsAtFailingPeriod(ticker: string, tableAt: string -> Table, period: int)
    requires 1 <= period <= 5 && PeriodRecords(ticker, tableAt, period).Err?
    requires forall p :: 1 <= p < period ==> PeriodRecords(ticker, tableAt, p).Ok?
    ensures DatasetFor(ticker, tableAt) == Err(PeriodRecords(ticker, tableAt, period).error)
  {
    var rs := PeriodResults(ticker, tableAt);
    assert FirstFailure(rs, period - 1);
    AllOkStopsAtFirstFailure(rs, period - 1);
  }
}
