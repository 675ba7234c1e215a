# Yahoo Finance historical-data scraper, modelled in Dafny

The scraper downloads the daily price history of a stock index from Yahoo
Finance. It fetches one page per quarter, from the first quarter of 2020 to
the first quarter of 2021. It turns the history table of each page into a list
of day records with the keys date, open, high, low, close, adj_close and
volume. It then joins the five lists, oldest day first.

This project models the three steps that decide what ends up in that list:

- `get_url` builds the URL for a ticker and a period. The module `YahooUrl`
  (yahoo_url.dfy) models it as `GetUrl`. It also holds:
  - an inverse parser for those URLs;
  - the period table's timestamps as numbers, checked against a Gregorian
    calendar.
- `convert_html_to_list` (modules `CellText` and `TableParser`):
  - `CellText` (cell_text.dfy) models one cell. The greedy pattern `>(.*)<`
    is specified as the leftmost, longest match on one line. The
    number-or-text decision follows Python's `str.isalnum` and `float`
    grammar, restricted to ASCII: the model's alphanumeric test accepts only
    ASCII letters and digits, and its `float` grammar covers only the strings
    that pass that test.
  - `TableParser` (table_parser.dfy) models the loop over the flat stream of
    `td` cells. `ConvertHtmlToList` is an imperative method with the source's
    column counter and record accumulator. It is proved against the
    specification `ParsedTable`.
- The period loop of `create_json_for_ticker` (module `Dataset`,
  dataset.dfy). `CreateDatasetForTicker` is a method with the source's loop
  over periods 1..5. It is proved against `DatasetFor`.

Python exceptions are modelled as errors in `Outcomes.Result` (outcomes.dfy).
A run that raises stops at the first failing step, and `Outcomes.AllOk` states
this.

The HTML parser and the network are inputs:

- A page's table is `Option<seq<Cell>>`: `None` when the page has no `tbody`,
  otherwise the `td` elements of the first one in document order.
- A cell is the list of its children's renderings (`td.contents`).
- The fetch is a function from a URL to the table of the page it returns.

## Model

| member | source | states |
|---|---|---|
| YahooUrl.GetUrl | scrapers/yahoo_finance_scraper.py:17-25 | a URL exactly for periods 1..5; any other period raises KeyError (`UnknownPeriod`); every URL has the same length apart from the ticker |
| YahooUrl.UrlRoundTrip | scrapers/yahoo_finance_scraper.py:24-25 | reading back the URL of any ticker and valid period gives that ticker and that period |
| YahooUrl.ParseHistoryUrlSound | scrapers/yahoo_finance_scraper.py:24-25 | a string the URL reader accepts is exactly the URL built for the ticker and period it reports |
| YahooUrl.GetUrlInjective | scrapers/yahoo_finance_scraper.py:17-25 | distinct (ticker, period) pairs never share a URL |
| YahooUrl.HistoryTailInjective | scrapers/yahoo_finance_scraper.py:17-23 | the five query strings differ from one another |
| YahooUrl.PeriodOfTail | scrapers/yahoo_finance_scraper.py:17-23 | finds the period whose URL ends with a given tail, and reports none exactly when no period's does |
| YahooUrl.PeriodRangeValues | scrapers/yahoo_finance_scraper.py:18-22 | the numeric start and end timestamps of each of the five periods |
| YahooUrl.PeriodRangesContiguous | scrapers/yahoo_finance_scraper.py:18-22 | each period's start is before its end, and each end is the next period's start |
| YahooUrl.PeriodRangesAreQuarters | scrapers/yahoo_finance_scraper.py:11-22 | period k runs from midnight UTC on the first day of the k-th quarter from January 2020 to midnight UTC on the first day of the next quarter |
| YahooUrl.QuarterStartValues | scrapers/yahoo_finance_scraper.py:18-22 | the calendar gives the six boundary timestamps of the period table |
| CellText.SearchFrom | scrapers/yahoo_finance_scraper.py:60 | the scan finds the leftmost '>' that has a '<' after it on its line, and the last such '<'; no match means none exists |
| CellText.LineEnd | scrapers/yahoo_finance_scraper.py:60 | the end of the line a position is on, the limit of `.` |
| CellText.LastLt | scrapers/yahoo_finance_scraper.py:60 | the last '<' of a range, or none in it |
| CellText.ExtractText | scrapers/yahoo_finance_scraper.py:60 | a cell with no child raises IndexError; no match raises on `.group`; otherwise the text between the leftmost-greedy match's delimiters |
| CellText.LeftmostGreedyUnique | scrapers/yahoo_finance_scraper.py:60 | the reported match is unique |
| CellText.ExtractTextOfElement | scrapers/yahoo_finance_scraper.py:60 | a child rendered `<name>text</name>` on one line gives back exactly its text |
| CellText.RemoveChar | scrapers/yahoo_finance_scraper.py:62 | `str.replace(c, '')`: no c is left, and every other character keeps its count |
| CellText.RemoveCharAppend | scrapers/yahoo_finance_scraper.py:62 | deleting c from two texts put together deletes it from each in turn, so the remaining characters keep their order |
| CellText.IsAlnum | scrapers/yahoo_finance_scraper.py:62 | `str.isalnum` on ASCII: the text is non-empty and every character is a letter or a digit |
| CellText.IsFloatLiteral | scrapers/yahoo_finance_scraper.py:62 | the strings of ASCII letters, digits and points that `float` accepts: a mantissa with an optional exponent, or inf, infinity or nan in any case |
| CellText.Coerce | scrapers/yahoo_finance_scraper.py:62 | stays text (commas kept) iff the comma-free, point-free value is not non-empty alphanumeric; any text result is the value itself; a number, written as the comma-free value, iff that value passes the test and float accepts it; ValueError carrying the comma-free value when it passes the test and float refuses it |
| CellText.ReadCell | scrapers/yahoo_finance_scraper.py:60-62 | the cell's value is its extracted text passed through the number-or-text coercion: a cell with no child raises IndexError, a cell the pattern does not match raises on `.group`, and otherwise the result is exactly what `Coerce` gives for the matched text (so a cell read as text holds the matched text, and one read as a number holds it without commas) |
| CellText.CoerceKeepsText | scrapers/yahoo_finance_scraper.py:62 | a value with a character other than a letter, digit, comma or point stays text ("N/A", "-", "-1.5", "Jan 15, 2020") |
| CellText.CoerceWithoutAlnumKeepsText | scrapers/yahoo_finance_scraper.py:62 | a value with no letter or digit stays text |
| CellText.CoerceReadsNumeral | scrapers/yahoo_finance_scraper.py:62 | digits, thousands commas and at most one point, with a digit, become the number written without commas |
| CellText.CoerceRejectsSeveralPoints | scrapers/yahoo_finance_scraper.py:62 | digits and commas with two or more points pass the test and make float raise |
| CellText.CoerceRejectsWords | scrapers/yahoo_finance_scraper.py:62 | a word other than inf, infinity or nan passes the test and makes float raise |
| CellText.CoerceReadsSpecialFloats | scrapers/yahoo_finance_scraper.py:62 | inf, infinity and nan in any case become numbers |
| CellText.FloatLiteralOfDigitsAndPoints | scrapers/yahoo_finance_scraper.py:62 | float accepts a string of digits and points iff it has at most one point and at least one digit |
| CellText.DigitsSurviveRemoval | scrapers/yahoo_finance_scraper.py:62 | digits, commas and points with a digit pass the alphanumeric test |
| TableParser.ColumnMapHolds | scrapers/yahoo_finance_scraper.py:40-48 | the column map's keys are 1..7 and its seven names are distinct |
| TableParser.RecordOf | scrapers/yahoo_finance_scraper.py:51-64 | the k-th value of a row is stored under the name of column k |
| TableParser.RecordKeys | scrapers/yahoo_finance_scraper.py:51-64 | a record has no key but the names of the columns it was given values for |
| TableParser.RecordOfAppend | scrapers/yahoo_finance_scraper.py:63-64 | storing a value at the counter fills the next column of the current record |
| TableParser.RowColumns | scrapers/yahoo_finance_scraper.py:40-64 | in a row, value k is under date, open, high, low, close, adj_close or volume in that order |
| TableParser.FullRecordKeys | scrapers/yahoo_finance_scraper.py:40-64 | a row of seven values has exactly the seven column names as keys |
| TableParser.Emitted | scrapers/yahoo_finance_scraper.py:50-66 | 0 cells give no record, and n >= 1 cells give (n - 1) / 7 records |
| TableParser.EmittedRecord | scrapers/yahoo_finance_scraper.py:53-58 | record j is built from cells 7j..7j+6, in document order, and another cell follows them |
| TableParser.EmittedUnique | scrapers/yahoo_finance_scraper.py:50-66 | the records are determined by their count and by the block each is built from |
| TableParser.CompleteRowsLoseLastRow | scrapers/yahoo_finance_scraper.py:53-66 | 7N cells give N - 1 records, the first N - 1 rows in order: the last complete row is dropped |
| TableParser.TrailingCellsDropped | scrapers/yahoo_finance_scraper.py:53-66 | after the last record there are always one to seven cells that appear in no record |
| TableParser.CellColumn | scrapers/yahoo_finance_scraper.py:53-64 | cell i of an emitted row is the value of column i mod 7 + 1 of record i / 7 |
| TableParser.EmittedKeys | scrapers/yahoo_finance_scraper.py:40-64 | every emitted record has exactly the seven column names as keys |
| TableParser.ParsedTable | scrapers/yahoo_finance_scraper.py:37-66 | no tbody raises ValueError (`NoTable`); n cells read without error give (n - 1) / 7 records, none for no cell |
| TableParser.ParsedTableOutcome | scrapers/yahoo_finance_scraper.py:37-38 | no tbody raises ValueError (`NoTable`); a table gives records iff every cell can be read |
| TableParser.ParsedTableFailsAt | scrapers/yahoo_finance_scraper.py:53-62 | the first cell that cannot be read decides the error |
| TableParser.ParsedTableRecords | scrapers/yahoo_finance_scraper.py:50-66 | when every cell is read, the result is the records emitted for the cells' values |
| TableParser.RowCount | scrapers/yahoo_finance_scraper.py:52-64 | the counter and the number of appended records determine the count (n - 1) / 7 |
| TableParser.StartRow | scrapers/yahoo_finance_scraper.py:55-58 | passing column 7 appends the full current record and starts an empty one at column 1 |
| TableParser.StoreValue | scrapers/yahoo_finance_scraper.py:63-64 | storing a cell keeps the loop's state relation |
| TableParser.ConvertHtmlToList | scrapers/yahoo_finance_scraper.py:36-66 | the loop over the cells, with the counter, the current record and the appended list, returns or raises exactly what `ParsedTable` gives |
| Outcomes.AllOk | scrapers/yahoo_finance_scraper.py:53-62 | steps run in order give all their values iff every step succeeds, and otherwise the error of the first failing step |
| Outcomes.AllOkStopsAtFirstFailure | scrapers/yahoo_finance_scraper.py:91-93 | the error reported is the first failing step's |
| Outcomes.AllOkOfSucceeded | scrapers/yahoo_finance_scraper.py:53-64 | when every step succeeded with known values, the run returns those values |
| Outcomes.AllOkFailsAfter | scrapers/yahoo_finance_scraper.py:91-93 | a step that fails after successful ones ends the run with its error |
| Dataset.Reversed | scrapers/yahoo_finance_scraper.py:93 | `[::-1]`: same length, element i is element len - 1 - i of the input |
| Dataset.ReversedTwice | scrapers/yahoo_finance_scraper.py:93 | reversing twice gives the list back |
| Dataset.ReversedKeepsElements | scrapers/yahoo_finance_scraper.py:93 | reversal keeps every record as often as it occurs |
| Dataset.Gathered | scrapers/yahoo_finance_scraper.py:90-93 | the joined list's length is the sum of the lists' lengths |
| Dataset.GatheredAt | scrapers/yahoo_finance_scraper.py:90-93 | record q of the joined part for list p is list p's record len - 1 - q, after all records of the earlier lists |
| Dataset.GatheredKeepsRecords | scrapers/yahoo_finance_scraper.py:90-93 | the joined list is a permutation of the plain concatenation: nothing removed or merged |
| Dataset.GatheredSummary | scrapers/yahoo_finance_scraper.py:90-93 | length is the sum of lengths, no record lost or added, and the first record is the last of period 1 |
| Dataset.DatasetFor | scrapers/yahoo_finance_scraper.py:90-95 | a dataset is produced iff every one of the five pages parses; otherwise the error is that of one of the pages |
| Dataset.CreateDatasetForTicker | scrapers/yahoo_finance_scraper.py:90-95 | the loop over periods 1..5, fetching and parsing each page and appending it reversed, returns or raises exactly what `DatasetFor` gives |
| Dataset.DatasetOfParsedPages | scrapers/yahoo_finance_scraper.py:90-95 | when all five pages parse, the dataset is their reversed concatenation in period order |
| Dataset.DatasetStopsAtFailingPeriod | scrapers/yahoo_finance_scraper.py:91-93 | the first period whose page raises decides the error, and no dataset is produced |

## Left out

- BeautifulSoup (`BeautifulSoup(html)`, `find_all('tbody')`, `find_all('td')`, `td.contents`) is a foreign library. Its result is an input: an optional list of cells, each the list of its children's renderings.
- `requests.get` and `str(response.content)` are network I/O and a bytes repr. The page that a URL returns is an input function from URL to table.
- Dataset.DatasetFor: the fetch function is total, so a request that raises (a connection error or a timeout) cannot be represented; only errors raised while parsing a page are.
- TableParser.Row: a record is a map, which has no key order. The source's dicts keep insertion order (date, open, high, low, close, adj_close, volume), and `json.dump` writes the keys in that order; the model does not capture that order.
- `save_stock_data_json`, `json.dump`, the file path and the boolean result of `create_json_for_ticker` are file I/O. `CreateDatasetForTicker` returns the list that would be saved.
- The `__main__` driver only loops over two hardcoded tickers and paths.
- CellText.Coerce: a number is kept as the comma-free numeral that `float` reads, not as an IEEE double; rounding, and the equal values of different numerals, are not modelled.
- CellText.IsFloatLiteral: Python's `float` grammar is modelled only for strings of ASCII letters, digits and points, the only strings that pass the model's ASCII alphanumeric test. Signs, underscores and surrounding whitespace cannot reach `float` in this code.
- CellText.IsAlnum: Python's `isalnum` is Unicode-aware, and the model covers ASCII only: non-ASCII letters and digits count as neither. So a value such as "²" or "١٢٣" stays text in the model, while the source passes it to `float`, which raises on "²" and reads "١٢٣" as 123.0.
- The `re` engine is modelled only for the single pattern `>(.*)<` without flags.
- YahooUrl.GetUrl: its contract gives the error case and the length. The URL text itself is stated through the round trip with `ParseHistoryUrl` (`UrlRoundTrip`, `ParseHistoryUrlSound`).
- The claim that reversing each page orders the records from oldest to newest depends on Yahoo listing the newest day first. That is a property of the pages, not of this code, and it is not modelled.
