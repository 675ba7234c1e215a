// The per-cell step of convert_html_to_list: the text inside the first child
// of a td element, taken with the greedy pattern `>(.*)<`, and the decision to
// read that text as a number or keep it as text.
module CellText {
  import opened Outcomes

  /** A td element, as the renderings of its children in document order (td.contents). */
  type Cell = seq<string>

  /**
   * A cell's value: a number, kept as the comma-free numeral that float() reads,
   * or the extracted text unchanged.
   */
  datatype Value = Number(literal: string) | Text(text: string)

  // The match of `>(.*)<` found by re.search.

  /** `>(.*)<` matches s at (i, j): a '>' at i, a '<' at j after it, and no line break between ('.' skips '\n'). */
  ghost predicate IsMatch(s: string, i: int, j: int)
  {
    0 <= i < j < |s| && s[i] == '>' && s[j] == '<' && forall k :: i < k < j ==> s[k] != '\n'
  }

  /**
   * The match re.search reports: it starts at the leftmost position where the
   * pattern matches at all, and the greedy `.*` makes it end at the last '<' it can reach.
   */
  ghost predicate IsLeftmostGreedy(s: string, i: int, j: int)
  {
    IsMatch(s, i, j) &&
    (forall i', j' :: 0 <= i' < i ==> !IsMatch(s, i', j')) &&
    (forall j' :: j < j' ==> !IsMatch(s, i, j'))
  }

  /** There is at most one leftmost-greedy match. */
  lemma LeftmostGreedyUnique(s: string, i: int, j: int, i': int, j': int)
    requires IsLeftmostGreedy(s, i, j) && IsLeftmostGreedy(s, i', j')
    ensures i == i' && j == j'
  {
  }

  /** The end of the line that position k is on: the first '\n' at or after k, or |s|. */
  function LineEnd(s: string, k: nat): (e: nat)
    requires k <= |s|
    ensures k <= e <= |s|
    ensures forall m :: k <= m < e ==> s[m] != '\n'
    ensures e < |s| ==> s[e] == '\n'
    decreases |s| - k
  {
    if k == |s| || s[k] == '\n' then k else LineEnd(s, k + 1)
  }

  /** The position of the last '<' in s[lo..hi], if there is one. */
  function LastLt(s: string, lo: nat, hi: nat): (r: Option<nat>)
    requires lo <= hi <= |s|
    ensures r.Some? ==> lo <= r.value < hi && s[r.value] == '<'
    ensures r.Some? ==> forall m :: r.value < m < hi ==> s[m] != '<'
    ensures r.None? ==> forall m :: lo <= m < hi ==> s[m] != '<'
    decreases hi - lo
  {
    if hi == lo then None
    else if s[hi - 1] == '<' then Some(hi - 1)
    else LastLt(s, lo, hi - 1)
  }

  /** The scan of re.search from position `from` on: the first start that matches, with its greedy end. */
  function SearchFrom(s: string, from: nat): (r: Option<(nat, nat)>)
    requires from <= |s|
    ensures r.Some? ==> from <= r.value.0 && IsMatch(s, r.value.0, r.value.1)
    ensures r.Some? ==> forall i, j :: from <= i < r.value.0 ==> !IsMatch(s, i, j)
    ensures r.Some? ==> forall j :: r.value.1 < j ==> !IsMatch(s, r.value.0, j)
    ensures r.None? ==> forall i, j :: from <= i ==> !IsMatch(s, i, j)
    decreases |s| - from
  {
    if from == |s| then None
    else
      var close := if s[from] == '>' then LastLt(s, from + 1, LineEnd(s, from + 1)) else None;
      if close.Some? then Some((from, close.value)) else SearchFrom(s, from + 1)
  }

  /**
   * `re.search(r'>(.*)<', str(td.contents[0])).group(1)`: the text between the
   * leftmost '>' that has a '<' after it on its line and the last such '<'.
   * A td without children raises IndexError; a rendering without a match
   * makes `.group` fail on None.
   */
  function ExtractText(cell: Cell): (r: Result<string>)
    ensures cell == [] ==> r == Err(EmptyCell)
    ensures cell != [] ==> (r.Err? <==> forall i, j :: !IsMatch(cell[0], i, j))
    ensures cell != [] && r.Err? ==> r.error == NoTextMatch
    ensures r.Ok? ==>
      cell != [] && exists i, j :: IsLeftmostGreedy(cell[0], i, j) && r.value == cell[0][i + 1..j]
  {
    if cell == [] then Err(EmptyCell)
    else match SearchFrom(cell[0], 0)
      case None => Err(NoTextMatch)
      case Some(m) =>
        assert IsLeftmostGreedy(cell[0], m.0, m.1);
        Ok(cell[0][m.0 + 1..m.1])
  }

  /**
   * A child rendered as one element on one line, `<name>text</name>`, gives
   * back exactly its text, whatever '<' or '>' the text holds.
   */
  lemma ExtractTextOfElement(name: string, text: string)
    requires forall k :: 0 <= k < |name| ==> name[k] != '<' && name[k] != '>' && name[k] != '\n'
    requires forall k :: 0 <= k < |text| ==> text[k] != '\n'
    ensures ExtractText(["<" + name + ">" + text + "</" + name + ">"]) == Ok(text)
  {
    var s := "<" + name + ">" + text + "</" + name + ">";
    var i, j := |name| + 1, |name| + 2 + |text|;
    assert s[i] == '>' && s[j] == '<';
    assert forall k :: 0 <= k < i ==> s[k] != '>';
    assert forall k :: j < k < |s| ==> s[k] != '<';
    assert forall k :: i < k < |s| ==> s[k] != '\n';
    assert IsLeftmostGreedy(s, i, j);
    var r := ExtractText([s]);
    var i', j' :| IsLeftmostGreedy(s, i', j') && r.value == s[i' + 1..j'];
    LeftmostGreedyUnique(s, i, j, i', j');
    assert s[i + 1..j] == text;
  }

  // Coercion: `float(v) if (v := value.replace(',', '')).replace('.', '').isalnum() else value`.

  predicate IsAsciiDigit(c: char)
  {
    '0' <= c <= '9'
  }

  predicate IsAsciiLetter(c: char)
  {
    'a' <= c <= 'z' || 'A' <= c <= 'Z'
  }

  predicate IsAsciiAlnum(c: char)
  {
    IsAsciiDigit(c) || IsAsciiLetter(c)
  }

  /** str.isalnum() on ASCII text: non-empty, and every character a letter or a digit. */
  predicate IsAlnum(s: string)
  {
    |s| > 0 && forall k :: 0 <= k < |s| ==> IsAsciiAlnum(s[k])
  }

  predicate AllDigits(s: string)
  {
    forall k :: 0 <= k < |s| ==> IsAsciiDigit(s[k])
  }

  /** str.replace(c, ''): s with every occurrence of c deleted and the rest kept in order. */
  function RemoveChar(s: string, c: char): (r: string)
    ensures forall k :: 0 <= k < |r| ==> r[k] != c && r[k] in s
    ensures forall x :: x != c ==> multiset(r)[x] == multiset(s)[x]
    ensures c !in s ==> r == s
  {
    if s == [] then []
    else
      assert s == [s[0]] + s[1..];
      (if s[0] == c then [] else [s[0]]) + RemoveChar(s[1..], c)
  }

  /** Deleting c from two texts put together deletes it from each, the rest keeping its order. */
  lemma {:induction false} RemoveCharAppend(s1: string, s2: string, c: char)
    ensures RemoveChar(s1 + s2, c) == RemoveChar(s1, c) + RemoveChar(s2, c)
  {
    if s1 != [] {
      assert (s1 + s2)[0] == s1[0];
      assert (s1 + s2)[1..] == s1[1..] + s2;
      RemoveCharAppend(s1[1..], s2, c);
      var head := if s1[0] == c then [] else [s1[0]];
      assert RemoveChar(s1, c) == head + RemoveChar(s1[1..], c);
      assert RemoveChar(s1 + s2, c) == head + RemoveChar(s1[1..] + s2, c);
    } else {
      assert s1 + s2 == s2;
    }
  }

  /** The position of the first character of s that is in cs, or |s| when there is none. */
  function FirstIndexIn(s: string, cs: set<char>): (k: nat)
    ensures k <= |s|
    ensures forall m :: 0 <= m < k ==> s[m] !in cs
    ensures k < |s| ==> s[k] in cs
  {
    if s == [] || s[0] in cs then 0 else 1 + FirstIndexIn(s[1..], cs)
  }

  /** ASCII lower case, as str.lower() does for ASCII letters. */
  function LowerAscii(s: string): (r: string)
    ensures |r| == |s|
    ensures forall k :: 0 <= k < |s| && !('A' <= s[k] <= 'Z') ==> r[k] == s[k]
    ensures forall k :: 0 <= k < |s| && 'A' <= s[k] <= 'Z' ==> r[k] == (s[k] as int + 32) as char
  {
    if s == [] then []
    else [if 'A' <= s[0] <= 'Z' then (s[0] as int + 32) as char else s[0]] + LowerAscii(s[1..])
  }

  /** Digits, optionally one '.' and more digits, with at least one digit in all: "12", "1.5", "1.", ".5". */
  predicate IsMantissa(m: string)
  {
    var d := FirstIndexIn(m, {'.'});
    AllDigits(m[..d]) &&
    (d < |m| ==> AllDigits(m[d + 1..]) && |m| >= 2) &&
    (d == |m| ==> |m| >= 1)
  }

  /**
   * What Python's float() accepts among the strings that can reach it here
   * (ASCII letters, digits and dots): a mantissa with an optional exponent
   * `e`/`E` and digits, or inf, infinity or nan in any case.
   */
  predicate IsFloatLiteral(s: string)
  {
    LowerAscii(s) in {"inf", "infinity", "nan"} ||
    var k := FirstIndexIn(s, {'e', 'E'});
    IsMantissa(s[..k]) && (k < |s| ==> |s| > k + 1 && AllDigits(s[k + 1..]))
  }

  /**
   * Line 62 of the scraper. The comma-free value becomes a number when, with
   * its dots dropped too, it is non-empty and alphanumeric; float() then
   * raises ValueError on what is not a numeral. Any other value stays text,
   * commas included.
   */
  function Coerce(value: string): (r: Result<Value>)
    ensures r == Ok(Text(value)) <==> !IsAlnum(RemoveChar(RemoveChar(value, ','), '.'))
    ensures r.Ok? && r.value.Text? ==> r.value == Text(value)
    ensures r.Ok? && r.value.Number? <==>
      IsAlnum(RemoveChar(RemoveChar(value, ','), '.')) && IsFloatLiteral(RemoveChar(value, ','))
    ensures r.Ok? && r.value.Number? ==>
      r.value.literal == RemoveChar(value, ',') && IsFloatLiteral(r.value.literal)
    ensures r.Err? ==> r.error == NotAFloat(RemoveChar(value, ',')) && !IsFloatLiteral(RemoveChar(value, ','))
  {
    var noComma := RemoveChar(value, ',');
    if IsAlnum(RemoveChar(noComma, '.')) then
      if IsFloatLiteral(noComma) then Ok(Number(noComma)) else Err(NotAFloat(noComma))
    else
      Ok(Text(value))
  }

  /** A value holding a character other than a letter, a digit, ',' or '.' stays text: "N/A", "-", "-1.5", "Jan 15, 2020". */
  lemma CoerceKeepsText(value: string, k: int)
    requires 0 <= k < |value| && !IsAsciiAlnum(value[k]) && value[k] != ',' && value[k] != '.'
    ensures Coerce(value) == Ok(Text(value))
  {
    var stripped := RemoveChar(RemoveChar(value, ','), '.');
    var x := value[k];
    assert multiset(value)[x] > 0;
    assert multiset(stripped)[x] > 0;
    assert x in stripped;
  }

  /** A value with no letter and no digit (the empty text, ",", ".") stays text. */
  lemma CoerceWithoutAlnumKeepsText(value: string)
    requires forall k :: 0 <= k < |value| ==> !IsAsciiAlnum(value[k])
    ensures Coerce(value) == Ok(Text(value))
  {
    var stripped := RemoveChar(RemoveChar(value, ','), '.');
    if |stripped| > 0 {
      assert stripped[0] in RemoveChar(value, ',');
      assert stripped[0] in value;
    }
  }

  predicate IsDigitOrPoint(c: char)
  {
    IsAsciiDigit(c) || c == '.'
  }

  /** The number of decimal points of a string made of digits and points is one more than after its first point. */
  lemma PointsAfterFirst(s: string, d: nat)
    requires d == FirstIndexIn(s, {'.'}) && d < |s|
    ensures multiset(s)['.'] == 1 + multiset(s[d + 1..])['.']
  {
    assert s == s[..d] + [s[d]] + s[d + 1..];
    assert '.' !in s[..d];
  }

  /**
   * A string of digits and decimal points is a numeral float() accepts exactly
   * when it has at most one point and at least one digit.
   */
  lemma FloatLiteralOfDigitsAndPoints(s: string)
    requires forall k :: 0 <= k < |s| ==> IsDigitOrPoint(s[k])
    ensures IsFloatLiteral(s) <==> multiset(s)['.'] <= 1 && exists k :: 0 <= k < |s| && IsAsciiDigit(s[k])
  {
    FloatLiteralIsMantissa(s);
    MantissaOfDigitsAndPoints(s);
  }

  /** Without letters, neither inf, nan nor an exponent can occur: float() needs the whole string to be a mantissa. */
  lemma FloatLiteralIsMantissa(s: string)
    requires forall k :: 0 <= k < |s| ==> IsDigitOrPoint(s[k])
    ensures IsFloatLiteral(s) <==> IsMantissa(s)
  {
    assert FirstIndexIn(s, {'e', 'E'}) == |s|;
    assert s[..|s|] == s;
    if |s| > 0 {
      assert LowerAscii(s)[0] == s[0];
    }
    assert LowerAscii(s) !in {"inf", "infinity", "nan"};
  }

  lemma MantissaOfDigitsAndPoints(s: string)
    requires forall k :: 0 <= k < |s| ==> IsDigitOrPoint(s[k])
    ensures IsMantissa(s) <==> multiset(s)['.'] <= 1 && exists k :: 0 <= k < |s| && IsAsciiDigit(s[k])
  {
    var d := FirstIndexIn(s, {'.'});
    assert AllDigits(s[..d]);
    if d == |s| {
      assert '.' !in s;
      if |s| > 0 {
        assert IsAsciiDigit(s[0]);
      }
    } else {
      PointsAfterFirst(s, d);
      var rest := s[d + 1..];
      assert AllDigits(rest) <==> '.' !in rest;
      if multiset(s)['.'] <= 1 && |s| >= 2 {
        var k := if d == 0 then 1 else 0;
        assert s[k] != '.' by {
          if k == 1 {
            assert s[1] == rest[0];
          }
        }
      }
    }
  }

  /** Removing the commas from digits, commas and points leaves digits and points, as many points as before. */
  lemma CommaRemovalKeepsPoints(value: string)
    requires forall k :: 0 <= k < |value| ==> IsAsciiDigit(value[k]) || value[k] == ',' || value[k] == '.'
    ensures forall m :: 0 <= m < |RemoveChar(value, ',')| ==> IsDigitOrPoint(RemoveChar(value, ',')[m])
    ensures multiset(RemoveChar(value, ','))['.'] == multiset(value)['.']
  {
  }

  /**
   * A numeral written with digits, thousands commas and at most one decimal
   * point ("1,234.56", "1,234", "0.5") becomes the number with its commas removed.
   */
  lemma CoerceReadsNumeral(value: string)
    requires forall k :: 0 <= k < |value| ==> IsAsciiDigit(value[k]) || value[k] == ',' || value[k] == '.'
    requires multiset(value)['.'] <= 1
    requires exists k :: 0 <= k < |value| && IsAsciiDigit(value[k])
    ensures Coerce(value) == Ok(Number(RemoveChar(value, ',')))
  {
    var s := RemoveChar(value, ',');
    var k :| 0 <= k < |value| && IsAsciiDigit(value[k]);
    DigitsSurviveRemoval(value, k);
    assert IsFloatLiteral(s) by {
      var j :| 0 <= j < |s| && s[j] == value[k];
      CommaRemovalKeepsPoints(value);
      FloatLiteralOfDigitsAndPoints(s);
    }
  }

  /**
   * Digits, commas and more than one decimal point ("1.2.3") pass the
   * alphanumeric test, and float() then raises.
   */
  lemma CoerceRejectsSeveralPoints(value: string)
    requires forall k :: 0 <= k < |value| ==> IsAsciiDigit(value[k]) || value[k] == ',' || value[k] == '.'
    requires multiset(value)['.'] >= 2
    requires exists k :: 0 <= k < |value| && IsAsciiDigit(value[k])
    ensures Coerce(value) == Err(NotAFloat(RemoveChar(value, ',')))
  {
    var s := RemoveChar(value, ',');
    var k :| 0 <= k < |value| && IsAsciiDigit(value[k]);
    DigitsSurviveRemoval(value, k);
    assert !IsFloatLiteral(s) by {
      var j :| 0 <= j < |s| && s[j] == value[k];
      CommaRemovalKeepsPoints(value);
      FloatLiteralOfDigitsAndPoints(s);
    }
  }

  /** A word made of letters passes the alphanumeric test unchanged by the removal of commas and points. */
  lemma WordIsAlnum(value: string)
    requires |value| > 0 && forall k :: 0 <= k < |value| ==> IsAsciiLetter(value[k])
    ensures RemoveChar(value, ',') == value
    ensures IsAlnum(RemoveChar(value, '.'))
  {
    assert ',' !in value;
    assert '.' !in value;
  }

  /** A word has no digit to begin a mantissa, so float() reads it only as inf, infinity or nan. */
  lemma WordIsNoMantissa(value: string)
    requires |value| > 0 && forall k :: 0 <= k < |value| ==> IsAsciiLetter(value[k])
    ensures !IsMantissa(value[..FirstIndexIn(value, {'e', 'E'})])
  {
    var m := value[..FirstIndexIn(value, {'e', 'E'})];
    var d := FirstIndexIn(m, {'.'});
    if |m| > 0 {
      assert d > 0 by {
        assert m[0] == value[0];
      }
      assert !IsAsciiDigit(m[..d][0]);
    }
  }

  /**
   * A word other than inf, infinity or nan passes the alphanumeric test, and
   * float() then raises: "abc", "High".
   */
  lemma CoerceRejectsWords(value: string)
    requires |value| > 0 && forall k :: 0 <= k < |value| ==> IsAsciiLetter(value[k])
    requires LowerAscii(value) !in {"inf", "infinity", "nan"}
    ensures Coerce(value) == Err(NotAFloat(value))
  {
    WordIsAlnum(value);
    WordIsNoMantissa(value);
    assert !IsFloatLiteral(value);
  }

  /** inf, infinity and nan, in any case, are numbers to float(): a cell reading "NaN" becomes a number. */
  lemma CoerceReadsSpecialFloats(value: string)
    requires |value| > 0 && forall k :: 0 <= k < |value| ==> IsAsciiLetter(value[k])
    requires LowerAscii(value) in {"inf", "infinity", "nan"}
    ensures Coerce(value) == Ok(Number(value))
  {
    WordIsAlnum(value);
  }

  /** Removing commas and then points from digits, commas and points leaves a non-empty run of digits when there was a digit. */
  lemma DigitsSurviveRemoval(value: string, k: int)
    requires forall m :: 0 <= m < |value| ==> IsAsciiDigit(value[m]) || value[m] == ',' || value[m] == '.'
    requires 0 <= k < |value| && IsAsciiDigit(value[k])
    ensures value[k] in RemoveChar(value, ',')
    ensures IsAlnum(RemoveChar(RemoveChar(value, ','), '.'))
  {
    var s := RemoveChar(value, ',');
    var digits := RemoveChar(s, '.');
    assert multiset(value)[value[k]] > 0;
    assert multiset(digits)[value[k]] > 0;
    forall m | 0 <= m < |digits| ensures IsAsciiDigit(digits[m]) {
      assert digits[m] in s;
      assert digits[m] in value;
    }
  }

  /**
   * The value of one cell: its text, coerced. Either step may raise, and the
   * first failure is the cell's error.
   */
  function ReadCell(cell: Cell): (r: Result<Value>)
    ensures cell == [] ==> r == Err(EmptyCell)
    ensures ExtractText(cell).Err? ==> r == Err(ExtractText(cell).error)
    ensures ExtractText(cell).Ok? ==> r == Coerce(ExtractText(cell).value)
    ensures r.Ok? ==> ExtractText(cell).Ok?
    ensures r.Ok? && r.value.Text? ==> r.value.text == ExtractText(cell).value
    ensures r.Ok? && r.value.Number? ==> r.value.literal == RemoveChar(ExtractText(cell).value, ',')
  {
    match ExtractText(cell)
      case Err(e) => Err(e)
      case Ok(text) => Coerce(text)
  }
}
