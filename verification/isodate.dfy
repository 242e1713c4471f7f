/** The complete calendar date representation in extended format of
    ISO 8601:2004 (section 4.1.2.2), `YYYY-MM-DD`, restricted to four-digit
    years: a strict parser and the formatter it inverts. */
module IsoDate {
  import opened Results
  import opened Dates

  /** Why a text is not a date; the kinds of chrono's `ParseError` are not told apart. */
  datatype ParseError = ParseError

  predicate IsDigit(c: char) {
    '0' <= c <= '9'
  }

  predicate AllDigits(s: string) {
    forall i :: 0 <= i < |s| ==> IsDigit(s[i])
  }

  function DigitValue(c: char): nat
    requires IsDigit(c)
  {
    (c as int) - ('0' as int)
  }

  function DigitChar(n: int): (c: char)
    requires 0 <= n < 10
    ensures IsDigit(c) && DigitValue(c) == n
  {
    (('0' as int) + n) as char
  }

  function Pow10(w: nat): (r: nat)
    ensures r >= 1
  {
    if w == 0 then 1 else 10 * Pow10(w - 1)
  }

  /** The value of a string of decimal digits, most significant first. */
  function Number(s: string): (r: nat)
    requires AllDigits(s)
    ensures r < Pow10(|s|)
    decreases |s|
  {
    if |s| == 0 then 0 else Number(s[..|s| - 1]) * 10 + DigitValue(s[|s| - 1])
  }

  /** `n` written with exactly `w` decimal digits, zero-padded on the left. */
  function Padded(n: nat, w: nat): (r: string)
    requires n < Pow10(w)
    ensures |r| == w && AllDigits(r)
    decreases w
  {
    if w == 0 then "" else Padded(n / 10, w - 1) + [DigitChar(n % 10)]
  }

  /** A date whose year has four digits. */
  predicate FourDigitYear(d: Date) {
    0 <= d.year <= 9999
  }

  /** `d` in `YYYY-MM-DD` form. */
  function Format(d: CalendarDate): (r: string)
    requires FourDigitYear(d)
    ensures |r| == 10
  {
    Padded(d.year, 4) + "-" + Padded(d.month, 2) + "-" + Padded(d.day, 2)
  }

  /** Strict `YYYY-MM-DD`: ten characters, dashes at positions 4 and 7,
      digits elsewhere, and the numbers naming an existing day. */
  function ParseDate(s: string): (r: Result<CalendarDate, ParseError>)
    ensures r.Ok? ==> FourDigitYear(r.value)
    ensures r.Ok? ==> |s| == 10 && s[4] == '-' && s[7] == '-'
  {
    if |s| == 10 && s[4] == '-' && s[7] == '-'
       && AllDigits(s[..4]) && AllDigits(s[5..7]) && AllDigits(s[8..])
    then
      var d := Date(Number(s[..4]), Number(s[5..7]), Number(s[8..]));
      if Valid(d) then Ok(d) else Err(ParseError)
    else
      Err(ParseError)
  }

  /** Reading back a padded number gives the number. */
  lemma {:induction false} NumberOfPadded(n: nat, w: nat)
    requires n < Pow10(w)
    ensures Number(Padded(n, w)) == n
    decreases w
  {
    if w > 0 {
      var s := Padded(n, w);
      assert s[..|s| - 1] == Padded(n / 10, w - 1);
      NumberOfPadded(n / 10, w - 1);
    }
  }

  /** Padding a digit string's value to its own length gives the string back. */
  lemma {:induction false} PaddedOfNumber(s: string)
    requires AllDigits(s)
    ensures Padded(Number(s), |s|) == s
    decreases |s|
  {
    if |s| > 0 {
      var init := s[..|s| - 1];
      var c := s[|s| - 1];
      assert AllDigits(init);
      PaddedOfNumber(init);
      var n := Number(s);
      assert n / 10 == Number(init) && n % 10 == DigitValue(c);
      assert [DigitChar(n % 10)] == [c];
      assert s == init + [c];
    }
  }

  /** Parsing the formatted date gives the date back. */
  lemma ParseFormat(d: CalendarDate)
    requires FourDigitYear(d)
    ensures ParseDate(Format(d)) == Ok(d)
  {
    var s := Format(d);
    FormatFields(d);
    NumberOfPadded(d.year, 4);
    NumberOfPadded(d.month, 2);
    NumberOfPadded(d.day, 2);
    assert Date(Number(s[..4]), Number(s[5..7]), Number(s[8..])) == d;
  }

  /** Where the fields of a formatted date stand. */
  lemma FormatFields(d: CalendarDate)
    requires FourDigitYear(d)
    ensures Format(d)[..4] == Padded(d.year, 4)
    ensures Format(d)[4] == '-' && Format(d)[7] == '-'
    ensures Format(d)[5..7] == Padded(d.month, 2)
    ensures Format(d)[8..] == Padded(d.day, 2)
  {
    var y, m, dd := Padded(d.year, 4), Padded(d.month, 2), Padded(d.day, 2);
    assert Format(d) == y + "-" + m + "-" + dd;
  }

  /** Every accepted text is exactly the formatted form of the date it yields:
      the parser admits no alternative spellings. */
  lemma FormatParse(s: string)
    requires ParseDate(s).Ok?
    ensures Format(ParseDate(s).value) == s
  {
    var d := ParseDate(s).value;
    PaddedOfNumber(s[..4]);
    PaddedOfNumber(s[5..7]);
    PaddedOfNumber(s[8..]);
    assert s == s[..4] + "-" + s[5..7] + "-" + s[8..];
  }

  /** The parser accepts `s` with result `d` exactly when `s` is `d` formatted. */
  lemma ParseDateExactly(s: string, d: CalendarDate)
    requires FourDigitYear(d)
    ensures ParseDate(s) == Ok(d) <==> Format(d) == s
  {
    if ParseDate(s) == Ok(d) {
      FormatParse(s);
    }
    if Format(d) == s {
      ParseFormat(d);
    }
  }
}
