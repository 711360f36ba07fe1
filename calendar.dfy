/** Proleptic Gregorian calendar dates as Python's `datetime` has them
    (years 1 to 9999), the "next calendar day" that adding one day gives,
    and the `%y%b%d` date token, upper-cased, that market tickers embed. */
module Calendar {
  import opened Wrappers

  datatype Date = Date(year: int, month: int, day: int)

  const MinYear := 1
  const MaxYear := 9999

  /** The last date Python's `datetime` can represent. */
  const LastDate := Date(MaxYear, 12, 31)

  predicate IsLeapYear(y: int) {
    y % 4 == 0 && (y % 100 != 0 || y % 400 == 0)
  }

  function DaysInMonth(y: int, m: int): (n: int)
    requires 1 <= m <= 12
    ensures 28 <= n <= 31
    ensures m == 2 ==> (n == 29 <==> IsLeapYear(y))
  {
    if m == 2 then (if IsLeapYear(y) then 29 else 28)
    else if m == 4 || m == 6 || m == 9 || m == 11 then 30
    else 31
  }

  predicate Valid(d: Date) {
    MinYear <= d.year <= MaxYear && 1 <= d.month <= 12 && 1 <= d.day <= DaysInMonth(d.year, d.month)
  }

  /** A date Python's `datetime` can hold. */
  type ValidDate = d: Date | Valid(d) witness Date(1970, 1, 1)

  /** Lexicographic (chronological) order on dates. */
  predicate Before(a: Date, b: Date) {
    a.year < b.year
    || (a.year == b.year && a.month < b.month)
    || (a.year == b.year && a.month == b.month && a.day < b.day)
  }

  /** The next calendar day. It is the least valid date after `d`. */
  function NextDay(d: Date): (e: Date)
    requires Valid(d) && d != LastDate
    ensures Valid(e) && Before(d, e)
    ensures forall x :: Valid(x) && Before(d, x) ==> !Before(x, e)
  {
    if d.day < DaysInMonth(d.year, d.month) then Date(d.year, d.month, d.day + 1)
    else if d.month < 12 then Date(d.year, d.month + 1, 1)
    else Date(d.year + 1, 1, 1)
  }

  /** Today, or today plus one day when `today` is false; Python raises an
      overflow error past the last representable date. */
  function TargetDate(now: Date, today: bool): (r: Result<Date, string>)
    requires Valid(now)
    ensures r.Err? <==> !today && now == LastDate
    ensures r.Ok? ==> Valid(r.value)
    ensures r.Ok? && today ==> r.value == now
    ensures r.Ok? && !today ==> r.value == NextDay(now)
  {
    if today then Ok(now)
    else if now == LastDate then Err("date value out of range")
    else Ok(NextDay(now))
  }

  function Digit(n: int): (c: char)
    requires 0 <= n < 10
    ensures '0' <= c <= '9'
  {
    "0123456789"[n]
  }

  function DigitValue(c: char): int {
    c as int - '0' as int
  }

  /** `%y` and `%d`: zero-padded two decimal digits. */
  function TwoDigits(n: int): (s: string)
    requires 0 <= n < 100
    ensures |s| == 2
  {
    [Digit(n / 10), Digit(n % 10)]
  }

  const MonthNames: seq<string> :=
    ["Jan", "Feb", "Mar", "Apr", "May", "Jun", "Jul", "Aug", "Sep", "Oct", "Nov", "Dec"]

  /** `%b` in the C locale. */
  function MonthAbbrev(m: int): (s: string)
    requires 1 <= m <= 12
    ensures |s| == 3
  {
    MonthNames[m - 1]
  }

  /** `date.strftime("%y%b%d")`. */
  function Strftime(d: Date): (s: string)
    requires Valid(d)
    ensures |s| == 7
  {
    TwoDigits(d.year % 100) + MonthAbbrev(d.month) + TwoDigits(d.day)
  }

  function UpperChar(c: char): (u: char) {
    if 'a' <= c <= 'z' then (c as int - 'a' as int + 'A' as int) as char else c
  }

  /** `str.upper()` restricted to ASCII, the only characters a token holds. */
  function Upper(s: string): (u: string)
    ensures |u| == |s|
    ensures forall i :: 0 <= i < |s| ==> u[i] == UpperChar(s[i])
  {
    seq(|s|, i requires 0 <= i < |s| => UpperChar(s[i]))
  }

  /** The date token `%y%b%d` upper-cased, e.g. 24MAR05. */
  function DateToken(d: Date): (t: string)
    requires Valid(d)
    ensures |t| == 7
    ensures forall i :: 0 <= i < 7 ==> t[i] == UpperChar(Strftime(d)[i])
  {
    Upper(Strftime(d))
  }

  /** The fields a token spells out: year modulo 100, month and day. */
  datatype TokenFields = TokenFields(yy: int, month: int, day: int)

  function ParseTwoDigits(s: string): Option<int>
    requires |s| == 2
  {
    if '0' <= s[0] <= '9' && '0' <= s[1] <= '9' then Some(10 * DigitValue(s[0]) + DigitValue(s[1]))
    else None
  }

  /** The month number (1-12) whose upper-cased abbreviation is `s`. */
  function ParseMonth(s: string): Option<int> {
    if s == "JAN" then Some(1) else if s == "FEB" then Some(2) else if s == "MAR" then Some(3)
    else if s == "APR" then Some(4) else if s == "MAY" then Some(5) else if s == "JUN" then Some(6)
    else if s == "JUL" then Some(7) else if s == "AUG" then Some(8) else if s == "SEP" then Some(9)
    else if s == "OCT" then Some(10) else if s == "NOV" then Some(11) else if s == "DEC" then Some(12)
    else None
  }

  /** Reads a seven-character token back into its fields. */
  function ParseToken(s: string): Option<TokenFields> {
    if |s| != 7 then None
    else
      match (ParseTwoDigits(s[..2]), ParseMonth(s[2..5]), ParseTwoDigits(s[5..]))
      case (Some(yy), Some(m), Some(dd)) => Some(TokenFields(yy, m, dd))
      case _ => None
  }

  lemma TwoDigitsRoundTrip(n: int)
    requires 0 <= n < 100
    ensures ParseTwoDigits(Upper(TwoDigits(n))) == Some(n)
  {
    var s := Upper(TwoDigits(n));
    assert s[0] == Digit(n / 10) && s[1] == Digit(n % 10);
    assert DigitValue(Digit(n / 10)) == n / 10;
    assert DigitValue(Digit(n % 10)) == n % 10;
  }

  lemma MonthRoundTrip(m: int)
    requires 1 <= m <= 12
    ensures ParseMonth(Upper(MonthAbbrev(m))) == Some(m)
  {
    var u := Upper(MonthAbbrev(m));
    if m == 1 { assert u == "JAN"; } else if m == 2 { assert u == "FEB"; }
    else if m == 3 { assert u == "MAR"; } else if m == 4 { assert u == "APR"; }
    else if m == 5 { assert u == "MAY"; } else if m == 6 { assert u == "JUN"; }
    else if m == 7 { assert u == "JUL"; } else if m == 8 { assert u == "AUG"; }
    else if m == 9 { assert u == "SEP"; } else if m == 10 { assert u == "OCT"; }
    else if m == 11 { assert u == "NOV"; } else { assert u == "DEC"; }
  }

  /** The token is seven characters and reads back as the date's two-digit
      year, month and day. */
  lemma TokenRoundTrip(d: Date)
    requires Valid(d)
    ensures |DateToken(d)| == 7
    ensures ParseToken(DateToken(d)) == Some(TokenFields(d.year % 100, d.month, d.day))
  {
    var y, m, dd := TwoDigits(d.year % 100), MonthAbbrev(d.month), TwoDigits(d.day);
    var t := DateToken(d);
    assert t == Upper(y) + Upper(m) + Upper(dd);
    assert t[..2] == Upper(y) && t[2..5] == Upper(m) && t[5..] == Upper(dd);
    TwoDigitsRoundTrip(d.year % 100);
    MonthRoundTrip(d.month);
    TwoDigitsRoundTrip(d.day);
  }

  /** Two dates share a token exactly when they agree on year modulo 100,
      month and day. */
  lemma TokenInjective(d: Date, e: Date)
    requires Valid(d) && Valid(e)
    ensures DateToken(d) == DateToken(e) <==>
            (d.year % 100 == e.year % 100 && d.month == e.month && d.day == e.day)
  {
    TokenRoundTrip(d);
    TokenRoundTrip(e);
  }

  /** Today's and tomorrow's tokens always differ, so the day a caller asks
      for selects different contracts. */
  lemma TodayTomorrowTokensDiffer(d: Date)
    requires Valid(d) && d != LastDate
    ensures DateToken(d) != DateToken(NextDay(d))
  {
    TokenInjective(d, NextDay(d));
  }

  lemma TokenExample()
    ensures DateToken(Date(2024, 3, 5)) == "24MAR05"
    ensures DateToken(NextDay(Date(2024, 2, 28))) == "24FEB29"
    ensures DateToken(NextDay(Date(2023, 12, 31))) == "24JAN01"
  {
    assert Strftime(Date(2024, 3, 5)) == "24Mar05";
    assert Strftime(Date(2024, 2, 29)) == "24Feb29";
    assert Strftime(Date(2024, 1, 1)) == "24Jan01";
  }
}
