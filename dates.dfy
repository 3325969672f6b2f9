/** Python's `datetime.datetime.strptime(token, "%Y-%m-%d").date()`: the
    directive patterns of `_strptime` for `%Y`, `%m` and `%d`, then the range
    checks of `datetime.date`. */
module Dates {
  import opened Wrappers
  import opened Text

  datatype Date = Date(year: int, month: int, day: int)

  predicate IsLeapYear(y: int)
  {
    y % 4 == 0 && (y % 100 != 0 || y % 400 == 0)
  }

  function DaysInMonth(y: int, m: int): int
    requires 1 <= m <= 12
  {
    if m == 2 then (if IsLeapYear(y) then 29 else 28)
    else if m == 4 || m == 6 || m == 9 || m == 11 then 30
    else 31
  }

  /** What `datetime.date(year, month, day)` accepts: years 1 to 9999, and
      a day that exists in that month of that year. */
  predicate ValidDate(d: Date)
  {
    1 <= d.year <= 9999 && 1 <= d.month <= 12 && 1 <= d.day <= DaysInMonth(d.year, d.month)
  }

  predicate IsDigit(c: char)
  {
    '0' <= c <= '9'
  }

  predicate AllDigits(s: string)
  {
    forall i :: 0 <= i < |s| ==> IsDigit(s[i])
  }

  /** The decimal value of a string of digits. */
  function NumberValue(s: string): nat
    requires AllDigits(s)
  {
    if s == [] then 0
    else NumberValue(s[..|s| - 1]) * 10 + (s[|s| - 1] as int - '0' as int)
  }

  /** `%m`: `1[0-2]|0[1-9]|[1-9]`, that is one or two digits worth 1 to 12. */
  function MonthField(s: string): Option<int>
  {
    if 1 <= |s| <= 2 && AllDigits(s) && 1 <= NumberValue(s) <= 12 then Some(NumberValue(s))
    else None
  }

  /** `%d`: `3[01]|[12]\d|0[1-9]|[1-9]| [1-9]`, that is one or two digits
      worth 1 to 31, or a space followed by a non-zero digit. */
  function DayField(s: string): Option<int>
  {
    if 1 <= |s| <= 2 && AllDigits(s) && 1 <= NumberValue(s) <= 31 then Some(NumberValue(s))
    else if |s| == 2 && s[0] == ' ' && '1' <= s[1] <= '9' then Some(s[1] as int - '0' as int)
    else None
  }

  /** `strptime(token, "%Y-%m-%d").date()`, with None for the ValueError it
      raises: four digits, a dash, the month field up to the next dash, then
      the day field up to the end of the token, naming an existing day. */
  function ParseDate(token: string): (r: Option<Date>)
    ensures r.Some? ==> ValidDate(r.value)
  {
    if |token| < 5 || !AllDigits(token[..4]) || token[4] != '-' then None
    else
      var rest := token[5..];
      match FindFrom(rest, "-", 0)
      case None => None
      case Some(j) =>
        var month := MonthField(rest[..j]);
        var day := DayField(rest[j + 1..]);
        if month.None? || day.None? then None
        else
          var d := Date(NumberValue(token[..4]), month.value, day.value);
          if ValidDate(d) then Some(d) else None
  }

  function DigitChar(n: int): char
    requires 0 <= n <= 9
  {
    ('0' as int + n) as char
  }

  /** `n` written in decimal with exactly `width` digits, zeros in front. */
  function Padded(n: nat, width: nat): (s: string)
    ensures |s| == width && AllDigits(s)
  {
    if width == 0 then ""
    else Padded(n / 10, width - 1) + [DigitChar(n % 10)]
  }

  function Pow10(k: nat): nat
  {
    if k == 0 then 1 else 10 * Pow10(k - 1)
  }

  /** The zero-padded `YYYY-MM-DD` form of a date, as `date.isoformat()`
      writes it. */
  function FormatDate(d: Date): string
    requires ValidDate(d)
  {
    Padded(d.year, 4) + "-" + Padded(d.month, 2) + "-" + Padded(d.day, 2)
  }

  /** Padding loses nothing when the number fits in the width. */
  lemma {:induction false} PaddedValue(n: nat, width: nat)
    requires n < Pow10(width)
    ensures NumberValue(Padded(n, width)) == n
  {
    if width > 0 {
      PaddedValue(n / 10, width - 1);
      var s := Padded(n, width);
      assert s[..|s| - 1] == Padded(n / 10, width - 1);
    }
  }

  /** A string of digits is the padded form of its own value. */
  lemma {:induction false} ValuePadded(s: string)
    requires AllDigits(s)
    ensures NumberValue(s) < Pow10(|s|)
    ensures Padded(NumberValue(s), |s|) == s
  {
    if s != [] {
      var front := s[..|s| - 1];
      ValuePadded(front);
      var v := NumberValue(s);
      var c := s[|s| - 1] as int - '0' as int;
      assert v / 10 == NumberValue(front) && v % 10 == c;
      assert s == front + [s[|s| - 1]];
    }
  }

  /** Every valid date comes back from parsing its `YYYY-MM-DD` form. */
  lemma ParseFormat(d: Date)
    requires ValidDate(d)
    ensures ParseDate(FormatDate(d)) == Some(d)
  {
    var y, m, dd := Padded(d.year, 4), Padded(d.month, 2), Padded(d.day, 2);
    PaddedValue(d.year, 4);
    PaddedValue(d.month, 2);
    PaddedValue(d.day, 2);
    var t := FormatDate(d);
    assert t[..4] == y && t[4] == '-';
    var rest := t[5..];
    assert rest == m + "-" + dd;
    assert |rest| == 5 && rest[2..3] == "-";
    assert rest[0] == m[0] && rest[1] == m[1] && IsDigit(m[0]) && IsDigit(m[1]);
    assert rest[0..1] != "-" && rest[1..2] != "-";
    assert FindFrom(rest, "-", 2) == Some(2);
    assert FindFrom(rest, "-", 1) == Some(2);
    assert FindFrom(rest, "-", 0) == Some(2);
    assert rest[..2] == m && rest[3..] == dd;
  }

  /** A ten-character token without spaces that parses is exactly the
      zero-padded form of the date it denotes. */
  lemma FormatParse(token: string)
    requires ParseDate(token).Some?
    requires |token| == 10 && ' ' !in token
    ensures FormatDate(ParseDate(token).value) == token
  {
    var d := ParseDate(token).value;
    var rest := token[5..];
    var j := FindFrom(rest, "-", 0).value;
    FindFromSpec(rest, "-", 0);
    var ms, ds := rest[..j], rest[j + 1..];
    assert ds[0] in token;
    ValuePadded(token[..4]);
    ValuePadded(ms);
    ValuePadded(ds);
    assert token == token[..4] + "-" + ms + "-" + ds;
  }

  /** Every token the parser accepts is the year's four digits, a dash, a
      month field, a dash and a day field (one or two digits, or a space
      and a digit for the day), and the fields' values are the date's. */
  lemma ParsedFields(token: string)
    requires ParseDate(token).Some?
    ensures var d := ParseDate(token).value;
      exists ms, ds :: token == Padded(d.year, 4) + "-" + ms + "-" + ds &&
        MonthField(ms) == Some(d.month) && DayField(ds) == Some(d.day)
  {
    var d := ParseDate(token).value;
    var rest := token[5..];
    var j := FindFrom(rest, "-", 0).value;
    FindFromSpec(rest, "-", 0);
    var ms, ds := rest[..j], rest[j + 1..];
    ValuePadded(token[..4]);
    assert token == token[..4] + "-" + ms + "-" + ds;
    assert MonthField(ms) == Some(d.month) && DayField(ds) == Some(d.day);
  }

  /** Conversely, four year digits, a month field and a day field joined by
      dashes parse to the date they name, or fail when no such day exists. */
  lemma FieldsParse(year: string, ms: string, ds: string)
    requires |year| == 4 && AllDigits(year)
    requires MonthField(ms).Some? && DayField(ds).Some?
    ensures var d := Date(NumberValue(year), MonthField(ms).value, DayField(ds).value);
      ParseDate(year + "-" + ms + "-" + ds) == (if ValidDate(d) then Some(d) else None)
  {
    var token := year + "-" + ms + "-" + ds;
    var rest := token[5..];
    assert token[..4] == year && token[4] == '-';
    assert rest == ms + "-" + ds;
    FirstDash(ms, ds);
    assert rest[..|ms|] == ms && rest[|ms| + 1..] == ds;
  }

  /** The first dash after a digit string is the one that follows it. */
  lemma FirstDash(ms: string, ds: string)
    requires AllDigits(ms)
    ensures FindFrom(ms + "-" + ds, "-", 0) == Some(|ms|)
  {
    var rest := ms + "-" + ds;
    assert OccursAt(rest, "-", |ms|);
    forall k | 0 <= k < |ms| ensures !OccursAt(rest, "-", k) {
      assert rest[k..k + 1] == [ms[k]] && IsDigit(ms[k]);
    }
    FindFromSpec(rest, "-", 0);
  }
}
