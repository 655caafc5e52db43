/**
 * Proleptic Gregorian calendar dates, standing in for what
 * `datetime.strptime(s, "%Y-%m-%d")` and `datetime.fromisoformat(s)` accept
 * and for `date.isoformat()`.
 */
module Calendar {
  import opened Strings

  datatype Date = Date(year: int, month: int, day: int)

  predicate IsLeapYear(y: int) {
    y % 4 == 0 && (y % 100 != 0 || y % 400 == 0)
  }

  function DaysInMonth(y: int, m: int): (n: int)
    requires 1 <= m <= 12
    ensures 28 <= n <= 31
  {
    if m == 2 then (if IsLeapYear(y) then 29 else 28)
    else if m == 4 || m == 6 || m == 9 || m == 11 then 30
    else 31
  }

  /** A date `datetime` can represent: years 1..9999, a real month, and a
      day that month has in that year. */
  predicate IsValid(d: Date)
    ensures IsValid(d) ==> 1 <= d.month <= 12 && 1 <= d.day <= 31
    ensures IsValid(d) && d.month == 2 && d.day == 29 ==> IsLeapYear(d.year)
  {
    1 <= d.year <= 9999 && 1 <= d.month <= 12 && 1 <= d.day <= DaysInMonth(d.year, d.month)
  }

  /** Chronological order: by year, then month, then day. */
  predicate Before(a: Date, b: Date) {
    a.year < b.year
    || (a.year == b.year && a.month < b.month)
    || (a.year == b.year && a.month == b.month && a.day < b.day)
  }

  /** An integer that orders valid dates as the calendar does; it plays the
      part of `datetime.timestamp()` (also positive and strictly increasing
      over the dates the file names can carry). */
  function Key(d: Date): int {
    d.year * 10000 + d.month * 100 + d.day
  }

  lemma KeyIsChronological(a: Date, b: Date)
    requires IsValid(a) && IsValid(b)
    ensures Key(a) < Key(b) <==> Before(a, b)
    ensures Key(a) == Key(b) <==> a == b
    ensures Key(a) > 0
  {
  }

  /** Zero-padded decimal of a number below 100 (`%02d`). */
  function TwoDigits(n: nat): (s: string)
    requires n < 100
    ensures |s| == 2 && IsDigits(s)
  {
    [DigitChar(n / 10), DigitChar(n % 10)]
  }

  /** Zero-padded decimal of a number below 10000 (`%04d`). */
  function FourDigits(n: nat): (s: string)
    requires n < 10000
    ensures |s| == 4 && IsDigits(s)
  {
    TwoDigits(n / 100) + TwoDigits(n % 100)
  }

  /** `date.isoformat()`: `YYYY-MM-DD`. */
  function IsoFormat(d: Date): (s: string)
    requires IsValid(d)
    ensures |s| == 10 && s[4] == '-' && s[7] == '-'
  {
    FourDigits(d.year) + "-" + TwoDigits(d.month) + "-" + TwoDigits(d.day)
  }

  /** Reading two digits and writing them back with `%02d` gives them back. */
  lemma TwoDigitsRoundTrip(t: string)
    requires |t| == 2 && IsDigits(t)
    ensures DecimalValue(t) < 100 && TwoDigits(DecimalValue(t)) == t
  {
    TwoDigitsValue(t);
  }

  /** The value of two digits: tens, then units. */
  lemma TwoDigitsValue(t: string)
    requires |t| == 2 && IsDigits(t)
    ensures DecimalValue(t) == DigitValue(t[0]) * 10 + DigitValue(t[1])
  {
    assert t[..1][..0] == [];
    assert DecimalValue(t[..1]) == DigitValue(t[0]);
  }

  /** Reading four digits and writing them back with `%04d` gives them back. */
  lemma FourDigitsRoundTrip(t: string)
    requires |t| == 4 && IsDigits(t)
    ensures DecimalValue(t) < 10000 && FourDigits(DecimalValue(t)) == t
  {
    var hi, lo := DecimalValue(t[..2]), DecimalValue(t[2..]);
    FourDigitsSplit(t);
    TwoDigitsRoundTrip(t[..2]);
    TwoDigitsRoundTrip(t[2..]);
    DivModHundred(hi, lo);
    assert t == t[..2] + t[2..];
  }

  lemma FourDigitsSplit(t: string)
    requires |t| == 4 && IsDigits(t)
    ensures DecimalValue(t) == DecimalValue(t[..2]) * 100 + DecimalValue(t[2..])
  {
    assert t[..3][..2] == t[..2] && t[..2][..1] == t[..1] && t[..1][..0] == [];
    var d0, d1, d2, d3 := DigitValue(t[0]), DigitValue(t[1]), DigitValue(t[2]), DigitValue(t[3]);
    assert DecimalValue(t[..1]) == d0;
    assert DecimalValue(t[..2]) == d0 * 10 + d1;
    assert DecimalValue(t[..3]) == (d0 * 10 + d1) * 10 + d2;
    var u := t[2..];
    assert u[..1] == t[2..3] && u[..1][..0] == [];
    assert DecimalValue(u[..1]) == d2;
    assert DecimalValue(u) == d2 * 10 + d3;
  }

  lemma DivModHundred(hi: nat, lo: nat)
    requires lo < 100
    ensures (hi * 100 + lo) / 100 == hi && (hi * 100 + lo) % 100 == lo
  {
  }
}
