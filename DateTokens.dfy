/**
 * The two date regular expressions the routers search file names with, as a
 * scanner for the leftmost match (`re.search`). Both patterns match exactly
 * ten characters, so the leftmost match is the first position whose
 * ten-character window fits the pattern.
 *
 *   Loose:  20[0-9]{2}[-_][01][0-9][-_][0-3][0-9]
 *   Strict: (20[0-9]{2})[-_](0[1-9]|1[0-2])[-_](0[1-9]|[12][0-9]|3[01])
 */
module DateTokens {
  import opened Wrappers
  import opened Strings
  import opened Calendar

  datatype Pattern = Loose | Strict

  /** Every match is this long. */
  const Width := 10

  predicate IsSep(c: char) { c == '-' || c == '_' }

  predicate StrictMonth(a: char, b: char) {
    (a == '0' && '1' <= b <= '9') || (a == '1' && '0' <= b <= '2')
  }

  predicate StrictDay(a: char, b: char) {
    (a == '0' && '1' <= b <= '9') || ('1' <= a <= '2' && IsDigit(b)) || (a == '3' && '0' <= b <= '1')
  }

  /** The window `s[i..i + 10]` matches pattern `p`. */
  predicate MatchesAt(p: Pattern, s: string, i: nat)
    requires i + Width <= |s|
  {
    && s[i] == '2' && s[i + 1] == '0' && IsDigit(s[i + 2]) && IsDigit(s[i + 3])
    && IsSep(s[i + 4]) && IsDigit(s[i + 6]) && IsSep(s[i + 7]) && IsDigit(s[i + 9])
    && match p
       case Loose => '0' <= s[i + 5] <= '1' && '0' <= s[i + 8] <= '3'
       case Strict => StrictMonth(s[i + 5], s[i + 6]) && StrictDay(s[i + 8], s[i + 9])
  }

  /** The leftmost match at or after position `i`. */
  function SearchFrom(p: Pattern, s: string, i: nat): (r: Option<nat>)
    decreases |s| - i
    ensures r.Some? ==> i <= r.value && r.value + Width <= |s| && MatchesAt(p, s, r.value)
    ensures r.Some? ==> forall j :: i <= j < r.value ==> !MatchesAt(p, s, j)
    ensures r.None? ==> forall j :: i <= j && j + Width <= |s| ==> !MatchesAt(p, s, j)
  {
    if |s| < i + Width then None
    else if MatchesAt(p, s, i) then Some(i)
    else SearchFrom(p, s, i + 1)
  }

  /** `re.search(pattern, s)`, as the start of the match. */
  function Search(p: Pattern, s: string): (r: Option<nat>)
    ensures r.Some? ==> r.value + Width <= |s| && MatchesAt(p, s, r.value)
    ensures r.Some? ==> forall j :: 0 <= j < r.value ==> !MatchesAt(p, s, j)
    ensures r.None? ==> forall j :: 0 <= j && j + Width <= |s| ==> !MatchesAt(p, s, j)
  {
    SearchFrom(p, s, 0)
  }

  /** Every strict match is a loose match. */
  lemma StrictIsLoose(s: string, i: nat)
    requires i + Width <= |s| && MatchesAt(Strict, s, i)
    ensures MatchesAt(Loose, s, i)
  {
  }

  /** The date a matched window spells: year, month and day digits. */
  function TokenDate(s: string, i: nat): (d: Date)
    requires i + Width <= |s| && MatchesAt(Loose, s, i)
    ensures 2000 <= d.year <= 2099 && 0 <= d.month <= 19 && 0 <= d.day <= 39
    ensures d.year == 2000 + DigitValue(s[i + 2]) * 10 + DigitValue(s[i + 3])
    ensures d.month == DigitValue(s[i + 5]) * 10 + DigitValue(s[i + 6])
    ensures d.day == DigitValue(s[i + 8]) * 10 + DigitValue(s[i + 9])
  {
    var y, m, dd := s[i..i + 4], s[i + 5..i + 7], s[i + 8..i + 10];
    assert IsDigits(y) && IsDigits(m) && IsDigits(dd);
    FourDigitsSplit(y);
    assert y[..2][0] == '2' && y[..2][1] == '0';
    assert y[2..][0] == s[i + 2] && y[2..][1] == s[i + 3];
    TwoDigitsValue(y[..2]);
    TwoDigitsValue(y[2..]);
    TwoDigitsValue(m);
    TwoDigitsValue(dd);
    Date(DecimalValue(y), DecimalValue(m), DecimalValue(dd))
  }

  /** The matched window with `_` replaced by `-` (`.replace("_", "-")`). */
  function Dashed(s: string, i: nat): (t: string)
    requires i + Width <= |s|
    ensures |t| == Width
  {
    seq(Width, k requires 0 <= k < Width => if s[i + k] == '_' then '-' else s[i + k])
  }

  /** Writing the parsed date back in ISO form gives the matched window with
      dashes for separators. */
  lemma {:induction false} IsoOfToken(s: string, i: nat)
    requires i + Width <= |s| && MatchesAt(Loose, s, i) && IsValid(TokenDate(s, i))
    ensures IsoFormat(TokenDate(s, i)) == Dashed(s, i)
  {
    var y, m, dd := s[i..i + 4], s[i + 5..i + 7], s[i + 8..i + 10];
    FourDigitsRoundTrip(y);
    TwoDigitsRoundTrip(m);
    TwoDigitsRoundTrip(dd);
    var iso := IsoFormat(TokenDate(s, i));
    assert iso == y + "-" + m + "-" + dd;
    forall k | 0 <= k < Width
      ensures iso[k] == Dashed(s, i)[k]
    {
    }
  }

  /** Every valid date of this century, written in ISO form, is a window
      both patterns accept, and it reads back as the same date. */
  lemma TokenOfIso(d: Date)
    requires IsValid(d) && 2000 <= d.year <= 2099
    ensures MatchesAt(Loose, IsoFormat(d), 0) && MatchesAt(Strict, IsoFormat(d), 0)
    ensures TokenDate(IsoFormat(d), 0) == d
  {
    var iso := IsoFormat(d);
    var yy := d.year % 100;
    assert d.year / 100 == 20 && d.year == 2000 + yy;
    assert iso == TwoDigits(20) + TwoDigits(yy) + "-" + TwoDigits(d.month) + "-" + TwoDigits(d.day);
    assert iso[0] == '2' && iso[1] == '0';
    assert iso[2] == DigitChar(yy / 10) && iso[3] == DigitChar(yy % 10);
    assert iso[5] == DigitChar(d.month / 10) && iso[6] == DigitChar(d.month % 10);
    assert iso[8] == DigitChar(d.day / 10) && iso[9] == DigitChar(d.day % 10);
  }

  /** The date a name carries: its leftmost loose match, when that is a real
      calendar date (`strptime`/`fromisoformat` raise otherwise, and no later
      match is tried). */
  function LeadingDate(name: string): (r: Option<Date>)
    ensures r.Some? <==> Search(Loose, name).Some? && IsValid(TokenDate(name, Search(Loose, name).value))
    ensures r.Some? ==> IsValid(r.value) && 2000 <= r.value.year <= 2099
    ensures r.Some? ==> IsoFormat(r.value) == Dashed(name, Search(Loose, name).value)
  {
    match Search(Loose, name)
    case None => None
    case Some(i) =>
      var d := TokenDate(name, i);
      if IsValid(d) then IsoOfToken(name, i); Some(d) else None
  }
}
