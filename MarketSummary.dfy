/**
 * The `/market/summary/{ticker}` endpoint: locate the newest end-of-day CSV
 * in the data directory, find the row a ticker names by five passes of
 * decreasing strictness, and build the summary record from that row.
 */
module MarketSummary {
  import opened Wrappers
  import opened Strings
  import opened Calendar
  import opened DateTokens
  import opened Selection
  import opened Tables

  // ---------------------------------------------------------------------
  // Locating the dataset
  // ---------------------------------------------------------------------

  /** `f.lower().endswith(".csv")` */
  predicate IsCsvName(name: string) {
    EndsWith(Lower(name), ".csv")
  }

  /** The `.csv` entries of a listing, any case, in listing order. */
  function CsvFiles(listing: seq<Entry>): (files: seq<Entry>)
    ensures forall e :: e in files <==> e in listing && IsCsvName(e.name)
  {
    if listing == [] then []
    else
      var init, last := listing[..|listing| - 1], listing[|listing| - 1];
      assert listing == init + [last];
      CsvFiles(init) + (if IsCsvName(last.name) then [last] else [])
  }

  /** Each file whose first date token is a real date, with that date, in
      the order of `files`. */
  function DatedFiles(files: seq<Entry>): (dated: seq<(Date, Entry)>)
    ensures forall p :: p in dated <==> p.1 in files && LeadingDate(p.1.name) == Some(p.0)
    ensures dated == [] <==> forall f :: f in files ==> LeadingDate(f.name).None?
    ensures forall i :: 0 <= i < |dated| ==> IsValid(dated[i].0)
  {
    if files == [] then []
    else
      var init, last := files[..|files| - 1], files[|files| - 1];
      assert files == init + [last];
      DatedFiles(init) + (match LeadingDate(last.name) case Some(d) => [(d, last)] case None => [])
  }

  function DateScores(dated: seq<(Date, Entry)>): seq<Score> {
    seq(|dated|, i requires 0 <= i < |dated| => Score(Key(dated[i].0), 0))
  }

  function MtimeScores(files: seq<Entry>): seq<Score> {
    seq(|files|, i requires 0 <= i < |files| => Score(files[i].mtime, 0))
  }

  /** A `.csv` entry whose name carries a real date. */
  predicate IsDatedCsv(e: Entry) {
    IsCsvName(e.name) && LeadingDate(e.name).Some?
  }

  /** The dataset file for a listing of the data directory (None: the
      directory does not exist): the first file with the latest name date,
      or, when no name carries a date, the first with the latest mtime. */
  function LatestCsv(listing: Option<seq<Entry>>): (r: Option<Entry>)
    ensures r.Some? ==> listing.Some? && r.value in listing.value && IsCsvName(r.value.name)
  {
    if listing.None? then None
    else
      var files := CsvFiles(listing.value);
      if files == [] then None
      else
        var dated := DatedFiles(files);
        if dated != [] then Some(dated[FirstMax(DateScores(dated))].1)
        else Some(files[FirstMax(MtimeScores(files))])
  }

  /** There is no dataset exactly when there is no directory or no `.csv`
      file in it. */
  lemma LatestCsvExists(listing: Option<seq<Entry>>)
    ensures LatestCsv(listing).None? <==> listing.None? || forall e :: e in listing.value ==> !IsCsvName(e.name)
  {
    if listing.Some? && exists e :: e in listing.value && IsCsvName(e.name) {
      var e :| e in listing.value && IsCsvName(e.name);
      assert e in CsvFiles(listing.value);
    }
  }

  /** Among valid dates, the first greatest key is a latest date. */
  lemma FirstMaxIsLatest(dated: seq<(Date, Entry)>, j: nat)
    requires forall i :: 0 <= i < |dated| ==> IsValid(dated[i].0)
    requires j < |dated|
    ensures !Before(dated[FirstMax(DateScores(dated))].0, dated[j].0)
  {
    var scores := DateScores(dated);
    var k := FirstMax(scores);
    assert !Below(scores[k], scores[j]);
    KeyIsChronological(dated[k].0, dated[j].0);
  }

  /** A file whose name carries a date is never passed over for an undated
      one or for an earlier date. */
  lemma LatestCsvPrefersDates(listing: Option<seq<Entry>>, e: Entry)
    requires listing.Some? && e in listing.value && IsDatedCsv(e)
    ensures LatestCsv(listing).Some? && IsDatedCsv(LatestCsv(listing).value)
    ensures !Before(LeadingDate(LatestCsv(listing).value.name).value, LeadingDate(e.name).value)
  {
    var files := CsvFiles(listing.value);
    assert e in files;
    var dated := DatedFiles(files);
    var p := (LeadingDate(e.name).value, e);
    assert p in dated;
    var j :| 0 <= j < |dated| && dated[j] == p;
    var k := FirstMax(DateScores(dated));
    assert LatestCsv(listing) == Some(dated[k].1);
    FirstMaxIsLatest(dated, j);
    assert dated[k] in dated;
    assert LeadingDate(dated[k].1.name) == Some(dated[k].0);
  }

  /** When no name carries a date, no `.csv` file is newer than the one
      chosen. */
  lemma LatestCsvByMtime(listing: Option<seq<Entry>>, e: Entry)
    requires listing.Some? && forall f :: f in listing.value ==> !IsDatedCsv(f)
    requires e in listing.value && IsCsvName(e.name)
    ensures LatestCsv(listing).Some? && e.mtime <= LatestCsv(listing).value.mtime
  {
    var files := CsvFiles(listing.value);
    assert e in files;
    var dated := DatedFiles(files);
    var scores := MtimeScores(files);
    var k := FirstMax(scores);
    var j :| 0 <= j < |files| && files[j] == e;
    assert !Below(scores[k], scores[j]);
  }

  /** The loop that fills `date_files`, skipping names whose token does
      not parse. */
  method CollectDated(files: seq<Entry>) returns (dated: seq<(Date, Entry)>)
    ensures dated == DatedFiles(files)
  {
    dated := [];
    for i := 0 to |files|
      invariant dated == DatedFiles(files[..i])
    {
      assert files[..i + 1][..i] == files[..i];
      match LeadingDate(files[i].name)
      case Some(d) => dated := dated + [(d, files[i])];
      case None =>
    }
    assert files[..|files|] == files;
  }

  /** `find_latest_csv`: builds `date_files` in one pass over `files`, then
      takes element 0 of the stable descending sort. */
  method FindLatestCsv(listing: Option<seq<Entry>>) returns (latest: Option<Entry>)
    ensures latest == LatestCsv(listing)
  {
    if listing.None? {
      return None;
    }
    var files := CsvFiles(listing.value);
    if files == [] {
      return None;
    }
    var dated := CollectDated(files);
    if dated != [] {
      latest := Some(dated[FirstMax(DateScores(dated))].1);
    } else {
      latest := Some(files[FirstMax(MtimeScores(files))]);
    }
  }

  // ---------------------------------------------------------------------
  // Reading columns of a row
  // ---------------------------------------------------------------------

  /** `k.strip().lower() == c.lower()` */
  predicate HeaderIs(cell: Cell, c: string) {
    Lower(Strip(cell.header)) == Lower(c)
  }

  function StripValue(v: Option<string>): Option<string> {
    match v
    case None => None
    case Some(s) => Some(Strip(s))
  }

  /** The first column, in row order, whose header is `c`. */
  function ColumnOf(row: Row, c: string): (r: Option<nat>)
    ensures r.Some? ==> r.value < |row| && HeaderIs(row[r.value], c)
    ensures r.Some? ==> forall k :: 0 <= k < r.value ==> !HeaderIs(row[k], c)
    ensures r.None? ==> forall k :: 0 <= k < |row| ==> !HeaderIs(row[k], c)
  {
    FirstWhere(row, cell => HeaderIs(cell, c))
  }

  /** `pick(row, candidates)`: the earliest candidate that names a column
      decides, and among its columns the first; the value comes back
      stripped. No candidate names a column: None. */
  function Pick(row: Row, candidates: seq<string>): (r: Option<string>)
    ensures (forall i :: 0 <= i < |candidates| ==> ColumnOf(row, candidates[i]).None?) ==> r.None?
    ensures forall i ::
      && 0 <= i < |candidates| && ColumnOf(row, candidates[i]).Some?
      && (forall i' :: 0 <= i' < i ==> ColumnOf(row, candidates[i']).None?)
      ==> r == StripValue(row[ColumnOf(row, candidates[i]).value].value)
  {
    match FirstWhere(candidates, c => ColumnOf(row, c).Some?)
    case None => None
    case Some(i) => StripValue(row[ColumnOf(row, candidates[i]).value].value)
  }

  /** `k.strip().lower() in [h.lower() for h in hs]` */
  predicate HeaderAmong(cell: Cell, hs: seq<string>) {
    exists h :: h in hs && Lower(Strip(cell.header)) == Lower(h)
  }

  /** `header_get(row, hs)`: the raw value of the first column, in row
      order, whose header is any of `hs`. */
  function HeaderGet(row: Row, hs: seq<string>): Option<string> {
    if row == [] then None
    else if HeaderAmong(row[0], hs) then row[0].value
    else HeaderGet(row[1..], hs)
  }

  /** The column `header_get` reads is the first that matches, and no
      matching column means no value. */
  lemma {:induction false} HeaderGetFirstColumn(row: Row, hs: seq<string>, k: nat)
    requires k < |row| && HeaderAmong(row[k], hs)
    requires forall j :: 0 <= j < k ==> !HeaderAmong(row[j], hs)
    ensures HeaderGet(row, hs) == row[k].value
  {
    if k > 0 {
      HeaderGetFirstColumn(row[1..], hs, k - 1);
    }
  }

  lemma {:induction false} HeaderGetMissing(row: Row, hs: seq<string>)
    requires forall j :: 0 <= j < |row| ==> !HeaderAmong(row[j], hs)
    ensures HeaderGet(row, hs) == None
  {
    if row != [] {
      HeaderGetMissing(row[1..], hs);
    }
  }

  // ---------------------------------------------------------------------
  // Cleaning values
  // ---------------------------------------------------------------------

  /** `re.sub(r"[^A-Za-z0-9]", "", s)` */
  function AlnumOnly(s: string): (r: string)
    ensures |r| <= |s|
    ensures forall k :: 0 <= k < |r| ==> IsAlnum(r[k])
  {
    if s == [] then [] else (if IsAlnum(s[0]) then [s[0]] else []) + AlnumOnly(s[1..])
  }

  lemma {:induction false} AlnumOnlyKeeps(s: string)
    requires forall k :: 0 <= k < |s| ==> IsAlnum(s[k])
    ensures AlnumOnly(s) == s
  {
    if s != [] {
      AlnumOnlyKeeps(s[1..]);
      assert s == [s[0]] + s[1..];
    }
  }

  lemma {:induction false} AlnumOnlyAppend(a: string, b: string)
    ensures AlnumOnly(a + b) == AlnumOnly(a) + AlnumOnly(b)
  {
    if a == [] {
      assert a + b == b;
    } else {
      var h := if IsAlnum(a[0]) then [a[0]] else [];
      assert (a + b)[0] == a[0] && (a + b)[1..] == a[1..] + b;
      calc {
        AlnumOnly(a + b);
        h + AlnumOnly(a[1..] + b);
        { AlnumOnlyAppend(a[1..], b); }
        h + (AlnumOnly(a[1..]) + AlnumOnly(b));
        (h + AlnumOnly(a[1..])) + AlnumOnly(b);
      }
    }
  }

  /** Whitespace holds no letter or digit. */
  lemma {:induction false} AlnumOnlySpaces(s: string)
    requires forall k :: 0 <= k < |s| ==> IsSpace(s[k])
    ensures AlnumOnly(s) == []
  {
    if s != [] {
      AlnumOnlySpaces(s[1..]);
    }
  }

  /** Stripping a text keeps its letters and digits. */
  lemma AlnumOnlyStrip(s: string)
    ensures AlnumOnly(Strip(s)) == AlnumOnly(s)
  {
    var t := Strip(s);
    var i := LeadingSpace(s);
    var j := i + |t|;
    var a, b := s[..i], s[j..];
    assert s == a + t + b;
    AlnumOnlySpaces(a);
    AlnumOnlySpaces(b);
    AlnumOnlyAppend(a + t, b);
    AlnumOnlyAppend(a, t);
  }

  /** Keeping letters and digits commutes with upper-casing. */
  lemma {:induction false} AlnumOnlyUpper(s: string)
    ensures AlnumOnly(Upper(s)) == Upper(AlnumOnly(s))
  {
    if s != [] {
      var h := if IsAlnum(s[0]) then [s[0]] else [];
      AlnumOnlyUpper(s[1..]);
      assert Upper(s)[0] == UpperChar(s[0]) && Upper(s)[1..] == Upper(s[1..]);
      UpperAppend(h, AlnumOnly(s[1..]));
    }
  }

  /** `normalize_text(s)`: only ASCII letters and digits remain, upper-cased.
      The source also strips the text, which changes nothing here (see
      `NormalizeStripIsNoOp`). */
  function NormalizeText(s: Option<string>): (r: string)
    ensures s.None? ==> r == ""
    ensures forall k :: 0 <= k < |r| ==> IsUpperAscii(r[k]) || IsDigit(r[k])
  {
    match s
    case None => ""
    case Some(x) => Upper(AlnumOnly(x))
  }

  /** The `strip()` in `normalize_text` never removes anything: after the
      substitution no whitespace is left. */
  lemma NormalizeStripIsNoOp(x: string)
    ensures NormalizeText(Some(x)) == Upper(Strip(AlnumOnly(x)))
  {
    StripNoSpace(AlnumOnly(x));
  }

  /** Upper-casing or stripping the text first does not change its
      normalised form. */
  lemma NormalizeUpperStrip(x: string)
    ensures NormalizeText(Some(Upper(x))) == NormalizeText(Some(x))
    ensures NormalizeText(Some(Strip(x))) == NormalizeText(Some(x))
  {
    AlnumOnlyUpper(x);
    UpperIdempotent(AlnumOnly(x));
    AlnumOnlyStrip(x);
  }

  /** Normalising a normalised text changes nothing. */
  lemma NormalizeIdempotent(s: Option<string>)
    ensures NormalizeText(Some(NormalizeText(s))) == NormalizeText(s)
  {
    var r := NormalizeText(s);
    AlnumOnlyKeeps(r);
    assert Upper(r) == r;
  }

  const Rupee: char := '\U{20B9}'

  /** The text `to_float` hands to `float()`: None for a missing or empty
      value, otherwise the value with `,`, `%`, `₹`, `Cr` and `L` removed,
      in that order, and stripped. */
  function CleanNumber(s: Option<string>): (r: Option<string>)
    ensures r.None? <==> s.None? || s.value == ""
  {
    if s.None? || s.value == "" then None
    else Some(Strip(RemoveAll(RemoveAll(RemoveAll(RemoveAll(RemoveAll(s.value, ","), "%"), [Rupee]), "Cr"), "L")))
  }

  /** What reaches `float()` holds no `,`, `%`, `₹` or `L` and has no
      surrounding whitespace. */
  lemma CleanNumberIsBare(s: Option<string>)
    requires CleanNumber(s).Some?
    ensures ',' !in CleanNumber(s).value && '%' !in CleanNumber(s).value
    ensures Rupee !in CleanNumber(s).value && 'L' !in CleanNumber(s).value
    ensures var t := CleanNumber(s).value; t == [] || (!IsSpace(t[0]) && !IsSpace(t[|t| - 1]))
  {
    var x := s.value;
    var a := RemoveAll(x, ",");
    RemoveAllChar(x, ',');
    var b := RemoveAll(a, "%");
    RemoveAllChar(a, '%');
    RemoveAllKeeps(a, "%", ',');
    var c := RemoveAll(b, [Rupee]);
    RemoveAllChar(b, Rupee);
    RemoveAllKeeps(b, [Rupee], ',');
    RemoveAllKeeps(b, [Rupee], '%');
    var d := RemoveAll(c, "Cr");
    RemoveAllKeeps(c, "Cr", ',');
    RemoveAllKeeps(c, "Cr", '%');
    RemoveAllKeeps(c, "Cr", Rupee);
    var e := RemoveAll(d, "L");
    RemoveAllChar(d, 'L');
    RemoveAllKeeps(d, "L", ',');
    RemoveAllKeeps(d, "L", '%');
    RemoveAllKeeps(d, "L", Rupee);
    StripKeeps(e, ',');
    StripKeeps(e, '%');
    StripKeeps(e, Rupee);
    StripKeeps(e, 'L');
  }

  /** Cleaning keeps the characters a number is written with (digits, `.`,
      `-`, `+`), in order: it removes only symbols and whitespace. */
  lemma CleanNumberNumeral(x: string)
    requires x != ""
    ensures Numeral(CleanNumber(Some(x)).value) == Numeral(x)
  {
    var a := RemoveAll(x, ",");
    var b := RemoveAll(a, "%");
    var c := RemoveAll(b, [Rupee]);
    var d := RemoveAll(c, "Cr");
    var e := RemoveAll(d, "L");
    NumeralRemoveAll(x, ",");
    NumeralRemoveAll(a, "%");
    NumeralRemoveAll(b, [Rupee]);
    NumeralRemoveAll(c, "Cr");
    NumeralRemoveAll(d, "L");
    NumeralStrip(e);
  }

  /** A non-empty text with none of the removed symbols and no surrounding
      whitespace reaches `float()` unchanged. */
  lemma CleanNumberKeepsBare(x: string)
    requires x != "" && ',' !in x && '%' !in x && Rupee !in x && 'L' !in x && !Contains(x, "Cr")
    requires !IsSpace(x[0]) && !IsSpace(x[|x| - 1])
    ensures CleanNumber(Some(x)) == Some(x)
  {
    ContainsChar(x, ',');
    RemoveAllAbsent(x, ",");
    ContainsChar(x, '%');
    RemoveAllAbsent(x, "%");
    ContainsChar(x, Rupee);
    RemoveAllAbsent(x, [Rupee]);
    RemoveAllAbsent(x, "Cr");
    ContainsChar(x, 'L');
    RemoveAllAbsent(x, "L");
    StripTrimmed(x);
  }

  /** A crore amount loses its unit and the blank before it:
      `12.5 Cr` reaches `float()` as `12.5`. */
  lemma CleanNumberDropsCr(x: string)
    requires x != "" && forall k :: 0 <= k < |x| ==> IsNumeralChar(x[k])
    ensures CleanNumber(Some(x + " Cr")) == Some(x)
  {
    var s := x + " Cr";
    assert forall k :: 0 <= k < |s| ==> s[k] != ',' && s[k] != '%' && s[k] != Rupee && s[k] != 'L';
    ContainsChar(s, ',');
    RemoveAllAbsent(s, ",");
    ContainsChar(s, '%');
    RemoveAllAbsent(s, "%");
    ContainsChar(s, Rupee);
    RemoveAllAbsent(s, [Rupee]);
    assert s == (x + " ") + "Cr";
    assert 'C' !in x + " ";
    RemoveSuffix(x + " ", "Cr");
    assert 'L' !in x + " ";
    ContainsChar(x + " ", 'L');
    RemoveAllAbsent(x + " ", "L");
    assert x + " " == x + seq(1, _ => ' ');
    StripTrailingSpace(x, 1);
  }

  /** The text `float()` is given for the volume: only commas are removed. */
  function CleanVolume(s: Option<string>): (r: Option<string>)
    ensures r.None? <==> s.None? || s.value == ""
    ensures r.Some? ==> ',' !in r.value
  {
    if s.None? || s.value == "" then None
    else
      RemoveAllChar(s.value, ',');
      StripKeeps(RemoveAll(s.value, ","), ',');
      Some(Strip(RemoveAll(s.value, ",")))
  }

  /** The volume keeps every character other than commas and surrounding
      whitespace; in particular its numeral characters, in order. */
  lemma CleanVolumeNumeral(x: string)
    requires x != ""
    ensures Numeral(CleanVolume(Some(x)).value) == Numeral(x)
    ensures multiset(RemoveAll(x, ",")) == multiset(x)[',' := 0]
  {
    NumeralRemoveAll(x, ",");
    NumeralStrip(RemoveAll(x, ","));
    RemoveAllCharCount(x, ',');
  }

  /** A non-empty volume without commas or surrounding whitespace reaches
      `float()` unchanged. */
  lemma CleanVolumeKeepsBare(x: string)
    requires x != "" && ',' !in x && !IsSpace(x[0]) && !IsSpace(x[|x| - 1])
    ensures CleanVolume(Some(x)) == Some(x)
  {
    ContainsChar(x, ',');
    RemoveAllAbsent(x, ",");
    StripTrimmed(x);
  }

  /** The rank: a value that is all digits once stripped, read as a number. */
  function ParseRank(raw: Option<string>): (r: Option<nat>)
    ensures r.Some? <==> Truthy(raw) && IsDigits(Strip(raw.value))
  {
    if Truthy(raw) && IsDigits(Strip(raw.value)) then Some(DecimalValue(Strip(raw.value))) else None
  }

  /** A rank written in decimal is read back as itself. */
  lemma RankRoundTrip(n: nat)
    ensures ParseRank(Some(Decimal(n))) == Some(n)
  {
    StripNoSpace(Decimal(n));
    DecimalRoundTrip(n);
  }

  datatype Unit = Crore | Lakh | Rupees

  function Abs(v: real): real {
    if v < 0.0 then -v else v
  }

  /** `format_rupee_cr(v)`: the unit it writes and the amount printed before it. */
  function RupeeAmount(v: real): (r: (Unit, real))
    ensures r.0 == Crore <==> Abs(v) >= 10000000.0
    ensures r.0 == Lakh <==> 100000.0 <= Abs(v) < 10000000.0
    ensures r.0 == Crore ==> r.1 * 10000000.0 == v && Abs(r.1) >= 1.0
    ensures r.0 == Lakh ==> r.1 * 100000.0 == v && 1.0 <= Abs(r.1) < 100.0
    ensures r.0 == Rupees ==> r.1 == v && Abs(v) < 100000.0
  {
    if Abs(v) >= 10000000.0 then (Crore, v / 10000000.0)
    else if Abs(v) >= 100000.0 then (Lakh, v / 100000.0)
    else (Rupees, v)
  }

  // ---------------------------------------------------------------------
  // Finding the row
  // ---------------------------------------------------------------------

  const SymbolHeaders: seq<string> := ["symbol", "ticker", "securitycode", "security code", "scrip"]
  const CompanyHeaders: seq<string> :=
    ["description", "company", "companyname", "nameofthecompany", "name", "description of announcement"]

  /** Length of the run of ASCII letters and digits that starts `s`. */
  function AlnumRun(s: string): (n: nat)
    ensures n <= |s|
    ensures forall k :: 0 <= k < n ==> IsAlnum(s[k])
    ensures n < |s| ==> !IsAlnum(s[n])
  {
    if s != [] && IsAlnum(s[0]) then 1 + AlnumRun(s[1..]) else 0
  }

  /** `t` sits in `s` at `p` as a whole run: no letter or digit touches it
      on either side. */
  predicate RunAt(s: string, t: string, p: nat) {
    && p + |t| <= |s| && s[p..p + |t|] == t
    && (p == 0 || !IsAlnum(s[p - 1]))
    && (p + |t| == |s| || !IsAlnum(s[p + |t|]))
  }

  /** `t` is a whole run of `s` somewhere. */
  predicate IsRun(s: string, t: string) {
    exists p: nat | p <= |s| :: RunAt(s, t, p)
  }

  /** A whole run of a suffix `s[d..]` is a whole run of `s` unless it
      starts the suffix right after a letter or digit. */
  lemma RunShift(s: string, d: nat, t: string, p: nat)
    requires d <= |s| && RunAt(s[d..], t, p)
    requires p > 0 || d == 0 || !IsAlnum(s[d - 1])
    ensures RunAt(s, t, d + p)
  {
    assert s[d + p..d + p + |t|] == s[d..][p..p + |t|];
    if p > 0 {
      assert s[d + p - 1] == s[d..][p - 1];
    }
    if p + |t| < |s[d..]| {
      assert s[d + p + |t|] == s[d..][p + |t|];
    }
  }

  function Concat(ts: seq<string>): string {
    if ts == [] then [] else ts[0] + Concat(ts[1..])
  }

  /** The non-empty pieces of `re.split(r"\s+|[^A-Za-z0-9]+", s)`: the
      maximal runs of ASCII letters and digits (see `TokensAreRuns`), which
      together spell the letters and digits of `s`. */
  function Tokens(s: string): (ts: seq<string>)
    decreases |s|
    ensures forall i :: 0 <= i < |ts| ==> ts[i] != []
    ensures forall i, k :: 0 <= i < |ts| && 0 <= k < |ts[i]| ==> IsAlnum(ts[i][k])
    ensures Concat(ts) == AlnumOnly(s)
  {
    if s == [] then []
    else if !IsAlnum(s[0]) then Tokens(s[1..])
    else
      var n := AlnumRun(s);
      var rest := Tokens(s[n..]);
      AlnumOnlyKeeps(s[..n]);
      AlnumOnlyAppend(s[..n], s[n..]);
      assert s == s[..n] + s[n..];
      assert ([s[..n]] + rest)[1..] == rest;
      [s[..n]] + rest
  }

  /** Each token is a whole run of `s`: it occurs in `s` with no letter or
      digit right before or right after it. */
  lemma {:induction false} TokensAreRuns(s: string)
    ensures forall i :: 0 <= i < |Tokens(s)| ==> IsRun(s, Tokens(s)[i])
    decreases |s|
  {
    if s != [] && !IsAlnum(s[0]) {
      TokensAreRuns(s[1..]);
      TokensAfterSeparator(s);
    } else if s != [] {
      TokensAreRuns(s[AlnumRun(s)..]);
      TokensAfterRun(s);
    }
  }

  /** A leading separator is skipped: the runs of the rest are runs of `s`. */
  lemma TokensAfterSeparator(s: string)
    requires s != [] && !IsAlnum(s[0])
    requires forall i :: 0 <= i < |Tokens(s[1..])| ==> IsRun(s[1..], Tokens(s[1..])[i])
    ensures forall i :: 0 <= i < |Tokens(s)| ==> IsRun(s, Tokens(s)[i])
  {
    var ts := Tokens(s[1..]);
    assert Tokens(s) == ts;
    forall i | 0 <= i < |ts|
      ensures IsRun(s, ts[i])
    {
      RunsOfSuffix(s, 1, ts[i]);
    }
  }

  /** The leading run is the first token, followed by the runs of the rest. */
  lemma TokensAfterRun(s: string)
    requires s != [] && IsAlnum(s[0])
    requires forall i :: 0 <= i < |Tokens(s[AlnumRun(s)..])| ==> IsRun(s[AlnumRun(s)..], Tokens(s[AlnumRun(s)..])[i])
    ensures forall i :: 0 <= i < |Tokens(s)| ==> IsRun(s, Tokens(s)[i])
  {
    var n := AlnumRun(s);
    var rest := Tokens(s[n..]);
    var ts := Tokens(s);
    assert ts == [s[..n]] + rest;
    assert RunAt(s, ts[0], 0);
    forall i | 1 <= i < |ts|
      ensures IsRun(s, ts[i])
    {
      assert ts[i] == rest[i - 1];
      RunsOfSuffix(s, n, rest[i - 1]);
    }
  }

  /** A run of letters and digits starts at `p`. */
  predicate RunStart(s: string, p: nat) {
    p < |s| && IsAlnum(s[p]) && (p == 0 || !IsAlnum(s[p - 1]))
  }

  function Shift(ps: seq<nat>, d: nat): (r: seq<nat>)
    ensures |r| == |ps| && forall i :: 0 <= i < |ps| ==> r[i] == ps[i] + d
  {
    seq(|ps|, i requires 0 <= i < |ps| => ps[i] + d)
  }

  /** Where each token of `Tokens(s)` starts in `s`, in increasing order. */
  function TokenStarts(s: string): (ps: seq<nat>)
    decreases |s|
    ensures |ps| == |Tokens(s)|
    ensures forall i, j :: 0 <= i < j < |ps| ==> ps[i] < ps[j]
  {
    if s == [] then []
    else if !IsAlnum(s[0]) then Shift(TokenStarts(s[1..]), 1)
    else [0] + Shift(TokenStarts(s[AlnumRun(s)..]), AlnumRun(s))
  }

  /** Token `i` is the whole run of `s` at `TokenStarts(s)[i]`. */
  ghost predicate StartsAreRuns(s: string) {
    forall i :: 0 <= i < |Tokens(s)| ==> RunAt(s, Tokens(s)[i], TokenStarts(s)[i])
  }

  /** Every run of `s` starts at one of `TokenStarts(s)`. */
  ghost predicate StartsCover(s: string) {
    forall p: nat | p < |s| :: RunStart(s, p) ==> p in TokenStarts(s)
  }

  /** The tokens are the runs of `s`, in the order they occur and each
      exactly once: token `i` is the whole run at `TokenStarts(s)[i]`,
      those positions increase strictly, and every run start is one of
      them. */
  lemma {:induction false} TokensInOrder(s: string)
    decreases |s|
    ensures StartsAreRuns(s) && StartsCover(s)
    ensures forall i, j :: 0 <= i < j < |TokenStarts(s)| ==> TokenStarts(s)[i] < TokenStarts(s)[j]
  {
    if s != [] && !IsAlnum(s[0]) {
      TokensInOrder(s[1..]);
      AfterSeparatorRuns(s);
      AfterSeparatorCovers(s);
    } else if s != [] {
      TokensInOrder(s[AlnumRun(s)..]);
      AfterRunRuns(s);
      AfterRunCovers(s);
    }
  }

  lemma AfterSeparatorRuns(s: string)
    requires s != [] && !IsAlnum(s[0]) && StartsAreRuns(s[1..])
    ensures StartsAreRuns(s)
  {
    var ts, ps' := Tokens(s[1..]), TokenStarts(s[1..]);
    var ps := TokenStarts(s);
    assert Tokens(s) == ts && ps == Shift(ps', 1);
    forall i | 0 <= i < |ts|
      ensures RunAt(s, ts[i], ps[i])
    {
      RunShift(s, 1, ts[i], ps'[i]);
    }
  }

  lemma AfterSeparatorCovers(s: string)
    requires s != [] && !IsAlnum(s[0]) && StartsCover(s[1..])
    ensures StartsCover(s)
  {
    var ps', ps := TokenStarts(s[1..]), TokenStarts(s);
    assert ps == Shift(ps', 1);
    forall p: nat | p < |s| && RunStart(s, p)
      ensures p in ps
    {
      assert p > 0;
      RunStartOfSuffix(s, 1, p);
      var k :| 0 <= k < |ps'| && ps'[k] == p - 1;
      assert ps[k] == p;
    }
  }

  lemma AfterRunRuns(s: string)
    requires s != [] && IsAlnum(s[0]) && StartsAreRuns(s[AlnumRun(s)..])
    ensures StartsAreRuns(s)
  {
    var n := AlnumRun(s);
    var rest, ps' := Tokens(s[n..]), TokenStarts(s[n..]);
    LeadingRun(s);
    assert forall i :: 0 <= i < |rest| ==> rest[i] != [] && IsAlnum(rest[i][0]);
    RunsAfterRun(s, n, rest, ps');
    ConsRuns(s, s[..n], rest, ps', n);
  }

  /** The leading run at 0, then runs shifted by `n`, pair up position by
      position. */
  lemma ConsRuns(s: string, lead: string, rest: seq<string>, ps: seq<nat>, n: nat)
    requires RunAt(s, lead, 0) && |rest| == |ps|
    requires forall i :: 0 <= i < |rest| ==> RunAt(s, rest[i], n + ps[i])
    ensures var ts, qs := [lead] + rest, [0] + Shift(ps, n);
      forall i :: 0 <= i < |ts| ==> RunAt(s, ts[i], qs[i])
  {
    var ts, qs := [lead] + rest, [0] + Shift(ps, n);
    forall i | 0 <= i < |ts|
      ensures RunAt(s, ts[i], qs[i])
    {
      if i > 0 {
        assert ts[i] == rest[i - 1] && qs[i] == ps[i - 1] + n;
      }
    }
  }

  /** The whole runs of the text after a leading run of length `n` are
      whole runs of `s`, `n` positions further on. */
  lemma RunsAfterRun(s: string, n: nat, ts: seq<string>, ps: seq<nat>)
    requires 0 < n <= |s| && IsAlnum(s[n - 1]) && (n < |s| ==> !IsAlnum(s[n]))
    requires |ts| == |ps|
    requires forall i :: 0 <= i < |ts| ==> ts[i] != [] && IsAlnum(ts[i][0]) && RunAt(s[n..], ts[i], ps[i])
    ensures forall i :: 0 <= i < |ts| ==> RunAt(s, ts[i], n + ps[i])
  {
    forall i | 0 <= i < |ts|
      ensures RunAt(s, ts[i], n + ps[i])
    {
      RunAfterRun(s, n, ts[i], ps[i]);
    }
  }

  /** One such run. */
  lemma RunAfterRun(s: string, n: nat, t: string, p: nat)
    requires 0 < n <= |s| && (n < |s| ==> !IsAlnum(s[n]))
    requires t != [] && IsAlnum(t[0]) && RunAt(s[n..], t, p)
    ensures RunAt(s, t, n + p)
  {
    assert s[n..][p] == t[0];
    RunShift(s, n, t, p);
  }

  /** A text that starts with a letter or digit: its first token is the
      leading run, at position 0, followed by the tokens of the rest. */
  lemma LeadingRun(s: string)
    requires s != [] && IsAlnum(s[0])
    ensures Tokens(s) == [s[..AlnumRun(s)]] + Tokens(s[AlnumRun(s)..])
    ensures TokenStarts(s) == [0] + Shift(TokenStarts(s[AlnumRun(s)..]), AlnumRun(s))
    ensures RunAt(s, s[..AlnumRun(s)], 0)
  {
  }

  lemma AfterRunCovers(s: string)
    requires s != [] && IsAlnum(s[0]) && StartsCover(s[AlnumRun(s)..])
    ensures StartsCover(s)
  {
    var n := AlnumRun(s);
    var ps', ps := TokenStarts(s[n..]), TokenStarts(s);
    assert ps == [0] + Shift(ps', n);
    forall p: nat | p < |s| && RunStart(s, p)
      ensures p in ps
    {
      if p > 0 {
        RunStartAfterRun(s, p);
        RunStartOfSuffix(s, n, p);
        var k :| 0 <= k < |ps'| && ps'[k] == p - n;
        assert ps[k + 1] == p;
      }
    }
  }

  /** No run starts inside or right after the leading run. */
  lemma RunStartAfterRun(s: string, p: nat)
    requires s != [] && IsAlnum(s[0]) && 0 < p < |s| && RunStart(s, p)
    ensures p > AlnumRun(s)
  {
  }

  /** A run start at or past `d` is a run start of `s[d..]`. */
  lemma RunStartOfSuffix(s: string, d: nat, p: nat)
    requires d <= p < |s| && RunStart(s, p)
    ensures RunStart(s[d..], p - d)
  {
    assert s[d..][p - d] == s[p];
    if d < p {
      assert s[d..][p - d - 1] == s[p - 1];
    }
  }

  /** A whole run of `s[d..]` made of letters and digits is a whole run of
      `s` when `s[d..]` starts right after a non-alphanumeric character or
      with one. */
  lemma RunsOfSuffix(s: string, d: nat, t: string)
    requires 1 <= d <= |s| && (!IsAlnum(s[d - 1]) || d == |s| || !IsAlnum(s[d]))
    requires t != [] && IsAlnum(t[0]) && IsRun(s[d..], t)
    ensures IsRun(s, t)
  {
    var p: nat :| p <= |s[d..]| && RunAt(s[d..], t, p);
    assert s[d..][p] == t[0];
    RunShift(s, d, t, p);
    assert RunAt(s, t, d + p);
  }

  /** Pass 1: the stripped symbol equals the query, ignoring case. Every
      row it accepts, pass 2 accepts too. */
  predicate ExactSymbol(row: Row, q: string)
    ensures ExactSymbol(row, q) ==> NormalizedSymbol(row, q)
  {
    var sym := HeaderGet(row, SymbolHeaders);
    if Truthy(sym) && Upper(Strip(sym.value)) == Upper(q) then
      NormalizeUpperStrip(Strip(sym.value));
      NormalizeUpperStrip(sym.value);
      NormalizeUpperStrip(q);
      true
    else false
  }

  /** Pass 2: symbol and query agree once normalised. Every row it accepts,
      pass 3 accepts too. */
  predicate NormalizedSymbol(row: Row, q: string)
    ensures NormalizedSymbol(row, q) ==> SymbolContains(row, q)
  {
    var sym := HeaderGet(row, SymbolHeaders);
    Truthy(sym) && NormalizeText(sym) == NormalizeText(Some(q))
  }

  /** Pass 3: the symbol contains the query, upper-cased or normalised. A
      query with no letter or digit is contained in every symbol. */
  predicate SymbolContains(row: Row, q: string)
    ensures Truthy(HeaderGet(row, SymbolHeaders)) && NormalizeText(Some(q)) == [] ==> SymbolContains(row, q)
  {
    var sym := HeaderGet(row, SymbolHeaders);
    Truthy(sym) && (Contains(Upper(sym.value), Upper(q)) || Contains(NormalizeText(sym), NormalizeText(Some(q))))
  }

  /** Pass 4: the company text contains the query, ignoring case: an
      upper-cased query passes exactly when the query does (see
      `CompanyContainsToken` for how it relates to pass 5). */
  predicate CompanyContains(row: Row, q: string)
    ensures CompanyContains(row, q) <==>
      Truthy(HeaderGet(row, CompanyHeaders)) && Contains(Lower(HeaderGet(row, CompanyHeaders).value), Lower(Upper(q)))
  {
    var comp := HeaderGet(row, CompanyHeaders);
    LowerUpper(q);
    Truthy(comp) && Contains(Lower(comp.value), Lower(q))
  }

  /** Pass 4 implies pass 5 when the query has a letter or digit. */
  lemma CompanyContainsToken(row: Row, q: string)
    ensures CompanyContains(row, q) && AlnumOnly(q) != [] ==> TokenInCompany(row, q)
  {
    var comp := HeaderGet(row, CompanyHeaders);
    if CompanyContains(row, q) && AlnumOnly(q) != [] {
      CompanyHasToken(comp.value, q);
    }
  }

  /** A whole run of a text occurs in it, lower-cased. */
  lemma RunOccurs(q: string, t: string)
    requires IsRun(q, t)
    ensures Contains(Lower(q), Lower(t))
  {
    var p: nat :| p <= |q| && RunAt(q, t, p);
    LowerSlice(q, p, p + |t|);
    ContainsSlice(Lower(q), p, p + |t|);
  }

  /** The first token of a query with a letter or digit is non-empty and
      occurs, lower-cased, in the lower-cased query. */
  lemma FirstTokenInQuery(q: string)
    requires AlnumOnly(q) != []
    ensures Tokens(q) != [] && Lower(Tokens(q)[0]) != [] && Contains(Lower(q), Lower(Tokens(q)[0]))
  {
    assert Tokens(q) != [] by {
      assert Concat(Tokens(q)) == AlnumOnly(q);
    }
    TokensAreRuns(q);
    RunOccurs(q, Tokens(q)[0]);
    assert |Lower(Tokens(q)[0])| == |Tokens(q)[0]| > 0;
  }

  /** A company text that contains the query contains each token of it, and
      there is one when the query has a letter or digit. */
  lemma CompanyHasToken(comp: string, q: string)
    requires Contains(Lower(comp), Lower(q)) && AlnumOnly(q) != []
    ensures SomeTokenIn(Tokens(q), Lower(comp))
  {
    FirstTokenInQuery(q);
    ContainsTransitive(Lower(comp), Lower(q), Lower(Tokens(q)[0]));
  }

  /** The token loop of pass 5: some token, lower-cased, is non-empty and
      occurs in `compLow`. */
  predicate SomeTokenIn(tokens: seq<string>, compLow: string) {
    tokens != [] &&
    ((Lower(tokens[0]) != [] && Contains(compLow, Lower(tokens[0]))) || SomeTokenIn(tokens[1..], compLow))
  }

  lemma {:induction false} SomeTokenInMeans(tokens: seq<string>, compLow: string)
    ensures SomeTokenIn(tokens, compLow) <==>
      exists k :: 0 <= k < |tokens| && Lower(tokens[k]) != [] && Contains(compLow, Lower(tokens[k]))
  {
    if tokens != [] {
      SomeTokenInMeans(tokens[1..], compLow);
      if !(Lower(tokens[0]) != [] && Contains(compLow, Lower(tokens[0]))) {
        forall k | 0 < k < |tokens|
          ensures tokens[k] == tokens[1..][k - 1]
        {
        }
      }
    }
  }

  /** Pass 5: the company text contains one of the query's tokens, so a
      query with no letter or digit never passes it. */
  predicate TokenInCompany(row: Row, q: string)
    ensures TokenInCompany(row, q) ==> AlnumOnly(q) != []
  {
    var comp := HeaderGet(row, CompanyHeaders);
    Truthy(comp) && SomeTokenIn(Tokens(q), Lower(comp.value))
  }

  predicate Holds(tier: nat, row: Row, q: string) {
    if tier == 1 then ExactSymbol(row, q)
    else if tier == 2 then NormalizedSymbol(row, q)
    else if tier == 3 then SymbolContains(row, q)
    else if tier == 4 then CompanyContains(row, q)
    else if tier == 5 then TokenInCompany(row, q)
    else false
  }

  /** The first row that satisfies pass `tier`. */
  function FirstIn(rows: seq<Row>, q: string, tier: nat): (r: Option<nat>)
    ensures r.Some? ==> r.value < |rows| && Holds(tier, rows[r.value], q)
    ensures r.Some? ==> forall i :: 0 <= i < r.value ==> !Holds(tier, rows[i], q)
    ensures r.None? ==> forall i :: 0 <= i < |rows| ==> !Holds(tier, rows[i], q)
  {
    FirstWhere(rows, row => Holds(tier, row, q))
  }

  /** A pass loop's result, characterised, is `FirstIn`. */
  lemma FirstInIs(rows: seq<Row>, q: string, tier: nat, found: Option<nat>)
    requires found.Some? ==> found.value < |rows| && Holds(tier, rows[found.value], q)
    requires found.Some? ==> forall j :: 0 <= j < found.value ==> !Holds(tier, rows[j], q)
    requires found.None? ==> forall j :: 0 <= j < |rows| ==> !Holds(tier, rows[j], q)
    ensures found == FirstIn(rows, q, tier)
  {
    FirstWhereUnique(rows, row => Holds(tier, row, q), found);
  }

  /** The pass that selected a row, and the row's position. */
  datatype Hit = Hit(tier: nat, index: nat)

  function MatchFrom(rows: seq<Row>, q: string, tier: nat): (r: Option<Hit>)
    requires 1 <= tier <= 6
    decreases 6 - tier
    ensures r.Some? ==> tier <= r.value.tier <= 5 && r.value.index < |rows|
    ensures r.Some? ==> Holds(r.value.tier, rows[r.value.index], q)
    ensures r.Some? ==> forall t, i :: tier <= t < r.value.tier && 0 <= i < |rows| ==> !Holds(t, rows[i], q)
    ensures r.Some? ==> forall i :: 0 <= i < r.value.index ==> !Holds(r.value.tier, rows[i], q)
    ensures r.None? ==> forall t, i :: tier <= t <= 5 && 0 <= i < |rows| ==> !Holds(t, rows[i], q)
  {
    if tier == 6 then None
    else match FirstIn(rows, q, tier)
      case Some(i) => Some(Hit(tier, i))
      case None => MatchFrom(rows, q, tier + 1)
  }

  /** The five passes together: the earliest pass that any row satisfies
      decides, and within it the first such row. */
  function Match(rows: seq<Row>, q: string): (r: Option<Hit>)
    ensures r.Some? ==> 1 <= r.value.tier <= 5 && r.value.index < |rows|
    ensures r.Some? ==> Holds(r.value.tier, rows[r.value.index], q)
    ensures r.Some? ==> forall t, i :: 1 <= t < r.value.tier && 0 <= i < |rows| ==> !Holds(t, rows[i], q)
    ensures r.Some? ==> forall i :: 0 <= i < r.value.index ==> !Holds(r.value.tier, rows[i], q)
    ensures r.None? ==> forall t, i :: 1 <= t <= 5 && 0 <= i < |rows| ==> !Holds(t, rows[i], q)
  {
    MatchFrom(rows, q, 1)
  }

  /** A query with no letters or digits, such as "-", is found inside every
      normalised symbol: the first row with any symbol is chosen by pass 3
      at the latest. */
  lemma PunctuationQueryMatchesAnySymbol(rows: seq<Row>, q: string, i: nat)
    requires NormalizeText(Some(q)) == ""
    requires i < |rows| && Truthy(HeaderGet(rows[i], SymbolHeaders))
    ensures Match(rows, q).Some? && Match(rows, q).value.tier <= 3
  {
    assert [] <= NormalizeText(HeaderGet(rows[i], SymbolHeaders));
    assert Holds(3, rows[i], q);
  }

  /** Pass 1: a loop over the rows. */
  method ExactSymbolPass(rows: seq<Row>, q: string) returns (found: Option<nat>)
    ensures found == FirstIn(rows, q, 1)
  {
    var t := Upper(q);
    for i := 0 to |rows|
      invariant forall j :: 0 <= j < i ==> !Holds(1, rows[j], q)
    {
      var sym := HeaderGet(rows[i], SymbolHeaders);
      if Truthy(sym) && Upper(Strip(sym.value)) == t {
        FirstInIs(rows, q, 1, Some(i));
        return Some(i);
      }
    }
    FirstInIs(rows, q, 1, None);
    return None;
  }

  /** Pass 2: a loop over the rows. */
  method NormalizedSymbolPass(rows: seq<Row>, q: string) returns (found: Option<nat>)
    ensures found == FirstIn(rows, q, 2)
  {
    var tNorm := NormalizeText(Some(q));
    for i := 0 to |rows|
      invariant forall j :: 0 <= j < i ==> !Holds(2, rows[j], q)
    {
      var sym := HeaderGet(rows[i], SymbolHeaders);
      if Truthy(sym) && NormalizeText(sym) == tNorm {
        FirstInIs(rows, q, 2, Some(i));
        return Some(i);
      }
    }
    FirstInIs(rows, q, 2, None);
    return None;
  }

  /** Pass 3: a loop over the rows. */
  method SymbolContainsPass(rows: seq<Row>, q: string) returns (found: Option<nat>)
    ensures found == FirstIn(rows, q, 3)
  {
    var t := Upper(q);
    var tNorm := NormalizeText(Some(q));
    for i := 0 to |rows|
      invariant forall j :: 0 <= j < i ==> !Holds(3, rows[j], q)
    {
      var sym := HeaderGet(rows[i], SymbolHeaders);
      if Truthy(sym) && (Contains(Upper(sym.value), t) || Contains(NormalizeText(sym), tNorm)) {
        FirstInIs(rows, q, 3, Some(i));
        return Some(i);
      }
    }
    FirstInIs(rows, q, 3, None);
    return None;
  }

  /** Pass 4: a loop over the rows. */
  method CompanyContainsPass(rows: seq<Row>, q: string) returns (found: Option<nat>)
    ensures found == FirstIn(rows, q, 4)
  {
    var lowered := Lower(q);
    for i := 0 to |rows|
      invariant forall j :: 0 <= j < i ==> !Holds(4, rows[j], q)
    {
      var comp := HeaderGet(rows[i], CompanyHeaders);
      assert Holds(4, rows[i], q) <==> Truthy(comp) && Contains(Lower(comp.value), lowered);
      if Truthy(comp) && Contains(Lower(comp.value), lowered) {
        FirstInIs(rows, q, 4, Some(i));
        return Some(i);
      }
    }
    FirstInIs(rows, q, 4, None);
    return None;
  }

  /** Pass 5: a loop over the rows, and for each company text a loop over
      the query's tokens. */
  method TokenPass(rows: seq<Row>, q: string) returns (found: Option<nat>)
    ensures found == FirstIn(rows, q, 5)
  {
    var tokens := Tokens(q);
    if tokens == [] {
      FirstInIs(rows, q, 5, None);
      return None;
    }
    for i := 0 to |rows|
      invariant forall j :: 0 <= j < i ==> !Holds(5, rows[j], q)
    {
      var comp := HeaderGet(rows[i], CompanyHeaders);
      if Truthy(comp) {
        var compLow := Lower(comp.value);
        for k := 0 to |tokens|
          invariant SomeTokenIn(tokens, compLow) == SomeTokenIn(tokens[k..], compLow)
        {
          assert tokens[k..][1..] == tokens[k + 1..];
          if Lower(tokens[k]) != [] && Contains(compLow, Lower(tokens[k])) {
            FirstInIs(rows, q, 5, Some(i));
            return Some(i);
          }
        }
      }
    }
    FirstInIs(rows, q, 5, None);
    return None;
  }

  /** The five passes, each run only when the ones before it found nothing. */
  method FindMatch(rows: seq<Row>, q: string) returns (found: Option<nat>)
    ensures found.None? <==> Match(rows, q).None?
    ensures found.Some? ==> found.value == Match(rows, q).value.index
  {
    found := ExactSymbolPass(rows, q);
    if found.Some? {
      return;
    }
    assert Match(rows, q) == MatchFrom(rows, q, 2);
    found := NormalizedSymbolPass(rows, q);
    if found.Some? {
      return;
    }
    assert Match(rows, q) == MatchFrom(rows, q, 3);
    found := SymbolContainsPass(rows, q);
    if found.Some? {
      return;
    }
    assert Match(rows, q) == MatchFrom(rows, q, 4);
    found := CompanyContainsPass(rows, q);
    if found.Some? {
      return;
    }
    assert Match(rows, q) == MatchFrom(rows, q, 5);
    found := TokenPass(rows, q);
    assert MatchFrom(rows, q, 6) == None;
  }

  // ---------------------------------------------------------------------
  // The summary
  // ---------------------------------------------------------------------

  /** The date in a dataset name, when its first strict date token is a real
      date: that token in ISO form, which is the token with `_` written as `-`. */
  function EodDate(filename: string): (r: Option<string>)
    ensures r.Some? <==>
      && Search(Strict, filename).Some?
      && MatchesAt(Loose, filename, Search(Strict, filename).value)
      && IsValid(TokenDate(filename, Search(Strict, filename).value))
    ensures r.Some? ==> r.value == Dashed(filename, Search(Strict, filename).value)
    ensures r.Some? ==> |r.value| == 10 && r.value[4] == '-' && r.value[7] == '-'
  {
    match Search(Strict, filename)
    case None => None
    case Some(i) =>
      StrictIsLoose(filename, i);
      var d := TokenDate(filename, i);
      if IsValid(d) then
        IsoOfToken(filename, i);
        Some(IsoFormat(d))
      else None
  }

  const PriceCols: seq<string> := ["Price", "price", "Close", "ClosePrice", "LastPrice"]
  const Change1dCols: seq<string> :=
    ["Price Change % 1 day", "Price Change % 1 day ", "Price Change % 1 day", "Price Change % 1 day", "Price Change % 1 day"]
  const Change1wCols: seq<string> := ["Price Change % 1 week", "Price Change % 1 week "]
  const VolumeCols: seq<string> :=
    ["Price * Volume (Turnover) 1 day", "Price * Volume (Turnover) 1 day ", "Volume", "Volume(24H)", "TradedQty", "TOTTRDQTY"]
  const McapCols: seq<string> := ["Market capitalization", "Mcap", "MarketCap", "marketcap"]
  const RankCols: seq<string> := ["Rank", "rank"]
  const VwapCols: seq<string> := ["Volume Weighted Average Price 1 day", "VWAP", "vwap", "Volume Weighted Average Price"]
  const Atr14Cols: seq<string> :=
    ["Average True Range % (14) 1 day", "Average True Range % (14) 1 day ", "ATR14", "ATR_14", "ATR(14)"]
  const RelVolCols: seq<string> :=
    ["Relative Volume 1 day", "RelVol", "relative_volume", "relative vol", "RelativeVolume", "Relative Vol"]
  const VolChangeCols: seq<string> :=
    ["Volume Change % 1 day", "Volume Change % 1 day ", "Volume Change % 1 day", "Volume Change % 1 day"]
  const VolatilityCols: seq<string> := ["Volatility 1 day", "Volatility 1 day ", "Volatility", "volatility"]
  const BetaCols: seq<string> := ["Beta", "beta"]
  const CompanyCols: seq<string> := ["Description", "description", "Company", "company", "CompanyName", "NameOfTheCompany"]
  const TickerCols: seq<string> := ["Symbol", "symbol", "Ticker", "ticker"]

  /** The response record. Numeric fields hold the text `float()` is given
      (see CleanNumber); `volumeRaw` and `mcapRaw` are the picked values. */
  datatype Summary = Summary(
    ticker: string, company: Option<string>, csvFilename: string, eodDate: Option<string>,
    price: Option<string>, change1d: Option<string>, change1w: Option<string>,
    volumeRaw: Option<string>, volume: Option<string>,
    mcapRaw: Option<string>, mcap: Option<string>, rank: Option<nat>,
    vwap: Option<string>, atr14: Option<string>, relativeVol: Option<string>,
    volChange: Option<string>, volatility: Option<string>, beta: Option<string>)

  /** `(picked or ticker).strip().upper()`: the picked symbol when it is
      non-empty, otherwise the ticker of the path; upper-case, and with no
      surrounding whitespace. */
  function ShownTicker(picked: Option<string>, ticker: string): (s: string)
    ensures Truthy(picked) ==> s == Upper(Strip(picked.value))
    ensures !Truthy(picked) ==> s == Upper(Strip(ticker))
    ensures forall k :: 0 <= k < |s| ==> !IsLowerAscii(s[k])
    ensures s == [] || (!IsSpace(s[0]) && !IsSpace(s[|s| - 1]))
  {
    Upper(Strip(if Truthy(picked) then picked.value else ticker))
  }

  /** The fields read from the matched row: each numeric field is the
      cleaned text of the first of its columns the row has (None when it has
      none of them), the date comes from the dataset's name. */
  function SummaryOf(row: Row, ticker: string, csvFilename: string): (s: Summary)
    ensures s.ticker == ShownTicker(Pick(row, TickerCols), ticker)
    ensures s.company.Some? <==> Truthy(Pick(row, CompanyCols))
    ensures s.company.Some? ==> s.company == Pick(row, CompanyCols)
    ensures s.csvFilename == csvFilename && s.eodDate == EodDate(csvFilename)
    ensures s.price == CleanNumber(Pick(row, PriceCols))
    ensures s.change1d == CleanNumber(Pick(row, Change1dCols))
    ensures s.change1w == CleanNumber(Pick(row, Change1wCols))
    ensures s.volumeRaw == Pick(row, VolumeCols) && s.volume == CleanVolume(Pick(row, VolumeCols))
    ensures s.mcapRaw == Pick(row, McapCols) && s.mcap == CleanNumber(Pick(row, McapCols))
    ensures s.rank == ParseRank(Pick(row, RankCols))
    ensures s.vwap == CleanNumber(Pick(row, VwapCols))
    ensures s.atr14 == CleanNumber(Pick(row, Atr14Cols))
    ensures s.relativeVol == CleanNumber(Pick(row, RelVolCols))
    ensures s.volChange == CleanNumber(Pick(row, VolChangeCols))
    ensures s.volatility == CleanNumber(Pick(row, VolatilityCols))
    ensures s.beta == if Truthy(Pick(row, BetaCols)) then CleanNumber(Pick(row, BetaCols)) else None
  {
    var company := Pick(row, CompanyCols);
    var betaRaw := Pick(row, BetaCols);
    var volumeRaw := Pick(row, VolumeCols);
    var mcapRaw := Pick(row, McapCols);
    Summary(
      ticker := ShownTicker(Pick(row, TickerCols), ticker),
      company := if Truthy(company) then company else None,
      csvFilename := csvFilename,
      eodDate := EodDate(csvFilename),
      price := CleanNumber(Pick(row, PriceCols)),
      change1d := CleanNumber(Pick(row, Change1dCols)),
      change1w := CleanNumber(Pick(row, Change1wCols)),
      volumeRaw := volumeRaw,
      volume := CleanVolume(volumeRaw),
      mcapRaw := mcapRaw,
      mcap := CleanNumber(mcapRaw),
      rank := ParseRank(Pick(row, RankCols)),
      vwap := CleanNumber(Pick(row, VwapCols)),
      atr14 := CleanNumber(Pick(row, Atr14Cols)),
      relativeVol := CleanNumber(Pick(row, RelVolCols)),
      volChange := CleanNumber(Pick(row, VolChangeCols)),
      volatility := CleanNumber(Pick(row, VolatilityCols)),
      beta := if Truthy(betaRaw) then CleanNumber(betaRaw) else None)
  }

  /** A row with none of the price columns gives a summary without a price;
      the same holds for every other numeric field and its columns. */
  lemma NoPriceColumnNoPrice(row: Row, ticker: string, csvFilename: string)
    requires forall i :: 0 <= i < |PriceCols| ==> ColumnOf(row, PriceCols[i]).None?
    ensures SummaryOf(row, ticker, csvFilename).price.None?
  {
  }

  /** The outcome once the dataset `name` has been read into `rows`: 400 for
      a ticker that strips to empty, else the summary of the matched row, or
      404 naming the ticker and the dataset. */
  function Answer(rows: seq<Row>, ticker: string, name: string): (r: Result<Summary, HttpError>)
    ensures r == Err(BadRequest) <==> Strip(ticker) == []
    ensures r.Err? ==> r.error == BadRequest || r.error == NotFound(ticker, name)
    ensures r.Ok? ==> r.value.csvFilename == name
  {
    var q := Strip(ticker);
    if q == [] then Err(BadRequest)
    else match Match(rows, q)
      case None => Err(NotFound(ticker, name))
      case Some(h) => Ok(SummaryOf(rows[h.index], ticker, name))
  }

  /** The endpoint's outcome for a data directory listing, the CSV files'
      contents by name, and the ticker in the path. */
  function SummaryResponse(listing: Option<seq<Entry>>, tables: map<string, CsvRead>, ticker: string)
    : (r: Result<Summary, HttpError>)
    ensures r == Err(ServerError(NoDataset)) <==> LatestCsv(listing).None?
    ensures r == Err(ServerError(DatasetUnreadable)) <==>
      LatestCsv(listing).Some? && !Readable(tables, LatestCsv(listing).value.name)
    ensures r == Err(BadRequest) <==>
      LatestCsv(listing).Some? && Readable(tables, LatestCsv(listing).value.name) && Strip(ticker) == []
    ensures r.Err? && r.error.NotFound? ==>
      LatestCsv(listing).Some? && r.error == NotFound(ticker, LatestCsv(listing).value.name)
    ensures r.Ok? ==> LatestCsv(listing).Some? && r.value.csvFilename == LatestCsv(listing).value.name
    ensures r != Err(ServerError(NoUploadsFolder))
  {
    match LatestCsv(listing)
    case None => Err(ServerError(NoDataset))
    case Some(f) =>
      if !Readable(tables, f.name) then Err(ServerError(DatasetUnreadable))
      else Answer(tables[f.name].rows, ticker, f.name)
  }

  /** A 404 means that no pass accepts any row of the dataset. */
  lemma SummaryNotFound(listing: Option<seq<Entry>>, tables: map<string, CsvRead>, ticker: string)
    requires SummaryResponse(listing, tables, ticker).Err?
    requires SummaryResponse(listing, tables, ticker).error.NotFound?
    ensures LatestCsv(listing).Some? && LatestCsv(listing).value.name in tables
    ensures var rows := tables[LatestCsv(listing).value.name].rows;
      forall t, i :: 1 <= t <= 5 && 0 <= i < |rows| ==> !Holds(t, rows[i], Strip(ticker))
  {
    var rows := tables[LatestCsv(listing).value.name].rows;
    assert Match(rows, Strip(ticker)).None?;
  }

  /** A summary is built from the row `Match` selects, which some pass
      accepts. */
  lemma SummaryFound(listing: Option<seq<Entry>>, tables: map<string, CsvRead>, ticker: string)
    requires SummaryResponse(listing, tables, ticker).Ok?
    ensures LatestCsv(listing).Some? && LatestCsv(listing).value.name in tables
    ensures var name := LatestCsv(listing).value.name;
      var rows := tables[name].rows;
      var h := Match(rows, Strip(ticker));
      && h.Some? && h.value.index < |rows|
      && Holds(h.value.tier, rows[h.value.index], Strip(ticker))
      && SummaryResponse(listing, tables, ticker).value == SummaryOf(rows[h.value.index], ticker, name)
  {
  }

  /** Conversely, a readable dataset in which no pass accepts any row
      answers 404 for a non-blank ticker. */
  lemma SummaryNotFoundWhenNoMatch(listing: Option<seq<Entry>>, tables: map<string, CsvRead>, ticker: string)
    requires LatestCsv(listing).Some? && Readable(tables, LatestCsv(listing).value.name)
    requires Strip(ticker) != []
    requires var rows := tables[LatestCsv(listing).value.name].rows;
      forall t, i :: 1 <= t <= 5 && 0 <= i < |rows| ==> !Holds(t, rows[i], Strip(ticker))
    ensures SummaryResponse(listing, tables, ticker) == Err(NotFound(ticker, LatestCsv(listing).value.name))
  {
  }

  /** A readable dataset with a row that some pass accepts answers with a
      summary, taken from a row accepted by that pass or an earlier one. */
  lemma SummaryFoundWhenMatch(listing: Option<seq<Entry>>, tables: map<string, CsvRead>, ticker: string, t: int, i: int)
    requires LatestCsv(listing).Some? && Readable(tables, LatestCsv(listing).value.name)
    requires Strip(ticker) != []
    requires var rows := tables[LatestCsv(listing).value.name].rows;
      1 <= t <= 5 && 0 <= i < |rows| && Holds(t, rows[i], Strip(ticker))
    ensures var name := LatestCsv(listing).value.name;
      var rows := tables[name].rows;
      var h := Match(rows, Strip(ticker));
      && h.Some? && h.value.tier <= t
      && SummaryResponse(listing, tables, ticker) == Ok(SummaryOf(rows[h.value.index], ticker, name))
  {
  }

  /** `market_summary(ticker)` */
  method Summarize(listing: Option<seq<Entry>>, tables: map<string, CsvRead>, ticker: string)
    returns (r: Result<Summary, HttpError>)
    ensures r == SummaryResponse(listing, tables, ticker)
  {
    var csv := FindLatestCsv(listing);
    if csv.None? {
      return Err(ServerError(NoDataset));
    }
    var name := csv.value.name;
    if !Readable(tables, name) {
      return Err(ServerError(DatasetUnreadable));
    }
    var rows := tables[name].rows;
    var q := Strip(ticker);
    if q == [] {
      return Err(BadRequest);
    }
    var found := FindMatch(rows, q);
    if found.None? {
      return Err(NotFound(ticker, name));
    }
    r := Ok(SummaryOf(rows[found.value], ticker, name));
  }
}
