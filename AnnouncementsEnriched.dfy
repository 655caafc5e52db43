/**
 * `announcements_enriched.py`: its `/announcements/list-enriched` endpoint
 * lists the uploaded announcement files and names the company behind each,
 * looked up in a symbol-to-company map built from the newest EOD dataset.
 */
module AnnouncementsEnriched {
  import opened Wrappers
  import opened Strings
  import opened Calendar
  import opened DateTokens
  import opened Selection
  import opened Sorting
  import opened Tables
  import opened Dicts

  // ---------------------------------------------------------------------
  // Locating the dataset
  // ---------------------------------------------------------------------

  /** A `.csv` name, any case, that mentions `eod` or `latest`. */
  predicate IsEodCandidate(name: string) {
    var low := Lower(name);
    EndsWith(low, ".csv") && (Contains(low, "eod") || Contains(low, "latest"))
  }

  /** `candidates`, in listing order. */
  function Candidates(listing: seq<Entry>): (cs: seq<Entry>)
    ensures forall e :: e in cs <==> e in listing && IsEodCandidate(e.name)
  {
    if listing == [] then []
    else
      var init, last := listing[..|listing| - 1], listing[|listing| - 1];
      assert listing == init + [last];
      Candidates(init) + (if IsEodCandidate(last.name) then [last] else [])
  }

  /** `score(path)`: the timestamp of the name's date (0 when the name has
      no date token or the token is not a real date), then the mtime. */
  function ScoreOf(e: Entry): (s: Score)
    ensures s.minor == e.mtime
    ensures s.major > 0 <==> LeadingDate(e.name).Some?
    ensures s.major == 0 <==> LeadingDate(e.name).None?
  {
    match LeadingDate(e.name)
    case Some(d) => KeyIsChronological(d, d); Score(Key(d), e.mtime)
    case None => Score(0, e.mtime)
  }

  function Scores(cs: seq<Entry>): seq<Score> {
    seq(|cs|, i requires 0 <= i < |cs| => ScoreOf(cs[i]))
  }

  /** `find_latest_csv_path`: element 0 of the candidates sorted by score,
      descending and stably, so the first with the greatest score. */
  function LatestEodCsv(listing: Option<seq<Entry>>): (r: Option<Entry>)
    ensures r.Some? ==> listing.Some? && r.value in listing.value && IsEodCandidate(r.value.name)
    ensures r.None? <==> listing.None? || forall e :: e in listing.value ==> !IsEodCandidate(e.name)
  {
    if listing.None? then None
    else
      var cs := Candidates(listing.value);
      if cs == [] then None
      else
        assert cs[0] in cs;
        Some(cs[FirstMax(Scores(cs))])
  }

  /** No candidate scores above the chosen one. */
  lemma LatestEodIsBest(listing: Option<seq<Entry>>, e: Entry)
    requires listing.Some? && e in listing.value && IsEodCandidate(e.name)
    ensures LatestEodCsv(listing).Some?
    ensures !Below(ScoreOf(LatestEodCsv(listing).value), ScoreOf(e))
  {
    var cs := Candidates(listing.value);
    assert e in cs;
    var j :| 0 <= j < |cs| && cs[j] == e;
    var scores := Scores(cs);
    assert !Below(scores[FirstMax(scores)], scores[j]);
  }

  /** The ranking spelled out: a dated name beats an undated one, a later
      date beats an earlier one, and on the same date the newer mtime wins. */
  lemma LatestEodRanking(listing: Option<seq<Entry>>, e: Entry)
    requires listing.Some? && e in listing.value && IsEodCandidate(e.name)
    ensures LatestEodCsv(listing).Some?
    ensures var w := LatestEodCsv(listing).value;
      LeadingDate(e.name).Some? ==>
        && LeadingDate(w.name).Some?
        && !Before(LeadingDate(w.name).value, LeadingDate(e.name).value)
        && (LeadingDate(w.name) == LeadingDate(e.name) ==> e.mtime <= w.mtime)
    ensures var w := LatestEodCsv(listing).value;
      LeadingDate(w.name).None? ==> LeadingDate(e.name).None? && e.mtime <= w.mtime
  {
    LatestEodIsBest(listing, e);
    var w := LatestEodCsv(listing).value;
    if LeadingDate(e.name).Some? && LeadingDate(w.name).Some? {
      KeyIsChronological(LeadingDate(w.name).value, LeadingDate(e.name).value);
    }
  }

  // ---------------------------------------------------------------------
  // The symbol-to-company map
  // ---------------------------------------------------------------------

  const SymbolNames: seq<string> := ["symbol", "ticker", "securitycode", "scrip", "symbol "]
  const CompanyNames: seq<string> := ["description", "company", "companyname", "nameofthecompany", "name"]

  /** `[h.strip() for h in fieldnames]` */
  function StripAll(hs: seq<string>): (r: seq<string>)
    ensures |r| == |hs| && forall i :: 0 <= i < |hs| ==> r[i] == Strip(hs[i])
  {
    seq(|hs|, i requires 0 <= i < |hs| => Strip(hs[i]))
  }

  /** `[h for h in headers if h.lower() in names]`, in header order. */
  function NamedAmong(headers: seq<string>, names: seq<string>): (ks: seq<string>)
    ensures forall h :: h in ks <==> h in headers && Lower(h) in names
  {
    if headers == [] then []
    else
      var init, last := headers[..|headers| - 1], headers[|headers| - 1];
      assert headers == init + [last];
      NamedAmong(init, names) + (if Lower(last) in names then [last] else [])
  }

  /** The filter works header by header, so it keeps the header order. */
  lemma {:induction false} NamedAmongAppend(a: seq<string>, b: seq<string>, names: seq<string>)
    ensures NamedAmong(a + b, names) == NamedAmong(a, names) + NamedAmong(b, names)
    decreases |b|
  {
    if b == [] {
      assert a + b == a;
    } else {
      var init, last := b[..|b| - 1], b[|b| - 1];
      assert a + b == (a + init) + [last];
      assert b == init + [last];
      NamedAmongSnoc(a + init, last, names);
      NamedAmongSnoc(init, last, names);
      NamedAmongAppend(a, init, names);
    }
  }

  lemma NamedAmongSnoc(hs: seq<string>, h: string, names: seq<string>)
    ensures NamedAmong(hs + [h], names) == NamedAmong(hs, names) + if Lower(h) in names then [h] else []
  {
    var all := hs + [h];
    assert all[..|all| - 1] == hs;
  }

  /** A single header is kept exactly when its lower-case form is a
      recognised name. */
  lemma NamedAmongOne(h: string, names: seq<string>)
    ensures NamedAmong([h], names) == if Lower(h) in names then [h] else []
  {
    assert [h][..0] == [];
  }

  /** The recognised columns, or the header at `fallback` when none is
      recognised and there is one. */
  function KeyColumns(headers: seq<string>, names: seq<string>, fallback: nat): (ks: seq<string>)
    ensures (exists h :: h in headers && Lower(h) in names) ==> ks == NamedAmong(headers, names)
    ensures (forall h :: h in headers ==> Lower(h) !in names) ==>
      ks == if fallback < |headers| then [headers[fallback]] else []
  {
    var named := NamedAmong(headers, names);
    assert named != [] ==> named[0] in named;
    if named == [] && fallback < |headers| then [headers[fallback]] else named
  }

  /** `symbol_keys`: stripped headers named like a symbol, else the first. */
  function SymbolColumns(fieldnames: seq<string>): (ks: seq<string>)
    ensures (exists i :: 0 <= i < |fieldnames| && Lower(Strip(fieldnames[i])) in SymbolNames) ==>
      ks == NamedAmong(StripAll(fieldnames), SymbolNames)
    ensures (forall i :: 0 <= i < |fieldnames| ==> Lower(Strip(fieldnames[i])) !in SymbolNames) ==>
      ks == if |fieldnames| >= 1 then [Strip(fieldnames[0])] else []
  {
    var hs := StripAll(fieldnames);
    assert forall h :: h in hs ==> exists i :: 0 <= i < |fieldnames| && h == Strip(fieldnames[i]);
    assert forall i :: 0 <= i < |fieldnames| ==> hs[i] in hs;
    KeyColumns(hs, SymbolNames, 0)
  }

  /** `comp_keys`: stripped headers named like a company, else the second. */
  function CompanyColumns(fieldnames: seq<string>): (ks: seq<string>)
    ensures (exists i :: 0 <= i < |fieldnames| && Lower(Strip(fieldnames[i])) in CompanyNames) ==>
      ks == NamedAmong(StripAll(fieldnames), CompanyNames)
    ensures (forall i :: 0 <= i < |fieldnames| ==> Lower(Strip(fieldnames[i])) !in CompanyNames) ==>
      ks == if |fieldnames| >= 2 then [Strip(fieldnames[1])] else []
  {
    var hs := StripAll(fieldnames);
    assert forall h :: h in hs ==> exists i :: 0 <= i < |fieldnames| && h == Strip(fieldnames[i]);
    assert forall i :: 0 <= i < |fieldnames| ==> hs[i] in hs;
    KeyColumns(hs, CompanyNames, 1)
  }

  /** The position of the first key whose raw value in the row is present
      and non-empty (`k in r and r[k] not in (None, "")`). */
  function FilledAt(row: Row, keys: seq<string>): (r: Option<nat>)
    ensures r.Some? ==> r.value < |keys| && Truthy(Lookup(row, keys[r.value]))
    ensures r.Some? ==> forall j :: 0 <= j < r.value ==> !Truthy(Lookup(row, keys[j]))
    ensures r.None? ==> forall j :: 0 <= j < |keys| ==> !Truthy(Lookup(row, keys[j]))
  {
    if keys == [] then None
    else if Truthy(Lookup(row, keys[0])) then Some(0)
    else match FilledAt(row, keys[1..])
      case None => None
      case Some(j) => Some(j + 1)
  }

  /** That key's value, stripped: the loop stops there even when the
      stripped value is empty. */
  function FirstFilled(row: Row, keys: seq<string>): (r: Option<string>)
    ensures r.None? <==> forall j :: 0 <= j < |keys| ==> !Truthy(Lookup(row, keys[j]))
    ensures r.Some? ==> exists j ::
      && 0 <= j < |keys| && Truthy(Lookup(row, keys[j]))
      && (forall i :: 0 <= i < j ==> !Truthy(Lookup(row, keys[i])))
      && r.value == Strip(Lookup(row, keys[j]).value)
  {
    match FilledAt(row, keys)
    case None => None
    case Some(j) => Some(Strip(Lookup(row, keys[j]).value))
  }

  /** A key of the map: non-empty, upper-case, no surrounding whitespace. */
  predicate IsMapKey(k: string) {
    && k != []
    && !IsSpace(k[0]) && !IsSpace(k[|k| - 1])
    && forall i :: 0 <= i < |k| ==> !IsLowerAscii(k[i])
  }

  /** What one row contributes: `mapping[sym.upper()] = comp or sym` when
      the stripped symbol is non-empty. */
  function RowEntry(row: Row, symKeys: seq<string>, compKeys: seq<string>): (e: Option<(string, string)>)
    ensures e.Some? ==> IsMapKey(e.value.0) && e.value.1 != []
    ensures e.Some? <==> FirstFilled(row, symKeys).Some? && FirstFilled(row, symKeys).value != []
    ensures e.Some? ==> e.value.0 == Upper(FirstFilled(row, symKeys).value)
    ensures e.Some? && FirstFilled(row, compKeys).Some? && FirstFilled(row, compKeys).value != [] ==>
      e.value.1 == FirstFilled(row, compKeys).value
    ensures e.Some? && !(FirstFilled(row, compKeys).Some? && FirstFilled(row, compKeys).value != []) ==>
      e.value.1 == FirstFilled(row, symKeys).value
  {
    match FirstFilled(row, symKeys)
    case None => None
    case Some(sym) =>
      if sym == [] then None
      else
        var comp := FirstFilled(row, compKeys);
        UpperIsMapKey(sym);
        Some((Upper(sym), if comp.Some? && comp.value != [] then comp.value else sym))
  }

  /** A stripped, non-empty symbol upper-cased is a key of the map. */
  lemma UpperIsMapKey(s: string)
    requires s != [] && !IsSpace(s[0]) && !IsSpace(s[|s| - 1])
    ensures IsMapKey(Upper(s))
  {
  }

  function Step(m: Dict, row: Row, symKeys: seq<string>, compKeys: seq<string>): (m': Dict)
    ensures |m'| <= |m| + 1
  {
    match RowEntry(row, symKeys, compKeys)
    case None => m
    case Some(kv) => Put(m, kv.0, kv.1)
  }

  /** The map after the rows, in order. */
  function Fill(rows: seq<Row>, symKeys: seq<string>, compKeys: seq<string>): (m: Dict)
    ensures |m| <= |rows|
  {
    if rows == [] then []
    else Step(Fill(rows[..|rows| - 1], symKeys, compKeys), rows[|rows| - 1], symKeys, compKeys)
  }

  /** Every pair of the map comes from a row: an upper-case, stripped,
      non-empty symbol and a non-empty company. */
  lemma {:induction false} FillPairs(rows: seq<Row>, symKeys: seq<string>, compKeys: seq<string>, p: (string, string))
    requires p in Fill(rows, symKeys, compKeys)
    ensures IsMapKey(p.0) && p.1 != []
    ensures exists i :: 0 <= i < |rows| && RowEntry(rows[i], symKeys, compKeys) == Some(p)
  {
    var init, last := rows[..|rows| - 1], rows[|rows| - 1];
    var prev := Fill(init, symKeys, compKeys);
    match RowEntry(last, symKeys, compKeys)
    case None =>
      FillPairs(init, symKeys, compKeys, p);
      var i :| 0 <= i < |init| && RowEntry(init[i], symKeys, compKeys) == Some(p);
      assert rows[i] == init[i];
    case Some(kv) =>
      PutPairs(prev, kv.0, kv.1, p);
      if p != kv {
        FillPairs(init, symKeys, compKeys, p);
        var i :| 0 <= i < |init| && RowEntry(init[i], symKeys, compKeys) == Some(p);
        assert rows[i] == init[i];
      }
  }

  /** No symbol appears twice. */
  lemma {:induction false} FillDistinct(rows: seq<Row>, symKeys: seq<string>, compKeys: seq<string>)
    ensures KeysDistinct(Fill(rows, symKeys, compKeys))
  {
    if rows != [] {
      var init := rows[..|rows| - 1];
      FillDistinct(init, symKeys, compKeys);
      match RowEntry(rows[|rows| - 1], symKeys, compKeys)
      case None =>
      case Some(kv) => PutDistinct(Fill(init, symKeys, compKeys), kv.0, kv.1);
    }
  }

  /** A later row with the same symbol overwrites an earlier one: the map
      holds what the last row with that symbol says. */
  lemma {:induction false} LastRowWins(rows: seq<Row>, symKeys: seq<string>, compKeys: seq<string>, i: nat, k: string, v: string)
    requires i < |rows| && RowEntry(rows[i], symKeys, compKeys) == Some((k, v))
    requires forall j :: i < j < |rows| ==> RowEntry(rows[j], symKeys, compKeys).None? || RowEntry(rows[j], symKeys, compKeys).value.0 != k
    ensures Get(Fill(rows, symKeys, compKeys), k) == Some(v)
  {
    var init, last := rows[..|rows| - 1], rows[|rows| - 1];
    if i < |rows| - 1 {
      forall j | i < j < |init|
        ensures RowEntry(init[j], symKeys, compKeys).None? || RowEntry(init[j], symKeys, compKeys).value.0 != k
      {
        assert init[j] == rows[j];
      }
      assert init[i] == rows[i];
      LastRowWins(init, symKeys, compKeys, i, k, v);
    }
    match RowEntry(last, symKeys, compKeys)
    case None =>
    case Some(kv) => PutGet(Fill(init, symKeys, compKeys), kv.0, kv.1, k);
  }

  /** The symbols the rows assign, in row order, repeats included. */
  function EntryKeys(rows: seq<Row>, symKeys: seq<string>, compKeys: seq<string>): (ks: seq<string>)
    ensures |ks| <= |rows|
  {
    if rows == [] then []
    else
      EntryKeys(rows[..|rows| - 1], symKeys, compKeys)
        + match RowEntry(rows[|rows| - 1], symKeys, compKeys)
          case None => []
          case Some(kv) => [kv.0]
  }

  /** The map's keys come in the order in which the rows first assign
      them: a later assignment keeps a key where it is. */
  lemma {:induction false} FillKeys(rows: seq<Row>, symKeys: seq<string>, compKeys: seq<string>)
    ensures Keys(Fill(rows, symKeys, compKeys)) == FirstOccurrences(EntryKeys(rows, symKeys, compKeys))
  {
    if rows != [] {
      var init := rows[..|rows| - 1];
      FillKeys(init, symKeys, compKeys);
      var ks := EntryKeys(init, symKeys, compKeys);
      match RowEntry(rows[|rows| - 1], symKeys, compKeys)
      case None =>
        assert EntryKeys(rows, symKeys, compKeys) == ks;
      case Some(kv) =>
        PutKeys(Fill(init, symKeys, compKeys), kv.0, kv.1);
        var all := EntryKeys(rows, symKeys, compKeys);
        assert all == ks + [kv.0];
        assert all[..|all| - 1] == ks;
    }
  }

  /** `build_symbol_to_company_map()`: empty when there is no dataset or it
      cannot be read to the end, never a partial map. */
  function SymbolCompanyMap(listing: Option<seq<Entry>>, tables: map<string, CsvRead>): (m: Dict)
    ensures LatestEodCsv(listing).None? ==> m == []
    ensures LatestEodCsv(listing).Some? && !Readable(tables, LatestEodCsv(listing).value.name) ==> m == []
    ensures KeysDistinct(m)
  {
    match LatestEodCsv(listing)
    case None => []
    case Some(f) =>
      if !Readable(tables, f.name) then []
      else
        var t := tables[f.name];
        FillDistinct(t.rows, SymbolColumns(t.fieldnames), CompanyColumns(t.fieldnames));
        Fill(t.rows, SymbolColumns(t.fieldnames), CompanyColumns(t.fieldnames))
  }

  /** Every pair of the symbol-to-company map comes from a row of the
      chosen dataset, which was read to the end. */
  lemma SymbolCompanyMapFromRows(listing: Option<seq<Entry>>, tables: map<string, CsvRead>, p: (string, string))
    requires p in SymbolCompanyMap(listing, tables)
    ensures LatestEodCsv(listing).Some? && Readable(tables, LatestEodCsv(listing).value.name)
    ensures IsMapKey(p.0) && p.1 != []
    ensures var t := tables[LatestEodCsv(listing).value.name];
      exists i :: 0 <= i < |t.rows| && RowEntry(t.rows[i], SymbolColumns(t.fieldnames), CompanyColumns(t.fieldnames)) == Some(p)
  {
    var t := tables[LatestEodCsv(listing).value.name];
    FillPairs(t.rows, SymbolColumns(t.fieldnames), CompanyColumns(t.fieldnames), p);
  }

  /** For a dataset read to the end, the map holds for each symbol the
      company of the last row with that symbol. */
  lemma SymbolCompanyMapLastRow(listing: Option<seq<Entry>>, tables: map<string, CsvRead>, i: nat, k: string, v: string)
    requires LatestEodCsv(listing).Some? && Readable(tables, LatestEodCsv(listing).value.name)
    requires var t := tables[LatestEodCsv(listing).value.name];
      var symKeys, compKeys := SymbolColumns(t.fieldnames), CompanyColumns(t.fieldnames);
      && i < |t.rows| && RowEntry(t.rows[i], symKeys, compKeys) == Some((k, v))
      && forall j :: i < j < |t.rows| ==> RowEntry(t.rows[j], symKeys, compKeys).None? || RowEntry(t.rows[j], symKeys, compKeys).value.0 != k
    ensures Get(SymbolCompanyMap(listing, tables), k) == Some(v)
  {
    var t := tables[LatestEodCsv(listing).value.name];
    LastRowWins(t.rows, SymbolColumns(t.fieldnames), CompanyColumns(t.fieldnames), i, k, v);
  }

  /** The row loop, filling `mapping` one row at a time. */
  method BuildSymbolToCompanyMap(listing: Option<seq<Entry>>, tables: map<string, CsvRead>) returns (mapping: Dict)
    ensures mapping == SymbolCompanyMap(listing, tables)
  {
    var csv := LatestEodCsv(listing);
    if csv.None? || !Readable(tables, csv.value.name) {
      return [];
    }
    var t := tables[csv.value.name];
    var symKeys := SymbolColumns(t.fieldnames);
    var compKeys := CompanyColumns(t.fieldnames);
    mapping := [];
    for i := 0 to |t.rows|
      invariant mapping == Fill(t.rows[..i], symKeys, compKeys)
    {
      assert t.rows[..i + 1][..i] == t.rows[..i];
      assert Fill(t.rows[..i + 1], symKeys, compKeys) == Step(mapping, t.rows[i], symKeys, compKeys);
      var entry := RowEntry(t.rows[i], symKeys, compKeys);
      if entry.Some? {
        mapping := Put(mapping, entry.value.0, entry.value.1);
      }
    }
    assert t.rows[..|t.rows|] == t.rows;
  }

  // ---------------------------------------------------------------------
  // Naming the company behind a file
  // ---------------------------------------------------------------------

  /** `[A-Z0-9\.\-]` */
  predicate InGuessClass(c: char) {
    IsUpperAscii(c) || IsDigit(c) || c == '.' || c == '-'
  }

  /** Length of the leading run of `InGuessClass` characters, at most `limit`. */
  function ClassRun(s: string, limit: nat): (n: nat)
    ensures n <= |s| && n <= limit
    ensures forall k :: 0 <= k < n ==> InGuessClass(s[k])
    ensures n < |s| && n < limit ==> !InGuessClass(s[n])
  {
    if s == [] || limit == 0 || !InGuessClass(s[0]) then 0 else 1 + ClassRun(s[1..], limit - 1)
  }

  /** `splitext(fname)[0].strip().upper()`: no lower-case letter and no
      surrounding whitespace, and no longer than the name. */
  function GuessBase(fname: string): (g: string)
    ensures |g| <= |fname|
    ensures forall k :: 0 <= k < |g| ==> !IsLowerAscii(g[k])
    ensures g == [] || (!IsSpace(g[0]) && !IsSpace(g[|g| - 1]))
  {
    Upper(Strip(SplitExtRoot(fname)))
  }

  /** The base of a dotted name is its stem, stripped and upper-cased. */
  lemma GuessBaseDropsExt(stem: string, ext: string)
    requires '.' !in ext
    requires exists k :: 0 <= k < |stem| && stem[k] != '.'
    ensures GuessBase(stem + "." + ext) == Upper(Strip(stem))
  {
    SplitExtDropsExt(stem, ext);
  }

  /** A name without a dot keeps all of itself, stripped and upper-cased. */
  lemma GuessBaseNoExt(fname: string)
    requires '.' !in fname
    ensures GuessBase(fname) == Upper(Strip(fname))
  {
    SplitExtNoDot(fname);
  }

  /** The ticker guess: the base, cut to its longest leading run of at most
      20 characters of `[A-Z0-9.-]` when it starts with one. */
  function TickerGuess(fname: string): (g: string)
    ensures var base := GuessBase(fname);
      (base == [] || !InGuessClass(base[0])) ==> g == base
    ensures var base := GuessBase(fname);
      base != [] && InGuessClass(base[0]) ==>
        && 1 <= |g| <= 20 && |g| <= |base| && g == base[..|g|]
        && (forall k :: 0 <= k < |g| ==> InGuessClass(g[k]))
        && (|g| == 20 || |g| == |base| || !InGuessClass(base[|g|]))
  {
    var base := GuessBase(fname);
    var n := ClassRun(base, 20);
    if n > 0 then base[..n] else base
  }

  /** `k_sym.upper() in guess or (k_comp and k_comp.upper() in guess)` */
  predicate ItemHits(item: (string, string), guess: string) {
    Contains(guess, Upper(item.0)) || (item.1 != [] && Contains(guess, Upper(item.1)))
  }

  /** The scan over `mapping.items()`: the first item that hits. */
  function FirstHit(d: Dict, guess: string): (r: Option<nat>)
    ensures r.Some? ==> r.value < |d| && ItemHits(d[r.value], guess)
    ensures r.Some? ==> forall j :: 0 <= j < r.value ==> !ItemHits(d[j], guess)
    ensures r.None? ==> forall j :: 0 <= j < |d| ==> !ItemHits(d[j], guess)
  {
    if d == [] then None
    else if ItemHits(d[0], guess) then Some(0)
    else match FirstHit(d[1..], guess)
      case None => None
      case Some(j) => Some(j + 1)
  }

  /** The lookup chain: the guess, the guess without `.E1`, the first item
      that hits, and finally the guess itself. */
  function ResolveCompany(mapping: Dict, guess: string): (c: string)
    ensures Truthy(Get(mapping, guess)) ==> c == Get(mapping, guess).value
    ensures !Truthy(Get(mapping, guess)) && Truthy(Get(mapping, RemoveAll(guess, ".E1"))) ==>
      c == Get(mapping, RemoveAll(guess, ".E1")).value
    ensures !Truthy(Get(mapping, guess)) && !Truthy(Get(mapping, RemoveAll(guess, ".E1"))) && FirstHit(mapping, guess).None? ==>
      c == guess
    ensures (KeysDistinct(mapping) && !Truthy(Get(mapping, guess)) && !Truthy(Get(mapping, RemoveAll(guess, ".E1")))
             && FirstHit(mapping, guess).Some?) ==>
      c == if mapping[FirstHit(mapping, guess).value].1 != [] then mapping[FirstHit(mapping, guess).value].1 else guess
    ensures c == guess || exists k :: (k, c) in mapping
  {
    var direct := Get(mapping, guess);
    if Truthy(direct) then direct.value
    else
      var trimmed := Get(mapping, RemoveAll(guess, ".E1"));
      if Truthy(trimmed) then trimmed.value
      else match FirstHit(mapping, guess)
        case None => guess
        case Some(i) =>
          assert mapping[i].0 in Keys(mapping);
          assert KeysDistinct(mapping) ==> Get(mapping, mapping[i].0) == Some(mapping[i].1) by {
            if KeysDistinct(mapping) {
              GetDistinct(mapping, mapping[i].0, mapping[i].1);
            }
          }
          var hit := Get(mapping, mapping[i].0);
          if Truthy(hit) then hit.value else guess
  }

  /** A symbol the map knows resolves to its company. */
  lemma KnownSymbolResolves(mapping: Dict, guess: string, company: string)
    requires KeysDistinct(mapping) && (guess, company) in mapping && company != []
    ensures ResolveCompany(mapping, guess) == company
  {
    GetDistinct(mapping, guess, company);
  }

  /** A `.E1` guess the map does not know resolves through its bare symbol:
      `RELIANCE.E1` finds the company filed under `RELIANCE`. */
  lemma E1GuessResolves(mapping: Dict, stem: string, company: string)
    requires '.' !in stem
    requires KeysDistinct(mapping) && (stem, company) in mapping && company != []
    requires !Truthy(Get(mapping, stem + ".E1"))
    ensures ResolveCompany(mapping, stem + ".E1") == company
  {
    RemoveSuffix(stem, ".E1");
    GetDistinct(mapping, stem, company);
  }

  /** With an empty map every file is named after its guess. */
  lemma EmptyMapResolvesToGuess(guess: string)
    ensures ResolveCompany([], guess) == guess
  {
  }

  // ---------------------------------------------------------------------
  // The listing
  // ---------------------------------------------------------------------

  /** `fname.lower().endswith((".png", ".jpg", ".jpeg", ".avif", ".pdf"))` */
  predicate IsAnnouncementFile(name: string) {
    var low := Lower(name);
    EndsWith(low, ".png") || EndsWith(low, ".jpg") || EndsWith(low, ".jpeg")
      || EndsWith(low, ".avif") || EndsWith(low, ".pdf")
  }

  /** The extension test ignores case: `X.PDF` is kept like `x.pdf`. */
  lemma AnnouncementFileIgnoresCase(name: string)
    ensures IsAnnouncementFile(Upper(name)) == IsAnnouncementFile(name)
  {
    LowerUpper(name);
  }

  const FileRoute := "/announcements/file/"

  /** One element of `files`; `mtime` stands for `mtime_iso`. */
  datatype EnrichedFile = EnrichedFile(
    filename: string, tickerGuess: string, company: string,
    downloadUrl: string, sizeBytes: nat, mtime: int)

  datatype EnrichedListing = EnrichedListing(count: nat, files: seq<EnrichedFile>)

  /** One listed file: the guess from its name and the company the lookup
      chain gives for it. */
  function FileOf(e: Entry, mapping: Dict): (f: EnrichedFile)
    ensures f.tickerGuess == TickerGuess(e.name)
    ensures f.company == ResolveCompany(mapping, TickerGuess(e.name))
    ensures f.filename == e.name && f.downloadUrl == FileRoute + e.name
    ensures f.sizeBytes == e.size && f.mtime == e.mtime
  {
    var guess := TickerGuess(e.name);
    EnrichedFile(e.name, guess, ResolveCompany(mapping, guess), FileRoute + e.name, e.size, e.mtime)
  }

  /** An entry the loop keeps: an announcement file whose `os.stat` works. */
  predicate Kept(e: Entry) {
    IsAnnouncementFile(e.name) && e.statOk
  }

  /** The loop over the sorted names: one file per kept entry, in order. */
  function Collect(names: seq<Entry>, mapping: Dict): (files: seq<EnrichedFile>)
    ensures var kept := WithKey(names, Kept, true);
      |files| == |kept| && forall i :: 0 <= i < |files| ==> files[i] == FileOf(kept[i], mapping)
  {
    if names == [] then []
    else
      var init, last := names[..|names| - 1], names[|names| - 1];
      assert names == init + [last];
      WithKeyAppend(init, [last], Kept, true);
      Collect(init, mapping) + (if Kept(last) then [FileOf(last, mapping)] else [])
  }

  function MtimeOf(f: EnrichedFile): int { f.mtime }

  function FilenameOf(f: EnrichedFile): string { f.filename }

  /** The order of `sort(key=mtime_iso, reverse=True)`: later first. */
  predicate Later(a: int, b: int) { a > b }

  /** `list_announcements_enriched()` for the uploads folder listing (None:
      the folder does not exist) and the data folder the map is built from. */
  function ListEnriched(uploads: Option<seq<Entry>>, data: Option<seq<Entry>>, tables: map<string, CsvRead>)
    : (r: Result<EnrichedListing, HttpError>)
    ensures r.Err? <==> uploads.None?
    ensures r.Err? ==> r.error == ServerError(NoUploadsFolder)
    ensures r.Ok? ==> r.value.count == |r.value.files|
  {
    if uploads.None? then Err(ServerError(NoUploadsFolder))
    else
      var mapping := SymbolCompanyMap(data, tables);
      var files := SortBy(Collect(SortBy(uploads.value, NameOf, Less), mapping), MtimeOf, Later);
      Ok(EnrichedListing(|files|, files))
  }

  /** Each collected file describes a kept entry of the loop. */
  lemma CollectedAreKept(names: seq<Entry>, mapping: Dict, f: EnrichedFile) returns (e: Entry)
    requires f in Collect(names, mapping)
    ensures e in names && Kept(e) && f == FileOf(e, mapping)
  {
    var collected := Collect(names, mapping);
    var kept := WithKey(names, Kept, true);
    var i :| 0 <= i < |collected| && collected[i] == f;
    e := kept[i];
    assert e in kept;
    WithKeyMember(names, Kept, true, e);
  }

  /** Each listed file describes a kept upload. */
  lemma ListedAreKept(uploads: Option<seq<Entry>>, data: Option<seq<Entry>>, tables: map<string, CsvRead>, f: EnrichedFile)
    requires uploads.Some? && f in ListEnriched(uploads, data, tables).value.files
    ensures exists e :: e in uploads.value && Kept(e) && f == FileOf(e, SymbolCompanyMap(data, tables))
  {
    var mapping := SymbolCompanyMap(data, tables);
    var names := SortBy(uploads.value, NameOf, Less);
    var collected := Collect(names, mapping);
    assert ListEnriched(uploads, data, tables).value.files == SortBy(collected, MtimeOf, Later);
    SortByPermutes(collected, MtimeOf, Later);
    assert f in multiset(collected);
    var e := CollectedAreKept(names, mapping, f);
    SortByPermutes(uploads.value, NameOf, Less);
    assert e in multiset(uploads.value);
  }

  /** Every kept upload is listed. */
  lemma KeptAreListed(uploads: Option<seq<Entry>>, data: Option<seq<Entry>>, tables: map<string, CsvRead>, e: Entry)
    requires uploads.Some? && e in uploads.value && Kept(e)
    ensures FileOf(e, SymbolCompanyMap(data, tables)) in ListEnriched(uploads, data, tables).value.files
  {
    var mapping := SymbolCompanyMap(data, tables);
    var names := SortBy(uploads.value, NameOf, Less);
    var collected := Collect(names, mapping);
    var kept := WithKey(names, Kept, true);
    SortByPermutes(uploads.value, NameOf, Less);
    assert e in multiset(names);
    WithKeyMember(names, Kept, true, e);
    var i :| 0 <= i < |kept| && kept[i] == e;
    assert collected[i] == FileOf(e, mapping);
    SortByPermutes(collected, MtimeOf, Later);
    assert FileOf(e, mapping) in multiset(collected);
  }

  /** The files come newest first. */
  lemma ListedNewestFirst(uploads: Option<seq<Entry>>, data: Option<seq<Entry>>, tables: map<string, CsvRead>)
    requires uploads.Some?
    ensures var files := ListEnriched(uploads, data, tables).value.files;
      forall i, j :: 0 <= i < j < |files| ==> files[i].mtime >= files[j].mtime
  {
    var mapping := SymbolCompanyMap(data, tables);
    var collected := Collect(SortBy(uploads.value, NameOf, Less), mapping);
    SortBySorted(collected, MtimeOf, Later);
  }

  /** Collecting keeps the name order of the sorted listing. */
  lemma CollectSorted(names: seq<Entry>, mapping: Dict)
    requires Sorted(names, NameOf, Less)
    ensures Sorted(Collect(names, mapping), FilenameOf, Less)
  {
    var kept := WithKey(names, Kept, true);
    WithKeySorted(names, Kept, true, NameOf, Less);
    var files := Collect(names, mapping);
    assert forall i :: 0 <= i < |files| ==> FilenameOf(files[i]) == NameOf(kept[i]);
  }

  /** Files with the same mtime keep the name order of the listing. */
  lemma ListedTiesByName(uploads: Option<seq<Entry>>, data: Option<seq<Entry>>, tables: map<string, CsvRead>, t: int)
    requires uploads.Some?
    ensures var files := ListEnriched(uploads, data, tables).value.files;
      Sorted(WithKey(files, MtimeOf, t), FilenameOf, Less)
  {
    var mapping := SymbolCompanyMap(data, tables);
    var names := SortBy(uploads.value, NameOf, Less);
    var collected := Collect(names, mapping);
    LessIsStrict();
    SortBySorted(uploads.value, NameOf, Less);
    CollectSorted(names, mapping);
    SortByStable(collected, MtimeOf, Later, t);
    WithKeySorted(collected, MtimeOf, t, FilenameOf, Less);
  }

  /** The endpoint: the same loop, appending to `files`, then the sort. */
  method ListAnnouncementsEnriched(uploads: Option<seq<Entry>>, data: Option<seq<Entry>>, tables: map<string, CsvRead>)
    returns (r: Result<EnrichedListing, HttpError>)
    ensures r == ListEnriched(uploads, data, tables)
  {
    if uploads.None? {
      return Err(ServerError(NoUploadsFolder));
    }
    var mapping := BuildSymbolToCompanyMap(data, tables);
    var names := SortBy(uploads.value, NameOf, Less);
    var files := CollectFiles(names, mapping);
    files := SortBy(files, MtimeOf, Later);
    return Ok(EnrichedListing(|files|, files));
  }

  /** The loop over the sorted names, skipping other files and those whose
      `os.stat` fails. */
  method CollectFiles(names: seq<Entry>, mapping: Dict) returns (files: seq<EnrichedFile>)
    ensures files == Collect(names, mapping)
  {
    files := [];
    for i := 0 to |names|
      invariant files == Collect(names[..i], mapping)
    {
      CollectStep(names, i, mapping);
      if !IsAnnouncementFile(names[i].name) || !names[i].statOk {
        continue;
      }
      files := files + [FileOf(names[i], mapping)];
    }
    assert names[..|names|] == names;
  }

  /** One more name adds its file when the loop keeps it. */
  lemma CollectStep(names: seq<Entry>, i: nat, mapping: Dict)
    requires i < |names|
    ensures Collect(names[..i + 1], mapping) ==
      Collect(names[..i], mapping) + (if Kept(names[i]) then [FileOf(names[i], mapping)] else [])
  {
    assert names[..i + 1][..i] == names[..i];
  }
}
