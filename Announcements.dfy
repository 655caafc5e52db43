/**
 * `announcements.py`: the `/announcements/list-enriched` endpoint the
 * application registers. It lists every regular file in the uploads folder
 * with the symbol and company from a map read out of the greatest `.csv`
 * name in the data folder, a download URL and the date in the name.
 */
module Announcements {
  import opened Wrappers
  import opened Strings
  import opened DateTokens
  import opened Sorting
  import opened Tables

  // ---------------------------------------------------------------------
  // The date in a file name
  // ---------------------------------------------------------------------

  const NoDate := "no-date"

  /** The `Width` characters of `s` from position `i`. */
  function Window(s: string, i: nat): string
    requires i + Width <= |s|
  {
    s[i..i + Width]
  }

  /** `_extract_date_from_filename`: the leftmost loose date token as
      written, with no calendar check, or "no-date". */
  function ExtractDate(fname: string): (r: string)
    ensures r == NoDate <==> forall i :: 0 <= i && i + Width <= |fname| ==> !MatchesAt(Loose, fname, i)
    ensures r != NoDate ==> |r| == Width && MatchesAt(Loose, r, 0)
    ensures r != NoDate ==>
      exists i :: 0 <= i && i + Width <= |fname| && r == Window(fname, i) &&
        forall j :: 0 <= j < i ==> !MatchesAt(Loose, fname, j)
  {
    match Search(Loose, fname)
    case None => NoDate
    case Some(i) =>
      var t := Window(fname, i);
      assert t[0] == fname[i] && t[1] == fname[i + 1];
      t
  }

  // ---------------------------------------------------------------------
  // The symbol map
  // ---------------------------------------------------------------------

  /** `f.endswith(".csv")`, case-sensitive. */
  predicate IsCsv(name: string) {
    EndsWith(name, ".csv")
  }

  /** `sorted([...], reverse=True)[0]`: the greatest `.csv` name. */
  function GreatestCsv(listing: seq<Entry>): (r: Option<string>)
    ensures r.None? <==> forall e :: e in listing ==> !IsCsv(e.name)
    ensures r.Some? ==> IsCsv(r.value) && exists e :: e in listing && e.name == r.value
    ensures r.Some? ==> forall e :: e in listing && IsCsv(e.name) ==> !Less(r.value, e.name)
  {
    if listing == [] then None
    else
      var init, last := listing[..|listing| - 1], listing[|listing| - 1];
      assert listing == init + [last];
      var prev := GreatestCsv(init);
      if !IsCsv(last.name) then prev
      else if prev.None? then LessIrreflexive(last.name); Some(last.name)
      else if Less(prev.value, last.name) then
        LessIrreflexive(last.name);
        forall e | e in init && IsCsv(e.name)
          ensures !Less(last.name, e.name)
        {
          LessChain(prev.value, last.name, e.name);
        }
        Some(last.name)
      else prev
  }

  /** One value of the map. */
  datatype SymbolInfo = SymbolInfo(symbol: string, company: string)

  /** `row.get(k1) or row.get(k2) or ...`, read as the first present,
      non-empty value (when every one is falsy, so is the result). */
  function FirstTruthy(row: Row, keys: seq<string>): (r: Option<string>)
    ensures r.Some? ==> r.value != [] && exists i ::
      && 0 <= i < |keys| && Lookup(row, keys[i]) == r
      && forall j :: 0 <= j < i ==> !Truthy(Lookup(row, keys[j]))
    ensures r.None? <==> forall i :: 0 <= i < |keys| ==> !Truthy(Lookup(row, keys[i]))
  {
    if keys == [] then None
    else if Truthy(Lookup(row, keys[0])) then Lookup(row, keys[0])
    else
      var rest := FirstTruthy(row, keys[1..]);
      assert forall i :: 1 <= i < |keys| ==> keys[i] == keys[1..][i - 1];
      rest
  }

  const SymbolKeys: seq<string> := ["Symbol", "SYMBOL"]
  const CompanyKeys: seq<string> := ["Description", "Company", "Name"]

  /** What one row puts in the map when it has a symbol: the key is the
      symbol stripped and upper-cased, the company the stripped
      description, or the key when there is no description. */
  function RowInfo(row: Row): (r: Option<(string, SymbolInfo)>)
    ensures r.Some? <==> FirstTruthy(row, SymbolKeys).Some?
    ensures r.Some? ==> r.value.1.symbol == r.value.0
    ensures r.Some? ==> r.value.0 == Upper(Strip(FirstTruthy(row, SymbolKeys).value))
    ensures r.Some? ==>
      r.value.1.company == if FirstTruthy(row, CompanyKeys).Some? then Strip(FirstTruthy(row, CompanyKeys).value) else r.value.0
  {
    match FirstTruthy(row, SymbolKeys)
    case None => None
    case Some(sym) =>
      var key := Upper(Strip(sym));
      var desc := FirstTruthy(row, CompanyKeys);
      Some((key, SymbolInfo(key, if desc.Some? then Strip(desc.value) else key)))
  }

  /** What each row puts in the map, in row order. */
  function Infos(rows: seq<Row>): seq<Option<(string, SymbolInfo)>> {
    seq(|rows|, i requires 0 <= i < |rows| => RowInfo(rows[i]))
  }

  /** The map after the assignments, in order. */
  function Fill(infos: seq<Option<(string, SymbolInfo)>>): (m: map<string, SymbolInfo>)
    ensures |m| <= |infos|
  {
    if infos == [] then map[]
    else
      var m := Fill(infos[..|infos| - 1]);
      match infos[|infos| - 1]
      case None => m
      case Some(kv) => m[kv.0 := kv.1]
  }

  /** Every entry of the map was assigned. */
  lemma {:induction false} FillAssigned(infos: seq<Option<(string, SymbolInfo)>>, k: string)
    requires k in Fill(infos)
    ensures exists i :: 0 <= i < |infos| && infos[i] == Some((k, Fill(infos)[k]))
  {
    var init := infos[..|infos| - 1];
    var last := infos[|infos| - 1];
    if last.None? || last.value.0 != k {
      FillAssigned(init, k);
      var i :| 0 <= i < |init| && init[i] == Some((k, Fill(init)[k]));
      assert infos[i] == init[i];
    }
  }

  /** The last assignment to a key is the one that stays. */
  lemma {:induction false} FillLast(infos: seq<Option<(string, SymbolInfo)>>, i: nat, k: string, info: SymbolInfo)
    requires i < |infos| && infos[i] == Some((k, info))
    requires forall j :: i < j < |infos| ==> infos[j].None? || infos[j].value.0 != k
    ensures k in Fill(infos) && Fill(infos)[k] == info
  {
    var init := infos[..|infos| - 1];
    if i < |infos| - 1 {
      assert init[i] == infos[i];
      FillLast(init, i, k, info);
    }
  }

  /** Every key comes from a row, and its `symbol` field is the key. */
  lemma FillEntries(rows: seq<Row>, k: string)
    requires k in Fill(Infos(rows))
    ensures Fill(Infos(rows))[k].symbol == k
    ensures exists i :: 0 <= i < |rows| && RowInfo(rows[i]) == Some((k, Fill(Infos(rows))[k]))
  {
    FillAssigned(Infos(rows), k);
    var i :| 0 <= i < |rows| && Infos(rows)[i] == Some((k, Fill(Infos(rows))[k]));
    assert RowInfo(rows[i]) == Infos(rows)[i];
  }

  /** A later row with the same key replaces an earlier one. */
  lemma LastRowWins(rows: seq<Row>, i: nat, k: string, info: SymbolInfo)
    requires i < |rows| && RowInfo(rows[i]) == Some((k, info))
    requires forall j :: i < j < |rows| ==> RowInfo(rows[j]).None? || RowInfo(rows[j]).value.0 != k
    ensures k in Fill(Infos(rows)) && Fill(Infos(rows))[k] == info
  {
    FillLast(Infos(rows), i, k, info);
  }

  /** `_load_symbol_map()`: empty when the data folder cannot be listed, has
      no `.csv` name or the file cannot be opened; otherwise the map of the
      rows read, which after a failure part-way are the rows before it. */
  function SymbolMap(listing: Option<seq<Entry>>, tables: map<string, CsvRead>): (m: map<string, SymbolInfo>)
    ensures listing.None? ==> m == map[]
    ensures listing.Some? && GreatestCsv(listing.value).None? ==> m == map[]
    ensures listing.Some? && GreatestCsv(listing.value).Some? && GreatestCsv(listing.value).value !in tables ==> m == map[]
    ensures forall k :: k in m ==> m[k].symbol == k
  {
    if listing.None? then map[]
    else match GreatestCsv(listing.value)
      case None => map[]
      case Some(name) =>
        if name !in tables then map[]
        else
          var m := Fill(Infos(tables[name].rows));
          assert forall k :: k in m ==> m[k].symbol == k by {
            forall k | k in m
              ensures m[k].symbol == k
            {
              FillEntries(tables[name].rows, k);
            }
          }
          m
  }

  /** Every entry of the symbol map comes from a row of the chosen file,
      whether or not that file was read to the end. */
  lemma SymbolMapFromRows(listing: Option<seq<Entry>>, tables: map<string, CsvRead>, k: string)
    requires k in SymbolMap(listing, tables)
    ensures listing.Some? && GreatestCsv(listing.value).Some? && GreatestCsv(listing.value).value in tables
    ensures var rows := tables[GreatestCsv(listing.value).value].rows;
      exists i :: 0 <= i < |rows| && RowInfo(rows[i]) == Some((k, SymbolMap(listing, tables)[k]))
  {
    FillEntries(tables[GreatestCsv(listing.value).value].rows, k);
  }

  /** The symbol map holds, for each key, what the last row read with that
      key says, whether or not the file was read to the end. */
  lemma SymbolMapLastRow(listing: Option<seq<Entry>>, tables: map<string, CsvRead>, i: nat, k: string, info: SymbolInfo)
    requires listing.Some? && GreatestCsv(listing.value).Some? && GreatestCsv(listing.value).value in tables
    requires var rows := tables[GreatestCsv(listing.value).value].rows;
      && i < |rows| && RowInfo(rows[i]) == Some((k, info))
      && forall j :: i < j < |rows| ==> RowInfo(rows[j]).None? || RowInfo(rows[j]).value.0 != k
    ensures k in SymbolMap(listing, tables) && SymbolMap(listing, tables)[k] == info
  {
    LastRowWins(tables[GreatestCsv(listing.value).value].rows, i, k, info);
  }

  /** The row loop, filling `mapping` one row at a time. */
  method FillRows(rows: seq<Row>) returns (mapping: map<string, SymbolInfo>)
    ensures mapping == Fill(Infos(rows))
  {
    var infos := Infos(rows);
    mapping := map[];
    for i := 0 to |rows|
      invariant mapping == Fill(infos[..i])
    {
      assert infos[..i + 1][..i] == infos[..i];
      var info := RowInfo(rows[i]);
      assert info == infos[i];
      if info.Some? {
        mapping := mapping[info.value.0 := info.value.1];
      }
    }
    assert infos[..|rows|] == infos;
  }

  /** `_load_symbol_map()`: the file choice, then the row loop. */
  method LoadSymbolMap(listing: Option<seq<Entry>>, tables: map<string, CsvRead>) returns (mapping: map<string, SymbolInfo>)
    ensures mapping == SymbolMap(listing, tables)
  {
    if listing.None? {
      return map[];
    }
    var latest := GreatestCsv(listing.value);
    if latest.None? || latest.value !in tables {
      return map[];
    }
    mapping := FillRows(tables[latest.value].rows);
  }

  // ---------------------------------------------------------------------
  // The listing
  // ---------------------------------------------------------------------

  /** One element of `files`. */
  datatype ListedFile = ListedFile(
    filename: string, symbol: string, company: string,
    downloadUrl: string, filenameDate: string)

  datatype Listing = Listing(count: nat, files: seq<ListedFile>)

  const FileRoute := "/announcements/file/"

  /** `os.path.splitext(fname)[0].upper()`: a prefix of the name,
      upper-cased. */
  function SymbolGuess(fname: string): (g: string)
    ensures |g| <= |fname| && g == Upper(fname[..|g|])
    ensures forall k :: 0 <= k < |g| ==> !IsLowerAscii(g[k])
  {
    Upper(SplitExtRoot(fname))
  }

  /** The guess for `RELIANCE.pdf` is `RELIANCE`: the extension goes. */
  lemma SymbolGuessDropsExt(stem: string, ext: string)
    requires '.' !in ext
    requires exists k :: 0 <= k < |stem| && stem[k] != '.'
    ensures SymbolGuess(stem + "." + ext) == Upper(stem)
  {
    SplitExtDropsExt(stem, ext);
  }

  /** A name without a dot is its own guess, upper-cased. */
  lemma SymbolGuessNoExt(fname: string)
    requires '.' !in fname
    ensures SymbolGuess(fname) == Upper(fname)
  {
    SplitExtNoDot(fname);
  }

  /** The entry for one file: the map's symbol and company for the guess,
      or the guess for both. */
  function EntryOf(fname: string, symbols: map<string, SymbolInfo>, baseUrl: string): (f: ListedFile)
    ensures f.filename == fname && f.filenameDate == ExtractDate(fname)
    ensures f.downloadUrl == RStripChar(baseUrl, '/') + FileRoute + fname
    ensures SymbolGuess(fname) !in symbols ==> f.symbol == f.company == SymbolGuess(fname)
    ensures SymbolGuess(fname) in symbols ==>
      f.symbol == symbols[SymbolGuess(fname)].symbol && f.company == symbols[SymbolGuess(fname)].company
  {
    var guess := SymbolGuess(fname);
    var info := if guess in symbols then symbols[guess] else SymbolInfo(guess, guess);
    ListedFile(fname, info.symbol, info.company, RStripChar(baseUrl, '/') + FileRoute + fname, ExtractDate(fname))
  }

  function IsFileEntry(e: Entry): bool { e.isFile }

  /** The loop over the sorted names: one entry per regular file, in order. */
  function Entries(names: seq<Entry>, symbols: map<string, SymbolInfo>, baseUrl: string): (files: seq<ListedFile>)
    ensures var kept := WithKey(names, IsFileEntry, true);
      |files| == |kept| && forall i :: 0 <= i < |files| ==> files[i] == EntryOf(kept[i].name, symbols, baseUrl)
  {
    if names == [] then []
    else
      var init, last := names[..|names| - 1], names[|names| - 1];
      assert names == init + [last];
      WithKeyAppend(init, [last], IsFileEntry, true);
      Entries(init, symbols, baseUrl) + (if last.isFile then [EntryOf(last.name, symbols, baseUrl)] else [])
  }

  /** `announcements_list_enriched(request)` for the uploads listing (None:
      the folder cannot be listed), the data folder and the base URL. */
  function ListAnnouncements(uploads: Option<seq<Entry>>, data: Option<seq<Entry>>,
                             tables: map<string, CsvRead>, baseUrl: string): (r: Result<Listing, HttpError>)
    ensures r.Err? <==> uploads.None?
    ensures r.Err? ==> r.error == ServerError(NoUploadsFolder)
    ensures r.Ok? ==> r.value.count == |r.value.files|
  {
    if uploads.None? then Err(ServerError(NoUploadsFolder))
    else
      var files := Entries(SortBy(uploads.value, NameOf, Less), SymbolMap(data, tables), baseUrl);
      Ok(Listing(|files|, files))
  }

  /** Each entry is for a regular file of the folder, and every regular file
      has one. */
  lemma ListedAreFiles(uploads: Option<seq<Entry>>, data: Option<seq<Entry>>,
                       tables: map<string, CsvRead>, baseUrl: string, i: nat)
    requires uploads.Some? && i < |ListAnnouncements(uploads, data, tables, baseUrl).value.files|
    ensures var f := ListAnnouncements(uploads, data, tables, baseUrl).value.files[i];
      exists e :: e in uploads.value && e.isFile && f == EntryOf(e.name, SymbolMap(data, tables), baseUrl)
  {
    var names := SortBy(uploads.value, NameOf, Less);
    var kept := WithKey(names, IsFileEntry, true);
    assert kept[i] in kept;
    WithKeyMember(names, IsFileEntry, true, kept[i]);
    SortByPermutes(uploads.value, NameOf, Less);
    assert kept[i] in multiset(uploads.value);
  }

  lemma FilesAreListed(uploads: Option<seq<Entry>>, data: Option<seq<Entry>>,
                       tables: map<string, CsvRead>, baseUrl: string, e: Entry)
    requires uploads.Some? && e in uploads.value && e.isFile
    ensures EntryOf(e.name, SymbolMap(data, tables), baseUrl) in ListAnnouncements(uploads, data, tables, baseUrl).value.files
  {
    var names := SortBy(uploads.value, NameOf, Less);
    var kept := WithKey(names, IsFileEntry, true);
    SortByPermutes(uploads.value, NameOf, Less);
    assert e in multiset(names);
    WithKeyMember(names, IsFileEntry, true, e);
    var i :| 0 <= i < |kept| && kept[i] == e;
    var files := ListAnnouncements(uploads, data, tables, baseUrl).value.files;
    assert files[i] == EntryOf(e.name, SymbolMap(data, tables), baseUrl);
  }

  /** The entries come in file name order. */
  lemma ListedInNameOrder(uploads: Option<seq<Entry>>, data: Option<seq<Entry>>,
                          tables: map<string, CsvRead>, baseUrl: string)
    requires uploads.Some?
    ensures var files := ListAnnouncements(uploads, data, tables, baseUrl).value.files;
      forall i, j :: 0 <= i < j < |files| ==> !Less(files[j].filename, files[i].filename)
  {
    var names := SortBy(uploads.value, NameOf, Less);
    var kept := WithKey(names, IsFileEntry, true);
    LessIsStrict();
    SortBySorted(uploads.value, NameOf, Less);
    WithKeySorted(names, IsFileEntry, true, NameOf, Less);
  }

  /** The endpoint: the same loop, appending to `entries`. */
  method AnnouncementsListEnriched(uploads: Option<seq<Entry>>, data: Option<seq<Entry>>,
                                   tables: map<string, CsvRead>, baseUrl: string)
    returns (r: Result<Listing, HttpError>)
    ensures r == ListAnnouncements(uploads, data, tables, baseUrl)
  {
    var symbols := LoadSymbolMap(data, tables);
    if uploads.None? {
      return Err(ServerError(NoUploadsFolder));
    }
    var names := SortBy(uploads.value, NameOf, Less);
    var entries: seq<ListedFile> := [];
    for i := 0 to |names|
      invariant entries == Entries(names[..i], symbols, baseUrl)
    {
      assert names[..i + 1][..i] == names[..i];
      if !names[i].isFile {
        continue;
      }
      entries := entries + [EntryOf(names[i].name, symbols, baseUrl)];
    }
    assert names[..|names|] == names;
    return Ok(Listing(|entries|, entries));
  }
}
