# Market-news backend routers, modelled in Dafny

This project models the decision logic of three FastAPI routers of the
market-news backend:

- `market_summary.py` (`/market/summary/{ticker}`): picks the newest end-of-day
  CSV in the data folder, then finds the row a ticker names using five passes
  of decreasing strictness. From that row it builds the summary record.
- `announcements_enriched.py` (`/announcements/list-enriched`): picks an
  EOD dataset by (name date, mtime), builds a symbol-to-company dictionary from
  it, guesses a ticker from each uploaded file name, and resolves that ticker
  through a chain of fallbacks. It lists the image and PDF uploads newest first.
- `announcements.py`: the version of `/announcements/list-enriched` that
  the application registers. It reads a symbol map from the greatest `.csv`
  name and lists every regular upload in name order. Each upload gets its
  symbol, company, download URL and the date written in its name.

The outside world is passed in as values. A directory listing is an
`Option<seq<Entry>>` in `os.listdir` order, where None means the folder is
missing and each entry carries what `os.stat` reports. The CSV files are a
`map<string, CsvRead>`: a name that is absent cannot be opened, and
`complete == false` means an exception stopped the reader after the rows
given. HTTP errors are a `Result` with `BadRequest`, `NotFound` and
`ServerError`.

Module layout:

- `Strings`: the `str` builtins the routers use, ASCII case and whitespace.
- `Calendar`: Gregorian validity, chronological key and ISO format.
- `DateTokens`: a leftmost-match scanner for the two date regular expressions.
- `Selection`: first hit and first maximum, i.e. a stable `sort(reverse=True)[0]`.
- `Sorting`: stable insertion sort on sequences, for `sorted` and `list.sort`.
- `Dicts`: an insertion-ordered `dict`.
- `Tables`: listing entries, CSV rows and HTTP errors.
- One module per router.

The loops of the endpoints are `method`s: the `date_files` loop, the five
matching passes, the row loops that fill the symbol maps, and the loops over
the uploads. Each is proved equal to a function, and the properties are
proved about that function. The short lookup loops inside helpers are
recursive functions, because contracts elsewhere need their values. These
are `pick`, `header_get`, the `candidates` loop of `find_latest_csv_path`,
the key loops of `build_symbol_to_company_map` and the company fallback loop
(`Pick`, `HeaderGet`, `Candidates`, `FilledAt`, `FirstHit`).

## Model

| member | source | states |
|---|---|---|
| `MarketSummary.CsvFiles` | backend/app/routers/market_summary.py:23 | exactly the listing entries whose lower-cased name ends in `.csv` |
| `MarketSummary.DatedFiles` | backend/app/routers/market_summary.py:27-37 | the files whose first date token is a real date, each paired with that date; empty exactly when no name carries a valid date; every date valid |
| `MarketSummary.LatestCsv` | backend/app/routers/market_summary.py:13-46 | the chosen dataset is a `.csv` entry of the listing |
| `MarketSummary.LatestCsvExists` | backend/app/routers/market_summary.py:20-25 | no dataset exactly when the folder is missing or holds no `.csv` name |
| `MarketSummary.FirstMaxIsLatest` | backend/app/routers/market_summary.py:41-42 | element 0 of the descending sort by date is no earlier than any dated file |
| `MarketSummary.LatestCsvPrefersDates` | backend/app/routers/market_summary.py:27-42 | if any `.csv` name carries a valid date, the choice is dated and its date is not before that one |
| `MarketSummary.LatestCsvByMtime` | backend/app/routers/market_summary.py:44-46 | with no dated name, no `.csv` file has a later mtime than the choice |
| `MarketSummary.CollectDated` | backend/app/routers/market_summary.py:27-37 | the loop that fills `date_files` returns `DatedFiles` |
| `MarketSummary.FindLatestCsv` | backend/app/routers/market_summary.py:13-46 | the candidate filter, the `date_files` loop and the sort return `LatestCsv` |
| `MarketSummary.ColumnOf` | backend/app/routers/market_summary.py:54-57 | the first column whose stripped, lower-cased header equals the candidate lower-cased; None when there is none |
| `MarketSummary.Pick` | backend/app/routers/market_summary.py:51-60 | the earliest candidate that names a column decides and its first column's value comes back stripped; None when no candidate names a column |
| `MarketSummary.HeaderGetFirstColumn` | backend/app/routers/market_summary.py:131-137 | `header_get` returns the raw value of the first column in row order whose header is among the names |
| `MarketSummary.HeaderGetMissing` | backend/app/routers/market_summary.py:137 | no such column gives None |
| `MarketSummary.AlnumOnly` | backend/app/routers/market_summary.py:96 | the substitution leaves only ASCII letters and digits and never lengthens |
| `MarketSummary.AlnumOnlyKeeps` | backend/app/routers/market_summary.py:96 | a text of letters and digits is unchanged by the substitution |
| `MarketSummary.AlnumOnlyAppend` | backend/app/routers/market_summary.py:96 | the substitution distributes over concatenation |
| `MarketSummary.NormalizeText` | backend/app/routers/market_summary.py:93-96 | None gives `""`; the output alphabet is `A-Z0-9` |
| `MarketSummary.NormalizeStripIsNoOp` | backend/app/routers/market_summary.py:96 | the `.strip()` between substitution and `.upper()` changes nothing |
| `MarketSummary.AlnumOnlySpaces` | backend/app/routers/market_summary.py:96 | whitespace holds no letter or digit, so the substitution empties it |
| `MarketSummary.AlnumOnlyStrip` | backend/app/routers/market_summary.py:96 | stripping a text first keeps the same letters and digits |
| `MarketSummary.AlnumOnlyUpper` | backend/app/routers/market_summary.py:96 | keeping letters and digits commutes with `upper()` |
| `MarketSummary.NormalizeUpperStrip` | backend/app/routers/market_summary.py:121-122 | upper-casing or stripping the text first does not change `normalize_text` |
| `MarketSummary.NormalizeIdempotent` | backend/app/routers/market_summary.py:93-96 | normalising a normalised text gives it back |
| `MarketSummary.CleanNumber` | backend/app/routers/market_summary.py:62-66 | None exactly for a missing or empty value; the lemmas below tie the cleaned text to the input |
| `MarketSummary.CleanNumberIsBare` | backend/app/routers/market_summary.py:66 | the text handed to `float()` has no `,`, `%`, `₹` or `L` and no surrounding whitespace |
| `MarketSummary.CleanNumberNumeral` | backend/app/routers/market_summary.py:66 | the digits, `.`, `-` and `+` of the value all reach `float()`, in their order |
| `MarketSummary.CleanNumberDropsCr` | backend/app/routers/market_summary.py:66 | a numeral followed by ` Cr` reaches `float()` as the numeral alone |
| `MarketSummary.CleanNumberKeepsBare` | backend/app/routers/market_summary.py:66 | a non-empty value with no `,`, `%`, `₹`, `L` or `Cr` and no surrounding whitespace reaches `float()` unchanged |
| `MarketSummary.CleanVolume` | backend/app/routers/market_summary.py:204-209 | None exactly for a missing or empty volume; otherwise the text has no comma |
| `MarketSummary.CleanVolumeNumeral` | backend/app/routers/market_summary.py:207 | the volume keeps its digits, `.`, `-` and `+` in order, and dropping commas removes every comma and nothing else |
| `MarketSummary.CleanVolumeKeepsBare` | backend/app/routers/market_summary.py:207 | a non-empty volume with no comma and no surrounding whitespace reaches `float()` unchanged |
| `MarketSummary.ParseRank` | backend/app/routers/market_summary.py:214-218 | a rank exactly when the value is truthy and all digits once stripped |
| `MarketSummary.RankRoundTrip` | backend/app/routers/market_summary.py:216 | a number written in decimal is read back as itself |
| `MarketSummary.RupeeAmount` | backend/app/routers/market_summary.py:71-83 | crore from 1e7, lakh from 1e5, rupees below; the printed amount times the unit is the value |
| `MarketSummary.AlnumRun` | backend/app/routers/market_summary.py:175 | the length of the leading run of letters and digits, and that run is maximal |
| `MarketSummary.Tokens` | backend/app/routers/market_summary.py:175-176 | the non-empty split pieces: each is non-empty and all letters and digits, and together they spell the query's letters and digits in order |
| `MarketSummary.TokensInOrder` | backend/app/routers/market_summary.py:175-176 | the pieces are the query's runs in the order they occur, each once: piece `i` is the whole run at the `i`-th position of `TokenStarts`, those positions increase strictly, and every run starts at one of them |
| `MarketSummary.TokensAreRuns` | backend/app/routers/market_summary.py:175-176 | each piece is a whole run of the query: it occurs there with no letter or digit right before or right after it |
| `MarketSummary.RunOccurs` | backend/app/routers/market_summary.py:183 | a whole run of the query occurs, lower-cased, in the lower-cased query |
| `MarketSummary.FirstTokenInQuery` | backend/app/routers/market_summary.py:175-177 | a query with a letter or digit has a first token, non-empty once lower-cased, that occurs in the lower-cased query |
| `MarketSummary.CompanyHasToken` | backend/app/routers/market_summary.py:164-187 | a company text that contains the query, ignoring case, passes the token loop when the query has a letter or digit |
| `MarketSummary.ExactSymbol` | backend/app/routers/market_summary.py:139-144 | pass 1 (the stripped symbol equals the query, ignoring case) accepts only rows that pass 2 accepts |
| `MarketSummary.NormalizedSymbol` | backend/app/routers/market_summary.py:146-153 | pass 2 (symbol and query equal once normalised) accepts only rows that pass 3 accepts |
| `MarketSummary.SymbolContains` | backend/app/routers/market_summary.py:155-162 | pass 3 accepts every row with a symbol when the query normalises to `""` |
| `MarketSummary.CompanyContains` | backend/app/routers/market_summary.py:164-171 | pass 4: the company text contains the query, ignoring case on both sides, so an upper-cased query passes exactly when the query does |
| `MarketSummary.CompanyContainsToken` | backend/app/routers/market_summary.py:164-187 | for a query with a letter or digit, every row that pass 4 accepts is accepted by pass 5 |
| `MarketSummary.TokenInCompany` | backend/app/routers/market_summary.py:173-187 | pass 5 accepts a row only when the query has a letter or digit |
| `MarketSummary.SomeTokenInMeans` | backend/app/routers/market_summary.py:182-185 | the token loop succeeds exactly when some token, lower-cased, is non-empty and occurs in the company text |
| `MarketSummary.FirstIn` | backend/app/routers/market_summary.py:139-187 | the first row that a pass accepts; None when it accepts no row |
| `MarketSummary.MatchFrom` | backend/app/routers/market_summary.py:146-187 | from a given pass on, the earliest pass that accepts any row decides, with its first row |
| `MarketSummary.Match` | backend/app/routers/market_summary.py:139-189 | the five passes in order: the chosen row is accepted by its pass, no earlier pass accepts any row, and no earlier row is accepted by that pass; None when no pass accepts a row |
| `MarketSummary.PunctuationQueryMatchesAnySymbol` | backend/app/routers/market_summary.py:155-162 | a query with no letter or digit matches, by pass 3 at the latest, whenever some row has a symbol |
| `MarketSummary.ExactSymbolPass` | backend/app/routers/market_summary.py:139-144 | the loop with `break` finds the first row whose stripped, upper-cased symbol equals the query |
| `MarketSummary.NormalizedSymbolPass` | backend/app/routers/market_summary.py:146-153 | the loop finds the first row whose normalised symbol equals the normalised query |
| `MarketSummary.SymbolContainsPass` | backend/app/routers/market_summary.py:155-162 | the loop finds the first row whose symbol contains the query, upper-cased or normalised |
| `MarketSummary.CompanyContainsPass` | backend/app/routers/market_summary.py:164-171 | the loop finds the first row whose company contains the lower-cased query |
| `MarketSummary.TokenPass` | backend/app/routers/market_summary.py:173-187 | the nested loops find the first row whose company contains a query token |
| `MarketSummary.FindMatch` | backend/app/routers/market_summary.py:124-187 | running each pass only when the earlier ones found nothing selects the row `Match` selects |
| `MarketSummary.EodDate` | backend/app/routers/market_summary.py:241-252 | a date exactly when there is a strict token, it is also a loose token, and its digits form a real date; that date is the token with `_` written as `-`, in `YYYY-MM-DD` shape |
| `MarketSummary.ShownTicker` | backend/app/routers/market_summary.py:255 | the picked symbol when truthy, else the requested ticker, stripped and upper-cased: no lower-case letter and no surrounding whitespace |
| `MarketSummary.SummaryOf` | backend/app/routers/market_summary.py:192-280 | each field is its source: the shown ticker; the company when truthy, else absent; `csv_filename` and its `eod_date`; each number the cleaned value picked from its column list; raw volume and market cap as picked; the parsed rank; beta only from a truthy value |
| `MarketSummary.NoPriceColumnNoPrice` | backend/app/routers/market_summary.py:194-195 | a row with none of the price columns has no price |
| `MarketSummary.SummaryResponse` | backend/app/routers/market_summary.py:104-190 | 500 exactly when there is no dataset, or it cannot be read; 400 exactly when it is read and the ticker strips to empty; 404 names the ticker and dataset; a summary names the dataset; never the missing-uploads 500 |
| `MarketSummary.SummaryNotFound` | backend/app/routers/market_summary.py:189-190 | a 404 means no pass accepts any row of the dataset |
| `MarketSummary.SummaryFound` | backend/app/routers/market_summary.py:189-194 | a summary is built from the row `Match` selects, which its pass accepts |
| `MarketSummary.SummaryNotFoundWhenNoMatch` | backend/app/routers/market_summary.py:189-190 | a readable dataset in which no pass accepts any row answers a non-blank ticker with a 404 naming the ticker and the dataset |
| `MarketSummary.SummaryFoundWhenMatch` | backend/app/routers/market_summary.py:139-194 | when some pass accepts some row, the answer is the summary of the row `Match` selects, from that pass or an earlier one |
| `MarketSummary.Summarize` | backend/app/routers/market_summary.py:98-282 | the endpoint returns `SummaryResponse` |
| `AnnouncementsEnriched.Candidates` | backend/app/routers/announcements_enriched.py:16-22 | exactly the entries whose lower-cased name ends in `.csv` and mentions `eod` or `latest` |
| `AnnouncementsEnriched.ScoreOf` | backend/app/routers/announcements_enriched.py:24-37 | the second part is the mtime; the first is positive exactly when the name carries a real date, 0 otherwise |
| `AnnouncementsEnriched.LatestEodCsv` | backend/app/routers/announcements_enriched.py:14-39 | a candidate of the listing; None exactly when the folder is missing or there is no candidate |
| `AnnouncementsEnriched.LatestEodIsBest` | backend/app/routers/announcements_enriched.py:38-39 | no candidate scores above the chosen one |
| `AnnouncementsEnriched.LatestEodRanking` | backend/app/routers/announcements_enriched.py:23-39 | a dated file beats an undated one; a later date wins; on the same date the larger mtime wins; an undated winner has the largest mtime |
| `AnnouncementsEnriched.StripAll` | backend/app/routers/announcements_enriched.py:51 | the headers, each stripped, in order |
| `AnnouncementsEnriched.NamedAmong` | backend/app/routers/announcements_enriched.py:52-53 | exactly the headers whose lower-case form is a recognised name |
| `AnnouncementsEnriched.NamedAmongAppend` | backend/app/routers/announcements_enriched.py:52-53 | the filter of a concatenation is the concatenation of the filters, so the kept headers stay in header order |
| `AnnouncementsEnriched.NamedAmongOne` | backend/app/routers/announcements_enriched.py:52-53 | a single header is kept exactly when its lower-case form is a recognised name |
| `AnnouncementsEnriched.KeyColumns` | backend/app/routers/announcements_enriched.py:52-58 | the recognised headers in header order (`NamedAmong`); when there are none, the header at the fallback position if it exists, else none |
| `AnnouncementsEnriched.SymbolColumns` | backend/app/routers/announcements_enriched.py:51-56 | `symbol_keys`: the stripped headers named like a symbol, in header order; when there are none, the first stripped header, or none for an empty header row |
| `AnnouncementsEnriched.CompanyColumns` | backend/app/routers/announcements_enriched.py:51-58 | `comp_keys`: the stripped headers named like a company, in header order; when there are none, the second stripped header, or none with fewer than two headers |
| `AnnouncementsEnriched.FilledAt` | backend/app/routers/announcements_enriched.py:62-69 | the first key whose value in the row is present and non-empty |
| `AnnouncementsEnriched.FirstFilled` | backend/app/routers/announcements_enriched.py:62-69 | the value of the first key that is present and non-empty in the row, stripped; None exactly when no key is |
| `AnnouncementsEnriched.RowEntry` | backend/app/routers/announcements_enriched.py:59-71 | a row contributes exactly when its stripped symbol is non-empty; the key is the symbol upper-cased, a map key; the value is the stripped company when non-empty, and otherwise the stripped symbol |
| `AnnouncementsEnriched.UpperIsMapKey` | backend/app/routers/announcements_enriched.py:70-71 | a non-empty symbol with no surrounding whitespace, upper-cased, is non-empty, has no lower-case letter and no surrounding whitespace |
| `AnnouncementsEnriched.Step` | backend/app/routers/announcements_enriched.py:70-71 | one row adds at most one key |
| `AnnouncementsEnriched.Fill` | backend/app/routers/announcements_enriched.py:59-71 | the map has at most one key per row |
| `AnnouncementsEnriched.FillPairs` | backend/app/routers/announcements_enriched.py:59-71 | every pair of the map comes from a row, with a non-empty, stripped, upper-case key and a non-empty company |
| `AnnouncementsEnriched.FillDistinct` | backend/app/routers/announcements_enriched.py:71 | no symbol appears twice in the map |
| `AnnouncementsEnriched.LastRowWins` | backend/app/routers/announcements_enriched.py:71 | the map holds what the last row with a given symbol says |
| `AnnouncementsEnriched.FillKeys` | backend/app/routers/announcements_enriched.py:59-71 | the map's keys are the rows' symbols in the order each is first assigned, each once |
| `AnnouncementsEnriched.SymbolCompanyMap` | backend/app/routers/announcements_enriched.py:41-75 | empty when there is no dataset or reading it fails anywhere, never partial; keys distinct |
| `AnnouncementsEnriched.SymbolCompanyMapFromRows` | backend/app/routers/announcements_enriched.py:59-71 | every pair of the map comes from a row of the chosen dataset, which was read to the end |
| `AnnouncementsEnriched.SymbolCompanyMapLastRow` | backend/app/routers/announcements_enriched.py:71 | for a dataset read to the end, each symbol maps to what the last row with that symbol says |
| `AnnouncementsEnriched.BuildSymbolToCompanyMap` | backend/app/routers/announcements_enriched.py:41-75 | the row loop returns `SymbolCompanyMap` |
| `AnnouncementsEnriched.ClassRun` | backend/app/routers/announcements_enriched.py:107 | the leading run of `[A-Z0-9.-]`, at most the limit, and maximal below it |
| `AnnouncementsEnriched.GuessBase` | backend/app/routers/announcements_enriched.py:103-104 | `splitext(fname)[0].strip().upper()` is no longer than the name, has no lower-case letter and no surrounding whitespace |
| `AnnouncementsEnriched.GuessBaseDropsExt` | backend/app/routers/announcements_enriched.py:103-104 | for `stem + "." + ext`, with no dot in `ext` and a non-dot in `stem`, the base is the stem stripped and upper-cased: the extension is gone |
| `AnnouncementsEnriched.GuessBaseNoExt` | backend/app/routers/announcements_enriched.py:103-104 | a name without a dot gives the whole name, stripped and upper-cased |
| `AnnouncementsEnriched.TickerGuess` | backend/app/routers/announcements_enriched.py:103-109 | the stripped, upper-cased base when it does not start with `[A-Z0-9.-]`; otherwise its longest leading run of those characters, 1 to 20 long |
| `AnnouncementsEnriched.FirstHit` | backend/app/routers/announcements_enriched.py:113-116 | the first item, in insertion order, whose key or upper-cased company occurs in the guess |
| `AnnouncementsEnriched.ResolveCompany` | backend/app/routers/announcements_enriched.py:110-118 | a truthy direct lookup wins; then a truthy lookup without `.E1`; then, with distinct keys, the first hitting item's company when non-empty, else the guess; with no hit, the guess; the result is always the guess or a company of the map |
| `AnnouncementsEnriched.KnownSymbolResolves` | backend/app/routers/announcements_enriched.py:110 | a symbol the map holds resolves to its company |
| `AnnouncementsEnriched.E1GuessResolves` | backend/app/routers/announcements_enriched.py:110 | when the map lacks `STEM.E1` but holds `STEM` (no dot in it) with a company, the guess `STEM.E1` resolves to that company |
| `AnnouncementsEnriched.EmptyMapResolvesToGuess` | backend/app/routers/announcements_enriched.py:117-118 | with an empty map the company is the guess |
| `AnnouncementsEnriched.FileOf` | backend/app/routers/announcements_enriched.py:102-126 | the record holds the file name, the ticker guess of the name, the company resolved for that guess, the URL `/announcements/file/` plus the name, and the size and mtime |
| `AnnouncementsEnriched.AnnouncementFileIgnoresCase` | backend/app/routers/announcements_enriched.py:96 | the extension test ignores case: a name is kept exactly when its upper-cased form is |
| `AnnouncementsEnriched.Collect` | backend/app/routers/announcements_enriched.py:94-129 | one record per image or PDF whose `os.stat` works, in listing order |
| `AnnouncementsEnriched.ListEnriched` | backend/app/routers/announcements_enriched.py:77-134 | 500 exactly when the uploads folder is missing; `count` is the number of files |
| `AnnouncementsEnriched.CollectStep` | backend/app/routers/announcements_enriched.py:94-129 | one more name adds its record exactly when the loop keeps it |
| `AnnouncementsEnriched.CollectFiles` | backend/app/routers/announcements_enriched.py:94-129 | the loop with `continue` returns `Collect` |
| `AnnouncementsEnriched.CollectedAreKept` | backend/app/routers/announcements_enriched.py:94-129 | each collected record describes an entry the loop keeps |
| `AnnouncementsEnriched.ListedAreKept` | backend/app/routers/announcements_enriched.py:94-129 | each listed file describes an image or PDF upload whose `os.stat` works |
| `AnnouncementsEnriched.KeptAreListed` | backend/app/routers/announcements_enriched.py:94-129 | every such upload is listed |
| `AnnouncementsEnriched.ListedNewestFirst` | backend/app/routers/announcements_enriched.py:132 | the files come newest first |
| `AnnouncementsEnriched.CollectSorted` | backend/app/routers/announcements_enriched.py:94 | the records keep the name order of the sorted listing |
| `AnnouncementsEnriched.ListedTiesByName` | backend/app/routers/announcements_enriched.py:94-132 | files with the same mtime stay in name order, because the sort is stable |
| `AnnouncementsEnriched.ListAnnouncementsEnriched` | backend/app/routers/announcements_enriched.py:77-134 | the loop with `continue`, then the in-place sort, returns `ListEnriched` |
| `Announcements.ExtractDate` | backend/app/routers/announcements.py:14-18 | "no-date" exactly when no window matches; otherwise the leftmost matching window, verbatim |
| `Announcements.GreatestCsv` | backend/app/routers/announcements.py:26-32 | None exactly when no name ends in `.csv`; otherwise such a name, not below any other |
| `Announcements.FirstTruthy` | backend/app/routers/announcements.py:36-37 | the `or` chain: a non-empty value of some key, every earlier key missing or empty; None exactly when every key is missing or empty |
| `Announcements.RowInfo` | backend/app/routers/announcements.py:36-42 | an entry exactly when a symbol is present: key the symbol stripped and upper-cased, `symbol` the key, `company` the stripped description or else the key |
| `Announcements.Fill` | backend/app/routers/announcements.py:35-42 | the dictionary has at most one entry per row |
| `Announcements.FillAssigned` | backend/app/routers/announcements.py:39 | every entry of the dictionary was assigned by some row |
| `Announcements.FillLast` | backend/app/routers/announcements.py:39 | the last assignment to a key is the one that stays |
| `Announcements.FillEntries` | backend/app/routers/announcements.py:35-42 | every entry of the map comes from a row, and its `symbol` is its key |
| `Announcements.LastRowWins` | backend/app/routers/announcements.py:35-42 | the map holds what the last row with a given key says |
| `Announcements.SymbolMap` | backend/app/routers/announcements.py:20-45 | empty without a data folder, a `.csv` name or an openable file; every entry's `symbol` is its key |
| `Announcements.SymbolMapFromRows` | backend/app/routers/announcements.py:35-45 | every entry comes from a row read from the chosen file, whether or not the reader stopped part-way |
| `Announcements.SymbolMapLastRow` | backend/app/routers/announcements.py:35-45 | each key holds what the last row read with that key says, whether or not the reader stopped part-way |
| `Announcements.FillRows` | backend/app/routers/announcements.py:35-42 | the row loop builds the map of the rows' assignments |
| `Announcements.LoadSymbolMap` | backend/app/routers/announcements.py:20-45 | the file choice and row loop return `SymbolMap` |
| `Announcements.SymbolGuess` | backend/app/routers/announcements.py:60 | `splitext(fname)[0].upper()`: a prefix of the name, upper-cased, with no lower-case letter |
| `Announcements.SymbolGuessDropsExt` | backend/app/routers/announcements.py:60 | for `stem + "." + ext`, with no dot in `ext` and a non-dot in `stem`, the guess is the upper-cased stem: `RELIANCE.pdf` gives `RELIANCE` |
| `Announcements.SymbolGuessNoExt` | backend/app/routers/announcements.py:60 | a name without a dot is its own guess, upper-cased |
| `Announcements.EntryOf` | backend/app/routers/announcements.py:60-73 | URL is the base without trailing `/`, then `/announcements/file/`, then the name; `filename_date` from the extractor; an unmatched guess gives `symbol == company == guess` |
| `Announcements.Entries` | backend/app/routers/announcements.py:56-73 | one entry per regular file, in listing order |
| `Announcements.ListAnnouncements` | backend/app/routers/announcements.py:47-77 | 500 exactly when the uploads folder cannot be listed; `count` is the number of entries |
| `Announcements.ListedAreFiles` | backend/app/routers/announcements.py:56-59 | each entry describes a regular file of the folder |
| `Announcements.FilesAreListed` | backend/app/routers/announcements.py:56-59 | every regular file has its entry |
| `Announcements.ListedInNameOrder` | backend/app/routers/announcements.py:56 | entries come in file name order |
| `Announcements.AnnouncementsListEnriched` | backend/app/routers/announcements.py:47-77 | the loop with `continue` returns `ListAnnouncements` |
| `Strings.Strip` | backend/app/routers/market_summary.py:117 | the result is the slice of the input after its leading whitespace; only whitespace lies before and after it, and neither end of it is whitespace |
| `Strings.StripCuts` | backend/app/routers/market_summary.py:117 | `rstrip()` after `lstrip()` leaves such a slice, starting with a non-space |
| `Strings.TrimStartCuts` | backend/app/routers/market_summary.py:117 | `lstrip()` leaves a suffix and cuts only whitespace |
| `Strings.TrimEndCuts` | backend/app/routers/market_summary.py:117 | `rstrip()` leaves a prefix and cuts only whitespace |
| `Strings.StripKeeps` | backend/app/routers/market_summary.py:66 | `strip()` introduces no character |
| `Strings.StripNoSpace` | backend/app/routers/market_summary.py:96 | a text without whitespace is its own `strip()` |
| `Strings.RemoveAll` | backend/app/routers/announcements_enriched.py:110 | `replace(pat, "")` never lengthens and keeps only characters of the input; the lemmas below say what it removes and keeps |
| `Strings.RemoveAllLeftmost` | backend/app/routers/announcements_enriched.py:110 | with the leftmost occurrence of the pattern at `i`, the result is the text before `i` followed by the removal applied after the occurrence; with `RemoveAllAbsent` this fixes the result for every pattern |
| `Strings.RemoveSuffix` | backend/app/routers/announcements_enriched.py:110 | a suffix whose first character the stem lacks comes off whole: `RELIANCE.E1` minus `.E1` is `RELIANCE` |
| `Strings.StripTrailingSpace` | backend/app/routers/market_summary.py:66 | blanks after a trimmed text are stripped away, leaving the text |
| `Strings.RemoveAllAbsent` | backend/app/routers/announcements_enriched.py:110 | a text that does not contain the pattern is left as it is |
| `Strings.RemoveAllCharCount` | backend/app/routers/market_summary.py:66 | removing a one-character pattern deletes every occurrence of that character and keeps every other character as often as it occurs |
| `Strings.NumeralRemoveAll` | backend/app/routers/market_summary.py:66 | removing a pattern without digits, `.`, `-` or `+` keeps those characters of the text, in order |
| `Strings.RemoveAllChar` | backend/app/routers/market_summary.py:66 | `replace(c, "")` leaves no `c` |
| `Strings.RemoveAllKeeps` | backend/app/routers/market_summary.py:66 | `replace(pat, "")` introduces no character |
| `Strings.ContainsAt` | backend/app/routers/market_summary.py:160 | `sub in s` exactly when `sub` occurs at some position of `s` |
| `Strings.ContainsTransitive` | backend/app/routers/market_summary.py:164-185 | containment is transitive |
| `Strings.SplitExtRoot` | backend/app/routers/announcements.py:60 | `splitext(name)[0]` is a prefix of the name; it is shorter exactly when a `.` follows some non-dot character, and then the cut is at the last `.` and the root keeps a character other than `.` |
| `Strings.SplitExtDropsExt` | backend/app/routers/announcements.py:60 | `stem + "." + ext`, with no dot in `ext` and a non-dot in `stem`, splits to `stem` |
| `Strings.SplitExtNoDot` | backend/app/routers/announcements.py:60 | a name without a dot is its own root |
| `Strings.LastIndexOf` | backend/app/routers/announcements.py:60 | the last position of the character, or -1 |
| `Strings.RStripChar` | backend/app/routers/announcements.py:62 | `rstrip("/")` is a prefix, does not end in `/`, and cuts only `/` |
| `Strings.LessIrreflexive` | backend/app/routers/announcements.py:26-29 | no name sorts before itself |
| `Strings.LessTransitive` | backend/app/routers/announcements.py:26-29 | name order is transitive |
| `Strings.LessTotal` | backend/app/routers/announcements.py:26-29 | any two distinct names are ordered |
| `Strings.DecimalRoundTrip` | backend/app/routers/market_summary.py:216 | `int(str(n)) == n` |
| `Calendar.KeyIsChronological` | backend/app/routers/announcements_enriched.py:31-33 | the key that stands for the timestamp orders valid dates chronologically, is positive and is injective |
| `Calendar.IsValid` | backend/app/routers/market_summary.py:247 | a valid date has month 1-12 and day 1-31, and February 29 only in a leap year |
| `Calendar.IsoFormat` | backend/app/routers/market_summary.py:247 | `YYYY-MM-DD` shape |
| `DateTokens.Search` | backend/app/routers/market_summary.py:28-30 | `re.search`: the leftmost matching window, or None when no window matches |
| `DateTokens.StrictIsLoose` | backend/app/routers/market_summary.py:243 | a strict match is a loose match |
| `DateTokens.IsoOfToken` | backend/app/routers/market_summary.py:247-250 | the ISO form of a token's valid date is the token with `_` written as `-` |
| `DateTokens.TokenDate` | backend/app/routers/market_summary.py:33-34 | the date the window spells: year `2000 + 10·s[i+2] + s[i+3]`, month `10·s[i+5] + s[i+6]`, day `10·s[i+8] + s[i+9]` as digit values, hence year 2000-2099, month 0-19, day 0-39 |
| `DateTokens.TokenOfIso` | backend/app/routers/market_summary.py:33-34 | every valid date in 2000-2099, written `YYYY-MM-DD`, is a window both patterns accept and reads back as that date |
| `DateTokens.LeadingDate` | backend/app/routers/market_summary.py:28-37 | a date exactly when there is a loose token and its digits form a real date, in years 2000-2099; its ISO form is the token with `_` written as `-` |
| `Selection.FirstWhere` | backend/app/routers/market_summary.py:140-144 | the first element the predicate accepts; None when it accepts none |
| `Selection.FirstMax` | backend/app/routers/market_summary.py:41-42 | element 0 of a stable descending sort: no score above it, and every earlier score is below it |
| `Sorting.SortBy` | backend/app/routers/announcements.py:56 | `sorted` keeps the length |
| `Sorting.SortBySorted` | backend/app/routers/announcements.py:56 | `sorted` puts every pair in order |
| `Sorting.SortByPermutes` | backend/app/routers/announcements.py:56 | `sorted` returns a permutation of its input |
| `Sorting.SortByStable` | backend/app/routers/announcements_enriched.py:132 | elements with equal keys keep their input order |
| `Sorting.LessIsStrict` | backend/app/routers/announcements.py:56 | name order is a strict order |
| `Dicts.Get` | backend/app/routers/announcements_enriched.py:110 | `d.get(k)` is present exactly when `k` is a key, and is paired with it |
| `Dicts.Put` | backend/app/routers/announcements_enriched.py:71 | `d[k] = v` holds the pair, and grows by one entry exactly when `k` was new |
| `Dicts.PutKeys` | backend/app/routers/announcements_enriched.py:71 | assigning to an existing key keeps its position; a new key goes last |
| `Dicts.FirstOccurrencesOrder` | backend/app/routers/announcements_enriched.py:71 | first-occurrence order: each key occurs in the assignments before the first assignment of any later key |
| `Dicts.PutGet` | backend/app/routers/announcements_enriched.py:71 | after `d[k] = v`, `k` gives `v` and every other key keeps its value |
| `Dicts.PutDistinct` | backend/app/routers/announcements_enriched.py:71 | keys stay distinct |
| `Dicts.GetDistinct` | backend/app/routers/announcements_enriched.py:115 | with distinct keys, `d[k]` is the value paired with `k` |
| `Tables.Lookup` | backend/app/routers/announcements_enriched.py:63 | `row.get(k)` is the value of a column whose header is exactly `k`; None when there is none |

## Left out

- File system and CSV I/O (`os.listdir`, `os.stat`, `os.path.getmtime`, `open`, `csv.DictReader` quoting and decoding). Listings and parsed rows are inputs; a CSV that cannot be opened is a name absent from the table map.
- `csv.DictReader` rows with more fields than headers (`restkey`, the `None` header) and files with duplicate headers: a row is its cells in header order.
- `float()` and the display strings of `format_rupee_cr`, `format_pct` and the VWAP and ATR fields (`.2f`, thousands separators). Numeric summary fields hold the cleaned text handed to `float()`. `RupeeAmount` uses exact reals, not binary floating point.
- `MarketSummary.CleanNumber`: whether `float()` accepts the cleaned text is not modelled, so neither is the None that `to_float` returns when it does not.
- `datetime.timestamp()` works in the local time zone. `Calendar.Key` stands in for it; it orders valid dates the same way.
- `mtime_iso` is the text of `datetime.fromtimestamp(st_mtime, tz=utc).isoformat()`. The model sorts by the integer mtime it comes from, which orders the same way for whole-second times in years 1000-9999. Sub-second mtimes are not modelled.
- Errors from `os.path.getmtime` while ranking (market_summary.py:45, announcements_enriched.py:33,37) are not modelled: every listed entry has an mtime.
- Unicode case mapping, Unicode whitespace and non-ASCII digits. `upper`, `lower`, `strip` and `isdigit` act on the ASCII range and leave other characters alone.
- `os.path.splitext` on names that contain a path separator. Listing names never do.
- HTTP detail strings: the data folder path, the exception text and the 404 message text. The 404 carries the ticker and the dataset name.
- `request.base_url` is a string input to `Announcements.EntryOf`.
- `_load_symbol_map` prints the exception that stops it (announcements.py:44). The print is output only, and the model keeps the map as it was when the exception struck.
- FastAPI routing, the `/announcements/file/` download route and application start-up are not part of this model.
