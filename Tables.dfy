/**
 * What the routers read from the outside world, passed in as values: the
 * entries of a directory listing with their `os.stat` data, the rows that
 * `csv.DictReader` produced for a file, and the HTTP errors they raise.
 */
module Tables {
  import opened Wrappers

  /** One name from `os.listdir`, in listing order, with what `os.stat`
      reports for it; `statOk` is false when `os.stat` raises for it. */
  datatype Entry = Entry(name: string, mtime: int, isFile: bool, size: nat, statOk: bool)

  function NameOf(e: Entry): string { e.name }

  /** One column of a `csv.DictReader` row: the header exactly as written in
      the file, and the value (None when the line had fewer fields). */
  datatype Cell = Cell(header: string, value: Option<string>)

  /** A row, in header order. */
  type Row = seq<Cell>

  /** The outcome of reading one CSV file: the header line (`fieldnames`),
      the rows produced, and whether reading ran to the end (false: an
      exception stopped it after `rows`). */
  datatype CsvRead = CsvRead(fieldnames: seq<string>, rows: seq<Row>, complete: bool)

  /** The file `name` was read to the end. */
  predicate Readable(tables: map<string, CsvRead>, name: string) {
    name in tables && tables[name].complete
  }

  /** `row.get(key)`: the value of the column whose header is exactly `key`. */
  function Lookup(row: Row, key: string): (r: Option<string>)
    ensures r.Some? ==> exists k :: 0 <= k < |row| && row[k].header == key && row[k].value == r
    ensures (forall k :: 0 <= k < |row| ==> row[k].header != key) ==> r.None?
  {
    if row == [] then None
    else if row[0].header == key then row[0].value
    else Lookup(row[1..], key)
  }

  /** Python truthiness of an optional string: present and non-empty. */
  predicate Truthy(v: Option<string>) {
    v.Some? && v.value != ""
  }

  /** Why a request failed with status 500. */
  datatype ServerFault = NoDataset | DatasetUnreadable | NoUploadsFolder

  datatype HttpError =
    | BadRequest
    | NotFound(ticker: string, csvFilename: string)
    | ServerError(fault: ServerFault)
}
