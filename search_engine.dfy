/**
 * The filtering engine of search_engine.py: loading a table from a CSV or
 * Excel file, searching selected columns under one of three match modes,
 * exporting a result table, and resetting.
 *
 * pandas' readers and writers, the file system and Python's `re` module are
 * oracles passed in as parameters.
 */
module SearchEngine {
  import opened Options
  import opened Text
  import opened OsPath
  import opened DataFrame

  // ---------------------------------------------------------------- loading

  /** The text encodings tried for a CSV file. */
  datatype Encoding = Utf8 | Utf8Sig | Cp1256 | Iso8859_1

  /** The order in which CSV encodings are tried. */
  const CsvEncodings: seq<Encoding> := [Utf8, Utf8Sig, Cp1256, Iso8859_1]

  /** The Excel reader engines: openpyxl for `.xlsx`, xlrd for `.xls`. */
  datatype ExcelEngine = Openpyxl | Xlrd

  /** What `pd.read_csv` does with one encoding: a table, a `UnicodeDecodeError`, or another exception. */
  datatype CsvRead = Decoded(table: Table) | UnicodeDecodeError | CsvRaised(reason: string)

  /** What `pd.read_excel` does: a table or an exception. */
  datatype ExcelRead = Sheet(table: Table) | ExcelRaised(reason: string)

  datatype Readers = Readers(readCsv: (string, Encoding) -> CsvRead, readExcel: (string, ExcelEngine) -> ExcelRead)

  /** Why `load_file` returns `False`. */
  datatype LoadError =
    | FileNotFound(name: string)        // "File not found: <basename>"
    | NoEncodingDecodes                 // "Could not read CSV file with any supported encoding"
    | UnsupportedFormat(ext: string)    // "Unsupported file format: <ext>"
    | LoadFailed(reason: string)        // "Error loading file: <exception>"

  /** The `(success, message)` pair of `load_file`. */
  datatype LoadOutcome = Loaded(rows: nat, columns: nat) | NotLoaded(error: LoadError)

  /** A table read from a file, or the reason none was. */
  datatype Loading = Got(table: Table) | Refused(error: LoadError)

  /**
   * The for/else over encodings: the first encoding that decodes wins; any
   * other exception ends the attempt. It fails only because no encoding
   * decodes the file or because the reader raised something else.
   */
  function DecodeFirst(read: (string, Encoding) -> CsvRead, path: string, encodings: seq<Encoding>): (r: Loading)
    ensures r.Refused? ==> r.error == NoEncodingDecodes || r.error.LoadFailed?
  {
    if encodings == [] then Refused(NoEncodingDecodes)
    else match read(path, encodings[0])
      case Decoded(t) => Got(t)
      case UnicodeDecodeError => DecodeFirst(read, path, encodings[1..])
      case CsvRaised(reason) => Refused(LoadFailed(reason))
  }

  function FromExcel(outcome: ExcelRead): (r: Loading)
    ensures r.Refused? ==> r.error.LoadFailed?
  {
    match outcome
    case Sheet(t) => Got(t)
    case ExcelRaised(reason) => Refused(LoadFailed(reason))
  }

  /**
   * The table `load_file` reads from `path`, dispatching on the lowercased
   * suffix; "File not found" is reported exactly for a path that does not exist.
   */
  function ReadTable(path: string, fs: FileSystem, io: Readers): (r: Loading)
    ensures r.Refused? && r.error.FileNotFound? <==> !fs.pathExists(path)
  {
    if !fs.pathExists(path) then Refused(FileNotFound(Basename(path)))
    else if EndsWith(Lower(path), ".csv") then DecodeFirst(io.readCsv, path, CsvEncodings)
    else if EndsWith(Lower(path), ".xlsx") then FromExcel(io.readExcel(path, Openpyxl))
    else if EndsWith(Lower(path), ".xls") then FromExcel(io.readExcel(path, Xlrd))
    else Refused(UnsupportedFormat(SplitExt(path).1))
  }

  /** The `file_info` dictionary; the file size is kept in bytes and the load time is not modelled. */
  datatype FileInfo = FileInfo(rows: nat, columns: nat, fileSizeBytes: nat, columnNames: seq<string>)

  // ---------------------------------------------------------------- searching

  /** Python's `re`, as an oracle: whether a pattern compiles, and whether it is found in a text. */
  datatype Regex = Regex(compiles: string -> bool, found: (string, string) -> bool)

  /** The three flags that decide how one cell is compared with the term. */
  datatype MatchMode = MatchMode(caseSensitive: bool, exactMatch: bool, useRegex: bool)

  /** The arguments of `search`; `maxResults` is `None` when not given. */
  datatype SearchRequest = SearchRequest(
    term: string,
    columns: seq<string>,
    caseSensitive: bool,
    exactMatch: bool,
    useRegex: bool,
    maxResults: Option<int>)
  {
    function Mode(): MatchMode {
      MatchMode(caseSensitive, exactMatch, useRegex)
    }
  }

  datatype SearchError = NoDataLoaded | InvalidColumns(columns: seq<string>) | InvalidPattern

  /**
   * The stats dictionary: an error, the blank-term shortcut (which reports
   * only the row count and a zero search time), or a filtered search.
   */
  datatype SearchStats =
    | Failed(error: SearchError)
    | Unfiltered(totalResults: nat)
    | Filtered(totalResults: nat, returnedResults: nat)

  /** The result frame, the row labels it keeps from the loaded table, and the stats. */
  datatype SearchResult = SearchResult(table: Table, index: seq<nat>, stats: SearchStats)

  /** The requested columns that the table lacks, in request order (`invalid_columns`). */
  function MissingColumns(requested: seq<string>, available: seq<string>): (r: seq<string>)
    ensures forall c :: c in r <==> c in requested && c !in available
    ensures |r| <= |requested|
  {
    if requested == [] then []
    else
      var rest := MissingColumns(requested[1..], available);
      assert forall c :: c in requested <==> c == requested[0] || c in requested[1..];
      if requested[0] in available then rest else [requested[0]] + rest
  }

  /** The text compared under the chosen case sensitivity. */
  function Fold(s: string, caseSensitive: bool): string {
    if caseSensitive then s else Lower(s)
  }

  /** One cell against the prepared term: regex search, then equality, then substring, on the folded cell text. */
  predicate CellMatches(cell: string, pattern: string, mode: MatchMode, re: Regex)
    ensures !mode.useRegex && CellMatches(cell, pattern, mode, re) ==> Contains(Fold(cell, mode.caseSensitive), pattern)
  {
    var text := Fold(cell, mode.caseSensitive);
    if mode.useRegex then re.found(pattern, text)
    else if mode.exactMatch then EqualImpliesContains(text, text); text == pattern
    else Contains(text, pattern)
  }

  /** Every selected column is a column of the table. */
  predicate ColumnsIn(columns: seq<string>, t: Table) {
    forall c :: c in columns ==> c in t.columns
  }

  /** Whether row `i` matches in column `column`. */
  predicate MatchesIn(t: Table, i: nat, column: string, pattern: string, mode: MatchMode, re: Regex)
    requires i < |t.rows| && column in t.columns
  {
    assert t.rows[i] in t.rows;
    CellMatches(t.rows[i][ColumnIndex(t.columns, column)], pattern, mode, re)
  }

  /** Row `i` matches in at least one of the first `n` selected columns (with `n == |columns|`, the row qualifies). */
  predicate RowMatches(t: Table, i: nat, columns: seq<string>, n: nat, pattern: string, mode: MatchMode, re: Regex)
    requires i < |t.rows| && n <= |columns| && ColumnsIn(columns, t)
  {
    exists k :: 0 <= k < n && MatchesIn(t, i, columns[k], pattern, mode, re)
  }

  /** The combined row mask over the first `n` selected columns. */
  function MatchMask(t: Table, columns: seq<string>, n: nat, pattern: string, mode: MatchMode, re: Regex): (m: seq<bool>)
    requires n <= |columns| && ColumnsIn(columns, t)
    ensures |m| == |t.rows|
  {
    seq(|t.rows|, i requires 0 <= i < |t.rows| => RowMatches(t, i, columns, n, pattern, mode, re))
  }

  /** The row mask of one column (`col_mask`). */
  function ColumnMask(t: Table, column: string, pattern: string, mode: MatchMode, re: Regex): (m: seq<bool>)
    requires column in t.columns
    ensures |m| == |t.rows|
  {
    seq(|t.rows|, i requires 0 <= i < |t.rows| => MatchesIn(t, i, column, pattern, mode, re))
  }

  /** The positions where a mask is true, in increasing order (`df[mask]`). */
  function Positions(m: seq<bool>): (r: seq<nat>)
    ensures |r| <= |m|
    ensures forall k :: k in r <==> 0 <= k < |m| && m[k]
    ensures forall a, b :: 0 <= a < b < |r| ==> r[a] < r[b]
    ensures IndicesIn(r, |m|)
  {
    if m == [] then []
    else
      var prefix := Positions(m[..|m| - 1]);
      assert forall k :: 0 <= k < |m| - 1 ==> m[..|m| - 1][k] == m[k];
      if m[|m| - 1] then prefix + [|m| - 1] else prefix
  }

  /** `0, 1, ..., n - 1`: the labels of a whole table. */
  function AllRows(n: nat): (r: seq<nat>)
    ensures |r| == n && IndicesIn(r, n)
    ensures forall i :: 0 <= i < n ==> r[i] == i
  {
    seq(n, i requires 0 <= i < n => i)
  }

  /** `if max_results and len(results) > max_results: results = results.head(max_results)`. */
  function Cap(hits: seq<nat>, maxResults: Option<int>): (r: seq<nat>)
    ensures |r| <= |hits| && r == hits[..|r|]
    ensures maxResults.Some? && 0 < maxResults.value < |hits| ==> |r| == maxResults.value
    ensures maxResults.None? || maxResults.value == 0 || |hits| <= maxResults.value ==> r == hits
  {
    if maxResults.Some? && maxResults.value != 0 && |hits| > maxResults.value then Head(hits, maxResults.value)
    else hits
  }

  /** The result of `search` on the loaded table `df`. */
  function SearchSpec(df: Option<Table>, q: SearchRequest, re: Regex): (r: SearchResult)
    ensures |r.table.rows| == |r.index|
    ensures r.stats.Failed? ==> r.table == EmptyTable && r.index == []
    ensures df.None? ==> r.stats == Failed(NoDataLoaded)
    ensures df.Some? && !r.stats.Failed? ==>
      && r.table.columns == df.value.columns
      && IndicesIn(r.index, |df.value.rows|)
      && (forall i :: 0 <= i < |r.index| ==> r.table.rows[i] == df.value.rows[r.index[i]])
  {
    if df.None? then SearchResult(EmptyTable, [], Failed(NoDataLoaded))
    else
      var t := df.value;
      var missing := MissingColumns(q.columns, t.columns);
      if missing != [] then SearchResult(EmptyTable, [], Failed(InvalidColumns(missing)))
      else if IsBlank(q.term) then SearchResult(t, AllRows(|t.rows|), Unfiltered(|t.rows|))
      else
        var pattern := Fold(q.term, q.caseSensitive);
        if q.useRegex && !re.compiles(pattern) && q.columns != [] then
          SearchResult(EmptyTable, [], Failed(InvalidPattern))
        else FilterRows(t, q, pattern, re)
  }

  /** The rows matching `pattern` in some selected column, capped, with both counts. */
  function FilterRows(t: Table, q: SearchRequest, pattern: string, re: Regex): (r: SearchResult)
    requires ColumnsIn(q.columns, t)
    ensures r.stats.Filtered? && r.stats.returnedResults <= r.stats.totalResults <= |t.rows|
    ensures r.stats.returnedResults == |r.index| == |r.table.rows|
    ensures r.table.columns == t.columns && IndicesIn(r.index, |t.rows|)
    ensures forall i :: 0 <= i < |r.index| ==> r.table.rows[i] == t.rows[r.index[i]]
  {
    var hits := Positions(MatchMask(t, q.columns, |q.columns|, pattern, q.Mode(), re));
    var kept := Cap(hits, q.maxResults);
    SearchResult(Take(t, kept), kept, Filtered(|hits|, |kept|))
  }

  /** `mask | col_mask`. */
  function OrMasks(a: seq<bool>, b: seq<bool>): (m: seq<bool>)
    requires |a| == |b|
    ensures |m| == |a|
  {
    seq(|a|, i requires 0 <= i < |a| => a[i] || b[i])
  }

  /** Before any column is looked at, no row qualifies. */
  lemma MaskOfNoColumns(t: Table, columns: seq<string>, pattern: string, mode: MatchMode, re: Regex)
    requires ColumnsIn(columns, t)
    ensures MatchMask(t, columns, 0, pattern, mode, re) == seq(|t.rows|, _ => false)
  {
  }

  /** Looking at one more column ORs its mask into the combined one. */
  lemma MaskStep(t: Table, columns: seq<string>, j: nat, pattern: string, mode: MatchMode, re: Regex)
    requires j < |columns| && ColumnsIn(columns, t)
    ensures MatchMask(t, columns, j + 1, pattern, mode, re)
         == OrMasks(MatchMask(t, columns, j, pattern, mode, re), ColumnMask(t, columns[j], pattern, mode, re))
  {
    forall i | 0 <= i < |t.rows|
      ensures RowMatches(t, i, columns, j + 1, pattern, mode, re)
          <==> RowMatches(t, i, columns, j, pattern, mode, re) || MatchesIn(t, i, columns[j], pattern, mode, re)
    {
      if RowMatches(t, i, columns, j + 1, pattern, mode, re) && !MatchesIn(t, i, columns[j], pattern, mode, re) {
        var k :| 0 <= k < j + 1 && MatchesIn(t, i, columns[k], pattern, mode, re);
        assert k < j;
      }
    }
  }

  // ---------------------------------------------------------------- exporting

  datatype ExportFormat = CsvFile | ExcelFile

  /** `to_csv` / `to_excel`, as an oracle: `Some(reason)` when the write raises. */
  datatype Writer = Writer(write: (Table, string, ExportFormat) -> Option<string>)

  /** The `(success, message)` pair of `export_results`. */
  datatype ExportOutcome =
    | Exported(rows: nat, path: string)
    | NoResultsToExport
    | UnsupportedExport(ext: string)
    | ExportFailed(reason: string)

  /** The writer chosen by the lowercased extension of the output path. */
  function ExportFormatOf(outputPath: string): (f: Option<ExportFormat>)
    ensures f.Some? <==> Lower(SplitExt(outputPath).1) in [".csv", ".xlsx", ".xls"]
  {
    var ext := Lower(SplitExt(outputPath).1);
    if ext == ".csv" then Some(CsvFile)
    else if ext == ".xlsx" || ext == ".xls" then Some(ExcelFile)
    else None
  }

  // ---------------------------------------------------------------- the engine

  class ExcelSearchEngine {
    var df: Option<Table>
    var originalDf: Option<Table>
    var filePath: string
    var fileInfo: Option<FileInfo>

    /** The loaded table, its copy and its file information are present together and agree. */
    ghost predicate Valid()
      reads this
    {
      && originalDf == df
      && (df.None? <==> fileInfo.None?)
      && (df.None? ==> filePath == [])
      && (df.Some? ==>
            && fileInfo.value.rows == |df.value.rows|
            && fileInfo.value.columns == |df.value.columns|
            && fileInfo.value.columnNames == df.value.columns)
    }

    constructor ()
      ensures Valid()
      ensures df.None? && originalDf.None? && filePath == [] && fileInfo.None?
    {
      df := None;
      originalDf := None;
      filePath := [];
      fileInfo := None;
    }

    /** `load_file`: on success the table, its copy, the path and the file information are replaced; on failure nothing changes. */
    method LoadFile(path: string, fs: FileSystem, io: Readers) returns (r: LoadOutcome)
      requires Valid()
      modifies this
      ensures Valid()
      ensures match ReadTable(path, fs, io)
        case Got(t) =>
          && r == Loaded(|t.rows|, |t.columns|)
          && df == Some(t) && filePath == path
          && fileInfo == Some(FileInfo(|t.rows|, |t.columns|, fs.size(path), t.columns))
        case Refused(e) =>
          && r == NotLoaded(e)
          && df == old(df) && originalDf == old(originalDf)
          && filePath == old(filePath) && fileInfo == old(fileInfo)
    {
      if !fs.pathExists(path) {
        return NotLoaded(FileNotFound(Basename(path)));
      }
      var lowered := Lower(path);
      var table: Table;
      if EndsWith(lowered, ".csv") {
        var decoded: Option<Table> := None;
        var i := 0;
        while i < |CsvEncodings|
          invariant 0 <= i <= |CsvEncodings|
          invariant decoded.None? ==> ReadTable(path, fs, io) == DecodeFirst(io.readCsv, path, CsvEncodings[i..])
          invariant decoded.Some? ==> ReadTable(path, fs, io) == Got(decoded.value)
          decreases |CsvEncodings| - i, decoded.None?
        {
          var attempt := io.readCsv(path, CsvEncodings[i]);
          if attempt.Decoded? {
            decoded := Some(attempt.table);
            break;
          } else if attempt.CsvRaised? {
            return NotLoaded(LoadFailed(attempt.reason));
          }
          i := i + 1;
        }
        if decoded.None? {
          return NotLoaded(NoEncodingDecodes);
        }
        table := decoded.value;
      } else if EndsWith(lowered, ".xlsx") || EndsWith(lowered, ".xls") {
        var engine := if EndsWith(lowered, ".xlsx") then Openpyxl else Xlrd;
        var sheet := io.readExcel(path, engine);
        if sheet.ExcelRaised? {
          return NotLoaded(LoadFailed(sheet.reason));
        }
        table := sheet.table;
      } else {
        return NotLoaded(UnsupportedFormat(SplitExt(path).1));
      }
      df := Some(table);
      originalDf := df;
      filePath := path;
      fileInfo := Some(FileInfo(|table.rows|, |table.columns|, fs.size(path), table.columns));
      r := Loaded(|table.rows|, |table.columns|);
    }

    /**
     * `search`: builds the row mask column by column and filters the table.
     * `columnMasks` counts the per-column masks computed: none on every error
     * and on the blank-term shortcut.
     */
    method Search(q: SearchRequest, re: Regex) returns (r: SearchResult, ghost columnMasks: nat)
      ensures r == SearchSpec(df, q, re)
      ensures columnMasks == if r.stats.Filtered? then |q.columns| else 0
    {
      columnMasks := 0;
      if df.None? {
        return SearchResult(EmptyTable, [], Failed(NoDataLoaded)), 0;
      }
      var t := df.value;
      var missing := MissingColumns(q.columns, t.columns);
      if missing != [] {
        return SearchResult(EmptyTable, [], Failed(InvalidColumns(missing))), 0;
      }
      if IsBlank(q.term) {
        return SearchResult(t, AllRows(|t.rows|), Unfiltered(|t.rows|)), 0;
      }
      var pattern := if q.caseSensitive then q.term else Lower(q.term);
      var mode := q.Mode();
      var n := |t.rows|;
      var mask: seq<bool> := seq(n, _ => false);
      MaskOfNoColumns(t, q.columns, pattern, mode, re);
      // The source's `if column not in self.df.columns: continue` cannot fire once the columns are validated.
      for j := 0 to |q.columns|
        invariant mask == MatchMask(t, q.columns, j, pattern, mode, re)
        invariant columnMasks == j
        invariant j > 0 ==> !(q.useRegex && !re.compiles(pattern))
      {
        var column := q.columns[j];
        if q.useRegex && !re.compiles(pattern) {
          return SearchResult(EmptyTable, [], Failed(InvalidPattern)), 0;
        }
        var columnMask := ColumnMask(t, column, pattern, mode, re);
        MaskStep(t, q.columns, j, pattern, mode, re);
        mask := OrMasks(mask, columnMask);
        columnMasks := columnMasks + 1;
      }
      var hits := Positions(mask);
      var kept := hits;
      if q.maxResults.Some? && q.maxResults.value != 0 && |hits| > q.maxResults.value {
        kept := Head(hits, q.maxResults.value);
      }
      r := SearchResult(Take(t, kept), kept, Filtered(|hits|, |kept|));
    }

    /** `export_results`: an empty frame is refused before the extension is looked at. */
    static function ExportResults(results: Table, outputPath: string, w: Writer): (r: ExportOutcome)
      ensures r == NoResultsToExport <==> IsEmpty(results)
      ensures r.UnsupportedExport? <==> !IsEmpty(results) && ExportFormatOf(outputPath).None?
      ensures r.UnsupportedExport? ==> r.ext == Lower(SplitExt(outputPath).1)
      ensures r.Exported? ==> r.rows == |results.rows| > 0 && r.path == outputPath
      ensures !IsEmpty(results) && ExportFormatOf(outputPath).Some? ==>
        (r.Exported? <==> w.write(results, outputPath, ExportFormatOf(outputPath).value).None?)
      ensures r.ExportFailed? ==>
        && !IsEmpty(results) && ExportFormatOf(outputPath).Some?
        && w.write(results, outputPath, ExportFormatOf(outputPath).value) == Some(r.reason)
    {
      if IsEmpty(results) then NoResultsToExport
      else match ExportFormatOf(outputPath)
        case None => UnsupportedExport(Lower(SplitExt(outputPath).1))
        case Some(format) =>
          match w.write(results, outputPath, format)
          case Some(reason) => ExportFailed(reason)
          case None => Exported(|results.rows|, outputPath)
    }

    /** `get_file_info`: the information of the loaded file, present exactly when a table is loaded. */
    function GetFileInfo(): (r: Option<FileInfo>)
      reads this
      requires Valid()
      ensures r.Some? <==> df.Some?
      ensures r.Some? ==> r.value.columnNames == df.value.columns && r.value.rows == |df.value.rows|
    {
      fileInfo
    }

    /** `reset`: back to the state of a fresh engine. */
    method Reset()
      modifies this
      ensures Valid()
      ensures df.None? && originalDf.None? && filePath == [] && fileInfo.None?
    {
      df := None;
      originalDf := None;
      filePath := [];
      fileInfo := None;
    }
  }
}
