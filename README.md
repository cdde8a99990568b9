# ExcelSearchPro, modelled in Dafny

ExcelSearchPro loads a spreadsheet (CSV, `.xlsx` or `.xls`) into memory and searches it. A search looks in chosen columns for a term, by substring, exact or regular-expression match, with optional case folding. The matching rows can be written back out to a CSV or Excel file.

This project models the three parts of the repository where that behaviour is decided:

- **`ExcelSearchEngine`** (`search_engine.py`): a class holding the loaded table, its copy, its path and its file information.
  - `LoadFile` reads a table. It dispatches on the lowercased suffix, and for CSV tries four encodings in order.
  - `Search` builds the row mask one column at a time, in a loop whose invariant ties the mask to `MatchMask`. It then keeps the marked rows in order and applies the cap.
  - `ExportResults` chooses the writer from the lowercased extension.
  - `GetFileInfo` and `Reset` read and clear the engine's state.
  - `LoadFile` and `Search` are proved to compute the specification functions `ReadTable` and `SearchSpec`. `ExportResults` is stated directly: which outcome it gives, and that it reports exactly what the writer answers for the format `ExportFormatOf` picks.
  - The promises the code makes are proved as lemmas about those functions in `SearchProperties`, `LoadProperties` and `ExportProperties`.
- **`ExcelSearchCLI`** (`excel_search_cli.py`):
  - The `search` argument parser is a `while` loop over the tokens, proved equal to `ParsedArgs`.
  - Column defaulting and validation are modelled, and so is `export_last_results` with its default `.xlsx` extension.
  - The line classifier of the interactive loop is `Classify`.
  - So is the single run made from the command line, `CommandLineRun`.
  - `CliProperties` and `ExportProperties` state what these promise.
- **`utils.py`**:
  - `validate_file_path` is modelled as an ordered chain of checks over a file-system oracle.
  - `sanitize_filename` is modelled as a loop that replaces the invalid characters in turn, followed by the length limit. The length limit is modelled twice. `TruncatedAsWritten` follows the code. `Truncated` is the corrected limit, which `Sanitized` and `SanitizeFilename` use (see "## Findings"). `AsWrittenAgrees` proves the two the same whenever the extension has at most 200 characters.
  - `create_backup_filename` takes the timestamp as a parameter.

Tables are rows of text cells under a list of column names (`DataFrame.Table`). The following are parameters, written as datatypes of functions: the file system (`OsPath.FileSystem`), pandas' readers and writers (`SearchEngine.Readers`, `SearchEngine.Writer`), and Python's `re` (`SearchEngine.Regex`). `Text` and `OsPath` model the parts of Python's `str` and `posixpath` that the code uses: `strip`, `split`, `lower`, `startswith`/`endswith`, `in`, and `splitext`, `basename`, `dirname`, `join`.

Behaviours of the code that are easy to misread:

- A missing cell is searched as the text `astype(str)` gives it, `"nan"`; the `fillna("")` after it has nothing left to fill.
- An export to `.xls` is accepted and is written by the Excel writer.
- Every exact match is also a substring match, so the exact-match result is contained in the substring result; it can be the same result.
- An invalid regular expression is reported only when at least one column is searched, because the pattern is first compiled inside the column loop.
- An empty column list passes validation: it searches no column and matches no row.

## Model

| member | source | states |
|---|---|---|
| SearchEngine.MissingColumns | search_engine.py:107-108 | the invalid columns are exactly the requested ones the table lacks, and there are no more of them than were requested |
| SearchEngine.DecodeFirst | search_engine.py:42-50 | trying the encodings in order fails only with "Could not read CSV file with any supported encoding" or with the error another exception raised |
| SearchEngine.FromExcel | search_engine.py:52-55 | reading an Excel file fails only with the error the reader raised |
| SearchEngine.ReadTable | search_engine.py:36-57 | "File not found" is reported exactly for a path that does not exist |
| SearchEngine.CellMatches | search_engine.py:133-142 | outside regex mode, a matching cell contains the term once folded: an exact match is also a substring match |
| SearchEngine.Cap | search_engine.py:150-152 | the capped labels are a prefix of the matches; a positive cap below the match count keeps exactly that many; no cap, a zero cap or one not exceeded keeps them all |
| SearchEngine.FilterRows | search_engine.py:115-161 | a filtered search returns no more rows than match and no more matches than the table has rows; it keeps the columns, and each returned row is the table's row at its label |
| SearchEngine.SearchSpec | search_engine.py:80-171 | a failed search returns an empty table and no labels; with no table loaded the error is "No data loaded"; otherwise every returned row is the loaded table's row at its label, under the same columns |
| SearchEngine.ExportFormatOf | search_engine.py:216-223 | a writer is chosen exactly when the lowercased extension is .csv, .xlsx or .xls |
| SearchEngine.MatchMask | search_engine.py:119-145 | the mask after the first n selected columns has one entry per row |
| SearchEngine.ColumnMask | search_engine.py:127-142 | one column's mask has one entry per row |
| SearchEngine.OrMasks | search_engine.py:145 | OR-ing two masks keeps their length |
| SearchEngine.MaskOfNoColumns | search_engine.py:119 | before any column is looked at, no row is marked |
| SearchEngine.MaskStep | search_engine.py:122-145 | looking at one more column ORs that column's mask into the mask so far |
| SearchEngine.Positions | search_engine.py:148 | `df[mask]` keeps exactly the marked rows, in increasing row order, and never more rows than the table has |
| SearchEngine.AllRows | search_engine.py:112-113 | the blank-term result keeps every row label, 0 to n-1, in order |
| SearchEngine.ExcelSearchEngine.constructor | search_engine.py:15-20 | a new engine has no table, no copy, an empty path and no file information |
| SearchEngine.ExcelSearchEngine.LoadFile | search_engine.py:22-78 | on success the table, its copy, the path and the file information (rows, columns, size, column names) are those of the table read; on failure the state is unchanged and the reason is returned |
| SearchEngine.ExcelSearchEngine.Search | search_engine.py:80-171 | the result, row labels and stats are those of `SearchSpec`; the column loop keeps the mask equal to the OR of the masks of the columns seen so far |
| SearchEngine.ExcelSearchEngine.ExportResults | search_engine.py:201-228 | "No results to export" exactly for an empty table, checked before the extension; "Unsupported export format" exactly for a non-empty table whose lowercased extension is none of .csv, .xlsx, .xls, reporting that extension; otherwise the writer for that extension is called, and the export succeeds exactly when the writer raises nothing, writing every row to the given path, while "Export failed" carries the writer's reason |
| SearchEngine.ExcelSearchEngine.GetFileInfo | search_engine.py:230-232 | file information is present exactly when a table is loaded, and names its columns and counts its rows |
| SearchEngine.ExcelSearchEngine.Reset | search_engine.py:234-240 | the engine is back in its initial state |
| SearchProperties.NoMissingIffColumnsIn | search_engine.py:107-110 | no column is reported invalid exactly when every requested column is in the table |
| SearchProperties.NoTableNoResults | search_engine.py:101-102 | with no table loaded, the result is empty and the error is "No data loaded" |
| SearchProperties.InvalidColumnsReportedFirst | search_engine.py:107-113 | unknown columns fail the search before the blank-term shortcut, listing exactly the unknown columns, with an empty result |
| SearchProperties.BlankTermReturnsWholeTable | search_engine.py:112-113 | a blank term over valid columns returns the whole table, every row label, and the row count as the total |
| SearchProperties.InvalidRegexReported | search_engine.py:133-137 | a regex term that does not compile, searched in at least one column, fails with "Invalid regex pattern" |
| SearchProperties.MaskMarksQualifyingRow | search_engine.py:119-145 | a row is marked exactly when its cell matches in at least one selected column |
| SearchProperties.AllMatchesAreQualifyingRows | search_engine.py:119-148 | the uncapped result holds exactly the rows that match in some selected column, in original order, and no more rows than the table |
| SearchProperties.FilteredResultIsPrefixOfMatches | search_engine.py:147-161 | the returned rows are the table's rows at a prefix of the matching labels, with the same columns; the total counts all matches and the returned count counts the rows returned |
| SearchProperties.CapKeepsFirstMatches | search_engine.py:150-152 | a positive cap smaller than the match count keeps exactly the first that-many matches; no cap, a zero cap or a cap not exceeded keeps every match |
| SearchProperties.ResultNeverExceedsTable | search_engine.py:147-161 | the result never has more rows than the table, and returned ≤ total ≤ row count |
| SearchProperties.PositionsOfNothing | search_engine.py:119-148 | an all-false mask selects no row |
| SearchProperties.NoColumnsNoMatches | search_engine.py:119-148 | a non-blank term searched in no column matches nothing |
| SearchProperties.PositionsAreMarks | search_engine.py:148-159 | `len(df[mask])` is the number of marked rows |
| SearchProperties.PositionsCount | search_engine.py:148 | one more mask entry adds one selected row exactly when it is marked |
| SearchProperties.CountMonotone | search_engine.py:138-145 | a mask that marks a superset of rows marks at least as many rows |
| SearchProperties.PositionsMonotone | search_engine.py:138-148 | a mask that marks a superset of rows selects at least as many rows |
| SearchProperties.ExactCellMatchIsSubstringMatch | search_engine.py:138-142 | a cell equal to the term also contains it |
| SearchProperties.ExactMatchesAreSubstringMatches | search_engine.py:138-148 | every exact-mode match is a substring-mode match, so there are no more of them |
| SearchProperties.RegexIgnoresExactFlag | search_engine.py:133-139 | in regex mode the exact flag changes nothing |
| SearchProperties.LowerTable | search_engine.py:129-130 | lowercasing a table lowercases every cell and keeps its shape and column names |
| SearchProperties.LowerKeepsBlank | search_engine.py:112-116 | lowercasing never turns a blank term into a non-blank one, or the reverse |
| SearchProperties.CaseInsensitiveLowersBothSides | search_engine.py:116-130 | a case-insensitive search selects the same rows, with the same counts, as a case-sensitive search of the lowercased term over the lowercased table |
| SearchProperties.LoweredMasksAgree | search_engine.py:129-142 | with a lowercase term, lowercasing each column before comparing marks the same rows as comparing the lowercased table case-sensitively |
| SearchProperties.CaseInsensitiveIgnoresTermCase | search_engine.py:116 | a case-insensitive search gives the same rows, row labels and counts for two terms that agree once lowercased |
| LoadProperties.DecodeFirstTakesFirstDecoding | search_engine.py:40-48 | a CSV file yields table t exactly when some encoding reads t and every encoding tried before it raised `UnicodeDecodeError` |
| LoadProperties.CsvReadsFirstDecoding | search_engine.py:36-50 | `load_file` on an existing `.csv` path reads it through the encodings in order, and yields t exactly when the first encoding that decodes reads t |
| LoadProperties.ExcelEngineBySuffix | search_engine.py:52-55 | an existing `.xlsx` file is read with openpyxl, and an `.xls` file with xlrd |
| LoadProperties.NoEncodingIffAllFail | search_engine.py:43-50 | "Could not read CSV file with any supported encoding" is reported exactly when every encoding raises `UnicodeDecodeError`. With pandas, `iso-8859-1` decodes every byte string, so this message cannot arise; the CSV reader is a free parameter here, which is a harmless over-approximation |
| LoadProperties.UnsupportedIffNoKnownSuffix | search_engine.py:36-57 | "Unsupported file format" is reported exactly for an existing path whose lowercased name ends in none of .csv, .xlsx, .xls, and it names the extension `splitext` finds |
| LoadProperties.CsvNeverUnsupported | search_engine.py:40-50 | an existing file whose lowercased name ends in .csv is never refused as an unsupported format |
| LoadProperties.ExcelNeverUnsupported | search_engine.py:52-55 | an existing .xlsx or .xls file is refused only with the error its reader raised |
| LoadProperties.OtherSuffixUnsupported | search_engine.py:56-57 | an existing file with any other suffix is refused, naming the extension of the path as given |
| LoadProperties.MissingFileReportedFirst | search_engine.py:36-37 | a missing path is reported by its base name, whatever its suffix |
| Utils.ValidateFilePath | utils.py:12-43 | the checks run in order and the first failing one gives the message: an empty path, then a missing path, then a path that is not a file, then an unsupported lowercased extension (named); a supported file is valid, with the large-file warning exactly when it is over 500 MB; the path is valid exactly when the message is "File is valid" or that warning |
| Utils.ValidIffAllChecksPass | utils.py:22-43 | the path is valid exactly when it is non-empty, exists, is a file and has a supported lowercased extension; the warning is given exactly for a valid file over 500 MB |
| Utils.EndsWithOwnExtension | utils.py:32-35 | a path ends with the extension `splitext` finds in it |
| Utils.ValidFileIsRead | utils.py:22-43 | a path that validates is never refused by `load_file` as missing or unsupported |
| Utils.DotfileRefusedButLoadable | utils.py:32-36 | the file `.csv` is refused by validation, as having no extension, yet `load_file` reads it as CSV |
| Utils.DotCsvHasNoExtension | utils.py:32 | `splitext(".csv")` finds no extension |
| Utils.ReplaceChar | utils.py:97-98 | replacing one character turns each occurrence into `_` and leaves every other character and the length alone |
| Utils.ReplacedWith | utils.py:95-98 | after the loop, each invalid character has become `_` and the rest is unchanged |
| Utils.TruncatedAsWritten | utils.py:100-102 | as written: a name of at most 200 characters is left alone, and the result has at most 200 characters when the extension has at most 200 |
| Utils.Truncated | utils.py:100-102 | corrected definition: the result never has more than 200 characters, and a name of at most 200 is left alone |
| Utils.AsWrittenAgrees | utils.py:100-102 | the corrected limit and the code as written agree whenever the extension has at most 200 characters |
| Utils.Sanitized | utils.py:84-104 | corrected definition: a sanitized name is never longer than the name given, nor longer than 200 characters |
| Utils.SanitizeFilename | utils.py:84-104 | corrected definition: the loop over the invalid characters followed by the corrected length limit computes `Sanitized` |
| Utils.ReplaceStep | utils.py:96-98 | each turn of the loop replaces one more invalid character |
| Utils.TruncatedKeepsCharacters | utils.py:100-102 | truncation introduces no invalid character |
| Utils.SanitizedIsSafe | utils.py:84-104 | corrected definition: a sanitized name contains none of the invalid characters and has at most 200 characters |
| Utils.ShortNameOnlyReplaced | utils.py:95-100 | a name of at most 200 characters is only character-replaced, and one that is already clean comes back unchanged |
| Utils.LongNameKeepsExtension | utils.py:100-102 | a longer name whose extension fits becomes exactly 200 characters and keeps its extension |
| Utils.SanitizeIdempotent | utils.py:84-104 | corrected definition: sanitizing twice is the same as sanitizing once |
| Utils.LongExtensionExceedsLimit | utils.py:100-102 | as written, a one-character name with an extension of more than 200 characters comes out longer than 200 |
| Utils.LongExtensionExample | utils.py:100-102 | as written, `"a."` followed by 250 `x` comes out with 251 characters |
| Utils.BackupNameIsPlain | utils.py:231-236 | the backup's base name is non-empty and contains no `/` |
| Utils.BackupName | utils.py:233-236 | the new base name is the original base name plus `_backup_` and the timestamp in length |
| Utils.CreateBackupFilename | utils.py:231-238 | the backup path ends with the new base name |
| Utils.BackupBesideOriginal | utils.py:231-238 | the backup is in the original's directory, named `<name>_backup_<timestamp><ext>` |
| Utils.BackupKeepsExtension | utils.py:233-236 | the backup's name has the original's extension, after a stem that ends in the timestamp |
| Cli.RunLength | excel_search_cli.py:153-155 | the columns after `-c` run up to the next token starting with `-` or the end |
| Cli.LastColumnFlag | excel_search_cli.py:149-152 | the last `-c` that takes effect is one followed by a token, and no later one is |
| Cli.ColumnsBefore | excel_search_cli.py:147-166 | a column chosen by `-c` never starts with `-` |
| Cli.ColumnsBeforeNoneIff | excel_search_cli.py:147-166 | no columns are set by the tokens before a position exactly when no `-c` among them has a token after it |
| Cli.ParsedArgsMeaning | excel_search_cli.py:137-166 | the term is the first token; case sensitivity holds exactly when no later token is `-i`; exact match and regex hold exactly when some later token is `-e` or `-r`; the columns are set exactly when some `-c` is followed by a token, and none of them starts with `-` |
| Cli.ChosenColumns | excel_search_cli.py:168-171 | without `-c`, the columns are the first two names, or all of them when there are fewer |
| Cli.SearchCommand | excel_search_cli.py:130-199 | "Please provide a search term" is given exactly for a blank argument string; the column lookup fails exactly for a non-blank string with no file loaded; otherwise the outcome is that of the parsed arguments against the file's column names (`SearchParsed`); invalid columns are listed with the file's own column names |
| Cli.SearchParsed | excel_search_cli.py:168-199 | the chosen columns are the `-c` list or the first two file columns; invalid columns are reported exactly when some chosen column is not a file column, and the report lists exactly those, in order; otherwise the request carries the parsed term, the chosen columns and the parsed `-i`, `-e` and `-r` flags, the search fails exactly when the engine's search fails, with its error, and a shown search holds the engine's result rows and statistics |
| Cli.ExportPath | excel_search_cli.py:286-288 | a name in which `splitext` finds an extension is kept as given; any other gets `.xlsx` appended |
| Cli.ExportCommand | excel_search_cli.py:276-294 | "No results to export" exactly when there are no last results or they are empty; "Please provide a filename" exactly for an empty name otherwise; an attempted export writes the last results to `ExportPath` of the name, and its outcome is the engine's `export_results` answer for that path |
| Cli.Classify | excel_search_cli.py:95-120 | a line is skipped exactly when it is blank; otherwise, on the stripped line, a keyword (in any case) gives its command, else an `export ` prefix exports to the stripped rest, else a `search ` prefix searches with the rest; the command is unknown exactly when none of these applies |
| Cli.Dispatch | excel_search_cli.py:100-120 | on a stripped line: a keyword gives its command; else `export ` (tried first) and then `search ` are case-sensitive prefixes; unknown exactly when neither a keyword nor a prefix matches |
| Cli.CommandLineColumns | excel_search_cli.py:332 | a missing or empty column list means the first two column names, or all of them when there are fewer; a non-empty list is used as given |
| Cli.CommandLineRun | excel_search_cli.py:315-359 | "Please provide a file path" exactly for an empty path; the load is refused exactly when the file is named and cannot be read, with the reader's error; once loaded, the search is refused exactly when the engine's search of the command-line request fails, with its error; a completed run reports that search's statistics and, exactly when a non-empty output path was given, the engine's `export_results` answer for the result rows and that path |
| Cli.RunHoldsNoFlag | excel_search_cli.py:153-166 | a collected column name is never one of the flags |
| Cli.SeenStep | excel_search_cli.py:156-164 | one more token sets a flag exactly when it is that flag |
| Cli.SeenSkips | excel_search_cli.py:153-155 | tokens other than a flag leave whether it was seen unchanged |
| Cli.LastColumnFlagSkips | excel_search_cli.py:149-155 | tokens other than `-c` leave the last effective `-c` unchanged |
| Cli.ColumnsBeforeStep | excel_search_cli.py:156-166 | a token that is not an effective `-c` leaves the column choice unchanged |
| Cli.ColumnsAfterRun | excel_search_cli.py:149-155 | after the run that follows `-c`, the columns are exactly that run, and no other flag was seen inside it |
| Cli.CollectColumns | excel_search_cli.py:151-155 | the inner loop collects the run after `-c` and stops at the next dashed token or the end |
| Cli.ParseSearchArgs | excel_search_cli.py:137-166 | the flag loop terminates and computes `ParsedArgs`: the first token is the term; `-e`, `-i` and `-r` set their flags; each effective `-c` replaces the columns |
| Cli.Keyword | excel_search_cli.py:100-110 | the lowercased line asks to quit exactly when it is `quit`, `exit` or `q`, for help exactly when it is `help`, for the columns exactly when it is `columns`, for the file information exactly when it is `info`, and is no keyword otherwise |
| Cli.ExcelSearchCli.constructor | excel_search_cli.py:16-18 | a new CLI has a fresh engine with no table and no last results |
| Cli.ExcelSearchCli.ProcessSearchCommand | excel_search_cli.py:130-199 | the outcome is `SearchCommand`; the last results change exactly when a search is shown |
| Cli.ExcelSearchCli.SearchWithArgs | excel_search_cli.py:168-199 | with no file information the column lookup fails; otherwise the outcome is `SearchParsed` and only a shown search records its results |
| Cli.ExcelSearchCli.ExportLastResults | excel_search_cli.py:276-294 | the outcome is `ExportCommand` on the last results |
| Cli.ExcelSearchCli.HandleCommand | excel_search_cli.py:95-120 | each line is handled as `Classify` says, and only a shown search changes the last results |
| Cli.ExcelSearchCli.RunCommandLineSearch | excel_search_cli.py:315-359 | the outcome is `CommandLineRun`; when the file loads, the engine holds that table, its copy, the path and its file information; with no path or a refused load, the engine's state is unchanged |
| CliProperties.DefaultColumnsExist | excel_search_cli.py:169-176 | the first two column names are always columns of the file |
| CliProperties.DefaultColumnsNeverInvalid | excel_search_cli.py:169-179 | without `-c`, no column is reported invalid, and a shown search used the first two columns |
| CliProperties.TokenNotBlank | excel_search_cli.py:137-138 | a token of `split()` is never blank |
| CliProperties.ShownSearchUsesFirstToken | excel_search_cli.py:137-191 | a shown search looked for the first token, in columns of the file, with no cap, and filtered the table |
| CliProperties.ShownParsedSearch | excel_search_cli.py:174-191 | a shown search used the parsed term, columns of the file and no cap |
| CliProperties.ColumnFlagBeforeFlagSelectsNothing | excel_search_cli.py:149-158 | `john -c -e` selects an empty column list and still sets exact match |
| CliProperties.TrailingColumnFlagIgnored | excel_search_cli.py:149-166 | `john -i -c` ignores the trailing `-c` and keeps the default columns |
| CliProperties.EmptyColumnListFindsNothing | excel_search_cli.py:174-191 | an empty column list passes validation and a non-blank term then matches no row |
| CliProperties.SearchLineHasTerm | excel_search_cli.py:95-117 | a line dispatched to `search` carries a non-blank argument string |
| CliProperties.ExportLineHasFilename | excel_search_cli.py:95-114 | a line dispatched to `export` carries a non-empty file name |
| CliProperties.StrippedRemainderNotEmpty | excel_search_cli.py:112-113 | what follows `export ` on a stripped line is not empty once stripped |
| CliProperties.ExportLineShape | excel_search_cli.py:112-113 | an `export` line starts with the prefix once stripped, and the file name is the stripped rest |
| CliProperties.PrefixRemainderNotBlank | excel_search_cli.py:95-117 | after a prefix ending in a space, a stripped line still has a non-space character |
| CliProperties.FirstCharacterDiffers | excel_search_cli.py:112-116 | a text whose first character differs from the prefix's does not start with it |
| CliProperties.KeywordsIgnoreCase | excel_search_cli.py:100-110 | two lines that agree once stripped and lowercased, one of them a keyword, ask for the same thing |
| CliProperties.CapitalisedLineIsUnknown | excel_search_cli.py:112-120 | a line of more than seven characters starting with a capital letter is an unknown command, since the prefixes are case-sensitive |
| CliProperties.CommandLineDefaultNeverInvalid | excel_search_cli.py:332-346 | with no or an empty column list, a loaded file can only be refused a search for an invalid pattern |
| CliProperties.CommandLineExportsWhenAsked | excel_search_cli.py:317-359 | a completed run had a file that loaded and a search that did not fail; it exported exactly when a non-empty output path was given |
| ExportProperties.DefaultExtensionIsExcel | excel_search_cli.py:286-290 | a file name without an extension whose base name has a character other than `.` gets `.xlsx` added, which `splitext` then finds and `export_results` writes as Excel (names such as `..` or `out/` are not covered: see `DotsOnlyNameRefused`) |
| ExportProperties.ExportFormatByExtension | search_engine.py:216-221 | .csv in any case goes to the CSV writer, and .xlsx or .xls in any case to the Excel writer, in both directions |
| ExportProperties.NoExtensionGetsXlsx | excel_search_cli.py:287-288 | a name without an extension gets `.xlsx` appended |
| ExportProperties.AddedXlsxIsExtension | excel_search_cli.py:287-288 | after `.xlsx` is appended to a name with a non-dot character, `splitext` finds `.xlsx` |
| ExportProperties.XlsxIsExcelFormat | search_engine.py:216-221 | a path with the extension `.xlsx` goes to the Excel writer |
| ExportProperties.XlsxIsLowerExtension | search_engine.py:216 | `.xlsx` is already lowercase |
| ExportProperties.AttemptedExportHasRows | excel_search_cli.py:278-290 | once last results exist, an export is attempted with the name or the name plus `.xlsx`, and a successful one wrote at least one row |
| ExportProperties.DotsOnlyNameRefused | excel_search_cli.py:286-290 | `export ..` becomes `...xlsx`, which has no extension and is refused as an unsupported format |
| Text.TrimLeft | search_engine.py:112 | stripping the left removes exactly the leading white space, and leaves nothing exactly for a blank text |
| Text.TrimRight | search_engine.py:112 | stripping the right removes exactly the trailing white space, and leaves nothing exactly for a blank text |
| Text.WhiteSpaceClasses | search_engine.py:112 | space, tab, newline and carriage return are white space; digits, letters, `-`, `.` and `/` are not |
| Text.Strip | search_engine.py:112 | `strip()` never lengthens a text, leaves nothing exactly for a blank text, and otherwise neither starts nor ends with white space |
| Text.Lower | search_engine.py:116-130 | lowercasing keeps the length |
| Text.LowerIdempotent | search_engine.py:116-130 | lowercasing twice is lowercasing once |
| Text.RFind | utils.py:32 | the last occurrence of a character, or -1 when it does not occur |
| Text.Word | excel_search_cli.py:137 | a token runs up to the next white space or the end |
| Text.SplitTokens | excel_search_cli.py:137 | every token of `split()` is non-empty and free of white space |
| Text.Split | excel_search_cli.py:132-138 | `split()` gives no token exactly for a blank text, so `args[0]` exists after the blank check |
| OsPath.SplitExt | search_engine.py:57 | `splitext` splits the path into a stem and an extension that concatenate back to it |
| OsPath.Basename | search_engine.py:37 | the base name is a suffix of the path without `/` |
| OsPath.Dirname | utils.py:231 | the directory is a prefix of the path |
| OsPath.Join | utils.py:238 | the joined path ends with the second part, and starts with the first unless the second is absolute |
| OsPath.SplitExtOfStemAndExtension | utils.py:233-236 | an extension appended to a stem with a non-dot character is the one `splitext` finds |
| OsPath.BasenameOfJoin | utils.py:238 | the base name of a directory joined with a plain name is that name |
| OsPath.DirnameOfJoin | utils.py:231-238 | joining a plain name to a path's directory keeps that directory |
| DataFrame.ColumnIndex | search_engine.py:127 | a column's position holds that name, and it is its first occurrence |
| DataFrame.Take | search_engine.py:148 | the selected table keeps the columns and holds the table's rows at the given labels |
| DataFrame.Head | search_engine.py:152 | `head(n)` and `[:n]` follow Python's slice rules: a prefix of length n when n fits, the whole sequence when n reaches past the end, and the negative-bound length otherwise |

## Left out

- Reading and writing files with pandas (`read_csv`, `read_excel`, `to_csv`, `to_excel`), and `os.path.exists`, `isfile` and `getsize`, are oracles passed as parameters. Nothing about file contents or encodings is modelled beyond what each oracle answers.
- Python's `re` is an oracle that says whether a pattern compiles and whether it is found in a text; regular-expression semantics are not modelled.
- Turning cell values into text (`astype(str)`, where a missing value becomes `"nan"`) is not modelled: cells are already text.
- Column names are taken to be text. Headers that pandas keeps as numbers are not modelled, nor the failures they cause: the `TypeError` from `', '.join(columns)` when a default column name is a number, and a `-c 2020` reported as an invalid column against a numeric header 2020.
- Lowercasing covers ASCII letters only; Unicode case mapping is not modelled.
- Paths follow POSIX `posixpath` rules; Windows drive letters and backslash separators are not modelled.
- Clocks are left out: `search_time`, `load_time` and the timing of messages are not modelled, and the backup timestamp is a parameter.
- Floating point is left out: the file size is kept in bytes rather than megabytes, and the 500 MB limit is compared in bytes, which is exact because the divisor is a power of two.
- Exceptions other than those the oracles report are not modelled. This covers the generic "Search failed" and "Export failed" handlers, a `getsize` failure after a successful read, and a non-default DataFrame index.
- The interactive loop's reading of input, its `KeyboardInterrupt` handling and its printing of exceptions are left out. One line's handling is modelled (`HandleCommand`), not the loop.
- `show_help`, `show_columns`, `show_file_info` and `display_search_results` only print, and are left out.
- The argument parser of `main` (`argparse`) is not modelled: `CommandLine` holds the parsed arguments.
- `load_time` is not kept in the engine's state.
- `SearchStats`: the statistics of a search keep the total and returned counts only. The echoed `search_term`, `search_columns`, `case_sensitive`, `exact_match` and `use_regex` entries are not kept. They repeat the request, which the CLI outcomes carry beside the statistics. So `CaseInsensitiveIgnoresTermCase` is about rows and counts: in the source the two statistics differ in `search_term`.
- The CSV reader may fail with `UnicodeDecodeError` for every encoding, including `iso-8859-1`. pandas never does this, since `iso-8859-1` maps every byte, so the model allows one failure path that the source cannot reach.
- `SearchEngine.ExcelSearchEngine.LoadFile`: on success the new `file_info` is stated, except for the load time.
- The GUI, the launchers, the installers and the packaging scripts are not part of this model.

## Findings

| source | as written | input that shows it | evidently intended | confidence | as-written member | corrected member |
|---|---|---|---|---|---|---|
| utils.py:100-102 | a name over 200 characters becomes `name[:200-len(ext)] + ext`; when the extension has more than 200 characters the slice bound is negative, so `name[:negative]` still keeps characters and the result exceeds 200 characters | `"a." + "x" * 250`: 252 characters, whose extension has 251; it comes back as that extension alone, 251 characters long | the result is never longer than 200 characters | not executed | Utils.LongExtensionExceedsLimit | Utils.SanitizedIsSafe |
