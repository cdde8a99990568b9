/**
 * The command layer of excel_search_cli.py: the `search` argument parser,
 * exporting the last results, classifying an interactive command line, and
 * the one-shot command-line search.
 */
module Cli {
  import opened Options
  import opened Text
  import opened OsPath
  import opened DataFrame
  import opened SearchEngine

  // ---------------------------------------------------------------- the search arguments

  /** What `process_search_command` extracts from its tokens; `columns` is `None` when no `-c` took effect. */
  datatype SearchArgs = SearchArgs(
    term: string,
    columns: Option<seq<string>>,
    caseSensitive: bool,
    exactMatch: bool,
    useRegex: bool)

  /** `token.startswith('-')`. */
  predicate IsDashed(token: string) {
    StartsWith(token, "-")
  }

  /** How many tokens from `from` on come before the first one starting with `-`. */
  function RunLength(args: seq<string>, from: nat): (n: nat)
    requires from <= |args|
    ensures from + n <= |args|
    ensures forall k :: from <= k < from + n ==> !IsDashed(args[k])
    ensures from + n == |args| || IsDashed(args[from + n])
    decreases |args| - from
  {
    if from == |args| || IsDashed(args[from]) then 0 else 1 + RunLength(args, from + 1)
  }

  /** The last position before `bound`, after the term, holding a `-c` that has a token after it. */
  function LastColumnFlag(args: seq<string>, bound: nat): (r: Option<nat>)
    requires bound <= |args|
    ensures r.Some? ==> 1 <= r.value < bound && r.value + 1 < |args| && args[r.value] == "-c"
    ensures r.None? ==> forall j :: 1 <= j < bound && j + 1 < |args| ==> args[j] != "-c"
    ensures r.Some? ==> forall j :: r.value < j < bound && j + 1 < |args| ==> args[j] != "-c"
  {
    if bound <= 1 then None
    else if bound < |args| && args[bound - 1] == "-c" then Some(bound - 1)
    else LastColumnFlag(args, bound - 1)
  }

  /** The columns set by the tokens before `bound`: the run of non-flag tokens after the last effective `-c`. */
  function ColumnsBefore(args: seq<string>, bound: nat): (r: Option<seq<string>>)
    requires bound <= |args|
    ensures r.Some? ==> forall k :: 0 <= k < |r.value| ==> !IsDashed(r.value[k])
  {
    match LastColumnFlag(args, bound)
    case None => None
    case Some(j) => Some(args[j + 1..j + 1 + RunLength(args, j + 1)])
  }

  /**
   * The meaning of the flags, stated on the whole token list: the first
   * token is the term; `-e`, `-i` and `-r` anywhere after it set exact
   * matching, clear case sensitivity and set regex; the columns come from the
   * last `-c` that is followed by a token; everything else is ignored.
   */
  function ParsedArgs(args: seq<string>): SearchArgs
    requires |args| >= 1
  {
    SearchArgs(args[0], ColumnsBefore(args, |args|), "-i" !in args[1..], "-e" in args[1..], "-r" in args[1..])
  }

  /**
   * What the parsed arguments mean, token by token: the term is the first
   * token; matching is case-sensitive unless some later token is `-i`; exact
   * matching and regex are on when some later token is `-e` or `-r`; columns
   * are chosen exactly when some `-c` has a token after it, and none of them
   * starts with `-`.
   */
  lemma ParsedArgsMeaning(args: seq<string>)
    requires |args| >= 1
    ensures var r := ParsedArgs(args);
      && r.term == args[0]
      && (r.caseSensitive <==> forall k :: 1 <= k < |args| ==> args[k] != "-i")
      && (r.exactMatch <==> exists k :: 1 <= k < |args| && args[k] == "-e")
      && (r.useRegex <==> exists k :: 1 <= k < |args| && args[k] == "-r")
      && (r.columns.None? <==> forall j :: 1 <= j < |args| - 1 ==> args[j] != "-c")
      && (r.columns.Some? ==> forall k :: 0 <= k < |r.columns.value| ==> !IsDashed(r.columns.value[k]))
  {
    forall x | x in args[1..] ensures exists k :: 1 <= k < |args| && args[k] == x {
      var m :| 0 <= m < |args[1..]| && args[1..][m] == x;
      assert args[m + 1] == x;
    }
  }

  /** No columns are set before `bound` exactly when no `-c` there has a token after it. */
  lemma ColumnsBeforeNoneIff(args: seq<string>, bound: nat)
    requires bound <= |args|
    ensures ColumnsBefore(args, bound).None? <==> forall j :: 1 <= j < bound && j + 1 < |args| ==> args[j] != "-c"
  {
    match LastColumnFlag(args, bound)
    case None =>
    case Some(j) => assert 1 <= j < bound && j + 1 < |args| && args[j] == "-c";
  }

  /** Tokens of a column run are not flags. */
  lemma RunHoldsNoFlag(args: seq<string>, k: nat)
    requires k < |args| && !IsDashed(args[k])
    ensures args[k] != "-c" && args[k] != "-e" && args[k] != "-i" && args[k] != "-r"
  {
  }

  /** Whether `flag` occurs among the tokens after the term and before `bound`. */
  predicate Seen(args: seq<string>, flag: string, bound: nat)
    requires 1 <= bound <= |args|
  {
    flag in args[1..bound]
  }

  /** Looking at one more token. */
  lemma SeenStep(args: seq<string>, flag: string, i: nat)
    requires 1 <= i < |args|
    ensures Seen(args, flag, i + 1) <==> Seen(args, flag, i) || args[i] == flag
  {
    assert args[1..i + 1] == args[1..i] + [args[i]];
  }

  /** Tokens other than `flag` do not change whether it was seen. */
  lemma {:induction false} SeenSkips(args: seq<string>, flag: string, lo: nat, hi: nat)
    requires 1 <= lo <= hi <= |args|
    requires forall k :: lo <= k < hi ==> args[k] != flag
    ensures Seen(args, flag, hi) == Seen(args, flag, lo)
    decreases hi - lo
  {
    if lo < hi {
      SeenStep(args, flag, hi - 1);
      SeenSkips(args, flag, lo, hi - 1);
    }
  }

  /** Tokens that are not `-c` leave the last effective `-c` where it was. */
  lemma {:induction false} LastColumnFlagSkips(args: seq<string>, lo: nat, hi: nat)
    requires 1 <= lo <= hi <= |args|
    requires forall k :: lo <= k < hi ==> args[k] != "-c"
    ensures LastColumnFlag(args, hi) == LastColumnFlag(args, lo)
    decreases hi - lo
  {
    if lo < hi {
      LastColumnFlagSkips(args, lo, hi - 1);
    }
  }

  /** A token that is not an effective `-c` leaves the columns as they were. */
  lemma ColumnsBeforeStep(args: seq<string>, i: nat)
    requires 1 <= i < |args| && !(args[i] == "-c" && i + 1 < |args|)
    ensures ColumnsBefore(args, i + 1) == ColumnsBefore(args, i)
  {
    assert LastColumnFlag(args, i + 1) == LastColumnFlag(args, i);
  }

  /** The four flags are different tokens. */
  lemma FlagsDiffer()
    ensures "-c" != "-e" && "-c" != "-i" && "-c" != "-r" && "-e" != "-i" && "-e" != "-r" && "-i" != "-r"
  {
    assert "-c"[1] == 'c' && "-e"[1] == 'e' && "-i"[1] == 'i' && "-r"[1] == 'r';
  }

  /** A token that is not an effective `-c` keeps the columns and sets only the flag it is. */
  lemma TokenStep(args: seq<string>, i: nat)
    requires 1 <= i < |args| && !(args[i] == "-c" && i + 1 < |args|)
    ensures ColumnsBefore(args, i + 1) == ColumnsBefore(args, i)
    ensures Seen(args, "-e", i + 1) <==> Seen(args, "-e", i) || args[i] == "-e"
    ensures Seen(args, "-i", i + 1) <==> Seen(args, "-i", i) || args[i] == "-i"
    ensures Seen(args, "-r", i + 1) <==> Seen(args, "-r", i) || args[i] == "-r"
  {
    ColumnsBeforeStep(args, i);
    SeenStep(args, "-e", i);
    SeenStep(args, "-i", i);
    SeenStep(args, "-r", i);
  }

  /** An effective `-c` followed by its whole run of column names sets the columns to that run. */
  lemma ColumnsAfterRun(args: seq<string>, flag: nat, i: nat)
    requires 1 <= flag && flag + 1 < |args| && args[flag] == "-c"
    requires flag + 1 <= i <= |args|
    requires forall k :: flag + 1 <= k < i ==> !IsDashed(args[k])
    requires i == |args| || IsDashed(args[i])
    ensures ColumnsBefore(args, i) == Some(args[flag + 1..i])
    ensures Seen(args, "-e", i) == Seen(args, "-e", flag + 1)
    ensures Seen(args, "-i", i) == Seen(args, "-i", flag + 1)
    ensures Seen(args, "-r", i) == Seen(args, "-r", flag + 1)
  {
    FlagsDiffer();
    forall k | flag + 1 <= k < i ensures args[k] != "-c" && args[k] != "-e" && args[k] != "-i" && args[k] != "-r" {
      RunHoldsNoFlag(args, k);
    }
    SeenSkips(args, "-i", flag + 1, i);
    SeenSkips(args, "-e", flag + 1, i);
    SeenSkips(args, "-r", flag + 1, i);
    LastColumnFlagSkips(args, flag + 1, i);
    assert LastColumnFlag(args, flag + 1) == Some(flag);
    assert flag + 1 + RunLength(args, flag + 1) == i;
  }

  /**
   * The inner loop of the flag parser: after the `-c` at `flag`, gathers the
   * tokens up to the next one starting with `-`, and returns them with the
   * position where it stopped.
   */
  method CollectColumns(args: seq<string>, flag: nat) returns (collected: seq<string>, i: nat)
    requires 1 <= flag && flag + 1 < |args| && args[flag] == "-c"
    ensures flag + 1 <= i <= |args|
    ensures ColumnsBefore(args, i) == Some(collected)
    ensures Seen(args, "-e", i) == Seen(args, "-e", flag)
    ensures Seen(args, "-i", i) == Seen(args, "-i", flag)
    ensures Seen(args, "-r", i) == Seen(args, "-r", flag)
  {
    i := flag + 1;
    collected := [];
    while i < |args| && !IsDashed(args[i])
      invariant flag + 1 <= i <= |args|
      invariant collected == args[flag + 1..i]
      invariant forall k :: flag + 1 <= k < i ==> !IsDashed(args[k])
      decreases |args| - i
    {
      collected := collected + [args[i]];
      i := i + 1;
    }
    ColumnsAfterRun(args, flag, i);
    SeenStep(args, "-e", flag);
    SeenStep(args, "-i", flag);
    SeenStep(args, "-r", flag);
  }

  /** The flag loop of `process_search_command`: every iteration moves the index forward. */
  method ParseSearchArgs(args: seq<string>) returns (r: SearchArgs)
    requires |args| >= 1
    ensures r == ParsedArgs(args)
  {
    FlagsDiffer();
    var columns: Option<seq<string>> := None;
    var caseSensitive, exactMatch, useRegex := true, false, false;
    var i := 1;
    while i < |args|
      invariant 1 <= i <= |args|
      invariant columns == ColumnsBefore(args, i)
      invariant caseSensitive == !Seen(args, "-i", i)
      invariant exactMatch == Seen(args, "-e", i)
      invariant useRegex == Seen(args, "-r", i)
      decreases |args| - i
    {
      var token := args[i];
      if token == "-c" && i + 1 < |args| {
        var collected;
        collected, i := CollectColumns(args, i);
        columns := Some(collected);
      } else if token == "-e" {
        TokenStep(args, i);
        exactMatch := true;
        i := i + 1;
      } else if token == "-i" {
        TokenStep(args, i);
        caseSensitive := false;
        i := i + 1;
      } else if token == "-r" {
        TokenStep(args, i);
        useRegex := true;
        i := i + 1;
      } else {
        TokenStep(args, i);
        i := i + 1;
      }
    }
    assert args[1..i] == args[1..];
    r := SearchArgs(args[0], columns, caseSensitive, exactMatch, useRegex);
  }

  /** `columns = all_columns[:2]` when no `-c` took effect. */
  function ChosenColumns(columns: Option<seq<string>>, names: seq<string>): (r: seq<string>)
    ensures columns.None? ==> |r| == (if |names| < 2 then |names| else 2) && r == names[..|r|]
    ensures columns.None? ==> forall c :: c in r ==> c in names
  {
    if columns.None? then Head(names, 2) else columns.value
  }

  // ---------------------------------------------------------------- process_search_command

  /** What one `search` command does; `NoFileInfo` is the failed `['column_names']` lookup when no file is loaded. */
  datatype SearchCommandOutcome =
    | MissingTerm                                             // "Please provide a search term"
    | NoFileInfo
    | BadColumns(invalid: seq<string>, available: seq<string>) // "Invalid columns: ..." / "Available columns: ..."
    | SearchFailed(error: SearchError)
    | Shown(request: SearchRequest, results: Table, stats: SearchStats)

  /** The outcome of `process_search_command` given the engine's file information and table. */
  function SearchCommand(argsStr: string, info: Option<FileInfo>, df: Option<Table>, re: Regex): (r: SearchCommandOutcome)
    ensures r == MissingTerm <==> IsBlank(argsStr)
    ensures r.NoFileInfo? <==> !IsBlank(argsStr) && info.None?
    ensures r.BadColumns? ==> info.Some? && r.available == info.value.columnNames
    ensures !IsBlank(argsStr) && info.Some? ==> r == SearchParsed(ParsedArgs(Split(argsStr)), info.value.columnNames, df, re)
  {
    if IsBlank(argsStr) then MissingTerm
    else if info.None? then NoFileInfo
    else
      SearchParsed(ParsedArgs(Split(argsStr)), info.value.columnNames, df, re)
  }

  /** What the command does once its arguments are parsed and the file's column names are known. */
  function SearchParsed(args: SearchArgs, names: seq<string>, df: Option<Table>, re: Regex): (r: SearchCommandOutcome)
    ensures !r.MissingTerm? && !r.NoFileInfo?
    ensures r.BadColumns? ==>
      && r.invalid != [] && r.available == names
      && (forall c :: c in r.invalid ==> c !in names)
      && args.columns.Some?
    ensures r.Shown? ==> r.request.term == args.term && forall c :: c in r.request.columns ==> c in names
    ensures r.BadColumns? <==> MissingColumns(ChosenColumns(args.columns, names), names) != []
    ensures r.BadColumns? ==> r.invalid == MissingColumns(ChosenColumns(args.columns, names), names)
    ensures !r.BadColumns? ==>
      var q := SearchRequest(args.term, ChosenColumns(args.columns, names), args.caseSensitive, args.exactMatch, args.useRegex, None);
      var res := SearchSpec(df, q, re);
      && (r.SearchFailed? <==> res.stats.Failed?)
      && (r.SearchFailed? ==> r.error == res.stats.error)
      && (r.Shown? ==> r.request == q && r.results == res.table && r.stats == res.stats)
  {
    var columns := ChosenColumns(args.columns, names);
    var invalid := MissingColumns(columns, names);
    assert invalid != [] ==> invalid[0] in columns;
    if invalid != [] then BadColumns(invalid, names)
    else
      var q := SearchRequest(args.term, columns, args.caseSensitive, args.exactMatch, args.useRegex, None);
      var res := SearchSpec(df, q, re);
      if res.stats.Failed? then SearchFailed(res.stats.error) else Shown(q, res.table, res.stats)
  }

  // ---------------------------------------------------------------- export_last_results

  datatype ExportCommandOutcome =
    | NothingToExport                                 // "No results to export"
    | MissingFilename                                 // "Please provide a filename"
    | Attempted(path: string, outcome: ExportOutcome)

  /** The file name with `.xlsx` added when `splitext` finds no extension. */
  function ExportPath(filename: string): (r: string)
    ensures |filename| <= |r| && r[..|filename|] == filename
    ensures r == filename || r == filename + ".xlsx"
    ensures SplitExt(filename).1 != [] ==> r == filename
    ensures SplitExt(filename).1 == [] ==> r == filename + ".xlsx"
  {
    if SplitExt(filename).1 == [] then filename + ".xlsx" else filename
  }

  /** The outcome of `export_last_results` given the last results. */
  function ExportCommand(lastResults: Option<Table>, filename: string, w: Writer): (r: ExportCommandOutcome)
    ensures r == NothingToExport <==> lastResults.None? || IsEmpty(lastResults.value)
    ensures r == MissingFilename <==> lastResults.Some? && !IsEmpty(lastResults.value) && filename == []
    ensures r.Attempted? ==> !r.outcome.NoResultsToExport? && filename != [] && |filename| <= |r.path| && r.path[..|filename|] == filename
    ensures r.Attempted? ==>
      && r.path == ExportPath(filename)
      && r.outcome == ExcelSearchEngine.ExportResults(lastResults.value, r.path, w)
  {
    if lastResults.None? || IsEmpty(lastResults.value) then NothingToExport
    else if filename == [] then MissingFilename
    else Attempted(ExportPath(filename), ExcelSearchEngine.ExportResults(lastResults.value, ExportPath(filename), w))
  }

  // ---------------------------------------------------------------- interactive_mode

  /** What one line typed in interactive mode asks for. */
  datatype Command =
    | Ignore
    | Quit
    | Help
    | ShowColumns
    | ShowInfo
    | Export(filename: string)
    | Search(argsStr: string)
    | Unknown

  /** The command a line names when, lowercased, the whole of it is a keyword. */
  function Keyword(lowered: string): (k: Option<Command>)
    ensures k == Some(Quit) <==> lowered in ["quit", "exit", "q"]
    ensures k == Some(Help) <==> lowered == "help"
    ensures k == Some(ShowColumns) <==> lowered == "columns"
    ensures k == Some(ShowInfo) <==> lowered == "info"
    ensures k.None? <==> lowered !in ["quit", "exit", "q", "help", "columns", "info"]
    ensures k.Some? ==> k.value.Quit? || k.value.Help? || k.value.ShowColumns? || k.value.ShowInfo?
  {
    if lowered in ["quit", "exit", "q"] then Some(Quit)
    else if lowered == "help" then Some(Help)
    else if lowered == "columns" then Some(ShowColumns)
    else if lowered == "info" then Some(ShowInfo)
    else None
  }

  /**
   * The dispatch of `interactive_mode` on a stripped line: the keywords are
   * compared lowercased with the whole line; `export ` and `search ` are
   * case-sensitive prefixes, `export ` tried first.
   */
  function Dispatch(command: string): (c: Command)
    ensures c != Ignore
    ensures Keyword(Lower(command)).Some? ==> c == Keyword(Lower(command)).value
    ensures Keyword(Lower(command)).None? && StartsWith(command, "export ") ==> c == Export(Strip(command[7..]))
    ensures Keyword(Lower(command)).None? && !StartsWith(command, "export ") && StartsWith(command, "search ") ==>
      c == Search(command[7..])
    ensures c == Unknown <==>
      Keyword(Lower(command)).None? && !StartsWith(command, "export ") && !StartsWith(command, "search ")
  {
    match Keyword(Lower(command))
    case Some(k) => k
    case None =>
      if StartsWith(command, "export ") then Export(Strip(command[7..]))
      else if StartsWith(command, "search ") then Search(command[7..])
      else Unknown
  }

  /** The command one interactive line asks for: a blank line is skipped, any other is dispatched once stripped. */
  function Classify(line: string): (c: Command)
    ensures c == Ignore <==> IsBlank(line)
    ensures Strip(line) != [] && Keyword(Lower(Strip(line))).Some? ==> c == Keyword(Lower(Strip(line))).value
    ensures Strip(line) != [] && Keyword(Lower(Strip(line))).None? && StartsWith(Strip(line), "export ") ==>
      c == Export(Strip(Strip(line)[7..]))
    ensures Strip(line) != [] && Keyword(Lower(Strip(line))).None? && !StartsWith(Strip(line), "export ") && StartsWith(Strip(line), "search ") ==>
      c == Search(Strip(line)[7..])
    ensures c == Unknown <==>
      && Strip(line) != [] && Keyword(Lower(Strip(line))).None?
      && !StartsWith(Strip(line), "export ") && !StartsWith(Strip(line), "search ")
    ensures c.Search? ==> StartsWith(Strip(line), "search ") && c.argsStr == Strip(line)[7..]
  {
    var command := Strip(line);
    if command == [] then Ignore else Dispatch(command)
  }

  /** What handling one interactive line produced. */
  datatype Reply =
    | Skipped
    | Quitting
    | HelpShown
    | ColumnsShown
    | InfoShown
    | SearchReply(search: SearchCommandOutcome)
    | ExportReply(exported: ExportCommandOutcome)
    | UnknownCommand

  // ---------------------------------------------------------------- run_command_line_search

  /** The parsed command line; `columns` and `output` are `None` when not given. */
  datatype CommandLine = CommandLine(
    file: string,
    search: string,
    columns: Option<seq<string>>,
    ignoreCase: bool,
    exact: bool,
    regex: bool,
    output: Option<string>,
    maxResults: Option<int>)

  /** `args.columns if args.columns else column_names[:2]`: an empty list counts as not given. */
  function CommandLineColumns(columns: Option<seq<string>>, names: seq<string>): (r: seq<string>)
    ensures columns.None? || columns.value == [] ==> |r| == (if |names| < 2 then |names| else 2) && r == names[..|r|]
    ensures columns.Some? && columns.value != [] ==> r == columns.value
  {
    if columns.Some? && columns.value != [] then columns.value else Head(names, 2)
  }

  datatype RunOutcome =
    | NoFilePath                                        // "Please provide a file path"
    | LoadRefused(loadError: LoadError)
    | SearchRefused(searchError: SearchError)
    | Completed(stats: SearchStats, exported: Option<ExportOutcome>)

  /** The search request the command line makes once `t` is loaded. */
  function CommandLineRequest(cl: CommandLine, t: Table): SearchRequest {
    SearchRequest(cl.search, CommandLineColumns(cl.columns, t.columns), !cl.ignoreCase, cl.exact, cl.regex, cl.maxResults)
  }

  /** The outcome of `run_command_line_search`. */
  function CommandLineRun(cl: CommandLine, fs: FileSystem, io: Readers, re: Regex, w: Writer): (r: RunOutcome)
    ensures r == NoFilePath <==> cl.file == []
    ensures r.LoadRefused? <==> cl.file != [] && ReadTable(cl.file, fs, io).Refused?
    ensures r.LoadRefused? ==> r.loadError == ReadTable(cl.file, fs, io).error
    ensures r.SearchRefused? || r.Completed? ==> cl.file != [] && ReadTable(cl.file, fs, io).Got?
    ensures cl.file != [] && ReadTable(cl.file, fs, io).Got? ==>
      var t := ReadTable(cl.file, fs, io).table;
      var res := SearchSpec(Some(t), CommandLineRequest(cl, t), re);
      && (r.SearchRefused? <==> res.stats.Failed?)
      && (r.SearchRefused? ==> r.searchError == res.stats.error)
      && (r.Completed? ==> r.stats == res.stats)
      && (r.Completed? && cl.output.Some? && cl.output.value != [] ==>
            r.exported == Some(ExcelSearchEngine.ExportResults(res.table, cl.output.value, w)))
      && (r.Completed? && (cl.output.None? || cl.output.value == []) ==> r.exported.None?)
  {
    if cl.file == [] then NoFilePath
    else match ReadTable(cl.file, fs, io)
      case Refused(e) => LoadRefused(e)
      case Got(t) =>
        var res := SearchSpec(Some(t), CommandLineRequest(cl, t), re);
        if res.stats.Failed? then SearchRefused(res.stats.error)
        else
          var exported := if cl.output.Some? && cl.output.value != [] then Some(ExcelSearchEngine.ExportResults(res.table, cl.output.value, w)) else None;
          Completed(res.stats, exported)
  }

  // ---------------------------------------------------------------- the CLI object

  class ExcelSearchCli {
    var engine: ExcelSearchEngine
    var lastResults: Option<Table>

    ghost predicate Valid()
      reads this, engine
    {
      engine.Valid()
    }

    constructor ()
      ensures Valid() && fresh(engine)
      ensures engine.df.None? && lastResults.None?
    {
      engine := new ExcelSearchEngine();
      lastResults := None;
    }

    /** `process_search_command`: parse, default and check the columns, search, and keep the results shown. */
    method ProcessSearchCommand(argsStr: string, re: Regex) returns (r: SearchCommandOutcome)
      requires Valid()
      modifies this`lastResults
      ensures Valid()
      ensures r == SearchCommand(argsStr, engine.fileInfo, engine.df, re)
      ensures lastResults == if r.Shown? then Some(r.results) else old(lastResults)
    {
      if Strip(argsStr) == [] {
        return MissingTerm;
      }
      var args := Split(argsStr);
      var parsed := ParseSearchArgs(args);
      r := SearchWithArgs(parsed, re);
    }

    /** The rest of `process_search_command` once the arguments are parsed: default and check the columns, then search. */
    method SearchWithArgs(parsed: SearchArgs, re: Regex) returns (r: SearchCommandOutcome)
      requires Valid()
      modifies this`lastResults
      ensures Valid()
      ensures engine.fileInfo.None? ==> r == NoFileInfo
      ensures engine.fileInfo.Some? ==> r == SearchParsed(parsed, engine.fileInfo.value.columnNames, engine.df, re)
      ensures lastResults == if r.Shown? then Some(r.results) else old(lastResults)
    {
      var info := engine.GetFileInfo();
      if info.None? {
        return NoFileInfo;
      }
      var names := info.value.columnNames;
      var columns := if parsed.columns.None? then Head(names, 2) else parsed.columns.value;
      var invalid := MissingColumns(columns, names);
      if invalid != [] {
        return BadColumns(invalid, names);
      }
      var q := SearchRequest(parsed.term, columns, parsed.caseSensitive, parsed.exactMatch, parsed.useRegex, None);
      var res;
      ghost var masks;
      res, masks := engine.Search(q, re);
      if res.stats.Failed? {
        return SearchFailed(res.stats.error);
      }
      r := Shown(q, res.table, res.stats);
      lastResults := Some(res.table);
    }

    /** `export_last_results`: refuses when there is nothing to export or no name, and adds `.xlsx` to a name without extension. */
    method ExportLastResults(filename: string, w: Writer) returns (r: ExportCommandOutcome)
      ensures r == ExportCommand(lastResults, filename, w)
    {
      if lastResults.None? || IsEmpty(lastResults.value) {
        return NothingToExport;
      }
      if filename == [] {
        return MissingFilename;
      }
      var path := filename;
      if SplitExt(path).1 == [] {
        path := path + ".xlsx";
      }
      r := Attempted(path, ExcelSearchEngine.ExportResults(lastResults.value, path, w));
    }

    /** One pass of the `interactive_mode` loop on the line read. */
    method HandleCommand(line: string, re: Regex, w: Writer) returns (reply: Reply)
      requires Valid()
      modifies this`lastResults
      ensures Valid()
      ensures match Classify(line)
        case Search(a) =>
          && reply == SearchReply(SearchCommand(a, engine.fileInfo, engine.df, re))
          && lastResults == if reply.search.Shown? then Some(reply.search.results) else old(lastResults)
        case Export(f) => reply == ExportReply(ExportCommand(lastResults, f, w)) && lastResults == old(lastResults)
        case Ignore => reply == Skipped && lastResults == old(lastResults)
        case Quit => reply == Quitting && lastResults == old(lastResults)
        case Help => reply == HelpShown && lastResults == old(lastResults)
        case ShowColumns => reply == ColumnsShown && lastResults == old(lastResults)
        case ShowInfo => reply == InfoShown && lastResults == old(lastResults)
        case Unknown => reply == UnknownCommand && lastResults == old(lastResults)
    {
      match Classify(line)
      case Ignore => reply := Skipped;
      case Quit => reply := Quitting;
      case Help => reply := HelpShown;
      case ShowColumns => reply := ColumnsShown;
      case ShowInfo => reply := InfoShown;
      case Export(f) =>
        var e := ExportLastResults(f, w);
        reply := ExportReply(e);
      case Search(a) =>
        var s := ProcessSearchCommand(a, re);
        reply := SearchReply(s);
      case Unknown => reply := UnknownCommand;
    }

    /** `run_command_line_search`: load, search with the chosen columns, and export when an output is named. */
    method RunCommandLineSearch(cl: CommandLine, fs: FileSystem, io: Readers, re: Regex, w: Writer) returns (r: RunOutcome)
      requires Valid()
      modifies engine
      ensures Valid()
      ensures r == CommandLineRun(cl, fs, io, re, w)
      ensures cl.file != [] && ReadTable(cl.file, fs, io).Got? ==>
        var t := ReadTable(cl.file, fs, io).table;
        && engine.df == Some(t) && engine.originalDf == Some(t) && engine.filePath == cl.file
        && engine.fileInfo == Some(FileInfo(|t.rows|, |t.columns|, fs.size(cl.file), t.columns))
      ensures cl.file == [] || ReadTable(cl.file, fs, io).Refused? ==>
        && engine.df == old(engine.df) && engine.originalDf == old(engine.originalDf)
        && engine.filePath == old(engine.filePath) && engine.fileInfo == old(engine.fileInfo)
    {
      if cl.file == [] {
        return NoFilePath;
      }
      var loaded := engine.LoadFile(cl.file, fs, io);
      if loaded.NotLoaded? {
        return LoadRefused(loaded.error);
      }
      var info := engine.GetFileInfo();
      var columns := if cl.columns.Some? && cl.columns.value != [] then cl.columns.value else Head(info.value.columnNames, 2);
      var q := SearchRequest(cl.search, columns, !cl.ignoreCase, cl.exact, cl.regex, cl.maxResults);
      var res;
      ghost var masks;
      res, masks := engine.Search(q, re);
      if res.stats.Failed? {
        return SearchRefused(res.stats.error);
      }
      var exported := None;
      if cl.output.Some? && cl.output.value != [] {
        exported := Some(ExcelSearchEngine.ExportResults(res.table, cl.output.value, w));
      }
      r := Completed(res.stats, exported);
    }
  }
}
