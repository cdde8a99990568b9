/**
 * What the command layer promises, stated about its specification functions
 * (`ParsedArgs`, `SearchCommand`, `Classify`, `ExportCommand`, `CommandLineRun`),
 * which the methods of `ExcelSearchCli` are proved to compute.
 */
module CliProperties {
  import opened Options
  import opened Text
  import opened OsPath
  import opened DataFrame
  import opened SearchEngine
  import opened SearchProperties
  import opened Cli

  // ---------------------------------------------------------------- process_search_command

  /** The first two column names are always columns of the file. */
  lemma DefaultColumnsExist(names: seq<string>)
    ensures MissingColumns(Head(names, 2), names) == []
  {
  }

  /** Without `-c`, the columns cannot be reported invalid: the default ones always exist. */
  lemma DefaultColumnsNeverInvalid(args: SearchArgs, names: seq<string>, df: Option<Table>, re: Regex)
    requires args.columns.None?
    ensures !SearchParsed(args, names, df, re).BadColumns?
    ensures SearchParsed(args, names, df, re).Shown? ==> SearchParsed(args, names, df, re).request.columns == Head(names, 2)
  {
    DefaultColumnsExist(names);
  }

  /** A token of `split()` is never blank. */
  lemma TokenNotBlank(w: string)
    requires IsToken(w)
    ensures !IsBlank(w)
  {
    assert !IsSpace(w[0]);
  }

  /**
   * When a search is shown, it searched for the first token of the argument
   * string, in columns of the file, with no cap; since that token is never
   * blank, the table was filtered rather than returned whole.
   */
  lemma ShownSearchUsesFirstToken(argsStr: string, info: Option<FileInfo>, df: Option<Table>, re: Regex)
    requires SearchCommand(argsStr, info, df, re).Shown?
    ensures var r := SearchCommand(argsStr, info, df, re);
      && Split(argsStr) != []
      && r.request.term == Split(argsStr)[0]
      && (forall c :: c in r.request.columns ==> c in info.value.columnNames)
      && r.request.maxResults.None?
      && r.stats.Filtered?
  {
    SplitTokens(argsStr);
    TokenNotBlank(Split(argsStr)[0]);
    var args := ParsedArgs(Split(argsStr));
    assert SearchCommand(argsStr, info, df, re) == SearchParsed(args, info.value.columnNames, df, re);
    ShownParsedSearch(args, info.value.columnNames, df, re);
  }

  /** A shown search used the parsed term, columns of the file and no cap, and filtered the table. */
  lemma ShownParsedSearch(args: SearchArgs, names: seq<string>, df: Option<Table>, re: Regex)
    requires SearchParsed(args, names, df, re).Shown? && !IsBlank(args.term)
    ensures var r := SearchParsed(args, names, df, re);
      && r.request.term == args.term
      && (forall c :: c in r.request.columns ==> c in names)
      && r.request.maxResults.None?
      && r.stats.Filtered?
  {
  }

  /**
   * A `-c` followed at once by another flag gives an empty column list, and
   * the flag after it still takes effect.
   */
  lemma ColumnFlagBeforeFlagSelectsNothing()
    ensures ParsedArgs(["john", "-c", "-e"]) == SearchArgs("john", Some([]), true, true, false)
  {
    var args := ["john", "-c", "-e"];
    assert LastColumnFlag(args, 3) == Some(1);
    assert IsDashed(args[2]);
    assert RunLength(args, 2) == 0;
    var none: seq<string> := [];
    assert args[2..2] == none;
    assert ColumnsBefore(args, 3) == Some(none);
    assert args[1..] == ["-c", "-e"];
    assert "-i" !in args[1..] && "-r" !in args[1..];
  }

  /** A trailing `-c` with nothing after it is ignored. */
  lemma TrailingColumnFlagIgnored()
    ensures ParsedArgs(["john", "-i", "-c"]) == SearchArgs("john", None, false, false, false)
  {
    var args := ["john", "-i", "-c"];
    assert args[1..] == ["-i", "-c"];
  }

  /** An empty column list is searched as such: a non-blank term then matches no row. */
  lemma EmptyColumnListFindsNothing(args: SearchArgs, t: Table, re: Regex)
    requires args.columns == Some([]) && !IsBlank(args.term)
    ensures SearchParsed(args, t.columns, Some(t), re).Shown?
    ensures SearchParsed(args, t.columns, Some(t), re).stats == Filtered(0, 0)
  {
    var q := SearchRequest(args.term, [], args.caseSensitive, args.exactMatch, args.useRegex, None);
    NoColumnsNoMatches(t, q, re);
  }

  // ---------------------------------------------------------------- interactive_mode

  /**
   * A line dispatched to `search` always carries a non-blank argument string:
   * a line reading just "search" is stripped and no longer has the prefix.
   */
  lemma SearchLineHasTerm(line: string)
    requires Classify(line).Search?
    ensures !IsBlank(Classify(line).argsStr)
  {
    PrefixRemainderNotBlank(Strip(line));
  }

  /** A line dispatched to `export` always carries a non-empty file name. */
  lemma ExportLineHasFilename(line: string)
    requires Classify(line).Export?
    ensures Classify(line).filename != []
  {
    var command := Strip(line);
    assert Classify(line).filename == Strip(command[7..]) && StartsWith(command, "export ") by {
      ExportLineShape(line);
    }
    assert Strip(command[7..]) != [] by {
      ExportLineShape(line);
      StrippedRemainderNotEmpty(command);
    }
  }

  /** What follows the `export ` prefix of a stripped line is not empty once stripped. */
  lemma StrippedRemainderNotEmpty(command: string)
    requires StartsWith(command, "export ")
    requires !IsSpace(command[|command| - 1])
    ensures Strip(command[7..]) != []
  {
    assert command[6] == ' ';
    PrefixRemainderNotBlank(command);
  }

  /** A line dispatched to `export` starts, once stripped, with the prefix, and the file name is the stripped rest. */
  lemma ExportLineShape(line: string)
    requires Classify(line).Export?
    ensures StartsWith(Strip(line), "export ") && Classify(line).filename == Strip(Strip(line)[7..])
    ensures Strip(line) != [] && !IsSpace(Strip(line)[|Strip(line)| - 1])
  {
    var command := Strip(line);
    assert StartsWith(command, "export ");
    assert Classify(line) == Export(Strip(command[7..]));
  }

  /** After a seven-character prefix ending in a space, a stripped line still has a character that is not white space. */
  lemma PrefixRemainderNotBlank(command: string)
    requires |command| >= 7 && command[6] == ' '
    requires command != [] && !IsSpace(command[|command| - 1])
    ensures !IsBlank(command[7..])
  {
    var a := command[7..];
    assert a[|a| - 1] == command[|command| - 1];
  }

  /** A text whose first character differs from the prefix's does not start with it. */
  lemma FirstCharacterDiffers(s: string, p: string)
    requires s != [] && p != [] && s[0] != p[0]
    ensures !StartsWith(s, p)
  {
    if |p| <= |s| {
      assert s[..|p|][0] == s[0];
    }
  }

  /**
   * The keywords are matched in any case: two lines that agree once stripped
   * and lowercased, one of which is a keyword, ask for the same thing.
   */
  lemma KeywordsIgnoreCase(a: string, b: string)
    requires Lower(Strip(a)) == Lower(Strip(b))
    requires Classify(a).Quit? || Classify(a).Help? || Classify(a).ShowColumns? || Classify(a).ShowInfo?
    ensures Classify(b) == Classify(a)
  {
    var k := Keyword(Lower(Strip(a)));
    assert Strip(a) != [] && k.Some? && Classify(a) == k.value;
    assert |Strip(b)| == |Strip(a)|;
  }

  /**
   * The prefixes are matched only in lower case: a line longer than any
   * keyword that starts with a capital letter ("Search john", "EXPORT out")
   * is an unknown command.
   */
  lemma CapitalisedLineIsUnknown(line: string)
    requires |Strip(line)| > 7 && 'A' <= Strip(line)[0] <= 'Z'
    ensures Classify(line) == Unknown
  {
    var command := Strip(line);
    var lowered := Lower(command);
    assert |lowered| > 7;
    assert lowered !in ["quit", "exit", "q"] && lowered != "help" && lowered != "columns" && lowered != "info";
    FirstCharacterDiffers(command, "export ");
    FirstCharacterDiffers(command, "search ");
  }

  // ---------------------------------------------------------------- run_command_line_search

  /**
   * On the command line, a missing or empty column list means the first two
   * columns, which always exist: once the file is loaded, only an invalid
   * pattern can refuse the search.
   */
  lemma CommandLineDefaultNeverInvalid(cl: CommandLine, fs: FileSystem, io: Readers, re: Regex, w: Writer)
    requires cl.columns.None? || cl.columns.value == []
    ensures var r := CommandLineRun(cl, fs, io, re, w);
      r.SearchRefused? ==> r.searchError == InvalidPattern
  {
    if cl.file != [] && ReadTable(cl.file, fs, io).Got? {
      var t := ReadTable(cl.file, fs, io).table;
      DefaultColumnsExist(t.columns);
      assert CommandLineRequest(cl, t).columns == Head(t.columns, 2);
    }
  }

  /** An export is attempted exactly when the search went through and a non-empty output path was given. */
  lemma CommandLineExportsWhenAsked(cl: CommandLine, fs: FileSystem, io: Readers, re: Regex, w: Writer)
    ensures var r := CommandLineRun(cl, fs, io, re, w);
      r.Completed? ==> (r.exported.Some? <==> cl.output.Some? && cl.output.value != [])
    ensures var r := CommandLineRun(cl, fs, io, re, w);
      r.Completed? ==> cl.file != [] && ReadTable(cl.file, fs, io).Got? && !r.stats.Failed?
  {
  }
}
