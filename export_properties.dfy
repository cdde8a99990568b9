/**
 * What `export_last_results` promises about the path it writes to and the
 * format chosen for it, stated about `ExportCommand` and `ExportPath`.
 */
module ExportProperties {
  import opened Options
  import opened Text
  import opened OsPath
  import opened DataFrame
  import opened SearchEngine
  import opened Cli

  /**
   * A file name without extension whose base name is not all dots gets
   * `.xlsx`, which `splitext` then sees as its extension: it is written as
   * an Excel file.
   */
  lemma DefaultExtensionIsExcel(filename: string)
    ensures SplitExt(filename).1 == [] && HasNonDot(filename, RFind(filename, '/') + 1, |filename|) ==>
      && SplitExt(ExportPath(filename)) == (filename, ".xlsx")
      && ExportFormatOf(ExportPath(filename)) == Some(ExcelFile)
  {
    if SplitExt(filename).1 == [] && HasNonDot(filename, RFind(filename, '/') + 1, |filename|) {
      NoExtensionGetsXlsx(filename);
      AddedXlsxIsExtension(filename);
      XlsxIsExcelFormat(ExportPath(filename), filename);
    }
  }

  /** A name without extension is exported under that name plus `.xlsx`. */
  lemma NoExtensionGetsXlsx(filename: string)
    requires SplitExt(filename).1 == []
    ensures ExportPath(filename) == filename + ".xlsx"
  {
  }

  /** `.xlsx` added to a name whose base name is not all dots is what `splitext` splits off. */
  lemma AddedXlsxIsExtension(filename: string)
    requires HasNonDot(filename, RFind(filename, '/') + 1, |filename|)
    ensures SplitExt(filename + ".xlsx") == (filename, ".xlsx")
  {
    XlsxIsLowerExtension();
    SplitExtOfStemAndExtension(filename, ".xlsx");
  }

  /** A path with the extension ".xlsx" is written as an Excel file. */
  lemma XlsxIsExcelFormat(path: string, stem: string)
    requires SplitExt(path) == (stem, ".xlsx")
    ensures ExportFormatOf(path) == Some(ExcelFile)
  {
    XlsxIsLowerExtension();
    assert ".xlsx" != ".csv" by { assert |".xlsx"| != |".csv"|; }
  }

  /**
   * The writer follows the lowercased extension: ".csv" in any case is
   * written as CSV, ".xlsx" and ".xls" in any case as Excel, and nothing
   * else is written at all.
   */
  lemma ExportFormatByExtension(outputPath: string)
    ensures Lower(SplitExt(outputPath).1) == ".csv" <==> ExportFormatOf(outputPath) == Some(CsvFile)
    ensures Lower(SplitExt(outputPath).1) in [".xlsx", ".xls"] <==> ExportFormatOf(outputPath) == Some(ExcelFile)
  {
    assert ".xlsx" != ".csv" by { assert |".xlsx"| != |".csv"|; }
    assert ".xls" != ".csv" by { assert ".xls"[1] != ".csv"[1]; }
  }

  /** ".xlsx" is an extension as `splitext` returns one, and already in lower case. */
  lemma XlsxIsLowerExtension()
    ensures IsExtension(".xlsx") && Lower(".xlsx") == ".xlsx"
  {
  }

  /** An attempted export writes a non-empty table under the name given or that name plus `.xlsx`. */
  lemma AttemptedExportHasRows(lastResults: Option<Table>, filename: string, w: Writer)
    requires ExportCommand(lastResults, filename, w).Attempted?
    ensures var r := ExportCommand(lastResults, filename, w);
      && r.outcome != NoResultsToExport
      && (r.path == filename || r.path == filename + ".xlsx")
      && (r.outcome.Exported? ==> r.outcome.rows == |lastResults.value.rows| > 0)
  {
  }

  /**
   * A name made only of dots has no extension, yet adding `.xlsx` does not
   * give it one: "..", exported, becomes "...xlsx" and is refused as an
   * unsupported format.
   */
  lemma DotsOnlyNameRefused(t: Table, w: Writer)
    requires !IsEmpty(t)
    ensures ExportCommand(Some(t), "..", w) == Attempted("...xlsx", UnsupportedExport(""))
  {
    RFindUnique("..", '.', 1);
    RFindUnique("..", '/', -1);
    assert !HasNonDot("..", 0, 1);
    assert SplitExt("..") == ("..", "");
    assert ExportPath("..") == "...xlsx";
    RFindUnique("...xlsx", '.', 2);
    RFindUnique("...xlsx", '/', -1);
    assert !HasNonDot("...xlsx", 0, 2);
    assert SplitExt("...xlsx") == ("...xlsx", "");
    assert ExportFormatOf("...xlsx").None?;
  }
}
