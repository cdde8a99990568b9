/**
 * What `load_file` promises about the table it reads, stated about
 * `ReadTable` and `DecodeFirst` (which `ExcelSearchEngine.LoadFile` is proved
 * to follow).
 */
module LoadProperties {
  import opened Text
  import opened OsPath
  import opened DataFrame
  import opened SearchEngine

  /** Encoding `encodings[i]` decodes the file, and every encoding before it raises `UnicodeDecodeError`. */
  predicate FirstDecodingAt(read: (string, Encoding) -> CsvRead, path: string, encodings: seq<Encoding>, i: nat)
    requires i < |encodings|
  {
    && read(path, encodings[i]).Decoded?
    && forall j :: 0 <= j < i ==> read(path, encodings[j]).UnicodeDecodeError?
  }

  /**
   * The encodings are tried in order: the table read is the one the first
   * decoding encoding gives, provided every encoding before it failed to
   * decode (rather than raising something else).
   */
  lemma {:induction false} DecodeFirstTakesFirstDecoding(read: (string, Encoding) -> CsvRead, path: string, encodings: seq<Encoding>, t: Table)
    ensures DecodeFirst(read, path, encodings) == Got(t)
        <==> exists i :: 0 <= i < |encodings| && FirstDecodingAt(read, path, encodings, i) && read(path, encodings[i]).table == t
    decreases |encodings|
  {
    if encodings != [] {
      var rest := encodings[1..];
      DecodeFirstTakesFirstDecoding(read, path, rest, t);
      if read(path, encodings[0]).UnicodeDecodeError? {
        if DecodeFirst(read, path, encodings) == Got(t) {
          var i :| 0 <= i < |rest| && FirstDecodingAt(read, path, rest, i) && read(path, rest[i]).table == t;
          assert FirstDecodingAt(read, path, encodings, i + 1) by {
            forall j | 0 <= j < i + 1 ensures read(path, encodings[j]).UnicodeDecodeError? {
              if j > 0 {
                assert encodings[j] == rest[j - 1];
              }
            }
          }
        }
        if exists i :: 0 <= i < |encodings| && FirstDecodingAt(read, path, encodings, i) && read(path, encodings[i]).table == t {
          var i :| 0 <= i < |encodings| && FirstDecodingAt(read, path, encodings, i) && read(path, encodings[i]).table == t;
          assert i > 0;
          assert FirstDecodingAt(read, path, rest, i - 1) by {
            forall j | 0 <= j < i - 1 ensures read(path, rest[j]).UnicodeDecodeError? {
              assert rest[j] == encodings[j + 1];
            }
          }
        }
      } else if read(path, encodings[0]).Decoded? {
        if DecodeFirst(read, path, encodings) == Got(t) {
          assert FirstDecodingAt(read, path, encodings, 0);
        }
      } else {
        forall i | 0 <= i < |encodings| ensures !FirstDecodingAt(read, path, encodings, i) {
          if i > 0 {
            assert !read(path, encodings[0]).UnicodeDecodeError?;
          }
        }
      }
    }
  }

  /** "Could not read CSV file with any supported encoding" is reported exactly when every encoding fails to decode. */
  lemma {:induction false} NoEncodingIffAllFail(read: (string, Encoding) -> CsvRead, path: string, encodings: seq<Encoding>)
    ensures DecodeFirst(read, path, encodings) == Refused(NoEncodingDecodes)
        <==> forall j :: 0 <= j < |encodings| ==> read(path, encodings[j]).UnicodeDecodeError?
    decreases |encodings|
  {
    if encodings != [] {
      var rest := encodings[1..];
      NoEncodingIffAllFail(read, path, rest);
      assert forall j :: 0 < j < |encodings| ==> encodings[j] == rest[j - 1];
    }
  }

  /**
   * The format is refused exactly for an existing path whose lowercased name
   * ends in none of ".csv", ".xlsx" and ".xls"; the extension reported is the
   * one `splitext` finds in the path as given.
   */
  lemma UnsupportedIffNoKnownSuffix(path: string, fs: FileSystem, io: Readers)
    ensures ReadTable(path, fs, io).Refused? && ReadTable(path, fs, io).error.UnsupportedFormat?
        <==> fs.pathExists(path) && !EndsWith(Lower(path), ".csv") && !EndsWith(Lower(path), ".xlsx") && !EndsWith(Lower(path), ".xls")
    ensures ReadTable(path, fs, io).Refused? && ReadTable(path, fs, io).error.UnsupportedFormat? ==>
        ReadTable(path, fs, io).error.ext == SplitExt(path).1
  {
    if fs.pathExists(path) {
      if EndsWith(Lower(path), ".csv") {
        CsvNeverUnsupported(path, fs, io);
      } else if EndsWith(Lower(path), ".xlsx") || EndsWith(Lower(path), ".xls") {
        ExcelNeverUnsupported(path, fs, io);
      } else {
        OtherSuffixUnsupported(path, fs, io);
      }
    }
  }

  /** A CSV file is never refused as an unsupported format. */
  lemma CsvNeverUnsupported(path: string, fs: FileSystem, io: Readers)
    requires fs.pathExists(path) && EndsWith(Lower(path), ".csv")
    ensures ReadTable(path, fs, io).Refused? ==> !ReadTable(path, fs, io).error.UnsupportedFormat?
  {
    assert ReadTable(path, fs, io) == DecodeFirst(io.readCsv, path, CsvEncodings);
  }

  /** An Excel file is read by an engine, never refused as an unsupported format. */
  lemma ExcelNeverUnsupported(path: string, fs: FileSystem, io: Readers)
    requires fs.pathExists(path) && !EndsWith(Lower(path), ".csv")
    requires EndsWith(Lower(path), ".xlsx") || EndsWith(Lower(path), ".xls")
    ensures ReadTable(path, fs, io).Refused? ==> ReadTable(path, fs, io).error.LoadFailed?
  {
    var engine := if EndsWith(Lower(path), ".xlsx") then Openpyxl else Xlrd;
    assert ReadTable(path, fs, io) == FromExcel(io.readExcel(path, engine));
  }

  /** Any other suffix is refused, naming the extension of the path as given. */
  lemma OtherSuffixUnsupported(path: string, fs: FileSystem, io: Readers)
    requires fs.pathExists(path)
    requires !EndsWith(Lower(path), ".csv") && !EndsWith(Lower(path), ".xlsx") && !EndsWith(Lower(path), ".xls")
    ensures ReadTable(path, fs, io) == Refused(UnsupportedFormat(SplitExt(path).1))
  {
  }

  /**
   * `load_file` on an existing CSV file yields table `t` exactly when, in
   * the order utf-8, utf-8-sig, cp1256, iso-8859-1, some encoding reads `t`
   * and every encoding before it raised `UnicodeDecodeError`.
   */
  lemma CsvReadsFirstDecoding(path: string, fs: FileSystem, io: Readers, t: Table)
    requires fs.pathExists(path) && EndsWith(Lower(path), ".csv")
    ensures ReadTable(path, fs, io) == DecodeFirst(io.readCsv, path, CsvEncodings)
    ensures ReadTable(path, fs, io) == Got(t)
        <==> exists i :: 0 <= i < |CsvEncodings| && FirstDecodingAt(io.readCsv, path, CsvEncodings, i) && io.readCsv(path, CsvEncodings[i]).table == t
  {
    DecodeFirstTakesFirstDecoding(io.readCsv, path, CsvEncodings, t);
  }

  /**
   * An existing file that is not CSV is read with openpyxl when its
   * lowercased name ends in ".xlsx" and with xlrd when it ends in ".xls".
   */
  lemma ExcelEngineBySuffix(path: string, fs: FileSystem, io: Readers)
    requires fs.pathExists(path) && !EndsWith(Lower(path), ".csv")
    ensures EndsWith(Lower(path), ".xlsx") ==> ReadTable(path, fs, io) == FromExcel(io.readExcel(path, Openpyxl))
    ensures !EndsWith(Lower(path), ".xlsx") && EndsWith(Lower(path), ".xls") ==>
      ReadTable(path, fs, io) == FromExcel(io.readExcel(path, Xlrd))
  {
  }

  /** A missing file is reported by its base name, before its suffix is looked at. */
  lemma MissingFileReportedFirst(path: string, fs: FileSystem, io: Readers)
    requires !fs.pathExists(path)
    ensures ReadTable(path, fs, io) == Refused(FileNotFound(Basename(path)))
  {
  }
}
