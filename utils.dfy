/**
 * The file-handling helpers of utils.py: validating a path before loading,
 * making a file name safe, and naming a timestamped backup.
 */
module Utils {
  import opened Text
  import opened OsPath
  import opened DataFrame
  import opened SearchEngine

  // ---------------------------------------------------------------- validate_file_path

  /** The formats `validate_file_path` accepts, compared with the lowercased extension. */
  const SupportedFormats: seq<string> := [".xlsx", ".xls", ".csv"]

  /** 500 MB: larger files are accepted with a warning. */
  const LargeFileBytes: nat := 500 * 1024 * 1024

  datatype PathMessage =
    | EmptyPath                     // "File path is empty"
    | DoesNotExist(path: string)    // "File does not exist: <path>"
    | NotAFile(path: string)        // "Path is not a file: <path>"
    | UnsupportedFile(ext: string)  // "Unsupported file format: <ext>. Supported: ..."
    | LargeFile(sizeBytes: nat)     // "Warning: Large file (<size> MB) may take time to load"
    | FileValid                     // "File is valid"

  /** The `(is_valid, message)` pair. */
  datatype Validation = Validation(valid: bool, message: PathMessage)

  /**
   * `validate_file_path`: the checks run in order and the first failing one
   * decides; a supported file over 500 MB is valid, with a warning.
   * (`getsize / 2**20 > 500` divides by a power of two, so it is exact.)
   */
  function ValidateFilePath(path: string, fs: FileSystem): (r: Validation)
    ensures r.valid <==> r.message.LargeFile? || r.message == FileValid
    ensures path == [] ==> r.message == EmptyPath
    ensures path != [] && !fs.pathExists(path) ==> r.message == DoesNotExist(path)
    ensures path != [] && fs.pathExists(path) && !fs.isFile(path) ==> r.message == NotAFile(path)
    ensures path != [] && fs.pathExists(path) && fs.isFile(path) && SplitExt(Lower(path)).1 !in SupportedFormats ==>
      r.message == UnsupportedFile(SplitExt(Lower(path)).1)
    ensures path != [] && fs.pathExists(path) && fs.isFile(path) && SplitExt(Lower(path)).1 in SupportedFormats ==>
      r.message == (if fs.size(path) > LargeFileBytes then LargeFile(fs.size(path)) else FileValid)
  {
    if path == [] then Validation(false, EmptyPath)
    else if !fs.pathExists(path) then Validation(false, DoesNotExist(path))
    else if !fs.isFile(path) then Validation(false, NotAFile(path))
    else
      var ext := SplitExt(Lower(path)).1;
      if ext !in SupportedFormats then Validation(false, UnsupportedFile(ext))
      else if fs.size(path) > LargeFileBytes then Validation(true, LargeFile(fs.size(path)))
      else Validation(true, FileValid)
  }

  /**
   * A path is valid exactly when it is non-empty, exists, is a regular file
   * and has a supported lowercased extension; the warning is given exactly
   * for valid files over 500 MB.
   */
  lemma ValidIffAllChecksPass(path: string, fs: FileSystem)
    ensures ValidateFilePath(path, fs).valid
        <==> path != [] && fs.pathExists(path) && fs.isFile(path) && SplitExt(Lower(path)).1 in SupportedFormats
    ensures ValidateFilePath(path, fs).message.LargeFile?
        <==> ValidateFilePath(path, fs).valid && fs.size(path) > LargeFileBytes
  {
  }

  /** A lowercased path ends with the extension `splitext` finds in it. */
  lemma EndsWithOwnExtension(p: string)
    ensures EndsWith(p, SplitExt(p).1)
  {
    var (name, ext) := SplitExt(p);
    assert p[|p| - |ext|..] == (name + ext)[|name|..];
  }

  /**
   * What validation accepts, `load_file` attempts to read: it neither says
   * the file is missing nor that its format is unsupported; only a reader
   * failure can still refuse it.
   */
  lemma ValidFileIsRead(path: string, fs: FileSystem, io: Readers)
    requires ValidateFilePath(path, fs).valid
    ensures ReadTable(path, fs, io).Refused? ==>
      ReadTable(path, fs, io).error == NoEncodingDecodes || ReadTable(path, fs, io).error.LoadFailed?
  {
    EndsWithOwnExtension(Lower(path));
    var ext := SplitExt(Lower(path)).1;
    assert ext == ".xlsx" || ext == ".xls" || ext == ".csv";
  }

  /**
   * Validation is stricter than loading: a file named ".csv" has no extension
   * for `splitext` and is refused, while `load_file`, which looks at the
   * suffix, reads it as CSV.
   */
  lemma DotfileRefusedButLoadable(fs: FileSystem, io: Readers)
    requires fs.pathExists(".csv") && fs.isFile(".csv")
    ensures ValidateFilePath(".csv", fs) == Validation(false, UnsupportedFile(""))
    ensures !ReadTable(".csv", fs, io).Refused? || !ReadTable(".csv", fs, io).error.UnsupportedFormat?
  {
    DotCsvHasNoExtension();
    assert Lower(".csv") == ".csv";
    assert EndsWith(Lower(".csv"), ".csv");
  }

  /** For `splitext`, ".csv" is a hidden file's name, not an extension. */
  lemma DotCsvHasNoExtension()
    ensures SplitExt(".csv") == (".csv", "")
  {
    RFindUnique(".csv", '.', 0);
    RFindUnique(".csv", '/', -1);
    assert !HasNonDot(".csv", 0, 0);
  }

  // ---------------------------------------------------------------- sanitize_filename

  /** The characters replaced by `_`. */
  const InvalidChars: string := "<>:\"/\\|?*"

  /** The longest name `sanitize_filename` means to return. */
  const MaxNameLength: nat := 200

  /** `s.replace(c, '_')` for one character `c`. */
  function ReplaceChar(s: string, c: char): (r: string)
    ensures |r| == |s|
    ensures forall i :: 0 <= i < |s| ==> r[i] == if s[i] == c then '_' else s[i]
  {
    seq(|s|, i requires 0 <= i < |s| => if s[i] == c then '_' else s[i])
  }

  /** Every character of `s` that is one of `cs` replaced by `_`. */
  function ReplacedWith(s: string, cs: string): (r: string)
    ensures |r| == |s|
    ensures forall i :: 0 <= i < |s| ==> r[i] == if s[i] in cs then '_' else s[i]
  {
    seq(|s|, i requires 0 <= i < |s| => if s[i] in cs then '_' else s[i])
  }

  /** No character of `s` is one of `cs`. */
  predicate Avoids(s: string, cs: string) {
    forall i :: 0 <= i < |s| ==> s[i] !in cs
  }

  /**
   * The length limit as written: `name[:200-len(ext)] + ext` when the name is
   * over 200 characters. Python's slice with a negative bound is `Head`.
   */
  function TruncatedAsWritten(s: string): (r: string)
    ensures |s| <= MaxNameLength ==> r == s
    ensures |SplitExt(s).1| <= MaxNameLength ==> |r| <= MaxNameLength
  {
    if |s| > MaxNameLength then
      var (name, ext) := SplitExt(s);
      Head(name, MaxNameLength - |ext|) + ext
    else s
  }

  /**
   * The length limit as intended: the extension is kept when it fits in 200
   * characters; an extension longer than that cannot be kept, and the first
   * 200 characters are.
   */
  function Truncated(s: string): (r: string)
    ensures |r| <= MaxNameLength
    ensures |s| <= MaxNameLength ==> r == s
  {
    if |s| > MaxNameLength then
      var (name, ext) := SplitExt(s);
      if |ext| <= MaxNameLength then Head(name, MaxNameLength - |ext|) + ext
      else s[..MaxNameLength]
    else s
  }

  /**
   * Where the two agree: an extension of at most 200 characters is kept as
   * written, and the corrected limit only changes what happens to a longer one.
   */
  lemma AsWrittenAgrees(s: string)
    requires |SplitExt(s).1| <= MaxNameLength
    ensures TruncatedAsWritten(s) == Truncated(s)
  {
  }

  /** `sanitize_filename`, with the intended length limit: never longer than the name given, nor than 200 characters. */
  function Sanitized(f: string): (r: string)
    ensures |r| <= |f| && |r| <= MaxNameLength
  {
    Truncated(ReplacedWith(f, InvalidChars))
  }

  /** `sanitize_filename`: replaces each invalid character in turn, then limits the length. */
  method SanitizeFilename(filename: string) returns (r: string)
    ensures r == Sanitized(filename)
  {
    r := filename;
    for k := 0 to |InvalidChars|
      invariant r == ReplacedWith(filename, InvalidChars[..k])
    {
      ReplaceStep(filename, InvalidChars, k);
      r := ReplaceChar(r, InvalidChars[k]);
    }
    assert InvalidChars[..|InvalidChars|] == InvalidChars;
    if |r| > MaxNameLength {
      var (name, ext) := SplitExt(r);
      if |ext| <= MaxNameLength {
        r := Head(name, MaxNameLength - |ext|) + ext;
      } else {
        r := r[..MaxNameLength];
      }
    }
  }

  /** One more `replace` call: since `_` is not itself replaced, the replacements compose. */
  lemma ReplaceStep(s: string, cs: string, k: nat)
    requires k < |cs| && '_' !in cs
    ensures ReplaceChar(ReplacedWith(s, cs[..k]), cs[k]) == ReplacedWith(s, cs[..k + 1])
  {
    var before, after := cs[..k], cs[..k + 1];
    forall i | 0 <= i < |s|
      ensures ReplaceChar(ReplacedWith(s, before), cs[k])[i] == ReplacedWith(s, after)[i]
    {
      assert s[i] in after <==> s[i] in before || s[i] == cs[k] by {
        assert after == before + [cs[k]];
      }
    }
  }

  /** The characters of a truncation all come from the text it truncates. */
  lemma TruncatedKeepsCharacters(s: string, cs: string)
    requires Avoids(s, cs)
    ensures Avoids(Truncated(s), cs)
  {
    if |s| > MaxNameLength {
      var (name, ext) := SplitExt(s);
      assert name == s[..|name|] && ext == s[|name|..];
      if |ext| <= MaxNameLength {
        var h := Head(name, MaxNameLength - |ext|);
        forall i | 0 <= i < |h + ext| ensures (h + ext)[i] !in cs {
          if i < |h| {
            assert (h + ext)[i] == s[i];
          } else {
            assert (h + ext)[i] == s[|name| + i - |h|];
          }
        }
      }
    }
  }

  /** A sanitized name contains none of the invalid characters and is at most 200 characters long. */
  lemma SanitizedIsSafe(f: string)
    ensures Avoids(Sanitized(f), InvalidChars)
    ensures |Sanitized(f)| <= MaxNameLength
  {
    TruncatedKeepsCharacters(ReplacedWith(f, InvalidChars), InvalidChars);
  }

  /** A name of at most 200 characters keeps its length and only has its invalid characters replaced; a safe one is unchanged. */
  lemma ShortNameOnlyReplaced(f: string)
    requires |f| <= MaxNameLength
    ensures Sanitized(f) == ReplacedWith(f, InvalidChars)
    ensures Avoids(f, InvalidChars) ==> Sanitized(f) == f
  {
  }

  /** A long name with a short enough extension is cut to exactly 200 characters and keeps its extension. */
  lemma LongNameKeepsExtension(f: string)
    requires |f| > MaxNameLength
    requires |SplitExt(ReplacedWith(f, InvalidChars)).1| <= MaxNameLength
    ensures |Sanitized(f)| == MaxNameLength
    ensures EndsWith(Sanitized(f), SplitExt(ReplacedWith(f, InvalidChars)).1)
  {
    var s := ReplacedWith(f, InvalidChars);
    var (name, ext) := SplitExt(s);
    var r := Head(name, MaxNameLength - |ext|) + ext;
    assert r[|r| - |ext|..] == ext;
  }

  /** Sanitizing twice is sanitizing once. */
  lemma SanitizeIdempotent(f: string)
    ensures Sanitized(Sanitized(f)) == Sanitized(f)
  {
    SanitizedIsSafe(f);
    var s := Sanitized(f);
    assert ReplacedWith(s, InvalidChars) == s;
  }

  /**
   * As written, an extension longer than 200 characters makes
   * `200 - len(ext)` negative: the slice drops the name's tail instead of
   * shortening to 200, and the result keeps the whole extension, so it is
   * longer than 200 characters. Shown for a one-letter name without invalid
   * characters, such as "a." followed by 250 letters.
   */
  lemma {:induction false} LongExtensionExceedsLimit(stem: char, tail: string)
    requires stem != '.' && stem != '/' && stem !in InvalidChars
    requires |tail| >= MaxNameLength && Avoids(tail, InvalidChars) && Lacks(tail, '.')
    ensures |TruncatedAsWritten(ReplacedWith([stem, '.'] + tail, InvalidChars))| == |tail| + 1 > MaxNameLength
  {
    var s := [stem, '.'] + tail;
    assert ReplacedWith(s, InvalidChars) == s;
    assert s == [stem] + ("." + tail);
    assert IsExtension("." + tail) by {
      forall j | 1 <= j < |tail| + 1 ensures ("." + tail)[j] != '.' && ("." + tail)[j] != '/' {
        assert ("." + tail)[j] == tail[j - 1];
        assert tail[j - 1] !in InvalidChars;
      }
    }
    assert RFind([stem], '/') == -1;
    assert HasNonDot([stem], 0, 1) by { assert [stem][0] == stem; }
    SplitExtOfStemAndExtension([stem], "." + tail);
  }

  /** The one-letter name "a" with an extension of 250 letters: 251 characters survive. */
  lemma LongExtensionExample()
    ensures |TruncatedAsWritten(ReplacedWith("a." + seq(250, _ => 'x'), InvalidChars))| == 251
  {
    var tail := seq(250, _ => 'x');
    assert "a." + tail == ['a', '.'] + tail;
    LongExtensionExceedsLimit('a', tail);
  }

  // ---------------------------------------------------------------- create_backup_filename

  /** `datetime.now().strftime("%Y%m%d_%H%M%S")`: eight digits, an underscore, six digits. */
  predicate IsTimestamp(ts: string) {
    |ts| == 15 && ts[8] == '_' && forall i :: 0 <= i < 15 && i != 8 ==> '0' <= ts[i] <= '9'
  }

  /** The new base name: `<name>_backup_<timestamp><ext>`. */
  function BackupName(originalPath: string, timestamp: string): (r: string)
    ensures |r| == |Basename(originalPath)| + 8 + |timestamp|
  {
    var (name, ext) := SplitExt(Basename(originalPath));
    name + "_backup_" + timestamp + ext
  }

  /**
   * `create_backup_filename`: the backup lives in the same directory; the
   * clock reading is the `timestamp` parameter.
   */
  function CreateBackupFilename(originalPath: string, timestamp: string): (r: string)
    requires IsTimestamp(timestamp)
    ensures var b := BackupName(originalPath, timestamp); |b| <= |r| && r[|r| - |b|..] == b
  {
    Join(Dirname(originalPath), BackupName(originalPath, timestamp))
  }

  /** The new base name is not empty and has no slash. */
  lemma BackupNameIsPlain(originalPath: string, timestamp: string)
    requires IsTimestamp(timestamp)
    ensures BackupName(originalPath, timestamp) != [] && Lacks(BackupName(originalPath, timestamp), '/')
  {
    var base := Basename(originalPath);
    var (name, ext) := SplitExt(base);
    assert name == base[..|name|];
    assert Lacks(name, '/') by {
      forall j | 0 <= j < |name| ensures name[j] != '/' {
        assert name[j] == base[j];
      }
    }
    assert Lacks(timestamp, '/') by {
      forall j | 0 <= j < |timestamp| ensures timestamp[j] != '/' {
        if j != 8 {
          assert '0' <= timestamp[j] <= '9';
        }
      }
    }
    assert Lacks("_backup_", '/');
    assert Lacks(ext, '/');
    LacksConcat(name, "_backup_", '/');
    LacksConcat(name + "_backup_", timestamp, '/');
    LacksConcat(name + "_backup_" + timestamp, ext, '/');
  }

  /**
   * The backup is in the original's directory and its base name is the
   * original's name, `_backup_`, the timestamp and the original extension.
   */
  lemma BackupBesideOriginal(originalPath: string, timestamp: string)
    requires IsTimestamp(timestamp)
    ensures Dirname(CreateBackupFilename(originalPath, timestamp)) == Dirname(originalPath)
    ensures Basename(CreateBackupFilename(originalPath, timestamp))
         == SplitExt(Basename(originalPath)).0 + "_backup_" + timestamp + SplitExt(Basename(originalPath)).1
  {
    BackupNameIsPlain(originalPath, timestamp);
    DirnameOfJoin(originalPath, BackupName(originalPath, timestamp));
    BasenameOfJoin(Dirname(originalPath), BackupName(originalPath, timestamp));
  }

  /** A backup of a file with an extension keeps that extension, and its stem ends with `_backup_` and the timestamp. */
  lemma {:induction false} BackupKeepsExtension(originalPath: string, timestamp: string)
    requires IsTimestamp(timestamp)
    requires SplitExt(Basename(originalPath)).1 != []
    ensures SplitExt(BackupName(originalPath, timestamp))
         == (SplitExt(Basename(originalPath)).0 + "_backup_" + timestamp, SplitExt(Basename(originalPath)).1)
  {
    BackupNameIsPlain(originalPath, timestamp);
    var (name, ext) := SplitExt(Basename(originalPath));
    var stem := name + "_backup_" + timestamp;
    assert stem + ext == BackupName(originalPath, timestamp);
    assert Lacks(stem, '/') by {
      forall j | 0 <= j < |stem| ensures stem[j] != '/' {
        assert stem[j] == (stem + ext)[j];
      }
    }
    RFindUnique(stem, '/', -1);
    assert HasNonDot(stem, 0, |stem|) by { assert stem[|name|] == '_'; }
    SplitExtOfStemAndExtension(stem, ext);
  }
}
