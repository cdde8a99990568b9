/** The optional value used wherever the source has `None` or a falsy default. */
module Options {
  datatype Option<+T> = None | Some(value: T)
}

/**
 * The pieces of Python's `str` that the core relies on: `isspace`, `strip`,
 * `split()` without arguments, `lower`, `startswith`, `endswith`, the `in`
 * substring test and `rfind` of one character.
 */
module Text {

  /** Python's `str.isspace` for one character: the ASCII separators and the Unicode white space. */
  predicate IsSpace(c: char) {
    ('\t' <= c <= '\r') || ('\U{1c}' <= c <= ' ') || c == '\U{85}' || c == '\U{a0}' || c == '\U{1680}'
    || ('\U{2000}' <= c <= '\U{200a}') || c == '\U{2028}' || c == '\U{2029}' || c == '\U{202f}'
    || c == '\U{205f}' || c == '\U{3000}'
  }

  /** Space, tab, newline and carriage return are white space; digits, ASCII letters, `-`, `.` and `/` are not. */
  lemma WhiteSpaceClasses(c: char)
    ensures c == ' ' || c == '\t' || c == '\n' || c == '\r' ==> IsSpace(c)
    ensures IsSpace(c) ==> !('0' <= c <= '9') && !('a' <= c <= 'z') && !('A' <= c <= 'Z') && c != '-' && c != '.' && c != '/'
  {
  }

  /** `not s.strip()`: the text is empty or white space only. */
  predicate IsBlank(s: string) {
    forall i :: 0 <= i < |s| ==> IsSpace(s[i])
  }

  /** No character of the text is white space. */
  predicate NoSpace(s: string) {
    forall i :: 0 <= i < |s| ==> !IsSpace(s[i])
  }

  /** `s.lstrip()`: drops the leading white space. */
  function TrimLeft(s: string): (r: string)
    ensures |r| <= |s| && r == s[|s| - |r|..]
    ensures r == [] || !IsSpace(r[0])
    ensures r == [] <==> IsBlank(s)
  {
    if s != [] && IsSpace(s[0]) then TrimLeft(s[1..]) else s
  }

  /** `s.rstrip()`: drops the trailing white space. */
  function TrimRight(s: string): (r: string)
    ensures |r| <= |s| && r == s[..|r|]
    ensures r == [] || !IsSpace(r[|r| - 1])
    ensures r == [] <==> IsBlank(s)
  {
    if s != [] && IsSpace(s[|s| - 1]) then TrimRight(s[..|s| - 1]) else s
  }

  /**
   * `s.strip()`: what is left is empty exactly for a blank text, and
   * otherwise starts and ends with a character that is not white space.
   */
  function Strip(s: string): (r: string)
    ensures |r| <= |s|
    ensures r == [] <==> IsBlank(s)
    ensures r == [] || (!IsSpace(r[0]) && !IsSpace(r[|r| - 1]))
  {
    var t := TrimLeft(s);
    var r := TrimRight(t);
    assert r == [] <==> t == [] by {
      assert t != [] ==> !IsSpace(t[0]);
      assert r != [] ==> r[0] == t[0];
    }
    r
  }

  /** `s.lower()` on the ASCII letters. */
  function LowerChar(c: char): char {
    if 'A' <= c <= 'Z' then (c as int + 32) as char else c
  }

  function Lower(s: string): (r: string)
    ensures |r| == |s|
  {
    seq(|s|, i requires 0 <= i < |s| => LowerChar(s[i]))
  }

  /** Lowering twice is lowering once. */
  lemma LowerIdempotent(s: string)
    ensures Lower(Lower(s)) == Lower(s)
  {
  }

  /** `s.startswith(p)`. */
  predicate StartsWith(s: string, p: string) {
    |p| <= |s| && s[..|p|] == p
  }

  /** `s.endswith(p)`. */
  predicate EndsWith(s: string, p: string) {
    |p| <= |s| && s[|s| - |p|..] == p
  }

  /** `pat in text`: the pattern occurs at some position of the text. */
  predicate Contains(text: string, pat: string) {
    exists i :: 0 <= i <= |text| - |pat| && OccursAt(text, pat, i)
  }

  /** The pattern stands in the text at position `i`. */
  predicate OccursAt(text: string, pat: string, i: int)
    requires 0 <= i <= |text| - |pat|
  {
    text[i..i + |pat|] == pat
  }

  /** A text equal to the pattern contains it. */
  lemma EqualImpliesContains(text: string, pat: string)
    requires text == pat
    ensures Contains(text, pat)
  {
    assert OccursAt(text, pat, 0);
  }

  /** `s.rfind(c)`: the last position of `c`, or -1. */
  function RFind(s: string, c: char): (k: int)
    ensures -1 <= k < |s|
    ensures k >= 0 ==> s[k] == c
    ensures forall j :: k < j < |s| ==> s[j] != c
  {
    if s == [] then -1
    else if s[|s| - 1] == c then |s| - 1
    else RFind(s[..|s| - 1], c)
  }

  /** The longest prefix of the text without white space. */
  function Word(s: string): (w: string)
    ensures |w| <= |s| && w == s[..|w|]
    ensures NoSpace(w)
    ensures |w| == |s| || IsSpace(s[|w|])
  {
    if s == [] || IsSpace(s[0]) then [] else [s[0]] + Word(s[1..])
  }

  /** A token of `split()`: non-empty and free of white space. */
  predicate IsToken(w: string) {
    w != [] && NoSpace(w)
  }

  /** `s.split()`: the maximal runs of non-white-space characters, in order. */
  function Split(s: string): (r: seq<string>)
    ensures r == [] <==> IsBlank(s)
    decreases |s|
  {
    var t := TrimLeft(s);
    if t == [] then []
    else
      var w := Word(t);
      assert |w| != 0 by { assert !IsSpace(t[0]); }
      [w] + Split(t[|w|..])
  }

  /** Every token of `split()` is non-empty and free of white space. */
  lemma {:induction false} SplitTokens(s: string)
    ensures forall k :: 0 <= k < |Split(s)| ==> IsToken(Split(s)[k])
    decreases |s|
  {
    var t := TrimLeft(s);
    if t != [] {
      var w := Word(t);
      assert |w| != 0 by { assert !IsSpace(t[0]); }
      var rest := t[|w|..];
      SplitTokens(rest);
      assert Split(s) == [w] + Split(rest);
      forall k | 0 <= k < |Split(s)|
        ensures IsToken(Split(s)[k])
      {
        if k > 0 {
          assert Split(s)[k] == Split(rest)[k - 1];
        }
      }
    }
  }
}
