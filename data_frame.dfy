/**
 * The in-memory table the engine works on: a pandas DataFrame seen as its
 * column names and its rows, each cell given by its text (`str(value)`).
 */
module DataFrame {

  datatype Frame = Frame(columns: seq<string>, rows: seq<seq<string>>)

  /** Every row has one cell per column. */
  predicate Rectangular(f: Frame) {
    forall r :: r in f.rows ==> |r| == |f.columns|
  }

  type Table = f: Frame | Rectangular(f) witness Frame([], [])

  /** `pd.DataFrame()`: no columns and no rows. */
  const EmptyTable: Table := Frame([], [])

  /** `df.empty`: a frame is empty when it has no rows or no columns. */
  predicate IsEmpty(t: Table) {
    |t.rows| == 0 || |t.columns| == 0
  }

  /** The position of column `name`; with repeated names, the first. */
  function ColumnIndex(columns: seq<string>, name: string): (k: nat)
    requires name in columns
    ensures k < |columns| && columns[k] == name
    ensures name !in columns[..k]
  {
    if columns[0] == name then 0
    else
      var k := 1 + ColumnIndex(columns[1..], name);
      assert columns[..k] == [columns[0]] + columns[1..][..k - 1];
      k
  }

  /** All indices point at rows of the table. */
  predicate IndicesIn(index: seq<nat>, n: nat) {
    forall i :: 0 <= i < |index| ==> index[i] < n
  }

  /** The rows at the given positions, in the given order, under the same columns (`df.loc[index]`). */
  function Take(t: Table, index: seq<nat>): (r: Table)
    requires IndicesIn(index, |t.rows|)
    ensures r.columns == t.columns && |r.rows| == |index|
    ensures forall i :: 0 <= i < |index| ==> r.rows[i] == t.rows[index[i]]
  {
    var rows := seq(|index|, i requires 0 <= i < |index| => t.rows[index[i]]);
    assert forall r :: r in rows ==> r in t.rows;
    Frame(t.columns, rows)
  }

  /**
   * `head(n)` as pandas defines it: the first `n` elements, or for a negative
   * `n` all but the last `-n`.
   */
  function Head<T>(s: seq<T>, n: int): (r: seq<T>)
    ensures |r| <= |s| && r == s[..|r|]
    ensures 0 <= n <= |s| ==> |r| == n
    ensures n >= |s| ==> r == s
    ensures n < 0 ==> |r| == if |s| + n < 0 then 0 else |s| + n
  {
    if n >= 0 then (if n <= |s| then s[..n] else s)
    else if |s| + n < 0 then []
    else s[..|s| + n]
  }
}
