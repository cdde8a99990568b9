/**
 * What `search` promises, stated about its specification `SearchSpec`
 * (which `ExcelSearchEngine.Search` is proved to compute).
 */
module SearchProperties {
  import opened Options
  import opened Text
  import opened DataFrame
  import opened SearchEngine

  /** No table lacks a requested column exactly when none is reported missing. */
  lemma NoMissingIffColumnsIn(t: Table, columns: seq<string>)
    ensures MissingColumns(columns, t.columns) == [] <==> ColumnsIn(columns, t)
  {
    var missing := MissingColumns(columns, t.columns);
    if missing != [] {
      assert missing[0] in missing;
    }
  }

  /** Without a loaded table every search fails with "No data loaded" and returns an empty frame. */
  lemma NoTableNoResults(q: SearchRequest, re: Regex)
    ensures SearchSpec(None, q, re).stats == Failed(NoDataLoaded)
    ensures SearchSpec(None, q, re).table == EmptyTable
  {
  }

  /**
   * Column validation comes before everything else: when a requested column
   * is missing, the error lists exactly the missing ones, whatever the term
   * (a blank one included), and the frame is empty.
   */
  lemma InvalidColumnsReportedFirst(t: Table, q: SearchRequest, re: Regex)
    requires !ColumnsIn(q.columns, t)
    ensures var r := SearchSpec(Some(t), q, re);
      && r.stats.Failed? && r.stats.error.InvalidColumns?
      && (forall c :: c in r.stats.error.columns <==> c in q.columns && c !in t.columns)
      && r.table == EmptyTable && r.index == []
  {
    NoMissingIffColumnsIn(t, q.columns);
  }

  /** With valid columns, a blank term returns the whole table and counts all its rows. */
  lemma BlankTermReturnsWholeTable(t: Table, q: SearchRequest, re: Regex)
    requires ColumnsIn(q.columns, t) && IsBlank(q.term)
    ensures var r := SearchSpec(Some(t), q, re);
      r.table == t && r.index == AllRows(|t.rows|) && r.stats == Unfiltered(|t.rows|)
  {
    NoMissingIffColumnsIn(t, q.columns);
  }

  /** The cases in which the mask is built and the table filtered. */
  predicate Filters(t: Table, q: SearchRequest, re: Regex) {
    && ColumnsIn(q.columns, t)
    && !IsBlank(q.term)
    && !(q.useRegex && !re.compiles(Fold(q.term, q.caseSensitive)) && q.columns != [])
  }

  /** An uncompilable regex over at least one valid column is reported as an invalid pattern. */
  lemma InvalidRegexReported(t: Table, q: SearchRequest, re: Regex)
    requires ColumnsIn(q.columns, t) && !IsBlank(q.term) && q.columns != []
    requires q.useRegex && !re.compiles(Fold(q.term, q.caseSensitive))
    ensures SearchSpec(Some(t), q, re).stats == Failed(InvalidPattern)
  {
    NoMissingIffColumnsIn(t, q.columns);
  }

  /** The uncapped matches: the labels of all rows that match in some selected column. */
  function AllMatches(t: Table, q: SearchRequest, re: Regex): seq<nat>
    requires ColumnsIn(q.columns, t)
  {
    Positions(MatchMask(t, q.columns, |q.columns|, Fold(q.term, q.caseSensitive), q.Mode(), re))
  }

  /** Whether row `k` matches the request in at least one selected column. */
  predicate RowQualifies(t: Table, k: nat, q: SearchRequest, re: Regex)
    requires k < |t.rows| && ColumnsIn(q.columns, t)
  {
    exists c :: c in q.columns && MatchesIn(t, k, c, Fold(q.term, q.caseSensitive), q.Mode(), re)
  }

  /** One row: it is marked in the combined mask exactly when it matches in some selected column. */
  lemma MaskMarksQualifyingRow(t: Table, k: nat, q: SearchRequest, re: Regex)
    requires k < |t.rows| && ColumnsIn(q.columns, t)
    ensures MatchMask(t, q.columns, |q.columns|, Fold(q.term, q.caseSensitive), q.Mode(), re)[k] <==> RowQualifies(t, k, q, re)
  {
    var pattern := Fold(q.term, q.caseSensitive);
    if RowQualifies(t, k, q, re) {
      var c :| c in q.columns && MatchesIn(t, k, c, pattern, q.Mode(), re);
      var j :| 0 <= j < |q.columns| && q.columns[j] == c;
      assert MatchesIn(t, k, q.columns[j], pattern, q.Mode(), re);
    }
    if RowMatches(t, k, q.columns, |q.columns|, pattern, q.Mode(), re) {
      var j :| 0 <= j < |q.columns| && MatchesIn(t, k, q.columns[j], pattern, q.Mode(), re);
      assert q.columns[j] in q.columns;
    }
  }

  /**
   * The matches are exactly the rows that match in at least one selected
   * column (the OR across columns), listed in table order.
   */
  lemma AllMatchesAreQualifyingRows(t: Table, q: SearchRequest, re: Regex)
    requires ColumnsIn(q.columns, t)
    ensures var hits := AllMatches(t, q, re);
      && (forall k: nat :: k in hits <==> k < |t.rows| && RowQualifies(t, k, q, re))
      && (forall a, b :: 0 <= a < b < |hits| ==> hits[a] < hits[b])
      && |hits| <= |t.rows|
  {
    forall k: nat | k < |t.rows|
      ensures MatchMask(t, q.columns, |q.columns|, Fold(q.term, q.caseSensitive), q.Mode(), re)[k] <==> RowQualifies(t, k, q, re)
    {
      MaskMarksQualifyingRow(t, k, q, re);
    }
  }

  /**
   * A filtering search returns the first matches in table order, under the
   * table's columns, row for row; `total_results` counts every match and
   * `returned_results` the rows returned.
   */
  lemma FilteredResultIsPrefixOfMatches(t: Table, q: SearchRequest, re: Regex)
    requires Filters(t, q, re)
    ensures var r := SearchSpec(Some(t), q, re); var hits := AllMatches(t, q, re);
      && r.stats == Filtered(|hits|, |r.index|)
      && |r.index| <= |hits| && r.index == hits[..|r.index|]
      && r.table.columns == t.columns && |r.table.rows| == |r.index|
      && (forall i :: 0 <= i < |r.index| ==> r.index[i] < |t.rows| && r.table.rows[i] == t.rows[r.index[i]])
  {
    NoMissingIffColumnsIn(t, q.columns);
  }

  /**
   * The cap: with a positive `max_results` below the number of matches,
   * exactly the first `max_results` matches are returned; without a truthy
   * cap, or when the matches fit, all of them are.
   */
  lemma CapKeepsFirstMatches(t: Table, q: SearchRequest, re: Regex)
    requires Filters(t, q, re)
    ensures var r := SearchSpec(Some(t), q, re); var hits := AllMatches(t, q, re);
      && (q.maxResults.Some? && 0 < q.maxResults.value < |hits| ==> r.index == hits[..q.maxResults.value])
      && (q.maxResults.None? || q.maxResults.value == 0 || |hits| <= q.maxResults.value ==> r.index == hits)
  {
    NoMissingIffColumnsIn(t, q.columns);
  }

  /** Whatever the outcome, no more rows come back than the table has, and never more than were counted. */
  lemma ResultNeverExceedsTable(t: Table, q: SearchRequest, re: Regex)
    ensures var r := SearchSpec(Some(t), q, re);
      && |r.table.rows| <= |t.rows|
      && (r.stats.Filtered? ==> r.stats.returnedResults <= r.stats.totalResults <= |t.rows|)
  {
    var r := SearchSpec(Some(t), q, re);
    if r.stats.Filtered? {
      NoMissingIffColumnsIn(t, q.columns);
      AllMatchesAreQualifyingRows(t, q, re);
    }
  }

  /** A mask marking no row selects no position. */
  lemma {:induction false} PositionsOfNothing(n: nat)
    ensures Positions(seq(n, _ => false)) == []
  {
    if n > 0 {
      assert seq(n, _ => false)[..n - 1] == seq(n - 1, _ => false);
      PositionsOfNothing(n - 1);
    }
  }

  /** A search over no columns matches nothing, whatever the mode. */
  lemma NoColumnsNoMatches(t: Table, q: SearchRequest, re: Regex)
    requires q.columns == [] && !IsBlank(q.term)
    ensures SearchSpec(Some(t), q, re).stats == Filtered(0, 0)
  {
    var pattern := Fold(q.term, q.caseSensitive);
    MaskOfNoColumns(t, q.columns, pattern, q.Mode(), re);
    assert MissingColumns(q.columns, t.columns) == [];
    var hits := Positions(MatchMask(t, q.columns, |q.columns|, pattern, q.Mode(), re));
    PositionsOfNothing(|t.rows|);
    assert Cap(hits, q.maxResults) == [];
  }

  /** The number of marked rows. */
  function CountMarked(m: seq<bool>): nat {
    if m == [] then 0 else CountMarked(m[..|m| - 1]) + if m[|m| - 1] then 1 else 0
  }

  /** The last mark adds one position or none. */
  lemma PositionsCount(m: seq<bool>)
    requires m != []
    ensures |Positions(m)| == |Positions(m[..|m| - 1])| + if m[|m| - 1] then 1 else 0
  {
  }

  /** There are as many positions as marks. */
  lemma {:induction false} PositionsAreMarks(m: seq<bool>)
    ensures |Positions(m)| == CountMarked(m)
  {
    if m != [] {
      PositionsAreMarks(m[..|m| - 1]);
      PositionsCount(m);
    }
  }

  /** A mask that marks a subset of the rows of another has no more marks. */
  lemma {:induction false} CountMonotone(a: seq<bool>, b: seq<bool>)
    requires |a| == |b|
    requires forall i :: 0 <= i < |a| && a[i] ==> b[i]
    ensures CountMarked(a) <= CountMarked(b)
  {
    if a != [] {
      var n := |a| - 1;
      var a', b' := a[..n], b[..n];
      forall i | 0 <= i < n && a'[i] ensures b'[i] {
        assert a'[i] == a[i] && b'[i] == b[i];
      }
      CountMonotone(a', b');
    }
  }

  /** A mask that marks a subset of the rows of another selects no more positions. */
  lemma PositionsMonotone(a: seq<bool>, b: seq<bool>)
    requires |a| == |b|
    requires forall i :: 0 <= i < |a| && a[i] ==> b[i]
    ensures |Positions(a)| <= |Positions(b)|
  {
    CountMonotone(a, b);
    PositionsAreMarks(a);
    PositionsAreMarks(b);
  }

  /** Equal cell text contains the term, so exact matching implies substring matching. */
  lemma ExactCellMatchIsSubstringMatch(cell: string, pattern: string, mode: MatchMode, re: Regex)
    requires !mode.useRegex && mode.exactMatch
    requires CellMatches(cell, pattern, mode, re)
    ensures CellMatches(cell, pattern, mode.(exactMatch := false), re)
  {
    EqualImpliesContains(Fold(cell, mode.caseSensitive), pattern);
  }

  /**
   * Mode priority made visible: without regex, every row an exact search
   * finds is found by the substring search with the same term and columns,
   * so it finds no more rows.
   */
  lemma ExactMatchesAreSubstringMatches(t: Table, q: SearchRequest, re: Regex)
    requires ColumnsIn(q.columns, t) && !q.useRegex && q.exactMatch
    ensures var e := AllMatches(t, q, re); var s := AllMatches(t, q.(exactMatch := false), re);
      (forall k :: k in e ==> k in s) && |e| <= |s|
  {
    var pattern := Fold(q.term, q.caseSensitive);
    var exact := q.Mode();
    var sub := q.(exactMatch := false).Mode();
    assert sub == exact.(exactMatch := false);
    var a := MatchMask(t, q.columns, |q.columns|, pattern, exact, re);
    var b := MatchMask(t, q.columns, |q.columns|, pattern, sub, re);
    forall i | 0 <= i < |a| && a[i] ensures b[i] {
      var j :| 0 <= j < |q.columns| && MatchesIn(t, i, q.columns[j], pattern, exact, re);
      assert t.rows[i] in t.rows;
      ExactCellMatchIsSubstringMatch(t.rows[i][ColumnIndex(t.columns, q.columns[j])], pattern, exact, re);
      assert MatchesIn(t, i, q.columns[j], pattern, sub, re);
    }
    PositionsMonotone(a, b);
    forall k | k in Positions(a) ensures k in Positions(b) {
    }
  }

  /** Regex has priority: with `use_regex`, the exact-match flag changes nothing. */
  lemma RegexIgnoresExactFlag(t: Table, q: SearchRequest, re: Regex)
    requires q.useRegex
    ensures SearchSpec(Some(t), q, re) == SearchSpec(Some(t), q.(exactMatch := !q.exactMatch), re)
  {
    var q2 := q.(exactMatch := !q.exactMatch);
    if ColumnsIn(q.columns, t) {
      var pattern := Fold(q.term, q.caseSensitive);
      forall i, c | 0 <= i < |t.rows| && c in t.columns
        ensures MatchesIn(t, i, c, pattern, q.Mode(), re) == MatchesIn(t, i, c, pattern, q2.Mode(), re)
      {
      }
      assert MatchMask(t, q.columns, |q.columns|, pattern, q.Mode(), re) == MatchMask(t, q.columns, |q.columns|, pattern, q2.Mode(), re);
    }
  }

  /** Every cell lowered. */
  function LowerTable(t: Table): (r: Table)
    ensures r.columns == t.columns && |r.rows| == |t.rows|
    ensures forall i :: 0 <= i < |t.rows| ==> |r.rows[i]| == |t.rows[i]|
    ensures forall i, j :: 0 <= i < |t.rows| && 0 <= j < |t.rows[i]| ==> r.rows[i][j] == Lower(t.rows[i][j])
  {
    var rows := seq(|t.rows|, i requires 0 <= i < |t.rows| => seq(|t.rows[i]|, j requires 0 <= j < |t.rows[i]| => Lower(t.rows[i][j])));
    assert forall r :: r in rows ==> exists i :: 0 <= i < |t.rows| && |r| == |t.rows[i]| && t.rows[i] in t.rows;
    Frame(t.columns, rows)
  }

  /** Lowering keeps white space and removes none. */
  lemma LowerKeepsBlank(s: string)
    ensures IsBlank(Lower(s)) <==> IsBlank(s)
  {
    forall i | 0 <= i < |s| ensures IsSpace(Lower(s)[i]) <==> IsSpace(s[i]) {
    }
  }

  /**
   * Case-insensitive search lowers both sides: it finds exactly the rows a
   * case-sensitive search for the lowered term finds in the lowered table,
   * with the same counts (regex patterns are lowered too).
   */
  lemma CaseInsensitiveLowersBothSides(t: Table, q: SearchRequest, re: Regex)
    requires !q.caseSensitive
    ensures var folded := SearchSpec(Some(t), q, re);
      var lowered := SearchSpec(Some(LowerTable(t)), q.(caseSensitive := true, term := Lower(q.term)), re);
      folded.index == lowered.index && folded.stats == lowered.stats
  {
    var q2 := q.(caseSensitive := true, term := Lower(q.term));
    LowerKeepsBlank(q.term);
    if ColumnsIn(q.columns, t) && !IsBlank(q.term) {
      var pattern := Lower(q.term);
      assert Fold(q.term, q.caseSensitive) == pattern == Fold(q2.term, q2.caseSensitive);
      LoweredMasksAgree(t, q.columns, pattern, q.Mode(), re);
    }
  }

  /** Folding each cell matches the same rows as searching the lowered table case-sensitively, for a lowered pattern. */
  lemma LoweredMasksAgree(t: Table, columns: seq<string>, pattern: string, mode: MatchMode, re: Regex)
    requires ColumnsIn(columns, t) && !mode.caseSensitive && Lower(pattern) == pattern
    ensures MatchMask(t, columns, |columns|, pattern, mode, re)
         == MatchMask(LowerTable(t), columns, |columns|, pattern, mode.(caseSensitive := true), re)
  {
    var lt := LowerTable(t);
    forall i, c | 0 <= i < |t.rows| && c in t.columns
      ensures MatchesIn(t, i, c, pattern, mode, re) == MatchesIn(lt, i, c, pattern, mode.(caseSensitive := true), re)
    {
      assert t.rows[i] in t.rows;
      var k := ColumnIndex(t.columns, c);
      assert lt.rows[i][k] == Lower(t.rows[i][k]);
      LowerIdempotent(t.rows[i][k]);
    }
  }

  /** Case-insensitive search does not see the case of the term: "Alice" and "alice" find the same rows. */
  lemma CaseInsensitiveIgnoresTermCase(t: Table, q: SearchRequest, term: string, re: Regex)
    requires !q.caseSensitive && Lower(term) == Lower(q.term)
    ensures SearchSpec(Some(t), q, re) == SearchSpec(Some(t), q.(term := term), re)
  {
    LowerKeepsBlank(term);
    LowerKeepsBlank(q.term);
  }
}
