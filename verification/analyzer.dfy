/**
 * The `Analyzer` class: statistics over a game's wide results table —
 * jackpots (rows whose cells are all equal), combinations (sorted rows with
 * their counts) and per-roll face counts — with the caches `jackpot` and
 * `combo` keep.
 */
module Analysis {
  import opened Wrappers
  import opened Ordering
  import opened Tally
  import opened Games

  /** `row.eq(row[0]).all()`: every cell of the row equals its first cell. */
  predicate AllSame<F(==)>(row: seq<F>) {
    forall j :: 0 <= j < |row| ==> row[j] == row[0]
  }

  /** The boolean `jackpot` column: one entry per roll, in roll order. */
  function JackpotColumn<F(==)>(rows: seq<seq<F>>): (column: seq<bool>) {
    seq(|rows|, i requires 0 <= i < |rows| => AllSame(rows[i]))
  }

  /** `Series.sum()` of a boolean column: the number of `True` entries. */
  function CountTrue(bs: seq<bool>): (n: nat) {
    if bs == [] then 0 else CountTrue(bs[..|bs| - 1]) + (if bs[|bs| - 1] then 1 else 0)
  }

  /** The number of jackpot rows, counted row by row. */
  function Jackpots<F(==)>(rows: seq<seq<F>>): (n: nat) {
    if rows == [] then 0 else Jackpots(rows[..|rows| - 1]) + (if AllSame(rows[|rows| - 1]) then 1 else 0)
  }

  /**
   * Summing the jackpot column counts the jackpot rows; there are at most as
   * many as rows, and exactly as many only when every row is a jackpot.
   */
  lemma {:induction false} JackpotCount<F>(rows: seq<seq<F>>)
    ensures CountTrue(JackpotColumn(rows)) == Jackpots(rows)
    ensures Jackpots(rows) <= |rows|
    ensures Jackpots(rows) == |rows| <==> forall i :: 0 <= i < |rows| ==> AllSame(rows[i])
  {
    if rows != [] {
      var init := rows[..|rows| - 1];
      JackpotCount(init);
      assert JackpotColumn(rows)[..|rows| - 1] == JackpotColumn(init);
      if Jackpots(rows) == |rows| {
        forall i | 0 <= i < |rows| ensures AllSame(rows[i]) {
          if i < |rows| - 1 {
            assert rows[i] == init[i];
          }
        }
      }
      if forall i :: 0 <= i < |rows| ==> AllSame(rows[i]) {
        assert forall i :: 0 <= i < |init| ==> AllSame(init[i]) by {
          forall i | 0 <= i < |init| ensures AllSame(init[i]) {
            assert init[i] == rows[i];
          }
        }
      }
    }
  }

  /** With a single die every roll is a jackpot. */
  lemma SingleDieAllJackpots<F>(rows: seq<seq<F>>)
    requires forall i :: 0 <= i < |rows| ==> |rows[i]| == 1
    ensures CountTrue(JackpotColumn(rows)) == |rows|
  {
    JackpotCount(rows);
  }

  /** Whether a roll is a jackpot does not depend on the order of its cells. */
  lemma {:induction false} AllSamePermutation<F>(a: seq<F>, b: seq<F>)
    requires multiset(a) == multiset(b)
    ensures AllSame(a) <==> AllSame(b)
  {
    if AllSame(a) && !AllSame(b) {
      AllSameOneValue(a, b);
    } else if AllSame(b) && !AllSame(a) {
      AllSameOneValue(b, a);
    }
  }

  lemma AllSameOneValue<F>(a: seq<F>, b: seq<F>)
    requires multiset(a) == multiset(b) && AllSame(a)
    ensures AllSame(b)
  {
    forall j | 0 <= j < |b| ensures b[j] == b[0] {
      assert b[j] in multiset(a) && b[0] in multiset(a);
      var k :| 0 <= k < |a| && a[k] == b[j];
      var l :| 0 <= l < |a| && a[l] == b[0];
    }
  }

  /** `tuple(sorted(row))` for every roll, in roll order. */
  function SortedRows<F>(le: (F, F) -> bool, rows: seq<seq<F>>): (sorted: seq<seq<F>>) {
    seq(|rows|, i requires 0 <= i < |rows| => Sort(le, rows[i]))
  }

  /**
   * `value_counts()` of the sorted rows, re-indexed by combination and
   * sorted by it: one group per distinct combination, in ascending tuple
   * order.
   */
  function Combos<F(==)>(le: (F, F) -> bool, rows: seq<seq<F>>): (table: seq<Group<seq<F>>>) {
    Count(LexOrder(le), SortedRows(le, rows))
  }

  /**
   * The combination table lists each distinct sorted row once, in strictly
   * ascending tuple order, with the number of rolls that sorted to it; every
   * key is sorted, every roll is counted under its sorted form, a roll is
   * counted under a key exactly when it holds the same faces, and the counts
   * add up to the number of rolls.
   */
  lemma ComboTable<F(!new)>(le: (F, F) -> bool, rows: seq<seq<F>>)
    requires TotalOrder(le)
    ensures Ascending(LexOrder(le), Combos(le, rows))
    ensures TotalCount(Combos(le, rows)) == |rows|
    ensures forall k :: 0 <= k < |Combos(le, rows)| ==>
      && Sorted(le, Combos(le, rows)[k].key)
      && Combos(le, rows)[k].count == multiset(SortedRows(le, rows))[Combos(le, rows)[k].key] > 0
    ensures forall i :: 0 <= i < |rows| ==> Sort(le, rows[i]) in Keys(Combos(le, rows))
    ensures forall k, i :: 0 <= k < |Combos(le, rows)| && 0 <= i < |rows| ==>
      (Sort(le, rows[i]) == Combos(le, rows)[k].key <==> multiset(rows[i]) == multiset(Combos(le, rows)[k].key))
  {
    var keys, t := SortedRows(le, rows), Combos(le, rows);
    LexIsStrictTotal(le);
    CountCorrect(LexOrder(le), keys);
    CountRows(LexOrder(le), keys);
    forall i | 0 <= i < |rows| ensures Sort(le, rows[i]) in Keys(t) {
      assert keys[i] == Sort(le, rows[i]);
    }
    forall k | 0 <= k < |t| ensures Sorted(le, t[k].key) {
      assert t[k].key in Keys(t);
      var i :| 0 <= i < |keys| && keys[i] == t[k].key;
      SortCorrect(le, rows[i]);
    }
    forall k, i | 0 <= k < |t| && 0 <= i < |rows|
      ensures Sort(le, rows[i]) == t[k].key <==> multiset(rows[i]) == multiset(t[k].key)
    {
      assert t[k].key in Keys(t);
      var m :| 0 <= m < |keys| && keys[m] == t[k].key;
      SortCorrect(le, rows[m]);
      SortSameIffPermutation(le, rows[i], rows[m]);
    }
  }

  /** Every cell of the table, roll after roll. */
  function AllCells<F>(rows: seq<seq<F>>): (cells: seq<F>) {
    if rows == [] then [] else AllCells(rows[..|rows| - 1]) + rows[|rows| - 1]
  }

  lemma {:induction false} AllCellsMembers<F>(rows: seq<seq<F>>, x: F)
    ensures x in AllCells(rows) <==> exists i :: 0 <= i < |rows| && x in rows[i]
  {
    if rows != [] {
      var init := rows[..|rows| - 1];
      AllCellsMembers(init, x);
      if exists i :: 0 <= i < |init| && x in init[i] {
        var i :| 0 <= i < |init| && x in init[i];
        assert rows[i] == init[i];
      }
      if exists i :: 0 <= i < |rows| && x in rows[i] {
        var i :| 0 <= i < |rows| && x in rows[i];
        if i < |rows| - 1 {
          assert init[i] == rows[i];
        }
      }
    }
  }

  /** Sum of a row of counts. */
  function SumNat(xs: seq<nat>): (total: nat) {
    if xs == [] then 0 else SumNat(xs[..|xs| - 1]) + xs[|xs| - 1]
  }

  /** How many cells of `row` show each of `faces`, in the order of `faces` (0 for a face not rolled). */
  function RowCounts<F(==)>(row: seq<F>, faces: seq<F>): (counts: seq<nat>)
    ensures |counts| == |faces| && forall c :: 0 <= c < |faces| ==> counts[c] == multiset(row)[faces[c]]
  {
    if faces == [] then [] else RowCounts(row, faces[..|faces| - 1]) + [multiset(row)[faces[|faces| - 1]]]
  }

  predicate Distinct<F(==)>(s: seq<F>) {
    forall a, b :: 0 <= a < b < |s| ==> s[a] != s[b]
  }

  /** One more cell showing `x` adds one to the row sum when `x` is one of the (distinct) columns. */
  lemma {:induction false} RowCountsAdd<F>(row: seq<F>, x: F, faces: seq<F>)
    requires Distinct(faces)
    ensures SumNat(RowCounts(row + [x], faces)) == SumNat(RowCounts(row, faces)) + (if x in faces then 1 else 0)
  {
    if faces != [] {
      var fs, y := faces[..|faces| - 1], faces[|faces| - 1];
      assert Distinct(fs);
      RowCountsAdd(row, x, fs);
      assert RowCounts(row + [x], faces)[..|fs|] == RowCounts(row + [x], fs);
      assert RowCounts(row, faces)[..|fs|] == RowCounts(row, fs);
      assert multiset(row + [x]) == multiset(row) + multiset{x};
      assert x in faces <==> x in fs || x == y;
      assert x == y ==> x !in fs;
    }
  }

  /** When every cell's face is a column and the columns are distinct, a row's counts add up to its length. */
  lemma {:induction false} RowCountsSum<F>(row: seq<F>, faces: seq<F>)
    requires Distinct(faces) && forall j :: 0 <= j < |row| ==> row[j] in faces
    ensures SumNat(RowCounts(row, faces)) == |row|
  {
    if row == [] {
      ZeroCounts(faces);
    } else {
      var init, x := row[..|row| - 1], row[|row| - 1];
      assert row == init + [x];
      assert forall j :: 0 <= j < |init| ==> init[j] in faces by {
        forall j | 0 <= j < |init| ensures init[j] in faces {
          assert init[j] == row[j];
        }
      }
      RowCountsSum(init, faces);
      RowCountsAdd(init, x, faces);
    }
  }

  lemma {:induction false} ZeroCounts<F>(faces: seq<F>)
    ensures SumNat(RowCounts([], faces)) == 0
  {
    if faces != [] {
      ZeroCounts(faces[..|faces| - 1]);
      assert RowCounts([], faces)[..|faces| - 1] == RowCounts([], faces[..|faces| - 1]);
    }
  }

  /** The faces rolled anywhere in the table, ascending and without repeats. */
  function FaceColumns<F(==)>(le: (F, F) -> bool, rows: seq<seq<F>>): (columns: seq<F>) {
    Keys(Count(Strict(le), AllCells(rows)))
  }

  lemma FaceColumnsCorrect<F(!new)>(le: (F, F) -> bool, rows: seq<seq<F>>)
    requires TotalOrder(le)
    ensures forall a, b :: 0 <= a < b < |FaceColumns(le, rows)| ==>
      le(FaceColumns(le, rows)[a], FaceColumns(le, rows)[b]) && FaceColumns(le, rows)[a] != FaceColumns(le, rows)[b]
    ensures forall x :: x in FaceColumns(le, rows) <==> exists i :: 0 <= i < |rows| && x in rows[i]
    ensures forall i, j :: 0 <= i < |rows| && 0 <= j < |rows[i]| ==> rows[i][j] in FaceColumns(le, rows)
  {
    StrictIsStrictTotal(le);
    CountRows(Strict(le), AllCells(rows));
    CountCorrect(Strict(le), AllCells(rows));
    forall x ensures x in FaceColumns(le, rows) <==> exists i :: 0 <= i < |rows| && x in rows[i] {
      AllCellsMembers(rows, x);
    }
    forall i, j | 0 <= i < |rows| && 0 <= j < |rows[i]| ensures rows[i][j] in FaceColumns(le, rows) {
      assert rows[i][j] in rows[i];
    }
  }

  /** Every roll's counts add up to its number of dice when the columns cover every face rolled. */
  lemma TableRowSums<F>(rows: seq<seq<F>>, faces: seq<F>)
    requires Distinct(faces)
    requires forall i, j :: 0 <= i < |rows| && 0 <= j < |rows[i]| ==> rows[i][j] in faces
    ensures forall i :: 0 <= i < |rows| ==> SumNat(RowCounts(rows[i], faces)) == |rows[i]|
  {
    forall i | 0 <= i < |rows| ensures SumNat(RowCounts(rows[i], faces)) == |rows[i]| {
      RowCountsSum(rows[i], faces);
    }
  }

  /** One row of counts per roll over the columns `faces`; each row adds up to that roll's number of dice. */
  function CountMatrix<F(==)>(rows: seq<seq<F>>, faces: seq<F>): (counts: seq<seq<nat>>)
    requires Distinct(faces)
    requires forall i, j :: 0 <= i < |rows| && 0 <= j < |rows[i]| ==> rows[i][j] in faces
    ensures |counts| == |rows|
    ensures forall i :: 0 <= i < |rows| ==> |counts[i]| == |faces| && SumNat(counts[i]) == |rows[i]|
    ensures forall i, c :: 0 <= i < |rows| && 0 <= c < |faces| ==> counts[i][c] == multiset(rows[i])[faces[c]]
  {
    TableRowSums(rows, faces);
    seq(|rows|, i requires 0 <= i < |rows| => RowCounts(rows[i], faces))
  }

  /** The per-roll face counts: the column faces and one row of counts per roll. */
  datatype FaceCounts<F> = FaceCounts(faces: seq<F>, counts: seq<seq<nat>>)

  /**
   * `groupby(['Roll Number', 'Face']).size().unstack(fill_value=0)`: the
   * columns are the faces rolled anywhere in the table, ascending; row `i`
   * holds, per column, how many dice showed that face in roll `i`, and adds
   * up to the number of dice in that roll.
   */
  function FaceCountTable<F(==, !new)>(le: (F, F) -> bool, rows: seq<seq<F>>): (t: FaceCounts<F>)
    requires TotalOrder(le)
    ensures forall a, b :: 0 <= a < b < |t.faces| ==> le(t.faces[a], t.faces[b]) && t.faces[a] != t.faces[b]
    ensures forall x :: x in t.faces <==> exists i :: 0 <= i < |rows| && x in rows[i]
    ensures |t.counts| == |rows|
    ensures forall i :: 0 <= i < |rows| ==> |t.counts[i]| == |t.faces|
    ensures forall i, c :: 0 <= i < |rows| && 0 <= c < |t.faces| ==> t.counts[i][c] == multiset(rows[i])[t.faces[c]]
    ensures forall i :: 0 <= i < |rows| ==> SumNat(t.counts[i]) == |rows[i]|
  {
    var faces := FaceColumns(le, rows);
    FaceColumnsCorrect(le, rows);
    FaceCounts(faces, CountMatrix(rows, faces))
  }

  /** What `face_count` as written raises: `Analyzer` has no `_Analyzer__theresults` attribute. */
  datatype AttributeError = AttributeError(name: string)

  const MissingResults: string := "_Analyzer__theresults"

  class Analyzer<F(==, !new)> {
    const game: Game<F>
    /** Python's `<=` on the faces, which `sorted` and `sort_index` use. */
    const le: (F, F) -> bool
    /** The cached `jackpot` column; empty means "not computed". */
    var jackpotResults: seq<bool>
    /** The cached combination table; empty means "not computed". */
    var comboResults: seq<Group<seq<F>>>

    ghost predicate Valid()
      reads this, game, game.dice
    {
      game.Valid() && game.played && |game.dice| > 0 && TotalOrder(le)
    }

    /**
     * `Analyzer(game)`: the first row of the game's table is sampled (to
     * infer the face type), so the game must hold a row with a cell; the
     * caches start empty.
     */
    constructor (game: Game<F>, le: (F, F) -> bool)
      requires game.Valid() && |game.results| > 0 && |game.dice| > 0 && TotalOrder(le)
      ensures Valid() && this.game == game && this.le == le
      ensures jackpotResults == [] && comboResults == []
    {
      this.game := game;
      this.le := le;
      jackpotResults := [];
      comboResults := [];
    }

    /**
     * `jackpot()` as written: an empty cache is filled with the jackpot
     * column of the game's current table and the number of jackpots is
     * returned; a filled cache is not recomputed and its length — the
     * number of rolls it covers — is returned.
     */
    method Jackpot() returns (count: nat)
      requires Valid()
      modifies this`jackpotResults
      ensures old(jackpotResults) == [] ==>
        jackpotResults == JackpotColumn(game.results) && count == Jackpots(game.results)
      ensures old(jackpotResults) != [] ==> jackpotResults == old(jackpotResults) && count == |jackpotResults|
    {
      count := |jackpotResults|;
      if count == 0 {
        jackpotResults := JackpotColumn(game.results);
        JackpotCount(game.results);
        count := CountTrue(jackpotResults);
      }
    }

    /** `jackpot()` returning, from a filled cache, the number of jackpots it records. */
    method JackpotCorrected() returns (count: nat)
      requires Valid()
      modifies this`jackpotResults
      ensures old(jackpotResults) == [] ==>
        jackpotResults == JackpotColumn(game.results) && count == Jackpots(game.results)
      ensures old(jackpotResults) != [] ==> jackpotResults == old(jackpotResults) && count == CountTrue(jackpotResults)
    {
      if |jackpotResults| == 0 {
        jackpotResults := JackpotColumn(game.results);
        JackpotCount(game.results);
      }
      count := CountTrue(jackpotResults);
    }

    /**
     * `combo()`: an empty cache is filled with the combination table of the
     * game's current table; a filled cache is returned as it is.
     */
    method Combo() returns (table: seq<Group<seq<F>>>)
      requires Valid()
      modifies this`comboResults
      ensures old(comboResults) == [] ==> comboResults == Combos(le, game.results)
      ensures old(comboResults) != [] ==> comboResults == old(comboResults)
      ensures table == comboResults
    {
      if comboResults == [] {
        comboResults := Combos(le, game.results);
      }
      table := comboResults;
    }

    /** `face_count()` as written: it reads an attribute `Analyzer` never sets. */
    function FaceCountAsWritten(): (r: Result<FaceCounts<F>, AttributeError>)
      requires Valid()
      reads this, game, game.dice
      ensures r.Failure? && r.error.name == MissingResults
    {
      Failure(AttributeError(MissingResults))
    }

    /**
     * `face_count()` as its documentation describes it: per roll of the
     * game's table, how many dice showed each face; not cached.
     */
    function FaceCount(): (t: FaceCounts<F>)
      requires Valid()
      reads this, game, game.dice
      ensures |t.counts| == |game.results|
      ensures forall i :: 0 <= i < |t.counts| ==> |t.counts[i]| == |t.faces| && SumNat(t.counts[i]) == |game.dice|
      ensures forall x :: x in t.faces <==> exists i :: 0 <= i < |game.results| && x in game.results[i]
      ensures forall i, c :: 0 <= i < |t.counts| && 0 <= c < |t.faces| ==>
        t.counts[i][c] == multiset(game.results[i])[t.faces[c]]
    {
      FaceCountTable(le, game.results)
    }
  }

  /**
   * A filled jackpot cache makes `jackpot()` as written report the number
   * of rolls, which is the number of jackpots only when every roll is one.
   */
  lemma CachedJackpotMiscounts<F>(rows: seq<seq<F>>)
    ensures |JackpotColumn(rows)| == Jackpots(rows) <==> forall i :: 0 <= i < |rows| ==> AllSame(rows[i])
    ensures CountTrue(JackpotColumn(rows)) == Jackpots(rows)
  {
    JackpotCount(rows);
  }

  /** Two rolls of two dice, one of them a jackpot: the cached call reports 2, the count is 1. */
  lemma CachedJackpotExample()
    ensures var rows: seq<seq<int>> := [[1, 2], [3, 3]];
      |JackpotColumn(rows)| == 2 && CountTrue(JackpotColumn(rows)) == 1
  {
    var rows: seq<seq<int>> := [[1, 2], [3, 3]];
    assert rows[0][1] != rows[0][0];
    JackpotCount(rows);
    assert rows[..1] == [[1, 2]];
    assert [[1, 2]][..0] == [];
  }
}
