/**
 * The `Game` class: a fixed list of dice, `play(n)` rolling every die once
 * per trial, and `show_results` in wide or narrow (melted) form.
 */
module Games {
  import opened Wrappers
  import opened Sampling
  import opened Dice
  import Decimal

  /** Column label of the die at (0-based) position `j`: `"Die " + str(j + 1)`. */
  function ColumnLabel(j: nat): (name: string) {
    "Die " + Decimal.Str(j + 1)
  }

  function ColumnLabels(m: nat): (labels: seq<string>)
    ensures |labels| == m && forall j :: 0 <= j < m ==> labels[j] == ColumnLabel(j)
  {
    seq(m, j requires 0 <= j < m => ColumnLabel(j))
  }

  /** Different dice get different column labels. */
  lemma ColumnLabelInjective(i: nat, j: nat)
    requires ColumnLabel(i) == ColumnLabel(j)
    ensures i == j
  {
    assert ColumnLabel(i)[4..] == Decimal.Str(i + 1);
    assert ColumnLabel(j)[4..] == Decimal.Str(j + 1);
    Decimal.StrInjective(i + 1, j + 1);
  }

  /** `random.choices` can draw from the table. */
  predicate Ready<F>(t: Table<F>) {
    WellFormed(t) && Rollable(t)
  }

  /** Every die of the game can be rolled. */
  predicate AllReady<F>(ts: seq<Table<F>>) {
    forall j :: 0 <= j < |ts| ==> Ready(ts[j])
  }

  lemma ReadyPrefix<F>(ts: seq<Table<F>>, j: nat)
    requires j < |ts| && AllReady(ts[..j]) && Ready(ts[j])
    ensures AllReady(ts[..j + 1])
  {
    assert forall k :: 0 <= k < j ==> ts[..j + 1][k] == ts[..j][k];
  }

  /** The first die `random.choices` refuses, the one a failing `play` stops at. */
  function FirstUnready<F>(ts: seq<Table<F>>): (j: nat)
    requires !AllReady(ts)
    ensures j < |ts| && !Ready(ts[j]) && AllReady(ts[..j])
  {
    if !Ready(ts[0]) then 0
    else
      var j := FirstUnready(ts[1..]) + 1;
      assert forall k :: 1 <= k < j ==> ts[1..][k - 1] == ts[k];
      j
  }

  /** The first die that cannot be rolled after a run of dice that can. */
  lemma {:induction false} FirstUnreadyAt<F>(ts: seq<Table<F>>, j: nat)
    requires j < |ts| && AllReady(ts[..j]) && !Ready(ts[j])
    ensures !AllReady(ts) && FirstUnready(ts) == j
  {
    if j > 0 {
      assert ts[..j][0] == ts[0];
      assert ts[1..][..j - 1] == ts[..j][1..];
      FirstUnreadyAt(ts[1..], j - 1);
    }
  }

  /**
   * One trial as `play` builds it: `[die.roll_die() for die in self.dice]`
   * puts the list `roll_die()` returns, not the face, in each cell — a
   * one-element list holding a face of that die.
   */
  function TrialAsWritten<F>(ts: seq<Table<F>>, us: seq<real>): (cells: seq<seq<F>>)
    requires AllReady(ts) && |us| >= |ts|
    ensures |cells| == |ts|
    ensures forall j :: 0 <= j < |ts| ==> |cells[j]| == 1 && cells[j][0] in ts[j].faces
  {
    seq(|ts|, j requires 0 <= j < |ts| => Draws(ts[j], [us[j]]))
  }

  /**
   * One trial as the model stores it: cell `j` is the face die `j` shows
   * with variate `us[j]`, the face the as-written cell wraps in a list.
   */
  function Trial<F>(ts: seq<Table<F>>, us: seq<real>): (row: seq<F>)
    requires AllReady(ts) && |us| >= |ts|
    ensures |row| == |ts|
    ensures forall j :: 0 <= j < |ts| ==> row[j] == Roll(ts[j], us[j]) && row[j] in ts[j].faces
    ensures forall j :: 0 <= j < |ts| ==> TrialAsWritten(ts, us)[j] == [row[j]]
  {
    seq(|ts|, j requires 0 <= j < |ts| => Roll(ts[j], us[j]))
  }

  /**
   * One die with faces 1 and 2 of equal weight, rolled with variate 0.0:
   * `play` stores the list `[1]` where the face `1` belongs.
   */
  lemma TrialAsWrittenExample()
    ensures var ts, us := [Table([1, 2], [1.0, 1.0])], [0.0];
      AllReady(ts) && TrialAsWritten(ts, us)[0] == [1] && Trial(ts, us)[0] == 1
  {
    var ws := [1.0, 1.0];
    assert ws[..1] == [1.0] && ws[..1][..0] == [] && ws[..0] == [];
    assert ws[..|ws| - 1] == [1.0];
    assert Sum(ws) == 2.0;
    ChooseInterval(ws, 0.0, 0);
    var ts, us := [Table([1, 2], ws)], [0.0];
    assert Roll(ts[0], us[0]) == 1;
  }

  /** The variates `n` trials of `m` dice use, counted trial by trial. */
  function Consumed(n: nat, m: nat): (count: nat) {
    if n == 0 then 0 else m + Consumed(n - 1, m)
  }

  lemma {:induction false} ConsumedProduct(n: nat, m: nat)
    ensures Consumed(n, m) == n * m
  {
    if n > 0 {
      ConsumedProduct(n - 1, m);
      assert n * m == (n - 1) * m + m;
    }
  }

  lemma {:induction false} ConsumedMonotone(a: nat, b: nat, m: nat)
    requires a <= b
    ensures Consumed(a, m) <= Consumed(b, m)
    decreases b - a
  {
    if a < b {
      ConsumedMonotone(a + 1, b, m);
    }
  }

  /** `n` trials in a row; trial `i` uses the `|ts|` variates after the first `Consumed(i, |ts|)`. */
  function Trials<F>(ts: seq<Table<F>>, n: nat, us: seq<real>): (rows: seq<seq<F>>)
    requires n == 0 || AllReady(ts)
    requires |us| >= Consumed(n, |ts|)
  {
    if n == 0 then [] else Trials(ts, n - 1, us) + [Trial(ts, us[Consumed(n - 1, |ts|)..])]
  }

  /** Trial `i + 1` follows trial `i` and uses the `|ts|` variates after those. */
  lemma TrialsNext<F>(ts: seq<Table<F>>, i: nat, us: seq<real>)
    requires AllReady(ts) && |us| >= Consumed(i + 1, |ts|)
    ensures Consumed(i, |ts|) + |ts| <= |us|
    ensures Trials(ts, i + 1, us) == Trials(ts, i, us) + [Trial(ts, us[Consumed(i, |ts|)..])]
    ensures us[Consumed(i, |ts|)..][|ts|..] == us[Consumed(i + 1, |ts|)..]
  {
  }

  /**
   * `play(n)` leaves exactly `n` rows, each with one cell per die, and the
   * cell in column `j` is a face of die `j`.
   */
  lemma {:induction false} TrialsShape<F>(ts: seq<Table<F>>, n: nat, us: seq<real>)
    requires n == 0 || AllReady(ts)
    requires |us| >= Consumed(n, |ts|)
    ensures |Trials(ts, n, us)| == n
    ensures forall i :: 0 <= i < n ==> |Trials(ts, n, us)[i]| == |ts|
    ensures forall i, j :: 0 <= i < n && 0 <= j < |ts| ==> Trials(ts, n, us)[i][j] in ts[j].faces
  {
    if n > 0 {
      TrialsShape(ts, n - 1, us);
    }
  }

  /** One row of the narrow table: roll number, die label, face. */
  datatype NarrowRow<F> = NarrowRow(rollNumber: nat, die: string, face: F)

  /** What `show_results` hands back. */
  datatype Frame<F> = Wide(columns: seq<string>, rows: seq<seq<F>>) | Narrow(entries: seq<NarrowRow<F>>)

  datatype ShowError = ValueError(message: string) | KeyError(key: string)

  const FormMessage: string := "You need to specify either wide or narrow"

  /** The narrow rows of column `j`, one per roll. */
  function MeltColumn<F>(rows: seq<seq<F>>, j: nat): (column: seq<NarrowRow<F>>)
    requires forall i :: 0 <= i < |rows| ==> j < |rows[i]|
  {
    seq(|rows|, i requires 0 <= i < |rows| => NarrowRow(i, ColumnLabel(j), rows[i][j]))
  }

  /** `pd.melt` of the first `m` columns: column after column, every roll of a column in roll order. */
  function Melt<F>(rows: seq<seq<F>>, m: nat): (entries: seq<NarrowRow<F>>)
    requires forall i :: 0 <= i < |rows| ==> m <= |rows[i]|
  {
    if m == 0 then [] else Melt(rows, m - 1) + MeltColumn(rows, m - 1)
  }

  lemma {:induction false} MeltLength<F>(rows: seq<seq<F>>, m: nat)
    requires forall i :: 0 <= i < |rows| ==> m <= |rows[i]|
    ensures |Melt(rows, m)| == |rows| * m
  {
    if m > 0 {
      MeltLength(rows, m - 1);
      assert |rows| * m == |rows| * (m - 1) + |rows|;
    }
  }

  /** Every cell of the wide table has its row in the narrow table. */
  lemma {:induction false} MeltHasCells<F>(rows: seq<seq<F>>, m: nat)
    requires forall i :: 0 <= i < |rows| ==> m <= |rows[i]|
    ensures forall i, j :: 0 <= i < |rows| && 0 <= j < m ==> NarrowRow(i, ColumnLabel(j), rows[i][j]) in Melt(rows, m)
  {
    if m > 0 {
      MeltHasCells(rows, m - 1);
      var column := MeltColumn(rows, m - 1);
      forall i, j | 0 <= i < |rows| && 0 <= j < m ensures NarrowRow(i, ColumnLabel(j), rows[i][j]) in Melt(rows, m) {
        if j == m - 1 {
          assert column[i] == NarrowRow(i, ColumnLabel(j), rows[i][j]);
        }
      }
    }
  }

  /** Every row of the narrow table is the row of a cell of the wide table. */
  lemma {:induction false} MeltOnlyCells<F>(rows: seq<seq<F>>, m: nat)
    requires forall i :: 0 <= i < |rows| ==> m <= |rows[i]|
    ensures forall e :: e in Melt(rows, m) ==>
      e.rollNumber < |rows| && exists j :: 0 <= j < m && e.die == ColumnLabel(j) && e.face == rows[e.rollNumber][j]
  {
    if m > 0 {
      MeltOnlyCells(rows, m - 1);
      forall e | e in Melt(rows, m)
        ensures e.rollNumber < |rows| && exists j :: 0 <= j < m && e.die == ColumnLabel(j) && e.face == rows[e.rollNumber][j]
      {
        if e !in Melt(rows, m - 1) {
          assert e in MeltColumn(rows, m - 1);
        }
      }
    }
  }

  /** No (roll, die) pair appears twice in the narrow table. */
  lemma {:induction false} MeltDistinct<F>(rows: seq<seq<F>>, m: nat)
    requires forall i :: 0 <= i < |rows| ==> m <= |rows[i]|
    ensures forall a, b :: 0 <= a < b < |Melt(rows, m)| ==>
      (Melt(rows, m)[a].rollNumber, Melt(rows, m)[a].die) != (Melt(rows, m)[b].rollNumber, Melt(rows, m)[b].die)
  {
    if m > 0 {
      MeltDistinct(rows, m - 1);
      MeltOnlyCells(rows, m - 1);
      var prefix, column, whole := Melt(rows, m - 1), MeltColumn(rows, m - 1), Melt(rows, m);
      forall a, b | 0 <= a < b < |whole| ensures (whole[a].rollNumber, whole[a].die) != (whole[b].rollNumber, whole[b].die) {
        if a >= |prefix| {
          assert whole[a] == column[a - |prefix|] && whole[b] == column[b - |prefix|];
        } else if b < |prefix| {
          assert whole[a] == prefix[a] && whole[b] == prefix[b];
        } else {
          assert whole[a] in prefix;
          var j :| 0 <= j < m - 1 && whole[a].die == ColumnLabel(j) && whole[a].face == rows[whole[a].rollNumber][j];
          assert whole[b] == column[b - |prefix|];
          if whole[a].die == whole[b].die {
            ColumnLabelInjective(j, m - 1);
          }
        }
      }
    }
  }

  /**
   * `entries` is a narrow form of the first `m` columns of `rows`: one entry
   * per cell, `|rows| * m` in all, each naming its roll, its die's label and
   * the face in that cell, and no (roll, die) pair twice.
   */
  ghost predicate MeltOf<F>(entries: seq<NarrowRow<F>>, rows: seq<seq<F>>, m: nat)
    requires forall i :: 0 <= i < |rows| ==> m <= |rows[i]|
  {
    && |entries| == |rows| * m
    && (forall i, j :: 0 <= i < |rows| && 0 <= j < m ==> NarrowRow(i, ColumnLabel(j), rows[i][j]) in entries)
    && (forall e :: e in entries ==>
         e.rollNumber < |rows| && exists j :: 0 <= j < m && e.die == ColumnLabel(j) && e.face == rows[e.rollNumber][j])
    && (forall a, b :: 0 <= a < b < |entries| ==>
         (entries[a].rollNumber, entries[a].die) != (entries[b].rollNumber, entries[b].die))
  }

  /** `pd.melt` of the wide table is a narrow form of it. */
  lemma MeltCorrect<F>(rows: seq<seq<F>>, m: nat)
    requires forall i :: 0 <= i < |rows| ==> m <= |rows[i]|
    ensures MeltOf(Melt(rows, m), rows, m)
  {
    MeltLength(rows, m);
    MeltHasCells(rows, m);
    MeltOnlyCells(rows, m);
    MeltDistinct(rows, m);
  }

  /** The dice's face/weight tables, in game order. */
  function Tables<F>(dice: seq<Die<F>>): (ts: seq<Table<F>>)
    reads dice
    ensures |ts| == |dice| && forall j :: 0 <= j < |dice| ==> ts[j] == dice[j].Snapshot()
  {
    if dice == [] then [] else [dice[0].Snapshot()] + Tables(dice[1..])
  }

  /**
   * `[die.roll_die() for die in self.dice]` on the dice's tables: one roll
   * per die, in game order, one variate each.  The first die
   * `random.choices` refuses raises, after the dice before it have used
   * their variates.
   */
  method RollEach<F>(ts: seq<Table<F>>, us: seq<real>) returns (r: Result<seq<F>, RollError>, rest: seq<real>)
    requires (forall j :: 0 <= j < |ts| ==> WellFormed(ts[j])) && |us| >= |ts|
    ensures !AllReady(ts) ==> r == Failure(RollFailure(ts[FirstUnready(ts)])) && rest == us[FirstUnready(ts)..]
    ensures AllReady(ts) ==> r == Success(Trial(ts, us)) && rest == us[|ts|..]
  {
    var row: seq<F> := [];
    rest := us;
    var j := 0;
    while j < |ts|
      invariant 0 <= j <= |ts|
      invariant rest == us[j..]
      invariant AllReady(ts[..j])
      invariant |row| == j && forall k :: 0 <= k < j ==> row[k] == Roll(ts[k], us[k])
    {
      var faces, next := RollTable(ts[j], 1, rest);
      if faces.Failure? {
        FirstUnreadyAt(ts, j);
        return Failure(faces.error), rest;
      }
      ReadyPrefix(ts, j);
      row := row + [faces.value[0]];
      rest := next;
      j := j + 1;
    }
    assert ts[..|ts|] == ts;
    assert row == Trial(ts, us);
    r := Success(row);
  }

  /**
   * The loop of `play(n)` on the dice's tables: `n` trials collected into a
   * list, each rolling every die once.  A die `random.choices` refuses stops
   * it in its first trial.
   */
  method CollectTrials<F>(ts: seq<Table<F>>, n: nat, us: seq<real>) returns (r: Result<seq<seq<F>>, RollError>, rest: seq<real>)
    requires (forall j :: 0 <= j < |ts| ==> WellFormed(ts[j])) && |us| >= Consumed(n, |ts|)
    ensures n > 0 && !AllReady(ts) ==> r == Failure(RollFailure(ts[FirstUnready(ts)])) && rest == us[FirstUnready(ts)..]
    ensures n == 0 || AllReady(ts) ==> r == Success(Trials(ts, n, us)) && rest == us[Consumed(n, |ts|)..]
  {
    var rows: seq<seq<F>> := [];
    rest := us;
    var i := 0;
    while i < n
      invariant 0 <= i <= n
      invariant Consumed(i, |ts|) <= |us| && rest == us[Consumed(i, |ts|)..]
      invariant (i == 0 || AllReady(ts)) && rows == Trials(ts, i, us)
    {
      ConsumedMonotone(i + 1, n, |ts|);
      var row, next := RollEach(ts, rest);
      if row.Failure? {
        return Failure(row.error), next;
      }
      TrialsNext(ts, i, us);
      rows := rows + [row.value];
      rest := next;
      i := i + 1;
    }
    r := Success(rows);
  }

  class Game<F(==)> {
    const dice: seq<Die<F>>
    var results: seq<seq<F>>
    /** Whether `play` has stored a table yet (before that the table has no columns and no index name). */
    var played: bool

    ghost predicate Valid()
      reads this, dice
    {
      && (forall j :: 0 <= j < |dice| ==> dice[j].Valid())
      && (!played ==> results == [])
      && (forall i :: 0 <= i < |results| ==> |results[i]| == |dice|)
      && (forall i, j :: 0 <= i < |results| && 0 <= j < |dice| ==> results[i][j] in dice[j].faces)
    }

    constructor (dice: seq<Die<F>>)
      requires forall j :: 0 <= j < |dice| ==> dice[j].Valid()
      ensures Valid() && this.dice == dice && results == [] && !played
    {
      this.dice := dice;
      results := [];
      played := false;
    }

    /**
     * `play(n)`: the collected trials become the stored table, one row per
     * trial and one column per die; a play that raises leaves the previous
     * table in place.  `range(n)` is empty for `n <= 0`.
     */
    method Play(howManyRolls: int, us: seq<real>) returns (r: Result<(), RollError>, rest: seq<real>)
      requires Valid() && |us| >= Consumed(if howManyRolls > 0 then howManyRolls else 0, |dice|)
      modifies this`results, this`played
      ensures Valid()
      ensures howManyRolls > 0 && !AllReady(old(Tables(dice))) ==>
        && r == Failure(RollFailure(old(Tables(dice))[FirstUnready(old(Tables(dice)))]))
        && results == old(results) && played == old(played)
        && rest == us[FirstUnready(old(Tables(dice)))..]
      ensures howManyRolls <= 0 || AllReady(old(Tables(dice))) ==>
        var n := if howManyRolls > 0 then howManyRolls else 0;
        && r == Success(())
        && played
        && results == Trials(old(Tables(dice)), n, us)
        && rest == us[Consumed(n, |dice|)..]
    {
      var n := if howManyRolls > 0 then howManyRolls else 0;
      var ts := Tables(dice);
      var rows;
      rows, rest := CollectTrials(ts, n, us);
      if rows.Failure? {
        return Failure(rows.error), rest;
      }
      TrialsShape(ts, n, us);
      assert forall j :: 0 <= j < |dice| ==> ts[j].faces == dice[j].faces;
      results := rows.value;
      played := true;
      r := Success(());
    }

    /**
     * `show_results(form)`: the stored table as it is (`"wide"`), melted into
     * one row per cell (`"narrow"`), or a `ValueError` for any other form.
     * Melting a game that never played finds no "Roll Number" column.
     */
    function ShowResults(form: string): (r: Result<Frame<F>, ShowError>)
      requires Valid()
      reads this, dice
      ensures form == "wide" ==> r == Success(Wide(if played then ColumnLabels(|dice|) else [], results))
      ensures form == "narrow" && !played ==> r == Failure(KeyError("Roll Number"))
      ensures form == "narrow" && played ==> r.Success? && r.value.Narrow? && MeltOf(r.value.entries, results, |dice|)
      ensures form != "wide" && form != "narrow" ==> r == Failure(ValueError(FormMessage))
    {
      if form == "wide" then
        Success(Wide(if played then ColumnLabels(|dice|) else [], results))
      else if form == "narrow" then
        if played then
          MeltCorrect(results, |dice|);
          Success(Narrow(Melt(results, |dice|)))
        else
          Failure(KeyError("Roll Number"))
      else
        Failure(ValueError(FormMessage))
    }
  }
}
