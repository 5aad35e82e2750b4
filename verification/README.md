# Monte Carlo dice simulator — a Dafny model

This project models the three classes of `montecarlo/montecarlo.py`:

- **`Die`**: a table of faces, each with a weight that starts at 1.0.
  - `change_weight` overwrites the weight of every row showing a face. It reports, instead of raising, an unknown face or a weight `float()` rejects.
  - `roll_die(times)` draws `times` faces with `random.choices`.
- **`Game`**: a list of dice.
  - `play(n)` rolls every die once per trial, `n` times, and stores the results as a table: one row per roll, one column `"Die j"` per die.
  - `show_results` returns that table in wide form, or melted into (roll number, die, face) rows in narrow form.
- **`Analyzer`**: statistics over a game's table.
  - `jackpot` counts the rolls whose faces are all equal and caches the boolean column.
  - `combo` counts each sorted combination of faces and caches the table, ordered by combination.
  - `face_count` tallies, per roll, how many dice showed each face.

Modules:

- `Wrappers` holds `Result`. A Python exception that leaves a call becomes a `Failure`.
- `Ordering` is Python's ordering of faces, given as a total-order comparator `le`. It defines `sorted` (insertion sort) and tuple comparison.
- `Tally` is `value_counts().sort_index()`: a table of (key, count) groups sorted by key.
- `Sampling` is `random.choices(population, weights, k=1)` for one variate `u = random()`. It accumulates the weights, scales `u` by the total and calls `bisect_right` on `[0, n-1)`.
  - Operations that roll take the variates the generator would hand out next and return the ones they leave unused.
- `Dice` is the `Die` class, a class with a mutable `weights` field. Its rolling loop runs on a value snapshot (`Table`) of the die.
- `Decimal` is `str(n)` for the column labels, and proves that different dice get different labels.
- `Games` is the `Game` class with the `play` loop, proved against the specification function `Trials`, and `show_results`.
- `Analysis` is the `Analyzer` class: the cached `jackpot` and `combo` methods, and `face_count`.

The specification functions (`Trials`, `JackpotColumn`, `Combos`, `FaceCountTable`) are related to the methods by their `ensures`. Lemmas about those functions state the properties the source promises.

## Model

| member | source | states |
|---|---|---|
| Dice.Die.constructor | montecarlo/montecarlo.py:11-16 | The faces are kept in the order given, there is one weight per face, and every weight is 1.0. |
| Dice.Die.ChangeWeight | montecarlo/montecarlo.py:18-34 | Three cases leave the weights unchanged: an unknown face reports the face-not-found message; a known face whose weight `float()` rejects with ValueError reports the not-a-float message; a TypeError from `float()` escapes. A parsed weight is written to every row showing the face, and every other row keeps its weight. The number of rows and the faces never change. |
| Dice.RollTable | montecarlo/montecarlo.py:36-48 | `times <= 0` gives `[]` and uses no variate. A table `random.choices` refuses (no faces, or, from CPython 3.9 on, a total weight that is not positive) fails before using a variate. Otherwise the result is exactly `times` draws, draw `k` made with variate `k`, every outcome is a face of the table, and the first `times` variates are used. |
| Dice.Die.RollDie | montecarlo/montecarlo.py:36-48 | `roll_die` is `RollTable` on the die's current faces and weights. It has no `modifies` clause, so the die is left unchanged. |
| Dice.Draws | montecarlo/montecarlo.py:44-47 | One outcome per variate, in order. Outcome `k` is the face drawn with variate `k`. |
| Dice.Roll | montecarlo/montecarlo.py:46 | The face `random.choices(...)[0]` draws is one of the die's faces. |
| Sampling.Choose | montecarlo/montecarlo.py:46 | Whatever the weights, the position `bisect_right` returns is a row of the table. |
| Sampling.ChooseInterval | montecarlo/montecarlo.py:46 | With non-negative weights of positive total, row `i` is drawn exactly when `u * total` falls in `[Sum(w[..i]), Sum(w[..i+1]))`. That interval's length is `w[i]`, so row `i` is drawn with probability `w[i] / total`. |
| Sampling.ChosenInterval | montecarlo/montecarlo.py:46 | Whatever the signs of the weights, as long as their total is positive, `u * total` lies in the drawn row's cumulative interval. |
| Sampling.ChosenWeightPositive | montecarlo/montecarlo.py:46 | The drawn row's weight is positive whenever the total is, even if some weights are negative. |
| Dice.RollInterval | montecarlo/montecarlo.py:44-48 | A roll shows row `i` exactly when the scaled variate falls in row `i`'s cumulative interval, whose length is the row's weight. |
| Dice.ZeroWeightFaceNeverRolled | montecarlo/montecarlo.py:26-48 | Once `change_weight(face, 0)` has zeroed every row of a face, no roll shows that face, whatever the other weights are (negative ones included) as long as the table can be rolled. |
| Games.Game.constructor | montecarlo/montecarlo.py:69-72 | The game keeps its dice. It starts with an empty table and has not been played. |
| Games.ColumnLabelInjective | montecarlo/montecarlo.py:89 | The labels `"Die " + str(j + 1)` of two dice differ whenever the dice's positions differ. |
| Decimal.ParseStr | montecarlo/montecarlo.py:89 | Reading back `str(n)` gives `n`, so `str` is injective on naturals. |
| Games.TrialAsWritten | montecarlo/montecarlo.py:87 | The trial as `play` builds it: one cell per die, and each cell is a one-element list holding a face of that die, not the face itself. |
| Games.Trial | montecarlo/montecarlo.py:87 | The corrected trial has one cell per die. Cell `j` is a face of die `j`, the one it shows with variate `j`, and it is exactly the face the as-written cell wraps in a list. |
| Games.TrialAsWrittenExample | montecarlo/montecarlo.py:87 | For one die with faces 1 and 2 of equal weight, rolled with variate 0.0, the as-written cell is `[1]` where the face `1` belongs. |
| Games.RollEach | montecarlo/montecarlo.py:87 | Rolls each die once, in game order. If every die can be rolled, the result is the trial and one variate per die is used. Otherwise the first die `random.choices` refuses raises its error, after the dice before it have used their variates. |
| Games.CollectTrials | montecarlo/montecarlo.py:85-88 | The loop of `play(n)` gives `Trials(ts, n, us)`, with `n * m` variates used. If some die cannot be rolled and `n > 0`, the first trial fails at that die. |
| Games.ConsumedProduct | montecarlo/montecarlo.py:85-88 | `n` trials of `m` dice use `n * m` variates. |
| Games.TrialsShape | montecarlo/montecarlo.py:85-89 | The table `play(n)` builds has exactly `n` rows. Each row has one cell per die, and the cell in column `j` is a face of die `j`. |
| Games.Game.Play | montecarlo/montecarlo.py:74-90 | On success the stored table is replaced wholesale by `Trials` of the dice's tables (`n` rows, or none for `n <= 0`), and the game is marked played. A failing roll leaves the previous table and the played flag unchanged. The game invariant (rows of `m` cells, each a face of its die) is kept. |
| Games.MeltCorrect | montecarlo/montecarlo.py:103 | `pd.melt` of an `n`-by-`m` table has exactly `n * m` rows. Each cell of the wide table appears as (roll, die label, face). Every narrow row comes from a cell, and no (roll, die) pair repeats. |
| Games.Game.ShowResults | montecarlo/montecarlo.py:92-105 | `'wide'` returns the stored table with columns `"Die 1"`..`"Die m"` once played, and no columns before. `'narrow'` on a played game returns a narrow form of the table, as `MeltCorrect` states. `'narrow'` before any play raises KeyError on `'Roll Number'`. Any other form raises ValueError with the fixed message. The function does not change the game. |
| Analysis.Analyzer.constructor | montecarlo/montecarlo.py:111-123 | The game must hold a row with a cell, because its first row is sampled. Both caches start empty. |
| Analysis.JackpotCount | montecarlo/montecarlo.py:133-136 | Summing the boolean jackpot column counts the rolls whose cells all equal the first cell. The count is at most the number of rolls, and equals it exactly when every roll is a jackpot. |
| Analysis.SingleDieAllJackpots | montecarlo/montecarlo.py:133-136 | With one die, every roll is a jackpot. |
| Analysis.AllSamePermutation | montecarlo/montecarlo.py:133 | Whether a roll is a jackpot does not depend on the order of its cells. |
| Analysis.Analyzer.Jackpot | montecarlo/montecarlo.py:125-137 | An empty cache is filled with one boolean per roll of the current table, true exactly for jackpots, and the number of jackpots is returned. A filled cache is kept as it is, and its length is returned. |
| Analysis.CachedJackpotMiscounts | montecarlo/montecarlo.py:130-137 | The length of the cached column equals the jackpot count exactly when every roll is a jackpot. The number of `True` entries always equals the jackpot count. |
| Analysis.CachedJackpotExample | montecarlo/montecarlo.py:130-137 | For the table `[[1, 2], [3, 3]]`, the cached column has length 2 but holds one jackpot. |
| Analysis.Analyzer.JackpotCorrected | montecarlo/montecarlo.py:125-137 | Same as `Jackpot`, except that a filled cache returns the number of jackpots it records. |
| Ordering.SortCorrect | montecarlo/montecarlo.py:145 | `sorted(row)` is in order and is a permutation of the row. |
| Ordering.SortSameIffPermutation | montecarlo/montecarlo.py:145 | Two rows sort to the same tuple exactly when they hold the same faces with the same multiplicities. |
| Ordering.LexIsStrictTotal | montecarlo/montecarlo.py:147 | Python's tuple comparison over a total order on faces is a strict total order, so `sort_index` on combinations is well defined. |
| Tally.CountCorrect | montecarlo/montecarlo.py:145-147 | `value_counts().sort_index()` lists each distinct key once, in strictly ascending order. Each key's count is its number of occurrences and is positive, and the counts add up to the number of keys counted. |
| Tally.CountRows | montecarlo/montecarlo.py:145-147 | Every group's count is the number of occurrences of its key. A value is a key exactly when it occurs. |
| Analysis.ComboTable | montecarlo/montecarlo.py:145-147 | The combination table lists each distinct sorted roll once, in strictly ascending tuple order. Each key is sorted and its count is the number of rolls that sort to it. Every roll is counted under its sorted form, and a roll is counted under a key exactly when it holds the same faces. The counts add up to the number of rolls. |
| Analysis.Analyzer.Combo | montecarlo/montecarlo.py:139-148 | An empty cache is filled with the combination table of the game's current table. A filled cache is returned unchanged. The result is the cache. |
| Analysis.Analyzer.FaceCountAsWritten | montecarlo/montecarlo.py:154 | `face_count` as written always raises AttributeError for `_Analyzer__theresults`. |
| Analysis.FaceColumnsCorrect | montecarlo/montecarlo.py:154 | The face columns are strictly ascending and without repeats. A face is a column exactly when it was rolled somewhere in the table, so every cell's face is a column. |
| Analysis.CountMatrix | montecarlo/montecarlo.py:154 | With distinct columns that cover every cell, there is one row of counts per roll and one count per column. Each count is the number of dice in that roll showing that column's face, and each row adds up to the roll's number of dice. |
| Analysis.FaceCountTable | montecarlo/montecarlo.py:150-155 | The per-roll face counts (`groupby(['Roll Number', 'Face']).size().unstack(fill_value=0)`): the columns are the faces rolled, ascending and distinct. There is one row per roll; entry `[i][c]` is how many dice showed face `c` in roll `i`; each row sums to the number of dice in that roll. |
| Analysis.Analyzer.FaceCount | montecarlo/montecarlo.py:150-155 | `face_count` as documented: one row per roll of the game's table, with one count per face column. Each count is the number of dice showing that face, and each row sums to the number of dice. The columns are exactly the faces rolled. |

## Left out

- The process-wide random generator is not state here: rolling operations take the variates `random()` would return next, each assumed to lie in [0, 1), and return the unused ones.
- The draw itself follows CPython 3.9's `random.choices` step by step: cumulative weights, `random() * total`, then `bisect_right`. No statistical claim is made beyond the interval lemma.
- Dice.RollTable: the refusal of a total weight that is not positive (a ValueError) is the behaviour of CPython 3.9 and later. The package also declares Python 3.6 to 3.8, where `random.choices` does not check the total; there, all-zero weights make `bisect` return `n - 1` and the last face is drawn. That older behaviour is not modelled.
- Sampling.ChooseInterval and Dice.RollInterval: the "exactly when" is stated for non-negative weights only. With negative weights the cumulative intervals can overlap, and only the one direction `Sampling.ChosenInterval` states holds.
- Floating point: weights are `real`. Rounding in `accumulate` and in `random() * total` is not modelled. Non-finite totals (NaN or infinite weights, which `random.choices` rejects) are not modelled.
- `float(new_weight)` is not parsed. The caller passes its outcome as a `FloatConversion` (converted value, ValueError or TypeError).
- `print` output: `change_weight` returns what it would print as a `WeightChange` value. The success message's text is not built.
- `Die.__str__` and all DataFrame rendering are not modelled.
- pandas metadata is not modelled:
  - the index names `"Roll Number"` (lines 90 and 135);
  - the narrow frame's column names and its fresh index;
  - the `jackpot` frame's column name.

  Cells and rows are modelled; labels only where they carry data, namely the die labels.
- dtype inference in `Analyzer.__init__` (lines 118-119) is only the precondition that the first row exists. `facecount_results` (line 123) is never written by the source and is not modelled.
- `roll_die`'s default `times=1`, `show_results`' default `'wide'` and `play`'s argument types are not modelled. Callers pass an `int` and a form string, so non-integer counts (a TypeError in `range`) are not modelled.
- Faces of mixed types that Python cannot compare (a TypeError in `sorted`) are not modelled. The model takes the face order as a total-order comparator.
- Analysis.Analyzer.Combo: on a table with no rows (a `play(0)` after the analyzer was built) the model returns an empty table. What pandas' row-wise `apply` gives on an empty frame is not modelled.
- Analysis.Analyzer.FaceCount: its docstring says the counts are stored in an attribute, but the code (like the model) only returns them. The columns are the faces that occur in the table, which is what `groupby(...).size().unstack()` yields; a face never rolled gets no column. The test at src/montecarlo/tests/all_tests.py:129 expects the columns `[1, 2, 3, 4, 5, 6]`, every face of the dice, and runs on a game that was never played. The model's columns agree with that only when every face was rolled.
- Games.Game.Play: the stored cells are the faces of the corrected `Games.Trial`, not the one-element lists line 87 stores (see Findings). `Games.RollEach` and `Games.CollectTrials` build rows of faces in the same way.
- Analysis.Analyzer.Combo: it runs on the face cells of the corrected `Games.Trial`. With the list cells line 87 stores, `tuple(sorted(row))` is a tuple of lists, and `value_counts()` cannot hash it. So `combo()` as written would raise TypeError on any played game (a reading of pandas, not executed). The model does not capture that failure.
- Games.Game.ShowResults: it returns the face cells of the corrected `Games.Trial`, where the source would show one-element lists. The wide table before any play is modelled as no columns and no rows. pandas' empty-frame details are not.
- The caches of `jackpot` and `combo` are never invalidated when the game is played again, as in the source. The model keeps them as they are and does not state anything about staleness.

## Findings

| source | as written | input that shows it | evidently intended | confidence | as-written member | corrected member |
|---|---|---|---|---|---|---|
| montecarlo/montecarlo.py:130-137 | `jackpot_count = len(self.jackpot_results)`: a filled cache returns the number of rolls | `[[1, 2], [3, 3]]`: the first call returns 1, every later call returns 2 | return the number of jackpots recorded in the cache | not executed | Analysis.Analyzer.Jackpot, Analysis.CachedJackpotExample, Analysis.CachedJackpotMiscounts | Analysis.Analyzer.JackpotCorrected |
| montecarlo/montecarlo.py:154 | `self.__theresults` inside `Analyzer` is name-mangled to `_Analyzer__theresults`, which is never set. Even with the attribute fixed, `.melt(var_name='Die', value_name='Face')` drops the `Roll Number` index (`ignore_index=True` by default), so `groupby(['Roll Number', 'Face'])` would raise KeyError | any `Analyzer(game).face_count()` raises AttributeError | count the faces of each roll of `self.game`'s results | not executed | Analysis.Analyzer.FaceCountAsWritten | Analysis.Analyzer.FaceCount |
| montecarlo/montecarlo.py:87 | `[die.roll_die() for die in self.dice]` stores the list `roll_die()` returns in each cell. Downstream, `combo()` then builds tuples of lists, which `value_counts()` at line 145 cannot hash, so it raises TypeError on any played game | `Game([Die([1, 2])]).play(1)`: the cell holds `[1]` or `[2]`, not a face | store the face, `die.roll_die()[0]` | not executed | Games.TrialAsWritten, Games.TrialAsWrittenExample | Games.Trial |
