# Monte Carlo dice simulator — Dafny model

This project models the core of the `montecarlo` package, which lives in `montecarlo/montecarlo.py`. It has three classes that work together:

- **Die** holds an ordered list of faces and a parallel list of weights.
  - Every weight starts at 1.0.
  - `update_weight` checks its arguments, then changes the weight of the first matching face.
  - `roll` makes `times` weighted draws.
- **Game** rolls a list of dice `times` times and keeps the latest play as a long-form table.
  - Each row of the table is (roll number, die number, face).
  - The order is die-major: all of die 0's rolls come first, then all of die 1's, and so on.
  - `show` returns that table either narrow, keyed by (roll, die), or wide, as one row per roll with one column per die.
- **Analyzer** reads a game's narrow table and caches three statistics:
  - the jackpot groups, meaning (roll, face) groups as large as the number of dice;
  - the combos, meaning the distinct set of faces per roll, counted and sorted by count with the largest first;
  - the per-roll face-count matrix, with 0 where a roll lacks a face.

Files and modules:

| file | module | contents |
|---|---|---|
| `wrappers.dfy` | `Wrappers` | `Option`, `Result`, `Outcome` |
| `values.dfy` | `Values` | face values (`Text` or `Number`), the error kinds, `range` length |
| `counting.dfy` | `Counting` | division and modulus facts, integer intervals, set sizes |
| `die.dfy` | `Dice` | `class Die` |
| `table.dfy` | `Tables` | the long table, the column builders, the wide pivot, display-mode parsing |
| `game.dfy` | `Games` | `class Game` |
| `stats.dfy` | `Stats` | the grouping and counting functions and their lemmas, including the combo sort |
| `analyzer.dfy` | `Analysis` | `class Analyzer` and its checked factory `NewAnalyzer` |

State that the source updates in place is modelled by classes:

- the die's weights;
- the game's table;
- the analyzer's three caches.

The aggregations the source writes as pandas expression chains are modelled as functions over the table, with lemmas about them.

Modelling choices:

- **Faces.** A face, and the weight argument of `update_weight`, is a `Value`: either `Text` or `Number(real)`.
  - Python's `1 == 1.0` is real equality.
  - The `numbers.Number` check is the `Number?` test.
- **Draws.** A draw is a nondeterministic choice of one of the die's faces.
- **Draw errors.** These follow `random.choices` in Python 3.9 and later. The package requires Python above 3.10.
  - A die with no faces fails with an index error, modelled as `EmptyPopulation`.
  - Weights whose total is not positive fail with a value error, modelled as `WeightsNotPositive`.
  - No draw happens when `times <= 0`, so there is no error then.
- **Default arguments.** `Die.Roll` takes `times := 1` and `Game.Show` takes `display := "wide"`, as `roll` and `show` do.
- **Negative counts.** A negative `times` behaves as `range` does, giving an empty result.
- **Failed plays.** If a die cannot be drawn from during a play, the previous table is kept. The source assigns the table only after all draws succeed.
- **Before any play.** The table is `None`. The source's empty frame has no `die_number` column, so `show` raises a key error and so does every analyzer computation. The model returns `NotPlayed` in each case and leaves the analyzer's caches as they were.
- **Factory.** `NewAnalyzer` refuses a game with no dice (`NoDice`). It also refuses a game whose first die has no faces (`NoFirstFace`), because reading the first face's type raises a key error there.

Behaviour the code's callers may not expect, which the model keeps as the code has it:

- **Jackpots before any play.** `calculate_jackpots` on a game never played raises, because `show` does. The model returns `NotPlayed`.
- **Die construction.** An empty face list is accepted. Drawing from such a die fails, and an analyzer over a game whose first die has no faces is refused.
- **Negative roll counts.** A negative `times` is treated as 0, since `range` of a negative number is empty.

## Model

| member | source | states |
|---|---|---|
| Values.KindOf | montecarlo/montecarlo.py:202 | The recorded face kind is text exactly when the first face is a string. |
| Values.RangeLength | montecarlo/montecarlo.py:56 | `range(times)` yields `times` items when `times` is non-negative and none otherwise. |
| Dice.FirstIndex | montecarlo/montecarlo.py:41 | The index an update targets holds the face, and no earlier index does. |
| Dice.Die.constructor | montecarlo/montecarlo.py:20-24 | The faces are kept in order, with one weight per face, each equal to the default weight 1.0. |
| Dice.Die.UpdateWeight | montecarlo/montecarlo.py:26-42 | A face not on the die fails first, then a non-numeric weight. Both failures leave the weights unchanged. Otherwise only the weight at the first index of the face becomes the new weight, and the faces never change. |
| Dice.Die.DrawFailure | montecarlo/montecarlo.py:50-57 | A roll fails exactly when at least one draw happens and the die has no faces or its weights do not sum to a positive number. |
| Dice.TotalNonNegative | montecarlo/montecarlo.py:51-55 | The weight total `Total` that the draw checks is non-negative when every weight is. |
| Dice.TotalPositive | montecarlo/montecarlo.py:51-55 | Positive weights, at least one of them, have a positive total, so such a die can be drawn from. |
| Dice.TotalOfDefaults | montecarlo/montecarlo.py:8 | `n` default weights of 1.0 total `n`, so a new die with at least one face can be drawn from. |
| Dice.TotalUpdate | montecarlo/montecarlo.py:41-42 | Updating one weight changes the total by exactly the difference between the new and the old weight. |
| Dice.Die.Roll | montecarlo/montecarlo.py:44-57 | On failure it returns the error `DrawFailure` names. Otherwise it returns exactly `times` draws (none for `times <= 0`), each one of the die's faces. |
| Dice.Die.Show | montecarlo/montecarlo.py:59-66 | One row per face, in order, pairing each face with its current weight. |
| Games.Game.constructor | montecarlo/montecarlo.py:80-82 | The dice are stored as given, and there is no table yet. |
| Tables.RollRange | montecarlo/montecarlo.py:91 | `range(1, times + 1)`: `times` entries, the `j`-th being `j + 1`. |
| Tables.RollNumbers | montecarlo/montecarlo.py:84-91 | The roll-number column has `numDice * times` entries. |
| Tables.RollNumberAt | montecarlo/montecarlo.py:84-91 | Entry `i` of the roll-number column is `i % times + 1`. |
| Tables.DieNumbers | montecarlo/montecarlo.py:93-100 | The die-number column has `numDice * times` entries. |
| Tables.DieNumberAt | montecarlo/montecarlo.py:93-100 | Entry `i` of the die-number column is `i / times`. |
| Tables.Columns | montecarlo/montecarlo.py:134-138 | Row `i` of the frame is made of entry `i` of each of the three columns. |
| Games.Game.RollDice | montecarlo/montecarlo.py:102-112 | It succeeds exactly when every die can be drawn from. A failure returns the error of the first die that cannot. A success has `|dice| * times` results, and result `i` is a face of die `i / times`. |
| Tables.PlayTable | montecarlo/montecarlo.py:131-139 | The play's table puts roll `i % times + 1` and die `i / times` at row `i`, and the rolled face `faces[i]` with them. |
| Games.Game.Play | montecarlo/montecarlo.py:114-139 | It passes exactly when every die can be drawn from. A pass replaces the previous table with a die-major table of `|dice| * times` rows, each showing a face of its own die. A failure names the first failing die and keeps the previous table. |
| Tables.PlayRowAt | montecarlo/montecarlo.py:121-129 | Die `d`'s roll number `j + 1` is at row `d * times + j`. |
| Tables.PlayRowPosition | montecarlo/montecarlo.py:121-129 | Every row of a play has a die below the dice count and a roll number in `1..times`, and sits at row `die * times + roll - 1`. |
| Tables.PlayTableKeysUnique | montecarlo/montecarlo.py:139 | No two rows of a play share a (roll number, die number) key, so the narrow index is unique. |
| Tables.Pivot | montecarlo/montecarlo.py:185 | The wide view has one row for each roll number that occurs in the table, and no other rows. |
| Tables.PivotHasRows | montecarlo/montecarlo.py:185 | Every row of the table gets a cell in the wide view. |
| Tables.PivotRollsFromRows | montecarlo/montecarlo.py:185 | Every roll of the wide view comes from a row. |
| Tables.PivotCellsFromRows | montecarlo/montecarlo.py:185 | Every cell of the wide view is the face of a row with that roll and die. |
| Tables.PivotCell | montecarlo/montecarlo.py:185 | With unique keys, the wide-view cell of a row's (roll, die) is that row's face. |
| Tables.PivotMeltRoundTrip | montecarlo/montecarlo.py:182-185 | With unique keys, melting the wide view gives back exactly the rows of the narrow table. |
| Tables.PlayWideRolls | montecarlo/montecarlo.py:169-176 | The wide view of a play with dice has one row per roll number `1..times`. |
| Tables.PlayWideColumns | montecarlo/montecarlo.py:169-176 | Each row of the wide view of a play has one column per die `0..numDice - 1`. |
| Tables.PlayWideCell | montecarlo/montecarlo.py:169-176 | The wide cell of (roll, die) is the face at row `die * times + roll - 1`. |
| Tables.PivotRollFromRow | montecarlo/montecarlo.py:185 | Every roll of the wide view of a play is in `1..times`. |
| Tables.PivotDieFromRow | montecarlo/montecarlo.py:185 | Every column of the wide view of a play is a die number below the dice count. |
| Tables.Lower | montecarlo/montecarlo.py:178 | ASCII lower-casing: it keeps the length and lower-cases each letter A-Z on its own (see "Left out" for the rest of Unicode). |
| Tables.ParseDisplay | montecarlo/montecarlo.py:178-185 | The mode is wide exactly when the lower-cased input is "wide", and narrow exactly when it is "narrow". Anything else is an error quoting the input. |
| Tables.LowerIdempotent | montecarlo/montecarlo.py:178 | Lower-casing twice is lower-casing once. |
| Tables.ParseDisplayIgnoresCase | montecarlo/montecarlo.py:178-185 | A display value is accepted exactly when its lower-cased form is, and it then means the same mode. |
| Tables.ParseDisplayExamples | montecarlo/montecarlo.py:178-180 | "WIDE" is wide, "Narrow" is narrow, and "tall" is refused. |
| Games.Game.Show | montecarlo/montecarlo.py:141-185 | The display value is checked first. A game never played has nothing to show. Otherwise the result is the narrow table, or its pivot by die number. |
| Games.ShowViewsAgree | montecarlo/montecarlo.py:182-185 | After a play, both views exist; the narrow view has `|dice| * times` rows, and melting the wide view gives back its rows. |
| Stats.GroupRows | montecarlo/montecarlo.py:236 | A (roll, face) group consists of rows of that roll. |
| Stats.Occurrences | montecarlo/montecarlo.py:233-238 | The group sizes are keyed by exactly the (roll, face) pairs that occur, each mapped to the size of its group. |
| Stats.OccurrencesPositive | montecarlo/montecarlo.py:237 | Every group that occurs has a positive size. |
| Stats.Jackpots | montecarlo/montecarlo.py:240 | A group is kept exactly when its size equals the number of dice. |
| Stats.PlayRollRowsAreSlots | montecarlo/montecarlo.py:121-129 | In a play, the rows of one roll are the rows `d * times + roll - 1` of the dice `d`. |
| Stats.PlayRollRows | montecarlo/montecarlo.py:121-129 | In a play, each roll in `1..times` has one row per die, and any other roll has none. |
| Stats.PlayJackpotGroup | montecarlo/montecarlo.py:234-240 | In a play, (roll, face) is a jackpot group exactly when every die showed that face on that roll. |
| Stats.PlayJackpotFaceUnique | montecarlo/montecarlo.py:234-240 | A roll has at most one jackpot face. |
| Stats.PlayJackpotRolls | montecarlo/montecarlo.py:234-240 | The rolls of the jackpot groups are exactly the rolls in which every die showed the same face. |
| Stats.PlayJackpotCount | montecarlo/montecarlo.py:241 | The jackpot count equals the number of all-same-face rolls, and is at most the number of rolls. |
| Stats.PlayRolls | montecarlo/montecarlo.py:121-129 | The roll numbers of a play with dice are exactly `1..times`. |
| Stats.Combos | montecarlo/montecarlo.py:274-280 | The combo counts are keyed by the face sets of the rolls, each mapped to how many rolls have that face set. |
| Stats.RollFaces | montecarlo/montecarlo.py:275-276 | A roll's set of faces contains only faces that occur in the table. |
| Stats.RollFacesNonEmpty | montecarlo/montecarlo.py:275-276 | A roll's set of faces is non-empty exactly when the roll occurs in the table. |
| Stats.CombosPositive | montecarlo/montecarlo.py:278-279 | Every combo count is positive. |
| Stats.ComboIsWideRowFaces | montecarlo/montecarlo.py:275-276 | A roll's combo is the set of faces in its row of the wide view. |
| Stats.ComboIgnoresDieOrder | montecarlo/montecarlo.py:275-279 | Two rolls whose dice show the same set of faces, in any die order and with any repeats, count toward the same combo. |
| Stats.LargestExists | montecarlo/montecarlo.py:281 | A non-empty set of combos has one with the largest count. |
| Stats.SortByOccurrences | montecarlo/montecarlo.py:281 | The result lists every combo exactly once with its count, and the counts never increase along the list. |
| Stats.PartialSum | montecarlo/montecarlo.py:278-279 | The counts of distinct combos add up to the number of rolls those combos cover. |
| Stats.ComboCountsSum | montecarlo/montecarlo.py:278-279 | A listing of all combos has counts summing to the number of rolls. |
| Stats.FaceRolledOccurrences | montecarlo/montecarlo.py:296-300 | The matrix has a row for each roll and a column for every face in the table; each cell is the size of that (roll, face) group. |
| Stats.Faces | montecarlo/montecarlo.py:299 | The matrix's columns, the faces seen anywhere in the table; there are none exactly when the table is empty. |
| Stats.GroupNonEmpty | montecarlo/montecarlo.py:298-300 | A (roll, face) group has rows exactly when that face occurs on that roll. |
| Stats.FaceRolledOccurrencesCell | montecarlo/montecarlo.py:298-300 | A cell equals the group size where the group exists. It is 0 exactly when the roll did not show that face. |
| Stats.RowSumOver | montecarlo/montecarlo.py:296-300 | A row's cells over any set of faces sum to the number of that roll's rows showing one of them. |
| Stats.RowSum | montecarlo/montecarlo.py:296-300 | Each row of the matrix sums to the number of rows that roll has. |
| Stats.PlayFaceRolledOccurrences | montecarlo/montecarlo.py:296-300 | For a play with dice, the matrix rows are exactly the rolls `1..times`, and each row sums to the number of dice. |
| Analysis.Analyzer.constructor | montecarlo/montecarlo.py:197-205 | It records the game, the number of dice and the kind of the first die's first face, and starts with all three caches empty. |
| Analysis.NewAnalyzer | montecarlo/montecarlo.py:197-205 | A game without dice is refused with `NoDice`; a first die without faces with `NoFirstFace`. Otherwise it returns a fresh analyzer with empty caches. |
| Analysis.Analyzer.CalculateJackpots | montecarlo/montecarlo.py:207-241 | Before any play it fails and leaves the cache as it was. After a play it caches the jackpot groups and returns the number of all-same-face rolls, at most `times`. It touches no other cache. |
| Analysis.Analyzer.CalculateCombos | montecarlo/montecarlo.py:243-281 | Before any play it fails and leaves the cache as it was. After a play it caches all combos with their counts, each once, in non-increasing count order, with counts summing to `times`. |
| Analysis.Analyzer.CalculateFaceRolledOccurrences | montecarlo/montecarlo.py:283-300 | Before any play it fails and leaves the cache as it was. After a play it caches the matrix, whose rows are the rolls `1..times` and each of whose rows sums to the number of dice. |

## Left out

- The probability distribution of a draw is not modelled. A draw is only "some face of the die", so neither the weighting nor the independence of draws is stated.
  - A face whose weight is 0 can still be drawn in the model.
- Dice.Die.Roll: the source writes the draws as a list comprehension; the model writes them as a loop with one nondeterministic choice per draw, since a function cannot make a choice.
- Weights are real numbers, not floating point.
  - There is no rounding in the weight total.
  - There are no infinite or NaN weights, so the source's "weights must be finite" error cannot arise.
  - Complex numbers, which pass the `numbers.Number` check, are not representable.
- Pandas details are not modelled:
  - the DataFrame and MultiIndex layout;
  - column names;
  - `np.int64` versus `float` versus `str` type reflection (the model records only text or number, as `Kind`);
  - `die_face_type`, beyond that kind.
- Tables.Lower: lower-cases only the ASCII letters A-Z, while Python's `str.lower` covers all of Unicode, where a character can lower to two (`'İ'` gives `'i'` followed by U+0307) and `'Σ'` depends on its position. This does not change which display values `ParseDisplay` accepts, because apart from A-Z only the Kelvin sign U+212A lowers to an ASCII letter, `'k'`, which appears in neither "wide" nor "narrow", and a character that lowers to several always adds a non-ASCII one.
- Dice.Die.Show: returns a snapshot of the faces and weights. The source returns the die's own frame, so a caller who changes that frame changes the die; this aliasing is not modelled.
- Stats.Combos: combos are compared as sets of faces. The source groups them by their `str()` rendering, whose element order follows set iteration order. The consequence: two rolls with the same face set can be counted as two combos when the set prints its elements in different orders. Set iteration order depends on insertion order when elements collide in the hash table. In CPython, for example, 1 and 9 hash to the same starting slot of a new set, so a roll whose dice show 1 then 9 renders as "{1, 9}" and one showing 9 then 1 as "{9, 1}". The model counts them as one combo (`Stats.ComboIgnoresDieOrder`), which is what grouping by face set is evidently meant to do.
- Stats.SortByOccurrences: the relative order of combos with equal counts is left open, as the source's sort leaves it to the library.
- Dice are shared by reference, as in the source: `Game.dice` holds `Die` objects, so a die may belong to several games, and a weight update through one of them is seen by the others. What is not modelled is the list itself being shared: the source stores the caller's list (`self.dice = dice`), so a caller who later appends to or removes from that list changes the game's dice, while the model's `dice` is a sequence fixed when the game is made.
- Concurrency is not modelled.
- The error messages' text is not modelled; each error is a constructor of `Values.Error` carrying the offending value.
- `setup.py` is packaging metadata only and is not part of this model.
- `tests/montecarlo_tests.py` is not part of this model. Some of its assertions depend on randomness, for example that three rolls of three dice give three distinct combos.
