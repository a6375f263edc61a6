# Pairwise sequence alignment: matrix fill and traceback

This project models the core of `sequence-alignment`, a small Python program
that aligns two DNA sequences. It implements Needleman–Wunsch (strategy
`"global"`) and Smith–Waterman (strategy `"local"`). The model covers four
parts:

- `DirectionalCell` (`src/directional_cell.py`): the three traceback flags of
  one cell, modelled as a value (`DirectionalCells`).
- `_create_score_and_directional_matrices`: the recurrence it fills in, as
  functions of the inputs (`Matrices`). The same fill is also modelled as
  methods writing two `array2`s in place (`SequenceAlignments`).
- `_traceback`: its last-in-first-out worklist search, as a function of the
  filled matrices (`TracebackSearch`). The same search is also modelled as a
  method with a `while` loop (`SequenceAlignments.Collect`).
- The `SequenceAlignment` object: a class whose methods are proved to leave
  exactly the matrices the recurrence defines and to return exactly the pairs
  the search function defines (`SequenceAlignments`).

Also included:

- the descending sort of the result (`PairOrder`);
- the scenarios of `tests/unit_tests.py` (`UnitCases`);
- two places where the code does not do what the algorithms promise
  (`Findings`; see below).

The model follows the code where the code and the documented behaviour of
the two algorithms part ways:

- Under `"local"` the first row and column still hold `i * gap`, so local
  entries can be negative.
- The traceback reads new symbols with a negative index (`seq1[-posY]`).
  It does not read `seq1[posY - 1]`.

Both are listed under "## Findings". Next to each as-written definition is a
corrected one with the intended property proved about it.

The substitution table is an input `map<char, map<char, int>>`; the CSV
loader is not part of this model. A pair missing from the table makes the
source raise: `TypeError` with the loader's table (the inner `defaultdict`'s
factory takes an argument it is never given), `KeyError` with a plain dict. The model makes such a pair a precondition (`Matrices.Covers`).

## Model

| member | source | states |
|---|---|---|
| DirectionalCells.NumDirections | src/directional_cell.py:10 | the count is at most 3; it is 0 exactly for the cell with no flag, and 3 exactly when all three flags are set |
| DirectionalCells.GetDirections | src/directional_cell.py:12-13 | the (up, diagonal, left) triple rebuilds the very cell it was read from |
| DirectionalCells.NumDirectionsCountsFlags | src/directional_cell.py:6-10 | `num_directions` is the number of distinct directions whose flag is set |
| DirectionalCells.ConstructorExamples | tests/unit_tests.py:13-27 | all flags give 3 and (T, T, T); only `up` gives 1 and (T, F, F); the default cell, every flag left at its default false, gives 0 and (F, F, F) |
| Matrices.Max3 | src/sequence_alignment.py:84 | the maximum of three candidates is at least each of them and equal to one of them |
| Matrices.IsLocal | src/sequence_alignment.py:85-86 | the comparison `self.strategy == 'local'` (also at line 114): only that exact name clamps cells at 0 and stops branches on a 0 cell |
| Matrices.Sub | src/sequence_alignment.py:79 | the lookup `self.alignments[seq1[i]][seq2[j]]`; its precondition `Covers` stands for the exception a missing pair raises (`TypeError` from the loader's inner default factory, which takes an argument it is never given; `KeyError` for a plain dict table) |
| Matrices.Best | src/sequence_alignment.py:84-86 | the value stored in an interior cell: `np.max` of the up, diagonal and left candidates, raised to 0 when the strategy is "local" |
| Matrices.UpScore | src/sequence_alignment.py:80 | the up candidate: the cell above plus the gap penalty |
| Matrices.DiagonalScore | src/sequence_alignment.py:79 | the diagonal candidate: the cell up-left plus the substitution score of seq1[i - 1] against seq2[j - 1] |
| Matrices.LeftScore | src/sequence_alignment.py:81 | the left candidate: the cell to the left plus the gap penalty |
| Matrices.Score | src/sequence_alignment.py:64-87 | `score_matrix[i, j]`: 0 at the origin, i * gap down the first column and j * gap along the first row (under both strategies), `Best` of the three candidates inside |
| Matrices.Dir | src/sequence_alignment.py:65-73 | a flag only ever points to a cell inside the matrix: up needs a row above, left a column to the left, diagonal both |
| Matrices.Boundary | src/sequence_alignment.py:64-73 | the first column holds i * gap with only the up flag, the first row j * gap with only the left flag, and the origin keeps 0 with no flag, under both strategies |
| Matrices.InteriorIsBest | src/sequence_alignment.py:79-87 | an interior cell is at least each of its three candidates and equals one of them, or 0 under the local strategy, where it is never negative |
| Matrices.FlagsMatchCandidates | src/sequence_alignment.py:89-93 | each flag is set if and only if its candidate equals the stored (possibly clamped) score |
| Matrices.FlaglessCells | src/sequence_alignment.py:84-93 | a flagless cell scores 0, and under the global strategy only the origin is flagless |
| Matrices.DiagonalWins | src/sequence_alignment.py:84-93 | a diagonal candidate strictly above the other two (and above 0 when local) is stored with the diagonal flag alone |
| Matrices.StepScore | src/sequence_alignment.py:79-93 | following a set flag loses exactly the gap (up, left) or the substitution score (diagonal) |
| Matrices.Expected | src/sequence_alignment.py:61-93 | the matrices the recurrence defines satisfy it in every cell |
| Matrices.FilledFromUnique | src/sequence_alignment.py:61-93 | the recurrence determines both matrices: two fills of the same inputs are equal |
| Matrices.FilledIsWellFormed | src/sequence_alignment.py:64-93 | the filled matrices are walkable: every flag points inward, and every flagless cell scores 0 (and under the global strategy is the origin) |
| Matrices.SingleMismatchExample | tests/unit_tests.py:52-58 | "A" against "T" with sub(A, T) = -1 and gap -2 scores -1 in cell (1, 1), reached diagonally |
| TracebackSearch.Terminal | src/sequence_alignment.py:114 | a branch stops at a cell with no flag, or, under the local strategy, at a cell scoring 0 |
| TracebackSearch.Symbol1 | src/sequence_alignment.py:123-126 | the symbol of seq1 recorded on leaving row posY: `seq1[-posY]`, that is seq1[len - posY], as written; seq1[posY - 1] when corrected |
| TracebackSearch.Symbol2 | src/sequence_alignment.py:121-126 | the symbol of seq2 recorded on leaving column posX: `seq2[-posX]`, that is seq2[len - posX], as written; seq2[posX - 1] when corrected |
| TracebackSearch.LeftChild | src/sequence_alignment.py:121-122 | the left branch: one column to the left, '-' appended to the first string and `seq2[-posX]` to the second |
| TracebackSearch.UpChild | src/sequence_alignment.py:123-124 | the up branch: one row up, `seq1[-posY]` appended to the first string and '-' to the second |
| TracebackSearch.DiagonalChild | src/sequence_alignment.py:125-126 | the diagonal branch: one row up and one column left, `seq1[-posY]` and `seq2[-posX]` appended |
| TracebackSearch.Search | src/sequence_alignment.py:108-126 | the `while` loop as a function: while states remain and fewer than n pairs are recorded, pop the last state, record its pair if terminal, otherwise push its left, up and diagonal branches in that order |
| TracebackSearch.ReportedScore | src/sequence_alignment.py:97-102 | `max_score`: the bottom-right cell under "global", the largest cell under "local" |
| TracebackSearch.KnownStrategy | src/sequence_alignment.py:97-105 | the two names the `match` accepts, "global" and "local"; any other name takes the `case _` branch that raises `AttributeError` |
| TracebackSearch.Found | src/sequence_alignment.py:97-126 | `solution_sequences`: the search run from the start states with no pair recorded |
| TracebackSearch.Children | src/sequence_alignment.py:119-126 | every branch pushed is inside the matrix and strictly closer to the origin |
| TracebackSearch.TreeSize | src/sequence_alignment.py:109-126 | every cell accounts for at least one pop, so the search's measure of remaining work is positive |
| TracebackSearch.ChildrenWeight | src/sequence_alignment.py:119-126 | replacing a popped state by the branches it pushes lowers the remaining work by exactly one, so the loop terminates |
| TracebackSearch.SearchStep | src/sequence_alignment.py:109-126 | one turn of the loop pops the last state, then records its pair if it is terminal and otherwise pushes its children, and the remaining work drops |
| TracebackSearch.PopTerminal | src/sequence_alignment.py:113-115 | popping a lone terminal state records its pair |
| TracebackSearch.PopOnlyChild | src/sequence_alignment.py:119-126 | popping a lone state with one flagged predecessor continues from that predecessor alone |
| TracebackSearch.RowMax | src/sequence_alignment.py:102 | the result is at least every entry of the row and is one of them |
| TracebackSearch.GridMax | src/sequence_alignment.py:102 | `np.max(score_matrix)` is at least every entry and is one of them |
| TracebackSearch.CellsInRow | src/sequence_alignment.py:103 | exactly the cells of one row holding the value, as empty start states, left to right |
| TracebackSearch.CellsScoring | src/sequence_alignment.py:103 | exactly the cells holding the value, as empty start states, in the row-major order of `np.argwhere` |
| TracebackSearch.InitialStates | src/sequence_alignment.py:97-103 | the worklist is never empty, and every start cell holds the reported score and starts with empty strings |
| TracebackSearch.SearchBound | src/sequence_alignment.py:108-115 | the search only adds pairs, and stops at n pairs: it never returns more than n once it started with n or fewer |
| TracebackSearch.FoundBound | src/sequence_alignment.py:108-109 | at most n pairs are collected, and none when n <= 0 |
| TracebackSearch.ConsumeOne | src/sequence_alignment.py:122-126 | as written, appending the symbol read through the negative index extends the consumed run, s[len - from .. len - to], by that symbol |
| TracebackSearch.StripPrepend | src/sequence_alignment.py:121-126 | a symbol put in front of a string is in front of its stripped form unless it is '-' |
| TracebackSearch.ConsumeFront | src/sequence_alignment.py:122-126 | corrected, putting the symbol stepped over, s[to - 1], in front extends the consumed run s[to..from] at its front |
| TracebackSearch.LeftChildOk | src/sequence_alignment.py:121-122 | a left step, as written or corrected, keeps the partial pair aligning the runs consumed so far |
| TracebackSearch.UpChildOk | src/sequence_alignment.py:123-124 | an up step, as written or corrected, keeps the partial pair aligning the runs consumed so far |
| TracebackSearch.DiagonalChildOk | src/sequence_alignment.py:125-126 | a diagonal step, as written or corrected, keeps the partial pair aligning the runs consumed so far |
| TracebackSearch.ChildrenOk | src/sequence_alignment.py:119-126 | under either orientation every pushed branch is still consistent |
| TracebackSearch.TerminalOk | src/sequence_alignment.py:113-115 | a terminal branch's pair is an alignment: of both whole sequences under the global strategy, of a run of each under the local one |
| TracebackSearch.GlobalTerminalOk | src/sequence_alignment.py:98-100 | a global branch that reached the origin has consumed both sequences whole |
| TracebackSearch.SearchAlignments | src/sequence_alignment.py:107-126 | from consistent branches, every pair the search records is an alignment, as written and corrected alike |
| TracebackSearch.InitialStatesOk | src/sequence_alignment.py:97-103 | the start states are consistent branches under either orientation |
| TracebackSearch.FoundAreAlignments | src/sequence_alignment.py:95-128 | every pair `_traceback` collects aligns the two sequences (whole under global, runs under local) |
| PairOrder.StrLess | src/sequence_alignment.py:128 | Python's `<` on str: the first differing code point decides, and a proper prefix comes first |
| PairOrder.PairLess | src/sequence_alignment.py:128 | Python's `<` on a pair of str: by the first string, then by the second |
| PairOrder.StrLessIrreflexive | src/sequence_alignment.py:128 | no string is below itself in Python's str order |
| PairOrder.StrLessTransitive | src/sequence_alignment.py:128 | Python's str order is transitive |
| PairOrder.StrLessTotal | src/sequence_alignment.py:128 | any two distinct strings are ordered one way or the other |
| PairOrder.PairLessIrreflexive | src/sequence_alignment.py:128 | the tuple order is irreflexive |
| PairOrder.PairLessTransitive | src/sequence_alignment.py:128 | the tuple order is transitive |
| PairOrder.PairLessTotal | src/sequence_alignment.py:128 | the tuple order is total |
| PairOrder.PairLessAsymmetric | src/sequence_alignment.py:128 | the tuple order is asymmetric |
| PairOrder.Greatest | src/sequence_alignment.py:128 | an element of the set above every other element |
| PairOrder.SortDescending | src/sequence_alignment.py:128 | `sorted(..., reverse=True)` of a set: each element exactly once, strictly descending |
| PairOrder.DescendingUnique | src/sequence_alignment.py:128 | two strictly descending lists with the same elements are equal, so the result does not depend on the set's iteration order |
| SequenceAlignments.GridOf | src/sequence_alignment.py:64-65 | the row-by-row view has the arrays' shape and holds every array entry |
| SequenceAlignments.InteriorCell | src/sequence_alignment.py:79-93 | the three candidates computed from finished neighbours give the recurrence's score and flags |
| SequenceAlignments.FillCell | src/sequence_alignment.py:79-93 | one inner-loop turn writes the recurrence's score and flags into cell (i + 1, j + 1) and changes no other cell |
| SequenceAlignments.FillFirstColumn | src/sequence_alignment.py:68-70 | the first edge loop writes i * gap and the up flag down column 0 below the origin and changes no other cell |
| SequenceAlignments.FillFirstRow | src/sequence_alignment.py:71-73 | the second edge loop writes j * gap and the left flag along row 0 right of the origin and changes no other cell |
| SequenceAlignments.FillEdges | src/sequence_alignment.py:67-73 | after the two edge loops the first row and column hold the recurrence's values, and every interior cell keeps the 0 and default cell it was allocated with |
| SequenceAlignments.FillInterior | src/sequence_alignment.py:75-93 | after the nested loop every cell holds the recurrence's score and flags |
| SequenceAlignments.PushChildren | src/sequence_alignment.py:119-126 | the else branch appends exactly the flagged children, in the order left, up, diagonal |
| SequenceAlignments.Collect | src/sequence_alignment.py:107-126 | the `while` loop returns exactly the pairs of the search function on the same matrices |
| SequenceAlignments.SequenceAlignment.constructor | src/sequence_alignment.py:31-38 | the object keeps the sequences, table, strategy and gap penalty it was given; the gap penalty defaults to -2 |
| SequenceAlignments.SequenceAlignment.CreateScoreAndDirectionalMatrices | src/sequence_alignment.py:61-93 | freshly allocated matrices whose every cell holds the recurrence's score and flags |
| SequenceAlignments.SequenceAlignment.Traceback | src/sequence_alignment.py:95-128 | an error exactly for an unknown strategy; otherwise the reported score, and the collected pairs each once, strictly descending |
| SequenceAlignments.SequenceAlignment.FilledSnapshot | src/sequence_alignment.py:61-93 | the filled arrays are the matrices of the recurrence, and a traceback can walk them |
| SequenceAlignments.SequenceAlignment.FindOptimalAlignments | src/sequence_alignment.py:40-44 | filled matrices; an error exactly for an unknown strategy; otherwise the reported score, at most n pairs (none for n <= 0), strictly descending, each an alignment of the sequences, depending on the inputs alone |
| Findings.PrependColumn | src/sequence_alignment.py:79-81 | putting a column in front of an aligned pair adds that column's gap or substitution score |
| Findings.LeftScoreOk | src/sequence_alignment.py:121-122 | corrected left step: the partial pair's score plus the cell's score stays equal to the start cell's score |
| Findings.UpScoreOk | src/sequence_alignment.py:123-124 | corrected up step keeps that balance |
| Findings.DiagonalScoreOk | src/sequence_alignment.py:125-126 | corrected diagonal step keeps that balance |
| Findings.ChildrenScoreOk | src/sequence_alignment.py:119-126 | every corrected branch pushed keeps that balance |
| Findings.TerminalScore | src/sequence_alignment.py:113-115 | a corrected branch ends on a cell scoring 0, so its pair scores the start cell's value |
| Findings.SearchScores | src/sequence_alignment.py:107-126 | with balanced branches, every pair the corrected search records scores the start value |
| Findings.IntendedPairsScoreReported | src/sequence_alignment.py:95-128 | corrected traceback: every pair returned scores exactly the reported optimum, under both strategies |
| Findings.MirrorGridIsFilled | src/sequence_alignment.py:61-93 | the literal matrices are what the fill builds for "AC" against "C" |
| Findings.MirrorOptimum | src/sequence_alignment.py:97-99 | for "AC" against "C" the reported global score is -1 |
| Findings.MirrorCells | src/sequence_alignment.py:97-100 | the search starts at (2, 1), whose only flag is diagonal; (1, 0) points up; the origin has none |
| Findings.SingleBranch | src/sequence_alignment.py:107-126 | a path of two single-flag steps to a terminal cell records exactly the pair built along it |
| Findings.MirrorAsWrittenChildren | src/sequence_alignment.py:119-126 | as written, (2, 1) pushes (1, 0, "A", "C"), which pushes (0, 0, "AC", "C-") |
| Findings.MirrorAsWritten | src/sequence_alignment.py:107-128 | as written, the search returns exactly ("AC", "C-") |
| Findings.MirrorIntendedChildren | src/sequence_alignment.py:119-126 | corrected, (2, 1) pushes (1, 0, "C", "C"), which pushes (0, 0, "AC", "-C") |
| Findings.MirrorIntended | src/sequence_alignment.py:107-128 | corrected, the search returns exactly ("AC", "-C") |
| Findings.MirrorPairScores | src/sequence_alignment.py:79-81 | ("AC", "C-") scores -3 and ("AC", "-C") scores -1 |
| Findings.MirroredSymbolsExample | src/sequence_alignment.py:122-126 | as written, the only pair returned scores -3 while -1 is reported; the corrected search returns a pair scoring -1 |
| Findings.EdgeGridIsFilled | src/sequence_alignment.py:61-93 | the literal matrices are what the fill builds for "TA" against "A", local |
| Findings.LocalEdgesExample | src/sequence_alignment.py:67-73 | as written, the local edge holds -4 and the reported local optimum is 0, although "A" against "A" is an alignment of two runs scoring 1 |
| Findings.EdgeOptimum | src/sequence_alignment.py:102 | the largest entry of those matrices is 0 |
| Findings.EdgeMatch | src/sequence_alignment.py:79 | ("A", "A") aligns seq1[1..2] with seq2[0..1] and scores 1 |
| Findings.LocalScore | src/sequence_alignment.py:67-87 | corrected local cell (0 on the edges, the best candidate or 0 inside): never negative |
| Findings.LocalScores | src/sequence_alignment.py:64-87 | the corrected matrix has the fill's shape and holds the corrected cell everywhere |
| Findings.AppendColumn | src/sequence_alignment.py:79-81 | appending a column to an aligned pair adds that column's score |
| Findings.StripNoGap | src/sequence_alignment.py:122-126 | a run without the gap symbol is unchanged by removing gaps |
| Findings.ColumnStep | src/sequence_alignment.py:79-86 | a corrected cell is at least the cell before an alignment's last column plus that column's score |
| Findings.LocalScoreBoundsAlignments | src/sequence_alignment.py:67-87 | corrected: every alignment of seq1[a..i] against seq2[b..j] scores at most the corrected cell (i, j) |
| Findings.LocalOptimumBoundsAlignments | src/sequence_alignment.py:101-103 | corrected: the local optimum is at least the score of every alignment of a run of each sequence |
| Findings.ScoreColumnStep | src/sequence_alignment.py:67-87 | a cell as written is at least the cell before an alignment's last column plus that column's score, on the edges as inside; only a column with '-' on both sides needs gap <= 0 |
| Findings.ScoreBoundsAlignments | src/sequence_alignment.py:64-87 | every alignment of seq1[..i] against seq2[..j] scores at most cell (i, j) as the fill writes it: an upper bound under either strategy, and with `ScoreAttained` exactly the optimum under the global strategy |
| Findings.ScoreAttained | src/sequence_alignment.py:64-92 | under the global strategy cell (i, j) is the score of some alignment of seq1[..i] against seq2[..j], the one the flags spell back to the origin |
| Findings.ExtendAttained | src/sequence_alignment.py:79-81 | extending an alignment of the prefixes before a step by that step's column aligns the prefixes up to (i, j) and adds the column's score |
| Findings.WholeScoreBound | src/sequence_alignment.py:64-87 | under the global strategy every alignment of the two whole sequences scores at most the bottom-right cell |
| Findings.GlobalScoreIsOptimal | src/sequence_alignment.py:97-99 | the global score reported is at least the score of every alignment of the two sequences |
| Findings.IntendedPairsAreAlignments | src/sequence_alignment.py:107-126 | corrected traceback: every pair returned is an alignment, of both whole sequences under the global strategy, of a run of each under the local one |
| Findings.IntendedGlobalPairsOptimal | src/sequence_alignment.py:95-128 | corrected traceback, global strategy: every pair returned is an alignment of the two sequences and scores at least as much as any alignment of them |
| Findings.LocalEdgesCorrected | src/sequence_alignment.py:67-73 | corrected, cell (2, 1) of the example scores the A/A match, 1 |
| UnitCases.SingleColumnCells | src/sequence_alignment.py:61-93 | one symbol against one, global, where matching beats two gaps: the corner holds the substitution score with only the diagonal flag |
| UnitCases.SingleColumn | src/sequence_alignment.py:95-128 | on those inputs the reported score is the substitution score and the one pair found is the two symbols, for every n >= 1 |
| UnitCases.SingleColumnChild | src/sequence_alignment.py:119-126 | the start state at (1, 1) pushes exactly the terminal state (0, 0) holding both symbols |
| UnitCases.SingleMismatchTest | tests/unit_tests.py:52-58 | through the class: the matrices are 2 x 2 and cell (1, 1) holds -1 |
| UnitCases.MatchInputs | tests/unit_tests.py:67-76 | "A" against "A" with sub(A, A) = 1: the reported score is 1 and the pair found is ("A", "A") |
| UnitCases.GlobalMatchTest | tests/unit_tests.py:67-76 | through the class: the fill followed by the traceback with n = 1, as the model's `FindOptimalAlignments` runs them, gives exactly [("A", "A")] and score 1, as the test asserts of `_traceback(1)` after the fill |

## Left out

- Loading the substitution table from CSV (`_load_substitution_matrix`, src/sequence_alignment.py:46-59): the table is an input map; parsing files is I/O.
- SequenceAlignments.SequenceAlignment.CreateScoreAndDirectionalMatrices: requires every looked-up pair to be in the table (`Covers`). On a missing pair the source raises partway through the fill; that exception is not modelled.
- SequenceAlignments.SequenceAlignment.Traceback: requires matrices that a fill has shaped and walked (`Walkable`). Calling `_traceback` before the fill makes the source raise; that is not modelled.
- `_print_and_save_solutions` (src/sequence_alignment.py:130-148) and the printing and saving steps of `find_optimal_alignments`: console and file output.
- SequenceAlignments.SequenceAlignment.FindOptimalAlignments: returns the sorted pairs and the score that the source passes to `_print_and_save_solutions`; the source method itself returns None and only prints and saves them.
- src/parser.py, needleman_wunsch.py and smith_waterman.py: command-line parsing and entry points.
- numpy: the matrices are `array2<int>` with unbounded integers, so `int64` overflow of very long sequences is not modelled; `np.full` sharing one `DirectionalCell` object is harmless because cells are never mutated, and cells are values here.
- The traceback reads a value snapshot of the two arrays; the arrays are not changed while it runs.
- Findings.ScoreBoundsAlignments: assumes a gap penalty that is not a bonus (gap <= 0). Only a column with '-' on both sides needs it: such a column keeps both prefixes and adds one gap penalty, so with a positive penalty repeating it would raise an alignment's score without bound; a column with one gap never outscores a step of the recurrence, whatever the penalty's sign (Findings.ScoreColumnStep asks gap <= 0 of the '-'/'-' column alone).
- Findings.WholeScoreBound: assumes gap <= 0, for the '-'/'-' columns as for Findings.ScoreBoundsAlignments, and that neither sequence contains '-', so a '-' in a pair always stands for a gap.
- Findings.GlobalScoreIsOptimal: assumes gap <= 0, for the '-'/'-' columns as for Findings.ScoreBoundsAlignments, and that neither sequence contains '-'.
- Findings.IntendedGlobalPairsOptimal: assumes gap <= 0, for the '-'/'-' columns as for Findings.ScoreBoundsAlignments, and that neither sequence contains '-'.
- Findings.LocalScoreBoundsAlignments: assumes gap <= 0. Besides the '-'/'-' columns, the corrected edges hold 0, so with a positive penalty one gap column from an edge cell would score more than the edge cell next to it holds.
- Findings.LocalOptimumBoundsAlignments: assumes gap <= 0, as Findings.LocalScoreBoundsAlignments does, and that neither sequence contains '-'.
- Findings.IntendedPairsScoreReported: assumes neither sequence contains '-', so a diagonal step always records two symbols and is scored by the substitution table.
- Findings.ScoreAttained: assumes neither sequence contains '-', so the symbols it records strip back to the prefixes.
- Findings.ScoreAttained: stated for the global strategy only; under the local strategy as written a cell clamped to 0 need not be the score of any alignment of the two prefixes ("T" against "A" with sub(T, A) = -1 clamps cell (1, 1) to 0, while every alignment of them scores less).

## Findings

| source | as written | input that shows it | evidently intended | confidence | as-written member | corrected member |
|---|---|---|---|---|---|---|
| src/sequence_alignment.py:122-126 | a step out of row posY appends `seq1[-posY]`, the symbol counted from the end, and likewise for seq2; the path was scored with seq1[posY - 1] | "AC" against "C", global, gap -2, sub(A, C) = -1, sub(C, C) = 1: the reported score is -1 but the only pair returned, ("AC", "C-"), scores -3 | record seq1[posY - 1] and seq2[posX - 1] and put each new column in front, so every pair returned scores the reported optimum, and every pair returned is an alignment (Findings.IntendedPairsAreAlignments) that under the global strategy no alignment outscores (Findings.IntendedGlobalPairsOptimal) | not executed | Findings.MirroredSymbolsExample | Findings.IntendedPairsScoreReported |
| src/sequence_alignment.py:67-73 | under the local strategy the first row and column still hold i * gap, so local cells can stay negative and prefixes cost | "TA" against "A", local, gap -2, sub(T, A) = -1, sub(A, A) = 1: the edge holds -4 and the optimum reported is 0, yet ("A", "A") aligns a run of each and scores 1 | zero the edges under the local strategy (Smith–Waterman), so the largest cell bounds the score of every alignment of two runs | not executed | Findings.LocalEdgesExample | Findings.LocalOptimumBoundsAlignments |
