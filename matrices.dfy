/** What `_create_score_and_directional_matrices` stores in each cell
    (src/sequence_alignment.py:61-93), written as recurrences over the inputs. */
module Matrices {
  import opened DirectionalCells

  /** The inputs of one alignment: the two sequences, the substitution table
      (`alignments[a][b]`), the gap penalty and the strategy name. */
  datatype Problem = Problem(seq1: string, seq2: string, table: map<char, map<char, int>>, gap: int, strategy: string)

  /** Only the name "local" switches on clamping and zero-score termination. */
  predicate IsLocal(p: Problem)
  {
    p.strategy == "local"
  }

  predicate HasPair(table: map<char, map<char, int>>, a: char, b: char)
  {
    a in table && b in table[a]
  }

  /** Every pair of symbols the fill looks up is in the table. */
  predicate Covers(p: Problem)
  {
    forall i, j :: 0 <= i < |p.seq1| && 0 <= j < |p.seq2| ==> HasPair(p.table, p.seq1[i], p.seq2[j])
  }

  predicate InGrid(p: Problem, i: int, j: int)
  {
    0 <= i <= |p.seq1| && 0 <= j <= |p.seq2|
  }

  function Max(a: int, b: int): int
  {
    if a < b then b else a
  }

  /** `np.max([up, diagonal, left])`. */
  function Max3(a: int, b: int, c: int): (r: int)
    ensures r >= a && r >= b && r >= c
    ensures r == a || r == b || r == c
  {
    Max(Max(a, b), c)
  }

  /** Substitution score of seq1[i] against seq2[j]. */
  function Sub(p: Problem, i: nat, j: nat): int
    requires Covers(p) && i < |p.seq1| && j < |p.seq2|
  {
    assert HasPair(p.table, p.seq1[i], p.seq2[j]);
    p.table[p.seq1[i]][p.seq2[j]]
  }

  /** Candidate for interior cell (i, j) coming from the cell above. */
  function UpScore(p: Problem, i: nat, j: nat): int
    requires Covers(p) && InGrid(p, i, j) && i > 0 && j > 0
    decreases i + j, 0
  {
    Score(p, i - 1, j) + p.gap
  }

  /** Candidate for interior cell (i, j) coming from the diagonal cell. */
  function DiagonalScore(p: Problem, i: nat, j: nat): int
    requires Covers(p) && InGrid(p, i, j) && i > 0 && j > 0
    decreases i + j, 0
  {
    Score(p, i - 1, j - 1) + Sub(p, i - 1, j - 1)
  }

  /** Candidate for interior cell (i, j) coming from the cell to the left. */
  function LeftScore(p: Problem, i: nat, j: nat): int
    requires Covers(p) && InGrid(p, i, j) && i > 0 && j > 0
    decreases i + j, 0
  {
    Score(p, i, j - 1) + p.gap
  }

  /** The best candidate, raised to 0 under the local strategy. */
  function Best(p: Problem, up: int, diagonal: int, left: int): int
  {
    var best := Max3(up, diagonal, left);
    if IsLocal(p) then Max(best, 0) else best
  }

  /** score_matrix[i, j]. The edges hold i * gap whatever the strategy. */
  function Score(p: Problem, i: nat, j: nat): int
    requires Covers(p) && InGrid(p, i, j)
    decreases i + j, 1
  {
    if i == 0 then j * p.gap
    else if j == 0 then i * p.gap
    else Best(p, UpScore(p, i, j), DiagonalScore(p, i, j), LeftScore(p, i, j))
  }

  /** directional_matrix[i, j]: the origin keeps the default cell, the first
      column points up, the first row points left, and an interior cell flags
      every candidate equal to the stored score. */
  function Dir(p: Problem, i: nat, j: nat): (d: DirectionalCell)
    requires Covers(p) && InGrid(p, i, j)
    ensures d.up ==> i > 0
    ensures d.left ==> j > 0
    ensures d.diagonal ==> i > 0 && j > 0
  {
    if i == 0 && j == 0 then Default
    else if j == 0 then DirectionalCell(up := true)
    else if i == 0 then DirectionalCell(left := true)
    else
      var s := Score(p, i, j);
      DirectionalCell(UpScore(p, i, j) == s, DiagonalScore(p, i, j) == s, LeftScore(p, i, j) == s)
  }

  /** The edges: i * gap down the first column with only the up flag, j * gap
      along the first row with only the left flag, no flag at the origin;
      the same for both strategies. */
  lemma Boundary(p: Problem, i: nat, j: nat)
    requires Covers(p) && InGrid(p, i, j) && (i == 0 || j == 0)
    ensures Score(p, i, j) == (i + j) * p.gap
    ensures i == 0 && j == 0 ==> NumDirections(Dir(p, i, j)) == 0
    ensures i > 0 ==> Flags(Dir(p, i, j)) == {Up}
    ensures j > 0 ==> Flags(Dir(p, i, j)) == {Left}
  {
  }

  /** An interior cell is at least every candidate; a global cell is one of
      them, and a local cell is one of them or 0, and never negative. */
  lemma InteriorIsBest(p: Problem, i: nat, j: nat)
    requires Covers(p) && InGrid(p, i, j) && i > 0 && j > 0
    ensures Score(p, i, j) >= UpScore(p, i, j)
    ensures Score(p, i, j) >= DiagonalScore(p, i, j)
    ensures Score(p, i, j) >= LeftScore(p, i, j)
    ensures IsLocal(p) ==> Score(p, i, j) >= 0
    ensures Score(p, i, j) == UpScore(p, i, j) || Score(p, i, j) == DiagonalScore(p, i, j)
         || Score(p, i, j) == LeftScore(p, i, j) || (IsLocal(p) && Score(p, i, j) == 0)
  {
  }

  /** A flag is set exactly when its candidate equals the stored (possibly
      clamped) score. */
  lemma FlagsMatchCandidates(p: Problem, i: nat, j: nat)
    requires Covers(p) && InGrid(p, i, j) && i > 0 && j > 0
    ensures Dir(p, i, j).up <==> UpScore(p, i, j) == Score(p, i, j)
    ensures Dir(p, i, j).diagonal <==> DiagonalScore(p, i, j) == Score(p, i, j)
    ensures Dir(p, i, j).left <==> LeftScore(p, i, j) == Score(p, i, j)
  {
  }

  /** Under the global strategy only the origin has no flag, so a traceback
      can stop nowhere else; under the local strategy a flagless cell scores 0. */
  lemma FlaglessCells(p: Problem, i: nat, j: nat)
    requires Covers(p) && InGrid(p, i, j) && NumDirections(Dir(p, i, j)) == 0
    ensures !IsLocal(p) ==> i == 0 && j == 0
    ensures Score(p, i, j) == 0
  {
    if i > 0 && j > 0 {
      InteriorIsBest(p, i, j);
    }
  }

  /** A diagonal candidate strictly above the other two (and above 0 under
      the local strategy) is stored, with the diagonal flag alone. */
  lemma DiagonalWins(p: Problem, i: nat, j: nat)
    requires Covers(p) && InGrid(p, i, j) && i > 0 && j > 0
    requires UpScore(p, i, j) < DiagonalScore(p, i, j) && LeftScore(p, i, j) < DiagonalScore(p, i, j)
    requires IsLocal(p) ==> DiagonalScore(p, i, j) > 0
    ensures Score(p, i, j) == DiagonalScore(p, i, j)
    ensures Dir(p, i, j) == DirectionalCell(diagonal := true)
  {
  }

  /** Following a flag loses exactly the score of the step taken: the gap for
      up and left, the substitution score for the diagonal. */
  lemma StepScore(p: Problem, i: nat, j: nat)
    requires Covers(p) && InGrid(p, i, j)
    ensures Dir(p, i, j).up ==> Score(p, i, j) == Score(p, i - 1, j) + p.gap
    ensures Dir(p, i, j).left ==> Score(p, i, j) == Score(p, i, j - 1) + p.gap
    ensures Dir(p, i, j).diagonal ==> Score(p, i, j) == Score(p, i - 1, j - 1) + Sub(p, i - 1, j - 1)
  {
    if i > 0 && j == 0 {
      assert Score(p, i, j) == i * p.gap;
      assert Score(p, i - 1, j) == (i - 1) * p.gap;
    } else if i == 0 && j > 0 {
      assert Score(p, i, j) == j * p.gap;
      assert Score(p, i, j - 1) == (j - 1) * p.gap;
    }
  }

  /** The two matrices as values, row by row: `score_matrix` and
      `directional_matrix`. */
  datatype Grid = Grid(scores: seq<seq<int>>, dirs: seq<seq<DirectionalCell>>)

  /** Both matrices have `rows` rows of `cols` cells. */
  predicate Shaped(g: Grid, rows: nat, cols: nat)
  {
    |g.scores| == rows && |g.dirs| == rows
    && forall i :: 0 <= i < rows ==> |g.scores[i]| == cols && |g.dirs[i]| == cols
  }

  /** Every flag of cell (i, j) points to a cell of the matrix. */
  predicate FlagsInward(d: DirectionalCell, i: nat, j: nat)
  {
    (d.up ==> i > 0) && (d.left ==> j > 0) && (d.diagonal ==> i > 0 && j > 0)
  }

  /** Matrices a traceback can walk: shaped after the two sequences, every
      flag pointing inward. */
  predicate WellFormed(p: Problem, g: Grid)
  {
    Shaped(g, |p.seq1| + 1, |p.seq2| + 1)
    && forall i, j :: 0 <= i <= |p.seq1| && 0 <= j <= |p.seq2| ==> FlagsInward(g.dirs[i][j], i, j)
  }

  /** The matrices the fill leaves behind: every cell holds the recurrence. */
  ghost predicate FilledFrom(p: Problem, g: Grid)
  {
    Covers(p) && Shaped(g, |p.seq1| + 1, |p.seq2| + 1)
    && forall i, j :: InGrid(p, i, j) ==> g.scores[i][j] == Score(p, i, j) && g.dirs[i][j] == Dir(p, i, j)
  }

  /** The matrices the recurrence defines, as one value. */
  function Expected(p: Problem): (g: Grid)
    requires Covers(p)
    ensures FilledFrom(p, g)
  {
    Grid(seq(|p.seq1| + 1, i requires 0 <= i <= |p.seq1| => seq(|p.seq2| + 1, j requires 0 <= j <= |p.seq2| => Score(p, i, j))),
         seq(|p.seq1| + 1, i requires 0 <= i <= |p.seq1| => seq(|p.seq2| + 1, j requires 0 <= j <= |p.seq2| => Dir(p, i, j))))
  }

  /** The recurrence pins down both matrices: two fills of the same inputs
      are equal. */
  lemma FilledFromUnique(p: Problem, g: Grid, h: Grid)
    requires FilledFrom(p, g) && FilledFrom(p, h)
    ensures g == h
  {
    forall i | 0 <= i <= |p.seq1|
      ensures g.scores[i] == h.scores[i] && g.dirs[i] == h.dirs[i]
    {
      assert forall j :: 0 <= j <= |p.seq2| ==> InGrid(p, i, j);
    }
  }

  /** A flagless cell scores 0, and under the global strategy only the
      origin is flagless. */
  predicate EndsAtZero(p: Problem, g: Grid)
    requires Shaped(g, |p.seq1| + 1, |p.seq2| + 1)
  {
    forall i, j :: 0 <= i <= |p.seq1| && 0 <= j <= |p.seq2| && NumDirections(g.dirs[i][j]) == 0 ==>
      g.scores[i][j] == 0 && (!IsLocal(p) ==> i == 0 && j == 0)
  }

  /** What the traceback relies on holds of the filled matrices: every flag
      points inward, a flagless cell scores 0, and under the global strategy
      the origin is the only flagless cell. */
  lemma FilledIsWellFormed(p: Problem, g: Grid)
    requires FilledFrom(p, g)
    ensures WellFormed(p, g) && EndsAtZero(p, g)
  {
    forall i, j | InGrid(p, i, j)
      ensures FlagsInward(g.dirs[i][j], i, j)
      ensures NumDirections(g.dirs[i][j]) == 0 ==> g.scores[i][j] == 0 && (!IsLocal(p) ==> i == 0 && j == 0)
    {
      if NumDirections(Dir(p, i, j)) == 0 {
        FlaglessCells(p, i, j);
      }
    }
  }

  /** The test case: "A" against "T" with sub(A, T) = -1 and gap -2 stores -1
      in cell (1, 1) of a 2 x 2 matrix. */
  lemma SingleMismatchExample()
    ensures var p := Problem("A", "T", map['A' := map['A' := 1, 'T' := -1], 'T' := map['A' := -1, 'T' := 1]], -2, "global");
      Covers(p) && Score(p, 1, 1) == -1 && Dir(p, 1, 1) == DirectionalCell(diagonal := true)
  {
    var p := Problem("A", "T", map['A' := map['A' := 1, 'T' := -1], 'T' := map['A' := -1, 'T' := 1]], -2, "global");
    assert Covers(p);
    assert Score(p, 0, 0) == 0;
    assert Score(p, 0, 1) == -2 && Score(p, 1, 0) == -2;
    assert Sub(p, 0, 0) == -1;
  }
}
