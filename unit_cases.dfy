/** The scenarios of `tests/unit_tests.py`, stated through the class
    `SequenceAlignment` and proved to give the values the tests expect. */
module UnitCases {
  import opened DirectionalCells
  import opened Matrices
  import opened PairOrder
  import opened TracebackSearch
  import opened SequenceAlignments

  /** One symbol against one under the global strategy, where matching them
      beats two gaps: the fill stores the substitution score in the corner
      with only the diagonal flag. */
  lemma SingleColumnCells(p: Problem)
    requires Covers(p) && |p.seq1| == 1 && |p.seq2| == 1 && p.strategy == "global"
    requires Sub(p, 0, 0) > 2 * p.gap
    ensures WellFormed(p, Expected(p))
    ensures Expected(p).scores[1][1] == Sub(p, 0, 0)
    ensures Expected(p).dirs[1][1] == DirectionalCell(diagonal := true)
    ensures Expected(p).dirs[0][0] == Default
  {
    FilledIsWellFormed(p, Expected(p));
    Boundary(p, 0, 0);
    Boundary(p, 0, 1);
    Boundary(p, 1, 0);
    DiagonalWins(p, 1, 1);
    assert InGrid(p, 1, 1) && InGrid(p, 0, 0);
  }

  /** On the same inputs the traceback takes the diagonal and finds the two
      symbols aligned, whatever the bound n >= 1. */
  lemma SingleColumn(p: Problem, n: int)
    requires Covers(p) && |p.seq1| == 1 && |p.seq2| == 1 && p.strategy == "global" && n >= 1
    requires Sub(p, 0, 0) > 2 * p.gap
    ensures WellFormed(p, Expected(p)) && KnownStrategy(p)
    ensures ReportedScore(p, Expected(p)) == Sub(p, 0, 0)
    ensures Found(p, Expected(p), n) == {(p.seq1, p.seq2)}
  {
    var g := Expected(p);
    var s0, s1 := State(1, 1, "", ""), State(0, 0, p.seq1, p.seq2);
    SingleColumnChild(p);
    PopOnlyChild(p, g, AsWritten, s0, s1, {}, n);
    PopTerminal(p, g, AsWritten, s1, {}, n);
  }

  /** The start state of `SingleColumn` and its one child. */
  lemma SingleColumnChild(p: Problem)
    requires Covers(p) && |p.seq1| == 1 && |p.seq2| == 1 && p.strategy == "global"
    requires Sub(p, 0, 0) > 2 * p.gap
    ensures var g, s0, s1 := Expected(p), State(1, 1, "", ""), State(0, 0, p.seq1, p.seq2);
      WellFormed(p, g) && KnownStrategy(p) && ReportedScore(p, g) == Sub(p, 0, 0)
      && InitialStates(p, g) == [s0] && StateInGrid(p, s0) && StateInGrid(p, s1)
      && !Terminal(p, g, s0) && Children(p, g, AsWritten, s0) == [s1] && Terminal(p, g, s1)
  {
    var g := Expected(p);
    SingleColumnCells(p);
    var s0, s1 := State(1, 1, "", ""), State(0, 0, p.seq1, p.seq2);
    ChildrenByFlag(p, g, AsWritten, s0);
    assert DiagonalChild(p, AsWritten, s0) == s1 by {
      assert p.seq1 == [p.seq1[0]] && p.seq2 == [p.seq2[0]];
    }
  }

  /** `test_create_score_and_directional_matrices`: "A" against "T" gives
      2 x 2 matrices whose cell (1, 1) holds -1. */
  method SingleMismatchTest() returns (rows: int, cols: int, cell: int)
    ensures rows == 2 && cols == 2 && cell == -1
  {
    var table := map['A' := map['A' := 1, 'T' := -1], 'T' := map['A' := -1, 'T' := 1]];
    var a := new SequenceAlignment("A", "T", table, "global", -2);
    SingleMismatchExample();
    a.CreateScoreAndDirectionalMatrices();
    rows, cols, cell := a.scoreMatrix.Length0, a.scoreMatrix.Length1, a.scoreMatrix[1, 1];
  }

  /** The inputs of `test_find_optimal_alignments_global`: the one pair
      found is ("A", "A"), and the score reported is 1. */
  lemma MatchInputs(p: Problem)
    requires p == Problem("A", "A", map['A' := map['A' := 1]], -2, "global")
    ensures Covers(p) && KnownStrategy(p) && WellFormed(p, Expected(p))
    ensures ReportedScore(p, Expected(p)) == 1 && Found(p, Expected(p), 1) == {("A", "A")}
  {
    assert Covers(p) && Sub(p, 0, 0) == 1;
    SingleColumn(p, 1);
  }

  /** `test_find_optimal_alignments_global`: "A" against "A" with n = 1
      gives exactly [("A", "A")] and score 1. */
  method GlobalMatchTest() returns (r: Result<(seq<Pair>, int)>)
    ensures r == Ok(([("A", "A")], 1))
  {
    var a := new SequenceAlignment("A", "A", map['A' := map['A' := 1]], "global", -2);
    MatchInputs(a.Inputs());
    r := a.FindOptimalAlignments(1);
    OnlyElement(r.value.0, Found(a.Inputs(), Expected(a.Inputs()), 1), ("A", "A"));
  }

  /** A list of at most one element whose elements are exactly those of {x}
      is [x]. */
  lemma OnlyElement(s: seq<Pair>, found: set<Pair>, x: Pair)
    requires |s| <= 1 && (forall y :: y in s <==> y in found) && found == {x}
    ensures s == [x]
  {
    assert x in s;
  }
}
