/** Two places where `src/sequence_alignment.py` does not do what the
    alignment algorithms it implements promise. Each has a concrete input on
    which the code as written goes wrong, and a corrected definition with the
    intended property proved about it. */
module Findings {
  import opened DirectionalCells
  import opened Matrices
  import opened PairOrder
  import opened TracebackSearch

  // ---------------------------------------------------------------------
  // Scoring a returned pair column by column.
  // ---------------------------------------------------------------------

  /** Neither sequence contains the gap symbol, so a '-' in a returned pair
      always stands for a gap. */
  predicate NoGapSymbol(p: Problem)
  {
    '-' !in p.seq1 && '-' !in p.seq2
  }

  predicate ColumnScorable(p: Problem, a: char, b: char)
  {
    a == '-' || b == '-' || HasPair(p.table, a, b)
  }

  /** One column of an alignment: the gap penalty against a gap, the
      substitution score otherwise. */
  function ColumnScore(p: Problem, a: char, b: char): int
    requires ColumnScorable(p, a, b)
  {
    if a == '-' || b == '-' then p.gap else p.table[a][b]
  }

  predicate Scorable(p: Problem, s1: string, s2: string)
  {
    |s1| == |s2| && forall k :: 0 <= k < |s1| ==> ColumnScorable(p, s1[k], s2[k])
  }

  /** The score of an aligned pair: the sum of its column scores. */
  function PairScore(p: Problem, s1: string, s2: string): int
    requires Scorable(p, s1, s2)
    decreases |s1|
  {
    if |s1| == 0 then 0 else ColumnScore(p, s1[0], s2[0]) + PairScore(p, s1[1..], s2[1..])
  }

  /** Putting a column in front adds its score. */
  lemma PrependColumn(p: Problem, a: char, b: char, s1: string, s2: string)
    requires Scorable(p, s1, s2) && ColumnScorable(p, a, b)
    ensures Scorable(p, [a] + s1, [b] + s2)
    ensures PairScore(p, [a] + s1, [b] + s2) == ColumnScore(p, a, b) + PairScore(p, s1, s2)
  {
    assert ([a] + s1)[1..] == s1 && ([b] + s2)[1..] == s2;
  }

  // ---------------------------------------------------------------------
  // Finding A: the traceback reads the symbols from the wrong end.
  // ---------------------------------------------------------------------

  /** A pending branch under the corrected orientation: its partial pair
      scores exactly what the start cell scores minus what is left at the
      current cell. */
  predicate ScoreOk(p: Problem, g: Grid, st: State, v: int)
    requires WellFormed(p, g)
  {
    StateInGrid(p, st) && Scorable(p, st.s1, st.s2)
    && PairScore(p, st.s1, st.s2) + g.scores[st.posY][st.posX] == v
  }

  lemma LeftScoreOk(p: Problem, g: Grid, st: State, v: int)
    requires FilledFrom(p, g) && ScoreOk(p, g, st, v) && st.posX >= 1 && g.dirs[st.posY][st.posX].left
    ensures ScoreOk(p, g, LeftChild(p, Intended, st), v)
  {
    StepScore(p, st.posY, st.posX);
    PrependColumn(p, '-', p.seq2[st.posX - 1], st.s1, st.s2);
  }

  lemma UpScoreOk(p: Problem, g: Grid, st: State, v: int)
    requires FilledFrom(p, g) && ScoreOk(p, g, st, v) && st.posY >= 1 && g.dirs[st.posY][st.posX].up
    ensures ScoreOk(p, g, UpChild(p, Intended, st), v)
  {
    StepScore(p, st.posY, st.posX);
    PrependColumn(p, p.seq1[st.posY - 1], '-', st.s1, st.s2);
  }

  lemma DiagonalScoreOk(p: Problem, g: Grid, st: State, v: int)
    requires FilledFrom(p, g) && NoGapSymbol(p) && ScoreOk(p, g, st, v)
    requires st.posY >= 1 && st.posX >= 1 && g.dirs[st.posY][st.posX].diagonal
    ensures ScoreOk(p, g, DiagonalChild(p, Intended, st), v)
  {
    var a, b := p.seq1[st.posY - 1], p.seq2[st.posX - 1];
    StepScore(p, st.posY, st.posX);
    assert a != '-' && b != '-' && HasPair(p.table, a, b);
    PrependColumn(p, a, b, st.s1, st.s2);
  }

  /** Every corrected step keeps the partial pair's score in balance with
      the cell it stands on. */
  lemma ChildrenScoreOk(p: Problem, g: Grid, st: State, v: int)
    requires FilledFrom(p, g) && NoGapSymbol(p) && ScoreOk(p, g, st, v)
    ensures WellFormed(p, g)
    ensures forall c :: c in Children(p, g, Intended, st) ==> ScoreOk(p, g, c, v)
  {
    FilledIsWellFormed(p, g);
    var d := g.dirs[st.posY][st.posX];
    assert FlagsInward(d, st.posY, st.posX);
    forall c | c in Children(p, g, Intended, st)
      ensures ScoreOk(p, g, c, v)
    {
      if d.left && c == LeftChild(p, Intended, st) {
        LeftScoreOk(p, g, st, v);
      } else if d.up && c == UpChild(p, Intended, st) {
        UpScoreOk(p, g, st, v);
      } else {
        assert d.diagonal && c == DiagonalChild(p, Intended, st);
        DiagonalScoreOk(p, g, st, v);
      }
    }
  }

  /** A branch ends on a cell scoring 0, so its pair scores v. */
  lemma TerminalScore(p: Problem, g: Grid, st: State, v: int)
    requires FilledFrom(p, g) && WellFormed(p, g) && ScoreOk(p, g, st, v) && Terminal(p, g, st)
    ensures PairScore(p, st.s1, st.s2) == v
  {
    FilledIsWellFormed(p, g);
  }

  lemma {:induction false} SearchScores(p: Problem, g: Grid, states: seq<State>, sols: set<Pair>, n: int, v: int)
    requires FilledFrom(p, g) && NoGapSymbol(p) && WellFormed(p, g) && AllInGrid(p, states)
    requires forall k :: 0 <= k < |states| ==> ScoreOk(p, g, states[k], v)
    requires forall pr :: pr in sols ==> Scorable(p, pr.0, pr.1) && PairScore(p, pr.0, pr.1) == v
    ensures forall pr :: pr in Search(p, g, Intended, states, sols, n) ==> Scorable(p, pr.0, pr.1) && PairScore(p, pr.0, pr.1) == v
    decreases Weight(p, g, states)
  {
    if |states| == 0 || |sols| >= n {
    } else {
      var st := states[|states| - 1];
      var rest := states[..|states| - 1];
      if Terminal(p, g, st) {
        TerminalScore(p, g, st, v);
        SearchScores(p, g, rest, sols + {(st.s1, st.s2)}, n, v);
      } else {
        var c := Children(p, g, Intended, st);
        ChildrenWeight(p, g, Intended, st);
        WeightAppend(p, g, rest, c);
        ChildrenScoreOk(p, g, st, v);
        forall k | 0 <= k < |rest + c|
          ensures ScoreOk(p, g, (rest + c)[k], v)
        {
          if k < |rest| {
            assert (rest + c)[k] == states[k];
          } else {
            assert (rest + c)[k] in c;
          }
        }
        SearchScores(p, g, rest + c, sols, n, v);
      }
    }
  }

  /** Corrected traceback: reading seq1[posY - 1] and seq2[posX - 1] and
      putting each new column in front, every returned pair scores exactly
      the reported optimum, under both strategies. */
  lemma IntendedPairsScoreReported(p: Problem, g: Grid, n: int)
    requires FilledFrom(p, g) && NoGapSymbol(p) && KnownStrategy(p)
    ensures WellFormed(p, g)
    ensures forall pr :: pr in Search(p, g, Intended, InitialStates(p, g), {}, n) ==>
      Scorable(p, pr.0, pr.1) && PairScore(p, pr.0, pr.1) == ReportedScore(p, g)
  {
    FilledIsWellFormed(p, g);
    var init := InitialStates(p, g);
    forall k | 0 <= k < |init|
      ensures ScoreOk(p, g, init[k], ReportedScore(p, g))
    {
    }
    SearchScores(p, g, init, {}, n, ReportedScore(p, g));
  }

  /** The inputs showing Finding A: "AC" against "C", global, gap -2. */
  function MirrorProblem(): Problem
  {
    Problem("AC", "C", map['A' := map['C' := -1], 'C' := map['C' := 1]], -2, "global")
  }

  /** The matrices the fill builds for `MirrorProblem`. */
  function MirrorGrid(): Grid
  {
    var none, up, diagonal, left := Default, DirectionalCell(up := true), DirectionalCell(diagonal := true), DirectionalCell(left := true);
    Grid([[0, -2], [-2, -1], [-4, -1]], [[none, left], [up, diagonal], [up, diagonal]])
  }

  lemma MirrorGridIsFilled()
    ensures FilledFrom(MirrorProblem(), MirrorGrid())
  {
    var p := MirrorProblem();
    assert Covers(p);
    assert Score(p, 1, 1) == -1;
    assert Score(p, 2, 1) == -1;
  }

  /** `MirrorGrid` is what the fill builds, and the score reported for it
      is the bottom-right cell, -1. */
  lemma MirrorOptimum()
    ensures var p, g := MirrorProblem(), MirrorGrid();
      Covers(p) && g == Expected(p) && WellFormed(p, g) && KnownStrategy(p) && ReportedScore(p, g) == -1
  {
    MirrorGridIsFilled();
    FilledIsWellFormed(MirrorProblem(), MirrorGrid());
    FilledFromUnique(MirrorProblem(), MirrorGrid(), Expected(MirrorProblem()));
  }

  /** The start state of `MirrorProblem` and the one flag of each cell on
      its way back to the origin. */
  lemma MirrorCells()
    ensures var p, g := MirrorProblem(), MirrorGrid();
      WellFormed(p, g) && KnownStrategy(p)
      && InitialStates(p, g) == [State(2, 1, "", "")]
      && g.dirs[2][1] == DirectionalCell(diagonal := true)
      && g.dirs[1][0] == DirectionalCell(up := true)
      && g.dirs[0][0] == Default
  {
    MirrorGridIsFilled();
    FilledIsWellFormed(MirrorProblem(), MirrorGrid());
  }

  /** A traceback along a single branch: two steps with one child each,
      then a final cell, record exactly the pair built on the way. */
  lemma SingleBranch(p: Problem, g: Grid, o: Orientation, s0: State, s1: State, s2: State, n: int)
    requires WellFormed(p, g) && StateInGrid(p, s0) && StateInGrid(p, s1) && StateInGrid(p, s2) && n >= 1
    requires !Terminal(p, g, s0) && Children(p, g, o, s0) == [s1]
    requires !Terminal(p, g, s1) && Children(p, g, o, s1) == [s2]
    requires Terminal(p, g, s2)
    ensures Search(p, g, o, [s0], {}, n) == {(s2.s1, s2.s2)}
  {
    PopOnlyChild(p, g, o, s0, s1, {}, n);
    PopOnlyChild(p, g, o, s1, s2, {}, n);
    PopTerminal(p, g, o, s2, {}, n);
  }

  /** The branches of `MirrorProblem` under the code as written: one child at each step. */
  lemma MirrorAsWrittenChildren()
    ensures var p, g := MirrorProblem(), MirrorGrid();
      WellFormed(p, g) && !Terminal(p, g, State(2, 1, "", "")) && Children(p, g, AsWritten, State(2, 1, "", "")) == [State(1, 0, "A", "C")]
      && StateInGrid(p, State(1, 0, "A", "C")) && !Terminal(p, g, State(1, 0, "A", "C")) && Children(p, g, AsWritten, State(1, 0, "A", "C")) == [State(0, 0, "AC", "C-")]
      && StateInGrid(p, State(0, 0, "AC", "C-")) && Terminal(p, g, State(0, 0, "AC", "C-"))
  {
    var p, g := MirrorProblem(), MirrorGrid();
    MirrorCells();
    var s0, s1, s2 := State(2, 1, "", ""), State(1, 0, "A", "C"), State(0, 0, "AC", "C-");
    ChildrenByFlag(p, g, AsWritten, s0);
    ChildrenByFlag(p, g, AsWritten, s1);
    assert DiagonalChild(p, AsWritten, s0) == s1 by {
      assert Symbol1(p, AsWritten, 2) == 'A' && Symbol2(p, AsWritten, 1) == 'C';
      assert Extend(AsWritten, "", 'A') == "A" && Extend(AsWritten, "", 'C') == "C";
    }
    assert UpChild(p, AsWritten, s1) == s2 by {
      assert Symbol1(p, AsWritten, 1) == 'C';
      assert Extend(AsWritten, "A", 'C') == "AC" && Extend(AsWritten, "C", '-') == "C-";
    }
  }

  /** The code as written walks (2, 1) -> (1, 0) -> (0, 0) and returns
      ("AC", "C-"). */
  lemma MirrorAsWritten()
    ensures var p, g := MirrorProblem(), MirrorGrid();
      WellFormed(p, g) && KnownStrategy(p) && Search(p, g, AsWritten, InitialStates(p, g), {}, 10) == {("AC", "C-")}
  {
    var p, g := MirrorProblem(), MirrorGrid();
    MirrorCells();
    MirrorAsWrittenChildren();
    SingleBranch(p, g, AsWritten, State(2, 1, "", ""), State(1, 0, "A", "C"), State(0, 0, "AC", "C-"), 10);
  }

  /** The branches of `MirrorProblem` under the corrected orientation: one child at each step. */
  lemma MirrorIntendedChildren()
    ensures var p, g := MirrorProblem(), MirrorGrid();
      WellFormed(p, g) && !Terminal(p, g, State(2, 1, "", "")) && Children(p, g, Intended, State(2, 1, "", "")) == [State(1, 0, "C", "C")]
      && StateInGrid(p, State(1, 0, "C", "C")) && !Terminal(p, g, State(1, 0, "C", "C")) && Children(p, g, Intended, State(1, 0, "C", "C")) == [State(0, 0, "AC", "-C")]
      && StateInGrid(p, State(0, 0, "AC", "-C")) && Terminal(p, g, State(0, 0, "AC", "-C"))
  {
    var p, g := MirrorProblem(), MirrorGrid();
    MirrorCells();
    var s0, s1, s2 := State(2, 1, "", ""), State(1, 0, "C", "C"), State(0, 0, "AC", "-C");
    ChildrenByFlag(p, g, Intended, s0);
    ChildrenByFlag(p, g, Intended, s1);
    assert DiagonalChild(p, Intended, s0) == s1 by {
      assert Symbol1(p, Intended, 2) == 'C' && Symbol2(p, Intended, 1) == 'C';
      assert Extend(Intended, "", 'C') == "C";
    }
    assert UpChild(p, Intended, s1) == s2 by {
      assert Symbol1(p, Intended, 1) == 'A';
      assert Extend(Intended, "C", 'A') == "AC" && Extend(Intended, "C", '-') == "-C";
    }
  }

  /** The corrected traceback walks the same cells and returns ("AC", "-C"). */
  lemma MirrorIntended()
    ensures var p, g := MirrorProblem(), MirrorGrid();
      WellFormed(p, g) && KnownStrategy(p) && Search(p, g, Intended, InitialStates(p, g), {}, 10) == {("AC", "-C")}
  {
    var p, g := MirrorProblem(), MirrorGrid();
    MirrorCells();
    MirrorIntendedChildren();
    SingleBranch(p, g, Intended, State(2, 1, "", ""), State(1, 0, "C", "C"), State(0, 0, "AC", "-C"), 10);
  }

  /** The scores of the two pairs of Finding A. */
  lemma MirrorPairScores()
    ensures Scorable(MirrorProblem(), "AC", "C-") && PairScore(MirrorProblem(), "AC", "C-") == -3
    ensures Scorable(MirrorProblem(), "AC", "-C") && PairScore(MirrorProblem(), "AC", "-C") == -1
  {
    assert "AC"[1..] == "C" && "C-"[1..] == "-" && "-C"[1..] == "C";
    assert "C"[1..] == "" && "-"[1..] == "";
  }

  /** As written: the only pair returned for `MirrorProblem` is ("AC", "C-"),
      which scores -3 although the reported score is -1; the corrected
      traceback returns ("AC", "-C"), which scores -1. */
  lemma MirroredSymbolsExample()
    ensures var p, g := MirrorProblem(), MirrorGrid();
      Covers(p) && g == Expected(p) && WellFormed(p, g) && KnownStrategy(p) && ReportedScore(p, g) == -1
      && Search(p, g, AsWritten, InitialStates(p, g), {}, 10) == {("AC", "C-")}
      && Scorable(p, "AC", "C-") && PairScore(p, "AC", "C-") == -3
      && Search(p, g, Intended, InitialStates(p, g), {}, 10) == {("AC", "-C")}
      && Scorable(p, "AC", "-C") && PairScore(p, "AC", "-C") == -1
  {
    MirrorOptimum();
    MirrorAsWritten();
    MirrorIntended();
    MirrorPairScores();
  }

  // ---------------------------------------------------------------------
  // Finding B: the local strategy keeps the global edges.
  // ---------------------------------------------------------------------

  /** The example of Finding B: "TA" against "A", local, gap -2, with
      sub(T, A) = -1 and sub(A, A) = 1. */
  function EdgeProblem(): Problem
  {
    Problem("TA", "A", map['T' := map['A' := -1], 'A' := map['A' := 1]], -2, "local")
  }

  /** The matrices the fill builds for `EdgeProblem`: the edges hold the
      gap multiples and both interior cells are clamped to 0 with no flag. */
  function EdgeGrid(): Grid
  {
    var none, up, left := Default, DirectionalCell(up := true), DirectionalCell(left := true);
    Grid([[0, -2], [-2, 0], [-4, 0]], [[none, left], [up, none], [up, none]])
  }

  lemma EdgeGridIsFilled()
    ensures FilledFrom(EdgeProblem(), EdgeGrid())
  {
    var p := EdgeProblem();
    assert Covers(p);
    assert Score(p, 1, 1) == 0;
    assert Score(p, 2, 1) == 0;
  }

  /** As written: the local optimum reported for `EdgeProblem` is 0 and the
      edge holds -4, yet "A" against "A" aligns seq1[1..2] with seq2[0..1]
      and scores 1. */
  lemma LocalEdgesExample()
    ensures var p, g := EdgeProblem(), EdgeGrid();
      Covers(p) && g == Expected(p) && WellFormed(p, g) && IsLocal(p) && g.scores[2][0] == -4
      && ReportedScore(p, g) == 0
      && Runs(p, ("A", "A"), 1, 2, 0, 1) && Scorable(p, "A", "A") && PairScore(p, "A", "A") == 1
  {
    var p, g := EdgeProblem(), EdgeGrid();
    EdgeGridIsFilled();
    FilledIsWellFormed(p, g);
    FilledFromUnique(p, g, Expected(p));
    EdgeOptimum();
    EdgeMatch();
  }

  /** The largest entry of `EdgeGrid`'s scores is 0. */
  lemma EdgeOptimum()
    ensures GridMax(EdgeGrid().scores) == 0
  {
    var rows := EdgeGrid().scores;
    assert forall i, j :: 0 <= i < |rows| && 0 <= j < |rows[i]| ==> rows[i][j] <= 0;
    assert rows[0][0] == 0;
  }

  /** "A" against "A" aligns seq1[1..2] with seq2[0..1] of `EdgeProblem`
      and scores 1. */
  lemma EdgeMatch()
    ensures Runs(EdgeProblem(), ("A", "A"), 1, 2, 0, 1)
    ensures Scorable(EdgeProblem(), "A", "A") && PairScore(EdgeProblem(), "A", "A") == 1
  {
    var p := EdgeProblem();
    assert p.seq1[1..2] == "A" && p.seq2[0..1] == "A";
    assert Strip("A") == Strip("") + "A";
    assert "A"[1..] == "";
  }

  /** The corrected local cell: the edges are 0, and an interior cell is the
      best candidate or 0. */
  function LocalScore(p: Problem, i: nat, j: nat): (r: int)
    requires Covers(p) && InGrid(p, i, j)
    ensures r >= 0
    decreases i + j
  {
    if i == 0 || j == 0 then 0
    else
      Max(Max3(LocalScore(p, i - 1, j) + p.gap,
               LocalScore(p, i - 1, j - 1) + Sub(p, i - 1, j - 1),
               LocalScore(p, i, j - 1) + p.gap), 0)
  }

  /** The corrected local matrix. */
  function LocalScores(p: Problem): (rows: seq<seq<int>>)
    requires Covers(p)
    ensures |rows| == |p.seq1| + 1
    ensures forall i :: 0 <= i < |rows| ==> |rows[i]| == |p.seq2| + 1
    ensures forall i, j :: 0 <= i < |rows| && 0 <= j < |rows[i]| ==> rows[i][j] == LocalScore(p, i, j)
  {
    seq(|p.seq1| + 1, i requires 0 <= i <= |p.seq1| =>
      seq(|p.seq2| + 1, j requires 0 <= j <= |p.seq2| => LocalScore(p, i, j)))
  }

  /** Appending a column adds its score. */
  lemma {:induction false} AppendColumn(p: Problem, s1: string, s2: string, a: char, b: char)
    requires Scorable(p, s1, s2) && ColumnScorable(p, a, b)
    ensures Scorable(p, s1 + [a], s2 + [b])
    ensures PairScore(p, s1 + [a], s2 + [b]) == PairScore(p, s1, s2) + ColumnScore(p, a, b)
    decreases |s1|
  {
    if |s1| == 0 {
      assert (s1 + [a])[1..] == s1 && (s2 + [b])[1..] == s2;
    } else {
      assert Scorable(p, s1[1..], s2[1..]) by {
        forall k | 0 <= k < |s1| - 1
          ensures ColumnScorable(p, s1[1..][k], s2[1..][k])
        {
          assert s1[1..][k] == s1[k + 1] && s2[1..][k] == s2[k + 1];
        }
      }
      AppendColumn(p, s1[1..], s2[1..], a, b);
      assert (s1 + [a])[1..] == s1[1..] + [a] && (s2 + [b])[1..] == s2[1..] + [b];
    }
  }

  /** A run without the gap symbol is its own stripped form. */
  lemma {:induction false} StripNoGap(s: string)
    requires '-' !in s
    ensures Strip(s) == s
  {
    if |s| > 0 {
      assert '-' !in s[..|s| - 1];
      StripNoGap(s[..|s| - 1]);
      assert s == s[..|s| - 1] + [s[|s| - 1]];
    }
  }

  /** One corrected step loses at most a gap or a substitution score. */
  lemma LocalStep(p: Problem, i: nat, j: nat)
    requires Covers(p) && InGrid(p, i, j) && p.gap <= 0
    ensures j > 0 ==> LocalScore(p, i, j) >= LocalScore(p, i, j - 1) + p.gap
    ensures i > 0 ==> LocalScore(p, i, j) >= LocalScore(p, i - 1, j) + p.gap
    ensures i > 0 && j > 0 ==> LocalScore(p, i, j) >= LocalScore(p, i - 1, j - 1) + Sub(p, i - 1, j - 1)
  {
  }

  /** A run ending in c is the run one shorter followed by its last symbol. */
  lemma SplitLast(u: string, c: char, s: string, lo: nat, hi: nat)
    requires lo <= hi <= |s| && u + [c] == s[lo..hi]
    ensures lo < hi && u == s[lo..hi - 1] && c == s[hi - 1]
  {
    assert |u| + 1 == hi - lo;
    assert u == (u + [c])[..|u|];
  }

  /** The last column of an alignment, against the corrected cell it ends
      on: the cell is at least the cell before the column plus the column's
      score. */
  lemma ColumnStep(p: Problem, i: nat, j: nat, c: char, d: char)
    requires Covers(p) && InGrid(p, i, j) && p.gap <= 0 && ColumnScorable(p, c, d)
    requires c != '-' ==> i > 0 && c == p.seq1[i - 1]
    requires d != '-' ==> j > 0 && d == p.seq2[j - 1]
    ensures LocalScore(p, i, j) >= LocalScore(p, if c == '-' then i else i - 1, if d == '-' then j else j - 1) + ColumnScore(p, c, d)
  {
    LocalStep(p, i, j);
  }

  /** An aligned pair is its last column appended to the pair before it. */
  lemma LastColumn(p: Problem, s1: string, s2: string)
    requires Scorable(p, s1, s2) && |s1| > 0
    ensures var n := |s1| - 1;
      Scorable(p, s1[..n], s2[..n]) && ColumnScorable(p, s1[n], s2[n])
      && PairScore(p, s1, s2) == PairScore(p, s1[..n], s2[..n]) + ColumnScore(p, s1[n], s2[n])
      && Strip(s1) == Strip(s1[..n]) + (if s1[n] == '-' then [] else [s1[n]])
      && Strip(s2) == Strip(s2[..n]) + (if s2[n] == '-' then [] else [s2[n]])
  {
    var n := |s1| - 1;
    PrefixScorable(p, s1, s2);
    AppendColumn(p, s1[..n], s2[..n], s1[n], s2[n]);
    assert s1[..n] + [s1[n]] == s1 && s2[..n] + [s2[n]] == s2;
  }

  /** Every column of an alignment is scorable, so its prefix is too. */
  lemma PrefixScorable(p: Problem, s1: string, s2: string)
    requires Scorable(p, s1, s2) && |s1| > 0
    ensures var n := |s1| - 1;
      Scorable(p, s1[..n], s2[..n]) && ColumnScorable(p, s1[n], s2[n])
  {
    var n := |s1| - 1;
    forall k | 0 <= k < n
      ensures ColumnScorable(p, s1[..n][k], s2[..n][k])
    {
      assert s1[..n][k] == s1[k] && s2[..n][k] == s2[k];
    }
  }

  /** Corrected: every alignment of seq1[a..i] against seq2[b..j] scores at
      most the corrected cell (i, j), given a gap penalty that is not a
      bonus. */
  lemma {:induction false} LocalScoreBoundsAlignments(p: Problem, a: nat, i: nat, b: nat, j: nat, s1: string, s2: string)
    requires Covers(p) && p.gap <= 0 && a <= i <= |p.seq1| && b <= j <= |p.seq2|
    requires Scorable(p, s1, s2) && Strip(s1) == p.seq1[a..i] && Strip(s2) == p.seq2[b..j]
    ensures PairScore(p, s1, s2) <= LocalScore(p, i, j)
    decreases |s1|
  {
    if |s1| > 0 {
      var n := |s1| - 1;
      var t1, t2, c, d := s1[..n], s2[..n], s1[n], s2[n];
      LastColumn(p, s1, s2);
      var i', j' := i, j;
      if c != '-' {
        SplitLast(Strip(t1), c, p.seq1, a, i);
        i' := i - 1;
      }
      if d != '-' {
        SplitLast(Strip(t2), d, p.seq2, b, j);
        j' := j - 1;
      }
      LocalScoreBoundsAlignments(p, a, i', b, j', t1, t2);
      ColumnStep(p, i, j, c, d);
    }
  }

  /** Corrected: the local optimum, the largest corrected cell, is at least
      the score of every alignment of two runs. */
  lemma LocalOptimumBoundsAlignments(p: Problem, pr: Pair, lo1: nat, hi1: nat, lo2: nat, hi2: nat)
    requires Covers(p) && NoGapSymbol(p) && p.gap <= 0
    requires Scorable(p, pr.0, pr.1) && Runs(p, pr, lo1, hi1, lo2, hi2)
    ensures PairScore(p, pr.0, pr.1) <= GridMax(LocalScores(p))
  {
    assert '-' !in p.seq1[lo1..hi1] && '-' !in p.seq2[lo2..hi2];
    StripNoGap(p.seq1[lo1..hi1]);
    StripNoGap(p.seq2[lo2..hi2]);
    LocalScoreBoundsAlignments(p, lo1, hi1, lo2, hi2, pr.0, pr.1);
    assert LocalScores(p)[hi1][hi2] == LocalScore(p, hi1, hi2);
  }

  // ---------------------------------------------------------------------
  // The fill as written bounds every alignment of two prefixes.
  // ---------------------------------------------------------------------

  /** The last column of an alignment, against the cell (as written) it
      ends on: the cell is at least the cell before the column plus the
      column's score. On the edges a gap column costs exactly one gap.
      Only a column with '-' on both sides, which keeps the cell where it
      is, needs a gap penalty that is not a bonus. */
  lemma ScoreColumnStep(p: Problem, i: nat, j: nat, c: char, d: char)
    requires Covers(p) && InGrid(p, i, j) && ColumnScorable(p, c, d)
    requires c == '-' && d == '-' ==> p.gap <= 0
    requires c != '-' ==> i > 0 && c == p.seq1[i - 1]
    requires d != '-' ==> j > 0 && d == p.seq2[j - 1]
    ensures Score(p, i, j) >= Score(p, if c == '-' then i else i - 1, if d == '-' then j else j - 1) + ColumnScore(p, c, d)
  {
    if i > 0 && j > 0 {
      InteriorIsBest(p, i, j);
    } else if i > 0 && c != '-' {
      Boundary(p, i, j);
      Boundary(p, i - 1, j);
    } else if j > 0 && d != '-' {
      Boundary(p, i, j);
      Boundary(p, i, j - 1);
    }
  }

  /** Every alignment of seq1[..i] against seq2[..j] scores at most cell
      (i, j) of the score matrix as the fill writes it, under either
      strategy, given a gap penalty that is not a bonus. The cell is an upper
      bound under either strategy; under the global strategy some alignment
      reaches it (`ScoreAttained`), so there it is exactly the optimum. */
  lemma {:induction false} ScoreBoundsAlignments(p: Problem, i: nat, j: nat, s1: string, s2: string)
    requires Covers(p) && p.gap <= 0 && i <= |p.seq1| && j <= |p.seq2|
    requires Scorable(p, s1, s2) && Strip(s1) == p.seq1[..i] && Strip(s2) == p.seq2[..j]
    ensures PairScore(p, s1, s2) <= Score(p, i, j)
    decreases |s1|
  {
    if |s1| == 0 {
      assert |p.seq1[..i]| == 0 && |p.seq2[..j]| == 0;
    } else {
      var n := |s1| - 1;
      var t1, t2, c, d := s1[..n], s2[..n], s1[n], s2[n];
      LastColumn(p, s1, s2);
      var i', j' := i, j;
      if c != '-' {
        SplitLast(Strip(t1), c, p.seq1, 0, i);
        i' := i - 1;
      }
      if d != '-' {
        SplitLast(Strip(t2), d, p.seq2, 0, j);
        j' := j - 1;
      }
      ScoreBoundsAlignments(p, i', j', t1, t2);
      ScoreColumnStep(p, i, j, c, d);
    }
  }

  /** Under the global strategy cell (i, j) is the score of an alignment of
      seq1[..i] against seq2[..j]: the one spelled by following the flags
      back to the origin. */
  lemma ScoreAttained(p: Problem, i: nat, j: nat) returns (s1: string, s2: string)
    requires Covers(p) && NoGapSymbol(p) && !IsLocal(p) && InGrid(p, i, j)
    ensures Scorable(p, s1, s2) && Strip(s1) == p.seq1[..i] && Strip(s2) == p.seq2[..j]
    ensures PairScore(p, s1, s2) == Score(p, i, j)
    decreases i + j
  {
    var d := Dir(p, i, j);
    if i == 0 && j == 0 {
      s1, s2 := [], [];
    } else {
      if NumDirections(d) == 0 {
        FlaglessCells(p, i, j);
        assert false;
      }
      StepScore(p, i, j);
      var t1, t2;
      if d.up {
        t1, t2 := ScoreAttained(p, i - 1, j);
        s1, s2 := ExtendAttained(p, t1, t2, p.seq1[i - 1], '-', i, j);
      } else if d.left {
        t1, t2 := ScoreAttained(p, i, j - 1);
        s1, s2 := ExtendAttained(p, t1, t2, '-', p.seq2[j - 1], i, j);
      } else {
        t1, t2 := ScoreAttained(p, i - 1, j - 1);
        s1, s2 := ExtendAttained(p, t1, t2, p.seq1[i - 1], p.seq2[j - 1], i, j);
      }
    }
  }

  /** An alignment of the prefixes before a column, extended by that column,
      aligns the prefixes up to (i, j) and gains the column's score. */
  lemma ExtendAttained(p: Problem, t1: string, t2: string, a: char, b: char, i: nat, j: nat) returns (s1: string, s2: string)
    requires Covers(p) && NoGapSymbol(p) && InGrid(p, i, j) && (a != '-' || b != '-')
    requires a != '-' ==> i > 0 && a == p.seq1[i - 1]
    requires b != '-' ==> j > 0 && b == p.seq2[j - 1]
    requires Scorable(p, t1, t2)
    requires Strip(t1) == p.seq1[..if a == '-' then i else i - 1]
    requires Strip(t2) == p.seq2[..if b == '-' then j else j - 1]
    ensures ColumnScorable(p, a, b)
    ensures s1 == t1 + [a] && s2 == t2 + [b]
    ensures Scorable(p, s1, s2) && Strip(s1) == p.seq1[..i] && Strip(s2) == p.seq2[..j]
    ensures PairScore(p, s1, s2) == PairScore(p, t1, t2) + ColumnScore(p, a, b)
  {
    if a != '-' && b != '-' {
      assert HasPair(p.table, p.seq1[i - 1], p.seq2[j - 1]);
    }
    AppendColumn(p, t1, t2, a, b);
    StripAppend(t1, a);
    StripAppend(t2, b);
    s1, s2 := t1 + [a], t2 + [b];
    if a != '-' {
      assert p.seq1[..i] == p.seq1[..i - 1] + [p.seq1[i - 1]];
    }
    if b != '-' {
      assert p.seq2[..j] == p.seq2[..j - 1] + [p.seq2[j - 1]];
    }
  }

  /** Every alignment of the two whole sequences scores at most the
      bottom-right cell. */
  lemma WholeScoreBound(p: Problem, pr: Pair)
    requires Covers(p) && NoGapSymbol(p) && p.gap <= 0 && !IsLocal(p)
    requires Scorable(p, pr.0, pr.1) && IsAlignment(p, pr)
    ensures PairScore(p, pr.0, pr.1) <= Score(p, |p.seq1|, |p.seq2|)
  {
    StripNoGap(p.seq1);
    StripNoGap(p.seq2);
    assert p.seq1[..|p.seq1|] == p.seq1 && p.seq2[..|p.seq2|] == p.seq2;
    ScoreBoundsAlignments(p, |p.seq1|, |p.seq2|, pr.0, pr.1);
  }

  /** Under the global strategy the score reported, the bottom-right cell,
      is at least the score of every alignment of the two sequences. */
  lemma GlobalScoreIsOptimal(p: Problem, pr: Pair)
    requires Covers(p) && NoGapSymbol(p) && p.gap <= 0 && p.strategy == "global"
    requires Scorable(p, pr.0, pr.1) && IsAlignment(p, pr)
    ensures WellFormed(p, Expected(p)) && KnownStrategy(p)
    ensures PairScore(p, pr.0, pr.1) <= ReportedScore(p, Expected(p))
  {
    FilledIsWellFormed(p, Expected(p));
    WholeScoreBound(p, pr);
    assert InGrid(p, |p.seq1|, |p.seq2|);
  }

  /** Corrected traceback, under either strategy: every returned pair is
      an alignment, of the whole sequences under the global strategy and of
      the runs its path stepped over under the local one. */
  lemma IntendedPairsAreAlignments(p: Problem, g: Grid, n: int)
    requires FilledFrom(p, g) && KnownStrategy(p)
    ensures WellFormed(p, g)
    ensures forall pr :: pr in Search(p, g, Intended, InitialStates(p, g), {}, n) ==> IsAlignment(p, pr)
  {
    FilledIsWellFormed(p, g);
    InitialStatesOk(p, g, Intended);
    SearchAlignments(p, g, Intended, InitialStates(p, g), {}, n);
  }

  /** Corrected traceback, global strategy: every returned pair is an
      alignment of the two sequences that scores the reported score, and no
      alignment of the two sequences scores more: the pairs are optimal. */
  lemma IntendedGlobalPairsOptimal(p: Problem, g: Grid, n: int, q: Pair)
    requires FilledFrom(p, g) && NoGapSymbol(p) && p.gap <= 0 && p.strategy == "global"
    requires Scorable(p, q.0, q.1) && IsAlignment(p, q)
    ensures WellFormed(p, g) && KnownStrategy(p)
    ensures forall pr :: pr in Search(p, g, Intended, InitialStates(p, g), {}, n) ==>
      IsAlignment(p, pr) && Scorable(p, pr.0, pr.1) && PairScore(p, q.0, q.1) <= PairScore(p, pr.0, pr.1)
  {
    IntendedPairsAreAlignments(p, g, n);
    IntendedPairsScoreReported(p, g, n);
    GlobalScoreIsOptimal(p, q);
    FilledFromUnique(p, g, Expected(p));
  }

  /** Corrected, on the example: cell (2, 1) now scores the A/A match. */
  lemma LocalEdgesCorrected()
    ensures Covers(EdgeProblem()) && LocalScore(EdgeProblem(), 2, 1) == 1
  {
    var p := EdgeProblem();
    assert Covers(p);
    assert Sub(p, 1, 0) == 1;
  }
}
