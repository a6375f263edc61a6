/** The `SequenceAlignment` object (src/sequence_alignment.py:16-128): the
    inputs it is built with, the two matrices its fill writes in place, and
    the traceback that walks them back. Each method is proved against the
    functions of `Matrices` and `TracebackSearch`. */
module SequenceAlignments {
  import opened DirectionalCells
  import opened Matrices
  import opened PairOrder
  import opened TracebackSearch

  datatype Result<T> = Ok(value: T) | Err(msg: string)

  /** The two matrices as row-by-row values. */
  function GridOf(sm: array2<int>, dm: array2<DirectionalCell>): (g: Grid)
    reads sm, dm
    ensures |g.scores| == sm.Length0 && |g.dirs| == dm.Length0
    ensures forall i, j :: 0 <= i < sm.Length0 && 0 <= j < sm.Length1 ==> |g.scores[i]| == sm.Length1 && g.scores[i][j] == sm[i, j]
    ensures forall i, j :: 0 <= i < dm.Length0 && 0 <= j < dm.Length1 ==> |g.dirs[i]| == dm.Length1 && g.dirs[i][j] == dm[i, j]
  {
    Grid(seq(sm.Length0, i requires 0 <= i < sm.Length0 reads sm =>
           seq(sm.Length1, j requires 0 <= j < sm.Length1 reads sm => sm[i, j])),
         seq(dm.Length0, i requires 0 <= i < dm.Length0 reads dm =>
           seq(dm.Length1, j requires 0 <= j < dm.Length1 reads dm => dm[i, j])))
  }

  /** One interior cell of the fill, given the expected matrices `want`:
      the three candidates computed from the finished neighbours give the
      recurrence's score and flags. */
  lemma InteriorCell(p: Problem, want: Grid, i: nat, j: nat, up: int, diagonal: int, left: int)
    requires FilledFrom(p, want) && i < |p.seq1| && j < |p.seq2|
    requires up == want.scores[i][j + 1] + p.gap
    requires diagonal == want.scores[i][j] + Sub(p, i, j)
    requires left == want.scores[i + 1][j] + p.gap
    ensures Best(p, up, diagonal, left) == want.scores[i + 1][j + 1]
    ensures DirectionalCell(up == want.scores[i + 1][j + 1], diagonal == want.scores[i + 1][j + 1], left == want.scores[i + 1][j + 1]) == want.dirs[i + 1][j + 1]
  {
    assert Score(p, i + 1, j + 1) == Best(p, up, diagonal, left);
  }

  /** The body of the fill's inner loop: cell (i + 1, j + 1) from its upper,
      diagonal and left neighbours; no other cell changes. */
  method FillCell(p: Problem, sm: array2<int>, dm: array2<DirectionalCell>, i: nat, j: nat, ghost want: Grid)
    requires FilledFrom(p, want) && i < |p.seq1| && j < |p.seq2|
    requires sm.Length0 == |p.seq1| + 1 && sm.Length1 == |p.seq2| + 1
    requires dm.Length0 == |p.seq1| + 1 && dm.Length1 == |p.seq2| + 1
    requires sm[i, j] == want.scores[i][j] && sm[i, j + 1] == want.scores[i][j + 1] && sm[i + 1, j] == want.scores[i + 1][j]
    modifies sm, dm
    ensures sm[i + 1, j + 1] == want.scores[i + 1][j + 1] && dm[i + 1, j + 1] == want.dirs[i + 1][j + 1]
    ensures forall a, b :: 0 <= a < sm.Length0 && 0 <= b < sm.Length1 && (a != i + 1 || b != j + 1) ==>
      sm[a, b] == old(sm[a, b]) && dm[a, b] == old(dm[a, b])
  {
    assert HasPair(p.table, p.seq1[i], p.seq2[j]);
    var diagonalScore := sm[i, j] + p.table[p.seq1[i]][p.seq2[j]];
    var upScore := sm[i, j + 1] + p.gap;
    var leftScore := sm[i + 1, j] + p.gap;
    var bestScore := Max3(upScore, diagonalScore, leftScore);
    if p.strategy == "local" {
      bestScore := Max(bestScore, 0);
    }
    InteriorCell(p, want, i, j, upScore, diagonalScore, leftScore);
    sm[i + 1, j + 1] := bestScore;
    dm[i + 1, j + 1] := DirectionalCell(up := upScore == bestScore, diagonal := diagonalScore == bestScore, left := leftScore == bestScore);
  }

  /** The first loop of the fill: column 0 below the origin holds i * gap
      with the up flag; no other cell changes. */
  method FillFirstColumn(p: Problem, sm: array2<int>, dm: array2<DirectionalCell>, ghost want: Grid)
    requires FilledFrom(p, want)
    requires sm.Length0 == |p.seq1| + 1 && sm.Length1 == |p.seq2| + 1
    requires dm.Length0 == |p.seq1| + 1 && dm.Length1 == |p.seq2| + 1
    modifies sm, dm
    ensures forall a :: 0 < a <= |p.seq1| ==> sm[a, 0] == want.scores[a][0] && dm[a, 0] == want.dirs[a][0]
    ensures forall a, b :: 0 <= a <= |p.seq1| && 0 <= b <= |p.seq2| && (a == 0 || b > 0) ==>
      sm[a, b] == old(sm[a, b]) && dm[a, b] == old(dm[a, b])
  {
    for i := 1 to |p.seq1| + 1
      invariant forall a :: 0 < a < i ==> sm[a, 0] == want.scores[a][0] && dm[a, 0] == want.dirs[a][0]
      invariant forall a, b :: 0 <= a <= |p.seq1| && 0 <= b <= |p.seq2| && (a == 0 || b > 0 || a >= i) ==>
        sm[a, b] == old(sm[a, b]) && dm[a, b] == old(dm[a, b])
    {
      Boundary(p, i, 0);
      sm[i, 0] := i * p.gap;
      dm[i, 0] := DirectionalCell(up := true);
    }
  }

  /** The second loop of the fill: row 0 right of the origin holds j * gap
      with the left flag; no other cell changes. */
  method FillFirstRow(p: Problem, sm: array2<int>, dm: array2<DirectionalCell>, ghost want: Grid)
    requires FilledFrom(p, want)
    requires sm.Length0 == |p.seq1| + 1 && sm.Length1 == |p.seq2| + 1
    requires dm.Length0 == |p.seq1| + 1 && dm.Length1 == |p.seq2| + 1
    modifies sm, dm
    ensures forall b :: 0 < b <= |p.seq2| ==> sm[0, b] == want.scores[0][b] && dm[0, b] == want.dirs[0][b]
    ensures forall a, b :: 0 <= a <= |p.seq1| && 0 <= b <= |p.seq2| && (a > 0 || b == 0) ==>
      sm[a, b] == old(sm[a, b]) && dm[a, b] == old(dm[a, b])
  {
    for i := 1 to |p.seq2| + 1
      invariant forall b :: 0 < b < i ==> sm[0, b] == want.scores[0][b] && dm[0, b] == want.dirs[0][b]
      invariant forall a, b :: 0 <= a <= |p.seq1| && 0 <= b <= |p.seq2| && (a > 0 || b == 0 || b >= i) ==>
        sm[a, b] == old(sm[a, b]) && dm[a, b] == old(dm[a, b])
    {
      Boundary(p, 0, i);
      sm[0, i] := i * p.gap;
      dm[0, i] := DirectionalCell(left := true);
    }
  }

  /** The first two loops of the fill: column 0 holds i * gap with the up
      flag, row 0 holds j * gap with the left flag, the origin keeps 0 and
      the default cell, and every interior cell keeps what it held. */
  method FillEdges(p: Problem, sm: array2<int>, dm: array2<DirectionalCell>, ghost want: Grid)
    requires FilledFrom(p, want)
    requires sm.Length0 == |p.seq1| + 1 && sm.Length1 == |p.seq2| + 1
    requires dm.Length0 == |p.seq1| + 1 && dm.Length1 == |p.seq2| + 1
    requires sm[0, 0] == 0 && dm[0, 0] == Default
    modifies sm, dm
    ensures forall a, b :: 0 <= a <= |p.seq1| && 0 <= b <= |p.seq2| && (a == 0 || b == 0) ==>
      sm[a, b] == want.scores[a][b] && dm[a, b] == want.dirs[a][b]
    ensures forall a, b :: 0 < a <= |p.seq1| && 0 < b <= |p.seq2| ==> sm[a, b] == old(sm[a, b]) && dm[a, b] == old(dm[a, b])
  {
    Boundary(p, 0, 0);
    assert InGrid(p, 0, 0);
    FillFirstColumn(p, sm, dm, want);
    FillFirstRow(p, sm, dm, want);
  }

  /** The nested loop of the fill: row by row, left to right, every interior
      cell from its finished neighbours. */
  method FillInterior(p: Problem, sm: array2<int>, dm: array2<DirectionalCell>, ghost want: Grid)
    requires FilledFrom(p, want)
    requires sm.Length0 == |p.seq1| + 1 && sm.Length1 == |p.seq2| + 1
    requires dm.Length0 == |p.seq1| + 1 && dm.Length1 == |p.seq2| + 1
    requires forall a, b :: 0 <= a <= |p.seq1| && 0 <= b <= |p.seq2| && (a == 0 || b == 0) ==>
      sm[a, b] == want.scores[a][b] && dm[a, b] == want.dirs[a][b]
    modifies sm, dm
    ensures forall a, b :: 0 <= a <= |p.seq1| && 0 <= b <= |p.seq2| ==>
      sm[a, b] == want.scores[a][b] && dm[a, b] == want.dirs[a][b]
  {
    var m, n := |p.seq1|, |p.seq2|;
    for i := 0 to m
      invariant forall a, b :: 0 <= a <= m && 0 <= b <= n && (a <= i || b == 0) ==>
        sm[a, b] == want.scores[a][b] && dm[a, b] == want.dirs[a][b]
    {
      for j := 0 to n
        invariant forall a, b :: 0 <= a <= m && 0 <= b <= n && (a <= i || b == 0 || (a == i + 1 && b <= j)) ==>
          sm[a, b] == want.scores[a][b] && dm[a, b] == want.dirs[a][b]
      {
        FillCell(p, sm, dm, i, j, want);
      }
    }
  }

  /** The else branch of the traceback loop: push the left, up and
      diagonal successors of a non-terminal state, reading each new symbol
      through a negative index. */
  method PushChildren(p: Problem, g: Grid, st: State, states: seq<State>) returns (r: seq<State>)
    requires WellFormed(p, g) && StateInGrid(p, st)
    ensures r == states + Children(p, g, AsWritten, st)
  {
    var cell := g.dirs[st.posY][st.posX];
    assert FlagsInward(cell, st.posY, st.posX);
    var (up, diagonal, left) := GetDirections(cell);
    r := states;
    if left {
      r := r + [State(st.posY, st.posX - 1, st.s1 + "-", st.s2 + [p.seq2[|p.seq2| - st.posX]])];
    }
    if up {
      r := r + [State(st.posY - 1, st.posX, st.s1 + [p.seq1[|p.seq1| - st.posY]], st.s2 + "-")];
    }
    if diagonal {
      r := r + [State(st.posY - 1, st.posX - 1, st.s1 + [p.seq1[|p.seq1| - st.posY]], st.s2 + [p.seq2[|p.seq2| - st.posX]])];
    }
  }

  /** The worklist loop of `_traceback` over the filled matrices: pop the
      last state; record its pair if it is terminal, otherwise push its
      children; stop when the worklist is empty or n pairs are recorded. */
  method Collect(p: Problem, g: Grid, init: seq<State>, n: int) returns (solutions: set<Pair>)
    requires WellFormed(p, g) && AllInGrid(p, init)
    ensures solutions == Search(p, g, AsWritten, init, {}, n)
  {
    var states := init;
    solutions := {};
    while |states| > 0 && |solutions| < n
      invariant AllInGrid(p, states)
      invariant Search(p, g, AsWritten, states, solutions, n) == Search(p, g, AsWritten, init, {}, n)
      decreases Weight(p, g, states)
    {
      var st := states[|states| - 1];
      var rest := states[..|states| - 1];
      SearchStep(p, g, AsWritten, rest, st, solutions, n);
      assert rest + [st] == states;
      states := rest;
      var cell := g.dirs[st.posY][st.posX];
      if NumDirections(cell) == 0 || (p.strategy == "local" && g.scores[st.posY][st.posX] == 0) {
        solutions := solutions + {(st.s1, st.s2)};
      } else {
        states := PushChildren(p, g, st, states);
      }
    }
  }

  class SequenceAlignment {
    const seq1: string
    const seq2: string
    const strategy: string
    const gapPenalty: int
    /** `alignments[a][b]`: the substitution score of a against b. */
    const alignments: map<char, map<char, int>>
    var scoreMatrix: array2<int>
    var directionalMatrix: array2<DirectionalCell>

    /** The inputs the object was built with, as one value. */
    function Inputs(): Problem
    {
      Problem(seq1, seq2, alignments, gapPenalty, strategy)
    }

    /** The matrices as they stand. */
    function Snapshot(): Grid
      reads this, scoreMatrix, directionalMatrix
    {
      GridOf(scoreMatrix, directionalMatrix)
    }

    /** Both matrices are (|seq1| + 1) x (|seq2| + 1) and every flag points
        to a cell of the matrix. */
    predicate Walkable()
      reads this, scoreMatrix, directionalMatrix
    {
      scoreMatrix.Length0 == |seq1| + 1 && scoreMatrix.Length1 == |seq2| + 1
      && directionalMatrix.Length0 == |seq1| + 1 && directionalMatrix.Length1 == |seq2| + 1
      && WellFormed(Inputs(), Snapshot())
    }

    /** Every cell holds what the recurrence gives. */
    ghost predicate Filled()
      reads this, scoreMatrix, directionalMatrix
    {
      Covers(Inputs())
      && scoreMatrix.Length0 == |seq1| + 1 && scoreMatrix.Length1 == |seq2| + 1
      && directionalMatrix.Length0 == |seq1| + 1 && directionalMatrix.Length1 == |seq2| + 1
      && forall i, j :: 0 <= i <= |seq1| && 0 <= j <= |seq2| ==>
        scoreMatrix[i, j] == Score(Inputs(), i, j) && directionalMatrix[i, j] == Dir(Inputs(), i, j)
    }

    /** `__init__` with the substitution table already loaded; the matrices
        start empty until the fill creates them. */
    constructor(seq1: string, seq2: string, alignments: map<char, map<char, int>>, strategy: string, gapPenalty: int := -2)
      ensures this.seq1 == seq1 && this.seq2 == seq2 && this.alignments == alignments
      ensures this.strategy == strategy && this.gapPenalty == gapPenalty
      ensures fresh(scoreMatrix) && fresh(directionalMatrix)
    {
      this.seq1 := seq1;
      this.seq2 := seq2;
      this.alignments := alignments;
      this.strategy := strategy;
      this.gapPenalty := gapPenalty;
      scoreMatrix := new int[0, 0];
      directionalMatrix := new DirectionalCell[0, 0]((i, j) => Default);
    }

    /** `_create_score_and_directional_matrices`: allocate both matrices,
        fill the edges, then the interior. */
    method CreateScoreAndDirectionalMatrices()
      requires Covers(Inputs())
      modifies this
      ensures fresh(scoreMatrix) && fresh(directionalMatrix)
      ensures Filled()
    {
      var p := Inputs();
      assert FilledFrom(p, Expected(p));
      ghost var want :| FilledFrom(p, want);
      var sm := new int[|seq1| + 1, |seq2| + 1]((i, j) => 0);
      var dm := new DirectionalCell[|seq1| + 1, |seq2| + 1]((i, j) => Default);
      FillEdges(p, sm, dm, want);
      FillInterior(p, sm, dm, want);
      scoreMatrix := sm;
      directionalMatrix := dm;
    }

    /** `_traceback`: an unknown strategy is an error; otherwise the
        collected pairs in descending order, with the reported score: the
        bottom-right cell for the global strategy, the largest cell for the
        local one, whose cells are all start states, in row-major order. */
    method Traceback(n: int) returns (r: Result<(seq<Pair>, int)>)
      requires Walkable()
      ensures r.Err? <==> !KnownStrategy(Inputs())
      ensures r.Ok? ==> r.value.1 == ReportedScore(Inputs(), Snapshot())
      ensures r.Ok? ==> StrictlyDescending(r.value.0)
      ensures r.Ok? ==> forall x :: x in r.value.0 <==> x in Found(Inputs(), Snapshot(), n)
      ensures r.Ok? ==> |r.value.0| == |Found(Inputs(), Snapshot(), n)|
    {
      var p := Inputs();
      var g := Snapshot();
      var maxScore: int;
      var states: seq<State>;
      if strategy == "global" {
        maxScore := scoreMatrix[|seq1|, |seq2|];
        states := [State(|seq1|, |seq2|, "", "")];
      } else if strategy == "local" {
        maxScore := GridMax(g.scores);
        states := CellsScoring(p, g, maxScore, |seq1| + 1);
      } else {
        return Err("Strategy must be 'global' or 'local'.");
      }
      assert states == InitialStates(p, g);
      var solutions := Collect(p, g, states, n);
      assert Snapshot() == g;
      var pairs := SortDescending(solutions);
      assert Snapshot() == g;
      return Ok((pairs, maxScore));
    }

    /** The filled matrices are the ones the recurrence defines, and a
        traceback can walk them. */
    lemma FilledSnapshot()
      requires Filled()
      ensures Walkable() && Snapshot() == Expected(Inputs())
    {
      var p, g := Inputs(), Snapshot();
      assert FilledFrom(p, g);
      FilledFromUnique(p, g, Expected(p));
      FilledIsWellFormed(p, g);
    }

    /** `find_optimal_alignments` without the printing and saving: fill the
        matrices, then trace back. The result depends on the inputs alone;
        every pair is an alignment of the two sequences, and there are at
        most n of them. */
    method FindOptimalAlignments(n: int) returns (r: Result<(seq<Pair>, int)>)
      requires Covers(Inputs())
      modifies this
      ensures Filled()
      ensures r.Err? <==> !KnownStrategy(Inputs())
      ensures r.Ok? ==> r.value.1 == ReportedScore(Inputs(), Expected(Inputs()))
      ensures r.Ok? ==> StrictlyDescending(r.value.0)
      ensures r.Ok? ==> forall x :: x in r.value.0 <==> x in Found(Inputs(), Expected(Inputs()), n)
      ensures r.Ok? ==> forall k :: 0 <= k < |r.value.0| ==> IsAlignment(Inputs(), r.value.0[k])
      ensures r.Ok? && n >= 0 ==> |r.value.0| <= n
      ensures r.Ok? && n <= 0 ==> r.value.0 == []
    {
      CreateScoreAndDirectionalMatrices();
      FilledSnapshot();
      var p, g := Inputs(), Expected(Inputs());
      r := Traceback(n);
      assert Snapshot() == g;
      if r.Ok? {
        FilledIsWellFormed(p, g);
        FoundBound(p, g, n);
        FoundAreAlignments(p, g, n);
        forall k | 0 <= k < |r.value.0|
          ensures IsAlignment(p, r.value.0[k])
        {
          assert r.value.0[k] in r.value.0;
        }
      }
    }
  }
}
