/** The search `_traceback` runs over the filled matrices
    (src/sequence_alignment.py:95-128), written as functions of the matrices
    and the sequences: the start states, one step of a branch, and the whole
    last-in-first-out worklist loop. */
module TracebackSearch {
  import opened DirectionalCells
  import opened Matrices
  import opened PairOrder

  /** Which symbols a step records. `AsWritten` is the code: the symbol is
      read with a negative index (`seq1[-posY]`, that is seq1[|seq1| - posY])
      and appended. `Intended` takes the symbol the step consumes,
      seq1[posY - 1], and puts it in front. */
  datatype Orientation = AsWritten | Intended

  /** One pending branch `[posY, posX, seq1, seq2]`: a cell and the two
      partial aligned strings. */
  datatype State = State(posY: nat, posX: nat, s1: string, s2: string)

  predicate StateInGrid(p: Problem, st: State)
  {
    InGrid(p, st.posY, st.posX)
  }

  predicate AllInGrid(p: Problem, states: seq<State>)
  {
    forall k :: 0 <= k < |states| ==> StateInGrid(p, states[k])
  }

  /** A branch ends at a cell with no flag, or, under the local strategy, at a
      cell scoring 0. */
  predicate Terminal(p: Problem, g: Grid, st: State)
    requires WellFormed(p, g) && StateInGrid(p, st)
  {
    NumDirections(g.dirs[st.posY][st.posX]) == 0 || (IsLocal(p) && g.scores[st.posY][st.posX] == 0)
  }

  function Extend(o: Orientation, s: string, c: char): (r: string)
    ensures |r| == |s| + 1
  {
    if o == AsWritten then s + [c] else [c] + s
  }

  /** The symbol of seq1 recorded when a step leaves row y. */
  function Symbol1(p: Problem, o: Orientation, y: nat): char
    requires 1 <= y <= |p.seq1|
  {
    if o == AsWritten then p.seq1[|p.seq1| - y] else p.seq1[y - 1]
  }

  /** The symbol of seq2 recorded when a step leaves column x. */
  function Symbol2(p: Problem, o: Orientation, x: nat): char
    requires 1 <= x <= |p.seq2|
  {
    if o == AsWritten then p.seq2[|p.seq2| - x] else p.seq2[x - 1]
  }

  function LeftChild(p: Problem, o: Orientation, st: State): State
    requires 1 <= st.posX <= |p.seq2|
  {
    State(st.posY, st.posX - 1, Extend(o, st.s1, '-'), Extend(o, st.s2, Symbol2(p, o, st.posX)))
  }

  function UpChild(p: Problem, o: Orientation, st: State): State
    requires 1 <= st.posY <= |p.seq1|
  {
    State(st.posY - 1, st.posX, Extend(o, st.s1, Symbol1(p, o, st.posY)), Extend(o, st.s2, '-'))
  }

  function DiagonalChild(p: Problem, o: Orientation, st: State): State
    requires 1 <= st.posY <= |p.seq1| && 1 <= st.posX <= |p.seq2|
  {
    State(st.posY - 1, st.posX - 1, Extend(o, st.s1, Symbol1(p, o, st.posY)), Extend(o, st.s2, Symbol2(p, o, st.posX)))
  }

  /** The branches pushed for a non-terminal state, in push order: left, up,
      diagonal. Each one is strictly closer to the origin. */
  function Children(p: Problem, g: Grid, o: Orientation, st: State): (r: seq<State>)
    requires WellFormed(p, g) && StateInGrid(p, st)
    ensures AllInGrid(p, r)
    ensures forall k :: 0 <= k < |r| ==> r[k].posY + r[k].posX < st.posY + st.posX
  {
    var (up, diagonal, left) := GetDirections(g.dirs[st.posY][st.posX]);
    (if left then [LeftChild(p, o, st)] else [])
    + (if up then [UpChild(p, o, st)] else [])
    + (if diagonal then [DiagonalChild(p, o, st)] else [])
  }

  /** Number of states a branch starting at (y, x) can ever pop: one for
      itself plus those of every flagged predecessor. It bounds the work left
      and drops by one for every state popped. */
  function TreeSize(p: Problem, g: Grid, y: nat, x: nat): (r: nat)
    requires WellFormed(p, g) && InGrid(p, y, x)
    ensures r >= 1
    decreases y + x
  {
    var d := g.dirs[y][x];
    assert FlagsInward(d, y, x);
    1 + (if d.left then TreeSize(p, g, y, x - 1) else 0)
      + (if d.up then TreeSize(p, g, y - 1, x) else 0)
      + (if d.diagonal then TreeSize(p, g, y - 1, x - 1) else 0)
  }

  /** Work left in a worklist: the sum of its states' tree sizes. */
  function Weight(p: Problem, g: Grid, states: seq<State>): nat
    requires WellFormed(p, g) && AllInGrid(p, states)
  {
    if |states| == 0 then 0
    else Weight(p, g, states[..|states| - 1]) + TreeSize(p, g, states[|states| - 1].posY, states[|states| - 1].posX)
  }

  lemma {:induction false} WeightAppend(p: Problem, g: Grid, a: seq<State>, b: seq<State>)
    requires WellFormed(p, g) && AllInGrid(p, a) && AllInGrid(p, b)
    ensures AllInGrid(p, a + b)
    ensures Weight(p, g, a + b) == Weight(p, g, a) + Weight(p, g, b)
    decreases |b|
  {
    if |b| > 0 {
      var b' := b[..|b| - 1];
      assert (a + b)[..|a + b| - 1] == a + b';
      WeightAppend(p, g, a, b');
    } else {
      assert a + b == a;
    }
  }

  /** A worklist of zero or one state weighs that state's tree size. */
  lemma WeightOfOptional(p: Problem, g: Grid, b: bool, st: State)
    requires WellFormed(p, g) && StateInGrid(p, st)
    ensures AllInGrid(p, if b then [st] else [])
    ensures Weight(p, g, if b then [st] else []) == if b then TreeSize(p, g, st.posY, st.posX) else 0
  {
    if b {
      assert [st][..0] == [];
    }
  }

  /** The children listed flag by flag. */
  lemma ChildrenByFlag(p: Problem, g: Grid, o: Orientation, st: State)
    requires WellFormed(p, g) && StateInGrid(p, st)
    ensures var d := g.dirs[st.posY][st.posX];
      FlagsInward(d, st.posY, st.posX) &&
      Children(p, g, o, st) ==
        (if d.left then [LeftChild(p, o, st)] else [])
        + (if d.up then [UpChild(p, o, st)] else [])
        + (if d.diagonal then [DiagonalChild(p, o, st)] else [])
  {
    assert FlagsInward(g.dirs[st.posY][st.posX], st.posY, st.posX);
  }

  /** The branch a left flag pushes, and its weight: the tree to the left. */
  lemma LeftPart(p: Problem, g: Grid, o: Orientation, st: State) returns (b: seq<State>)
    requires WellFormed(p, g) && StateInGrid(p, st)
    ensures var d := g.dirs[st.posY][st.posX];
      FlagsInward(d, st.posY, st.posX)
      && b == (if d.left then [LeftChild(p, o, st)] else [])
      && AllInGrid(p, b)
      && Weight(p, g, b) == if d.left then TreeSize(p, g, st.posY, st.posX - 1) else 0
  {
    assert FlagsInward(g.dirs[st.posY][st.posX], st.posY, st.posX);
    if g.dirs[st.posY][st.posX].left {
      b := [LeftChild(p, o, st)];
      WeightOfOptional(p, g, true, LeftChild(p, o, st));
    } else {
      b := [];
    }
  }

  /** The branch an up flag pushes, and its weight: the tree above. */
  lemma UpPart(p: Problem, g: Grid, o: Orientation, st: State) returns (b: seq<State>)
    requires WellFormed(p, g) && StateInGrid(p, st)
    ensures var d := g.dirs[st.posY][st.posX];
      FlagsInward(d, st.posY, st.posX)
      && b == (if d.up then [UpChild(p, o, st)] else [])
      && AllInGrid(p, b)
      && Weight(p, g, b) == if d.up then TreeSize(p, g, st.posY - 1, st.posX) else 0
  {
    assert FlagsInward(g.dirs[st.posY][st.posX], st.posY, st.posX);
    if g.dirs[st.posY][st.posX].up {
      b := [UpChild(p, o, st)];
      WeightOfOptional(p, g, true, UpChild(p, o, st));
    } else {
      b := [];
    }
  }

  /** The branch a diagonal flag pushes, and its weight: the tree on the diagonal. */
  lemma DiagonalPart(p: Problem, g: Grid, o: Orientation, st: State) returns (b: seq<State>)
    requires WellFormed(p, g) && StateInGrid(p, st)
    ensures var d := g.dirs[st.posY][st.posX];
      FlagsInward(d, st.posY, st.posX)
      && b == (if d.diagonal then [DiagonalChild(p, o, st)] else [])
      && AllInGrid(p, b)
      && Weight(p, g, b) == if d.diagonal then TreeSize(p, g, st.posY - 1, st.posX - 1) else 0
  {
    assert FlagsInward(g.dirs[st.posY][st.posX], st.posY, st.posX);
    if g.dirs[st.posY][st.posX].diagonal {
      b := [DiagonalChild(p, o, st)];
      WeightOfOptional(p, g, true, DiagonalChild(p, o, st));
    } else {
      b := [];
    }
  }

  /** A tree is its root and the trees of its flagged predecessors. */
  lemma TreeSizeByFlag(p: Problem, g: Grid, y: nat, x: nat)
    requires WellFormed(p, g) && InGrid(p, y, x)
    ensures var d := g.dirs[y][x];
      FlagsInward(d, y, x) &&
      TreeSize(p, g, y, x) == 1 + (if d.left then TreeSize(p, g, y, x - 1) else 0)
        + (if d.up then TreeSize(p, g, y - 1, x) else 0)
        + (if d.diagonal then TreeSize(p, g, y - 1, x - 1) else 0)
  {
    assert FlagsInward(g.dirs[y][x], y, x);
  }

  /** Replacing a popped state by its children uses up exactly one unit. */
  lemma ChildrenWeight(p: Problem, g: Grid, o: Orientation, st: State)
    requires WellFormed(p, g) && StateInGrid(p, st)
    ensures Weight(p, g, Children(p, g, o, st)) + 1 == TreeSize(p, g, st.posY, st.posX)
  {
    ChildrenByFlag(p, g, o, st);
    var l := LeftPart(p, g, o, st);
    var u := UpPart(p, g, o, st);
    var dg := DiagonalPart(p, g, o, st);
    WeightOfThree(p, g, l, u, dg);
    TreeSizeByFlag(p, g, st.posY, st.posX);
  }

  lemma WeightOfThree(p: Problem, g: Grid, l: seq<State>, u: seq<State>, dg: seq<State>)
    requires WellFormed(p, g) && AllInGrid(p, l) && AllInGrid(p, u) && AllInGrid(p, dg)
    ensures AllInGrid(p, l + u + dg)
    ensures Weight(p, g, l + u + dg) == Weight(p, g, l) + Weight(p, g, u) + Weight(p, g, dg)
  {
    WeightAppend(p, g, l, u);
    WeightAppend(p, g, l + u, dg);
  }

  /** The worklist loop of `_traceback`: pop the last state; record its pair
      if it is terminal, otherwise push its children; stop when the worklist
      is empty or `n` distinct pairs are recorded. */
  function Search(p: Problem, g: Grid, o: Orientation, states: seq<State>, sols: set<Pair>, n: int): set<Pair>
    requires WellFormed(p, g) && AllInGrid(p, states)
    decreases Weight(p, g, states)
  {
    if |states| == 0 || |sols| >= n then sols
    else
      var st := states[|states| - 1];
      var rest := states[..|states| - 1];
      if Terminal(p, g, st) then Search(p, g, o, rest, sols + {(st.s1, st.s2)}, n)
      else
        ChildrenWeight(p, g, o, st);
        WeightAppend(p, g, rest, Children(p, g, o, st));
        Search(p, g, o, rest + Children(p, g, o, st), sols, n)
  }

  /** One turn of the loop: pop the last state, then record it or push its
      children. */
  lemma SearchStep(p: Problem, g: Grid, o: Orientation, rest: seq<State>, st: State, sols: set<Pair>, n: int)
    requires WellFormed(p, g) && AllInGrid(p, rest) && StateInGrid(p, st) && |sols| < n
    ensures AllInGrid(p, rest + [st]) && AllInGrid(p, rest + Children(p, g, o, st))
    ensures Weight(p, g, rest) < Weight(p, g, rest + [st])
    ensures Weight(p, g, rest + Children(p, g, o, st)) < Weight(p, g, rest + [st])
    ensures Search(p, g, o, rest + [st], sols, n) ==
      if Terminal(p, g, st) then Search(p, g, o, rest, sols + {(st.s1, st.s2)}, n)
      else Search(p, g, o, rest + Children(p, g, o, st), sols, n)
  {
    var states := rest + [st];
    assert states[..|states| - 1] == rest;
    ChildrenWeight(p, g, o, st);
    WeightAppend(p, g, rest, Children(p, g, o, st));
  }

  /** Popping a lone terminal state records its pair. */
  lemma PopTerminal(p: Problem, g: Grid, o: Orientation, st: State, sols: set<Pair>, n: int)
    requires WellFormed(p, g) && StateInGrid(p, st) && Terminal(p, g, st) && |sols| < n
    ensures Search(p, g, o, [st], sols, n) == Search(p, g, o, [], sols + {(st.s1, st.s2)}, n)
  {
    assert [] + [st] == [st];
    SearchStep(p, g, o, [], st, sols, n);
  }

  /** Popping a lone state with a single child leaves that child alone. */
  lemma PopOnlyChild(p: Problem, g: Grid, o: Orientation, st: State, c: State, sols: set<Pair>, n: int)
    requires WellFormed(p, g) && StateInGrid(p, st) && !Terminal(p, g, st)
    requires Children(p, g, o, st) == [c] && |sols| < n
    ensures StateInGrid(p, c)
    ensures Search(p, g, o, [st], sols, n) == Search(p, g, o, [c], sols, n)
  {
    assert [] + [st] == [st] && [] + [c] == [c];
    SearchStep(p, g, o, [], st, sols, n);
  }

  /** The largest entry of a non-empty row. */
  function RowMax(row: seq<int>): (r: int)
    requires |row| > 0
    ensures forall k :: 0 <= k < |row| ==> row[k] <= r
    ensures exists k :: 0 <= k < |row| && row[k] == r
  {
    if |row| == 1 then row[0] else Max(RowMax(row[..|row| - 1]), row[|row| - 1])
  }

  /** `np.max(score_matrix)`: the largest entry of the matrix. */
  function GridMax(rows: seq<seq<int>>): (r: int)
    requires |rows| > 0 && forall i :: 0 <= i < |rows| ==> |rows[i]| > 0
    ensures forall i, j :: 0 <= i < |rows| && 0 <= j < |rows[i]| ==> rows[i][j] <= r
    ensures exists i, j :: 0 <= i < |rows| && 0 <= j < |rows[i]| && rows[i][j] == r
  {
    if |rows| == 1 then RowMax(rows[0]) else Max(GridMax(rows[..|rows| - 1]), RowMax(rows[|rows| - 1]))
  }

  predicate KnownStrategy(p: Problem)
  {
    p.strategy == "global" || p.strategy == "local"
  }

  /** The score `_traceback` reports: the bottom-right cell for the global
      strategy, the largest cell for the local one. */
  function ReportedScore(p: Problem, g: Grid): int
    requires WellFormed(p, g) && KnownStrategy(p)
  {
    if p.strategy == "global" then g.scores[|p.seq1|][|p.seq2|] else GridMax(g.scores)
  }

  predicate RowMajorBefore(s: State, t: State)
  {
    s.posY < t.posY || (s.posY == t.posY && s.posX < t.posX)
  }

  /** Start states `[y, x, '', '']` for the cells (i, 0..j-1) scoring v,
      left to right. */
  function CellsInRow(p: Problem, g: Grid, v: int, i: nat, j: nat): (r: seq<State>)
    requires WellFormed(p, g) && i <= |p.seq1| && j <= |p.seq2| + 1
    ensures forall k :: 0 <= k < |r| ==>
      StateInGrid(p, r[k]) && r[k].posY == i && r[k].posX < j && g.scores[i][r[k].posX] == v && r[k].s1 == [] && r[k].s2 == []
    ensures forall b :: 0 <= b < j && g.scores[i][b] == v ==> State(i, b, [], []) in r
    ensures forall k, l :: 0 <= k < l < |r| ==> r[k].posX < r[l].posX
  {
    if j == 0 then []
    else CellsInRow(p, g, v, i, j - 1) + (if g.scores[i][j - 1] == v then [State(i, j - 1, [], [])] else [])
  }

  /** Start states for the cells of rows 0..i-1 scoring v, in row-major order,
      as `np.argwhere(score_matrix == v)` lists them. */
  function CellsScoring(p: Problem, g: Grid, v: int, i: nat): (r: seq<State>)
    requires WellFormed(p, g) && i <= |p.seq1| + 1
    ensures forall k :: 0 <= k < |r| ==>
      StateInGrid(p, r[k]) && r[k].posY < i && g.scores[r[k].posY][r[k].posX] == v && r[k].s1 == [] && r[k].s2 == []
    ensures forall a, b :: 0 <= a < i && 0 <= b <= |p.seq2| && g.scores[a][b] == v ==> State(a, b, [], []) in r
    ensures forall k, l :: 0 <= k < l < |r| ==> RowMajorBefore(r[k], r[l])
  {
    if i == 0 then [] else CellsScoring(p, g, v, i - 1) + CellsInRow(p, g, v, i - 1, |p.seq2| + 1)
  }

  /** The worklist the search starts from: the bottom-right cell for the
      global strategy; for the local one every cell with the largest score,
      of which there is at least one. Every start cell holds the reported
      score. */
  function InitialStates(p: Problem, g: Grid): (r: seq<State>)
    requires WellFormed(p, g) && KnownStrategy(p)
    ensures AllInGrid(p, r) && |r| > 0
    ensures forall k :: 0 <= k < |r| ==>
      g.scores[r[k].posY][r[k].posX] == ReportedScore(p, g) && r[k].s1 == [] && r[k].s2 == []
  {
    if p.strategy == "global" then [State(|p.seq1|, |p.seq2|, [], [])]
    else
      var v := GridMax(g.scores);
      var a, b :| 0 <= a < |g.scores| && 0 <= b < |g.scores[a]| && g.scores[a][b] == v;
      var r := CellsScoring(p, g, v, |p.seq1| + 1);
      assert State(a, b, [], []) in r;
      r
  }

  /** The pairs a search returns: what it started with, and never more than
      `n` once it started with fewer; a search asked for `n <= 0` pairs
      returns what it started with. */
  lemma {:induction false} SearchBound(p: Problem, g: Grid, o: Orientation, states: seq<State>, sols: set<Pair>, n: int)
    requires WellFormed(p, g) && AllInGrid(p, states)
    ensures sols <= Search(p, g, o, states, sols, n)
    ensures |sols| >= n ==> Search(p, g, o, states, sols, n) == sols
    ensures |sols| <= n ==> |Search(p, g, o, states, sols, n)| <= n
    decreases Weight(p, g, states)
  {
    if |states| == 0 || |sols| >= n {
    } else {
      var st := states[|states| - 1];
      var rest := states[..|states| - 1];
      if Terminal(p, g, st) {
        var sols' := sols + {(st.s1, st.s2)};
        assert |sols'| <= |sols| + 1;
        SearchBound(p, g, o, rest, sols', n);
      } else {
        ChildrenWeight(p, g, o, st);
        WeightAppend(p, g, rest, Children(p, g, o, st));
        SearchBound(p, g, o, rest + Children(p, g, o, st), sols, n);
      }
    }
  }

  /** The set of pairs `_traceback` collects before sorting. */
  function Found(p: Problem, g: Grid, n: int): set<Pair>
    requires WellFormed(p, g) && KnownStrategy(p)
  {
    Search(p, g, AsWritten, InitialStates(p, g), {}, n)
  }

  /** At most n pairs are collected, none at all when n <= 0. */
  lemma FoundBound(p: Problem, g: Grid, n: int)
    requires WellFormed(p, g) && KnownStrategy(p)
    ensures n <= 0 ==> Found(p, g, n) == {}
    ensures n >= 0 ==> |Found(p, g, n)| <= n
  {
    SearchBound(p, g, AsWritten, InitialStates(p, g), {}, n);
  }

  /** `s` with every gap symbol '-' removed. */
  function Strip(s: string): string
  {
    if |s| == 0 then []
    else Strip(s[..|s| - 1]) + (if s[|s| - 1] == '-' then [] else [s[|s| - 1]])
  }

  lemma StripAppend(s: string, c: char)
    ensures Strip(s + [c]) == Strip(s) + (if c == '-' then [] else [c])
  {
    assert (s + [c])[..|s|] == s;
  }

  /** Putting a symbol in front of a run puts it in front of the stripped
      run, unless it is the gap symbol. */
  lemma {:induction false} StripPrepend(c: char, s: string)
    ensures Strip([c] + s) == (if c == '-' then [] else [c]) + Strip(s)
    decreases |s|
  {
    if |s| == 0 {
      assert [c] + s == [c];
      assert Strip([c]) == Strip([c][..0]) + (if c == '-' then [] else [c]);
      assert [c][..0] == [];
    } else {
      var s', e := s[..|s| - 1], s[|s| - 1];
      assert [c] + s == ([c] + s') + [e];
      assert s == s' + [e];
      StripPrepend(c, s');
      StripAppend([c] + s', e);
      StripAppend(s', e);
    }
  }

  /** Runs seq1[lo1..hi1] and seq2[lo2..hi2] are what the pair aligns. */
  predicate Runs(p: Problem, pr: Pair, lo1: nat, hi1: nat, lo2: nat, hi2: nat)
  {
    lo1 <= hi1 <= |p.seq1| && lo2 <= hi2 <= |p.seq2|
    && Strip(pr.0) == Strip(p.seq1[lo1..hi1]) && Strip(pr.1) == Strip(p.seq2[lo2..hi2])
  }

  /** What a returned pair is: two strings of equal length; removing the gaps
      gives back the whole of each sequence under the global strategy, and a
      contiguous run of each under the local one (gap symbols inside the
      sequences themselves are removed on both sides). */
  ghost predicate IsAlignment(p: Problem, pr: Pair)
  {
    |pr.0| == |pr.1| &&
    if IsLocal(p) then
      exists lo1, hi1, lo2, hi2 :: Runs(p, pr, lo1, hi1, lo2, hi2)
    else
      Strip(pr.0) == Strip(p.seq1) && Strip(pr.1) == Strip(p.seq2)
  }

  /** The symbols a branch that started at index `from` (a row or column of
      the matrix) and now stands at index `to` has recorded. As written they
      are read through the negative index, from the end of the sequence:
      s[|s|-from .. |s|-to]. Corrected, they are the symbols the path steps
      over: s[to..from]. */
  function Consumed(s: string, o: Orientation, from: nat, to: nat): string
    requires to <= from <= |s|
  {
    if o == AsWritten then s[|s| - from .. |s| - to] else s[to..from]
  }

  /** A pending branch started at (y0, x0) (the bottom-right cell under the
      global strategy) has recorded, gaps aside, exactly the runs it has
      consumed from each sequence. */
  predicate Trace(p: Problem, o: Orientation, st: State, y0: nat, x0: nat)
  {
    st.posY <= y0 <= |p.seq1| && st.posX <= x0 <= |p.seq2|
    && Strip(st.s1) == Strip(Consumed(p.seq1, o, y0, st.posY))
    && Strip(st.s2) == Strip(Consumed(p.seq2, o, x0, st.posX))
    && (!IsLocal(p) ==> y0 == |p.seq1| && x0 == |p.seq2|)
  }

  ghost predicate StateOk(p: Problem, o: Orientation, st: State)
  {
    |st.s1| == |st.s2| && exists y0, x0 :: Trace(p, o, st, y0, x0)
  }

  /** As written, reading the next symbol through the negative index and
      appending it extends the consumed run by that symbol. */
  lemma ConsumeOne(s: string, from: nat, to: nat, t: string)
    requires 1 <= to <= from <= |s| && Strip(t) == Strip(Consumed(s, AsWritten, from, to))
    ensures Strip(t + [s[|s| - to]]) == Strip(Consumed(s, AsWritten, from, to - 1))
  {
    ConsumedSnoc(s, from, to);
    StripSame(t, Consumed(s, AsWritten, from, to), Consumed(s, AsWritten, from, to - 1), s[|s| - to]);
  }

  lemma ConsumedSnoc(s: string, from: nat, to: nat)
    requires 1 <= to <= from <= |s|
    ensures Consumed(s, AsWritten, from, to - 1) == Consumed(s, AsWritten, from, to) + [s[|s| - to]]
  {
  }

  /** Runs that strip alike still strip alike after the same symbol. */
  lemma StripSame(t: string, u: string, v: string, c: char)
    requires Strip(t) == Strip(u) && v == u + [c]
    ensures Strip(t + [c]) == Strip(v)
  {
    StripAppend(t, c);
    StripAppend(u, c);
  }

  /** Corrected, putting the symbol stepped over in front extends the
      consumed run at its front. */
  lemma ConsumeFront(s: string, from: nat, to: nat, t: string)
    requires 1 <= to <= from <= |s| && Strip(t) == Strip(Consumed(s, Intended, from, to))
    ensures Strip([s[to - 1]] + t) == Strip(Consumed(s, Intended, from, to - 1))
  {
    var u := Consumed(s, Intended, from, to);
    assert Consumed(s, Intended, from, to - 1) == [s[to - 1]] + u;
    StripPrepend(s[to - 1], t);
    StripPrepend(s[to - 1], u);
  }

  /** One symbol recorded from seq1 on leaving row posY keeps the trace. */
  lemma RecordOk1(p: Problem, o: Orientation, st: State, y0: nat, x0: nat)
    requires Trace(p, o, st, y0, x0) && 1 <= st.posY
    ensures Strip(Extend(o, st.s1, Symbol1(p, o, st.posY))) == Strip(Consumed(p.seq1, o, y0, st.posY - 1))
  {
    if o == AsWritten {
      ConsumeOne(p.seq1, y0, st.posY, st.s1);
    } else {
      ConsumeFront(p.seq1, y0, st.posY, st.s1);
    }
  }

  /** One symbol recorded from seq2 on leaving column posX keeps the trace. */
  lemma RecordOk2(p: Problem, o: Orientation, st: State, y0: nat, x0: nat)
    requires Trace(p, o, st, y0, x0) && 1 <= st.posX
    ensures Strip(Extend(o, st.s2, Symbol2(p, o, st.posX))) == Strip(Consumed(p.seq2, o, x0, st.posX - 1))
  {
    if o == AsWritten {
      ConsumeOne(p.seq2, x0, st.posX, st.s2);
    } else {
      ConsumeFront(p.seq2, x0, st.posX, st.s2);
    }
  }

  /** A recorded gap strips away. */
  lemma RecordGap(o: Orientation, s: string)
    ensures Strip(Extend(o, s, '-')) == Strip(s)
  {
    if o == AsWritten {
      StripAppend(s, '-');
    } else {
      StripPrepend('-', s);
    }
  }

  lemma LeftChildOk(p: Problem, o: Orientation, st: State, y0: nat, x0: nat)
    requires Trace(p, o, st, y0, x0) && 1 <= st.posX
    ensures Trace(p, o, LeftChild(p, o, st), y0, x0)
  {
    RecordOk2(p, o, st, y0, x0);
    RecordGap(o, st.s1);
  }

  lemma UpChildOk(p: Problem, o: Orientation, st: State, y0: nat, x0: nat)
    requires Trace(p, o, st, y0, x0) && 1 <= st.posY
    ensures Trace(p, o, UpChild(p, o, st), y0, x0)
  {
    RecordOk1(p, o, st, y0, x0);
    RecordGap(o, st.s2);
  }

  lemma DiagonalChildOk(p: Problem, o: Orientation, st: State, y0: nat, x0: nat)
    requires Trace(p, o, st, y0, x0) && 1 <= st.posY && 1 <= st.posX
    ensures Trace(p, o, DiagonalChild(p, o, st), y0, x0)
  {
    RecordOk1(p, o, st, y0, x0);
    RecordOk2(p, o, st, y0, x0);
  }

  lemma TraceIsStateOk(p: Problem, o: Orientation, st: State, y0: nat, x0: nat)
    requires Trace(p, o, st, y0, x0) && |st.s1| == |st.s2|
    ensures StateOk(p, o, st)
  {
  }

  /** A step keeps the consumed runs contiguous: each grows by the symbol
      the step records. */
  lemma ChildrenOk(p: Problem, g: Grid, o: Orientation, st: State)
    requires WellFormed(p, g) && StateInGrid(p, st) && StateOk(p, o, st)
    ensures forall c :: c in Children(p, g, o, st) ==> StateOk(p, o, c)
  {
    var y0, x0 :| Trace(p, o, st, y0, x0);
    var d := g.dirs[st.posY][st.posX];
    assert FlagsInward(d, st.posY, st.posX);
    forall c | c in Children(p, g, o, st)
      ensures StateOk(p, o, c)
    {
      if d.left && c == LeftChild(p, o, st) {
        LeftChildOk(p, o, st, y0, x0);
        TraceIsStateOk(p, o, c, y0, x0);
      } else if d.up && c == UpChild(p, o, st) {
        UpChildOk(p, o, st, y0, x0);
        TraceIsStateOk(p, o, c, y0, x0);
      } else {
        assert d.diagonal && c == DiagonalChild(p, o, st);
        DiagonalChildOk(p, o, st, y0, x0);
        TraceIsStateOk(p, o, c, y0, x0);
      }
    }
  }

  /** A terminal branch yields an alignment: under the global strategy it can
      only stop at the origin, having consumed both sequences whole. */
  lemma TerminalOk(p: Problem, g: Grid, o: Orientation, st: State)
    requires WellFormed(p, g) && EndsAtZero(p, g)
    requires StateInGrid(p, st) && StateOk(p, o, st) && Terminal(p, g, st)
    ensures IsAlignment(p, (st.s1, st.s2))
  {
    var y0, x0 :| Trace(p, o, st, y0, x0);
    if IsLocal(p) {
      LocalTerminalOk(p, o, st, y0, x0);
    } else {
      assert st.posY == 0 && st.posX == 0;
      GlobalTerminalOk(p, o, st);
    }
  }

  /** Under the local strategy the consumed runs are the runs aligned: read
      from the end of each sequence as written, stepped over when
      corrected. */
  lemma LocalTerminalOk(p: Problem, o: Orientation, st: State, y0: nat, x0: nat)
    requires Trace(p, o, st, y0, x0)
    ensures o == AsWritten ==>
      Runs(p, (st.s1, st.s2), |p.seq1| - y0, |p.seq1| - st.posY, |p.seq2| - x0, |p.seq2| - st.posX)
    ensures o == Intended ==> Runs(p, (st.s1, st.s2), st.posY, y0, st.posX, x0)
  {
  }

  /** Under the global strategy a branch that reached the origin consumed
      both sequences whole. */
  lemma GlobalTerminalOk(p: Problem, o: Orientation, st: State)
    requires !IsLocal(p) && st.posY == 0 && st.posX == 0 && |st.s1| == |st.s2|
    requires Trace(p, o, st, |p.seq1|, |p.seq2|)
    ensures IsAlignment(p, (st.s1, st.s2))
  {
    assert Consumed(p.seq1, o, |p.seq1|, 0) == p.seq1 && Consumed(p.seq2, o, |p.seq2|, 0) == p.seq2;
  }

  /** Every pair the search records is an alignment, provided every pending
      branch is consistent and every pair already recorded is one. */
  lemma {:induction false} SearchAlignments(p: Problem, g: Grid, o: Orientation, states: seq<State>, sols: set<Pair>, n: int)
    requires WellFormed(p, g) && EndsAtZero(p, g) && AllInGrid(p, states)
    requires forall k :: 0 <= k < |states| ==> StateOk(p, o, states[k])
    requires forall pr :: pr in sols ==> IsAlignment(p, pr)
    ensures forall pr :: pr in Search(p, g, o, states, sols, n) ==> IsAlignment(p, pr)
    decreases Weight(p, g, states)
  {
    if |states| == 0 || |sols| >= n {
    } else {
      var st := states[|states| - 1];
      var rest := states[..|states| - 1];
      if Terminal(p, g, st) {
        TerminalOk(p, g, o, st);
        SearchAlignments(p, g, o, rest, sols + {(st.s1, st.s2)}, n);
      } else {
        var c := Children(p, g, o, st);
        ChildrenWeight(p, g, o, st);
        WeightAppend(p, g, rest, c);
        ChildrenOk(p, g, o, st);
        forall k | 0 <= k < |rest + c|
          ensures StateOk(p, o, (rest + c)[k])
        {
          if k < |rest| {
            assert (rest + c)[k] == states[k];
          } else {
            assert (rest + c)[k] in c;
          }
        }
        SearchAlignments(p, g, o, rest + c, sols, n);
      }
    }
  }

  /** The start states are consistent branches. */
  lemma InitialStatesOk(p: Problem, g: Grid, o: Orientation)
    requires WellFormed(p, g) && KnownStrategy(p)
    ensures forall k :: 0 <= k < |InitialStates(p, g)| ==> StateOk(p, o, InitialStates(p, g)[k])
  {
    var r := InitialStates(p, g);
    forall k | 0 <= k < |r|
      ensures StateOk(p, o, r[k])
    {
      var st := r[k];
      if !IsLocal(p) {
        assert st == State(|p.seq1|, |p.seq2|, [], []);
      }
      assert Trace(p, o, st, st.posY, st.posX);
    }
  }

  /** Every collected pair is an alignment of the two sequences (of the
      whole of each under the global strategy, of a run of each under the
      local one). */
  lemma FoundAreAlignments(p: Problem, g: Grid, n: int)
    requires WellFormed(p, g) && EndsAtZero(p, g) && KnownStrategy(p)
    ensures forall pr :: pr in Found(p, g, n) ==> IsAlignment(p, pr)
  {
    InitialStatesOk(p, g, AsWritten);
    SearchAlignments(p, g, AsWritten, InitialStates(p, g), {}, n);
  }
}
