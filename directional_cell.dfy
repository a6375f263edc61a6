/** The three traceback flags of one matrix cell (src/directional_cell.py).
    A cell is built once and never changed, so it is a value; the number of
    set flags is derived from the flags rather than stored. */
module DirectionalCells {

  datatype DirectionalCell = DirectionalCell(up: bool := false, diagonal: bool := false, left: bool := false)

  /** The cell built with every argument left at its default: no flags. */
  const Default: DirectionalCell := DirectionalCell()

  /** The three predecessors a flag can point to. */
  datatype Direction = Up | Diagonal | Left

  /** Reference view of a cell: the set of directions whose flag is set. */
  function Flags(c: DirectionalCell): set<Direction>
  {
    (if c.up then {Up} else {}) + (if c.diagonal then {Diagonal} else {}) + (if c.left then {Left} else {})
  }

  /** `num_directions`: how many of the three flags are set. A cell with no
      flag is where a traceback path ends. */
  function NumDirections(c: DirectionalCell): (k: nat)
    ensures k <= 3
    ensures k == 0 <==> c == Default
    ensures k == 3 <==> c.up && c.diagonal && c.left
  {
    (if c.up then 1 else 0) + (if c.diagonal then 1 else 0) + (if c.left then 1 else 0)
  }

  /** `get_directions`: the flags as an (up, diagonal, left) triple; the triple
      rebuilds the very cell it was read from. */
  function GetDirections(c: DirectionalCell): (r: (bool, bool, bool))
    ensures DirectionalCell(r.0, r.1, r.2) == c
  {
    (c.up, c.diagonal, c.left)
  }

  /** The count is the size of the set of flagged directions. */
  lemma NumDirectionsCountsFlags(c: DirectionalCell)
    ensures NumDirections(c) == |Flags(c)|
  {
    var f1: set<Direction> := if c.up then {Up} else {};
    var f2: set<Direction> := if c.diagonal then {Diagonal} else {};
    var f3: set<Direction> := if c.left then {Left} else {};
    assert f1 !! f2 && (f1 + f2) !! f3;
    assert |f1 + f2| == |f1| + |f2|;
    assert |f1 + f2 + f3| == |f1 + f2| + |f3|;
  }

  /** The worked cases: all flags give 3, only `up` gives 1, the default gives 0. */
  lemma ConstructorExamples()
    ensures NumDirections(DirectionalCell(up := true, diagonal := true, left := true)) == 3
    ensures GetDirections(DirectionalCell(up := true, diagonal := true, left := true)) == (true, true, true)
    ensures NumDirections(DirectionalCell(up := true)) == 1
    ensures GetDirections(DirectionalCell(up := true)) == (true, false, false)
    ensures NumDirections(DirectionalCell()) == 0 && GetDirections(DirectionalCell()) == (false, false, false)
  {
  }
}
