/** The 9x9 board of the Sudoku engine: its digit matrix, the filled-cell
    counter that travels with it, the two primitive mutations the algorithms
    use, and the row/column/block placement rule.

    The matrix `digits[x][y]` (x first) is stored flat: cell (x, y) lives at
    index `x * 9 + y`, so scanning the flat sequence left to right visits the
    cells in the order the solver scans them (x-major, y inner). */
module Sudoku {

  const Size: int := 9
  const BlockSize: int := 3
  const MinDigit: int := 1
  const MaxDigit: int := 9
  const EmptyDigit: int := 0
  const CellCount: int := 81

  /** A coordinate along either axis. */
  type Coord = i: int | 0 <= i < 9

  /** A position inside a group of three lines, or the index of such a
      group: groups start at lines 0, 3 and 6. */
  type Third = i: int | 0 <= i < 3

  /** The digit matrix, flattened. */
  type Grid = g: seq<int> | |g| == 81 witness seq(81, i => 0)

  /** The board: the digit matrix and the counter `digitAmount`, which
      Board.java keeps equal to the number of non-zero cells by hand. */
  datatype Board = Board(digits: Grid, digitAmount: int)

  function Idx(x: Coord, y: Coord): (i: nat)
    ensures i < CellCount
  {
    x * Size + y
  }

  lemma IdxInjective(x1: Coord, y1: Coord, x2: Coord, y2: Coord)
    ensures Idx(x1, y1) == Idx(x2, y2) <==> x1 == x2 && y1 == y2
  {
  }

  /** The number of empty cells. */
  function Empty(g: Grid): int
  {
    multiset(g)[EmptyDigit]
  }

  /** The number of filled (non-zero) cells. */
  function Filled(g: Grid): int
  {
    CellCount - Empty(g)
  }

  predicate IsDigit(d: int)
  {
    MinDigit <= d <= MaxDigit
  }

  /** Every cell holds 0 (empty) or a digit 1..9. */
  predicate InRange(g: Grid)
  {
    forall i :: 0 <= i < |g| ==> EmptyDigit <= g[i] <= MaxDigit
  }

  /** The representation invariant Board.java maintains: cells in range and
      `digitAmount` equal to the number of non-zero cells. */
  predicate WellFormed(b: Board)
  {
    InRange(b.digits) && b.digitAmount == Filled(b.digits)
  }

  predicate IsFull(g: Grid)
  {
    forall i :: 0 <= i < |g| ==> g[i] != EmptyDigit
  }

  lemma FilledFull(g: Grid)
    ensures Filled(g) == CellCount <==> IsFull(g)
  {
    if !IsFull(g) {
      var i :| 0 <= i < |g| && g[i] == EmptyDigit;
      assert g[i] in multiset(g);
    } else {
      assert EmptyDigit !in g;
    }
  }

  /** Every cell of `h` holds the digit `g` holds there, or is empty. */
  predicate ClearedFrom(g: Grid, h: Grid)
  {
    forall i :: 0 <= i < CellCount ==> h[i] == g[i] || h[i] == EmptyDigit
  }

  /** Empties cell (x, y) and counts one filled cell fewer
      (Board.java:123-124, and the removal at 183-184). Only that cell is
      emptied, and clearing a filled cell empties exactly one more cell, so
      the counter keeps its distance from the true filled count. */
  function Clear(b: Board, x: Coord, y: Coord): (r: Board)
    ensures r.digits[Idx(x, y)] == EmptyDigit
    ensures ClearedFrom(b.digits, r.digits)
    ensures b.digits[Idx(x, y)] != EmptyDigit ==>
              Empty(r.digits) == Empty(b.digits) + 1 && r.digitAmount - Filled(r.digits) == b.digitAmount - Filled(b.digits)
  {
    Board(b.digits[Idx(x, y) := EmptyDigit], b.digitAmount - 1)
  }

  /** Writes a digit into cell (x, y) and counts one more filled cell
      (Board.java:118-119, and the restore at 188-189). On an empty cell,
      clearing it again restores the board, counter included. */
  function Place(b: Board, x: Coord, y: Coord, d: int): (r: Board)
    ensures r.digits[Idx(x, y)] == d
    ensures b.digits[Idx(x, y)] == EmptyDigit ==> Clear(r, x, y) == b
  {
    var r := Board(b.digits[Idx(x, y) := d], b.digitAmount + 1);
    assert b.digits[Idx(x, y)] == EmptyDigit ==> r.digits[Idx(x, y) := EmptyDigit] == b.digits;
    r
  }

  /** Placing a digit into an empty cell fills exactly one more cell, so a
      well-formed board stays well formed. */
  lemma PlaceFills(b: Board, x: Coord, y: Coord, d: int)
    requires b.digits[Idx(x, y)] == EmptyDigit && IsDigit(d)
    ensures Empty(Place(b, x, y, d).digits) == Empty(b.digits) - 1
    ensures WellFormed(b) ==> WellFormed(Place(b, x, y, d))
  {
  }

  /** Clearing a cell and writing its digit back restores the board. */
  lemma ClearPlace(b: Board, x: Coord, y: Coord)
    ensures Place(Clear(b, x, y), x, y, b.digits[Idx(x, y)]) == b
  {
    assert Place(Clear(b, x, y), x, y, b.digits[Idx(x, y)]).digits == b.digits;
  }

  /** Two cells share a unit: the same x-line, the same y-line, or the same
      3x3 block. Every cell shares a unit with itself. */
  predicate SameUnit(x1: Coord, y1: Coord, x2: Coord, y2: Coord)
  {
    x1 == x2 || y1 == y2 || (x1 / BlockSize == x2 / BlockSize && y1 / BlockSize == y2 / BlockSize)
  }

  /** Row/column/block validity: no non-zero digit occurs twice in a unit. */
  predicate Valid(g: Grid)
  {
    forall x1: Coord, y1: Coord, x2: Coord, y2: Coord {:trigger SameUnit(x1, y1, x2, y2)} ::
      (x1 != x2 || y1 != y2) && SameUnit(x1, y1, x2, y2) && g[Idx(x1, y1)] != EmptyDigit
      ==> g[Idx(x1, y1)] != g[Idx(x2, y2)]
  }

  /** The placement test of Board.java:87-116: the digit must be absent
      from the same-y line and the same-x line (one loop over i) and from
      the 3x3 block whose corner is (x/3*3, y/3*3). Together these scans
      visit exactly the cells that share a unit with (x, y), the cell itself
      included. */
  function Placeable(g: Grid, x: Coord, y: Coord, d: int): (r: bool)
    ensures r <==> forall x2: Coord, y2: Coord :: SameUnit(x, y, x2, y2) ==> g[Idx(x2, y2)] != d
  {
    ScanCoversUnits(g, x, y, d);
    LineScan(g, x, y, d) && BlockScan(g, x, y, d)
  }

  /** The loop of Board.java:90-96 over the same-y and the same-x line. */
  predicate LineScan(g: Grid, x: Coord, y: Coord, d: int)
  {
    forall i: Coord :: g[Idx(i, y)] != d && g[Idx(x, i)] != d
  }

  /** The nested loop of Board.java:100-114 over the block of (x, y). */
  predicate BlockScan(g: Grid, x: Coord, y: Coord, d: int)
  {
    forall x2: Coord, y2: Coord |
      Corner(x) <= x2 < Corner(x) + BlockSize && Corner(y) <= y2 < Corner(y) + BlockSize ::
      g[Idx(x2, y2)] != d
  }

  /** The first coordinate of the block containing `i` (`i / 3 * 3`). */
  function Corner(i: Coord): Coord
  {
    i / BlockSize * BlockSize
  }

  lemma ScanCoversUnits(g: Grid, x: Coord, y: Coord, d: int)
    ensures LineScan(g, x, y, d) && BlockScan(g, x, y, d) <==>
            forall x2: Coord, y2: Coord :: SameUnit(x, y, x2, y2) ==> g[Idx(x2, y2)] != d
  {
    if LineScan(g, x, y, d) && BlockScan(g, x, y, d) {
      forall x2: Coord, y2: Coord | SameUnit(x, y, x2, y2)
        ensures g[Idx(x2, y2)] != d
      {
        if x2 == x {
          assert g[Idx(x, y2)] != d;
        } else if y2 == y {
          assert g[Idx(x2, y)] != d;
        } else {
          assert Corner(x) <= x2 < Corner(x) + BlockSize;
          assert Corner(y) <= y2 < Corner(y) + BlockSize;
        }
      }
    }
    if forall x2: Coord, y2: Coord :: SameUnit(x, y, x2, y2) ==> g[Idx(x2, y2)] != d {
      forall x2: Coord, y2: Coord |
        Corner(x) <= x2 < Corner(x) + BlockSize && Corner(y) <= y2 < Corner(y) + BlockSize
        ensures g[Idx(x2, y2)] != d
      {
        assert SameUnit(x, y, x2, y2);
      }
      forall i: Coord
        ensures g[Idx(i, y)] != d && g[Idx(x, i)] != d
      {
        assert SameUnit(x, y, i, y) && SameUnit(x, y, x, i);
      }
    }
  }

  /** The step the solver relies on: writing a placeable digit into an empty
      cell of a valid grid leaves it valid (Board.java:87-118). */
  lemma PlaceKeepsValid(g: Grid, x: Coord, y: Coord, d: int)
    requires Valid(g) && g[Idx(x, y)] == EmptyDigit && IsDigit(d) && Placeable(g, x, y, d)
    ensures Valid(g[Idx(x, y) := d])
  {
    var h := g[Idx(x, y) := d];
    forall x1: Coord, y1: Coord, x2: Coord, y2: Coord |
      (x1 != x2 || y1 != y2) && SameUnit(x1, y1, x2, y2) && h[Idx(x1, y1)] != EmptyDigit
      ensures h[Idx(x1, y1)] != h[Idx(x2, y2)]
    {
      IdxInjective(x1, y1, x, y);
      IdxInjective(x2, y2, x, y);
      if x1 == x && y1 == y {
        assert g[Idx(x2, y2)] != d;
      } else if x2 == x && y2 == y {
        assert SameUnit(x, y, x1, y1);
        assert g[Idx(x1, y1)] != d;
      }
    }
  }

  /** A grid obtained by emptying some cells of a valid grid is valid. */
  lemma SubgridValid(g: Grid, h: Grid)
    requires Valid(g)
    requires ClearedFrom(g, h)
    ensures Valid(h)
  {
  }
}
