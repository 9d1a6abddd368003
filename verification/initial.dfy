/** The hard-coded solved grid every puzzle starts from, and the proof that
    it is a full, valid Sudoku. */
module Initial {
  import opened Sudoku

  /** The Java literal `RANDOM_BOARD_INITIAL_DIGITS` (Board.java:32-42):
      entry `x` is the x-line `digits[x]`. */
  const InitialLines: seq<seq<int>> := [
    [4, 6, 1, 8, 3, 9, 5, 2, 7],
    [3, 8, 9, 2, 7, 5, 1, 4, 6],
    [5, 2, 7, 6, 4, 1, 9, 8, 3],
    [2, 5, 8, 1, 6, 7, 3, 9, 4],
    [6, 7, 3, 9, 8, 4, 2, 5, 1],
    [9, 1, 4, 5, 2, 3, 6, 7, 8],
    [7, 4, 5, 3, 9, 6, 8, 1, 2],
    [8, 9, 6, 4, 1, 2, 7, 3, 5],
    [1, 3, 2, 7, 5, 8, 4, 6, 9]
  ]

  /** A 9x9 matrix of x-lines, the shape of the Java literal. */
  predicate Square(ls: seq<seq<int>>)
  {
    |ls| == Size && forall x :: 0 <= x < Size ==> |ls[x]| == Size
  }

  /** The matrix in the flat layout of `Grid`. */
  function Flatten(ls: seq<seq<int>>): (g: Grid)
    requires Square(ls)
    ensures forall x: Coord, y: Coord :: g[Idx(x, y)] == ls[x][y]
  {
    var g: Grid := seq(CellCount, (i: int) requires 0 <= i < CellCount => ls[i / Size][i % Size]);
    forall x: Coord, y: Coord
      ensures g[Idx(x, y)] == ls[x][y]
    {
      assert (x * Size + y) / Size == x && (x * Size + y) % Size == y;
    }
    g
  }

  /** The digits of one y-line, in x order. */
  function YLine(ls: seq<seq<int>>, y: Coord): seq<int>
    requires Square(ls)
  {
    seq(Size, (x: int) requires 0 <= x < Size => ls[x][y])
  }

  /** The digits of the block with corner (3 * gx, 3 * gy), x-major. */
  function BlockLine(ls: seq<seq<int>>, gx: Third, gy: Third): seq<int>
    requires Square(ls)
  {
    seq(Size, (k: int) requires 0 <= k < Size => ls[3 * gx + k / 3][3 * gy + k % 3])
  }

  predicate Distinct(s: seq<int>)
  {
    forall i, j :: 0 <= i < j < |s| ==> s[i] != s[j]
  }

  /** Every line and block of the matrix holds distinct values. */
  predicate UnitsDistinct(ls: seq<seq<int>>)
    requires Square(ls)
  {
    && (forall x: Coord :: Distinct(ls[x]))
    && (forall y: Coord :: Distinct(YLine(ls, y)))
    && (forall gx: Third, gy: Third :: Distinct(BlockLine(ls, gx, gy)))
  }

  lemma SameBlockDistinct(ls: seq<seq<int>>, x1: Coord, y1: Coord, x2: Coord, y2: Coord)
    requires Square(ls) && UnitsDistinct(ls)
    requires x1 / 3 == x2 / 3 && y1 / 3 == y2 / 3 && (x1 != x2 || y1 != y2)
    ensures ls[x1][y1] != ls[x2][y2]
  {
    var gx: Third, gy: Third := x1 / 3, y1 / 3;
    var k1: Coord, k2: Coord := 3 * (x1 % 3) + y1 % 3, 3 * (x2 % 3) + y2 % 3;
    assert k1 / 3 == x1 % 3 && k1 % 3 == y1 % 3;
    assert k2 / 3 == x2 % 3 && k2 % 3 == y2 % 3;
    var s := BlockLine(ls, gx, gy);
    assert s[k1] == ls[x1][y1] && s[k2] == ls[x2][y2];
    if k1 < k2 { assert s[k1] != s[k2]; } else { assert s[k2] != s[k1]; }
  }

  /** A matrix whose lines and blocks hold distinct values is valid once
      flattened. */
  lemma UnitsDistinctValid(ls: seq<seq<int>>)
    requires Square(ls) && UnitsDistinct(ls)
    ensures Valid(Flatten(ls))
  {
    var g := Flatten(ls);
    forall x1: Coord, y1: Coord, x2: Coord, y2: Coord |
      (x1 != x2 || y1 != y2) && SameUnit(x1, y1, x2, y2)
      ensures g[Idx(x1, y1)] != g[Idx(x2, y2)]
    {
      if x1 == x2 {
        var s := ls[x1];
        if y1 < y2 { assert s[y1] != s[y2]; } else { assert s[y2] != s[y1]; }
      } else if y1 == y2 {
        var s := YLine(ls, y1);
        if x1 < x2 { assert s[x1] != s[x2]; } else { assert s[x2] != s[x1]; }
      } else {
        SameBlockDistinct(ls, x1, y1, x2, y2);
      }
    }
  }

  lemma YLine0Distinct()
    ensures Distinct(YLine(InitialLines, 0))
  {
    assert YLine(InitialLines, 0) == [4, 3, 5, 2, 6, 9, 7, 8, 1];
  }

  lemma YLine1Distinct()
    ensures Distinct(YLine(InitialLines, 1))
  {
    assert YLine(InitialLines, 1) == [6, 8, 2, 5, 7, 1, 4, 9, 3];
  }

  lemma YLine2Distinct()
    ensures Distinct(YLine(InitialLines, 2))
  {
    assert YLine(InitialLines, 2) == [1, 9, 7, 8, 3, 4, 5, 6, 2];
  }

  lemma YLine3Distinct()
    ensures Distinct(YLine(InitialLines, 3))
  {
    assert YLine(InitialLines, 3) == [8, 2, 6, 1, 9, 5, 3, 4, 7];
  }

  lemma YLine4Distinct()
    ensures Distinct(YLine(InitialLines, 4))
  {
    assert YLine(InitialLines, 4) == [3, 7, 4, 6, 8, 2, 9, 1, 5];
  }

  lemma YLine5Distinct()
    ensures Distinct(YLine(InitialLines, 5))
  {
    assert YLine(InitialLines, 5) == [9, 5, 1, 7, 4, 3, 6, 2, 8];
  }

  lemma YLine6Distinct()
    ensures Distinct(YLine(InitialLines, 6))
  {
    assert YLine(InitialLines, 6) == [5, 1, 9, 3, 2, 6, 8, 7, 4];
  }

  lemma YLine7Distinct()
    ensures Distinct(YLine(InitialLines, 7))
  {
    assert YLine(InitialLines, 7) == [2, 4, 8, 9, 5, 7, 1, 3, 6];
  }

  lemma YLine8Distinct()
    ensures Distinct(YLine(InitialLines, 8))
  {
    assert YLine(InitialLines, 8) == [7, 6, 3, 4, 1, 8, 2, 5, 9];
  }

  lemma BlockLine00Distinct()
    ensures Distinct(BlockLine(InitialLines, 0, 0))
  {
    assert BlockLine(InitialLines, 0, 0) == [4, 6, 1, 3, 8, 9, 5, 2, 7];
  }

  lemma BlockLine01Distinct()
    ensures Distinct(BlockLine(InitialLines, 0, 1))
  {
    assert BlockLine(InitialLines, 0, 1) == [8, 3, 9, 2, 7, 5, 6, 4, 1];
  }

  lemma BlockLine02Distinct()
    ensures Distinct(BlockLine(InitialLines, 0, 2))
  {
    assert BlockLine(InitialLines, 0, 2) == [5, 2, 7, 1, 4, 6, 9, 8, 3];
  }

  lemma BlockLine10Distinct()
    ensures Distinct(BlockLine(InitialLines, 1, 0))
  {
    assert BlockLine(InitialLines, 1, 0) == [2, 5, 8, 6, 7, 3, 9, 1, 4];
  }

  lemma BlockLine11Distinct()
    ensures Distinct(BlockLine(InitialLines, 1, 1))
  {
    assert BlockLine(InitialLines, 1, 1) == [1, 6, 7, 9, 8, 4, 5, 2, 3];
  }

  lemma BlockLine12Distinct()
    ensures Distinct(BlockLine(InitialLines, 1, 2))
  {
    assert BlockLine(InitialLines, 1, 2) == [3, 9, 4, 2, 5, 1, 6, 7, 8];
  }

  lemma BlockLine20Distinct()
    ensures Distinct(BlockLine(InitialLines, 2, 0))
  {
    assert BlockLine(InitialLines, 2, 0) == [7, 4, 5, 8, 9, 6, 1, 3, 2];
  }

  lemma BlockLine21Distinct()
    ensures Distinct(BlockLine(InitialLines, 2, 1))
  {
    assert BlockLine(InitialLines, 2, 1) == [3, 9, 6, 4, 1, 2, 7, 5, 8];
  }

  lemma BlockLine22Distinct()
    ensures Distinct(BlockLine(InitialLines, 2, 2))
  {
    assert BlockLine(InitialLines, 2, 2) == [8, 1, 2, 7, 3, 5, 4, 6, 9];
  }

  lemma InitialYLinesDistinct()
    ensures Square(InitialLines) && forall y: Coord :: Distinct(YLine(InitialLines, y))
  {
    forall y: Coord
      ensures Distinct(YLine(InitialLines, y))
    {
      if y == 0 { YLine0Distinct(); }
      else if y == 1 { YLine1Distinct(); }
      else if y == 2 { YLine2Distinct(); }
      else if y == 3 { YLine3Distinct(); }
      else if y == 4 { YLine4Distinct(); }
      else if y == 5 { YLine5Distinct(); }
      else if y == 6 { YLine6Distinct(); }
      else if y == 7 { YLine7Distinct(); }
      else { YLine8Distinct(); }
    }
  }

  lemma InitialBlocksDistinct()
    ensures Square(InitialLines) && forall gx: Third, gy: Third :: Distinct(BlockLine(InitialLines, gx, gy))
  {
    forall gx: Third, gy: Third
      ensures Distinct(BlockLine(InitialLines, gx, gy))
    {
      if gx == 0 && gy == 0 { BlockLine00Distinct(); }
      else if gx == 0 && gy == 1 { BlockLine01Distinct(); }
      else if gx == 0 && gy == 2 { BlockLine02Distinct(); }
      else if gx == 1 && gy == 0 { BlockLine10Distinct(); }
      else if gx == 1 && gy == 1 { BlockLine11Distinct(); }
      else if gx == 1 && gy == 2 { BlockLine12Distinct(); }
      else if gx == 2 && gy == 0 { BlockLine20Distinct(); }
      else if gx == 2 && gy == 1 { BlockLine21Distinct(); }
      else { BlockLine22Distinct(); }
    }
  }

  lemma InitialXLinesDistinct()
    ensures Square(InitialLines) && forall x: Coord :: Distinct(InitialLines[x])
  {
    forall x: Coord
      ensures Distinct(InitialLines[x])
    {
      if x < 3 { InitialXLinesDistinctFrom(0); }
      else if x < 6 { InitialXLinesDistinctFrom(3); }
      else { InitialXLinesDistinctFrom(6); }
    }
  }

  /** The x-lines `first`, `first + 1` and `first + 2`. */
  lemma InitialXLinesDistinctFrom(first: int)
    requires first == 0 || first == 3 || first == 6
    ensures forall x :: first <= x < first + 3 ==> Distinct(InitialLines[x])
  {
  }

  lemma InitialUnitsDistinct()
    ensures Square(InitialLines) && UnitsDistinct(InitialLines)
  {
    InitialXLinesDistinct();
    InitialYLinesDistinct();
    InitialBlocksDistinct();
  }

  /** A matrix of digits 1..9 is full and in range once flattened. */
  lemma FlattenDigits(ls: seq<seq<int>>)
    requires Square(ls)
    requires forall x: Coord, y: Coord :: IsDigit(ls[x][y])
    ensures IsFull(Flatten(ls)) && InRange(Flatten(ls))
  {
    var g := Flatten(ls);
    forall i | 0 <= i < CellCount
      ensures IsDigit(g[i])
    {
      var x: Coord, y: Coord := i / Size, i % Size;
      assert i == Idx(x, y);
      assert g[i] == ls[x][y];
    }
  }

  /** Every entry of the literal is a digit 1..9. */
  lemma InitialDigits()
    ensures Square(InitialLines)
    ensures forall x: Coord, y: Coord :: IsDigit(InitialLines[x][y])
  {
  }

  /** The starting grid in the flat layout, cell (x, y) holding entry
      `[x][y]` of the Java literal: full, in range and valid
      (Board.java:32-42). */
  function InitialGrid(): (g: Grid)
    ensures Square(InitialLines)
    ensures forall x: Coord, y: Coord :: g[Idx(x, y)] == InitialLines[x][y]
    ensures IsFull(g) && InRange(g) && Valid(g)
  {
    FlatInitialSolved();
    Flatten(InitialLines)
  }

  /** The literal is a square matrix of digits with distinct units, so its
      flat form is a solved grid. */
  lemma FlatInitialSolved()
    ensures Square(InitialLines)
    ensures IsFull(Flatten(InitialLines)) && InRange(Flatten(InitialLines)) && Valid(Flatten(InitialLines))
  {
    InitialUnitsDistinct();
    UnitsDistinctValid(InitialLines);
    InitialDigits();
    FlattenDigits(InitialLines);
  }
}
