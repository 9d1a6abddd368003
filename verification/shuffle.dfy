/** The shuffle of the solved starting grid (Board.java:139-170): a fixed
    number of iterations, each swapping two whole x-lines or two whole
    y-lines of one group of three, or doing nothing when the two drawn lines
    coincide. The random draws are an input. */
module Shuffle {
  import opened Sudoku

  const ShuffleIterationAmount: int := 1000

  /** The draws of one iteration, in the order Board.java takes them:
      `nextBoolean()` picks x-lines (true) or y-lines (false), then
      `nextInt(3)` picks the group and two more `nextInt(3)` pick the two
      lines inside it. */
  datatype Draw = Draw(xLines: bool, group: Third, first: Third, second: Third)

  /** The line a swap of lines `a` and `b` moves to line `i`. */
  function Swap(a: Coord, b: Coord, i: Coord): (j: Coord)
    ensures j == a <==> i == b
    ensures j == b <==> i == a
  {
    if i == a then b else if i == b then a else i
  }

  /** Swapping twice is the identity, and a swap inside one group of three
      keeps every line in its group. */
  lemma SwapFacts(a: Coord, b: Coord, i: Coord)
    ensures Swap(a, b, Swap(a, b, i)) == i
    ensures a / BlockSize == b / BlockSize ==> Swap(a, b, i) / BlockSize == i / BlockSize
  {
  }

  /** Exchanges the contents of two cells (the three-assignment swap of
      Board.java:150-152 and 164-166). */
  function SwapCells(g: Grid, i: nat, j: nat): (h: Grid)
    requires i < CellCount && j < CellCount
    ensures h[i] == g[j] && h[j] == g[i]
    ensures forall k :: 0 <= k < CellCount && k != i && k != j ==> h[k] == g[k]
    ensures multiset(h) == multiset(g)
  {
    g[i := g[j]][j := g[i]]
  }

  /** The loop of Board.java:148-153 from `y` on: swaps the cells of
      x-lines `x1` and `x2` in every y-line not yet visited. */
  function SwapXLinesFrom(g: Grid, x1: Coord, x2: Coord, y: int): (h: Grid)
    requires 0 <= y <= Size
    decreases Size - y
    ensures forall x: Coord, y': Coord ::
      h[Idx(x, y')] == if y' < y then g[Idx(x, y')] else g[Idx(Swap(x1, x2, x), y')]
    ensures multiset(h) == multiset(g)
  {
    if y == Size then g
    else
      var g' := SwapCells(g, Idx(x1, y), Idx(x2, y));
      var h := SwapXLinesFrom(g', x1, x2, y + 1);
      forall x: Coord, y': Coord
        ensures h[Idx(x, y')] == if y' < y then g[Idx(x, y')] else g[Idx(Swap(x1, x2, x), y')]
      {
        IdxInjective(x, y', x1, y);
        IdxInjective(x, y', x2, y);
        IdxInjective(Swap(x1, x2, x), y', x1, y);
        IdxInjective(Swap(x1, x2, x), y', x2, y);
      }
      h
  }

  /** The loop of Board.java:162-167 from `x` on: swaps the cells of
      y-lines `y1` and `y2` in every x-line not yet visited. */
  function SwapYLinesFrom(g: Grid, y1: Coord, y2: Coord, x: int): (h: Grid)
    requires 0 <= x <= Size
    decreases Size - x
    ensures forall x': Coord, y: Coord ::
      h[Idx(x', y)] == if x' < x then g[Idx(x', y)] else g[Idx(x', Swap(y1, y2, y))]
    ensures multiset(h) == multiset(g)
  {
    if x == Size then g
    else
      var g' := SwapCells(g, Idx(x, y1), Idx(x, y2));
      var h := SwapYLinesFrom(g', y1, y2, x + 1);
      forall x': Coord, y: Coord
        ensures h[Idx(x', y)] == if x' < x then g[Idx(x', y)] else g[Idx(x', Swap(y1, y2, y))]
      {
        IdxInjective(x', y, x, y1);
        IdxInjective(x', y, x, y2);
        IdxInjective(x', Swap(y1, y2, y), x, y1);
        IdxInjective(x', Swap(y1, y2, y), x, y2);
      }
      h
  }

  /** Exchanges x-lines `x1` and `x2`. */
  function SwapXLines(g: Grid, x1: Coord, x2: Coord): (h: Grid)
    ensures forall x: Coord, y: Coord :: h[Idx(x, y)] == g[Idx(Swap(x1, x2, x), y)]
    ensures multiset(h) == multiset(g)
  {
    SwapXLinesFrom(g, x1, x2, 0)
  }

  /** Exchanges y-lines `y1` and `y2`. */
  function SwapYLines(g: Grid, y1: Coord, y2: Coord): (h: Grid)
    ensures forall x: Coord, y: Coord :: h[Idx(x, y)] == g[Idx(x, Swap(y1, y2, y))]
    ensures multiset(h) == multiset(g)
  {
    SwapYLinesFrom(g, y1, y2, 0)
  }

  /** The two lines an iteration picks: the group's first line plus the
      two drawn offsets (Board.java:143-145 and 157-159). */
  function LineA(d: Draw): (a: Coord)
    ensures a / BlockSize == d.group
  {
    d.group * BlockSize + d.first
  }

  function LineB(d: Draw): (b: Coord)
    ensures b / BlockSize == d.group
  {
    d.group * BlockSize + d.second
  }

  /** One iteration of the loop of Board.java:140-169; equal lines skip the
      iteration (lines 146 and 160). It only rearranges the cells, and keeps
      a valid grid valid. */
  function Step(g: Grid, d: Draw): (h: Grid)
    ensures multiset(h) == multiset(g)
    ensures Valid(g) ==> Valid(h)
  {
    if LineA(d) == LineB(d) then g
    else if d.xLines then
      SwapXLinesValid(g, LineA(d), LineB(d));
      SwapXLines(g, LineA(d), LineB(d))
    else
      SwapYLinesValid(g, LineA(d), LineB(d));
      SwapYLines(g, LineA(d), LineB(d))
  }

  /** The iterations in draw order; any number of them only rearranges the
      cells and keeps a valid grid valid. */
  function Steps(g: Grid, ds: seq<Draw>): (h: Grid)
    decreases |ds|
    ensures multiset(h) == multiset(g)
    ensures Valid(g) ==> Valid(h)
  {
    if |ds| == 0 then g else Steps(Step(g, ds[0]), ds[1..])
  }

  /** `shuffle()`: the 1000 iterations rearrange the matrix and leave the
      counter alone. */
  function ShuffleBoard(b: Board, ds: seq<Draw>): (r: Board)
    requires |ds| == ShuffleIterationAmount
    ensures r.digitAmount == b.digitAmount
    ensures multiset(r.digits) == multiset(b.digits)
    ensures WellFormed(b) ==> WellFormed(r)
    ensures IsFull(b.digits) ==> IsFull(r.digits)
    ensures Valid(b.digits) ==> Valid(r.digits)
  {
    StepsKeep(b.digits, ds);
    Board(Steps(b.digits, ds), b.digitAmount)
  }

  /** Everything the iterations keep: the cells as a multiset, hence the
      count of filled cells, the range of the cells and fullness, and
      validity. */
  lemma StepsKeep(g: Grid, ds: seq<Draw>)
    ensures multiset(Steps(g, ds)) == multiset(g)
    ensures Filled(Steps(g, ds)) == Filled(g)
    ensures InRange(g) ==> InRange(Steps(g, ds))
    ensures IsFull(g) ==> IsFull(Steps(g, ds))
    ensures Valid(g) ==> Valid(Steps(g, ds))
  {
    var h := Steps(g, ds);
    SameMultisetInRange(g, h);
    FilledFull(g);
    FilledFull(h);
  }

  /** A grid with the same cells as an in-range grid is in range. */
  lemma SameMultisetInRange(g: Grid, h: Grid)
    requires multiset(h) == multiset(g)
    ensures InRange(g) ==> InRange(h)
  {
    if InRange(g) {
      forall i | 0 <= i < |h|
        ensures EmptyDigit <= h[i] <= MaxDigit
      {
        assert h[i] in multiset(h);
        var j :| 0 <= j < |g| && g[j] == h[i];
      }
    }
  }

  /** Exchanging two lines of one group keeps the grid valid: the exchange
      moves every cell to a cell of the same kind of unit. */
  lemma SwapXLinesValid(g: Grid, x1: Coord, x2: Coord)
    requires x1 / BlockSize == x2 / BlockSize
    ensures Valid(g) ==> Valid(SwapXLines(g, x1, x2))
  {
    if Valid(g) {
      var h := SwapXLines(g, x1, x2);
      forall xa: Coord, ya: Coord, xb: Coord, yb: Coord |
        (xa != xb || ya != yb) && SameUnit(xa, ya, xb, yb) && h[Idx(xa, ya)] != EmptyDigit
        ensures h[Idx(xa, ya)] != h[Idx(xb, yb)]
      {
        SwapFacts(x1, x2, xa);
        SwapFacts(x1, x2, xb);
        var sa, sb := Swap(x1, x2, xa), Swap(x1, x2, xb);
        assert SameUnit(sa, ya, sb, yb);
        assert sa != sb || ya != yb;
      }
    }
  }

  lemma SwapYLinesValid(g: Grid, y1: Coord, y2: Coord)
    requires y1 / BlockSize == y2 / BlockSize
    ensures Valid(g) ==> Valid(SwapYLines(g, y1, y2))
  {
    if Valid(g) {
      var h := SwapYLines(g, y1, y2);
      forall xa: Coord, ya: Coord, xb: Coord, yb: Coord |
        (xa != xb || ya != yb) && SameUnit(xa, ya, xb, yb) && h[Idx(xa, ya)] != EmptyDigit
        ensures h[Idx(xa, ya)] != h[Idx(xb, yb)]
      {
        SwapFacts(y1, y2, ya);
        SwapFacts(y1, y2, yb);
        var sa, sb := Swap(y1, y2, ya), Swap(y1, y2, yb);
        assert SameUnit(xa, sa, xb, sb);
        assert xa != xb || sa != sb;
      }
    }
  }

  /** Repeating an iteration undoes it. */
  lemma StepInvolution(g: Grid, d: Draw)
    ensures Step(Step(g, d), d) == g
  {
    if LineA(d) != LineB(d) {
      if d.xLines {
        SwapXLinesTwice(g, LineA(d), LineB(d));
      } else {
        SwapYLinesTwice(g, LineA(d), LineB(d));
      }
    }
  }

  lemma SwapXLinesTwice(g: Grid, a: Coord, b: Coord)
    ensures SwapXLines(SwapXLines(g, a, b), a, b) == g
  {
    var h := SwapXLines(SwapXLines(g, a, b), a, b);
    forall x: Coord, y: Coord
      ensures h[Idx(x, y)] == g[Idx(x, y)]
    {
      SwapFacts(a, b, x);
    }
    SameCells(g, h);
  }

  lemma SwapYLinesTwice(g: Grid, a: Coord, b: Coord)
    ensures SwapYLines(SwapYLines(g, a, b), a, b) == g
  {
    var h := SwapYLines(SwapYLines(g, a, b), a, b);
    forall x: Coord, y: Coord
      ensures h[Idx(x, y)] == g[Idx(x, y)]
    {
      SwapFacts(a, b, y);
    }
    SameCells(g, h);
  }

  /** Two grids that agree on every cell (x, y) are equal. */
  lemma SameCells(g: Grid, h: Grid)
    requires forall x: Coord, y: Coord :: h[Idx(x, y)] == g[Idx(x, y)]
    ensures h == g
  {
    forall i | 0 <= i < CellCount
      ensures h[i] == g[i]
    {
      var x: Coord, y: Coord := i / Size, i % Size;
      assert i == Idx(x, y);
    }
  }

  function Reverse(ds: seq<Draw>): (r: seq<Draw>)
    ensures |r| == |ds|
    ensures forall i :: 0 <= i < |ds| ==> r[i] == ds[|ds| - 1 - i]
  {
    if |ds| == 0 then [] else Reverse(ds[1..]) + [ds[0]]
  }

  /** Running one more iteration after a run of iterations. */
  lemma {:induction false} StepsSnoc(g: Grid, ds: seq<Draw>, d: Draw)
    ensures Steps(g, ds + [d]) == Step(Steps(g, ds), d)
    decreases |ds|
  {
    if |ds| > 0 {
      assert (ds + [d])[1..] == ds[1..] + [d];
      StepsSnoc(Step(g, ds[0]), ds[1..], d);
    }
  }

  /** The shuffle can be undone: replaying the draws backwards restores the
      grid, so no two grids shuffle to the same grid under the same draws. */
  lemma {:induction false} StepsUndo(g: Grid, ds: seq<Draw>)
    ensures Steps(Steps(g, ds), Reverse(ds)) == g
    decreases |ds|
  {
    if |ds| > 0 {
      var h := Step(g, ds[0]);
      StepsUndo(h, ds[1..]);
      assert Reverse(ds) == Reverse(ds[1..]) + [ds[0]];
      StepsSnoc(Steps(h, ds[1..]), Reverse(ds[1..]), ds[0]);
      StepInvolution(g, ds[0]);
    }
  }
}
