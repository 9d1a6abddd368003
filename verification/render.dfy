/** The text form of the board, `toString()` (Board.java:195-227): one text
    line per y-line, cells in x order, each cell as a space and its symbol,
    " |" before x = 3 and x = 6, a line of 23 dashes before y = 3 and y = 6,
    and the platform line separator after every line. The separator is a
    parameter. */
module Render {
  import opened Sudoku

  const EmptySymbol: char := ' '
  const SquareSeparator: char := ' '
  const BlockHorizontalSeparator: char := '|'
  const BlockVerticalSeparator: char := '-'
  const BlockVerticalSeparatorAmount: int := 23

  /** Characters of one rendered y-line, without the line separator. */
  const RowLength: int := 22

  /** The symbol of a cell: a space for an empty cell, otherwise the
      character `'0' + digit` (Board.java:212). */
  function Symbol(d: int): (c: char)
    requires EmptyDigit <= d <= MaxDigit
    ensures DigitOf(c) == d
    ensures c == EmptySymbol <==> d == EmptyDigit
  {
    if d == EmptyDigit then EmptySymbol else ('0' as int + d) as char
  }

  /** Reads a cell symbol back. */
  function DigitOf(c: char): int
  {
    if c == EmptySymbol then EmptyDigit else c as int - '0' as int
  }

  /** The number of block separators among the first `n` positions of a
      line: one before position 3 and one before position 6. */
  function Seps(n: int): int
  {
    (if n > BlockSize then 1 else 0) + (if n > 2 * BlockSize then 1 else 0)
  }

  /** What one iteration of the inner loop (Board.java:209-221) appends:
      two characters, two more at a block boundary, and the last one
      identifies the cell's value. */
  function CellText(g: Grid, x: Coord, y: Coord): (s: string)
    requires InRange(g)
    ensures |s| == 2 + 2 * (Seps(x + 1) - Seps(x))
    ensures DigitOf(s[|s| - 1]) == g[Idx(x, y)]
    ensures s[|s| - 1] == EmptySymbol <==> g[Idx(x, y)] == EmptyDigit
    ensures s[|s| - 2] == SquareSeparator
    ensures x != 0 && x % BlockSize == 0 ==> s[..2] == [SquareSeparator, BlockHorizontalSeparator]
  {
    (if x != 0 && x % BlockSize == 0 then [SquareSeparator, BlockHorizontalSeparator] else [])
    + [SquareSeparator, Symbol(g[Idx(x, y)])]
  }

  /** The text the first `n` iterations of the inner loop append. */
  function RowUpTo(g: Grid, y: Coord, n: int): (s: string)
    requires InRange(g) && 0 <= n <= Size
    ensures |s| == 2 * n + 2 * Seps(n)
  {
    if n == 0 then [] else RowUpTo(g, y, n - 1) + CellText(g, n - 1, y)
  }

  /** A run of `n` dashes (Board.java:202-204). */
  function Dashes(n: nat): (s: string)
    ensures |s| == n
    ensures forall i :: 0 <= i < n ==> s[i] == BlockVerticalSeparator
  {
    if n == 0 then [] else Dashes(n - 1) + [BlockVerticalSeparator]
  }

  /** What one iteration of the outer loop (Board.java:199-224) appends:
      the dash line if one precedes y-line y, then the cells of the line,
      then the separator. */
  function LineText(g: Grid, sep: string, y: Coord): (s: string)
    requires InRange(g)
    ensures |s| == DashPart(y, |sep|) + RowLength + |sep|
    ensures y != 0 && y % BlockSize == 0 ==> s[..DashPart(y, |sep|)] == Dashes(BlockVerticalSeparatorAmount) + sep
    ensures forall c :: 0 <= c < RowLength ==> s[DashPart(y, |sep|) + c] == RowUpTo(g, y, Size)[c]
    ensures s[|s| - |sep|..] == sep
  {
    (if y != 0 && y % BlockSize == 0 then Dashes(BlockVerticalSeparatorAmount) + sep else [])
    + RowUpTo(g, y, Size) + sep
  }

  /** The text the first `n` iterations of the outer loop append. */
  function TextUpTo(g: Grid, sep: string, n: int): (s: string)
    requires InRange(g) && 0 <= n <= Size
    ensures |s| == Offset(n, |sep|)
  {
    if n == 0 then [] else TextUpTo(g, sep, n - 1) + LineText(g, sep, n - 1)
  }

  /** Where the text of the first `n` y-lines ends: each line adds its
      dash line, if any, its `RowLength` characters and a separator of
      length `sepLength`. */
  function Offset(n: int, sepLength: nat): nat
    requires 0 <= n <= Size
  {
    if n == 0 then 0 else Offset(n - 1, sepLength) + DashPart(n - 1, sepLength) + RowLength + sepLength
  }

  /** The dash line, with its separator, that precedes y-line `y`, if any. */
  function DashPart(y: Coord, sepLength: nat): nat
  {
    if y != 0 && y % BlockSize == 0 then BlockVerticalSeparatorAmount + sepLength else 0
  }

  /** `n` lines of `RowLength` characters and the dash lines among them,
      each followed by a separator. */
  lemma {:induction false} OffsetClosed(n: int, sepLength: nat)
    requires 0 <= n <= Size
    ensures Offset(n, sepLength) == n * (RowLength + sepLength) + Seps(n) * (BlockVerticalSeparatorAmount + sepLength)
  {
    if n > 0 {
      OffsetClosed(n - 1, sepLength);
      assert n * (RowLength + sepLength) == (n - 1) * (RowLength + sepLength) + RowLength + sepLength;
    }
  }

  /** `toString()` with the line separator `sep`. */
  function Render(g: Grid, sep: string): (s: string)
    requires InRange(g)
    ensures |s| == RenderLength(|sep|)
  {
    OffsetClosed(Size, |sep|);
    TextUpTo(g, sep, Size)
  }

  /** Nine y-lines of 22 characters and two dash lines of 23, each followed
      by the separator. */
  function RenderLength(sepLength: nat): int
  {
    Size * (RowLength + sepLength) + 2 * (BlockVerticalSeparatorAmount + sepLength)
  }

  /** Where the symbol of cell x sits in its text line. */
  function Col(x: Coord): int
  {
    2 * x + 2 * Seps(x + 1) + 1
  }

  /** Where the text line of y-line y starts. */
  function LineStart(y: Coord, sepLength: nat): int
  {
    Offset(y, sepLength) + DashPart(y, sepLength)
  }

  /** Reads a grid back from its text form. */
  function Parse(text: string, sepLength: nat): (g: Grid)
    requires |text| == RenderLength(sepLength)
  {
    seq(CellCount, (i: int) requires 0 <= i < CellCount =>
      ParseCell(text, sepLength, i / Size, i % Size))
  }

  function ParseCell(text: string, sepLength: nat, x: Coord, y: Coord): int
    requires |text| == RenderLength(sepLength)
  {
    LineBound(x, y, sepLength);
    DigitOf(text[LineStart(y, sepLength) + Col(x)])
  }

  lemma LineBound(x: Coord, y: Coord, sepLength: nat)
    ensures 0 <= LineStart(y, sepLength) + Col(x) < RenderLength(sepLength)
  {
    OffsetClosed(y + 1, sepLength);
    OffsetClosed(Size, sepLength);
    assert (Size - (y + 1)) * (RowLength + sepLength) >= 0;
    assert Offset(Size, sepLength) - Offset(y + 1, sepLength)
        == (Size - (y + 1)) * (RowLength + sepLength) + (Seps(Size) - Seps(y + 1)) * (BlockVerticalSeparatorAmount + sepLength);
  }

  /** Within the rendered line, cell x's symbol is at `Col(x)`. */
  lemma {:induction false} RowAt(g: Grid, y: Coord, n: int, x: Coord)
    requires InRange(g) && x < n <= Size
    ensures RowUpTo(g, y, n)[Col(x)] == Symbol(g[Idx(x, y)])
    decreases n
  {
    if n - 1 != x {
      RowAt(g, y, n - 1, x);
    }
  }

  /** Within the whole text, the line of y-line y starts at `LineStart`. */
  lemma {:induction false} TextAt(g: Grid, sep: string, n: int, y: Coord, c: int)
    requires InRange(g) && y < n <= Size && 0 <= c < RowLength
    ensures LineStart(y, |sep|) + c < |TextUpTo(g, sep, n)|
    ensures TextUpTo(g, sep, n)[LineStart(y, |sep|) + c] == RowUpTo(g, y, Size)[c]
    decreases n
  {
    var prefix, line := TextUpTo(g, sep, n - 1), LineText(g, sep, n - 1);
    assert TextUpTo(g, sep, n) == prefix + line;
    if n - 1 != y {
      TextAt(g, sep, n - 1, y, c);
      assert TextUpTo(g, sep, n)[LineStart(y, |sep|) + c] == prefix[LineStart(y, |sep|) + c];
    } else {
      assert TextUpTo(g, sep, n)[LineStart(y, |sep|) + c] == line[DashPart(y, |sep|) + c];
    }
  }

  /** Reading the text form back gives the grid: the rendering loses
      nothing, so two different grids never render alike. */
  lemma RenderParse(g: Grid, sep: string)
    requires InRange(g)
    ensures Parse(Render(g, sep), |sep|) == g
  {
    var t := Render(g, sep);
    var h := Parse(t, |sep|);
    forall i | 0 <= i < CellCount
      ensures h[i] == g[i]
    {
      var x: Coord, y: Coord := i / Size, i % Size;
      assert i == Idx(x, y);
      RowAt(g, y, Size, x);
      TextAt(g, sep, Size, y, Col(x));
    }
  }
}
