/** The public constructor `Board(int digitAmount)` (Board.java:47-52):
    start from the solved starting grid with the counter at 81, shuffle it,
    then try to remove `81 - digitAmount` digits. The constructor ignores
    whether the removal succeeded. */
module Puzzle {
  import opened Sudoku
  import opened Initial
  import opened Completion
  import opened Shuffle
  import opened Removal
  import opened Solver

  /** A Java `int`. */
  type Int32 = i: int | -0x8000_0000 <= i < 0x8000_0000

  /** Two's-complement wrap-around of a Java `int` expression. */
  function Wrap32(v: int): (r: Int32)
    ensures (r - v) % 0x1_0000_0000 == 0
    ensures -0x8000_0000 <= v < 0x8000_0000 ==> r == v
  {
    (v + 0x8000_0000) % 0x1_0000_0000 - 0x8000_0000
  }

  /** The solved grid the shuffle makes of the starting grid: the board
      `this(RANDOM_BOARD_INITIAL_DIGITS, 81)` after `shuffle()`. */
  function Solution(ds: seq<Draw>): (g: Grid)
    requires |ds| == ShuffleIterationAmount
    ensures IsFull(g) && InRange(g) && Valid(g)
  {
    FilledFull(InitialGrid());
    ShuffleBoard(Board(InitialGrid(), CellCount), ds).digits
  }

  /** `new Board(digitAmount)`, with the shuffle draws and the removal's
      draw stream as inputs. The count of digits to remove is the Java
      `int` expression `81 - digitAmount`, wrapped.

      This is the construction from a fresh copy of the literal, which is
      what the first construction sees (see `FirstConstruction`). The
      result is a well-formed valid board whose filled cells are
      those of the shuffled grid, and that grid completes it. Either the
      removal left it full, so it is the shuffled grid itself, or exactly
      `digitAmount` digits remain and the shuffled grid is its only
      completion. */
  function NewBoard(digitAmount: Int32, ds: seq<Draw>, pick: nat -> Coord): (r: Board)
    requires |ds| == ShuffleIterationAmount
    ensures WellFormed(r) && Valid(r.digits)
    ensures ClearedFrom(Solution(ds), r.digits)
    ensures Solution(ds) in Completions(r.digits)
    ensures || (r.digits == Solution(ds) && r.digitAmount == CellCount)
            || (Filled(r.digits) == r.digitAmount == digitAmount && Completions(r.digits) == {Solution(ds)})
    ensures digitAmount >= CellCount ==> r.digits == Solution(ds)
  {
    var shuffled := Board(Solution(ds), CellCount);
    var toRemove := Wrap32(CellCount - digitAmount);
    FilledFull(shuffled.digits);
    RemoveCount(digitAmount);
    RemovalOutcome(shuffled, toRemove, pick);
    Remove(shuffled, toRemove, pick, 0).board
  }

  /** The count handed to the removal: the wrapped `81 - digitAmount` is
      positive exactly when it is the true difference and positive, and a
      full request (`digitAmount >= 81`) removes nothing. */
  lemma RemoveCount(digitAmount: Int32)
    ensures Wrap32(CellCount - digitAmount) > 0 ==> Wrap32(CellCount - digitAmount) == CellCount - digitAmount
    ensures digitAmount >= CellCount ==> Wrap32(CellCount - digitAmount) <= 0
  {
  }

  /** What the removal makes of the full shuffled board: either nothing
      changed, or it removed `toRemove > 0` digits and the shuffled grid is
      the only completion left. */
  lemma RemovalOutcome(s: Board, toRemove: int, pick: nat -> Coord)
    requires WellFormed(s) && IsFull(s.digits) && Valid(s.digits) && s.digitAmount == CellCount
    ensures var r := Remove(s, toRemove, pick, 0).board;
            && WellFormed(r) && Valid(r.digits)
            && s.digits in Completions(r.digits)
            && (|| r == s
                || (toRemove > 0 && Filled(r.digits) == r.digitAmount == CellCount - toRemove
                    && Completions(r.digits) == {s.digits}))
  {
    var removal := Remove(s, toRemove, pick, 0);
    var r := removal.board;
    SubgridValid(s.digits, r.digits);
    InCompletions(r.digits, s.digits);
    if removal.ok && toRemove > 0 {
      RemoveFromSolved(s, toRemove, pick, 0);
    }
  }

  /** The constructor as Board.java writes it: `this(RANDOM_BOARD_INITIAL_DIGITS, 81)`
      stores the static matrix itself (Board.java:48, 55), so the shuffle and
      the removal rewrite that shared matrix, and the next construction starts
      from `shared`, whatever earlier constructions left in it, while the
      counter is reset to 81. The gap between counter and filled cells is
      carried through unchanged. */
  function NewBoardShared(shared: Grid, digitAmount: Int32, ds: seq<Draw>, pick: nat -> Coord): (r: Board)
    requires |ds| == ShuffleIterationAmount
    ensures r.digitAmount - Filled(r.digits) == CellCount - Filled(shared)
  {
    var shuffled := ShuffleBoard(Board(shared, CellCount), ds);
    Remove(shuffled, Wrap32(CellCount - digitAmount), pick, 0).board
  }

  /** The first construction finds the literal untouched, so on it the
      constructor as written and the corrected one agree. */
  lemma FirstConstruction(digitAmount: Int32, ds: seq<Draw>, pick: nat -> Coord)
    requires |ds| == ShuffleIterationAmount
    ensures NewBoardShared(InitialGrid(), digitAmount, ds, pick) == NewBoard(digitAmount, ds, pick)
  {
  }

  /** Constructing a second board after a first one that removed digits:
      the new board's counter overstates its filled cells by exactly the
      number of cells the first construction emptied, so it is not well
      formed. */
  lemma SharedMatrixMiscounts(first: Board, digitAmount: Int32, ds: seq<Draw>, pick: nat -> Coord)
    requires |ds| == ShuffleIterationAmount
    requires WellFormed(first) && first.digitAmount < CellCount
    ensures var r := NewBoardShared(first.digits, digitAmount, ds, pick);
            r.digitAmount - Filled(r.digits) == CellCount - first.digitAmount
    ensures !WellFormed(NewBoardShared(first.digits, digitAmount, ds, pick))
  {
  }
}
