/** The randomized digit removal of Board.java:172-193: clear a drawn cell,
    keep the change only if the board stays uniquely solvable and the rest
    of the removal succeeds, otherwise write the digit back; at most 100
    attempts per level.

    `java.util.Random` is replaced by an oracle: `pick(k)` is the k-th value
    of the shared `nextInt(9)` stream, and every call returns the position
    of the next unused draw, so one stream runs through the whole recursion
    just as the static generator of Board.java does. */
module Removal {
  import opened Sudoku
  import opened Completion
  import opened Solver

  const RemoveDigitsIterationAmount: int := 100

  /** Outcome of a removal call: the boolean `removeDigits` returns, the board
      as the call leaves it, and the position of the next unused draw. */
  datatype Removal = Removal(ok: bool, board: Board, next: nat)

  /** `removeDigits(toRemove)` (Board.java:172-193). */
  function Remove(b: Board, toRemove: int, pick: nat -> Coord, pos: nat): (r: Removal)
    decreases toRemove, RemoveDigitsIterationAmount + 1
    ensures r.next >= pos
    ensures ClearedFrom(b.digits, r.board.digits)
    ensures r.board.digitAmount - Filled(r.board.digits) == b.digitAmount - Filled(b.digits)
    ensures toRemove <= 0 ==> r.ok && r.board == b && r.next == pos
    ensures !r.ok ==> r.board == b
    ensures r.ok && toRemove > 0 ==>
              && Empty(r.board.digits) == Empty(b.digits) + toRemove
              && r.board.digitAmount == b.digitAmount - toRemove
              && UniquelySolvable(r.board)
  {
    if toRemove <= 0 then Removal(true, b, pos)
    else Attempts(b, toRemove, pick, pos, 0)
  }

  /** The attempt loop of Board.java:175-190 from attempt `i` on. Each
      attempt draws x and then y; an empty cell wastes the attempt. */
  function Attempts(b: Board, toRemove: int, pick: nat -> Coord, pos: nat, i: int): (r: Removal)
    requires toRemove > 0 && 0 <= i <= RemoveDigitsIterationAmount
    decreases toRemove, RemoveDigitsIterationAmount - i
    ensures r.next >= pos
    ensures ClearedFrom(b.digits, r.board.digits)
    ensures r.board.digitAmount - Filled(r.board.digits) == b.digitAmount - Filled(b.digits)
    ensures !r.ok ==> r.board == b
    ensures r.ok ==>
              && Empty(r.board.digits) == Empty(b.digits) + toRemove
              && r.board.digitAmount == b.digitAmount - toRemove
              && UniquelySolvable(r.board)
  {
    if i == RemoveDigitsIterationAmount then Removal(false, b, pos)
    else
      var x, y := pick(pos), pick(pos + 1);
      var digit := b.digits[Idx(x, y)];
      if digit == EmptyDigit then Attempts(b, toRemove, pick, pos + 2, i + 1)
      else
        ClearPlace(b, x, y);
        var cleared := Clear(b, x, y);
        if UniquelySolvable(cleared) then
          var sub := Remove(cleared, toRemove - 1, pick, pos + 2);
          if sub.ok then Removal(true, sub.board, sub.next)
          else Attempts(Place(sub.board, x, y, digit), toRemove, pick, sub.next, i + 1)
        else Attempts(Place(cleared, x, y, digit), toRemove, pick, pos + 2, i + 1)
  }

  /** A successful removal from a well-formed valid board leaves a
      well-formed valid board with exactly one valid completion. */
  lemma RemoveUnique(b: Board, toRemove: int, pick: nat -> Coord, pos: nat)
    requires WellFormed(b) && Valid(b.digits)
    requires toRemove > 0 && Remove(b, toRemove, pick, pos).ok
    ensures var r := Remove(b, toRemove, pick, pos).board;
            WellFormed(r) && Valid(r.digits) && |Completions(r.digits)| == 1
  {
    var r := Remove(b, toRemove, pick, pos).board;
    SubgridValid(b.digits, r.digits);
  }

  /** Removing digits from a solved grid leaves a puzzle whose one
      completion is that solved grid. */
  lemma RemoveFromSolved(b: Board, toRemove: int, pick: nat -> Coord, pos: nat)
    requires WellFormed(b) && IsFull(b.digits) && Valid(b.digits)
    requires toRemove > 0 && Remove(b, toRemove, pick, pos).ok
    ensures Completions(Remove(b, toRemove, pick, pos).board.digits) == {b.digits}
  {
    var r := Remove(b, toRemove, pick, pos).board;
    RemoveUnique(b, toRemove, pick, pos);
    InCompletions(r.digits, b.digits);
    assert b.digits in Completions(r.digits);
    Singleton(Completions(r.digits), b.digits);
  }

  /** A set of one element is the singleton of any of its elements. */
  lemma Singleton<T>(s: set<T>, a: T)
    requires |s| == 1 && a in s
    ensures s == {a}
  {
    var rest := s - {a};
    assert |rest| == 0;
  }
}
