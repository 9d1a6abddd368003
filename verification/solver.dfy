/** The bounded backtracking solution counter (Board.java:59-137).

    Board.java mutates one shared matrix: it writes a digit, recurses and
    writes the zero back. Here the board is threaded through the search:
    every call returns the board as it leaves it, and the contracts prove that
    this is exactly the board it was given, on every exit path. */
module Solver {
  import opened Sudoku
  import opened Completion

  const UniquelySolvableSolutionAmount: int := 1
  const DefaultSolutionLimit: int := 1000

  /** Result of one counting call: the solutions found and the board as the
      call leaves it. */
  datatype Search = Search(count: int, board: Board)

  /** Result of the scan for the next empty cell. */
  datatype Scan = Found(x: Coord, y: Coord) | Exhausted

  function Max(a: int, b: int): int
  {
    if a >= b then a else b
  }

  function Min(a: int, b: int): int
  {
    if a <= b then a else b
  }

  /** Position of (x, y) in scan order; `y` may be 9, one past the end of its
      x-line, which is where the next x-line starts. */
  function ScanPos(x: int, y: int): int
  {
    x * Size + y
  }

  /** The two nested while loops of Board.java:75-85 and 132-133: starting at
      (x, y), walk y up the current x-line, then restart at y = 0 on the next
      x-line, stopping at the first empty cell. */
  function FirstEmpty(g: Grid, x: int, y: int): (r: Scan)
    requires 0 <= x <= Size && 0 <= y <= Size
    decreases Size - x, Size - y
    ensures r.Found? ==> ScanPos(x, y) <= Idx(r.x, r.y) && g[Idx(r.x, r.y)] == EmptyDigit
    ensures r.Found? ==> forall i :: ScanPos(x, y) <= i < Idx(r.x, r.y) ==> g[i] != EmptyDigit
    ensures r.Exhausted? ==> forall i :: ScanPos(x, y) <= i < CellCount ==> g[i] != EmptyDigit
  {
    if x == Size then Exhausted
    else if y == Size then FirstEmpty(g, x + 1, 0)
    else if g[Idx(x, y)] != EmptyDigit then FirstEmpty(g, x, y + 1)
    else Found(x, y)
  }

  /** `countSolutions(solutionLimit, startX, startY)` (Board.java:71-137).
      A board whose counter says 81 counts as one solution; otherwise the
      first empty cell at or after the start is filled with every placeable
      digit in turn. */
  function CountFrom(b: Board, limit: int, startX: Coord, startY: Coord): (r: Search)
    decreases Empty(b.digits), 1
    ensures r.board == b
    ensures 0 <= r.count <= Max(limit, 1)
    ensures b.digitAmount == CellCount ==> r.count == 1
  {
    if b.digitAmount == CellCount then Search(1, b)
    else
      match FirstEmpty(b.digits, startX, startY)
      case Exhausted => Search(0, b)
      case Found(x, y) => TryDigits(b, limit, x, y, MinDigit, 0)
  }

  /** The digit loop of Board.java:87-129 at the empty cell (x, y), from
      `digit` on, with `amount` solutions found so far; it ends after
      digit 9. */
  function TryDigits(b: Board, limit: int, x: Coord, y: Coord, digit: int, amount: int): (r: Search)
    requires b.digits[Idx(x, y)] == EmptyDigit
    requires MinDigit <= digit <= MaxDigit + 1
    requires 0 <= amount < Max(limit, 1)
    decreases Empty(b.digits), 0, MaxDigit + 1 - digit, 1
    ensures r.board == b
    ensures amount <= r.count <= Max(limit, 1)
  {
    if digit > MaxDigit then Search(amount, b)
    else TryDigit(b, limit, x, y, digit, amount)
  }

  /** One iteration of the digit loop. A placeable digit is written,
      counted under the remaining limit `limit - amount`, and erased again;
      the loop stops as soon as `amount >= limit` (Board.java:121-126). */
  function TryDigit(b: Board, limit: int, x: Coord, y: Coord, digit: int, amount: int): (r: Search)
    requires b.digits[Idx(x, y)] == EmptyDigit
    requires IsDigit(digit)
    requires 0 <= amount < Max(limit, 1)
    decreases Empty(b.digits), 0, MaxDigit + 1 - digit, 0
    ensures r.board == b
    ensures amount <= r.count <= Max(limit, 1)
  {
    if !Placeable(b.digits, x, y, digit) then TryDigits(b, limit, x, y, digit + 1, amount)
    else
      PlaceFills(b, x, y, digit);
      var inner := CountFrom(Place(b, x, y, digit), limit - amount, x, y);
      var restored := Clear(inner.board, x, y);
      var total := amount + inner.count;
      if total >= limit then Search(total, restored)
      else TryDigits(restored, limit, x, y, digit + 1, total)
  }

  /** `countSolutions(solutionLimit)` (Board.java:67-69): count from (0, 0). */
  function CountSolutionsUpTo(b: Board, limit: int): (n: int)
    ensures 0 <= n <= Max(limit, 1)
    ensures WellFormed(b) && Valid(b.digits) && limit >= 1 ==> n == Min(limit, |Completions(b.digits)|)
  {
    CountFromStart(b, limit);
    CountFrom(b, limit, 0, 0).count
  }

  /** `countSolutions()` (Board.java:63-65): the default limit of 1000. */
  function CountSolutions(b: Board): (n: int)
    ensures 0 <= n <= DefaultSolutionLimit
    ensures WellFormed(b) && Valid(b.digits) ==> n == Min(DefaultSolutionLimit, |Completions(b.digits)|)
  {
    CountSolutionsUpTo(b, DefaultSolutionLimit)
  }

  /** `uniquelySolvable()` (Board.java:59-61): a count under limit 2 is 1.
      On a well-formed valid board this holds exactly when the board has
      one valid completion. */
  function UniquelySolvable(b: Board): (r: bool)
    ensures WellFormed(b) && Valid(b.digits) ==> (r <==> |Completions(b.digits)| == 1)
  {
    CountFromStart(b, UniquelySolvableSolutionAmount + 1);
    CountFrom(b, UniquelySolvableSolutionAmount + 1, 0, 0).count == UniquelySolvableSolutionAmount
  }

  /** The count from (0, 0) is exact on the boards `CountCorrect` covers. */
  lemma CountFromStart(b: Board, limit: int)
    ensures WellFormed(b) && Valid(b.digits) && limit >= 1 ==>
              CountFrom(b, limit, 0, 0).count == Min(limit, |Completions(b.digits)|)
  {
    if WellFormed(b) && Valid(b.digits) && limit >= 1 {
      CountCorrect(b, limit, 0, 0);
    }
  }

  /** The completions that hold a digit below `d` at cell (x, y). */
  ghost function Below(g: Grid, x: Coord, y: Coord, d: int): set<seq<int>>
  {
    set h | h in Completions(g) && h[Idx(x, y)] < d
  }

  /** Moving the digit bound past `d` adds the completions holding `d` at
      (x, y), which are the completions of the grid with `d` written there. */
  lemma BelowStep(g: Grid, x: Coord, y: Coord, d: int)
    requires g[Idx(x, y)] == EmptyDigit && IsDigit(d)
    ensures |Below(g, x, y, d + 1)| == |Below(g, x, y, d)| + |Completions(g[Idx(x, y) := d])|
  {
    CompletionsOfPlace(g, x, y, d);
    var now := set h | h in Completions(g) && h[Idx(x, y)] == d;
    assert Below(g, x, y, d + 1) == Below(g, x, y, d) + now;
    assert Below(g, x, y, d) * now == {};
  }

  lemma BelowEnds(g: Grid, x: Coord, y: Coord)
    ensures Below(g, x, y, MinDigit) == {}
    ensures Below(g, x, y, MaxDigit + 1) == Completions(g)
  {
    forall h | h in Completions(g)
      ensures IsDigit(h[Idx(x, y)])
    {
      InCompletions(g, h);
    }
  }

  /** Correctness of the counter: on a well-formed valid board whose cells
      before the start are all filled, the count under a positive limit is
      the number of valid completions, capped at the limit. */
  lemma {:induction false} CountCorrect(b: Board, limit: int, startX: Coord, startY: Coord)
    requires WellFormed(b) && Valid(b.digits) && limit >= 1
    requires forall i :: 0 <= i < Idx(startX, startY) ==> b.digits[i] != EmptyDigit
    ensures CountFrom(b, limit, startX, startY).count == Min(limit, |Completions(b.digits)|)
    decreases Empty(b.digits), 1
  {
    var g := b.digits;
    FilledFull(g);
    if b.digitAmount == CellCount {
      CompletionsOfSolved(g);
    } else {
      match FirstEmpty(g, startX, startY)
      case Exhausted =>
        assert false;
      case Found(x, y) =>
        BelowEnds(g, x, y);
        TryCorrect(b, limit, x, y, MinDigit, 0);
    }
  }

  /** The state the digit loop runs in: a well-formed valid board, a
      positive limit, and (x, y) the first empty cell. */
  predicate Searching(b: Board, limit: int, x: Coord, y: Coord)
  {
    && WellFormed(b) && Valid(b.digits) && limit >= 1
    && b.digits[Idx(x, y)] == EmptyDigit
    && forall i :: 0 <= i < Idx(x, y) ==> b.digits[i] != EmptyDigit
  }

  /** Correctness of the digit loop: with `amount` equal to the number of
      completions holding a digit below `digit` at (x, y), and below the
      limit, the loop ends with the capped number of all completions. */
  lemma {:induction false} TryCorrect(b: Board, limit: int, x: Coord, y: Coord, digit: int, amount: int)
    requires Searching(b, limit, x, y)
    requires MinDigit <= digit <= MaxDigit + 1
    requires amount == |Below(b.digits, x, y, digit)| && amount < limit
    ensures TryDigits(b, limit, x, y, digit, amount).count == Min(limit, |Completions(b.digits)|)
    decreases Empty(b.digits), 0, MaxDigit + 1 - digit, 4
  {
    if digit > MaxDigit {
      BelowEnds(b.digits, x, y);
    } else if !Placeable(b.digits, x, y, digit) {
      TryCorrectBlocked(b, limit, x, y, digit, amount);
    } else {
      TryCorrectPlaced(b, limit, x, y, digit, amount);
    }
  }

  /** A digit the placement test rejects has no completions, so skipping
      it keeps the running count exact. */
  lemma {:induction false} TryCorrectBlocked(b: Board, limit: int, x: Coord, y: Coord, digit: int, amount: int)
    requires Searching(b, limit, x, y)
    requires IsDigit(digit) && !Placeable(b.digits, x, y, digit)
    requires amount == |Below(b.digits, x, y, digit)| && amount < limit
    ensures TryDigit(b, limit, x, y, digit, amount).count == Min(limit, |Completions(b.digits)|)
    decreases Empty(b.digits), 0, MaxDigit + 1 - digit, 3
  {
    CompletionsOfBlocked(b.digits, x, y, digit);
    BelowStep(b.digits, x, y, digit);
    TryCorrect(b, limit, x, y, digit + 1, amount);
  }

  /** A placeable digit adds the capped count of its own completions; the
      loop then either stops at the limit or continues with the rest. */
  lemma {:induction false} TryCorrectPlaced(b: Board, limit: int, x: Coord, y: Coord, digit: int, amount: int)
    requires Searching(b, limit, x, y)
    requires IsDigit(digit) && Placeable(b.digits, x, y, digit)
    requires amount == |Below(b.digits, x, y, digit)| && amount < limit
    ensures TryDigit(b, limit, x, y, digit, amount).count == Min(limit, |Completions(b.digits)|)
    decreases Empty(b.digits), 0, MaxDigit + 1 - digit, 3
  {
    var total := PlacedOutcome(b, limit, x, y, digit, amount);
    if total < limit {
      TryCorrect(b, limit, x, y, digit + 1, total);
    }
  }

  /** One placeable digit: the running count after it either reaches the
      limit, and the loop ends with the capped total, or equals the number
      of completions holding a digit up to `digit`, and the loop goes on
      from the same board. */
  lemma {:induction false} PlacedOutcome(b: Board, limit: int, x: Coord, y: Coord, digit: int, amount: int)
    returns (total: int)
    requires Searching(b, limit, x, y)
    requires IsDigit(digit) && Placeable(b.digits, x, y, digit)
    requires amount == |Below(b.digits, x, y, digit)| && amount < limit
    ensures total >= limit ==> TryDigit(b, limit, x, y, digit, amount).count == Min(limit, |Completions(b.digits)|)
    ensures total < limit ==> 0 <= total == |Below(b.digits, x, y, digit + 1)|
    ensures total < limit ==>
              TryDigit(b, limit, x, y, digit, amount).count == TryDigits(b, limit, x, y, digit + 1, total).count
    decreases Empty(b.digits), 0, MaxDigit + 1 - digit, 2
  {
    var inner := PlacedStep(b, limit, x, y, digit, amount);
    TryDigitPlaced(b, limit, x, y, digit, amount);
    total := amount + inner;
  }

  /** The count one placeable digit contributes, and what the running
      count becomes with it. */
  lemma {:induction false} PlacedStep(b: Board, limit: int, x: Coord, y: Coord, digit: int, amount: int)
    returns (inner: int)
    requires Searching(b, limit, x, y)
    requires IsDigit(digit) && Placeable(b.digits, x, y, digit)
    requires amount == |Below(b.digits, x, y, digit)| && amount < limit
    ensures inner == CountFrom(Place(b, x, y, digit), limit - amount, x, y).count
    ensures amount + inner >= limit ==> amount + inner == Min(limit, |Completions(b.digits)|)
    ensures amount + inner < limit ==> amount + inner == |Below(b.digits, x, y, digit + 1)|
    decreases Empty(b.digits), 0, MaxDigit + 1 - digit, 1
  {
    inner := CountFrom(Place(b, x, y, digit), limit - amount, x, y).count;
    PlacedCorrect(b, limit, x, y, digit, amount);
    CountStep(b.digits, limit, x, y, digit, amount, inner);
  }

  /** The bookkeeping of one placeable digit: adding the capped count of
      the completions holding `digit` either reaches the limit, and then the
      capped total is the limit, or it advances the running count to the
      completions holding a digit up to `digit`. */
  lemma CountStep(g: Grid, limit: int, x: Coord, y: Coord, digit: int, amount: int, inner: int)
    requires g[Idx(x, y)] == EmptyDigit && IsDigit(digit)
    requires amount == |Below(g, x, y, digit)| && amount < limit
    requires inner == Min(limit - amount, |Completions(g[Idx(x, y) := digit])|)
    ensures amount + inner >= limit ==> amount + inner == limit == Min(limit, |Completions(g)|)
    ensures amount + inner < limit ==> amount + inner == |Below(g, x, y, digit + 1)|
  {
    BelowStep(g, x, y, digit);
    BelowWithin(g, x, y, digit + 1);
  }

  /** One iteration of the digit loop for a placeable digit: the board
      handed to the next iteration is the original one again. */
  lemma TryDigitPlaced(b: Board, limit: int, x: Coord, y: Coord, digit: int, amount: int)
    requires b.digits[Idx(x, y)] == EmptyDigit
    requires IsDigit(digit) && Placeable(b.digits, x, y, digit)
    requires 0 <= amount < Max(limit, 1)
    ensures var total := amount + CountFrom(Place(b, x, y, digit), limit - amount, x, y).count;
            total >= limit ==> TryDigit(b, limit, x, y, digit, amount).count == total
    ensures var total := amount + CountFrom(Place(b, x, y, digit), limit - amount, x, y).count;
            total < limit ==> TryDigit(b, limit, x, y, digit, amount).count == TryDigits(b, limit, x, y, digit + 1, total).count
  {
    var inner := CountFrom(Place(b, x, y, digit), limit - amount, x, y);
    assert Clear(inner.board, x, y) == b;
  }

  /** The recursive count behind one placeable digit, in terms of the
      completions of the board with that digit written. */
  lemma {:induction false} PlacedCorrect(b: Board, limit: int, x: Coord, y: Coord, digit: int, amount: int)
    requires Searching(b, limit, x, y)
    requires IsDigit(digit) && Placeable(b.digits, x, y, digit)
    requires 0 <= amount < limit
    ensures CountFrom(Place(b, x, y, digit), limit - amount, x, y).count
         == Min(limit - amount, |Completions(b.digits[Idx(x, y) := digit])|)
    decreases Empty(b.digits), 0, MaxDigit + 1 - digit, 0
  {
    var placed := Place(b, x, y, digit);
    PlaceFills(b, x, y, digit);
    PlaceKeepsValid(b.digits, x, y, digit);
    assert placed.digits == b.digits[Idx(x, y) := digit];
    CountCorrect(placed, limit - amount, x, y);
  }

  lemma BelowWithin(g: Grid, x: Coord, y: Coord, d: int)
    ensures |Below(g, x, y, d)| <= |Completions(g)|
  {
    var below := Below(g, x, y, d);
    var rest := Completions(g) - below;
    assert Completions(g) == below + rest;
    assert below * rest == {};
  }
}
