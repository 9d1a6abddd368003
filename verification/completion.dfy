/** The declarative meaning of a solution count: the set of valid
    completions of a partially filled grid. Nothing in Board.java computes
    this set; it is the yardstick the solver is proved against. */
module Completion {
  import opened Sudoku

  /** All sequences as long as `shape` whose entries are digits 1..9.
      (Taking the length from a sequence rather than a number keeps the
      verifier from unfolding the recursion on the constant 81.) */
  ghost function Fillings(shape: seq<int>): set<seq<int>>
    decreases |shape|
  {
    if |shape| == 0 then {[]}
    else set s, d | s in Fillings(shape[1..]) && MinDigit <= d <= MaxDigit :: s + [d]
  }

  lemma {:induction false} InFillings(s: seq<int>, shape: seq<int>)
    requires |s| == |shape|
    requires forall i :: 0 <= i < |s| ==> IsDigit(s[i])
    ensures s in Fillings(shape)
    decreases |shape|
  {
    if |s| > 0 {
      var t, d := s[..|s| - 1], s[|s| - 1];
      InFillings(t, shape[1..]);
      assert s == t + [d];
    }
  }

  /** `h` completes `g`: a full grid of digits 1..9, valid, that agrees with
      `g` on every filled cell of `g`. */
  ghost predicate Completes(g: Grid, h: seq<int>)
  {
    && |h| == CellCount
    && (forall i :: 0 <= i < CellCount ==> IsDigit(h[i]))
    && (forall i :: 0 <= i < CellCount && g[i] != EmptyDigit ==> h[i] == g[i])
    && Valid(h)
  }

  /** The valid completions of `g` (a finite set). */
  ghost function Completions(g: Grid): set<seq<int>>
  {
    set h | h in Fillings(g) && Completes(g, h)
  }

  lemma InCompletions(g: Grid, h: seq<int>)
    ensures h in Completions(g) <==> Completes(g, h)
  {
    if Completes(g, h) {
      InFillings(h, g);
    }
  }

  /** A full, valid grid is its own and only completion. */
  lemma CompletionsOfSolved(g: Grid)
    requires IsFull(g) && InRange(g) && Valid(g)
    ensures Completions(g) == {g}
  {
    InCompletions(g, g);
    forall h | h in Completions(g)
      ensures h == g
    {
      InCompletions(g, h);
    }
  }

  /** Writing digit `d` into the empty cell (x, y) selects exactly the
      completions that hold `d` there. */
  lemma CompletionsOfPlace(g: Grid, x: Coord, y: Coord, d: int)
    requires g[Idx(x, y)] == EmptyDigit && IsDigit(d)
    ensures Completions(g[Idx(x, y) := d]) == set h | h in Completions(g) && h[Idx(x, y)] == d
  {
    var g' := g[Idx(x, y) := d];
    forall h
      ensures h in Completions(g') <==> h in Completions(g) && h[Idx(x, y)] == d
    {
      InCompletions(g', h);
      InCompletions(g, h);
    }
  }

  /** A digit the placement rule rejects has no completion behind it. */
  lemma CompletionsOfBlocked(g: Grid, x: Coord, y: Coord, d: int)
    requires g[Idx(x, y)] == EmptyDigit && IsDigit(d) && !Placeable(g, x, y, d)
    ensures Completions(g[Idx(x, y) := d]) == {}
  {
    var x2: Coord, y2: Coord :| SameUnit(x, y, x2, y2) && g[Idx(x2, y2)] == d;
    var g' := g[Idx(x, y) := d];
    var hs := Completions(g');
    forall h | h in hs
      ensures false
    {
      InCompletions(g', h);
      IdxInjective(x, y, x2, y2);
    }
  }
}
