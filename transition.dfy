/** One wave transition (`createWaveTransition`): pick one of the five
    patterns, generate its indices, and flip them on a copy of the grid. */
module Transition {
  import opened Grid
  import opened Toggle
  import opened Patterns

  /** The five closures of the `patterns` array, in array order. */
  datatype Pattern = Scattered | Horizontal | Vertical | Diagonal | Cross

  /** The pattern pick: `patterns[floor(random * 5)]`. */
  function SelectPattern(choice: int): (p: Pattern)
    requires 0 <= choice < 5
    ensures PatternIndex(p) == choice
  {
    [Scattered, Horizontal, Vertical, Diagonal, Cross][choice]
  }

  /** Position of a pattern in the `patterns` array. */
  function PatternIndex(p: Pattern): (i: nat) {
    match p
    case Scattered => 0
    case Horizontal => 1
    case Vertical => 2
    case Diagonal => 3
    case Cross => 4
  }

  /** Every pattern can be picked: the pick is a bijection onto the five. */
  lemma SelectPatternOnto(p: Pattern)
    ensures PatternIndex(p) < 5 && SelectPattern(PatternIndex(p)) == p
  {
  }

  /** The values a closure draws, in the order it draws them:
      scattered uses `first` (numToToggle) and the stream `picks`;
      horizontal uses row, startCol, length; vertical col, startRow, length;
      diagonal startRow, startCol, length; cross centerRow, centerCol. */
  datatype Draws = Draws(first: int, second: int, third: int, picks: seq<int>)

  /** Each draw lies in the range of its `floor(random * k) + c`. */
  predicate DrawsInRange(p: Pattern, d: Draws) {
    match p
    case Scattered =>
      4 <= d.first <= 11 &&
      (forall j :: 0 <= j < |d.picks| ==> OnGrid(d.picks[j])) &&
      |Dedup(d.picks)| >= d.first
    case Horizontal => 0 <= d.first < 10 && 0 <= d.second < 6 && 3 <= d.third <= 7
    case Vertical => 0 <= d.first < 10 && 0 <= d.second < 6 && 3 <= d.third <= 7
    case Diagonal => 0 <= d.first < 7 && 0 <= d.second < 7 && 3 <= d.third <= 6
    case Cross => 1 <= d.first <= 8 && 1 <= d.second <= 8
  }

  /** The indices pattern `p` returns for the draws `d`. */
  function PatternCells(p: Pattern, d: Draws): (r: seq<int>) {
    match p
    case Scattered => ScatteredCells(d.first, d.picks)
    case Horizontal => HorizontalCells(d.first, d.second, d.third)
    case Vertical => VerticalCells(d.first, d.second, d.third)
    case Diagonal => DiagonalCells(d.first, d.second, d.third)
    case Cross => CrossCells(d.first, d.second)
  }

  /** Whatever pattern is picked, its indices are on the grid and none repeats. */
  lemma PatternCellsOnGrid(p: Pattern, d: Draws)
    requires DrawsInRange(p, d)
    ensures Distinct(PatternCells(p, d))
    ensures forall j :: 0 <= j < |PatternCells(p, d)| ==> OnGrid(PatternCells(p, d)[j])
  {
    match p
    case Scattered => ScatteredCellsSpec(d.first, d.picks);
    case Horizontal =>
    case Vertical =>
    case Diagonal =>
    case Cross => CrossNeighbourhood(d.first, d.second);
  }

  /** Every pattern returns at least three indices, all of them on the grid. */
  lemma PatternCellsAtLeastThree(p: Pattern, d: Draws)
    requires DrawsInRange(p, d)
    ensures |PatternCells(p, d)| >= 3
    ensures forall j :: 0 <= j < |PatternCells(p, d)| ==> OnGrid(PatternCells(p, d)[j])
  {
    PatternCellsOnGrid(p, d);
    match p
    case Scattered => ScatteredCellsSpec(d.first, d.picks);
    case Horizontal =>
    case Vertical =>
    case Diagonal =>
    case Cross => CrossInterior(d.first, d.second);
  }

  /** The grid state before `initializeGrid` has run (`useState<GridSquare[]>([])`). */
  const EmptyGrid: seq<GridSquare> := []

  /** A transition that runs on the empty grid reaches an on-grid index with
      no tile behind it, whichever pattern and draws it gets: the toggle step
      would read `isLit` of a missing tile. */
  lemma EmptyGridTransitionReadsPastEnd(p: Pattern, d: Draws)
    requires DrawsInRange(p, d)
    ensures exists j ::
              0 <= j < |PatternCells(p, d)| &&
              OnGrid(PatternCells(p, d)[j]) && PatternCells(p, d)[j] >= |EmptyGrid|
  {
    PatternCellsAtLeastThree(p, d);
    assert OnGrid(PatternCells(p, d)[0]);
  }

  /** Runs the picked closure on its draws. */
  method GeneratePattern(choice: int, d: Draws) returns (indices: seq<int>)
    requires 0 <= choice < 5 && DrawsInRange(SelectPattern(choice), d)
    ensures indices == PatternCells(SelectPattern(choice), d)
  {
    match SelectPattern(choice) {
      case Scattered => indices := ScatteredPattern(d.first, d.picks);
      case Horizontal => indices := HorizontalWave(d.first, d.second, d.third);
      case Vertical => indices := VerticalWave(d.first, d.second, d.third);
      case Diagonal => indices := DiagonalPattern(d.first, d.second, d.third);
      case Cross => indices := CrossCells(d.first, d.second);
    }
  }

  /** One transition on the previous grid: the picked pattern's indices are
      flipped on a copy; tile k ends up flipped exactly when it is one of
      them, and ids and letters stay as they were. */
  method WaveTransition(prevGrid: seq<GridSquare>, choice: int, d: Draws) returns (next: seq<GridSquare>)
    requires |prevGrid| == GridSize
    requires 0 <= choice < 5 && DrawsInRange(SelectPattern(choice), d)
    ensures next == Toggled(prevGrid, PatternCells(SelectPattern(choice), d))
    ensures WellFormed(prevGrid) ==> WellFormed(next)
    ensures forall k :: 0 <= k < GridSize ==>
      next[k].id == prevGrid[k].id && next[k].letter == prevGrid[k].letter &&
      (next[k].isLit <==> (prevGrid[k].isLit != (k in PatternCells(SelectPattern(choice), d))))
  {
    var indices := GeneratePattern(choice, d);
    next := ApplyToggles(prevGrid, indices);
    if WellFormed(prevGrid) {
      ToggledWellFormed(prevGrid, indices);
    }
    PatternCellsOnGrid(SelectPattern(choice), d);
    ToggledDistinct(prevGrid, indices);
  }

  /** Flipping a list without repeats flips exactly the tiles it names. */
  lemma {:induction false} ToggledDistinct(g: seq<GridSquare>, indices: seq<int>)
    requires |g| == GridSize && Distinct(indices)
    ensures forall k :: 0 <= k < GridSize ==>
      Toggled(g, indices)[k].id == g[k].id && Toggled(g, indices)[k].letter == g[k].letter &&
      (Toggled(g, indices)[k].isLit <==> (g[k].isLit != (k in indices)))
  {
    forall k | 0 <= k < GridSize
      ensures Toggled(g, indices)[k].id == g[k].id && Toggled(g, indices)[k].letter == g[k].letter &&
        (Toggled(g, indices)[k].isLit <==> (g[k].isLit != (k in indices)))
    {
      ToggledParity(g, indices, k);
      DistinctCount(indices, k);
    }
  }

  /** In a list without repeats each value occurs once or not at all. */
  lemma {:induction false} DistinctCount(s: seq<int>, k: int)
    requires Distinct(s)
    ensures multiset(s)[k] == if k in s then 1 else 0
  {
    if s != [] {
      var init := s[..|s| - 1];
      assert s == init + [s[|s| - 1]];
      DistinctCount(init, k);
    }
  }
}
