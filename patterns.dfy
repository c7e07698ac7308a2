/** The five pattern generators of a wave transition. Each random draw is a
    parameter whose range, taken from its `floor(random * k) + c`
    expression, is a precondition. */
module Patterns {
  import opened Grid

  predicate Distinct(s: seq<int>) {
    forall i, j :: 0 <= i < j < |s| ==> s[i] != s[j]
  }

  // ---------------------------------------------------------------------------
  // Scattered

  /** The distinct values of `s` in order of first occurrence: what a JS
      `Set` holds after adding the values of `s` one by one. */
  function Dedup(s: seq<int>): (r: seq<int>)
    ensures Distinct(r)
    ensures |r| <= |s|
    ensures forall x :: x in r <==> x in s
  {
    if s == [] then []
    else
      var d := Dedup(s[..|s| - 1]);
      var x := s[|s| - 1];
      assert s == s[..|s| - 1] + [x];
      if x in d then d else d + [x]
  }

  /** Adding the values of `picks` to the set `seen` until it holds `n` values
      or the picks run out. */
  function ScatterFrom(seen: seq<int>, picks: seq<int>, n: int): (r: seq<int>)
    decreases |picks|
  {
    if |seen| >= n || picks == [] then seen
    else ScatterFrom(if picks[0] in seen then seen else seen + [picks[0]], picks[1..], n)
  }

  /** Filling the set never repeats a value and adds only drawn values. */
  lemma {:induction false} ScatterFromKeeps(seen: seq<int>, picks: seq<int>, n: int)
    requires Distinct(seen)
    ensures Distinct(ScatterFrom(seen, picks, n))
    ensures forall x :: x in ScatterFrom(seen, picks, n) ==> x in seen || x in picks
    decreases |picks|
  {
    if |seen| < n && picks != [] {
      var seen' := if picks[0] in seen then seen else seen + [picks[0]];
      ScatterFromKeeps(seen', picks[1..], n);
    }
  }

  lemma ScatterFromStep(seen: seq<int>, picks: seq<int>, n: int)
    requires |seen| < n && picks != []
    ensures ScatterFrom(seen, picks, n)
      == ScatterFrom(if picks[0] in seen then seen else seen + [picks[0]], picks[1..], n)
  {
  }

  /** The indices the scattered pattern returns for the stream of draws `picks`. */
  function ScatteredCells(numToToggle: int, picks: seq<int>): (r: seq<int>) {
    ScatterFrom([], picks, numToToggle)
  }

  /** When the values seen so far and the remaining picks hold at least `n`
      distinct values, the set fills up to exactly `n`. */
  lemma {:induction false} ScatterFromFills(p: seq<int>, rest: seq<int>, n: int)
    requires |Dedup(p)| <= n <= |Dedup(p + rest)|
    ensures |ScatterFrom(Dedup(p), rest, n)| == n
    decreases |rest|
  {
    assert p + [] == p;
    if |Dedup(p)| < n {
      var p' := p + [rest[0]];
      assert p'[..|p'| - 1] == p;
      assert p' + rest[1..] == p + rest;
      ScatterFromFills(p', rest[1..], n);
    }
  }

  /** The scattered pattern's promise: `numToToggle` distinct on-grid indices,
      each of them one of the draws. */
  lemma ScatteredCellsSpec(numToToggle: int, picks: seq<int>)
    requires 4 <= numToToggle <= 11
    requires forall j :: 0 <= j < |picks| ==> OnGrid(picks[j])
    requires |Dedup(picks)| >= numToToggle
    ensures |ScatteredCells(numToToggle, picks)| == numToToggle
    ensures Distinct(ScatteredCells(numToToggle, picks))
    ensures forall x :: x in ScatteredCells(numToToggle, picks) ==> x in picks && OnGrid(x)
  {
    assert [] + picks == picks;
    ScatterFromFills([], picks, numToToggle);
    ScatterFromKeeps([], picks, numToToggle);
  }

  /** The scattered closure: `numToToggle` (floor(random * 8) + 4) values are
      collected into a `Set` from the draw stream `picks`, each draw standing
      for floor(random * 100). The loop ends once the set is full, which the
      stream makes possible by holding enough distinct values. */
  method ScatteredPattern(numToToggle: int, picks: seq<int>) returns (indices: seq<int>)
    requires 4 <= numToToggle <= 11
    requires forall j :: 0 <= j < |picks| ==> OnGrid(picks[j])
    requires |Dedup(picks)| >= numToToggle
    ensures indices == ScatteredCells(numToToggle, picks)
    ensures |indices| == numToToggle
    ensures Distinct(indices)
    ensures forall x :: x in indices ==> x in picks && OnGrid(x)
  {
    ScatteredCellsSpec(numToToggle, picks);
    indices := [];
    var k := 0;
    assert picks[0..] == picks;
    while |indices| < numToToggle
      invariant 0 <= k <= |picks|
      invariant ScatterFrom(indices, picks[k..], numToToggle) == ScatteredCells(numToToggle, picks)
      decreases |picks| - k
    {
      var x := picks[k];
      ScatterFromStep(indices, picks[k..], numToToggle);
      assert picks[k..][1..] == picks[k + 1..];
      if x !in indices {
        indices := indices + [x];
      }
      k := k + 1;
    }
  }

  // ---------------------------------------------------------------------------
  // Runs: the wave and diagonal patterns

  /** `count` indices starting at `start`, each `step` past the previous one. */
  function Run(start: int, step: int, count: nat): (r: seq<int>)
    ensures |r| == count
  {
    seq(count, j => start + j * step)
  }

  /** How many of the loop's `length` steps pass its `i < room` guard. */
  function Fit(length: int, room: int): (count: nat) {
    if length <= 0 || room <= 0 then 0
    else if length < room then length
    else room
  }

  lemma FitStep(i: nat, room: int)
    ensures Fit(i + 1, room) == if i < room then Fit(i, room) + 1 else Fit(i, room)
    ensures i < room ==> Fit(i, room) == i
  {
  }

  function Max(a: int, b: int): (m: int) {
    if a < b then b else a
  }

  /** Indices of the horizontal wave: row `row`, from column `startCol`,
      `length` tiles, cut at the row's right edge. */
  function HorizontalCells(row: int, startCol: int, length: int): (r: seq<int>) {
    Run(row * 10 + startCol, 1, Fit(length, 10 - startCol))
  }

  /** Indices of the vertical wave: column `col`, from row `startRow`. */
  function VerticalCells(col: int, startRow: int, length: int): (r: seq<int>) {
    Run(startRow * 10 + col, 10, Fit(length, 10 - startRow))
  }

  /** Indices of the diagonal: down and right from (startRow, startCol),
      cut at whichever edge comes first. */
  function DiagonalCells(startRow: int, startCol: int, length: int): (r: seq<int>) {
    Run(startRow * 10 + startCol, 11, Fit(length, 10 - Max(startRow, startCol)))
  }

  /** The horizontal closure: row (floor(random * 10)), startCol
      (floor(random * 6)) and length (floor(random * 5) + 3). */
  method HorizontalWave(row: int, startCol: int, length: int) returns (indices: seq<int>)
    requires 0 <= row < 10 && 0 <= startCol < 6 && 3 <= length <= 7
    ensures indices == HorizontalCells(row, startCol, length)
    ensures |indices| == if length < 10 - startCol then length else 10 - startCol
    ensures forall j :: 0 <= j < |indices| ==>
      OnGrid(indices[j]) && indices[j] / 10 == row && indices[j] % 10 == startCol + j
  {
    indices := [];
    for i := 0 to length
      invariant indices == Run(row * 10 + startCol, 1, Fit(i, 10 - startCol))
    {
      FitStep(i, 10 - startCol);
      if startCol + i < 10 {
        indices := indices + [row * 10 + startCol + i];
      }
    }
  }

  /** The vertical closure: col (floor(random * 10)), startRow
      (floor(random * 6)) and length (floor(random * 5) + 3). */
  method VerticalWave(col: int, startRow: int, length: int) returns (indices: seq<int>)
    requires 0 <= col < 10 && 0 <= startRow < 6 && 3 <= length <= 7
    ensures indices == VerticalCells(col, startRow, length)
    ensures |indices| == if length < 10 - startRow then length else 10 - startRow
    ensures forall j :: 0 <= j < |indices| ==>
      OnGrid(indices[j]) && indices[j] % 10 == col && indices[j] / 10 == startRow + j
  {
    indices := [];
    for i := 0 to length
      invariant indices == Run(startRow * 10 + col, 10, Fit(i, 10 - startRow))
    {
      FitStep(i, 10 - startRow);
      if startRow + i < 10 {
        indices := indices + [(startRow + i) * 10 + col];
      }
    }
  }

  /** The diagonal closure: startRow and startCol (floor(random * 7)) and
      length (floor(random * 4) + 3). */
  method DiagonalPattern(startRow: int, startCol: int, length: int) returns (indices: seq<int>)
    requires 0 <= startRow < 7 && 0 <= startCol < 7 && 3 <= length <= 6
    ensures indices == DiagonalCells(startRow, startCol, length)
    ensures |indices| <= length && |indices| <= 10 - startRow && |indices| <= 10 - startCol
    ensures |indices| == length || |indices| == 10 - startRow || |indices| == 10 - startCol
    ensures forall j :: 0 <= j < |indices| ==>
      OnGrid(indices[j]) && indices[j] / 10 == startRow + j && indices[j] % 10 == startCol + j
    ensures forall j :: 0 < j < |indices| ==> indices[j] == indices[j - 1] + 11
  {
    indices := [];
    for i := 0 to length
      invariant indices == Run(startRow * 10 + startCol, 11, Fit(i, 10 - Max(startRow, startCol)))
    {
      FitStep(i, 10 - Max(startRow, startCol));
      if startRow + i < 10 && startCol + i < 10 {
        indices := indices + [(startRow + i) * 10 + startCol + i];
      }
    }
  }

  /** However far right the wave starts, it never spills into the next row. */
  lemma HorizontalStaysInRow(row: int, startCol: int, length: int)
    requires 0 <= row < 10 && 0 <= startCol
    ensures forall x :: x in HorizontalCells(row, startCol, length) ==>
      OnGrid(x) && x / 10 == row && startCol <= x % 10
  {
  }

  /** Row 3, column 8, length 5 gives only 38 and 39. */
  lemma HorizontalEdgeExample()
    ensures HorizontalCells(3, 8, 5) == [38, 39]
  {
  }

  // ---------------------------------------------------------------------------
  // Cross

  /** The cross closure's list: centre, top, bottom, left, right, filtered
      to the grid. */
  function CrossCells(centerRow: int, centerCol: int): (r: seq<int>)
    ensures forall x :: x in r ==> OnGrid(x)
  {
    var c := centerRow * 10 + centerCol;
    var r := KeepOnGrid([c, c - 10, c + 10, c - 1, c + 1]);
    assert forall x :: x in r ==> multiset(r)[x] > 0;
    r
  }

  /** Row and column of the index row * 10 + col. */
  lemma Coordinates(row: int, col: int)
    requires 0 <= col < 10
    ensures (row * 10 + col) / 10 == row && (row * 10 + col) % 10 == col
  {
  }

  /** Orthogonal neighbours on the grid. */
  predicate Adjacent(a: int, b: int) {
    OnGrid(a) && OnGrid(b) &&
    ((a / 10 == b / 10 && (a % 10 - b % 10 == 1 || b % 10 - a % 10 == 1)) ||
     (a % 10 == b % 10 && (a / 10 - b / 10 == 1 || b / 10 - a / 10 == 1)))
  }

  /** For a centre drawn from [1, 8] x [1, 8] the filter removes nothing:
      the result is the centre, top, bottom, left and right. */
  lemma CrossInterior(centerRow: int, centerCol: int)
    requires 1 <= centerRow <= 8 && 1 <= centerCol <= 8
    ensures var c := centerRow * 10 + centerCol;
      CrossCells(centerRow, centerCol) == [c, c - 10, c + 10, c - 1, c + 1]
  {
    var c := centerRow * 10 + centerCol;
    var s := [c, c - 10, c + 10, c - 1, c + 1];
    assert forall j :: 0 <= j < |s| ==> OnGrid(s[j]);
    assert KeepOnGrid(s) == s;
  }

  /** The centre and the four cells around it are distinct, and they are the
      centre and exactly its orthogonal neighbours on the grid. */
  lemma PlusIsNeighbourhood(centerRow: int, centerCol: int, s: seq<int>)
    requires 1 <= centerRow <= 8 && 1 <= centerCol <= 8
    requires var c := centerRow * 10 + centerCol; s == [c, c - 10, c + 10, c - 1, c + 1]
    ensures Distinct(s)
    ensures forall x :: x in s <==> x == centerRow * 10 + centerCol || Adjacent(centerRow * 10 + centerCol, x)
  {
    var c := centerRow * 10 + centerCol;
    Coordinates(centerRow, centerCol);
    Coordinates(centerRow - 1, centerCol);
    Coordinates(centerRow + 1, centerCol);
    Coordinates(centerRow, centerCol - 1);
    Coordinates(centerRow, centerCol + 1);
    forall x | Adjacent(c, x) ensures x in s {
      var q, m := x / 10, x % 10;
      assert x == q * 10 + m;
      if q == centerRow {
        assert x == c - 1 || x == c + 1;
      } else {
        assert x == c - 10 || x == c + 10;
      }
    }
  }

  /** For such a centre the cross holds five distinct cells: the centre and
      exactly its orthogonal neighbours on the grid. */
  lemma CrossNeighbourhood(centerRow: int, centerCol: int)
    requires 1 <= centerRow <= 8 && 1 <= centerCol <= 8
    ensures Distinct(CrossCells(centerRow, centerCol))
    ensures forall x :: x in CrossCells(centerRow, centerCol) <==>
      x == centerRow * 10 + centerCol || Adjacent(centerRow * 10 + centerCol, x)
  {
    CrossInterior(centerRow, centerCol);
    PlusIsNeighbourhood(centerRow, centerCol, CrossCells(centerRow, centerCol));
  }

  /** Centre (1, 1) gives 11, 1, 21, 10, 12. */
  lemma CrossExample()
    ensures CrossCells(1, 1) == [11, 1, 21, 10, 12]
  {
    CrossInterior(1, 1);
  }

  /** The filter only guards the top and bottom edges: a centre in column 0,
      which the draws never produce, would take the last tile of the row
      above as its left neighbour. */
  lemma CrossWrapsAtLeftEdge()
    ensures CrossCells(1, 0) == [10, 0, 20, 9, 11]
  {
    var s := [10, 0, 20, 9, 11];
    assert forall j :: 0 <= j < |s| ==> OnGrid(s[j]);
  }
}
