/** The 10 x 10 grid of letter tiles: its cells, its index arithmetic and
    its construction from the random draws made by `initializeGrid`. */
module Grid {

  /** Number of tiles; a tile's index is row * 10 + col. */
  const GridSize: int := 100

  /** The alphabet `getRandomLetter` draws from. */
  const Letters: string := "ABCDEFGHIJKLMNOPQRSTUVWXYZ"

  /** One tile. `id` is its position in the grid; only `isLit` ever changes. */
  datatype GridSquare = GridSquare(id: int, letter: char, isLit: bool)

  /** The range guard `index >= 0 && index < 100` used by the toggle step
      and by the cross pattern's filter. */
  predicate OnGrid(k: int) {
    0 <= k < GridSize
  }

  predicate IsLetter(c: char) {
    'A' <= c <= 'Z'
  }

  /** The grid invariant: exactly 100 tiles, tile i has id i, every letter is A-Z. */
  predicate WellFormed(g: seq<GridSquare>) {
    |g| == GridSize &&
    forall i :: 0 <= i < |g| ==> g[i].id == i && IsLetter(g[i].letter)
  }

  /** `getRandomLetter`: the letter at position `draw` of the alphabet, where
      `draw` stands for floor(random * 26). */
  function RandomLetter(draw: int): (c: char)
    requires 0 <= draw < |Letters|
    ensures IsLetter(c)
    ensures c as int - 'A' as int == draw
  {
    Letters[draw]
  }

  /** Every letter A-Z is produced by exactly one draw. */
  lemma RandomLetterOnto(c: char)
    requires IsLetter(c)
    ensures 0 <= c as int - 'A' as int < |Letters|
    ensures RandomLetter(c as int - 'A' as int) == c
  {
    var d := c as int - 'A' as int;
    var r := RandomLetter(d);
    assert r as int == c as int;
  }

  /** `initializeGrid`: pushes 100 tiles, tile i taking its letter from
      `letterDraws[i]` and its lit flag from `litDraws[i]` (the outcome of
      `Math.random() > 0.5`). */
  method InitializeGrid(letterDraws: seq<int>, litDraws: seq<bool>) returns (grid: seq<GridSquare>)
    requires |letterDraws| == GridSize && |litDraws| == GridSize
    requires forall i :: 0 <= i < |letterDraws| ==> 0 <= letterDraws[i] < |Letters|
    ensures WellFormed(grid)
    ensures forall i :: 0 <= i < |grid| ==>
      grid[i].letter == RandomLetter(letterDraws[i]) && grid[i].isLit == litDraws[i]
  {
    grid := [];
    for i := 0 to GridSize
      invariant |grid| == i
      invariant forall j :: 0 <= j < i ==>
        grid[j] == GridSquare(j, RandomLetter(letterDraws[j]), litDraws[j])
    {
      grid := grid + [GridSquare(i, RandomLetter(letterDraws[i]), litDraws[i])];
    }
  }

  /** Keeps, in order, the entries of `s` that lie on the grid
      (`indices.filter(i => i >= 0 && i < 100)`). */
  function KeepOnGrid(s: seq<int>): (r: seq<int>)
    ensures |r| <= |s|
    ensures forall k :: OnGrid(k) ==> multiset(r)[k] == multiset(s)[k]
    ensures forall k :: !OnGrid(k) ==> multiset(r)[k] == 0
    ensures (forall j :: 0 <= j < |s| ==> OnGrid(s[j])) ==> r == s
  {
    if s == [] then []
    else
      assert s == [s[0]] + s[1..];
      (if OnGrid(s[0]) then [s[0]] else []) + KeepOnGrid(s[1..])
  }
}
