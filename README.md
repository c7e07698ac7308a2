# Interactive letter grid: the tile logic in Dafny

The application shows a 10 x 10 grid of letter tiles. Each tile is lit or unlit.
A timer chain keeps running "wave transitions". Each transition picks one of
five spatial patterns at random, computes the tile indices the pattern covers,
and flips those tiles on a copy of the grid. Clicking a tile flips that tile.
All of this lives in one React component, `src/App.tsx`.

This project models the deterministic part of that component. Every
`Math.random()` draw becomes an explicit parameter, and the draw's range,
read off its `floor(random * k) + c` expression, becomes a precondition.

- `grid.dfy`, module `Grid`: the `GridSquare` record; `getRandomLetter` and
  `initializeGrid` (a `for` loop that pushes 100 tiles); the grid invariant
  (100 tiles, tile i has id i, letters A-Z); the on-grid filter.
- `toggle.dfy`, module `Toggle`: the toggle step of a transition, and the
  click handler. `ApplyToggles` copies the previous grid into a fresh array
  and flips each index in place, in list order. It is proved equal to the
  specification function `Toggled`. The lemmas about `Toggled` cover parity
  (a tile flips when its index occurs an odd number of times), off-grid
  indices, order, duplicates, involution and the grid invariant.
- `patterns.dfy`, module `Patterns`: the five pattern closures. Scattered,
  horizontal, vertical and diagonal are methods with the source's loops, each
  proved equal to a specification function. Cross is a function, because the
  source builds it from a list literal and a `filter`.
- `transition.dfy`, module `Transition`: the pattern pick and one whole
  transition.

A grid is a `seq<GridSquare>`, because React state values are immutable
snapshots. The previous grid therefore cannot be changed by a transition:
the toggle step writes only to its own fresh array.

The toggle step takes a list. Each occurrence flips the tile once, so a
repeated index cancels out.

## Model

| member | source | states |
|---|---|---|
| `Grid.RandomLetter` | src/App.tsx:15-18 | the drawn letter is in A-Z, and it is the draw-th letter of the alphabet |
| `Grid.RandomLetterOnto` | src/App.tsx:15-18 | every letter A-Z comes from exactly one draw in [0, 26) |
| `Grid.InitializeGrid` | src/App.tsx:21-31 | the grid has exactly 100 tiles; tile i has id i, a letter in A-Z and the i-th letter and lit draws |
| `Grid.KeepOnGrid` | src/App.tsx:106 | counted as a multiset, the filter keeps every on-grid entry as often as it occurs and drops every off-grid one (the order of what it keeps is not stated); it changes nothing when all entries are on the grid |
| `Toggle.ApplyToggles` | src/App.tsx:38-123 | flipping each index in place, in list order, on a copy of the previous grid yields `Toggled(prevGrid, indices)` |
| `Toggle.ToggledParity` | src/App.tsx:114-121 | tile k ends up flipped exactly when k occurs an odd number of times in the list; its id and letter never change |
| `Toggle.ToggledByParity` | src/App.tsx:114-121 | two lists in which every on-grid index occurs equally often modulo 2 give the same grid |
| `Toggle.ToggledIgnoresOffGrid` | src/App.tsx:115 | indices outside [0, 100) have no effect: the result equals that of the list filtered to the grid |
| `Toggle.ToggledOrderIrrelevant` | src/App.tsx:114-121 | lists that are permutations of each other give the same grid |
| `Toggle.ToggledDuplicateCancels` | src/App.tsx:114-121 | appending an index twice is a net no-op |
| `Toggle.ToggledTwice` | src/App.tsx:114-121 | applying the same list twice restores the grid |
| `Toggle.ToggledWellFormed` | src/App.tsx:116-119 | the toggle step keeps the grid invariant (100 tiles, ids 0..99 in order, letters A-Z) |
| `Toggle.ToggledExamples` | src/App.tsx:114-121 | the list [5, 7] flips exactly tiles 5 and 7; [5, 5] leaves the grid unchanged |
| `Toggle.ClickToggle` | src/App.tsx:202-209 | the length is kept; only a tile whose id equals the clicked id has `isLit` negated; ids and letters are unchanged |
| `Toggle.ClickIsToggle` | src/App.tsx:202-209 | on a well-formed grid a click equals the toggle step with the list [id]; a click on an id outside [0, 100) changes nothing |
| `Toggle.ClickTwice` | src/App.tsx:202-209 | clicking the same tile twice restores the grid |
| `Toggle.ClickWellFormed` | src/App.tsx:204-208 | a click keeps the grid invariant |
| `Patterns.Dedup` | src/App.tsx:46-50 | the contents of a `Set` fed with a sequence: no repeats, the same members as the sequence, and no more elements than the sequence |
| `Patterns.ScatterFromKeeps` | src/App.tsx:47-49 | the set-filling loop keeps the set free of repeats and adds only drawn values |
| `Patterns.ScatterFromFills` | src/App.tsx:47-49 | when the draws hold at least n distinct values, the set ends with exactly n elements |
| `Patterns.ScatteredCellsSpec` | src/App.tsx:44-50 | the scattered pattern yields numToToggle (4 to 11) distinct on-grid indices, each one of the draws |
| `Patterns.ScatteredPattern` | src/App.tsx:44-50 | the `while` loop returns exactly numToToggle distinct on-grid drawn indices, in insertion order |
| `Patterns.HorizontalWave` | src/App.tsx:54-64 | the count is min(length, 10 - startCol); the j-th index is in row `row`, column startCol + j |
| `Patterns.HorizontalStaysInRow` | src/App.tsx:58-63 | for any start column, every index lies on the grid, in row `row`, at or right of startCol |
| `Patterns.HorizontalEdgeExample` | src/App.tsx:58-63 | row 3, startCol 8, length 5 gives only 38 and 39 |
| `Patterns.VerticalWave` | src/App.tsx:68-78 | the count is min(length, 10 - startRow); the j-th index is in column `col`, row startRow + j, on the grid |
| `Patterns.DiagonalPattern` | src/App.tsx:82-92 | the count is min(length, 10 - startRow, 10 - startCol); the j-th index is at (startRow + j, startCol + j); consecutive indices differ by 11 |
| `Patterns.CrossCells` | src/App.tsx:96-107 | every index the cross returns is on the grid |
| `Patterns.CrossInterior` | src/App.tsx:96-106 | for a centre in [1, 8] x [1, 8] the filter removes nothing: the result is centre, top, bottom, left, right |
| `Patterns.PlusIsNeighbourhood` | src/App.tsx:99-105 | the five listed cells are distinct and are the centre plus exactly its orthogonal grid neighbours |
| `Patterns.CrossNeighbourhood` | src/App.tsx:96-106 | for a drawn centre, the cross holds distinct cells: the centre and exactly its orthogonal neighbours on the grid |
| `Patterns.CrossExample` | src/App.tsx:96-106 | centre (1, 1) gives [11, 1, 21, 10, 12] |
| `Patterns.CrossWrapsAtLeftEdge` | src/App.tsx:103-106 | the filter guards only the top and bottom edges: a centre in column 0 would take tile 9 as the left neighbour of tile 10 |
| `Transition.SelectPattern` | src/App.tsx:111 | draw i picks the i-th of the five closures |
| `Transition.SelectPatternOnto` | src/App.tsx:111 | each of the five patterns is picked by exactly one draw |
| `Transition.PatternCellsOnGrid` | src/App.tsx:42-108 | whichever pattern is picked, its indices are on the grid and none repeats |
| `Transition.PatternCellsAtLeastThree` | src/App.tsx:42-108 | with in-range draws every pattern returns at least three indices, all on the grid |
| `Transition.EmptyGridTransitionReadsPastEnd` | src/App.tsx:114-119 | on the empty initial grid every pattern names an on-grid index with no tile behind it, so the toggle step reads a missing tile |
| `Transition.GeneratePattern` | src/App.tsx:111-112 | running the picked closure on its draws gives that pattern's indices |
| `Transition.ToggledDistinct` | src/App.tsx:114-121 | flipping a list without repeats flips exactly the tiles it names |
| `Transition.WaveTransition` | src/App.tsx:38-123 | one transition flips exactly the picked pattern's tiles, keeps every id and letter, and keeps the grid invariant |

## Left out

- The JSX markup, the styling and the `Button` component (`./components/ui/button` is not part of this model). They are presentation only.
- The React hooks `useState`, `useEffect` and `useCallback`. The state is modelled as explicit grid values passed in and returned.
- Probabilities. Each `Math.random()` draw is a parameter. The lit draw at line 27 (`Math.random() > 0.5`) is a `bool` parameter.
- The timer chain and its delay of `600 + Math.random() * 1400` ms (lines 131-141). This is timer plumbing and a floating-point value.
- Pausing. The callback at line 134 reads the `isAnimating` captured when the effect ran. That value is always true, because the effect returns early at line 35 otherwise. The effect also returns no cleanup. A running chain is therefore never stopped, and the model makes no claim that pausing halts ticks.
- `toggleAnimation` and `resetGrid` (lines 149-155). They are one-line state setters; `resetGrid` is `InitializeGrid` again.
- Toggle.ApplyToggles: requires a grid of exactly 100 tiles, and so does Transition.WaveTransition, which calls it. On a shorter grid the toggle step throws at line 118 once it reaches an on-grid index past the grid's end, because it reads `isLit` of a missing tile. The first transition (line 128) is queued before `initializeGrid`'s update (line 146), so it runs on the empty initial state of line 11. Every pattern returns at least three on-grid indices (`Transition.PatternCellsAtLeastThree`), so that run throws (`Transition.EmptyGridTransitionReadsPastEnd`). The requires excludes that run, and the model does not describe it.
- Patterns.ScatteredPattern: the draw stream is a finite sequence that must hold at least numToToggle distinct values. The source loops until it has drawn enough, which a finite stream can only stand for under that assumption.
