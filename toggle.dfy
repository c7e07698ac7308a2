/** Flipping tiles: the toggle step a transition runs over its index list,
    and the click handler that flips the clicked tile. */
module Toggle {
  import opened Grid

  /** One pass of the `forEach` body: flip tile k when k is on the grid. */
  function Flip(g: seq<GridSquare>, k: int): (r: seq<GridSquare>)
    requires |g| == GridSize
  {
    if OnGrid(k) then g[k := g[k].(isLit := !g[k].isLit)] else g
  }

  /** The grid after flipping, in order, once per occurrence of each index. */
  function Toggled(g: seq<GridSquare>, indices: seq<int>): (r: seq<GridSquare>)
    requires |g| == GridSize
    ensures |r| == |g|
    decreases |indices|
  {
    if indices == [] then g
    else Flip(Toggled(g, indices[..|indices| - 1]), indices[|indices| - 1])
  }

  predicate Odd(n: nat) {
    n % 2 == 1
  }

  /** The toggle step (the loop over `indicesToToggle` on the copy `newGrid`):
      copies the previous grid into a fresh array and flips each on-grid
      index in place, in list order. */
  method ApplyToggles(prevGrid: seq<GridSquare>, indices: seq<int>) returns (next: seq<GridSquare>)
    requires |prevGrid| == GridSize
    ensures next == Toggled(prevGrid, indices)
  {
    var newGrid := new GridSquare[|prevGrid|](i requires 0 <= i < |prevGrid| => prevGrid[i]);
    assert newGrid[..] == prevGrid;
    for j := 0 to |indices|
      invariant newGrid[..] == Toggled(prevGrid, indices[..j])
    {
      assert indices[..j + 1][..j] == indices[..j];
      var index := indices[j];
      if 0 <= index < GridSize {
        newGrid[index] := newGrid[index].(isLit := !newGrid[index].isLit);
      }
    }
    assert indices[..|indices|] == indices;
    next := newGrid[..];
  }

  /** Flip per occurrence: tile k ends up flipped exactly when k occurs an odd
      number of times in the list; ids and letters never change. */
  lemma {:induction false} ToggledParity(g: seq<GridSquare>, indices: seq<int>, k: int)
    requires |g| == GridSize && 0 <= k < GridSize
    ensures Toggled(g, indices)[k].id == g[k].id
    ensures Toggled(g, indices)[k].letter == g[k].letter
    ensures Toggled(g, indices)[k].isLit == (g[k].isLit != Odd(multiset(indices)[k]))
  {
    if indices != [] {
      var init, last := indices[..|indices| - 1], indices[|indices| - 1];
      assert indices == init + [last];
      ToggledParity(g, init, k);
    }
  }

  /** The outcome depends only on how often (modulo 2) each on-grid index occurs. */
  lemma ToggledByParity(g: seq<GridSquare>, a: seq<int>, b: seq<int>)
    requires |g| == GridSize
    requires forall k :: OnGrid(k) ==> multiset(a)[k] % 2 == multiset(b)[k] % 2
    ensures Toggled(g, a) == Toggled(g, b)
  {
    forall k | 0 <= k < GridSize
      ensures Toggled(g, a)[k] == Toggled(g, b)[k]
    {
      ToggledParity(g, a, k);
      ToggledParity(g, b, k);
    }
  }

  /** Off-grid indices have no effect. */
  lemma ToggledIgnoresOffGrid(g: seq<GridSquare>, indices: seq<int>)
    requires |g| == GridSize
    ensures Toggled(g, indices) == Toggled(g, KeepOnGrid(indices))
  {
    ToggledByParity(g, indices, KeepOnGrid(indices));
  }

  /** The order of the list does not matter. */
  lemma ToggledOrderIrrelevant(g: seq<GridSquare>, a: seq<int>, b: seq<int>)
    requires |g| == GridSize
    requires multiset(a) == multiset(b)
    ensures Toggled(g, a) == Toggled(g, b)
  {
    ToggledByParity(g, a, b);
  }

  /** A duplicated index is a net no-op. */
  lemma ToggledDuplicateCancels(g: seq<GridSquare>, indices: seq<int>, k: int)
    requires |g| == GridSize
    ensures Toggled(g, indices + [k, k]) == Toggled(g, indices)
  {
    var d := indices + [k, k];
    assert multiset(d) == multiset(indices) + multiset{k, k};
    ToggledByParity(g, d, indices);
  }

  /** Running the same list twice restores the grid. */
  lemma ToggledTwice(g: seq<GridSquare>, indices: seq<int>)
    requires |g| == GridSize
    ensures Toggled(Toggled(g, indices), indices) == g
  {
    var once := Toggled(g, indices);
    forall k | 0 <= k < GridSize
      ensures Toggled(once, indices)[k] == g[k]
    {
      ToggledParity(g, indices, k);
      ToggledParity(once, indices, k);
    }
  }

  /** The grid invariant survives a toggle step. */
  lemma {:induction false} ToggledWellFormed(g: seq<GridSquare>, indices: seq<int>)
    requires WellFormed(g)
    ensures WellFormed(Toggled(g, indices))
  {
    forall k | 0 <= k < GridSize
      ensures Toggled(g, indices)[k].id == k && IsLetter(Toggled(g, indices)[k].letter)
    {
      ToggledParity(g, indices, k);
    }
  }

  /** The list [5, 7] flips exactly tiles 5 and 7; [5, 5] changes nothing. */
  lemma {:induction false} ToggledExamples(g: seq<GridSquare>)
    requires |g| == GridSize
    ensures forall k :: 0 <= k < GridSize ==>
      Toggled(g, [5, 7])[k].isLit == (g[k].isLit != (k == 5 || k == 7))
    ensures Toggled(g, [5, 5]) == g
  {
    forall k | 0 <= k < GridSize
      ensures Toggled(g, [5, 7])[k].isLit == (g[k].isLit != (k == 5 || k == 7))
    {
      ToggledParity(g, [5, 7], k);
      assert multiset([5, 7]) == multiset{5, 7};
    }
    ToggledDuplicateCancels(g, [], 5);
  }

  /** The click handler: maps over the grid, negating `isLit` of the tile
      whose id equals the clicked id. */
  function ClickToggle(g: seq<GridSquare>, id: int): (r: seq<GridSquare>)
    ensures |r| == |g|
    ensures forall i :: 0 <= i < |g| ==>
      r[i].id == g[i].id && r[i].letter == g[i].letter &&
      (r[i].isLit <==> (g[i].isLit != (g[i].id == id)))
  {
    seq(|g|, i requires 0 <= i < |g| => if g[i].id == id then g[i].(isLit := !g[i].isLit) else g[i])
  }

  /** On a well-formed grid a click on tile `id` is the toggle step with the
      one-element list [id]; a click on an id no tile has changes nothing. */
  lemma {:induction false} ClickIsToggle(g: seq<GridSquare>, id: int)
    requires WellFormed(g)
    ensures ClickToggle(g, id) == Toggled(g, [id])
    ensures !OnGrid(id) ==> ClickToggle(g, id) == g
  {
    assert [id][..0] == [];
    forall k | 0 <= k < GridSize
      ensures ClickToggle(g, id)[k] == Toggled(g, [id])[k]
    {
      ToggledParity(g, [id], k);
    }
  }

  /** Clicking the same tile twice restores the grid. */
  lemma ClickTwice(g: seq<GridSquare>, id: int)
    ensures ClickToggle(ClickToggle(g, id), id) == g
  {
  }

  /** A click keeps the grid invariant. */
  lemma ClickWellFormed(g: seq<GridSquare>, id: int)
    requires WellFormed(g)
    ensures WellFormed(ClickToggle(g, id))
  {
  }
}
