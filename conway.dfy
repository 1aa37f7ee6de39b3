/**
 The rules of Conway's Game of Life on a toroidal board, as pure functions.

 A board is a sequence of rows, `g[y][x]` being the cell in row `y`, column `x`
 (the source stores cells row-first to match HTML tables); the width is passed
 alongside because a board with no rows does not determine it.
 */
module Conway {
  import GoArith

  /** Every row of `g` is `w` cells wide. */
  predicate IsGrid(g: seq<seq<bool>>, w: int)
  {
    0 <= w && forall y :: 0 <= y < |g| ==> |g[y]| == w
  }

  /** No cell of `g` is alive. */
  predicate AllDead(g: seq<seq<bool>>)
  {
    forall y, x :: 0 <= y < |g| && 0 <= x < |g[y]| ==> !g[y][x]
  }

  function Count(b: bool): nat
  {
    if b then 1 else 0
  }

  // ---------------------------------------------------------------------------
  // Toroidal lookup

  /**
   The cell reached from arbitrary integer coordinates: each coordinate is
   reduced to its Euclidean residue, so the opposite edges of the board touch.
   */
  function At(g: seq<seq<bool>>, w: int, x: int, y: int): bool
    requires IsGrid(g, w) && w > 0 && |g| > 0
  {
    g[y % |g|][x % w]
  }

  /** Lookups repeat with the board's width horizontally and its height vertically. */
  lemma AtPeriodic(g: seq<seq<bool>>, w: int, x: int, y: int, k: int)
    requires IsGrid(g, w) && w > 0 && |g| > 0
    ensures At(g, w, x + k * w, y) == At(g, w, x, y)
    ensures At(g, w, x, y + k * |g|) == At(g, w, x, y)
  {
    GoArith.ModPeriodic(x, k, w);
    GoArith.ModPeriodic(y, k, |g|);
  }

  // ---------------------------------------------------------------------------
  // Neighbourhood and rule

  /** The eight offsets of the Moore neighbourhood: every `(dx, dy)` in `{-1, 0, 1}²` but `(0, 0)`. */
  const Moore: seq<(int, int)> := [(-1, -1), (0, -1), (1, -1), (-1, 0), (1, 0), (-1, 1), (0, 1), (1, 1)]

  /** The number of live cells at the given offsets from `(x, y)`. */
  function CountAt(g: seq<seq<bool>>, w: int, x: int, y: int, offsets: seq<(int, int)>): (n: nat)
    requires IsGrid(g, w) && w > 0 && |g| > 0
    ensures n <= |offsets|
  {
    if offsets == [] then 0
    else Count(At(g, w, x + offsets[0].0, y + offsets[0].1)) + CountAt(g, w, x, y, offsets[1..])
  }

  /** The number of live cells among the eight toroidal neighbours of `(x, y)`. */
  function LiveNeighbours(g: seq<seq<bool>>, w: int, x: int, y: int): (n: nat)
    requires IsGrid(g, w) && w > 0 && |g| > 0
    ensures n <= 8
  {
    CountAt(g, w, x, y, Moore)
  }

  /** The neighbour count is the sum over exactly the eight cells around `(x, y)`. */
  lemma LiveNeighboursExplicit(g: seq<seq<bool>>, w: int, x: int, y: int)
    requires IsGrid(g, w) && w > 0 && |g| > 0
    ensures LiveNeighbours(g, w, x, y) ==
      Count(At(g, w, x - 1, y - 1)) + Count(At(g, w, x, y - 1)) + Count(At(g, w, x + 1, y - 1)) +
      Count(At(g, w, x - 1, y))                                 + Count(At(g, w, x + 1, y)) +
      Count(At(g, w, x - 1, y + 1)) + Count(At(g, w, x, y + 1)) + Count(At(g, w, x + 1, y + 1))
  {
    var m := Moore;
    CountAtStep(g, w, x, y, m, 0);
    CountAtStep(g, w, x, y, m, 1);
    CountAtStep(g, w, x, y, m, 2);
    CountAtStep(g, w, x, y, m, 3);
    CountAtStep(g, w, x, y, m, 4);
    CountAtStep(g, w, x, y, m, 5);
    CountAtStep(g, w, x, y, m, 6);
    CountAtStep(g, w, x, y, m, 7);
    assert m[8..] == [] && m[0..] == m;
  }

  lemma CountAtStep(g: seq<seq<bool>>, w: int, x: int, y: int, offsets: seq<(int, int)>, i: int)
    requires IsGrid(g, w) && w > 0 && |g| > 0 && 0 <= i < |offsets|
    ensures CountAt(g, w, x, y, offsets[i..]) ==
      Count(At(g, w, x + offsets[i].0, y + offsets[i].1)) + CountAt(g, w, x, y, offsets[i + 1..])
  {
    assert offsets[i..][0] == offsets[i] && offsets[i..][1..] == offsets[i + 1..];
  }

  /** On a dead board every cell has no live neighbours. */
  lemma {:induction false} CountAtDead(g: seq<seq<bool>>, w: int, x: int, y: int, offsets: seq<(int, int)>)
    requires IsGrid(g, w) && w > 0 && |g| > 0 && AllDead(g)
    ensures CountAt(g, w, x, y, offsets) == 0
  {
    if offsets != [] {
      CountAtDead(g, w, x, y, offsets[1..]);
    }
  }

  /**
   The fate of one cell given its state and its live-neighbour count, written as
   the source's branches; the contract is Conway's rule table.
   */
  function Rule(alive: bool, n: int): (next: bool)
    // a live cell with fewer than two or more than three live neighbours dies
    ensures alive && (n < 2 || n > 3) ==> !next
    // a live cell with two or three live neighbours lives on
    ensures alive && 2 <= n <= 3 ==> next
    // a dead cell becomes alive exactly when it has three live neighbours
    ensures !alive ==> (next <==> n == 3)
  {
    if alive && (n < 2 || n > 3) then false
    else if !alive && n == 3 then true
    else alive
  }

  /** The state of cell `(x, y)` in the next generation of `g`. */
  function NextCell(g: seq<seq<bool>>, w: int, x: int, y: int): bool
    requires IsGrid(g, w) && w > 0 && |g| > 0
  {
    Rule(At(g, w, x, y), LiveNeighbours(g, w, x, y))
  }

  /** Rows `0 .. k-1` of the next generation. */
  function NextRows(g: seq<seq<bool>>, w: int, k: int): (r: seq<seq<bool>>)
    requires IsGrid(g, w) && 0 <= k <= |g|
    ensures |r| == k && IsGrid(r, w)
  {
    if k == 0 then [] else NextRows(g, w, k - 1) + [seq(w, x requires 0 <= x < w => NextCell(g, w, x, k - 1))]
  }

  /** The next generation: every cell computed from `g` alone. */
  function NextGen(g: seq<seq<bool>>, w: int): (r: seq<seq<bool>>)
    requires IsGrid(g, w)
    ensures |r| == |g| && IsGrid(r, w)
  {
    NextRows(g, w, |g|)
  }

  lemma {:induction false} NextRowsAt(g: seq<seq<bool>>, w: int, k: int, y: int, x: int)
    requires IsGrid(g, w) && 0 <= y < k <= |g| && 0 <= x < w
    ensures NextRows(g, w, k)[y][x] == NextCell(g, w, x, y)
  {
    if y < k - 1 {
      NextRowsAt(g, w, k - 1, y, x);
    }
  }

  /** Cell `(x, y)` of the next generation obeys the rule at `(x, y)` of the current one. */
  lemma NextGenAt(g: seq<seq<bool>>, w: int, x: int, y: int)
    requires IsGrid(g, w) && 0 <= y < |g| && 0 <= x < w
    ensures NextGen(g, w)[y][x] == NextCell(g, w, x, y)
  {
    NextRowsAt(g, w, |g|, y, x);
  }

  /** The board after `k` generations. */
  function Generation(g: seq<seq<bool>>, w: int, k: nat): (r: seq<seq<bool>>)
    requires IsGrid(g, w)
    ensures |r| == |g| && IsGrid(r, w)
  {
    if k == 0 then g else NextGen(Generation(g, w, k - 1), w)
  }

  /** One more generation is the next generation of the last one. */
  lemma GenerationNext(g: seq<seq<bool>>, w: int, k: nat)
    requires IsGrid(g, w)
    ensures Generation(g, w, k + 1) == NextGen(Generation(g, w, k), w)
  {
  }

  /** The boards of generations `0 .. n-1`, in order. */
  ghost function Run(g: seq<seq<bool>>, w: int, n: nat): (r: seq<seq<seq<bool>>>)
    requires IsGrid(g, w)
    ensures |r| == n
  {
    if n == 0 then [] else Run(g, w, n - 1) + [Generation(g, w, n - 1)]
  }

  /** The `k`-th board of a run is generation `k`. */
  lemma {:induction false} RunAt(g: seq<seq<bool>>, w: int, n: nat, k: nat)
    requires IsGrid(g, w) && k < n
    ensures Run(g, w, n)[k] == Generation(g, w, k)
  {
    if k < n - 1 {
      RunAt(g, w, n - 1, k);
    }
  }

  /** Two boards of the same shape that agree on every cell are equal. */
  lemma SameGrid(a: seq<seq<bool>>, b: seq<seq<bool>>, w: int)
    requires IsGrid(a, w) && IsGrid(b, w) && |a| == |b|
    requires forall y, x :: 0 <= y < |a| && 0 <= x < w ==> a[y][x] == b[y][x]
    ensures a == b
  {
    forall y | 0 <= y < |a|
      ensures a[y] == b[y]
    {
      assert forall x :: 0 <= x < w ==> a[y][x] == b[y][x];
    }
  }

  /** A dead board has no live neighbours anywhere and stays dead. */
  lemma NextGenOfDead(g: seq<seq<bool>>, w: int)
    requires IsGrid(g, w) && AllDead(g)
    ensures NextGen(g, w) == g
  {
    var r := NextGen(g, w);
    forall y, x | 0 <= y < |g| && 0 <= x < w
      ensures r[y][x] == g[y][x]
    {
      NextGenAt(g, w, x, y);
      CountAtDead(g, w, x, y, Moore);
    }
    SameGrid(r, g, w);
  }

  /** A dead board stays dead for any number of generations. */
  lemma {:induction false} GenerationOfDead(g: seq<seq<bool>>, w: int, k: nat)
    requires IsGrid(g, w) && AllDead(g)
    ensures Generation(g, w, k) == g
  {
    if k > 0 {
      GenerationOfDead(g, w, k - 1);
      NextGenOfDead(g, w);
    }
  }

  // ---------------------------------------------------------------------------
  // Counting live cells

  /** The number of live cells in one row. */
  function CountRow(row: seq<bool>): nat
  {
    if row == [] then 0 else CountRow(row[..|row| - 1]) + Count(row[|row| - 1])
  }

  /** The number of live cells on the board, row by row. */
  function CountAlive(g: seq<seq<bool>>): nat
  {
    if g == [] then 0 else CountAlive(g[..|g| - 1]) + CountRow(g[|g| - 1])
  }

  lemma {:induction false} CountRowBound(row: seq<bool>)
    ensures CountRow(row) <= |row|
    ensures CountRow(row) == 0 <==> forall x :: 0 <= x < |row| ==> !row[x]
  {
    if row != [] {
      var init := row[..|row| - 1];
      CountRowBound(init);
      assert forall x :: 0 <= x < |init| ==> init[x] == row[x];
    }
  }

  /** A board of `|g|` rows of width `w` has between 0 and `w * |g|` live cells. */
  lemma {:induction false} CountAliveBound(g: seq<seq<bool>>, w: int)
    requires IsGrid(g, w)
    ensures CountAlive(g) <= w * |g|
  {
    if g != [] {
      var init := g[..|g| - 1];
      CountAliveBound(init, w);
      CountRowBound(g[|g| - 1]);
      assert w * |g| == w * |init| + w;
    }
  }

  /** The count is zero exactly when every cell is dead. */
  lemma {:induction false} CountAliveZero(g: seq<seq<bool>>)
    ensures CountAlive(g) == 0 <==> AllDead(g)
  {
    if g != [] {
      var init := g[..|g| - 1];
      CountAliveZero(init);
      CountRowBound(g[|g| - 1]);
      assert forall y :: 0 <= y < |init| ==> init[y] == g[y];
    }
  }

  /** Live cells in rows `0 .. k-1` of column `c`. */
  function ColumnCount(g: seq<seq<bool>>, w: int, c: int, k: int): nat
    requires IsGrid(g, w) && 0 <= c < w && 0 <= k <= |g|
  {
    if k == 0 then 0 else ColumnCount(g, w, c, k - 1) + Count(g[k - 1][c])
  }

  /** Live cells in rows `0 .. k-1` of columns `0 .. x-1`, summed column by column. */
  function ColumnsCount(g: seq<seq<bool>>, w: int, x: int, k: int): nat
    requires IsGrid(g, w) && 0 <= x <= w && 0 <= k <= |g|
  {
    if x == 0 then 0 else ColumnsCount(g, w, x - 1, k) + ColumnCount(g, w, x - 1, k)
  }

  lemma {:induction false} ColumnsCountNoRows(g: seq<seq<bool>>, w: int, x: int)
    requires IsGrid(g, w) && 0 <= x <= w
    ensures ColumnsCount(g, w, x, 0) == 0
  {
    if x > 0 {
      ColumnsCountNoRows(g, w, x - 1);
    }
  }

  lemma {:induction false} ColumnsCountNextRow(g: seq<seq<bool>>, w: int, x: int, k: int)
    requires IsGrid(g, w) && 0 <= x <= w && 0 <= k < |g|
    ensures ColumnsCount(g, w, x, k + 1) == ColumnsCount(g, w, x, k) + CountRow(g[k][..x])
  {
    if x > 0 {
      ColumnsCountNextRow(g, w, x - 1, k);
      assert g[k][..x][..x - 1] == g[k][..x - 1];
    }
  }

  /** Counting column by column over the first `k` rows gives the row-by-row count. */
  lemma {:induction false} ColumnsCountRows(g: seq<seq<bool>>, w: int, k: int)
    requires IsGrid(g, w) && 0 <= k <= |g|
    ensures ColumnsCount(g, w, w, k) == CountAlive(g[..k])
  {
    if k == 0 {
      ColumnsCountNoRows(g, w, w);
    } else {
      ColumnsCountRows(g, w, k - 1);
      ColumnsCountNextRow(g, w, w, k - 1);
      assert g[..k][..k - 1] == g[..k - 1];
      assert g[k - 1][..w] == g[k - 1];
    }
  }

  /** The column-major count of the whole board is its number of live cells. */
  lemma ColumnsCountIsCountAlive(g: seq<seq<bool>>, w: int)
    requires IsGrid(g, w)
    ensures ColumnsCount(g, w, w, |g|) == CountAlive(g)
  {
    ColumnsCountRows(g, w, |g|);
    assert g[..|g|] == g;
  }
}
