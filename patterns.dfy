/**
 Known patterns run through the rule of `Conway`: a full board dies of
 overcrowding, a vertical line on a 3-by-3 torus fills the board and then
 dies, a 2-by-2 block is a still life, and a blinker on a 5-by-5 torus
 oscillates with period two.
 */
module Patterns {
  import opened Conway
  import GoArith

  /** Every cell of `g` is alive. */
  predicate AllAlive(g: seq<seq<bool>>)
  {
    forall y, x :: 0 <= y < |g| && 0 <= x < |g[y]| ==> g[y][x]
  }

  /** On a full board every offset finds a live cell. */
  lemma {:induction false} CountAtFull(g: seq<seq<bool>>, w: int, x: int, y: int, offsets: seq<(int, int)>)
    requires IsGrid(g, w) && w > 0 && |g| > 0 && AllAlive(g)
    ensures CountAt(g, w, x, y, offsets) == |offsets|
  {
    if offsets != [] {
      CountAtFull(g, w, x, y, offsets[1..]);
    }
  }

  /** Overcrowding: a board with every cell alive is dead one generation later, whatever its size. */
  lemma FullBoardDies(g: seq<seq<bool>>, w: int)
    requires IsGrid(g, w) && w > 0 && |g| > 0 && AllAlive(g)
    ensures AllDead(NextGen(g, w))
  {
    forall y, x | 0 <= y < |g| && 0 <= x < w
      ensures !NextGen(g, w)[y][x]
    {
      NextGenAt(g, w, x, y);
      CountAtFull(g, w, x, y, Moore);
    }
  }

  // ---------------------------------------------------------------------------
  // Neighbours of a cell inside the board, without `%`

  /** A coordinate at most one step outside `0 .. n-1`, brought back by one addition or subtraction. */
  function Wrap(i: int, n: int): int
  {
    if i < 0 then i + n else if i >= n then i - n else i
  }

  lemma WrapIsMod(i: int, n: int)
    requires n > 0 && -n <= i < 2 * n
    ensures i % n == Wrap(i, n)
  {
    if i < 0 {
      GoArith.DivModUnique(i, n, -1, i + n);
    } else if i >= n {
      GoArith.DivModUnique(i, n, 1, i - n);
    } else {
      GoArith.DivModUnique(i, n, 0, i);
    }
  }

  /** The live neighbours of a cell inside the board, each looked up with `Wrap`. */
  function NeighbourSum(g: seq<seq<bool>>, w: int, x: int, y: int): nat
    requires IsGrid(g, w) && w > 0 && |g| > 0 && 0 <= x < w && 0 <= y < |g|
  {
    var l, r, u, d := Wrap(x - 1, w), Wrap(x + 1, w), Wrap(y - 1, |g|), Wrap(y + 1, |g|);
    Count(g[u][l]) + Count(g[u][x]) + Count(g[u][r]) +
    Count(g[y][l])                  + Count(g[y][r]) +
    Count(g[d][l]) + Count(g[d][x]) + Count(g[d][r])
  }

  /** For a cell inside the board, the next state is the rule applied to `NeighbourSum`. */
  lemma NextCellInside(g: seq<seq<bool>>, w: int, x: int, y: int)
    requires IsGrid(g, w) && w > 0 && |g| > 0 && 0 <= x < w && 0 <= y < |g|
    ensures NextCell(g, w, x, y) == Rule(g[y][x], NeighbourSum(g, w, x, y))
  {
    LiveNeighboursExplicit(g, w, x, y);
    WrapIsMod(x - 1, w);
    WrapIsMod(x, w);
    WrapIsMod(x + 1, w);
    WrapIsMod(y - 1, |g|);
    WrapIsMod(y, |g|);
    WrapIsMod(y + 1, |g|);
  }

  /** Rows `lo .. hi-1` of `t` are those of the next generation of `g`. */
  ghost predicate RowsFollow(g: seq<seq<bool>>, w: int, t: seq<seq<bool>>, lo: int, hi: int)
    requires IsGrid(g, w) && w > 0 && |g| > 0 && |t| == |g| && IsGrid(t, w)
  {
    forall y, x :: lo <= y < hi && 0 <= y < |g| && 0 <= x < w ==>
      Rule(g[y][x], NeighbourSum(g, w, x, y)) == t[y][x]
  }

  /** A board all of whose rows follow `g` is the next generation of `g`. */
  lemma RowsFollowIsNextGen(g: seq<seq<bool>>, w: int, t: seq<seq<bool>>)
    requires IsGrid(g, w) && w > 0 && |g| > 0 && |t| == |g| && IsGrid(t, w) && RowsFollow(g, w, t, 0, |g|)
    ensures NextGen(g, w) == t
  {
    forall y, x | 0 <= y < |g| && 0 <= x < w
      ensures NextGen(g, w)[y][x] == t[y][x]
    {
      NextGenAt(g, w, x, y);
      NextCellInside(g, w, x, y);
    }
    SameGrid(NextGen(g, w), t, w);
  }

  // Boards below are written as functions of the coordinates `(x, y)`.

  // ---------------------------------------------------------------------------
  // A vertical line on a 3-by-3 torus

  const Line3: seq<seq<bool>> := seq(3, y => seq(3, x => x == 1))
  const Full3: seq<seq<bool>> := seq(3, y => seq(3, x => true))
  const Empty3: seq<seq<bool>> := seq(3, y => seq(3, x => false))

  /** On a 3-by-3 torus every cell sees the eight others: dead cells see three live ones, live cells two. */
  lemma LineRows()
    ensures RowsFollow(Line3, 3, Full3, 0, 3)
  {
    forall y, x | 0 <= y < 3 && 0 <= x < 3
      ensures Rule(Line3[y][x], NeighbourSum(Line3, 3, x, y)) == Full3[y][x]
    {
      if y == 0 {
        if x == 0 { } else if x == 1 { } else if x == 2 { }
      } else if y == 1 {
        if x == 0 { } else if x == 1 { } else if x == 2 { }
      } else if y == 2 {
        if x == 0 { } else if x == 1 { } else if x == 2 { }
      }
    }
  }

  /** A vertical line of three on a 3-by-3 torus fills the whole board in one generation. */
  lemma LineFillsSmallTorus()
    ensures NextGen(Line3, 3) == Full3
  {
    LineRows();
    RowsFollowIsNextGen(Line3, 3, Full3);
  }

  /** The line on a 3-by-3 torus is dead after two generations and stays dead. */
  lemma {:induction false} LineDiesOnSmallTorus(k: nat)
    requires k >= 2
    ensures Generation(Line3, 3, k) == Empty3
  {
    if k == 2 {
      LineFillsSmallTorus();
      assert Generation(Line3, 3, 1) == Full3;
      FullBoardDies(Full3, 3);
      assert NextGen(Full3, 3) == Empty3 by {
        SameGrid(NextGen(Full3, 3), Empty3, 3);
      }
    } else {
      LineDiesOnSmallTorus(k - 1);
      NextGenOfDead(Empty3, 3);
    }
  }

  // ---------------------------------------------------------------------------
  // A still life

  /** A 2-by-2 block with a dead margin on every side of a 4-by-4 torus. */
  const Block4: seq<seq<bool>> := seq(4, y => seq(4, x => (x == 1 || x == 2) && (y == 1 || y == 2)))

  /** Rows 0 and 1 of the block keep their state. */
  lemma BlockTopRows()
    ensures RowsFollow(Block4, 4, Block4, 0, 2)
  {
    forall y, x | 0 <= y < 2 && 0 <= x < 4
      ensures Rule(Block4[y][x], NeighbourSum(Block4, 4, x, y)) == Block4[y][x]
    {
      if y == 0 {
        if x == 0 { } else if x == 1 { } else if x == 2 { } else if x == 3 { }
      } else if y == 1 {
        if x == 0 { } else if x == 1 { } else if x == 2 { } else if x == 3 { }
      }
    }
  }

  /** Rows 2 and 3 of the block keep their state. */
  lemma BlockBottomRows()
    ensures RowsFollow(Block4, 4, Block4, 2, 4)
  {
    forall y, x | 2 <= y < 4 && 0 <= x < 4
      ensures Rule(Block4[y][x], NeighbourSum(Block4, 4, x, y)) == Block4[y][x]
    {
      if y == 2 {
        if x == 0 { } else if x == 1 { } else if x == 2 { } else if x == 3 { }
      } else if y == 3 {
        if x == 0 { } else if x == 1 { } else if x == 2 { } else if x == 3 { }
      }
    }
  }

  /** Each block cell has three live neighbours and no dead cell has three: nothing changes. */
  lemma BlockIsStill()
    ensures NextGen(Block4, 4) == Block4
  {
    BlockTopRows();
    BlockBottomRows();
    RowsFollowIsNextGen(Block4, 4, Block4);
  }

  /** The block is left identical by any number of generations. */
  lemma {:induction false} BlockStaysStill(k: nat)
    ensures Generation(Block4, 4, k) == Block4
  {
    if k > 0 {
      BlockStaysStill(k - 1);
      BlockIsStill();
    }
  }

  // ---------------------------------------------------------------------------
  // An oscillator

  /** A vertical blinker in the middle column of a 5-by-5 torus. */
  const Vertical5: seq<seq<bool>> := seq(5, y => seq(5, x => x == 2 && (y == 1 || y == 2 || y == 3)))

  /** The same blinker lying in the middle row. */
  const Horizontal5: seq<seq<bool>> := seq(5, y => seq(5, x => y == 2 && (x == 1 || x == 2 || x == 3)))

  /** Rows 0 to 2 of the vertical blinker's successor. */
  lemma VerticalTopRows()
    ensures RowsFollow(Vertical5, 5, Horizontal5, 0, 3)
  {
    forall y, x | 0 <= y < 3 && 0 <= x < 5
      ensures Rule(Vertical5[y][x], NeighbourSum(Vertical5, 5, x, y)) == Horizontal5[y][x]
    {
      if y == 0 {
        if x == 0 { } else if x == 1 { } else if x == 2 { } else if x == 3 { } else if x == 4 { }
      } else if y == 1 {
        if x == 0 { } else if x == 1 { } else if x == 2 { } else if x == 3 { } else if x == 4 { }
      } else if y == 2 {
        if x == 0 { } else if x == 1 { } else if x == 2 { } else if x == 3 { } else if x == 4 { }
      }
    }
  }

  /** Rows 3 and 4 of the vertical blinker's successor. */
  lemma VerticalBottomRows()
    ensures RowsFollow(Vertical5, 5, Horizontal5, 3, 5)
  {
    forall y, x | 3 <= y < 5 && 0 <= x < 5
      ensures Rule(Vertical5[y][x], NeighbourSum(Vertical5, 5, x, y)) == Horizontal5[y][x]
    {
      if y == 3 {
        if x == 0 { } else if x == 1 { } else if x == 2 { } else if x == 3 { } else if x == 4 { }
      } else if y == 4 {
        if x == 0 { } else if x == 1 { } else if x == 2 { } else if x == 3 { } else if x == 4 { }
      }
    }
  }

  lemma VerticalTurnsHorizontal()
    ensures NextGen(Vertical5, 5) == Horizontal5
  {
    VerticalTopRows();
    VerticalBottomRows();
    RowsFollowIsNextGen(Vertical5, 5, Horizontal5);
  }

  /** Rows 0 to 2 of the horizontal blinker's successor. */
  lemma HorizontalTopRows()
    ensures RowsFollow(Horizontal5, 5, Vertical5, 0, 3)
  {
    forall y, x | 0 <= y < 3 && 0 <= x < 5
      ensures Rule(Horizontal5[y][x], NeighbourSum(Horizontal5, 5, x, y)) == Vertical5[y][x]
    {
      if y == 0 {
        if x == 0 { } else if x == 1 { } else if x == 2 { } else if x == 3 { } else if x == 4 { }
      } else if y == 1 {
        if x == 0 { } else if x == 1 { } else if x == 2 { } else if x == 3 { } else if x == 4 { }
      } else if y == 2 {
        if x == 0 { } else if x == 1 { } else if x == 2 { } else if x == 3 { } else if x == 4 { }
      }
    }
  }

  /** Rows 3 and 4 of the horizontal blinker's successor. */
  lemma HorizontalBottomRows()
    ensures RowsFollow(Horizontal5, 5, Vertical5, 3, 5)
  {
    forall y, x | 3 <= y < 5 && 0 <= x < 5
      ensures Rule(Horizontal5[y][x], NeighbourSum(Horizontal5, 5, x, y)) == Vertical5[y][x]
    {
      if y == 3 {
        if x == 0 { } else if x == 1 { } else if x == 2 { } else if x == 3 { } else if x == 4 { }
      } else if y == 4 {
        if x == 0 { } else if x == 1 { } else if x == 2 { } else if x == 3 { } else if x == 4 { }
      }
    }
  }

  lemma HorizontalTurnsVertical()
    ensures NextGen(Horizontal5, 5) == Vertical5
  {
    HorizontalTopRows();
    HorizontalBottomRows();
    RowsFollowIsNextGen(Horizontal5, 5, Vertical5);
  }

  /** The blinker has period two: even generations are vertical, odd ones horizontal. */
  lemma {:induction false} BlinkerOscillates(k: nat)
    ensures Generation(Vertical5, 5, 2 * k) == Vertical5
    ensures Generation(Vertical5, 5, 2 * k + 1) == Horizontal5
  {
    if k > 0 {
      BlinkerOscillates(k - 1);
      HorizontalTurnsVertical();
    }
    VerticalTurnsHorizontal();
  }
}
