/**
 The simulation state of `package life`: a `World` holding a board of cells
 indexed `[y, x]`, its dimensions and a generation counter, with the
 operations that build it, count it, look cells up with wrap-around, compute
 one cell's next state, advance a generation, and stream generations.
 */
module Life {
  import opened Conway
  import GoArith

  /** The board held by an array, as a sequence of rows. */
  ghost function ArrayGrid(a: array2<bool>): (g: seq<seq<bool>>)
    reads a
    ensures |g| == a.Length0 && IsGrid(g, a.Length1)
  {
    seq(a.Length0, y requires 0 <= y < a.Length0 reads a =>
      seq(a.Length1, x requires 0 <= x < a.Length1 reads a => a[y, x]))
  }

  /**
   Live cells met so far by the neighbour scan of `(x, y)` in column `i`, over
   rows `y - 1 .. j - 1`, leaving out the centre.
   */
  ghost function ColumnScan(g: seq<seq<bool>>, w: int, x: int, y: int, i: int, j: int): nat
    requires IsGrid(g, w) && w > 0 && |g| > 0 && y - 1 <= j
    decreases j - y
  {
    if j == y - 1 then 0
    else ColumnScan(g, w, x, y, i, j - 1) + (if i == x && j - 1 == y then 0 else Count(At(g, w, i, j - 1)))
  }

  /** Live cells met so far by the neighbour scan of `(x, y)` in columns `x - 1 .. i - 1`. */
  ghost function BlockScan(g: seq<seq<bool>>, w: int, x: int, y: int, i: int): nat
    requires IsGrid(g, w) && w > 0 && |g| > 0 && x - 1 <= i
    decreases i - x
  {
    if i == x - 1 then 0 else BlockScan(g, w, x, y, i - 1) + ColumnScan(g, w, x, y, i - 1, y + 2)
  }

  /** One column of the scan: its three rows, less the centre when it is the centre's column. */
  lemma ColumnScanFull(g: seq<seq<bool>>, w: int, x: int, y: int, i: int)
    requires IsGrid(g, w) && w > 0 && |g| > 0
    ensures ColumnScan(g, w, x, y, i, y + 2) ==
      Count(At(g, w, i, y - 1)) + (if i == x then 0 else Count(At(g, w, i, y))) + Count(At(g, w, i, y + 1))
  {
    assert ColumnScan(g, w, x, y, i, y) == Count(At(g, w, i, y - 1));
    assert ColumnScan(g, w, x, y, i, y + 1) ==
      Count(At(g, w, i, y - 1)) + (if i == x then 0 else Count(At(g, w, i, y)));
  }

  /** The full 3-by-3 scan without its centre counts exactly the eight neighbours. */
  lemma ScanCoversNeighbours(g: seq<seq<bool>>, w: int, x: int, y: int)
    requires IsGrid(g, w) && w > 0 && |g| > 0
    ensures BlockScan(g, w, x, y, x + 2) == LiveNeighbours(g, w, x, y)
  {
    LiveNeighboursExplicit(g, w, x, y);
    ColumnScanFull(g, w, x, y, x - 1);
    ColumnScanFull(g, w, x, y, x);
    ColumnScanFull(g, w, x, y, x + 1);
    assert BlockScan(g, w, x, y, x) == ColumnScan(g, w, x, y, x - 1, y + 2);
    assert BlockScan(g, w, x, y, x + 1) == BlockScan(g, w, x, y, x) + ColumnScan(g, w, x, y, x, y + 2);
  }

  /** Columns `0 .. x-1` of `a` already hold those of the board `r`. */
  ghost predicate Filled(a: array2<bool>, r: seq<seq<bool>>, x: int)
    reads a
  {
    |r| == a.Length0 && IsGrid(r, a.Length1) && x <= a.Length1 &&
    forall y', x' :: 0 <= y' < a.Length0 && 0 <= x' < x ==> a[y', x'] == r[y'][x']
  }

  /** An array filled column by column with a board holds exactly that board. */
  lemma FilledIsBoard(a: array2<bool>, r: seq<seq<bool>>)
    requires Filled(a, r, a.Length1)
    ensures ArrayGrid(a) == r
  {
    SameGrid(ArrayGrid(a), r, a.Length1);
  }

  /** What the consumer of a stream does at each turn of the producer's loop. */
  datatype Signal = Receive | Stop

  /**
   A `World` passed by value: the struct is copied, the cell matrix is shared
   with the world it was copied from.
   */
  datatype Snapshot = Snapshot(Cells: array2<bool>, Width: int, Height: int, step: int)

  /** How many values a consumer takes before it stops, or before it runs out of turns. */
  function Accepted(consumer: seq<Signal>): (k: nat)
    ensures k <= |consumer|
    ensures forall i :: 0 <= i < k ==> consumer[i].Receive?
    ensures k < |consumer| ==> consumer[k].Stop?
  {
    if consumer == [] || consumer[0].Stop? then 0 else 1 + Accepted(consumer[1..])
  }

  class World {
    var Cells: array2<bool>  // Cells[y, x], row first as in HTML tables
    var Width: int
    var Height: int
    var step: int

    ghost predicate Valid()
      reads this
    {
      Cells.Length0 == Height && Cells.Length1 == Width && 0 <= step
    }

    /** The board as a sequence of rows. */
    ghost function Grid(): seq<seq<bool>>
      reads this, Cells
    {
      ArrayGrid(Cells)
    }

    /** An empty world: every cell dead, at generation 0. */
    constructor New(width: int, height: int)
      requires width >= 0 && height >= 0
      ensures Valid() && fresh(Cells)
      ensures Width == width && Height == height && step == 0
      ensures AllDead(Grid()) && CountAlive(Grid()) == 0
    {
      var cells := new bool[height, width];
      var i := 0;
      while i < height
        invariant 0 <= i <= height
        invariant forall y, x :: 0 <= y < i && 0 <= x < width ==> !cells[y, x]
      {
        forall x | 0 <= x < width {
          cells[i, x] := false;
        }
        i := i + 1;
      }
      Cells, Width, Height, step := cells, width, height, 0;
      new;
      CountAliveZero(Grid());
    }

    /** The number of live cells, visited column by column. */
    method NumAlive() returns (n: int)
      requires Valid()
      ensures n == CountAlive(Grid())
      ensures 0 <= n <= Width * Height
      ensures n == 0 <==> AllDead(Grid())
    {
      ghost var g := Grid();
      n := 0;
      var x := 0;
      while x < Width
        invariant 0 <= x <= Width
        invariant n == ColumnsCount(g, Width, x, Height)
      {
        var y := 0;
        while y < Height
          invariant 0 <= y <= Height
          invariant n == ColumnsCount(g, Width, x, Height) + ColumnCount(g, Width, x, y)
        {
          if Cells[y, x] {
            n := n + 1;
          }
          y := y + 1;
        }
        x := x + 1;
      }
      ColumnsCountIsCountAlive(g, Width);
      CountAliveBound(g, Width);
      CountAliveZero(g);
    }

    /**
     The cell at `(x, y)` with wrap-around: Go's truncating remainder, then the
     modulus added back to a negative result.
     */
    function FindCell(x: int, y: int): (alive: bool)
      requires Valid() && Width > 0 && Height > 0
      reads this, Cells
      ensures alive == Cells[y % Height, x % Width]
      ensures alive == At(Grid(), Width, x, y)
    {
      var x' := GoArith.Rem(x, Width);
      var y' := GoArith.Rem(y, Height);
      var x'' := if x' < 0 then x' + Width else x';
      var y'' := if y' < 0 then y' + Height else y';
      GoArith.CorrectedRemIsMod(x, Width);
      GoArith.CorrectedRemIsMod(y, Height);
      Cells[y'', x'']
    }

    /** The next state of cell `(x, y)`, computed without changing the world. */
    method StepCell(x: int, y: int) returns (newCell: bool)
      requires Valid() && Width > 0 && Height > 0
      ensures newCell == NextCell(Grid(), Width, x, y)
    {
      ghost var g := Grid();
      var oldCell := FindCell(x, y);
      newCell := oldCell;
      var numAlive := 0;

      var i := x - 1;
      while i <= x + 1
        invariant x - 1 <= i <= x + 2
        invariant numAlive == BlockScan(g, Width, x, y, i)
      {
        var j := y - 1;
        while j <= y + 1
          invariant y - 1 <= j <= y + 2
          invariant numAlive == BlockScan(g, Width, x, y, i) + ColumnScan(g, Width, x, y, i, j)
        {
          if !(i == x && j == y) {  // skip the centre cell
            var alive := FindCell(i, j);
            if alive {
              numAlive := numAlive + 1;
            }
          }
          j := j + 1;
        }
        i := i + 1;
      }
      ScanCoversNeighbours(g, Width, x, y);

      if oldCell && (numAlive < 2 || numAlive > 3) {
        newCell := false;
      } else if !oldCell && numAlive == 3 {
        newCell := true;
      }
    }

    /**
     Advances one generation: every cell is computed from the current board
     into a fresh world's matrix, which then replaces the board wholesale.
     */
    method Step()
      requires Valid()
      modifies this
      ensures Valid() && fresh(Cells)
      ensures Width == old(Width) && Height == old(Height)
      ensures step == old(step) + 1
      ensures Grid() == NextGen(old(Grid()), Width)
    {
      ghost var g := Grid();
      ghost var r := NextGen(g, Width);
      var next := new bool[Height, Width];
      var x := 0;
      while x < Width
        invariant 0 <= x <= Width
        invariant unchanged(this)
        invariant Filled(next, r, x)
      {
        var y := 0;
        while y < Height
          invariant 0 <= y <= Height
          invariant unchanged(this)
          invariant Filled(next, r, x)
          invariant forall y' :: 0 <= y' < y ==> next[y', x] == r[y'][x]
        {
          var c := StepCell(x, y);
          NextGenAt(g, Width, x, y);
          next[y, x] := c;
          y := y + 1;
        }
        x := x + 1;
      }
      FilledIsBoard(next, r);
      step := step + 1;
      Cells := next;
    }

    /**
     The producer loop of a stream, run against a consumer that at each turn
     either receives the current world or signals stop. The first value is the
     world as it is; each receipt is followed by one `Step`. A consumer that
     runs out of turns leaves the producer waiting (`stopped` is false).
     */
    method Stream(consumer: seq<Signal>) returns (sent: seq<Snapshot>, stopped: bool)
      requires Valid()
      modifies this
      ensures Valid() && Width == old(Width) && Height == old(Height)
      ensures |sent| == Accepted(consumer)
      ensures stopped <==> Accepted(consumer) < |consumer|
      ensures forall k :: 0 <= k < |sent| ==>
        sent[k].Width == Width && sent[k].Height == Height && sent[k].step == old(step) + k
      ensures forall k :: 0 <= k < |sent| ==>
        ArrayGrid(sent[k].Cells) == Generation(old(Grid()), Width, k)
      ensures step == old(step) + |sent|
      ensures Grid() == Generation(old(Grid()), Width, |sent|)
    {
      ghost var g := Grid();
      ghost var boards: seq<seq<seq<bool>>> := [];  // the board behind each snapshot
      sent, stopped := [], false;
      var i := 0;
      while i < |consumer|
        invariant 0 <= i <= |consumer| && i == |sent| == |boards|
        invariant forall k :: 0 <= k < i ==> consumer[k].Receive?
        invariant Valid() && Width == old(Width) && Height == old(Height)
        invariant step == old(step) + i && Grid() == Generation(g, Width, i)
        invariant forall k :: 0 <= k < i ==>
          sent[k].Width == Width && sent[k].Height == Height && sent[k].step == old(step) + k
        invariant boards == Run(g, Width, i)
        invariant forall k :: 0 <= k < i ==> ArrayGrid(sent[k].Cells) == boards[k]
      {
        if consumer[i].Stop? {
          stopped := true;
          break;
        }
        ghost var before := Grid();
        sent := sent + [Snapshot(Cells, Width, Height, step)];
        boards := boards + [before];
        Step();
        GenerationNext(g, Width, i);
        i := i + 1;
      }
      forall k | 0 <= k < |sent|
        ensures ArrayGrid(sent[k].Cells) == Generation(g, Width, k)
      {
        RunAt(g, Width, |sent|, k);
      }
    }
  }
}
