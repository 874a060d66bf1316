/**
 * The Pacman maze as the filter sees it: a `width x height` grid of walls,
 * indexed `walls[x][y]` with `(0, 0)` the bottom-left corner, and the
 * Manhattan distance between cells.
 */
module Maze {
  import opened Sums

  type Cell = (int, int)

  datatype Grid = Grid(width: nat, height: nat, walls: seq<seq<bool>>) {

    predicate WellFormed() {
      |walls| == width && forall w :: 0 <= w < |walls| ==> |walls[w]| == height
    }

    predicate InBounds(c: Cell) {
      0 <= c.0 < width && 0 <= c.1 < height
    }

    /** A cell a ghost may occupy: inside the grid and not a wall. */
    predicate IsOpen(c: Cell)
      requires WellFormed()
    {
      InBounds(c) && !walls[c.0][c.1]
    }

    /**
     * No open cell lies on the outer ring of the grid, so each of its four
     * neighbours is inside the grid. Pacman layouts are framed by walls.
     */
    predicate BorderWalled()
      requires WellFormed()
    {
      forall w, h :: 0 <= w < width && 0 <= h < height && !walls[w][h] ==>
        0 < w < width - 1 && 0 < h < height - 1
    }
  }

  function Abs(x: int): nat {
    if x < 0 then -x else x
  }

  /** The distance `util.manhattanDistance` computes. */
  function Manhattan(a: Cell, b: Cell): nat {
    Abs(a.0 - b.0) + Abs(a.1 - b.1)
  }

  /** 1 on every open cell, 0 on every wall. */
  function OpenMask(g: Grid): (m: Matrix)
    requires g.WellFormed()
    ensures IsShape(m, g.width, g.height)
  {
    seq(g.width, w requires 0 <= w < g.width =>
      seq(g.height, h requires 0 <= h < g.height => if g.walls[w][h] then 0.0 else 1.0))
  }

  /** 1 on every wall, 0 on every open cell. */
  function WallMask(g: Grid): (m: Matrix)
    requires g.WellFormed()
    ensures IsShape(m, g.width, g.height)
  {
    seq(g.width, w requires 0 <= w < g.width =>
      seq(g.height, h requires 0 <= h < g.height => if g.walls[w][h] then 1.0 else 0.0))
  }

  /** `width * height - np.sum(walls.data)`: the number of legal positions. */
  function NumLegal(g: Grid): real
    requires g.WellFormed()
  {
    (g.width * g.height) as real - SumMatrix(WallMask(g))
  }

  /**
   * The uniform belief over legal positions: `1 / NumLegal` on every open
   * cell, 0 on walls, and 0 everywhere when there is no legal position.
   */
  function UniformOverOpen(g: Grid): (m: Matrix)
    requires g.WellFormed()
    ensures IsShape(m, g.width, g.height) && NonNegative(m)
    ensures forall w, h :: 0 <= w < g.width && 0 <= h < g.height && g.walls[w][h] ==> m[w][h] == 0.0
  {
    var count := NumLegal(g);
    var share := if count > 0.0 then 1.0 / count else 0.0;
    seq(g.width, w requires 0 <= w < g.width =>
      seq(g.height, h requires 0 <= h < g.height => if g.walls[w][h] then 0.0 else share))
  }

  lemma SumOfOnes(m: Matrix, width: nat, height: nat)
    requires IsShape(m, width, height)
    requires forall w, h :: 0 <= w < width && 0 <= h < height ==> m[w][h] == 1.0
    ensures SumMatrix(m) == (width * height) as real
  {
    forall w | 0 <= w < width ensures RowSums(m)[w] == height as real {
      SumSeqConstant(m[w], 1.0);
    }
    SumSeqConstant(RowSums(m), height as real);
  }

  /** The number of legal positions is the number of open cells. */
  lemma NumLegalCountsOpenCells(g: Grid)
    requires g.WellFormed()
    ensures NumLegal(g) == SumMatrix(OpenMask(g))
    ensures NumLegal(g) >= 0.0
    ensures NumLegal(g) > 0.0 <==> exists w, h :: 0 <= w < g.width && 0 <= h < g.height && !g.walls[w][h]
  {
    var ones := seq(g.width, w requires 0 <= w < g.width => seq(g.height, h requires 0 <= h < g.height => 1.0));
    SumOfOnes(ones, g.width, g.height);
    SumMatrixAdd(WallMask(g), OpenMask(g), ones, g.width, g.height);
    SumMatrixZeroIff(OpenMask(g));
    SumMatrixNonNegative(OpenMask(g));
    if exists w, h :: 0 <= w < g.width && 0 <= h < g.height && !g.walls[w][h] {
      var w, h :| 0 <= w < g.width && 0 <= h < g.height && !g.walls[w][h];
      assert OpenMask(g)[w][h] == 1.0;
    }
  }

  /** With at least one legal position the uniform belief sums to 1; with none it is all-zero. */
  lemma UniformSumsToOne(g: Grid)
    requires g.WellFormed()
    ensures NumLegal(g) > 0.0 ==> SumMatrix(UniformOverOpen(g)) == 1.0
    ensures NumLegal(g) > 0.0 ==> forall w, h :: 0 <= w < g.width && 0 <= h < g.height && !g.walls[w][h] ==>
      UniformOverOpen(g)[w][h] == 1.0 / NumLegal(g)
    ensures NumLegal(g) <= 0.0 ==> SumMatrix(UniformOverOpen(g)) == 0.0
  {
    UniformIsScaledMask(g);
    var count := NumLegal(g);
    var share := if count > 0.0 then 1.0 / count else 0.0;
    NumLegalCountsOpenCells(g);
    SumMatrixScale(OpenMask(g), UniformOverOpen(g), share, g.width, g.height);
    if count > 0.0 {
      QuotientSelf(count);
    }
  }

  lemma UniformIsScaledMask(g: Grid)
    requires g.WellFormed()
    ensures forall w, h :: 0 <= w < g.width && 0 <= h < g.height ==>
      UniformOverOpen(g)[w][h] == (if NumLegal(g) > 0.0 then 1.0 / NumLegal(g) else 0.0) * OpenMask(g)[w][h]
  {
  }
}
