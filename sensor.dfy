/**
 * The sensor model: how likely a noisy distance reading is for each
 * position of a ghost. The reading is the Manhattan distance from Pacman
 * plus `Binomial(n, 1/2) - n/2` noise.
 */
module Sensor {
  import opened Sums
  import opened Maze
  import opened Binomial

  /**
   * `P(E = evidence | X = c)`: the binomial mass at
   * `k = evidence - manhattan(c, pacman) + n * p` successes.
   */
  function Likelihood(n: nat, pacman: Cell, evidence: real, c: Cell): (r: real)
    ensures r >= 0.0
  {
    Pmf(evidence - Manhattan(c, pacman) as real + n as real * P, n)
  }

  /** The likelihood at every open cell and 0 at every wall, before the fallback. */
  function RawSurface(g: Grid, n: nat, pacman: Cell, evidence: real): (m: Matrix)
    requires g.WellFormed()
    ensures IsShape(m, g.width, g.height) && NonNegative(m)
  {
    seq(g.width, w requires 0 <= w < g.width =>
      seq(g.height, h requires 0 <= h < g.height =>
        if g.walls[w][h] then 0.0 else Likelihood(n, pacman, evidence, (w, h))))
  }

  /**
   * The sensor surface: the raw likelihoods, or, when they are all zero
   * and the maze has a legal position, the uniform surface over legal
   * positions.
   */
  function SensorSurface(g: Grid, n: nat, pacman: Cell, evidence: real): (m: Matrix)
    requires g.WellFormed()
    ensures IsShape(m, g.width, g.height) && NonNegative(m)
    ensures forall w, h :: 0 <= w < g.width && 0 <= h < g.height && g.walls[w][h] ==> m[w][h] == 0.0
  {
    var raw := RawSurface(g, n, pacman, evidence);
    if SumMatrix(raw) == 0.0 && NumLegal(g) > 0.0 then UniformOverOpen(g) else raw
  }

  /** Some open cell makes the reading possible. */
  predicate Explains(g: Grid, n: nat, pacman: Cell, evidence: real)
    requires g.WellFormed()
  {
    exists w, h :: 0 <= w < g.width && 0 <= h < g.height && !g.walls[w][h] &&
      Likelihood(n, pacman, evidence, (w, h)) > 0.0
  }

  /** The reading the sensor gives at cell `c` when `j` of its `n` noise trials succeed. */
  function Reading(n: nat, pacman: Cell, c: Cell, j: int): real {
    Manhattan(c, pacman) as real + j as real - n as real * P
  }

  /**
   * A reading has positive likelihood at a cell exactly when it is the
   * cell's distance to Pacman plus one of the `n + 1` possible noise values
   * `j - n/2`; no likelihood exceeds 1.
   */
  lemma LikelihoodPositiveIff(n: nat, pacman: Cell, evidence: real, c: Cell)
    ensures Likelihood(n, pacman, evidence, c) > 0.0 <==>
      exists j: int :: 0 <= j <= n && evidence == Reading(n, pacman, c, j)
    ensures Likelihood(n, pacman, evidence, c) <= 1.0
  {
    var k := evidence - Manhattan(c, pacman) as real + n as real * P;
    PmfPositiveIff(k, n);
    if InSupport(k, n) {
      var j := k.Floor;
      assert evidence == Reading(n, pacman, c, j);
    }
    if exists j: int :: 0 <= j <= n && evidence == Reading(n, pacman, c, j) {
      var j: int :| 0 <= j <= n && evidence == Reading(n, pacman, c, j);
      assert k == j as real;
    }
  }

  /**
   * For every position, the likelihoods of the `n + 1` readings the noisy
   * sensor can produce add up to 1: the surface is a genuine conditional
   * distribution of the reading.
   */
  lemma LikelihoodSumsToOne(n: nat, pacman: Cell, c: Cell)
    ensures SumSeq(seq(n + 1, j requires 0 <= j < n + 1 => Likelihood(n, pacman, Reading(n, pacman, c, j), c))) == 1.0
  {
    var readings := seq(n + 1, j requires 0 <= j < n + 1 => Likelihood(n, pacman, Reading(n, pacman, c, j), c));
    assert readings == seq(n + 1, j requires 0 <= j < n + 1 => Pmf(j as real, n));
    PmfSumsToOne(n);
  }

  /** The raw surface sums to zero exactly when no open cell explains the reading. */
  lemma RawSurfaceZeroIff(g: Grid, n: nat, pacman: Cell, evidence: real)
    requires g.WellFormed()
    ensures SumMatrix(RawSurface(g, n, pacman, evidence)) == 0.0 <==> !Explains(g, n, pacman, evidence)
  {
    var raw := RawSurface(g, n, pacman, evidence);
    SumMatrixZeroIff(raw);
    if Explains(g, n, pacman, evidence) {
      var w, h :| 0 <= w < g.width && 0 <= h < g.height && !g.walls[w][h] &&
        Likelihood(n, pacman, evidence, (w, h)) > 0.0;
      assert raw[w][h] > 0.0;
    }
  }

  /** A reading some open cell explains: the surface is the likelihood itself at every open cell. */
  lemma SurfaceIsLikelihood(g: Grid, n: nat, pacman: Cell, evidence: real, w: nat, h: nat)
    requires g.WellFormed() && w < g.width && h < g.height && !g.walls[w][h]
    requires Explains(g, n, pacman, evidence)
    ensures SensorSurface(g, n, pacman, evidence)[w][h] == Likelihood(n, pacman, evidence, (w, h))
  {
    RawSurfaceZeroIff(g, n, pacman, evidence);
  }

  /**
   * A reading no open cell explains: the surface is uniform, `1 / NumLegal`
   * on every open cell (and 0 on walls).
   */
  lemma SurfaceFallsBackToUniform(g: Grid, n: nat, pacman: Cell, evidence: real)
    requires g.WellFormed() && NumLegal(g) > 0.0
    requires !Explains(g, n, pacman, evidence)
    ensures SensorSurface(g, n, pacman, evidence) == UniformOverOpen(g)
    ensures forall w, h :: 0 <= w < g.width && 0 <= h < g.height && !g.walls[w][h] ==>
      SensorSurface(g, n, pacman, evidence)[w][h] == 1.0 / NumLegal(g)
  {
    RawSurfaceZeroIff(g, n, pacman, evidence);
    UniformSumsToOne(g);
  }

  /** As long as the maze has a legal position, the surface is never all-zero. */
  lemma SurfaceNeverZero(g: Grid, n: nat, pacman: Cell, evidence: real)
    requires g.WellFormed() && NumLegal(g) > 0.0
    ensures SumMatrix(SensorSurface(g, n, pacman, evidence)) > 0.0
  {
    var raw := RawSurface(g, n, pacman, evidence);
    SumMatrixNonNegative(raw);
    if SumMatrix(raw) == 0.0 {
      UniformSumsToOne(g);
    }
  }
}
