/**
 * One tick of the forward (HMM) filter for one ghost: predict with the
 * transition model, weight by the sensor surface, normalise, and recover
 * from evidence the prediction cannot explain.
 */
module Forward {
  import opened Sums
  import opened Maze
  import opened Sensor
  import opened Transition

  /** Below this unnormalised mass the evidence counts as impossible. */
  const Epsilon: real := 0.000000001

  predicate ZeroAtWalls(g: Grid, m: Matrix)
    requires g.WellFormed() && IsShape(m, g.width, g.height)
  {
    forall w, h :: 0 <= w < g.width && 0 <= h < g.height && g.walls[w][h] ==> m[w][h] == 0.0
  }

  /** A belief over the legal positions: non-negative, 0 on walls, summing to 1. */
  predicate IsDistribution(g: Grid, m: Matrix)
    requires g.WellFormed() && IsShape(m, g.width, g.height)
  {
    NonNegative(m) && ZeroAtWalls(g, m) && SumMatrix(m) == 1.0
  }

  function Zeros(width: nat, height: nat): (m: Matrix)
    ensures IsShape(m, width, height)
  {
    seq(width, w requires 0 <= w < width => seq(height, h requires 0 <= h < height => 0.0))
  }

  /** The elementwise product `a * b` of two numpy arrays of one shape. */
  function Hadamard(a: Matrix, b: Matrix, width: nat, height: nat): (r: Matrix)
    requires IsShape(a, width, height) && IsShape(b, width, height)
    ensures IsShape(r, width, height)
  {
    seq(width, w requires 0 <= w < width => seq(height, h requires 0 <= h < height => a[w][h] * b[w][h]))
  }

  /** The elementwise quotient `m / s`. */
  function Divide(m: Matrix, s: real, width: nat, height: nat): (r: Matrix)
    requires IsShape(m, width, height) && s != 0.0
    ensures IsShape(r, width, height)
  {
    seq(width, w requires 0 <= w < width => seq(height, h requires 0 <= h < height => m[w][h] / s))
  }

  /** The prediction `np.einsum('klwh,wh->kl', t, b)`: the mass each cell receives. */
  function Predict(t: Tensor, b: Matrix, width: nat, height: nat): (r: Matrix)
    requires IsTensor(t, width, height) && IsShape(b, width, height)
    ensures IsShape(r, width, height)
  {
    seq(width, k requires 0 <= k < width =>
      seq(height, l requires 0 <= l < height => SumMatrix(Hadamard(t[k][l], b, width, height))))
  }

  /** What the sensor and the prediction jointly give a ghost's next position, before normalising. */
  function Unnormalised(g: Grid, n: nat, fear: real, pacman: Cell, prev: Matrix, evidence: real): (r: Matrix)
    requires g.WellFormed() && fear >= 1.0 && IsShape(prev, g.width, g.height)
    ensures IsShape(r, g.width, g.height)
  {
    var predicted := Predict(TransitionTensor(g, fear, pacman), prev, g.width, g.height);
    Hadamard(SensorSurface(g, n, pacman, evidence), predicted, g.width, g.height)
  }

  /** Divides by the total, or falls back to uniform over the legal positions when it is below `Epsilon`. */
  function Normalise(g: Grid, u: Matrix): (r: Matrix)
    requires g.WellFormed() && IsShape(u, g.width, g.height)
    ensures IsShape(r, g.width, g.height)
  {
    var s := SumMatrix(u);
    if s < Epsilon then UniformOverOpen(g) else Divide(u, s, g.width, g.height)
  }

  /** The new belief about one ghost, from its previous belief, its reading and whether it was eaten. */
  function ForwardStep(g: Grid, n: nat, fear: real, pacman: Cell, prev: Matrix, evidence: real, eaten: bool): (r: Matrix)
    requires g.WellFormed() && fear >= 1.0 && IsShape(prev, g.width, g.height)
    ensures IsShape(r, g.width, g.height)
  {
    if eaten then Zeros(g.width, g.height)
    else Normalise(g, Unnormalised(g, n, fear, pacman, prev, evidence))
  }

  predicate AllShaped(ms: seq<Matrix>, width: nat, height: nat) {
    forall i :: 0 <= i < |ms| ==> IsShape(ms[i], width, height)
  }

  /** The new beliefs of every ghost, in order. */
  function UpdatedBeliefs(g: Grid, n: nat, fear: real, pacman: Cell, beliefs: seq<Matrix>,
                          evidences: seq<real>, eaten: seq<bool>): (r: seq<Matrix>)
    requires g.WellFormed() && fear >= 1.0 && AllShaped(beliefs, g.width, g.height)
    requires |evidences| >= |beliefs| && |eaten| >= |beliefs|
    ensures |r| == |beliefs| && AllShaped(r, g.width, g.height)
  {
    seq(|beliefs|, i requires 0 <= i < |beliefs| => ForwardStep(g, n, fear, pacman, beliefs[i], evidences[i], eaten[i]))
  }

  // ---------------------------------------------------------------------
  // The prediction step, for any tensor

  function Contributions(t: Tensor, b: Matrix, width: nat, height: nat): (x: Tensor)
    requires IsTensor(t, width, height) && IsShape(b, width, height)
    ensures IsTensor(x, width, height)
  {
    seq(width, k requires 0 <= k < width => seq(height, l requires 0 <= l < height => Hadamard(t[k][l], b, width, height)))
  }

  lemma SourceContribution(t: Tensor, b: Matrix, width: nat, height: nat, w: nat, h: nat)
    requires IsTensor(t, width, height) && IsShape(b, width, height) && w < width && h < height
    ensures SourceTotals(Contributions(t, b, width, height), width, height)[w][h]
         == b[w][h] * SumMatrix(Column(t, width, height, w, h))
  {
    var ct := Column(t, width, height, w, h);
    var cx := Column(Contributions(t, b, width, height), width, height, w, h);
    forall k, l | 0 <= k < width && 0 <= l < height
      ensures cx[k][l] == b[w][h] * ct[k][l]
    {
    }
    SumMatrixScale(ct, cx, b[w][h], width, height);
  }

  lemma PredictIsMarginal(t: Tensor, b: Matrix, width: nat, height: nat)
    requires IsTensor(t, width, height) && IsShape(b, width, height)
    ensures Predict(t, b, width, height) == Marginal(Contributions(t, b, width, height), width, height)
  {
    var p := Predict(t, b, width, height);
    var m := Marginal(Contributions(t, b, width, height), width, height);
    forall k | 0 <= k < width ensures p[k] == m[k] {
      forall l | 0 <= l < height ensures p[k][l] == m[k][l] {
      }
    }
  }

  /**
   * Predicting with a tensor whose every column carrying mass sums to 1
   * keeps the total mass.
   */
  lemma PredictKeepsMass(t: Tensor, b: Matrix, width: nat, height: nat)
    requires IsTensor(t, width, height) && IsShape(b, width, height)
    requires forall w, h :: 0 <= w < width && 0 <= h < height && b[w][h] != 0.0 ==>
      SumMatrix(Column(t, width, height, w, h)) == 1.0
    ensures SumMatrix(Predict(t, b, width, height)) == SumMatrix(b)
  {
    var x := Contributions(t, b, width, height);
    PredictIsMarginal(t, b, width, height);
    SumTensorBySource(x, width, height);
    SourceTotalsAreBelief(t, b, width, height);
  }

  lemma SourceTotalsAreBelief(t: Tensor, b: Matrix, width: nat, height: nat)
    requires IsTensor(t, width, height) && IsShape(b, width, height)
    requires forall w, h :: 0 <= w < width && 0 <= h < height && b[w][h] != 0.0 ==>
      SumMatrix(Column(t, width, height, w, h)) == 1.0
    ensures SumMatrix(SourceTotals(Contributions(t, b, width, height), width, height)) == SumMatrix(b)
  {
    var totals := SourceTotals(Contributions(t, b, width, height), width, height);
    forall w | 0 <= w < width ensures totals[w] == b[w] {
      forall h | 0 <= h < height ensures totals[w][h] == b[w][h] {
        SourceTotalEntry(t, b, width, height, w, h);
      }
    }
    assert totals == b;
  }

  lemma SourceTotalEntry(t: Tensor, b: Matrix, width: nat, height: nat, w: nat, h: nat)
    requires IsTensor(t, width, height) && IsShape(b, width, height) && w < width && h < height
    requires b[w][h] != 0.0 ==> SumMatrix(Column(t, width, height, w, h)) == 1.0
    ensures SourceTotals(Contributions(t, b, width, height), width, height)[w][h] == b[w][h]
  {
    SourceContribution(t, b, width, height, w, h);
  }

  lemma PredictNoInflow(t: Tensor, b: Matrix, width: nat, height: nat, k: nat, l: nat)
    requires IsTensor(t, width, height) && IsShape(b, width, height) && k < width && l < height
    requires forall w, h :: 0 <= w < width && 0 <= h < height ==> t[k][l][w][h] == 0.0
    ensures Predict(t, b, width, height)[k][l] == 0.0
  {
    var inflow := Hadamard(t[k][l], b, width, height);
    SumMatrixZero(inflow, width, height);
  }

  lemma PredictNonNegative(t: Tensor, b: Matrix, width: nat, height: nat)
    requires IsTensor(t, width, height) && IsShape(b, width, height)
    requires forall k, l :: 0 <= k < width && 0 <= l < height ==> NonNegative(t[k][l])
    requires NonNegative(b)
    ensures NonNegative(Predict(t, b, width, height))
  {
    forall k, l | 0 <= k < width && 0 <= l < height
      ensures Predict(t, b, width, height)[k][l] >= 0.0
    {
      SumMatrixNonNegative(Hadamard(t[k][l], b, width, height));
    }
  }

  // ---------------------------------------------------------------------
  // The prediction step with the ghost's transition model

  /**
   * Prediction keeps the total mass of a belief that puts nothing on walls:
   * every open origin passes on all of its mass.
   */
  lemma PredictPreservesMass(g: Grid, fear: real, pacman: Cell, prev: Matrix)
    requires g.WellFormed() && fear >= 1.0 && IsShape(prev, g.width, g.height)
    requires ZeroAtWalls(g, prev)
    ensures SumMatrix(Predict(TransitionTensor(g, fear, pacman), prev, g.width, g.height)) == SumMatrix(prev)
  {
    var t := TransitionTensor(g, fear, pacman);
    forall w, h | 0 <= w < g.width && 0 <= h < g.height && prev[w][h] != 0.0
      ensures SumMatrix(Column(t, g.width, g.height, w, h)) == 1.0
    {
      TransitionColumnSumsToOne(g, fear, pacman, w, h);
    }
    PredictKeepsMass(t, prev, g.width, g.height);
  }

  lemma TransitionEntries(g: Grid, fear: real, pacman: Cell, k: nat, l: nat)
    requires g.WellFormed() && fear >= 1.0 && k < g.width && l < g.height
    ensures forall w, h :: 0 <= w < g.width && 0 <= h < g.height ==>
      TransitionTensor(g, fear, pacman)[k][l][w][h] == TransProb(g, fear, pacman, (k, l), (w, h))
  {
  }

  /** The prediction is non-negative when the previous belief is, and always puts nothing on walls. */
  lemma PredictSupport(g: Grid, fear: real, pacman: Cell, prev: Matrix)
    requires g.WellFormed() && fear >= 1.0 && IsShape(prev, g.width, g.height)
    ensures ZeroAtWalls(g, Predict(TransitionTensor(g, fear, pacman), prev, g.width, g.height))
    ensures NonNegative(prev) ==> NonNegative(Predict(TransitionTensor(g, fear, pacman), prev, g.width, g.height))
  {
    var t := TransitionTensor(g, fear, pacman);
    forall k, l | 0 <= k < g.width && 0 <= l < g.height
      ensures NonNegative(t[k][l])
      ensures g.walls[k][l] ==> Predict(t, prev, g.width, g.height)[k][l] == 0.0
    {
      TransitionEntries(g, fear, pacman, k, l);
      if g.walls[k][l] {
        forall w, h | 0 <= w < g.width && 0 <= h < g.height ensures t[k][l][w][h] == 0.0 {
          TransitionSupport(g, fear, pacman, (k, l), (w, h));
        }
        PredictNoInflow(t, prev, g.width, g.height, k, l);
      }
    }
    if NonNegative(prev) {
      PredictNonNegative(t, prev, g.width, g.height);
    }
  }

  // ---------------------------------------------------------------------
  // The whole step

  /** An eaten ghost's new belief is all-zero, whatever its reading and previous belief. */
  lemma EatenGhostZeroed(g: Grid, n: nat, fear: real, pacman: Cell, prev: Matrix, evidence: real)
    requires g.WellFormed() && fear >= 1.0 && IsShape(prev, g.width, g.height)
    ensures forall w, h :: 0 <= w < g.width && 0 <= h < g.height ==>
      ForwardStep(g, n, fear, pacman, prev, evidence, true)[w][h] == 0.0
    ensures SumMatrix(ForwardStep(g, n, fear, pacman, prev, evidence, true)) == 0.0
  {
    var z := ForwardStep(g, n, fear, pacman, prev, evidence, true);
    SumMatrixZero(z, g.width, g.height);
  }

  lemma HadamardSupport(g: Grid, a: Matrix, b: Matrix)
    requires g.WellFormed() && IsShape(a, g.width, g.height) && IsShape(b, g.width, g.height)
    ensures ZeroAtWalls(g, b) ==> ZeroAtWalls(g, Hadamard(a, b, g.width, g.height))
    ensures NonNegative(a) && NonNegative(b) ==> NonNegative(Hadamard(a, b, g.width, g.height))
  {
  }

  lemma UnnormalisedSupport(g: Grid, n: nat, fear: real, pacman: Cell, prev: Matrix, evidence: real)
    requires g.WellFormed() && fear >= 1.0 && IsShape(prev, g.width, g.height)
    ensures ZeroAtWalls(g, Unnormalised(g, n, fear, pacman, prev, evidence))
    ensures NonNegative(prev) ==> NonNegative(Unnormalised(g, n, fear, pacman, prev, evidence))
  {
    var predicted := Predict(TransitionTensor(g, fear, pacman), prev, g.width, g.height);
    PredictSupport(g, fear, pacman, prev);
    HadamardSupport(g, SensorSurface(g, n, pacman, evidence), predicted);
  }

  /** Dividing by the total gives total 1, each entry in the same proportion. */
  lemma DivideByTotal(m: Matrix, width: nat, height: nat)
    requires IsShape(m, width, height) && SumMatrix(m) != 0.0
    ensures SumMatrix(Divide(m, SumMatrix(m), width, height)) == 1.0
    ensures forall w, h :: 0 <= w < width && 0 <= h < height ==>
      Divide(m, SumMatrix(m), width, height)[w][h] * SumMatrix(m) == m[w][h]
  {
    var s := SumMatrix(m);
    var r := Divide(m, s, width, height);
    forall w, h | 0 <= w < width && 0 <= h < height
      ensures r[w][h] == (1.0 / s) * m[w][h]
      ensures r[w][h] * s == m[w][h]
    {
    }
    SumMatrixScale(m, r, 1.0 / s, width, height);
  }

  lemma DivideSupport(g: Grid, m: Matrix, s: real)
    requires g.WellFormed() && IsShape(m, g.width, g.height) && s > 0.0
    ensures ZeroAtWalls(g, m) ==> ZeroAtWalls(g, Divide(m, s, g.width, g.height))
    ensures NonNegative(m) ==> NonNegative(Divide(m, s, g.width, g.height))
  {
  }

  lemma NormalisedIsDistribution(g: Grid, u: Matrix)
    requires g.WellFormed() && IsShape(u, g.width, g.height) && SumMatrix(u) >= Epsilon
    requires ZeroAtWalls(g, u)
    ensures var r := Normalise(g, u);
      && (forall w, h :: 0 <= w < g.width && 0 <= h < g.height ==> r[w][h] * SumMatrix(u) == u[w][h])
      && SumMatrix(r) == 1.0
      && ZeroAtWalls(g, r)
      && (NonNegative(u) ==> IsDistribution(g, r))
  {
    assert Normalise(g, u) == Divide(u, SumMatrix(u), g.width, g.height);
    DivideByTotal(u, g.width, g.height);
    DivideSupport(g, u, SumMatrix(u));
  }

  /**
   * With enough unnormalised mass, the new belief is the sensor surface
   * times the prediction, normalised (`NormalisedIsDistribution`): it sums
   * to 1, is 0 on walls, and is non-negative when the previous belief is.
   */
  lemma ForwardNormalises(g: Grid, n: nat, fear: real, pacman: Cell, prev: Matrix, evidence: real)
    requires g.WellFormed() && fear >= 1.0 && IsShape(prev, g.width, g.height)
    requires SumMatrix(Unnormalised(g, n, fear, pacman, prev, evidence)) >= Epsilon
    ensures ForwardStep(g, n, fear, pacman, prev, evidence, false) == Normalise(g, Unnormalised(g, n, fear, pacman, prev, evidence))
    ensures SumMatrix(ForwardStep(g, n, fear, pacman, prev, evidence, false)) == 1.0
    ensures ZeroAtWalls(g, ForwardStep(g, n, fear, pacman, prev, evidence, false))
    ensures NonNegative(prev) ==> IsDistribution(g, ForwardStep(g, n, fear, pacman, prev, evidence, false))
  {
    var u := Unnormalised(g, n, fear, pacman, prev, evidence);
    assert ForwardStep(g, n, fear, pacman, prev, evidence, false) == Normalise(g, u);
    UnnormalisedSupport(g, n, fear, pacman, prev, evidence);
    NormalisedIsDistribution(g, u);
  }

  /**
   * Evidence the prediction cannot explain (unnormalised mass below
   * `Epsilon`) resets the belief to uniform over the legal positions.
   */
  lemma ForwardRecovers(g: Grid, n: nat, fear: real, pacman: Cell, prev: Matrix, evidence: real)
    requires g.WellFormed() && fear >= 1.0 && IsShape(prev, g.width, g.height)
    requires SumMatrix(Unnormalised(g, n, fear, pacman, prev, evidence)) < Epsilon
    ensures ForwardStep(g, n, fear, pacman, prev, evidence, false) == UniformOverOpen(g)
    ensures NumLegal(g) > 0.0 ==> IsDistribution(g, ForwardStep(g, n, fear, pacman, prev, evidence, false))
    ensures NumLegal(g) > 0.0 ==> forall w, h :: 0 <= w < g.width && 0 <= h < g.height && !g.walls[w][h] ==>
      ForwardStep(g, n, fear, pacman, prev, evidence, false)[w][h] == 1.0 / NumLegal(g)
  {
    UniformSumsToOne(g);
  }

  /**
   * The filter's invariant: when the maze has a legal position, every ghost
   * that is not eaten has a belief that sums to 1 and is 0 on walls, and a
   * non-negative one when its previous belief was non-negative.
   */
  lemma ForwardIsDistribution(g: Grid, n: nat, fear: real, pacman: Cell, prev: Matrix, evidence: real)
    requires g.WellFormed() && fear >= 1.0 && IsShape(prev, g.width, g.height)
    requires NumLegal(g) > 0.0
    ensures var r := ForwardStep(g, n, fear, pacman, prev, evidence, false);
      SumMatrix(r) == 1.0 && ZeroAtWalls(g, r) && (NonNegative(prev) ==> IsDistribution(g, r))
  {
    if SumMatrix(Unnormalised(g, n, fear, pacman, prev, evidence)) < Epsilon {
      ForwardRecovers(g, n, fear, pacman, prev, evidence);
    } else {
      ForwardNormalises(g, n, fear, pacman, prev, evidence);
    }
  }

  /**
   * The invariant `update_belief_state` keeps over the whole list: one new
   * belief per ghost, in order; an eaten ghost's is all-zero, and, when the
   * maze has a legal position, every other ghost's sums to 1, is 0 on walls,
   * and is a distribution whenever its previous belief was non-negative.
   */
  lemma UpdatedBeliefsInvariant(g: Grid, n: nat, fear: real, pacman: Cell, beliefs: seq<Matrix>,
                                evidences: seq<real>, eaten: seq<bool>)
    requires g.WellFormed() && fear >= 1.0 && AllShaped(beliefs, g.width, g.height)
    requires |evidences| >= |beliefs| && |eaten| >= |beliefs|
    ensures forall i :: 0 <= i < |beliefs| && eaten[i] ==>
      UpdatedBeliefs(g, n, fear, pacman, beliefs, evidences, eaten)[i] == Zeros(g.width, g.height)
    ensures NumLegal(g) > 0.0 ==> forall i :: 0 <= i < |beliefs| && !eaten[i] ==>
      && SumMatrix(UpdatedBeliefs(g, n, fear, pacman, beliefs, evidences, eaten)[i]) == 1.0
      && ZeroAtWalls(g, UpdatedBeliefs(g, n, fear, pacman, beliefs, evidences, eaten)[i])
      && (NonNegative(beliefs[i]) ==> IsDistribution(g, UpdatedBeliefs(g, n, fear, pacman, beliefs, evidences, eaten)[i]))
  {
    var r := UpdatedBeliefs(g, n, fear, pacman, beliefs, evidences, eaten);
    forall i | 0 <= i < |beliefs|
      ensures eaten[i] ==> r[i] == Zeros(g.width, g.height)
      ensures NumLegal(g) > 0.0 && !eaten[i] ==>
        SumMatrix(r[i]) == 1.0 && ZeroAtWalls(g, r[i]) && (NonNegative(beliefs[i]) ==> IsDistribution(g, r[i]))
    {
      assert r[i] == ForwardStep(g, n, fear, pacman, beliefs[i], evidences[i], eaten[i]);
      if NumLegal(g) > 0.0 && !eaten[i] {
        ForwardIsDistribution(g, n, fear, pacman, beliefs[i], evidences[i]);
      }
    }
  }
}
