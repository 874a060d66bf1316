/**
 * The belief-state agent itself: the sensor and transition models are
 * numpy arrays filled in place cell by cell, the per-ghost update appends
 * one belief per ghost, and `UpdateBeliefState` stores the new list in the
 * agent's field. Each method is proved against the specification functions
 * of `Sensor`, `Transition` and `Forward`.
 */
module Agent {
  import opened Wrappers
  import opened Sums
  import opened Maze
  import opened Binomial
  import opened Sensor
  import opened Transition
  import opened Forward

  /** The contents of a `width x height` numpy array, as a matrix. */
  function ToMatrix(a: array2<real>): (m: Matrix)
    reads a
    ensures IsShape(m, a.Length0, a.Length1)
  {
    seq(a.Length0, w requires 0 <= w < a.Length0 reads a =>
      seq(a.Length1, h requires 0 <= h < a.Length1 reads a => a[w, h]))
  }

  /** The contents of a `width x height x width x height` numpy array, as a tensor. */
  function ToTensor(t: array4<real>): (r: Tensor)
    reads t
    requires t.Length0 == t.Length2 && t.Length1 == t.Length3
    ensures IsTensor(r, t.Length0, t.Length1)
  {
    seq(t.Length0, k requires 0 <= k < t.Length0 reads t =>
      seq(t.Length1, l requires 0 <= l < t.Length1 reads t =>
        seq(t.Length2, w requires 0 <= w < t.Length2 reads t =>
          seq(t.Length3, h requires 0 <= h < t.Length3 reads t => t[k, l, w, h]))))
  }

  lemma MatrixOfEntries(a: array2<real>, m: Matrix)
    requires IsShape(m, a.Length0, a.Length1)
    requires forall w, h :: 0 <= w < a.Length0 && 0 <= h < a.Length1 ==> a[w, h] == m[w][h]
    ensures ToMatrix(a) == m
  {
    var r := ToMatrix(a);
    forall w | 0 <= w < a.Length0 ensures r[w] == m[w] {
    }
  }

  /** Writing the uniform share over the open cells of the raw surface gives the uniform surface. */
  lemma UniformOverRaw(a: array2<real>, g: Grid, raw: Matrix)
    requires g.WellFormed() && NumLegal(g) > 0.0 && a.Length0 == g.width && a.Length1 == g.height
    requires IsShape(raw, g.width, g.height)
    requires forall w, h :: 0 <= w < g.width && 0 <= h < g.height && g.walls[w][h] ==> raw[w][h] == 0.0
    requires forall w, h :: 0 <= w < g.width && 0 <= h < g.height ==>
      a[w, h] == if g.walls[w][h] then raw[w][h] else 1.0 / NumLegal(g)
    ensures ToMatrix(a) == UniformOverOpen(g)
  {
    MatrixOfEntries(a, UniformOverOpen(g));
  }

  lemma TensorOfEntries(t: array4<real>, g: Grid, fear: real, pacman: Cell)
    requires g.WellFormed() && fear >= 1.0
    requires t.Length0 == t.Length2 == g.width && t.Length1 == t.Length3 == g.height
    requires forall k, l, w, h :: 0 <= k < g.width && 0 <= l < g.height && 0 <= w < g.width && 0 <= h < g.height ==>
      t[k, l, w, h] == TransProb(g, fear, pacman, (k, l), (w, h))
    ensures ToTensor(t) == TransitionTensor(g, fear, pacman)
  {
    var r := ToTensor(t);
    var s := TransitionTensor(g, fear, pacman);
    forall k | 0 <= k < g.width ensures r[k] == s[k] {
      forall l | 0 <= l < g.height ensures r[k][l] == s[k][l] {
        forall w | 0 <= w < g.width ensures r[k][l][w] == s[k][l][w] {
        }
      }
    }
  }

  /** A wall is never an origin: its column of the transition model is all-zero. */
  lemma WallColumn(g: Grid, fear: real, pacman: Cell, src: Cell)
    requires g.WellFormed() && fear >= 1.0 && !g.IsOpen(src)
    ensures forall k, l :: TransProb(g, fear, pacman, (k, l), src) == 0.0
  {
  }

  /** Appending one neighbour to the candidates appends it to the open ones when it is open. */
  lemma {:induction false} OpenAmongSnoc(g: Grid, cs: seq<Cell>, x: Cell)
    requires g.WellFormed()
    ensures OpenAmong(g, cs + [x]) == OpenAmong(g, cs) + (if g.IsOpen(x) then [x] else [])
  {
    if cs == [] {
      assert cs + [x] == [x];
      assert OpenAmong(g, [x]) == (if g.IsOpen(x) then [x] else []) + OpenAmong(g, []);
    } else {
      var head := if g.IsOpen(cs[0]) then [cs[0]] else [];
      var tail := if g.IsOpen(x) then [x] else [];
      assert (cs + [x])[0] == cs[0];
      assert (cs + [x])[1..] == cs[1..] + [x];
      OpenAmongSnoc(g, cs[1..], x);
      calc {
        OpenAmong(g, cs + [x]);
        head + OpenAmong(g, cs[1..] + [x]);
        head + (OpenAmong(g, cs[1..]) + tail);
        { assert head + (OpenAmong(g, cs[1..]) + tail) == (head + OpenAmong(g, cs[1..])) + tail; }
        OpenAmong(g, cs) + tail;
      }
    }
  }

  /** After normalising the weights into the column of a moving origin, the column is its transition distribution. */
  lemma MovingColumnEntries(g: Grid, fear: real, pacman: Cell, t: array4<real>, w2: nat, h2: nat,
                            successors: seq<Cell>, weights: seq<real>)
    requires g.WellFormed() && fear >= 1.0 && g.IsOpen((w2, h2))
    requires t.Length0 == t.Length2 == g.width && t.Length1 == t.Length3 == g.height
    requires successors == Successors(g, (w2, h2)) && |successors| > 0
    requires weights == Weights(fear, pacman, (w2, h2), successors)
    requires forall j :: 0 <= j < |successors| ==> 0 <= successors[j].0 < g.width && 0 <= successors[j].1 < g.height
    requires SumSeq(weights) > 0.0
    requires forall j :: 0 <= j < |successors| ==>
      t[successors[j].0, successors[j].1, w2, h2] == weights[j] / SumSeq(weights)
    requires forall k, l :: 0 <= k < g.width && 0 <= l < g.height && (k, l) !in successors ==> t[k, l, w2, h2] == 0.0
    ensures forall k, l :: 0 <= k < g.width && 0 <= l < g.height ==>
      t[k, l, w2, h2] == TransProb(g, fear, pacman, (k, l), (w2, h2))
  {
    forall k, l | 0 <= k < g.width && 0 <= l < g.height
      ensures t[k, l, w2, h2] == TransProb(g, fear, pacman, (k, l), (w2, h2))
    {
      if (k, l) in successors {
        var j :| 0 <= j < |successors| && successors[j] == (k, l);
      }
    }
  }

  // The two lemmas below keep the per-ghost loop's proof from unfolding
  // `ForwardStep` while it compares sequences of beliefs.

  lemma UpdatedBeliefAt(g: Grid, n: nat, fear: real, pacman: Cell, beliefs: seq<Matrix>, evidences: seq<real>,
                        eaten: seq<bool>, i: nat)
    requires g.WellFormed() && fear >= 1.0 && AllShaped(beliefs, g.width, g.height)
    requires |evidences| >= |beliefs| && |eaten| >= |beliefs| && i < |beliefs|
    ensures UpdatedBeliefs(g, n, fear, pacman, beliefs, evidences, eaten)[i]
         == ForwardStep(g, n, fear, pacman, beliefs[i], evidences[i], eaten[i])
  {
  }

  lemma PrefixExtend<T>(all: seq<T>, done: seq<T>, next: T, i: nat)
    requires i < |all| && done == all[..i] && next == all[i]
    ensures done + [next] == all[..i + 1]
  {
  }

  class BeliefStateAgent {
    const ghostType: string
    const sensorVariance: real
    /** The number of binomial trials behind the sensor noise. */
    const n: nat
    const walls: Grid
    /** The current belief about each ghost's position. */
    var beliefGhostStates: seq<Matrix>

    /** The maze is loaded, and framed by walls. */
    predicate MazeReady() {
      walls.WellFormed() && walls.BorderWalled()
    }

    predicate Valid()
      reads this
    {
      MazeReady() && AllShaped(beliefGhostStates, walls.width, walls.height)
    }

    /**
     * Sets up the hyper-parameters. The walls and the prior beliefs, which
     * the game hands over on the first move, are taken here.
     */
    constructor(ghostType: string, sensorVariance: real, walls: Grid, prior: seq<Matrix>)
      requires NumTrials(sensorVariance) >= 0
      requires walls.WellFormed() && walls.BorderWalled()
      requires AllShaped(prior, walls.width, walls.height)
      ensures Valid()
      ensures this.ghostType == ghostType && this.sensorVariance == sensorVariance
      ensures this.n == NumTrials(sensorVariance) && this.walls == walls
      ensures beliefGhostStates == prior
    {
      this.ghostType := ghostType;
      this.sensorVariance := sensorVariance;
      this.n := NumTrials(sensorVariance);
      this.walls := walls;
      beliefGhostStates := prior;
    }

    /** The sensor model: the likelihood of `evidence` at every cell, as a fresh array. */
    method SensorModel(pacman: Cell, evidence: real) returns (sensor: array2<real>)
      requires MazeReady()
      ensures fresh(sensor)
      ensures sensor.Length0 == walls.width && sensor.Length1 == walls.height
      ensures ToMatrix(sensor) == SensorSurface(walls, n, pacman, evidence)
    {
      sensor := new real[walls.width, walls.height]((w, h) => 0.0);
      ghost var raw := RawSurface(walls, n, pacman, evidence);
      FillLikelihoods(sensor, pacman, evidence, raw);
      MatrixOfEntries(sensor, raw);
      if SumMatrix(ToMatrix(sensor)) == 0.0 {
        var numLegal := NumLegal(walls);
        if numLegal > 0.0 {
          FillUniform(sensor, 1.0 / numLegal);
          UniformOverRaw(sensor, walls, raw);
        }
      }
    }

    /** Writes the likelihood of `evidence` at every open cell of a zeroed array. */
    method FillLikelihoods(sensor: array2<real>, pacman: Cell, evidence: real, ghost raw: Matrix)
      requires MazeReady() && sensor.Length0 == walls.width && sensor.Length1 == walls.height
      requires raw == RawSurface(walls, n, pacman, evidence)
      requires forall x, y :: 0 <= x < walls.width && 0 <= y < walls.height ==> sensor[x, y] == 0.0
      modifies sensor
      ensures forall x, y :: 0 <= x < walls.width && 0 <= y < walls.height ==> sensor[x, y] == raw[x][y]
    {
      var width, height := walls.width, walls.height;
      for w := 0 to width
        invariant forall x, y :: 0 <= x < w && 0 <= y < height ==> sensor[x, y] == raw[x][y]
        invariant forall x, y :: w <= x < width && 0 <= y < height ==> sensor[x, y] == 0.0
      {
        for h := 0 to height
          invariant forall x, y :: 0 <= x < w && 0 <= y < height ==> sensor[x, y] == raw[x][y]
          invariant forall y :: 0 <= y < h ==> sensor[w, y] == raw[w][y]
          invariant forall x, y :: w <= x < width && 0 <= y < height && (x > w || y >= h) ==> sensor[x, y] == 0.0
        {
          if !walls.walls[w][h] {
            var trueDistance := Manhattan((w, h), pacman);
            var k := evidence - trueDistance as real + n as real * P;
            sensor[w, h] := Pmf(k, n);
          }
        }
      }
    }

    /** Writes `share` at every open cell and leaves the walls' entries alone. */
    method FillUniform(a: array2<real>, share: real)
      requires MazeReady() && a.Length0 == walls.width && a.Length1 == walls.height
      modifies a
      ensures forall w, h :: 0 <= w < walls.width && 0 <= h < walls.height ==>
        a[w, h] == if walls.walls[w][h] then old(a[w, h]) else share
    {
      for w := 0 to walls.width
        invariant forall x, y :: 0 <= x < w && 0 <= y < walls.height ==>
          a[x, y] == if walls.walls[x][y] then old(a[x, y]) else share
        invariant forall x, y :: w <= x < walls.width && 0 <= y < walls.height ==> a[x, y] == old(a[x, y])
      {
        for h := 0 to walls.height
          invariant forall x, y :: 0 <= x < w && 0 <= y < walls.height ==>
            a[x, y] == if walls.walls[x][y] then old(a[x, y]) else share
          invariant forall y :: 0 <= y < h ==> a[w, y] == if walls.walls[w][y] then old(a[w, y]) else share
          invariant forall x, y :: w <= x < walls.width && 0 <= y < walls.height && (x > w || y >= h) ==>
            a[x, y] == old(a[x, y])
        {
          if !walls.walls[w][h] {
            a[w, h] := share;
          }
        }
      }
    }

    /** The legal successor positions of the open cell `src`, trying N, S, E, W in turn. */
    method LegalSuccessors(src: Cell) returns (successors: seq<Cell>)
      requires MazeReady() && walls.IsOpen(src)
      ensures successors == Successors(walls, src)
    {
      successors := [];
      var moves := Moves;
      for i := 0 to 4
        invariant successors == OpenAmong(walls, Neighbours(src)[..i])
      {
        var (dw, dh) := moves[i];
        var succ := (src.0 + dw, src.1 + dh);
        assert Neighbours(src)[..i + 1] == Neighbours(src)[..i] + [succ];
        OpenAmongSnoc(walls, Neighbours(src)[..i], succ);
        if !walls.walls[succ.0][succ.1] {
          successors := successors + [succ];
        }
      }
      assert Neighbours(src)[..4] == Neighbours(src);
    }

    /** The unnormalised weight of each move `src -> successors[i]`. */
    method MoveWeights(fear: real, pacman: Cell, src: Cell, successors: seq<Cell>) returns (weights: seq<real>)
      ensures weights == Weights(fear, pacman, src, successors)
    {
      weights := [];
      var currentDistToPacman := Manhattan(src, pacman);
      for i := 0 to |successors|
        invariant |weights| == i
        invariant forall j :: 0 <= j < i ==> weights[j] == Weight(fear, pacman, src, successors[j])
      {
        var succDistToPacman := Manhattan(successors[i], pacman);
        var weight := 1.0;
        if succDistToPacman >= currentDistToPacman {
          weight := fear;
        }
        weights := weights + [weight];
      }
    }

    /** Fills the column of the origin `(w2, h2)`, all zero on entry; a wall's column stays zero. */
    method FillColumn(t: array4<real>, fear: real, pacman: Cell, w2: nat, h2: nat)
      requires MazeReady() && fear >= 1.0
      requires t.Length0 == t.Length2 == walls.width && t.Length1 == t.Length3 == walls.height
      requires w2 < walls.width && h2 < walls.height
      requires forall k, l :: 0 <= k < walls.width && 0 <= l < walls.height ==> t[k, l, w2, h2] == 0.0
      modifies t
      ensures forall k, l {:trigger t[k, l, w2, h2]} :: 0 <= k < walls.width && 0 <= l < walls.height ==>
        t[k, l, w2, h2] == TransProb(walls, fear, pacman, (k, l), (w2, h2))
      ensures forall k, l, w, h :: 0 <= k < walls.width && 0 <= l < walls.height && 0 <= w < walls.width && 0 <= h < walls.height && (w, h) != (w2, h2) ==>
        t[k, l, w, h] == old(t[k, l, w, h])
    {
      var src := (w2, h2);
      if walls.walls[w2][h2] {
        WallColumn(walls, fear, pacman, src);
        return;
      }
      var successors := LegalSuccessors(src);
      SuccessorsInBounds(walls, src);
      if |successors| == 0 {
        // A trapped ghost stays in place.
        t[w2, h2, w2, h2] := 1.0;
        forall k, l | 0 <= k < walls.width && 0 <= l < walls.height
          ensures t[k, l, w2, h2] == TransProb(walls, fear, pacman, (k, l), src)
        {
        }
        return;
      }
      var weights := MoveWeights(fear, pacman, src, successors);
      TotalWeightPositive(fear, pacman, src, successors);
      WriteNormalised(t, w2, h2, successors, weights);
      MovingColumnEntries(walls, fear, pacman, t, w2, h2, successors, weights);
    }

    /**
     * Writes the weights of the distinct successors, divided by their total,
     * into the all-zero column of the origin `(w2, h2)`.
     */
    method WriteNormalised(t: array4<real>, w2: nat, h2: nat, successors: seq<Cell>, weights: seq<real>)
      requires MazeReady() && |weights| == |successors| && SumSeq(weights) > 0.0 && Distinct(successors)
      requires t.Length0 == t.Length2 == walls.width && t.Length1 == t.Length3 == walls.height
      requires w2 < walls.width && h2 < walls.height
      requires forall j :: 0 <= j < |successors| ==> 0 <= successors[j].0 < walls.width && 0 <= successors[j].1 < walls.height
      requires forall k, l :: 0 <= k < walls.width && 0 <= l < walls.height ==> t[k, l, w2, h2] == 0.0
      modifies t
      ensures forall k, l, w, h :: 0 <= k < walls.width && 0 <= l < walls.height && 0 <= w < walls.width && 0 <= h < walls.height && (w, h) != (w2, h2) ==>
        t[k, l, w, h] == old(t[k, l, w, h])
      ensures forall j :: 0 <= j < |successors| ==>
        t[successors[j].0, successors[j].1, w2, h2] == weights[j] / SumSeq(weights)
      ensures forall k, l :: 0 <= k < walls.width && 0 <= l < walls.height && (k, l) !in successors ==> t[k, l, w2, h2] == 0.0
    {
      var total := SumSeq(weights);
      for i := 0 to |successors|
        invariant forall k, l, w, h :: 0 <= k < walls.width && 0 <= l < walls.height && 0 <= w < walls.width && 0 <= h < walls.height && (w, h) != (w2, h2) ==>
          t[k, l, w, h] == old(t[k, l, w, h])
        invariant forall j :: 0 <= j < i ==> t[successors[j].0, successors[j].1, w2, h2] == weights[j] / total
        invariant forall k, l :: 0 <= k < walls.width && 0 <= l < walls.height && (k, l) !in successors[..i] ==> t[k, l, w2, h2] == 0.0
      {
        t[successors[i].0, successors[i].1, w2, h2] := weights[i] / total;
      }
      assert successors[..|successors|] == successors;
    }

    /**
     * The transition model, `T[k, l, w, h] = P(next = (k, l) | now = (w, h))`,
     * as a fresh array, or the error for a ghost type the agent does not know.
     */
    method TransitionModel(pacman: Cell) returns (r: Result<array4<real>, GhostError>)
      requires MazeReady()
      ensures FearFactor(ghostType).Failure? ==> r == Failure(FearFactor(ghostType).error)
      ensures FearFactor(ghostType).Success? ==> r.Success? && fresh(r.value)
      ensures r.Success? ==>
        && r.value.Length0 == r.value.Length2 == walls.width && r.value.Length1 == r.value.Length3 == walls.height
        && forall k, l, w, h :: 0 <= k < walls.width && 0 <= l < walls.height && 0 <= w < walls.width && 0 <= h < walls.height ==>
          r.value[k, l, w, h] == TransProb(walls, FearFactor(ghostType).value, pacman, (k, l), (w, h))
    {
      var width, height := walls.width, walls.height;
      var t := new real[width, height, width, height]((k, l, w, h) => 0.0);
      var fear: real;
      if ghostType == "confused" {
        fear := 1.0;
      } else if ghostType == "afraid" {
        fear := 2.0;
      } else if ghostType == "scared" {
        fear := 8.0;
      } else {
        return Failure(UnknownGhostType(ghostType));
      }
      assert fear == FearFactor(ghostType).value;
      FillTransitions(t, fear, pacman);
      r := Success(t);
    }
    /** Fills, origin by origin, the zero-initialised transition array. */
    method FillTransitions(t: array4<real>, fear: real, pacman: Cell)
      requires MazeReady() && fear >= 1.0
      requires t.Length0 == t.Length2 == walls.width && t.Length1 == t.Length3 == walls.height
      requires forall k, l, w, h :: 0 <= k < walls.width && 0 <= l < walls.height && 0 <= w < walls.width && 0 <= h < walls.height ==>
        t[k, l, w, h] == 0.0
      modifies t
      ensures forall k, l, w, h :: 0 <= k < walls.width && 0 <= l < walls.height && 0 <= w < walls.width && 0 <= h < walls.height ==>
        t[k, l, w, h] == TransProb(walls, fear, pacman, (k, l), (w, h))
    {
      for w2 := 0 to walls.width
        invariant forall k, l, w, h :: 0 <= k < walls.width && 0 <= l < walls.height && 0 <= w < walls.width && 0 <= h < walls.height ==>
          t[k, l, w, h] == if w < w2 then TransProb(walls, fear, pacman, (k, l), (w, h)) else 0.0
      {
        FillOrigins(t, fear, pacman, w2);
      }
    }

    /** Fills the columns of the origins `(w2, 0) .. (w2, height - 1)`, all zero on entry. */
    method FillOrigins(t: array4<real>, fear: real, pacman: Cell, w2: nat)
      requires MazeReady() && fear >= 1.0 && w2 < walls.width
      requires t.Length0 == t.Length2 == walls.width && t.Length1 == t.Length3 == walls.height
      requires forall k, l, h :: 0 <= k < walls.width && 0 <= l < walls.height && 0 <= h < walls.height ==>
        t[k, l, w2, h] == 0.0
      modifies t
      ensures forall k, l, h {:trigger t[k, l, w2, h]} :: 0 <= k < walls.width && 0 <= l < walls.height && 0 <= h < walls.height ==>
        t[k, l, w2, h] == TransProb(walls, fear, pacman, (k, l), (w2, h))
      ensures forall k, l, w, h :: 0 <= k < walls.width && 0 <= l < walls.height && 0 <= w < walls.width && 0 <= h < walls.height && w != w2 ==>
        t[k, l, w, h] == old(t[k, l, w, h])
    {
      for h2 := 0 to walls.height
        invariant forall k, l, h {:trigger t[k, l, w2, h]} :: 0 <= k < walls.width && 0 <= l < walls.height && 0 <= h < h2 ==>
          t[k, l, w2, h] == TransProb(walls, fear, pacman, (k, l), (w2, h))
        invariant forall k, l, h :: 0 <= k < walls.width && 0 <= l < walls.height && h2 <= h < walls.height ==>
          t[k, l, w2, h] == 0.0
        invariant forall k, l, w, h :: 0 <= k < walls.width && 0 <= l < walls.height && 0 <= w < walls.width && 0 <= h < walls.height && w != w2 ==>
          t[k, l, w, h] == old(t[k, l, w, h])
      {
        FillColumn(t, fear, pacman, w2, h2);
      }
    }

    /**
     * The new belief about each ghost, in order: the transition model is
     * built once, then each ghost is predicted, weighted by its sensor
     * model and normalised, or zeroed when eaten.
     */
    method GetUpdatedBelief(belief: seq<Matrix>, evidences: seq<real>, pacman: Cell, ghostsEaten: seq<bool>)
      returns (r: Result<seq<Matrix>, GhostError>)
      requires MazeReady() && AllShaped(belief, walls.width, walls.height)
      requires |evidences| >= |belief| && |ghostsEaten| >= |belief|
      ensures FearFactor(ghostType).Failure? ==> r == Failure(FearFactor(ghostType).error)
      ensures FearFactor(ghostType).Success? ==>
        r == Success(UpdatedBeliefs(walls, n, FearFactor(ghostType).value, pacman, belief, evidences, ghostsEaten))
    {
      var model := TransitionModel(pacman);
      if model.Failure? {
        return Failure(model.error);
      }
      ghost var fear := FearFactor(ghostType).value;
      TensorOfEntries(model.value, walls, fear, pacman);
      var transitionModel := ToTensor(model.value);
      var newBeliefs := UpdatedBeliefsWith(transitionModel, fear, belief, evidences, pacman, ghostsEaten);
      r := Success(newBeliefs);
    }

    /** The per-ghost loop of the update, given the transition model. */
    method UpdatedBeliefsWith(transitionModel: Tensor, ghost fear: real, belief: seq<Matrix>, evidences: seq<real>,
                              pacman: Cell, ghostsEaten: seq<bool>) returns (newBeliefs: seq<Matrix>)
      requires MazeReady() && fear >= 1.0 && AllShaped(belief, walls.width, walls.height)
      requires |evidences| >= |belief| && |ghostsEaten| >= |belief|
      requires transitionModel == TransitionTensor(walls, fear, pacman)
      ensures newBeliefs == UpdatedBeliefs(walls, n, fear, pacman, belief, evidences, ghostsEaten)
    {
      newBeliefs := [];
      for i := 0 to |belief|
        invariant |newBeliefs| == i
        invariant newBeliefs == UpdatedBeliefs(walls, n, fear, pacman, belief, evidences, ghostsEaten)[..i]
      {
        var updated := NextBelief(transitionModel, fear, belief[i], evidences[i], pacman, ghostsEaten[i]);
        UpdatedBeliefAt(walls, n, fear, pacman, belief, evidences, ghostsEaten, i);
        PrefixExtend(UpdatedBeliefs(walls, n, fear, pacman, belief, evidences, ghostsEaten), newBeliefs, updated, i);
        newBeliefs := newBeliefs + [updated];
      }
    }

    /** One ghost's new belief: all-zero when it was eaten, the filtered belief otherwise. */
    method NextBelief(transitionModel: Tensor, ghost fear: real, prev: Matrix, evidence: real, pacman: Cell, eaten: bool)
      returns (updated: Matrix)
      requires MazeReady() && fear >= 1.0 && IsShape(prev, walls.width, walls.height)
      requires transitionModel == TransitionTensor(walls, fear, pacman)
      ensures updated == ForwardStep(walls, n, fear, pacman, prev, evidence, eaten)
    {
      if eaten {
        updated := Zeros(walls.width, walls.height);
      } else {
        updated := UpdatedGhostBelief(transitionModel, fear, prev, evidence, pacman);
      }
    }

    /** One ghost that was not eaten: predict, weight by the sensor model, normalise or recover. */
    method UpdatedGhostBelief(transitionModel: Tensor, ghost fear: real, prev: Matrix, evidence: real, pacman: Cell)
      returns (updated: Matrix)
      requires MazeReady() && fear >= 1.0 && IsShape(prev, walls.width, walls.height)
      requires transitionModel == TransitionTensor(walls, fear, pacman)
      ensures updated == ForwardStep(walls, n, fear, pacman, prev, evidence, false)
    {
      var width, height := walls.width, walls.height;
      var predicted := Predict(transitionModel, prev, width, height);
      var sensorModel := SensorModel(pacman, evidence);
      var unnormalised := Hadamard(ToMatrix(sensorModel), predicted, width, height);
      assert unnormalised == Unnormalised(walls, n, fear, pacman, prev, evidence);
      var s := SumMatrix(unnormalised);
      if s < Epsilon {
        updated := UniformOverOpen(walls);
      } else {
        updated := Divide(unnormalised, s, width, height);
      }
    }

    /** Updates the agent's beliefs with one tick's readings, and returns them. */
    method UpdateBeliefState(evidences: seq<real>, pacman: Cell, ghostsEaten: seq<bool>)
      returns (r: Result<seq<Matrix>, GhostError>)
      requires Valid()
      requires |evidences| >= |beliefGhostStates| && |ghostsEaten| >= |beliefGhostStates|
      modifies this
      ensures Valid()
      ensures FearFactor(ghostType).Failure? ==>
        r == Failure(FearFactor(ghostType).error) && beliefGhostStates == old(beliefGhostStates)
      ensures FearFactor(ghostType).Success? ==>
        && r == Success(UpdatedBeliefs(walls, n, FearFactor(ghostType).value, pacman, old(beliefGhostStates), evidences, ghostsEaten))
        && beliefGhostStates == r.value
    {
      r := GetUpdatedBelief(beliefGhostStates, evidences, pacman, ghostsEaten);
      if r.Success? {
        beliefGhostStates := r.value;
      }
    }
  }
}
