/**
 * The transition model: where a ghost at one cell may be one step later.
 * A ghost moves to one of its open N/S/E/W neighbours; a move that does not
 * bring it closer to Pacman is `fear` times as likely as one that does, and
 * a ghost with no open neighbour stays where it is.
 */
module Transition {
  import opened Wrappers
  import opened Sums
  import opened Maze

  datatype GhostError = UnknownGhostType(ghostType: string)

  /** The avoidance strength of each kind of ghost; any other kind is an error. */
  function FearFactor(ghostType: string): (r: Result<real, GhostError>)
    ensures r.Success? <==> ghostType == "confused" || ghostType == "afraid" || ghostType == "scared"
    ensures r.Success? ==> r.value >= 1.0
    ensures r.Failure? ==> r.error == UnknownGhostType(ghostType)
  {
    if ghostType == "confused" then Success(1.0)
    else if ghostType == "afraid" then Success(2.0)
    else if ghostType == "scared" then Success(8.0)
    else Failure(UnknownGhostType(ghostType))
  }

  /** The four moves, in the order the source tries them: N, S, E, W. */
  const Moves: seq<Cell> := [(0, 1), (0, -1), (1, 0), (-1, 0)]

  function Neighbours(c: Cell): (r: seq<Cell>)
    ensures |r| == 4 && Distinct(r)
    ensures forall x :: x in r <==> Manhattan(x, c) == 1
  {
    var r := seq(4, i requires 0 <= i < 4 => (c.0 + Moves[i].0, c.1 + Moves[i].1));
    assert forall x :: Manhattan(x, c) == 1 ==> x == r[0] || x == r[1] || x == r[2] || x == r[3];
    r
  }

  /** The open cells of `cs`, in order. */
  function OpenAmong(g: Grid, cs: seq<Cell>): (r: seq<Cell>)
    requires g.WellFormed()
    ensures forall x :: x in r <==> x in cs && g.IsOpen(x)
    ensures Distinct(cs) ==> Distinct(r)
    ensures |r| <= |cs|
  {
    if cs == [] then []
    else (if g.IsOpen(cs[0]) then [cs[0]] else []) + OpenAmong(g, cs[1..])
  }

  /** The legal successor positions of `c`: its open N/S/E/W neighbours, in that order. */
  function Successors(g: Grid, c: Cell): (r: seq<Cell>)
    requires g.WellFormed()
    ensures forall x :: x in r <==> g.IsOpen(x) && Manhattan(x, c) == 1
    ensures Distinct(r) && |r| <= 4
  {
    OpenAmong(g, Neighbours(c))
  }

  /** The raw weight of the move `src -> dst`: `fear` unless it brings the ghost closer to Pacman. */
  function Weight(fear: real, pacman: Cell, src: Cell, dst: Cell): real {
    if Manhattan(dst, pacman) >= Manhattan(src, pacman) then fear else 1.0
  }

  function Weights(fear: real, pacman: Cell, src: Cell, succ: seq<Cell>): seq<real> {
    seq(|succ|, i requires 0 <= i < |succ| => Weight(fear, pacman, src, succ[i]))
  }

  lemma TotalWeightPositive(fear: real, pacman: Cell, src: Cell, succ: seq<Cell>)
    requires fear >= 1.0 && |succ| > 0
    ensures SumSeq(Weights(fear, pacman, src, succ)) >= |succ| as real
  {
    var ws := Weights(fear, pacman, src, succ);
    var ones := seq(|succ|, i requires 0 <= i < |succ| => 1.0);
    var excess := seq(|succ|, i requires 0 <= i < |succ| => ws[i] - 1.0);
    SumSeqAdd(ones, excess, ws);
    SumSeqConstant(ones, 1.0);
    SumSeqNonNegative(excess);
  }

  /** `P(X_{t+1} = dst | X_t = src)`. */
  function TransProb(g: Grid, fear: real, pacman: Cell, dst: Cell, src: Cell): (r: real)
    requires g.WellFormed() && fear >= 1.0
    ensures r >= 0.0
  {
    if !g.IsOpen(src) then 0.0
    else
      var succ := Successors(g, src);
      if |succ| == 0 then (if dst == src then 1.0 else 0.0)
      else if dst in succ then
        TotalWeightPositive(fear, pacman, src, succ);
        Weight(fear, pacman, src, dst) / SumSeq(Weights(fear, pacman, src, succ))
      else 0.0
  }

  /** The probabilities of reaching `dst` from each source cell, indexed `[w][h]`. */
  function Inflow(g: Grid, fear: real, pacman: Cell, dst: Cell): (m: Matrix)
    requires g.WellFormed() && fear >= 1.0
    ensures IsShape(m, g.width, g.height)
  {
    seq(g.width, w requires 0 <= w < g.width =>
      seq(g.height, h requires 0 <= h < g.height => TransProb(g, fear, pacman, dst, (w, h))))
  }

  /** The whole model, indexed `[k][l][w][h]` for the move from `(w, h)` to `(k, l)`. */
  function TransitionTensor(g: Grid, fear: real, pacman: Cell): (t: Tensor)
    requires g.WellFormed() && fear >= 1.0
    ensures IsTensor(t, g.width, g.height)
  {
    seq(g.width, k requires 0 <= k < g.width =>
      seq(g.height, l requires 0 <= l < g.height => Inflow(g, fear, pacman, (k, l))))
  }

  /**
   * Mass leaves an origin only towards its open neighbours, and every open
   * neighbour gets some; an origin with no open neighbour keeps all of it;
   * a wall origin sends nothing.
   */
  lemma TransitionSupport(g: Grid, fear: real, pacman: Cell, dst: Cell, src: Cell)
    requires g.WellFormed() && fear >= 1.0
    ensures TransProb(g, fear, pacman, dst, src) > 0.0 <==>
      g.IsOpen(src) && (dst in Successors(g, src) || (Successors(g, src) == [] && dst == src))
    ensures Successors(g, src) == [] && g.IsOpen(src) ==> TransProb(g, fear, pacman, src, src) == 1.0
    ensures TransProb(g, fear, pacman, dst, src) > 0.0 ==> g.IsOpen(dst)
  {
    var succ := Successors(g, src);
    if g.IsOpen(src) && dst in succ {
      TotalWeightPositive(fear, pacman, src, succ);
    }
  }

  lemma ColumnEntries(g: Grid, fear: real, pacman: Cell, w: nat, h: nat)
    requires g.WellFormed() && fear >= 1.0 && w < g.width && h < g.height
    ensures forall k, l :: 0 <= k < g.width && 0 <= l < g.height ==>
      Column(TransitionTensor(g, fear, pacman), g.width, g.height, w, h)[k][l] == TransProb(g, fear, pacman, (k, l), (w, h))
  {
  }

  lemma ColumnEntryAt(g: Grid, fear: real, pacman: Cell, w: nat, h: nat, dst: Cell)
    requires g.WellFormed() && fear >= 1.0 && w < g.width && h < g.height
    requires 0 <= dst.0 < g.width && 0 <= dst.1 < g.height
    ensures Column(TransitionTensor(g, fear, pacman), g.width, g.height, w, h)[dst.0][dst.1] == TransProb(g, fear, pacman, dst, (w, h))
  {
  }

  lemma TrappedColumnSum(g: Grid, fear: real, pacman: Cell, w: nat, h: nat)
    requires g.WellFormed() && fear >= 1.0 && w < g.width && h < g.height
    requires g.IsOpen((w, h)) && Successors(g, (w, h)) == []
    ensures SumMatrix(Column(TransitionTensor(g, fear, pacman), g.width, g.height, w, h)) == 1.0
  {
    var col := Column(TransitionTensor(g, fear, pacman), g.width, g.height, w, h);
    ColumnEntries(g, fear, pacman, w, h);
    forall k, l | 0 <= k < g.width && 0 <= l < g.height
      ensures col[k][l] == if k == w && l == h then 1.0 else 0.0
    {
      TrappedTransProb(g, fear, pacman, (k, l), (w, h));
    }
    SumMatrixSingle(col, w, h, g.width, g.height);
  }

  lemma TrappedTransProb(g: Grid, fear: real, pacman: Cell, dst: Cell, src: Cell)
    requires g.WellFormed() && fear >= 1.0
    requires g.IsOpen(src) && Successors(g, src) == []
    ensures TransProb(g, fear, pacman, dst, src) == if dst == src then 1.0 else 0.0
  {
  }

  /** Weights divided by their total sum to 1 (`util.Counter.normalize`). */
  lemma NormalisedWeightsSumToOne(ws: seq<real>, total: real, probs: seq<real>)
    requires total == SumSeq(ws) && total > 0.0 && |probs| == |ws|
    requires forall i :: 0 <= i < |ws| ==> probs[i] == ws[i] / total
    ensures SumSeq(probs) == 1.0
  {
    SumSeqDivide(ws, probs, total);
    QuotientSelf(total);
  }

  lemma SuccessorsInBounds(g: Grid, c: Cell)
    requires g.WellFormed()
    ensures forall i :: 0 <= i < |Successors(g, c)| ==>
      0 <= Successors(g, c)[i].0 < g.width && 0 <= Successors(g, c)[i].1 < g.height
  {
    var succ := Successors(g, c);
    forall i | 0 <= i < |succ| ensures 0 <= succ[i].0 < g.width && 0 <= succ[i].1 < g.height {
      assert g.IsOpen(succ[i]);
    }
  }

  lemma TransProbOutside(g: Grid, fear: real, pacman: Cell, dst: Cell, src: Cell)
    requires g.WellFormed() && fear >= 1.0
    requires g.IsOpen(src) && Successors(g, src) != [] && dst !in Successors(g, src)
    ensures TransProb(g, fear, pacman, dst, src) == 0.0
  {
  }

  lemma ColumnOffSuccessors(g: Grid, fear: real, pacman: Cell, w: nat, h: nat)
    requires g.WellFormed() && fear >= 1.0 && w < g.width && h < g.height
    requires g.IsOpen((w, h)) && Successors(g, (w, h)) != []
    ensures forall k, l :: 0 <= k < g.width && 0 <= l < g.height && (k, l) !in Successors(g, (w, h)) ==>
      Column(TransitionTensor(g, fear, pacman), g.width, g.height, w, h)[k][l] == 0.0
  {
    ColumnEntries(g, fear, pacman, w, h);
    forall k, l | 0 <= k < g.width && 0 <= l < g.height && (k, l) !in Successors(g, (w, h))
      ensures Column(TransitionTensor(g, fear, pacman), g.width, g.height, w, h)[k][l] == 0.0
    {
      TransProbOutside(g, fear, pacman, (k, l), (w, h));
    }
  }

  lemma ColumnAtSuccessors(g: Grid, fear: real, pacman: Cell, w: nat, h: nat, probs: seq<real>)
    requires g.WellFormed() && fear >= 1.0 && w < g.width && h < g.height
    requires |probs| == |Successors(g, (w, h))|
    requires forall i :: 0 <= i < |probs| ==> probs[i] == TransProb(g, fear, pacman, Successors(g, (w, h))[i], (w, h))
    ensures forall i :: 0 <= i < |probs| ==> 0 <= Successors(g, (w, h))[i].0 < g.width && 0 <= Successors(g, (w, h))[i].1 < g.height
    ensures forall i :: 0 <= i < |probs| ==>
      probs[i] == Column(TransitionTensor(g, fear, pacman), g.width, g.height, w, h)[Successors(g, (w, h))[i].0][Successors(g, (w, h))[i].1]
  {
    var col := Column(TransitionTensor(g, fear, pacman), g.width, g.height, w, h);
    var succ := Successors(g, (w, h));
    SuccessorsInBounds(g, (w, h));
    forall i | 0 <= i < |succ| ensures probs[i] == col[succ[i].0][succ[i].1] {
      ColumnEntryAt(g, fear, pacman, w, h, succ[i]);
    }
  }

  lemma MovingColumnIsSparse(g: Grid, fear: real, pacman: Cell, w: nat, h: nat, probs: seq<real>)
    requires g.WellFormed() && fear >= 1.0 && w < g.width && h < g.height
    requires g.IsOpen((w, h)) && Successors(g, (w, h)) != []
    requires |probs| == |Successors(g, (w, h))|
    requires forall i :: 0 <= i < |probs| ==> probs[i] == TransProb(g, fear, pacman, Successors(g, (w, h))[i], (w, h))
    ensures SumMatrix(Column(TransitionTensor(g, fear, pacman), g.width, g.height, w, h)) == SumSeq(probs)
  {
    var col := Column(TransitionTensor(g, fear, pacman), g.width, g.height, w, h);
    var succ := Successors(g, (w, h));
    ColumnOffSuccessors(g, fear, pacman, w, h);
    ColumnAtSuccessors(g, fear, pacman, w, h, probs);
    assert Distinct(succ);
    SumMatrixSparse(col, succ, probs, g.width, g.height);
  }

  lemma TransProbAtSuccessor(g: Grid, fear: real, pacman: Cell, src: Cell, i: nat)
    requires g.WellFormed() && fear >= 1.0 && g.IsOpen(src) && i < |Successors(g, src)|
    ensures SumSeq(Weights(fear, pacman, src, Successors(g, src))) > 0.0
    ensures TransProb(g, fear, pacman, Successors(g, src)[i], src)
         == Weights(fear, pacman, src, Successors(g, src))[i] / SumSeq(Weights(fear, pacman, src, Successors(g, src)))
  {
    TotalWeightPositive(fear, pacman, src, Successors(g, src));
  }

  lemma MovingColumnSum(g: Grid, fear: real, pacman: Cell, w: nat, h: nat)
    requires g.WellFormed() && fear >= 1.0 && w < g.width && h < g.height
    requires g.IsOpen((w, h)) && Successors(g, (w, h)) != []
    ensures SumMatrix(Column(TransitionTensor(g, fear, pacman), g.width, g.height, w, h)) == 1.0
  {
    var src := (w, h);
    var succ := Successors(g, src);
    var probs := seq(|succ|, i requires 0 <= i < |succ| => TransProb(g, fear, pacman, succ[i], src));
    MovingColumnIsSparse(g, fear, pacman, w, h, probs);
    var ws := Weights(fear, pacman, src, succ);
    TotalWeightPositive(fear, pacman, src, succ);
    forall i | 0 <= i < |succ| ensures probs[i] == ws[i] / SumSeq(ws) {
      TransProbAtSuccessor(g, fear, pacman, src, i);
    }
    NormalisedWeightsSumToOne(ws, SumSeq(ws), probs);
  }

  /**
   * From each open origin the probabilities over destinations sum to
   * exactly 1; from a wall they are all 0.
   */
  lemma TransitionColumnSumsToOne(g: Grid, fear: real, pacman: Cell, w: nat, h: nat)
    requires g.WellFormed() && fear >= 1.0 && w < g.width && h < g.height
    ensures g.IsOpen((w, h)) ==> SumMatrix(Column(TransitionTensor(g, fear, pacman), g.width, g.height, w, h)) == 1.0
    ensures !g.IsOpen((w, h)) ==> forall k, l :: 0 <= k < g.width && 0 <= l < g.height ==>
      TransitionTensor(g, fear, pacman)[k][l][w][h] == 0.0
  {
    if g.IsOpen((w, h)) {
      if Successors(g, (w, h)) == [] {
        TrappedColumnSum(g, fear, pacman, w, h);
      } else {
        MovingColumnSum(g, fear, pacman, w, h);
      }
    }
  }

  /**
   * From one origin, a move that does not bring the ghost closer to Pacman
   * is exactly `fear` times as likely as one that does.
   */
  lemma TransitionFearRatio(g: Grid, fear: real, pacman: Cell, src: Cell, away: Cell, toward: Cell)
    requires g.WellFormed() && fear >= 1.0 && g.IsOpen(src)
    requires away in Successors(g, src) && toward in Successors(g, src)
    requires Manhattan(away, pacman) >= Manhattan(src, pacman) > Manhattan(toward, pacman)
    ensures TransProb(g, fear, pacman, away, src) == fear * TransProb(g, fear, pacman, toward, src)
  {
    TotalWeightPositive(fear, pacman, src, Successors(g, src));
  }

  /** A confused ghost (`fear == 1`) picks each of its `m` successors with probability `1 / m`. */
  lemma ConfusedGhostUniform(g: Grid, pacman: Cell, src: Cell, dst: Cell)
    requires g.WellFormed() && g.IsOpen(src)
    requires dst in Successors(g, src)
    ensures TransProb(g, FearFactor("confused").value, pacman, dst, src) == 1.0 / |Successors(g, src)| as real
  {
    assert FearFactor("confused").value == 1.0;
    var succ := Successors(g, src);
    var ws := Weights(1.0, pacman, src, succ);
    SumSeqConstant(ws, 1.0);
  }
}
