# Bayes forward filter of the Pacman belief-state agent

This project models the ghost-tracking core of `project2/bayesfilter.py`, the
class `BeliefStateAgent`. Pacman cannot see the ghosts. Each tick it receives a
noisy Manhattan distance to each ghost. The agent keeps one belief per ghost:
a `width x height` matrix of probabilities over maze cells. It advances each
belief with a discrete Bayes (HMM) forward step:

- **predict** with the ghosts' transition model;
- **weight** by the sensor model of the new reading;
- **normalise**;
- **recover** to the uniform belief over legal cells when the reading is
  impossible;
- **zero** the belief of a ghost that has been eaten.

Probabilities are exact `real`s, so "sums to 1" is proved exactly.

The modules follow the source's structure:

- `sums.dfy` (`Sums`): matrices (`[w][h]`) and 4-index tensors
  (`[k][l][w][h]`, numpy's layout of `T[dest, src]`). It holds their sums,
  how sums behave under scaling, division and addition, and summing a tensor
  by destination or by source.
- `maze.dfy` (`Maze`): the wall grid, `util.manhattanDistance`, the number of
  legal cells `width * height - sum(walls)`, and the uniform belief over legal
  cells.
- `binomial.dfy` (`Binomial`): `n = int(variance / (p (1 - p)))` with
  `p = 0.5`, and the binomial pmf at `p = 1/2`. The pmf is written exactly as
  `C(n, k) / 2^n` when `k` is an integer in `[0, n]`, and 0 otherwise.
- `sensor.dfy` (`Sensor`): the sensor surface that `_get_sensor_model`
  computes, with its fallback to uniform.
- `transition.dfy` (`Transition`): the fear factor of each ghost type, the
  legal N/S/E/W successors, the move weights, and the transition tensor that
  `_get_transition_model` computes.
- `forward.dfy` (`Forward`): the prediction
  (`np.einsum('klwh,wh->kl', T, b)`), the elementwise product and quotient,
  the per-ghost step of `_get_updated_belief`, and the list of new beliefs.
- `agent.dfy` (`Agent`): the class `BeliefStateAgent`. Its methods fill the
  sensor model (an `array2`) and the transition model (an `array4`) in place,
  in the source's nested loops. The per-ghost loop appends one belief per
  ghost, and `UpdateBeliefState` overwrites the field `beliefGhostStates`.
  Each method is proved equal to the specification function of the modules
  above. The properties are proved about those functions.

Code facts the model follows:

- `n` is truncated toward zero: `int(...)` at `project2/bayesfilter.py:37`
  does not round, and the model follows the code.
- The neighbour loop (`project2/bayesfilter.py:126-129`) does no bounds
  check, and a Python index of -1 would wrap to the far side of the maze.
  Every method therefore requires that the maze be framed by walls
  (`Maze.Grid.BorderWalled`): every open cell is interior. This is an
  assumption of the model about the mazes it is given.
- A ghost type other than `confused`, `afraid` or `scared` raises
  `ValueError`. The model returns `Failure(UnknownGhostType(type))` from the
  transition model, the per-ghost update and `UpdateBeliefState`, and the
  agent's beliefs are left unchanged.

## Model

| member | source | states |
|---|---|---|
| `Binomial.NumTrials` | project2/bayesfilter.py:36-37 | `n` is `variance / (p (1 - p))` truncated toward zero with `p = 1/2`: for a non-negative variance, `0 <= n <= 4 variance < n + 1` |
| `Binomial.PmfSumsToOne` | project2/bayesfilter.py:71 | the pmf `binom.pmf(k, n, 1/2)` summed over `k = 0 .. n` is exactly 1 |
| `Binomial.PmfPositiveIff` | project2/bayesfilter.py:71 | the pmf is positive exactly when `k` is an integer in `[0, n]`, and it never exceeds 1 |
| `Binomial.PmfSymmetric` | project2/bayesfilter.py:36 | with `p = 1/2` the pmf is symmetric: `pmf(k) == pmf(n - k)`, so the sensor noise `k - n p` is centred |
| `Maze.NumLegalCountsOpenCells` | project2/bayesfilter.py:79 | `width * height - sum(walls)` equals the number of open cells; it is non-negative, and positive exactly when some cell is open |
| `Maze.UniformSumsToOne` | project2/bayesfilter.py:79-85 | the uniform belief is `1 / num_legal` on every open cell, 0 on walls, and sums to 1 when a cell is open (to 0 when none is) |
| `Sensor.LikelihoodPositiveIff` | project2/bayesfilter.py:65-71 | a cell's likelihood is positive exactly when the reading equals its distance to Pacman plus `j - n p` for some `j` in `0 .. n`; it is at most 1 |
| `Sensor.LikelihoodSumsToOne` | project2/bayesfilter.py:65-71 | for a fixed cell, the likelihoods of the `n + 1` possible readings sum to 1 |
| `Sensor.RawSurfaceZeroIff` | project2/bayesfilter.py:62-77 | the likelihoods before the fallback sum to 0 exactly when no open cell explains the reading |
| `Sensor.SurfaceIsLikelihood` | project2/bayesfilter.py:62-72 | when some open cell explains the reading, the sensor model at every open cell is that cell's likelihood (no fallback) |
| `Sensor.SurfaceFallsBackToUniform` | project2/bayesfilter.py:77-85 | when no open cell explains the reading and a cell is open, the sensor model is the uniform surface `1 / num_legal` on open cells |
| `Sensor.SurfaceNeverZero` | project2/bayesfilter.py:74-85 | while some cell is open, the sensor model never sums to 0 |
| `Transition.FearFactor` | project2/bayesfilter.py:108-115 | succeeds exactly for `confused`, `afraid` and `scared`, with a factor of at least 1; any other type fails with an error naming that type |
| `Transition.Neighbours` | project2/bayesfilter.py:126-127 | the four tried moves are distinct and are exactly the cells at Manhattan distance 1 |
| `Transition.Successors` | project2/bayesfilter.py:123-129 | a cell is a successor exactly when it is open and adjacent; successors are distinct and at most four |
| `Transition.TotalWeightPositive` | project2/bayesfilter.py:142-154 | the weights of a non-empty successor list total at least their number, so normalising never divides by zero |
| `Transition.TransitionSupport` | project2/bayesfilter.py:118-158 | a move has positive probability exactly when its origin is open and it reaches a successor, or the origin has none and the ghost stays; a trapped ghost stays with probability 1; mass only lands on open cells |
| `Transition.TransitionColumnSumsToOne` | project2/bayesfilter.py:118-158 | from every open origin the probabilities over all destinations sum to exactly 1; from a wall every probability is 0 |
| `Transition.TransitionFearRatio` | project2/bayesfilter.py:139-154 | from one origin, a successor that is not closer to Pacman has exactly `fear` times the probability of one that is closer |
| `Transition.ConfusedGhostUniform` | project2/bayesfilter.py:108-154 | with the confused factor 1, every successor has probability `1 / |successors|` |
| `Forward.PredictPreservesMass` | project2/bayesfilter.py:206-207 | prediction keeps the total mass of a belief that is 0 on walls |
| `Forward.PredictSupport` | project2/bayesfilter.py:206-207 | the prediction is 0 on every wall, and non-negative when the previous belief is |
| `Forward.PredictKeepsMass` | project2/bayesfilter.py:206-207 | for any tensor whose columns carrying mass sum to 1, the contraction `einsum('klwh,wh->kl')` keeps total mass |
| `Forward.EatenGhostZeroed` | project2/bayesfilter.py:197-200 | an eaten ghost's new belief is 0 everywhere, whatever its reading and previous belief |
| `Forward.NormalisedIsDistribution` | project2/bayesfilter.py:215-228 | dividing by a mass of at least `1e-9` gives entries proportional to the unnormalised ones (`r * s == u`) that sum to 1, are 0 on walls, and are non-negative when the input is |
| `Forward.ForwardNormalises` | project2/bayesfilter.py:204-228 | with unnormalised mass `s >= 1e-9`, the new belief is (sensor x prediction) normalised: it sums to 1, is 0 on walls, and is a distribution when the previous belief is non-negative |
| `Forward.ForwardRecovers` | project2/bayesfilter.py:216-225 | with mass below `1e-9`, the new belief is the uniform belief: `1 / num_legal` on open cells, 0 on walls, a distribution when a cell is open |
| `Forward.ForwardIsDistribution` | project2/bayesfilter.py:202-230 | while a cell is open, every non-eaten ghost's new belief sums to 1 and is 0 on walls, whatever branch is taken |
| `Forward.UpdatedBeliefsInvariant` | project2/bayesfilter.py:190-232 | over the whole list: eaten ghosts get the zero matrix; while a cell is open, every other ghost's new belief sums to 1, is 0 on walls, and is a distribution when its previous belief was non-negative |
| `Agent.BeliefStateAgent.constructor` | project2/bayesfilter.py:32-37 | stores the ghost type and variance, sets `n` to the truncated trial count, and takes the walls and prior beliefs |
| `Agent.BeliefStateAgent.SensorModel` | project2/bayesfilter.py:59-87 | the filled array is exactly the sensor surface: the likelihoods, or the uniform fallback |
| `Agent.BeliefStateAgent.FillLikelihoods` | project2/bayesfilter.py:62-72 | the nested loops leave the likelihood of the reading at every open cell and 0 at every wall |
| `Agent.BeliefStateAgent.FillUniform` | project2/bayesfilter.py:82-85 | writes the uniform share on every open cell and leaves walls untouched |
| `Agent.BeliefStateAgent.LegalSuccessors` | project2/bayesfilter.py:125-129 | the list built by trying N, S, E, W is exactly the legal successor list |
| `Agent.BeliefStateAgent.MoveWeights` | project2/bayesfilter.py:139-152 | each successor gets `fear` when it is not closer to Pacman and 1 otherwise |
| `Agent.BeliefStateAgent.WriteNormalised` | project2/bayesfilter.py:154-158 | each successor's entry in the origin's column is its weight divided by the total; the rest of the column stays 0 and other columns are unchanged |
| `Agent.BeliefStateAgent.FillColumn` | project2/bayesfilter.py:123-158 | fills one open origin's column with its transition distribution, including the trapped self-loop, and changes nothing else |
| `Agent.BeliefStateAgent.FillOrigins` | project2/bayesfilter.py:119-158 | fills the columns of one row of origins and changes no other column |
| `Agent.BeliefStateAgent.FillTransitions` | project2/bayesfilter.py:118-158 | the zero-initialised array ends holding every transition probability |
| `Agent.BeliefStateAgent.TransitionModel` | project2/bayesfilter.py:103-160 | fails for an unknown ghost type; otherwise returns a fresh array equal entry by entry to the transition tensor |
| `Agent.BeliefStateAgent.UpdatedGhostBelief` | project2/bayesfilter.py:202-228 | predict, weight by a freshly computed sensor model, and normalise or recover give exactly the forward step |
| `Agent.BeliefStateAgent.NextBelief` | project2/bayesfilter.py:197-230 | one ghost's new belief is the forward step, the zero matrix when eaten |
| `Agent.BeliefStateAgent.UpdatedBeliefsWith` | project2/bayesfilter.py:196-230 | the appending loop yields one forward step per ghost, in order |
| `Agent.BeliefStateAgent.GetUpdatedBelief` | project2/bayesfilter.py:188-232 | fails for an unknown ghost type, even with no ghosts; otherwise returns exactly the list of forward steps of every ghost |
| `Agent.BeliefStateAgent.UpdateBeliefState` | project2/bayesfilter.py:260-263 | on success stores exactly the returned list in `beliefGhostStates`; on failure leaves it unchanged; the agent stays valid |

## Left out

- `_get_evidence` (`project2/bayesfilter.py:265-293`) samples readings with `binom.rvs`. Randomness is not modelled: readings are inputs.
- `_record_metrics` (`project2/bayesfilter.py:295-353`) is floating-point bookkeeping (entropy with `log2`, argmax), not part of the filter.
- `get_action` (`project2/bayesfilter.py:355-385`) is glue to the game engine, which is not part of this model. Its lazy initialisation of `walls` and `beliefGhostStates` is folded into the constructor, which takes both as arguments. The `args` namespace is replaced by the ghost type and the variance themselves, and the `metrics` list is not kept.
- Floating point: probabilities are exact reals. The `1e-9` threshold is the named constant `Forward.Epsilon`, compared exactly. Rounding, underflow and the exact-zero test in `np.sum(sensor_model) == 0` on floats are not modelled.
- `scipy.stats.binom.pmf` is replaced by its exact value at `p = 1/2`. numpy's `zeros`, `sum`, `einsum`, elementwise product and quotient are modelled by the functions of `Sums` and `Forward`.
- `util.Counter` and `util.manhattanDistance` are not part of this model. `Counter.normalize` is modelled as dividing each weight by the total of the weights, which is positive. `manhattanDistance` is modelled as `Maze.Manhattan` on integer cells.
- Every method requires a maze framed by walls, because the source's neighbour lookup does no bounds check (see above).
- The constructor requires `NumTrials(sensorVariance) >= 0`. A variance of -0.25 or below gives a negative `n`, which the source would pass to `binom.pmf`; a variance in (-0.25, 0) truncates to `n = 0` and is admitted.
- `GetUpdatedBelief` and `UpdateBeliefState` require every belief to be `width x height` and at least as many readings and eaten flags as beliefs. The source reads a ghost's reading and previous belief only when the ghost is not eaten (`project2/bayesfilter.py:197-210`), so it also accepts a short reading list or a misshaped belief when the missing or misshaped ghosts are eaten; the model does not cover those inputs. Its one caller (`project2/bayesfilter.py:379-382`) passes one reading and one eaten flag per ghost.
- `project2/run_experiments.py`, `project2/pacmanagent.py`, `project1/minimax.py` and `project1/hminimax.py` are outside the filter and are not modelled.
- Python object identity is not modelled: the new beliefs are values, and nothing else aliases them.
