# Q-learning Mario agent: value table, state features and state abstraction

A Dafny model of the learning core of the MarioAI 2009 agent:

- `Actions` (`actions.dfy`) covers the agent's twelve constant button arrays.
  - Each array is a reference (`Field(name)`), or the fresh all-false array that the greedy search starts from (`Fresh`).
  - Each has the button pattern that `initiateValues` sets.
  - They appear in the order `getAllActions` lists them.
- `QLearnAgent` (`qlearn_agent.dfy`) models the tabular Q-learning of `QLearnAgent`:
  - the state-action value table, where a missing pair reads as the optimistic default 20;
  - the greedy search, which starts from a fresh array with value 0 and is replaced only by a strictly greater value;
  - the best next value;
  - the update `oldQ + 0.3 * (reward + 0.9 * bestQ - oldQ)`;
  - epsilon-greedy exploration, which removes the greedy array by reference and picks among the rest.
- `MarioStates` (`mario_state.dfy`) models the feature and reward extractor of `MarioState`:
  - the 76-entry representation: a 6×6 scene window, a 6×6 enemy window and four status entries;
  - the static kill, mode and collision bookkeeping, modelled as an explicit `Statics` record that each call takes and returns;
  - the reward;
  - the constructors, `clone`, `equals`, `reset` and `resetStatic`.
- `StateSpaceReduction` (`pca_means.dfy`) models the state-abstraction cache of `PCAMeans`:
  - training, in its two modes: every projection its own mean, or the means of given clusters;
  - the memoising lookup from a sample to the index of its nearest mean, and to that mean itself;
  - the array-conversion helpers.
- `Results` (`results.dfy`) holds `Option` and `Result`; `Sequences` (`sequences.dfy`) holds the first-occurrence search that `indexOf` and `remove` share.

The model takes four things as parameters:
- the learned states are a type parameter, compared by value as the agent's state-action keys are;
- the random draws of `eGreedyAction` are two arguments, a coin in [0, 1) and an index;
- the PCA projection, the clustering and the nearest-neighbour search are function and sequence arguments;
- the engine's observation is a record.

Numbers are unbounded `real`s and `int`s.

## Model

| member | source | states |
|---|---|---|
| Actions.ActionPatterns | MarioAI2009/src/UvA/agents/QLearnAgent.java:215-228 | the twelve listed actions are named constant arrays. Their button patterns are pairwise distinct and never press down or left and right together. STAY presses what a fresh array presses. Positions 3-6 press left, 8-11 press right, positions 1, 5, 6, 7, 10 and 11 jump, and positions 2, 4, 6, 7, 9 and 11 press speed. |
| Actions.EveryPermittedPatternListed | MarioAI2009/src/UvA/agents/QLearnAgent.java:237-256 | a button pattern is permitted (no down, not left and right together) if and only if some listed action presses it. |
| Actions.AllActions | MarioAI2009/src/UvA/agents/QLearnAgent.java:237-256 | the list holds the twelve arrays `getAllActions` adds, in that order, and never a fresh array. `ActionPatterns` states which buttons each position presses, and `EveryPermittedPatternListed` that the twelve positions cover every permitted pattern. |
| Actions.ValidActions | MarioAI2009/src/UvA/agents/QLearnAgent.java:188-193 | a copy of the full action list, in the same order. |
| QLearnAgent.Value | MarioAI2009/src/UvA/agents/QLearnAgent.java:179-182 | a stored pair reads its stored value; any other pair reads the initial value 20. |
| QLearnAgent.Scan | MarioAI2009/src/UvA/agents/QLearnAgent.java:113-126 | the running best over an action list is never negative and bounds every action's value. When some action beats 0, it is the first action in list order that attains the maximum. Otherwise it is the fresh array with value 0. |
| QLearnAgent.GreedyIsFirstBest | MarioAI2009/src/UvA/agents/QLearnAgent.java:108-126 | if no action is worth more than 0, the greedy action is the fresh array, not STAY. Otherwise it is the first listed action with the maximum value. |
| QLearnAgent.BestQIsMax | MarioAI2009/src/UvA/agents/QLearnAgent.java:149-160 | the best next value is the maximum of 0 and all twelve action values. |
| QLearnAgent.Learn | MarioAI2009/src/UvA/agents/QLearnAgent.java:164-167 | the updated value's distance to the target `reward + 0.9 * bestQ` is 0.7 times the old distance. It lies between the old value and the target. |
| QLearnAgent.UpdateQValueWrites | MarioAI2009/src/UvA/agents/QLearnAgent.java:144-170 | only the pair (old state, returned action) is written, and it is added if missing. Its new value is the rule applied to its old value (or the default) and the best value of the current state. |
| QLearnAgent.RemoveFirst | MarioAI2009/src/UvA/agents/QLearnAgent.java:131-132 | removing a reference that is present drops its first occurrence and keeps the elements before and after it in order, so the list is one shorter; removing an absent one changes nothing. |
| QLearnAgent.RemoveFirstOfDistinct | MarioAI2009/src/UvA/agents/QLearnAgent.java:131-132 | in a list without repeats, the removed reference no longer occurs, every other element stays, and nothing new appears. |
| QLearnAgent.CandidatesExcludeGreedy | MarioAI2009/src/UvA/agents/QLearnAgent.java:129-134 | an action is an exploration candidate if and only if it is listed and is not the greedy reference. The candidates are the other 11 actions, or all 12 when the greedy action is the fresh array. |
| QLearnAgent.EGreedyAction | MarioAI2009/src/UvA/agents/QLearnAgent.java:108-137 | a coin at or above epsilon returns the greedy action. A coin below epsilon returns one of the twelve listed actions that is not the greedy reference. |
| QLearnAgent.EpsilonBounds | MarioAI2009/src/UvA/agents/QLearnAgent.java:129-137 | for every coin in [0, 1) and every legal index draw (up to 11 or 12 candidates), epsilon 0 always returns the greedy action and epsilon 1 never does. |
| QLearnAgent.ExplorationMayRepeatGreedyButtons | MarioAI2009/src/UvA/agents/QLearnAgent.java:112-134 | when nothing beats 0, exploring can return STAY, whose key is the same as the greedy fresh array's. Excluding by reference does not exclude the greedy buttons. |
| QLearnAgent.UnseenStateGreedyIsStay | MarioAI2009/src/UvA/agents/QLearnAgent.java:113-126 | in a state with no stored pair, STAY is greedy and the best value is the default 20. |
| QLearnAgent.ContractedShrinks | MarioAI2009/src/UvA/agents/QLearnAgent.java:167 | each further update strictly reduces a nonzero distance to the target, and the distance never reaches zero. |
| QLearnAgent.LearnNConverges | MarioAI2009/src/UvA/agents/QLearnAgent.java:164-169 | after n updates towards a fixed target, the distance to it is the initial distance scaled by 0.7 per update. |
| QLearnAgent.ScanFrame | MarioAI2009/src/UvA/agents/QLearnAgent.java:154-160 | the greedy and best-value search over a state depends only on that state's entries. |
| QLearnAgent.UpdateFrame | MarioAI2009/src/UvA/agents/QLearnAgent.java:163-169 | one update out of one state leaves every entry of another state unchanged. |
| QLearnAgent.RepeatedUpdateFrame | MarioAI2009/src/UvA/agents/QLearnAgent.java:163-169 | repeating a transition out of one state leaves every entry of another state unchanged. |
| QLearnAgent.RepeatedUpdateKeepsBestQ | MarioAI2009/src/UvA/agents/QLearnAgent.java:149-169 | repeating a transition out of one state keeps the best value of another. |
| QLearnAgent.UpdatedValue | MarioAI2009/src/UvA/agents/QLearnAgent.java:163-169 | after one update, the updated pair holds the rule's value for its old value and the next state's best value. |
| QLearnAgent.RepeatedUpdateStep | MarioAI2009/src/UvA/agents/QLearnAgent.java:144-170 | the n-th repetition of a transition into a different state applies the rule once more, towards that state's original best value. |
| QLearnAgent.RepeatedUpdateValue | MarioAI2009/src/UvA/agents/QLearnAgent.java:144-170 | after n repetitions of a transition into a different state, the updated entry equals the rule iterated n times towards a fixed target. |
| QLearnAgent.RepeatedUpdateConverges | MarioAI2009/src/UvA/agents/QLearnAgent.java:144-170 | repeating a transition into a different state keeps that state's best value. The distance of the updated entry to the fixed target is the initial distance scaled by 0.7 per repetition. |
| MarioStates.Probe | MarioAI2009/src/UvA/states/MarioState.java:148-153 | the probe is 0 or 1, and it is 1 exactly when the grid cell at the offset from Mario's cell is nonzero. |
| MarioStates.WindowProbes | MarioAI2009/src/UvA/states/MarioState.java:81-88 | the window holds 36 probes, and offset (i, j) is at position (i + 3) * 6 + (j + 3). |
| MarioStates.Representation | MarioAI2009/src/UvA/states/MarioState.java:76-100 | 76 entries: the scene window, then the enemy window, then the mode, may-jump, on-ground and can-shoot. |
| MarioStates.WindowEntriesBinary | MarioAI2009/src/UvA/states/MarioState.java:81-95 | every one of the first 72 entries is 0 or 1. |
| MarioStates.UpdateStatics | MarioAI2009/src/UvA/states/MarioState.java:106-121 | each step's kills are the counter minus the running total, and the totals take the counters. `collided` is 1 exactly when the mode falls below `lastMarioMode`, which follows the mode down and never up. |
| MarioStates.FromEnvironment | MarioAI2009/src/UvA/states/MarioState.java:55-60 | `oldXPos` is always the given x. With an environment, the representation, x, the falling flag and the statics come from it. Without one, the state is zeros at x 32 and the statics are untouched. |
| MarioStates.FromRepresentation | MarioAI2009/src/UvA/states/MarioState.java:66-70 | the entries and the old x are copied; x keeps its initial 32. |
| MarioStates.Equals | MarioAI2009/src/UvA/states/MarioState.java:200-214 | two states are equal exactly when their representations have the same length and entries; null is never equal. |
| MarioStates.Clone | MarioAI2009/src/UvA/states/MarioState.java:160-162 | the clone equals the original in both directions and keeps its old x. |
| MarioStates.EqualsIsEquivalence | MarioAI2009/src/UvA/states/MarioState.java:200-214 | equality of states is reflexive, symmetric and transitive. |
| MarioStates.Reset | MarioAI2009/src/UvA/states/MarioState.java:167-170 | every entry becomes 0, and the length and the positions stay. |
| MarioStates.ResetStatic | MarioAI2009/src/UvA/states/MarioState.java:172-183 | all kill counters, `collided` and the reward total are 0, and both modes are the given mode. |
| MarioStates.FirstStepAfterReset | MarioAI2009/src/UvA/states/MarioState.java:106-121 | after a reset, a step's kills are the engine's counters, and it is a collision exactly when the mode is below the reset mode. |
| MarioStates.GetReward | MarioAI2009/src/UvA/states/MarioState.java:128-138 | a falling state is worth -1000. Any other state is worth its x progress plus one per fire or shell kill, minus 50 on a collision, minus 0.5. |
| MarioStates.PlainStepReward | MarioAI2009/src/UvA/states/MarioState.java:133-138 | a step without kills is worth its progress minus 0.5, or 50 less on a collision. |
| MarioStates.StepReward | MarioAI2009/src/UvA/states/MarioState.java:102-137 | a state built from an observation is worth -1000 when the observation is below height 225. Otherwise it is worth its progress from the given x, plus the fire and shell kills since the previous totals, minus 50 when the mode dropped below the lowest mode so far, minus 0.5. |
| MarioStates.RunInvariants | MarioAI2009/src/UvA/states/MarioState.java:106-121 | over any run of steps, `lastMarioMode` is the lowest mode seen, and a step is a collision exactly when it sets a new low. For stomp, fire and shell kills alike, the step kills add up to the growth of the engine's counter. |
| MarioStates.FirstStepFromInitialStatics | MarioAI2009/src/UvA/states/MarioState.java:25-36 | from the static fields' initial values, a first step is a collision exactly when its mode is below 2, and its kills are the engine's counters. |
| MarioStates.PowerUpThenHitIsNoCollision | MarioAI2009/src/UvA/states/MarioState.java:115-121 | from mode 0, a power-up to mode 1 followed by a hit back to 0 is not reported as a collision. |
| Sequences.FirstIndex | MarioAI2009/src/UvA/stateSpaceReduction/PCAMeans.java:230 | the index found holds the element, and no earlier position does. |
| StateSpaceReduction.SampleToMean | MarioAI2009/src/UvA/stateSpaceReduction/PCAMeans.java:219-233 | a cached projection returns its cached index and changes nothing. Any other projection returns the first index of its nearest mean, which is then cached. No entry is lost or changed, and a valid cache yields an index below the number of means. |
| StateSpaceReduction.SampleToMeanProject | MarioAI2009/src/UvA/stateSpaceReduction/PCAMeans.java:235-251 | a hit returns the mean at the cached index. A miss returns the nearest mean. Either way the cache ends as `sampleToMean` leaves it. |
| StateSpaceReduction.ProjectIsMeanAtIndex | MarioAI2009/src/UvA/stateSpaceReduction/PCAMeans.java:219-251 | the mean `sampleToMeanProject` returns is the mean at the index `sampleToMean` returns. |
| StateSpaceReduction.SameProjectionSameIndex | MarioAI2009/src/UvA/stateSpaceReduction/PCAMeans.java:221-232 | two samples with the same projection, looked up in turn, get the same index, and the second lookup changes nothing. |
| StateSpaceReduction.CacheEachLastWins | MarioAI2009/src/UvA/stateSpaceReduction/PCAMeans.java:79-85 | the cache holds exactly the projections. Each is cached to a position holding it, and no later position holds it. |
| StateSpaceReduction.CacheMembersAdds | MarioAI2009/src/UvA/stateSpaceReduction/PCAMeans.java:156-160 | caching a cluster adds every member with the cluster's index and leaves other entries as they were. |
| StateSpaceReduction.CacheClustersLastWins | MarioAI2009/src/UvA/stateSpaceReduction/PCAMeans.java:149-165 | every clustered vector is cached to a cluster that holds it, and no later cluster holds it. |
| StateSpaceReduction.VectorSum | MarioAI2009/src/UvA/stateSpaceReduction/PCAMeans.java:155-160 | the sum, started from a zero vector of the first member's dimension, is the per-component sum of the members. |
| StateSpaceReduction.Mean | MarioAI2009/src/UvA/stateSpaceReduction/PCAMeans.java:155-161 | each component of the mean is that component's sum over the cluster, divided by the cluster size. |
| StateSpaceReduction.CalculateMeans | MarioAI2009/src/UvA/stateSpaceReduction/PCAMeans.java:149-165 | it fails exactly when some cluster is empty. Otherwise it gives one mean per cluster in cluster order, with the members cached to their cluster's index. |
| StateSpaceReduction.Train | MarioAI2009/src/UvA/stateSpaceReduction/PCAMeans.java:64-94 | no vectors is an error. With a negative cluster amount, the means are the projections in order and each projection is cached to its last position. Otherwise training succeeds exactly when `calculateMeans` does. Every cached index points at a mean. |
| StateSpaceReduction.MeanOfSingleton | MarioAI2009/src/UvA/stateSpaceReduction/PCAMeans.java:155-161 | the mean of a one-member cluster is its member. |
| StateSpaceReduction.CacheSingletons | MarioAI2009/src/UvA/stateSpaceReduction/PCAMeans.java:79-85 | caching singleton clusters in order fills the same cache as caching each projection to its position. |
| StateSpaceReduction.ExactModeIsSingletonClustering | MarioAI2009/src/UvA/stateSpaceReduction/PCAMeans.java:79-90 | the negative-cluster-amount mode gives the same means and cache as `calculateMeans` applied to singleton clusters. |
| StateSpaceReduction.ExactModeTrainingVectorsHit | MarioAI2009/src/UvA/stateSpaceReduction/PCAMeans.java:79-85 | after training in that mode, every training vector is a cache hit whose mean is its own projection. |
| StateSpaceReduction.ClusteredVectorsHit | MarioAI2009/src/UvA/stateSpaceReduction/PCAMeans.java:149-165 | after training on clusters, a sample whose projection is in a cluster is a hit. It resolves to the last cluster holding the projection, and that cluster's mean. |
| StateSpaceReduction.ClusterModeTrainingVectorsHit | MarioAI2009/src/UvA/stateSpaceReduction/PCAMeans.java:149-165 | when every training projection lies in some cluster and no cluster is empty, cluster-mode training succeeds. Every training vector is then a cache hit, resolving to a cluster that holds its projection and to that cluster's mean. |
| StateSpaceReduction.InstanceToArray | MarioAI2009/src/UvA/stateSpaceReduction/PCAMeans.java:204-210 | the array holds the instance's values, in order. |
| StateSpaceReduction.DatasetToDoubleArray | MarioAI2009/src/UvA/stateSpaceReduction/PCAMeans.java:193-202 | one row per instance, in order, each equal to the instance. |
| StateSpaceReduction.StatesToVectors | MarioAI2009/src/UvA/stateSpaceReduction/PCAMeans.java:102-112 | an empty list has no first state, and is the error case. Otherwise row i is the representation of state i. |
| StateSpaceReduction.TrainFromStates | MarioAI2009/src/UvA/stateSpaceReduction/PCAMeans.java:52-55 | an empty list fails with no samples. Otherwise it trains on the states' representations. |

## Left out

- `getAction`, `createState`, the agent's `reset`, the agent constructors and `initiateValues` beyond the button patterns.
  - These are orchestration around the modelled operations.
  - `createState` calls a one-argument `MarioState` constructor and the agent's `reset` calls a no-argument `MarioState.resetStatic`, neither of which `MarioState` declares. The model follows the declared signatures.
- `java.util.Random` is not modelled. Its two draws are the `coin` and `pick` arguments of `EGreedyAction`.
- `setEpsilon`, `getTotalReward`, `toString`, `hashCode`, `getXPos`, `getRepresentation` and console output: accessors and logging.
- Q-value files (`SLAPI` load/save) and MAT-file export (`datasetToMatFile`): file I/O.
- `PrincipleComponentAnalysis` is not part of this model. The projection is the `project` argument.
- The javaml `KMeans` clusterer is library code. Its result is the `clusters` argument.
- `kNearest`: the nearest mean is the `nearest` argument, constrained to be a mean at least as close, in squared Euclidean distance, as any other. Its tie-break is unspecified.
- `doubleArrayToDataset`, `createClusters`, `sampleToProjection`: wrappers around the library and the projection.
- `float`/`double` rounding: all values are reals.
  - Java `int` overflow of the kill counters is not modelled.
  - The `(float)` cast in `getReward` is not modelled.
- Aliasing: `getRepresentation` hands out the internal array, and a caller could mutate a stored state through it. Immutable sequences cannot express this.
- The javaml `Instance` class is not part of this model. The cache keys (`containsKey`, `put`) and `means.indexOf` are taken to compare instances by value, so a projection is a vector and `indexOf` finds the first value-equal mean.
- `StateActionPair` is not part of this model. The table's keys are taken to compare by state value and by button content, which is why STAY and the fresh array share a key. A pair's `action` field is taken to be the very array the pair was built from, so the greedy action `eGreedyAction` reads back is one of the listed arrays (or the fresh one) and `remove` finds it.
- `Environment.HalfObsWidth` and `HalfObsHeight` are not part of this model. They are taken as 11, the centre of the engine's 22×22 observation.
- The grids must cover the probed window (`Covers`). On a smaller grid `probe` throws an index exception, which is not modelled.
- `sampleToMean` on an empty set of means throws from the iterator. `SampleToMean` requires a nearest mean on a miss, so this case is outside its contract.
- `SampleToMeanProject` requires the cached index of a hit to be in range. `means.get` would throw otherwise, and `Train` never produces such a cache.
- The earlier `MarioAI/src/UvA/stateSpaceReduction/PCAMeans.java` draft is not part of this model; the `MarioAI2009` version supersedes it.
- Two behaviours that differ from a natural reading; the model follows the code:
  - A collision is a mode below `lastMarioMode`, the lowest mode so far, not below the previous step's mode. A power-up followed by a hit is therefore not a collision (see `PowerUpThenHitIsNoCollision`).
  - The per-step kill counts are differences of counters and are not clamped at 0.
