# Tabular reinforcement learning core, modelled in Dafny

This project models the core of a small tabular reinforcement-learning engine, written in Python. The model covers four parts:

- **`SeqGen.py`**: the episodic `SequenceGenerator` and the epsilon-greedy policy. The generator turns three environment callbacks into a stream of `(state, is_terminal, next_state, action, reward)` records and counts episodes against a budget.
- **`MCM.py`**: the three Monte Carlo control updaters and the `learnByEpisode` driver.
  - The updaters are off-policy with weighted importance sampling, on-policy first-visit, and on-policy every-visit.
  - All three walk an episode backwards and update the `Q` and `C` tables in place.
  - `learnByEpisode` cuts the record stream into episodes and stops after 500 consecutive "converged" answers.
- **`SARSAn.py`**: n-step SARSA over a record stream. It uses the `history`/`t`/`T`/`tau` loop, the power table of gamma, the n-step target with its bootstrap, and the 50000-episode limit.
- **`RacetrackSetup.py`**: the racetrack environment. This covers the segment-crossing test, the finish and runout tests, velocity clipping and the transition.

Modules:

- **`Tables`** (`tables.dfy`): shared vocabulary. It holds tables `map<S, seq<real>>` with total `Get`/`Put`, and `FirstArgmax`, which is numpy's `argmax`.
- **`SeqGen`** (`seqgen.dfy`): the generator as a class with a ghost trace. The trace is tied to the pure specification `Run`.
- **`MCM`** (`mcm.dfy`):
  - The updaters are methods on `ValueTable` objects. Each is proved equal to a specification:
    - the off-policy pass is proved against the trace `OffRun`;
    - the on-policy passes are proved against `OnPass` with first-visit or every-visit marks.
  - The driver is a method over a `SequenceGenerator`, proved equal to `Learn` on the generator's trace.
- **`SARSAn`** (`sarsan.dfy`):
  - The whole run is proved equal to `SarsaFrom`.
  - One episode is proved equal to `EpisodeRun`.
  - Each update's target is proved equal to `Target`.
- **`Racetrack`** (`racetrack.dfy`): geometry on `real` with exact `+0.5` cell centres. `IsRunout` is a loop proved against an existential specification. `GetTransition` is proved equal to the function `Transition`.

Modelling conventions:

- Python floats are exact `real`s.
- Random draws are inputs.
- Callbacks are pure function values.
- `q_learn` is a pure function from a learner state to the next learner state. Each call is also logged as an `Update(state, action, G)`, so properties about the calls are statements about that log.

## Model

| member | source | states |
|---|---|---|
| Tables.PutGet | MCM.py:12-14 | Writing `t[s][a]` changes that entry only, and keeps the table's states and row lengths. |
| Tables.FirstArgmaxIsFirst | SeqGen.py:37 | `np.argmax` returns an index holding a maximal entry, with every earlier entry strictly smaller. |
| Tables.ArgmaxFromIsFirst | SeqGen.py:37 | A left-to-right scan that keeps the first maximum ends at the first maximal index. |
| Tables.FirstArgmaxUnique | SeqGen.py:37 | The first-maximum property determines a single index. |
| SeqGen.SequenceGenerator.Iter | SeqGen.py:10-13 | After `__iter__`, `episode_i == 1`, `state` is `get_start_state()` and the trace is empty. |
| SeqGen.SequenceGenerator.Next | SeqGen.py:15-23 | `__next__` stops (None) exactly when `episode_imax > 0 && episode_i > episode_imax`, and then changes nothing. Otherwise the action is `get_action(state, episode_i)` and the rest of the record is `get_transition(state, action)`. The record starts in the old state, the new state is its next state, `episode_i` rises by one exactly on a terminal record, and the trace grows by that record. |
| SeqGen.RunSnoc | SeqGen.py:15-23 | One more call appends the record computed from the end state and the current counter, unless the budget is used up. |
| SeqGen.RunChains | SeqGen.py:20-23 | Records chain: each starts in the state the previous one ended in, across terminal records too, since there is no reset to the start state. |
| SeqGen.RunCallbacks | SeqGen.py:19-21 | Every record's action is `get_action` of its state and of the episode number current at that call. Its other fields are `get_transition` of that state and action. |
| SeqGen.RunWithinBudget | SeqGen.py:16-22 | With a positive budget, every record is produced while the episode number is within the budget. |
| SeqGen.RunStopsOnlyWhenExhausted | SeqGen.py:16-17 | A run ends early only because the budget is used up. With `episode_imax <= 0` it never ends. |
| SeqGen.EpisodeBudget | SeqGen.py:10-22 | With budget k > 0 a generator yields at most k terminal records and nothing after the k-th. It has yielded exactly k whenever it has stopped. |
| SeqGen.CountTerminalSnoc | SeqGen.py:22 | The episode count of a trace grows by one exactly with a terminal record. |
| SeqGen.EpsilonGreedy | SeqGen.py:33-37 | The episode number is accepted and not read. With draws u and k, the result is a valid action index. It is k when `u < epsilon`, and otherwise the first argmax of `Q[state]`. |
| MCM.OffPolicyMCControl | MCM.py:3-22 | The updated `Q`, `C`, target dictionary and returned flag are those of the final state of the trace `OffRun` of the backward walk. The behaviour distribution is fetched once. |
| MCM.OffTraceAt | MCM.py:10-20 | Consecutive trace entries are one loop iteration apart, or equal once the loop has left through its break. |
| MCM.OffRunStep | MCM.py:9-20 | `step` is the index about to be processed. After the break it lies between the current position and the end of the episode. |
| MCM.OffRunBreakStep | MCM.py:18-20 | After the break, `step` is the index of the step that broke: the walk stopped there, had not stopped before, and that step's new greedy action differs from its action. |
| MCM.OffPolicyReturn | MCM.py:6-11 | At every processed step, G is the discounted return of that step and all later ones. |
| MCM.OffPolicyAgreeing | MCM.py:16-18 | While the loop has not broken, every processed step agreed with the greedy action. |
| MCM.OffPolicyStopIndex | MCM.py:12-18 | After a break, the breaking step is the most recent one whose new greedy action differs, all newer steps agreed, its update is applied, and no older step is processed. |
| MCM.OffPolicyWeight | MCM.py:7-19 | W is the product of `1/b` over the steps that agreed: every processed step, or all but the last after a break. |
| MCM.WeightAtLeastOne | MCM.py:7-19 | With behaviour probabilities in (0, 1], every such product is at least 1. |
| MCM.OffRunShape | MCM.py:12-14 | The tables keep their shape, counts stay non-negative and W stays positive, so every division is by a positive count. |
| MCM.OffPolicyIncrementalMean | MCM.py:12-14 | After one update, `C' * Q' == C * Q + W * G` at the updated pair. This is the weighted incremental mean. |
| MCM.OffPolicyConvergence | MCM.py:8-22 | The returned flag is the conjunction of the small-change tests over exactly the processed steps. It is true for an empty episode. |
| MCM.OffPolicyFrame | MCM.py:10-14 | Pairs that no processed step uses keep their entries of Q and C. |
| MCM.OffPolicyTarget | MCM.py:16-17 | With a truthy target dictionary, every processed state ends up mapped to the argmax of its final Q row, and other states keep their entries. Without one, nothing is written. |
| MCM.OffRunStoppedStays | MCM.py:18 | Once the loop has broken, older steps change nothing. |
| MCM.MarkFirstVisits | MCM.py:25-31 | Each step is paired with `is_first`, which holds exactly for the first occurrence of its (state, action) pair. |
| MCM.VisitedIsFirst | MCM.py:28-30 | Membership in `visited` is the first-occurrence test. |
| MCM.OnPolicyFirstVisitMCControl | MCM.py:24-42 | The updated Q and C are those of the backward pass that updates first occurrences only. The result is always False. The counts must start non-negative, so no update divides by zero. |
| MCM.OnPolicyEveryVisitMCControl | MCM.py:44-52 | The updated Q and C are those of the backward pass that updates every step. The result is always False. The counts must start non-negative, so no update divides by zero. |
| MCM.OnPassReturn | MCM.py:34-48 | G is the discounted return from each step on, whether or not that step is updated. |
| MCM.OnPassCounts | MCM.py:40-49 | Each pair's count rises by exactly the number of updates made to it. |
| MCM.OnPassFrame | MCM.py:35-50 | Pairs the episode does not use keep their Q and C entries. |
| MCM.OnPassShape | MCM.py:40-50 | Every entry the pass reads exists all along the pass. |
| MCM.OnPassDivisor | MCM.py:40-50 | When the counts start non-negative, every update divides by a count of at least 1. |
| MCM.OnPassFreshCount | MCM.py:40-50 | A pair whose count was 0 gets `Q = G` exactly and count 1 at its first update. |
| MCM.FirstVisitOnce | MCM.py:25-41 | First visit: each pair of the episode gets exactly one update, any other pair none. |
| MCM.EveryVisitCounts | MCM.py:47-50 | Every visit: each pair gets one update per occurrence. |
| MCM.FirstOccurrence | MCM.py:28 | A pair used by a step has a first occurrence at or before it. |
| MCM.UpdatesOnlyAt | MCM.py:37-41 | A pair whose only marked step is f gets one update from any index at or before f, none after. |
| MCM.VariantsAgree | MCM.py:24-52 | Without repeated pairs, the first-visit and every-visit passes are the same. |
| MCM.VariantsDiffer | MCM.py:24-52 | For any pair that occurs at least twice in the episode, first visit updates it exactly once and every visit updates it more often. |
| MCM.LearnByEpisode | MCM.py:54-76 | The calls to `learnMethod` and the convergence exit are those of `Learn` on the records the generator produced. The generator restarts first. It is never pulled past the break. Within the fuel bound, a run without convergence ends only when the generator's budget is exhausted. |
| MCM.LearnSegments | MCM.py:56-74 | Up to the break, `learnMethod` is called once per terminal record, with the steps since the previous terminal record and the episode number `episode_i - 1`, numbered 1, 2, .... The streak counter counts the trailing True answers and resets on False. The loop stops exactly when the counter reaches 500. |
| MCM.SegmentsTerminal | MCM.py:59-74 | A terminal record makes one more call, with the pending steps plus its own. |
| MCM.SegmentsPending | MCM.py:59-61 | A non-terminal record only joins the pending episode. |
| MCM.EpisodesNonEmpty | MCM.py:62 | Every episode passed on is non-empty, so the `len(episode) == 0` exit never fires. |
| SARSAn.GammaPoweredRatio | SARSAn.py:6 | The power table starts at 1 and each entry is gamma times the previous one. |
| SARSAn.WeightedIsDiscounted | SARSAn.py:6-28 | The sum weighted by the power table equals the discounted rewards of the window. |
| SARSAn.DiscountedSnoc | SARSAn.py:28 | Widening the window by one step adds `gamma^m` times that step's reward. |
| SARSAn.FirstTerminal | SARSAn.py:16-24 | The episode that starts at `from` ends at the first terminal record, and all records before it are non-terminal. |
| SARSAn.NStepReturn | SARSAn.py:28-30 | The computed G is the n-step target. It is the discounted rewards of `min(n, T - tau)` steps, plus `gamma^n * q_eval` of step tau + n exactly when `tau + n < T`. |
| SARSAn.BootstrapRecord | SARSAn.py:16-30 | Whenever the bootstrap applies, the most recently pulled record is `history[tau + n]`. |
| SARSAn.UpdateAt | SARSAn.py:26-32 | Once `tau >= 0`, one `q_learn` call is made for `history[tau]` with its n-step target, extending the episode's run by one update. |
| SARSAn.Pull | SARSAn.py:21-24 | Pulling a non-terminal episode's next record appends the next record of the stream. |
| SARSAn.Terminal | SARSAn.py:17-19 | On seeing the terminal record at iteration t, `T` becomes `t + 1`, and afterwards nothing is pulled. |
| SARSAn.EpisodeEnd | SARSAn.py:34 | The loop leaves after the update with `tau == T - 1`, having made the whole episode's T updates. |
| SARSAn.EpisodeCut | SARSAn.py:21-39 | A stream that ends inside an episode leaves the updates whose targets could be read. |
| SARSAn.Episode | SARSAn.py:10-35 | One episode makes `q_learn` calls for `tau = 0, 1, ..., T-1` in order, for `history[tau]`'s state and action, with the targets of `EpisodeRun`. A stream that ends inside the episode is reported. |
| SARSAn.SARSAn | SARSAn.py:5-39 | The calls to `q_learn` and the learner's final state are those of `SarsaFrom` with the 50000-episode limit. |
| SARSAn.EpisodeRunAt | SARSAn.py:26-32 | Update tau is for step tau's state and action, and its target uses the learner state left by the updates before it. A run of k updates has exactly k of them. |
| SARSAn.EpisodeRunCount | SARSAn.py:26-35 | A run of k updates makes exactly k `q_learn` calls. |
| SARSAn.OneStep | SARSAn.py:26-30 | With n = 1, the target is `r_tau + gamma * q_eval(S_{tau+1}, A_{tau+1})` for every step but the last, and `r_{T-1}` for the last. |
| SARSAn.EpisodeRunExtend | SARSAn.py:22-28 | A record pulled after those the earlier updates read changes none of them. |
| SARSAn.EpisodeRunRetarget | SARSAn.py:19-29 | Updates whose windows end inside the history do not depend on T. |
| SARSAn.SarsaBounds | SARSAn.py:8-39 | A run starts at most 50000 episodes. It leaves records unread only once the limit is reached, and the end of the stream ends the run without error. |
| SARSAn.SarsaFirstEpisode | SARSAn.py:26-32 | The first complete episode gives one update per record, in order, for that record's state and action. |
| Racetrack.DetAntisymmetric | RacetrackSetup.py:36-37 | `det(v1, v2) == -det(v2, v1)`. |
| Racetrack.IntersectionSymmetric | RacetrackSetup.py:39-41 | `is_intersection(l1, l2) == is_intersection(l2, l1)`. |
| Racetrack.SideIsCross | RacetrackSetup.py:33-41 | The side test `det(*getRelative(p, line)) < 0` is the sign of the cross product of the line's direction with p's offset from its start. |
| Racetrack.GetRelative | RacetrackSetup.py:33-34 | Both ends are taken relative to the base point. The shift keeps the segment's direction, and an end becomes the origin exactly when it is the base point. |
| Racetrack.FinishSide | RacetrackSetup.py:46-50 | A cell centre lies on the finish segment's clockwise side exactly when its column is at or right of `finish_line[0]`, for a segment drawn upwards, and the other way round for one drawn downwards. |
| Racetrack.FinishCrossing | RacetrackSetup.py:46-50 | The finish segment is the vertical from `(fl[0], fl[1])` to `(fl[0], fl[3])`; `fl[2]` is not read. A degenerate segment finishes nothing. Otherwise a move finishes exactly when it goes between columns left of `fl[0]` and at or right of it, with the segment's two ends on different sides of the move. |
| Racetrack.IsRunout | RacetrackSetup.py:52-61 | The result is True exactly when some segment between consecutive contour points crosses the move from cell centre to cell centre. The walk answers at the first such segment. |
| Racetrack.GetStartPosition | RacetrackSetup.py:43-44 | The start state is `(x, 0, 0, 0)` with x drawn from `[start_line[0], start_line[2])`. |
| Racetrack.Clip | RacetrackSetup.py:69-70 | The clipped velocity component lies in [0, 4], and equals the input when the input lies in that range. |
| Racetrack.GetTransition | RacetrackSetup.py:63-83 | The finish flag and next state are those of `Transition`. A finishing move returns before the contour is read, so the contour may then be empty. |
| Racetrack.VelocityBounds | RacetrackSetup.py:69-72 | From a velocity in [0, 4]², the next velocity is in [0, 4]². It is `(0, 0)` only if the old one was, because an all-zero clip keeps the old velocity. |
| Racetrack.TransitionKeepsVelocity | RacetrackSetup.py:63-83 | Every state the transition produces, including a restart, has its velocity in [0, 4]². |
| Racetrack.AccelerationTable | RacetrackSetup.py:28-31 | `ACTIONS_NUM == 9`. Action a accelerates by `(1 - a/3, a%3 - 1)`, and the nine entries are pairwise distinct, so they are all of {-1, 0, 1}². |

## Left out

- `MountainCar/MountainCarSetup.py` is not part of this model.
- Console output (`print`) is not modelled.
- IEEE floating-point rounding is not modelled. Floats are exact reals.
- Random draws are not modelled. They are inputs: the two draws of the epsilon-greedy policy, and the start cell x.
- In `getTransition`, `getStartPosition()` is represented by the state `start` it returns.
- numpy broadcasting, `np.clip` and `.all()` are written out on integers and reals.
- The commented-out stochastic acceleration (`RacetrackSetup.py:65-67`) is not modelled.
- The contour and line tables of the two track setups (`RacetrackSetup.py:6-26`) are not modelled. They are sample data.
- The racetrack `getTransition` takes five arguments and returns a pair, so it does not plug directly into `SequenceGenerator`, whose transition callback takes `(state, action)` and returns a triple. The model keeps the two as written and does not model the glue between them.
- The Python iterator protocol is modelled as follows. A record stream is a finite `seq`. For the generator, `StopIteration` is `None`.
- MCM.LearnByEpisode: takes a `fuel` bound on the number of records it pulls, because the source loop is unbounded on a generator with `episode_imax <= 0`. Its contract then covers the first `fuel` records.
- MCM.LearnByEpisode: `learnMethod` is a pure function. Its effects on the caller's tables are not modelled. The method returns the log of its calls instead.
- MCM.OffPolicyMCControl: requires the following for every step of the episode:
  - its entries exist in Q, C and the behaviour table;
  - its count is non-negative;
  - its behaviour probability is positive.

  On a processed step, a missing entry makes the source raise `KeyError`/`IndexError`. The other two requirements are stronger than the source needs:
  - A count only leads to a division by zero when it equals -W (`MCM.py:12-14` divides by `C[s][a] + W`), so the requirement also excludes negative counts the source handles.
  - The behaviour probability is read only on a step that agrees with the greedy action (`MCM.py:19`). A negative probability would run on with a negative W. The breaking step's probability is never read, because `MCM.py:18` breaks first.
  - Steps older than a break are never read at all.

  `Quot` yields 0 where the source would divide by zero. On Python floats that raises `ZeroDivisionError`; on numpy arrays it gives inf or nan.
- MCM.OffPolicyMCControl: requires Q and C to be distinct tables. Aliasing them is not modelled.
- MCM.OnPolicyFirstVisitMCControl: requires the following, and aliasing Q and C is not modelled:
  - the episode's entries exist in Q and C, where the source would otherwise raise `KeyError`/`IndexError`;
  - the episode's counts are non-negative. In the source, only a count of exactly -1 leads to a division by zero: it is incremented to 0 and then used as the divisor. The requirement therefore also excludes negative counts the source would handle. Under it, `MCM.OnPassDivisor` shows that every divisor is at least 1;
  - Q and C are distinct tables.
- MCM.OnPolicyEveryVisitMCControl: has the same three requirements, for the same reasons: the entries exist, the counts are non-negative, and Q and C are distinct tables.
- MCM.MarkFirstVisits: is the first loop of `OnPolicyFirstVisitMCControl`, split out as its own method.
- SARSAn.Episode: is the body of the outer `for` loop, split out as its own method. SARSAn.UpdateAt and SARSAn.NStepReturn are the `tau >= 0` block and the target computation inside it.
- SARSAn.SARSAn: requires `n >= 1`. With `n = 0`, `tau` is `t + 1`, so the source never updates an episode's first record. At the iteration that sees a terminal record, `tau == T == len(history)`, so `history[tau]` raises `IndexError`. Only a stream without a terminal record would run to its end. The method also requires fewer than `sys.maxsize` records, so that `T = sys.maxsize` is never a real episode length.
- SARSAn.SARSAn: `q_eval` and `q_learn` are modelled as a learner state threaded through pure functions. Other side effects of the callbacks are not modelled.
- Racetrack.IsRunout: requires a non-empty contour. On an empty one the source's first `next(it)` raises `StopIteration`. Racetrack.GetTransition needs a non-empty contour only when the move does not finish.
- Racetrack.GetTransition: requires an action index in `[-9, 9)`. Negative indices select from the end of the table, as Python does.
- SeqGen.EpsilonGreedy: requires a non-empty row of Q containing the drawn index. An empty row makes `randint`/`argmax` raise.
- Tables.Get and Tables.Put: return 0 or leave the table unchanged for a missing entry. This is where the source would raise. The updaters' preconditions exclude that case.
