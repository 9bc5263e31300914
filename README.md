# Q-learning asset allocation, modelled in Dafny

The program allocates wealth between a risky asset and a riskless asset over `T`
stages. It learns the allocation with tabular Q-learning. Three classes make up
its core, and the model follows them module by module:

- `Market` models `Environment`.
  - It builds the integer wealth grid `0, W_STEP, ..., W_MAX` and the lookup from a
    grid value to its position.
  - For every grid wealth `w` it builds the candidate investments
    `0, ACTION_STEP, ..., <= w`.
  - `get_next_state` applies one Bernoulli outcome of the risky return, rounds the
    wealth to a multiple of `W_STEP` and clamps it into `[0, W_MAX]`.
  - `get_reward` pays the exponential utility at the last stage and `0.0` before it.
  - The environment is a value: a `datatype`, with a constructor function
    `NewEnvironment` and pure functions for the operations.
- `Learning` models `Agent`, which is a `class`.
  - Its Q-table is an `array3<real>` of shape `T x |grid| x maxActCount`. The rows
    are ragged: only the first `|actionCandidates[w]|` cells of a row belong to
    real actions.
  - The per-stage action index map is an `array2` of dictionaries, filled by
    nested loops.
  - The epsilon-greedy choice is a function of the table and of the random draws.
  - The update writes one cell in place. Its effect is also stated on the table's
    contents as a value (`Contents`, a `seq` of `seq` of `seq`): `UpdatedTable`
    is the same update on table values.
  - The table difference is a sum of absolute differences.
- `Training` models `Trainer`, which is a `class`. Its `errors` and `finalWealths`
  lists are `seq` fields that `Train` appends to. A ghost log of every episode
  records its stages and the table before and after it. `Replay` applies the
  stages' updates to a table value, and every episode's table after it is the
  replay of its stages on its table before it.
- `Grid` holds the two list idioms the others are built from:
  - `list(range(start, stop, step))` with a positive step;
  - `{v: i for i, v in enumerate(s)}`.

Randomness and `np.exp` are parameters:
- `random.random()` and `random.choice` become explicit draws. `Train` takes an
  oracle `rng(episode, stage)` that returns the three draws one stage consumes.
- `np.exp` is a function parameter `exp: real -> real`.

The agent's learning rate (`Agent.alpha`) and the utility's risk aversion
(`Environment.alpha`) keep their own names, `alpha` and `env.alpha`.

## Model

| member | source | states |
|---|---|---|
| Grid.RangeShape | msbd6000m_assignment1.py:61 | the i-th element of `range(start, stop, step)` is `start + i*step`; the elements strictly increase; the last lies below `stop` and the next would not |
| Grid.MultiplesUpTo | msbd6000m_assignment1.py:61-67 | `range(0, n+1, step)` has `n/step + 1` elements, the i-th being `i*step`, and holds exactly the multiples of `step` in `[0, n]` |
| Grid.EnumerateMap | msbd6000m_assignment1.py:63 | the dictionary built by `enumerate` has the list's values as keys; each key maps to a position holding it, and no later position holds it |
| Grid.EnumerateMapAt | msbd6000m_assignment1.py:169 | on a strictly increasing list (every candidate list is one), every value maps back to its own position |
| Market.NewEnvironment | msbd6000m_assignment1.py:35-67 | the constructed environment keeps its parameters and its lookups are the ones the comprehensions build |
| Market.WealthGrid | msbd6000m_assignment1.py:61-67 | the grid has `W_MAX/W_STEP + 1` levels, the i-th being `i*W_STEP`; `w` is a key of the index lookup iff `0 <= w <= W_MAX` and `w % W_STEP == 0`; the lookup sends `w` to `w/W_STEP`; the lookup and the candidate table have the same keys |
| Market.Candidates | msbd6000m_assignment1.py:65-67 | the candidates at grid wealth `w` are `w/ACTION_STEP + 1` in number, the i-th is `i*ACTION_STEP`, they start at 0 and increase, and they are exactly the multiples of `ACTION_STEP` in `[0, w]` |
| Market.CandidateIndex | msbd6000m_assignment1.py:166-170 | the candidate at position `i` gives back `i` both by `x / ACTION_STEP` and through the position dictionary |
| Market.LookupsHold | msbd6000m_assignment1.py:61-67 | a well-formed environment with `W_MAX >= 0` has a non-empty grid, shared keys, the grid characterised arithmetically, and every candidate row non-empty, within `[0, w]` and indexed by division |
| Market.RoundHalfEven | msbd6000m_assignment1.py:85 | `round` lands within 1/2 of its argument, and on a tie it lands on the even integer |
| Market.NextState | msbd6000m_assignment1.py:69-88 | the next wealth is never negative, and never above `W_MAX` when `W_MAX >= 0`; it is a multiple of `W_STEP` when `W_MAX` is; when `W_MAX >= 0` and `W_MAX` is a multiple of `W_STEP`, it is 0 when the raw wealth is at most 0, `W_MAX` when the raw wealth is at least `W_MAX`, and within half a step of the raw wealth when that lies in `[0, W_MAX]` |
| Market.UtilityIncreasing | msbd6000m_assignment1.py:90-100 | with an increasing `exp` and a positive risk aversion, more wealth gives strictly more utility |
| Market.RewardBeforeHorizon | uni_test.py:31-32 | at every stage other than `T-1` the reward is `0.0`, whatever the wealth and the utility |
| Market.RewardOnlyAtHorizon | msbd6000m_assignment1.py:102-115 | with a positive `exp` and risk aversion, the reward is non-zero exactly at stage `T-1`, where it is the utility and negative |
| Market.NextStateTestWindow | uni_test.py:10-18 | in the test environment, from wealth 1000 investing 500, the next wealth lies in `[850, 1100]` whichever return is drawn |
| Learning.ArgMax | msbd6000m_assignment1.py:198 | `np.argmax` returns a position of a largest value with every earlier value strictly smaller |
| Learning.ArgMaxUnique | msbd6000m_assignment1.py:198 | that position is the only one with this property |
| Learning.MaxOf | msbd6000m_assignment1.py:218 | `np.max` is an upper bound of the values and is one of them |
| Learning.MaxCount | msbd6000m_assignment1.py:152 | `max_act_count` bounds every row's number of candidates and is attained by some grid level |
| Learning.MaxCountAtTop | msbd6000m_assignment1.py:152 | the widest row is the one at the top of the grid, with `top/ACTION_STEP + 1` candidates |
| Learning.AgentShape | msbd6000m_assignment1.py:131-154 | a well-formed environment meets what the agent's construction needs, and `max_act_count` is `W_MAX/W_STEP*W_STEP/ACTION_STEP + 1` |
| Learning.QStep | msbd6000m_assignment1.py:222-224 | the new value's distance to the target is `(1 - alpha)` times the old distance; the value is unchanged iff `alpha == 0` or it already equals the target; for `alpha` in `[0,1]` it lies between the old value and the target; with `alpha == 1` it is the target |
| Learning.RepeatApproaches | msbd6000m_assignment1.py:224 | with `0 < alpha < 1`, repeated updates toward one target approach it strictly and never reach or pass it |
| Learning.StepToward | msbd6000m_assignment1.py:224 | one update with `0 < alpha < 1` moves strictly toward the target without reaching it |
| Learning.RowDiff | msbd6000m_assignment1.py:236 | the sum of absolute differences between two rows of one length is non-negative, and zero iff the rows are equal |
| Learning.PlaneDiff | msbd6000m_assignment1.py:236 | the same for the planes of one stage, summed row by row |
| Learning.TableDiff | msbd6000m_assignment1.py:236 | the same for whole tables of the same dimensions, summed stage by stage: the sum is non-negative, and zero iff the tables are equal |
| Learning.ContentsEqual | msbd6000m_assignment1.py:236 | two tables of one shape have equal contents iff no cell differs |
| Learning.BuildActionIndexMap | msbd6000m_assignment1.py:156-171 | a fresh `T x |grid|` array whose cell `(t, i)` is the position dictionary of the candidates at grid level `i`, the same at every stage |
| Learning.Agent.constructor | msbd6000m_assignment1.py:131-154 | the agent keeps its parameters, its table is all zeros with shape `T x |grid| x max_act_count`, and its action index map is the one built by `_build_action_index_map` |
| Learning.Agent.EpsilonBetween | msbd6000m_assignment1.py:173-177 | while the decay factor is in `[0,1]`, epsilon lies between its end and start values |
| Learning.Agent.ChooseAction | msbd6000m_assignment1.py:179-199 | the choice is a candidate for `w`, at position `x/ACTION_STEP` and so never a padding cell; exploring, it is the picked candidate; exploiting, its Q-value is the largest over the real cells and every earlier one is strictly smaller |
| Learning.Agent.ChooseAtZeroWealth | msbd6000m_assignment1.py:191-199 | at wealth 0 the choice is 0 whatever epsilon and the draws are |
| Learning.Agent.ActionIndexIsDivision | msbd6000m_assignment1.py:164-171 | for every stage, the action index map sends a candidate `x` to `x/ACTION_STEP` |
| Learning.Agent.IndexedAction | msbd6000m_assignment1.py:212-213 | an amount found in the index map of `(t, w)` is a candidate for `w`, mapped to `x/ACTION_STEP` below the row's length |
| Learning.Agent.UpdateQTable | msbd6000m_assignment1.py:201-224 | the lookup sends `w` to `w/W_STEP`; only cell `(t, w/W_STEP, x/ACTION_STEP)` changes, and it is a real cell; it takes one step toward `reward + gamma * max of the next row's real cells` (`reward` alone at the last stage); the next row's best value is unchanged; the new table is `UpdatedTable` of the old one, the same update stated on table values |
| Learning.Agent.RowInContents | msbd6000m_assignment1.py:193 | the slice `Q[t, i, :n]` of the array is the prefix of row `(t, i)` of the table's contents |
| Learning.Agent.ArgMaxInRow | msbd6000m_assignment1.py:193-198 | `np.argmax(self.Q[t, w_idx, :n])` picks a cell of the slice holding its largest value, with every earlier cell strictly smaller |
| Learning.Agent.TargetInContents | msbd6000m_assignment1.py:212-222 | the next row fits the table, and the target `reward + gamma * max_q_next` read from the array is the one computed on the table's contents |
| Learning.Agent.UpdateKeepsPadding | msbd6000m_assignment1.py:212-224 | an update with a candidate amount leaves every padding cell `0.0` if it was |
| Learning.Agent.ComputeQDiff | msbd6000m_assignment1.py:226-236 | the difference is non-negative, and zero iff no cell differs |
| Training.CopyTable | msbd6000m_assignment1.py:272 | the copy is a fresh table of the same shape and contents |
| Training.Trainer.constructor | msbd6000m_assignment1.py:250-261 | the trainer keeps its agent and episode count and starts with empty lists |
| Training.Trainer.ReplayExtend | msbd6000m_assignment1.py:278-291 | one more stage whose row was read from the replayed table extends the replay by that stage's update and keeps every row tied to the table it was read from |
| Training.Trainer.ReplayKeepsPadding | msbd6000m_assignment1.py:285-288 | replaying stages whose amounts are candidates leaves every padding cell `0.0` if it was |
| Training.Trainer.TrajectoryCandidates | msbd6000m_assignment1.py:278-281 | every stage of an episode invests one of its wealth's candidates |
| Training.Trainer.TrainingKeepsPadding | msbd6000m_assignment1.py:152-154 | over the episodes of a call, padding cells that are `0.0` before it (as `np.zeros` makes them) are `0.0` after it |
| Training.Trainer.WealthsOnGrid | msbd6000m_assignment1.py:294-296 | when `T >= 1`, every recorded final wealth is a grid level |
| Training.Trainer.ErrorsMeasureChange | msbd6000m_assignment1.py:294-295 | every recorded error is non-negative, and zero iff its episode left the table as it was |
| Training.Trainer.TrajectoryExtend | msbd6000m_assignment1.py:278-291 | a stage that starts where the recorded ones end extends the trajectory |
| Training.Trainer.PlayedAt | msbd6000m_assignment1.py:267-296 | every recorded episode of a call ran its `T` stages by the rules, with its own number's epsilon and draws, and its table after is its table before with its stages' updates replayed |
| Training.Trainer.ChainedAt | msbd6000m_assignment1.py:267-296 | within one call, the first episode starts from the table the call started with, each later one from the table the previous one ended with, and the last ends with the final table |
| Training.Trainer.PlayStage | msbd6000m_assignment1.py:278-291 | one stage: the amount follows the exploring or exploiting rule on the row of real cells of the table before the stage, the next wealth is `get_next_state`'s and on the grid, the reward is `get_reward(t, w_next)`, and the new table is the old one with that stage's update |
| Training.Trainer.RunEpisode | msbd6000m_assignment1.py:274-291 | exactly `T` stages from `INITIAL_WEALTH`, each starting where the previous ended; the final wealth is where the last ended and is on the grid; the final table is the starting one with the stages' updates replayed in order, and every stage chose from the rows of the table as it stood then |
| Training.Trainer.MeasureEpisode | msbd6000m_assignment1.py:269-293 | one episode from the current table: its stages follow the rules, its table after is the replay of its stages, the error is `TableDiff` of the table before and after (the sum of `abs(Q_before - Q)`), and the final wealth is where the stages end, on the grid |
| Training.Trainer.PlayEpisode | msbd6000m_assignment1.py:267-296 | one episode appends one error and one final wealth, and nothing else changes in the lists; the episode is played as in `MeasureEpisode`, and its error is `TableDiff` of the table before and after |
| Training.Trainer.Train | msbd6000m_assignment1.py:263-296 | `errors` and `final_wealths` grow by exactly `num_episodes` entries (none when it is not positive) and keep their old entries; each episode follows the rules; every new final wealth is on the grid; every episode's table after it is the replay of its stages on its table before it; the episodes' tables join up from the table before the call to the one after |

## Left out

- `Trainer.plot_results` (msbd6000m_assignment1.py:312-345): plotting with matplotlib.
- The progress `print` block inside `train` (msbd6000m_assignment1.py:298-310): console output that only reads the statistics.
- The `__main__` scenario loop (msbd6000m_assignment1.py:349-446): it only constructs the classes with constants.
- `random.random()` and `random.choice`: they are draws passed in. `random.choice(cand)` is the candidate at `pick % |cand|` for a natural `pick`. `Train` takes `rng(episode, stage)`, so the draws of a stage depend only on the episode number within the call and the stage.
- `np.exp`: it is the parameter `exp`. Its positivity and monotonicity are hypotheses of the lemmas that need them. That epsilon decays over the episodes is not proved.
- Floating point: Q-values, returns and rewards are exact reals. `round(w_float / W_STEP)` is round-half-to-even on the exact quotient, so binary rounding error is not modelled.
- `utility` needs `env.alpha != 0.0`. Real division by zero is undefined here, whereas numpy yields an infinity. `GetReward` and `Train` require a non-zero risk aversion whenever stage `T-1` is reached.
- Configuration the code does not check is a precondition:
  - `W_STEP > 0` and `ACTION_STEP > 0`, since `range` rejects a zero step.
  - `W_MAX >= 0` and `T >= 0` for the agent. Otherwise `max` over an empty grid and `np.zeros` fail.
  - `W_MAX % W_STEP == 0` for `Train`, and `INITIAL_WEALTH` on the grid when `T >= 1` (with `T == 0` no stage runs and the initial wealth is never looked up). Otherwise the clamp can return an off-grid `W_MAX` and a lookup fails.
- Failing dictionary lookups, which raise `KeyError` in the source, are preconditions rather than an error path:
  - `Learning.Agent.ChooseAction` requires `w` to be a grid wealth (msbd6000m_assignment1.py:191-192).
  - `Learning.Agent.UpdateQTable` requires `w` on the grid and `x` found in the action index map of `(t, w)` (msbd6000m_assignment1.py:212-213), and `w_next` on the grid before the last stage (msbd6000m_assignment1.py:216).
  - `train` never reaches these cases: `Training.Trainer.PlayStage` shows every stage's `w`, `x` and `w_next` meet them.
- Learning.Agent.constructor: requires the derived lookup facts (`Lookups`) rather than the full construction equalities. `Learning.AgentShape` shows that every environment built by `NewEnvironment` with `W_MAX >= 0` meets them.
- Training.Trainer.Train: that padding cells stay `0.0` is not an `ensures` of `Train` itself. It follows from `Train`'s `Played` and `Chained` postconditions by `Training.Trainer.TrainingKeepsPadding`.
- The end-to-end claim of the trainer test that training changes the table (uni_test.py:80-86) is not proved as one statement. Its parts are proved: an update changes its cell iff `alpha != 0` and the cell differs from the target (`Learning.QStep`), and the last-stage reward is negative (`Market.RewardOnlyAtHorizon`).
- `uni_test.py` imports a module `asset_allocation_qlearning`, which is not part of this model. Its tests serve only as statements of expected behaviour.
