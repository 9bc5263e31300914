/** The training loop (class `Trainer`): episodes of `T` stages from the initial
    wealth, each stage choosing an amount, moving the wealth, collecting the reward
    and updating the agent's Q-table; per episode it records how far the table moved
    and the wealth the episode ended with. */
module Training {
  import opened Market
  import opened Learning

  /** The random draws one stage consumes: `random.random()` inside `choose_action`,
      the draw behind `random.choice` when exploring, and `random.random()` inside
      `get_next_state`. */
  datatype Draws = Draws(explore: real, pick: nat, market: real)

  /** One stage as it happened: the stage, the wealth, the Q-values of the real cells
      the choice was made from, the amount invested, the next wealth and the reward. */
  datatype Step = Step(t: int, w: int, row: seq<real>, x: int, wNext: int, reward: real)

  /** One episode: its stages and the contents of the Q-table before and after it. */
  datatype Episode = Episode(steps: seq<Step>, before: Table, after: Table)

  /** `Q.copy()`. */
  method CopyTable(a: array3<real>) returns (b: array3<real>)
    ensures fresh(b) && SameShape(b, a)
    ensures forall t, i, j :: 0 <= t < a.Length0 && 0 <= i < a.Length1 && 0 <= j < a.Length2 ==>
      b[t, i, j] == a[t, i, j]
  {
    b := new real[a.Length0, a.Length1, a.Length2]((t, i, j) reads a =>
      if 0 <= t < a.Length0 && 0 <= i < a.Length1 && 0 <= j < a.Length2 then a[t, i, j] else 0.0);
  }

  lemma AppendAssoc<T>(a: seq<T>, b: seq<T>, c: seq<T>)
    ensures a + (b + c) == (a + b) + c
  {
  }

  class Trainer {
    const agent: Agent
    const numEpisodes: int
    var errors: seq<real>
    var finalWealths: seq<int>
    /** Every episode run so far, in order. */
    ghost var history: seq<Episode>

    /** One entry per episode in each list; an error is the sum of the absolute
        differences between the Q-table before and after its episode; a final wealth
        is where its episode ended. */
    ghost predicate Valid()
      reads this, agent.actionIndexMap
    {
      && agent.Valid()
      && |errors| == |history|
      && |finalWealths| == |history|
      && (forall k {:trigger Recorded(errors[k], finalWealths[k], history[k])} ::
            0 <= k < |history| ==> Recorded(errors[k], finalWealths[k], history[k]))
    }

    /** What one episode appends: the sum of the absolute differences between the
        table before and after it, and the wealth it ended with, which lies on the
        grid whenever the episode has a stage. */
    ghost predicate Recorded(error: real, wealth: int, e: Episode)
    {
      && SameDims(e.before, e.after)
      && error == TableDiff(e.before, e.after)
      && wealth == EndWealth(e.steps)
      && (agent.env.T >= 1 ==> wealth in agent.env.wealthToIndex)
    }

    /** Every recorded final wealth of an episode with stages lies on the grid. */
    lemma WealthsOnGrid()
      requires Valid()
      ensures agent.env.T >= 1 ==>
        forall k :: 0 <= k < |finalWealths| ==> finalWealths[k] in agent.env.wealthToIndex
    {
      forall k | 0 <= k < |finalWealths|
        ensures agent.env.T >= 1 ==> finalWealths[k] in agent.env.wealthToIndex
      {
        assert Recorded(errors[k], finalWealths[k], history[k]);
      }
    }

    /** Every recorded error is never negative, and it is zero exactly when its
        episode left the Q-table as it found it. */
    lemma ErrorsMeasureChange()
      requires Valid()
      ensures forall k :: 0 <= k < |errors| ==>
        errors[k] >= 0.0 && (errors[k] == 0.0 <==> history[k].before == history[k].after)
    {
      forall k | 0 <= k < |errors|
        ensures errors[k] >= 0.0 && (errors[k] == 0.0 <==> history[k].before == history[k].after)
      {
        assert Recorded(errors[k], finalWealths[k], history[k]);
      }
    }

    /** `Trainer(agent, num_episodes)`: nothing recorded yet. */
    constructor (agent: Agent, numEpisodes: int)
      requires agent.Valid()
      ensures Valid()
      ensures this.agent == agent && this.numEpisodes == numEpisodes
      ensures errors == [] && finalWealths == [] && history == []
    {
      this.agent := agent;
      this.numEpisodes := numEpisodes;
      errors := [];
      finalWealths := [];
      history := [];
    }

    /** The wealth an episode ends with: the last next wealth, or the initial wealth
        when there are no stages. */
    ghost function EndWealth(steps: seq<Step>): int
    {
      if steps == [] then agent.initialWealth else steps[|steps| - 1].wNext
    }

    /** A stage played by the rules with exploration threshold `eps` and draws `d`:
        the wealth is on the grid; exploring, the amount is the picked candidate;
        exploiting, it is the candidate of the first largest Q-value of the row; the
        next wealth is the market's move and the reward is the one for that stage. */
    ghost predicate StepFollows(s: Step, eps: real, d: Draws, exp: real -> real)
    {
      var env := agent.env;
      && env.wStep > 0
      && s.w in env.actionCandidates
      && |s.row| == |env.actionCandidates[s.w]| > 0
      && (d.explore < eps ==> s.x == env.actionCandidates[s.w][d.pick % |s.row|])
      && (d.explore >= eps ==> s.x == env.actionCandidates[s.w][ArgMax(s.row)])
      && s.wNext == NextState(env, s.w, s.x, d.market)
      && (s.t == env.T - 1 ==> env.alpha != 0.0)
      && s.reward == GetReward(env, exp, s.t, s.wNext)
    }

    /** The first `n` stages of episode `episode`: stage `k` starts where stage `k - 1`
        ended (the first at the initial wealth) and follows the rules with the
        episode's epsilon and the draws `rng(episode, k)`. */
    ghost predicate Trajectory(steps: seq<Step>, n: int, episode: int, exp: real -> real,
                               rng: (int, int) -> Draws)
    {
      && |steps| == n
      && forall k :: 0 <= k < |steps| ==>
           && steps[k].t == k
           && steps[k].w == (if k == 0 then agent.initialWealth else steps[k - 1].wNext)
           && StepFollows(steps[k], agent.ComputeEpsilon(exp, episode), rng(episode, k), exp)
    }

    /** The tables of consecutive episodes join up, from `start` to `end`. */
    ghost predicate Chained(start: Table, eps: seq<Episode>, end: Table)
    {
      if eps == [] then start == end
      else
        && Chained(start, eps[..|eps| - 1], eps[|eps| - 1].before)
        && eps[|eps| - 1].after == end
    }

    /** The table after the updates of `steps`, one after the other, from `q`. */
    ghost function Replay(q: Table, steps: seq<Step>): Table
    {
      if steps == [] then q
      else
        var s := steps[|steps| - 1];
        agent.UpdatedTable(Replay(q, steps[..|steps| - 1]), s.t, s.w, s.x, s.reward, s.wNext)
    }

    /** Every stage's recorded row is the real cells of its state's row in the table
        as the stages before it left it. */
    ghost predicate RowsSeen(q: Table, steps: seq<Step>)
    {
      steps == [] ||
      var s := steps[|steps| - 1];
      && RowsSeen(q, steps[..|steps| - 1])
      && s.w in agent.env.wealthToIndex && s.w in agent.env.actionCandidates
      && s.row == RowPrefix(Replay(q, steps[..|steps| - 1]), s.t,
                            agent.env.wealthToIndex[s.w], |agent.env.actionCandidates[s.w]|)
    }

    /** An episode's table after it is its table before it with its stages' updates
        applied in order, and each stage chose from the table as it stood then. */
    ghost predicate Replays(e: Episode)
    {
      e.after == Replay(e.before, e.steps) && RowsSeen(e.before, e.steps)
    }

    lemma ReplayExtend(q: Table, steps: seq<Step>, s: Step)
      requires RowsSeen(q, steps)
      requires s.w in agent.env.wealthToIndex && s.w in agent.env.actionCandidates
      requires s.row == RowPrefix(Replay(q, steps), s.t,
                                  agent.env.wealthToIndex[s.w], |agent.env.actionCandidates[s.w]|)
      ensures RowsSeen(q, steps + [s])
      ensures Replay(q, steps + [s]) == agent.UpdatedTable(Replay(q, steps), s.t, s.w, s.x, s.reward, s.wNext)
    {
      assert (steps + [s])[..|steps|] == steps;
    }

    /** Replaying stages whose amounts are candidates keeps every padding cell `0.0`. */
    lemma {:induction false} ReplayKeepsPadding(q: Table, steps: seq<Step>)
      requires Lookups(agent.env) && agent.Padded(q)
      requires forall k :: 0 <= k < |steps| ==>
        steps[k].w in agent.env.actionCandidates && steps[k].x in agent.env.actionCandidates[steps[k].w]
      ensures agent.Padded(Replay(q, steps))
      decreases |steps|
    {
      if steps != [] {
        var init, s := steps[..|steps| - 1], steps[|steps| - 1];
        ReplayKeepsPadding(q, init);
        agent.UpdateKeepsPadding(Replay(q, init), s.t, s.w, s.x, s.reward, s.wNext);
      }
    }

    /** Every stage of an episode invests one of its wealth's candidates. */
    lemma TrajectoryCandidates(steps: seq<Step>, episode: int, exp: real -> real, rng: (int, int) -> Draws)
      requires Trajectory(steps, |steps|, episode, exp, rng)
      ensures forall k :: 0 <= k < |steps| ==>
        steps[k].w in agent.env.actionCandidates && steps[k].x in agent.env.actionCandidates[steps[k].w]
    {
      forall k | 0 <= k < |steps|
        ensures steps[k].w in agent.env.actionCandidates
        ensures steps[k].x in agent.env.actionCandidates[steps[k].w]
      {
        assert StepFollows(steps[k], agent.ComputeEpsilon(exp, episode), rng(episode, k), exp);
      }
    }

    /** Training never writes a padding cell: if they are `0.0` in the table before a
        run of episodes, they are `0.0` in the table after it. */
    lemma {:induction false} TrainingKeepsPadding(start: Table, eps: seq<Episode>, end: Table,
                                                  exp: real -> real, rng: (int, int) -> Draws)
      requires Lookups(agent.env) && agent.Padded(start)
      requires Played(eps, exp, rng) && Chained(start, eps, end)
      ensures agent.Padded(end)
      decreases |eps|
    {
      if eps != [] {
        var init, e := eps[..|eps| - 1], eps[|eps| - 1];
        assert Played(init, exp, rng) && Chained(start, init, e.before);
        TrainingKeepsPadding(start, init, e.before, exp, rng);
        TrajectoryCandidates(e.steps, |eps| - 1, exp, rng);
        ReplayKeepsPadding(e.before, e.steps);
      }
    }

    lemma TrajectoryExtend(steps: seq<Step>, s: Step, episode: int, exp: real -> real,
                           rng: (int, int) -> Draws)
      requires Trajectory(steps, |steps|, episode, exp, rng)
      requires s.t == |steps| && s.w == EndWealth(steps)
      requires StepFollows(s, agent.ComputeEpsilon(exp, episode), rng(episode, |steps|), exp)
      ensures Trajectory(steps + [s], |steps| + 1, episode, exp, rng)
      ensures EndWealth(steps + [s]) == s.wNext
    {
      var steps' := steps + [s];
      assert steps'[|steps|] == s;
      forall k | 0 <= k < |steps|
        ensures steps'[k] == steps[k]
      {
      }
    }

    /** Episode `k` of `eps` ran its `T` stages as episode number `k` of a call. */
    ghost predicate Played(eps: seq<Episode>, exp: real -> real, rng: (int, int) -> Draws)
    {
      eps == [] ||
      (Played(eps[..|eps| - 1], exp, rng) &&
       Trajectory(eps[|eps| - 1].steps, agent.env.T, |eps| - 1, exp, rng) &&
       Replays(eps[|eps| - 1]))
    }

    lemma PlayedExtend(eps: seq<Episode>, e: Episode, exp: real -> real, rng: (int, int) -> Draws)
      requires Played(eps, exp, rng)
      requires Trajectory(e.steps, agent.env.T, |eps|, exp, rng) && Replays(e)
      ensures Played(eps + [e], exp, rng)
    {
      assert (eps + [e])[..|eps|] == eps;
    }

    /** Every recorded episode of a call followed the rules with its own number. */
    lemma {:induction false} PlayedAt(eps: seq<Episode>, exp: real -> real, rng: (int, int) -> Draws, k: int)
      requires Played(eps, exp, rng) && 0 <= k < |eps|
      ensures Trajectory(eps[k].steps, agent.env.T, k, exp, rng)
      ensures Replays(eps[k])
      decreases |eps|
    {
      if k < |eps| - 1 {
        PlayedAt(eps[..|eps| - 1], exp, rng, k);
        assert eps[..|eps| - 1][k] == eps[k];
      }
    }

    /** Appending an episode that starts where the chain ends extends the chain. */
    lemma ChainExtend(start: Table, eps: seq<Episode>, e: Episode)
      requires Chained(start, eps, e.before)
      ensures Chained(start, eps + [e], e.after)
    {
      assert (eps + [e])[..|eps|] == eps;
    }

    /** In a chain, each episode starts where the one before it ended. */
    lemma {:induction false} ChainedAt(start: Table, eps: seq<Episode>, end: Table, k: int)
      requires Chained(start, eps, end) && 0 <= k < |eps|
      ensures eps[k].before == (if k == 0 then start else eps[k - 1].after)
      ensures k == |eps| - 1 ==> eps[k].after == end
      decreases |eps|
    {
      var init := eps[..|eps| - 1];
      if k < |eps| - 1 {
        ChainedAt(start, init, eps[|eps| - 1].before, k);
        assert init[k] == eps[k];
        if k > 0 {
          assert init[k - 1] == eps[k - 1];
        }
      } else if k > 0 {
        ChainedAt(start, init, eps[|eps| - 1].before, k - 1);
        assert init[k - 1] == eps[k - 1];
      }
    }

    /** One pass of the `while t < T` loop: choose, move, reward, update. */
    method PlayStage(t: int, w: int, epsilon: real, d: Draws, exp: real -> real)
      returns (wNext: int, ghost s: Step)
      requires agent.Valid() && 0 <= t < agent.env.T
      requires agent.env.wMax % agent.env.wStep == 0
      requires w in agent.env.wealthToIndex
      requires t == agent.env.T - 1 ==> agent.env.alpha != 0.0
      modifies agent.Q
      ensures agent.Valid()
      ensures s.t == t && s.w == w && s.wNext == wNext
      ensures w in agent.env.actionCandidates
      ensures s.row == RowPrefix(old(Contents(agent.Q)), t,
                                 agent.env.wealthToIndex[w], |agent.env.actionCandidates[w]|)
      ensures Contents(agent.Q) == agent.UpdatedTable(old(Contents(agent.Q)), t, w, s.x, s.reward, wNext)
      ensures StepFollows(s, epsilon, d, exp)
      ensures wNext in agent.env.wealthToIndex
    {
      var env := agent.env;
      ghost var row := agent.QRow(t, env.wealthToIndex[w], |env.actionCandidates[w]|);
      agent.RowInContents(t, env.wealthToIndex[w], |env.actionCandidates[w]|);
      var x := agent.ChooseAction(t, w, epsilon, d.explore, d.pick);
      if d.explore >= epsilon {
        ArgMaxUnique(row, x / env.actionStep);
      }
      wNext := NextState(env, w, x, d.market);
      var reward := GetReward(env, exp, t, wNext);
      agent.ActionIndexIsDivision(t, w, x);
      agent.UpdateQTable(t, w, x, reward, wNext);
      s := Step(t, w, row, x, wNext, reward);
    }

    /** The body of the `while t < T` loop of `train()` for one episode. */
    method RunEpisode(episode: int, epsilon: real, exp: real -> real, rng: (int, int) -> Draws)
      returns (wFinal: int, ghost steps: seq<Step>)
      requires agent.Valid()
      requires epsilon == agent.ComputeEpsilon(exp, episode)
      requires agent.env.wMax % agent.env.wStep == 0
      requires agent.env.T >= 1 ==> agent.initialWealth in agent.env.wealthToIndex
      requires agent.env.T >= 1 ==> agent.env.alpha != 0.0
      modifies agent.Q
      ensures agent.Valid()
      ensures Trajectory(steps, agent.env.T, episode, exp, rng)
      ensures wFinal == EndWealth(steps)
      ensures agent.env.T >= 1 ==> wFinal in agent.env.wealthToIndex
      ensures Contents(agent.Q) == Replay(old(Contents(agent.Q)), steps)
      ensures RowsSeen(old(Contents(agent.Q)), steps)
    {
      var env := agent.env;
      ghost var start := Contents(agent.Q);
      var t := 0;
      var w := agent.initialWealth;
      steps := [];
      while t < env.T
        invariant agent.Valid()
        invariant 0 <= t <= env.T
        invariant Trajectory(steps, t, episode, exp, rng)
        invariant w == EndWealth(steps)
        invariant env.T >= 1 ==> w in env.wealthToIndex
        invariant Contents(agent.Q) == Replay(start, steps)
        invariant RowsSeen(start, steps)
      {
        var wNext;
        ghost var s;
        wNext, s := PlayStage(t, w, epsilon, rng(episode, t), exp);
        TrajectoryExtend(steps, s, episode, exp, rng);
        ReplayExtend(start, steps, s);
        steps := steps + [s];
        w := wNext;
        t := t + 1;
      }
      wFinal := w;
    }

    /** The body of one iteration of the episode loop of `train()` up to the appends:
        snapshot the table, play the episode, and measure how far the table moved. */
    method MeasureEpisode(episode: int, exp: real -> real, rng: (int, int) -> Draws)
      returns (diffVal: real, wFinal: int, ghost e: Episode)
      requires agent.Valid()
      requires agent.env.wMax % agent.env.wStep == 0
      requires agent.env.T >= 1 ==> agent.initialWealth in agent.env.wealthToIndex
      requires agent.env.T >= 1 ==> agent.env.alpha != 0.0
      modifies agent.Q
      ensures agent.Valid()
      ensures Trajectory(e.steps, agent.env.T, episode, exp, rng)
      ensures e.before == old(Contents(agent.Q)) && e.after == Contents(agent.Q)
      ensures Replays(e)
      ensures Recorded(diffVal, wFinal, e)
      ensures agent.env.T >= 1 ==> wFinal in agent.env.wealthToIndex
    {
      var epsilon := agent.ComputeEpsilon(exp, episode);
      var qBefore := CopyTable(agent.Q);
      ContentsEqual(qBefore, agent.Q);
      ghost var steps;
      wFinal, steps := RunEpisode(episode, epsilon, exp, rng);
      diffVal := agent.ComputeQDiff(qBefore);
      e := Episode(steps, Contents(qBefore), Contents(agent.Q));
      ContentsDims(qBefore, agent.Q);
    }

    /** One iteration of the episode loop of `train()`: play and measure the episode,
        then append the table's change and the final wealth. */
    method PlayEpisode(episode: int, exp: real -> real, rng: (int, int) -> Draws)
      returns (ghost e: Episode)
      requires Valid()
      requires agent.env.wMax % agent.env.wStep == 0
      requires agent.env.T >= 1 ==> agent.initialWealth in agent.env.wealthToIndex
      requires agent.env.T >= 1 ==> agent.env.alpha != 0.0
      modifies this, agent.Q
      ensures Valid()
      ensures history == old(history) + [e]
      ensures errors == old(errors) + [errors[|errors| - 1]]
      ensures finalWealths == old(finalWealths) + [finalWealths[|finalWealths| - 1]]
      ensures Trajectory(e.steps, agent.env.T, episode, exp, rng)
      ensures e.before == old(Contents(agent.Q)) && e.after == Contents(agent.Q)
      ensures Replays(e)
      ensures Recorded(errors[|errors| - 1], finalWealths[|finalWealths| - 1], e)
      ensures agent.env.T >= 1 ==> finalWealths[|finalWealths| - 1] in agent.env.wealthToIndex
    {
      var diffVal, wFinal;
      diffVal, wFinal, e := MeasureEpisode(episode, exp, rng);
      errors := errors + [diffVal];
      finalWealths := finalWealths + [wFinal];
      history := history + [e];
    }

    /** `train()` without its progress log: `numEpisodes` episodes (none when that
        is not positive), numbered from `0`, each with the epsilon of its number and
        the draws `rng(episode, t)`. Each appends the change of the Q-table over the
        episode to `errors` and the wealth it ended with to `finalWealths`; the
        episodes' tables join up from the table before the call to the one after. */
    method Train(exp: real -> real, rng: (int, int) -> Draws)
      requires Valid()
      requires agent.env.wMax % agent.env.wStep == 0
      requires agent.env.T >= 1 ==> agent.initialWealth in agent.env.wealthToIndex
      requires agent.env.T >= 1 ==> agent.env.alpha != 0.0
      modifies this, agent.Q
      ensures Valid()
      ensures |history| == old(|history|) + (if numEpisodes > 0 then numEpisodes else 0)
      ensures history[..old(|history|)] == old(history)
      ensures errors[..old(|errors|)] == old(errors)
      ensures finalWealths[..old(|finalWealths|)] == old(finalWealths)
      ensures Played(history[old(|history|)..], exp, rng)
      ensures agent.env.T >= 1 ==>
        forall k :: old(|finalWealths|) <= k < |finalWealths| ==> finalWealths[k] in agent.env.wealthToIndex
      ensures Chained(old(Contents(agent.Q)), history[old(|history|)..], Contents(agent.Q))
    {
      ghost var start := Contents(agent.Q);
      ghost var played: seq<Episode> := [];
      ghost var newErrors: seq<real> := [];
      ghost var newWealths: seq<int> := [];
      var episode := 0;
      while episode < numEpisodes
        invariant Valid()
        invariant 0 <= episode <= (if numEpisodes > 0 then numEpisodes else 0)
        invariant |played| == episode
        invariant history == old(history) + played
        invariant errors == old(errors) + newErrors
        invariant finalWealths == old(finalWealths) + newWealths
        invariant Played(played, exp, rng)
        invariant Chained(start, played, Contents(agent.Q))
      {
        ghost var e := PlayEpisode(episode, exp, rng);
        AppendAssoc(old(errors), newErrors, [errors[|errors| - 1]]);
        AppendAssoc(old(finalWealths), newWealths, [finalWealths[|finalWealths| - 1]]);
        newErrors := newErrors + [errors[|errors| - 1]];
        newWealths := newWealths + [finalWealths[|finalWealths| - 1]];
        ChainExtend(start, played, e);
        PlayedExtend(played, e, exp, rng);
        played := played + [e];
        episode := episode + 1;
      }
      assert errors[..old(|errors|)] == old(errors);
      assert finalWealths[..old(|finalWealths|)] == old(finalWealths);
      WealthsOnGrid();
      assert history[old(|history|)..] == played;
    }
  }
}
