/** The tabular Q-learning agent (class `Agent`): a dense Q-table of shape
    `T x |wealth grid| x maxActCount` whose rows are ragged (only the first
    `|actionCandidates[w]|` cells of a row belong to real actions, the rest is
    padding), epsilon-greedy action choice over the real cells, and the one-step
    Q-learning update of a single cell in place. */
module Learning {
  import opened Grid
  import opened Market

  /** Position of the first largest value, as `np.argmax` returns it. */
  function ArgMax(s: seq<real>): (k: nat)
    requires |s| > 0
    ensures k < |s|
    ensures forall j :: 0 <= j < |s| ==> s[j] <= s[k]
    ensures forall j :: 0 <= j < k ==> s[j] < s[k]
  {
    if |s| == 1 then 0
    else
      var k := ArgMax(s[..|s| - 1]);
      if s[|s| - 1] > s[k] then |s| - 1 else k
  }

  /** The largest value, as `np.max` returns it. */
  function MaxOf(s: seq<real>): (m: real)
    requires |s| > 0
    ensures forall j :: 0 <= j < |s| ==> s[j] <= m
    ensures exists j :: 0 <= j < |s| && s[j] == m
  {
    if |s| == 1 then s[0]
    else
      var m := MaxOf(s[..|s| - 1]);
      if s[|s| - 1] > m then s[|s| - 1] else m
  }

  /** `np.argmax` is the only position holding a largest value with every earlier
      value strictly smaller. */
  lemma ArgMaxUnique(s: seq<real>, k: int)
    requires 0 <= k < |s|
    requires forall j :: 0 <= j < |s| ==> s[j] <= s[k]
    requires forall j :: 0 <= j < k ==> s[j] < s[k]
    ensures ArgMax(s) == k
  {
    var m := ArgMax(s);
    assert s[m] == s[k];
  }

  /** `max(len(action_candidates[w]) for w in all_wealth_levels)`. */
  function MaxCount(levels: seq<int>, cands: map<int, seq<int>>): (m: nat)
    requires |levels| > 0
    requires forall i :: 0 <= i < |levels| ==> levels[i] in cands
    ensures forall i :: 0 <= i < |levels| ==> |cands[levels[i]]| <= m
    ensures exists i :: 0 <= i < |levels| && |cands[levels[i]]| == m
  {
    if |levels| == 1 then |cands[levels[0]]|
    else
      var m := MaxCount(levels[..|levels| - 1], cands);
      var last := |cands[levels[|levels| - 1]]|;
      if last > m then last else m
  }

  /** The widest row belongs to the top of the grid: `maxActCount` is the number of
      candidates at the largest grid wealth. */
  lemma MaxCountAtTop(env: Environment)
    requires WellFormed(env) && env.wMax >= 0
    ensures var levels := env.allWealthLevels;
      && |levels| > 0
      && MaxCount(levels, env.actionCandidates) == |env.actionCandidates[levels[|levels| - 1]]|
      && MaxCount(levels, env.actionCandidates) == levels[|levels| - 1] / env.actionStep + 1
  {
    var levels := env.allWealthLevels;
    RangeShape(0, env.wMax + 1, env.wStep);
    var top := levels[|levels| - 1];
    Candidates(env, top);
    var m := MaxCount(levels, env.actionCandidates);
    var i :| 0 <= i < |levels| && |env.actionCandidates[levels[i]]| == m;
    CountBelowTop(env, levels[i]);
  }

  lemma CountBelowTop(env: Environment, w: int)
    requires WellFormed(env) && w in env.actionCandidates
    ensures var levels := env.allWealthLevels;
      |levels| > 0 && |env.actionCandidates[w]| <= |env.actionCandidates[levels[|levels| - 1]]|
  {
    var levels := env.allWealthLevels;
    RangeShape(0, env.wMax + 1, env.wStep);
    var i :| 0 <= i < |levels| && levels[i] == w;
    var top := levels[|levels| - 1];
    assert w <= top;
    Candidates(env, w);
    Candidates(env, top);
    DivMonotone(w, top, env.actionStep);
  }

  /** One Q-learning step: move `q` the fraction `lr` of the way to `target`. */
  function QStep(q: real, lr: real, target: real): (r: real)
    ensures r - target == (1.0 - lr) * (q - target)
    ensures r == q <==> lr == 0.0 || target == q
    ensures 0.0 <= lr <= 1.0 ==>
      && (q <= target ==> q <= r <= target)
      && (target <= q ==> target <= r <= q)
    ensures lr == 1.0 ==> r == target
  {
    var r := q + lr * (target - q);
    StepDistance(q, lr, target, r);
    StepFixed(q, lr, target, r);
    if 0.0 <= lr <= 1.0 then
      StepBetween(q, lr, target, r);
      r
    else
      r
  }

  /** The step's distance to the target shrinks by `1 - lr`. */
  lemma StepDistance(q: real, lr: real, target: real, r: real)
    requires r == q + lr * (target - q)
    ensures r - target == (1.0 - lr) * (q - target)
  {
  }

  /** The value stays put exactly when `lr` or the distance is zero. */
  lemma StepFixed(q: real, lr: real, target: real, r: real)
    requires r == q + lr * (target - q)
    ensures r == q <==> lr == 0.0 || target == q
  {
    ZeroRealProduct(lr, target - q);
  }

  /** A fraction in `[0, 1]` lands between the two ends. */
  lemma StepBetween(q: real, lr: real, target: real, r: real)
    requires r == q + lr * (target - q) && 0.0 <= lr <= 1.0
    ensures q <= target ==> q <= r <= target
    ensures target <= q ==> target <= r <= q
  {
    var d := target - q;
    var p := lr * d;
    if q <= target {
      NonNegRealProduct(lr, d);
      NonNegRealProduct(1.0 - lr, d);
      assert (1.0 - lr) * d == d - p;
    } else {
      NonNegRealProduct(lr, -d);
      NonNegRealProduct(1.0 - lr, -d);
      assert (1.0 - lr) * -d == p - d;
      assert lr * -d == -p;
    }
  }

  lemma ZeroRealProduct(a: real, b: real)
    ensures a * b == 0.0 <==> a == 0.0 || b == 0.0
  {
    if a > 0.0 && b > 0.0 {
      PositiveRealProduct(a, b);
    } else if a > 0.0 && b < 0.0 {
      PositiveRealProduct(a, -b);
    } else if a < 0.0 && b > 0.0 {
      PositiveRealProduct(-a, b);
    } else if a < 0.0 && b < 0.0 {
      PositiveRealProduct(-a, -b);
    }
  }

  /** A fraction in `[0, 1]` of `d` lies between `0` and `d`. */
  lemma RealScaleBetween(lr: real, d: real)
    requires 0.0 <= lr <= 1.0
    ensures d >= 0.0 ==> 0.0 <= lr * d <= d
    ensures d <= 0.0 ==> d <= lr * d <= 0.0
  {
    if d >= 0.0 {
      NonNegRealProduct(lr, d);
      NonNegRealProduct(1.0 - lr, d);
    } else {
      NonNegRealProduct(lr, -d);
      NonNegRealProduct(1.0 - lr, -d);
    }
  }

  /** `n` successive updates of one cell toward the same target. */
  function Repeat(q: real, lr: real, target: real, n: nat): real
  {
    if n == 0 then q else QStep(Repeat(q, lr, target, n - 1), lr, target)
  }

  /** With a learning rate strictly inside `(0, 1)`, repeated updates toward a fixed
      target move the value strictly toward it every time and never overshoot. */
  lemma {:induction false} RepeatApproaches(q: real, lr: real, target: real, n: nat)
    requires 0.0 < lr < 1.0
    ensures q < target ==> Repeat(q, lr, target, n) < Repeat(q, lr, target, n + 1) < target
    ensures target < q ==> target < Repeat(q, lr, target, n + 1) < Repeat(q, lr, target, n)
    ensures q == target ==> Repeat(q, lr, target, n) == target
  {
    if n > 0 {
      RepeatApproaches(q, lr, target, n - 1);
    }
    StepToward(Repeat(q, lr, target, n), lr, target);
  }

  /** One step with a rate strictly inside `(0, 1)` moves strictly toward the
      target without reaching or passing it. */
  lemma StepToward(v: real, lr: real, target: real)
    requires 0.0 < lr < 1.0
    ensures v < target ==> v < QStep(v, lr, target) < target
    ensures target < v ==> target < QStep(v, lr, target) < v
  {
    var next := QStep(v, lr, target);
    var b := target - v;
    assert next == v + lr * b;
    if v < target {
      PositiveRealProduct(lr, b);
      PositiveRealProduct(1.0 - lr, b);
      assert (1.0 - lr) * b == b - lr * b;
      assert b - lr * b > 0.0;
    } else if target < v {
      PositiveRealProduct(lr, -b);
      PositiveRealProduct(1.0 - lr, -b);
      assert lr * -b == -(lr * b);
      assert (1.0 - lr) * -b == lr * b - b;
      assert lr * b - b > 0.0;
    }
  }

  function Abs(r: real): real
  {
    if r < 0.0 then -r else r
  }

  ghost predicate SameShape(a: array3<real>, b: array3<real>)
  {
    a.Length0 == b.Length0 && a.Length1 == b.Length1 && a.Length2 == b.Length2
  }

  /** A Q-table as a value: stages of rows of cells. */
  type Table = seq<seq<seq<real>>>

  /** Sum of `|a[j] - b[j]|` over a row. */
  function RowDiff(a: seq<real>, b: seq<real>): (d: real)
    requires |a| == |b|
    ensures d >= 0.0
    ensures d == 0.0 <==> a == b
  {
    if a == [] then 0.0
    else
      var n := |a| - 1;
      assert a == a[..n] + [a[n]] && b == b[..n] + [b[n]];
      RowDiff(a[..n], b[..n]) + Abs(a[n] - b[n])
  }

  /** Sum of `|a - b|` over the rows of one stage. */
  function PlaneDiff(a: seq<seq<real>>, b: seq<seq<real>>): (d: real)
    requires |a| == |b| && forall i :: 0 <= i < |a| ==> |a[i]| == |b[i]|
    ensures d >= 0.0
    ensures d == 0.0 <==> a == b
  {
    if a == [] then 0.0
    else
      var n := |a| - 1;
      assert a == a[..n] + [a[n]] && b == b[..n] + [b[n]];
      PlaneDiff(a[..n], b[..n]) + RowDiff(a[n], b[n])
  }

  /** Two tables with the same number of stages, rows and cells. */
  ghost predicate SameDims(a: Table, b: Table)
  {
    && |a| == |b|
    && forall t :: 0 <= t < |a| ==>
         && |a[t]| == |b[t]|
         && forall i :: 0 <= i < |a[t]| ==> |a[t][i]| == |b[t][i]|
  }

  /** `np.sum(np.abs(a - b))`: the sum of `|a - b|` over every cell. */
  function TableDiff(a: Table, b: Table): (d: real)
    requires SameDims(a, b)
    ensures d >= 0.0
    ensures d == 0.0 <==> a == b
  {
    if a == [] then 0.0
    else
      var n := |a| - 1;
      assert a == a[..n] + [a[n]] && b == b[..n] + [b[n]];
      TableDiff(a[..n], b[..n]) + PlaneDiff(a[n], b[n])
  }

  /** The contents of a table as a value, stage by stage and row by row. */
  function Contents(a: array3<real>): Table
    reads a
  {
    seq(a.Length0, t requires 0 <= t < a.Length0 reads a =>
      seq(a.Length1, i requires 0 <= i < a.Length1 reads a =>
        seq(a.Length2, j requires 0 <= j < a.Length2 reads a => a[t, i, j])))
  }

  /** Cell `(t, i, j)` of a table value, `0.0` outside it. */
  ghost function Cell(q: Table, t: int, i: int, j: int): real
  {
    if 0 <= t < |q| && 0 <= i < |q[t]| && 0 <= j < |q[t][i]| then q[t][i][j] else 0.0
  }

  /** `q` with cell `(t, i, j)` set to `v`, or `q` itself when that cell lies outside it. */
  ghost function SetCell(q: Table, t: int, i: int, j: int, v: real): Table
  {
    if 0 <= t < |q| && 0 <= i < |q[t]| && 0 <= j < |q[t][i]| then
      q[t := q[t][i := q[t][i][j := v]]]
    else q
  }

  /** The first `n` cells of row `(t, i)` of a table value, `[]` when they do not fit. */
  ghost function RowPrefix(q: Table, t: int, i: int, n: int): seq<real>
  {
    if 0 <= t < |q| && 0 <= i < |q[t]| && 0 <= n <= |q[t][i]| then q[t][i][..n] else []
  }

  /** Arrays of one shape have contents of the same dimensions. */
  lemma ContentsDims(a: array3<real>, b: array3<real>)
    requires SameShape(a, b)
    ensures SameDims(Contents(a), Contents(b))
  {
  }

  /** Two tables of one shape have the same contents exactly when no cell differs. */
  lemma ContentsEqual(a: array3<real>, b: array3<real>)
    requires SameShape(a, b)
    ensures Contents(a) == Contents(b) <==>
      forall t, i, j :: 0 <= t < a.Length0 && 0 <= i < a.Length1 && 0 <= j < a.Length2 ==> a[t, i, j] == b[t, i, j]
  {
    var ca, cb := Contents(a), Contents(b);
    if forall t, i, j :: 0 <= t < a.Length0 && 0 <= i < a.Length1 && 0 <= j < a.Length2 ==> a[t, i, j] == b[t, i, j] {
      forall t | 0 <= t < a.Length0 ensures ca[t] == cb[t] {
        forall i | 0 <= i < a.Length1 ensures ca[t][i] == cb[t][i] {
          assert forall j :: 0 <= j < a.Length2 ==> ca[t][i][j] == cb[t][i][j];
        }
      }
    }
    if ca == cb {
      forall t, i, j | 0 <= t < a.Length0 && 0 <= i < a.Length1 && 0 <= j < a.Length2
        ensures a[t, i, j] == b[t, i, j]
      {
        assert ca[t][i][j] == cb[t][i][j];
      }
    }
  }

  /** `_build_action_index_map()`: for every stage and grid position, the dictionary
      from a candidate amount to its position among that wealth level's candidates. */
  method BuildActionIndexMap(env: Environment) returns (m: array2<map<int, nat>>)
    requires env.T >= 0
    requires forall i :: 0 <= i < |env.allWealthLevels| ==> env.allWealthLevels[i] in env.actionCandidates
    ensures fresh(m)
    ensures m.Length0 == env.T && m.Length1 == |env.allWealthLevels|
    ensures forall t, i :: 0 <= t < env.T && 0 <= i < |env.allWealthLevels| ==>
      m[t, i] == EnumerateMap(env.actionCandidates[env.allWealthLevels[i]])
  {
    var levels := env.allWealthLevels;
    m := new map<int, nat>[env.T, |levels|];
    for t := 0 to env.T
      invariant forall t', i :: 0 <= t' < t && 0 <= i < |levels| ==>
        m[t', i] == EnumerateMap(env.actionCandidates[levels[i]])
    {
      for i := 0 to |levels|
        invariant forall t', i' :: 0 <= t' < t && 0 <= i' < |levels| ==>
          m[t', i'] == EnumerateMap(env.actionCandidates[levels[i']])
        invariant forall i' :: 0 <= i' < i ==> m[t, i'] == EnumerateMap(env.actionCandidates[levels[i']])
      {
        var cand := env.actionCandidates[levels[i]];
        m[t, i] := EnumerateMap(cand);
      }
    }
  }

  /** A well-formed environment with a non-negative `wMax` meets what the agent's
      construction needs, and its widest row, the one at the top of the grid, has
      `wMax / actionStep + 1` cells once `wMax` is on the grid. */
  lemma AgentShape(env: Environment)
    requires WellFormed(env) && env.wMax >= 0
    ensures Lookups(env)
    ensures MaxCount(env.allWealthLevels, env.actionCandidates) ==
      env.wMax / env.wStep * env.wStep / env.actionStep + 1
  {
    LookupsHold(env);
    MaxCountAtTop(env);
    WealthGrid(env);
  }

  class Agent {
    const env: Environment
    /** The learning rate (the environment's `alpha` is the utility parameter). */
    const alpha: real
    const gamma: real
    const epsilonStart: real
    const epsilonEnd: real
    const decayRate: real
    const initialWealth: int
    const maxActCount: nat
    const Q: array3<real>
    const actionIndexMap: array2<map<int, nat>>

    /** The table's shape follows the environment, every row of real actions fits
        the table, and the action index map is the one construction builds. */
    ghost predicate Valid()
      reads actionIndexMap
    {
      && Lookups(env)
      && env.T >= 0
      && maxActCount == MaxCount(env.allWealthLevels, env.actionCandidates)
      && Q.Length0 == env.T
      && Q.Length1 == |env.allWealthLevels|
      && Q.Length2 == maxActCount
      && (forall w :: w in env.actionCandidates ==> |env.actionCandidates[w]| <= maxActCount)
      && actionIndexMap.Length0 == env.T
      && actionIndexMap.Length1 == |env.allWealthLevels|
      && (forall t, i :: 0 <= t < env.T && 0 <= i < |env.allWealthLevels| ==>
            actionIndexMap[t, i] == EnumerateMap(env.actionCandidates[env.allWealthLevels[i]]))
    }

    /** `Agent(env, ...)`: a zero Q-table of shape `T x |grid| x maxActCount`, where
        `maxActCount` is the number of candidates at the top of the grid. */
    constructor (env: Environment, alpha: real, gamma: real, epsilonStart: real, epsilonEnd: real,
                 decayRate: real, initialWealth: int)
      requires Lookups(env) && env.T >= 0
      ensures Valid() && fresh(Q) && fresh(actionIndexMap)
      ensures this.env == env && this.alpha == alpha && this.gamma == gamma
      ensures this.epsilonStart == epsilonStart && this.epsilonEnd == epsilonEnd
      ensures this.decayRate == decayRate && this.initialWealth == initialWealth
      ensures forall t, i, j :: 0 <= t < Q.Length0 && 0 <= i < Q.Length1 && 0 <= j < Q.Length2 ==>
        Q[t, i, j] == 0.0
    {
      var levels := env.allWealthLevels;
      var count := MaxCount(levels, env.actionCandidates);
      forall w | w in env.actionCandidates
        ensures |env.actionCandidates[w]| <= count
      {
        assert levels[env.wealthToIndex[w]] == w;
      }
      var indexMap := BuildActionIndexMap(env);
      this.env := env;
      this.alpha := alpha;
      this.gamma := gamma;
      this.epsilonStart := epsilonStart;
      this.epsilonEnd := epsilonEnd;
      this.decayRate := decayRate;
      this.initialWealth := initialWealth;
      maxActCount := count;
      Q := new real[env.T, |levels|, count]((t, i, j) => 0.0);
      actionIndexMap := indexMap;
    }

    /** `compute_epsilon(episode)`, with `exp` standing for `np.exp`. */
    function ComputeEpsilon(exp: real -> real, episode: int): real
    {
      epsilonEnd + (epsilonStart - epsilonEnd) * exp(-decayRate * episode as real)
    }

    /** While the decay factor stays in `[0, 1]` (as `np.exp` of a non-positive
        argument does), epsilon stays between its end and start values. */
    lemma EpsilonBetween(exp: real -> real, episode: int)
      requires epsilonEnd <= epsilonStart
      requires 0.0 <= exp(-decayRate * episode as real) <= 1.0
      ensures epsilonEnd <= ComputeEpsilon(exp, episode) <= epsilonStart
    {
      var decay, span := exp(-decayRate * episode as real), epsilonStart - epsilonEnd;
      RealScaleBetween(decay, span);
      assert ComputeEpsilon(exp, episode) == epsilonEnd + decay * span;
    }

    /** `self.Q[t, i, :n]` as a sequence. */
    function QRow(t: int, i: int, n: int): seq<real>
      reads Q
      requires 0 <= t < Q.Length0 && 0 <= i < Q.Length1 && 0 <= n <= Q.Length2
    {
      seq(n, j requires 0 <= j < n reads Q => Q[t, i, j])
    }

    /** The first largest of the cells `Q[t, i, :n]`, read on the array. */
    lemma ArgMaxInRow(t: int, i: int, n: int)
      requires 0 <= t < Q.Length0 && 0 <= i < Q.Length1 && 0 < n <= Q.Length2
      ensures var k := ArgMax(QRow(t, i, n));
        && 0 <= k < n
        && (forall j :: 0 <= j < n ==> Q[t, i, j] <= Q[t, i, k])
        && (forall j :: 0 <= j < k ==> Q[t, i, j] < Q[t, i, k])
    {
      var row := QRow(t, i, n);
      assert forall j :: 0 <= j < n ==> row[j] == Q[t, i, j];
    }

    /** `choose_action(t, w, eps)`, with `u` the value `random.random()` returned and
        `pick` the draw behind `random.choice` (any natural; reduced modulo the number
        of candidates). The result is always a candidate for `w`, found at position
        `x / actionStep`, so never a padding cell; exploring, it is the picked
        candidate; exploiting, it is the first candidate whose Q-value is largest
        among the real cells of the row. */
    function ChooseAction(t: int, w: int, eps: real, u: real, pick: nat): (x: int)
      reads Q, actionIndexMap
      requires Valid() && 0 <= t < env.T && w in env.actionCandidates
      ensures x in env.actionCandidates[w]
      ensures 0 <= x / env.actionStep < |env.actionCandidates[w]|
      ensures env.actionCandidates[w][x / env.actionStep] == x
      ensures u < eps ==>
        x == env.actionCandidates[w][pick % |env.actionCandidates[w]|]
      ensures u >= eps ==>
        var wi := env.wealthToIndex[w];
        var k := x / env.actionStep;
        && (forall j :: 0 <= j < |env.actionCandidates[w]| ==> Q[t, wi, j] <= Q[t, wi, k])
        && (forall j :: 0 <= j < k ==> Q[t, wi, j] < Q[t, wi, k])
    {
      var cand := env.actionCandidates[w];
      var wIdx := env.wealthToIndex[w];
      assert env.allWealthLevels[wIdx] == w;
      var qValsForW := QRow(t, wIdx, |cand|);
      var k := if u < eps then pick % |cand| else (ArgMaxInRow(t, wIdx, |cand|); ArgMax(qValsForW));
      assert cand[k] / env.actionStep == k;
      cand[k]
    }

    /** At wealth 0 the only candidate is 0, so the choice is 0 whatever `eps` and the
        draws are. */
    lemma ChooseAtZeroWealth(t: int, eps: real, u: real, pick: nat)
      requires Valid() && 0 <= t < env.T
      ensures 0 in env.actionCandidates
      ensures ChooseAction(t, 0, eps, u, pick) == 0
    {
    }

    /** The index lookup `action_index_map[t, w_idx][x]` is the division
        `x / actionStep`, at every stage alike. */
    lemma ActionIndexIsDivision(t: int, w: int, x: int)
      requires Valid() && 0 <= t < env.T && w in env.actionCandidates
      requires x in env.actionCandidates[w]
      ensures w in env.wealthToIndex
      ensures env.wealthToIndex[w] < actionIndexMap.Length1
      ensures x in actionIndexMap[t, env.wealthToIndex[w]]
      ensures actionIndexMap[t, env.wealthToIndex[w]][x] == x / env.actionStep
    {
      var cand := env.actionCandidates[w];
      var i :| 0 <= i < |cand| && cand[i] == x;
    }

    /** An amount found in the action index map of `(t, w)` is a candidate for `w`,
        and the map sends it to `x / actionStep`. */
    lemma IndexedAction(t: int, w: int, x: int)
      requires Valid() && 0 <= t < env.T && w in env.wealthToIndex
      requires x in actionIndexMap[t, env.wealthToIndex[w]]
      ensures x in env.actionCandidates[w]
      ensures actionIndexMap[t, env.wealthToIndex[w]][x] == x / env.actionStep
      ensures x / env.actionStep < |env.actionCandidates[w]|
    {
      var wIdx := env.wealthToIndex[w];
      var cand := env.actionCandidates[w];
      var aIdx := actionIndexMap[t, wIdx][x];
      assert env.allWealthLevels[wIdx] == w;
      assert aIdx < |cand| && cand[aIdx] == x;
    }

    /** The best next-stage value over the next state's real cells, or `0.0` at
        the last stage. */
    function NextBest(t: int, wNext: int): real
      reads Q
      requires Q.Length0 == env.T && 0 <= t < env.T
      requires t < env.T - 1 ==> NextRowFits(wNext)
    {
      if t < env.T - 1 then
        MaxOf(QRow(t + 1, env.wealthToIndex[wNext], |env.actionCandidates[wNext]|))
      else 0.0
    }

    /** The real cells of the next state's row lie inside the table. */
    ghost predicate NextRowFits(wNext: int)
    {
      && wNext in env.wealthToIndex
      && wNext in env.actionCandidates
      && env.wealthToIndex[wNext] < Q.Length1
      && 0 < |env.actionCandidates[wNext]| <= Q.Length2
    }

    /** The value the updated cell moves toward: the reward plus the discounted best
        next-stage value. */
    function Target(t: int, reward: real, wNext: int): real
      reads Q
      requires Q.Length0 == env.T && 0 <= t < env.T
      requires t < env.T - 1 ==> NextRowFits(wNext)
    {
      reward + gamma * NextBest(t, wNext)
    }

    /** `max_q_next` computed on a table value `q`: the best of the next state's real
        cells at stage `t + 1`, or `0.0` at the last stage. */
    ghost function BestIn(q: Table, t: int, wNext: int): real
    {
      if t < env.T - 1 && wNext in env.wealthToIndex && wNext in env.actionCandidates then
        var row := RowPrefix(q, t + 1, env.wealthToIndex[wNext], |env.actionCandidates[wNext]|);
        if row == [] then 0.0 else MaxOf(row)
      else 0.0
    }

    /** `reward + gamma * max_q_next` computed on a table value `q`. */
    ghost function TargetIn(q: Table, t: int, reward: real, wNext: int): real
    {
      reward + gamma * BestIn(q, t, wNext)
    }

    /** `update_q_table(t, w, x, reward, w_next)` on a table value: the cell of
        `(t, w, x)` takes one Q-learning step toward `TargetIn`. */
    ghost function UpdatedTable(q: Table, t: int, w: int, x: int, reward: real, wNext: int): Table
    {
      var i: int := if w in env.wealthToIndex then env.wealthToIndex[w] else -1;
      var j := if env.actionStep > 0 then x / env.actionStep else -1;
      SetCell(q, t, i, j, QStep(Cell(q, t, i, j), alpha, TargetIn(q, t, reward, wNext)))
    }

    /** Every padding cell of a table value is `0.0`: the cells of row `i` past the
        number of candidates at grid level `i`. */
    ghost predicate Padded(q: Table)
    {
      forall t, i, j ::
        && 0 <= t < |q| && 0 <= i < |q[t]| && 0 <= j < |q[t][i]|
        && i < |env.allWealthLevels| && env.allWealthLevels[i] in env.actionCandidates
        && j >= |env.actionCandidates[env.allWealthLevels[i]]|
        ==> q[t][i][j] == 0.0
    }

    /** An update with a candidate amount writes a real cell, never a padding cell. */
    lemma UpdateKeepsPadding(q: Table, t: int, w: int, x: int, reward: real, wNext: int)
      requires Lookups(env) && Padded(q)
      requires w in env.actionCandidates && x in env.actionCandidates[w]
      ensures Padded(UpdatedTable(q, t, w, x, reward, wNext))
    {
      var c := env.actionCandidates[w];
      var k :| 0 <= k < |c| && c[k] == x;
      var i := env.wealthToIndex[w];
      assert x / env.actionStep == k;
      assert env.allWealthLevels[i] == w;
      RealCellKeepsPadding(q, t, i, k, QStep(Cell(q, t, i, k), alpha, TargetIn(q, t, reward, wNext)));
    }

    /** Writing a cell that is not padding leaves every padding cell as it was. */
    lemma RealCellKeepsPadding(q: Table, t: int, i: int, j: int, v: real)
      requires Padded(q)
      requires 0 <= i < |env.allWealthLevels| && env.allWealthLevels[i] in env.actionCandidates
      requires j < |env.actionCandidates[env.allWealthLevels[i]]|
      ensures Padded(SetCell(q, t, i, j, v))
    {
    }

    /** Writing one Q-learning step into the cell of `(t, w, x)` is `UpdatedTable`. */
    lemma WriteIsUpdate(q: Table, t: int, w: int, x: int, reward: real, wNext: int, v: real)
      requires w in env.wealthToIndex && env.actionStep > 0
      requires var i, j := env.wealthToIndex[w], x / env.actionStep;
        v == QStep(Cell(q, t, i, j), alpha, TargetIn(q, t, reward, wNext))
      ensures SetCell(q, t, env.wealthToIndex[w], x / env.actionStep, v) == UpdatedTable(q, t, w, x, reward, wNext)
    {
    }

    /** The slice `Q[t, i, :n]` is that row's prefix in the table's contents. */
    lemma RowInContents(t: int, i: int, n: int)
      requires 0 <= t < Q.Length0 && 0 <= i < Q.Length1 && 0 <= n <= Q.Length2
      ensures QRow(t, i, n) == RowPrefix(Contents(Q), t, i, n)
    {
      var c := Contents(Q);
      assert c[t][i][..n] == QRow(t, i, n);
    }

    /** The array's target is the target computed on the table's contents. */
    lemma TargetInContents(t: int, reward: real, wNext: int)
      requires Valid() && 0 <= t < env.T
      requires t < env.T - 1 ==> wNext in env.wealthToIndex
      ensures t < env.T - 1 ==> NextRowFits(wNext)
      ensures NextBest(t, wNext) == BestIn(Contents(Q), t, wNext)
      ensures Target(t, reward, wNext) == TargetIn(Contents(Q), t, reward, wNext)
    {
      if t < env.T - 1 {
        assert env.allWealthLevels[env.wealthToIndex[wNext]] == wNext;
      }
      BestInContents(t, wNext);
    }

    /** The array's best next-stage value is the one computed on its contents. */
    lemma BestInContents(t: int, wNext: int)
      requires Q.Length0 == env.T && 0 <= t < env.T
      requires t < env.T - 1 ==> NextRowFits(wNext)
      ensures NextBest(t, wNext) == BestIn(Contents(Q), t, wNext)
    {
      if t < env.T - 1 {
        RowInContents(t + 1, env.wealthToIndex[wNext], |env.actionCandidates[wNext]|);
      }
    }

    /** A write at stage `t` leaves the next stage's best value as it was. */
    lemma SetCellKeepsBest(q: Table, t: int, i: int, j: int, v: real, wNext: int)
      requires 0 <= t
      ensures BestIn(SetCell(q, t, i, j, v), t, wNext) == BestIn(q, t, wNext)
    {
      var q' := SetCell(q, t, i, j, v);
      if t + 1 < |q| {
        assert q'[t + 1] == q[t + 1];
      }
    }

    /** `Q[t, i, j] = v`: the contents change in that one cell. */
    method WriteCell(t: int, i: int, j: int, v: real)
      requires 0 <= t < Q.Length0 && 0 <= i < Q.Length1 && 0 <= j < Q.Length2
      modifies Q
      ensures Q[t, i, j] == v
      ensures forall t', i', j' ::
        0 <= t' < Q.Length0 && 0 <= i' < Q.Length1 && 0 <= j' < Q.Length2 && (t', i', j') != (t, i, j)
        ==> Q[t', i', j'] == old(Q[t', i', j'])
      ensures Contents(Q) == SetCell(old(Contents(Q)), t, i, j, v)
      ensures old(Q[t, i, j]) == Cell(old(Contents(Q)), t, i, j)
    {
      ghost var before := Contents(Q);
      Q[t, i, j] := v;
      var c, r := Contents(Q), SetCell(before, t, i, j, v);
      forall t' | 0 <= t' < Q.Length0 ensures c[t'] == r[t'] {
        forall i' | 0 <= i' < Q.Length1 ensures c[t'][i'] == r[t'][i'] {
          forall j' | 0 <= j' < Q.Length2 ensures c[t'][i'][j'] == r[t'][i'][j'] {
            if (t', i', j') != (t, i, j) {
              assert c[t'][i'][j'] == Q[t', i', j'] == old(Q[t', i', j']) == before[t'][i'][j'];
            }
          }
        }
      }
    }

    /** `update_q_table(t, w, x, reward, w_next)`: only the cell of `(t, w, x)`, at
        position `x / actionStep` of a real (non-padding) cell, changes; it takes one
        Q-learning step toward the target, and the target itself is left as it was. */
    method UpdateQTable(t: int, w: int, x: int, reward: real, wNext: int)
      requires Valid() && 0 <= t < env.T
      requires w in env.wealthToIndex
      requires x in actionIndexMap[t, env.wealthToIndex[w]]
      requires t < env.T - 1 ==> wNext in env.wealthToIndex
      modifies Q
      ensures Valid()
      ensures x in env.actionCandidates[w] && x / env.actionStep < |env.actionCandidates[w]|
      ensures var wi, ai := env.wealthToIndex[w], x / env.actionStep;
        && Q[t, wi, ai] == QStep(old(Q[t, wi, ai]), alpha, old(Target(t, reward, wNext)))
        && (forall t', i, j ::
              0 <= t' < Q.Length0 && 0 <= i < Q.Length1 && 0 <= j < Q.Length2 && (t', i, j) != (t, wi, ai)
              ==> Q[t', i, j] == old(Q[t', i, j]))
      ensures NextBest(t, wNext) == old(NextBest(t, wNext))
      ensures env.wealthToIndex[w] == w / env.wStep
      ensures Contents(Q) == UpdatedTable(old(Contents(Q)), t, w, x, reward, wNext)
    {
      var wIdx := env.wealthToIndex[w];
      var aIdx := actionIndexMap[t, wIdx][x];
      IndexedAction(t, w, x);
      ghost var before := Contents(Q);
      TargetInContents(t, reward, wNext);

      var target := Target(t, reward, wNext);
      var oldQ := Q[t, wIdx, aIdx];
      WriteCell(t, wIdx, aIdx, QStep(oldQ, alpha, target));
      TargetInContents(t, reward, wNext);
      SetCellKeepsBest(before, t, wIdx, aIdx, Q[t, wIdx, aIdx], wNext);
      WriteIsUpdate(before, t, w, x, reward, wNext, Q[t, wIdx, aIdx]);
    }

    /** `compute_q_diff(Q_old)`: the sum of `|Q_old - Q|` over every cell. It is never
        negative and it is zero exactly when no cell differs. */
    function ComputeQDiff(qOld: array3<real>): (d: real)
      reads Q, qOld
      requires SameShape(qOld, Q)
      ensures d >= 0.0
      ensures d == 0.0 <==>
        forall t, i, j :: 0 <= t < Q.Length0 && 0 <= i < Q.Length1 && 0 <= j < Q.Length2 ==>
          qOld[t, i, j] == Q[t, i, j]
    {
      ContentsEqual(qOld, Q);
      TableDiff(Contents(qOld), Contents(Q))
    }
  }
}
