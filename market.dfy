/** The market the agent invests in (class `Environment`): a wealth grid, the
    investment amounts allowed at each wealth level, the one-step wealth
    transition driven by a Bernoulli risky return, and the terminal reward. */
module Market {
  import opened Grid

  /** The environment's parameters and the lookups it derives from them once, at
      construction. `alpha` is the risk-aversion parameter of the utility, not the
      agent's learning rate. */
  datatype Environment = Environment(
    T: int,
    p: real,
    aRet: real,
    bRet: real,
    risklessRet: real,
    alpha: real,
    wMax: int,
    wStep: int,
    actionStep: int,
    allWealthLevels: seq<int>,
    wealthToIndex: map<int, nat>,
    actionCandidates: map<int, seq<int>>)

  /** The derived lookups are the ones construction builds from the parameters. */
  ghost predicate WellFormed(env: Environment)
  {
    && env.wStep > 0
    && env.actionStep > 0
    && env.allWealthLevels == Range(0, env.wMax + 1, env.wStep)
    && env.wealthToIndex == EnumerateMap(env.allWealthLevels)
    && env.actionCandidates == CandidateTable(env.allWealthLevels, env.actionStep)
  }

  /** `{w: list(range(0, w + 1, actionStep)) for w in levels}`. */
  function CandidateTable(levels: seq<int>, actionStep: int): map<int, seq<int>>
    requires actionStep > 0
  {
    map w | w in levels :: Range(0, w + 1, actionStep)
  }

  /** The candidate table has exactly the grid as its keys, and at each of them
      the range of investments up to that wealth. */
  lemma CandidateKeys(env: Environment)
    requires WellFormed(env)
    ensures forall i :: 0 <= i < |env.allWealthLevels| ==> env.allWealthLevels[i] in env.actionCandidates
    ensures forall w :: w in env.actionCandidates ==> w in env.allWealthLevels
    ensures forall w :: w in env.actionCandidates ==> env.actionCandidates[w] == Range(0, w + 1, env.actionStep)
  {
    CandidateTableKeys(env.allWealthLevels, env.actionStep);
  }

  lemma CandidateTableKeys(levels: seq<int>, actionStep: int)
    requires actionStep > 0
    ensures var cands := CandidateTable(levels, actionStep);
      && (forall i :: 0 <= i < |levels| ==> levels[i] in cands)
      && (forall w :: w in cands ==> w in levels)
      && (forall w :: w in cands ==> cands[w] == Range(0, w + 1, actionStep))
  {
  }

  /** `Environment(...)`: both steps must be positive, since `range` rejects a zero step. */
  function NewEnvironment(T: int, p: real, aRet: real, bRet: real, risklessRet: real, alpha: real,
                          wMax: int, wStep: int, actionStep: int): (env: Environment)
    requires wStep > 0 && actionStep > 0
    ensures WellFormed(env)
    ensures env.T == T && env.p == p && env.aRet == aRet && env.bRet == bRet
    ensures env.risklessRet == risklessRet && env.alpha == alpha
    ensures env.wMax == wMax && env.wStep == wStep && env.actionStep == actionStep
  {
    var levels := Range(0, wMax + 1, wStep);
    Environment(T, p, aRet, bRet, risklessRet, alpha, wMax, wStep, actionStep,
                levels, EnumerateMap(levels), CandidateTable(levels, actionStep))
  }

  /** The wealth grid is `0, wStep, ..., wMax` rounded down to a multiple of `wStep`;
      the lookup sends each grid value `w` to `w / wStep`, its position, and the
      lookup and the candidate table have the grid as their keys. */
  lemma WealthGrid(env: Environment)
    requires WellFormed(env) && env.wMax >= 0
    ensures |env.allWealthLevels| == env.wMax / env.wStep + 1
    ensures forall i :: 0 <= i < |env.allWealthLevels| ==> env.allWealthLevels[i] == i * env.wStep
    ensures forall w :: w in env.wealthToIndex <==> 0 <= w <= env.wMax && w % env.wStep == 0
    ensures forall w :: w in env.wealthToIndex <==> w in env.actionCandidates
    ensures forall w :: w in env.wealthToIndex ==>
      env.wealthToIndex[w] == w / env.wStep && env.allWealthLevels[w / env.wStep] == w
  {
    MultiplesUpTo(env.wMax, env.wStep);
    forall w | w in env.wealthToIndex
      ensures env.wealthToIndex[w] == w / env.wStep && env.allWealthLevels[w / env.wStep] == w
    {
      WealthIndexAt(env, w);
    }
  }

  lemma WealthIndexAt(env: Environment, w: int)
    requires WellFormed(env) && w in env.wealthToIndex
    ensures env.wealthToIndex[w] == w / env.wStep && env.allWealthLevels[w / env.wStep] == w
  {
    GridValueIsMultiple(env, w);
    MulDiv(env.wealthToIndex[w], env.wStep);
  }

  lemma GridValueIsMultiple(env: Environment, w: int)
    requires WellFormed(env) && w in env.wealthToIndex
    ensures w == env.wealthToIndex[w] * env.wStep
  {
    RangeShape(0, env.wMax + 1, env.wStep);
  }

  /** What the agent reads off the environment's lookups: the grid is non-empty,
      the index lookup and the candidate table share the grid as their keys, the
      index lookup finds each grid value again at position `w / wStep`, and the candidates at every grid
      wealth start at `0` and are the successive multiples of `actionStep`. */
  ghost predicate Lookups(env: Environment)
  {
    && env.wStep > 0
    && env.actionStep > 0
    && env.wMax >= 0
    && |env.allWealthLevels| > 0
    && (forall i :: 0 <= i < |env.allWealthLevels| ==> env.allWealthLevels[i] in env.actionCandidates)
    && (forall w :: w in env.wealthToIndex <==> w in env.actionCandidates)
    && (forall w :: w in env.wealthToIndex <==> 0 <= w <= env.wMax && w % env.wStep == 0)
    && (forall w :: w in env.wealthToIndex ==>
          env.wealthToIndex[w] < |env.allWealthLevels| && env.allWealthLevels[env.wealthToIndex[w]] == w)
    && (forall w :: w in env.wealthToIndex ==> env.wealthToIndex[w] == w / env.wStep)
    && (forall w :: w in env.actionCandidates ==> CandidateRow(env.actionCandidates[w], env.actionStep, w))
  }

  /** A candidate list for wealth `w`: never empty, every entry an amount in
      `[0, w]` whose position is `entry / step`, and found at that position again by
      the position dictionary. */
  ghost predicate CandidateRow(c: seq<int>, step: int, w: int)
    requires step > 0
  {
    && |c| > 0
    && (forall i :: 0 <= i < |c| ==> 0 <= c[i] <= w)
    && (forall i :: 0 <= i < |c| ==> c[i] / step == i)
    && (forall i :: 0 <= i < |c| ==> EnumerateMap(c)[c[i]] == i)
  }

  lemma LookupsHold(env: Environment)
    requires WellFormed(env) && env.wMax >= 0
    ensures Lookups(env)
  {
    WealthGrid(env);
    CandidateKeys(env);
    RangeShape(0, env.wMax + 1, env.wStep);
    forall w | w in env.actionCandidates
      ensures CandidateRow(env.actionCandidates[w], env.actionStep, w)
    {
      CandidateRowHolds(env, w);
    }
  }

  lemma CandidateRowHolds(env: Environment, w: int)
    requires WellFormed(env) && w in env.actionCandidates
    ensures CandidateRow(env.actionCandidates[w], env.actionStep, w)
  {
    Candidates(env, w);
    forall i | 0 <= i < |env.actionCandidates[w]|
      ensures env.actionCandidates[w][i] / env.actionStep == i
      ensures EnumerateMap(env.actionCandidates[w])[env.actionCandidates[w][i]] == i
    {
      CandidateIndex(env, w, i);
    }
  }

  /** The candidates at grid wealth `w` are the multiples of `actionStep` in `[0, w]`,
      in increasing order, `w / actionStep + 1` of them, the i-th being
      `i * actionStep`; in particular `0` comes first and the list is never empty. */
  lemma Candidates(env: Environment, w: int)
    requires WellFormed(env) && w in env.actionCandidates
    ensures var c := env.actionCandidates[w];
      && 0 <= w
      && |c| == w / env.actionStep + 1
      && c[0] == 0
      && (forall i :: 0 <= i < |c| ==> c[i] == i * env.actionStep)
      && Increasing(c)
      && (forall x :: x in c <==> 0 <= x <= w && x % env.actionStep == 0)
  {
    RangeShape(0, env.wMax + 1, env.wStep);
    var i :| 0 <= i < |env.allWealthLevels| && env.allWealthLevels[i] == w;
    NonNegProduct(i, env.wStep);
    MultiplesUpTo(w, env.actionStep);
  }

  /** The candidate at position `i` for wealth `w` is found again from its value by
      `x / actionStep`, the arithmetic the agent's index lookup amounts to. */
  lemma CandidateIndex(env: Environment, w: int, i: int)
    requires WellFormed(env) && w in env.actionCandidates
    requires 0 <= i < |env.actionCandidates[w]|
    ensures env.actionCandidates[w][i] / env.actionStep == i
    ensures EnumerateMap(env.actionCandidates[w])[env.actionCandidates[w][i]] == i
  {
    Candidates(env, w);
    MulDiv(i, env.actionStep);
    EnumerateMapAt(env.actionCandidates[w], i);
  }

  /** Python's `round` on the exact value: the nearest integer, ties to the even one. */
  function RoundHalfEven(r: real): (n: int)
    ensures -0.5 <= n as real - r <= 0.5
    ensures n as real - r == 0.5 || r - n as real == 0.5 ==> n % 2 == 0
  {
    var f := r.Floor;
    var d := r - f as real;
    if d < 0.5 then f else if d > 0.5 then f + 1 else if f % 2 == 0 then f else f + 1
  }

  /** The return of the risky part: `aRet` when the uniform draw `u` falls below `p`. */
  function RiskyReturn(env: Environment, u: real): real
  {
    if u < env.p then env.aRet else env.bRet
  }

  /** Wealth after one period before it is put back on the grid. */
  function RawNextWealth(env: Environment, w: int, x: int, u: real): real
  {
    x as real * (1.0 + RiskyReturn(env, u)) + (w - x) as real * (1.0 + env.risklessRet)
  }

  /** `get_next_state(w, x)`, with `u` the value `random.random()` returned. The raw
      wealth is rounded to the nearest multiple of `wStep` and clamped into
      `[0, wMax]`: the result is never negative, never above `wMax`, a multiple of
      `wStep` whenever `wMax` is, and the grid point nearest the raw wealth whenever
      that lies inside the grid's span. */
  function NextState(env: Environment, w: int, x: int, u: real): (wNext: int)
    requires env.wStep > 0
    ensures 0 <= wNext && (env.wMax >= 0 ==> wNext <= env.wMax)
    ensures env.wMax % env.wStep == 0 ==> wNext % env.wStep == 0
    ensures env.wMax >= 0 && env.wMax % env.wStep == 0 ==>
      var raw := RawNextWealth(env, w, x, u);
      && (raw <= 0.0 ==> wNext == 0)
      && (raw >= env.wMax as real ==> wNext == env.wMax)
      && (0.0 <= raw <= env.wMax as real ==>
            -(env.wStep as real) / 2.0 <= wNext as real - raw <= env.wStep as real / 2.0)
  {
    var raw := RawNextWealth(env, w, x, u);
    var k := RoundHalfEven(raw / env.wStep as real);
    var rounded := k * env.wStep;
    RoundedMultiple(raw, env.wStep, k);
    MulDiv(k, env.wStep);
    ClampedRounding(raw, env.wStep, env.wMax, k);
    var capped := if rounded < env.wMax then rounded else env.wMax;
    if capped > 0 then capped else 0
  }

  /** Multiplying back by the step turns "within 1/2 of the quotient" into
      "within half a step of the raw value". */
  lemma RoundedMultiple(raw: real, step: int, k: int)
    requires step > 0
    requires -0.5 <= k as real - raw / step as real <= 0.5
    ensures -(step as real) / 2.0 <= (k * step) as real - raw <= step as real / 2.0
  {
    var s := step as real;
    var d := k as real - raw / s;
    assert (k * step) as real == k as real * s;
    assert (k * step) as real - raw == d * s;
    NonNegRealProduct(0.5 - d, s);
    NonNegRealProduct(d + 0.5, s);
  }

  lemma NonNegRealProduct(a: real, b: real)
    requires a >= 0.0 && b >= 0.0
    ensures a * b >= 0.0
  {
  }

  lemma PositiveRealProduct(a: real, b: real)
    requires a > 0.0 && b > 0.0
    ensures a * b > 0.0
  {
  }

  /** A value inside the grid's span rounds to a point inside it; one at or beyond
      an end rounds to that end or past it. */
  lemma ClampedRounding(raw: real, step: int, wMax: int, k: int)
    requires step > 0
    requires -(step as real) / 2.0 <= (k * step) as real - raw <= step as real / 2.0
    ensures wMax >= 0 && wMax % step == 0 ==>
      && (raw <= 0.0 ==> k * step <= 0)
      && (raw >= wMax as real ==> k * step >= wMax)
      && (0.0 <= raw <= wMax as real ==> 0 <= k * step <= wMax)
  {
    if wMax >= 0 && wMax % step == 0 {
      var top := wMax / step;
      assert wMax == top * step;
      MultipleOrder(k, 0, step);
      MultipleOrder(k, top, step);
    }
  }

  /** Multiples of a positive step keep the order of their factors, a step apart. */
  lemma MultipleOrder(k: int, c: int, step: int)
    requires step > 0
    ensures k <= c ==> k * step <= c * step
    ensures k >= c ==> k * step >= c * step
    ensures k <= c - 1 ==> k * step <= c * step - step
    ensures k >= c + 1 ==> k * step >= c * step + step
  {
    if k <= c {
      NonNegProduct(c - k, step);
      if k <= c - 1 {
        NonNegProduct(c - 1 - k, step);
      }
    } else {
      NonNegProduct(k - c - 1, step);
    }
  }

  /** `utility(w)`: exponential utility, with `exp` standing for `np.exp`. */
  function Utility(env: Environment, exp: real -> real, w: int): real
    requires env.alpha != 0.0
  {
    -exp(-env.alpha * w as real) / env.alpha
  }

  /** `get_reward(t, w)`: the utility of `w` at the last stage, `0.0` before it. */
  function GetReward(env: Environment, exp: real -> real, t: int, w: int): real
    requires t == env.T - 1 ==> env.alpha != 0.0
  {
    if t == env.T - 1 then Utility(env, exp, w) else 0.0
  }

  ghost predicate Positive(exp: real -> real)
  {
    forall r :: exp(r) > 0.0
  }

  ghost predicate StrictlyIncreasing(exp: real -> real)
  {
    forall a, b :: a < b ==> exp(a) < exp(b)
  }

  /** With an increasing `exp` and a positive risk aversion, more wealth gives
      strictly more utility. */
  lemma UtilityIncreasing(env: Environment, exp: real -> real, w1: int, w2: int)
    requires env.alpha > 0.0 && StrictlyIncreasing(exp) && w1 < w2
    ensures Utility(env, exp, w1) < Utility(env, exp, w2)
  {
    var e1, e2 := exp(-env.alpha * w1 as real), exp(-env.alpha * w2 as real);
    assert env.alpha * w1 as real < env.alpha * w2 as real by {
      assert env.alpha * (w2 as real - w1 as real) > 0.0;
    }
    assert e2 < e1;
    assert e1 / env.alpha - e2 / env.alpha == (e1 - e2) / env.alpha;
  }

  /** Before the last stage the reward is `0.0`, whatever `exp` and the risk aversion. */
  lemma RewardBeforeHorizon(env: Environment, exp: real -> real, t: int, w: int)
    requires t != env.T - 1
    ensures GetReward(env, exp, t, w) == 0.0
  {
  }

  /** With a positive `exp` and a positive risk aversion, the reward is non-zero
      exactly at the last stage, where it is the (negative) utility. */
  lemma RewardOnlyAtHorizon(env: Environment, exp: real -> real, t: int, w: int)
    requires env.alpha > 0.0 && Positive(exp)
    ensures GetReward(env, exp, t, w) != 0.0 <==> t == env.T - 1
    ensures t == env.T - 1 ==> GetReward(env, exp, t, w) == Utility(env, exp, w) < 0.0
  {
    if t == env.T - 1 {
      var e := exp(-env.alpha * w as real);
      assert e > 0.0;
      assert -e / env.alpha < 0.0;
    }
  }

  /** The unit-test scenario: from wealth 1000 investing 500 with returns 0.2 / -0.3
      and riskless 0.02 on a 50-step grid up to 6000, the next wealth lies in
      [850, 1100] whichever return is drawn. */
  lemma NextStateTestWindow(u: real)
    ensures var env := NewEnvironment(10, 0.8, 0.2, -0.3, 0.02, 0.001, 6000, 50, 50);
      850 <= NextState(env, 1000, 500, u) <= 1100
  {
    var env := NewEnvironment(10, 0.8, 0.2, -0.3, 0.02, 0.001, 6000, 50, 50);
    if u < 0.8 {
      assert RawNextWealth(env, 1000, 500, u) == 1110.0;
      var k := RoundHalfEven(1110.0 / 50.0);
      assert k == 22;
    } else {
      assert RawNextWealth(env, 1000, 500, u) == 860.0;
      var k := RoundHalfEven(860.0 / 50.0);
      assert k == 17;
    }
  }
}
