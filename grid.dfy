/** The two list-building idioms the environment and the agent are made of:
    `list(range(start, stop, step))` with a positive step, and the dictionary
    `{v: i for i, v in enumerate(s)}` that maps each value to its position. */
module Grid {

  /** `list(range(start, stop, step))` for a positive `step`. */
  function Range(start: int, stop: int, step: int): (r: seq<int>)
    requires step > 0
    decreases stop - start
  {
    if start >= stop then [] else [start] + Range(start + step, stop, step)
  }

  ghost predicate Increasing(s: seq<int>)
  {
    forall i, j :: 0 <= i < j < |s| ==> s[i] < s[j]
  }

  /** The i-th element of a range is `start + i*step`, the elements increase,
      the last one lies below `stop` and the next one would not. */
  lemma {:induction false} RangeShape(start: int, stop: int, step: int)
    requires step > 0
    ensures var r := Range(start, stop, step);
      && (forall i :: 0 <= i < |r| ==> r[i] == start + i * step)
      && Increasing(r)
      && start + |r| * step >= stop
      && (|r| > 0 ==> start + (|r| - 1) * step < stop)
    decreases stop - start
  {
    if start < stop {
      RangeShape(start + step, stop, step);
      var r := Range(start, stop, step);
      var rest := Range(start + step, stop, step);
      assert r == [start] + rest;
      forall i | 0 <= i < |r| ensures r[i] == start + i * step {
        if i > 0 {
          assert r[i] == rest[i - 1] == start + step + (i - 1) * step;
        }
      }
      forall i, j | 0 <= i < j < |r| ensures r[i] < r[j] {
        if i > 0 {
          assert r[i] == rest[i - 1] && r[j] == rest[j - 1];
        } else {
          assert r[j] == rest[j - 1] == start + step + (j - 1) * step;
          NonNegProduct(j - 1, step);
        }
      }
    }
  }

  lemma NonNegProduct(a: int, b: int)
    requires a >= 0 && b >= 0
    ensures a * b >= 0
  {
  }

  /** Integer division is determined by the multiples of `step` around `n`. */
  lemma DivBetween(n: int, step: int, q: int)
    requires step > 0
    requires q * step <= n < (q + 1) * step
    ensures n / step == q && n % step == n - q * step
  {
    var q', r' := n / step, n % step;
    assert n == q' * step + r' && 0 <= r' < step;
    if q' > q {
      NonNegProduct(q' - q - 1, step);
      assert false;
    } else if q' < q {
      NonNegProduct(q - q' - 1, step);
      assert false;
    }
  }

  /** A multiple of `step` divides back exactly. */
  lemma MulDiv(i: int, step: int)
    requires step > 0
    ensures (i * step) / step == i && (i * step) % step == 0
  {
    assert (i + 1) * step == i * step + step;
    DivBetween(i * step, step, i);
  }

  /** Division by a positive step keeps order. */
  lemma DivMonotone(a: int, b: int, step: int)
    requires step > 0 && a <= b
    ensures a / step <= b / step
  {
    var qa, qb := a / step, b / step;
    if qa > qb {
      NonNegProduct(qa - qb - 1, step);
      assert false;
    }
  }

  /** `range(0, n + 1, step)` for `n >= 0` holds exactly the multiples of `step`
      in `[0, n]`, `n / step + 1` of them, the i-th being `i * step`. */
  lemma MultiplesUpTo(n: int, step: int)
    requires step > 0 && n >= 0
    ensures var r := Range(0, n + 1, step);
      && |r| == n / step + 1
      && (forall i :: 0 <= i < |r| ==> r[i] == i * step)
      && Increasing(r)
      && (forall x :: x in r <==> 0 <= x <= n && x % step == 0)
  {
    var r := Range(0, n + 1, step);
    RangeShape(0, n + 1, step);
    DivBetween(n, step, |r| - 1);
    forall x | x in r ensures 0 <= x <= n && x % step == 0 {
      var i :| 0 <= i < |r| && r[i] == x;
      MultipleBelow(n, step, i, |r|);
    }
    forall x | 0 <= x <= n && x % step == 0 ensures x in r {
      MultipleIndex(x, step, |r|);
      assert r[x / step] == x;
    }
  }

  lemma MultipleBelow(n: int, step: int, i: int, len: int)
    requires step > 0 && 0 <= i < len && (len - 1) * step <= n
    ensures 0 <= i * step <= n && (i * step) % step == 0
  {
    MulDiv(i, step);
    NonNegProduct(i, step);
    NonNegProduct(len - 1 - i, step);
  }

  lemma MultipleIndex(x: int, step: int, len: int)
    requires step > 0 && 0 <= x < len * step && x % step == 0
    ensures 0 <= x / step < len && x == (x / step) * step
  {
    var i := x / step;
    if i >= len {
      NonNegProduct(i - len, step);
      assert false;
    }
  }

  /** `{v: i for i, v in enumerate(s)}`: a later position overwrites an earlier one. */
  function EnumerateMap(s: seq<int>): (m: map<int, nat>)
    ensures forall x :: x in m <==> x in s
    ensures forall x :: x in m ==> m[x] < |s| && s[m[x]] == x
    ensures forall x, j :: x in m && m[x] < j < |s| ==> s[j] != x
  {
    if s == [] then map[] else EnumerateMap(s[..|s| - 1])[s[|s| - 1] := |s| - 1]
  }

  /** On a list without repetitions every value is mapped back to its own position. */
  lemma EnumerateMapAt(s: seq<int>, i: int)
    requires Increasing(s) && 0 <= i < |s|
    ensures s[i] in EnumerateMap(s) && EnumerateMap(s)[s[i]] == i
  {
    var k := EnumerateMap(s)[s[i]];
    assert s[k] == s[i];
  }
}
