/** Descriptors of one row of heights: the mean, the population variance
    (the roughness) and the central moments, evaluated exactly over the
    reals. */
module Statistics {

  function Sum(s: seq<int>): int {
    if |s| == 0 then 0 else s[0] + Sum(s[1..])
  }

  /** Overwriting one entry changes the sum by the difference. */
  lemma {:induction false} SumUpdate(s: seq<int>, i: nat, v: int)
    requires i < |s|
    ensures Sum(s[i := v]) == Sum(s) - s[i] + v
  {
    if i == 0 {
      assert s[i := v][1..] == s[1..];
    } else {
      assert s[i := v][1..] == s[1..][i - 1 := v];
      SumUpdate(s[1..], i - 1, v);
    }
  }

  /** A row whose entries all equal `c` sums to `|s| * c`. */
  lemma {:induction false} SumConstant(s: seq<int>, c: int)
    requires forall j :: 0 <= j < |s| ==> s[j] == c
    ensures Sum(s) == |s| * c
  {
    if |s| > 0 {
      SumConstant(s[1..], c);
    }
  }

  /** `np.mean`: the sum divided by the number of entries. */
  function Mean(s: seq<int>): (m: real)
    requires |s| > 0
    ensures m * (|s| as real) == Sum(s) as real
  {
    (Sum(s) as real) / (|s| as real)
  }

  /** A row summing to `|s| * k` has mean `k`. */
  lemma MeanFromSum(s: seq<int>, k: int)
    requires |s| > 0 && Sum(s) == |s| * k
    ensures Mean(s) == k as real
  {
    var n := |s| as real;
    CastProduct(|s|, k);
    CancelFactor(Mean(s), k as real, n);
  }

  lemma CastProduct(a: int, b: int)
    ensures (a * b) as real == (a as real) * (b as real)
  {
  }

  lemma CancelFactor(a: real, b: real, n: real)
    requires n > 0.0 && a * n == b * n
    ensures a == b
  {
    assert (a - b) * n == 0.0;
  }

  /** A flat row's mean is its common value. */
  lemma MeanOfConstant(s: seq<int>, c: int)
    requires |s| > 0
    requires forall j :: 0 <= j < |s| ==> s[j] == c
    ensures Mean(s) == c as real
  {
    SumConstant(s, c);
    MeanFromSum(s, c);
  }

  function Square(d: real): real {
    d * d
  }

  function Power(d: real, n: nat): real {
    if n == 0 then 1.0 else d * Power(d, n - 1)
  }

  /** Sum of `(x - mu) ** 2` over the row. */
  function SquaredDeviationSum(s: seq<int>, mu: real): real {
    if |s| == 0 then 0.0 else Square(s[0] as real - mu) + SquaredDeviationSum(s[1..], mu)
  }

  /** Sum of `(x - mu) ** n` over the row. */
  function DeviationPowerSum(s: seq<int>, mu: real, n: nat): real {
    if |s| == 0 then 0.0 else Power(s[0] as real - mu, n) + DeviationPowerSum(s[1..], mu, n)
  }

  /** A square is never negative, and is positive off zero. */
  lemma SquareSign(d: real)
    ensures Square(d) >= 0.0
    ensures d != 0.0 ==> Square(d) > 0.0
  {
    if d != 0.0 {
      calc {
        0.0;
        0.0 * d;
      <  d * d;
        Square(d);
      }
    } else {
      calc {
        Square(d);
        0.0 * 0.0;
        0.0;
      }
    }
  }

  lemma {:induction false} SquaredDeviationSumNonNegative(s: seq<int>, mu: real)
    ensures SquaredDeviationSum(s, mu) >= 0.0
  {
    if |s| > 0 {
      SquareSign(s[0] as real - mu);
      SquaredDeviationSumNonNegative(s[1..], mu);
    }
  }

  /** A sum of squares is zero exactly when every term is. */
  lemma {:induction false} SquaredDeviationSumZero(s: seq<int>, mu: real)
    ensures SquaredDeviationSum(s, mu) == 0.0 <==> forall j :: 0 <= j < |s| ==> s[j] as real == mu
  {
    if |s| > 0 {
      var tail := s[1..];
      SquaredDeviationSumZero(tail, mu);
      SquaredDeviationSumNonNegative(tail, mu);
      SquareSign(s[0] as real - mu);
      assert SquaredDeviationSum(s, mu) == Square(s[0] as real - mu) + SquaredDeviationSum(tail, mu);
      assert (forall j :: 0 <= j < |s| ==> s[j] as real == mu) <==>
             (s[0] as real == mu && forall j :: 0 <= j < |tail| ==> tail[j] as real == mu) by {
        assert forall j :: 0 < j < |s| ==> s[j] == tail[j - 1];
        assert forall j :: 0 <= j < |tail| ==> tail[j] == s[j + 1];
      }
    }
  }

  /** The roughness: the mean squared deviation from the mean height,
      divided by the number of sites (no Bessel correction). */
  function Roughness(s: seq<int>): (w: real)
    requires |s| > 0
    ensures w >= 0.0
  {
    SquaredDeviationSumNonNegative(s, Mean(s));
    SquaredDeviationSum(s, Mean(s)) / (|s| as real)
  }

  /** The roughness vanishes exactly on a flat row. */
  lemma RoughnessZeroIffFlat(s: seq<int>)
    requires |s| > 0
    ensures Roughness(s) == 0.0 <==> forall j :: 0 <= j < |s| ==> s[j] == s[0]
  {
    var mu := Mean(s);
    SquaredDeviationSumZero(s, mu);
    if forall j :: 0 <= j < |s| ==> s[j] == s[0] {
      MeanOfConstant(s, s[0]);
    }
  }

  /** The central moment of the given order: the mean of `(x - mu) ** n`.
      The moment of order zero is one, and every even moment is non-negative. */
  function Moment(s: seq<int>, order: nat): (m: real)
    requires |s| > 0
    ensures order == 0 ==> m == 1.0
    ensures order % 2 == 0 ==> m >= 0.0
  {
    var n := |s| as real;
    PowerZeroSum(s, Mean(s));
    assert n / n == 1.0;
    EvenPowerSumNonNegative(s, Mean(s), order);
    DeviationPowerSum(s, Mean(s), order) / n
  }

  /** Every term of order zero is one. */
  lemma {:induction false} PowerZeroSum(s: seq<int>, mu: real)
    ensures DeviationPowerSum(s, mu, 0) == |s| as real
  {
    if |s| > 0 {
      PowerZeroSum(s[1..], mu);
    }
  }

  /** An even power is never negative. */
  lemma {:induction false} EvenPowerNonNegative(d: real, n: nat)
    requires n % 2 == 0
    ensures Power(d, n) >= 0.0
  {
    if n > 0 {
      EvenPowerNonNegative(d, n - 2);
      SquareSign(d);
      assert Power(d, n) == Square(d) * Power(d, n - 2);
    }
  }

  /** A sum of even powers is never negative. */
  lemma {:induction false} EvenPowerSumNonNegative(s: seq<int>, mu: real, n: nat)
    ensures n % 2 == 0 ==> DeviationPowerSum(s, mu, n) >= 0.0
  {
    if |s| > 0 && n % 2 == 0 {
      EvenPowerNonNegative(s[0] as real - mu, n);
      EvenPowerSumNonNegative(s[1..], mu, n);
    }
  }

  lemma {:induction false} PowerTwoSum(s: seq<int>, mu: real)
    ensures DeviationPowerSum(s, mu, 2) == SquaredDeviationSum(s, mu)
  {
    if |s| > 0 {
      var d := s[0] as real - mu;
      assert Power(d, 1) == d * Power(d, 0) == d;
      assert Power(d, 2) == d * Power(d, 1) == Square(d);
      PowerTwoSum(s[1..], mu);
    }
  }

  /** The second central moment is the roughness. */
  lemma MomentTwoIsRoughness(s: seq<int>)
    requires |s| > 0
    ensures Moment(s, 2) == Roughness(s)
  {
    PowerTwoSum(s, Mean(s));
  }

  /** The deviations from `mu` sum to the row's sum less `|s| * mu`. */
  lemma {:induction false} DeviationSumOne(s: seq<int>, mu: real)
    ensures DeviationPowerSum(s, mu, 1) == Sum(s) as real - (|s| as real) * mu
  {
    if |s| > 0 {
      var d := s[0] as real - mu;
      assert Power(d, 1) == d * Power(d, 0) == d;
      DeviationSumOne(s[1..], mu);
    }
  }

  /** The first central moment vanishes: deviations from the mean cancel. */
  lemma MomentOneIsZero(s: seq<int>)
    requires |s| > 0
    ensures Moment(s, 1) == 0.0
  {
    DeviationSumOne(s, Mean(s));
  }

  /** The central moments of a flat row vanish, from order one on. */
  lemma {:induction false} FlatMoments(s: seq<int>, order: nat)
    requires |s| > 0 && order > 0
    requires forall j :: 0 <= j < |s| ==> s[j] == s[0]
    ensures Moment(s, order) == 0.0
  {
    MeanOfConstant(s, s[0]);
    FlatPowerSum(s, s[0] as real, order);
  }

  lemma {:induction false} FlatPowerSum(s: seq<int>, mu: real, order: nat)
    requires order > 0
    requires forall j :: 0 <= j < |s| ==> s[j] as real == mu
    ensures DeviationPowerSum(s, mu, order) == 0.0
  {
    if |s| > 0 {
      assert s[0] as real - mu == 0.0;
      assert Power(0.0, order) == 0.0 * Power(0.0, order - 1);
      assert forall j :: 0 <= j < |s[1..]| ==> s[1..][j] == s[j + 1];
      FlatPowerSum(s[1..], mu, order);
    }
  }
}
