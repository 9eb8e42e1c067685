/** The linear congruential generator `RNG_URAND`: a signed 32-bit state
    that every call replaces by `int32(A * x + B)`, with numpy's 32-bit
    wrap-around. */
module Int32Rng {

  import opened Wrap

  const TwoTo31: int := 0x8000_0000
  const TwoTo32: int := 0x1_0000_0000

  /** Multiplier and increment of the recurrence. */
  const A: int := 843314861
  const B: int := 453816693

  predicate Int32(x: int) {
    -TwoTo31 <= x < TwoTo31
  }

  /** Two's-complement wrap of an integer into int32. */
  function Wrap32(x: int): (r: int)
    ensures Int32(r)
    ensures (x - r) % TwoTo32 == 0
    ensures Int32(x) ==> r == x
  {
    (x + TwoTo31) % TwoTo32 - TwoTo31
  }

  lemma ModOfMultiple(k: int)
    ensures (k * TwoTo32) % TwoTo32 == 0
  {
  }

  /** Integers congruent modulo 2^32 leave the same residue. */
  lemma SameResidue(x: int, y: int)
    requires (x - y) % TwoTo32 == 0
    ensures x % TwoTo32 == y % TwoTo32
  {
    var k := (x - y) / TwoTo32;
    assert x == y + k * TwoTo32;
  }

  /** Integers congruent modulo 2^32 wrap to the same int32. */
  lemma WrapCongruent(x: int, y: int)
    requires (x - y) % TwoTo32 == 0
    ensures Wrap32(x) == Wrap32(y)
  {
    SameResidue(x + TwoTo31, y + TwoTo31);
  }

  /** One call of `rng()`: the int32 product `A * xn` wraps, the int32 sum
      with `B` wraps again. */
  function Step(x: int): (r: int)
    ensures Int32(r)
  {
    Wrap32(Wrap32(A * x) + B)
  }

  /** Wrapping twice is the same as wrapping the exact `A * x + B` once. */
  lemma StepIsSingleWrap(x: int)
    ensures Step(x) == Wrap32(A * x + B)
  {
    var p := Wrap32(A * x);
    assert (A * x - p) % TwoTo32 == 0;
    assert (A * x + B) - (p + B) == A * x - p;
    WrapCongruent(A * x + B, p + B);
  }

  /** The state read as an unsigned 32-bit residue. */
  function Unsigned(x: int): (u: int)
    ensures 0 <= u < TwoTo32
  {
    x % TwoTo32
  }

  /** `A * y` and `A * (y mod 2^32)` agree modulo 2^32 after adding `c`. */
  lemma AffineOfResidue(a: int, y: int, c: int)
    ensures (a * y + c) % TwoTo32 == (a * Unsigned(y) + c) % TwoTo32
  {
    var q := y / TwoTo32;
    assert y == q * TwoTo32 + Unsigned(y);
    calc {
      (a * y + c) - (a * Unsigned(y) + c);
      a * (y - Unsigned(y));
      a * (q * TwoTo32);
      (a * q) * TwoTo32;
    }
    ModOfMultiple(a * q);
    SameResidue(a * y + c, a * Unsigned(y) + c);
  }

  /** Read as unsigned residues, the states follow
      `x' = (A * x + B) mod 2^32`. */
  lemma UnsignedRecurrence(x: int)
    ensures Unsigned(Step(x)) == (A * Unsigned(x) + B) % TwoTo32
  {
    StepIsSingleWrap(x);
    var r := Step(x);
    assert (A * x + B - r) % TwoTo32 == 0;
    SameResidue(A * x + B, r);
    AffineOfResidue(A, x, B);
  }

  /** The state after `n` calls, starting from state `x`. */
  function Iterate(x: int, n: nat): (r: int)
    ensures n > 0 ==> Int32(r)
  {
    if n == 0 then x else Step(Iterate(x, n - 1))
  }

  /** `n` calls after `m` calls are `m + n` calls. */
  lemma {:induction false} IterateAdd(x: int, m: nat, n: nat)
    ensures Iterate(Iterate(x, m), n) == Iterate(x, m + n)
  {
    if n > 0 {
      IterateAdd(x, m, n - 1);
    }
  }

  /** The first `n` values returned by a generator in state `x`. */
  function Outputs(x: int, n: nat): (s: seq<int>)
    ensures |s| == n
    ensures forall k :: 0 <= k < n ==> s[k] == Iterate(x, k + 1)
  {
    if n == 0 then [] else Outputs(x, n - 1) + [Iterate(x, n)]
  }

  /** Skipping `m` values and then drawing `n` gives the tail of drawing `m + n`. */
  lemma OutputsSkip(x: int, m: nat, n: nat)
    ensures Outputs(Iterate(x, m), n) == Outputs(x, m + n)[m..]
  {
    forall k | 0 <= k < n
      ensures Outputs(Iterate(x, m), n)[k] == Outputs(x, m + n)[m..][k]
    {
      IterateAdd(x, m, k + 1);
    }
  }

  function Pow(a: int, n: nat): int {
    if n == 0 then 1 else a * Pow(a, n - 1)
  }

  /** `1 + a + ... + a^(n-1)`. */
  function GeometricSum(a: int, n: nat): int {
    if n == 0 then 0 else a * GeometricSum(a, n - 1) + 1
  }

  /** One more step of the closed form, regrouped. */
  lemma AffineRegroup(p: int, g: int, u: int)
    ensures A * (p * u + B * g) + B == (A * p) * u + B * (A * g + 1)
  {
  }

  /** Closed form of `n` calls, the skip-ahead formula of an LCG:
      `x_n = A^n x_0 + B (1 + A + ... + A^(n-1)) mod 2^32`. */
  lemma {:induction false} ClosedForm(x: int, n: nat)
    ensures Unsigned(Iterate(x, n)) == (Pow(A, n) * Unsigned(x) + B * GeometricSum(A, n)) % TwoTo32
  {
    if n > 0 {
      ClosedForm(x, n - 1);
      var p, g, u := Pow(A, n - 1), GeometricSum(A, n - 1), Unsigned(x);
      var y := p * u + B * g;
      calc {
        Unsigned(Iterate(x, n));
        Unsigned(Step(Iterate(x, n - 1)));
        { UnsignedRecurrence(Iterate(x, n - 1)); }
        (A * Unsigned(Iterate(x, n - 1)) + B) % TwoTo32;
        (A * Unsigned(y) + B) % TwoTo32;
        { AffineOfResidue(A, y, B); }
        (A * y + B) % TwoTo32;
        { AffineRegroup(p, g, u); }
        (Pow(A, n) * u + B * GeometricSum(A, n)) % TwoTo32;
      }
    }
  }

  /** `RNG_URAND`. The ghost fields record the seed and the number of calls,
      so that the state is always the iterate of the seed's int32 value. */
  class Urand {
    var xn: int
    ghost const seed: int
    ghost var calls: nat

    ghost predicate Valid()
      reads this
    {
      xn == Iterate(Wrap32(seed), calls) && Int32(xn)
    }

    /** `np.int32(xn)` of the seed; a seed outside int32 wraps. */
    constructor (seed: int)
      ensures Valid() && this.seed == seed && calls == 0
      ensures xn == Wrap32(seed)
    {
      xn := Wrap32(seed);
      this.seed := seed;
      calls := 0;
    }

    /** `rng(high, low, numbers)`: the arguments play no part; the new state
        is returned. */
    method Next(high: int, low: Option<int>, numbers: Option<int>) returns (r: int)
      requires Valid()
      modifies this
      ensures Valid() && calls == old(calls) + 1
      ensures xn == Step(old(xn)) && r == xn
      ensures r == Iterate(Wrap32(seed), calls)
    {
      xn := Wrap32(Wrap32(A * xn) + B);
      calls := calls + 1;
      r := xn;
    }
  }
}
