/** The exact upper bound on a violation rate and the verdict drawn from it. */
module LatencyVerdict {
  import opened Binomial

  const REQUIRED_ZERO_VIOLATION_N := 59
  const ROUNDS: nat := 200
  const LEVEL := 0.05

  // P(X <= k), with the guards at the ends and the clamp.
  function Cdf(k: nat, n: nat, p: real): real {
    if p <= 0.0 then 1.0
    else if p >= 1.0 then 0.0
    else if Below(k + 1, n, p) > 1.0 then 1.0 else Below(k + 1, n, p)
  }

  lemma CdfDecreases(k: nat, n: nat, p: real, q: real)
    requires k < n && 0.0 <= p < q <= 1.0
    ensures 0.0 <= Cdf(k, n, q) < Cdf(k, n, p) <= 1.0
  {
    if 0.0 < p { BelowBounds(k + 1, n, p); }
    if q < 1.0 { BelowBounds(k + 1, n, q); }
    if 0.0 < p && q < 1.0 { BelowDecreases(k + 1, n, p, q); }
  }

  lemma CdfGrows(k: nat, l: nat, n: nat, p: real)
    requires k <= l
    ensures Cdf(k, n, p) <= Cdf(l, n, p)
  {
    if 0.0 < p < 1.0 { BelowGrows(k + 1, l + 1, n, p); }
  }

  // The bisection, round by round.
  function Bisect(k: nat, n: nat, lo: real, hi: real, rounds: nat): (real, real)
    decreases rounds
  {
    if rounds == 0 then (lo, hi)
    else
      var mid := (lo + hi) / 2.0;
      if Cdf(k, n, mid) > LEVEL then Bisect(k, n, mid, hi, rounds - 1) else Bisect(k, n, lo, mid, rounds - 1)
  }

  // `root` stands for the library's 0.05^(1/n).
  ghost predicate IsRoot(root: real, n: nat) {
    0.0 <= root <= 1.0 && Pow(root, n) == LEVEL
  }

  function Bound(k: nat, n: nat, root: real): real {
    if n == 0 || k >= n then 1.0
    else if k == 0 then 1.0 - root
    else var (lo, hi) := Bisect(k, n, 0.0, 1.0, ROUNDS); (lo + hi) / 2.0
  }

  // 2^-i
  function Half(i: nat): real {
    if i == 0 then 1.0 else Half(i - 1) / 2.0
  }

  lemma {:induction false} HalfPositive(i: nat)
    ensures 0.0 < Half(i)
  {
    if i == 0 {
    } else {
      HalfPositive(i - 1);
    }
  }

  lemma {:induction false} HalfShrinks(i: nat, j: nat)
    requires i <= j
    ensures Half(j) <= Half(i)
  {
    if i == j {
    } else {
      HalfShrinks(i, j - 1);
      HalfPositive(j - 1);
    }
  }

  // The interval keeps its bracket and is halved in every round.
  lemma {:induction false} BisectBracket(k: nat, n: nat, lo: real, hi: real, rounds: nat)
    requires lo <= hi && Cdf(k, n, lo) > LEVEL >= Cdf(k, n, hi)
    ensures var r := Bisect(k, n, lo, hi, rounds);
            && lo <= r.0 <= r.1 <= hi && (r.1 - r.0) == (hi - lo) * Half(rounds)
            && Cdf(k, n, r.0) > LEVEL >= Cdf(k, n, r.1)
    decreases rounds
  {
    hide Cdf;
    if rounds == 0 {
    } else {
      var mid := (lo + hi) / 2.0;
      if Cdf(k, n, mid) > LEVEL {
        BisectBracket(k, n, mid, hi, rounds - 1);
        Halved(hi - lo, hi - mid, Half(rounds - 1));
      } else {
        BisectBracket(k, n, lo, mid, rounds - 1);
        Halved(hi - lo, mid - lo, Half(rounds - 1));
      }
    }
  }

  lemma Halved(w: real, v: real, h: real)
    requires v == w / 2.0
    ensures v * h == w * (h / 2.0)
  {
  }

  // For 0 < k < n the bound is within 2^-201 of where the distribution
  // function crosses the level.
  lemma BoundBrackets(k: nat, n: nat, root: real)
    requires 0 < k < n
    ensures var b := Bound(k, n, root);
            && 0.0 < b < 1.0
            && Cdf(k, n, b - Half(ROUNDS + 1)) > LEVEL >= Cdf(k, n, b + Half(ROUNDS + 1))
  {
    hide Below, Bisect;
    BisectBracket(k, n, 0.0, 1.0, ROUNDS);
    HalfPositive(ROUNDS);
  }

  // Any rate at which the distribution function equals the level is within
  // 2^-201 of the bound, and there is at most one.
  lemma BoundNearRoot(k: nat, n: nat, root: real, p: real)
    requires 0 < k < n && 0.0 <= p <= 1.0 && Cdf(k, n, p) == LEVEL
    ensures Bound(k, n, root) - Half(ROUNDS + 1) < p <= Bound(k, n, root) + Half(ROUNDS + 1)
    ensures forall q :: 0.0 <= q <= 1.0 && Cdf(k, n, q) == LEVEL ==> q == p
  {
    hide Cdf, Bound;
    var (lo, hi) := Bisect(k, n, 0.0, 1.0, ROUNDS);
    EndsOfBound(k, n, root);
    if p <= lo && p < lo { CdfDecreases(k, n, p, lo); }
    if p > hi { CdfDecreases(k, n, hi, p); BelowLevelAtHigh(k, n, root, p); }
    forall q | 0.0 <= q <= 1.0 && Cdf(k, n, q) == LEVEL
      ensures q == p
    {
      if q < p { CdfDecreases(k, n, q, p); }
      if p < q { CdfDecreases(k, n, p, q); }
    }
  }

  lemma EndsOfBound(k: nat, n: nat, root: real)
    requires 0 < k < n
    ensures var (lo, hi) := Bisect(k, n, 0.0, 1.0, ROUNDS);
            && 0.0 <= lo <= hi <= 1.0 && Cdf(k, n, lo) > LEVEL >= Cdf(k, n, hi)
            && Bound(k, n, root) == lo + Half(ROUNDS + 1) == hi - Half(ROUNDS + 1)
  {
    hide Below, Bisect;
    BisectBracket(k, n, 0.0, 1.0, ROUNDS);
  }

  lemma BelowLevelAtHigh(k: nat, n: nat, root: real, p: real)
    requires 0 < k < n && Bisect(k, n, 0.0, 1.0, ROUNDS).1 < p <= 1.0
    ensures Cdf(k, n, p) < LEVEL
  {
    hide Cdf, Bisect;
    EndsOfBound(k, n, root);
    CdfDecreases(k, n, Bisect(k, n, 0.0, 1.0, ROUNDS).1, p);
  }

  // Without violations the closed form is the exact crossing.
  lemma ZeroBoundExact(n: nat, root: real)
    requires IsRoot(root, n)
    ensures Cdf(0, n, Bound(0, n, root)) == LEVEL && 0.0 < Bound(0, n, root) < 1.0
  {
    var p := 1.0 - root;
    PowOne(n);
    PowZero(n);
    assert Below(1, n, p) == Below(0, n, p) + Term(n, 0, p);
    assert 1.0 - p == root;
  }

  lemma {:induction false} PowOne(n: nat)
    ensures Pow(1.0, n) == 1.0
  {
    if n == 0 {
    } else {
      PowOne(n - 1);
    }
  }

  lemma PowZero(n: nat)
    requires n > 0
    ensures Pow(0.0, n) == 0.0
  {
  }

  // ----- the bound grows with the violations -----

  lemma {:induction false} BisectWithin(k: nat, n: nat, lo: real, hi: real, rounds: nat)
    requires lo <= hi
    ensures var r := Bisect(k, n, lo, hi, rounds); lo <= r.0 <= r.1 <= hi
    decreases rounds
  {
    hide Cdf;
    if rounds == 0 {
    } else {
      var mid := (lo + hi) / 2.0;
      BisectWithin(k, n, mid, hi, rounds - 1);
      BisectWithin(k, n, lo, mid, rounds - 1);
    }
  }

  lemma {:induction false} BisectGrows(k: nat, l: nat, n: nat, lo: real, hi: real, rounds: nat)
    requires k <= l && lo <= hi
    ensures Bisect(k, n, lo, hi, rounds).0 <= Bisect(l, n, lo, hi, rounds).0
    ensures Bisect(k, n, lo, hi, rounds).1 <= Bisect(l, n, lo, hi, rounds).1
    decreases rounds
  {
    hide Cdf;
    if rounds == 0 {
    } else {
      var mid := (lo + hi) / 2.0;
      CdfGrows(k, l, n, mid);
      if (Cdf(k, n, mid) > LEVEL) == (Cdf(l, n, mid) > LEVEL) {
        BisectGrows(k, l, n, mid, hi, rounds - 1);
        BisectGrows(k, l, n, lo, mid, rounds - 1);
      } else {
        BisectWithin(k, n, lo, mid, rounds - 1);
        BisectWithin(l, n, mid, hi, rounds - 1);
      }
    }
  }

  lemma CdfGrowsStrictly(k: nat, l: nat, n: nat, p: real)
    requires k < l < n && 0.0 < p < 1.0
    ensures Cdf(k, n, p) < Cdf(l, n, p)
  {
    BelowGrows(k + 1, l + 1, n, p);
    BelowBounds(k + 1, n, p);
    BelowBounds(l + 1, n, p);
  }

  // The exact crossings, which the bounds approximate, do strictly grow.
  lemma CrossingsGrow(k: nat, l: nat, n: nat, p: real, q: real)
    requires k < l < n
    requires Cdf(k, n, p) == LEVEL && Cdf(l, n, q) == LEVEL
    ensures p < q
  {
    assert 0.0 < p < 1.0;
    CdfGrowsStrictly(k, l, n, p);
    if q < p { CdfDecreases(l, n, q, p); }
  }

  // From one violation on the bound never falls as violations are added; the
  // step from the closed form may cost the bisection's own error.
  lemma BoundGrows(k: nat, l: nat, n: nat, root: real)
    requires k <= l && (k == 0 && n > 0 ==> IsRoot(root, n))
    ensures k > 0 || l == 0 ==> Bound(k, n, root) <= Bound(l, n, root)
    ensures Bound(k, n, root) <= Bound(l, n, root) + Half(ROUNDS + 1)
  {
    hide Cdf;
    HalfPositive(ROUNDS + 1);
    if n > 0 && l < n && k > 0 {
      BisectGrows(k, l, n, 0.0, 1.0, ROUNDS);
    } else if n > 0 && l < n && l > 0 {
      ZeroStep(l, n, root);
    } else if k < n && k > 0 {
      BoundBrackets(k, n, root);
    }
  }

  lemma ZeroStep(l: nat, n: nat, root: real)
    requires 0 < l < n && IsRoot(root, n)
    ensures Bound(0, n, root) <= Bound(l, n, root) + Half(ROUNDS + 1)
  {
    var p := Bound(0, n, root);
    ZeroBoundExact(n, root);
    EndsOfBound(l, n, root);
    CdfAboveZero(l, n, p);
    hide Cdf, Bound;
    var hi := Bisect(l, n, 0.0, 1.0, ROUNDS).1;
    if hi < p { CdfDecreases(l, n, hi, p); }
  }

  lemma CdfAboveZero(l: nat, n: nat, p: real)
    requires 0 < l < n && 0.0 < p < 1.0
    ensures Cdf(0, n, p) < Cdf(l, n, p)
  {
    BelowGrows(1, l + 1, n, p);
    BelowBounds(1, n, p);
    BelowBounds(l + 1, n, p);
  }

  // ----- the verdict -----

  datatype State = Pass | Fail | Error

  function Verdict(violations: nat, n: nat, root: real): State {
    if n == 0 then Error
    else if Bound(violations, n, root) > LEVEL then Fail
    else if n < REQUIRED_ZERO_VIOLATION_N && violations == 0 then Error
    else Pass
  }

  function CountAbove(lats: seq<real>, budget: real): (c: nat)
    ensures c <= |lats|
  {
    if lats == [] then 0 else CountAbove(lats[..|lats| - 1], budget) + if lats[|lats| - 1] > budget then 1 else 0
  }

  lemma BoundsMultiply(x: real, y: real, a: real, b: real, c: real, d: real)
    requires 0.0 <= a <= x <= b && 0.0 <= c <= y <= d
    ensures a * c <= x * y <= b * d
  {
    ProductMonotone(a, x, c);
    ProductMonotone(c, y, x);
    ProductMonotone(x, b, y);
    ProductMonotone(y, d, b);
  }

  lemma Multiplied(x: real, m: nat, n: nat, a: real, b: real, c: real, d: real)
    requires 0.0 <= a <= Pow(x, m) <= b && 0.0 <= c <= Pow(x, n) <= d
    ensures a * c <= Pow(x, m + n) <= b * d
  {
    hide Pow;
    PowAdd(x, m, n);
    BoundsMultiply(Pow(x, m), Pow(x, n), a, b, c, d);
  }

  // 0.95^59 <= 0.05, by squaring with rounded bounds from the first power.
  lemma FiftyNineSuffice(x: real, one: nat)
    requires x == 0.95 && one == 1
    ensures Pow(x, 59 * one) <= LEVEL
  {
    PowFirst(x, one);
    hide Pow;
    Multiplied(x, one, one, 0.95, 0.95, 0.95, 0.95);
    Multiplied(x, 2 * one, 2 * one, 0.9025, 0.9025, 0.9025, 0.9025);
    Multiplied(x, 4 * one, 4 * one, 0.8145, 0.81451, 0.8145, 0.81451);
    Multiplied(x, 8 * one, 8 * one, 0.6634, 0.66343, 0.6634, 0.66343);
    Multiplied(x, 16 * one, 16 * one, 0.4401, 0.44014, 0.4401, 0.44014);
    Multiplied(x, 32 * one, 16 * one, 0.1936, 0.19373, 0.4401, 0.44014);
    Multiplied(x, 48 * one, 8 * one, 0.0852, 0.08527, 0.6634, 0.66343);
    Multiplied(x, 56 * one, 2 * one, 0.0565, 0.05658, 0.9025, 0.9025);
    Multiplied(x, 58 * one, one, 0.0509, 0.05107, 0.95, 0.95);
  }

  // 0.9499^58 > 0.05
  lemma FiftyEightDoNot(x: real, one: nat)
    requires x == 0.9499 && one == 1
    ensures Pow(x, 58 * one) > LEVEL
  {
    PowFirst(x, one);
    hide Pow;
    Multiplied(x, one, one, 0.9499, 0.9499, 0.9499, 0.9499);
    Multiplied(x, 2 * one, 2 * one, 0.90231, 0.9024, 0.90231, 0.9024);
    Multiplied(x, 4 * one, 4 * one, 0.814163, 0.8144, 0.814163, 0.8144);
    Multiplied(x, 8 * one, 8 * one, 0.66286, 0.6633, 0.66286, 0.6633);
    Multiplied(x, 16 * one, 16 * one, 0.439383, 0.44, 0.439383, 0.44);
    Multiplied(x, 32 * one, 16 * one, 0.193057, 0.1937, 0.439383, 0.44);
    Multiplied(x, 48 * one, 8 * one, 0.084825, 0.0853, 0.66286, 0.6633);
    Multiplied(x, 56 * one, 2 * one, 0.056227, 0.0566, 0.90231, 0.9024);
  }

  lemma PowFirst(x: real, one: nat)
    requires one == 1
    ensures Pow(x, one) == x
  {
    assert Pow(x, one) == x * Pow(x, one - 1);
  }

  // Up to 58 samples the bound exceeds 5%, whatever the sample showed.
  lemma FewSamplesExceed(k: nat, n: nat, root: real)
    requires 0 < n < REQUIRED_ZERO_VIOLATION_N && (k == 0 ==> IsRoot(root, n))
    ensures Bound(k, n, root) > LEVEL
  {
    FiftyEightDoNot(0.9499, 1);
    PowAntitone(0.9499, n, 58);
    if k == 0 {
      if root >= 0.9499 { PowMonotone(0.9499, root, n); }
    } else if k < n {
      FewSamplesBisect(k, n, root);
    }
  }

  lemma FewSamplesBisect(k: nat, n: nat, root: real)
    requires 0 < k < n && Pow(0.9499, n) > LEVEL
    ensures Bound(k, n, root) > LEVEL
  {
    EndsOfBound(k, n, root);
    var p := 0.0501;
    assert Below(1, n, p) == Below(0, n, p) + Term(n, 0, p) && 1.0 - p == 0.9499;
    CdfAboveZero(k, n, p);
    BelowBounds(1, n, p);
    hide Cdf, Bound;
    var hi := Bisect(k, n, 0.0, 1.0, ROUNDS).1;
    if hi < p { CdfDecreases(k, n, hi, p); }
    HalfShrinks(14, ROUNDS + 1);
    SmallHalf();
  }

  lemma SmallHalf()
    ensures Half(14) < 0.0001
  {
    assert Half(4) == 0.0625;
    assert Half(8) == 0.00390625;
    assert Half(12) == 0.000244140625;
  }

  // From 59 samples on, no violation is a bound of at most 5%.
  lemma ManySamplesBound(n: nat, root: real)
    requires n >= REQUIRED_ZERO_VIOLATION_N && IsRoot(root, n)
    ensures Bound(0, n, root) <= LEVEL
  {
    FiftyNineSuffice(0.95, 1);
    PowAntitone(0.95, 59, n);
    if root < 0.95 { PowStrict(root, 0.95, n); }
  }

  lemma ProductStrict(x: real, y: real, a: real, b: real)
    requires 0.0 <= x < y && 0.0 <= a <= b && 0.0 < b
    ensures x * a < y * b
  {
    ProductMonotone(a, b, x);
    ProductPositive(y - x, b);
    assert (y - x) * b == y * b - x * b;
  }

  lemma {:induction false} PowStrict(x: real, y: real, n: nat)
    requires 0.0 <= x < y && n > 0
    ensures Pow(x, n) < Pow(y, n)
  {
    PowMonotone(x, y, n - 1);
    PowPositive(y, n - 1);
    ProductStrict(x, y, Pow(x, n - 1), Pow(y, n - 1));
  }

  // Passing takes 59 samples whatever they showed, no violations in 59 always
  // pass, and the insufficient-evidence outcome never happens: an error means
  // an empty sample.
  lemma VerdictMeaning(violations: nat, n: nat, root: real)
    requires violations == 0 && n > 0 ==> IsRoot(root, n)
    ensures Verdict(violations, n, root).Pass? ==> n >= REQUIRED_ZERO_VIOLATION_N
    ensures violations == 0 && n >= REQUIRED_ZERO_VIOLATION_N ==> Verdict(violations, n, root).Pass?
    ensures Verdict(violations, n, root).Error? <==> n == 0
    ensures 0 < n < REQUIRED_ZERO_VIOLATION_N ==> Verdict(violations, n, root).Fail?
  {
    hide Bound;
    if 0 < n < REQUIRED_ZERO_VIOLATION_N { FewSamplesExceed(violations, n, root); }
    if violations == 0 && n >= REQUIRED_ZERO_VIOLATION_N { ManySamplesBound(n, root); }
  }

  // What a pass with violations certifies: at a rate of 5% (plus the
  // bisection error) so few violations would be at most 5% likely.
  lemma PassCertifies(violations: nat, n: nat, root: real)
    requires 0 < violations < n && Verdict(violations, n, root).Pass?
    ensures Cdf(violations, n, LEVEL + Half(ROUNDS + 1)) <= LEVEL
  {
    hide Cdf, Bound;
    BoundBrackets(violations, n, root);
    HalfPositive(ROUNDS + 1);
    HalfShrinks(14, ROUNDS + 1);
    SmallHalf();
    var b, top := Bound(violations, n, root) + Half(ROUNDS + 1), LEVEL + Half(ROUNDS + 1);
    if b < top { CdfDecreases(violations, n, b, top); }
  }

  // ----- as it runs -----

  method ViolationUpperBound(k: nat, n: nat, root: real) returns (bound: real)
    ensures bound == Bound(k, n, root)
  {
    if n == 0 { return 1.0; }
    if k >= n { return 1.0; }
    if k == 0 { return 1.0 - root; }
    var lo, hi := 0.0, 1.0;
    for i := 0 to ROUNDS
      invariant Bisect(k, n, lo, hi, ROUNDS - i) == Bisect(k, n, 0.0, 1.0, ROUNDS)
    {
      var mid := (lo + hi) / 2.0;
      var cdf := BinomCdf(k, n, mid);
      if cdf > LEVEL { lo := mid; } else { hi := mid; }
    }
    bound := (lo + hi) / 2.0;
  }

  method BinomCdf(k: nat, n: nat, p: real) returns (sum: real)
    ensures sum == Cdf(k, n, p)
  {
    if p <= 0.0 { return 1.0; }
    if p >= 1.0 { return 0.0; }
    sum := 0.0;
    for i := 0 to k + 1
      invariant sum == Below(i, n, p)
    {
      sum := sum + Term(n, i, p);
    }
    if sum > 1.0 { return 1.0; }
  }

  method LatencyUnit(lats: seq<real>, budget: real, root: real) returns (st: State)
    ensures st == Verdict(CountAbove(lats, budget), |lats|, root)
  {
    var violations := 0;
    for i := 0 to |lats|
      invariant violations == CountAbove(lats[..i], budget)
    {
      assert lats[..i + 1][..i] == lats[..i];
      if lats[i] > budget { violations := violations + 1; }
    }
    assert lats[..|lats|] == lats;
    var n := |lats|;
    var bound := ViolationUpperBound(violations, n, root);
    st := Pass;
    if n == 0 {
      st := Error;
    } else if bound > LEVEL {
      st := Fail;
    } else if n < REQUIRED_ZERO_VIOLATION_N && violations == 0 {
      st := Error;
    }
  }
}
