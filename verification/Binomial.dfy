/** The binomial distribution over the reals. */
module Binomial {
  import opened Basics

  function Pow(x: real, n: nat): real {
    if n == 0 then 1.0 else x * Pow(x, n - 1)
  }

  function Choose(n: nat, k: nat): nat {
    if k == 0 then 1 else if n == 0 then 0 else Choose(n - 1, k - 1) + Choose(n - 1, k)
  }

  function Factorial(n: nat): nat {
    if n == 0 then 1 else n * Factorial(n - 1)
  }

  // C * a * b, kept apart from the reasoning about sums.
  function Product(c: real, a: real, b: real): real {
    c * a * b
  }

  // P(X = i)
  function Term(n: nat, i: nat, p: real): real {
    if i > n then 0.0 else Product(Choose(n, i) as real, Pow(p, i), Pow(1.0 - p, n - i))
  }

  // P(X < k), the sum of the first k terms.
  function Below(k: nat, n: nat, p: real): real {
    if k == 0 then 0.0 else Below(k - 1, n, p) + Term(n, k - 1, p)
  }

  // (1 - p) a + p b
  function Mix(p: real, a: real, b: real): real {
    (1.0 - p) * a + p * b
  }

  lemma {:induction false} ChooseAbove(n: nat, k: nat)
    requires k > n
    ensures Choose(n, k) == 0
  {
    if n == 0 {
    } else {
      ChooseAbove(n - 1, k - 1);
      ChooseAbove(n - 1, k);
    }
  }

  lemma {:induction false} ChoosePositive(n: nat, k: nat)
    requires k <= n
    ensures Choose(n, k) >= 1
  {
    if k == 0 {
    } else {
      ChoosePositive(n - 1, k - 1);
    }
  }

  lemma PascalFactorials(c: nat, d: nat, f: nat, g: nat, h: nat, n: nat, k: nat)
    requires 1 <= k < n
    requires c * f * ((n - k) * g) == h && d * (k * f) * g == h
    ensures (c + d) * (k * f) * ((n - k) * g) == n * h
  {
    assert (c + d) * (k * f) * ((n - k) * g) == k * (c * f * ((n - k) * g)) + (n - k) * (d * (k * f) * g);
  }

  // The Pascal recursion gives n! / (k! (n - k)!), the coefficient that is
  // computed through log-gamma.
  lemma {:induction false} ChooseFactorial(n: nat, k: nat)
    requires k <= n
    ensures Choose(n, k) * Factorial(k) * Factorial(n - k) == Factorial(n)
  {
    if 0 < k < n {
      ChooseFactorial(n - 1, k - 1);
      ChooseFactorial(n - 1, k);
      PascalFactorials(Choose(n - 1, k - 1), Choose(n - 1, k), Factorial(k - 1), Factorial(n - k - 1),
                       Factorial(n - 1), n, k);
    } else if k == n && n > 0 {
      ChooseFactorial(n - 1, k - 1);
      ChooseAbove(n - 1, n);
      assert Choose(n, n) * Factorial(n) == n * (Choose(n - 1, n - 1) * Factorial(n - 1));
    }
  }

  lemma ProductPositive(a: real, b: real)
    requires 0.0 < a && 0.0 < b
    ensures 0.0 < a * b
  {
  }

  lemma ProductMonotone(a: real, b: real, c: real)
    requires a <= b && 0.0 <= c
    ensures a * c <= b * c && c * a <= c * b
  {
  }

  lemma {:induction false} PowPositive(x: real, n: nat)
    requires 0.0 < x
    ensures 0.0 < Pow(x, n)
  {
    if n == 0 {
    } else {
      PowPositive(x, n - 1);
      ProductPositive(x, Pow(x, n - 1));
    }
  }

  lemma {:induction false} PowMonotone(x: real, y: real, n: nat)
    requires 0.0 <= x <= y
    ensures 0.0 <= Pow(x, n) <= Pow(y, n)
  {
    if n == 0 {
    } else {
      PowMonotone(x, y, n - 1);
      ProductMonotone(0.0, x, Pow(x, n - 1));
      ProductMonotone(x, y, Pow(x, n - 1));
      ProductMonotone(Pow(x, n - 1), Pow(y, n - 1), y);
    }
  }

  lemma {:induction false} PowAntitone(x: real, m: nat, n: nat)
    requires 0.0 <= x <= 1.0 && m <= n
    ensures 0.0 <= Pow(x, n) <= Pow(x, m)
  {
    PowMonotone(x, x, n);
    if m == n {
    } else {
      PowAntitone(x, m, n - 1);
      ProductMonotone(x, 1.0, Pow(x, n - 1));
    }
  }

  lemma {:induction false} PowAdd(x: real, m: nat, n: nat)
    ensures Pow(x, m + n) == Pow(x, m) * Pow(x, n)
  {
    if m == 0 {
    } else {
      PowAdd(x, m - 1, n);
      Associate(x, Pow(x, m - 1), Pow(x, n));
    }
  }

  lemma Associate(a: real, b: real, c: real)
    ensures a * (b * c) == (a * b) * c
  {
  }

  lemma TermPositive(n: nat, i: nat, p: real)
    requires i <= n && 0.0 < p < 1.0
    ensures 0.0 < Term(n, i, p)
  {
    ChoosePositive(n, i);
    PowPositive(p, i);
    PowPositive(1.0 - p, n - i);
    ProductPositive(Choose(n, i) as real, Pow(p, i));
    ProductPositive((Choose(n, i) as real) * Pow(p, i), Pow(1.0 - p, n - i));
  }

  lemma SplitProduct(c: real, d: real, p: real, a: real, b: real)
    ensures Product(c + d, p * a, (1.0 - p) * b) == Mix(p, Product(d, p * a, b), Product(c, a, (1.0 - p) * b))
  {
  }

  lemma ScaleProduct(c: real, a: real, b: real, x: real)
    ensures Product(c, x * a, b) == x * Product(c, a, b) && Product(c, a, x * b) == x * Product(c, a, b)
  {
  }

  // One more trial: the last one failed or it succeeded.
  lemma TermRecursion(n: nat, i: nat, p: real)
    requires n >= 1
    ensures Term(n, i, p) == Mix(p, Term(n - 1, i, p), if i == 0 then 0.0 else Term(n - 1, i - 1, p))
  {
    if i == 0 {
      ScaleProduct(1.0, 1.0, Pow(1.0 - p, n - 1), 1.0 - p);
    } else if i < n {
      SplitProduct(Choose(n - 1, i - 1) as real, Choose(n - 1, i) as real, p, Pow(p, i - 1), Pow(1.0 - p, n - 1 - i));
    } else if i == n {
      ChooseAbove(n - 1, n);
      ScaleProduct(Choose(n - 1, n - 1) as real, Pow(p, n - 1), 1.0, p);
    }
  }

  lemma MixAdd(p: real, a: real, b: real, c: real, d: real)
    ensures Mix(p, a, b) + Mix(p, c, d) == Mix(p, a + c, b + d)
  {
  }

  lemma {:induction false} BelowRecursion(k: nat, n: nat, p: real)
    requires n >= 1 && k >= 1
    ensures Below(k, n, p) == Mix(p, Below(k, n - 1, p), Below(k - 1, n - 1, p))
  {
    TermRecursion(n, k - 1, p);
    if k == 1 {
      assert Below(0, n, p) == 0.0 && Below(0, n - 1, p) == 0.0;
      assert Below(1, n, p) == Below(0, n, p) + Term(n, 0, p);
      assert Below(1, n - 1, p) == Below(0, n - 1, p) + Term(n - 1, 0, p);
    } else {
      BelowRecursion(k - 1, n, p);
      MixAdd(p, Below(k - 1, n - 1, p), Below(k - 2, n - 1, p), Term(n - 1, k - 1, p), Term(n - 1, k - 2, p));
    }
  }

  lemma MixSame(p: real, a: real)
    ensures Mix(p, a, a) == a
  {
  }

  // The terms of n trials add up to one.
  lemma {:induction false} BelowFull(k: nat, n: nat, p: real)
    requires k > n
    ensures Below(k, n, p) == 1.0
  {
    if k > n + 1 {
      BelowFull(k - 1, n, p);
    } else if n == 0 {
      assert Below(1, 0, p) == Below(0, 0, p) + Term(0, 0, p);
    } else {
      BelowRecursion(k, n, p);
      BelowFull(k, n - 1, p);
      BelowFull(k - 1, n - 1, p);
      MixSame(p, 1.0);
    }
  }

  // More successes allowed, more probability.
  lemma {:induction false} BelowGrows(k: nat, l: nat, n: nat, p: real)
    requires k <= l && 0.0 < p < 1.0
    ensures Below(k, n, p) <= Below(l, n, p)
    ensures k < l && k <= n ==> Below(k, n, p) < Below(l, n, p)
  {
    if k == l {
    } else {
      BelowGrows(k, l - 1, n, p);
      if l - 1 <= n { TermPositive(n, l - 1, p); }
    }
  }

  lemma BelowBounds(k: nat, n: nat, p: real)
    requires 0.0 < p < 1.0 && 1 <= k <= n
    ensures 0.0 < Below(k, n, p) < 1.0
  {
    BelowGrows(0, k, n, p);
    BelowGrows(k, n + 1, n, p);
    BelowFull(n + 1, n, p);
  }

  lemma MixMonotone(q: real, a: real, b: real, a': real, b': real)
    requires 0.0 <= q <= 1.0 && a' <= a && b' <= b
    ensures Mix(q, a', b') <= Mix(q, a, b)
  {
    ProductNonNegative(a - a', 1.0 - q);
    ProductNonNegative(b - b', q);
    assert (a - a') * (1.0 - q) == a - a' - q * a + q * a';
    assert (b - b') * q == q * b - q * b';
    MixExpanded(q, a, b);
    MixExpanded(q, a', b');
    hide Mix;
    assert Mix(q, a, b) - Mix(q, a', b') == (a - a') * (1.0 - q) + (b - b') * q;
  }

  lemma MixShift(p: real, q: real, a: real, b: real, a': real, b': real)
    requires 0.0 < p < q < 1.0 && b < a && a' <= a && b' <= b
    ensures Mix(q, a', b') < Mix(p, a, b)
  {
    MixMonotone(q, a, b, a', b');
    ProductPositive(q - p, a - b);
    assert (q - p) * (a - b) == q * a - p * a - q * b + p * b;
    MixExpanded(p, a, b);
    MixExpanded(q, a, b);
  }

  lemma MixExpanded(p: real, a: real, b: real)
    ensures Mix(p, a, b) == a - p * a + p * b
  {
  }

  // The distribution function strictly falls as p rises.
  lemma {:induction false} BelowDecreases(k: nat, n: nat, p: real, q: real)
    requires 0.0 < p < q < 1.0 && 1 <= k <= n
    ensures Below(k, n, q) < Below(k, n, p)
  {
    BelowRecursion(k, n, p);
    BelowRecursion(k, n, q);
    var a, b, a', b' := Below(k, n - 1, p), Below(k - 1, n - 1, p), Below(k, n - 1, q), Below(k - 1, n - 1, q);
    BelowGrows(k - 1, k, n - 1, p);
    if k <= n - 1 { BelowDecreases(k, n - 1, p, q); } else { BelowFull(k, n - 1, p); BelowFull(k, n - 1, q); }
    if k >= 2 { BelowDecreases(k - 1, n - 1, p, q); }
    MixShift(p, q, a, b, a', b');
  }
}
