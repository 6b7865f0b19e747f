/** Rounding to 64-bit floating point, in units small enough for every value that occurs to be a whole number of them. */
module Doubles {
  import opened Common

  /** The 53 bits of a double's significand. */
  const TWO52: nat := 0x10_0000_0000_0000

  /** n / d to the nearest integer, ties to the even one. */
  function RoundEven(n: nat, d: nat): nat
    requires d > 0
  {
    var q, r := n / d, n % d;
    if 2 * r < d || (2 * r == d && q % 2 == 0) then q else q + 1
  }

  const TWO53: nat := 2 * TWO52

  /** 2^120: how many units make one. Quotients down to 2^-64 have their 53 bits above the unit. */
  const UNIT: nat := 0x100_0000_0000_0000_0000_0000_0000_0000

  /** The first doubling of s by which n / d has at most 53 bits before the point. */
  function Fit(n: nat, d: nat, s: nat): nat
    requires d > 0 && s > 0
    decreases SatSub(n, s)
  {
    if n >= TWO53 * (s * d) then FitDescends(n, d, s); Fit(n, d, 2 * s) else s
  }

  lemma FitDescends(n: nat, d: nat, s: nat)
    requires d > 0 && s > 0 && n >= TWO53 * (s * d)
    ensures n > s
  {
    Times(1, d, s);
  }

  lemma {:induction false} FitIsPositive(n: nat, d: nat, s: nat)
    requires d > 0 && s > 0
    ensures Fit(n, d, s) > 0
    decreases SatSub(n, s)
  {
    if n >= TWO53 * (s * d) {
      FitDescends(n, d, s);
      FitIsPositive(n, d, 2 * s);
    }
  }

  /** n / d rounded to 53 bits, ties to even. */
  function Rounded(n: nat, d: nat): nat
    requires d > 0
  {
    FitIsPositive(n, d, 1);
    Product(Fit(n, d, 1), d);
    RoundEven(n, Fit(n, d, 1) * d) * Fit(n, d, 1)
  }

  /** The sum of two doubles. */
  function Plus(a: nat, b: nat): nat { Rounded(a + b, 1) }

  // Arithmetic ------------------------------------------------------------------------------------

  lemma Product(a: nat, b: nat)
    requires a > 0 && b > 0
    ensures a * b > 0
  {
    Times(1, a, b);
  }

  lemma DivMod(n: nat, d: nat)
    requires d > 0
    ensures n == (n / d) * d + n % d && n % d < d
  {
  }

  lemma OneMore(k: int, d: int)
    ensures (k + 1) * d == k * d + d
  {
  }

  lemma RoundEvenIsNear(n: nat, d: nat)
    requires d > 0
    ensures -(d as int) <= 2 * (RoundEven(n, d) * d - n) <= d
  {
    DivMod(n, d);
    OneMore(n / d, d);
  }

  /** What lies strictly between two halves is rounded to the integer between them. */
  lemma RoundEvenBetween(n: nat, d: nat, i: nat)
    requires d > 0 && 2 * (i * d) - d < 2 * n < 2 * (i * d) + d
    ensures RoundEven(n, d) == i
  {
    RoundEvenIsNear(n, d);
    OnlyOneNear(n, d, i, RoundEven(n, d));
  }

  lemma OnlyOneNear(n: nat, d: nat, i: nat, k: nat)
    requires d > 0 && 2 * (i * d) - d < 2 * n < 2 * (i * d) + d
    requires -(d as int) <= 2 * (k * d - n) <= d
    ensures k == i
  {
    OneMore(k, d);
    OneMore(i, d);
    if k < i {
      Times(k + 1, i, d);
    } else if k > i {
      Times(i + 1, k, d);
    }
  }

  lemma Times(a: int, b: int, d: nat)
    requires a <= b
    ensures a * d <= b * d
  {
    assert b * d - a * d == (b - a) * d;
    assert (b - a) * d >= 0;
  }

  lemma RoundEvenTie(n: nat, d: nat, q: nat)
    requires d > 0 && 2 * n == 2 * (q * d) + d
    ensures RoundEven(n, d) == if q % 2 == 0 then q else q + 1
  {
    DivModIs(n, d, q);
  }

  lemma DivModIs(n: nat, d: nat, q: nat)
    requires d > 0 && 2 * n == 2 * (q * d) + d
    ensures n / d == q && 2 * (n % d) == d
  {
    DivMod(n, d);
    OnlyOneNear(2 * n - d, 2 * d, q, n / d) by {
      Doubled(n / d, d);
      Doubled(q, d);
    }
  }

  lemma Doubled(k: nat, d: nat)
    ensures k * (2 * d) == 2 * (k * d)
  {
  }

  lemma PositiveFactor(a: nat, x: int)
    requires a * x > 0
    ensures x > 0
  {
    if x <= 0 { Times(x, 0, a); }
  }

  function Power(k: nat): nat { if k == 0 then 1 else 2 * Power(k - 1) }

  lemma {:induction false} PowerGrows(k: nat)
    ensures Power(k) >= 1
  {
    if k > 0 { PowerGrows(k - 1); }
  }

  // Nearness --------------------------------------------------------------------------------------

  /** The scale is one, or no larger than 53 bits ask for. */
  lemma {:induction false} FitFits(n: nat, d: nat, s: nat)
    requires d > 0 && s > 0
    ensures Fit(n, d, s) >= s && n < TWO53 * (Fit(n, d, s) * d)
    ensures Fit(n, d, s) == s || (Fit(n, d, s) >= 2 * s && TWO52 * (Fit(n, d, s) * d) <= n)
    decreases SatSub(n, s)
  {
    if n >= TWO53 * (s * d) {
      FitDescends(n, d, s);
      FitFits(n, d, 2 * s);
      Regroup(2, s, d);
    }
  }

  lemma Regroup(a: int, b: int, c: int)
    ensures (a * b) * c == a * (b * c)
  {
  }

  /** Rounding is off by half a scale unit at most. */
  lemma RoundedIsNear(n: nat, d: nat)
    requires d > 0
    ensures Fit(n, d, 1) > 0
    ensures -(Fit(n, d, 1) * d) <= 2 * (Rounded(n, d) * d - n) <= Fit(n, d, 1) * d
  {
    var s := Fit(n, d, 1);
    FitIsPositive(n, d, 1);
    Product(s, d);
    RoundEvenIsNear(n, s * d);
    Regroup(RoundEven(n, s * d), s, d);
  }

  /** For quotients of at least 2^53 units the error is at most the 2^53rd part. */
  lemma RoundedIsClose(n: nat, d: nat)
    requires d > 0 && n >= TWO53 * d
    ensures -(n as int) <= TWO53 * (Rounded(n, d) * d - n) <= n
  {
    RoundedIsNear(n, d);
    FitFits(n, d, 1);
    Regroup(1, 1, d);
    assert Fit(n, d, 1) != 1;
  }

  // Order -----------------------------------------------------------------------------------------

  lemma RoundEvenAtLeast(n: nat, d: nat, k: nat)
    requires d > 0 && k * d <= n
    ensures RoundEven(n, d) >= k
  {
    RoundEvenIsNear(n, d);
    var q := RoundEven(n, d);
    if q < k {
      Times(q + 1, k, d);
      OneMore(q, d);
      RoundEvenExact(k, d);
      DivMod(n, d);
      DivAtLeast(n, d, k);
    }
  }

  lemma DivAtLeast(n: nat, d: nat, k: nat)
    requires d > 0 && k * d <= n
    ensures n / d >= k
  {
    DivMod(n, d);
    if n / d < k {
      Times(n / d + 1, k, d);
      OneMore(n / d, d);
    }
  }

  lemma RoundEvenExact(q: nat, d: nat)
    requires d > 0
    ensures RoundEven(q * d, d) == q
  {
    RoundEvenBetween(q * d, d, q);
  }

  lemma RoundEvenAtMost(n: nat, d: nat, k: nat)
    requires d > 0 && n <= k * d
    ensures RoundEven(n, d) <= k
  {
    var q := RoundEven(n, d);
    RoundEvenIsNear(n, d);
    if q > k {
      Times(k + 1, q, d);
      OneMore(k, d);
    }
  }

  /** Rounding keeps the order of quotients. */
  lemma RoundEvenMonotone(n: nat, d: nat, n': nat, d': nat)
    requires d > 0 && d' > 0 && n * d' <= n' * d
    ensures RoundEven(n, d) <= RoundEven(n', d')
  {
    var q, q' := RoundEven(n, d), RoundEven(n', d');
    RoundEvenIsNear(n, d);
    RoundEvenIsNear(n', d');
    if q > q' {
      Times(q' + 1, q, d);
      OneMore(q', d);
      OneMore(q', d');
      OnlyTiesCollide(n, d, n', d', q');
      RoundEvenTie(n, d, q');
      RoundEvenTie(n', d', q');
    }
  }

  lemma OnlyTiesCollide(n: nat, d: nat, n': nat, d': nat, q: nat)
    requires d > 0 && d' > 0 && n * d' <= n' * d
    requires 2 * (q * d) + d <= 2 * n && 2 * n' <= 2 * (q * d') + d'
    ensures 2 * n == 2 * (q * d) + d && 2 * n' == 2 * (q * d') + d'
  {
    var low, low' := 2 * (q * d) + d, 2 * (q * d') + d';
    Times(low, 2 * n, d');
    Times(2 * n', low', d);
    Expand(q, d, d');
    Expand(q, d', d);
    Twice(n, d');
    Twice(n', d);
    Cancel(2 * n, low, d');
    Cancel(2 * n', low', d);
  }

  lemma Expand(q: int, d: int, e: int)
    ensures (2 * (q * d) + d) * e == 2 * (q * (d * e)) + d * e
    ensures d * e == e * d
  {
    Regroup(q, d, e);
  }

  lemma Twice(n: int, d: int)
    ensures 2 * n * d == 2 * (n * d)
  {
  }

  lemma Cancel(a: int, b: int, d: nat)
    requires d > 0 && a * d == b * d
    ensures a == b
  {
    if a < b { Times(a + 1, b, d); OneMore(a, d); } else if b < a { Times(b + 1, a, d); OneMore(b, d); }
  }

  lemma {:induction false} FitOrder(n: nat, d: nat, n': nat, d': nat, s: nat)
    requires d > 0 && d' > 0 && s > 0 && n * d' <= n' * d
    ensures Fit(n, d, s) == Fit(n', d', s) || 2 * Fit(n, d, s) <= Fit(n', d', s)
    decreases SatSub(n, s)
  {
    if n >= TWO53 * (s * d) {
      FitDescends(n, d, s);
      LargerToo(n, d, n', d', TWO53 * s);
      Regroup(TWO53, s, d);
      Regroup(TWO53, s, d');
      FitDescends(n', d', s);
      FitOrder(n, d, n', d', 2 * s);
    } else {
      FitFits(n', d', s);
    }
  }

  lemma LargerToo(n: nat, d: nat, n': nat, d': nat, k: nat)
    requires d > 0 && d' > 0 && n * d' <= n' * d && n >= k * d
    ensures n' >= k * d'
  {
    if n' < k * d' {
      Times(n' + 1, k * d', d);
      OneMore(n', d);
      Times(k * d, n, d');
      Regroup(k, d, d');
      Regroup(k, d', d);
    }
  }

  /** Rounding to a double keeps the order of quotients. */
  lemma RoundedMonotone(n: nat, d: nat, n': nat, d': nat)
    requires d > 0 && d' > 0 && n * d' <= n' * d
    ensures Rounded(n, d) <= Rounded(n', d')
  {
    var s, s' := Fit(n, d, 1), Fit(n', d', 1);
    FitFits(n, d, 1);
    FitFits(n', d', 1);
    FitOrder(n, d, n', d', 1);
    Product(s, d);
    Product(s', d');
    var q, q' := RoundEven(n, s * d), RoundEven(n', s' * d');
    if s == s' {
      SameScale(n, d, n', d', s);
      RoundEvenMonotone(n, s * d, n', s' * d');
      Times(q, q', s);
    } else {
      RoundEvenAtMost(n, s * d, TWO53);
      RoundEvenAtLeast(n', s' * d', TWO52);
      Times(q, TWO53, s);
      Times(TWO52, q', s');
    }
  }

  lemma SameScale(n: nat, d: nat, n': nat, d': nat, s: nat)
    requires n * d' <= n' * d
    ensures n * (s * d') <= n' * (s * d)
  {
    Times(n * d', n' * d, s);
    assert n * (s * d') == (n * d') * s && n' * (s * d) == (n' * d) * s;
  }

  lemma PlusMonotone(a: nat, b: nat, a': nat, b': nat)
    requires a <= a' && b <= b'
    ensures Plus(a, b) <= Plus(a', b')
  {
    RoundedMonotone(a + b, 1, a' + b', 1);
  }

  // A double rounds to itself -----------------------------------------------------------------------

  lemma FitStep(m: nat, t: nat)
    requires t > 0
    ensures Fit(m, 1, t) == if m >= TWO53 * t then Fit(m, 1, 2 * t) else t
  {
  }

  lemma {:induction false} FitOnPath(n: nat, d: nat, t: nat, m: nat)
    requires d > 0 && t > 0
    requires m < TWO53 * Fit(n, d, t) && (Fit(n, d, t) > t ==> m >= TWO52 * Fit(n, d, t))
    ensures Fit(m, 1, t) == Fit(n, d, t)
    decreases SatSub(n, t)
  {
    FitFits(n, d, t);
    FitStep(m, t);
    if n >= TWO53 * (t * d) {
      FitDescends(n, d, t);
      FitFits(n, d, 2 * t);
      FitOnPath(n, d, 2 * t, m);
    }
  }

  lemma {:induction false} FitAtCarry(n: nat, d: nat, t: nat, s: nat)
    requires d > 0 && t > 0 && s == Fit(n, d, t)
    ensures Fit(TWO53 * s, 1, t) == 2 * s
    decreases SatSub(n, t)
  {
    FitFits(n, d, t);
    FitStep(TWO53 * s, t);
    if n >= TWO53 * (t * d) {
      FitDescends(n, d, t);
      FitAtCarry(n, d, 2 * t, s);
    } else {
      FitStep(TWO53 * s, 2 * t);
    }
  }

  lemma RoundedTwice(n: nat, d: nat)
    requires d > 0
    ensures Rounded(Rounded(n, d), 1) == Rounded(n, d)
  {
    var s := Fit(n, d, 1);
    FitFits(n, d, 1);
    Product(s, d);
    var q := RoundEven(n, s * d);
    RoundEvenAtMost(n, s * d, TWO53);
    if q == TWO53 {
      FitAtCarry(n, d, 1, s);
      Regroup(TWO52, 2, s);
      RoundEvenExact(TWO52, 2 * s);
    } else {
      if s > 1 {
        RoundEvenAtLeast(n, s * d, TWO52);
        Times(TWO52, q, s);
      }
      Times(q + 1, TWO53, s);
      OneMore(q, s);
      FitOnPath(n, d, 1, q * s);
      RoundEvenExact(q, s);
    }
  }

  /** Adding to nothing changes nothing. */
  lemma PlusZero(n: nat, d: nat)
    requires d > 0
    ensures Plus(0, Rounded(n, d)) == Rounded(n, d) == Plus(Rounded(n, d), 0)
  {
    RoundedTwice(n, d);
  }
}
