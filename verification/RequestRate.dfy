/** The interval between requests: a 64-bit floating quotient of seconds, rounded to nanoseconds. */
module RequestRate {
  import opened Common
  import opened Doubles

  const NANOS: nat := 1_000_000_000
  const MINUTE: nat := 60 * NANOS

  /** The first doubling p of the start for which 60 * p / rate has 53 bits before the point. */
  function Scale(rate: nat, p: nat): nat
    requires rate > 0 && p > 0
    decreases SatSub(TWO52 * rate, 60 * p)
  {
    if 60 * p < TWO52 * rate then Scale(rate, 2 * p) else p
  }

  /** 2^47, the scale for one request per minute. */
  const START: nat := 0x8000_0000_0000

  function ScaleOf(rate: nat): nat
    requires rate > 0
  {
    Scale(rate, START)
  }

  /** The double 60.0 / rate is this significand over the scale. */
  function Significand(rate: nat): nat
    requires rate > 0
  {
    ScaleIsPositive(rate, START);
    RoundEven(60 * ScaleOf(rate), rate)
  }

  /** Duration::from_secs_f64: the double times a billion to the nearest nanosecond, ties to the even one. */
  function MinInterval(rate: nat): nat
    requires rate > 0
  {
    ScaleIsPositive(rate, START);
    RoundEven(Significand(rate) * NANOS, ScaleOf(rate))
  }

  lemma {:induction false} ScaleIsPositive(rate: nat, p: nat)
    requires rate > 0 && p > 0
    ensures Scale(rate, p) > 0 && TWO52 * rate <= 60 * Scale(rate, p)
    decreases SatSub(TWO52 * rate, 60 * p)
  {
    if 60 * p < TWO52 * rate { ScaleIsPositive(rate, 2 * p); }
  }

  /** The significand has its 53 bits and no more; rounding may carry into 2^53. */
  lemma {:induction false} ScaleIsTight(rate: nat, p: nat)
    requires rate > 0 && p > 0 && 60 * p < 2 * TWO52 * rate
    ensures 60 * Scale(rate, p) < 2 * TWO52 * rate
    decreases SatSub(TWO52 * rate, 60 * p)
  {
    if 60 * p < TWO52 * rate { ScaleIsTight(rate, 2 * p); }
  }

  // The quotient is close enough ------------------------------------------------------------------

  /** How far the double times the rate is from 60, in units of the scale. */
  function Excess(rate: nat): int
    requires rate > 0
  {
    Significand(rate) * rate - 60 * ScaleOf(rate)
  }

  lemma ExcessIsSmall(rate: nat)
    requires rate > 0
    ensures ScaleOf(rate) > 0
    ensures -(rate as int) <= 2 * Excess(rate) <= rate && NANOS * rate < ScaleOf(rate)
  {
    ScaleIsPositive(rate, START);
    RoundEvenIsNear(60 * ScaleOf(rate), rate);
  }

  /** Twice the double's nanoseconds less h times the scale, through the exact quotient. */
  lemma Against(rate: nat, h: int)
    requires rate > 0
    ensures rate * (2 * (Significand(rate) * NANOS) - h * ScaleOf(rate))
         == 2 * NANOS * Excess(rate) + ScaleOf(rate) * (2 * MINUTE - h * rate)
  {
    Rearranged(rate, Significand(rate), ScaleOf(rate), h);
  }

  lemma Rearranged(rate: int, m: int, p: int, h: int)
    ensures rate * (2 * (m * NANOS) - h * p) == 2 * NANOS * (m * rate - 60 * p) + p * (2 * MINUTE - h * rate)
  {
    assert rate * (2 * (m * NANOS) - h * p) == rate * (2 * (m * NANOS)) - rate * (h * p);
    assert rate * (2 * (m * NANOS)) == 2 * NANOS * (m * rate);
    assert p * (2 * MINUTE - h * rate) == p * (2 * MINUTE) - p * (h * rate);
    assert rate * (h * p) == p * (h * rate);
  }

  /** Off the ties the double lies on the same side of every half as the exact quotient. */
  lemma SameSide(rate: nat, h: int)
    requires rate > 0
    ensures 2 * MINUTE > h * rate ==> 2 * (Significand(rate) * NANOS) > h * ScaleOf(rate)
    ensures 2 * MINUTE < h * rate ==> 2 * (Significand(rate) * NANOS) < h * ScaleOf(rate)
  {
    ExcessIsSmall(rate);
    Against(rate, h);
    SignOf(rate, ScaleOf(rate), Excess(rate), 2 * MINUTE - h * rate, 2 * (Significand(rate) * NANOS) - h * ScaleOf(rate));
  }

  lemma SignOf(rate: nat, p: nat, e: int, diff: int, x: int)
    requires rate > 0 && -(rate as int) <= 2 * e <= rate && NANOS * rate < p
    requires rate * x == 2 * NANOS * e + p * diff
    ensures diff > 0 ==> x > 0
    ensures diff < 0 ==> x < 0
  {
    if diff > 0 {
      Times(1, diff, p);
      PositiveFactor(rate, x);
    } else if diff < 0 {
      Times(diff, -1, p);
      assert rate * -x == -(rate * x);
      PositiveFactor(rate, -x);
    }
  }

  /** At a tie it lies where the double's error puts it. */
  lemma SideOfTie(rate: nat, h: int)
    requires rate > 0 && 2 * MINUTE == h * rate
    ensures Excess(rate) > 0 ==> 2 * (Significand(rate) * NANOS) > h * ScaleOf(rate)
    ensures Excess(rate) < 0 ==> 2 * (Significand(rate) * NANOS) < h * ScaleOf(rate)
    ensures Excess(rate) == 0 ==> 2 * (Significand(rate) * NANOS) == h * ScaleOf(rate)
  {
    Against(rate, h);
    assert ScaleOf(rate) * 0 == 0;
    SignOfTie(rate, Excess(rate), 2 * (Significand(rate) * NANOS) - h * ScaleOf(rate));
  }

  lemma SignOfTie(rate: nat, e: int, x: int)
    requires rate > 0 && rate * x == 2 * NANOS * e
    ensures e > 0 ==> x > 0
    ensures e < 0 ==> x < 0
    ensures e == 0 ==> x == 0
  {
    if e > 0 {
      PositiveFactor(rate, x);
    } else if e < 0 {
      assert rate * -x == -(rate * x);
      PositiveFactor(rate, -x);
    } else if x > 0 {
      Times(1, x, rate);
    } else if x < 0 {
      Times(x, -1, rate);
    }
  }

  predicate IsTie(rate: nat)
    requires rate > 0
  {
    2 * (MINUTE % rate) == rate
  }

  /** At a tie the double is above it, or exactly on it with the even nanosecond above. */
  predicate TieGoesUp(rate: nat)
    requires rate > 0
  {
    Excess(rate) > 0 || (Excess(rate) == 0 && MINUTE / rate % 2 == 1)
  }

  /** The interval falls short of the exact quotient unless this holds. */
  predicate NotRoundedDown(rate: nat)
    requires rate > 0
  {
    MINUTE % rate == 0 || 2 * (MINUTE % rate) > rate || (IsTie(rate) && TieGoesUp(rate))
  }

  /**
   * The interval is a nanosecond next to the exact quotient: the nearest one, and at a tie the one that
   * the double's own error selects.
   */
  lemma IntervalIsNearest(rate: nat)
    requires rate > 0
    ensures MinInterval(rate) == MINUTE / rate + if MINUTE % rate != 0 && NotRoundedDown(rate) then 1 else 0
  {
    var q, r := MINUTE / rate, MINUTE % rate;
    var n, p := Significand(rate) * NANOS, ScaleOf(rate);
    DivMod(MINUTE, rate);
    HalvesAround(q, r, rate);
    ExcessIsSmall(rate);
    SameSide(rate, 2 * q - 1);
    SameSide(rate, 2 * q + 1);
    SameSide(rate, 2 * q + 3);
    HalvesOf(q, p);
    if 2 * r < rate {
      RoundEvenBetween(n, p, q);
    } else if 2 * r > rate {
      RoundEvenBetween(n, p, q + 1);
    } else {
      SideOfTie(rate, 2 * q + 1);
      if Excess(rate) > 0 {
        RoundEvenBetween(n, p, q + 1);
      } else if Excess(rate) < 0 {
        RoundEvenBetween(n, p, q);
      } else {
        RoundEvenTie(n, p, q);
      }
    }
  }

  lemma HalvesOf(q: int, d: int)
    ensures (2 * q - 1) * d == 2 * (q * d) - d
    ensures (2 * q + 1) * d == 2 * (q * d) + d == 2 * ((q + 1) * d) - d
    ensures (2 * q + 3) * d == 2 * (q * d) + 3 * d == 2 * ((q + 1) * d) + d
  {
  }

  lemma HalvesAround(q: nat, r: nat, rate: nat)
    requires rate > 0 && r < rate && MINUTE == q * rate + r
    ensures (2 * q - 1) * rate < 2 * MINUTE < (2 * q + 3) * rate
    ensures 2 * r < rate ==> 2 * MINUTE < (2 * q + 1) * rate
    ensures 2 * r > rate ==> 2 * MINUTE > (2 * q + 1) * rate
    ensures 2 * r == rate ==> 2 * MINUTE == (2 * q + 1) * rate
  {
    HalvesOf(q, rate);
  }

  /** So many intervals fill a minute exactly when the interval is not rounded down. */
  lemma FillsMinuteIff(rate: nat)
    requires rate > 0
    ensures rate * MinInterval(rate) >= MINUTE <==> NotRoundedDown(rate)
  {
    IntervalIsNearest(rate);
    DivMod(MINUTE, rate);
    OneMore(MINUTE / rate, rate);
    Commutes(rate, MINUTE / rate);
    Commutes(rate, MINUTE / rate + 1);
  }

  lemma Commutes(a: int, b: int)
    ensures a * b == b * a
  {
  }

  lemma {:induction false} ScaleIs(rate: nat, p: nat, k: nat)
    requires rate > 0 && p > 0 && 60 * (p * Power(k)) >= TWO52 * rate && (k > 0 ==> 60 * (p * Power(k - 1)) < TWO52 * rate)
    ensures Scale(rate, p) == p * Power(k)
    decreases k
  {
    if k > 0 {
      PowerGrows(k - 1);
      Times(1, Power(k - 1), p);
      assert (2 * p) * Power(k - 1) == p * Power(k);
      if k > 1 { assert (2 * p) * Power(k - 2) == p * Power(k - 1); }
      ScaleIs(rate, 2 * p, k - 1);
    }
  }

  /** Where the doubles of two tie rates lie. */
  lemma QuotientsAtTies()
    ensures Excess(102400) < 0 && Excess(307200) > 0
  {
    assert Power(16) == 65536 && Power(15) == 32768 && Power(18) == 262144 && Power(17) == 131072;
    ScaleIs(102400, START, 16);
    ScaleIs(307200, START, 18);
  }
}
