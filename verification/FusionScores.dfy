/** The scores of rank fusion as the doubles the code computes, in units of 2^-120. */
module FusionScores {
  import opened Common
  import opened Doubles

  const RRF_K: nat := 60
  const WEIGHT_SEMANTIC: nat := UNIT
  /** The double nearest to 0.9. */
  const WEIGHT_LEXICAL: nat := 1196305196206424315128216872187592704

  predicate IsWeight(w: nat) { w == WEIGHT_SEMANTIC || w == WEIGHT_LEXICAL }

  /** What a row at this rank, counted from 0, is worth. */
  function Worth(weight: nat, rank: nat): nat { Rounded(weight, RRF_K + rank + 1) }

  /** As far down as a better rank always makes a better sum. */
  const NEAR: nat := 0x1000_0000 - 61

  /** As far down as a better rank is always worth more by itself. */
  const FAR: nat := 0x8_0000_0000_0000

  // Order -----------------------------------------------------------------------------------------

  /** A better rank is never worth less, however far down. */
  lemma WorthNeverRises(weight: nat, i: nat, j: nat)
    requires i <= j
    ensures Worth(weight, j) <= Worth(weight, i)
  {
    Times(RRF_K + i + 1, RRF_K + j + 1, weight);
    Commute(weight, RRF_K + i + 1);
    Commute(weight, RRF_K + j + 1);
    RoundedMonotone(weight, RRF_K + j + 1, weight, RRF_K + i + 1);
  }

  lemma Commute(a: int, b: int)
    ensures a * b == b * a
  {
  }

  /** Two roundings of one weight lie nearly as far apart as the exact quotients. */
  lemma Apart(w: nat, x: nat, y: nat, a: nat, b: nat)
    requires 0 < x && 0 < y
    requires TWO53 * (a * x - w) >= -(w as int) && TWO53 * (b * y - w) <= w
    ensures TWO53 * ((a - b) * (x * y)) >= w * (TWO53 * (y - x) - (x + y))
  {
    var p, q := TWO53 * (a * x), TWO53 * (b * y);
    Times(TWO53 * w - w, p, y);
    Times(q, TWO53 * w + w, x);
    assert TWO53 * ((a - b) * (x * y)) == p * y - q * x;
    assert (TWO53 * w - w) * y - (TWO53 * w + w) * x == w * (TWO53 * (y - x) - (x + y));
  }

  lemma BigEnough(weight: nat, x: nat)
    requires IsWeight(weight) && 0 < x <= 2 * FAR
    ensures weight >= TWO53 * x
  {
  }

  lemma WorthsApart(weight: nat, i: nat, j: nat)
    requires IsWeight(weight) && i < j < FAR
    ensures var x, y := RRF_K + i + 1, RRF_K + j + 1;
            TWO53 * ((Worth(weight, i) - Worth(weight, j)) * (x * y)) >= weight * (TWO53 * (y - x) - (x + y))
  {
    var x, y := RRF_K + i + 1, RRF_K + j + 1;
    BigEnough(weight, x);
    BigEnough(weight, y);
    RoundedIsClose(weight, x);
    RoundedIsClose(weight, y);
    Apart(weight, x, y, Worth(weight, i), Worth(weight, j));
  }

  /** Down to FAR a better rank is worth more. */
  lemma WorthFalls(weight: nat, i: nat, j: nat)
    requires IsWeight(weight) && i < j < FAR
    ensures Worth(weight, i) > Worth(weight, j) > 0
  {
    var x, y := RRF_K + i + 1, RRF_K + j + 1;
    WorthsApart(weight, i, j);
    PositiveGap(weight, x, y, Worth(weight, i) - Worth(weight, j));
    WorthIsPositive(weight, j);
  }

  lemma PositiveGap(w: nat, x: nat, y: nat, gap: int)
    requires w > 0 && 0 < x < y && x + y < TWO53
    requires TWO53 * (gap * (x * y)) >= w * (TWO53 * (y - x) - (x + y))
    ensures gap > 0
  {
    Product(x, y);
    Product(w, TWO53 * (y - x) - (x + y));
    if gap <= 0 { Times(gap, 0, x * y); }
  }

  lemma WorthIsPositive(weight: nat, i: nat)
    requires IsWeight(weight) && i < FAR
    ensures Worth(weight, i) > 0
  {
    var x := RRF_K + i + 1;
    BigEnough(weight, x);
    RoundedIsClose(weight, x);
    NotNothing(weight, x, Worth(weight, i));
  }

  lemma NotNothing(w: nat, x: nat, a: nat)
    requires w > 0 && TWO53 * (a * x - w) >= -(w as int)
    ensures a > 0
  {
    if a == 0 { Times(a, 0, x); }
  }

  // Sums ------------------------------------------------------------------------------------------

  /** Half of what separates neighbouring worths down to NEAR; no rounding of a sum is off by more. */
  const STEP: nat := 0x4000_0000_0000_0000

  /** Down to NEAR neighbouring worths are more than two steps apart. */
  lemma WorthsFarApart(weight: nat, i: nat, j: nat)
    requires IsWeight(weight) && i < j < NEAR
    ensures Worth(weight, i) > Worth(weight, j) + 2 * STEP
  {
    var x, y := RRF_K + i + 1, RRF_K + j + 1;
    var a, b := Worth(weight, i), Worth(weight, j);
    WorthFalls(weight, i, j);
    WorthsApart(weight, i, j);
    NearGap(weight, x, y, a - b);
  }

  lemma NearGap(w: nat, x: nat, y: nat, gap: nat)
    requires w >= WEIGHT_LEXICAL && x < y <= 0x1000_0000
    requires TWO53 * (gap * (x * y)) >= w * (TWO53 * (y - x) - (x + y))
    ensures gap > 2 * STEP
  {
    var d, least := TWO53 * (y - x) - (x + y), TWO53 - 0x2000_0000;
    Times(least, d, w);
    Commute(w, d);
    Times(WEIGHT_LEXICAL, w, least);
    Commute(w, least);
    SmallProduct(x, y);
    Times(x * y, 0x100_0000_0000_0000, gap);
    Commute(gap, x * y);
    Conclude(gap, gap * (x * y), w * d);
  }

  lemma Conclude(gap: nat, product: nat, right: int)
    requires TWO53 * product >= right >= WEIGHT_LEXICAL * (TWO53 - 0x2000_0000)
    requires product <= 0x100_0000_0000_0000 * gap
    ensures gap > 2 * STEP
  {
  }

  lemma SmallProduct(x: nat, y: nat)
    requires x <= 0x1000_0000 && y <= 0x1000_0000
    ensures x * y <= 0x100_0000_0000_0000
  {
    Times(x, 0x1000_0000, y);
  }

  lemma WorthIsFarFromNothing(weight: nat, i: nat)
    requires IsWeight(weight) && i < NEAR
    ensures Worth(weight, i) > 2 * STEP
  {
    var x, a := RRF_K + i + 1, Worth(weight, i);
    BigEnough(weight, x);
    RoundedIsClose(weight, x);
    Times(x, 0x1000_0000, a);
    Commute(a, x);
    Enough(weight, a, a * x);
  }

  lemma Enough(w: nat, a: nat, product: nat)
    requires w >= WEIGHT_LEXICAL && TWO53 * (product - w) >= -(w as int) && product <= 0x1000_0000 * a
    ensures a > 2 * STEP
  {
  }

  /** No worth exceeds this by itself, and two of them together stay below 1/32. */
  lemma WorthsAreSmall(i: nat, j: nat)
    requires i < FAR && j < FAR
    ensures Worth(WEIGHT_SEMANTIC, i) + Worth(WEIGHT_LEXICAL, j) < UNIT / 32
  {
    WorthNeverRises(WEIGHT_SEMANTIC, 0, i);
    WorthNeverRises(WEIGHT_LEXICAL, 0, j);
    RoundedIsClose(WEIGHT_SEMANTIC, 61);
    RoundedIsClose(WEIGHT_LEXICAL, 61);
    BestSum(Worth(WEIGHT_SEMANTIC, 0), Worth(WEIGHT_LEXICAL, 0));
  }

  lemma BestSum(a: nat, b: nat)
    requires TWO53 * (a * 61 - WEIGHT_SEMANTIC) <= WEIGHT_SEMANTIC && TWO53 * (b * 61 - WEIGHT_LEXICAL) <= WEIGHT_LEXICAL
    ensures a + b < UNIT / 32
  {
  }

  /** Sums below 1/32 are rounded by at most a step. */
  lemma PlusIsNear(a: nat, b: nat)
    requires a + b < UNIT / 32
    ensures -(STEP as int) <= Plus(a, b) - (a + b) <= STEP
  {
    RoundedIsNear(a + b, 1);
    FitFits(a + b, 1, 1);
  }

  /** Sums more than two steps apart are rounded in order. */
  lemma PlusKeepsApart(a: nat, b: nat, a': nat, b': nat)
    requires a + b < UNIT / 32 && a' + b' + 2 * STEP < a + b
    ensures Plus(a', b') < Plus(a, b)
  {
    PlusIsNear(a, b);
    PlusIsNear(a', b');
  }

  // Where rounding shows ----------------------------------------------------------------------------

  lemma {:induction false} FitIs(n: nat, d: nat, s: nat, k: nat)
    requires d > 0 && s > 0 && n < TWO53 * ((s * Power(k)) * d)
    requires k > 0 ==> n >= TWO52 * ((s * Power(k)) * d)
    ensures Fit(n, d, s) == s * Power(k)
    decreases k
  {
    if k > 0 {
      PowerGrows(k - 1);
      Times(1, Power(k - 1), s);
      DoublesPass(s, d, Power(k - 1));
      assert (2 * s) * Power(k - 1) == s * Power(k);
      FitIs(n, d, 2 * s, k - 1);
    }
  }

  lemma DoublesPass(s: nat, d: nat, p: nat)
    requires p >= 1
    ensures TWO52 * ((s * (2 * p)) * d) >= TWO53 * (s * d)
  {
    Times(1, p, s * d);
    assert (s * (2 * p)) * d == 2 * (p * (s * d));
  }

  /** A quotient whose scale is this power. */
  lemma RoundedIs(n: nat, d: nat, k: nat, q: nat)
    requires d > 0 && k > 0 && TWO52 * (Power(k) * d) <= n < TWO53 * (Power(k) * d)
    requires 2 * (q * (Power(k) * d)) - Power(k) * d < 2 * n < 2 * (q * (Power(k) * d)) + Power(k) * d
    ensures Rounded(n, d) == q * Power(k)
  {
    FitIs(n, d, 1, k);
    PowerGrows(k);
    Product(Power(k), d);
    RoundEvenBetween(n, Power(k) * d, q);
  }

  lemma RoundedTieIs(n: nat, d: nat, k: nat, q: nat)
    requires d > 0 && k > 0 && TWO52 * (Power(k) * d) <= n < TWO53 * (Power(k) * d)
    requires 2 * n == 2 * (q * (Power(k) * d)) + Power(k) * d
    ensures Rounded(n, d) == (if q % 2 == 0 then q else q + 1) * Power(k)
  {
    FitIs(n, d, 1, k);
    PowerGrows(k);
    Product(Power(k), d);
    RoundEvenTie(n, Power(k) * d, q);
  }

  lemma Powers()
    ensures Power(10) == 1024 && Power(61) == 0x2000_0000_0000_0000 && Power(62) == 0x4000_0000_0000_0000
    ensures Power(37) == 0x20_0000_0000 && Power(67) == 0x8_0000_0000_0000_0000
  {
    assert Power(10) == 1024;
    assert Power(20) == 0x10_0000;
    assert Power(30) == 0x4000_0000;
    assert Power(37) == 0x20_0000_0000;
    assert Power(47) == 0x8000_0000_0000;
    assert Power(57) == 0x200_0000_0000_0000;
    assert Power(62) == 0x4000_0000_0000_0000;
    assert Power(61) == 0x2000_0000_0000_0000;
  }

  /** The weight of the lexical leg is the double the literal 0.9 stands for. */
  lemma LexicalWeightIsNearest()
    ensures Rounded(9 * UNIT, 10) == WEIGHT_LEXICAL
  {
    Powers();
    RoundedIs(9 * UNIT, 10, 67, 8106479329266893);
  }

  lemma FourWorths()
    ensures Worth(WEIGHT_SEMANTIC, 14) == 7686143364045647 * Power(61) && Worth(WEIGHT_LEXICAL, 9) == 7411638243901159 * Power(61)
    ensures Worth(WEIGHT_SEMANTIC, 23) == 6862628003612184 * Power(61) && Worth(WEIGHT_LEXICAL, 2) == 8235153604334621 * Power(61)
  {
    Powers();
    RoundedIs(WEIGHT_SEMANTIC, 75, 61, 7686143364045647);
    RoundedIs(WEIGHT_LEXICAL, 70, 61, 7411638243901159);
    RoundedIs(WEIGHT_SEMANTIC, 84, 61, 6862628003612184);
    RoundedIs(WEIGHT_LEXICAL, 63, 61, 8235153604334621);
  }

  lemma ExactSumsAreEqual()
    ensures 1.0 / 75.0 + 0.9 / 70.0 == 1.0 / 84.0 + 0.9 / 63.0
  {
  }

  lemma FirstSum()
    ensures Plus(7686143364045647 * Power(61), 7411638243901159 * Power(61)) == 7548890803973403 * Power(62)
  {
    Powers();
    RoundedIs(7686143364045647 * Power(61) + 7411638243901159 * Power(61), 1, 62, 7548890803973403);
  }

  lemma SecondSum()
    ensures Plus(6862628003612184 * Power(61), 8235153604334621 * Power(61)) == 7548890803973402 * Power(62)
  {
    Powers();
    RoundedTieIs(6862628003612184 * Power(61) + 8235153604334621 * Power(61), 1, 62, 7548890803973402);
  }

  /** Ranks 15 and 10 add up to what ranks 24 and 3 do, but the doubles do not. */
  lemma EqualSumsComeApart()
    ensures 1.0 / 75.0 + 0.9 / 70.0 == 1.0 / 84.0 + 0.9 / 63.0
    ensures Plus(Worth(WEIGHT_SEMANTIC, 14), Worth(WEIGHT_LEXICAL, 9)) > Plus(Worth(WEIGHT_SEMANTIC, 23), Worth(WEIGHT_LEXICAL, 2))
  {
    ExactSumsAreEqual();
    FourWorths();
    FirstSum();
    SecondSum();
    PowerGrows(62);
  }

  /** Beyond NEAR a better rank may make no better sum: the rounding of the sum swallows it. */
  lemma FarSumsCollide()
    ensures Plus(Worth(WEIGHT_SEMANTIC, 0x4000_0001), Worth(WEIGHT_LEXICAL, 0))
         == Plus(Worth(WEIGHT_SEMANTIC, 0x4000_0002), Worth(WEIGHT_LEXICAL, 0))
  {
    Powers();
    RoundedIs(WEIGHT_SEMANTIC, 0x4000_003E, 37, 9007198734647326);
    RoundedIs(WEIGHT_SEMANTIC, 0x4000_003F, 37, 9007198726258719);
    RoundedIs(WEIGHT_LEXICAL, 61, 61, 8505158640542314);
    RoundedIs(9007198734647326 * Power(37) + 8505158640542314 * Power(61), 1, 61, 8505159177413195);
    RoundedIs(9007198726258719 * Power(37) + 8505158640542314 * Power(61), 1, 61, 8505159177413195);
  }
}
