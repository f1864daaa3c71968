/** Money and tonnes as exact fixed-point integers: cents, cents per tonne, and ten-thousandths of a
    tonne. Fees round half up to cents, balances round half to even to 0.0001 t. */
module Fees {
  import opened Prelude

  type Cents = int
  /** Ten-thousandths of a tonne of CO2 equivalent. */
  type Tonnes4 = int
  /** Cents per tonne. */
  type Rate = nat

  /* ---------- the two roundings ---------- */

  /** Nearest integer to n/d, halves away from zero. */
  function RoundHalfUp(n: int, d: nat): int
    requires d > 0
  {
    if n >= 0 then (2 * n + d) / (2 * d) else -((-2 * n + d) / (2 * d))
  }

  /** Nearest integer to n/d, halves to the even neighbour. */
  function RoundHalfEven(n: int, d: nat): int
    requires d > 0
  {
    var q, r := n / d, n % d;
    if 2 * r < d || (2 * r == d && q % 2 == 0) then q else q + 1
  }

  lemma HalfUpNearest(n: int, d: nat)
    requires d > 0
    ensures -(d as int) <= 2 * (RoundHalfUp(n, d) * d - n) <= d
  {
    var m := (if n >= 0 then 2 * n else -2 * n) + d;
    assert m == 2 * d * (m / (2 * d)) + m % (2 * d);
  }

  lemma HalfEvenNearest(n: int, d: nat)
    requires d > 0
    ensures -(d as int) <= 2 * (RoundHalfEven(n, d) * d - n) <= d
  {
    assert n == d * (n / d) + n % d;
    assert (n / d + 1) * d == d * (n / d) + d;
  }

  /** A half goes away from zero in fees ... */
  lemma HalfUpTie(n: int, d: nat, k: nat)
    requires d > 0 && 2 * n == (2 * k + 1) * d
    ensures RoundHalfUp(n, d) == k + 1 && RoundHalfUp(-n, d) == -(k + 1)
  {
    assert (2 * k + 1) * d == 2 * k * d + d;
    assert 2 * n + d == (k + 1) * (2 * d);
    assert n > 0 by {
      ProductNonNegative(2 * k, d);
    }
    DivExact(2 * n + d, 2 * d, k + 1);
  }

  /** ... and to the even neighbour in balances. */
  lemma HalfEvenTie(n: int, d: nat, k: int)
    requires d > 0 && 2 * n == (2 * k + 1) * d
    ensures RoundHalfEven(n, d) == if k % 2 == 0 then k else k + 1
  {
    assert (2 * k + 1) * d == 2 * k * d + d;
    var r := n - k * d;
    assert 2 * r == d && 0 <= r < d;
    QuotientIs(n, d, k, r);
  }

  lemma QuotientIs(n: int, d: nat, q: int, r: int)
    requires d > 0 && n == q * d + r && 0 <= r < d
    ensures n / d == q && n % d == r
  {
    var q', r' := n / d, n % d;
    assert n == q' * d + r';
    if q' < q {
      Scaled(q', q, d);
    } else if q < q' {
      Scaled(q, q', d);
    }
  }

  lemma DivExact(n: int, d: nat, q: int)
    requires d > 0 && n == q * d
    ensures n / d == q
  {
    QuotientIs(n, d, q, 0);
  }

  lemma {:induction false} ProductNonNegative(k: nat, d: nat)
    ensures k * d >= 0
  {
    if k > 0 {
      ProductNonNegative(k - 1, d);
      assert k * d == (k - 1) * d + d;
    }
  }

  lemma Scaled(a: int, b: int, d: nat)
    requires a < b
    ensures a * d + d <= b * d
  {
    ProductNonNegative(b - a - 1, d);
    assert (b - a - 1) * d == b * d - a * d - d;
  }

  /** An integer strictly nearer to n/d than a half is the only integer that near. */
  lemma NearestIsUnique(n: int, d: nat, a: int, b: int)
    requires d > 0
    requires -(d as int) < 2 * (a * d - n) < d && -(d as int) <= 2 * (b * d - n) <= d
    ensures a == b
  {
    if a > b {
      Scaled(b, a, d);
    } else if a < b {
      Scaled(a, b, d);
    }
  }

  /* ---------- fees and balances ---------- */

  function Fee(amount: Tonnes4, rate: Rate): Cents {
    RoundHalfUp(amount * rate, 10000)
  }

  function ToTonnes(balance: Cents, rate: Rate): Tonnes4
    requires rate > 0
  {
    RoundHalfEven(balance * 10000, rate)
  }

  lemma FeeNear(amount: Tonnes4, rate: Rate)
    ensures -10000 <= 2 * (10000 * Fee(amount, rate) - amount * rate) <= 10000
  {
    HalfUpNearest(amount * rate, 10000);
  }

  lemma ToTonnesNear(balance: Cents, rate: Rate)
    requires rate > 0
    ensures -(rate as int) <= 2 * (ToTonnes(balance, rate) * rate - 10000 * balance) <= rate
  {
    HalfEvenNearest(balance * 10000, rate);
  }

  /** From $100 a tonne on, no amount is lost by charging it and converting the charge back. */
  lemma TonnesSurvive(amount: Tonnes4, rate: Rate)
    requires rate >= 10000
    ensures ToTonnes(Fee(amount, rate), rate) == amount
  {
    var fee := Fee(amount, rate);
    FeeNear(amount, rate);
    ToTonnesNear(fee, rate);
    if rate == 10000 {
      assert fee == amount;
    }
    NearestIsUnique(10000 * fee, rate, amount, ToTonnes(fee, rate));
  }

  /** Up to $100 a tonne, no balance is lost by converting it and charging the tonnes. */
  lemma BalanceSurvives(balance: Cents, rate: Rate)
    requires 0 < rate <= 10000
    ensures Fee(ToTonnes(balance, rate), rate) == balance
  {
    var tonnes := ToTonnes(balance, rate);
    ToTonnesNear(balance, rate);
    FeeNear(tonnes, rate);
    if rate == 10000 {
      assert tonnes == balance;
    }
    NearestIsUnique(tonnes * rate, 10000, balance, Fee(tonnes, rate));
  }

  lemma {:induction false} FeeMonotone(a: nat, b: nat, rate: Rate)
    requires a <= b
    ensures Fee(a, rate) <= Fee(b, rate)
  {
    assert a * rate <= b * rate;
  }

  lemma ToTonnesMonotone(a: nat, b: nat, rate: Rate)
    requires a <= b && rate > 0
    ensures ToTonnes(a, rate) <= ToTonnes(b, rate)
  {
    ToTonnesNear(a, rate);
    ToTonnesNear(b, rate);
    if a < b && ToTonnes(b, rate) < ToTonnes(a, rate) {
      Scaled(ToTonnes(b, rate), ToTonnes(a, rate), rate);
    }
  }

  /** A conversion that every one of the first k amounts survives cannot squeeze them together. */
  lemma {:induction false} SurvivingTonnesSpread(k: nat, rate: Rate)
    requires rate > 0
    requires forall amount: nat | amount <= k :: ToTonnes(Fee(amount, rate), rate) == amount
    ensures Fee(k, rate) >= k
  {
    if k > 0 {
      SurvivingTonnesSpread(k - 1, rate);
      FeeMonotone(k - 1, k, rate);
      assert ToTonnes(Fee(k - 1, rate), rate) == k - 1 && ToTonnes(Fee(k, rate), rate) == k;
    }
  }

  lemma {:induction false} SurvivingBalancesSpread(k: nat, rate: Rate)
    requires rate > 0
    requires forall balance: nat | balance <= k :: Fee(ToTonnes(balance, rate), rate) == balance
    ensures ToTonnes(k, rate) >= k
  {
    if k > 0 {
      SurvivingBalancesSpread(k - 1, rate);
      ToTonnesMonotone(k - 1, k, rate);
      assert ToTonnes(k - 1, rate) != ToTonnes(k, rate) by {
        assert Fee(ToTonnes(k - 1, rate), rate) == k - 1 && Fee(ToTonnes(k, rate), rate) == k;
      }
    }
  }

  /** Every amount survives exactly when the rate is at least $100 a tonne... */
  lemma TonnesSurviveIff(rate: Rate)
    requires rate > 0
    ensures (forall amount: nat :: ToTonnes(Fee(amount, rate), rate) == amount) <==> rate >= 10000
  {
    if rate >= 10000 {
      forall amount: nat ensures ToTonnes(Fee(amount, rate), rate) == amount {
        TonnesSurvive(amount, rate);
      }
    } else if forall amount: nat :: ToTonnes(Fee(amount, rate), rate) == amount {
      SurvivingTonnesSpread(10000, rate);
      FeeNear(10000, rate);
      assert false;
    }
  }

  /** ... and every balance exactly when it is at most that. */
  lemma BalanceSurvivesIff(rate: Rate)
    requires rate > 0
    ensures (forall balance: nat :: Fee(ToTonnes(balance, rate), rate) == balance) <==> rate <= 10000
  {
    if rate <= 10000 {
      forall balance: nat ensures Fee(ToTonnes(balance, rate), rate) == balance {
        BalanceSurvives(balance, rate);
      }
    } else if forall balance: nat :: Fee(ToTonnes(balance, rate), rate) == balance {
      SurvivingBalancesSpread(rate, rate);
      ToTonnesNear(rate, rate);
      NearestIsUnique(10000 * rate, rate, 10000, ToTonnes(rate, rate));
      assert false;
    }
  }

  /** At any rate the error in tonnes is at most half a unit plus half a cent's worth. */
  lemma TonnesErrorBound(amount: Tonnes4, rate: Rate)
    requires rate > 0
    ensures
      var error := ToTonnes(Fee(amount, rate), rate) - amount;
      -(10000 + rate) <= 2 * rate * error <= 10000 + rate
  {
    var fee := Fee(amount, rate);
    FeeNear(amount, rate);
    ToTonnesNear(fee, rate);
    var t := ToTonnes(fee, rate);
    assert 2 * rate * (t - amount) == 2 * (t * rate - 10000 * fee) + 2 * (10000 * fee - amount * rate);
  }

  lemma SmallMultiple(error: int, d: nat, bound: nat)
    requires -(bound as int) <= d * error <= bound && bound < 2 * d
    ensures -1 <= error <= 1
  {
    if error > 1 {
      Scaled(1, error, d);
    } else if error < -1 {
      Scaled(error, -1, d);
    }
  }

  /** Above $100/3 a tonne that is at most 0.0001 t... */
  lemma TonnesErrorAboveThird(amount: Tonnes4, rate: Rate)
    requires 3 * rate > 10000
    ensures -1 <= ToTonnes(Fee(amount, rate), rate) - amount <= 1
  {
    TonnesErrorBound(amount, rate);
    SmallMultiple(ToTonnes(Fee(amount, rate), rate) - amount, 2 * rate, 10000 + rate);
  }

  /** For k cents either the highest amount charged k, if k cents read as 3k units or less, or the
      lowest one is off by two units. The right k is the last one with k (10000 - 3 rate) <= 5000 - rate. */
  lemma AmountOffByTwo(rate: Rate, k: nat) returns (amount: nat)
    requires 0 < rate && 3 * rate < 10000
    requires 2 * rate - 5000 < k * (10000 - 3 * rate) <= 5000 - rate
    ensures amount + 2 <= ToTonnes(Fee(amount, rate), rate) || ToTonnes(Fee(amount, rate), rate) + 2 <= amount
  {
    var t, p := ToTonnes(k, rate), k * rate;
    assert k * (10000 - 3 * rate) == 10000 * k - 3 * p;
    if t > 3 * k {
      if k == 0 {
        ToTonnesNear(0, rate);
        Scaled(0, t, rate);
        assert false;
      }
      amount := 3 * k - 1;
      assert amount * rate == 3 * p - rate;
    } else {
      amount := 3 * k + 2;
      assert amount * rate == 3 * p + 2 * rate;
    }
    assert Fee(amount, rate) == k;
  }

  /** ... and at any lower rate some amount is off by more than that. */
  lemma TonnesErrorWithinOneIff(rate: Rate)
    requires rate > 0
    ensures (forall amount: nat :: -1 <= ToTonnes(Fee(amount, rate), rate) - amount <= 1) <==> 3 * rate > 10000
  {
    if 3 * rate > 10000 {
      forall amount: nat ensures -1 <= ToTonnes(Fee(amount, rate), rate) - amount <= 1 {
        TonnesErrorAboveThird(amount, rate);
      }
    } else {
      var step := 10000 - 3 * rate;
      var k := (5000 - rate) / step;
      assert 5000 - rate == step * k + (5000 - rate) % step;
      var amount := AmountOffByTwo(rate, k);
    }
  }

  /** An error of one unit is attained at the 2024 rate of $80: 0.0003 t is charged $0.02, which reads
      as 0.0002 t. */
  lemma TonnesErrorAttained()
    ensures Fee(3, 8000) == 2 && ToTonnes(2, 8000) == 2
  {
    assert 3 * 8000 == 24000;
  }
}
