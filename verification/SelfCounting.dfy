/** A size that counts the digits of its own decimal notation. */
module SelfCounting {

  /** Decimal digits of n. */
  function Digits(n: nat): (d: nat)
    ensures d >= 1
  {
    if n < 10 then 1 else 1 + Digits(n / 10)
  }

  function Power10(k: nat): nat {
    if k == 0 then 1 else 10 * Power10(k - 1)
  }

  lemma {:induction false} DigitsIff(n: nat, k: nat)
    requires k >= 1
    ensures Digits(n) <= k <==> n < Power10(k)
    decreases k
  {
    if k == 1 {
      assert Power10(1) == 10 * Power10(0);
    } else if n >= 10 {
      DigitsIff(n / 10, k - 1);
    } else {
      PowerGrows(k);
    }
  }

  lemma {:induction false} PowerGrows(k: nat)
    requires k >= 1
    ensures Power10(k) >= 10
    decreases k
  {
    if k > 1 { PowerGrows(k - 1); }
  }

  /** Re-count until the number is right or the rounds are used up. */
  function Settle(base: nat, n: nat, rounds: nat): nat
    decreases rounds
  {
    if rounds == 0 || n == base + Digits(n) then n else Settle(base, base + Digits(n), rounds - 1)
  }

  ghost predicate Settled(base: nat, n: nat) {
    n == base + Digits(n)
  }

  /** Numbers just above a base have the digits of its successor, or one more. */
  lemma DigitsNear(base: nat, d: nat)
    requires 1 <= d <= 9 * base + 11
    ensures Digits(base + 1) <= Digits(base + d) <= Digits(base + 1) + 1
  {
    var k := Digits(base + 1);
    DigitsIff(base + 1, k);
    DigitsIff(base + d, k + 1);
    if k > 1 {
      DigitsIff(base + 1, k - 1);
      DigitsIff(base + d, k - 1);
    }
    assert Power10(k + 1) == 10 * Power10(k);
  }

  lemma DigitsMonotone(m: nat, n: nat)
    requires m <= n
    ensures Digits(m) <= Digits(n)
  {
    DigitsIff(n, Digits(n));
    DigitsIff(m, Digits(n));
  }

  /** The third value of the iteration counts itself. */
  lemma ThirdIsSettled(base: nat, n: nat)
    requires Digits(n) <= 9 * base + 11
    ensures Settled(base, base + Digits(base + Digits(base + Digits(n))))
  {
    hide Digits;
    var k := Digits(base + 1);
    var d1 := Digits(base + Digits(n));
    var d2 := Digits(base + d1);
    BaseDigits(base);
    DigitsNear(base, Digits(n));
    DigitsNear(base, d1);
    DigitsNear(base, d2);
    DigitsMonotone(base + k, base + k + 1);
  }

  /** From any number that is not absurdly long for its base, three rounds find a fixpoint. */
  lemma ThreeRoundsSettle(base: nat, n: nat)
    requires Digits(n) <= 9 * base + 11
    ensures Settled(base, Settle(base, n, 3))
  {
    hide Digits;
    ThirdIsSettled(base, n);
    var n1 := base + Digits(n);
    var n2 := base + Digits(n1);
    var n3 := base + Digits(n2);
    assert Settle(base, n3, 0) == n3;
    assert Settle(base, n2, 1) == n2 || Settle(base, n2, 1) == n3;
    assert Settled(base, Settle(base, n2, 1));
    assert Settled(base, Settle(base, n1, 2));
  }

  /** The digits of the successor of a base are few enough to be near it. */
  lemma {:induction false} BaseDigits(base: nat)
    ensures Digits(base + 1) + 1 <= 9 * base + 11
    decreases base
  {
    if base + 1 >= 10 { BaseDigits((base + 1) / 10 - 1); }
  }

  const U64_MAX := 0xFFFF_FFFF_FFFF_FFFF

  /** Any base and any 64-bit starting value: the loop ends on a number that counts itself. */
  lemma AnyStartSettles(base: nat, n: nat, rounds: nat)
    requires n <= U64_MAX && rounds >= 3
    ensures Settled(base, Settle(base, n, rounds))
  {
    SmallNumbers(n);
    if base >= 1 {
      ThreeRoundsSettle(base, n);
    } else {
      ZeroBase(n);
    }
    MoreRounds(base, n, 3, rounds);
  }

  lemma SmallNumbers(n: nat)
    requires n <= U64_MAX
    ensures Digits(n) <= 20
  {
    assert Power10(20) == 10 * Power10(19) == 100 * Power10(18);
    assert Power10(4) == 10000 && Power10(8) == 10000 * Power10(4) && Power10(12) == 10000 * Power10(8)
      && Power10(16) == 10000 * Power10(12) && Power10(18) == 100 * Power10(16);
    DigitsIff(n, 20);
  }

  lemma ZeroBase(n: nat)
    requires Digits(n) <= 20
    ensures Settled(0, Settle(0, n, 3))
  {
    var n1 := Digits(n);
    assert Digits(n1) <= 2;
  }

  lemma {:induction false} MoreRounds(base: nat, n: nat, few: nat, many: nat)
    requires few <= many && Settled(base, Settle(base, n, few))
    ensures Settle(base, n, many) == Settle(base, n, few)
    decreases few
  {
    if few > 0 && n != base + Digits(n) {
      MoreRounds(base, base + Digits(n), few - 1, many - 1);
    }
  }
}
