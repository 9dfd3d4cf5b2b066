/** Bounds of the early-exit penalty and what splitting a withdrawal does to it. */
module EarlyExitTheorems {
  import opened Host
  import opened Arithmetic
  import opened EarlyExit

  // ----- The penalty -----

  /** Neither product overflows. A caller can check this before the call. */
  predicate NoOverflow(amount: nat, remaining: nat, bps: nat) {
    amount * bps <= I128_MAX && (amount * bps / 10_000) * remaining <= I128_MAX
  }

  lemma PenaltyIs(amount: nat, remaining: nat, duration: nat, bps: nat)
    requires duration > 0
    ensures NoOverflow(amount, remaining, bps) ==>
      CalculatePenalty(amount, remaining, duration, bps) == (amount * bps / 10_000) * remaining / duration
    ensures !NoOverflow(amount, remaining, bps) ==> CalculatePenalty(amount, remaining, duration, bps) == 0
  {
    var x := amount * bps;
    DivBounds(x, 10_000);
    var y := (x / 10_000) * remaining;
  }

  lemma ShareInRange(n: int, d: nat, c: nat)
    requires d > 0 && 0 <= n <= c * d
    ensures 0 <= n / d <= c
  {
    DivAtMost(n, d, c);
    DivBounds(n, d);
  }

  lemma StagesInRange(amount: nat, bps: nat, remaining: nat, duration: nat)
    requires duration > 0 && bps <= 10_000 && remaining <= duration
    ensures 0 <= (amount * bps / 10_000) * remaining / duration <= amount
  {
    MulLe(bps, 10_000, amount);
    ShareInRange(amount * bps, 10_000, amount);
    var c := amount * bps / 10_000;
    MulLe(remaining, duration, c);
    ShareInRange(c * remaining, duration, c);
  }

  /** At a rate up to 100% and within the lock-up, the penalty lies between zero and the amount. */
  lemma PenaltyInRange(amount: nat, remaining: nat, duration: nat, bps: nat)
    requires bps <= MAX_PENALTY_BPS && remaining <= duration
    ensures 0 <= CalculatePenalty(amount, remaining, duration, bps) <= amount
  {
    if duration > 0 {
      PenaltyIs(amount, remaining, duration, bps);
      StagesInRange(amount, bps, remaining, duration);
    }
  }

  /** The exact penalty, floored once. */
  function FlooredExact(amount: nat, remaining: nat, duration: nat, bps: nat): int
    requires duration > 0
  {
    amount * bps * remaining / (10_000 * duration)
  }

  /** Flooring by 10_000 first and by the duration later loses at most one. */
  lemma TwoFloors(x: nat, remaining: nat, duration: nat)
    requires 0 < duration && remaining <= duration
    ensures var p := (x / 10_000) * remaining / duration;
      p <= x * remaining / (10_000 * duration) <= p + 1
  {
    DivBounds(x, 10_000);
    var c := x / 10_000;
    var y := c * remaining;
    DivBounds(y, duration);
    var p, d := y / duration, 10_000 * duration;
    MulLe(10_000 * c, x, remaining);
    MulLe(x, 10_000 * c + 9_999, remaining);
    assert 10_000 * c * remaining == 10_000 * y && (10_000 * c + 9_999) * remaining == 10_000 * y + 9_999 * remaining;
    assert p * d == 10_000 * (p * duration);
    DivAtLeast(x * remaining, d, p);
    assert (p + 1) * d == p * d + d;
    DivAtMost(x * remaining, d, p + 1);
  }

  /** What overflows is far above what rounding could hide. */
  lemma OverflowIsLarge(amount: nat, remaining: nat, duration: nat, bps: nat)
    requires 0 < remaining <= duration <= U64_MAX && !NoOverflow(amount, remaining, bps)
    ensures FlooredExact(amount, remaining, duration, bps) >= 2
  {
    var x := amount * bps;
    DivBounds(x, 10_000);
    MulLe(1, remaining, x);
    MulLe(x / 10_000, x, remaining);
    assert x * remaining > I128_MAX;
    DivAtLeast(x * remaining, 10_000 * duration, 2);
  }

  /** The penalty is the exact value floored, or one less, exactly when no product overflows. */
  lemma PenaltyNearExact(amount: nat, remaining: nat, duration: nat, bps: nat)
    requires 0 < remaining <= duration <= U64_MAX
    ensures NoOverflow(amount, remaining, bps) <==>
      var exact := FlooredExact(amount, remaining, duration, bps);
      exact - 1 <= CalculatePenalty(amount, remaining, duration, bps) <= exact
  {
    PenaltyIs(amount, remaining, duration, bps);
    TwoFloors(amount * bps, remaining, duration);
    if !NoOverflow(amount, remaining, bps) { OverflowIsLarge(amount, remaining, duration, bps); }
  }

  lemma NoOverflowBelow(amount: nat, more: nat, remaining: nat, longer: nat, bps: nat)
    requires amount <= more && remaining <= longer && NoOverflow(more, longer, bps)
    ensures NoOverflow(amount, remaining, bps)
    ensures (amount * bps / 10_000) * remaining <= (more * bps / 10_000) * longer
  {
    MulLe(amount, more, bps);
    DivMonotone(amount * bps, more * bps, 10_000);
    var c, d := amount * bps / 10_000, more * bps / 10_000;
    MulLe(c, d, remaining);
    MulLe(remaining, longer, d);
  }

  /** A larger amount or a longer remaining time never costs less. */
  lemma PenaltyMonotone(amount: nat, more: nat, remaining: nat, longer: nat, duration: nat, bps: nat)
    requires amount <= more && remaining <= longer && NoOverflow(more, longer, bps)
    ensures CalculatePenalty(amount, remaining, duration, bps) <= CalculatePenalty(more, longer, duration, bps)
  {
    if duration > 0 {
      NoOverflowBelow(amount, more, remaining, longer, bps);
      PenaltyIs(amount, remaining, duration, bps);
      PenaltyIs(more, longer, duration, bps);
      DivMonotone((amount * bps / 10_000) * remaining, (more * bps / 10_000) * longer, duration);
    }
  }

  lemma CeilBounds(n: nat, d: nat) returns (c: nat)
    requires d > 0
    ensures n <= c * d < n + d
  {
    DivBounds(n + d - 1, d);
    c := (n + d - 1) / d;
  }

  /** Small numbers leave room below i128. */
  lemma SmallProducts(a: nat, bps: nat, c: nat, longer: nat, duration: nat)
    requires bps <= 10_000 && 0 < longer <= duration <= U64_MAX
    requires a * bps < 10_000 * c + bps && a * bps / 10_000 == c && c * longer < duration + longer
    ensures NoOverflow(a, longer, bps)
  {
    MulLe(1, longer, c);
  }

  lemma SmallCharge(a: nat, bps: nat, c: nat)
    requires 10_000 * c <= a * bps < 10_000 * c + bps && bps <= 10_000
    ensures a * bps / 10_000 == c
  {
  }

  /** The smallest amount that is charged anything for the time `longer`. */
  lemma SmallestCharged(longer: nat, duration: nat, bps: nat) returns (a: nat)
    requires 0 < bps <= MAX_PENALTY_BPS && 0 < longer <= duration <= U64_MAX
    ensures NoOverflow(a, longer, bps) && CalculatePenalty(a, longer, duration, bps) >= 1
  {
    var c := CeilBounds(duration, longer);
    a := CeilBounds(10_000 * c, bps);
    SmallCharge(a, bps, c);
    SmallProducts(a, bps, c, longer, duration);
    PenaltyIs(a, longer, duration, bps);
    DivAtLeast(c * longer, duration, 1);
  }

  /** Where the penalty of `more` overflows, a smaller amount is still charged something. */
  lemma ChargedBelow(more: nat, longer: nat, duration: nat, bps: nat) returns (a: nat)
    requires 0 < bps <= MAX_PENALTY_BPS && 0 < longer <= duration <= U64_MAX && !NoOverflow(more, longer, bps)
    ensures a <= more && CalculatePenalty(a, longer, duration, bps) >= 1
  {
    a := SmallestCharged(longer, duration, bps);
    if more < a { NoOverflowBelow(more, a, longer, longer, bps); }
  }

  /** The penalty at (more, longer) is the largest of all below it. */
  ghost predicate MonotoneBelow(more: nat, longer: nat, duration: nat, bps: nat) {
    forall a: nat, r: nat :: a <= more && r <= longer ==>
      CalculatePenalty(a, r, duration, bps) <= CalculatePenalty(more, longer, duration, bps)
  }

  /** A larger amount or a longer remaining time never costs less, if and only if no product
      overflows at the larger one: there the penalty drops to zero, below that of some smaller
      amount. */
  lemma MonotoneIffNoOverflow(more: nat, longer: nat, duration: nat, bps: nat)
    requires 0 < bps <= MAX_PENALTY_BPS && 0 < longer <= duration <= U64_MAX
    ensures MonotoneBelow(more, longer, duration, bps) <==> NoOverflow(more, longer, bps)
  {
    if NoOverflow(more, longer, bps) {
      forall a: nat, r: nat | a <= more && r <= longer
        ensures CalculatePenalty(a, r, duration, bps) <= CalculatePenalty(more, longer, duration, bps)
      {
        PenaltyMonotone(a, more, r, longer, duration, bps);
      }
    } else {
      var a := ChargedBelow(more, longer, duration, bps);
      PenaltyIs(more, longer, duration, bps);
    }
  }

  // ----- Withdrawing in parts -----

  function Total(parts: seq<nat>): nat {
    if parts == [] then 0 else Total(parts[..|parts| - 1]) + parts[|parts| - 1]
  }

  function PenaltySum(parts: seq<nat>, remaining: nat, duration: nat, bps: nat): int {
    if parts == [] then 0
    else
      PenaltySum(parts[..|parts| - 1], remaining, duration, bps)
      + CalculatePenalty(parts[|parts| - 1], remaining, duration, bps)
  }

  lemma FloorBetween(x: nat, y: nat, z: nat, d: nat)
    requires 0 < d && x + y <= z <= x + y + d
    ensures x / d + y / d <= z / d <= x / d + y / d + 2
  {
    DivSum(x, y, d);
    DivMonotone(x + y, z, d);
    DivBounds(x + y, d);
    var k := (x + y) / d;
    assert (k + 1) * d == k * d + d;
    DivAtMost(z, d, k + 1);
  }

  lemma TwoFloorsOfSum(p: nat, q: nat, c: nat, remaining: nat, duration: nat)
    requires 0 < duration && remaining <= duration && p + q <= c <= p + q + 1
    ensures p * remaining / duration + q * remaining / duration <= c * remaining / duration
    ensures c * remaining / duration <= p * remaining / duration + q * remaining / duration + 2
  {
    var x, y, z := p * remaining, q * remaining, c * remaining;
    MulLe(p + q, c, remaining);
    MulLe(c, p + q + 1, remaining);
    assert (p + q) * remaining == x + y;
    assert (p + q + 1) * remaining == x + y + remaining;
    FloorBetween(x, y, z, duration);
  }

  lemma StagesOfSum(a: nat, b: nat, bps: nat, remaining: nat, duration: nat)
    requires 0 < duration && remaining <= duration
    ensures var p, q := (a * bps / 10_000) * remaining / duration, (b * bps / 10_000) * remaining / duration;
      p + q <= ((a + b) * bps / 10_000) * remaining / duration <= p + q + 2
  {
    var x, y, z := a * bps, b * bps, (a + b) * bps;
    assert z == x + y;
    DivSum(x, y, 10_000);
    TwoFloorsOfSum(x / 10_000, y / 10_000, z / 10_000, remaining, duration);
  }

  /** Two amounts together are charged at least what they are charged apart, and at most two more. */
  lemma PenaltyOfSum(a: nat, b: nat, remaining: nat, duration: nat, bps: nat)
    requires remaining <= duration && NoOverflow(a + b, remaining, bps)
    ensures var apart := CalculatePenalty(a, remaining, duration, bps) + CalculatePenalty(b, remaining, duration, bps);
      apart <= CalculatePenalty(a + b, remaining, duration, bps) <= apart + 2
  {
    if duration > 0 {
      NoOverflowBelow(a, a + b, remaining, remaining, bps);
      NoOverflowBelow(b, a + b, remaining, remaining, bps);
      PenaltyIs(a, remaining, duration, bps);
      PenaltyIs(b, remaining, duration, bps);
      PenaltyIs(a + b, remaining, duration, bps);
      StagesOfSum(a, b, bps, remaining, duration);
    }
  }

  /** In `k` parts at one time the total penalty never rises, and falls by at most 2(k - 1). */
  lemma {:induction false} PartsLoseLittle(parts: seq<nat>, remaining: nat, duration: nat, bps: nat)
    requires parts != [] && remaining <= duration && NoOverflow(Total(parts), remaining, bps)
    ensures var whole := CalculatePenalty(Total(parts), remaining, duration, bps);
      PenaltySum(parts, remaining, duration, bps) <= whole
      && whole <= PenaltySum(parts, remaining, duration, bps) + 2 * (|parts| - 1)
  {
    var front, last := parts[..|parts| - 1], parts[|parts| - 1];
    if front == [] {
      assert Total(front) == 0 && PenaltySum(front, remaining, duration, bps) == 0;
    } else {
      NoOverflowBelow(Total(front), Total(parts), remaining, remaining, bps);
      PartsLoseLittle(front, remaining, duration, bps);
      PenaltyOfSum(Total(front), last, remaining, duration, bps);
    }
  }

  /** Splitting `amount`, however it is done, never raises the total and lowers it by at most
      two for each extra part. */
  ghost predicate SplitsFairly(amount: nat, remaining: nat, duration: nat, bps: nat) {
    forall parts: seq<nat> :: parts != [] && Total(parts) == amount ==>
      PenaltySum(parts, remaining, duration, bps) <= CalculatePenalty(amount, remaining, duration, bps)
        <= PenaltySum(parts, remaining, duration, bps) + 2 * (|parts| - 1)
  }

  lemma TwoParts(a: nat, b: nat, remaining: nat, duration: nat, bps: nat)
    ensures var parts: seq<nat> := [a, b];
      && Total(parts) == a + b
      && PenaltySum(parts, remaining, duration, bps)
           == CalculatePenalty(a, remaining, duration, bps) + CalculatePenalty(b, remaining, duration, bps)
  {
    var parts: seq<nat> := [a, b];
    var one: seq<nat> := [a];
    assert parts[..|parts| - 1] == one && one[..|one| - 1] == [];
    assert Total(one) == a;
    assert PenaltySum(one, remaining, duration, bps) == CalculatePenalty(a, remaining, duration, bps);
  }

  /** That holds of all splits of an amount if and only if no product overflows for the whole. */
  lemma SplitsFairlyIffNoOverflow(amount: nat, remaining: nat, duration: nat, bps: nat)
    requires 0 < bps <= MAX_PENALTY_BPS && 0 < remaining <= duration <= U64_MAX
    ensures SplitsFairly(amount, remaining, duration, bps) <==> NoOverflow(amount, remaining, bps)
  {
    if NoOverflow(amount, remaining, bps) {
      forall parts: seq<nat> | parts != [] && Total(parts) == amount
        ensures PenaltySum(parts, remaining, duration, bps) <= CalculatePenalty(amount, remaining, duration, bps)
        ensures CalculatePenalty(amount, remaining, duration, bps)
          <= PenaltySum(parts, remaining, duration, bps) + 2 * (|parts| - 1)
      {
        PartsLoseLittle(parts, remaining, duration, bps);
      }
    } else {
      var a := ChargedBelow(amount, remaining, duration, bps);
      TwoParts(a, amount - a, remaining, duration, bps);
      PenaltyIs(amount, remaining, duration, bps);
      PenaltyInRange(amount - a, remaining, duration, bps);
      var parts: seq<nat> := [a, amount - a];
      assert parts != [] && Total(parts) == amount;
    }
  }

  // ----- withdraw_early -----

  /** Stored values are within their types, the rate within its cap, and a bond started in the past. */
  predicate Inv(s: State) {
    && s.now <= U64_MAX
    && (s.config.Some? ==> s.config.value.penaltyBps <= MAX_PENALTY_BPS)
    && (s.bond.Some? ==>
          var b := s.bond.value; InI128(b.bonded) && InI128(b.slashed) && b.start <= s.now && b.duration <= U64_MAX)
  }

  lemma NegativeProduct(a: int, b: nat, c: nat)
    requires a <= 0 && b <= c
    ensures a * c <= a * b <= 0
  {
  }

  /** Truncation toward zero from below. */
  lemma NegativeShare(x: int, d: nat, low: int)
    requires x <= 0 && d > 0 && low * d <= x
    ensures low <= TruncDiv(x, d) <= 0
  {
    assert (-low) * d == -(low * d);
    if low > 0 { MulLe(1, low, d); }
    DivAtMost(-x, d, -low);
    DivBounds(-x, d);
  }

  /** A negative amount is charged between itself and nothing. */
  lemma PenaltyOfNegative(amount: int, remaining: nat, duration: nat, bps: nat)
    requires amount < 0 && bps <= MAX_PENALTY_BPS && remaining <= duration
    ensures amount <= CalculatePenalty(amount, remaining, duration, bps) <= 0
  {
    if duration > 0 {
      NegativeProduct(amount, bps, 10_000);
      NegativeShare(OrZero(amount * bps), 10_000, amount);
      var c := Charge(amount, bps);
      NegativeProduct(c, remaining, duration);
      NegativeShare(OrZero(c * remaining), duration, c);
    }
  }

  /** Exactly when withdraw_early succeeds: once the caller, balance, lock-up and configuration
      checks pass, only a negative amount fails, and it always fails at the split check. For
      amounts of zero and more the split check and the later subtractions never fire. */
  lemma SplitCheckFiresOnlyOnNegative(s: State, identity: Address, amount: int)
    requires Inv(s) && InI128(amount) && ReadyError(s, identity, amount).None?
    ensures amount >= 0 ==> WithdrawEarly(s, identity, amount).Ok?
    ensures amount < 0 ==> WithdrawEarly(s, identity, amount) == Err(InvariantViolation)
  {
    var b, c := s.bond.value, s.config.value;
    var remaining := LockEnd(b) - s.now;
    if amount >= 0 {
      PenaltyInRange(amount, remaining, b.duration, c.penaltyBps);
    } else {
      PenaltyOfNegative(amount, remaining, b.duration, c.penaltyBps);
    }
  }

  /** A withdrawal moves exactly what it takes: the bond falls by the amount, and treasury and
      owner receive it between them. */
  lemma WithdrawalConserves(s: State, identity: Address, amount: int)
    requires Inv(s) && InI128(amount) && WithdrawEarly(s, identity, amount).Ok?
    ensures amount >= 0
    ensures var t, b := WithdrawEarly(s, identity, amount).value, s.bond.value;
      && t == s.(bond := Some(b.(bonded := b.bonded - amount)), toTreasury := t.toTreasury, toOwner := t.toOwner)
      && t.toTreasury == s.toTreasury + PenaltyNow(s, b, s.config.value, amount)
      && t.toTreasury + t.toOwner + t.bond.value.bonded == s.toTreasury + s.toOwner + b.bonded
      && s.toTreasury <= t.toTreasury && s.toOwner <= t.toOwner
      && t.bond.value.slashed <= t.bond.value.bonded
      && Inv(t)
  {
    SplitCheckFiresOnlyOnNegative(s, identity, amount);
    var b, c := s.bond.value, s.config.value;
    PenaltyInRange(amount, LockEnd(b) - s.now, b.duration, c.penaltyBps);
  }

  /** Withdrawals one after the other at one time. */
  function WithdrawAll(s: State, identity: Address, parts: seq<nat>): Outcome {
    if parts == [] then Ok(s)
    else
      var before := WithdrawAll(s, identity, parts[..|parts| - 1]);
      if before.Err? then before else WithdrawEarly(before.value, identity, parts[|parts| - 1])
  }

  /** Withdrawing in parts succeeds exactly when withdrawing at once does, and says what it moves. */
  lemma {:induction false} PartsMove(s: State, identity: Address, parts: seq<nat>)
    requires Inv(s) && ReadyError(s, identity, 0).None?
    ensures var b, c, total := s.bond.value, s.config.value, Total(parts);
      var penalties := PenaltySum(parts, LockEnd(b) - s.now, b.duration, c.penaltyBps);
      && (WithdrawAll(s, identity, parts).Ok? <==> total <= b.bonded - b.slashed)
      && (WithdrawAll(s, identity, parts).Ok? ==>
            && WithdrawAll(s, identity, parts).value ==
                 s.(bond := Some(b.(bonded := b.bonded - total)),
                     toTreasury := s.toTreasury + penalties, toOwner := s.toOwner + total - penalties)
            && Inv(WithdrawAll(s, identity, parts).value))
  {
    if parts != [] {
      var front, last := parts[..|parts| - 1], parts[|parts| - 1];
      PartsMove(s, identity, front);
      if WithdrawAll(s, identity, front).Ok? {
        var t := WithdrawAll(s, identity, front).value;
        if InI128(last) && ReadyError(t, identity, last).None? {
          SplitCheckFiresOnlyOnNegative(t, identity, last);
          WithdrawalConserves(t, identity, last);
        }
      }
    }
  }

  /** Splitting a withdrawal into `k` parts leaves the same bond and never pays the treasury
      more; what the owner saves is at most 2(k - 1), however the amount is split. */
  lemma SplittingSavesLittle(s: State, identity: Address, parts: seq<nat>)
    requires Inv(s) && parts != [] && ReadyError(s, identity, Total(parts)).None?
    requires NoOverflow(Total(parts), LockEnd(s.bond.value) - s.now, s.config.value.penaltyBps)
    ensures WithdrawAll(s, identity, parts).Ok? && WithdrawEarly(s, identity, Total(parts)).Ok?
    ensures var apart, once := WithdrawAll(s, identity, parts).value, WithdrawEarly(s, identity, Total(parts)).value;
      && apart.bond == once.bond
      && apart.toTreasury + apart.toOwner == once.toTreasury + once.toOwner
      && 0 <= once.toTreasury - apart.toTreasury <= 2 * (|parts| - 1)
  {
    var b, c, total := s.bond.value, s.config.value, Total(parts);
    PartsMove(s, identity, parts);
    SplitCheckFiresOnlyOnNegative(s, identity, total);
    WithdrawalConserves(s, identity, total);
    PartsLoseLittle(parts, LockEnd(b) - s.now, b.duration, c.penaltyBps);
  }

  /** When a lock-up ends. */
  function LockedUntil(b: Bond): nat {
    if b.start + b.duration <= 0xFFFF_FFFF_FFFF_FFFF then b.start + b.duration else 0xFFFF_FFFF_FFFF_FFFF
  }

  /** Exactly when a withdrawal succeeds: the bond is that of the identity, it is still locked, an exit
      is configured, and the amount is not negative and not more than what is not slashed. */
  lemma WithdrawSucceedsIff(s: State, identity: Address, amount: int)
    requires Inv(s) && InI128(amount)
    ensures WithdrawEarly(s, identity, amount).Ok? <==>
      && s.bond.Some? && s.config.Some? && s.bond.value.identity == identity && s.now < LockedUntil(s.bond.value)
      && 0 <= amount <= s.bond.value.bonded - s.bond.value.slashed <= I128_MAX
  {
    if ReadyError(s, identity, amount).None? { SplitCheckFiresOnlyOnNegative(s, identity, amount); }
  }

  /** What it charges: for the time that is left of the lock-up, the configured share of the amount,
      floored, or one less, exactly if no product overflows. */
  lemma WithdrawCharges(s: State, identity: Address, amount: int, t: State)
    requires Inv(s) && InI128(amount) && WithdrawEarly(s, identity, amount) == Ok(t)
    ensures var b, bps := s.bond.value, s.config.value.penaltyBps;
      var remaining := LockedUntil(b) - s.now;
      && amount >= 0 && b.duration > 0
      && var exact := amount * bps * remaining / (10_000 * b.duration);
      NoOverflow(amount, remaining, bps) <==> exact - 1 <= t.toTreasury - s.toTreasury <= exact
  {
    WithdrawSucceedsIff(s, identity, amount);
    WithdrawalConserves(s, identity, amount);
    var b := s.bond.value;
    PenaltyNearExact(amount, LockedUntil(b) - s.now, b.duration, s.config.value.penaltyBps);
  }
}
