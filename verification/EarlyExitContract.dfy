/** set_config and withdraw_early as the contract runs them. */
module EarlyExitContract {
  import opened Host
  import opened EarlyExit
  import T = EarlyExitTheorems

  class EarlyExitStore {
    var now: nat
    var bond: Option<Bond>
    var config: Option<Config>
    ghost var toTreasury: int
    ghost var toOwner: int

    ghost function Model(): State
      reads this
    {
      State(now, bond, config, toTreasury, toOwner)
    }

    ghost predicate Valid()
      reads this
    {
      T.Inv(Model())
    }

    constructor ()
      ensures Model() == EarlyExit.Initial && Valid()
    {
      now, bond, config, toTreasury, toOwner := 0, None, None, 0, 0;
    }

    method AdvanceLedger(t: nat)
      requires Valid() && now <= t <= U64_MAX
      modifies this
      ensures Valid() && Model() == old(Model()).(now := t)
    {
      now := t;
    }

    /** Bonds are created, topped up and slashed elsewhere. */
    method WriteBond(b: Bond)
      requires Valid() && InI128(b.bonded) && InI128(b.slashed) && b.start <= now && b.duration <= U64_MAX
      modifies this
      ensures Valid() && Model() == old(Model()).(bond := Some(b))
    {
      bond := Some(b);
    }

    method SetConfig(treasury: Address, bps: nat) returns (e: Option<ExitError>)
      requires Valid()
      modifies this
      ensures Valid()
      ensures e == (if bps > MAX_PENALTY_BPS then Some(PenaltyTooHigh) else None)
      ensures Model() == if e.Some? then old(Model()) else old(Model()).(config := Some(Config(treasury, bps)))
    {
      e := None;
      if bps > MAX_PENALTY_BPS {
        e := Some(PenaltyTooHigh);
      } else {
        config := Some(Config(treasury, bps));
      }
    }

    /** Whether it succeeds, what it stores and what it transfers, as the bond's owner can tell
        from the state before the call. */
    method WithdrawEarly(identity: Address, amount: int) returns (r: Result<Bond, ExitError>)
      requires Valid() && InI128(amount)
      modifies this
      ensures Valid()
      ensures r.Ok? <==> ReadyError(old(Model()), identity, amount).None? && amount >= 0
      ensures var o := EarlyExit.WithdrawEarly(old(Model()), identity, amount);
        && (o.Ok? ==> Model() == o.value && bond == Some(r.value))
        && (o.Err? ==> Model() == old(Model()) && r == Err(o.error))
    {
      if bond.None? {
        r := Err(BondNotFound);
      } else if bond.value.identity != identity {
        r := Err(NotBondOwner);
      } else {
        var b := bond.value;
        var available := b.bonded - b.slashed;
        if !InI128(available) {
          r := Err(SlashExceedsBond);
        } else if amount > available {
          r := Err(InsufficientBalance);
        } else if now >= LockEnd(b) {
          r := Err(LockupNotExpired);
        } else if config.None? {
          r := Err(EarlyExitConfigNotSet);
        } else {
          T.SplitCheckFiresOnlyOnNegative(Model(), identity, amount);
          var remaining := LockEnd(b) - now;
          var penalty := CalculatePenalty(amount, remaining, b.duration, config.value.penaltyBps);
          var net := amount - penalty;
          if !InI128(net) {
            r := Err(Underflow);
          } else if penalty < 0 || penalty > amount {
            r := Err(InvariantViolation);
          } else {
            T.WithdrawalConserves(Model(), identity, amount);
            assert InI128(b.bonded - amount) && b.slashed <= b.bonded - amount;  // neither later check fires
            b := b.(bonded := b.bonded - amount);
            bond := Some(b);
            if penalty > 0 {
              toTreasury := toTreasury + penalty;
            }
            if net > 0 {
              toOwner := toOwner + net;
            }
            r := Ok(b);
          }
        }
      }
    }
  }
}
