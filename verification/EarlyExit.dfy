/** Early withdrawal from a bond (contracts/credence_bond/src/early_exit_penalty.rs and
    lib.rs 1561-1654): a penalty floored in two stages, split from the payout. */
module EarlyExit {
  import opened Host

  const MAX_PENALTY_BPS: nat := 10_000
  const PENALTY_BASIS_POINTS_DENOMINATOR: int := 10_000

  datatype Bond = Bond(identity: Address, bonded: int, slashed: int, start: nat, duration: nat)

  datatype Config = Config(treasury: Address, penaltyBps: nat)

  datatype ExitError =
    | BondNotFound | NotBondOwner | SlashExceedsBond | InsufficientBalance | LockupNotExpired
    | EarlyExitConfigNotSet | Underflow | Overflow | InvariantViolation | PenaltyTooHigh

  /** Storage and clock; the last two are what transfers have moved so far. */
  datatype State = State(now: nat, bond: Option<Bond>, config: Option<Config>, toTreasury: int, toOwner: int)

  type Outcome = Result<State, ExitError>

  const Initial: State := State(0, None, None, 0, 0)

  /** checked_mul(..).unwrap_or(0) */
  function OrZero(x: int): int {
    if InI128(x) then x else 0
  }

  function Charge(amount: int, bps: nat): int {
    TruncDiv(OrZero(amount * bps), PENALTY_BASIS_POINTS_DENOMINATOR)
  }

  function CalculatePenalty(amount: int, remaining: nat, duration: nat, bps: nat): int {
    if duration == 0 then 0 else TruncDiv(OrZero(Charge(amount, bps) * remaining), duration)
  }

  function LockEnd(b: Bond): nat {
    Min(b.start + b.duration, U64_MAX)
  }

  function SetConfig(s: State, treasury: Address, bps: nat): Outcome {
    if bps > MAX_PENALTY_BPS then Err(PenaltyTooHigh) else Ok(s.(config := Some(Config(treasury, bps))))
  }

  /** The penalty a withdrawal at this moment is charged. */
  function PenaltyNow(s: State, b: Bond, c: Config, amount: int): int {
    CalculatePenalty(amount, Max(LockEnd(b) - s.now, 0), b.duration, c.penaltyBps)
  }

  /** Checked subtraction, checked addition, and the split check. */
  function SplitError(amount: int, penalty: int): Option<ExitError> {
    if !InI128(amount - penalty) then Some(Underflow)
    else if !InI128(amount - penalty + penalty) then Some(Overflow)
    else if penalty < 0 || penalty > amount || amount - penalty + penalty != amount then Some(InvariantViolation)
    else None
  }

  function ReadyError(s: State, identity: Address, amount: int): Option<ExitError> {
    if s.bond.None? then Some(BondNotFound)
    else
      var b := s.bond.value;
      if b.identity != identity then Some(NotBondOwner)
      else if !InI128(b.bonded - b.slashed) then Some(SlashExceedsBond)
      else if amount > b.bonded - b.slashed then Some(InsufficientBalance)
      else if s.now >= LockEnd(b) then Some(LockupNotExpired)
      else if s.config.None? then Some(EarlyExitConfigNotSet)
      else None
  }

  function WithdrawEarly(s: State, identity: Address, amount: int): Outcome {
    var e := ReadyError(s, identity, amount);
    if e.Some? then Err(e.value)
    else
      var b, c := s.bond.value, s.config.value;
      var penalty := PenaltyNow(s, b, c, amount);
      var f := SplitError(amount, penalty);
      if f.Some? then Err(f.value)
      else if !InI128(b.bonded - amount) then Err(Underflow)
      else if b.slashed > b.bonded - amount then Err(SlashExceedsBond)
      else Ok(s.(bond := Some(b.(bonded := b.bonded - amount)),
                 toTreasury := s.toTreasury + Max(penalty, 0),
                 toOwner := s.toOwner + Max(amount - penalty, 0)))
  }
}
