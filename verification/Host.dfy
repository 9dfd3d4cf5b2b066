/** What the contracts share: addresses, machine-integer bounds and call results. */
module Host {

  /** An account or contract address. Only equality matters. */
  datatype Address = Address(key: nat)

  const U32_MAX: nat := 0xFFFF_FFFF
  const U64_MAX: nat := 0xFFFF_FFFF_FFFF_FFFF
  const I128_MAX: int := 0x7FFF_FFFF_FFFF_FFFF_FFFF_FFFF_FFFF_FFFF
  const I128_MIN: int := -I128_MAX - 1

  const BPS_DENOMINATOR: int := 10_000

  /** The host rejects a stored vector that outgrows a ledger entry. The real limit is far
      smaller; this one only keeps lengths and page bounds inside u32. */
  const HOST_VEC_LIMIT: nat := 0xFFFF_0000

  /** The outcome of a contract call. After `Err` the host has undone every write of the call. */
  datatype Result<+T, +E> = Ok(value: T) | Err(error: E)

  datatype Option<+T> = None | Some(value: T)

  function ErrorOf<T, E>(r: Result<T, E>): Option<E> {
    if r.Ok? then None else Some(r.error)
  }

  /** The state after a call that either gives the next state or fails. */
  function StateAfter<S, E>(s: S, r: Result<S, E>): S {
    if r.Ok? then r.value else s
  }

  predicate InI128(x: int) {
    I128_MIN <= x <= I128_MAX
  }

  function Min(a: int, b: int): int {
    if a <= b then a else b
  }

  function Max(a: int, b: int): int {
    if a <= b then b else a
  }

  /** Unsigned 64-bit addition as the release build performs it: it wraps. */
  function WrapAddU64(a: nat, b: nat): nat {
    (a + b) % (U64_MAX + 1)
  }

  function WrapAddU32(a: nat, b: nat): nat {
    (a + b) % (U32_MAX + 1)
  }

  /** Signed division as the machine performs it: toward zero. */
  function TruncDiv(a: int, b: int): int
    requires b != 0
  {
    if a >= 0 then a / b else -(-a / b)
  }
}
