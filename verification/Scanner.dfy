/** The liquidation scanner (contracts/credence_bond/src/liquidation_scanner.rs): an append-only
    registry of bond holders, read page by page. */
module Scanner {
  import opened Host

  const MAX_ITER_HARD_CAP: nat := 200
  const DEFAULT_MAX_ITER: nat := 50

  datatype Bond = Bond(active: bool, bonded: int, slashed: int)

  datatype Candidate = Candidate(identity: Address, bonded: int, slashed: int, net: int)

  datatype ScanResult = ScanResult(candidates: seq<Candidate>, nextCursor: nat, done: bool, registrySize: nat)

  datatype ScanError = Unauthorized | CursorOutOfRange | InvalidAdvance

  datatype State = State(
    registry: seq<Address>, active: map<Address, bool>, size: nat,
    cursors: map<Address, nat>, bonds: map<Address, Bond>)

  const Initial: State := State([], map[], 0, map[], map[])

  /** A missing flag reads as active. */
  predicate IsActive(s: State, a: Address) {
    a in s.active ==> s.active[a]
  }

  function Register(s: State, a: Address): State {
    if a in s.registry then
      if IsActive(s, a) then s else s.(active := s.active[a := true], size := s.size + 1)
    else if |s.registry| >= HOST_VEC_LIMIT then s
    else s.(registry := s.registry + [a], active := s.active[a := true], size := s.size + 1)
  }

  function Deregister(s: State, a: Address): State {
    if a !in s.registry || !IsActive(s, a) then s
    else s.(active := s.active[a := false], size := if s.size > 0 then s.size - 1 else s.size)
  }

  /** slashed * 10000 / bonded, or 0 when the product leaves i128. */
  function SlashRatio(b: Bond): int
    requires b.bonded > 0
  {
    if InI128(b.slashed * BPS_DENOMINATOR) then TruncDiv(b.slashed * BPS_DENOMINATOR, b.bonded) else 0
  }

  /** What the scan tests at a slot. */
  predicate Qualifies(s: State, a: Address, minRatio: nat) {
    && IsActive(s, a) && a in s.bonds
    && s.bonds[a].active && s.bonds[a].bonded > 0
    && SlashRatio(s.bonds[a]) >= minRatio
  }

  function CandidateOf(s: State, a: Address): Candidate
    requires a in s.bonds
  {
    var b := s.bonds[a];
    Candidate(a, b.bonded, b.slashed, b.bonded - b.slashed)
  }

  function Candidates(s: State, lo: nat, hi: nat, minRatio: nat): seq<Candidate>
    requires hi <= |s.registry|
  {
    if hi <= lo then []
    else
      Candidates(s, lo, hi - 1, minRatio) +
      (if Qualifies(s, s.registry[hi - 1], minRatio) then [CandidateOf(s, s.registry[hi - 1])] else [])
  }

  function PageSize(maxIter: nat): nat {
    if maxIter == 0 then DEFAULT_MAX_ITER else Min(maxIter, MAX_ITER_HARD_CAP)
  }

  function PageEnd(slots: nat, cursor: nat, maxIter: nat): nat {
    Min(WrapAddU32(cursor, PageSize(maxIter)), slots)
  }

  function Scan(s: State, keeper: Address, cursor: nat, maxIter: nat, minRatio: nat, auth: set<Address>)
    : Result<(State, ScanResult), ScanError>
  {
    var slots := |s.registry|;
    if keeper !in auth then Err(Unauthorized)
    else if slots > 0 && cursor >= slots then Err(CursorOutOfRange)
    else
      var end := PageEnd(slots, cursor, maxIter);
      var done := end >= slots;
      var next := if done then 0 else end;
      Ok((s.(cursors := s.cursors[keeper := next]),
          ScanResult(Candidates(s, cursor, end, minRatio), next, done, s.size)))
  }

  function KeeperCursor(s: State, keeper: Address): nat {
    if keeper in s.cursors then s.cursors[keeper] else 0
  }

  function AdvanceCursor(s: State, keeper: Address, next: nat): Result<State, ScanError> {
    if next == 0 || KeeperCursor(s, keeper) < next <= |s.registry| then Ok(s.(cursors := s.cursors[keeper := next]))
    else Err(InvalidAdvance)
  }

  /** The bond accounting guard, which every bond write passes (invariants.rs). */
  predicate BondOk(b: Bond) {
    0 <= b.slashed <= b.bonded <= I128_MAX
  }
}
