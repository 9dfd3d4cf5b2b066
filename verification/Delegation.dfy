/** The delegation contract (contracts/credence_delegation/src/lib.rs, nonce.rs, domain.rs): one
    nonce stream per owner behind seven entry points, and time-bounded authority. */
module Delegation {
  import opened Host

  const MAX_NONCE_INVALIDATION_SPAN: nat := 10_000
  const MAX_DELEGATION_DURATION: nat := 365 * 24 * 60 * 60

  datatype Kind = Attestation | Management

  datatype Key = Key(owner: Address, delegate: Address, kind: Kind)

  datatype Record = Record(
    owner: Address, delegate: Address, kind: Kind, expiresAt: nat, revoked: bool, revokedAt: nat)

  datatype DomainTag = DelegateTag | RevokeDelegationTag | RevokeAttestationTag

  datatype Payload = Payload(
    domain: DomainTag, owner: Address, target: Address, contractId: Address, nonce: nat, scheme: nat)

  datatype Status = Active | InGrace | Expired | StatusRevoked

  datatype Summary = Summary(isValid: bool, status: Status, timeToExpiry: nat, kind: Kind, revokedAt: nat, scheme: nat)

  datatype DelegationError =
    | ContractPaused | Unauthorized | AlreadyInitialized | NotInitialized | NotAdmin
    | ExpiryInPast | DelegationExpiryTooLong | InvalidNonce | Overflow
    | DelegationNotFound | AlreadyRevoked | RevocationGraceExpired | DelegationNotExpired
    | DomainMismatch | OwnerMismatch | TargetMismatch | ContractIdMismatch
    | UnknownScheme | VerifierNotRegistered | VerificationFailed

  /** What the log remembers: nonces spent, and grants and revocations of a key. */
  datatype Event =
    | Accepted(who: Address, nonce: nat)
    | Invalidated(who: Address, from: nat, to: nat)
    | Granted(key: Key, expiresAt: nat, at: nat)
    | Revoked(key: Key, at: nat)

  /** Contract storage and the ledger clock; `self` is the contract's own address. */
  datatype State = State(
    self: Address, admin: Option<Address>, paused: bool, now: nat,
    records: map<Key, Record>, nonces: map<Address, nat>, grace: nat, verifiers: map<nat, Address>,
    log: seq<Event>)

  type Outcome = Result<State, DelegationError>

  function Initial(self: Address): State {
    State(self, None, false, 0, map[], map[], 0, map[], [])
  }

  function SaturatingAddU64(a: nat, b: nat): nat {
    Min(a + b, U64_MAX)
  }

  // ----- Nonces -----

  function Nonce(s: State, who: Address): nat {
    if who in s.nonces then s.nonces[who] else 0
  }

  function ConsumeNonce(s: State, who: Address, expected: nat): Outcome {
    if Nonce(s, who) != expected then Err(InvalidNonce)
    else if expected >= U64_MAX then Err(Overflow)
    else Ok(s.(nonces := s.nonces[who := expected + 1], log := s.log + [Accepted(who, expected)]))
  }

  function InvalidateNonceRange(s: State, who: Address, newNonce: nat, auth: set<Address>): Outcome {
    var current := Nonce(s, who);
    if s.paused then Err(ContractPaused)
    else if who !in auth then Err(Unauthorized)
    else if newNonce <= current || newNonce - current > MAX_NONCE_INVALIDATION_SPAN then Err(InvalidNonce)
    else Ok(s.(nonces := s.nonces[who := newNonce], log := s.log + [Invalidated(who, current, newNonce)]))
  }

  // ----- Payloads -----

  function VerifyPayload(self: Address, p: Payload, domain: DomainTag, owner: Address,
                         target: Address): Option<DelegationError> {
    if p.domain != domain then Some(DomainMismatch)
    else if p.owner != owner then Some(OwnerMismatch)
    else if p.target != target then Some(TargetMismatch)
    else if p.contractId != self then Some(ContractIdMismatch)
    else None
  }

  /** Ed25519 is 0, Secp256r1 is 1, ML-DSA-44 is 2; an unknown tag reads as Ed25519. */
  function DecodeScheme(scheme: nat): nat {
    if scheme <= 2 then scheme else 0
  }

  /** Ed25519 is covered by the owner's authorization; the others ask a registered verifier. */
  function SignatureError(s: State, scheme: nat, verifierOk: bool): Option<DelegationError> {
    if scheme == 0 then None
    else if scheme > 2 then Some(UnknownScheme)
    else if scheme !in s.verifiers then Some(VerifierNotRegistered)
    else if !verifierOk then Some(VerificationFailed)
    else None
  }

  function AuthError(s: State, who: Address, auth: set<Address>): Option<DelegationError> {
    if s.paused then Some(ContractPaused) else if who !in auth then Some(Unauthorized) else None
  }

  /** The checks of a relayed entry point before it touches expiry, nonce and record. */
  function RelayError(s: State, p: Payload, domain: DomainTag, owner: Address, target: Address, verifierOk: bool,
                      auth: set<Address>): Option<DelegationError> {
    var a := AuthError(s, owner, auth);
    var v := VerifyPayload(s.self, p, domain, owner, target);
    if a.Some? then a
    else if v.Some? then v
    else SignatureError(s, DecodeScheme(p.scheme), verifierOk)
  }

  // ----- Grants and revocations -----

  function ExpiryError(s: State, expiresAt: nat): Option<DelegationError> {
    if expiresAt <= s.now then Some(ExpiryInPast)
    else if expiresAt > SaturatingAddU64(s.now, MAX_DELEGATION_DURATION) then Some(DelegationExpiryTooLong)
    else None
  }

  function Store(s: State, k: Key, expiresAt: nat): State {
    s.(records := s.records[k := Record(k.owner, k.delegate, k.kind, expiresAt, false, 0)],
       log := s.log + [Granted(k, expiresAt, s.now)])
  }

  /** Once a grace period is configured, it bounds how late a revocation may come. */
  predicate RevocationAllowed(d: Record, now: nat, grace: nat) {
    now < d.expiresAt || grace == 0 || now <= SaturatingAddU64(d.expiresAt, grace)
  }

  function MarkRevoked(s: State, k: Key): Outcome {
    if k !in s.records then Err(DelegationNotFound)
    else if s.records[k].revoked then Err(AlreadyRevoked)
    else if !RevocationAllowed(s.records[k], s.now, s.grace) then Err(RevocationGraceExpired)
    else Ok(s.(records := s.records[k := s.records[k].(revoked := true, revokedAt := s.now)],
               log := s.log + [Revoked(k, s.now)]))
  }

  /** Expiry first, then the nonce, then the record. */
  function Grant(s: State, k: Key, expiresAt: nat, nonce: nat): Outcome {
    var e := ExpiryError(s, expiresAt);
    var n := ConsumeNonce(s, k.owner, nonce);
    if e.Some? then Err(e.value) else if n.Err? then n else Ok(Store(n.value, k, expiresAt))
  }

  /** The nonce first, then the record. */
  function Revoke(s: State, k: Key, nonce: nat): Outcome {
    var n := ConsumeNonce(s, k.owner, nonce);
    if n.Err? then n else MarkRevoked(n.value, k)
  }

  function Delegate(s: State, k: Key, expiresAt: nat, nonce: nat, auth: set<Address>): Outcome {
    var a := AuthError(s, k.owner, auth);
    if a.Some? then Err(a.value) else Grant(s, k, expiresAt, nonce)
  }

  function RevokeDelegation(s: State, k: Key, nonce: nat, auth: set<Address>): Outcome {
    var a := AuthError(s, k.owner, auth);
    if a.Some? then Err(a.value) else Revoke(s, k, nonce)
  }

  function RevokeAttestation(s: State, attester: Address, subject: Address, nonce: nat, auth: set<Address>): Outcome {
    RevokeDelegation(s, Key(attester, subject, Attestation), nonce, auth)
  }

  function RelayDelegate(s: State, k: Key, expiresAt: nat, p: Payload, verifierOk: bool, auth: set<Address>): Outcome {
    var e := RelayError(s, p, DelegateTag, k.owner, k.delegate, verifierOk, auth);
    if e.Some? then Err(e.value) else Grant(s, k, expiresAt, p.nonce)
  }

  function RelayRevoke(s: State, k: Key, p: Payload, verifierOk: bool, auth: set<Address>): Outcome {
    var e := RelayError(s, p, RevokeDelegationTag, k.owner, k.delegate, verifierOk, auth);
    if e.Some? then Err(e.value) else Revoke(s, k, p.nonce)
  }

  function RelayRevokeAttest(s: State, attester: Address, subject: Address, p: Payload, verifierOk: bool,
                             auth: set<Address>): Outcome {
    var e := RelayError(s, p, RevokeAttestationTag, attester, subject, verifierOk, auth);
    if e.Some? then Err(e.value) else Revoke(s, Key(attester, subject, Attestation), p.nonce)
  }

  /** Anyone may remove a record once it has expired, revoked or not. */
  function CleanupExpired(s: State, k: Key): Outcome {
    if s.paused then Err(ContractPaused)
    else if k !in s.records then Err(DelegationNotFound)
    else if s.now < s.records[k].expiresAt then Err(DelegationNotExpired)
    else Ok(s.(records := s.records - {k}))
  }

  // ----- Administration -----

  function Initialize(s: State, admin: Address): Outcome {
    if s.admin.Some? then Err(AlreadyInitialized) else Ok(s.(admin := Some(admin), paused := false))
  }

  function AdminError(s: State, admin: Address, auth: set<Address>): Option<DelegationError> {
    if admin !in auth then Some(Unauthorized)
    else if s.admin.None? then Some(NotInitialized)
    else if s.admin.value != admin then Some(NotAdmin)
    else None
  }

  function SetRevocationGracePeriod(s: State, admin: Address, grace: nat, auth: set<Address>): Outcome {
    var e := AdminError(s, admin, auth);
    if s.paused then Err(ContractPaused) else if e.Some? then Err(e.value) else Ok(s.(grace := grace))
  }

  function RegisterVerifier(s: State, admin: Address, scheme: nat, verifier: Address, auth: set<Address>): Outcome {
    var e := AdminError(s, admin, auth);
    if e.Some? then Err(e.value)
    else if scheme > 2 then Err(UnknownScheme)
    else Ok(s.(verifiers := s.verifiers[scheme := verifier]))
  }

  // ----- Views -----

  predicate IsValidDelegate(s: State, k: Key) {
    k in s.records && !s.records[k].revoked && s.records[k].expiresAt > s.now
  }

  function DelegationStatus(d: Record, now: nat, grace: nat): Status {
    if d.revoked then StatusRevoked
    else if now < d.expiresAt then Active
    else if grace > 0 && now <= SaturatingAddU64(d.expiresAt, grace) then InGrace
    else Expired
  }

  function GetSummary(s: State, k: Key): Result<Summary, DelegationError> {
    if k !in s.records then Err(DelegationNotFound)
    else
      var d := s.records[k];
      Ok(Summary(!d.revoked && d.expiresAt > s.now, DelegationStatus(d, s.now, s.grace),
                 Max(d.expiresAt - s.now, 0), d.kind, d.revokedAt, 0))
  }

  /** None stands for NotFound. */
  function AttestationStatus(s: State, attester: Address, subject: Address): Option<Status> {
    var k := Key(attester, subject, Attestation);
    if k in s.records then Some(DelegationStatus(s.records[k], s.now, s.grace)) else None
  }
}
