/** The delegation entry points as the contract runs them. */
module DelegationContract {
  import opened Host
  import opened Delegation
  import T = DelegationTheorems

  class DelegationStore {
    const self: Address
    var admin: Option<Address>
    var paused: bool
    var now: nat
    var records: map<Key, Record>
    var nonces: map<Address, nat>
    var grace: nat
    var verifiers: map<nat, Address>
    ghost var log: seq<Event>

    ghost function Model(): State
      reads this
    {
      State(self, admin, paused, now, records, nonces, grace, verifiers, log)
    }

    ghost predicate Valid()
      reads this
    {
      T.Reachable(Model())
    }

    constructor (address: Address)
      ensures self == address && Valid() && Model() == Delegation.Initial(address)
    {
      self := address;
      admin, paused, now, records, nonces, grace, verifiers, log := None, false, 0, map[], map[], 0, map[], [];
      new;
      assert T.Run(Delegation.Initial(self), []) == Model();
    }

    /** Ledger time and the pause flag are set outside this module. */
    method SetEnvironment(t: nat, p: bool)
      requires Valid() && now <= t <= U64_MAX
      modifies this
      ensures Valid() && Model() == old(Model()).(now := t, paused := p)
    {
      T.ReachableStep(Model(), T.CallTick(t));
      now := t;
      T.ReachableStep(Model(), T.CallSetPaused(p));
      paused := p;
    }

    method Initialize(caller: Address) returns (e: Option<DelegationError>)
      requires Valid()
      modifies this
      ensures Valid()
      ensures var o := Delegation.Initialize(old(Model()), caller);
        Model() == StateAfter(old(Model()), o) && e == ErrorOf(o)
    {
      T.ReachableStep(Model(), T.CallInitialize(caller));
      if admin.Some? {
        e := Some(AlreadyInitialized);
      } else {
        admin, paused := Some(caller), false;
        e := None;
      }
    }

    method GetNonce(who: Address) returns (n: nat)
      ensures n == Nonce(Model(), who)
    {
      n := if who in nonces then nonces[who] else 0;
    }

    /** The checks of consume_nonce. On a valid store they pass exactly for the first nonce that
        was neither accepted nor invalidated so far. */
    method NonceError(who: Address, expected: nat) returns (e: Option<DelegationError>)
      ensures e == ErrorOf(ConsumeNonce(Model(), who, expected))
      ensures Valid() ==> (e.None? <==> expected < U64_MAX && T.FirstUnspent(log, who, expected))
    {
      if Valid() {
        T.StoredIsFirstUnspent(Model(), who, expected);
      }
      var current := GetNonce(who);
      e := if current != expected then Some(InvalidNonce) else if current >= U64_MAX then Some(Overflow) else None;
    }

    /** What delegate and execute_delegated_delegate share once authorized. */
    method GrantAuthorized(k: Key, expiresAt: nat, nonce: nat) returns (e: Option<DelegationError>)
      modifies this
      ensures var o := Grant(old(Model()), k, expiresAt, nonce);
        Model() == StateAfter(old(Model()), o) && e == ErrorOf(o)
    {
      var n := NonceError(k.owner, nonce);
      if expiresAt <= now {
        e := Some(ExpiryInPast);
      } else if expiresAt > SaturatingAddU64(now, MAX_DELEGATION_DURATION) {
        e := Some(DelegationExpiryTooLong);
      } else if n.Some? {
        e := n;
      } else {
        nonces := nonces[k.owner := nonce + 1];
        log := log + [Accepted(k.owner, nonce)];
        records := records[k := Record(k.owner, k.delegate, k.kind, expiresAt, false, 0)];
        log := log + [Granted(k, expiresAt, now)];
        e := None;
      }
    }

    /** What the four revoking entry points share once authorized. */
    method RevokeAuthorized(k: Key, nonce: nat) returns (e: Option<DelegationError>)
      modifies this
      ensures var o := Revoke(old(Model()), k, nonce);
        Model() == StateAfter(old(Model()), o) && e == ErrorOf(o)
    {
      var n := NonceError(k.owner, nonce);
      if n.Some? {
        e := n;
      } else if k !in records {
        e := Some(DelegationNotFound);
      } else if records[k].revoked {
        e := Some(AlreadyRevoked);
      } else if now >= records[k].expiresAt && grace != 0 && now > SaturatingAddU64(records[k].expiresAt, grace) {
        e := Some(RevocationGraceExpired);
      } else {
        nonces := nonces[k.owner := nonce + 1];
        log := log + [Accepted(k.owner, nonce)];
        records := records[k := records[k].(revoked := true, revokedAt := now)];
        log := log + [Revoked(k, now)];
        e := None;
      }
    }

    /** Pause flag, authorization, payload fields, then the signature's scheme. */
    method CheckRelay(p: Payload, domain: DomainTag, owner: Address, target: Address, verifierOk: bool,
                      auth: set<Address>)
      returns (e: Option<DelegationError>)
      ensures e == RelayError(Model(), p, domain, owner, target, verifierOk, auth)
    {
      var scheme := DecodeScheme(p.scheme);
      if paused {
        e := Some(ContractPaused);
      } else if owner !in auth {
        e := Some(Unauthorized);
      } else if p.domain != domain {
        e := Some(DomainMismatch);
      } else if p.owner != owner {
        e := Some(OwnerMismatch);
      } else if p.target != target {
        e := Some(TargetMismatch);
      } else if p.contractId != self {
        e := Some(ContractIdMismatch);
      } else if scheme == 0 {
        e := None;
      } else if scheme !in verifiers {
        e := Some(VerifierNotRegistered);
      } else {
        e := if verifierOk then None else Some(VerificationFailed);
      }
    }

    method Delegate(k: Key, expiresAt: nat, nonce: nat, auth: set<Address>) returns (e: Option<DelegationError>)
      requires Valid()
      modifies this
      ensures Valid()
      ensures var o := Delegation.Delegate(old(Model()), k, expiresAt, nonce, auth);
        Model() == StateAfter(old(Model()), o) && e == ErrorOf(o)
    {
      T.ReachableStep(Model(), T.CallDelegate(k, expiresAt, nonce, auth));
      if paused {
        e := Some(ContractPaused);
      } else if k.owner !in auth {
        e := Some(Unauthorized);
      } else {
        e := GrantAuthorized(k, expiresAt, nonce);
      }
    }

    method RevokeDelegation(k: Key, nonce: nat, auth: set<Address>) returns (e: Option<DelegationError>)
      requires Valid()
      modifies this
      ensures Valid()
      ensures var o := Delegation.RevokeDelegation(old(Model()), k, nonce, auth);
        Model() == StateAfter(old(Model()), o) && e == ErrorOf(o)
    {
      T.ReachableStep(Model(), T.CallRevoke(k, nonce, auth));
      if paused {
        e := Some(ContractPaused);
      } else if k.owner !in auth {
        e := Some(Unauthorized);
      } else {
        e := RevokeAuthorized(k, nonce);
      }
    }

    method RevokeAttestation(attester: Address, subject: Address, nonce: nat, auth: set<Address>)
        returns (e: Option<DelegationError>)
      requires Valid()
      modifies this
      ensures Valid()
      ensures var o := Delegation.RevokeAttestation(old(Model()), attester, subject, nonce, auth);
        Model() == StateAfter(old(Model()), o) && e == ErrorOf(o)
    {
      e := RevokeDelegation(Key(attester, subject, Attestation), nonce, auth);
    }

    method ExecuteDelegatedDelegate(k: Key, expiresAt: nat, p: Payload, verifierOk: bool, auth: set<Address>)
      returns (e: Option<DelegationError>)
      requires Valid()
      modifies this
      ensures Valid()
      ensures var o := RelayDelegate(old(Model()), k, expiresAt, p, verifierOk, auth);
        Model() == StateAfter(old(Model()), o) && e == ErrorOf(o)
    {
      T.ReachableStep(Model(), T.CallRelayDelegate(k, expiresAt, p, verifierOk, auth));
      e := CheckRelay(p, DelegateTag, k.owner, k.delegate, verifierOk, auth);
      if e.None? {
        e := GrantAuthorized(k, expiresAt, p.nonce);
      }
    }

    method ExecuteDelegatedRevoke(k: Key, p: Payload, verifierOk: bool, auth: set<Address>)
        returns (e: Option<DelegationError>)
      requires Valid()
      modifies this
      ensures Valid()
      ensures var o := RelayRevoke(old(Model()), k, p, verifierOk, auth);
        Model() == StateAfter(old(Model()), o) && e == ErrorOf(o)
    {
      T.ReachableStep(Model(), T.CallRelayRevoke(k, p, verifierOk, auth));
      e := CheckRelay(p, RevokeDelegationTag, k.owner, k.delegate, verifierOk, auth);
      if e.None? {
        e := RevokeAuthorized(k, p.nonce);
      }
    }

    method ExecuteDelegatedRevokeAttest(attester: Address, subject: Address, p: Payload, verifierOk: bool,
                                        auth: set<Address>)
      returns (e: Option<DelegationError>)
      requires Valid()
      modifies this
      ensures Valid()
      ensures var o := RelayRevokeAttest(old(Model()), attester, subject, p, verifierOk, auth);
        Model() == StateAfter(old(Model()), o) && e == ErrorOf(o)
    {
      T.ReachableStep(Model(), T.CallRelayRevokeAttest(attester, subject, p, verifierOk, auth));
      e := CheckRelay(p, RevokeAttestationTag, attester, subject, verifierOk, auth);
      if e.None? {
        e := RevokeAuthorized(Key(attester, subject, Attestation), p.nonce);
      }
    }

    method InvalidateNonceRange(who: Address, newNonce: nat, auth: set<Address>) returns (e: Option<DelegationError>)
      requires Valid()
      modifies this
      ensures Valid()
      ensures var o := Delegation.InvalidateNonceRange(old(Model()), who, newNonce, auth);
        Model() == StateAfter(old(Model()), o) && e == ErrorOf(o)
    {
      T.ReachableStep(Model(), T.CallInvalidate(who, newNonce, auth));
      var current := GetNonce(who);
      if paused {
        e := Some(ContractPaused);
      } else if who !in auth {
        e := Some(Unauthorized);
      } else if newNonce <= current || newNonce - current > MAX_NONCE_INVALIDATION_SPAN {
        e := Some(InvalidNonce);
      } else {
        nonces := nonces[who := newNonce];
        log := log + [Invalidated(who, current, newNonce)];
        e := None;
      }
    }

    method CleanupExpired(k: Key) returns (e: Option<DelegationError>)
      requires Valid()
      modifies this
      ensures Valid()
      ensures var o := Delegation.CleanupExpired(old(Model()), k);
        Model() == StateAfter(old(Model()), o) && e == ErrorOf(o)
    {
      T.ReachableStep(Model(), T.CallCleanup(k));
      if paused {
        e := Some(ContractPaused);
      } else if k !in records {
        e := Some(DelegationNotFound);
      } else if now < records[k].expiresAt {
        e := Some(DelegationNotExpired);
      } else {
        records := records - {k};
        e := None;
      }
    }

    method SetRevocationGracePeriod(caller: Address, seconds: nat, auth: set<Address>)
        returns (e: Option<DelegationError>)
      requires Valid()
      modifies this
      ensures Valid()
      ensures var o := Delegation.SetRevocationGracePeriod(old(Model()), caller, seconds, auth);
        Model() == StateAfter(old(Model()), o) && e == ErrorOf(o)
    {
      T.ReachableStep(Model(), T.CallSetGrace(caller, seconds, auth));
      if paused {
        e := Some(ContractPaused);
      } else if caller !in auth {
        e := Some(Unauthorized);
      } else if admin.None? {
        e := Some(NotInitialized);
      } else if admin.value != caller {
        e := Some(NotAdmin);
      } else {
        grace := seconds;
        e := None;
      }
    }

    method RegisterVerifier(caller: Address, scheme: nat, verifier: Address, auth: set<Address>)
        returns (e: Option<DelegationError>)
      requires Valid()
      modifies this
      ensures Valid()
      ensures var o := Delegation.RegisterVerifier(old(Model()), caller, scheme, verifier, auth);
        Model() == StateAfter(old(Model()), o) && e == ErrorOf(o)
    {
      T.ReachableStep(Model(), T.CallRegisterVerifier(caller, scheme, verifier, auth));
      if caller !in auth {
        e := Some(Unauthorized);
      } else if admin.None? {
        e := Some(NotInitialized);
      } else if admin.value != caller {
        e := Some(NotAdmin);
      } else if scheme > 2 {
        e := Some(UnknownScheme);
      } else {
        verifiers := verifiers[scheme := verifier];
        e := None;
      }
    }

    /** is_valid_delegate, with what the whole history says about it. */
    method IsValidDelegate(k: Key) returns (ok: bool)
      requires Valid()
      ensures ok == Delegation.IsValidDelegate(Model(), k)
      ensures ok <==> exists i: nat :: T.StandingGrant(Model(), k, i)
    {
      T.AuthorityIsHistory(Model(), k);
      ok := k in records && !records[k].revoked && records[k].expiresAt > now;
    }
  }
}
