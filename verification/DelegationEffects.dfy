/** Who may call what in the delegation contract, what each call does, and what that means for whole
    runs. */
module DelegationEffects {
  import opened Host
  import opened Delegation
  import opened DelegationTheorems

  const ONE_YEAR: nat := 31_536_000

  // ----- What a call needs -----

  /** The contract runs, `who` signed the call, and the nonce is the next of `who`. */
  predicate MayAct(s: State, who: Address, nonce: nat, auth: set<Address>) {
    && !s.paused && who in auth
    && nonce == (if who in s.nonces then s.nonces[who] else 0) && nonce < U64_MAX
  }

  /** The payload names just this action, and its signature scheme is the ledger's own (as every
      unknown one counts), or its registered verifier accepts. */
  predicate Covers(s: State, p: Payload, tag: DomainTag, owner: Address, target: Address, verifierOk: bool) {
    && p.domain == tag && p.owner == owner && p.target == target && p.contractId == s.self
    && (p.scheme == 0 || p.scheme > 2 || (p.scheme in s.verifiers && verifierOk))
  }

  /** In the future, and at most a year away. */
  predicate GoodExpiry(s: State, expiresAt: nat) {
    s.now < expiresAt <= s.now + ONE_YEAR && expiresAt <= U64_MAX
  }

  /** On record, not revoked, and not beyond the grace period, if there is one. */
  predicate Revocable(s: State, k: Key) {
    && k in s.records && !s.records[k].revoked
    && (s.now < s.records[k].expiresAt || s.grace == 0 || s.now <= s.records[k].expiresAt + s.grace)
  }

  // ----- What a call does -----

  /** The nonce of the owner is spent, the key has this record, and nothing else changed. */
  predicate Grants(s: State, t: State, k: Key, expiresAt: nat, nonce: nat) {
    t == s.(nonces := s.nonces[k.owner := nonce + 1],
            records := s.records[k := Record(k.owner, k.delegate, k.kind, expiresAt, false, 0)],
            log := s.log + [Accepted(k.owner, nonce), Granted(k, expiresAt, s.now)])
  }

  /** The nonce of the owner is spent, the record is marked with this moment, nothing else changed. */
  predicate Revokes(s: State, t: State, k: Key, nonce: nat) {
    && k in s.records
    && t == s.(nonces := s.nonces[k.owner := nonce + 1],
               records := s.records[k := s.records[k].(revoked := true, revokedAt := s.now)],
               log := s.log + [Accepted(k.owner, nonce), Event.Revoked(k, s.now)])
  }

  /** A grant by the owner itself, and one relayed with a payload: when it succeeds, and its effect. */
  lemma DelegateTakesEffect(s: State, k: Key, e: nat, n: nat, p: Payload, ok: bool, auth: set<Address>)
    requires s.now <= U64_MAX
    ensures Delegate(s, k, e, n, auth).Ok? <==> MayAct(s, k.owner, n, auth) && GoodExpiry(s, e)
    ensures Delegate(s, k, e, n, auth).Ok? ==> Grants(s, Delegate(s, k, e, n, auth).value, k, e, n)
    ensures RelayDelegate(s, k, e, p, ok, auth).Ok? <==>
      MayAct(s, k.owner, p.nonce, auth) && GoodExpiry(s, e) && Covers(s, p, DelegateTag, k.owner, k.delegate, ok)
    ensures RelayDelegate(s, k, e, p, ok, auth).Ok? ==>
      Grants(s, RelayDelegate(s, k, e, p, ok, auth).value, k, e, p.nonce)
  {
    assert forall x, y :: (s.log + [x]) + [y] == s.log + [x, y];
  }

  /** The same of a revocation, of either kind of record. */
  lemma RevokeTakesEffect(s: State, k: Key, n: nat, p: Payload, ok: bool, auth: set<Address>)
    requires s.now <= U64_MAX
    ensures RevokeDelegation(s, k, n, auth).Ok? <==> MayAct(s, k.owner, n, auth) && Revocable(s, k)
    ensures RevokeDelegation(s, k, n, auth).Ok? ==> Revokes(s, RevokeDelegation(s, k, n, auth).value, k, n)
    ensures RelayRevoke(s, k, p, ok, auth).Ok? <==>
      MayAct(s, k.owner, p.nonce, auth) && Revocable(s, k) && Covers(s, p, RevokeDelegationTag, k.owner, k.delegate, ok)
    ensures RelayRevoke(s, k, p, ok, auth).Ok? ==> Revokes(s, RelayRevoke(s, k, p, ok, auth).value, k, p.nonce)
  {
    assert forall x, y :: (s.log + [x]) + [y] == s.log + [x, y];
  }

  /** And of the revocation of an attestation, whose attester is the owner of its record. */
  lemma RevokeAttestationTakesEffect(s: State, a: Address, b: Address, n: nat, p: Payload, ok: bool, auth: set<Address>)
    requires s.now <= U64_MAX
    ensures var k := Key(a, b, Attestation);
      RevokeAttestation(s, a, b, n, auth).Ok? <==> MayAct(s, a, n, auth) && Revocable(s, k)
    ensures RevokeAttestation(s, a, b, n, auth).Ok? ==>
      Revokes(s, RevokeAttestation(s, a, b, n, auth).value, Key(a, b, Attestation), n)
    ensures var k := Key(a, b, Attestation);
      RelayRevokeAttest(s, a, b, p, ok, auth).Ok? <==>
        MayAct(s, a, p.nonce, auth) && Revocable(s, k) && Covers(s, p, RevokeAttestationTag, a, b, ok)
    ensures RelayRevokeAttest(s, a, b, p, ok, auth).Ok? ==>
      Revokes(s, RelayRevokeAttest(s, a, b, p, ok, auth).value, Key(a, b, Attestation), p.nonce)
  {
    assert forall x, y :: (s.log + [x]) + [y] == s.log + [x, y];
  }

  /** An owner skips nonces, up to ten thousand at a time, by a call it signed. */
  lemma InvalidateTakesEffect(s: State, who: Address, n: nat, auth: set<Address>)
    ensures var current := if who in s.nonces then s.nonces[who] else 0;
      InvalidateNonceRange(s, who, n, auth).Ok? <==> !s.paused && who in auth && current < n <= current + 10_000
    ensures InvalidateNonceRange(s, who, n, auth).Ok? ==>
      InvalidateNonceRange(s, who, n, auth).value
        == s.(nonces := s.nonces[who := n], log := s.log + [Invalidated(who, Nonce(s, who), n)])
  {
  }

  /** Anyone may take an expired record off, and only that one goes. */
  lemma CleanupTakesEffect(s: State, k: Key)
    ensures CleanupExpired(s, k).Ok? <==> !s.paused && k in s.records && s.records[k].expiresAt <= s.now
    ensures CleanupExpired(s, k).Ok? ==> CleanupExpired(s, k).value == s.(records := s.records - {k})
  {
  }

  /** The admin is whoever initialized first; only it sets the grace period, while the contract
      runs, and the verifiers of the three schemes. */
  lemma AdminCallsTakeEffect(s: State, caller: Address, n: nat, v: Address, auth: set<Address>)
    ensures Initialize(s, caller).Ok? <==> s.admin == None
    ensures Initialize(s, caller).Ok? ==> Initialize(s, caller).value == s.(admin := Some(caller), paused := false)
    ensures SetRevocationGracePeriod(s, caller, n, auth).Ok? <==> !s.paused && caller in auth && s.admin == Some(caller)
    ensures SetRevocationGracePeriod(s, caller, n, auth).Ok? ==>
      SetRevocationGracePeriod(s, caller, n, auth).value == s.(grace := n)
    ensures RegisterVerifier(s, caller, n, v, auth).Ok? <==> caller in auth && s.admin == Some(caller) && n <= 2
    ensures RegisterVerifier(s, caller, n, v, auth).Ok? ==>
      RegisterVerifier(s, caller, n, v, auth).value == s.(verifiers := s.verifiers[n := v])
  {
  }

  /** The summary of a record: valid before its expiry unless revoked; then in grace for the configured
      time, if any; then expired; a revoked one is revoked at any time, and says since when. */
  lemma SummaryTells(s: State, k: Key)
    requires s.now <= U64_MAX
    ensures GetSummary(s, k).Ok? <==> k in s.records
    ensures k in s.records ==>
      var r, d := GetSummary(s, k).value, s.records[k];
      && (r.isValid <==> !d.revoked && s.now < d.expiresAt) && r.kind == d.kind && r.revokedAt == d.revokedAt
      && r.timeToExpiry == (if s.now < d.expiresAt then d.expiresAt - s.now else 0)
      && r.status == if d.revoked then StatusRevoked
                     else if s.now < d.expiresAt then Active
                     else if s.grace > 0 && s.now <= d.expiresAt + s.grace then InGrace
                     else Expired
  {
  }

  // ----- Who signed -----

  /** Whose signature a call needs. */
  function SignerOf(c: Call): Option<Address> {
    match c
    case CallDelegate(k, _, _, _) => Some(k.owner)
    case CallRevoke(k, _, _) => Some(k.owner)
    case CallRevokeAttestation(a, _, _, _) => Some(a)
    case CallRelayDelegate(k, _, _, _, _) => Some(k.owner)
    case CallRelayRevoke(k, _, _, _) => Some(k.owner)
    case CallRelayRevokeAttest(a, _, _, _, _) => Some(a)
    case CallInvalidate(who, _, _) => Some(who)
    case CallSetGrace(a, _, _) => Some(a)
    case CallRegisterVerifier(a, _, _, _) => Some(a)
    case CallTick(_) => None
    case CallSetPaused(_) => None
    case CallInitialize(_) => None
    case CallCleanup(_) => None
  }

  /** Who signed it. */
  function Signatures(c: Call): set<Address> {
    match c
    case CallDelegate(_, _, _, auth) => auth
    case CallRevoke(_, _, auth) => auth
    case CallRevokeAttestation(_, _, _, auth) => auth
    case CallRelayDelegate(_, _, _, _, auth) => auth
    case CallRelayRevoke(_, _, _, auth) => auth
    case CallRelayRevokeAttest(_, _, _, _, auth) => auth
    case CallInvalidate(_, _, auth) => auth
    case CallSetGrace(_, _, auth) => auth
    case CallRegisterVerifier(_, _, _, auth) => auth
    case CallTick(_) => {}
    case CallSetPaused(_) => {}
    case CallInitialize(_) => {}
    case CallCleanup(_) => {}
  }

  /** Without that signature the call is refused, and for that reason unless the contract is paused. */
  lemma CallsNeedSignatures(s: State, c: Call)
    requires SignerOf(c).Some? && SignerOf(c).value !in Signatures(c)
    ensures Step(s, c) == Err(if s.paused && !c.CallRegisterVerifier? then ContractPaused else Unauthorized)
  {
  }

  /** The call makes this event happen, and whoever it concerns signed the call. */
  predicate Causes(s: State, c: Call, e: Event) {
    match e
    case Accepted(who, n) => Claimed(c) == Some((who, n)) && who in Signatures(c)
    case Invalidated(who, from, to) =>
      c.CallInvalidate? && c.who == who && c.newNonce == to && from == Nonce(s, who) && who in c.auth
    case Granted(k, expiresAt, at) =>
      (c.CallDelegate? || c.CallRelayDelegate?) && c.k == k && c.expiresAt == expiresAt && at == s.now
      && k.owner in Signatures(c)
    case Revoked(k, at) =>
      && at == s.now && k.owner in Signatures(c)
      && (((c.CallRevoke? || c.CallRelayRevoke?) && c.k == k)
          || ((c.CallRevokeAttestation? || c.CallRelayRevokeAttest?) && Key(c.attester, c.subject, Attestation) == k))
  }

  /** The log of `t` is that of `s`, or goes on with events the call caused. */
  predicate Logs(s: State, t: State, c: Call) {
    && |t.log| >= |s.log| && t.log[..|s.log|] == s.log
    && forall j :: |s.log| <= j < |t.log| ==> Causes(s, c, t.log[j])
  }

  lemma GrantLogs(s: State, c: Call)
    requires s.now <= U64_MAX && (c.CallDelegate? || c.CallRelayDelegate?) && Step(s, c).Ok?
    ensures Logs(s, Step(s, c).value, c)
  {
    if c.CallDelegate? {
      DelegateTakesEffect(s, c.k, c.expiresAt, c.nonce, Payload(DelegateTag, s.self, s.self, s.self, 0, 0), false,
                          c.auth);
    } else {
      DelegateTakesEffect(s, c.k, c.expiresAt, 0, c.payload, c.verifierOk, c.auth);
    }
  }

  lemma RevocationLogs(s: State, c: Call)
    requires s.now <= U64_MAX && (c.CallRevoke? || c.CallRelayRevoke?) && Step(s, c).Ok?
    ensures Logs(s, Step(s, c).value, c)
  {
    if c.CallRevoke? {
      RevokeTakesEffect(s, c.k, c.nonce, Payload(DelegateTag, s.self, s.self, s.self, 0, 0), false, c.auth);
    } else {
      RevokeTakesEffect(s, c.k, 0, c.payload, c.verifierOk, c.auth);
    }
  }

  lemma AttestRevocationLogs(s: State, c: Call)
    requires s.now <= U64_MAX && (c.CallRevokeAttestation? || c.CallRelayRevokeAttest?) && Step(s, c).Ok?
    ensures Logs(s, Step(s, c).value, c)
  {
    if c.CallRevokeAttestation? {
      RevokeAttestationTakesEffect(s, c.attester, c.subject, c.nonce,
                                   Payload(DelegateTag, s.self, s.self, s.self, 0, 0), false, c.auth);
    } else {
      RevokeAttestationTakesEffect(s, c.attester, c.subject, 0, c.payload, c.verifierOk, c.auth);
    }
  }

  lemma OtherLogs(s: State, c: Call)
    requires Claimed(c).None? && Step(s, c).Ok?
    ensures Logs(s, Step(s, c).value, c)
  {
  }

  lemma ClockStays(s: State, c: Call)
    requires s.now <= U64_MAX && Step(s, c).Ok?
    ensures Step(s, c).value.now <= U64_MAX
  {
  }

  lemma StepLogs(s: State, c: Call)
    requires s.now <= U64_MAX && Step(s, c).Ok?
    ensures Logs(s, Step(s, c).value, c) && Step(s, c).value.now <= U64_MAX
  {
    ClockStays(s, c);
    if c.CallDelegate? || c.CallRelayDelegate? {
      GrantLogs(s, c);
    } else if c.CallRevoke? || c.CallRelayRevoke? {
      RevocationLogs(s, c);
    } else if c.CallRevokeAttestation? || c.CallRelayRevokeAttest? {
      AttestRevocationLogs(s, c);
    } else {
      OtherLogs(s, c);
    }
  }

  /** Call `i` of the run succeeded and caused the event. */
  ghost predicate CausedBy(self: Address, calls: seq<Call>, i: nat, e: Event) {
    && i < |calls|
    && var s := Run(Initial(self), calls[..i]);
    Step(s, calls[i]).Ok? && Causes(s, calls[i], e)
  }

  /** On every run each nonce spent, each range of nonces skipped, each grant and each revocation
      goes back to a successful call of the run that the owner concerned signed. */
  lemma {:induction false} EventsGoBackToSigners(self: Address, calls: seq<Call>, j: nat)
    ensures Run(Initial(self), calls).now <= U64_MAX
    ensures var log := Run(Initial(self), calls).log;
      j < |log| ==> exists i: nat :: CausedBy(self, calls, i, log[j])
  {
    if calls != [] {
      var k := |calls| - 1;
      var front, c := calls[..k], calls[k];
      var s, t := Run(Initial(self), front), Run(Initial(self), calls);
      EventsGoBackToSigners(self, front, j);
      if Step(s, c).Ok? { StepLogs(s, c); }
      if j < |s.log| {
        var i: nat :| CausedBy(self, front, i, s.log[j]);
        assert front[..i] == calls[..i] && CausedBy(self, calls, i, s.log[j]);
        assert t.log[j] == s.log[j];
      } else if j < |t.log| {
        assert CausedBy(self, calls, k, t.log[j]);
      }
    }
  }

  /** Call `i` succeeded in granting the key beyond `now`, and its owner signed the call. */
  ghost predicate GrantedBeyond(self: Address, calls: seq<Call>, i: nat, k: Key, now: nat) {
    && i < |calls| && (calls[i].CallDelegate? || calls[i].CallRelayDelegate?)
    && calls[i].k == k && calls[i].expiresAt > now && k.owner in Signatures(calls[i])
    && Step(Run(Initial(self), calls[..i]), calls[i]).Ok?
  }

  lemma {:induction false} RunKeepsSelf(self: Address, calls: seq<Call>)
    ensures Reachable(Run(Initial(self), calls))
    ensures Run(Initial(self), calls).self == self
  {
    if calls != [] {
      RunKeepsSelf(self, calls[..|calls| - 1]);
      StepKeepsSelf(Run(Initial(self), calls[..|calls| - 1]), calls[|calls| - 1]);
    }
  }

  /** So nobody has authority but by a grant that the owner signed and that lasts beyond this moment. */
  lemma AuthorityWasSigned(self: Address, calls: seq<Call>, k: Key)
    ensures var t := Run(Initial(self), calls);
      IsValidDelegate(t, k) ==> exists i: nat :: GrantedBeyond(self, calls, i, k, t.now)
  {
    var t := Run(Initial(self), calls);
    if IsValidDelegate(t, k) {
      RunKeepsSelf(self, calls);
      AuthorityIsHistory(t, k);
      var j: nat :| StandingGrant(t, k, j);
      EventsGoBackToSigners(self, calls, j);
      var i: nat :| CausedBy(self, calls, i, t.log[j]);
      assert GrantedBeyond(self, calls, i, k, t.now);
    }
  }
}
