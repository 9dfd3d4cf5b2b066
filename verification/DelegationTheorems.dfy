/** What every run of the delegation contract keeps: nonces are single-use, and authority is
    exactly what the history of grants and revocations says. */
module DelegationTheorems {
  import opened Host
  import opened Delegation

  // ----- Runs -----

  datatype Call =
    | CallTick(now: nat)
    | CallSetPaused(paused: bool)
    | CallInitialize(admin: Address)
    | CallDelegate(k: Key, expiresAt: nat, nonce: nat, auth: set<Address>)
    | CallRevoke(k: Key, nonce: nat, auth: set<Address>)
    | CallRevokeAttestation(attester: Address, subject: Address, nonce: nat, auth: set<Address>)
    | CallRelayDelegate(k: Key, expiresAt: nat, payload: Payload, verifierOk: bool, auth: set<Address>)
    | CallRelayRevoke(k: Key, payload: Payload, verifierOk: bool, auth: set<Address>)
    | CallRelayRevokeAttest(attester: Address, subject: Address, payload: Payload, verifierOk: bool, auth: set<Address>)
    | CallInvalidate(who: Address, newNonce: nat, auth: set<Address>)
    | CallCleanup(k: Key)
    | CallSetGrace(admin: Address, grace: nat, auth: set<Address>)
    | CallRegisterVerifier(admin: Address, scheme: nat, verifier: Address, auth: set<Address>)

  /** Time only moves forward; whether the contract is paused is decided elsewhere. */
  function Step(s: State, c: Call): Outcome {
    match c
    case CallTick(now) => Ok(if s.now <= now <= U64_MAX then s.(now := now) else s)
    case CallSetPaused(paused) => Ok(s.(paused := paused))
    case CallInitialize(admin) => Initialize(s, admin)
    case CallDelegate(k, e, n, auth) => Delegate(s, k, e, n, auth)
    case CallRevoke(k, n, auth) => RevokeDelegation(s, k, n, auth)
    case CallRevokeAttestation(a, b, n, auth) => RevokeAttestation(s, a, b, n, auth)
    case CallRelayDelegate(k, e, p, v, auth) => RelayDelegate(s, k, e, p, v, auth)
    case CallRelayRevoke(k, p, v, auth) => RelayRevoke(s, k, p, v, auth)
    case CallRelayRevokeAttest(a, b, p, v, auth) => RelayRevokeAttest(s, a, b, p, v, auth)
    case CallInvalidate(who, n, auth) => InvalidateNonceRange(s, who, n, auth)
    case CallCleanup(k) => CleanupExpired(s, k)
    case CallSetGrace(a, g, auth) => SetRevocationGracePeriod(s, a, g, auth)
    case CallRegisterVerifier(a, scheme, v, auth) => RegisterVerifier(s, a, scheme, v, auth)
  }

  function Run(s: State, calls: seq<Call>): State {
    if calls == [] then s
    else
      var before := Run(s, calls[..|calls| - 1]);
      StateAfter(before, Step(before, calls[|calls| - 1]))
  }

  ghost predicate Reachable(s: State) {
    exists calls :: Run(Initial(s.self), calls) == s
  }

  lemma RunNext(s: State, calls: seq<Call>, c: Call)
    ensures Run(s, calls + [c]) == StateAfter(Run(s, calls), Step(Run(s, calls), c))
  {
    assert (calls + [c])[..|calls|] == calls;
  }

  lemma StepKeepsSelf(s: State, c: Call)
    ensures StateAfter(s, Step(s, c)).self == s.self
  {
  }

  lemma ReachableStep(s: State, c: Call)
    requires Reachable(s)
    ensures Reachable(StateAfter(s, Step(s, c)))
  {
    var calls :| Run(Initial(s.self), calls) == s;
    RunNext(Initial(s.self), calls, c);
    StepKeepsSelf(s, c);
  }

  // ----- The nonce stream -----

  /** Does this event spend nonce `n` of `who`? */
  predicate Spends(e: Event, who: Address, n: nat) {
    match e
    case Accepted(w, m) => w == who && m == n
    case Invalidated(w, from, to) => w == who && from <= n < to
    case Granted(_, _, _) => false
    case Revoked(_, _) => false
  }

  function TimesSpent(log: seq<Event>, who: Address, n: nat): nat {
    if log == [] then 0
    else TimesSpent(log[..|log| - 1], who, n) + (if Spends(log[|log| - 1], who, n) then 1 else 0)
  }

  /** Each nonce below the stored one has been spent once; the rest never. */
  ghost predicate NonceExact(s: State, who: Address, n: nat) {
    TimesSpent(s.log, who, n) == if n < Nonce(s, who) then 1 else 0
  }

  /** Nonces are spent in increasing order. */
  ghost predicate SpentInOrder(log: seq<Event>) {
    forall i, j, who, n: nat, m: nat :: 0 <= i < j < |log| && Spends(log[i], who, n) && Spends(log[j], who, m) ==> n < m
  }

  /** All spent nonces lie below the stored one, which fits its type. */
  ghost predicate SpentBelow(s: State) {
    && (forall i, who, n: nat :: 0 <= i < |s.log| && Spends(s.log[i], who, n) ==> n < Nonce(s, who))
  }

  // ----- Authority -----

  predicate Concerns(e: Event, k: Key) {
    (e.Granted? || e.Revoked?) && e.key == k
  }

  function LastEvent(log: seq<Event>, k: Key): Option<Event> {
    if log == [] then None
    else if Concerns(log[|log| - 1], k) then Some(log[|log| - 1])
    else LastEvent(log[..|log| - 1], k)
  }

  predicate GrantInBounds(e: Event, now: nat) {
    e.Granted? ==> e.at <= now && e.at < e.expiresAt <= e.at + MAX_DELEGATION_DURATION
  }

  /** A record carries the last event of its key. A key without record has lost its authority. */
  ghost predicate KeyInv(s: State, k: Key) {
    var last := LastEvent(s.log, k);
    && (last.Some? ==> Concerns(last.value, k) && GrantInBounds(last.value, s.now))
    && (if k in s.records then
          var d := s.records[k];
          && d.owner == k.owner && d.delegate == k.delegate && d.kind == k.kind
          && last.Some?
          && (if d.revoked then last.value == Revoked(k, d.revokedAt)
              else last.value.Granted? && last.value.expiresAt == d.expiresAt && d.revokedAt == 0)
        else last.Some? && last.value.Granted? ==> last.value.expiresAt <= s.now)
  }

  /** Logged grants carry the time of the call that made them. */
  ghost predicate GrantTimes(s: State) {
    forall i :: 0 <= i < |s.log| && s.log[i].Granted? ==> s.log[i].at <= s.now
  }

  ghost predicate Inv(s: State) {
    && (forall who, n: nat :: NonceExact(s, who, n))
    && SpentInOrder(s.log)
    && SpentBelow(s)
    && GrantTimes(s)
    && (forall k :: KeyInv(s, k))
  }

  // ----- The primitive changes keep the invariant -----

  lemma LogPush(log: seq<Event>, e: Event)
    ensures (log + [e])[..|log + [e]| - 1] == log
  {
  }

  /** Spending a range that starts at the stored nonce. */
  lemma SpendKeepsInv(s: State, who: Address, to: nat, e: Event)
    requires Inv(s) && Nonce(s, who) < to
    requires (e == Accepted(who, Nonce(s, who)) && to == Nonce(s, who) + 1) || e == Invalidated(who, Nonce(s, who), to)
    ensures Inv(s.(nonces := s.nonces[who := to], log := s.log + [e]))
  {
    var t := s.(nonces := s.nonces[who := to], log := s.log + [e]);
    LogPush(s.log, e);
    forall w, n: nat ensures NonceExact(t, w, n) {
      assert NonceExact(s, w, n);
    }
    forall i, j, w, n: nat, m: nat | 0 <= i < j < |t.log| && Spends(t.log[i], w, n) && Spends(t.log[j], w, m)
        ensures n < m {
      assert Spends(s.log[i], w, n);
    }
    forall i, w, n: nat | 0 <= i < |t.log| && Spends(t.log[i], w, n) ensures n < Nonce(t, w) {
      if i < |s.log| { assert Spends(s.log[i], w, n); }
    }
    forall k ensures KeyInv(t, k) {
      assert KeyInv(s, k);
    }
  }

  /** A grant or revocation that writes the record its event describes. */
  lemma RecordKeepsInv(s: State, k: Key, d: Record, e: Event)
    requires Inv(s) && Concerns(e, k) && GrantInBounds(e, s.now)
    requires d.owner == k.owner && d.delegate == k.delegate && d.kind == k.kind
    requires if d.revoked then e == Revoked(k, d.revokedAt)
             else e.Granted? && e.expiresAt == d.expiresAt && d.revokedAt == 0
    ensures Inv(s.(records := s.records[k := d], log := s.log + [e]))
  {
    var t := s.(records := s.records[k := d], log := s.log + [e]);
    LogPush(s.log, e);
    forall w, n: nat ensures NonceExact(t, w, n) {
      assert NonceExact(s, w, n);
    }
    forall i, j, w, n: nat, m: nat | 0 <= i < j < |t.log| && Spends(t.log[i], w, n) && Spends(t.log[j], w, m)
        ensures n < m {
      assert Spends(s.log[i], w, n) && Spends(s.log[j], w, m);
    }
    forall i, w, n: nat | 0 <= i < |t.log| && Spends(t.log[i], w, n) ensures n < Nonce(t, w) {
      assert Spends(s.log[i], w, n);
    }
    forall k' ensures KeyInv(t, k') {
      assert KeyInv(s, k');
    }
  }

  lemma ConsumeKeepsInv(s: State, who: Address, n: nat)
    requires Inv(s)
    ensures Inv(StateAfter(s, ConsumeNonce(s, who, n)))
  {
    if ConsumeNonce(s, who, n).Ok? { SpendKeepsInv(s, who, n + 1, Accepted(who, n)); }
  }

  lemma GrantKeepsInv(s: State, k: Key, expiresAt: nat, nonce: nat)
    requires Inv(s)
    ensures Inv(StateAfter(s, Grant(s, k, expiresAt, nonce)))
  {
    if Grant(s, k, expiresAt, nonce).Ok? {
      ConsumeKeepsInv(s, k.owner, nonce);
      RecordKeepsInv(ConsumeNonce(s, k.owner, nonce).value, k, Record(k.owner, k.delegate, k.kind, expiresAt, false, 0),
                     Granted(k, expiresAt, s.now));
    }
  }

  lemma RevokeKeepsInv(s: State, k: Key, nonce: nat)
    requires Inv(s)
    ensures Inv(StateAfter(s, Revoke(s, k, nonce)))
  {
    if Revoke(s, k, nonce).Ok? {
      ConsumeKeepsInv(s, k.owner, nonce);
      var t := ConsumeNonce(s, k.owner, nonce).value;
      assert KeyInv(t, k);
      RecordKeepsInv(t, k, t.records[k].(revoked := true, revokedAt := s.now), Revoked(k, s.now));
    }
  }

  lemma CleanupKeepsInv(s: State, k: Key)
    requires Inv(s)
    ensures Inv(StateAfter(s, CleanupExpired(s, k)))
  {
    var t := StateAfter(s, CleanupExpired(s, k));
    forall w, n: nat ensures NonceExact(t, w, n) {
      assert NonceExact(s, w, n);
    }
    forall k' ensures KeyInv(t, k') {
      assert KeyInv(s, k');
    }
  }

  /** Calls that touch neither records nor nonces, the clock included. */
  lemma QuietKeepsInv(s: State, t: State)
    requires Inv(s) && t.records == s.records && t.nonces == s.nonces && t.log == s.log && s.now <= t.now
    ensures Inv(t)
  {
    forall w, n: nat ensures NonceExact(t, w, n) {
      assert NonceExact(s, w, n);
    }
    forall k ensures KeyInv(t, k) {
      assert KeyInv(s, k);
    }
  }

  lemma StepKeepsInv(s: State, c: Call)
    requires Inv(s)
    ensures Inv(StateAfter(s, Step(s, c)))
  {
    match c
    case CallDelegate(k, e, n, auth) => GrantKeepsInv(s, k, e, n);
    case CallRevoke(k, n, auth) => RevokeKeepsInv(s, k, n);
    case CallRevokeAttestation(a, b, n, auth) => RevokeKeepsInv(s, Key(a, b, Attestation), n);
    case CallRelayDelegate(k, e, p, v, auth) => GrantKeepsInv(s, k, e, p.nonce);
    case CallRelayRevoke(k, p, v, auth) => RevokeKeepsInv(s, k, p.nonce);
    case CallRelayRevokeAttest(a, b, p, v, auth) => RevokeKeepsInv(s, Key(a, b, Attestation), p.nonce);
    case CallInvalidate(who, n, auth) =>
      if Step(s, c).Ok? { SpendKeepsInv(s, who, n, Invalidated(who, Nonce(s, who), n)); }
    case CallCleanup(k) => CleanupKeepsInv(s, k);
    case CallTick(_) => QuietKeepsInv(s, StateAfter(s, Step(s, c)));
    case CallSetPaused(_) => QuietKeepsInv(s, StateAfter(s, Step(s, c)));
    case CallInitialize(_) => QuietKeepsInv(s, StateAfter(s, Step(s, c)));
    case CallSetGrace(_, _, _) => QuietKeepsInv(s, StateAfter(s, Step(s, c)));
    case CallRegisterVerifier(_, _, _, _) => QuietKeepsInv(s, StateAfter(s, Step(s, c)));
  }

  lemma {:induction false} RunKeepsInv(s: State, calls: seq<Call>)
    requires Inv(s)
    ensures Inv(Run(s, calls))
  {
    if calls != [] {
      RunKeepsInv(s, calls[..|calls| - 1]);
      StepKeepsInv(Run(s, calls[..|calls| - 1]), calls[|calls| - 1]);
    }
  }

  lemma ReachableInv(s: State)
    requires Reachable(s)
    ensures Inv(s)
  {
    var calls :| Run(Initial(s.self), calls) == s;
    RunKeepsInv(Initial(s.self), calls);
  }

  // ----- Single-use nonces -----

  /** On every run each nonce below the stored one was spent exactly once, by acceptance or by
      invalidation and never both, the rest never, and always in increasing order. */
  lemma NoncesAreSingleUse(s: State, who: Address, n: nat)
    requires Reachable(s)
    ensures TimesSpent(s.log, who, n) == if n < Nonce(s, who) then 1 else 0
    ensures SpentInOrder(s.log)
  {
    ReachableInv(s);
    assert NonceExact(s, who, n);
  }

  /** Accepted nonces of one owner strictly increase, and none falls in a range invalidated before. */
  lemma AcceptedIncrease(s: State, i: nat, j: nat)
    requires Reachable(s) && i < j < |s.log| && s.log[j].Accepted?
    ensures s.log[i].Accepted? && s.log[i].who == s.log[j].who ==> s.log[i].nonce < s.log[j].nonce
    ensures s.log[i].Invalidated? && s.log[i].who == s.log[j].who ==>
      !(s.log[i].from <= s.log[j].nonce < s.log[i].to)
  {
    ReachableInv(s);
    var who, m := s.log[j].who, s.log[j].nonce;
    assert Spends(s.log[j], who, m);
    if s.log[i].Accepted? && s.log[i].who == who {
      assert Spends(s.log[i], who, s.log[i].nonce);
    }
    assert !Spends(s.log[i], who, m);
  }

  /** `n` has not been spent, and everything below it has, once each. */
  ghost predicate FirstUnspent(log: seq<Event>, who: Address, n: nat) {
    TimesSpent(log, who, n) == 0 && forall m: nat :: m < n ==> TimesSpent(log, who, m) == 1
  }

  /** The stored nonce is the first one never spent, and the only one with all below it spent. */
  lemma StoredIsFirstUnspent(s: State, who: Address, n: nat)
    requires Reachable(s)
    ensures Nonce(s, who) == n <==> FirstUnspent(s.log, who, n)
  {
    ReachableInv(s);
    assert NonceExact(s, who, n) && NonceExact(s, who, Nonce(s, who));
    if Nonce(s, who) == n {
      forall m: nat | m < n ensures TimesSpent(s.log, who, m) == 1 {
        assert NonceExact(s, who, m);
      }
    }
  }

  /** The owner and nonce a delegate or revoke entry point asks to spend. */
  function Claimed(c: Call): Option<(Address, nat)> {
    match c
    case CallDelegate(k, _, n, _) => Some((k.owner, n))
    case CallRevoke(k, n, _) => Some((k.owner, n))
    case CallRevokeAttestation(a, _, n, _) => Some((a, n))
    case CallRelayDelegate(k, _, p, _, _) => Some((k.owner, p.nonce))
    case CallRelayRevoke(k, p, _, _) => Some((k.owner, p.nonce))
    case CallRelayRevokeAttest(a, _, p, _, _) => Some((a, p.nonce))
    case _ => None
  }

  function PayloadOf(c: Call): Option<Payload> {
    match c
    case CallRelayDelegate(_, _, p, _, _) => Some(p)
    case CallRelayRevoke(_, p, _, _) => Some(p)
    case CallRelayRevokeAttest(_, _, p, _, _) => Some(p)
    case _ => None
  }

  /** Acceptance means that the claimed nonce was the stored one, and spends it. */
  lemma AcceptanceSpends(s: State, c: Call)
    requires Claimed(c).Some? && Step(s, c).Ok?
    ensures var (who, n) := Claimed(c).value; Nonce(s, who) == n && Nonce(Step(s, c).value, who) == n + 1
    ensures PayloadOf(c).Some? ==> PayloadOf(c).value.owner == Claimed(c).value.0
  {
  }

  lemma NonceOnlyRises(s: State, c: Call, who: Address)
    ensures Nonce(s, who) <= Nonce(StateAfter(s, Step(s, c)), who)
  {
  }

  lemma {:induction false} NonceRisesAlong(s: State, calls: seq<Call>, who: Address)
    ensures Nonce(s, who) <= Nonce(Run(s, calls), who)
  {
    if calls != [] {
      NonceRisesAlong(s, calls[..|calls| - 1], who);
      NonceOnlyRises(Run(s, calls[..|calls| - 1]), calls[|calls| - 1], who);
    }
  }

  /** Once a nonce is accepted, by whichever entry point, no entry point takes it again for that owner. */
  lemma NonceAcceptedOnce(s: State, c: Call, calls: seq<Call>, again: Call)
    requires Claimed(c).Some? && Step(s, c).Ok? && Claimed(again) == Claimed(c)
    ensures Step(Run(Step(s, c).value, calls), again).Err?
  {
    AcceptanceSpends(s, c);
    NonceRisesAlong(Step(s, c).value, calls, Claimed(c).value.0);
    if Step(Run(Step(s, c).value, calls), again).Ok? {
      AcceptanceSpends(Run(Step(s, c).value, calls), again);
    }
  }

  /** A relayed payload works once: whatever calls follow, whoever submits it again, naming
      whichever owner and entry point, is refused. */
  lemma PayloadAcceptedOnce(s: State, c: Call, calls: seq<Call>, again: Call)
    requires PayloadOf(c).Some? && Step(s, c).Ok? && PayloadOf(again) == PayloadOf(c)
    ensures Step(Run(Step(s, c).value, calls), again).Err?
  {
    AcceptanceSpends(s, c);
    if Step(Run(Step(s, c).value, calls), again).Ok? {
      AcceptanceSpends(Run(Step(s, c).value, calls), again);
      NonceAcceptedOnce(s, c, calls, again);
    }
  }

  /** A nonce passed over by an invalidation is refused for ever. */
  lemma InvalidatedForGood(s: State, who: Address, newNonce: nat, auth: set<Address>, calls: seq<Call>, again: Call)
    requires InvalidateNonceRange(s, who, newNonce, auth).Ok?
    requires Claimed(again).Some? && Claimed(again).value.0 == who && Claimed(again).value.1 < newNonce
    ensures Step(Run(InvalidateNonceRange(s, who, newNonce, auth).value, calls), again).Err?
  {
    var t := InvalidateNonceRange(s, who, newNonce, auth).value;
    NonceRisesAlong(t, calls, who);
    if Step(Run(t, calls), again).Ok? { AcceptanceSpends(Run(t, calls), again); }
  }

  /** Domain separation: if two calls could each take the same payload, possibly in different
      states, they are the same entry point on the same owner and target of the same contract. */
  lemma PayloadFitsOneAction(s: State, c: Call, s': State, c': Call)
    requires PayloadOf(c).Some? && PayloadOf(c') == PayloadOf(c) && Step(s, c).Ok? && Step(s', c').Ok?
    ensures s.self == s'.self
    ensures c.CallRelayDelegate? ==> c'.CallRelayDelegate? && c.k.owner == c'.k.owner && c.k.delegate == c'.k.delegate
    ensures c.CallRelayRevoke? ==> c'.CallRelayRevoke? && c.k.owner == c'.k.owner && c.k.delegate == c'.k.delegate
    ensures c.CallRelayRevokeAttest? ==>
      c'.CallRelayRevokeAttest? && c.attester == c'.attester && c.subject == c'.subject
  {
  }

  /** What a payload leaves open. A grant the relayer may make with it in some state, it may make
      there for either kind and for every admissible expiry; owner, delegate and contract are
      all the payload determines. */
  lemma PayloadLeavesKindAndExpiryOpen(s: State, k: Key, e: nat, p: Payload, ok: bool, auth: set<Address>, k': Key,
                                       e': nat)
    requires RelayDelegate(s, k, e, p, ok, auth).Ok?
    ensures RelayDelegate(s, k', e', p, ok, auth).Ok? <==>
      k'.owner == k.owner && k'.delegate == k.delegate && s.now < e' <= Min(s.now + MAX_DELEGATION_DURATION, U64_MAX)
  {
  }

  /** The same of a revocation: it may be aimed at the record of either kind. */
  lemma PayloadLeavesRevokedKindOpen(s: State, k: Key, p: Payload, ok: bool, auth: set<Address>, k': Key)
    requires RelayRevoke(s, k, p, ok, auth).Ok?
    ensures RelayRevoke(s, k', p, ok, auth).Ok? <==>
      && k'.owner == k.owner && k'.delegate == k.delegate
      && k' in s.records && !s.records[k'].revoked && RevocationAllowed(s.records[k'], s.now, s.grace)
  {
  }

  /** One signed payload, two grants of different kind and lifetime, both accepted from one state. */
  lemma PayloadFitsTwoGrants(self: Address, owner: Address, delegate: Address)
    ensures var s := Initial(self);
      var p := Payload(DelegateTag, owner, delegate, self, 0, 0);
      var c := CallRelayDelegate(Key(owner, delegate, Attestation), 1, p, true, {owner});
      var c' := CallRelayDelegate(Key(owner, delegate, Management), MAX_DELEGATION_DURATION, p, true, {owner});
      && Reachable(s) && Step(s, c).Ok? && Step(s, c').Ok?
      && IsValidDelegate(Step(s, c).value, c.k) && !IsValidDelegate(Step(s, c).value, c'.k)
      && IsValidDelegate(Step(s, c').value, c'.k) && !IsValidDelegate(Step(s, c').value, c.k)
  {
    var s := Initial(self);
    assert Run(s, []) == s;
    PayloadLeavesKindAndExpiryOpen(s, Key(owner, delegate, Attestation), 1,
                                   Payload(DelegateTag, owner, delegate, self, 0, 0),
                                   true, {owner}, Key(owner, delegate, Management), MAX_DELEGATION_DURATION);
  }

  lemma StepKeepsVerifiers(s: State, c: Call)
    ensures var t := StateAfter(s, Step(s, c));
      t.self == s.self && s.verifiers.Keys <= t.verifiers.Keys && s.now <= t.now
  {
  }

  /** The contract keeps its address, and verifiers once registered stay registered. */
  lemma {:induction false} VerifiersStay(s: State, calls: seq<Call>)
    ensures Run(s, calls).self == s.self && s.verifiers.Keys <= Run(s, calls).verifiers.Keys
        && s.now <= Run(s, calls).now
  {
    if calls != [] {
      VerifiersStay(s, calls[..|calls| - 1]);
      StepKeepsVerifiers(Run(s, calls[..|calls| - 1]), calls[|calls| - 1]);
    }
  }

  /** How a replay of an accepted call fails. It never reaches the record: a replayed revoke
      reports the spent nonce, not the revoked record. */
  lemma ReplayStopsAtNonce(s: State, c: Call, calls: seq<Call>)
    requires Claimed(c).Some? && Step(s, c).Ok?
    ensures var t := Run(Step(s, c).value, calls);
      Step(t, c) == Err(if t.paused then ContractPaused
                        else if (c.CallDelegate? || c.CallRelayDelegate?) && c.expiresAt <= t.now then ExpiryInPast
                        else InvalidNonce)
  {
    var u := Step(s, c).value;
    AcceptanceSpends(s, c);
    NonceRisesAlong(u, calls, Claimed(c).value.0);
    StepKeepsVerifiers(s, c);
    VerifiersStay(u, calls);
  }

  // ----- Authority is history -----

  /** Some grant of `k` in the log has not expired and nothing about `k` came after it. */
  ghost predicate StandingGrant(s: State, k: Key, i: nat) {
    && i < |s.log| && s.log[i].Granted? && s.log[i].key == k
    && s.log[i].at <= s.now < s.log[i].expiresAt <= s.log[i].at + MAX_DELEGATION_DURATION
    && forall j :: i < j < |s.log| ==> !Concerns(s.log[j], k)
  }

  lemma {:induction false} LastEventAt(log: seq<Event>, k: Key)
    ensures LastEvent(log, k).None? ==> forall j :: 0 <= j < |log| ==> !Concerns(log[j], k)
    ensures LastEvent(log, k).Some? ==>
      exists i :: 0 <= i < |log| && log[i] == LastEvent(log, k).value && Concerns(log[i], k)
        && forall j :: i < j < |log| ==> !Concerns(log[j], k)
  {
    if log != [] {
      var front := log[..|log| - 1];
      LastEventAt(front, k);
      if Concerns(log[|log| - 1], k) {
        assert log[|log| - 1] == LastEvent(log, k).value;
      } else if LastEvent(front, k).Some? {
        var i :| 0 <= i < |front| && front[i] == LastEvent(front, k).value && Concerns(front[i], k)
          && forall j :: i < j < |front| ==> !Concerns(front[j], k);
        assert log[i] == LastEvent(log, k).value;
      }
    }
  }

  /** A delegate is valid exactly when the last grant of its key, at most 365 days old, has not
      expired and nothing has revoked it since; cleanup and grace periods play no part. */
  lemma AuthorityIsHistory(s: State, k: Key)
    requires Reachable(s)
    ensures IsValidDelegate(s, k) <==> exists i: nat :: StandingGrant(s, k, i)
  {
    ReachableInv(s);
    assert KeyInv(s, k);
    LastEventAt(s.log, k);
    var last := LastEvent(s.log, k);
    if last.Some? {
      var i :| 0 <= i < |s.log| && s.log[i] == last.value && Concerns(s.log[i], k)
        && forall j :: i < j < |s.log| ==> !Concerns(s.log[j], k);
      if IsValidDelegate(s, k) { assert StandingGrant(s, k, i); }
      forall j: nat | StandingGrant(s, k, j) ensures IsValidDelegate(s, k) {
        assert i == j by {
          if i < j { assert Concerns(s.log[j], k); }
        }
      }
    }
  }

  /** The log only grows. */
  lemma StepExtendsLog(s: State, c: Call)
    ensures s.log <= StateAfter(s, Step(s, c)).log && s.now <= StateAfter(s, Step(s, c)).now
  {
  }

  lemma {:induction false} RunExtendsLog(s: State, calls: seq<Call>)
    ensures s.log <= Run(s, calls).log && s.now <= Run(s, calls).now
  {
    if calls != [] {
      RunExtendsLog(s, calls[..|calls| - 1]);
      StepExtendsLog(Run(s, calls[..|calls| - 1]), calls[|calls| - 1]);
    }
  }

  lemma {:induction false} ReachableRun(s: State, calls: seq<Call>)
    requires Reachable(s)
    ensures Reachable(Run(s, calls))
  {
    if calls != [] {
      ReachableRun(s, calls[..|calls| - 1]);
      ReachableStep(Run(s, calls[..|calls| - 1]), calls[|calls| - 1]);
    }
  }

  /** Lost authority comes back only through a new grant. */
  lemma AuthorityNeverRevives(s: State, calls: seq<Call>, k: Key)
    requires Reachable(s) && !IsValidDelegate(s, k) && IsValidDelegate(Run(s, calls), k)
    ensures var t := Run(s, calls); exists i :: |s.log| <= i < |t.log| && t.log[i].Granted? && t.log[i].key == k
  {
    var t := Run(s, calls);
    ReachableRun(s, calls);
    RunExtendsLog(s, calls);
    AuthorityIsHistory(s, k);
    AuthorityIsHistory(t, k);
    var i: nat :| StandingGrant(t, k, i);
    if i < |s.log| {
      ReachableInv(s);
      assert s.log[i] == t.log[i];
      assert forall j :: i < j < |s.log| ==> s.log[j] == t.log[j];
      assert StandingGrant(s, k, i);
    }
  }

  // ----- What a grant and a revocation do -----

  /** No event since position `from` is about `k`. */
  ghost predicate Undisturbed(log: seq<Event>, from: nat, k: Key) {
    forall j :: from <= j < |log| ==> !Concerns(log[j], k)
  }

  /** A grant gives its key authority until exactly the expiry asked for, at most 365 days away:
      through every run of calls that neither grants nor revokes that key again, whatever else
      they do. Every other key keeps what authority it had. */
  lemma GrantTakesEffect(s: State, c: Call, calls: seq<Call>, other: Key)
    requires Reachable(s) && (c.CallDelegate? || c.CallRelayDelegate?) && Step(s, c).Ok? && other != c.k
    ensures s.now < c.expiresAt <= s.now + MAX_DELEGATION_DURATION
    ensures var t := Step(s, c).value;
      && (Undisturbed(Run(t, calls).log, |t.log|, c.k) ==>
            (IsValidDelegate(Run(t, calls), c.k) <==> Run(t, calls).now < c.expiresAt))
      && IsValidDelegate(t, other) == IsValidDelegate(s, other)
  {
    var t := Step(s, c).value;
    var u, last := Run(t, calls), |t.log| - 1;
    ReachableStep(s, c);
    ReachableRun(t, calls);
    RunExtendsLog(t, calls);
    AuthorityIsHistory(u, c.k);
    assert t.log[last] == Granted(c.k, c.expiresAt, s.now) && u.log[last] == t.log[last];
    if Undisturbed(u.log, |t.log|, c.k) {
      forall j: nat | StandingGrant(u, c.k, j) ensures j == last {
        assert Concerns(u.log[last], c.k) && Concerns(u.log[j], c.k);
      }
      assert u.now < c.expiresAt ==> StandingGrant(u, c.k, last);
    }
  }

  /** The key a revoking call is about. */
  function RevokedKey(c: Call): Option<Key> {
    match c
    case CallRevoke(k, _, _) => Some(k)
    case CallRevokeAttestation(a, b, _, _) => Some(Key(a, b, Attestation))
    case CallRelayRevoke(k, _, _, _) => Some(k)
    case CallRelayRevokeAttest(a, b, _, _, _) => Some(Key(a, b, Attestation))
    case _ => None
  }

  /** A revocation ends its key's authority at once and until the next grant, whatever else
      happens, stamps the time, and leaves every other key alone. */
  lemma RevocationTakesEffect(s: State, c: Call, calls: seq<Call>, other: Key)
    requires Reachable(s) && RevokedKey(c).Some? && Step(s, c).Ok? && other != RevokedKey(c).value
    ensures var t, k := Step(s, c).value, RevokedKey(c).value;
      && t.records[k].revoked && t.records[k].revokedAt == s.now
      && (IsValidDelegate(Run(t, calls), k) ==>
            exists i :: |t.log| <= i < |Run(t, calls).log| && Run(t, calls).log[i].Granted?
                && Run(t, calls).log[i].key == k)
      && IsValidDelegate(t, other) == IsValidDelegate(s, other)
  {
    var t, k := Step(s, c).value, RevokedKey(c).value;
    assert !IsValidDelegate(t, k);
    ReachableStep(s, c);
    if IsValidDelegate(Run(t, calls), k) { AuthorityNeverRevives(t, calls, k); }
  }

  // ----- Views agree; cleanup and grace leave authority alone -----

  /** The three views tell one story: valid, Active, and (for attestations) an Active status. */
  lemma ViewsAgree(s: State, k: Key)
    ensures GetSummary(s, k).Ok? <==> k in s.records
    ensures IsValidDelegate(s, k) <==> GetSummary(s, k).Ok? && GetSummary(s, k).value.isValid
    ensures IsValidDelegate(s, k) <==> GetSummary(s, k).Ok? && GetSummary(s, k).value.status == Active
    ensures IsValidDelegate(s, k) ==> GetSummary(s, k).value.timeToExpiry > 0
    ensures k.kind == Attestation ==>
      (IsValidDelegate(s, k) <==> AttestationStatus(s, k.owner, k.delegate) == Some(Active))
  {
  }

  /** Calls that neither grant nor revoke. */
  predicate IsHousekeeping(c: Call) {
    c.CallTick? || c.CallSetPaused? || c.CallInitialize? || c.CallInvalidate? || c.CallCleanup? || c.CallSetGrace?
      || c.CallRegisterVerifier?
  }

  lemma HousekeepingStep(s: State, c: Call, k: Key, later: nat)
    requires IsHousekeeping(c) && StateAfter(s, Step(s, c)).now <= later
    ensures IsValidDelegate(StateAfter(s, Step(s, c)).(now := later), k) == IsValidDelegate(s.(now := later), k)
  {
  }

  /** Through any run of housekeeping, removals of expired records and changes of the grace
      period included, nobody gains or loses authority except by the passing of time. */
  lemma {:induction false} HousekeepingKeepsAuthority(s: State, calls: seq<Call>, k: Key, later: nat)
    requires forall i :: 0 <= i < |calls| ==> IsHousekeeping(calls[i])
    requires Run(s, calls).now <= later
    ensures IsValidDelegate(Run(s, calls).(now := later), k) == IsValidDelegate(s.(now := later), k)
  {
    if calls != [] {
      var t := Run(s, calls[..|calls| - 1]);
      StepExtendsLog(t, calls[|calls| - 1]);
      HousekeepingKeepsAuthority(s, calls[..|calls| - 1], k, later);
      HousekeepingStep(t, calls[|calls| - 1], k, later);
    }
  }
}
