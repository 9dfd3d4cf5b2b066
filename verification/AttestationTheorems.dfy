/** The attestation index agrees with the table in every reachable state, so the drift guard
    never fires; a batch is the fold of its single attestations. */
module AttestationTheorems {
  import opened Host
  import opened Lists
  import opened Attestations

  datatype Call =
    | Tick(t: nat)
    | SetAttesters(attesters: set<Address>)
    | SetBond(bond: Option<Bond>)
    | Add(attester: Address, subject: Address, data: string, nonce: nat, weight: nat, auth: set<Address>)
    | Batch(subject: Address, items: seq<Item>, weightOf: Address -> nat, maxWeight: nat, auth: set<Address>)
    | Revoke(attester: Address, id: nat, nonce: nat, auth: set<Address>)

  function Apply(s: State, call: Call): Outcome {
    match call
    case Tick(t) => Ok(s.(now := t))
    case SetAttesters(attesters) => Ok(s.(attesters := attesters))
    case SetBond(bond) => WriteBond(s, bond)
    case Add(a, subject, data, n, w, auth) => AddAttestation(s, a, subject, data, n, w, auth)
    case Batch(subject, items, w, max, auth) => AddAttestationBatch(s, subject, items, w, max, auth)
    case Revoke(a, id, n, auth) => RevokeAttestation(s, a, id, n, auth)
  }

  function Run(s: State, calls: seq<Call>): State {
    if calls == [] then s
    else var t := Run(s, calls[..|calls| - 1]); StateAfter(t, Apply(t, calls[|calls| - 1]))
  }

  /** The unrevoked ids below `n` whose identity is `subject`, in increasing order. */
  function Index(table: map<nat, Attestation>, subject: Address, n: nat): seq<nat> {
    if n == 0 then []
    else
      Index(table, subject, n - 1) +
      (if n - 1 in table && table[n - 1].identity == subject && !table[n - 1].revoked then [n - 1] else [])
  }

  lemma {:induction false} IndexIsIncreasing(table: map<nat, Attestation>, subject: Address, n: nat)
    ensures forall i, j :: 0 <= i < j < |Index(table, subject, n)| ==>
      Index(table, subject, n)[i] < Index(table, subject, n)[j]
    ensures forall id :: id in Index(table, subject, n) <==>
      id < n && id in table && table[id].identity == subject && !table[id].revoked
    ensures |Index(table, subject, n)| <= n
  {
    if n > 0 {
      IndexIsIncreasing(table, subject, n - 1);
      var front := Index(table, subject, n - 1);
      assert forall i :: 0 <= i < |front| ==> front[i] in front;
    }
  }

  /** A subject's list is its index, and its count is the list's length: short by `lag` for the
      subject `who`, while that many new attestations are not counted yet. */
  predicate SubjectOk(s: State, subject: Address, who: Address, lag: nat) {
    && List(s, subject) == Index(s.table, subject, s.counter)
    && SubjectCount(s, subject) + (if subject == who then lag else 0) == |List(s, subject)| <= HOST_VEC_LIMIT
  }

  ghost predicate TableOk(s: State) {
    && s.counter <= U64_MAX
    && (forall id :: id in s.table <==> 0 <= id < s.counter)
    && (forall id :: id in s.table ==> s.table[id].id == id)
  }

  ghost predicate InvLag(s: State, who: Address, lag: nat) {
    && TableOk(s) && (s.bond.Some? ==> WithinBonded(s.bond.value))
    && forall subject :: SubjectOk(s, subject, who, lag)
  }

  /** A duplicate key stands for an unrevoked attestation. */
  ghost predicate KeyIsLive(s: State, k: DedupKey) {
    exists id :: id in s.table && !s.table[id].revoked && KeyOf(s.table[id]) == k
  }

  ghost predicate KeysOk(s: State) {
    forall k :: k in s.dedup ==> KeyIsLive(s, k)
  }

  const Nobody: Address := Address(0)

  ghost predicate Inv(s: State) {
    InvLag(s, Nobody, 0) && KeysOk(s)
  }

  lemma {:induction false} IndexFrame(a: map<nat, Attestation>, b: map<nat, Attestation>, subject: Address, n: nat)
    requires forall id :: 0 <= id < n ==> id in a && id in b
    requires forall id :: 0 <= id < n ==>
      a[id].identity == b[id].identity && (a[id].identity == subject ==> a[id].revoked == b[id].revoked)
    ensures Index(a, subject, n) == Index(b, subject, n)
  {
    if n > 0 { IndexFrame(a, b, subject, n - 1); }
  }

  lemma {:induction false} IndexRevoke(a: map<nat, Attestation>, b: map<nat, Attestation>, id: nat,
                                       subject: Address, n: nat)
    requires (forall i :: 0 <= i < n ==> i in a) && id in a && b == a[id := a[id].(revoked := true)]
    ensures Index(b, subject, n) == if a[id].identity == subject then Without(Index(a, subject, n), id)
        else Index(a, subject, n)
  {
    if n > 0 {
      IndexRevoke(a, b, id, subject, n - 1);
      var front := Index(a, subject, n - 1);
      assert (front + [n - 1])[..|front|] == front && front + [] == front;
    }
  }

  // ----- Every step keeps the invariant -----

  lemma AppendLags(s: State, attester: Address, who: Address, data: string, weight: nat, lag: nat)
    requires InvLag(s, who, lag) && s.counter < U64_MAX && |List(s, who)| < HOST_VEC_LIMIT
    ensures InvLag(Append(s, attester, who, data, weight), who, lag + 1)
  {
    var t := Append(s, attester, who, data, weight);
    var more := lag + 1;
    forall subject ensures SubjectOk(t, subject, who, more) {
      assert SubjectOk(s, subject, who, lag);
      IndexFrame(s.table, t.table, subject, s.counter);
    }
  }

  lemma AppendKeepsKeys(s: State, attester: Address, who: Address, data: string, weight: nat)
    requires TableOk(s) && KeysOk(s)
    ensures var t := Append(s, attester, who, data, weight);
      KeysOk(t) && KeyIsLive(t, DedupKey(attester, who, data))
  {
    var t := Append(s, attester, who, data, weight);
    forall k | k in t.dedup ensures KeyIsLive(t, k) {
      assert KeyIsLive(s, k);
      var id :| id in s.table && !s.table[id].revoked && KeyOf(s.table[id]) == k;
      assert t.table[id] == s.table[id];
    }
    assert KeyOf(t.table[s.counter]) == DedupKey(attester, who, data);
  }

  lemma CountedCatchesUp(s: State, who: Address, n: nat)
    requires InvLag(s, who, n) && KeysOk(s)
    ensures Inv(Counted(s, who, n))
  {
    var t := Counted(s, who, n);
    assert SubjectOk(s, who, who, n);
    forall subject ensures SubjectOk(t, subject, Nobody, 0) {
      assert SubjectOk(s, subject, who, n);
    }
    forall k | k in t.dedup ensures KeyIsLive(t, k) { assert KeyIsLive(s, k); }
  }

  lemma NoncesDontMatter(s: State, nonces: map<Address, nat>, who: Address)
    requires Inv(s)
    ensures InvLag(s.(nonces := nonces), who, 0) && KeysOk(s.(nonces := nonces))
  {
    var t := s.(nonces := nonces);
    forall subject ensures SubjectOk(t, subject, who, 0) {
      assert SubjectOk(s, subject, Nobody, 0);
    }
    forall k | k in t.dedup ensures KeyIsLive(t, k) { assert KeyIsLive(s, k); }
  }

  /** The guard passes on every state the invariant holds of. */
  lemma GuardPasses(s: State, subject: Address)
    requires Inv(s)
    ensures Guarded(s, subject) == Ok(s)
  {
    assert SubjectOk(s, subject, Nobody, 0);
    if s.bond.Some? { assert SubjectOk(s, s.bond.value.identity, Nobody, 0); }
  }

  lemma AddKeepsInv(s: State, a: Address, subject: Address, data: string, nonce: nat, weight: nat, auth: set<Address>)
    requires Inv(s) && AddError(s, a, subject, data, nonce, weight, auth).None?
    ensures var t := AddResult(s, a, subject, data, nonce, weight);
      Inv(t) && Guarded(t, subject) == Ok(t)
  {
    var nonces := s.nonces[a := nonce + 1];
    var s1 := s.(nonces := nonces);
    NoncesDontMatter(s, nonces, subject);
    AppendLags(s1, a, subject, data, weight, 0);
    AppendKeepsKeys(s1, a, subject, data, weight);
    CountedCatchesUp(Append(s1, a, subject, data, weight), subject, 1);
    GuardPasses(AddResult(s, a, subject, data, nonce, weight), subject);
  }

  lemma AddKey(s: State, k: DedupKey, who: Address, lag: nat)
    requires InvLag(s, who, lag) && KeysOk(s) && KeyIsLive(s, k)
    ensures InvLag(s.(dedup := s.dedup + {k}), who, lag) && KeysOk(s.(dedup := s.dedup + {k}))
  {
    var t := s.(dedup := s.dedup + {k});
    forall subject ensures SubjectOk(t, subject, who, lag) { assert SubjectOk(s, subject, who, lag); }
    forall j | j in t.dedup ensures KeyIsLive(t, j) { assert KeyIsLive(s, j); }
  }

  lemma {:induction false} AppendAllLags(s: State, subject: Address, items: seq<Item>, weightOf: Address -> nat)
    requires InvLag(s, subject, 0) && KeysOk(s)
    requires s.counter + |items| <= U64_MAX && |List(s, subject)| + |items| <= HOST_VEC_LIMIT
    ensures var t := AppendAll(s, subject, items, weightOf);
      && InvLag(t, subject, |items|) && KeysOk(t) && t.counter == s.counter + |items|
      && |List(t, subject)| == |List(s, subject)| + |items|
  {
    if items != [] {
      var front, item := items[..|items| - 1], items[|items| - 1];
      AppendAllLags(s, subject, front, weightOf);
      var t := AppendAll(s, subject, front, weightOf);
      var w := weightOf(item.attester);
      AppendLags(t, item.attester, subject, item.data, w, |front|);
      AppendKeepsKeys(t, item.attester, subject, item.data, w);
      AddKey(Append(t, item.attester, subject, item.data, w), ItemKey(item, subject), subject, |items|);
    }
  }

  lemma BatchKeepsInv(s: State, nonces: map<Address, nat>, subject: Address, items: seq<Item>, weightOf: Address -> nat)
    requires Inv(s) && s.counter + |items| <= U64_MAX && |List(s, subject)| + |items| <= HOST_VEC_LIMIT
    ensures var t := BatchResult(s, nonces, subject, items, weightOf);
      Inv(t) && Guarded(t, subject) == Ok(t)
  {
    NoncesDontMatter(s, nonces, subject);
    AppendAllLags(s.(nonces := nonces), subject, items, weightOf);
    CountedCatchesUp(AppendAll(s.(nonces := nonces), subject, items, weightOf), subject, |items|);
    GuardPasses(BatchResult(s, nonces, subject, items, weightOf), subject);
  }

  lemma {:induction false} NeverDriftsEarly(s: State, items: seq<Item>, auth: set<Address>)
    ensures ConsumeAll(s, items, auth).Err? ==> ConsumeAll(s, items, auth).error != InvariantViolation
  {
    if items != [] { NeverDriftsEarly(s, items[..|items| - 1], auth); }
  }

  lemma {:induction false} RemoveOne(ids: seq<nat>, id: nat)
    requires forall i, j :: 0 <= i < j < |ids| ==> ids[i] < ids[j]
    ensures |Without(ids, id)| == |ids| - (if id in ids then 1 else 0)
    ensures forall x :: x in Without(ids, id) ==> x in ids
  {
    if ids != [] { RemoveOne(ids[..|ids| - 1], id); }
  }

  lemma RevokedSubject(s: State, id: nat, subject: Address)
    requires InvLag(s, Nobody, 0) && id in s.table && !s.table[id].revoked
    ensures SubjectOk(Revoked(s, id), subject, Nobody, 0)
  {
    var t := Revoked(s, id);
    assert SubjectOk(s, subject, Nobody, 0);
    IndexRevoke(s.table, t.table, id, subject, s.counter);
    if s.table[id].identity == subject {
      IndexIsIncreasing(s.table, subject, s.counter);
      RemoveOne(List(s, subject), id);
    }
  }

  lemma RevokedKeepsKeys(s: State, id: nat)
    requires KeysOk(s) && id in s.table
    ensures KeysOk(Revoked(s, id))
  {
    var t := Revoked(s, id);
    forall k | k in t.dedup ensures KeyIsLive(t, k) {
      assert KeyIsLive(s, k);
      var i :| i in s.table && !s.table[i].revoked && KeyOf(s.table[i]) == k;
      assert i != id && t.table[i] == s.table[i];
    }
  }

  lemma RevokeKeepsInv(s: State, nonces: map<Address, nat>, id: nat)
    requires Inv(s) && id in s.table && !s.table[id].revoked
    ensures var t := Revoked(s.(nonces := nonces), id);
      Inv(t) && Guarded(t, s.table[id].identity) == Ok(t)
  {
    var s1 := s.(nonces := nonces);
    NoncesDontMatter(s, nonces, Nobody);
    forall subject ensures SubjectOk(Revoked(s1, id), subject, Nobody, 0) { RevokedSubject(s1, id, subject); }
    RevokedKeepsKeys(s1, id);
    GuardPasses(Revoked(s1, id), s.table[id].identity);
  }

  lemma EnvironmentKeepsInv(s: State, t: State)
    requires Inv(s) && t == s.(now := t.now, attesters := t.attesters, bond := t.bond)
    requires t.bond.Some? ==> WithinBonded(t.bond.value)
    ensures Inv(t)
  {
    forall subject ensures SubjectOk(t, subject, Nobody, 0) { assert SubjectOk(s, subject, Nobody, 0); }
    forall k | k in t.dedup ensures KeyIsLive(t, k) { assert KeyIsLive(s, k); }
  }

  lemma AddStep(s: State, a: Address, subject: Address, data: string, n: nat, w: nat, auth: set<Address>)
    requires Inv(s)
    ensures var o := AddAttestation(s, a, subject, data, n, w, auth);
      Inv(StateAfter(s, o)) && (o.Err? ==> o.error != InvariantViolation)
  {
    if AddError(s, a, subject, data, n, w, auth).None? { AddKeepsInv(s, a, subject, data, n, w, auth); }
  }

  lemma BatchStep(s: State, subject: Address, items: seq<Item>, w: Address -> nat, max: nat, auth: set<Address>)
    requires Inv(s)
    ensures var o := AddAttestationBatch(s, subject, items, w, max, auth);
      Inv(StateAfter(s, o)) && (o.Err? ==> o.error != InvariantViolation)
  {
    NeverDriftsEarly(s, items, auth);
    if BatchError(s, subject, items, w, max, auth).None? {
      BatchKeepsInv(s, ConsumeAll(s, items, auth).value, subject, items, w);
    }
  }

  lemma BondStep(s: State, bond: Option<Bond>)
    requires Inv(s)
    ensures Inv(StateAfter(s, WriteBond(s, bond)))
    ensures WriteBond(s, bond).Err? <==> bond.Some? && !WithinBonded(bond.value)
  {
    if bond.Some? { assert SubjectOk(s, bond.value.identity, Nobody, 0); }
    if WriteBond(s, bond).Ok? { EnvironmentKeepsInv(s, s.(bond := bond)); }
  }

  /** The call writes a bond that is slashed by more than it holds. */
  predicate WritesUnsoundBond(call: Call) {
    call.SetBond? && call.bond.Some? && !WithinBonded(call.bond.value)
  }

  /** No call leaves the invariant, and none is refused by the drift guard but the write of an
      unsound bond. */
  lemma StepKeepsInv(s: State, call: Call)
    requires Inv(s)
    ensures Inv(StateAfter(s, Apply(s, call)))
    ensures Apply(s, call) == Err(InvariantViolation) <==> WritesUnsoundBond(call)
  {
    match call
    case SetBond(bond) => BondStep(s, bond);
    case Add(a, subject, data, n, w, auth) => AddStep(s, a, subject, data, n, w, auth);
    case Batch(subject, items, w, max, auth) => BatchStep(s, subject, items, w, max, auth);
    case Revoke(a, id, n, auth) =>
      if RevokeError(s, a, id, n, auth).None? { RevokeKeepsInv(s, s.nonces[a := n + 1], id); }
    case _ => EnvironmentKeepsInv(s, StateAfter(s, Apply(s, call)));
  }

  ghost predicate Reachable(s: State) {
    exists calls :: Run(Initial, calls) == s
  }

  lemma ReachableStep(s: State, call: Call)
    requires Reachable(s)
    ensures Reachable(StateAfter(s, Apply(s, call)))
  {
    var calls :| Run(Initial, calls) == s;
    assert (calls + [call])[..|calls|] == calls;
    assert Run(Initial, calls + [call]) == StateAfter(s, Apply(s, call));
  }

  lemma {:induction false} RunKeepsInv(calls: seq<Call>)
    ensures Inv(Run(Initial, calls))
  {
    if calls == [] {
      forall subject ensures SubjectOk(Initial, subject, Nobody, 0) {}
    } else {
      RunKeepsInv(calls[..|calls| - 1]);
      StepKeepsInv(Run(Initial, calls[..|calls| - 1]), calls[|calls| - 1]);
    }
  }

  lemma ReachableInv(s: State)
    requires Reachable(s)
    ensures Inv(s)
  {
    var calls :| Run(Initial, calls) == s;
    RunKeepsInv(calls);
  }

  /** A single attestation that is not refused passes the guard and stays reachable. */
  lemma AddIsReachable(s: State, a: Address, subject: Address, data: string, nonce: nat, weight: nat,
                       auth: set<Address>)
    requires Reachable(s)
    ensures var o := AddAttestation(s, a, subject, data, nonce, weight, auth);
      && Reachable(StateAfter(s, o))
      && (AddError(s, a, subject, data, nonce, weight, auth).None? ==>
            o == Ok(AddResult(s, a, subject, data, nonce, weight))
            && DriftGuard(AddResult(s, a, subject, data, nonce, weight), subject))
  {
    ReachableStep(s, Add(a, subject, data, nonce, weight, auth));
    ReachableInv(s);
    if AddError(s, a, subject, data, nonce, weight, auth).None? {
      AddKeepsInv(s, a, subject, data, nonce, weight, auth);
    }
  }

  lemma RevokeIsReachable(s: State, a: Address, id: nat, nonce: nat, auth: set<Address>)
    requires Reachable(s)
    ensures Reachable(StateAfter(s, RevokeAttestation(s, a, id, nonce, auth)))
    ensures RevokeError(s, a, id, nonce, auth).None? ==>
      var t := Revoked(s.(nonces := s.nonces[a := nonce + 1]), id);
      RevokeAttestation(s, a, id, nonce, auth) == Ok(t) && DriftGuard(t, s.table[id].identity)
  {
    ReachableStep(s, Revoke(a, id, nonce, auth));
    ReachableInv(s);
    if RevokeError(s, a, id, nonce, auth).None? {
      RevokeKeepsInv(s, s.nonces[a := nonce + 1], id);
    }
  }

  lemma BatchIsReachable(s: State, subject: Address, items: seq<Item>, w: Address -> nat, max: nat, auth: set<Address>)
    requires Reachable(s)
    ensures Reachable(StateAfter(s, AddAttestationBatch(s, subject, items, w, max, auth)))
    ensures BatchError(s, subject, items, w, max, auth).None? ==>
      var t := BatchResult(s, ConsumeAll(s, items, auth).value, subject, items, w);
      AddAttestationBatch(s, subject, items, w, max, auth) == Ok(t) && DriftGuard(t, subject)
  {
    ReachableStep(s, Batch(subject, items, w, max, auth));
    ReachableInv(s);
    if BatchError(s, subject, items, w, max, auth).None? {
      BatchKeepsInv(s, ConsumeAll(s, items, auth).value, subject, items, w);
    }
  }

  /** In every reachable state a subject's list is exactly the increasing list of the unrevoked
      ids issued for it, and its count is that list's length; so the drift guard passes for
      every subject, and no call is ever refused by it but the write of a bond slashed by more
      than it holds. */
  lemma IndexAgrees(s: State, subject: Address, id: nat, call: Call)
    requires Reachable(s)
    ensures forall i, j :: 0 <= i < j < |List(s, subject)| ==> List(s, subject)[i] < List(s, subject)[j]
    ensures id in List(s, subject) <==> id in s.table && s.table[id].identity == subject && !s.table[id].revoked
    ensures SubjectCount(s, subject) == |List(s, subject)| && DriftGuard(s, subject)
    ensures Apply(s, call) == Err(InvariantViolation) <==> WritesUnsoundBond(call)
  {
    ReachableInv(s);
    assert SubjectOk(s, subject, Nobody, 0);
    IndexIsIncreasing(s.table, subject, s.counter);
    GuardPasses(s, subject);
    StepKeepsInv(s, call);
  }

  // ----- A batch is the fold of its attestations -----

  function FoldAdd(s: State, subject: Address, items: seq<Item>, weightOf: Address -> nat,
                   auth: set<Address>): Outcome {
    if items == [] then Ok(s)
    else
      var before := FoldAdd(s, subject, items[..|items| - 1], weightOf, auth);
      var item := items[|items| - 1];
      if before.Err? then before
      else AddAttestation(before.value, item.attester, subject, item.data, item.nonce, weightOf(item.attester), auth)
  }

  ghost predicate Admissible(s: State, subject: Address, items: seq<Item>, weightOf: Address -> nat,
                             auth: set<Address>) {
    && ConsumeAll(s, items, auth).Ok?
    && s.counter + |items| <= U64_MAX && |List(s, subject)| + |items| <= HOST_VEC_LIMIT
    && forall i :: 0 <= i < |items| ==>
         ItemKey(items[i], subject) !in s.dedup && 1 <= weightOf(items[i].attester) <= MAX_ATTESTATION_WEIGHT
  }

  /** Records and lists after the write pass, without its duplicate keys. */
  function Stored(s: State, subject: Address, items: seq<Item>, weightOf: Address -> nat): State {
    AppendAll(s, subject, items, weightOf).(dedup := s.dedup)
  }

  /** What the fold has stored after a prefix. */
  function Folded(s: State, subject: Address, items: seq<Item>, weightOf: Address -> nat, auth: set<Address>): State
    requires ConsumeAll(s, items, auth).Ok?
  {
    Stored(s, subject, items, weightOf).(
      nonces := ConsumeAll(s, items, auth).value,
      counts := if items == [] then s.counts
                else s.counts[subject := SaturatingAddU32(SubjectCount(s, subject), |items|)])
  }

  lemma {:induction false} AppendAllShape(s: State, subject: Address, items: seq<Item>, weightOf: Address -> nat)
    ensures var t := AppendAll(s, subject, items, weightOf);
      && t == s.(counter := s.counter + |items|, table := t.table, lists := t.lists, dedup := t.dedup)
      && |List(t, subject)| == |List(s, subject)| + |items|
  {
    if items != [] { AppendAllShape(s, subject, items[..|items| - 1], weightOf); }
  }

  /** Appending does not look at nonces, counts or duplicate keys. */
  lemma {:induction false} AppendAllFrame(s: State, nonces: map<Address, nat>, subject: Address, items: seq<Item>,
                                          weightOf: Address -> nat)
    ensures AppendAll(s.(nonces := nonces), subject, items, weightOf)
      == AppendAll(s, subject, items, weightOf).(nonces := nonces)
  {
    if items != [] { AppendAllFrame(s, nonces, subject, items[..|items| - 1], weightOf); }
  }

  lemma FoldedIsBatch(s: State, subject: Address, items: seq<Item>, weightOf: Address -> nat, auth: set<Address>)
    requires items != [] && ConsumeAll(s, items, auth).Ok?
    ensures Folded(s, subject, items, weightOf, auth)
      == BatchResult(s, ConsumeAll(s, items, auth).value, subject, items, weightOf).(dedup := s.dedup)
  {
    AppendAllFrame(s, ConsumeAll(s, items, auth).value, subject, items, weightOf);
    AppendAllShape(s, subject, items, weightOf);
  }

  lemma FoldAdmits(s: State, subject: Address, items: seq<Item>, weightOf: Address -> nat, auth: set<Address>)
    requires items != [] && Admissible(s, subject, items, weightOf, auth)
    ensures var front, item := items[..|items| - 1], items[|items| - 1];
      && Admissible(s, subject, front, weightOf, auth)
      && AddError(Folded(s, subject, front, weightOf, auth), item.attester, subject, item.data, item.nonce,
                  weightOf(item.attester), auth).None?
  {
    var front := items[..|items| - 1];
    AppendAllShape(s, subject, front, weightOf);
    assert items[|front|] == items[|items| - 1];
    assert forall i :: 0 <= i < |front| ==> front[i] == items[i];
  }

  lemma FoldAddsRecords(s: State, subject: Address, items: seq<Item>, weightOf: Address -> nat, t: State)
    requires items != []
    requires t == Stored(s, subject, items[..|items| - 1], weightOf).(nonces := t.nonces, counts := t.counts)
    ensures var item := items[|items| - 1];
      Append(t, item.attester, subject, item.data, weightOf(item.attester))
        == Stored(s, subject, items, weightOf).(nonces := t.nonces, counts := t.counts)
  {
    AppendAllShape(s, subject, items[..|items| - 1], weightOf);
    AppendAllShape(s, subject, items, weightOf);
  }

  lemma FoldAddsCounts(s: State, counts: map<Address, nat>, subject: Address, k: nat)
    requires counts == if k == 0 then s.counts else s.counts[subject := SaturatingAddU32(SubjectCount(s, subject), k)]
    ensures var t := s.(counts := counts);
      counts[subject := SaturatingAddU32(SubjectCount(t, subject), 1)]
        == s.counts[subject := SaturatingAddU32(SubjectCount(s, subject), k + 1)]
  {
  }

  lemma FoldAdds(s: State, subject: Address, items: seq<Item>, weightOf: Address -> nat, auth: set<Address>)
    requires items != [] && ConsumeAll(s, items, auth).Ok? && ConsumeAll(s, items[..|items| - 1], auth).Ok?
    ensures var front, item := items[..|items| - 1], items[|items| - 1];
      AddResult(Folded(s, subject, front, weightOf, auth), item.attester, subject, item.data, item.nonce,
                weightOf(item.attester))
        == Folded(s, subject, items, weightOf, auth)
  {
    var front, item := items[..|items| - 1], items[|items| - 1];
    var t := Folded(s, subject, front, weightOf, auth);
    var t1 := t.(nonces := t.nonces[item.attester := item.nonce + 1]);
    var v := Append(t1, item.attester, subject, item.data, weightOf(item.attester));
    FoldAddsRecords(s, subject, items, weightOf, t1);
    FoldAddsCounts(s, t.counts, subject, |front|);
    assert v.counts == t.counts && v.nonces == ConsumeAll(s, items, auth).value;
    assert Counted(v, subject, 1).counts == s.counts[subject := SaturatingAddU32(SubjectCount(s, subject), |items|)];
  }

  lemma FoldStep(s: State, subject: Address, items: seq<Item>, weightOf: Address -> nat, auth: set<Address>)
    requires Inv(s) && items != [] && Admissible(s, subject, items, weightOf, auth)
    ensures var front, item := items[..|items| - 1], items[|items| - 1];
      && Admissible(s, subject, front, weightOf, auth)
      && AddAttestation(Folded(s, subject, front, weightOf, auth), item.attester, subject, item.data, item.nonce,
                        weightOf(item.attester), auth)
           == Ok(Folded(s, subject, items, weightOf, auth))
  {
    FoldAdmits(s, subject, items, weightOf, auth);
    FoldAdds(s, subject, items, weightOf, auth);
    FoldedIsBatch(s, subject, items, weightOf, auth);
    BatchKeepsInv(s, ConsumeAll(s, items, auth).value, subject, items, weightOf);
  }

  lemma {:induction false} FoldIsFolded(s: State, subject: Address, items: seq<Item>, weightOf: Address -> nat,
                                        auth: set<Address>)
    requires Inv(s) && Admissible(s, subject, items, weightOf, auth)
    ensures FoldAdd(s, subject, items, weightOf, auth) == Ok(Folded(s, subject, items, weightOf, auth))
  {
    if items != [] {
      FoldStep(s, subject, items, weightOf, auth);
      FoldIsFolded(s, subject, items[..|items| - 1], weightOf, auth);
    }
  }

  lemma {:induction false} AppendAllKeys(s: State, subject: Address, items: seq<Item>, weightOf: Address -> nat)
    ensures AppendAll(s, subject, items, weightOf).dedup ==
      s.dedup + set i | 0 <= i < |items| :: ItemKey(items[i], subject)
  {
    if items != [] {
      var front := items[..|items| - 1];
      AppendAllKeys(s, subject, front, weightOf);
      assert forall i :: 0 <= i < |front| ==> front[i] == items[i];
      assert (set i | 0 <= i < |items| :: ItemKey(items[i], subject))
        == (set i | 0 <= i < |front| :: ItemKey(front[i], subject)) + {ItemKey(items[|front|], subject)};
    }
  }

  /** A batch that succeeds leaves the same table, lists, counts, id counter and nonces as adding
      its items one by one; only the batch writes duplicate keys. */
  lemma BatchIsFold(s: State, subject: Address, items: seq<Item>, weightOf: Address -> nat, maxWeight: nat,
                    auth: set<Address>)
    requires Reachable(s) && AddAttestationBatch(s, subject, items, weightOf, maxWeight, auth).Ok?
    ensures var batch := AddAttestationBatch(s, subject, items, weightOf, maxWeight, auth).value;
      && FoldAdd(s, subject, items, weightOf, auth) == Ok(batch.(dedup := s.dedup))
      && batch.dedup == s.dedup + set i | 0 <= i < |items| :: ItemKey(items[i], subject)
  {
    ReachableInv(s);
    FoldIsFolded(s, subject, items, weightOf, auth);
    FoldedIsBatch(s, subject, items, weightOf, auth);
    AppendAllKeys(s.(nonces := ConsumeAll(s, items, auth).value), subject, items, weightOf);
  }

  /** The records a batch returns are those it stored. */
  lemma {:induction false} BatchStoresRecords(s: State, subject: Address, items: seq<Item>,
                                              weightOf: Address -> nat, i: nat)
    requires i < |items|
    ensures var t, a := AppendAll(s, subject, items, weightOf), BatchRecords(s, subject, items, weightOf)[i];
      t.counter == s.counter + |items| && a.id in t.table && t.table[a.id] == a
  {
    AppendAllShape(s, subject, items[..|items| - 1], weightOf);
    if i < |items| - 1 { BatchStoresRecords(s, subject, items[..|items| - 1], weightOf, i); }
  }

  // ----- When a duplicate is refused -----

  /** What a call does to an attested triple. */
  datatype KeyEvent = SingleAdded(key: DedupKey) | BatchAdded(key: DedupKey) | KeyRevoked(key: DedupKey)

  function BatchEvents(subject: Address, items: seq<Item>): seq<KeyEvent> {
    seq(|items|, i requires 0 <= i < |items| => BatchAdded(ItemKey(items[i], subject)))
  }

  function Events(s: State, call: Call): seq<KeyEvent> {
    if Apply(s, call).Err? then []
    else
      match call
      case Add(a, subject, data, _, _, _) => [SingleAdded(DedupKey(a, subject, data))]
      case Batch(subject, items, _, _, _) => BatchEvents(subject, items)
      case Revoke(_, id, _, _) => if id in s.table then [KeyRevoked(KeyOf(s.table[id]))] else []
      case _ => []
  }

  /** What the successful calls of a run did, in order. */
  function History(calls: seq<Call>): seq<KeyEvent> {
    if calls == [] then []
    else
      var front := calls[..|calls| - 1];
      History(front) + Events(Run(Initial, front), calls[|calls| - 1])
  }

  /** Some batch added `k`, and nobody revoked an attestation of that triple since. */
  ghost predicate BatchStands(events: seq<KeyEvent>, k: DedupKey) {
    exists i :: 0 <= i < |events| && events[i] == BatchAdded(k)
      && forall j :: i < j < |events| ==> events[j] != KeyRevoked(k)
  }

  lemma BatchStandsPush(before: seq<KeyEvent>, more: seq<KeyEvent>, k: DedupKey)
    requires forall i :: 0 <= i < |more| ==> !more[i].KeyRevoked?
    ensures BatchStands(before + more, k) <==> BatchStands(before, k) || BatchAdded(k) in more
  {
    var all := before + more;
    if BatchStands(before, k) {
      var i :| 0 <= i < |before| && before[i] == BatchAdded(k)
        && forall j :: i < j < |before| ==> before[j] != KeyRevoked(k);
      assert all[i] == BatchAdded(k);
    }
    if BatchAdded(k) in more {
      var i :| 0 <= i < |more| && more[i] == BatchAdded(k);
      assert all[|before| + i] == BatchAdded(k);
    }
    if BatchStands(all, k) && BatchAdded(k) !in more {
      var i :| 0 <= i < |all| && all[i] == BatchAdded(k) && forall j :: i < j < |all| ==> all[j] != KeyRevoked(k);
      assert i < |before| && before[i] == BatchAdded(k);
      assert forall j :: i < j < |before| ==> before[j] == all[j];
    }
  }

  lemma BatchStandsRevoked(before: seq<KeyEvent>, r: DedupKey, k: DedupKey)
    ensures BatchStands(before + [KeyRevoked(r)], k) <==> BatchStands(before, k) && k != r
  {
    var all := before + [KeyRevoked(r)];
    if BatchStands(all, k) {
      var i :| 0 <= i < |all| && all[i] == BatchAdded(k) && forall j :: i < j < |all| ==> all[j] != KeyRevoked(k);
      assert before[i] == BatchAdded(k) && all[|before|] == KeyRevoked(r);
      assert forall j :: i < j < |before| ==> before[j] == all[j];
    }
    if BatchStands(before, k) && k != r {
      var i :| 0 <= i < |before| && before[i] == BatchAdded(k)
        && forall j :: i < j < |before| ==> before[j] != KeyRevoked(k);
      assert all[i] == BatchAdded(k);
    }
  }

  /** What one call does to the stored keys. */
  lemma KeysAfter(s: State, call: Call, k: DedupKey)
    ensures var t, e := StateAfter(s, Apply(s, call)), Events(s, call);
      if KeyRevoked(k) in e then k !in t.dedup else k in t.dedup <==> k in s.dedup || BatchAdded(k) in e
  {
    if call.Batch? && Apply(s, call).Ok? {
      var nonces := ConsumeAll(s, call.items, call.auth).value;
      AppendAllKeys(s.(nonces := nonces), call.subject, call.items, call.weightOf);
      var e := BatchEvents(call.subject, call.items);
      if BatchAdded(k) in e { assert exists i :: 0 <= i < |e| && e[i] == BatchAdded(k); }
      if exists i :: 0 <= i < |call.items| && ItemKey(call.items[i], call.subject) == k {
        var i :| 0 <= i < |call.items| && ItemKey(call.items[i], call.subject) == k;
        assert e[i] == BatchAdded(k);
      }
    }
  }

  /** On every run: a duplicate key is stored if and only if a batch added the triple and no
      attestation of it was revoked since. Single additions play no part. */
  lemma {:induction false} KeyIsHistory(calls: seq<Call>, k: DedupKey)
    ensures k in Run(Initial, calls).dedup <==> BatchStands(History(calls), k)
  {
    if calls != [] {
      var front, call := calls[..|calls| - 1], calls[|calls| - 1];
      var s := Run(Initial, front);
      KeyIsHistory(front, k);
      KeysAfter(s, call, k);
      var e := Events(s, call);
      if call.Revoke? && e != [] {
        BatchStandsRevoked(History(front), e[0].key, k);
        assert e == [KeyRevoked(e[0].key)];
      } else {
        BatchStandsPush(History(front), e, k);
      }
    }
  }

  /** Exactly when a single attestation is refused as a duplicate: its caller signed, is
      registered and gave the right nonce, and a batch's addition of the triple still stands. */
  lemma DuplicateRefusedIff(calls: seq<Call>, a: Address, subject: Address, data: string, nonce: nat, weight: nat,
                            auth: set<Address>)
    ensures var s := Run(Initial, calls);
      AddAttestation(s, a, subject, data, nonce, weight, auth) == Err(DuplicateAttestation) <==>
        && a in auth && a in s.attesters && nonce == Nonce(s.nonces, a) && nonce < U64_MAX
        && BatchStands(History(calls), DedupKey(a, subject, data))
  {
    var s := Run(Initial, calls);
    KeyIsHistory(calls, DedupKey(a, subject, data));
    assert Reachable(s);
    AddIsReachable(s, a, subject, data, nonce, weight, auth);
  }

  // ----- Revoking one attestation frees the key of another -----

  /** Room for three more attestations of one triple. */
  predicate HasRoom(s: State, a: Address, subject: Address) {
    && a in s.attesters && Nonce(s.nonces, a) + 4 <= U64_MAX && s.counter + 4 <= U64_MAX
    && |List(s, subject)| + 4 <= HOST_VEC_LIMIT
  }

  lemma OneItemBatch(s: State, subject: Address, item: Item, w: Address -> nat) returns (t: State)
    requires Reachable(s) && item.attester in s.attesters && item.nonce == Nonce(s.nonces, item.attester)
    requires item.nonce < U64_MAX && s.counter < U64_MAX && |List(s, subject)| < HOST_VEC_LIMIT
    requires 1 <= w(item.attester) <= MAX_ATTESTATION_WEIGHT && ItemKey(item, subject) !in s.dedup
    ensures AddAttestationBatch(s, subject, [item], w, w(item.attester), {item.attester}) == Ok(t) && Reachable(t)
    ensures t.nonces == s.nonces[item.attester := item.nonce + 1] && t.attesters == s.attesters
    ensures t.counter == s.counter + 1 && |List(t, subject)| == |List(s, subject)| + 1
    ensures t.table ==
      s.table[s.counter := Attestation(s.counter, item.attester, subject, s.now, w(item.attester), item.data, false)]
  {
    var items := [item];
    assert items[..|items| - 1] == [];
    assert ConsumeAll(s, items, {item.attester}) == Ok(s.nonces[item.attester := item.nonce + 1]);
    assert TotalWeight(items, w) == w(item.attester);
    var s1 := s.(nonces := s.nonces[item.attester := item.nonce + 1]);
    var u := Append(s1, item.attester, subject, item.data, w(item.attester));
    assert AppendAll(s1, subject, [], w) == s1;
    assert AppendAll(s1, subject, items, w) == u.(dedup := u.dedup + {ItemKey(item, subject)});
    BatchIsReachable(s, subject, items, w, w(item.attester), {item.attester});
    t := AddAttestationBatch(s, subject, items, w, w(item.attester), {item.attester}).value;
  }

  lemma SingleAdd(s: State, a: Address, subject: Address, data: string, weight: nat) returns (t: State)
    requires Reachable(s) && HasRoom(s, a, subject) && 1 <= weight <= MAX_ATTESTATION_WEIGHT
    requires DedupKey(a, subject, data) !in s.dedup
    ensures AddAttestation(s, a, subject, data, Nonce(s.nonces, a), weight, {a}) == Ok(t) && Reachable(t)
    ensures t.nonces == s.nonces[a := Nonce(s.nonces, a) + 1] && t.attesters == s.attesters && t.dedup == s.dedup
    ensures t.counter == s.counter + 1 && |List(t, subject)| == |List(s, subject)| + 1
    ensures t.table == s.table[s.counter := Attestation(s.counter, a, subject, s.now, weight, data, false)]
  {
    AddIsReachable(s, a, subject, data, Nonce(s.nonces, a), weight, {a});
    t := AddResult(s, a, subject, data, Nonce(s.nonces, a), weight);
  }

  /** Attestation `id` stands for the triple `k`. */
  predicate Holds(s: State, id: nat, k: DedupKey) {
    id in s.table && !s.table[id].revoked && KeyOf(s.table[id]) == k
  }

  lemma SingleThenBatch(s: State, a: Address, subject: Address, data: string, w: Address -> nat)
    returns (t1: State, t2: State)
    requires Reachable(s) && HasRoom(s, a, subject) && 1 <= w(a) <= MAX_ATTESTATION_WEIGHT
    requires DedupKey(a, subject, data) !in s.dedup
    ensures var n := Nonce(s.nonces, a);
      && AddAttestation(s, a, subject, data, n, w(a), {a}) == Ok(t1)
      && AddAttestationBatch(t1, subject, [Item(a, data, n + 1)], w, w(a), {a}) == Ok(t2)
      && Nonce(t2.nonces, a) == n + 2
    ensures Reachable(t2) && a in t2.attesters && t2.counter < U64_MAX && |List(t2, subject)| < HOST_VEC_LIMIT
    ensures Holds(t2, s.counter, DedupKey(a, subject, data)) && Holds(t2, s.counter + 1, DedupKey(a, subject, data))
  {
    t1 := SingleAdd(s, a, subject, data, w(a));
    t2 := OneItemBatch(t1, subject, Item(a, data, Nonce(s.nonces, a) + 1), w);
  }

  /** The index of a subject is not longer after a revocation. */
  lemma RevokeFreesRoom(s: State, subject: Address, id: nat)
    requires Reachable(s) && id in s.table && !s.table[id].revoked && s.table[id].identity == subject
    ensures |Without(List(s, subject), id)| <= |List(s, subject)|
  {
    ReachableInv(s);
    assert SubjectOk(s, subject, Nobody, 0);
    IndexIsIncreasing(s.table, subject, s.counter);
    RemoveOne(List(s, subject), id);
  }

  lemma RevokeHeld(s: State, a: Address, id: nat, subject: Address, data: string) returns (t: State)
    requires Reachable(s) && a in s.attesters && Nonce(s.nonces, a) < U64_MAX
    requires Holds(s, id, DedupKey(a, subject, data))
    ensures RevokeAttestation(s, a, id, Nonce(s.nonces, a), {a}) == Ok(t) && Reachable(t)
    ensures t.table == s.table[id := s.table[id].(revoked := true)] && t.counter == s.counter
    ensures t.attesters == s.attesters && Nonce(t.nonces, a) == Nonce(s.nonces, a) + 1
    ensures t.dedup == s.dedup - {DedupKey(a, subject, data)} && |List(t, subject)| <= |List(s, subject)|
  {
    RevokeIsReachable(s, a, id, Nonce(s.nonces, a), {a});
    RevokeFreesRoom(s, subject, id);
    t := RevokeAttestation(s, a, id, Nonce(s.nonces, a), {a}).value;
  }

  lemma RevokeThenAdd(s: State, a: Address, id: nat, subject: Address, data: string, weight: nat) returns (t: State)
    requires Reachable(s) && a in s.attesters && 1 <= weight <= MAX_ATTESTATION_WEIGHT
    requires Nonce(s.nonces, a) + 2 <= U64_MAX && s.counter < U64_MAX && |List(s, subject)| < HOST_VEC_LIMIT
    requires Holds(s, id, DedupKey(a, subject, data))
    ensures RevokeAttestation(s, a, id, Nonce(s.nonces, a), {a}) == Ok(t)
    ensures t.table == s.table[id := s.table[id].(revoked := true)] && DedupKey(a, subject, data) !in t.dedup
    ensures AddAttestation(t, a, subject, data, Nonce(s.nonces, a) + 1, weight, {a}).Ok?
  {
    t := RevokeHeld(s, a, id, subject, data);
    AddIsReachable(t, a, subject, data, Nonce(s.nonces, a) + 1, weight, {a});
  }

  /** Attest a triple singly, attest it in a batch, revoke the first: the duplicate key is gone
      although the batch's attestation stands, and the triple is accepted a third time. */
  lemma RevocationFreesOtherKey(s: State, a: Address, subject: Address, data: string, w: Address -> nat)
    returns (t1: State, t2: State, t3: State)
    requires Reachable(s) && HasRoom(s, a, subject) && 1 <= w(a) <= MAX_ATTESTATION_WEIGHT
    requires DedupKey(a, subject, data) !in s.dedup
    ensures var n := Nonce(s.nonces, a);
      && AddAttestation(s, a, subject, data, n, w(a), {a}) == Ok(t1)
      && AddAttestationBatch(t1, subject, [Item(a, data, n + 1)], w, w(a), {a}) == Ok(t2)
      && RevokeAttestation(t2, a, s.counter, n + 2, {a}) == Ok(t3)
      && AddAttestation(t3, a, subject, data, n + 3, w(a), {a}).Ok?
    ensures Holds(t3, s.counter + 1, DedupKey(a, subject, data)) && DedupKey(a, subject, data) !in t3.dedup
  {
    var n := Nonce(s.nonces, a);
    t1, t2 := SingleThenBatch(s, a, subject, data, w);
    t3 := RevokeThenAdd(t2, a, s.counter, subject, data, w(a));
  }
}
