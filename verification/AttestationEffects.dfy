/** Who may attest and revoke, what each call does to the attestations, and what that means for whole
    runs. */
module AttestationEffects {
  import opened Host
  import opened Lists
  import opened Attestations
  import opened AttestationTheorems

  /** `who` signed the call, and the nonce is its next. */
  predicate MayAct(s: State, who: Address, nonce: nat, auth: set<Address>) {
    who in auth && nonce == (if who in s.nonces then s.nonces[who] else 0) && nonce < U64_MAX
  }

  /** Lists and counts of other subjects, registrations, the bond and the clock are as they were. */
  ghost predicate OtherSubjectsStay(s: State, t: State, subject: Address) {
    && t.now == s.now && t.attesters == s.attesters && t.bond == s.bond
    && forall x :: x != subject ==> List(t, x) == List(s, x) && SubjectCount(t, x) == SubjectCount(s, x)
  }

  // ----- Attesting -----

  /** A single attestation succeeds exactly if its registered attester signed it with its next nonce,
      its duplicate key is free, its weight is from one to a million, and there is room. */
  lemma AddSucceedsIff(s: State, a: Address, subject: Address, data: string, n: nat, w: nat, auth: set<Address>)
    requires Reachable(s)
    ensures AddAttestation(s, a, subject, data, n, w, auth).Ok? <==>
      && MayAct(s, a, n, auth) && a in s.attesters && DedupKey(a, subject, data) !in s.dedup
      && 1 <= w <= 1_000_000 && s.counter < U64_MAX && |List(s, subject)| < HOST_VEC_LIMIT
  {
    AddIsReachable(s, a, subject, data, n, w, auth);
  }

  lemma AppendedOne(s: State, a: Address, subject: Address, data: string, n: nat, w: nat)
    requires SubjectCount(s, subject) == |List(s, subject)| < HOST_VEC_LIMIT
    ensures var t := AddResult(s, a, subject, data, n, w);
      && t.counter == s.counter + 1 && t.nonces == s.nonces[a := n + 1] && t.dedup == s.dedup
      && t.table == s.table[s.counter := Attestation(s.counter, a, subject, s.now, w, data, false)]
      && List(t, subject) == List(s, subject) + [s.counter] && SubjectCount(t, subject) == |List(s, subject)| + 1
      && OtherSubjectsStay(s, t, subject)
  {
  }

  /** It is stored as given under the next id, unrevoked, and listed last for its subject; its
      attester's nonce is spent; no other record, list, count or nonce changes. */
  lemma AddTakesEffect(s: State, a: Address, subject: Address, data: string, n: nat, w: nat, auth: set<Address>,
                       t: State)
    requires Reachable(s) && AddAttestation(s, a, subject, data, n, w, auth) == Ok(t)
    ensures t.counter == s.counter + 1 && t.nonces == s.nonces[a := n + 1] && t.dedup == s.dedup
    ensures t.table == s.table[s.counter := Attestation(s.counter, a, subject, s.now, w, data, false)]
    ensures List(t, subject) == List(s, subject) + [s.counter] && SubjectCount(t, subject) == |List(s, subject)| + 1
    ensures s.counter !in s.table && OtherSubjectsStay(s, t, subject)
  {
    ReachableInv(s);
    AddIsReachable(s, a, subject, data, n, w, auth);
    IndexAgrees(s, subject, 0, Tick(s.now));
    AppendedOne(s, a, subject, data, n, w);
  }

  // ----- Revoking -----

  /** A revocation succeeds exactly if the verifier of an unrevoked record signed it with its next
      nonce. */
  lemma RevokeSucceedsIff(s: State, a: Address, id: nat, n: nat, auth: set<Address>)
    requires Reachable(s)
    ensures RevokeAttestation(s, a, id, n, auth).Ok? <==>
      MayAct(s, a, n, auth) && id in s.table && s.table[id].verifier == a && !s.table[id].revoked
  {
    RevokeIsReachable(s, a, id, n, auth);
  }

  lemma RevokedOne(s: State, a: Address, id: nat, n: nat)
    requires id in s.table
    ensures var t, x := Revoked(s.(nonces := s.nonces[a := n + 1]), id), s.table[id].identity;
      && t.table == s.table[id := s.table[id].(revoked := true)] && t.counter == s.counter
      && t.nonces == s.nonces[a := n + 1] && t.dedup == s.dedup - {KeyOf(s.table[id])}
      && List(t, x) == Without(List(s, x), id) && SubjectCount(t, x) == Max(SubjectCount(s, x) - 1, 0)
      && OtherSubjectsStay(s, t, x)
  {
  }

  lemma ListedOnce(s: State, id: nat)
    requires Reachable(s) && id in s.table && !s.table[id].revoked
    ensures var x := s.table[id].identity;
      && |Without(List(s, x), id)| == |List(s, x)| - 1 && SubjectCount(s, x) == |List(s, x)|
      && (forall j :: j in Without(List(s, x), id) <==> j in List(s, x) && j != id)
  {
    var x := s.table[id].identity;
    IndexAgrees(s, x, id, Tick(s.now));
    WithoutList(List(s, x), id);
  }

  /** It marks that record and takes it off its subject's list and count; it spends the verifier's
      nonce and frees the duplicate key of the triple; no other record, list, count or nonce changes. */
  lemma RevokeTakesEffect(s: State, a: Address, id: nat, n: nat, auth: set<Address>, t: State)
    requires Reachable(s) && RevokeAttestation(s, a, id, n, auth) == Ok(t)
    ensures id in s.table && t.table == s.table[id := s.table[id].(revoked := true)] && t.counter == s.counter
    ensures t.nonces == s.nonces[a := n + 1] && t.dedup == s.dedup - {KeyOf(s.table[id])}
    ensures var x := s.table[id].identity;
      && (forall j :: j in List(t, x) <==> j in List(s, x) && j != id)
      && |List(t, x)| == SubjectCount(t, x) == |List(s, x)| - 1 && OtherSubjectsStay(s, t, x)
  {
    RevokeSucceedsIff(s, a, id, n, auth);
    RevokeIsReachable(s, a, id, n, auth);
    RevokedOne(s, a, id, n);
    ListedOnce(s, id);
  }

  // ----- Batches -----

  /** Every item is signed by its registered attester, who gave its next nonce. */
  ghost predicate ItemsMayAct(s: State, items: seq<Item>, auth: set<Address>) {
    forall i :: 0 <= i < |items| ==>
      items[i].attester in s.attesters && MayAct(s, items[i].attester, items[i].nonce, auth)
  }

  lemma {:induction false} ConsumedIff(s: State, items: seq<Item>, auth: set<Address>)
    requires DistinctAttesters(items)
    ensures ConsumeAll(s, items, auth).Ok? <==> ItemsMayAct(s, items, auth)
    ensures ConsumeAll(s, items, auth).Ok? ==>
      var ns := ConsumeAll(s, items, auth).value;
      && (forall i :: 0 <= i < |items| ==> items[i].attester in ns && ns[items[i].attester] == items[i].nonce + 1)
      && (forall a :: (forall i :: 0 <= i < |items| ==> items[i].attester != a) ==> Nonce(ns, a) == Nonce(s.nonces, a))
  {
    if items != [] {
      var front, item := items[..|items| - 1], items[|items| - 1];
      ConsumedIff(s, front, auth);
      forall i | 0 <= i < |front| ensures front[i].attester != item.attester {
        assert front[i] == items[i];
      }
      if ItemsMayAct(s, items, auth) {
        forall i | 0 <= i < |front|
          ensures front[i].attester in s.attesters && MayAct(s, front[i].attester, front[i].nonce, auth)
        {
          assert front[i] == items[i];
        }
      } else if ItemsMayAct(s, front, auth) {
        assert forall i :: 0 <= i < |front| ==> front[i] == items[i];
      }
    }
  }

  /** A batch succeeds exactly if it has one to 64 items of different attesters who all may act, no
      duplicate key is taken, each weight is from one to a million and all together within the limit,
      and there is room for all. */
  lemma BatchSucceedsIff(s: State, subject: Address, items: seq<Item>, w: Address -> nat, max: nat, auth: set<Address>)
    requires Reachable(s)
    ensures AddAttestationBatch(s, subject, items, w, max, auth).Ok? <==>
      && 1 <= |items| <= 64 && DistinctAttesters(items) && ItemsMayAct(s, items, auth)
      && (forall i :: 0 <= i < |items| ==>
            DedupKey(items[i].attester, subject, items[i].data) !in s.dedup && 1 <= w(items[i].attester) <= 1_000_000)
      && TotalWeight(items, w) <= max
      && s.counter + |items| <= U64_MAX && |List(s, subject)| + |items| <= HOST_VEC_LIMIT
  {
    BatchIsReachable(s, subject, items, w, max, auth);
    if DistinctAttesters(items) { ConsumedIff(s, items, auth); }
    assert forall i :: 0 <= i < |items| ==>
      ItemKey(items[i], subject) == DedupKey(items[i].attester, subject, items[i].data);
  }

  /** The record of item `i`. */
  function RecordOf(s: State, subject: Address, item: Item, w: Address -> nat, i: nat): Attestation {
    Attestation(s.counter + i, item.attester, subject, s.now, w(item.attester), item.data, false)
  }

  /** The ids from `from` on. */
  function Ids(from: nat, n: nat): seq<nat> {
    seq(n, i => from + i)
  }

  predicate StoredAt(s: State, t: State, subject: Address, item: Item, w: Address -> nat, i: nat) {
    s.counter + i in t.table && t.table[s.counter + i] == RecordOf(s, subject, item, w, i)
  }

  /** The items are stored as given under the next ids, in order, and listed last for their subject. */
  ghost predicate Stores(s: State, t: State, subject: Address, items: seq<Item>, w: Address -> nat) {
    && t.counter == s.counter + |items|
    && (forall id :: id in t.table <==> id in s.table || s.counter <= id < s.counter + |items|)
    && (forall id :: id in s.table ==> id in t.table && t.table[id] == s.table[id])
    && (forall i :: 0 <= i < |items| ==> StoredAt(s, t, subject, items[i], w, i))
    && List(t, subject) == List(s, subject) + Ids(s.counter, |items|)
  }

  lemma StoresOneMore(s: State, u: State, t: State, subject: Address, front: seq<Item>, item: Item, w: Address -> nat)
    requires Stores(s, u, subject, front, w) && u.now == s.now
    requires forall id :: id in s.table ==> id < s.counter
    requires t.counter == u.counter + 1 && List(t, subject) == List(u, subject) + [u.counter]
    requires t.table == u.table[u.counter := RecordOf(u, subject, item, w, 0)]
    ensures Stores(s, t, subject, front + [item], w)
  {
    var items, n := front + [item], |front|;
    assert Ids(s.counter, n) + [s.counter + n] == Ids(s.counter, n + 1);
    forall i | 0 <= i < |items| ensures StoredAt(s, t, subject, items[i], w, i) {
      if i < n { assert StoredAt(s, u, subject, front[i], w, i); }
    }
  }

  lemma AppendStoresOneMore(s: State, u: State, t: State, subject: Address, front: seq<Item>, item: Item,
                            w: Address -> nat)
    requires Stores(s, u, subject, front, w) && u.now == s.now
    requires forall id :: id in s.table ==> id < s.counter
    requires t == Append(u, item.attester, subject, item.data, w(item.attester)).(dedup := t.dedup)
    ensures Stores(s, t, subject, front + [item], w)
  {
    assert t.table == u.table[u.counter := RecordOf(u, subject, item, w, 0)];
    assert List(t, subject) == List(u, subject) + [u.counter];
    StoresOneMore(s, u, t, subject, front, item, w);
  }

  lemma {:induction false} AppendedAll(s: State, subject: Address, items: seq<Item>, w: Address -> nat)
    requires forall id :: id in s.table ==> id < s.counter
    ensures Stores(s, AppendAll(s, subject, items, w), subject, items, w)
  {
    if items == [] {
      assert Ids(s.counter, 0) == [];
    } else {
      var front, item := items[..|items| - 1], items[|items| - 1];
      var u := AppendAll(s, subject, front, w);
      AppendedAll(s, subject, front, w);
      assert u.now == s.now by { AppendAllShape(s, subject, front, w); }
      AppendStoresOneMore(s, u, AppendAll(s, subject, items, w), subject, front, item, w);
      assert items == front + [item];
    }
  }

  lemma {:induction false} AppendsHere(s: State, subject: Address, items: seq<Item>, w: Address -> nat)
    ensures OtherSubjectsStay(s, AppendAll(s, subject, items, w), subject)
  {
    if items != [] { AppendsHere(s, subject, items[..|items| - 1], w); }
  }

  lemma IdsBelowCounter(s: State)
    requires Reachable(s)
    ensures forall id :: id in s.table ==> id < s.counter
    ensures forall x :: SubjectCount(s, x) == |List(s, x)|
  {
    ReachableInv(s);
    forall x ensures SubjectCount(s, x) == |List(s, x)| { IndexAgrees(s, x, 0, Tick(s.now)); }
  }

  lemma BatchIs(s: State, subject: Address, items: seq<Item>, w: Address -> nat, max: nat, auth: set<Address>, t: State)
    requires AddAttestationBatch(s, subject, items, w, max, auth) == Ok(t)
    ensures ConsumeAll(s, items, auth).Ok? && |List(s, subject)| + |items| <= HOST_VEC_LIMIT && DistinctAttesters(items)
    ensures t == Counted(AppendAll(s.(nonces := ConsumeAll(s, items, auth).value), subject, items, w), subject, |items|)
  {
  }

  /** The nonces of the attesters move on by one, and no others. */
  ghost predicate Spends(before: map<Address, nat>, after: map<Address, nat>, items: seq<Item>) {
    && (forall i :: 0 <= i < |items| ==> Nonce(after, items[i].attester) == items[i].nonce + 1)
    && (forall a :: (forall i :: 0 <= i < |items| ==> items[i].attester != a) ==> Nonce(after, a) == Nonce(before, a))
  }

  lemma CountedStays(s: State, subject: Address, n: nat)
    requires SubjectCount(s, subject) + n <= U32_MAX
    ensures var t := Counted(s, subject, n);
      && t == s.(counts := t.counts) && SubjectCount(t, subject) == SubjectCount(s, subject) + n
      && forall x :: x != subject ==> SubjectCount(t, x) == SubjectCount(s, x)
  {
  }

  lemma StoresAlike(s: State, u: State, t: State, subject: Address, items: seq<Item>, w: Address -> nat)
    requires Stores(s, u, subject, items, w) && t.table == u.table && t.counter == u.counter && t.lists == u.lists
    ensures Stores(s, t, subject, items, w)
  {
    forall i | 0 <= i < |items| ensures StoredAt(s, t, subject, items[i], w, i) {
      assert StoredAt(s, u, subject, items[i], w, i);
    }
  }

  /** Beside what was appended there is but the count and the nonces. */
  ghost predicate CountsAppended(s: State, v: State, t: State, nonces: map<Address, nat>, subject: Address) {
    && t == v.(nonces := nonces, counts := t.counts)
    && t.now == s.now && t.attesters == s.attesters && t.bond == s.bond
    && SubjectCount(t, subject) == |List(t, subject)|
    && forall x :: x != subject ==> SubjectCount(t, x) == SubjectCount(s, x)
  }

  lemma AppendsAndCounts(s: State, nonces: map<Address, nat>, subject: Address, items: seq<Item>, w: Address -> nat)
    requires SubjectCount(s, subject) == |List(s, subject)| && |List(s, subject)| + |items| <= HOST_VEC_LIMIT
    ensures var t := Counted(AppendAll(s.(nonces := nonces), subject, items, w), subject, |items|);
      CountsAppended(s, AppendAll(s, subject, items, w), t, nonces, subject)
  {
    AppendAllFrame(s, nonces, subject, items, w);
    AppendAllShape(s, subject, items, w);
    CountedStays(AppendAll(s, subject, items, w).(nonces := nonces), subject, |items|);
  }

  lemma StoresAndCounts(s: State, nonces: map<Address, nat>, subject: Address, items: seq<Item>, w: Address -> nat)
    requires (forall id :: id in s.table ==> id < s.counter) && |List(s, subject)| + |items| <= HOST_VEC_LIMIT
    requires SubjectCount(s, subject) == |List(s, subject)|
    ensures var t := Counted(AppendAll(s.(nonces := nonces), subject, items, w), subject, |items|);
      && Stores(s, t, subject, items, w) && SubjectCount(t, subject) == |List(t, subject)|
      && OtherSubjectsStay(s, t, subject) && t.nonces == nonces
  {
    var v := AppendAll(s, subject, items, w);
    var t := Counted(AppendAll(s.(nonces := nonces), subject, items, w), subject, |items|);
    AppendsAndCounts(s, nonces, subject, items, w);
    assert Stores(s, t, subject, items, w) by {
      AppendedAll(s, subject, items, w);
      StoresAlike(s, v, t, subject, items, w);
    }
    assert OtherSubjectsStay(s, t, subject) by { AppendsHere(s, subject, items, w); }
  }

  /** The nonce of each attester is spent, and no other record, list, count or nonce changes. */
  lemma BatchTakesEffect(s: State, subject: Address, items: seq<Item>, w: Address -> nat, max: nat, auth: set<Address>,
                         t: State)
    requires Reachable(s) && AddAttestationBatch(s, subject, items, w, max, auth) == Ok(t)
    ensures Stores(s, t, subject, items, w) && SubjectCount(t, subject) == |List(t, subject)|
    ensures OtherSubjectsStay(s, t, subject) && Spends(s.nonces, t.nonces, items)
  {
    BatchIs(s, subject, items, w, max, auth, t);
    IdsBelowCounter(s);
    ConsumedIff(s, items, auth);
    StoresAndCounts(s, ConsumeAll(s, items, auth).value, subject, items, w);
  }

  // ----- Over whole runs -----

  predicate AttestsItem(s: State, c: Call, r: Attestation, i: nat)
    requires c.Batch?
  {
    i < |c.items| && c.items[i].attester in c.auth && r == RecordOf(s, c.subject, c.items[i], c.weightOf, i)
  }

  /** The call stores this record, and its verifier signed the call. */
  ghost predicate Attests(s: State, c: Call, r: Attestation) {
    || (c.Add? && c.attester in c.auth
        && r == Attestation(s.counter, c.attester, c.subject, s.now, c.weight, c.data, false))
    || (c.Batch? && exists i: nat :: AttestsItem(s, c, r, i))
  }

  /** The call revokes this record, and its verifier signed the call. */
  predicate Revokes(c: Call, r: Attestation) {
    c.Revoke? && c.id == r.id && c.attester == r.verifier && r.verifier in c.auth
  }

  predicate RevokesHere(c: Call, before: Attestation, after: Attestation) {
    after == before.(revoked := true) && Revokes(c, before)
  }

  lemma NewlyStored(s: State, t: State, subject: Address, items: seq<Item>, w: Address -> nat, id: nat)
    requires Stores(s, t, subject, items, w) && id in t.table && id !in s.table
    ensures 0 <= id - s.counter < |items|
    ensures t.table[id] == RecordOf(s, subject, items[id - s.counter], w, id - s.counter)
  {
    assert StoredAt(s, t, subject, items[id - s.counter], w, id - s.counter);
  }

  lemma ItemsAreSigned(s: State, subject: Address, items: seq<Item>, w: Address -> nat, max: nat, auth: set<Address>)
    requires Reachable(s) && AddAttestationBatch(s, subject, items, w, max, auth).Ok?
    ensures forall i :: 0 <= i < |items| ==> items[i].attester in auth
  {
    BatchSucceedsIff(s, subject, items, w, max, auth);
    forall i | 0 <= i < |items| ensures items[i].attester in auth {
      assert MayAct(s, items[i].attester, items[i].nonce, auth);
    }
  }

  lemma BatchStepRecords(s: State, subject: Address, items: seq<Item>, w: Address -> nat, max: nat, auth: set<Address>,
                         t: State, id: nat)
    requires Reachable(s) && AddAttestationBatch(s, subject, items, w, max, auth) == Ok(t)
    ensures id in s.table ==> id in t.table && t.table[id] == s.table[id]
    ensures id in t.table && id !in s.table ==> Attests(s, Batch(subject, items, w, max, auth), t.table[id])
  {
    BatchTakesEffect(s, subject, items, w, max, auth, t);
    ItemsAreSigned(s, subject, items, w, max, auth);
    if id in t.table && id !in s.table {
      NewlyStored(s, t, subject, items, w, id);
      assert AttestsItem(s, Batch(subject, items, w, max, auth), t.table[id], id - s.counter);
    }
  }

  lemma StepRecords(s: State, c: Call, id: nat)
    requires Reachable(s) && Apply(s, c).Ok?
    ensures var t := Apply(s, c).value;
      && (id in s.table ==> id in t.table && (t.table[id] == s.table[id] || RevokesHere(c, s.table[id], t.table[id])))
      && (id in t.table && id !in s.table ==> Attests(s, c, t.table[id]))
  {
    match c
    case Add(a, subject, data, n, w, auth) =>
      AddSucceedsIff(s, a, subject, data, n, w, auth);
      AddTakesEffect(s, a, subject, data, n, w, auth, Apply(s, c).value);
    case Batch(subject, items, w, max, auth) =>
      BatchStepRecords(s, subject, items, w, max, auth, Apply(s, c).value, id);
    case Revoke(a, i, n, auth) =>
      RevokeSucceedsIff(s, a, i, n, auth);
      RevokeTakesEffect(s, a, i, n, auth, Apply(s, c).value);
      ReachableInv(s);
    case _ =>
  }

  /** Call `i` of the run succeeded and stored this record. */
  ghost predicate AttestedBy(calls: seq<Call>, i: nat, r: Attestation) {
    && i < |calls|
    && var s := Run(Initial, calls[..i]);
    Apply(s, calls[i]).Ok? && Attests(s, calls[i], r)
  }

  /** Call `i` of the run succeeded and revoked this record. */
  ghost predicate RevokedBy(calls: seq<Call>, i: nat, r: Attestation) {
    i < |calls| && Revokes(calls[i], r) && Apply(Run(Initial, calls[..i]), calls[i]).Ok?
  }

  /** On every run each record is what a call stored that its verifier signed, and it stays unrevoked
      until a call that its verifier signed. */
  lemma {:induction false} RecordsGoBackToVerifiers(calls: seq<Call>, id: nat)
    ensures var t := Run(Initial, calls);
      id in t.table ==>
        && (exists i: nat :: AttestedBy(calls, i, t.table[id].(revoked := false)))
        && (t.table[id].revoked ==> exists i: nat :: RevokedBy(calls, i, t.table[id]))
  {
    if calls != [] {
      var k := |calls| - 1;
      var front, c := calls[..k], calls[k];
      var s, t := Run(Initial, front), Run(Initial, calls);
      assert Reachable(s);
      RecordsGoBackToVerifiers(front, id);
      if Apply(s, c).Ok? { StepRecords(s, c, id); }
      if id in s.table {
        var r := s.table[id].(revoked := false);
        var i: nat :| AttestedBy(front, i, r);
        assert front[..i] == calls[..i] && AttestedBy(calls, i, r);
        if s.table[id].revoked {
          var j: nat :| RevokedBy(front, j, s.table[id]);
          assert front[..j] == calls[..j] && RevokedBy(calls, j, s.table[id]);
        } else if t.table[id].revoked {
          assert RevokedBy(calls, k, t.table[id]);
        }
      } else if id in t.table {
        assert AttestedBy(calls, k, t.table[id]);
      }
    }
  }
}
