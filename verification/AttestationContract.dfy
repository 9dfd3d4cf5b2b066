/** The attestation entry points as the contract runs them. */
module AttestationContract {
  import opened Host
  import opened Lists
  import opened Attestations
  import T = AttestationTheorems

  /** Are the attesters of a batch pairwise different? */
  method CheckDistinct(items: seq<Item>) returns (ok: bool)
    ensures ok <==> DistinctAttesters(items)
  {
    for i := 0 to |items|
      invariant forall a, b :: 0 <= a < i && a < b < |items| ==> items[a].attester != items[b].attester
    {
      for j := i + 1 to |items|
        invariant forall b :: i < b < j ==> items[i].attester != items[b].attester
      {
        if items[i].attester == items[j].attester {
          return false;
        }
      }
    }
    return true;
  }

  /** A batch fails with the first item that fails. */
  lemma {:induction false} FailsOn(s: State, items: seq<Item>, i: nat, auth: set<Address>)
    requires i <= |items| && ConsumeAll(s, items[..i], auth).Err?
    ensures ConsumeAll(s, items, auth) == ConsumeAll(s, items[..i], auth)
  {
    if i < |items| {
      var front := items[..|items| - 1];
      assert front[..i] == items[..i];
      FailsOn(s, front, i, auth);
    } else {
      assert items[..i] == items;
    }
  }

  /** Authorization, registration and nonce of each item. */
  method ConsumeBatch(ghost s: State, items: seq<Item>, attesters: set<Address>, nonces0: map<Address, nat>,
                      auth: set<Address>)
    returns (r: Result<map<Address, nat>, AttestationError>)
    requires s.attesters == attesters && s.nonces == nonces0
    ensures r == ConsumeAll(s, items, auth)
  {
    var nonces := nonces0;
    assert items[..0] == [];
    for i := 0 to |items|
      invariant ConsumeAll(s, items[..i], auth) == Ok(nonces)
    {
      var item := items[i];
      assert items[..i + 1][..i] == items[..i];
      if item.attester !in auth {
        FailsOn(s, items, i + 1, auth);
        return Err(Unauthorized);
      }
      if item.attester !in attesters {
        FailsOn(s, items, i + 1, auth);
        return Err(UnauthorizedAttester);
      }
      var next := ConsumeNonce(nonces, item.attester, item.nonce);
      if next.Err? {
        FailsOn(s, items, i + 1, auth);
        return next;
      }
      nonces := next.value;
    }
    assert items[..|items|] == items;
    return Ok(nonces);
  }

  /** Duplicate keys, weights and their sum. */
  method CheckBatch(items: seq<Item>, subject: Address, dedup: set<DedupKey>, weightOf: Address -> nat)
    returns (duplicate: bool, badWeight: bool, total: nat)
    ensures duplicate <==> exists i :: 0 <= i < |items| && ItemKey(items[i], subject) in dedup
    ensures badWeight <==> exists i :: 0 <= i < |items| && !(1 <= weightOf(items[i].attester) <= MAX_ATTESTATION_WEIGHT)
    ensures total == TotalWeight(items, weightOf)
  {
    duplicate, badWeight, total := false, false, 0;
    for i := 0 to |items|
      invariant duplicate <==> exists k :: 0 <= k < i && ItemKey(items[k], subject) in dedup
    {
      duplicate := duplicate || ItemKey(items[i], subject) in dedup;
    }
    for i := 0 to |items|
      invariant badWeight <==> exists k :: 0 <= k < i && !(1 <= weightOf(items[k].attester) <= MAX_ATTESTATION_WEIGHT)
      invariant total == TotalWeight(items[..i], weightOf)
    {
      assert items[..i + 1][..i] == items[..i];
      var weight := weightOf(items[i].attester);
      badWeight := badWeight || weight == 0 || weight > MAX_ATTESTATION_WEIGHT;
      total := total + weight;
    }
    assert items[..|items|] == items;
  }

  /** `t` is `s` after `n` items, with the four values the write loop carries. */
  ghost predicate Wrote(s: State, t: State, subject: Address, n: nat,
                        nextId: nat, table: map<nat, Attestation>, dedup: set<DedupKey>, list: seq<nat>) {
    && t.counter == nextId && t.now == s.now && t.table == table && t.dedup == dedup && List(t, subject) == list
    && (n == 0 ==> t == s)
    && (n > 0 ==> t == s.(counter := nextId, table := table, dedup := dedup, lists := s.lists[subject := list]))
  }

  lemma WroteOne(s: State, t: State, subject: Address, i: nat, nextId: nat, table: map<nat, Attestation>,
                 dedup: set<DedupKey>, list: seq<nat>, item: Item, w: nat)
    requires Wrote(s, t, subject, i, nextId, table, dedup, list)
    ensures var u := Append(t, item.attester, subject, item.data, w);
      Wrote(s, u.(dedup := u.dedup + {ItemKey(item, subject)}), subject, i + 1, nextId + 1,
            table[nextId := Attestation(nextId, item.attester, subject, s.now, w, item.data, false)],
            dedup + {ItemKey(item, subject)}, list + [nextId])
  {
    assert s.lists[subject := list][subject := list + [nextId]] == s.lists[subject := list + [nextId]];
  }

  lemma WroteNext(s: State, items: seq<Item>, i: nat, subject: Address, weightOf: Address -> nat,
                  nextId: nat, table: map<nat, Attestation>, dedup: set<DedupKey>, list: seq<nat>)
    requires i < |items|
    requires Wrote(s, AppendAll(s, subject, items[..i], weightOf), subject, i, nextId, table, dedup, list)
    ensures Wrote(s, AppendAll(s, subject, items[..i + 1], weightOf), subject, i + 1, nextId + 1,
                  table[nextId := Attestation(nextId, items[i].attester, subject, s.now,
                                              weightOf(items[i].attester), items[i].data, false)],
                  dedup + {ItemKey(items[i], subject)}, list + [nextId])
  {
    assert items[..i + 1][..i] == items[..i];
    WroteOne(s, AppendAll(s, subject, items[..i], weightOf), subject, i, nextId, table, dedup, list,
             items[i], weightOf(items[i].attester));
  }

  /** The write loop of a batch: records, ids and duplicate keys. */
  method WriteItems(ghost s: State, subject: Address, items: seq<Item>, weightOf: Address -> nat,
                    counter: nat, now: nat, table0: map<nat, Attestation>, dedup0: set<DedupKey>, list0: seq<nat>)
    returns (nextId: nat, table: map<nat, Attestation>, dedup: set<DedupKey>, list: seq<nat>, added: seq<Attestation>)
    requires s.counter == counter && s.now == now && s.table == table0 && s.dedup == dedup0 && List(s, subject) == list0
    ensures Wrote(s, AppendAll(s, subject, items, weightOf), subject, |items|, nextId, table, dedup, list)
    ensures added == BatchRecords(s, subject, items, weightOf)
  {
    nextId, table, dedup, list, added := counter, table0, dedup0, list0, [];
    assert items[..0] == [];
    for i := 0 to |items|
      invariant Wrote(s, AppendAll(s, subject, items[..i], weightOf), subject, i, nextId, table, dedup, list)
      invariant nextId == counter + i && added == BatchRecords(s, subject, items, weightOf)[..i]
    {
      var item := items[i];
      WroteNext(s, items, i, subject, weightOf, nextId, table, dedup, list);
      var record := Attestation(nextId, item.attester, subject, now, weightOf(item.attester), item.data, false);
      table := table[nextId := record];
      added := added + [record];
      dedup := dedup + {ItemKey(item, subject)};
      list := list + [nextId];
      nextId := nextId + 1;
    }
    assert items[..|items|] == items;
  }

  class AttestationStore {
    var now: nat
    var attesters: set<Address>
    var counter: nat
    var table: map<nat, Attestation>
    var lists: map<Address, seq<nat>>
    var counts: map<Address, nat>
    var nonces: map<Address, nat>
    var dedup: set<DedupKey>
    var bond: Option<Bond>

    ghost function Model(): State
      reads this
    {
      State(now, attesters, counter, table, lists, counts, nonces, dedup, bond)
    }

    ghost predicate Valid()
      reads this
    {
      T.Reachable(Model())
    }

    constructor ()
      ensures Model() == Initial && Valid()
    {
      now, attesters, counter, table, lists, counts := 0, {}, 0, map[], map[], map[];
      nonces, dedup, bond := map[], {}, None;
      new;
      assert T.Run(Initial, []) == Model();
    }

    /** Time and attester registration are set elsewhere. */
    method SetEnvironment(t: nat, registered: set<Address>)
      requires Valid()
      modifies this
      ensures Valid() && Model() == old(Model()).(now := t, attesters := registered)
    {
      T.ReachableStep(Model(), T.Tick(t));
      now := t;
      T.ReachableStep(Model(), T.SetAttesters(registered));
      attesters := registered;
    }

    /** A bond write of another operation, up to its guard. The guard refuses exactly the bonds
        that are slashed by more than they hold; the host then undoes the write. */
    method StoreBond(b: Bond) returns (ok: bool)
      requires Valid()
      modifies this
      ensures Valid()
      ensures ok <==> WithinBonded(b)
      ensures Model() == if ok then old(Model()).(bond := Some(b)) else old(Model())
    {
      T.ReachableStep(Model(), T.SetBond(Some(b)));
      T.IndexAgrees(Model(), b.identity, 0, T.SetBond(Some(b)));
      var stored := bond;
      bond := Some(b);
      ok := BondSelfConsistent();
      if !ok {
        bond := stored;
      }
    }

    /** check_attestation_count_consistent. On a valid store it finds no drift. */
    method CountsAgree(subject: Address) returns (ok: bool)
      ensures ok <==> Consistent(Model(), subject)
      ensures Valid() ==> ok
    {
      if Valid() {
        T.IndexAgrees(Model(), subject, 0, T.Tick(now));
      }
      var listLen := if subject in lists then |lists[subject]| else 0;
      ok := subject in counts ==> listLen == counts[subject];
    }

    /** assert_self_consistent. */
    method BondSelfConsistent() returns (ok: bool)
      ensures ok <==> BondConsistent(Model())
      ensures Valid() ==> ok
    {
      if Valid() {
        T.IndexAgrees(Model(), Address(0), 0, T.Tick(now));
      }
      ok := true;
      if bond.Some? {
        var agree := CountsAgree(bond.value.identity);
        ok := 0 <= bond.value.slashed <= bond.value.bonded && agree;
      }
    }

    /** The guard after a write. It passes on every valid store, for every subject. */
    method AssertSelfConsistent(subject: Address) returns (ok: bool)
      ensures ok <==> DriftGuard(Model(), subject)
      ensures Valid() ==> ok
    {
      var bondOk := BondSelfConsistent();
      ok := CountsAgree(subject);
      ok := ok && bondOk;
    }

    method AddAttestation(attester: Address, subject: Address, data: string, nonce: nat, weight: nat,
                          auth: set<Address>)
      returns (r: Result<Attestation, AttestationError>)
      requires Valid()
      modifies this
      ensures Valid()
      ensures var o := Attestations.AddAttestation(old(Model()), attester, subject, data, nonce, weight, auth);
        && Model() == StateAfter(old(Model()), o)
        && r == (if o.Ok? then Ok(Attestation(old(counter), attester, subject, now, weight, data, false))
            else Err(o.error))
    {
      ghost var s := Model();
      T.AddIsReachable(s, attester, subject, data, nonce, weight, auth);
      var next := ConsumeNonce(nonces, attester, nonce);
      if attester !in auth {
        r := Err(Unauthorized);
      } else if attester !in attesters {
        r := Err(UnauthorizedAttester);
      } else if next.Err? {
        r := Err(next.error);
      } else if DedupKey(attester, subject, data) in dedup {
        r := Err(DuplicateAttestation);
      } else if counter >= U64_MAX {
        r := Err(AttestationError.Overflow);
      } else if weight == 0 || weight > MAX_ATTESTATION_WEIGHT {
        r := Err(InvalidWeight);
      } else if subject in lists && |lists[subject]| >= HOST_VEC_LIMIT {
        r := Err(HostLimit);
      } else {
        var id := counter;
        var a := Attestation(id, attester, subject, now, weight, data, false);
        nonces := next.value;
        counter := id + 1;
        table := table[id := a];
        lists := lists[subject := (if subject in lists then lists[subject] else []) + [id]];
        counts := counts[subject := SaturatingAddU32(if subject in counts then counts[subject] else 0, 1)];
        assert Model() == AddResult(s, attester, subject, data, nonce, weight);
        var ok := AssertSelfConsistent(subject);
        assert ok;  // the drift guard does not fire
        r := Ok(a);
      }
    }

    method RevokeAttestation(attester: Address, id: nat, nonce: nat, auth: set<Address>)
      returns (r: Result<(), AttestationError>)
      requires Valid()
      modifies this
      ensures Valid()
      ensures var o := Attestations.RevokeAttestation(old(Model()), attester, id, nonce, auth);
        && Model() == StateAfter(old(Model()), o)
        && r == (if o.Ok? then Ok(()) else Err(o.error))
    {
      ghost var s := Model();
      T.RevokeIsReachable(s, attester, id, nonce, auth);
      var next := ConsumeNonce(nonces, attester, nonce);
      if attester !in auth {
        r := Err(Unauthorized);
      } else if next.Err? {
        r := Err(next.error);
      } else if id !in table {
        r := Err(AttestationNotFound);
      } else if table[id].verifier != attester {
        r := Err(NotOriginalAttester);
      } else if table[id].revoked {
        r := Err(AlreadyRevoked);
      } else {
        var a := table[id];
        var left := FilterOut(if a.identity in lists then lists[a.identity] else [], id);
        var count := if a.identity in counts then counts[a.identity] else 0;
        nonces := next.value;
        table := table[id := a.(revoked := true)];
        dedup := dedup - {KeyOf(a)};
        lists := lists[a.identity := left];
        counts := counts[a.identity := if count > 0 then count - 1 else 0];
        assert Model() == Revoked(s.(nonces := s.nonces[attester := nonce + 1]), id);
        var ok := AssertSelfConsistent(a.identity);
        assert ok;  // the drift guard does not fire
        r := Ok(());
      }
    }

    /** Everything that is checked before a batch is written; the nonces it would leave. */
    method CheckCall(subject: Address, items: seq<Item>, weightOf: Address -> nat, maxWeight: nat, auth: set<Address>)
      returns (e: Option<AttestationError>, nonces1: map<Address, nat>)
      ensures e == BatchError(Model(), subject, items, weightOf, maxWeight, auth)
      ensures e.None? ==> ConsumeAll(Model(), items, auth) == Ok(nonces1)
    {
      var distinct := CheckDistinct(items);
      var consumed := ConsumeBatch(Model(), items, attesters, nonces, auth);
      var duplicate, badWeight, total := CheckBatch(items, subject, dedup, weightOf);
      nonces1 := if consumed.Ok? then consumed.value else nonces;
      if |items| == 0 {
        e := Some(EmptyBatch);
      } else if |items| > MAX_BATCH_ATTESTATION_SIZE {
        e := Some(BatchTooLarge);
      } else if !distinct {
        e := Some(DuplicateAttester);
      } else if consumed.Err? {
        e := Some(consumed.error);
      } else if duplicate {
        e := Some(DuplicateAttestation);
      } else if badWeight {
        e := Some(InvalidWeight);
      } else if total > maxWeight {
        e := Some(WeightExceedsMax);
      } else if counter + |items| > U64_MAX {
        e := Some(AttestationError.Overflow);
      } else if (if subject in lists then |lists[subject]| else 0) + |items| > HOST_VEC_LIMIT {
        e := Some(HostLimit);
      } else {
        e := None;
      }
    }

    /** The writes of a batch: nonces, then records and ids, then list and count once each. */
    method WriteBatch(subject: Address, items: seq<Item>, weightOf: Address -> nat, nonces1: map<Address, nat>)
      returns (added: seq<Attestation>)
      requires |items| > 0
      modifies this
      ensures added == BatchRecords(old(Model()), subject, items, weightOf)
      ensures Model() == BatchResult(old(Model()), nonces1, subject, items, weightOf)
    {
      ghost var s1 := Model().(nonces := nonces1);
      var subjectList := if subject in lists then lists[subject] else [];
      var nextId, newTable, newDedup, newList, records :=
        WriteItems(s1, subject, items, weightOf, counter, now, table, dedup, subjectList);
      added := records;
      nonces, counter, table, dedup := nonces1, nextId, newTable, newDedup;
      lists := lists[subject := newList];
      counts := counts[subject := SaturatingAddU32(if subject in counts then counts[subject] else 0, |items|)];
    }

    method AddAttestationBatch(subject: Address, items: seq<Item>, weightOf: Address -> nat, maxWeight: nat,
                               auth: set<Address>)
      returns (r: Result<seq<Attestation>, AttestationError>)
      requires Valid()
      modifies this
      ensures Valid()
      ensures var o := Attestations.AddAttestationBatch(old(Model()), subject, items, weightOf, maxWeight, auth);
        && Model() == StateAfter(old(Model()), o)
        && r == (if o.Ok? then Ok(BatchRecords(old(Model()), subject, items, weightOf)) else Err(o.error))
    {
      T.BatchIsReachable(Model(), subject, items, weightOf, maxWeight, auth);
      var e, nonces1 := CheckCall(subject, items, weightOf, maxWeight, auth);
      if e.Some? {
        r := Err(e.value);
      } else {
        var added := WriteBatch(subject, items, weightOf, nonces1);
        var ok := AssertSelfConsistent(subject);
        assert ok;  // the drift guard does not fire
        r := Ok(added);
      }
    }
  }
}
