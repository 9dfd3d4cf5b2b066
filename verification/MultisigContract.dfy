/** The multi-signature entry points as the contract runs them. */
module MultisigContract {
  import opened Host
  import opened Lists
  import opened Multisig
  import T = MultisigTheorems

  method CountActiveSignatures(signers: seq<Address>, signatures: set<(nat, Address)>, id: nat) returns (count: nat)
    ensures count == ActiveSignatures(signers, signatures, id) <= |signers|
  {
    count := 0;
    for i := 0 to |signers|
      invariant count == ActiveSignatures(signers[..i], signatures, id) <= i
    {
      assert signers[..i + 1][..i] == signers[..i];
      if (id, signers[i]) in signatures {
        count := count + 1;
      }
    }
    assert signers[..|signers|] == signers;
  }

  /** Clear the stored signatures of every listed signer on one proposal. */
  method ClearSignatures(signers: seq<Address>, signatures: set<(nat, Address)>, id: nat)
    returns (left: set<(nat, Address)>)
    ensures left == set sig | sig in signatures && !(sig.0 == id && sig.1 in signers)
  {
    left := signatures;
    for i := 0 to |signers|
      invariant left == set sig | sig in signatures && !(sig.0 == id && sig.1 in signers[..i])
    {
      assert signers[..i + 1] == signers[..i] + [signers[i]];
      left := left - {(id, signers[i])};
    }
    assert signers[..|signers|] == signers;
  }

  /** Raise the signer flag of everybody on the list. */
  method RaiseFlags(flags: set<Address>, list: seq<Address>) returns (r: set<Address>)
    ensures r == flags + Elements(list)
  {
    r := flags;
    for i := 0 to |list|
      invariant r == flags + Elements(list[..i])
    {
      assert list[..i + 1] == list[..i] + [list[i]];
      r := r + {list[i]};
    }
    assert list[..|list|] == list;
  }

  class MultisigStore {
    var now: nat
    var paused: bool
    var admin: Address
    var signers: set<Address>
    var signerCount: nat
    var signerList: seq<Address>
    var threshold: nat
    var counter: nat
    var proposals: map<nat, Proposal>
    var signatures: set<(nat, Address)>
    var signatureCount: map<nat, nat>
    var executedOps: set<nat>
    ghost var executions: map<nat, Execution>
    ghost var usedBy: map<nat, nat>

    ghost function Model(): State
      reads this
    {
      State(now, paused, admin, signers, signerCount, signerList, threshold, counter, proposals,
            signatures, signatureCount, executedOps, executions, usedBy)
    }

    ghost predicate Valid()
      reads this
    {
      T.Reachable(Model())
    }

    constructor (admin: Address, list: seq<Address>, threshold: nat, auth: set<Address>, now: nat)
      requires Initialize(admin, list, threshold, auth, now).Ok?
      ensures Initialize(admin, list, threshold, auth, now) == Ok(Model())
      ensures NoDup(list) ==> Valid()
    {
      this.now, paused, this.admin := now, false, admin;
      signers, signerCount, signerList, this.threshold := (set a | a in list), |list|, list, threshold;
      counter, proposals, signatures, signatureCount, executedOps := 0, map[], {}, map[], {};
      executions, usedBy := map[], map[];
      new;
      if NoDup(list) {
        T.InitialIsReachable(admin, list, threshold, auth, now);
      }
    }

    method AdvanceLedger(t: nat)
      requires Valid() && now <= t
      modifies this
      ensures Valid() && Model() == old(Model()).(now := t)
    {
      T.ReachableStep(Model(), T.Tick(t));
      now := t;
    }

    /** The pause governance switches the contract on or off. */
    method SetPaused(b: bool)
      requires Valid()
      modifies this
      ensures Valid() && Model() == old(Model()).(paused := b)
    {
      T.ReachableStep(Model(), T.SetPaused(b));
      paused := b;
    }

    /** The admin guard in front of signer and threshold changes. */
    method CheckAdmin(caller: Address, auth: set<Address>) returns (e: Option<MultisigError>)
      ensures e == AdminGuard(Model(), caller, auth)
    {
      if paused {
        e := Some(ContractPaused);
      } else if caller !in auth {
        e := Some(MultisigError.Unauthorized);
      } else if caller != admin {
        e := Some(NotAdmin);
      } else {
        e := None;
      }
    }

    method AddSigner(caller: Address, signer: Address, auth: set<Address>) returns (r: Result<(), MultisigError>)
      requires Valid()
      modifies this
      ensures Valid()
      ensures var o := Multisig.AddSigner(old(Model()), caller, signer, auth);
        r == Answer(o) && Model() == StateAfter(old(Model()), o)
    {
      T.ReachableStep(Model(), T.Add(caller, signer, auth));
      var guard := CheckAdmin(caller, auth);
      if guard.Some? {
        r := Err(guard.value);
      } else if signer in signers {
        r := Err(AlreadyActive);
      } else if signerCount >= U32_MAX {
        r := Err(MultisigError.Overflow);
      } else {
        signers := signers + {signer};
        signerCount := signerCount + 1;
        signerList := signerList + [signer];
        r := Ok(());
      }
    }

    method RemoveSigner(caller: Address, signer: Address, auth: set<Address>) returns (r: Result<(), MultisigError>)
      requires Valid()
      modifies this
      ensures Valid()
      ensures var o := Multisig.RemoveSigner(old(Model()), caller, signer, auth);
        r == Answer(o) && Model() == StateAfter(old(Model()), o)
    {
      T.ReachableStep(Model(), T.Remove(caller, signer, auth));
      var guard := CheckAdmin(caller, auth);
      if guard.Some? {
        r := Err(guard.value);
      } else if signer !in signers {
        r := Err(NotSigner);
      } else if signerCount <= 1 {
        r := Err(InvalidPauseAction);
      } else {
        var newList := FilterOut(signerList, signer);
        signers := signers - {signer};
        signerCount := signerCount - 1;
        signerList := newList;
        if threshold > signerCount {
          threshold := signerCount;
        }
        r := Ok(());
      }
    }

    /** initialize on a contract that is already set up. What it leaves is no longer the end of a run
        from one initialization. */
    method InitializeAgain(caller: Address, list: seq<Address>, n: nat, auth: set<Address>)
        returns (r: Result<(), MultisigError>)
      modifies this
      ensures var o := Multisig.InitializeAgain(old(Model()), caller, list, n, auth);
        r == Answer(o) && Model() == StateAfter(old(Model()), o)
    {
      if caller !in auth {
        return Err(MultisigError.Unauthorized);
      }
      if |list| == 0 || n == 0 || n > |list| {
        return Err(ThresholdExceedsSigners);
      }
      Renew(caller, list, n);
      r := Ok(());
    }

    method ReplaceSigners(list: seq<Address>, n: nat)
      modifies this`signers, this`signerCount, this`signerList, this`threshold
      ensures signers == old(signers) + Elements(list) && signerCount == |list| && signerList == list && threshold == n
    {
      signers := RaiseFlags(signers, list);
      signerCount, signerList, threshold := |list|, list, n;
    }

    /** The writes of initialize. */
    method Renew(newAdmin: Address, list: seq<Address>, n: nat)
      modifies this
      ensures Model() == Renewed(old(Model()), newAdmin, list, n)
    {
      ReplaceSigners(list, n);
      admin, paused, counter := newAdmin, false, 0;
    }

    method SetThreshold(caller: Address, newThreshold: nat, auth: set<Address>) returns (r: Result<(), MultisigError>)
      requires Valid()
      modifies this
      ensures Valid()
      ensures var o := Multisig.SetThreshold(old(Model()), caller, newThreshold, auth);
        r == Answer(o) && Model() == StateAfter(old(Model()), o)
    {
      T.ReachableStep(Model(), T.Threshold(caller, newThreshold, auth));
      var guard := CheckAdmin(caller, auth);
      if guard.Some? {
        r := Err(guard.value);
      } else if newThreshold == 0 || newThreshold > signerCount {
        r := Err(ThresholdExceedsSigners);
      } else {
        threshold := newThreshold;
        r := Ok(());
      }
    }

    method SubmitProposal(proposer: Address, action: ActionType, details: Details, description: string,
                          expiresAt: nat, opHash: nat, auth: set<Address>)
      returns (r: Result<nat, MultisigError>)
      requires Valid()
      modifies this
      ensures Valid()
      ensures var o := Multisig.SubmitProposal(old(Model()), proposer, action, details, description, expiresAt,
                                               opHash, auth);
        && r == (if o.Ok? then Ok(old(counter)) else Err(o.error))
        && Model() == StateAfter(old(Model()), o)
    {
      T.ReachableStep(Model(), T.Submit(proposer, action, details, description, expiresAt, opHash, auth));
      if paused {
        r := Err(ContractPaused);
      } else if proposer !in auth {
        r := Err(MultisigError.Unauthorized);
      } else if proposer !in signers {
        r := Err(NotSigner);
      } else if |description| == 0 {
        r := Err(InvalidPauseAction);
      } else if counter >= U64_MAX {
        r := Err(MultisigError.Overflow);
      } else {
        var id := counter;
        counter := id + 1;
        proposals := proposals[id := Proposal(action, details, description, now, proposer, Pending, expiresAt, opHash)];
        signatureCount := signatureCount[id := 0];
        r := Ok(id);
      }
    }

    method SignProposal(signer: Address, id: nat, auth: set<Address>) returns (r: Result<(), MultisigError>)
      requires Valid()
      modifies this
      ensures Valid()
      ensures var o := Multisig.SignProposal(old(Model()), signer, id, auth);
        r == Answer(o) && Model() == StateAfter(old(Model()), o)
    {
      T.ReachableStep(Model(), T.Sign(signer, id, auth));
      var count := if id in signatureCount then signatureCount[id] else 0;
      if paused {
        r := Err(ContractPaused);
      } else if signer !in auth {
        r := Err(MultisigError.Unauthorized);
      } else if signer !in signers {
        r := Err(NotSigner);
      } else if id !in proposals {
        r := Err(ProposalNotFound);
      } else if proposals[id].status != Pending {
        r := Err(ProposalAlreadyExecuted);
      } else if proposals[id].expiresAt > 0 && now >= proposals[id].expiresAt {
        r := Err(ProposalAlreadyExecuted);
      } else if (id, signer) in signatures {
        r := Err(AlreadyActive);
      } else if count >= U32_MAX {
        r := Err(MultisigError.Overflow);
      } else {
        signatures := signatures + {(id, signer)};
        signatureCount := signatureCount[id := count + 1];
        r := Ok(());
      }
    }

    /** A failed execution keeps neither the Expired mark nor the revalidated count: the host
        undoes both with the rest of the call. */
    method ExecuteProposal(id: nat) returns (r: Result<(), MultisigError>)
      requires Valid()
      modifies this
      ensures Valid()
      ensures var o := Multisig.ExecuteProposal(old(Model()), id);
        r == Answer(o) && Model() == StateAfter(old(Model()), o)
    {
      T.ReachableStep(Model(), T.Execute(id));
      if paused {
        r := Err(ContractPaused);
      } else if id !in proposals {
        r := Err(ProposalNotFound);
      } else if proposals[id].status != Pending {
        r := Err(ProposalAlreadyExecuted);
      } else if proposals[id].expiresAt > 0 && now >= proposals[id].expiresAt {
        r := Err(ProposalAlreadyExecuted);
      } else {
        var active := CountActiveSignatures(signerList, signatures, id);
        var p := proposals[id];
        if active < threshold {
          r := Err(InsufficientApprovals);
        } else if p.opHash in executedOps {
          r := Err(ProposalAlreadyExecuted);
        } else {
          RecordExecution(id, active);
          r := Ok(());
        }
      }
    }

    /** Mark a proposal executed and its operation hash used. */
    method RecordExecution(id: nat, active: nat)
      requires id in proposals
      modifies this
      ensures Model() == var s := old(Model()); var p := s.proposals[id];
        s.(signatureCount := if active != CountOf(s, id) then s.signatureCount[id := active] else s.signatureCount,
           executedOps := s.executedOps + {p.opHash},
           proposals := s.proposals[id := p.(status := Executed)],
           executions := s.executions[id := Execution(p.opHash, Approvers(s, id), s.threshold)],
           usedBy := s.usedBy[p.opHash := id])
    {
      var p := proposals[id];
      executions := executions[id := Execution(p.opHash, Approvers(Model(), id), threshold)];
      usedBy := usedBy[p.opHash := id];
      if active != (if id in signatureCount then signatureCount[id] else 0) {
        signatureCount := signatureCount[id := active];
      }
      executedOps := executedOps + {p.opHash};
      proposals := proposals[id := p.(status := Executed)];
    }

    method RejectProposal(caller: Address, id: nat, auth: set<Address>) returns (r: Result<(), MultisigError>)
      requires Valid()
      modifies this
      ensures Valid()
      ensures var o := Multisig.RejectProposal(old(Model()), caller, id, auth);
        r == Answer(o) && Model() == StateAfter(old(Model()), o)
    {
      T.ReachableStep(Model(), T.Reject(caller, id, auth));
      var guard := CheckAdmin(caller, auth);
      if guard.Some? {
        r := Err(guard.value);
      } else if id !in proposals {
        r := Err(ProposalNotFound);
      } else if proposals[id].status != Pending {
        r := Err(ProposalAlreadyExecuted);
      } else {
        proposals := proposals[id := proposals[id].(status := Rejected)];
        r := Ok(());
      }
    }

    method PruneExpiredProposals(startId: nat, maxIter: nat) returns (r: Result<nat, MultisigError>)
      requires Valid() && startId <= U64_MAX
      modifies this
      ensures Valid()
      ensures match Multisig.PruneExpiredProposals(old(Model()), startId, maxIter)
        case Ok(res) => r == Ok(res.1) && Model() == res.0
        case Err(e) => r == Err(e) && Model() == old(Model())
    {
      ghost var s := Model();
      if paused {
        r := Err(ContractPaused);
      } else {
        T.PruneIsReachable(s, startId, maxIter);
        T.IdsFitInU64(s);
        var ps, sigs, cs, count :=
          PruneScan(s, startId, PruneLimit(maxIter), now, signerList, proposals, signatures, signatureCount);
        ghost var t := Removed(s, PrunedIds(s, startId, startId + PruneLimit(maxIter)));
        assert t == s.(proposals := ps, signatures := sigs, signatureCount := cs);
        proposals, signatures, signatureCount := ps, sigs, cs;
        assert Model() == t;
        r := Ok(count);
      }
    }
  }

  /** initialize: a store, or the reason for refusing. Distinct signers make it a valid one. */
  method Deploy(admin: Address, list: seq<Address>, threshold: nat, auth: set<Address>, now: nat)
    returns (r: Result<MultisigStore, MultisigError>)
    ensures r.Err? ==> Initialize(admin, list, threshold, auth, now) == Err(r.error)
    ensures r.Ok? ==> fresh(r.value) && Initialize(admin, list, threshold, auth, now) == Ok(r.value.Model())
    ensures r.Ok? && NoDup(list) ==> r.value.Valid()
  {
    if admin !in auth {
      r := Err(MultisigError.Unauthorized);
    } else if |list| == 0 || threshold == 0 || threshold > |list| {
      r := Err(ThresholdExceedsSigners);
    } else {
      var store := new MultisigStore(admin, list, threshold, auth, now);
      r := Ok(store);
    }
  }

  /** Remove one proposal with the signatures and the count stored under it. */
  method PruneOne(ghost t: State, id: nat, signers: seq<Address>, proposals: map<nat, Proposal>,
                  signatures: set<(nat, Address)>, counts: map<nat, nat>)
    returns (ps: map<nat, Proposal>, sigs: set<(nat, Address)>, cs: map<nat, nat>)
    requires t.signerList == signers && t.proposals == proposals
    requires t.signatures == signatures && t.signatureCount == counts
    requires id in proposals
    ensures t.(proposals := ps, signatures := sigs, signatureCount := cs) == Removed(t, {id})
  {
    ps := proposals - {id};
    var left := ClearSignatures(signers, signatures, id);
    sigs := left - {(id, proposals[id].proposer)};
    cs := counts - {id};
  }

  /** One turn of the prune loop. */
  method PruneNext(ghost s: State, ghost start: nat, id: nat, ghost count: nat, now: nat, signers: seq<Address>,
                   proposals: map<nat, Proposal>, signatures: set<(nat, Address)>, counts: map<nat, nat>)
    returns (ps: map<nat, Proposal>, sigs: set<(nat, Address)>, cs: map<nat, nat>, hit: bool)
    requires s.now == now && s.signerList == signers && start <= id
    requires T.PrunedTo(s, start, id,
                        s.(proposals := proposals, signatures := signatures, signatureCount := counts), count)
    ensures T.PrunedTo(s, start, id + 1, s.(proposals := ps, signatures := sigs, signatureCount := cs),
                       if hit then count + 1 else count)
  {
    ghost var t := s.(proposals := proposals, signatures := signatures, signatureCount := counts);
    T.PrunedIdsNext(s, start, id, t, count);
    ps, sigs, cs, hit := proposals, signatures, counts, false;
    if id in proposals {
      var p := proposals[id];
      if p.status == Expired || (p.status != Executed && p.expiresAt > 0 && now >= p.expiresAt) {
        ps, sigs, cs := PruneOne(t, id, signers, proposals, signatures, counts);
        hit := true;
      }
    }
  }

  /** The prune loop, on copies of the three tables it clears. */
  method PruneScan(ghost s: State, startId: nat, effectiveMax: nat, now: nat, signers: seq<Address>,
                   proposals: map<nat, Proposal>, signatures: set<(nat, Address)>, counts: map<nat, nat>)
    returns (ps: map<nat, Proposal>, sigs: set<(nat, Address)>, cs: map<nat, nat>, count: nat)
    requires s.now == now && s.signerList == signers && s.proposals == proposals
    requires s.signatures == signatures && s.signatureCount == counts
    requires T.IdsBelow(s, U64_MAX) && startId <= U64_MAX
    ensures var ids := PrunedIds(s, startId, startId + effectiveMax);
      s.(proposals := ps, signatures := sigs, signatureCount := cs) == Removed(s, ids) && count == |ids|
  {
    ps, sigs, cs, count := proposals, signatures, counts, 0;
    T.NothingPruned(s, startId);
    var i := 0;
    while i < effectiveMax && startId + i <= U64_MAX
      invariant 0 <= i <= effectiveMax && startId + i <= U64_MAX + 1
      invariant T.PrunedTo(s, startId, startId + i,
                           s.(proposals := ps, signatures := sigs, signatureCount := cs), count)
    {
      var hit;
      ps, sigs, cs, hit := PruneNext(s, startId, startId + i, count, now, signers, ps, sigs, cs);
      count := if hit then count + 1 else count;
      i := i + 1;
    }
    T.PrunedIdsBeyond(s, startId, startId + i, startId + effectiveMax);
  }
}
