/** What every run of the multi-signature contract keeps. */
module MultisigTheorems {
  import opened Host
  import opened Lists
  import opened Multisig

  datatype Call =
    | Tick(t: nat)
    | SetPaused(paused: bool)
    | Add(admin: Address, signer: Address, auth: set<Address>)
    | Remove(admin: Address, signer: Address, auth: set<Address>)
    | Threshold(admin: Address, threshold: nat, auth: set<Address>)
    | Submit(proposer: Address, action: ActionType, details: Details, description: string, expiresAt: nat, opHash: nat,
             auth: set<Address>)
    | Sign(signer: Address, id: nat, auth: set<Address>)
    | Execute(id: nat)
    | Reject(admin: Address, id: nat, auth: set<Address>)
    | Prune(start: nat, maxIter: nat)

  /** The outcome of one transaction. */
  function Apply(s: State, call: Call): Outcome {
    match call
    case Tick(t) => Ok(s.(now := Max(s.now, t)))
    case SetPaused(b) => Ok(s.(paused := b))
    case Add(admin, signer, auth) => AddSigner(s, admin, signer, auth)
    case Remove(admin, signer, auth) => RemoveSigner(s, admin, signer, auth)
    case Threshold(admin, threshold, auth) => SetThreshold(s, admin, threshold, auth)
    case Submit(p, a, x, d, e, h, auth) => SubmitProposal(s, p, a, x, d, e, h, auth)
    case Sign(signer, id, auth) => SignProposal(s, signer, id, auth)
    case Execute(id) => ExecuteProposal(s, id)
    case Reject(admin, id, auth) => RejectProposal(s, admin, id, auth)
    case Prune(start, maxIter) =>
      var r := PruneExpiredProposals(s, start, maxIter);
      if r.Ok? then Ok(r.value.0) else Err(r.error)
  }

  /** A failed call changes nothing. */
  function Step(s: State, call: Call): State {
    StateAfter(s, Apply(s, call))
  }

  function Run(s: State, calls: seq<Call>): State {
    if calls == [] then s else Step(Run(s, calls[..|calls| - 1]), calls[|calls| - 1])
  }

  function SignaturesOn(s: State, id: nat): set<(nat, Address)> {
    set sig | sig in s.signatures && sig.0 == id
  }

  ghost predicate SignersOk(s: State) {
    && NoDup(s.signerList)
    && (forall a :: a in s.signerList <==> a in s.signers)
    && |s.signerList| == s.signerCount
    && 1 <= s.threshold <= s.signerCount
  }

  /** A pending proposal's cached count is its number of signature flags, those of removed
      signers included. */
  ghost predicate ProposalOk(s: State, id: nat)
    requires id in s.proposals
  {
    && id < s.counter
    && id in s.signatureCount
    && (s.proposals[id].status == Pending ==> s.signatureCount[id] == |SignaturesOn(s, id)|)
  }

  predicate ExecutionOk(s: State, id: nat)
    requires id in s.executions
  {
    var e := s.executions[id];
    && 1 <= e.threshold <= |e.approvers|
    && id in s.proposals && s.proposals[id].status == Executed && s.proposals[id].opHash == e.opHash
    && e.opHash in s.usedBy && s.usedBy[e.opHash] == id
  }

  /** Executions are exactly the executed proposals, each with enough distinct approvers, and
      each holds its operation hash alone. */
  ghost predicate ExecutionsOk(s: State) {
    && s.executedOps == s.usedBy.Keys
    && (forall h :: h in s.usedBy ==> s.usedBy[h] in s.executions && s.executions[s.usedBy[h]].opHash == h)
    && (forall id :: id in s.executions ==> ExecutionOk(s, id))
    && (forall id :: id in s.proposals && s.proposals[id].status == Executed ==> id in s.executions)
  }

  ghost predicate Inv(s: State) {
    && SignersOk(s)
    && s.counter <= U64_MAX
    && (forall sig :: sig in s.signatures ==> sig.0 < s.counter)
    && (forall id :: id in s.proposals ==> ProposalOk(s, id))
    && ExecutionsOk(s)
  }

  // ----- Signer list -----

  lemma ActiveNext(front: seq<Address>, last: Address, signatures: set<(nat, Address)>, id: nat)
    requires last !in front
    ensures |set a | a in front + [last] && (id, a) in signatures|
      == |set a | a in front && (id, a) in signatures| + (if (id, last) in signatures then 1 else 0)
  {
    var before := set a | a in front && (id, a) in signatures;
    var signed := set a | a in front + [last] && (id, a) in signatures;
    assert signed == if (id, last) in signatures then before + {last} else before;
  }

  /** Over a duplicate-free list, counting signatures entry by entry counts distinct signers. */
  lemma {:induction false} ActiveAreDistinct(list: seq<Address>, signatures: set<(nat, Address)>, id: nat)
    requires NoDup(list)
    ensures ActiveSignatures(list, signatures, id) == |set a | a in list && (id, a) in signatures|
  {
    if list == [] {
      assert (set a | a in list && (id, a) in signatures) == {};
    } else {
      var front, last := list[..|list| - 1], list[|list| - 1];
      assert list == front + [last] && last !in front;
      ActiveAreDistinct(front, signatures, id);
      ActiveNext(front, last, signatures, id);
    }
  }

  // ----- Every step keeps the invariant -----

  lemma AddKeepsSigners(s: State, admin: Address, signer: Address, auth: set<Address>)
    requires SignersOk(s)
    ensures AddSigner(s, admin, signer, auth).Ok? ==> SignersOk(AddSigner(s, admin, signer, auth).value)
  {
    if signer !in s.signers { NoDupPush(s.signerList, signer); }
  }

  lemma RemoveKeepsSigners(s: State, admin: Address, signer: Address, auth: set<Address>)
    requires SignersOk(s)
    ensures RemoveSigner(s, admin, signer, auth).Ok? ==> SignersOk(RemoveSigner(s, admin, signer, auth).value)
  {
    WithoutList(s.signerList, signer);
  }

  lemma SignersStep(s: State, call: Call)
    requires SignersOk(s)
    ensures SignersOk(Step(s, call))
  {
    match call
    case Add(admin, signer, auth) => AddKeepsSigners(s, admin, signer, auth);
    case Remove(admin, signer, auth) => RemoveKeepsSigners(s, admin, signer, auth);
    case _ =>
  }

  lemma SignaturesAfter(s: State, signer: Address, id: nat, other: nat)
    ensures var t := s.(signatures := s.signatures + {(id, signer)});
      SignaturesOn(t, other) == if other == id then SignaturesOn(s, id) + {(id, signer)} else SignaturesOn(s, other)
  {
  }

  lemma SignKeepsCounts(s: State, signer: Address, id: nat, auth: set<Address>, other: nat)
    requires Inv(s) && SignProposal(s, signer, id, auth).Ok? && other in s.proposals
    ensures ProposalOk(SignProposal(s, signer, id, auth).value, other)
  {
    assert ProposalOk(s, other);
    SignaturesAfter(s, signer, id, other);
  }

  lemma PruneKeepsCounts(s: State, ids: set<nat>, id: nat)
    requires Inv(s) && id in s.proposals && id !in ids
    ensures ProposalOk(Removed(s, ids), id)
  {
    assert ProposalOk(s, id);
    assert SignaturesOn(Removed(s, ids), id) == SignaturesOn(s, id);
  }

  lemma SignaturesStay(s: State, call: Call, id: nat)
    requires !call.Sign? && !call.Prune?
    ensures SignaturesOn(Step(s, call), id) == SignaturesOn(s, id)
  {
    assert Step(s, call).signatures == s.signatures;
  }

  lemma CountsStep(s: State, call: Call, id: nat)
    requires Inv(s) && !call.Sign? && !call.Prune? && id in Step(s, call).proposals
    ensures ProposalOk(Step(s, call), id)
  {
    var t := Step(s, call);
    SignaturesStay(s, call, id);
    if id in s.proposals {
      assert ProposalOk(s, id);
    } else {
      assert SignaturesOn(t, id) == {};
    }
  }

  lemma ProposalsStep(s: State, call: Call)
    requires Inv(s)
    ensures forall id :: id in Step(s, call).proposals ==> ProposalOk(Step(s, call), id)
  {
    var t := Step(s, call);
    forall id | id in t.proposals ensures ProposalOk(t, id) {
      if !call.Sign? && !call.Prune? {
        CountsStep(s, call, id);
      } else if t == s {
        assert ProposalOk(s, id);
      } else if call.Sign? {
        SignKeepsCounts(s, call.signer, call.id, call.auth, id);
      } else {
        PruneKeepsCounts(s, PrunedIds(s, call.start, call.start + PruneLimit(call.maxIter)), id);
      }
    }
  }

  lemma ExecuteKeepsExecutions(s: State, id: nat)
    requires Inv(s) && ExecuteProposal(s, id).Ok?
    ensures ExecutionsOk(ExecuteProposal(s, id).value)
  {
    var t := ExecuteProposal(s, id).value;
    ActiveAreDistinct(s.signerList, s.signatures, id);
    assert (set a | a in s.signerList && (id, a) in s.signatures) == Approvers(s, id);
    forall j | j in t.executions ensures ExecutionOk(t, j) {
      if j != id { assert ExecutionOk(s, j); }
    }
  }

  /** Every other call leaves the executed proposals and the execution records alone. */
  lemma OtherCallsKeepExecuted(s: State, call: Call, id: nat)
    requires Inv(s) && !call.Execute?
    ensures var t := Step(s, call);
      && t.executions == s.executions && t.usedBy == s.usedBy && t.executedOps == s.executedOps
      && (id in s.proposals && s.proposals[id].status == Executed ==>
            id in t.proposals && t.proposals[id] == s.proposals[id])
      && (id in t.proposals && t.proposals[id].status == Executed ==>
            id in s.proposals && s.proposals[id].status == Executed)
  {
    assert s.counter in s.proposals ==> ProposalOk(s, s.counter);
  }

  lemma ExecutionsStep(s: State, call: Call)
    requires Inv(s)
    ensures ExecutionsOk(Step(s, call))
  {
    var t := Step(s, call);
    if call.Execute? {
      if t != s { ExecuteKeepsExecutions(s, call.id); }
    } else {
      forall id { OtherCallsKeepExecuted(s, call, id); }
      forall id | id in t.executions ensures ExecutionOk(t, id) {
        assert ExecutionOk(s, id);
        OtherCallsKeepExecuted(s, call, id);
      }
      OtherCallsKeepExecuted(s, call, 0);
      forall id | id in t.proposals && t.proposals[id].status == Executed ensures id in t.executions {
        OtherCallsKeepExecuted(s, call, id);
      }
    }
  }

  lemma StepKeepsInv(s: State, call: Call)
    requires Inv(s)
    ensures Inv(Step(s, call))
  {
    SignersStep(s, call);
    ProposalsStep(s, call);
    assert forall sig :: sig in Step(s, call).signatures ==> sig.0 < Step(s, call).counter;
    ExecutionsStep(s, call);
  }

  /** A deployment: initialization with a duplicate-free signer list. */
  ghost predicate IsInitial(s: State) {
    exists admin, list, threshold, auth, now ::
      NoDup(list) && Initialize(admin, list, threshold, auth, now) == Ok(s)
  }

  ghost predicate Reachable(s: State) {
    exists init, calls :: IsInitial(init) && Run(init, calls) == s
  }

  lemma InitialIsReachable(admin: Address, list: seq<Address>, threshold: nat, auth: set<Address>, now: nat)
    requires NoDup(list) && Initialize(admin, list, threshold, auth, now).Ok?
    ensures Reachable(Initialize(admin, list, threshold, auth, now).value)
  {
    var s := Initialize(admin, list, threshold, auth, now).value;
    assert IsInitial(s) && Run(s, []) == s;
  }

  lemma ReachableStep(s: State, call: Call)
    requires Reachable(s)
    ensures Reachable(StateAfter(s, Apply(s, call)))
  {
    var init, calls :| IsInitial(init) && Run(init, calls) == s;
    assert (calls + [call])[..|calls|] == calls;
    assert Run(init, calls + [call]) == Step(s, call);
  }

  lemma PruneIsReachable(s: State, start: nat, maxIter: nat)
    requires Reachable(s) && !s.paused
    ensures Reachable(Removed(s, PrunedIds(s, start, start + PruneLimit(maxIter))))
  {
    ReachableStep(s, Prune(start, maxIter));
  }

  lemma {:induction false} RunKeepsInv(s: State, calls: seq<Call>)
    requires Inv(s)
    ensures Inv(Run(s, calls))
  {
    if calls != [] {
      RunKeepsInv(s, calls[..|calls| - 1]);
      StepKeepsInv(Run(s, calls[..|calls| - 1]), calls[|calls| - 1]);
    }
  }

  lemma ReachableInv(s: State)
    requires Reachable(s)
    ensures Inv(s)
  {
    var init, calls :| IsInitial(init) && Run(init, calls) == s;
    RunKeepsInv(init, calls);
  }

  // ----- Execution safety -----

  /** An execution that succeeds has at least the threshold of distinct current signers behind
      it, and neither its proposal nor its operation hash was executed before. */
  lemma ExecutionIsApproved(s: State, id: nat)
    requires Reachable(s)
    ensures ExecuteProposal(s, id).Ok? ==>
      && 1 <= s.threshold <= |Approvers(s, id)| && Approvers(s, id) <= s.signers
      && id !in s.executions && s.proposals[id].opHash !in s.executedOps
  {
    ReachableInv(s);
    if ExecuteProposal(s, id).Ok? {
      ActiveAreDistinct(s.signerList, s.signatures, id);
      assert (set a | a in s.signerList && (id, a) in s.signatures) == Approvers(s, id);
      assert id in s.executions ==> ExecutionOk(s, id);
    }
  }

  /** It also succeeds whenever it may: not paused, pending, not over, enough current signers,
      hash unused. */
  lemma ExecutionIsLive(s: State, id: nat)
    requires Reachable(s)
    ensures ExecuteProposal(s, id).Ok? <==>
      && !s.paused && id in s.proposals && s.proposals[id].status == Pending && !IsOver(s.proposals[id], s.now)
      && |Approvers(s, id)| >= s.threshold && s.proposals[id].opHash !in s.executedOps
  {
    ReachableInv(s);
    ActiveAreDistinct(s.signerList, s.signatures, id);
    assert (set a | a in s.signerList && (id, a) in s.signatures) == Approvers(s, id);
  }

  /** In every reachable state: list, flags and count agree and the threshold can be met; the
      used hashes are exactly those of the executed proposals, no two of which share one; every
      execution on record had its threshold of distinct approvers; a pending proposal's cached
      count is its number of signature flags. */
  lemma MultisigIsSafe(s: State, id: nat, other: nat, h: nat)
    requires Reachable(s)
    ensures NoDup(s.signerList) && (forall a :: a in s.signerList <==> a in s.signers)
    ensures 1 <= s.threshold <= s.signerCount == |s.signerList|
    ensures h in s.executedOps <==>
      exists i :: i in s.proposals && s.proposals[i].status == Executed && s.proposals[i].opHash == h
    ensures id in s.proposals && other in s.proposals && id != other
      && s.proposals[id].status == Executed && s.proposals[other].status == Executed
      ==> s.proposals[id].opHash != s.proposals[other].opHash
    ensures id in s.proposals && s.proposals[id].status == Executed ==>
      id in s.executions && 1 <= s.executions[id].threshold <= |s.executions[id].approvers|
    ensures id in s.proposals && s.proposals[id].status == Pending ==>
      CountOf(s, id) == |SignaturesOn(s, id)|
  {
    ReachableInv(s);
    assert id in s.executions ==> ExecutionOk(s, id);
    assert other in s.executions ==> ExecutionOk(s, other);
    assert id in s.proposals ==> ProposalOk(s, id);
    if h in s.executedOps {
      assert ExecutionOk(s, s.usedBy[h]);
    }
    assert forall i :: i in s.proposals && s.proposals[i].status == Executed ==> ExecutionOk(s, i);
  }

  // ----- Pruning is harmless -----

  /** `t` is `s` with some prunable proposals, and what was stored under them, gone. */
  ghost predicate PrunedFrom(s: State, t: State) {
    && t == s.(proposals := t.proposals, signatures := t.signatures, signatureCount := t.signatureCount)
    && (forall id :: id in t.proposals ==> id in s.proposals && t.proposals[id] == s.proposals[id])
    && (forall id :: id in t.proposals ==> CountOf(t, id) == CountOf(s, id))
    && (forall id, a :: id in t.proposals ==> ((id, a) in t.signatures <==> (id, a) in s.signatures))
    && (forall id :: id in s.proposals && id !in t.proposals ==> Prunable(s, id))
  }

  lemma PruneGivesPruned(s: State, start: nat, maxIter: nat)
    ensures PruneExpiredProposals(s, start, maxIter).Ok? ==>
      PrunedFrom(s, PruneExpiredProposals(s, start, maxIter).value.0)
  {
  }

  lemma {:induction false} SameActive(list: seq<Address>, a: set<(nat, Address)>, b: set<(nat, Address)>, id: nat)
    requires forall x :: (id, x) in a <==> (id, x) in b
    ensures ActiveSignatures(list, a, id) == ActiveSignatures(list, b, id)
  {
    if list != [] { SameActive(list[..|list| - 1], a, b, id); }
  }

  /** The same new proposal on both sides. */
  lemma PrunedNew(s: State, t: State, p: Proposal)
    requires Inv(s) && Inv(t) && PrunedFrom(s, t)
    ensures PrunedFrom(s.(counter := s.counter + 1, proposals := s.proposals[s.counter := p],
                           signatureCount := s.signatureCount[s.counter := 0]),
                       t.(counter := t.counter + 1, proposals := t.proposals[t.counter := p],
                           signatureCount := t.signatureCount[t.counter := 0]))
  {
    assert s.counter in s.proposals ==> ProposalOk(s, s.counter);
    forall a ensures (s.counter, a) !in s.signatures && (s.counter, a) !in t.signatures {}
  }

  lemma PrunedSubmit(s: State, t: State, call: Call)
    requires Inv(s) && Inv(t) && PrunedFrom(s, t) && call.Submit?
    ensures PrunedFrom(Step(s, call), Step(t, call)) && (Apply(s, call).Ok? <==> Apply(t, call).Ok?)
  {
    if Apply(s, call).Ok? {
      PrunedNew(s, t, Proposal(call.action, call.details, call.description, s.now, call.proposer, Pending,
                               call.expiresAt, call.opHash));
    }
  }

  lemma PrunedPrune(s: State, t: State, call: Call)
    requires PrunedFrom(s, t) && call.Prune?
    ensures PrunedFrom(Step(s, call), Step(t, call)) && (Apply(s, call).Ok? <==> Apply(t, call).Ok?)
  {
    var end := call.start + PruneLimit(call.maxIter);
    var ids, jds := PrunedIds(s, call.start, end), PrunedIds(t, call.start, end);
    var s', t' := Step(s, call), Step(t, call);
    forall id | id in t'.proposals
      ensures id in s'.proposals && t'.proposals[id] == s'.proposals[id] && CountOf(t', id) == CountOf(s', id)
      ensures forall a :: (id, a) in t'.signatures <==> (id, a) in s'.signatures
    {
      assert id in t.proposals && (id in ids <==> id in jds);
    }
  }

  lemma PrunedSigns(s: State, t: State, signer: Address, id: nat, auth: set<Address>)
    requires PrunedFrom(s, t)
    ensures PrunedFrom(StateAfter(s, SignProposal(s, signer, id, auth)),
                       StateAfter(t, SignProposal(t, signer, id, auth)))
    ensures SignProposal(s, signer, id, auth).Ok? <==> SignProposal(t, signer, id, auth).Ok?
  {
  }

  lemma PrunedSign(s: State, t: State, call: Call)
    requires PrunedFrom(s, t) && call.Sign?
    ensures PrunedFrom(Step(s, call), Step(t, call)) && (Apply(s, call).Ok? <==> Apply(t, call).Ok?)
  {
    PrunedSigns(s, t, call.signer, call.id, call.auth);
  }

  lemma PrunedSettings(s: State, t: State, call: Call)
    requires PrunedFrom(s, t) && (call.Tick? || call.SetPaused? || call.Threshold?)
    ensures PrunedFrom(Step(s, call), Step(t, call)) && (Apply(s, call).Ok? <==> Apply(t, call).Ok?)
  {
  }

  lemma PrunedSigners(s: State, t: State, call: Call)
    requires PrunedFrom(s, t) && (call.Add? || call.Remove?)
    ensures PrunedFrom(Step(s, call), Step(t, call)) && (Apply(s, call).Ok? <==> Apply(t, call).Ok?)
  {
  }

  /** Calls that leave proposals and signatures alone. */
  lemma PrunedAdmin(s: State, t: State, call: Call)
    requires PrunedFrom(s, t) && (call.Tick? || call.SetPaused? || call.Add? || call.Remove? || call.Threshold?)
    ensures PrunedFrom(Step(s, call), Step(t, call)) && (Apply(s, call).Ok? <==> Apply(t, call).Ok?)
  {
    if call.Add? || call.Remove? { PrunedSigners(s, t, call); } else { PrunedSettings(s, t, call); }
  }

  lemma RejectKeepsGone(s: State, t: State, admin: Address, id: nat, auth: set<Address>)
    requires PrunedFrom(s, t)
    ensures var s' := StateAfter(s, RejectProposal(s, admin, id, auth));
      var t' := StateAfter(t, RejectProposal(t, admin, id, auth));
      forall j :: j in s'.proposals && j !in t'.proposals ==> Prunable(s', j)
  {
    var s', t' := StateAfter(s, RejectProposal(s, admin, id, auth)), StateAfter(t, RejectProposal(t, admin, id, auth));
    forall j | j in s'.proposals && j !in t'.proposals ensures Prunable(s', j) {
      assert Prunable(s, j);
    }
  }

  lemma PrunedRejects(s: State, t: State, admin: Address, id: nat, auth: set<Address>)
    requires PrunedFrom(s, t)
    ensures PrunedFrom(StateAfter(s, RejectProposal(s, admin, id, auth)),
                       StateAfter(t, RejectProposal(t, admin, id, auth)))
  {
    RejectKeepsGone(s, t, admin, id, auth);
  }

  /** Rejecting a proposal that was pruned, and that could have been rejected. */
  predicate RejectsPruned(s: State, t: State, call: Call) {
    call.Reject? && Apply(s, call).Ok? && call.id !in t.proposals
  }

  lemma PrunedReject(s: State, t: State, call: Call)
    requires PrunedFrom(s, t) && call.Reject?
    ensures PrunedFrom(Step(s, call), Step(t, call))
    ensures Apply(s, call).Ok? == Apply(t, call).Ok? <==> !RejectsPruned(s, t, call)
  {
    PrunedRejects(s, t, call.admin, call.id, call.auth);
  }

  lemma PrunedExecute(s: State, t: State, id: nat)
    requires PrunedFrom(s, t) && id in t.proposals
    requires ExecuteProposal(s, id).Ok? && ExecuteProposal(t, id).Ok?
    ensures PrunedFrom(ExecuteProposal(s, id).value, ExecuteProposal(t, id).value)
  {
    SameActive(s.signerList, s.signatures, t.signatures, id);
    assert Approvers(s, id) == Approvers(t, id);
  }

  lemma PrunedExecution(s: State, t: State, call: Call)
    requires PrunedFrom(s, t) && call.Execute?
    ensures PrunedFrom(Step(s, call), Step(t, call)) && (Apply(s, call).Ok? <==> Apply(t, call).Ok?)
  {
    if call.id in t.proposals { SameActive(s.signerList, s.signatures, t.signatures, call.id); }
    if Apply(s, call).Ok? { PrunedExecute(s, t, call.id); }
  }

  /** A pruned and an unpruned contract accept the same calls, but exactly for the rejection of a
      pruned proposal, and stay that way. */
  lemma PrunedStep(s: State, t: State, call: Call)
    requires Inv(s) && Inv(t) && PrunedFrom(s, t)
    ensures PrunedFrom(Step(s, call), Step(t, call))
    ensures Apply(s, call).Ok? == Apply(t, call).Ok? <==> !RejectsPruned(s, t, call)
  {
    if call.Submit? {
      PrunedSubmit(s, t, call);
    } else if call.Prune? {
      PrunedPrune(s, t, call);
    } else if call.Sign? {
      PrunedSign(s, t, call);
    } else if call.Execute? {
      PrunedExecution(s, t, call);
    } else if call.Reject? {
      PrunedReject(s, t, call);
    } else {
      PrunedAdmin(s, t, call);
    }
  }

  lemma {:induction false} PrunedRun(s: State, t: State, calls: seq<Call>)
    requires Inv(s) && Inv(t) && PrunedFrom(s, t)
    ensures PrunedFrom(Run(s, calls), Run(t, calls)) && Inv(Run(s, calls)) && Inv(Run(t, calls))
  {
    RunKeepsInv(s, calls);
    RunKeepsInv(t, calls);
    if calls != [] {
      var front, last := calls[..|calls| - 1], calls[|calls| - 1];
      PrunedRun(s, t, front);
      PrunedStep(Run(s, front), Run(t, front), last);
    }
  }

  /** Whatever happens after a prune, every later call succeeds or fails as it would have without
      it, but exactly for the rejection of a pruned proposal, and the executed operations stay the
      same. */
  lemma PruningIsInvisible(s: State, start: nat, maxIter: nat, calls: seq<Call>, call: Call)
    requires Reachable(s) && PruneExpiredProposals(s, start, maxIter).Ok?
    ensures var t := PruneExpiredProposals(s, start, maxIter).value.0;
      && PrunedFrom(Run(s, calls), Run(t, calls))
      && Run(t, calls).executions == Run(s, calls).executions
      && (Apply(Run(s, calls), call).Ok? == Apply(Run(t, calls), call).Ok? <==>
            !RejectsPruned(Run(s, calls), Run(t, calls), call))
  {
    var t := PruneExpiredProposals(s, start, maxIter).value.0;
    ReachableInv(s);
    StepKeepsInv(s, Prune(start, maxIter));
    PruneGivesPruned(s, start, maxIter);
    PrunedRun(s, t, calls);
    PrunedStep(Run(s, calls), Run(t, calls), call);
  }

  predicate Gone(t: State, id: nat) {
    id < t.counter && id !in t.proposals
  }

  lemma GoneStep(t: State, id: nat, call: Call)
    requires Gone(t, id)
    ensures Gone(Step(t, call), id)
  {
  }

  /** Ids are never reused. */
  lemma {:induction false} StaysGone(t: State, id: nat, calls: seq<Call>)
    requires Gone(t, id)
    ensures Gone(Run(t, calls), id)
  {
    if calls != [] {
      StaysGone(t, id, calls[..|calls| - 1]);
      GoneStep(Run(t, calls[..|calls| - 1]), id, calls[|calls| - 1]);
    }
  }

  /** A pruned proposal could not be signed or executed, then or ever after, even had it
      stayed. Executed proposals are never pruned. */
  lemma PrunedCouldNeverRun(s: State, start: nat, maxIter: nat, id: nat, calls: seq<Call>, signer: Address,
                            auth: set<Address>)
    requires Reachable(s) && PruneExpiredProposals(s, start, maxIter).Ok?
    requires id in s.proposals && id !in PruneExpiredProposals(s, start, maxIter).value.0.proposals
    ensures s.proposals[id].status != Executed
    ensures SignProposal(Run(s, calls), signer, id, auth).Err? && ExecuteProposal(Run(s, calls), id).Err?
  {
    var t := PruneExpiredProposals(s, start, maxIter).value.0;
    ReachableInv(s);
    assert ProposalOk(s, id);
    StepKeepsInv(s, Prune(start, maxIter));
    StaysGone(t, id, calls);
    PruningIsInvisible(s, start, maxIter, calls, Sign(signer, id, auth));
    PruningIsInvisible(s, start, maxIter, calls, Execute(id));
  }

  // ----- Duplicate signers at initialization -----

  lemma {:induction false} RunJoin(s: State, a: seq<Call>, b: seq<Call>)
    ensures Run(s, a + b) == Run(Run(s, a), b)
  {
    if b == [] {
      assert a + b == a;
    } else {
      assert (a + b)[..|a + b| - 1] == a + b[..|b| - 1];
      RunJoin(s, a, b[..|b| - 1]);
    }
  }

  lemma RunOne(s: State, call: Call)
    ensures Run(s, [call]) == Step(s, call)
  {
    assert [call][..0] == [];
  }

  /** Proposal 0 is open for signatures, and all of `list` may sign. */
  ghost predicate OpenFor(s: State, list: seq<Address>) {
    && !s.paused && (forall a :: a in list ==> a in s.signers)
    && 0 in s.proposals && s.proposals[0].status == Pending && !IsOver(s.proposals[0], s.now)
  }

  /** `t` is `s` with the signatures of exactly `some` on proposal 0, and a count of at most `n`. */
  ghost predicate SignedBy(s: State, t: State, some: seq<Address>, n: nat) {
    && t == s.(signatures := t.signatures, signatureCount := t.signatureCount)
    && (forall a :: (0, a) in t.signatures <==> a in some)
    && CountOf(t, 0) <= n
  }

  lemma {:induction false} EveryoneSigns(s: State, list: seq<Address>, k: nat) returns (calls: seq<Call>)
    requires k <= |list| <= U32_MAX && OpenFor(s, list) && SignedBy(s, s, [], 0)
    ensures SignedBy(s, Run(s, calls), list[..k], k)
  {
    if k == 0 {
      calls := [];
    } else {
      var before := EveryoneSigns(s, list, k - 1);
      var call := Sign(list[k - 1], 0, {list[k - 1]});
      calls := before + [call];
      RunJoin(s, before, [call]);
      RunOne(Run(s, before), call);
      assert list[..k] == list[..k - 1] + [list[k - 1]];
    }
  }

  lemma {:induction false} AllActive(list: seq<Address>, signatures: set<(nat, Address)>, id: nat)
    requires forall a :: a in list ==> (id, a) in signatures
    ensures ActiveSignatures(list, signatures, id) == |list|
  {
    if list != [] { AllActive(list[..|list| - 1], signatures, id); }
  }

  /** From any list with a duplicate, and whatever threshold initialize was given, some run ends
      where a proposal can be executed with fewer distinct signers than the threshold. */
  lemma DuplicatesExecuteShort(admin: Address, list: seq<Address>, threshold: nat, auth: set<Address>, now: nat)
    returns (calls: seq<Call>)
    requires Initialize(admin, list, threshold, auth, now).Ok? && |list| <= U32_MAX && !NoDup(list)
    ensures var s := Run(Initialize(admin, list, threshold, auth, now).value, calls);
      ExecuteProposal(s, 0).Ok? && |Approvers(s, 0)| < s.threshold
  {
    var init := Initialize(admin, list, threshold, auth, now).value;
    var details := Details(None, None, None, None);
    var c1, c2 := Threshold(admin, |list|, {admin}), Submit(list[0], Custom, details, "x", 0, 0, {list[0]});
    var s := Step(Step(init, c1), c2);
    RunOne(init, c1);
    RunOne(Step(init, c1), c2);
    RunJoin(init, [c1], [c2]);
    var signs := EveryoneSigns(s, list, |list|);
    calls := [c1] + [c2] + signs;
    RunJoin(init, [c1] + [c2], signs);
    var t := Run(s, signs);
    assert list[..|list|] == list;
    AllActive(list, t.signatures, 0);
    assert Approvers(t, 0) == set a | a in list;
    ElementsFewer(list);
  }

  /** Every execution reachable from this start has the threshold of distinct signers behind it. */
  ghost predicate ExecutesOnlyApproved(init: State) {
    forall calls: seq<Call>, id: nat ::
      ExecuteProposal(Run(init, calls), id).Ok? ==> |Approvers(Run(init, calls), id)| >= Run(init, calls).threshold
  }

  /** initialize accepts any list its threshold fits. The contract then executes only what
      threshold many distinct signers approved, on every run, if and only if the list names no
      signer twice. */
  lemma ApprovalNeedsDistinctSigners(admin: Address, list: seq<Address>, threshold: nat, auth: set<Address>, now: nat)
    requires Initialize(admin, list, threshold, auth, now).Ok? && |list| <= U32_MAX
    ensures NoDup(list) <==> ExecutesOnlyApproved(Initialize(admin, list, threshold, auth, now).value)
  {
    var init := Initialize(admin, list, threshold, auth, now).value;
    if NoDup(list) {
      forall calls: seq<Call>, id: nat | ExecuteProposal(Run(init, calls), id).Ok?
        ensures |Approvers(Run(init, calls), id)| >= Run(init, calls).threshold
      {
        assert IsInitial(init);
        ExecutionIsApproved(Run(init, calls), id);
      }
    } else {
      var calls := DuplicatesExecuteShort(admin, list, threshold, auth, now);
      assert ExecuteProposal(Run(init, calls), 0).Ok?;
    }
  }

  // ----- The prune loop -----

  /** `t` is `s` after the scan of [start, end) removed `count` proposals. */
  ghost predicate PrunedTo(s: State, start: nat, end: nat, t: State, count: nat) {
    t == Removed(s, PrunedIds(s, start, end)) && count == |PrunedIds(s, start, end)|
  }

  lemma RemovedTwice(s: State, ids: set<nat>, id: nat)
    requires id !in ids
    ensures Removed(Removed(s, ids), {id}) == Removed(s, ids + {id})
  {
    var u, v := Removed(Removed(s, ids), {id}), Removed(s, ids + {id});
    assert u.proposals == v.proposals && u.signatureCount == v.signatureCount;
    forall sig ensures sig in u.signatures <==> sig in v.signatures {
      assert sig.0 == id ==> !Cleared(s, ids, sig);
    }
  }

  /** The next id of the scan: removed if it is prunable, left alone otherwise. */
  lemma PrunedIdsNext(s: State, start: nat, id: nat, t: State, count: nat)
    requires start <= id && PrunedTo(s, start, id, t, count)
    ensures Prunable(t, id) ==> PrunedTo(s, start, id + 1, Removed(t, {id}), count + 1)
    ensures !Prunable(t, id) ==> PrunedTo(s, start, id + 1, t, count)
  {
    var ids, next := PrunedIds(s, start, id), PrunedIds(s, start, id + 1);
    assert Prunable(t, id) <==> Prunable(s, id);
    if Prunable(s, id) {
      assert next == ids + {id};
      RemovedTwice(s, ids, id);
    } else {
      assert next == ids;
    }
  }

  lemma NothingPruned(s: State, start: nat)
    ensures PrunedIds(s, start, start) == {} && Removed(s, {}) == s
  {
    assert Removed(s, {}).signatures == s.signatures;
  }

  ghost predicate IdsBelow(s: State, bound: nat) {
    forall id :: id in s.proposals ==> id <= bound
  }

  /** No proposal has an id above u64, where the scan stops. */
  lemma PrunedIdsBeyond(s: State, start: nat, i: nat, end: nat)
    requires IdsBelow(s, U64_MAX) && i <= end && (i == end || i > U64_MAX)
    ensures PrunedIds(s, start, i) == PrunedIds(s, start, end)
  {
  }

  lemma IdsFitInU64(s: State)
    requires Reachable(s)
    ensures IdsBelow(s, U64_MAX)
  {
    ReachableInv(s);
    assert forall id :: id in s.proposals ==> ProposalOk(s, id);
  }

  // ----- Initializing more than once -----

  /** A call, or initialize once more. */
  datatype AnyCall =
    | Ordinary(call: Call)
    | Again(admin: Address, list: seq<Address>, threshold: nat, auth: set<Address>)

  function AnyStep(s: State, c: AnyCall): State {
    match c
    case Ordinary(call) => Step(s, call)
    case Again(admin, list, threshold, auth) => StateAfter(s, InitializeAgain(s, admin, list, threshold, auth))
  }

  function AnyRun(s: State, calls: seq<AnyCall>): State {
    if calls == [] then s else AnyStep(AnyRun(s, calls[..|calls| - 1]), calls[|calls| - 1])
  }

  /** The call executes an operation with hash `h`. */
  predicate Executes(s: State, c: AnyCall, h: nat) {
    c.Ordinary? && c.call.Execute? && Apply(s, c.call).Ok? && s.proposals[c.call.id].opHash == h
  }

  /** How often a run executes an operation with hash `h`. */
  function TimesExecuted(s: State, calls: seq<AnyCall>, h: nat): nat {
    if calls == [] then 0
    else
      var front, c := calls[..|calls| - 1], calls[|calls| - 1];
      TimesExecuted(s, front, h) + (if Executes(AnyRun(s, front), c, h) then 1 else 0)
  }

  lemma OnlyExecuteUsesHashes(s: State, call: Call)
    requires !call.Execute?
    ensures Step(s, call).executedOps == s.executedOps
  {
  }

  lemma HashUsedByStep(s: State, c: AnyCall, h: nat)
    ensures h in AnyStep(s, c).executedOps <==> h in s.executedOps || Executes(s, c, h)
    ensures Executes(s, c, h) ==> h !in s.executedOps
  {
    if c.Ordinary? && !c.call.Execute? { OnlyExecuteUsesHashes(s, c.call); }
  }

  /** Execute-once outlives any number of initializations: from whatever state, with whatever
      calls, an operation runs exactly once if its hash becomes used and never otherwise. */
  lemma {:induction false} ExecutedOnceEver(s: State, calls: seq<AnyCall>, h: nat)
    ensures TimesExecuted(s, calls, h) == if h in AnyRun(s, calls).executedOps && h !in s.executedOps then 1 else 0
    ensures h in s.executedOps ==> h in AnyRun(s, calls).executedOps
  {
    if calls != [] {
      var front, c := calls[..|calls| - 1], calls[|calls| - 1];
      ExecutedOnceEver(s, front, h);
      HashUsedByStep(AnyRun(s, front), c, h);
    }
  }

  /** Approval by distinct signers of the proposal itself does not: the first proposal after another
      initialization takes id 0, and every flag set on an older proposal 0 counts for it. */
  lemma FlagsOutliveInitialization(s: State, admin: Address, list: seq<Address>, threshold: nat, auth: set<Address>,
                                   p: Address, a: ActionType, d: Details, text: string, e: nat, h: nat,
                                   auth': set<Address>)
    requires var s1 := InitializeAgain(s, admin, list, threshold, auth);
      s1.Ok? && SubmitProposal(s1.value, p, a, d, text, e, h, auth').Ok?
    ensures var s1 := InitializeAgain(s, admin, list, threshold, auth).value;
      var t := SubmitProposal(s1, p, a, d, text, e, h, auth').value;
      && 0 in t.proposals && t.proposals[0].opHash == h && CountOf(t, 0) == 0
      && ActiveSignatures(t.signerList, t.signatures, 0) == ActiveSignatures(list, s.signatures, 0)
  {
  }
}
