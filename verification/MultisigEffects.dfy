/** What each call does to the multi-signature contract, told from its states before and after, and
    what that means for whole runs. */
module MultisigEffects {
  import opened Host
  import opened Lists
  import opened Multisig
  import opened MultisigTheorems

  // ----- Signers -----

  /** The admin signed the call, and the contract runs. */
  predicate AdminMay(s: State, caller: Address, auth: set<Address>) {
    !s.paused && caller in auth && caller == s.admin
  }

  /** Nothing changed but who the signers are and the threshold. */
  predicate OnlySigners(s: State, t: State) {
    t == s.(signers := t.signers, signerCount := t.signerCount, signerList := t.signerList, threshold := t.threshold)
  }

  /** It is initialized, or initialized again, by a call its admin signed, on a list and a threshold
      the list can meet; of what was stored before, proposals, flags and used hashes stay. */
  lemma InitializeTakesEffect(s: State, a: Address, list: seq<Address>, n: nat, auth: set<Address>, now: nat)
    ensures Initialize(a, list, n, auth, now).Ok? <==> a in auth && 1 <= n <= |list|
    ensures InitializeAgain(s, a, list, n, auth).Ok? <==> a in auth && 1 <= n <= |list|
    ensures Initialize(a, list, n, auth, now).Ok? ==>
      var t := Initialize(a, list, n, auth, now).value;
      && t.admin == a && !t.paused && t.now == now && t.signerList == list && t.signerCount == |list|
      && t.threshold == n
      && (forall x :: x in t.signers <==> x in list) && t.counter == 0 && t.proposals == map[] && t.signatures == {}
      && t.executedOps == {}
    ensures InitializeAgain(s, a, list, n, auth).Ok? ==>
      var t := InitializeAgain(s, a, list, n, auth).value;
      && t.admin == a && !t.paused && t.now == s.now && t.signerList == list && t.signerCount == |list|
      && t.threshold == n
      && (forall x :: x in t.signers <==> x in s.signers || x in list) && t.counter == 0
      && t.proposals == s.proposals && t.signatures == s.signatures && t.executedOps == s.executedOps
  {
  }

  /** A signer is added at the end of the list, by the admin, unless it is one already. */
  lemma AddSignerTakesEffect(s: State, caller: Address, a: Address, auth: set<Address>)
    requires Reachable(s)
    ensures AddSigner(s, caller, a, auth).Ok? <==>
      AdminMay(s, caller, auth) && a !in s.signers && s.signerCount < 0xFFFF_FFFF
    ensures AddSigner(s, caller, a, auth).Ok? ==>
      var t := AddSigner(s, caller, a, auth).value;
      && OnlySigners(s, t) && t.signers == s.signers + {a} && t.signerList == s.signerList + [a]
      && t.signerCount == s.signerCount + 1 && t.threshold == s.threshold
  {
  }

  lemma ListWithout(s: State, a: Address)
    requires Reachable(s)
    ensures Without(s.signerList, a) == Kept(s.signerList, s.signers - {a})
    ensures |Without(s.signerList, a)| == |s.signerList| - (if a in s.signers then 1 else 0)
    ensures s.signerCount == |s.signerList| && s.threshold <= |s.signerList|
  {
    ReachableInv(s);
    KeptIs(s.signerList, s.signers);
    KeptWithout(s.signerList, s.signers, a);
    WithoutList(s.signerList, a);
  }

  /** A signer is removed, by the admin, unless it is the last; the others keep their order, and the
      threshold falls only if it could not be met any more. */
  lemma RemoveSignerTakesEffect(s: State, caller: Address, a: Address, auth: set<Address>)
    requires Reachable(s)
    ensures RemoveSigner(s, caller, a, auth).Ok? <==> AdminMay(s, caller, auth) && a in s.signers && |s.signerList| > 1
    ensures RemoveSigner(s, caller, a, auth).Ok? ==>
      var t := RemoveSigner(s, caller, a, auth).value;
      && OnlySigners(s, t) && t.signers == s.signers - {a} && |t.signerList| == |s.signerList| - 1 == t.signerCount
      && t.signerList == Kept(s.signerList, s.signers - {a})
      && t.threshold == (if s.threshold == |s.signerList| then s.threshold - 1 else s.threshold)
  {
    ListWithout(s, a);
  }

  /** The admin sets a threshold the signers can meet. */
  lemma SetThresholdTakesEffect(s: State, caller: Address, n: nat, auth: set<Address>)
    requires Reachable(s)
    ensures SetThreshold(s, caller, n, auth).Ok? <==> AdminMay(s, caller, auth) && 1 <= n <= |s.signers|
    ensures SetThreshold(s, caller, n, auth).Ok? ==> SetThreshold(s, caller, n, auth).value == s.(threshold := n)
  {
    ReachableInv(s);
    NoDupSize(s.signerList, s.signers);
  }

  // ----- Proposals -----

  /** Nothing changed but the proposal `id` and what is stored for it. */
  ghost predicate OnlyProposal(s: State, t: State, id: nat) {
    && t.now == s.now && t.paused == s.paused && t.admin == s.admin && t.threshold == s.threshold
    && t.signers == s.signers && t.signerList == s.signerList && t.signerCount == s.signerCount
    && (forall j :: j != id ==>
          && (j in t.proposals <==> j in s.proposals) && (j in s.proposals ==> t.proposals[j] == s.proposals[j])
          && CountOf(t, j) == CountOf(s, j))
    && (forall sig :: sig in t.signatures && sig !in s.signatures ==> sig.0 == id)
    && (forall sig :: sig in s.signatures ==> sig in t.signatures)
  }

  lemma NextIsNew(s: State)
    requires Reachable(s)
    ensures s.counter !in s.proposals && SignaturesOn(s, s.counter) == {}
  {
    ReachableInv(s);
    assert s.counter in s.proposals ==> ProposalOk(s, s.counter);
  }

  /** A signer submits: the proposal is stored as given, pending and unsigned, under a new id. */
  lemma SubmitTakesEffect(s: State, p: Address, a: ActionType, d: Details, text: string, expiresAt: nat, h: nat,
                          auth: set<Address>)
    requires Reachable(s)
    ensures SubmitProposal(s, p, a, d, text, expiresAt, h, auth).Ok? <==>
      !s.paused && p in auth && p in s.signers && text != "" && s.counter < U64_MAX
    ensures SubmitProposal(s, p, a, d, text, expiresAt, h, auth).Ok? ==>
      var t, id := SubmitProposal(s, p, a, d, text, expiresAt, h, auth).value, s.counter;
      && OnlyProposal(s, t, id) && t.counter == id + 1 && id !in s.proposals
      && id in t.proposals && t.proposals[id] == Proposal(a, d, text, s.now, p, Pending, expiresAt, h)
      && t.signatures == s.signatures && SignaturesOn(t, id) == {} && CountOf(t, id) == 0
      && t.executedOps == s.executedOps && t.executions == s.executions
  {
    NextIsNew(s);
    var o := SubmitProposal(s, p, a, d, text, expiresAt, h, auth);
    if o.Ok? { assert SignaturesOn(o.value, s.counter) == SignaturesOn(s, s.counter); }
  }

  /** Is the proposal open at this moment: pending, and without an expiry or before it? */
  predicate IsOpen(s: State, id: nat) {
    id in s.proposals && s.proposals[id].status == Pending
    && (s.proposals[id].expiresAt == 0 || s.now < s.proposals[id].expiresAt)
  }

  /** A signer who signed the call, and has not signed the open proposal yet, signs it. */
  lemma SignTakesEffect(s: State, signer: Address, id: nat, auth: set<Address>)
    requires Reachable(s)
    ensures SignProposal(s, signer, id, auth).Ok? <==>
      && !s.paused && signer in auth && signer in s.signers && IsOpen(s, id) && (id, signer) !in s.signatures
      && |SignaturesOn(s, id)| < 0xFFFF_FFFF
    ensures SignProposal(s, signer, id, auth).Ok? ==>
      var t := SignProposal(s, signer, id, auth).value;
      && OnlyProposal(s, t, id) && t.signatures == s.signatures + {(id, signer)}
      && t.proposals == s.proposals && CountOf(t, id) == |SignaturesOn(s, id)| + 1
      && t.counter == s.counter && t.executedOps == s.executedOps && t.executions == s.executions
  {
    ReachableInv(s);
    assert id in s.proposals ==> ProposalOk(s, id);
  }

  lemma ActiveAreCurrent(s: State, id: nat)
    requires Reachable(s)
    ensures ActiveSignatures(s.signerList, s.signatures, id) == |set a | a in s.signers && (id, a) in s.signatures|
  {
    ReachableInv(s);
    ActiveAreDistinct(s.signerList, s.signatures, id);
    assert (set a | a in s.signerList && (id, a) in s.signatures) == set a | a in s.signers && (id, a) in s.signatures;
  }

  /** Execution marks its proposal and uses up its hash, and that is all. */
  lemma ExecuteTakesEffect(s: State, id: nat)
    requires Reachable(s)
    ensures ExecuteProposal(s, id).Ok? <==>
      && !s.paused && IsOpen(s, id) && |set a | a in s.signers && (id, a) in s.signatures| >= s.threshold
      && s.proposals[id].opHash !in s.executedOps
    ensures ExecuteProposal(s, id).Ok? ==>
      var t, p := ExecuteProposal(s, id).value, s.proposals[id];
      && OnlyProposal(s, t, id) && t.proposals == s.proposals[id := p.(status := Executed)]
      && t.signatures == s.signatures && t.counter == s.counter && t.executedOps == s.executedOps + {p.opHash}
      && CountOf(t, id) == |set a | a in s.signers && (id, a) in s.signatures|
  {
    ActiveAreCurrent(s, id);
  }

  /** The admin rejects a pending proposal, expired or not, and that is all. */
  lemma RejectTakesEffect(s: State, caller: Address, id: nat, auth: set<Address>)
    ensures RejectProposal(s, caller, id, auth).Ok? <==>
      AdminMay(s, caller, auth) && id in s.proposals && s.proposals[id].status == Pending
    ensures RejectProposal(s, caller, id, auth).Ok? ==>
      RejectProposal(s, caller, id, auth).value
        == s.(proposals := s.proposals[id := s.proposals[id].(status := Rejected)])
  {
  }

  /** The proposal was issued and is not pending, or is gone: it will never be pending again. */
  predicate Closed(s: State, id: nat) {
    id < s.counter && (id in s.proposals ==> s.proposals[id].status != Pending)
  }

  lemma StaysClosed(s: State, call: Call, id: nat)
    requires Closed(s, id)
    ensures Closed(Step(s, call), id)
  {
  }

  lemma {:induction false} ClosedForGood(s: State, calls: seq<Call>, id: nat)
    requires Closed(s, id)
    ensures Closed(Run(s, calls), id)
  {
    if calls != [] {
      ClosedForGood(s, calls[..|calls| - 1], id);
      StaysClosed(Run(s, calls[..|calls| - 1]), calls[|calls| - 1], id);
    }
  }

  /** What was rejected is never signed or executed again, whatever is called. */
  lemma RejectedForGood(s: State, caller: Address, id: nat, auth: set<Address>, calls: seq<Call>, signer: Address,
                        auth': set<Address>)
    requires Reachable(s) && RejectProposal(s, caller, id, auth).Ok?
    ensures var t := Run(RejectProposal(s, caller, id, auth).value, calls);
      ExecuteProposal(t, id).Err? && SignProposal(t, signer, id, auth').Err? && RejectProposal(t, caller, id, auth).Err?
  {
    var t := RejectProposal(s, caller, id, auth).value;
    ReachableInv(s);
    assert ProposalOk(s, id);
    ClosedForGood(t, calls, id);
  }

  /** How many ids a prune call looks at. */
  function PruneRange(maxIter: nat): nat {
    if maxIter == 0 then 50 else if maxIter > 200 then 200 else maxIter
  }

  /** Stored as expired, or past its expiry and not executed. */
  predicate IsStale(s: State, id: nat) {
    && id in s.proposals
    && var p := s.proposals[id];
    p.status == Expired || (p.status != Executed && p.expiresAt > 0 && s.now >= p.expiresAt)
  }

  /** The proposals of `t` are those of `s` but for the stale ones of the range. */
  ghost predicate KeepsFresh(s: State, t: State, start: nat, range: nat) {
    forall id :: (id in t.proposals <==> id in s.proposals && !(start <= id < start + range && IsStale(s, id)))
                 && (id in t.proposals ==> t.proposals[id] == s.proposals[id] && CountOf(t, id) == CountOf(s, id))
  }

  /** The signatures that go are those which listed signers and the proposer put on what goes. */
  ghost predicate DropsSignatures(s: State, t: State) {
    forall sig :: sig in t.signatures <==>
      sig in s.signatures
      && !(sig.0 in s.proposals && sig.0 !in t.proposals
           && (sig.1 in s.signerList || sig.1 == s.proposals[sig.0].proposer))
  }

  lemma PruneKeepsFresh(s: State, start: nat, maxIter: nat)
    ensures var ids := PrunedIds(s, start, start + PruneLimit(maxIter));
      KeepsFresh(s, Removed(s, ids), start, PruneRange(maxIter))
      && s.proposals.Keys - Removed(s, ids).proposals.Keys == ids
  {
    var ids := PrunedIds(s, start, start + PruneLimit(maxIter));
    forall id ensures id in ids <==> start <= id < start + PruneRange(maxIter) && IsStale(s, id) {}
  }

  lemma PruneDropsSignatures(s: State, ids: set<nat>)
    requires ids <= s.proposals.Keys
    ensures DropsSignatures(s, Removed(s, ids))
  {
    var t := Removed(s, ids);
    forall sig | sig in s.signatures ensures sig in t.signatures <==> !Cleared(s, ids, sig) {}
  }

  /** Pruning removes exactly the stale proposals of its range, with the signatures its present signers
      and the proposer put on them, and says how many; a range is 50 ids if none is asked for, and
      never more than 200. */
  lemma PruneTakesEffect(s: State, start: nat, maxIter: nat, t: State, n: nat)
    requires PruneExpiredProposals(s, start, maxIter) == Ok((t, n))
    ensures !s.paused
    ensures t == s.(proposals := t.proposals, signatures := t.signatures, signatureCount := t.signatureCount)
    ensures KeepsFresh(s, t, start, PruneRange(maxIter)) && DropsSignatures(s, t)
    ensures n == |s.proposals.Keys - t.proposals.Keys|
  {
    PruneKeepsFresh(s, start, maxIter);
    PruneDropsSignatures(s, PrunedIds(s, start, start + PruneLimit(maxIter)));
  }

  // ----- Over whole runs -----

  /** The call signs proposal `id` for `a`, who signed the call. */
  predicate Signs(call: Call, id: nat, a: Address) {
    call.Sign? && call.id == id && call.signer == a && a in call.auth
  }

  /** The call submits just this proposal, signed by its proposer. */
  predicate Submits(s: State, call: Call, id: nat, p: Proposal) {
    && call.Submit? && id == s.counter && p.proposer in call.auth && p.proposer in s.signers
    && p == Proposal(call.action, call.details, call.description, s.now, call.proposer, Pending, call.expiresAt,
                     call.opHash)
  }

  /** The call makes `a` a signer, signed by the admin. */
  predicate Enlists(s: State, call: Call, a: Address) {
    call.Add? && call.signer == a && call.admin == s.admin && s.admin in call.auth
  }

  lemma StepIsSigned(s: State, call: Call, id: nat, a: Address)
    ensures var t := Step(s, call);
      && t.admin == s.admin
      && ((id, a) in t.signatures && (id, a) !in s.signatures ==> Signs(call, id, a))
      && (a in t.signers && a !in s.signers ==> Enlists(s, call, a))
  {
  }

  lemma StepStores(s: State, call: Call, id: nat)
    requires Inv(s)
    ensures var t := Step(s, call);
      id in t.proposals ==>
        if id in s.proposals then t.proposals[id].(status := Pending) == s.proposals[id].(status := Pending)
        else Submits(s, call, id, t.proposals[id])
  {
    assert s.counter in s.proposals ==> ProposalOk(s, s.counter);
  }

  ghost predicate SignedBy(calls: seq<Call>, i: nat, id: nat, a: Address) {
    i < |calls| && Signs(calls[i], id, a)
  }

  ghost predicate SubmittedBy(s: State, calls: seq<Call>, i: nat, id: nat, p: Proposal) {
    i < |calls| && Submits(Run(s, calls[..i]), calls[i], id, p)
  }

  ghost predicate EnlistedBy(s: State, calls: seq<Call>, i: nat, a: Address) {
    i < |calls| && Enlists(Run(s, calls[..i]), calls[i], a)
  }

  /** On every run: a signature flag goes back to a call by which its signer signed that very
      proposal; a signer was there from the start or was added by a call the admin signed; and the
      admin stays who it was. */
  lemma {:induction false} FlagsGoBackToSigners(s: State, calls: seq<Call>, id: nat, a: Address)
    ensures var t := Run(s, calls);
      && t.admin == s.admin
      && ((id, a) in t.signatures ==> (id, a) in s.signatures || exists i: nat :: SignedBy(calls, i, id, a))
      && (a in t.signers ==> a in s.signers || exists i: nat :: EnlistedBy(s, calls, i, a))
  {
    if calls != [] {
      var k := |calls| - 1;
      var front := calls[..k];
      var u, t := Run(s, front), Run(s, calls);
      FlagsGoBackToSigners(s, front, id, a);
      StepIsSigned(u, calls[k], id, a);
      if (id, a) in u.signatures && (id, a) !in s.signatures {
        var i: nat :| SignedBy(front, i, id, a);
        assert SignedBy(calls, i, id, a);
      } else if (id, a) in t.signatures && (id, a) !in s.signatures {
        assert SignedBy(calls, k, id, a);
      }
      if a in u.signers && a !in s.signers {
        var i: nat :| EnlistedBy(s, front, i, a);
        assert front[..i] == calls[..i] && EnlistedBy(s, calls, i, a);
      } else if a in t.signers && a !in s.signers {
        assert EnlistedBy(s, calls, k, a);
      }
    }
  }

  /** On every run from a fresh contract each proposal is, but for its status, just what a signer of
      that moment submitted and signed for. */
  lemma {:induction false} ProposalsGoBackToSubmissions(s: State, calls: seq<Call>, id: nat)
    requires IsInitial(s)
    ensures var t := Run(s, calls);
      id in t.proposals ==> exists i: nat :: SubmittedBy(s, calls, i, id, t.proposals[id].(status := Pending))
  {
    if calls != [] {
      var k := |calls| - 1;
      var front := calls[..k];
      var u, t := Run(s, front), Run(s, calls);
      RunKeepsInv(s, front);
      ProposalsGoBackToSubmissions(s, front, id);
      StepStores(u, calls[k], id);
      if id in t.proposals {
        var p := t.proposals[id].(status := Pending);
        if id in u.proposals {
          var i: nat :| SubmittedBy(s, front, i, id, p);
          assert front[..i] == calls[..i] && SubmittedBy(s, calls, i, id, p);
        } else {
          assert SubmittedBy(s, calls, k, id, p);
        }
      }
    }
  }
}
