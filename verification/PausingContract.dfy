/** The pause entry points as the contract runs them. */
module PausingContract {
  import opened Host
  import opened Pausing
  import T = PausingTheorems

  class PauseStore {
    const derive: Derivation
    var admin: Option<Address>
    var sequence: nat
    var paused: bool
    var signers: set<Address>
    var signerCount: nat
    var threshold: nat
    var counter: nat
    var payloads: map<nat, Action>
    var approvals: set<Approval>
    var approvalCounts: map<nat, nat>
    ghost var log: seq<Event>

    ghost function Model(): State
      reads this
    {
      State(admin, sequence, paused, signers, signerCount, threshold, counter, payloads, approvals, approvalCounts, log)
    }

    ghost predicate Valid()
      reads this
    {
      T.Reachable(Model(), derive)
    }

    constructor (derivation: Derivation)
      ensures derive == derivation && Valid() && Model() == Pausing.Initial
    {
      derive := derivation;
      admin, sequence, paused, signers, signerCount, threshold := None, 0, false, {}, 0, 0;
      counter, payloads, approvals, approvalCounts, log := 0, map[], {}, map[], [];
      new;
      assert T.Run(Pausing.Initial, derive, []) == Model();
    }

    method AdvanceSequence(n: nat)
      requires Valid() && sequence <= n <= U32_MAX
      modifies this
      ensures Valid() && Model() == old(Model()).(sequence := n)
    {
      T.ReachableStep(Model(), derive, T.CallTick(n));
      sequence := n;
    }

    method Initialize(caller: Address) returns (e: Option<PauseError>)
      requires Valid()
      modifies this
      ensures Valid()
      ensures var o := Pausing.Initialize(old(Model()), caller);
        Model() == StateAfter(old(Model()), o) && e == ErrorOf(o)
    {
      T.ReachableStep(Model(), derive, T.CallInitialize(caller));
      if admin.Some? {
        e := Some(AlreadyInitialized);
      } else {
        admin, paused, signerCount, threshold, counter := Some(caller), false, 0, 0, 0;
        e := None;
      }
    }

    method RequireAdmin(caller: Address, auth: set<Address>) returns (e: Option<PauseError>)
      ensures e == AdminError(Model(), caller, auth)
    {
      if admin.None? {
        e := Some(NotInitialized);
      } else if admin.value != caller {
        e := Some(NotAdmin);
      } else {
        e := if caller in auth then None else Some(Unauthorized);
      }
    }

    method RequireSigner(signer: Address, auth: set<Address>) returns (e: Option<PauseError>)
      ensures e == SignerError(Model(), signer, auth)
    {
      e := if signer !in auth then Some(Unauthorized) else if signer !in signers then Some(NotSigner) else None;
    }

    method SetPauseSigner(caller: Address, signer: Address, enabled: bool, auth: set<Address>)
        returns (e: Option<PauseError>)
      requires Valid()
      modifies this
      ensures Valid()
      ensures var o := Pausing.SetPauseSigner(old(Model()), caller, signer, enabled, auth);
        Model() == StateAfter(old(Model()), o) && e == ErrorOf(o)
    {
      T.ReachableStep(Model(), derive, T.CallSetSigner(caller, signer, enabled, auth));
      e := RequireAdmin(caller, auth);
      if e.None? {
        var existing := signer in signers;
        if enabled && !existing {
          if |signers| >= HOST_VEC_LIMIT {
            e := Some(HostLimit);
          } else {
            signers := signers + {signer};
            signerCount := Min(signerCount + 1, U32_MAX);
            if threshold == 0 {
              threshold := 1;
            }
            log := log + [SignerSet(signer, true)];
          }
        } else if !enabled && existing {
          signers := signers - {signer};
          signerCount := if signerCount > 0 then signerCount - 1 else 0;
          if threshold > signerCount {
            threshold := signerCount;
          }
          log := log + [SignerSet(signer, false)];
        }
      }
    }

    method SetPauseThreshold(caller: Address, n: nat, auth: set<Address>) returns (e: Option<PauseError>)
      requires Valid()
      modifies this
      ensures Valid()
      ensures var o := Pausing.SetPauseThreshold(old(Model()), caller, n, auth);
        Model() == StateAfter(old(Model()), o) && e == ErrorOf(o)
    {
      T.ReachableStep(Model(), derive, T.CallSetThreshold(caller, n, auth));
      e := RequireAdmin(caller, auth);
      if e.None? {
        if n > signerCount {
          e := Some(ThresholdExceedsSigners);
        } else if n == 0 && signerCount > 0 {
          e := Some(InvalidPauseAction);
        } else {
          threshold := n;
        }
      }
    }

    /** record_approval: a second approval of the same id changes nothing. */
    method RecordApproval(id: nat, signer: Address, ghost intended: Option<Action>) returns (e: Option<PauseError>)
      modifies this
      ensures var o := Pausing.RecordApproval(old(Model()), id, signer, intended);
        Model() == StateAfter(old(Model()), o) && e == ErrorOf(o)
    {
      var count := if id in approvalCounts then approvalCounts[id] else 0;
      e := None;
      if Approval(id, signer) !in approvals {
        if count >= U32_MAX {
          e := Some(Overflow);
        } else {
          approvals := approvals + {Approval(id, signer)};
          approvalCounts := approvalCounts[id := count + 1];
          log := log + [Approved(id, signer, intended)];
        }
      }
    }

    /** propose_action. If recording the approval fails, the host undoes the payload as well. */
    method ProposeAction(caller: Address, action: Action, auth: set<Address>)
        returns (e: Option<PauseError>, id: Option<nat>)
      modifies this
      ensures var o := Pausing.ProposeAction(old(Model()), derive, caller, action, auth);
        && Model() == StateAfter(old(Model()), o) && e == ErrorOf(o)
        && id == (if o.Ok? then Some(derive(action, old(sequence) / PROPOSAL_EPOCH_SIZE)) else None)
    {
      var p := derive(action, sequence / PROPOSAL_EPOCH_SIZE);
      var payloads0, counts0 := payloads, approvalCounts;
      ghost var log0 := log;
      id := None;
      e := RequireSigner(caller, auth);
      if e.None? {
        if p !in payloads {
          payloads := payloads[p := action];
          approvalCounts := approvalCounts[p := 0];
          log := log + [Proposed(p, action)];
        }
        e := RecordApproval(p, caller, Some(action));
        if e.Some? {
          payloads, approvalCounts, log := payloads0, counts0, log0;
        } else {
          id := Some(p);
        }
      }
    }

    method Pause(caller: Address, auth: set<Address>) returns (e: Option<PauseError>, id: Option<nat>)
      requires Valid()
      modifies this
      ensures Valid()
      ensures var o := PauseCall(old(Model()), derive, caller, auth);
        && Model() == StateAfter(old(Model()), o) && e == ErrorOf(o)
        && id == if o.Ok? && old(threshold) != 0
                 then Some(derive(Action.Pause, old(sequence) / PROPOSAL_EPOCH_SIZE)) else None
    {
      T.ReachableStep(Model(), derive, T.CallPause(caller, auth));
      id := None;
      if threshold == 0 {
        e := RequireAdmin(caller, auth);
        if e.None? {
          paused := true;
        }
      } else {
        e, id := ProposeAction(caller, Action.Pause, auth);
      }
    }

    method Unpause(caller: Address, auth: set<Address>) returns (e: Option<PauseError>, id: Option<nat>)
      requires Valid()
      modifies this
      ensures Valid()
      ensures var o := UnpauseCall(old(Model()), derive, caller, auth);
        && Model() == StateAfter(old(Model()), o) && e == ErrorOf(o)
        && id == if o.Ok? && old(threshold) != 0 && old(admin) != Some(caller)
                 then Some(derive(Action.Unpause, old(sequence) / PROPOSAL_EPOCH_SIZE)) else None
    {
      T.ReachableStep(Model(), derive, T.CallUnpause(caller, auth));
      id := None;
      if threshold != 0 && admin.None? {
        e := Some(NotInitialized);
      } else if threshold == 0 || admin == Some(caller) {
        e := RequireAdmin(caller, auth);
        if e.None? {
          paused := false;
        }
      } else {
        e, id := ProposeAction(caller, Action.Unpause, auth);
      }
    }

    method ApprovePauseProposal(signer: Address, id: nat, auth: set<Address>) returns (e: Option<PauseError>)
      requires Valid()
      modifies this
      ensures Valid()
      ensures var o := ApproveProposal(old(Model()), signer, id, auth);
        Model() == StateAfter(old(Model()), o) && e == ErrorOf(o)
    {
      T.ReachableStep(Model(), derive, T.CallApprove(signer, id, auth));
      e := RequireSigner(signer, auth);
      if e.None? {
        if id !in payloads {
          e := Some(ProposalNotFound);
        } else {
          e := RecordApproval(id, signer, None);
        }
      }
    }

    method ExecutePauseProposal(id: nat) returns (e: Option<PauseError>)
      requires Valid()
      modifies this
      ensures Valid()
      ensures var o := ExecuteProposal(old(Model()), id);
        Model() == StateAfter(old(Model()), o) && e == ErrorOf(o)
    {
      T.ReachableStep(Model(), derive, T.CallExecute(id));
      if id !in payloads {
        e := Some(ProposalNotFound);
      } else if (if id in approvalCounts then approvalCounts[id] else 0) < threshold {
        e := Some(InsufficientApprovals);
      } else {
        var action := payloads[id];
        match action {
          case Pause => paused := true;
          case Unpause => paused := false;
        }
        payloads := payloads - {id};
        approvalCounts := approvalCounts - {id};
        log := log + [Executed(id, action, threshold)];
        e := None;
      }
    }

    /** get_pause_proposal_state, with what the history says about its `executed` flag. */
    method GetPauseProposalState(id: nat, candidates: seq<Address>) returns (v: View)
      requires Valid()
      ensures v == ProposalState(Model(), id, candidates)
      ensures v.executed <==>
        (exists i: nat :: T.ExecutedLast(log, id, i)) && exists w :: w in candidates && Approval(id, w) in approvals
    {
      T.ViewIsExact(Model(), derive, id, candidates);
      var approvedBy := [];
      for i := 0 to |candidates|
        invariant approvedBy == ApprovedBy(Model(), id, candidates[..i])
      {
        assert candidates[..i + 1][..i] == candidates[..i];
        if Approval(id, candidates[i]) in approvals {
          approvedBy := approvedBy + [candidates[i]];
        }
      }
      assert candidates[..|candidates|] == candidates;
      var action := if id in payloads then ActionCode(payloads[id]) else 0;
      var count := if id in approvalCounts then approvalCounts[id] else 0;
      v := View(id, action, count, approvedBy, action == 0 && (id < counter || |approvedBy| > 0));
    }
  }
}
