/** Pause governance of the delegation contract (contracts/credence_delegation/src/pausable.rs):
    a signer set with a threshold, and proposals whose ids are derived, not counted. */
module Pausing {
  import opened Host

  const PROPOSAL_EPOCH_SIZE: nat := 100

  /** Ledger sequence numbers are 32 bits wide, so epochs end here. */
  const LAST_EPOCH: nat := U32_MAX / PROPOSAL_EPOCH_SIZE

  datatype Action = Pause | Unpause

  datatype Approval = Approval(id: nat, signer: Address)

  datatype PauseError =
    | AlreadyInitialized | NotInitialized | NotAdmin | Unauthorized | NotSigner | HostLimit | Overflow
    | ThresholdExceedsSigners | InvalidPauseAction | ProposalNotFound | InsufficientApprovals

  /** A view of one proposal; action 0 stands for no live payload. */
  datatype View = View(id: nat, action: nat, approvals: nat, approvedBy: seq<Address>, executed: bool)

  datatype Event =
    | SignerSet(signer: Address, enabled: bool)
    | Proposed(id: nat, action: Action)
    | Approved(id: nat, signer: Address, intended: Option<Action>)
    | Executed(id: nat, action: Action, threshold: nat)

  /** Contract storage; `signers` and `approvals` hold the addresses whose flag is stored. */
  datatype State = State(
    admin: Option<Address>, sequence: nat, paused: bool,
    signers: set<Address>, signerCount: nat, threshold: nat,
    counter: nat, payloads: map<nat, Action>, approvals: set<Approval>, approvalCounts: map<nat, nat>,
    log: seq<Event>)

  type Outcome = Result<State, PauseError>

  /** The id of a proposal depends on its action and on the epoch. */
  type Derivation = (Action, nat) -> nat

  const Initial: State := State(None, 0, false, {}, 0, 0, 0, map[], {}, map[], [])

  function ActionCode(a: Action): nat {
    if a == Pause then 1 else 2
  }

  function AdminError(s: State, admin: Address, auth: set<Address>): Option<PauseError> {
    if s.admin.None? then Some(NotInitialized)
    else if s.admin.value != admin then Some(NotAdmin)
    else if admin !in auth then Some(Unauthorized)
    else None
  }

  function Initialize(s: State, admin: Address): Outcome {
    if s.admin.Some? then Err(AlreadyInitialized)
    else Ok(s.(admin := Some(admin), paused := false, signerCount := 0, threshold := 0, counter := 0))
  }

  function AddSigner(s: State, signer: Address): State {
    s.(signers := s.signers + {signer},
       signerCount := Min(s.signerCount + 1, U32_MAX),
       threshold := if s.threshold == 0 then 1 else s.threshold,
       log := s.log + [SignerSet(signer, true)])
  }

  function RemoveSigner(s: State, signer: Address): State {
    var count := Max(s.signerCount - 1, 0);
    s.(signers := s.signers - {signer},
       signerCount := count,
       threshold := Min(s.threshold, count),
       log := s.log + [SignerSet(signer, false)])
  }

  function SetPauseSigner(s: State, admin: Address, signer: Address, enabled: bool, auth: set<Address>): Outcome {
    var e := AdminError(s, admin, auth);
    if e.Some? then Err(e.value)
    else if enabled == (signer in s.signers) then Ok(s)
    else if !enabled then Ok(RemoveSigner(s, signer))
    else if |s.signers| >= HOST_VEC_LIMIT then Err(HostLimit)
    else Ok(AddSigner(s, signer))
  }

  function SetPauseThreshold(s: State, admin: Address, threshold: nat, auth: set<Address>): Outcome {
    var e := AdminError(s, admin, auth);
    if e.Some? then Err(e.value)
    else if threshold > s.signerCount then Err(ThresholdExceedsSigners)
    else if threshold == 0 && s.signerCount > 0 then Err(InvalidPauseAction)
    else Ok(s.(threshold := threshold))
  }

  function SignerError(s: State, signer: Address, auth: set<Address>): Option<PauseError> {
    if signer !in auth then Some(Unauthorized) else if signer !in s.signers then Some(NotSigner) else None
  }

  function ApprovalCount(s: State, id: nat): nat {
    if id in s.approvalCounts then s.approvalCounts[id] else 0
  }

  /** An approval flag once set is never counted again, not even after execution. */
  function RecordApproval(s: State, id: nat, signer: Address, intended: Option<Action>): Outcome {
    if Approval(id, signer) in s.approvals then Ok(s)
    else if ApprovalCount(s, id) >= U32_MAX then Err(Overflow)
    else Ok(s.(approvals := s.approvals + {Approval(id, signer)},
               approvalCounts := s.approvalCounts[id := ApprovalCount(s, id) + 1],
               log := s.log + [Approved(id, signer, intended)]))
  }

  /** The payload is written, with a count of zero, only if no payload is live under the id. */
  function WritePayload(s: State, id: nat, action: Action): State {
    if id in s.payloads then s
    else s.(payloads := s.payloads[id := action], approvalCounts := s.approvalCounts[id := 0],
            log := s.log + [Proposed(id, action)])
  }

  function ProposeAction(s: State, derive: Derivation, caller: Address, action: Action, auth: set<Address>): Outcome {
    var e := SignerError(s, caller, auth);
    var id := derive(action, s.sequence / PROPOSAL_EPOCH_SIZE);
    if e.Some? then Err(e.value) else RecordApproval(WritePayload(s, id, action), id, caller, Some(action))
  }

  /** Without signers the admin pauses directly. */
  function PauseCall(s: State, derive: Derivation, caller: Address, auth: set<Address>): Outcome {
    var e := AdminError(s, caller, auth);
    if s.threshold != 0 then ProposeAction(s, derive, caller, Pause, auth)
    else if e.Some? then Err(e.value)
    else Ok(s.(paused := true))
  }

  /** The admin may always unpause directly. */
  function UnpauseCall(s: State, derive: Derivation, caller: Address, auth: set<Address>): Outcome {
    var e := AdminError(s, caller, auth);
    if s.threshold != 0 && s.admin.None? then Err(NotInitialized)
    else if s.threshold != 0 && s.admin.value != caller then ProposeAction(s, derive, caller, Unpause, auth)
    else if e.Some? then Err(e.value)
    else Ok(s.(paused := false))
  }

  function ApproveProposal(s: State, signer: Address, id: nat, auth: set<Address>): Outcome {
    var e := SignerError(s, signer, auth);
    if e.Some? then Err(e.value)
    else if id !in s.payloads then Err(ProposalNotFound)
    else RecordApproval(s, id, signer, None)
  }

  /** Anyone may execute. The payload and the count go; the approval flags stay. */
  function ExecuteProposal(s: State, id: nat): Outcome {
    if id !in s.payloads then Err(ProposalNotFound)
    else if ApprovalCount(s, id) < s.threshold then Err(InsufficientApprovals)
    else Ok(s.(paused := s.payloads[id] == Pause, payloads := s.payloads - {id},
               approvalCounts := s.approvalCounts - {id},
               log := s.log + [Executed(id, s.payloads[id], s.threshold)]))
  }

  /** The candidates whose approval flag is stored. */
  function ApprovedBy(s: State, id: nat, candidates: seq<Address>): seq<Address> {
    if candidates == [] then []
    else
      var last := candidates[|candidates| - 1];
      ApprovedBy(s, id, candidates[..|candidates| - 1]) + (if Approval(id, last) in s.approvals then [last] else [])
  }

  function ProposalState(s: State, id: nat, candidates: seq<Address>): View {
    var approvedBy := ApprovedBy(s, id, candidates);
    View(id, if id in s.payloads then ActionCode(s.payloads[id]) else 0, ApprovalCount(s, id), approvedBy,
         id !in s.payloads && (id < s.counter || approvedBy != []))
  }
}
