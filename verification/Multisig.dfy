/** The multi-signature contract (contracts/credence_multisig/src/multisig.rs): what each entry
    point does to storage, stated on values. */
module Multisig {
  import opened Host
  import opened Lists

  const MAX_ITER_HARD_CAP: nat := 200
  const DEFAULT_MAX_ITER: nat := 50

  datatype ActionType = ContractCall | Transfer | ConfigChange | SignerManagement | Custom

  datatype Status = Pending | Executed | Rejected | Expired

  /** What a proposal carries for whoever acts on it; no entry point reads it. */
  datatype Details = Details(
    target: Option<Address>, functionName: Option<string>, arguments: Option<seq<bv8>>, metadata: Option<string>)

  datatype Proposal = Proposal(
    action: ActionType, details: Details, description: string, proposedAt: nat, proposer: Address,
    status: Status, expiresAt: nat, opHash: nat)

  datatype MultisigError =
    | Unauthorized | ContractPaused | NotAdmin | AlreadyActive | NotSigner | InvalidPauseAction
    | ThresholdExceedsSigners | ProposalNotFound | ProposalAlreadyExecuted | InsufficientApprovals
    | Overflow

  /** History: who stood behind an execution, and the threshold it met. */
  datatype Execution = Execution(opHash: nat, approvers: set<Address>, threshold: nat)

  /** Storage and ledger clock. Boolean flags are the sets of keys at which they are true.
      Two fields are history: the execution recorded for a proposal id, and the id that used up
      an operation hash. */
  datatype State = State(
    now: nat, paused: bool, admin: Address,
    signers: set<Address>, signerCount: nat, signerList: seq<Address>, threshold: nat,
    counter: nat, proposals: map<nat, Proposal>,
    signatures: set<(nat, Address)>, signatureCount: map<nat, nat>,
    executedOps: set<nat>, executions: map<nat, Execution>, usedBy: map<nat, nat>)

  type Outcome = Result<State, MultisigError>

  /** What the caller sees of an outcome. */
  function Answer(o: Outcome): Result<(), MultisigError> {
    if o.Ok? then Ok(()) else Err(o.error)
  }

  function Initialize(admin: Address, signers: seq<Address>, threshold: nat, auth: set<Address>, now: nat): Outcome {
    if admin !in auth then Err(Unauthorized)
    else if signers == [] || threshold == 0 || threshold > |signers| then Err(ThresholdExceedsSigners)
    else Ok(State(now, false, admin, set a | a in signers, |signers|, signers, threshold,
                  0, map[], {}, map[], {}, map[], map[]))
  }

  /** Ids start again from 0 and the list is replaced, while proposals, signer flags, signature
      flags and used hashes stay as they are. */
  function Renewed(s: State, admin: Address, list: seq<Address>, threshold: nat): State {
    s.(admin := admin, paused := false, signers := s.signers + Elements(list),
       signerCount := |list|, signerList := list, threshold := threshold, counter := 0)
  }

  /** initialize once more, for which there is no guard. */
  function InitializeAgain(s: State, admin: Address, list: seq<Address>, threshold: nat, auth: set<Address>): Outcome {
    if admin !in auth then Err(Unauthorized)
    else if list == [] || threshold == 0 || threshold > |list| then Err(ThresholdExceedsSigners)
    else Ok(Renewed(s, admin, list, threshold))
  }

  /** The checks every admin entry point starts with. */
  function AdminGuard(s: State, admin: Address, auth: set<Address>): Option<MultisigError> {
    if s.paused then Some(ContractPaused)
    else if admin !in auth then Some(Unauthorized)
    else if admin != s.admin then Some(NotAdmin)
    else None
  }

  function AddSigner(s: State, admin: Address, signer: Address, auth: set<Address>): Outcome {
    var guard := AdminGuard(s, admin, auth);
    if guard.Some? then Err(guard.value)
    else if signer in s.signers then Err(AlreadyActive)
    else if s.signerCount >= U32_MAX then Err(Overflow)
    else Ok(s.(signers := s.signers + {signer}, signerCount := s.signerCount + 1,
               signerList := s.signerList + [signer]))
  }

  /** Signatures of a removed signer stay stored; the threshold follows the count down. */
  function RemoveSigner(s: State, admin: Address, signer: Address, auth: set<Address>): Outcome {
    var guard := AdminGuard(s, admin, auth);
    if guard.Some? then Err(guard.value)
    else if signer !in s.signers then Err(NotSigner)
    else if s.signerCount <= 1 then Err(InvalidPauseAction)
    else Ok(s.(signers := s.signers - {signer}, signerCount := s.signerCount - 1,
               signerList := Without(s.signerList, signer),
               threshold := Min(s.threshold, s.signerCount - 1)))
  }

  function SetThreshold(s: State, admin: Address, threshold: nat, auth: set<Address>): Outcome {
    var guard := AdminGuard(s, admin, auth);
    if guard.Some? then Err(guard.value)
    else if threshold == 0 || threshold > s.signerCount then Err(ThresholdExceedsSigners)
    else Ok(s.(threshold := threshold))
  }

  function SubmitProposal(s: State, proposer: Address, action: ActionType, details: Details, description: string,
                          expiresAt: nat, opHash: nat, auth: set<Address>): Outcome {
    if s.paused then Err(ContractPaused)
    else if proposer !in auth then Err(Unauthorized)
    else if proposer !in s.signers then Err(NotSigner)
    else if description == "" then Err(InvalidPauseAction)
    else if s.counter >= U64_MAX then Err(Overflow)
    else Ok(s.(counter := s.counter + 1,
               proposals := s.proposals[s.counter :=
                 Proposal(action, details, description, s.now, proposer, Pending, expiresAt, opHash)],
               signatureCount := s.signatureCount[s.counter := 0]))
  }

  predicate IsOver(p: Proposal, now: nat) {
    p.expiresAt > 0 && now >= p.expiresAt
  }

  function CountOf(s: State, id: nat): nat {
    if id in s.signatureCount then s.signatureCount[id] else 0
  }

  function SignProposal(s: State, signer: Address, id: nat, auth: set<Address>): Outcome {
    if s.paused then Err(ContractPaused)
    else if signer !in auth then Err(Unauthorized)
    else if signer !in s.signers then Err(NotSigner)
    else if id !in s.proposals then Err(ProposalNotFound)
    else if s.proposals[id].status != Pending || IsOver(s.proposals[id], s.now) then Err(ProposalAlreadyExecuted)
    else if (id, signer) in s.signatures then Err(AlreadyActive)
    else if CountOf(s, id) >= U32_MAX then Err(Overflow)
    else Ok(s.(signatures := s.signatures + {(id, signer)},
               signatureCount := s.signatureCount[id := CountOf(s, id) + 1]))
  }

  /** The signatures on a proposal that count now: those of the listed signers. */
  function ActiveSignatures(list: seq<Address>, signatures: set<(nat, Address)>, id: nat): nat {
    if list == [] then 0
    else ActiveSignatures(list[..|list| - 1], signatures, id)
         + (if (id, list[|list| - 1]) in signatures then 1 else 0)
  }

  function Approvers(s: State, id: nat): set<Address> {
    set a | a in s.signers && (id, a) in s.signatures
  }

  function ExecuteProposal(s: State, id: nat): Outcome {
    if s.paused then Err(ContractPaused)
    else if id !in s.proposals then Err(ProposalNotFound)
    else
      var p := s.proposals[id];
      var active := ActiveSignatures(s.signerList, s.signatures, id);
      if p.status != Pending || IsOver(p, s.now) then Err(ProposalAlreadyExecuted)
      else if active < s.threshold then Err(InsufficientApprovals)
      else if p.opHash in s.executedOps then Err(ProposalAlreadyExecuted)
      else Ok(s.(signatureCount :=
                   if active != CountOf(s, id) then s.signatureCount[id := active] else s.signatureCount,
                 executedOps := s.executedOps + {p.opHash},
                 proposals := s.proposals[id := p.(status := Executed)],
                 executions := s.executions[id := Execution(p.opHash, Approvers(s, id), s.threshold)],
                 usedBy := s.usedBy[p.opHash := id]))
  }

  function RejectProposal(s: State, admin: Address, id: nat, auth: set<Address>): Outcome {
    var guard := AdminGuard(s, admin, auth);
    if guard.Some? then Err(guard.value)
    else if id !in s.proposals then Err(ProposalNotFound)
    else if s.proposals[id].status != Pending then Err(ProposalAlreadyExecuted)
    else Ok(s.(proposals := s.proposals[id := s.proposals[id].(status := Rejected)]))
  }

  predicate IsPrunable(p: Proposal, now: nat) {
    p.status == Expired || (p.status != Executed && IsOver(p, now))
  }

  predicate Prunable(s: State, id: nat) {
    id in s.proposals && IsPrunable(s.proposals[id], s.now)
  }

  function PruneLimit(maxIter: nat): nat {
    if maxIter == 0 then DEFAULT_MAX_ITER else Min(maxIter, MAX_ITER_HARD_CAP)
  }

  /** The ids a prune call over [start, end) removes. */
  function PrunedIds(s: State, start: nat, end: nat): set<nat> {
    set id | id in s.proposals && start <= id < end && Prunable(s, id)
  }

  /** Removal also clears the signatures of current signers and of the proposer. */
  predicate Cleared(s: State, ids: set<nat>, sig: (nat, Address)) {
    sig.0 in ids && (sig.1 in s.signerList || (sig.0 in s.proposals && sig.1 == s.proposals[sig.0].proposer))
  }

  function Removed(s: State, ids: set<nat>): State {
    s.(proposals := s.proposals - ids,
       signatures := (set sig | sig in s.signatures && !Cleared(s, ids, sig)),
       signatureCount := s.signatureCount - ids)
  }

  function PruneExpiredProposals(s: State, start: nat, maxIter: nat): Result<(State, nat), MultisigError> {
    if s.paused then Err(ContractPaused)
    else
      var ids := PrunedIds(s, start, start + PruneLimit(maxIter));
      Ok((Removed(s, ids), |ids|))
  }
}
