/** What every run of the pause governance keeps. */
module PausingTheorems {
  import opened Host
  import opened Pausing

  // ----- Runs -----

  datatype Call =
    | CallTick(sequence: nat)
    | CallInitialize(admin: Address)
    | CallSetSigner(admin: Address, signer: Address, enabled: bool, auth: set<Address>)
    | CallSetThreshold(admin: Address, threshold: nat, auth: set<Address>)
    | CallPause(caller: Address, auth: set<Address>)
    | CallUnpause(caller: Address, auth: set<Address>)
    | CallApprove(signer: Address, id: nat, auth: set<Address>)
    | CallExecute(id: nat)

  function Step(s: State, derive: Derivation, c: Call): Outcome {
    match c
    case CallTick(sequence) => Ok(if s.sequence <= sequence <= U32_MAX then s.(sequence := sequence) else s)
    case CallInitialize(admin) => Initialize(s, admin)
    case CallSetSigner(admin, signer, enabled, auth) => SetPauseSigner(s, admin, signer, enabled, auth)
    case CallSetThreshold(admin, threshold, auth) => SetPauseThreshold(s, admin, threshold, auth)
    case CallPause(caller, auth) => PauseCall(s, derive, caller, auth)
    case CallUnpause(caller, auth) => UnpauseCall(s, derive, caller, auth)
    case CallApprove(signer, id, auth) => ApproveProposal(s, signer, id, auth)
    case CallExecute(id) => ExecuteProposal(s, id)
  }

  function Run(s: State, derive: Derivation, calls: seq<Call>): State {
    if calls == [] then s
    else
      var before := Run(s, derive, calls[..|calls| - 1]);
      StateAfter(before, Step(before, derive, calls[|calls| - 1]))
  }

  ghost predicate Reachable(s: State, derive: Derivation) {
    exists calls :: Run(Initial, derive, calls) == s
  }

  lemma ReachableStep(s: State, derive: Derivation, c: Call)
    requires Reachable(s, derive)
    ensures Reachable(StateAfter(s, Step(s, derive, c)), derive)
  {
    var calls :| Run(Initial, derive, calls) == s;
    assert (calls + [c])[..|calls|] == calls;
    assert Run(Initial, derive, calls + [c]) == StateAfter(s, Step(s, derive, c));
  }

  // ----- What the log says -----

  /** The signers, as the log tells them. */
  function SignersOf(log: seq<Event>): set<Address> {
    if log == [] then {}
    else
      var before, e := SignersOf(log[..|log| - 1]), log[|log| - 1];
      if !e.SignerSet? then before else if e.enabled then before + {e.signer} else before - {e.signer}
  }

  /** The payload written under `id` and not executed since. */
  function Live(log: seq<Event>, id: nat): Option<Action> {
    if log == [] then None
    else
      var e := log[|log| - 1];
      if e.Proposed? && e.id == id then Some(e.action)
      else if e.Executed? && e.id == id then None
      else Live(log[..|log| - 1], id)
  }

  /** Who newly approved `id` since its payload was last written. */
  function Fresh(log: seq<Event>, id: nat): set<Address> {
    if log == [] then {}
    else
      var e := log[|log| - 1];
      if e.Proposed? && e.id == id then {}
      else Fresh(log[..|log| - 1], id) + (if e.Approved? && e.id == id then {e.signer} else {})
  }

  /** Was a payload ever written under `id`? */
  predicate Ever(log: seq<Event>, id: nat) {
    exists i :: 0 <= i < |log| && log[i].Proposed? && log[i].id == id
  }

  /** An approval is logged while its author is a signer. */
  ghost predicate ApprovalJustified(log: seq<Event>, i: nat) {
    i < |log| && log[i].Approved? ==> log[i].signer in SignersOf(log[..i])
  }

  /** An execution is logged with enough fresh approvers behind the payload that was live, and with
      a threshold of zero exactly if there was no signer. */
  ghost predicate ExecutionJustified(log: seq<Event>, i: nat) {
    i < |log| && log[i].Executed? ==>
      && Live(log[..i], log[i].id) == Some(log[i].action) && |Fresh(log[..i], log[i].id)| >= log[i].threshold
      && (log[i].threshold == 0 <==> SignersOf(log[..i]) == {})
  }

  ghost predicate ProposalInv(s: State, id: nat) {
    && (if id in s.payloads then Live(s.log, id) == Some(s.payloads[id]) else Live(s.log, id) == None)
    && (id in s.payloads ==> id in s.approvalCounts && s.approvalCounts[id] == |Fresh(s.log, id)|)
    && (id !in s.payloads ==> id !in s.approvalCounts)
    && (forall w :: w in Fresh(s.log, id) ==> Approval(id, w) in s.approvals)
    && (Ever(s.log, id) <==> exists w :: Approval(id, w) in s.approvals)
    && (id in s.payloads ==> Ever(s.log, id))
  }

  ghost predicate SignerInv(s: State) {
    && s.signers == SignersOf(s.log)
    && s.signerCount == |s.signers| <= HOST_VEC_LIMIT
    && s.threshold <= s.signerCount
    && (s.threshold == 0 <==> s.signerCount == 0)
    && (s.admin.None? ==> s.signers == {} && s.payloads == map[])
  }

  ghost predicate Inv(s: State) {
    && SignerInv(s)
    && s.counter == 0
    && (forall id: nat :: ProposalInv(s, id))
    && (forall i: nat :: ApprovalJustified(s.log, i))
    && (forall i: nat :: ExecutionJustified(s.log, i))
  }

  // ----- Each step keeps the invariant -----

  lemma LogPush(log: seq<Event>, e: Event)
    ensures (log + [e])[..|log + [e]| - 1] == log
    ensures forall i :: 0 <= i <= |log| ==> (log + [e])[..i] == log[..i]
    ensures log[..|log|] == log
  {
  }

  /** The justifications of a log, extended by one event that is itself justified. */
  lemma JustifiedPush(log: seq<Event>, e: Event)
    requires forall i: nat :: ApprovalJustified(log, i)
    requires forall i: nat :: ExecutionJustified(log, i)
    requires e.Approved? ==> e.signer in SignersOf(log)
    requires e.Executed? ==> Live(log, e.id) == Some(e.action) && |Fresh(log, e.id)| >= e.threshold
    requires e.Executed? ==> (e.threshold == 0 <==> SignersOf(log) == {})
    ensures forall i: nat :: ApprovalJustified(log + [e], i)
    ensures forall i: nat :: ExecutionJustified(log + [e], i)
  {
    LogPush(log, e);
    forall i: nat ensures ApprovalJustified(log + [e], i) {
      assert ApprovalJustified(log, i);
    }
    forall i: nat ensures ExecutionJustified(log + [e], i) {
      assert ExecutionJustified(log, i);
    }
  }

  lemma EverPush(log: seq<Event>, e: Event, id: nat)
    ensures Ever(log + [e], id) <==> Ever(log, id) || (e.Proposed? && e.id == id)
  {
    if e.Proposed? && e.id == id { assert (log + [e])[|log|] == e; }
    if Ever(log, id) {
      var i :| 0 <= i < |log| && log[i].Proposed? && log[i].id == id;
      assert (log + [e])[i] == log[i];
    }
  }

  lemma SignerStepKeepsInv(s: State, signer: Address, enabled: bool)
    requires Inv(s) && s.admin.Some? && enabled != (signer in s.signers) && (enabled ==> |s.signers| < HOST_VEC_LIMIT)
    ensures Inv(if enabled then AddSigner(s, signer) else RemoveSigner(s, signer))
  {
    var t := if enabled then AddSigner(s, signer) else RemoveSigner(s, signer);
    var e := SignerSet(signer, enabled);
    LogPush(s.log, e);
    JustifiedPush(s.log, e);
    forall id: nat ensures ProposalInv(t, id) {
      assert ProposalInv(s, id);
      EverPush(s.log, e, id);
    }
  }

  lemma WriteKeepsInv(s: State, id: nat, action: Action)
    requires Inv(s) && id !in s.payloads && s.admin.Some?
    ensures var t := WritePayload(s, id, action);
      && SignerInv(t) && t.counter == 0 && t.signers == s.signers && t.approvals == s.approvals
      && (forall i: nat :: ApprovalJustified(t.log, i))
      && (forall i: nat :: ExecutionJustified(t.log, i))
      && (forall j: nat :: j != id ==> ProposalInv(t, j))
      && Live(t.log, id) == Some(action) && Fresh(t.log, id) == {} && Ever(t.log, id) && ApprovalCount(t, id) == 0
  {
    var t := WritePayload(s, id, action);
    var e := Proposed(id, action);
    LogPush(s.log, e);
    JustifiedPush(s.log, e);
    EverPush(s.log, e, id);
    forall j: nat | j != id ensures ProposalInv(t, j) {
      assert ProposalInv(s, j);
      EverPush(s.log, e, j);
    }
  }

  /** Recording an approval for a live payload. What may still be missing for `id` is only the
      first approval of a payload just written. */
  lemma RecordKeepsInv(s: State, id: nat, signer: Address, intended: Option<Action>)
    requires SignerInv(s) && s.counter == 0 && signer in s.signers && id in s.payloads
    requires forall i: nat :: ApprovalJustified(s.log, i)
    requires forall i: nat :: ExecutionJustified(s.log, i)
    requires forall j: nat :: j != id ==> ProposalInv(s, j)
    requires Live(s.log, id) == Some(s.payloads[id]) && Ever(s.log, id)
    requires id in s.approvalCounts && s.approvalCounts[id] == |Fresh(s.log, id)|
    requires forall w :: w in Fresh(s.log, id) ==> Approval(id, w) in s.approvals
    ensures RecordApproval(s, id, signer, intended).Ok? ==> Inv(RecordApproval(s, id, signer, intended).value)
  {
    var o := RecordApproval(s, id, signer, intended);
    if Approval(id, signer) in s.approvals {
      assert ProposalInv(s, id);
    } else if o.Ok? {
      var t, e := o.value, Approved(id, signer, intended);
      LogPush(s.log, e);
      JustifiedPush(s.log, e);
      forall j: nat ensures ProposalInv(t, j) {
        EverPush(s.log, e, j);
        if j != id {
          assert ProposalInv(s, j);
        } else {
          assert Approval(id, signer) in t.approvals;
          assert Fresh(t.log, id) == Fresh(s.log, id) + {signer};
        }
      }
    }
  }

  lemma ProposeKeepsInv(s: State, derive: Derivation, caller: Address, action: Action, auth: set<Address>)
    requires Inv(s)
    ensures Inv(StateAfter(s, ProposeAction(s, derive, caller, action, auth)))
  {
    var id := derive(action, s.sequence / PROPOSAL_EPOCH_SIZE);
    assert ProposalInv(s, id);
    if SignerError(s, caller, auth).None? {
      if id !in s.payloads { WriteKeepsInv(s, id, action); }
      RecordKeepsInv(WritePayload(s, id, action), id, caller, Some(action));
    }
  }

  lemma ApproveKeepsInv(s: State, signer: Address, id: nat, auth: set<Address>)
    requires Inv(s)
    ensures Inv(StateAfter(s, ApproveProposal(s, signer, id, auth)))
  {
    assert ProposalInv(s, id);
    if SignerError(s, signer, auth).None? && id in s.payloads { RecordKeepsInv(s, id, signer, None); }
  }

  lemma ExecuteKeepsInv(s: State, id: nat)
    requires Inv(s)
    ensures Inv(StateAfter(s, ExecuteProposal(s, id)))
  {
    var o := ExecuteProposal(s, id);
    assert ProposalInv(s, id);
    if o.Ok? {
      var t, e := o.value, Executed(id, s.payloads[id], s.threshold);
      LogPush(s.log, e);
      JustifiedPush(s.log, e);
      forall j: nat ensures ProposalInv(t, j) {
        assert ProposalInv(s, j);
        EverPush(s.log, e, j);
      }
    }
  }

  /** Calls that touch neither signers nor proposals. */
  lemma QuietKeepsInv(s: State, t: State)
    requires Inv(s) && SignerInv(t) && t.counter == s.counter && t.log == s.log
    requires t.payloads == s.payloads && t.approvals == s.approvals && t.approvalCounts == s.approvalCounts
    ensures Inv(t)
  {
    forall id: nat ensures ProposalInv(t, id) {
      assert ProposalInv(s, id);
    }
  }

  lemma StepKeepsInv(s: State, derive: Derivation, c: Call)
    requires Inv(s)
    ensures Inv(StateAfter(s, Step(s, derive, c)))
  {
    var t := StateAfter(s, Step(s, derive, c));
    match c
    case CallTick(_) => QuietKeepsInv(s, t);
    case CallInitialize(_) => QuietKeepsInv(s, t);
    case CallSetSigner(admin, signer, enabled, auth) =>
      if t != s { SignerStepKeepsInv(s, signer, enabled); }
    case CallSetThreshold(_, _, _) => QuietKeepsInv(s, t);
    case CallPause(caller, auth) =>
      if s.threshold != 0 { ProposeKeepsInv(s, derive, caller, Pause, auth); } else { QuietKeepsInv(s, t); }
    case CallUnpause(caller, auth) =>
      if s.threshold != 0 && s.admin.Some? && s.admin.value != caller {
        ProposeKeepsInv(s, derive, caller, Unpause, auth);
      } else {
        QuietKeepsInv(s, t);
      }
    case CallApprove(signer, id, auth) => ApproveKeepsInv(s, signer, id, auth);
    case CallExecute(id) => ExecuteKeepsInv(s, id);
  }

  lemma {:induction false} RunKeepsInv(s: State, derive: Derivation, calls: seq<Call>)
    requires Inv(s)
    ensures Inv(Run(s, derive, calls))
  {
    if calls != [] {
      RunKeepsInv(s, derive, calls[..|calls| - 1]);
      StepKeepsInv(Run(s, derive, calls[..|calls| - 1]), derive, calls[|calls| - 1]);
    }
  }

  lemma ReachableInv(s: State, derive: Derivation)
    requires Reachable(s, derive)
    ensures Inv(s)
  {
    var calls :| Run(Initial, derive, calls) == s;
    RunKeepsInv(Initial, derive, calls);
  }

  // ----- Main results -----

  /** No lockout: the count is the number of signers, the threshold can be met, and it is zero
      exactly when there is no signer. */
  lemma NoLockout(s: State, derive: Derivation)
    requires Reachable(s, derive)
    ensures s.signerCount == |s.signers|
    ensures s.threshold <= |s.signers|
    ensures s.threshold == 0 <==> s.signers == {}
  {
    ReachableInv(s, derive);
  }

  /** The stored count of a live proposal is the number of approvers newly recorded since its
      payload was last written. */
  lemma CountIsFreshApprovers(s: State, derive: Derivation, id: nat)
    requires Reachable(s, derive) && id in s.payloads
    ensures ApprovalCount(s, id) == |Fresh(s.log, id)|
  {
    ReachableInv(s, derive);
    assert ProposalInv(s, id);
  }

  lemma {:induction false} FreshMember(log: seq<Event>, id: nat, who: Address) returns (k: nat)
    requires who in Fresh(log, id)
    ensures k < |log| && log[k].Approved? && log[k].id == id && log[k].signer == who
    ensures forall j :: k < j < |log| ==> !(log[j].Proposed? && log[j].id == id)
  {
    var e := log[|log| - 1];
    if e.Approved? && e.id == id && e.signer == who {
      k := |log| - 1;
    } else {
      k := FreshMember(log[..|log| - 1], id, who);
    }
  }

  /** Is `who` on record, in the log before `i`, as approving `id` while a signer and after the
      payload was last written? */
  ghost predicate ApprovedAsSigner(log: seq<Event>, i: nat, id: nat, who: Address) {
    exists k: nat :: k < i <= |log| && log[k].Approved? && log[k].id == id && log[k].signer == who
      && who in SignersOf(log[..k]) && forall j :: k < j < i ==> !(log[j].Proposed? && log[j].id == id)
  }

  /** Each execution was carried by at least `threshold` different addresses, each a signer when
      it approved, and each having approved since the payload was written. */
  lemma ExecutionsAreApproved(s: State, derive: Derivation, i: nat)
    requires Reachable(s, derive) && i < |s.log| && s.log[i].Executed?
    ensures var newly := Fresh(s.log[..i], s.log[i].id);
      && |newly| >= s.log[i].threshold
      && forall who :: who in newly ==> ApprovedAsSigner(s.log, i, s.log[i].id, who)
  {
    ReachableInv(s, derive);
    assert ExecutionJustified(s.log, i);
    var id := s.log[i].id;
    forall who | who in Fresh(s.log[..i], id) ensures ApprovedAsSigner(s.log, i, id, who) {
      var k := FreshMember(s.log[..i], id, who);
      assert ApprovalJustified(s.log, k);
      assert forall j :: k < j < i ==> s.log[..i][j] == s.log[j];
      assert s.log[..i][k] == s.log[k];
    }
  }

  /** The pause flag flips only by an execution that its threshold allows, or by the authorized
      admin: to pause when there is no signer, to unpause always. */
  lemma FlipIsAuthorized(s: State, derive: Derivation, c: Call)
    requires Reachable(s, derive) && StateAfter(s, Step(s, derive, c)).paused != s.paused
    ensures
      || (c.CallExecute? && c.id in s.payloads && |Fresh(s.log, c.id)| >= s.threshold
          && s.payloads[c.id] == (if s.paused then Unpause else Pause))
      || (c.CallPause? && !s.paused && s.signers == {} && s.admin == Some(c.caller) && c.caller in c.auth)
      || (c.CallUnpause? && s.paused && s.admin == Some(c.caller) && c.caller in c.auth)
      || (c.CallInitialize? && s.admin.None?)
  {
    ReachableInv(s, derive);
    if c.CallExecute? { assert ProposalInv(s, c.id); }
  }

  /** A proposal can be executed, by anyone, exactly when its payload is live and enough fresh
      approvers stand behind it; then its action takes effect and the payload is gone. */
  lemma ExecutionTakesEffect(s: State, derive: Derivation, id: nat)
    requires Reachable(s, derive)
    ensures ExecuteProposal(s, id).Ok? <==> Live(s.log, id).Some? && |Fresh(s.log, id)| >= s.threshold
    ensures ExecuteProposal(s, id).Ok? ==>
      var t := ExecuteProposal(s, id).value;
      && t.paused == (Live(s.log, id) == Some(Pause)) && Live(t.log, id) == None
      && t.signers == s.signers && t.threshold == s.threshold && t.approvals == s.approvals
  {
    ReachableInv(s, derive);
    assert ProposalInv(s, id);
  }

  /** Was `id` executed at `i`, with no payload written under it since? */
  ghost predicate ExecutedLast(log: seq<Event>, id: nat, i: nat) {
    i < |log| && log[i].Executed? && log[i].id == id
    && forall j :: i < j < |log| ==> !(log[j].Proposed? && log[j].id == id)
  }

  lemma {:induction false} LiveWasProposed(log: seq<Event>, id: nat)
    ensures Live(log, id).Some? ==> Ever(log, id)
  {
    if log != [] {
      var front, e := log[..|log| - 1], log[|log| - 1];
      assert log == front + [e];
      EverPush(front, e, id);
      LiveWasProposed(front, id);
    }
  }

  lemma {:induction false} NotLiveIsExecuted(log: seq<Event>, id: nat)
    requires forall i: nat :: ExecutionJustified(log, i)
    ensures Live(log, id).None? && Ever(log, id) <==> exists i: nat :: ExecutedLast(log, id, i)
  {
    if log != [] {
      var front, e := log[..|log| - 1], log[|log| - 1];
      assert log == front + [e];
      EverPush(front, e, id);
      forall i: nat ensures ExecutionJustified(front, i) {
        assert ExecutionJustified(log, i);
        if i < |front| { assert front[..i] == log[..i]; }
      }
      NotLiveIsExecuted(front, id);
      if e.Executed? && e.id == id {
        assert ExecutionJustified(log, |log| - 1);
        LiveWasProposed(front, id);
        assert ExecutedLast(log, id, |log| - 1);
      } else if e.Proposed? && e.id == id {
        assert log[|log| - 1] == e;
      } else {
        forall i: nat | ExecutedLast(front, id, i) ensures ExecutedLast(log, id, i) {}
        forall i: nat | ExecutedLast(log, id, i) ensures ExecutedLast(front, id, i) {}
      }
    }
  }

  lemma {:induction false} ApprovedByExact(s: State, id: nat, candidates: seq<Address>)
    ensures forall w :: w in ApprovedBy(s, id, candidates) <==> w in candidates && Approval(id, w) in s.approvals
    ensures multiset(ApprovedBy(s, id, candidates)) <= multiset(candidates)
  {
    if candidates != [] {
      var front, last := candidates[..|candidates| - 1], candidates[|candidates| - 1];
      assert candidates == front + [last];
      ApprovedByExact(s, id, front);
    }
  }

  /** The view is exact: its action is the live payload, its count the fresh approvers, and
      `executed` holds exactly when the last payload was executed and some candidate is on
      record as an approver. An executed proposal has an approver to name, so with all
      approvers as candidates the flag is exact although approvals outlive the execution. */
  lemma ViewIsExact(s: State, derive: Derivation, id: nat, candidates: seq<Address>)
    requires Reachable(s, derive)
    ensures var v := ProposalState(s, id, candidates);
      && v.action == (match Live(s.log, id) case None => 0 case Some(a) => if a == Pause then 1 else 2)
      && v.approvals == (if Live(s.log, id).Some? then |Fresh(s.log, id)| else 0)
      && (v.executed <==>
          (exists i: nat :: ExecutedLast(s.log, id, i))
          && exists w :: w in candidates && Approval(id, w) in s.approvals)
    ensures (exists i: nat :: ExecutedLast(s.log, id, i)) ==> exists w :: Approval(id, w) in s.approvals
  {
    ReachableInv(s, derive);
    assert ProposalInv(s, id);
    NotLiveIsExecuted(s.log, id);
    ApprovedByExact(s, id, candidates);
    var approvedBy := ApprovedBy(s, id, candidates);
    if approvedBy != [] { assert approvedBy[0] in approvedBy; }
  }

  lemma ExecutedFlagIsExact(s: State, derive: Derivation, id: nat, candidates: seq<Address>)
    requires Reachable(s, derive)
    requires forall w :: Approval(id, w) in s.approvals ==> w in candidates
    ensures ProposalState(s, id, candidates).executed <==> exists i: nat :: ExecutedLast(s.log, id, i)
  {
    ViewIsExact(s, derive, id, candidates);
  }

  // ----- Approval flags outlive execution -----

  /** Each approval in the log has its flag, and no address approves the same id twice. */
  ghost predicate ApprovedOnce(s: State) {
    && (forall i :: 0 <= i < |s.log| && s.log[i].Approved? ==> Approval(s.log[i].id, s.log[i].signer) in s.approvals)
    && (forall i, j :: 0 <= i < j < |s.log| && s.log[i].Approved? && s.log[j].Approved?
                       && s.log[i].id == s.log[j].id ==>
          s.log[i].signer != s.log[j].signer)
  }

  lemma ProposeKeepsOnce(s: State, derive: Derivation, caller: Address, action: Action, auth: set<Address>)
    requires ApprovedOnce(s)
    ensures ApprovedOnce(StateAfter(s, ProposeAction(s, derive, caller, action, auth)))
  {
    var id := derive(action, s.sequence / PROPOSAL_EPOCH_SIZE);
    assert ApprovedOnce(WritePayload(s, id, action));
  }

  lemma StepKeepsOnce(s: State, derive: Derivation, c: Call)
    requires ApprovedOnce(s)
    ensures ApprovedOnce(StateAfter(s, Step(s, derive, c)))
  {
    match c
    case CallPause(caller, auth) => if s.threshold != 0 { ProposeKeepsOnce(s, derive, caller, Pause, auth); }
    case CallUnpause(caller, auth) => if s.threshold != 0 { ProposeKeepsOnce(s, derive, caller, Unpause, auth); }
    case _ =>
  }

  lemma {:induction false} RunKeepsOnce(s: State, derive: Derivation, calls: seq<Call>)
    requires ApprovedOnce(s)
    ensures ApprovedOnce(Run(s, derive, calls))
  {
    if calls != [] {
      RunKeepsOnce(s, derive, calls[..|calls| - 1]);
      StepKeepsOnce(Run(s, derive, calls[..|calls| - 1]), derive, calls[|calls| - 1]);
    }
  }

  lemma {:induction false} LiveSince(log: seq<Event>, id: nat, i: nat)
    requires i < |log| && log[i].Executed? && log[i].id == id && Live(log, id).Some?
    ensures exists p :: i < p < |log| && log[p].Proposed? && log[p].id == id
  {
    var e := log[|log| - 1];
    if !(e.Proposed? && e.id == id) {
      LiveSince(log[..|log| - 1], id, i);
      var p :| i < p < |log| - 1 && log[..|log| - 1][p].Proposed? && log[..|log| - 1][p].id == id;
      assert log[p].Proposed?;
    }
  }

  /** Between two executions of one id its payload was written again. */
  lemma RewrittenBetween(s: State, i: nat, j: nat)
    requires Inv(s) && i < j < |s.log| && s.log[i].Executed? && s.log[j].Executed? && s.log[i].id == s.log[j].id
    ensures exists p :: i < p < j && s.log[..j][p].Proposed? && s.log[..j][p].id == s.log[i].id
  {
    assert ExecutionJustified(s.log, j);
    LiveSince(s.log[..j], s.log[i].id, i);
  }

  /** Two executions under one id were carried by disjoint sets of approvers: a payload proposed
      again in the same epoch cannot reuse the approvals of the one before. */
  lemma RoundsShareNoApprover(s: State, derive: Derivation, i: nat, j: nat)
    requires Reachable(s, derive) && i < j < |s.log| && s.log[i].Executed? && s.log[j].Executed?
    requires s.log[i].id == s.log[j].id
    ensures Fresh(s.log[..i], s.log[i].id) !! Fresh(s.log[..j], s.log[j].id)
  {
    var calls :| Run(Initial, derive, calls) == s;
    RunKeepsOnce(Initial, derive, calls);
    ReachableInv(s, derive);
    var id := s.log[i].id;
    forall who | who in Fresh(s.log[..i], id) ensures who !in Fresh(s.log[..j], id) {
      var k := FreshMember(s.log[..i], id, who);
      assert s.log[..i][k] == s.log[k];
      if who in Fresh(s.log[..j], id) {
        var m := FreshMember(s.log[..j], id, who);
        assert s.log[..j][m] == s.log[m];
        assert m == k;
        RewrittenBetween(s, i, j);
      }
    }
  }

  // ----- Executions without an approver -----

  /** An execution needed no fresh approver exactly when nobody was a signer then: all signers had
      been removed behind a payload that was still live. */
  lemma UnapprovedIff(s: State, derive: Derivation, i: nat)
    requires Reachable(s, derive) && i < |s.log| && s.log[i].Executed?
    ensures s.log[i].threshold == 0 <==> SignersOf(s.log[..i]) == {}
    ensures Fresh(s.log[..i], s.log[i].id) == {} ==> SignersOf(s.log[..i]) == {}
  {
    ReachableInv(s, derive);
    assert ExecutionJustified(s.log, i);
  }

  /** Exactly when a live proposal can be executed although nobody freshly approved it. */
  lemma ExecutableUnapprovedIff(s: State, derive: Derivation, id: nat)
    requires Reachable(s, derive) && id in s.payloads && Fresh(s.log, id) == {}
    ensures ExecuteProposal(s, id).Ok? <==> s.signers == {}
  {
    ReachableInv(s, derive);
    assert ProposalInv(s, id);
  }

  /** The signers that have no approval of `id` on record: only theirs can still count. */
  function Unspent(s: State, id: nat): set<Address> {
    set w | w in s.signers && Approval(id, w) !in s.approvals
  }

  /** Calls that neither change signers or threshold nor execute `id`. */
  predicate IsSteady(c: Call, id: nat) {
    !c.CallSetSigner? && !c.CallSetThreshold? && !(c.CallExecute? && c.id == id)
  }

  predicate AllSteady(calls: seq<Call>, id: nat) {
    forall i :: 0 <= i < |calls| ==> IsSteady(calls[i], id)
  }

  /** The approvals `id` has and those it can still get from the present signers. */
  function Potential(s: State, id: nat): nat {
    ApprovalCount(s, id) + |Unspent(s, id)|
  }

  lemma RecordKeepsPotential(s: State, id: nat, signer: Address, intended: Option<Action>, other: nat)
    requires signer in s.signers
    ensures Potential(StateAfter(s, RecordApproval(s, id, signer, intended)), other) == Potential(s, other)
  {
    var t := StateAfter(s, RecordApproval(s, id, signer, intended));
    if t != s {
      assert other != id ==> Unspent(t, other) == Unspent(s, other);
      assert Unspent(t, id) == Unspent(s, id) - {signer};
    }
  }

  lemma WriteKeepsPotential(s: State, id: nat, action: Action, other: nat)
    requires Inv(s)
    ensures Potential(WritePayload(s, id, action), other) == Potential(s, other)
  {
    assert ProposalInv(s, id);
    assert Unspent(WritePayload(s, id, action), other) == Unspent(s, other);
  }

  lemma ProposeKeepsPotential(s: State, derive: Derivation, caller: Address, action: Action, auth: set<Address>,
                              id: nat)
    requires Inv(s)
    ensures Potential(StateAfter(s, ProposeAction(s, derive, caller, action, auth)), id) == Potential(s, id)
  {
    var p := derive(action, s.sequence / PROPOSAL_EPOCH_SIZE);
    if SignerError(s, caller, auth).None? {
      WriteKeepsPotential(s, p, action, id);
      RecordKeepsPotential(WritePayload(s, p, action), p, caller, Some(action), id);
    }
  }

  lemma ExecuteKeepsPotential(s: State, id: nat, other: nat)
    requires id != other
    ensures Potential(StateAfter(s, ExecuteProposal(s, id)), other) == Potential(s, other)
  {
    assert Unspent(StateAfter(s, ExecuteProposal(s, id)), other) == Unspent(s, other);
  }

  lemma StepKeepsPotential(s: State, derive: Derivation, c: Call, id: nat)
    requires Inv(s) && IsSteady(c, id)
    ensures Potential(StateAfter(s, Step(s, derive, c)), id) == Potential(s, id)
  {
    match c
    case CallPause(caller, auth) => if s.threshold != 0 { ProposeKeepsPotential(s, derive, caller, Pause, auth, id); }
    case CallUnpause(caller, auth) =>
      if s.threshold != 0 { ProposeKeepsPotential(s, derive, caller, Unpause, auth, id); }
    case CallApprove(signer, p, auth) =>
      if SignerError(s, signer, auth).None? && p in s.payloads { RecordKeepsPotential(s, p, signer, None, id); }
    case CallExecute(p) => ExecuteKeepsPotential(s, p, id);
    case CallTick(_) => assert Unspent(StateAfter(s, Step(s, derive, c)), id) == Unspent(s, id);
    case CallInitialize(_) => assert Unspent(StateAfter(s, Step(s, derive, c)), id) == Unspent(s, id);
  }

  lemma SteadyKeepsThreshold(s: State, derive: Derivation, c: Call, id: nat)
    requires Inv(s) && IsSteady(c, id)
    ensures StateAfter(s, Step(s, derive, c)).threshold == s.threshold
  {
  }

  lemma {:induction false} RunKeepsPotential(s: State, derive: Derivation, calls: seq<Call>, id: nat)
    requires Inv(s) && AllSteady(calls, id)
    ensures var t := Run(s, derive, calls);
      Inv(t) && Potential(t, id) == Potential(s, id) && t.threshold == s.threshold
  {
    RunKeepsInv(s, derive, calls);
    if calls != [] {
      var front, c := calls[..|calls| - 1], calls[|calls| - 1];
      RunKeepsInv(s, derive, front);
      RunKeepsPotential(s, derive, front, id);
      StepKeepsPotential(Run(s, derive, front), derive, c, id);
      SteadyKeepsThreshold(Run(s, derive, front), derive, c, id);
    }
  }

  /** If the approvals on hand and the signers who have not yet approved `id` together fall short
      of the threshold, nothing but a change of signers or threshold lets `id` be executed, a new
      proposal in the same epoch included. */
  lemma SpentUntilSignersChange(s: State, derive: Derivation, id: nat, calls: seq<Call>)
    requires Reachable(s, derive) && Potential(s, id) < s.threshold && AllSteady(calls, id)
    ensures ExecuteProposal(Run(s, derive, calls), id).Err?
  {
    ReachableInv(s, derive);
    RunKeepsPotential(s, derive, calls, id);
  }

  lemma RunNext(s: State, derive: Derivation, calls: seq<Call>, c: Call)
    ensures Run(s, derive, calls + [c]) == StateAfter(Run(s, derive, calls), Step(Run(s, derive, calls), derive, c))
  {
    assert (calls + [c])[..|calls|] == calls;
  }

  lemma {:induction false} RunJoin(s: State, derive: Derivation, a: seq<Call>, b: seq<Call>)
    ensures Run(s, derive, a + b) == Run(Run(s, derive, a), derive, b)
  {
    if b == [] {
      assert a + b == a;
    } else {
      assert (a + b)[..|a + b| - 1] == a + b[..|b| - 1];
      RunJoin(s, derive, a, b[..|b| - 1]);
    }
  }

  lemma RunOne(s: State, derive: Derivation, c: Call)
    ensures Run(s, derive, [c]) == StateAfter(s, Step(s, derive, c))
  {
    assert [c][..0] == [] && Run(s, derive, []) == s;
  }

  lemma OneMoreApproval(s: State, derive: Derivation, id: nat, w: Address)
    requires Inv(s) && id in s.payloads && w in Unspent(s, id) && ApprovalCount(s, id) < s.threshold
    ensures var t := Run(s, derive, [CallApprove(w, id, {w})]);
      && Inv(t) && id in t.payloads && Unspent(t, id) == Unspent(s, id) - {w}
      && t.threshold == s.threshold && Potential(t, id) == Potential(s, id)
  {
    var c := CallApprove(w, id, {w});
    RunOne(s, derive, c);
    StepKeepsInv(s, derive, c);
    StepKeepsPotential(s, derive, c, id);
    assert ApprovalCount(s, id) < U32_MAX;
  }

  /** Otherwise the present signers can carry a live proposal by approving it. */
  lemma {:induction false} SignersCarry(s: State, derive: Derivation, id: nat) returns (calls: seq<Call>)
    requires Inv(s) && id in s.payloads && Potential(s, id) >= s.threshold
    ensures AllSteady(calls, id) && ExecuteProposal(Run(s, derive, calls), id).Ok?
    decreases |Unspent(s, id)|
  {
    if ApprovalCount(s, id) >= s.threshold {
      calls := [];
    } else {
      var w :| w in Unspent(s, id);
      var c := CallApprove(w, id, {w});
      OneMoreApproval(s, derive, id, w);
      var rest := SignersCarry(Run(s, derive, [c]), derive, id);
      RunJoin(s, derive, [c], rest);
      calls := [c] + rest;
    }
  }

  /** Exactly when a live proposal can still be carried without changing signers or threshold. */
  lemma CarriedIff(s: State, derive: Derivation, id: nat)
    requires Reachable(s, derive) && id in s.payloads
    ensures (exists calls :: AllSteady(calls, id) && ExecuteProposal(Run(s, derive, calls), id).Ok?) <==>
      |Fresh(s.log, id)| + |Unspent(s, id)| >= s.threshold
  {
    CountIsFreshApprovers(s, derive, id);
    ReachableInv(s, derive);
    if Potential(s, id) >= s.threshold {
      var calls := SignersCarry(s, derive, id);
    } else {
      forall calls | AllSteady(calls, id) ensures ExecuteProposal(Run(s, derive, calls), id).Err? {
        SpentUntilSignersChange(s, derive, id, calls);
      }
    }
  }

  // ----- A run that executes unapproved -----

  const ADMIN: Address := Address(0)
  const FIRST: Address := Address(1)
  const SECOND: Address := Address(2)

  /** ADMIN is set and these are the signers, with a threshold of one, and `log` is all that happened. */
  ghost predicate Governed(s: State, derive: Derivation, signers: set<Address>, log: seq<Event>) {
    && Reachable(s, derive) && s.admin == Some(ADMIN) && s.signers == signers
    && s.threshold == (if signers == {} then 0 else 1) && s.log == log
  }

  lemma FirstSigner(derive: Derivation) returns (s: State)
    ensures Governed(s, derive, {FIRST}, [SignerSet(FIRST, true)]) && s.sequence == 0 && !s.paused
    ensures s.payloads == map[] && s.approvals == {} && s.approvalCounts == map[]
  {
    assert Run(Initial, derive, []) == Initial;
    var s1 := StateAfter(Initial, Step(Initial, derive, CallInitialize(ADMIN)));
    ReachableStep(Initial, derive, CallInitialize(ADMIN));
    ReachableStep(s1, derive, CallSetSigner(ADMIN, FIRST, true, {ADMIN}));
    s := StateAfter(s1, Step(s1, derive, CallSetSigner(ADMIN, FIRST, true, {ADMIN})));
  }

  /** A signer other than the admin proposes, by asking to pause or to unpause. */
  function ProposalBy(w: Address, a: Action): Call {
    if a == Pause then CallPause(w, {w}) else CallUnpause(w, {w})
  }

  lemma Proposes(s: State, derive: Derivation, signers: set<Address>, w: Address, a: Action) returns (t: State)
    requires Governed(s, derive, signers, s.log) && w in signers && w != ADMIN
    ensures t == StateAfter(s, ProposeAction(s, derive, w, a, {w})) && Reachable(t, derive)
  {
    ReachableStep(s, derive, ProposalBy(w, a));
    t := StateAfter(s, Step(s, derive, ProposalBy(w, a)));
  }

  /** The one signer proposes a pause and carries it; the admin unpauses; the signer proposes the
      pause again in the same epoch. */
  lemma ProposedAgain(derive: Derivation) returns (s: State)
    ensures var id := derive(Pause, 0);
      && Governed(s, derive, {FIRST}, s.log) && !s.paused && s.signerCount == 1
      && id in s.payloads && s.payloads[id] == Pause && ApprovalCount(s, id) == 0
      && s.approvals == {Approval(id, FIRST)}
  {
    var id := derive(Pause, 0);
    var s1 := FirstSigner(derive);
    ReachableInv(s1, derive);
    var s2 := Proposes(s1, derive, {FIRST}, FIRST, Pause);
    ReachableStep(s2, derive, CallExecute(id));
    var s3 := StateAfter(s2, Step(s2, derive, CallExecute(id)));
    assert s3.paused && id !in s3.payloads && s3.approvals == {Approval(id, FIRST)};
    ReachableStep(s3, derive, CallUnpause(ADMIN, {ADMIN}));
    var s4 := StateAfter(s3, Step(s3, derive, CallUnpause(ADMIN, {ADMIN})));
    s := Proposes(s4, derive, {FIRST}, FIRST, Pause);
  }

  /** Nobody's approval counts there and the signer cannot carry it. Once the admin removes the
      signer, anyone may execute it. */
  lemma RemovalExecutesUnapproved(derive: Derivation) returns (s: State, t: State)
    ensures var id := derive(Pause, 0);
      && Reachable(s, derive) && Reachable(t, derive) && !s.paused
      && Potential(s, id) == 0 < s.threshold && ExecuteProposal(s, id) == Err(InsufficientApprovals)
      && Step(s, derive, CallSetSigner(ADMIN, FIRST, false, {ADMIN})) == Ok(t)
      && Fresh(t.log, id) == {} && ExecuteProposal(t, id).Ok? && ExecuteProposal(t, id).value.paused
  {
    var id := derive(Pause, 0);
    s := ProposedAgain(derive);
    var c := CallSetSigner(ADMIN, FIRST, false, {ADMIN});
    ReachableStep(s, derive, c);
    t := StateAfter(s, Step(s, derive, c));
    assert Unspent(s, id) == {};
    CountIsFreshApprovers(t, derive, id);
  }

  // ----- Collision-free ids -----

  /** No id stands for both actions, in whatever epochs a ledger can reach. */
  ghost predicate NoCollision(derive: Derivation) {
    forall m: nat, n: nat :: m <= LAST_EPOCH && n <= LAST_EPOCH ==> derive(Pause, m) != derive(Unpause, n)
  }

  /** In some epoch `a` has this id. */
  ghost predicate StandsFor(derive: Derivation, id: nat, a: Action) {
    exists n: nat :: n <= LAST_EPOCH && derive(a, n) == id
  }

  ghost predicate EventMatches(e: Event, derive: Derivation) {
    && (e.Proposed? || e.Executed? ==> StandsFor(derive, e.id, e.action))
    && (e.Approved? && e.intended.Some? ==> StandsFor(derive, e.id, e.intended.value))
  }

  /** Every payload and every approval under `id` means the action the id stands for. */
  ghost predicate ActionsMatch(s: State, derive: Derivation) {
    && s.sequence <= U32_MAX
    && (forall id: nat :: id in s.payloads ==> StandsFor(derive, id, s.payloads[id]))
    && (forall i :: 0 <= i < |s.log| ==> EventMatches(s.log[i], derive))
  }

  lemma WriteKeepsMatch(s: State, derive: Derivation, id: nat, action: Action)
    requires ActionsMatch(s, derive) && StandsFor(derive, id, action)
    ensures ActionsMatch(WritePayload(s, id, action), derive)
  {
  }

  lemma RecordKeepsMatch(s: State, derive: Derivation, id: nat, signer: Address, intended: Option<Action>)
    requires ActionsMatch(s, derive) && (intended.Some? ==> StandsFor(derive, id, intended.value))
    ensures ActionsMatch(StateAfter(s, RecordApproval(s, id, signer, intended)), derive)
  {
  }

  lemma ProposeKeepsMatch(s: State, derive: Derivation, caller: Address, action: Action, auth: set<Address>)
    requires ActionsMatch(s, derive)
    ensures ActionsMatch(StateAfter(s, ProposeAction(s, derive, caller, action, auth)), derive)
  {
    var n := s.sequence / PROPOSAL_EPOCH_SIZE;
    var id := derive(action, n);
    if SignerError(s, caller, auth).None? {
      assert n <= LAST_EPOCH && StandsFor(derive, id, action);
      WriteKeepsMatch(s, derive, id, action);
      RecordKeepsMatch(WritePayload(s, id, action), derive, id, caller, Some(action));
    }
  }

  lemma StepKeepsMatch(s: State, derive: Derivation, c: Call)
    requires ActionsMatch(s, derive)
    ensures ActionsMatch(StateAfter(s, Step(s, derive, c)), derive)
  {
    match c
    case CallPause(caller, auth) => if s.threshold != 0 { ProposeKeepsMatch(s, derive, caller, Pause, auth); }
    case CallUnpause(caller, auth) => if s.threshold != 0 { ProposeKeepsMatch(s, derive, caller, Unpause, auth); }
    case _ =>
  }

  lemma {:induction false} RunKeepsMatch(s: State, derive: Derivation, calls: seq<Call>)
    requires ActionsMatch(s, derive)
    ensures ActionsMatch(Run(s, derive, calls), derive)
  {
    if calls != [] {
      RunKeepsMatch(s, derive, calls[..|calls| - 1]);
      StepKeepsMatch(Run(s, derive, calls[..|calls| - 1]), derive, calls[|calls| - 1]);
    }
  }

  /** Somebody asked for an action, and one was executed, under the same id. */
  predicate SameId(asked: Event, done: Event) {
    asked.Approved? && asked.intended.Some? && done.Executed? && asked.id == done.id
  }

  /** What is executed under an id is what everyone who proposed under that id asked for. */
  ghost predicate AsProposed(log: seq<Event>) {
    forall i, k :: 0 <= i < |log| && 0 <= k < |log| && SameId(log[k], log[i]) ==>
      log[k].intended.value == log[i].action
  }

  lemma MatchingIsAsProposed(s: State, derive: Derivation)
    requires Reachable(s, derive) && NoCollision(derive)
    ensures AsProposed(s.log)
  {
    var calls :| Run(Initial, derive, calls) == s;
    RunKeepsMatch(Initial, derive, calls);
    forall i, k | 0 <= i < |s.log| && 0 <= k < |s.log| && SameId(s.log[k], s.log[i])
      ensures s.log[k].intended.value == s.log[i].action
    {
      assert EventMatches(s.log[i], derive) && EventMatches(s.log[k], derive);
    }
  }

  lemma TwoSigners(derive: Derivation, sequence: nat) returns (s: State)
    requires sequence <= U32_MAX
    ensures Governed(s, derive, {FIRST, SECOND}, [SignerSet(FIRST, true), SignerSet(SECOND, true)])
    ensures s.sequence == sequence && s.payloads == map[] && s.approvals == {} && s.approvalCounts == map[]
  {
    var s1 := FirstSigner(derive);
    ReachableInv(s1, derive);
    var c := CallSetSigner(ADMIN, SECOND, true, {ADMIN});
    var s2 := StateAfter(s1, Step(s1, derive, c));
    ReachableStep(s1, derive, c);
    ReachableStep(s2, derive, CallTick(sequence));
    s := StateAfter(s2, Step(s2, derive, CallTick(sequence)));
  }

  /** A payload is live under `id`, the second signer has not approved it, and this is the log. */
  ghost predicate Awaits(s: State, derive: Derivation, id: nat, a: Action, log: seq<Event>) {
    && Governed(s, derive, {FIRST, SECOND}, log)
    && s.payloads == map[id := a] && s.approvals == {Approval(id, FIRST)} && s.approvalCounts == map[id := 1]
  }

  lemma FirstProposes(derive: Derivation, a: Action, m: nat, n: nat) returns (s: State)
    requires m <= n <= LAST_EPOCH
    ensures s.sequence == n * PROPOSAL_EPOCH_SIZE
    ensures var id := derive(a, m);
      Awaits(s, derive, id, a, [SignerSet(FIRST, true), SignerSet(SECOND, true), Proposed(id, a),
                                Approved(id, FIRST, Some(a))])
  {
    var id := derive(a, m);
    var s1 := TwoSigners(derive, m * PROPOSAL_EPOCH_SIZE);
    var s2 := Proposes(s1, derive, {FIRST, SECOND}, FIRST, a);
    var c := CallTick(n * PROPOSAL_EPOCH_SIZE);
    ReachableStep(s2, derive, c);
    s := StateAfter(s2, Step(s2, derive, c));
  }

  lemma SecondProposes(s: State, derive: Derivation, id: nat, a: Action, b: Action) returns (t: State)
    requires Awaits(s, derive, id, a, s.log) && derive(b, s.sequence / PROPOSAL_EPOCH_SIZE) == id
    ensures Reachable(t, derive) && t.log == s.log + [Approved(id, SECOND, Some(b)), Executed(id, a, 1)]
  {
    var u := Proposes(s, derive, {FIRST, SECOND}, SECOND, b);
    assert u.log == s.log + [Approved(id, SECOND, Some(b))];
    ReachableStep(u, derive, CallExecute(id));
    t := StateAfter(u, Step(u, derive, CallExecute(id)));
  }

  /** If two actions share an id, one signer proposes the first, another the second in a later
      epoch, and the first is executed with the approval of both. */
  lemma CollisionMisleads(derive: Derivation, a: Action, m: nat, b: Action, n: nat) returns (s: State)
    requires m <= n <= LAST_EPOCH && a != b && derive(a, m) == derive(b, n)
    ensures Reachable(s, derive) && !AsProposed(s.log)
  {
    var u := FirstProposes(derive, a, m, n);
    s := SecondProposes(u, derive, derive(a, m), a, b);
    assert s.log[4] == Approved(derive(a, m), SECOND, Some(b)) && s.log[5] == Executed(derive(a, m), a, 1);
  }

  /** On every run what is executed is what was proposed, if and only if no pause id is also an
      unpause id. */
  lemma ExecutedAsProposed(derive: Derivation)
    ensures NoCollision(derive) <==> forall s :: Reachable(s, derive) ==> AsProposed(s.log)
  {
    if NoCollision(derive) {
      forall s | Reachable(s, derive) ensures AsProposed(s.log) {
        MatchingIsAsProposed(s, derive);
      }
    } else {
      var m: nat, n: nat :| m <= LAST_EPOCH && n <= LAST_EPOCH && derive(Pause, m) == derive(Unpause, n);
      var s;
      if m <= n { s := CollisionMisleads(derive, Pause, m, Unpause, n); }
      else { s := CollisionMisleads(derive, Unpause, n, Pause, m); }
    }
  }
}
