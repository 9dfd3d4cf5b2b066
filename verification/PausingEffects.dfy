/** Who may call what in the pause governance, what each call does, and what that means for whole
    runs. */
module PausingEffects {
  import opened Host
  import opened Pausing
  import opened PausingTheorems

  /** The admin signed the call. */
  predicate AdminSigned(s: State, caller: Address, auth: set<Address>) {
    caller in auth && s.admin == Some(caller)
  }

  /** A signer signed the call. */
  predicate SignerSigned(s: State, caller: Address, auth: set<Address>) {
    caller in auth && caller in s.signers
  }

  // ----- Signers -----

  /** The admin makes somebody a signer or no signer. The first signer comes with a threshold of one;
      the threshold falls only if it could not be met any more. Asking for what is so changes nothing. */
  lemma SetSignerTakesEffect(s: State, derive: Derivation, caller: Address, x: Address, enabled: bool,
                             auth: set<Address>)
    requires Reachable(s, derive)
    ensures SetPauseSigner(s, caller, x, enabled, auth).Ok? <==>
      AdminSigned(s, caller, auth) && (enabled && x !in s.signers ==> |s.signers| < HOST_VEC_LIMIT)
    ensures SetPauseSigner(s, caller, x, enabled, auth).Ok? ==>
      var t := SetPauseSigner(s, caller, x, enabled, auth).value;
      && t == s.(signers := t.signers, signerCount := t.signerCount, threshold := t.threshold, log := t.log)
      && t.signers == (if enabled then s.signers + {x} else s.signers - {x})
      && t.threshold == (if s.signers == {} && enabled then 1
                         else if !enabled && x in s.signers && s.threshold == |s.signers| then s.threshold - 1
                         else s.threshold)
      && t.log == if enabled == (x in s.signers) then s.log else s.log + [SignerSet(x, enabled)]
  {
    ReachableInv(s, derive);
  }

  /** The admin sets a threshold the signers can meet; zero only if there are none. */
  lemma SetThresholdTakesEffect(s: State, derive: Derivation, caller: Address, n: nat, auth: set<Address>)
    requires Reachable(s, derive)
    ensures SetPauseThreshold(s, caller, n, auth).Ok? <==>
      AdminSigned(s, caller, auth) && n <= |s.signers| && (n == 0 ==> s.signers == {})
    ensures SetPauseThreshold(s, caller, n, auth).Ok? ==>
      SetPauseThreshold(s, caller, n, auth).value == s.(threshold := n)
  {
    ReachableInv(s, derive);
  }

  // ----- Proposals -----

  /** Nothing changed but what is stored for `id`. */
  ghost predicate OnlyId(s: State, t: State, id: nat) {
    && t == s.(payloads := t.payloads, approvals := t.approvals, approvalCounts := t.approvalCounts, log := t.log)
    && (forall j :: j != id ==> ApprovalCount(t, j) == ApprovalCount(s, j) && (j in t.payloads <==> j in s.payloads))
    && (forall j :: j != id && j in s.payloads ==> j in t.payloads && t.payloads[j] == s.payloads[j])
    && (forall a: Approval :: a.id != id ==> (a in t.approvals <==> a in s.approvals))
  }

  /** `who` is on record for `id`, counted unless it was before; nobody else's approval changes. */
  ghost predicate Approves(s: State, t: State, id: nat, who: Address, before: nat) {
    && t.approvals == s.approvals + {Approval(id, who)}
    && ApprovalCount(t, id) == before + (if Approval(id, who) in s.approvals then 0 else 1)
  }

  /** The approval is on record already, or the counter has room. */
  predicate HasRoom(s: State, id: nat, who: Address) {
    Approval(id, who) in s.approvals || ApprovalCount(s, id) < 0xFFFF_FFFF
  }

  lemma RecordTakesEffect(s: State, id: nat, who: Address, intended: Option<Action>)
    ensures RecordApproval(s, id, who, intended).Ok? <==> HasRoom(s, id, who)
    ensures RecordApproval(s, id, who, intended).Ok? ==>
      var t := RecordApproval(s, id, who, intended).value;
      OnlyId(s, t, id) && Approves(s, t, id, who, ApprovalCount(s, id)) && t.payloads == s.payloads
  {
  }

  lemma NoCountWithoutPayload(s: State, derive: Derivation, id: nat)
    requires Reachable(s, derive)
    ensures id !in s.payloads ==> ApprovalCount(s, id) == 0
  {
    ReachableInv(s, derive);
    assert ProposalInv(s, id);
  }

  /** A signer proposes by a call it signed, and approves by that. The action is stored under the id of
      the epoch unless one is live there, and whoever else approved stays counted. */
  lemma ProposeTakesEffect(s: State, derive: Derivation, caller: Address, a: Action, auth: set<Address>)
    requires Reachable(s, derive)
    ensures var id := derive(a, s.sequence / 100);
      ProposeAction(s, derive, caller, a, auth).Ok? <==> SignerSigned(s, caller, auth) && HasRoom(s, id, caller)
    ensures ProposeAction(s, derive, caller, a, auth).Ok? ==>
      var t, id := ProposeAction(s, derive, caller, a, auth).value, derive(a, s.sequence / 100);
      && OnlyId(s, t, id) && Approves(s, t, id, caller, ApprovalCount(s, id))
      && id in t.payloads && t.payloads[id] == (if id in s.payloads then s.payloads[id] else a)
  {
    var id := derive(a, s.sequence / 100);
    NoCountWithoutPayload(s, derive, id);
    RecordTakesEffect(WritePayload(s, id, a), id, caller, Some(a));
  }

  /** A signer approves what is live, by a call it signed, and nothing else changes. */
  lemma ApproveTakesEffect(s: State, who: Address, id: nat, auth: set<Address>)
    ensures ApproveProposal(s, who, id, auth).Ok? <==>
      SignerSigned(s, who, auth) && id in s.payloads && HasRoom(s, id, who)
    ensures ApproveProposal(s, who, id, auth).Ok? ==>
      var t := ApproveProposal(s, who, id, auth).value;
      OnlyId(s, t, id) && Approves(s, t, id, who, ApprovalCount(s, id)) && t.payloads == s.payloads
  {
    RecordTakesEffect(s, id, who, None);
  }

  /** Pausing and unpausing: the admin alone where there is no signer, the admin at any time to
      unpause, and else a proposal by a signer. */
  lemma PauseTakesEffect(s: State, derive: Derivation, caller: Address, auth: set<Address>)
    requires Reachable(s, derive)
    ensures PauseCall(s, derive, caller, auth) ==
      if s.signers != {} then ProposeAction(s, derive, caller, Pause, auth)
      else if AdminSigned(s, caller, auth) then Ok(s.(paused := true))
      else Err(if s.admin.None? then NotInitialized else if s.admin != Some(caller) then NotAdmin else Unauthorized)
    ensures UnpauseCall(s, derive, caller, auth) ==
      if s.signers != {} && s.admin != Some(caller) then ProposeAction(s, derive, caller, Unpause, auth)
      else if AdminSigned(s, caller, auth) then Ok(s.(paused := false))
      else Err(if s.admin.None? then NotInitialized else if s.admin != Some(caller) then NotAdmin else Unauthorized)
  {
    ReachableInv(s, derive);
  }

  // ----- Over whole runs -----

  /** A signer asked for this action, in the epoch that gives it this id, and signed the call. */
  predicate ProposesAs(s: State, derive: Derivation, c: Call, a: Action, id: nat) {
    && ((c.CallPause? && a == Pause) || (c.CallUnpause? && a == Unpause))
    && id == derive(a, s.sequence / 100) && SignerSigned(s, c.caller, c.auth)
  }

  /** The call makes this event happen, and whoever it takes signed the call. */
  predicate Causes(s: State, derive: Derivation, c: Call, e: Event) {
    match e
    case SignerSet(x, enabled) =>
      c.CallSetSigner? && c.signer == x && c.enabled == enabled && AdminSigned(s, c.admin, c.auth)
    case Proposed(id, a) => ProposesAs(s, derive, c, a, id)
    case Approved(id, who, intended) =>
      if intended.Some? then ProposesAs(s, derive, c, intended.value, id) && c.caller == who
      else c.CallApprove? && c.signer == who && c.id == id && SignerSigned(s, who, c.auth)
    case Executed(id, a, threshold) =>
      c.CallExecute? && c.id == id && id in s.payloads && s.payloads[id] == a && s.threshold == threshold
  }

  predicate Logs(s: State, t: State, derive: Derivation, c: Call) {
    && |t.log| >= |s.log| && t.log[..|s.log|] == s.log
    && forall j :: |s.log| <= j < |t.log| ==> Causes(s, derive, c, t.log[j])
  }

  lemma LogsMore(s: State, t: State, derive: Derivation, c: Call, es: seq<Event>)
    requires t.log == s.log + es && forall i :: 0 <= i < |es| ==> Causes(s, derive, c, es[i])
    ensures Logs(s, t, derive, c)
  {
    forall j | |s.log| <= j < |t.log| ensures Causes(s, derive, c, t.log[j]) {
      assert t.log[j] == es[j - |s.log|];
    }
  }

  /** What a proposal adds to the log. */
  function ProposalEvents(s: State, id: nat, who: Address, a: Action): seq<Event> {
    (if id in s.payloads then [] else [Proposed(id, a)])
    + (if Approval(id, who) in s.approvals then [] else [Approved(id, who, Some(a))])
  }

  lemma ProposalLog(s: State, derive: Derivation, who: Address, a: Action, auth: set<Address>)
    requires ProposeAction(s, derive, who, a, auth).Ok?
    ensures ProposeAction(s, derive, who, a, auth).value.log
      == s.log + ProposalEvents(s, derive(a, s.sequence / 100), who, a)
    ensures SignerSigned(s, who, auth)
  {
  }

  lemma ProposeLogs(s: State, derive: Derivation, c: Call, a: Action)
    requires (c.CallPause? && a == Pause) || (c.CallUnpause? && a == Unpause)
    requires ProposeAction(s, derive, c.caller, a, c.auth).Ok?
    ensures Logs(s, ProposeAction(s, derive, c.caller, a, c.auth).value, derive, c)
  {
    var id := derive(a, s.sequence / 100);
    ProposalLog(s, derive, c.caller, a, c.auth);
    assert ProposesAs(s, derive, c, a, id);
    LogsMore(s, ProposeAction(s, derive, c.caller, a, c.auth).value, derive, c, ProposalEvents(s, id, c.caller, a));
  }

  lemma PauseLogs(s: State, derive: Derivation, c: Call)
    requires (c.CallPause? || c.CallUnpause?) && Step(s, derive, c).Ok?
    ensures Logs(s, Step(s, derive, c).value, derive, c)
  {
    if c.CallPause? && s.threshold != 0 {
      ProposeLogs(s, derive, c, Pause);
    } else if c.CallUnpause? && s.threshold != 0 && s.admin.value != c.caller {
      ProposeLogs(s, derive, c, Unpause);
    }
  }

  lemma OtherLogs(s: State, derive: Derivation, c: Call)
    requires !c.CallPause? && !c.CallUnpause? && Step(s, derive, c).Ok?
    ensures Logs(s, Step(s, derive, c).value, derive, c)
  {
    var t := Step(s, derive, c).value;
    if t.log == s.log {
      LogsMore(s, t, derive, c, []);
    } else {
      var e := if c.CallSetSigner? then SignerSet(c.signer, c.enabled)
               else if c.CallApprove? then Approved(c.id, c.signer, None)
               else Executed(c.id, s.payloads[c.id], s.threshold);
      LogsMore(s, t, derive, c, [e]);
    }
  }

  lemma StepLogs(s: State, derive: Derivation, c: Call)
    requires Step(s, derive, c).Ok?
    ensures Logs(s, Step(s, derive, c).value, derive, c)
  {
    if c.CallPause? || c.CallUnpause? { PauseLogs(s, derive, c); } else { OtherLogs(s, derive, c); }
  }

  /** Call `i` of the run succeeded and caused the event. */
  ghost predicate CausedBy(derive: Derivation, calls: seq<Call>, i: nat, e: Event) {
    && i < |calls|
    && var s := Run(Initial, derive, calls[..i]);
    Step(s, derive, calls[i]).Ok? && Causes(s, derive, calls[i], e)
  }

  /** On every run: a signer comes and goes by a call the admin signed; a payload and an approval go
      back to a call that a signer of that moment signed, for that action or that id; an execution
      carries out what was live, at the threshold of that moment. */
  lemma {:induction false} EventsGoBackToSigners(derive: Derivation, calls: seq<Call>, j: nat)
    ensures var log := Run(Initial, derive, calls).log;
      j < |log| ==> exists i: nat :: CausedBy(derive, calls, i, log[j])
  {
    if calls != [] {
      var k := |calls| - 1;
      var front, c := calls[..k], calls[k];
      var s, t := Run(Initial, derive, front), Run(Initial, derive, calls);
      EventsGoBackToSigners(derive, front, j);
      if Step(s, derive, c).Ok? { StepLogs(s, derive, c); }
      if j < |s.log| {
        var i: nat :| CausedBy(derive, front, i, s.log[j]);
        assert front[..i] == calls[..i] && CausedBy(derive, calls, i, s.log[j]);
        assert t.log[j] == s.log[j];
      } else if j < |t.log| {
        assert CausedBy(derive, calls, k, t.log[j]);
      }
    }
  }
}
