/** Who may call what in the arbitration contract, what each call does, and what that means for whole
    runs. */
module ArbitrationEffects {
  import opened Host
  import opened Lists
  import opened Arbitration
  import opened ArbitrationTheorems

  /** The contract runs, and its admin signed the call. */
  predicate AdminSigned(s: State, auth: set<Address>) {
    !s.paused && s.admin.Some? && s.admin.value in auth
  }

  // ----- Settings -----

  /** The admin gives somebody a positive weight, who then is an arbitrator; one who was keeps the
      place on the list and has the new weight. */
  lemma RegisterTakesEffect(s: State, a: Address, w: int, auth: set<Address>)
    ensures RegisterArbitrator(s, a, w, auth).Ok? <==> AdminSigned(s, auth) && w > 0
    ensures RegisterArbitrator(s, a, w, auth).Ok? ==>
      var t := RegisterArbitrator(s, a, w, auth).value.0;
      && t == s.(weights := t.weights, registry := t.registry)
      && a in t.weights && t.weights[a] == w && t.weights.Keys == s.weights.Keys + {a}
      && (forall b :: b in s.weights && b != a ==> t.weights[b] == s.weights[b])
      && t.registry == if a in s.registry then s.registry else s.registry + [a]
  {
  }

  /** The admin takes an arbitrator off; the others keep weight and order. */
  lemma UnregisterTakesEffect(s: State, a: Address, auth: set<Address>)
    requires Reachable(s)
    ensures UnregisterArbitrator(s, a, auth).Ok? <==> AdminSigned(s, auth)
    ensures UnregisterArbitrator(s, a, auth).Ok? ==>
      var t := UnregisterArbitrator(s, a, auth).value.0;
      && t == s.(weights := t.weights, registry := t.registry)
      && t.weights.Keys == s.weights.Keys - {a} && (forall b :: b in t.weights ==> t.weights[b] == s.weights[b])
      && t.registry == Kept(s.registry, s.weights.Keys - {a})
  {
    RegistryIsExact(s);
    KeptIs(s.registry, s.weights.Keys);
    KeptWithout(s.registry, s.weights.Keys, a);
  }

  /** The first to initialize is the admin; the admin sets the quorum, and nothing else changes. */
  lemma SettingsTakeEffect(s: State, caller: Address, w: int, n: nat, auth: set<Address>)
    ensures Initialize(s, caller).Ok? <==> s.admin == None
    ensures Initialize(s, caller).Ok? ==> Initialize(s, caller).value.0 == s.(admin := Some(caller), paused := false)
    ensures SetQuorum(s, caller, w, n, auth).Ok? <==> AdminSigned(s, auth) && s.admin == Some(caller)
    ensures SetQuorum(s, caller, w, n, auth).Ok? ==>
      SetQuorum(s, caller, w, n, auth).value.0 == s.(minWeight := w, minVoters := n)
  {
  }

  // ----- Disputes -----

  /** Nothing changed but the dispute `id`. */
  ghost predicate OnlyDispute(s: State, t: State, id: nat) {
    && t == s.(disputes := t.disputes, counter := t.counter)
    && t.disputes.Keys == s.disputes.Keys + {id}
    && forall j :: j in s.disputes && j != id ==> t.disputes[j] == s.disputes[j]
  }

  lemma {:induction false} NobodyVoted(ballots: seq<Ballot>, id: nat)
    requires forall i :: 0 <= i < |ballots| ==> ballots[i].dispute != id
    ensures VotersOf(ballots, id) == {}
  {
    if ballots != [] { NobodyVoted(ballots[..|ballots| - 1], id); }
  }

  lemma NextIsNew(s: State)
    requires Reachable(s)
    ensures s.counter !in s.disputes && Votes(s, s.counter) == map[] && VoterCount(s, s.counter) == 0
  {
    var id := s.counter;
    ReachableInv(s);
    assert DisputeInv(s, id) && VotersInv(s, id);
    forall i | 0 <= i < |s.ballots| ensures s.ballots[i].dispute != id { assert BallotInv(s, i); }
    forall o ensures o !in Votes(s, id) { assert OutcomeInv(s, id, o); }
    NobodyVoted(s.ballots, id);
  }

  /** Whoever signs may open a dispute, if clock and ids have room: it gets the next id, its creator
      and text, and votes are taken from now for the duration asked for. */
  lemma CreateTakesEffect(s: State, creator: Address, text: string, duration: nat, auth: set<Address>)
    requires Reachable(s)
    ensures CreateDispute(s, creator, text, duration, auth).Ok? <==>
      !s.paused && creator in auth && s.counter < U64_MAX && s.now + duration <= U64_MAX
    ensures CreateDispute(s, creator, text, duration, auth).Ok? ==>
      var (t, id) := CreateDispute(s, creator, text, duration, auth).value;
      && id == s.counter && t.counter == s.counter + 1 && id !in s.disputes && OnlyDispute(s, t, id)
      && t.disputes[id] == Dispute(id, creator, text, s.now, s.now + duration, Voting, 0, None, None)
      && Votes(t, id) == map[] && VoterCount(t, id) == 0
  {
    NextIsNew(s);
  }

  /** The creator or the admin cancels a dispute that is still being voted on, for a reason of at most
      256 characters; it is stored with the role, the creator's if one is both. */
  lemma CancelTakesEffect(s: State, caller: Address, id: nat, reason: Option<string>, auth: set<Address>)
    requires Reachable(s)
    ensures CancelDispute(s, caller, id, reason, auth).Ok? <==>
      && !s.paused && caller in auth && (reason.Some? ==> |reason.value| <= 256)
      && id in s.disputes && s.admin.Some? && (caller == s.disputes[id].creator || s.admin == Some(caller))
      && s.disputes[id].status == Voting
    ensures CancelDispute(s, caller, id, reason, auth).Ok? ==>
      var t := CancelDispute(s, caller, id, reason, auth).value.0;
      && OnlyDispute(s, t, id) && t.counter == s.counter
      && t.disputes[id] == s.disputes[id].(status := Cancelled, reason := reason,
           cancelledBy := Some(if caller == s.disputes[id].creator then Creator else Admin))
  {
    if id in s.disputes { StoredStatus(s, id); }
  }

  /** An arbitrator votes once, by a call it signed, for an outcome that is not 0, while the dispute is
      open, its end included; and the counters have room. */
  lemma VoteSucceedsIff(s: State, voter: Address, id: nat, outcome: nat, auth: set<Address>)
    requires Reachable(s)
    ensures CastVote(s, voter, id, outcome, auth).Ok? <==>
      && !s.paused && voter in auth && voter in s.weights && outcome != 0
      && id in s.disputes && s.disputes[id].status == Voting && s.disputes[id].start <= s.now <= s.disputes[id].end
      && Vote(id, voter) !in s.voted
      && VoterCount(s, id) < 0xFFFF_FFFF && StoredTally(s, id, outcome) + s.weights[voter] <= I128_MAX
  {
  }

  /** It is on record with the weight of the voter, and nothing else changed but the tally, the counter
      and the record of who voted. */
  lemma VoteIsRecorded(s: State, voter: Address, id: nat, outcome: nat, auth: set<Address>)
    requires CastVote(s, voter, id, outcome, auth).Ok?
    ensures var t := CastVote(s, voter, id, outcome, auth).value.0;
      && t == s.(votes := t.votes, voterCounts := t.voterCounts, voted := s.voted + {Vote(id, voter)},
                 ballots := s.ballots + [Ballot(id, voter, outcome, s.weights[voter], s.now)])
  {
  }

  /** A resolution changes nothing but the status and the outcome of its dispute. */
  lemma ResolveTakesEffect(s: State, id: nat)
    requires ResolveDispute(s, id).Ok?
    ensures var (t, w) := ResolveDispute(s, id).value;
      && id in s.disputes && OnlyDispute(s, t, id) && t.counter == s.counter && s.now > s.disputes[id].end
      && t.disputes[id] == s.disputes[id].(status := if w == 0 then Tied else Resolved, outcome := w)
  {
  }

  // ----- Over whole runs -----

  /** The call casts this ballot: its voter signed it and has that weight at that moment. */
  predicate Casts(s: State, c: Call, b: Ballot) {
    && c.CallVote? && c.voter in c.auth && c.voter in s.weights
    && b == Ballot(c.id, c.voter, c.outcome, s.weights[c.voter], s.now)
  }

  /** The call gives `a` this weight, and the admin signed it. */
  predicate Weighs(s: State, c: Call, a: Address, w: int) {
    c.CallRegister? && c.a == a && c.weight == w && AdminSigned(s, c.auth)
  }

  /** The call opens this dispute, and its creator signed it. */
  predicate Opens(s: State, c: Call, d: Dispute) {
    && c.CallCreate? && c.creator in c.auth
    && d == Dispute(s.counter, c.creator, c.description, s.now, s.now + c.duration, Voting, 0, None, None)
  }

  /** The call cancels the dispute for this reason, and its creator or the admin signed it. */
  predicate Cancels(s: State, c: Call, d: Dispute) {
    && c.CallCancel? && c.id == d.id && c.caller in c.auth && c.reason == d.reason
    && (if d.cancelledBy == Some(Creator) then c.caller == d.creator else s.admin == Some(c.caller))
  }

  lemma StepBallots(s: State, c: Call)
    ensures var t := Step(s, c);
      t.ballots == s.ballots || (|t.ballots| == |s.ballots| + 1 && t.ballots[..|s.ballots|] == s.ballots
                                 && Casts(s, c, t.ballots[|s.ballots|]))
  {
  }

  lemma StepWeights(s: State, c: Call, a: Address)
    ensures var t := Step(s, c);
      a in t.weights ==> (a in s.weights && t.weights[a] == s.weights[a]) || Weighs(s, c, a, t.weights[a])
  {
  }

  /** A dispute as it was opened. */
  function AsOpened(d: Dispute): Dispute {
    d.(status := Voting, outcome := 0, reason := None, cancelledBy := None)
  }

  lemma StepDisputes(s: State, c: Call, id: nat)
    requires Reachable(s)
    ensures var t := Step(s, c);
      && (id in s.disputes ==> id in t.disputes && AsOpened(t.disputes[id]) == AsOpened(s.disputes[id]))
      && (id in t.disputes && id !in s.disputes ==> Opens(s, c, t.disputes[id]))
  {
    NextIsNew(s);
  }

  /** Call `i` of the run cast the ballot. */
  ghost predicate CastBy(calls: seq<Call>, i: nat, b: Ballot) {
    i < |calls| && Casts(Run(Initial, calls[..i]), calls[i], b)
  }

  /** Call `i` of the run gave the weight. */
  ghost predicate WeighedBy(calls: seq<Call>, i: nat, a: Address, w: int) {
    i < |calls| && Weighs(Run(Initial, calls[..i]), calls[i], a, w)
  }

  /** Call `i` of the run opened the dispute. */
  ghost predicate OpenedBy(calls: seq<Call>, i: nat, d: Dispute) {
    i < |calls| && Opens(Run(Initial, calls[..i]), calls[i], d)
  }

  /** On every run each ballot goes back to a call its voter signed, and weighs what the voter weighed
      then; each weight goes back to a call the admin signed that gave just that. */
  lemma {:induction false} BallotsGoBackToVoters(calls: seq<Call>, j: nat, a: Address)
    ensures var t := Run(Initial, calls);
      && (j < |t.ballots| ==> exists i: nat :: CastBy(calls, i, t.ballots[j]))
      && (a in t.weights ==> exists i: nat :: WeighedBy(calls, i, a, t.weights[a]))
  {
    if calls != [] {
      var k := |calls| - 1;
      var front, c := calls[..k], calls[k];
      var s, t := Run(Initial, front), Run(Initial, calls);
      BallotsGoBackToVoters(front, j, a);
      StepBallots(s, c);
      StepWeights(s, c, a);
      if j < |s.ballots| {
        var i: nat :| CastBy(front, i, s.ballots[j]);
        assert front[..i] == calls[..i] && CastBy(calls, i, s.ballots[j]);
        assert t.ballots[j] == s.ballots[j];
      } else if j < |t.ballots| {
        assert CastBy(calls, k, t.ballots[j]);
      }
      if a in t.weights {
        if a in s.weights && s.weights[a] == t.weights[a] {
          var i: nat :| WeighedBy(front, i, a, s.weights[a]);
          assert front[..i] == calls[..i] && WeighedBy(calls, i, a, t.weights[a]);
        } else {
          assert WeighedBy(calls, k, a, t.weights[a]);
        }
      }
    }
  }

  /** On every run each dispute is, but for how it ended, what a call opened that its creator signed. */
  lemma {:induction false} DisputesGoBackToCreators(calls: seq<Call>, id: nat)
    ensures var t := Run(Initial, calls);
      id in t.disputes ==> exists i: nat :: OpenedBy(calls, i, AsOpened(t.disputes[id]))
  {
    if calls != [] {
      var k := |calls| - 1;
      var front, c := calls[..k], calls[k];
      var s, t := Run(Initial, front), Run(Initial, calls);
      assert Reachable(s);
      DisputesGoBackToCreators(front, id);
      StepDisputes(s, c, id);
      if id in s.disputes {
        var i: nat :| OpenedBy(front, i, AsOpened(s.disputes[id]));
        assert front[..i] == calls[..i] && OpenedBy(calls, i, AsOpened(t.disputes[id]));
      } else if id in t.disputes {
        assert OpenedBy(calls, k, AsOpened(t.disputes[id]));
      }
    }
  }

  /** Call `i` of the run cancelled the dispute. */
  ghost predicate CancelledBy(calls: seq<Call>, i: nat, d: Dispute) {
    i < |calls| && Cancels(Run(Initial, calls[..i]), calls[i], d)
  }

  lemma StepCancels(s: State, c: Call, id: nat)
    requires Reachable(s) && id in Step(s, c).disputes && Step(s, c).disputes[id].status == Cancelled
    ensures (id in s.disputes && s.disputes[id] == Step(s, c).disputes[id]) || Cancels(s, c, Step(s, c).disputes[id])
  {
    ReachableInv(s);
    assert DisputeInv(s, id);
    if c.CallCancel? { CancelTakesEffect(s, c.caller, c.id, c.reason, c.auth); }
  }

  /** And a cancelled one goes back to a call that its creator or the admin signed, for that reason. */
  lemma {:induction false} CancellationsGoBack(calls: seq<Call>, id: nat)
    ensures var t := Run(Initial, calls);
      id in t.disputes && t.disputes[id].status == Cancelled ==> exists i: nat :: CancelledBy(calls, i, t.disputes[id])
  {
    if calls != [] {
      var k := |calls| - 1;
      var front, c := calls[..k], calls[k];
      var s, t := Run(Initial, front), Run(Initial, calls);
      assert Reachable(s);
      CancellationsGoBack(front, id);
      if id in t.disputes && t.disputes[id].status == Cancelled {
        StepCancels(s, c, id);
        if id in s.disputes && s.disputes[id] == t.disputes[id] {
          var i: nat :| CancelledBy(front, i, s.disputes[id]);
          assert front[..i] == calls[..i] && CancelledBy(calls, i, t.disputes[id]);
        } else {
          assert CancelledBy(calls, k, t.disputes[id]);
        }
      }
    }
  }
}
