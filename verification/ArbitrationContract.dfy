/** The arbitration entry points as the contract runs them. */
module ArbitrationContract {
  import opened Host
  import opened Lists
  import opened Arbitration
  import T = ArbitrationTheorems

  /** What the loop knows at its end determines the winner. */
  lemma TallyMeans(votes: map<nat, int>, winner: nat, maxWeight: int, isTie: bool)
    requires 0 !in votes
    requires maxWeight == -1 ==> votes.Keys == {} && isTie
    requires maxWeight != -1 ==> winner in votes && votes[winner] == maxWeight
    requires forall o :: o in votes ==> votes[o] <= maxWeight
    requires maxWeight != -1 ==> (isTie <==> exists o :: o in votes && o != winner && votes[o] == maxWeight)
    ensures (if isTie then 0 else winner) == Winner(votes)
    ensures !isTie ==> winner != 0
  {
    if isTie {
      forall j: nat ensures !StrictMax(votes, j) {
        if maxWeight != -1 {
          var o :| o in votes && o != winner && votes[o] == maxWeight;
        } else {
          assert j !in votes.Keys;
        }
      }
    } else {
      assert StrictMax(votes, winner);
    }
    T.WinnerIs(votes, if winner == 0 then 1 else winner);
  }

  /** The tally loop, in whatever order the entries come. */
  method TallyLoop(votes: map<nat, int>) returns (winner: nat, isTie: bool)
    requires forall o :: o in votes ==> votes[o] > 0 && o != 0
    ensures (if isTie then 0 else winner) == Winner(votes)
    ensures !isTie ==> winner != 0
  {
    var left := votes.Keys;
    var maxWeight := -1;
    winner, isTie := 0, false;
    while left != {}
      invariant left <= votes.Keys
      invariant maxWeight == -1 ==> left == votes.Keys && !isTie
      invariant maxWeight != -1 ==>
        winner in votes && winner !in left && votes[winner] == maxWeight > 0
      invariant forall o :: o in votes && o !in left ==> votes[o] <= maxWeight && maxWeight != -1
      invariant isTie <==> exists o :: o in votes && o !in left && o != winner && votes[o] == maxWeight
    {
      var outcome :| outcome in left;
      var weight := votes[outcome];
      ghost var wasTie, was := isTie, winner;
      if weight > maxWeight {
        maxWeight, winner, isTie := weight, outcome, false;
      } else if weight == maxWeight {
        isTie := true;
        assert outcome in votes && outcome != winner && votes[outcome] == maxWeight;
      }
      left := left - {outcome};
    }
    if maxWeight < 0 {
      isTie := true;
    }
    TallyMeans(votes, winner, maxWeight, isTie);
  }

  /** The checked sum of all tallies, in whatever order they come. */
  method SumLoop(votes: map<nat, int>) returns (total: Result<int, ArbitrationError>)
    requires forall o :: o in votes ==> votes[o] > 0
    ensures total == if SumVotes(votes) > I128_MAX then Err(Overflow) else Ok(SumVotes(votes))
  {
    var left := votes.Keys;
    var sum := 0;
    while left != {}
      invariant left <= votes.Keys
      invariant sum + SumOver(votes, left) == SumVotes(votes) && sum <= I128_MAX
    {
      var outcome :| outcome in left;
      T.SumTake(votes, left, outcome);
      T.SumNonNegative(votes, left - {outcome});
      if sum + votes[outcome] > I128_MAX {
        return Err(Overflow);
      }
      sum := sum + votes[outcome];
      left := left - {outcome};
    }
    total := Ok(sum);
  }

  class ArbitrationStore {
    var admin: Option<Address>
    var paused: bool
    var now: nat
    var weights: map<Address, int>
    var registry: seq<Address>
    var counter: nat
    var disputes: map<nat, Dispute>
    var votes: map<nat, map<nat, int>>
    var voted: set<Vote>
    var voterCounts: map<nat, nat>
    var minWeight: int
    var minVoters: nat
    ghost var ballots: seq<Ballot>

    ghost function Model(): State
      reads this
    {
      State(admin, paused, now, weights, registry, counter, disputes, votes, voted, voterCounts, minWeight,
            minVoters, ballots)
    }

    ghost predicate Valid()
      reads this
    {
      T.Reachable(Model())
    }

    constructor ()
      ensures Valid() && Model() == Arbitration.Initial
    {
      admin, paused, now, weights, registry, counter, disputes := None, false, 0, map[], [], 0, map[];
      votes, voted, voterCounts, minWeight, minVoters, ballots := map[], {}, map[], 0, 0, [];
      new;
      assert T.Run(Arbitration.Initial, []) == Model();
    }

    method SetEnvironment(t: nat, p: bool)
      requires Valid() && now <= t <= U64_MAX
      modifies this
      ensures Valid() && Model() == old(Model()).(now := t, paused := p)
    {
      T.ReachableStep(Model(), T.CallTick(t));
      now := t;
      T.ReachableStep(Model(), T.CallSetPaused(p));
      paused := p;
    }

    method Initialize(a: Address) returns (r: Result<(), ArbitrationError>)
      requires Valid()
      modifies this
      ensures Valid()
      ensures var o := Arbitration.Initialize(old(Model()), a);
        Model() == T.After(old(Model()), o) && r == Returns(o)
    {
      T.ReachableStep(Model(), T.CallInitialize(a));
      if admin.Some? {
        r := Err(AlreadyInitialized);
      } else {
        admin, paused := Some(a), false;
        r := Ok(());
      }
    }

    method RequireAdmin(auth: set<Address>) returns (e: Option<ArbitrationError>)
      ensures e == AdminError(Model(), auth)
    {
      e := if paused then Some(ContractPaused)
           else if admin.None? then Some(NotInitialized)
           else if admin.value !in auth then Some(Unauthorized)
           else None;
    }

    method RegisterArbitrator(a: Address, weight: int, auth: set<Address>) returns (r: Result<(), ArbitrationError>)
      requires Valid()
      modifies this
      ensures Valid()
      ensures var o := Arbitration.RegisterArbitrator(old(Model()), a, weight, auth);
        Model() == T.After(old(Model()), o) && r == Returns(o)
    {
      T.ReachableStep(Model(), T.CallRegister(a, weight, auth));
      var e := RequireAdmin(auth);
      if e.Some? {
        r := Err(e.value);
      } else if weight <= 0 {
        r := Err(WeightNotPositive);
      } else {
        weights := weights[a := weight];
        var known := Contains(registry, a);
        if !known {
          registry := registry + [a];
        }
        r := Ok(());
      }
    }

    method UnregisterArbitrator(a: Address, auth: set<Address>) returns (r: Result<(), ArbitrationError>)
      requires Valid()
      modifies this
      ensures Valid()
      ensures var o := Arbitration.UnregisterArbitrator(old(Model()), a, auth);
        Model() == T.After(old(Model()), o) && r == Returns(o)
    {
      T.ReachableStep(Model(), T.CallUnregister(a, auth));
      var e := RequireAdmin(auth);
      if e.Some? {
        r := Err(e.value);
      } else {
        weights := weights - {a};
        registry := FilterOut(registry, a);
        r := Ok(());
      }
    }

    method SetQuorum(caller: Address, weight: int, voters: nat, auth: set<Address>)
        returns (r: Result<(), ArbitrationError>)
      requires Valid()
      modifies this
      ensures Valid()
      ensures var o := Arbitration.SetQuorum(old(Model()), caller, weight, voters, auth);
        Model() == T.After(old(Model()), o) && r == Returns(o)
    {
      T.ReachableStep(Model(), T.CallSetQuorum(caller, weight, voters, auth));
      if paused {
        r := Err(ContractPaused);
      } else if admin.None? {
        r := Err(NotInitialized);
      } else if caller !in auth {
        r := Err(Unauthorized);
      } else if caller != admin.value {
        r := Err(NotAdmin);
      } else {
        minWeight, minVoters := weight, voters;
        r := Ok(());
      }
    }

    method CreateDispute(creator: Address, description: string, duration: nat, auth: set<Address>)
      returns (r: Result<nat, ArbitrationError>)
      requires Valid()
      modifies this
      ensures Valid()
      ensures var o := Arbitration.CreateDispute(old(Model()), creator, description, duration, auth);
        Model() == T.After(old(Model()), o) && r == Returns(o)
    {
      T.ReachableStep(Model(), T.CallCreate(creator, description, duration, auth));
      if paused {
        r := Err(ContractPaused);
      } else if creator !in auth {
        r := Err(Unauthorized);
      } else if counter >= U64_MAX || now + duration > U64_MAX {
        r := Err(Overflow);
      } else {
        var id := counter;
        counter := id + 1;
        assert RequireTransition(Open, Voting).Ok?;
        disputes := disputes[id := Dispute(id, creator, description, now, now + duration, Voting, 0, None, None)];
        r := Ok(id);
      }
    }

    method CancelDispute(caller: Address, id: nat, reason: Option<string>, auth: set<Address>)
        returns (r: Result<(), ArbitrationError>)
      requires Valid()
      modifies this
      ensures Valid()
      ensures var o := Arbitration.CancelDispute(old(Model()), caller, id, reason, auth);
        Model() == T.After(old(Model()), o) && r == Returns(o)
    {
      T.ReachableStep(Model(), T.CallCancel(caller, id, reason, auth));
      if paused {
        r := Err(ContractPaused);
      } else if caller !in auth {
        r := Err(Unauthorized);
      } else if reason.Some? && |reason.value| > MAX_REASON {
        r := Err(ReasonTooLong);
      } else if id !in disputes {
        r := Err(DisputeNotFound);
      } else if admin.None? {
        r := Err(NotInitialized);
      } else if caller != disputes[id].creator && caller != admin.value {
        r := Err(NotAuthorized);
      } else if RequireTransition(disputes[id].status, Cancelled).Err? {
        r := Err(InvalidTransition);
      } else {
        var role := if caller == disputes[id].creator then Creator else Admin;
        disputes := disputes[id := disputes[id].(status := Cancelled, reason := reason, cancelledBy := Some(role))];
        r := Ok(());
      }
    }

    /** The checks of vote, in order. */
    method CheckVote(voter: Address, id: nat, outcome: nat, auth: set<Address>) returns (e: Option<ArbitrationError>)
      ensures e == VoteError(Model(), voter, id, outcome, auth)
    {
      var v: map<nat, int> := if id in votes then votes[id] else map[];
      var tally := if outcome in v then v[outcome] else 0;
      var count := if id in voterCounts then voterCounts[id] else 0;
      if paused {
        e := Some(ContractPaused);
      } else if voter !in auth {
        e := Some(Unauthorized);
      } else if outcome == 0 {
        e := Some(InvalidOutcome);
      } else if voter !in weights {
        e := Some(NotArbitrator);
      } else if id !in disputes {
        e := Some(DisputeNotFound);
      } else if disputes[id].status != Voting || now < disputes[id].start || now > disputes[id].end {
        e := Some(VotingInactive);
      } else if Vote(id, voter) in voted {
        e := Some(AlreadyVoted);
      } else if count >= U32_MAX || tally + weights[voter] > I128_MAX {
        e := Some(Overflow);
      } else {
        e := None;
      }
    }

    /** The writes of vote. */
    method RecordVote(voter: Address, id: nat, outcome: nat, weight: int)
      modifies this
      ensures Model() == Arbitration.Cast(old(Model()), voter, id, outcome, weight)
    {
      var v: map<nat, int> := if id in votes then votes[id] else map[];
      var tally := if outcome in v then v[outcome] else 0;
      var count := if id in voterCounts then voterCounts[id] else 0;
      voted := voted + {Vote(id, voter)};
      voterCounts := voterCounts[id := count + 1];
      v := v[outcome := tally + weight];
      votes := votes[id := v];
      ballots := ballots + [Ballot(id, voter, outcome, weight, now)];
    }

    method CastVote(voter: Address, id: nat, outcome: nat, auth: set<Address>) returns (r: Result<(), ArbitrationError>)
      requires Valid()
      modifies this
      ensures Valid()
      ensures var o := Arbitration.CastVote(old(Model()), voter, id, outcome, auth);
        Model() == T.After(old(Model()), o) && r == Returns(o)
    {
      ghost var s := Model();
      T.VoteIsReachable(s, voter, id, outcome, auth);
      var e := CheckVote(voter, id, outcome, auth);
      if e.Some? {
        r := Err(e.value);
      } else {
        RecordVote(voter, id, outcome, weights[voter]);
        r := Ok(());
      }
    }

    /** The quorum check of resolve_dispute. */
    method CheckQuorum(id: nat) returns (e: Option<ArbitrationError>)
      requires Valid()
      ensures e == QuorumError(Model(), id)
    {
      e := None;
      if minWeight > 0 || minVoters > 0 {
        VotesArePositive(Model(), id);
        var v: map<nat, int> := if id in votes then votes[id] else map[];
        assert v == Votes(Model(), id);
        var total := SumLoop(v);
        var count := if id in voterCounts then voterCounts[id] else 0;
        if total.Err? {
          e := Some(total.error);
        } else if total.value < minWeight || count < minVoters {
          e := Some(QuorumNotMet);
        }
      }
    }

    method ResolveDispute(id: nat) returns (r: Result<nat, ArbitrationError>)
      requires Valid()
      modifies this
      ensures Valid()
      ensures var o := Arbitration.ResolveDispute(old(Model()), id);
        Model() == T.After(old(Model()), o) && r == Returns(o)
    {
      T.ReachableStep(Model(), T.CallResolve(id));
      if paused {
        r := Err(ContractPaused);
      } else if id !in disputes {
        r := Err(DisputeNotFound);
      } else if RequireTransition(disputes[id].status, Resolving).Err? {
        r := Err(InvalidTransition);
      } else if now <= disputes[id].end {
        r := Err(VotingNotEnded);
      } else {
        var quorum := CheckQuorum(id);
        if quorum.Some? {
          r := Err(quorum.value);
        } else {
          var v: map<nat, int> := if id in votes then votes[id] else map[];
          VotesArePositive(Model(), id);
          var winner, isTie := TallyLoop(v);
          var d := disputes[id].(status := Resolving);
          if isTie {
            d := d.(status := Tied, outcome := 0);
            r := Ok(0);
          } else {
            d := d.(status := Resolved, outcome := winner);
            r := Ok(winner);
          }
          disputes := disputes[id := d];
        }
      }
    }
  }

  lemma VotesArePositive(s: State, id: nat)
    requires T.Reachable(s)
    ensures forall o :: o in Votes(s, id) ==> Votes(s, id)[o] > 0 && o != 0
  {
    T.ReachableInv(s);
    forall o | o in Votes(s, id) ensures Votes(s, id)[o] > 0 && o != 0 {
      assert T.OutcomeInv(s, id, o);
    }
  }

  function Returns<V>(o: Outcome<V>): Result<V, ArbitrationError> {
    if o.Ok? then Ok(o.value.1) else Err(o.error)
  }
}
