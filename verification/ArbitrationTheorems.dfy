/** What every run of the arbitration contract keeps. */
module ArbitrationTheorems {
  import opened Host
  import opened Lists
  import opened Arbitration

  // ----- Runs -----

  datatype Call =
    | CallTick(now: nat)
    | CallSetPaused(paused: bool)
    | CallInitialize(admin: Address)
    | CallRegister(a: Address, weight: int, auth: set<Address>)
    | CallUnregister(a: Address, auth: set<Address>)
    | CallSetQuorum(admin: Address, minWeight: int, minVoters: nat, auth: set<Address>)
    | CallCreate(creator: Address, description: string, duration: nat, auth: set<Address>)
    | CallCancel(caller: Address, id: nat, reason: Option<string>, auth: set<Address>)
    | CallVote(voter: Address, id: nat, outcome: nat, auth: set<Address>)
    | CallResolve(id: nat)

  /** The state after a call; a failed one leaves no trace. */
  function After<T>(s: State, o: Outcome<T>): State {
    if o.Ok? then o.value.0 else s
  }

  ghost function Step(s: State, c: Call): State {
    match c
    case CallTick(now) => if s.now <= now <= U64_MAX then s.(now := now) else s
    case CallSetPaused(paused) => s.(paused := paused)
    case CallInitialize(admin) => After(s, Initialize(s, admin))
    case CallRegister(a, w, auth) => After(s, RegisterArbitrator(s, a, w, auth))
    case CallUnregister(a, auth) => After(s, UnregisterArbitrator(s, a, auth))
    case CallSetQuorum(a, w, n, auth) => After(s, SetQuorum(s, a, w, n, auth))
    case CallCreate(a, x, d, auth) => After(s, CreateDispute(s, a, x, d, auth))
    case CallCancel(a, id, r, auth) => After(s, CancelDispute(s, a, id, r, auth))
    case CallVote(a, id, o, auth) => After(s, CastVote(s, a, id, o, auth))
    case CallResolve(id) => After(s, ResolveDispute(s, id))
  }

  ghost function Run(s: State, calls: seq<Call>): State {
    if calls == [] then s else Step(Run(s, calls[..|calls| - 1]), calls[|calls| - 1])
  }

  ghost predicate Reachable(s: State) {
    exists calls :: Run(Initial, calls) == s
  }

  lemma ReachableStep(s: State, c: Call)
    requires Reachable(s)
    ensures Reachable(Step(s, c))
  {
    var calls :| Run(Initial, calls) == s;
    assert (calls + [c])[..|calls|] == calls;
    assert Run(Initial, calls + [c]) == Step(s, c);
  }

  // ----- What the ballots say -----

  /** The weight cast in a dispute for the outcomes in `among`. */
  function WeightAmong(ballots: seq<Ballot>, id: nat, among: set<nat>): int {
    if ballots == [] then 0
    else
      var b := ballots[|ballots| - 1];
      WeightAmong(ballots[..|ballots| - 1], id, among) + (if b.dispute == id && b.outcome in among then b.weight else 0)
  }

  /** The weight of all ballots of a dispute. */
  function BallotWeight(ballots: seq<Ballot>, id: nat): int {
    if ballots == [] then 0
    else
      var b := ballots[|ballots| - 1];
      BallotWeight(ballots[..|ballots| - 1], id) + (if b.dispute == id then b.weight else 0)
  }

  function Tally(ballots: seq<Ballot>, id: nat, outcome: nat): int {
    WeightAmong(ballots, id, {outcome})
  }

  function VotersOf(ballots: seq<Ballot>, id: nat): set<Address> {
    if ballots == [] then {}
    else
      var b := ballots[|ballots| - 1];
      VotersOf(ballots[..|ballots| - 1], id) + (if b.dispute == id then {b.voter} else {})
  }

  /** Was there a ballot for this outcome? */
  predicate Cast(ballots: seq<Ballot>, id: nat, outcome: nat) {
    exists i :: 0 <= i < |ballots| && ballots[i].dispute == id && ballots[i].outcome == outcome
  }

  ghost predicate OutcomeInv(s: State, id: nat, outcome: nat) {
    && (outcome in Votes(s, id) <==> Cast(s.ballots, id, outcome))
    && (outcome in Votes(s, id) ==> Votes(s, id)[outcome] == Tally(s.ballots, id, outcome))
    && (outcome in Votes(s, id) ==> 0 < Votes(s, id)[outcome] <= I128_MAX && outcome != 0)
  }

  ghost predicate VotersInv(s: State, id: nat) {
    && VoterCount(s, id) == |VotersOf(s.ballots, id)|
    && forall w :: w in VotersOf(s.ballots, id) <==> Vote(id, w) in s.voted
  }

  ghost predicate DisputeInv(s: State, id: nat) {
    && (id in s.disputes <==> id < s.counter)
    && (id in s.disputes ==>
          var d := s.disputes[id];
          && d.id == id && d.start <= d.end && d.start <= s.now
          && d.status != Open && d.status != Resolving
          && (d.outcome != 0 <==> d.status == Resolved)
          && (d.cancelledBy.Some? <==> d.status == Cancelled))
  }

  /** Each ballot was cast by time and within the window of its dispute. */
  ghost predicate BallotInv(s: State, i: nat)
    requires i < |s.ballots|
  {
    var b := s.ballots[i];
    && b.dispute in s.disputes && s.disputes[b.dispute].start <= b.at <= s.disputes[b.dispute].end
    && b.at <= s.now && b.weight > 0
  }

  ghost predicate RegistryInv(s: State) {
    && NoDup(s.registry)
    && (forall a :: a in s.registry <==> a in s.weights)
    && (forall a :: a in s.weights ==> s.weights[a] > 0)
  }

  ghost predicate Inv(s: State) {
    && RegistryInv(s)
    && s.now <= U64_MAX
    && (forall id: nat, o: nat :: OutcomeInv(s, id, o))
    && (forall id: nat :: VotersInv(s, id))
    && (forall id: nat :: DisputeInv(s, id))
    && (forall i :: 0 <= i < |s.ballots| ==> BallotInv(s, i))
  }

  // ----- Each step keeps the invariant -----

  lemma BallotPush(ballots: seq<Ballot>, b: Ballot)
    ensures (ballots + [b])[..|ballots + [b]| - 1] == ballots
  {
  }

  lemma CastPush(ballots: seq<Ballot>, b: Ballot, id: nat, outcome: nat)
    ensures Cast(ballots + [b], id, outcome) <==>
      Cast(ballots, id, outcome) || (b.dispute == id && b.outcome == outcome)
  {
    if b.dispute == id && b.outcome == outcome { assert (ballots + [b])[|ballots|] == b; }
    if Cast(ballots, id, outcome) {
      var i :| 0 <= i < |ballots| && ballots[i].dispute == id && ballots[i].outcome == outcome;
      assert (ballots + [b])[i] == ballots[i];
    }
  }

  lemma {:induction false} UncastIsZero(ballots: seq<Ballot>, id: nat, outcome: nat)
    requires !Cast(ballots, id, outcome)
    ensures Tally(ballots, id, outcome) == 0
  {
    if ballots != [] {
      var front := ballots[..|ballots| - 1];
      assert ballots == front + [ballots[|ballots| - 1]];
      CastPush(front, ballots[|ballots| - 1], id, outcome);
      UncastIsZero(front, id, outcome);
    }
  }

  lemma VoteKeepsOutcomes(s: State, voter: Address, id: nat, outcome: nat, auth: set<Address>)
    requires Inv(s) && VoteError(s, voter, id, outcome, auth).None?
    ensures var t := Arbitration.Cast(s, voter, id, outcome, s.weights[voter]);
      forall j: nat, o: nat :: OutcomeInv(t, j, o)
  {
    var b := Ballot(id, voter, outcome, s.weights[voter], s.now);
    var t := Arbitration.Cast(s, voter, id, outcome, s.weights[voter]);
    BallotPush(s.ballots, b);
    forall j: nat, o: nat ensures OutcomeInv(t, j, o) {
      assert OutcomeInv(s, j, o);
      CastPush(s.ballots, b, j, o);
      if !Cast(s.ballots, j, o) { UncastIsZero(s.ballots, j, o); }
    }
  }

  lemma VoteKeepsVoters(s: State, voter: Address, id: nat, outcome: nat, auth: set<Address>)
    requires Inv(s) && VoteError(s, voter, id, outcome, auth).None?
    ensures var t := Arbitration.Cast(s, voter, id, outcome, s.weights[voter]);
      forall j: nat :: VotersInv(t, j)
  {
    var b := Ballot(id, voter, outcome, s.weights[voter], s.now);
    var t := Arbitration.Cast(s, voter, id, outcome, s.weights[voter]);
    BallotPush(s.ballots, b);
    forall j: nat ensures VotersInv(t, j) {
      assert VotersInv(s, j);
      if j == id { assert VotersOf(t.ballots, id) == VotersOf(s.ballots, id) + {voter}; }
    }
  }

  lemma VoteKeepsInv(s: State, voter: Address, id: nat, outcome: nat, auth: set<Address>)
    requires Inv(s)
    ensures Inv(After(s, CastVote(s, voter, id, outcome, auth)))
  {
    var o := CastVote(s, voter, id, outcome, auth);
    if o.Ok? {
      var t := o.value.0;
      VoteKeepsOutcomes(s, voter, id, outcome, auth);
      VoteKeepsVoters(s, voter, id, outcome, auth);
      forall j: nat ensures DisputeInv(t, j) {
        assert DisputeInv(s, j);
      }
      forall i | 0 <= i < |t.ballots| ensures BallotInv(t, i) {
        if i < |s.ballots| { assert BallotInv(s, i); }
      }
    }
  }

  /** Calls that leave votes, voters and ballots alone and change disputes one by one. */
  lemma DisputeStepKeepsInv(s: State, t: State)
    requires Inv(s) && RegistryInv(t) && s.now <= t.now <= U64_MAX
    requires t.votes == s.votes && t.voted == s.voted && t.voterCounts == s.voterCounts && t.ballots == s.ballots
    requires forall id: nat :: DisputeInv(t, id)
    requires forall id: nat :: id in s.disputes ==>
      id in t.disputes && t.disputes[id].start == s.disputes[id].start && t.disputes[id].end == s.disputes[id].end
    ensures Inv(t)
  {
    forall id: nat, o: nat ensures OutcomeInv(t, id, o) {
      assert OutcomeInv(s, id, o);
    }
    forall id: nat ensures VotersInv(t, id) {
      assert VotersInv(s, id);
    }
    forall i | 0 <= i < |t.ballots| ensures BallotInv(t, i) {
      assert BallotInv(s, i);
    }
  }

  lemma QuietKeepsInv(s: State, t: State)
    requires Inv(s) && RegistryInv(t) && s.now <= t.now <= U64_MAX
    requires t.votes == s.votes && t.voted == s.voted && t.voterCounts == s.voterCounts && t.ballots == s.ballots
    requires t.disputes == s.disputes && t.counter == s.counter
    ensures Inv(t)
  {
    forall id: nat ensures DisputeInv(t, id) {
      assert DisputeInv(s, id);
    }
    DisputeStepKeepsInv(s, t);
  }

  lemma CreateKeepsInv(s: State, creator: Address, description: string, duration: nat, auth: set<Address>)
    requires Inv(s)
    ensures Inv(After(s, CreateDispute(s, creator, description, duration, auth)))
  {
    var t := After(s, CreateDispute(s, creator, description, duration, auth));
    assert DisputeInv(s, s.counter);
    forall id: nat ensures DisputeInv(t, id) {
      assert DisputeInv(s, id);
    }
    DisputeStepKeepsInv(s, t);
  }

  lemma CancelKeepsInv(s: State, caller: Address, id: nat, reason: Option<string>, auth: set<Address>)
    requires Inv(s)
    ensures Inv(After(s, CancelDispute(s, caller, id, reason, auth)))
  {
    var t := After(s, CancelDispute(s, caller, id, reason, auth));
    forall j: nat ensures DisputeInv(t, j) {
      assert DisputeInv(s, j);
    }
    DisputeStepKeepsInv(s, t);
  }

  lemma ResolveKeepsInv(s: State, id: nat)
    requires Inv(s)
    ensures Inv(After(s, ResolveDispute(s, id)))
  {
    var t := After(s, ResolveDispute(s, id));
    forall j: nat ensures DisputeInv(t, j) {
      assert DisputeInv(s, j);
    }
    DisputeStepKeepsInv(s, t);
  }

  lemma RegisterKeepsRegistry(s: State, a: Address, weight: int, auth: set<Address>)
    requires RegistryInv(s)
    ensures RegistryInv(After(s, RegisterArbitrator(s, a, weight, auth)))
  {
    if a !in s.registry { NoDupPush(s.registry, a); }
  }

  lemma RegisterKeepsInv(s: State, a: Address, weight: int, auth: set<Address>)
    requires Inv(s)
    ensures Inv(After(s, RegisterArbitrator(s, a, weight, auth)))
  {
    RegisterKeepsRegistry(s, a, weight, auth);
    QuietKeepsInv(s, After(s, RegisterArbitrator(s, a, weight, auth)));
  }

  lemma UnregisterKeepsRegistry(s: State, a: Address, auth: set<Address>)
    requires RegistryInv(s)
    ensures RegistryInv(After(s, UnregisterArbitrator(s, a, auth)))
  {
    WithoutList(s.registry, a);
  }

  lemma UnregisterKeepsInv(s: State, a: Address, auth: set<Address>)
    requires Inv(s)
    ensures Inv(After(s, UnregisterArbitrator(s, a, auth)))
  {
    UnregisterKeepsRegistry(s, a, auth);
    QuietKeepsInv(s, After(s, UnregisterArbitrator(s, a, auth)));
  }

  lemma QuietCallsAreQuiet(s: State, c: Call)
    requires s.now <= U64_MAX && (c.CallTick? || c.CallSetPaused? || c.CallInitialize? || c.CallSetQuorum?)
    ensures var t := Step(s, c);
      && t == s.(now := t.now, paused := t.paused, admin := t.admin, minWeight := t.minWeight, minVoters := t.minVoters)
      && s.now <= t.now <= U64_MAX
  {
  }

  lemma QuietStepKeepsInv(s: State, c: Call)
    requires Inv(s) && (c.CallTick? || c.CallSetPaused? || c.CallInitialize? || c.CallSetQuorum?)
    ensures Inv(Step(s, c))
  {
    QuietCallsAreQuiet(s, c);
    var t := Step(s, c);
    assert RegistryInv(t);
    QuietKeepsInv(s, t);
  }

  lemma StepKeepsInv(s: State, c: Call)
    requires Inv(s)
    ensures Inv(Step(s, c))
  {
    match c
    case CallRegister(a, w, auth) => RegisterKeepsInv(s, a, w, auth);
    case CallUnregister(a, auth) => UnregisterKeepsInv(s, a, auth);
    case CallCreate(a, x, d, auth) => CreateKeepsInv(s, a, x, d, auth);
    case CallCancel(a, id, r, auth) => CancelKeepsInv(s, a, id, r, auth);
    case CallVote(a, id, o, auth) => VoteKeepsInv(s, a, id, o, auth);
    case CallResolve(id) => ResolveKeepsInv(s, id);
    case _ => QuietStepKeepsInv(s, c);
  }

  lemma {:induction false} RunKeepsInv(s: State, calls: seq<Call>)
    requires Inv(s)
    ensures Inv(Run(s, calls))
  {
    if calls != [] {
      RunKeepsInv(s, calls[..|calls| - 1]);
      StepKeepsInv(Run(s, calls[..|calls| - 1]), calls[|calls| - 1]);
    }
  }

  lemma ReachableInv(s: State)
    requires Reachable(s)
    ensures Inv(s)
  {
    var calls :| Run(Initial, calls) == s;
    RunKeepsInv(Initial, calls);
  }

  // ----- Main results -----

  /** Each stored tally is the weight of the ballots for that outcome, and an outcome is stored
      exactly when someone voted for it. */
  lemma TalliesAreBallots(s: State, id: nat, outcome: nat)
    requires Reachable(s)
    ensures outcome in Votes(s, id) <==> Cast(s.ballots, id, outcome)
    ensures (if outcome in Votes(s, id) then Votes(s, id)[outcome] else 0) == Tally(s.ballots, id, outcome)
  {
    ReachableInv(s);
    assert OutcomeInv(s, id, outcome);
    if outcome !in Votes(s, id) { UncastIsZero(s.ballots, id, outcome); }
  }

  /** The voter counter is the number of different voters. */
  lemma CounterIsVoters(s: State, id: nat)
    requires Reachable(s)
    ensures VoterCount(s, id) == |VotersOf(s.ballots, id)|
  {
    ReachableInv(s);
    assert VotersInv(s, id);
  }

  /** The registry lists exactly the arbitrators with a weight, once each, all weights positive. */
  lemma RegistryIsExact(s: State)
    requires Reachable(s)
    ensures NoDup(s.registry) && forall a :: a in s.registry <==> a in s.weights
    ensures forall a :: a in s.weights ==> s.weights[a] > 0
  {
    ReachableInv(s);
  }

  /** `k` has strictly more ballot weight behind it than any other outcome. */
  ghost predicate StrictlyMost(s: State, id: nat, k: nat) {
    Cast(s.ballots, id, k) && forall j: nat :: j != k ==> Tally(s.ballots, id, j) < Tally(s.ballots, id, k)
  }

  lemma WinnerIs(v: map<nat, int>, k: nat)
    requires 0 !in v
    ensures k != 0 ==> (Winner(v) == k <==> StrictMax(v, k))
    ensures Winner(v) == 0 <==> forall j: nat :: !StrictMax(v, j)
  {
    if exists j: nat :: StrictMax(v, j) {
      var j: nat :| StrictMax(v, j);
      var w := Winner(v);
      assert StrictMax(v, w);
    }
  }

  /** Two different outcomes share the largest ballot weight. */
  ghost predicate SharedMost(s: State, id: nat, i: nat, j: nat) {
    && i != j && Cast(s.ballots, id, i) && Cast(s.ballots, id, j)
    && Tally(s.ballots, id, i) == Tally(s.ballots, id, j)
    && forall o: nat :: Tally(s.ballots, id, o) <= Tally(s.ballots, id, i)
  }

  lemma MaxAgrees(s: State, id: nat, k: nat)
    requires Reachable(s)
    ensures StrictMax(Votes(s, id), k) <==> StrictlyMost(s, id, k)
  {
    ReachableInv(s);
    var v := Votes(s, id);
    TalliesAreBallots(s, id, k);
    assert OutcomeInv(s, id, k);
    if StrictMax(v, k) {
      forall j: nat | j != k ensures Tally(s.ballots, id, j) < Tally(s.ballots, id, k) {
        TalliesAreBallots(s, id, j);
      }
    }
    if StrictlyMost(s, id, k) {
      forall j | j in v && j != k ensures v[j] < v[k] {
        TalliesAreBallots(s, id, j);
      }
    }
  }

  /** A key of largest value. */
  lemma {:induction false} LargestKey(v: map<nat, int>, keys: set<nat>) returns (k: nat)
    requires keys != {} && keys <= v.Keys
    ensures k in keys && forall j :: j in keys ==> v[j] <= v[k]
    decreases |keys|
  {
    k :| k in keys;
    var first := k;
    var rest := keys - {k};
    if rest != {} {
      assert |rest| < |keys|;
      var m := LargestKey(v, rest);
      if v[m] > v[k] { k := m; }
    }
    assert forall j :: j in keys ==> j == first || j in rest;
  }

  lemma NoWinner(s: State, id: nat)
    requires Reachable(s)
    ensures (forall j: nat :: !StrictMax(Votes(s, id), j)) <==>
      (forall o: nat :: !Cast(s.ballots, id, o)) || exists i: nat, j: nat :: SharedMost(s, id, i, j)
  {
    var v := Votes(s, id);
    forall o: nat ensures o in v <==> Cast(s.ballots, id, o) {
      TalliesAreBallots(s, id, o);
    }
    if v.Keys != {} {
      var k := LargestKey(v, v.Keys);
      forall o: nat ensures Tally(s.ballots, id, o) <= Tally(s.ballots, id, k) {
        TalliesAreBallots(s, id, k);
        TalliesAreBallots(s, id, o);
        ReachableInv(s);
        assert OutcomeInv(s, id, k);
      }
      if !StrictMax(v, k) {
        var j :| j in v && j != k && v[j] >= v[k];
        TalliesAreBallots(s, id, j);
        TalliesAreBallots(s, id, k);
        assert SharedMost(s, id, k, j);
      }
      forall i: nat, j: nat, m: nat | SharedMost(s, id, i, j) && StrictMax(v, m) ensures false {
        TalliesAreBallots(s, id, i);
        TalliesAreBallots(s, id, j);
        TalliesAreBallots(s, id, m);
      }
    } else {
      forall j: nat ensures !StrictMax(v, j) {
        assert j !in v.Keys;
      }
    }
  }

  /** A resolution names the outcome with strictly the most ballot weight; it returns 0, and the
      dispute is Tied, exactly when nobody voted or the largest weight is shared. */
  lemma ResolutionIsStrictWinner(s: State, id: nat, k: nat)
    requires Reachable(s) && ResolveDispute(s, id).Ok? && k != 0
    ensures var (t, r) := ResolveDispute(s, id).value;
      && (r == k <==> StrictlyMost(s, id, k))
      && (r == 0 <==> (forall o: nat :: !Cast(s.ballots, id, o)) || exists i: nat, j: nat :: SharedMost(s, id, i, j))
      && t.disputes[id].outcome == r
      && t.disputes[id].status == if r == 0 then Tied else Resolved
  {
    ReachableInv(s);
    var v := Votes(s, id);
    assert OutcomeInv(s, id, 0);
    WinnerIs(v, k);
    MaxAgrees(s, id, k);
    NoWinner(s, id);
  }

  // ----- Frozen and final -----

  predicate Final(st: Status) {
    st == Resolved || st == Tied || st == Cancelled
  }

  /** No stored dispute is Open or Resolving; its outcome is set exactly when it is Resolved. */
  lemma StoredStatus(s: State, id: nat)
    requires Reachable(s) && id in s.disputes
    ensures s.disputes[id].status == Voting || Final(s.disputes[id].status)
    ensures s.disputes[id].outcome != 0 <==> s.disputes[id].status == Resolved
  {
    ReachableInv(s);
    assert DisputeInv(s, id);
  }

  lemma FinalStepStays(s: State, c: Call, id: nat)
    requires Inv(s) && id in s.disputes && Final(s.disputes[id].status)
    ensures id in Step(s, c).disputes && Step(s, c).disputes[id] == s.disputes[id]
  {
    assert DisputeInv(s, s.counter);
    assert DisputeInv(s, id);
  }

  /** A resolved, tied or cancelled dispute never changes again. */
  lemma {:induction false} FinalForever(s: State, calls: seq<Call>, id: nat)
    requires Reachable(s) && id in s.disputes && Final(s.disputes[id].status)
    ensures id in Run(s, calls).disputes && Run(s, calls).disputes[id] == s.disputes[id]
  {
    ReachableInv(s);
    if calls != [] {
      FinalForever(s, calls[..|calls| - 1], id);
      RunKeepsInv(s, calls[..|calls| - 1]);
      FinalStepStays(Run(s, calls[..|calls| - 1]), calls[|calls| - 1], id);
    }
  }

  /** The ballots of one dispute. */
  function BallotsFor(ballots: seq<Ballot>, id: nat): seq<Ballot> {
    if ballots == [] then []
    else
      var b := ballots[|ballots| - 1];
      BallotsFor(ballots[..|ballots| - 1], id) + (if b.dispute == id then [b] else [])
  }

  /** Past its voting end, a dispute takes no more votes. */
  ghost predicate Over(s: State, id: nat) {
    id in s.disputes && s.now > s.disputes[id].end
  }

  lemma CastElsewhere(s: State, voter: Address, j: nat, outcome: nat, weight: int, id: nat)
    requires j != id
    ensures var t := Arbitration.Cast(s, voter, j, outcome, weight);
      Votes(t, id) == Votes(s, id) && VoterCount(t, id) == VoterCount(s, id)
      && BallotsFor(t.ballots, id) == BallotsFor(s.ballots, id)
  {
    BallotPush(s.ballots, Ballot(j, voter, outcome, weight, s.now));
  }

  lemma OnlyVotesVote(s: State, c: Call)
    requires !c.CallVote?
    ensures var t := Step(s, c);
      t.votes == s.votes && t.voterCounts == s.voterCounts && t.ballots == s.ballots && t.now >= s.now
  {
  }

  lemma OverStepStays(s: State, c: Call, id: nat)
    requires Inv(s) && Over(s, id)
    ensures Over(Step(s, c), id)
    ensures Votes(Step(s, c), id) == Votes(s, id) && VoterCount(Step(s, c), id) == VoterCount(s, id)
    ensures BallotsFor(Step(s, c).ballots, id) == BallotsFor(s.ballots, id)
  {
    assert DisputeInv(s, s.counter);
    assert DisputeInv(s, id);
    if c.CallVote? {
      if VoteError(s, c.voter, c.id, c.outcome, c.auth).None? {
        CastElsewhere(s, c.voter, c.id, c.outcome, s.weights[c.voter], id);
      }
    } else {
      OnlyVotesVote(s, c);
    }
  }

  /** Once the voting period is over the tallies, the voter counter and the ballots are frozen. */
  lemma {:induction false} TalliesFrozen(s: State, calls: seq<Call>, id: nat)
    requires Reachable(s) && Over(s, id)
    ensures var t := Run(s, calls);
      Over(t, id) && Votes(t, id) == Votes(s, id) && VoterCount(t, id) == VoterCount(s, id)
      && BallotsFor(t.ballots, id) == BallotsFor(s.ballots, id)
  {
    ReachableInv(s);
    if calls != [] {
      TalliesFrozen(s, calls[..|calls| - 1], id);
      RunKeepsInv(s, calls[..|calls| - 1]);
      OverStepStays(Run(s, calls[..|calls| - 1]), calls[|calls| - 1], id);
    }
  }

  // ----- The quorum -----

  lemma {:induction false} SumTake(v: map<nat, int>, keys: set<nat>, k: nat)
    requires k in keys && keys <= v.Keys
    ensures SumOver(v, keys) == v[k] + SumOver(v, keys - {k})
    decreases |keys|
  {
    var j := Pick(keys);
    if j != k {
      SumTake(v, keys - {j}, k);
      SumTake(v, keys - {k}, j);
      assert keys - {j} - {k} == keys - {k} - {j};
    }
  }

  lemma {:induction false} SumNonNegative(v: map<nat, int>, keys: set<nat>)
    requires keys <= v.Keys && forall k :: k in v ==> v[k] > 0
    ensures SumOver(v, keys) >= 0
    decreases |keys|
  {
    if keys != {} { SumNonNegative(v, keys - {Pick(keys)}); }
  }

  /** The weight among one more outcome. */
  lemma {:induction false} WeightAmongGrows(ballots: seq<Ballot>, id: nat, among: set<nat>, k: nat)
    requires k !in among
    ensures WeightAmong(ballots, id, among + {k}) == WeightAmong(ballots, id, among) + Tally(ballots, id, k)
  {
    if ballots != [] { WeightAmongGrows(ballots[..|ballots| - 1], id, among, k); }
  }

  lemma {:induction false} WeightAmongNone(ballots: seq<Ballot>, id: nat)
    ensures WeightAmong(ballots, id, {}) == 0
  {
    if ballots != [] { WeightAmongNone(ballots[..|ballots| - 1], id); }
  }

  lemma {:induction false} WeightAmongAll(ballots: seq<Ballot>, id: nat, among: set<nat>)
    requires forall i :: 0 <= i < |ballots| && ballots[i].dispute == id ==> ballots[i].outcome in among
    ensures WeightAmong(ballots, id, among) == BallotWeight(ballots, id)
  {
    if ballots != [] { WeightAmongAll(ballots[..|ballots| - 1], id, among); }
  }

  /** Adding tallies adds the ballots behind them. */
  lemma {:induction false} SumIsWeight(v: map<nat, int>, keys: set<nat>, ballots: seq<Ballot>, id: nat)
    requires keys <= v.Keys && forall k :: k in v ==> v[k] == Tally(ballots, id, k)
    ensures SumOver(v, keys) == WeightAmong(ballots, id, keys)
    decreases |keys|
  {
    if keys == {} {
      WeightAmongNone(ballots, id);
    } else {
      var k := Pick(keys);
      SumIsWeight(v, keys - {k}, ballots, id);
      WeightAmongGrows(ballots, id, keys - {k}, k);
      assert keys - {k} + {k} == keys;
    }
  }

  /** The quorum total, summed over the stored tallies, is the weight of all ballots cast in the
      dispute. */
  lemma TotalIsAllBallots(s: State, id: nat)
    requires Reachable(s)
    ensures SumVotes(Votes(s, id)) == BallotWeight(s.ballots, id)
  {
    forall k | k in Votes(s, id) ensures Votes(s, id)[k] == Tally(s.ballots, id, k) {
      TalliesAreBallots(s, id, k);
    }
    SumIsWeight(Votes(s, id), Votes(s, id).Keys, s.ballots, id);
    forall i | 0 <= i < |s.ballots| && s.ballots[i].dispute == id ensures s.ballots[i].outcome in Votes(s, id).Keys {
      TalliesAreBallots(s, id, s.ballots[i].outcome);
    }
    WeightAmongAll(s.ballots, id, Votes(s, id).Keys);
  }

  /** Exactly when a dispute past its end can be resolved: it is still Voting, and if a quorum is
      set, the ballots cast in it weigh enough (and no more than an i128 holds) and come from
      enough different voters. */
  lemma ResolutionIsLive(s: State, id: nat)
    requires Reachable(s) && !s.paused && Over(s, id)
    ensures ResolveDispute(s, id).Ok? <==>
      && s.disputes[id].status == Voting
      && (s.minWeight > 0 || s.minVoters > 0 ==>
            && s.minWeight <= BallotWeight(s.ballots, id) <= I128_MAX
            && |VotersOf(s.ballots, id)| >= s.minVoters)
  {
    StoredStatus(s, id);
    TotalIsAllBallots(s, id);
    CounterIsVoters(s, id);
  }

  // ----- One vote each -----

  function StoredTally(s: State, id: nat, outcome: nat): int {
    if outcome in Votes(s, id) then Votes(s, id)[outcome] else 0
  }

  lemma VoteIsReachable(s: State, voter: Address, id: nat, outcome: nat, auth: set<Address>)
    requires Reachable(s)
    ensures Reachable(After(s, CastVote(s, voter, id, outcome, auth)))
  {
    ReachableStep(s, CallVote(voter, id, outcome, auth));
  }

  lemma CastCounts(s: State, voter: Address, id: nat, outcome: nat, weight: int, j: nat, other: nat)
    ensures var t := Arbitration.Cast(s, voter, id, outcome, weight);
      && StoredTally(t, j, other) == StoredTally(s, j, other) + (if j == id && other == outcome then weight else 0)
      && VoterCount(t, j) == VoterCount(s, j) + (if j == id then 1 else 0)
      && BallotWeight(t.ballots, id) == BallotWeight(s.ballots, id) + weight
  {
    BallotPush(s.ballots, Ballot(id, voter, outcome, weight, s.now));
  }

  /** A vote raises the stored tally of its outcome by the voter's weight and no other tally of
      this or any other dispute, the quorum total by as much, and the voter counter by one. */
  lemma VoteTakesEffect(s: State, voter: Address, id: nat, outcome: nat, auth: set<Address>, j: nat, other: nat)
    requires Reachable(s) && CastVote(s, voter, id, outcome, auth).Ok?
    ensures var t := CastVote(s, voter, id, outcome, auth).value.0;
      && StoredTally(t, j, other) == StoredTally(s, j, other)
                                   + (if j == id && other == outcome then s.weights[voter] else 0)
      && VoterCount(t, j) == VoterCount(s, j) + (if j == id then 1 else 0)
      && SumVotes(Votes(t, id)) == SumVotes(Votes(s, id)) + s.weights[voter]
  {
    VoteIsReachable(s, voter, id, outcome, auth);
    TotalIsAllBallots(s, id);
    TotalIsAllBallots(CastVote(s, voter, id, outcome, auth).value.0, id);
    CastCounts(s, voter, id, outcome, s.weights[voter], j, other);
  }

  lemma VotedStays(s: State, c: Call)
    ensures s.voted <= Step(s, c).voted
  {
  }

  lemma {:induction false} VotedForGood(s: State, calls: seq<Call>)
    ensures s.voted <= Run(s, calls).voted
  {
    if calls != [] {
      VotedForGood(s, calls[..|calls| - 1]);
      VotedStays(Run(s, calls[..|calls| - 1]), calls[|calls| - 1]);
    }
  }

  /** Whoever has voted in a dispute cannot vote there again, for whatever outcome, after
      whatever calls. */
  lemma OneVoteEach(s: State, voter: Address, id: nat, outcome: nat, auth: set<Address>, calls: seq<Call>,
                    again: nat, auth': set<Address>)
    requires CastVote(s, voter, id, outcome, auth).Ok?
    ensures CastVote(Run(CastVote(s, voter, id, outcome, auth).value.0, calls), voter, id, again, auth').Err?
  {
    var t := CastVote(s, voter, id, outcome, auth).value.0;
    VotedForGood(t, calls);
    assert Vote(id, voter) in t.voted;
  }
}
