/** Dispute arbitration (contracts/arbitration/src/lib.rs, status.rs): weighted votes, a quorum,
    and a tally that must name the one strict winner or call a tie. */
module Arbitration {
  import opened Host
  import opened Lists

  const MAX_REASON: nat := 256

  datatype Status = Open | Voting | Resolving | Resolved | Cancelled | Tied

  datatype Role = Creator | Admin

  datatype Dispute = Dispute(
    id: nat, creator: Address, description: string, start: nat, end: nat, status: Status, outcome: nat,
    reason: Option<string>, cancelledBy: Option<Role>)

  datatype ArbitrationError =
    | InvalidTransition | AlreadyInitialized | NotInitialized | NotAdmin | NotArbitrator | AlreadyVoted
    | VotingInactive | VotingNotEnded | DisputeNotFound | InvalidOutcome | WeightNotPositive | NotAuthorized
    | ReasonTooLong | QuorumNotMet | ContractPaused | Unauthorized | Overflow

  datatype Vote = Vote(dispute: nat, voter: Address)

  /** A vote as it was cast; the log of them is history. */
  datatype Ballot = Ballot(dispute: nat, voter: Address, outcome: nat, weight: int, at: nat)

  datatype State = State(
    admin: Option<Address>, paused: bool, now: nat,
    weights: map<Address, int>, registry: seq<Address>,
    counter: nat, disputes: map<nat, Dispute>, votes: map<nat, map<nat, int>>, voted: set<Vote>,
    voterCounts: map<nat, nat>,
    minWeight: int, minVoters: nat,
    ballots: seq<Ballot>)

  type Outcome<T> = Result<(State, T), ArbitrationError>

  const Initial: State := State(None, false, 0, map[], [], 0, map[], map[], {}, map[], 0, 0, [])

  function RequireTransition(from: Status, to: Status): Result<(), ArbitrationError> {
    match (from, to)
    case (Open, Voting) => Ok(())
    case (Open, Cancelled) => Ok(())
    case (Voting, Resolving) => Ok(())
    case (Voting, Cancelled) => Ok(())
    case (Resolving, Resolved) => Ok(())
    case (Resolving, Tied) => Ok(())
    case _ => Err(InvalidTransition)
  }

  function Votes(s: State, id: nat): map<nat, int> {
    if id in s.votes then s.votes[id] else map[]
  }

  function VoterCount(s: State, id: nat): nat {
    if id in s.voterCounts then s.voterCounts[id] else 0
  }

  // ----- Arbitrators -----

  function AdminError(s: State, auth: set<Address>): Option<ArbitrationError> {
    if s.paused then Some(ContractPaused)
    else if s.admin.None? then Some(NotInitialized)
    else if s.admin.value !in auth then Some(Unauthorized)
    else None
  }

  function Initialize(s: State, admin: Address): Outcome<()> {
    if s.admin.Some? then Err(AlreadyInitialized) else Ok((s.(admin := Some(admin), paused := false), ()))
  }

  function RegisterArbitrator(s: State, a: Address, weight: int, auth: set<Address>): Outcome<()> {
    var e := AdminError(s, auth);
    if e.Some? then Err(e.value)
    else if weight <= 0 then Err(WeightNotPositive)
    else Ok((s.(weights := s.weights[a := weight],
                registry := if a in s.registry then s.registry else s.registry + [a]), ()))
  }

  function UnregisterArbitrator(s: State, a: Address, auth: set<Address>): Outcome<()> {
    var e := AdminError(s, auth);
    if e.Some? then Err(e.value)
    else Ok((s.(weights := s.weights - {a}, registry := Without(s.registry, a)), ()))
  }

  function SetQuorum(s: State, admin: Address, minWeight: int, minVoters: nat, auth: set<Address>): Outcome<()> {
    if s.paused then Err(ContractPaused)
    else if s.admin.None? then Err(NotInitialized)
    else if admin !in auth then Err(Unauthorized)
    else if s.admin.value != admin then Err(NotAdmin)
    else Ok((s.(minWeight := minWeight, minVoters := minVoters), ()))
  }

  // ----- Disputes -----

  function CreateDispute(s: State, creator: Address, description: string, duration: nat,
                         auth: set<Address>): Outcome<nat> {
    var id := s.counter;
    if s.paused then Err(ContractPaused)
    else if creator !in auth then Err(Unauthorized)
    else if id >= U64_MAX || s.now + duration > U64_MAX then Err(Overflow)
    else Ok((s.(counter := id + 1,
                disputes := s.disputes[id :=
                  Dispute(id, creator, description, s.now, s.now + duration, Voting, 0, None, None)]), id))
  }

  function CancelError(s: State, caller: Address, id: nat, reason: Option<string>,
                       auth: set<Address>): Option<ArbitrationError> {
    if s.paused then Some(ContractPaused)
    else if caller !in auth then Some(Unauthorized)
    else if reason.Some? && |reason.value| > MAX_REASON then Some(ReasonTooLong)
    else if id !in s.disputes then Some(DisputeNotFound)
    else if s.admin.None? then Some(NotInitialized)
    else if caller != s.disputes[id].creator && caller != s.admin.value then Some(NotAuthorized)
    else if RequireTransition(s.disputes[id].status, Cancelled).Err? then Some(InvalidTransition)
    else None
  }

  function CancelDispute(s: State, caller: Address, id: nat, reason: Option<string>, auth: set<Address>): Outcome<()> {
    var e := CancelError(s, caller, id, reason, auth);
    if e.Some? then Err(e.value)
    else
      var role := if caller == s.disputes[id].creator then Creator else Admin;
      Ok((s.(disputes := s.disputes[id := s.disputes[id].(status := Cancelled, reason := reason,
                                                             cancelledBy := Some(role))]), ()))
  }

  function Cast(s: State, voter: Address, id: nat, outcome: nat, weight: int): State {
    var v := Votes(s, id);
    s.(voted := s.voted + {Vote(id, voter)},
       voterCounts := s.voterCounts[id := VoterCount(s, id) + 1],
       votes := s.votes[id := v[outcome := (if outcome in v then v[outcome] else 0) + weight]],
       ballots := s.ballots + [Ballot(id, voter, outcome, weight, s.now)])
  }

  function VoteError(s: State, voter: Address, id: nat, outcome: nat, auth: set<Address>): Option<ArbitrationError> {
    var v := Votes(s, id);
    if s.paused then Some(ContractPaused)
    else if voter !in auth then Some(Unauthorized)
    else if outcome == 0 then Some(InvalidOutcome)
    else if voter !in s.weights then Some(NotArbitrator)
    else if id !in s.disputes then Some(DisputeNotFound)
    else if s.disputes[id].status != Voting then Some(VotingInactive)
    else if s.now < s.disputes[id].start || s.now > s.disputes[id].end then Some(VotingInactive)
    else if Vote(id, voter) in s.voted then Some(AlreadyVoted)
    else if VoterCount(s, id) >= U32_MAX then Some(Overflow)
    else if (if outcome in v then v[outcome] else 0) + s.weights[voter] > I128_MAX then Some(Overflow)
    else None
  }

  function CastVote(s: State, voter: Address, id: nat, outcome: nat, auth: set<Address>): Outcome<()> {
    var e := VoteError(s, voter, id, outcome, auth);
    if e.Some? then Err(e.value) else Ok((Cast(s, voter, id, outcome, s.weights[voter]), ()))
  }

  // ----- Resolution, stated without a loop -----

  /** `k` has strictly more weight than any other outcome. */
  predicate StrictMax(v: map<nat, int>, k: nat) {
    k in v && forall j :: j in v && j != k ==> v[j] < v[k]
  }

  /** The strict winner, or 0 for a tie. */
  ghost function Winner(v: map<nat, int>): nat {
    if exists k: nat :: StrictMax(v, k) then (var k: nat :| StrictMax(v, k); k) else 0
  }

  ghost function Pick(keys: set<nat>): (k: nat)
    requires keys != {}
    ensures k in keys
  {
    var k :| k in keys;
    k
  }

  /** The sum of the tallies of some outcomes; the order in which they are added does not matter. */
  ghost function SumOver(v: map<nat, int>, keys: set<nat>): int
    requires keys <= v.Keys
    decreases |keys|
  {
    if keys == {} then 0
    else
      var k := Pick(keys);
      v[k] + SumOver(v, keys - {k})
  }

  ghost function SumVotes(v: map<nat, int>): int {
    SumOver(v, v.Keys)
  }

  /** The quorum, on the stored tallies and voter counter. */
  ghost function QuorumError(s: State, id: nat): Option<ArbitrationError> {
    var total := SumVotes(Votes(s, id));
    if s.minWeight <= 0 && s.minVoters == 0 then None
    else if total > I128_MAX then Some(Overflow)
    else if total < s.minWeight || VoterCount(s, id) < s.minVoters then Some(QuorumNotMet)
    else None
  }

  ghost function ResolveError(s: State, id: nat): Option<ArbitrationError> {
    if s.paused then Some(ContractPaused)
    else if id !in s.disputes then Some(DisputeNotFound)
    else if RequireTransition(s.disputes[id].status, Resolving).Err? then Some(InvalidTransition)
    else if s.now <= s.disputes[id].end then Some(VotingNotEnded)
    else QuorumError(s, id)
  }

  ghost function ResolveDispute(s: State, id: nat): Outcome<nat> {
    var e := ResolveError(s, id);
    if e.Some? then Err(e.value)
    else
      var w := Winner(Votes(s, id));
      Ok((s.(disputes := s.disputes[id := s.disputes[id].(status := if w == 0 then Tied else Resolved,
                                                             outcome := w)]), w))
  }
}
