/** The attestation index of the bond contract (contracts/credence_bond/src/lib.rs 916-1204) and
    the drift guard run after every attestation write (invariants.rs). */
module Attestations {
  import opened Host
  import opened Lists

  const MAX_BATCH_ATTESTATION_SIZE: nat := 64
  const MAX_ATTESTATION_WEIGHT: nat := 1_000_000

  datatype Attestation = Attestation(
    id: nat, verifier: Address, identity: Address, timestamp: nat, weight: nat, data: string, revoked: bool)

  datatype DedupKey = DedupKey(verifier: Address, identity: Address, data: string)

  datatype Item = Item(attester: Address, data: string, nonce: nat)

  datatype AttestationError =
    | Unauthorized | UnauthorizedAttester | InvalidNonce | Overflow | DuplicateAttestation | InvalidWeight
    | HostLimit | InvariantViolation | EmptyBatch | BatchTooLarge | DuplicateAttester | WeightExceedsMax
    | AttestationNotFound | NotOriginalAttester | AlreadyRevoked

  /** The fields of the stored bond that the drift guard reads. */
  datatype Bond = Bond(identity: Address, bonded: int, slashed: int)

  /** Attestation storage, and the bond if one is stored. */
  datatype State = State(
    now: nat, attesters: set<Address>, counter: nat, table: map<nat, Attestation>,
    lists: map<Address, seq<nat>>, counts: map<Address, nat>, nonces: map<Address, nat>,
    dedup: set<DedupKey>, bond: Option<Bond>)

  type Outcome = Result<State, AttestationError>

  const Initial: State := State(0, {}, 0, map[], map[], map[], map[], {}, None)

  function KeyOf(a: Attestation): DedupKey {
    DedupKey(a.verifier, a.identity, a.data)
  }

  function List(s: State, subject: Address): seq<nat> {
    if subject in s.lists then s.lists[subject] else []
  }

  function SubjectCount(s: State, subject: Address): nat {
    if subject in s.counts then s.counts[subject] else 0
  }

  function Nonce(nonces: map<Address, nat>, a: Address): nat {
    if a in nonces then nonces[a] else 0
  }

  function ConsumeNonce(nonces: map<Address, nat>, a: Address, expected: nat)
    : Result<map<Address, nat>, AttestationError>
  {
    if Nonce(nonces, a) != expected then Err(InvalidNonce)
    else if expected >= U64_MAX then Err(Overflow)
    else Ok(nonces[a := expected + 1])
  }

  /** check_attestation_count_consistent: a stored count must equal the list's length. */
  predicate Consistent(s: State, subject: Address) {
    subject in s.counts ==> |List(s, subject)| == s.counts[subject]
  }

  /** check_bond_slashed_within_bonded. */
  predicate WithinBonded(b: Bond) {
    0 <= b.slashed <= b.bonded
  }

  /** assert_self_consistent: the stored bond, if there is one, and its identity's count. */
  predicate BondConsistent(s: State) {
    s.bond.Some? ==> WithinBonded(s.bond.value) && Consistent(s, s.bond.value.identity)
  }

  /** The guard at the end of every attestation write. */
  predicate DriftGuard(s: State, subject: Address) {
    BondConsistent(s) && Consistent(s, subject)
  }

  /** A bond write of the operations elsewhere, which end with the guard as well. */
  function WriteBond(s: State, bond: Option<Bond>): Outcome {
    var t := s.(bond := bond);
    if BondConsistent(t) then Ok(t) else Err(InvariantViolation)
  }

  function Guarded(s: State, subject: Address): Outcome {
    if DriftGuard(s, subject) then Ok(s) else Err(InvariantViolation)
  }

  function SaturatingAddU32(a: nat, b: nat): nat {
    Min(a + b, U32_MAX)
  }

  /** The subject's count raised by `n`. */
  function Counted(s: State, subject: Address, n: nat): State {
    s.(counts := s.counts[subject := SaturatingAddU32(SubjectCount(s, subject), n)])
  }

  /** Attest, as storage sees it: no duplicate key is written here. */
  function Append(s: State, attester: Address, subject: Address, data: string, weight: nat): State {
    s.(counter := s.counter + 1,
       table := s.table[s.counter := Attestation(s.counter, attester, subject, s.now, weight, data, false)],
       lists := s.lists[subject := List(s, subject) + [s.counter]])
  }

  /** Why an attestation is refused before anything is stored. */
  function AddError(s: State, attester: Address, subject: Address, data: string, nonce: nat, weight: nat,
                    auth: set<Address>): Option<AttestationError> {
    var nonces := ConsumeNonce(s.nonces, attester, nonce);
    if attester !in auth then Some(Unauthorized)
    else if attester !in s.attesters then Some(UnauthorizedAttester)
    else if nonces.Err? then Some(nonces.error)
    else if DedupKey(attester, subject, data) in s.dedup then Some(DuplicateAttestation)
    else if s.counter >= U64_MAX then Some(Overflow)
    else if weight == 0 || weight > MAX_ATTESTATION_WEIGHT then Some(InvalidWeight)
    else if |List(s, subject)| >= HOST_VEC_LIMIT then Some(HostLimit)
    else None
  }

  function AddResult(s: State, attester: Address, subject: Address, data: string, nonce: nat, weight: nat): State {
    Counted(Append(s.(nonces := s.nonces[attester := nonce + 1]), attester, subject, data, weight), subject, 1)
  }

  function AddAttestation(s: State, attester: Address, subject: Address, data: string, nonce: nat, weight: nat,
                          auth: set<Address>): Outcome {
    var e := AddError(s, attester, subject, data, nonce, weight, auth);
    if e.Some? then Err(e.value) else Guarded(AddResult(s, attester, subject, data, nonce, weight), subject)
  }

  // ----- The batch -----

  /** The first pass over a batch: authorization, registration and nonce of each item in turn. */
  function ConsumeAll(s: State, items: seq<Item>, auth: set<Address>): Result<map<Address, nat>, AttestationError> {
    if items == [] then Ok(s.nonces)
    else
      var before := ConsumeAll(s, items[..|items| - 1], auth);
      var item := items[|items| - 1];
      if before.Err? then before
      else if item.attester !in auth then Err(Unauthorized)
      else if item.attester !in s.attesters then Err(UnauthorizedAttester)
      else ConsumeNonce(before.value, item.attester, item.nonce)
  }

  predicate DistinctAttesters(items: seq<Item>) {
    forall i, j :: 0 <= i < j < |items| ==> items[i].attester != items[j].attester
  }

  function ItemKey(item: Item, subject: Address): DedupKey {
    DedupKey(item.attester, subject, item.data)
  }

  function TotalWeight(items: seq<Item>, weightOf: Address -> nat): nat {
    if items == [] then 0
    else TotalWeight(items[..|items| - 1], weightOf) + weightOf(items[|items| - 1].attester)
  }

  /** The write pass: records, list and id counter, and the duplicate key of each item. */
  function AppendAll(s: State, subject: Address, items: seq<Item>, weightOf: Address -> nat): State {
    if items == [] then s
    else
      var item := items[|items| - 1];
      var t := Append(AppendAll(s, subject, items[..|items| - 1], weightOf),
                      item.attester, subject, item.data, weightOf(item.attester));
      t.(dedup := t.dedup + {ItemKey(item, subject)})
  }

  /** Why a batch is refused before anything is stored. */
  function BatchError(s: State, subject: Address, items: seq<Item>, weightOf: Address -> nat, maxWeight: nat,
                      auth: set<Address>): Option<AttestationError> {
    var n := |items|;
    var nonces := ConsumeAll(s, items, auth);
    if n == 0 then Some(EmptyBatch)
    else if n > MAX_BATCH_ATTESTATION_SIZE then Some(BatchTooLarge)
    else if !DistinctAttesters(items) then Some(DuplicateAttester)
    else if nonces.Err? then Some(nonces.error)
    else if exists i :: 0 <= i < n && ItemKey(items[i], subject) in s.dedup then Some(DuplicateAttestation)
    else if exists i :: 0 <= i < n && !(1 <= weightOf(items[i].attester) <= MAX_ATTESTATION_WEIGHT)
        then Some(InvalidWeight)
    else if TotalWeight(items, weightOf) > maxWeight then Some(WeightExceedsMax)
    else if s.counter + n > U64_MAX then Some(Overflow)
    else if |List(s, subject)| + n > HOST_VEC_LIMIT then Some(HostLimit)
    else None
  }

  /** The records a batch stores, in order. */
  function BatchRecords(s: State, subject: Address, items: seq<Item>, weightOf: Address -> nat): seq<Attestation> {
    seq(|items|, i requires 0 <= i < |items| =>
      Attestation(s.counter + i, items[i].attester, subject, s.now, weightOf(items[i].attester), items[i].data, false))
  }

  function BatchResult(s: State, nonces: map<Address, nat>, subject: Address, items: seq<Item>,
                       weightOf: Address -> nat): State {
    Counted(AppendAll(s.(nonces := nonces), subject, items, weightOf), subject, |items|)
  }

  function AddAttestationBatch(s: State, subject: Address, items: seq<Item>, weightOf: Address -> nat, maxWeight: nat,
                               auth: set<Address>): Outcome {
    var e := BatchError(s, subject, items, weightOf, maxWeight, auth);
    var nonces := ConsumeAll(s, items, auth);
    if e.Some? then Err(e.value)
    else if nonces.Err? then Err(nonces.error)
    else Guarded(BatchResult(s, nonces.value, subject, items, weightOf), subject)
  }

  function RevokeError(s: State, attester: Address, id: nat, nonce: nat, auth: set<Address>): Option<AttestationError> {
    var nonces := ConsumeNonce(s.nonces, attester, nonce);
    if attester !in auth then Some(Unauthorized)
    else if nonces.Err? then Some(nonces.error)
    else if id !in s.table then Some(AttestationNotFound)
    else if s.table[id].verifier != attester then Some(NotOriginalAttester)
    else if s.table[id].revoked then Some(AlreadyRevoked)
    else None
  }

  function Revoked(s: State, id: nat): State
    requires id in s.table
  {
    var a := s.table[id];
    s.(table := s.table[id := a.(revoked := true)],
       dedup := s.dedup - {KeyOf(a)},
       lists := s.lists[a.identity := Without(List(s, a.identity), id)],
       counts := s.counts[a.identity := Max(SubjectCount(s, a.identity) - 1, 0)])
  }

  function RevokeAttestation(s: State, attester: Address, id: nat, nonce: nat, auth: set<Address>): Outcome {
    var e := RevokeError(s, attester, id, nonce, auth);
    if e.Some? then Err(e.value)
    else Guarded(Revoked(s.(nonces := s.nonces[attester := nonce + 1]), id), s.table[id].identity)
  }
}
