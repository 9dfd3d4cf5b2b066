/** The identity registry (contracts/credence_registry/src/lib.rs): two maps that must mirror each
    other, and the list of registered identities. */
module Registry {
  import opened Host
  import opened Lists

  const MAX_IDENTITIES_PAGE_SIZE: nat := 200

  datatype Entry = Entry(identity: Address, bond: Address, registeredAt: nat, active: bool)

  datatype RegistryError =
    | AlreadyInitialized | NotInitialized | ContractPaused | Unauthorized | UnsupportedInterface
    | IdentityAlreadyRegistered | BondContractAlreadyRegistered | IdentityNotRegistered
    | AlreadyDeactivated | AlreadyActive | ContractCodeVerificationFailed | HostLimit

  /** Contract storage. `order` remembers every registration in the order it happened. */
  datatype State = State(
    admin: Option<Address>, paused: bool, now: nat, hashPinned: bool,
    entries: map<Address, Entry>, owners: map<Address, Address>, identities: seq<Address>,
    nonInterface: set<Address>, order: seq<Address>)

  type Outcome = Result<State, RegistryError>

  const Initial: State := State(None, false, 0, false, map[], map[], [], {}, [])

  function AdminError(s: State, auth: set<Address>): Option<RegistryError> {
    if s.paused then Some(ContractPaused)
    else if s.admin.None? then Some(NotInitialized)
    else if s.admin.value !in auth then Some(Unauthorized)
    else None
  }

  function Initialize(s: State, admin: Address, auth: set<Address>): Outcome {
    if s.admin.Some? then Err(AlreadyInitialized)
    else if admin !in auth then Err(Unauthorized)
    else Ok(s.(admin := Some(admin), paused := false, identities := []))
  }

  /** The admin pins the code hash that trustless registration compares with; an empty one unpins it. */
  function SetBondCodeHash(s: State, pinned: bool, auth: set<Address>): Outcome {
    if s.admin.None? then Err(NotInitialized)
    else if s.admin.value !in auth then Err(Unauthorized)
    else Ok(s.(hashPinned := pinned))
  }

  /** Both mappings, and the list unless the identity is on it. */
  function Bind(s: State, identity: Address, bond: Address): State {
    s.(entries := s.entries[identity := Entry(identity, bond, s.now, true)],
       owners := s.owners[bond := identity],
       identities := if identity in s.identities then s.identities else s.identities + [identity],
       order := s.order + [identity])
  }

  function BindError(s: State, identity: Address, bond: Address): Option<RegistryError> {
    if identity in s.entries then Some(IdentityAlreadyRegistered)
    else if bond in s.owners then Some(BondContractAlreadyRegistered)
    else if |s.identities| >= HOST_VEC_LIMIT then Some(HostLimit)
    else None
  }

  /** The opt-out of the interface check is kept for audit. */
  function Opted(s: State, bond: Address, allowNonInterface: bool): State {
    if allowNonInterface then s.(nonInterface := s.nonInterface + {bond}) else s
  }

  /** `supported` is what the bond contract answers to the interface check. */
  function Register(s: State, identity: Address, bond: Address, allowNonInterface: bool, supported: bool,
                    auth: set<Address>): Outcome {
    var e, b := AdminError(s, auth), BindError(s, identity, bond);
    if e.Some? then Err(e.value)
    else if !allowNonInterface && !supported then Err(UnsupportedInterface)
    else if b.Some? then Err(b.value)
    else Ok(Opted(Bind(s, identity, bond), bond, allowNonInterface))
  }

  function TrustlessError(s: State, caller: Address, codeMatches: bool, auth: set<Address>): Option<RegistryError> {
    if s.paused then Some(ContractPaused)
    else if caller !in auth then Some(Unauthorized)
    else if !s.hashPinned then Some(NotInitialized)
    else if !codeMatches then Some(ContractCodeVerificationFailed)
    else None
  }

  /** A bond contract registers itself; doing so again while active changes nothing. */
  function RegisterTrustless(s: State, caller: Address, identity: Address, codeMatches: bool,
                             auth: set<Address>): Outcome {
    var e, b := TrustlessError(s, caller, codeMatches, auth), BindError(s, identity, caller);
    if e.Some? then Err(e.value)
    else if identity in s.entries && s.entries[identity].bond == caller && s.entries[identity].active then Ok(s)
    else if b.Some? then Err(b.value)
    else Ok(Bind(s, identity, caller))
  }

  function SetActive(s: State, identity: Address, active: bool, auth: set<Address>): Outcome {
    var e := AdminError(s, auth);
    if e.Some? then Err(e.value)
    else if identity !in s.entries then Err(IdentityNotRegistered)
    else if s.entries[identity].active == active then Err(if active then AlreadyActive else AlreadyDeactivated)
    else Ok(s.(entries := s.entries[identity := s.entries[identity].(active := active)]))
  }

  function Remove(s: State, identity: Address, auth: set<Address>): Outcome {
    var e := AdminError(s, auth);
    if e.Some? then Err(e.value)
    else if identity !in s.entries then Err(IdentityNotRegistered)
    else Ok(s.(entries := s.entries - {identity},
               owners := s.owners - {s.entries[identity].bond},
               identities := RemoveFirst(s.identities, identity)))
  }

  /** A page is at most 200 long, whatever the limit. */
  function Page(ids: seq<Address>, offset: nat, limit: nat): (page: seq<Address>)
    requires |ids| <= HOST_VEC_LIMIT
  {
    if offset >= |ids| then []
    else
      var end := Min(WrapAddU32(offset, Min(limit, MAX_IDENTITIES_PAGE_SIZE)), |ids|);
      if end <= offset then [] else ids[offset..end]
  }
}
