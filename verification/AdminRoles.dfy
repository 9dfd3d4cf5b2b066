/** The hierarchical admin contract (contracts/admin/src/lib.rs 131-700): one record per admin,
    one list of all, and one list per role. */
module AdminRoles {
  import opened Host
  import opened Lists

  datatype Role = Operator | Admin | SuperAdmin

  datatype Info = Info(address: Address, role: Role, assignedAt: nat, assignedBy: Address, active: bool,
                       suspendedUntil: nat)

  datatype AdminError =
    | AlreadyInitialized | InvalidPauseAction | ContractPaused | Unauthorized | InvalidAdminAddress | NotAdmin
    | AlreadyActive | AlreadyDeactivated | AdminSuspended | ThresholdExceedsSigners

  /** Contract storage; `reserved` holds the zero address and the contract's own. */
  datatype State = State(
    reserved: set<Address>, now: nat, paused: bool, initialized: bool, minAdmins: nat, maxAdmins: nat,
    list: seq<Address>, infos: map<Address, Info>, byRole: map<Role, seq<Address>>)

  type Outcome = Result<State, AdminError>

  function Initial(reserved: set<Address>): State {
    State(reserved, 0, false, false, 0, 0, [], map[], map[])
  }

  /** The order of the roles' numbers: 1, 2 and 3. */
  function Rank(r: Role): nat {
    match r
    case Operator => 1
    case Admin => 2
    case SuperAdmin => 3
  }

  function RequiredToAssign(r: Role): Role {
    match r
    case SuperAdmin => SuperAdmin
    case Admin => SuperAdmin
    case Operator => Admin
  }

  function RoleAdmins(s: State, r: Role): seq<Address> {
    if r in s.byRole then s.byRole[r] else []
  }

  /** Active and not suspended at this moment. */
  predicate Effective(s: State, a: Address) {
    a in s.infos && s.infos[a].active && s.now >= s.infos[a].suspendedUntil
  }

  predicate HasRoleAtLeast(s: State, a: Address, r: Role) {
    Effective(s, a) && Rank(s.infos[a].role) >= Rank(r)
  }

  function Initialize(s: State, admin: Address, minAdmins: nat, maxAdmins: nat, auth: set<Address>): Outcome {
    if s.initialized then Err(AlreadyInitialized)
    else if minAdmins == 0 || minAdmins > maxAdmins then Err(InvalidPauseAction)
    else if admin !in auth then Err(Unauthorized)
    else Ok(s.(initialized := true, minAdmins := minAdmins, maxAdmins := maxAdmins, paused := false,
               infos := s.infos[admin := Info(admin, SuperAdmin, s.now, admin, true, 0)],
               list := [admin], byRole := map[SuperAdmin := [admin], Admin := [], Operator := []]))
  }

  /** Checks every entry point makes first. */
  function CallError(s: State, caller: Address, target: Address, auth: set<Address>): Option<AdminError> {
    if s.paused then Some(ContractPaused)
    else if caller !in auth then Some(Unauthorized)
    else if target in s.reserved then Some(InvalidAdminAddress)
    else None
  }

  /** The self-assignment check has no branch here: the caller has a record by then, the new
      admin has none. */
  function AddError(s: State, caller: Address, a: Address, role: Role, auth: set<Address>): Option<AdminError> {
    var e := CallError(s, caller, a, auth);
    if e.Some? then e
    else if !HasRoleAtLeast(s, caller, RequiredToAssign(role)) then Some(NotAdmin)
    else if a in s.infos then Some(AlreadyActive)
    else if |s.list| >= s.maxAdmins then Some(ThresholdExceedsSigners)
    else None
  }

  function AddAdmin(s: State, caller: Address, a: Address, role: Role, auth: set<Address>): Outcome {
    var e := AddError(s, caller, a, role, auth);
    if e.Some? then Err(e.value)
    else Ok(s.(infos := s.infos[a := Info(a, role, s.now, caller, true, 0)],
               list := s.list + [a],
               byRole := s.byRole[role := RoleAdmins(s, role) + [a]]))
  }

  function RemoveError(s: State, caller: Address, a: Address, auth: set<Address>): Option<AdminError> {
    var e := CallError(s, caller, a, auth);
    if e.Some? then e
    else if a !in s.infos || caller !in s.infos then Some(NotAdmin)
    else if Rank(s.infos[caller].role) <= Rank(s.infos[a].role) then Some(NotAdmin)
    else if s.infos[a].role == SuperAdmin && |RoleAdmins(s, SuperAdmin)| <= s.minAdmins then Some(InvalidPauseAction)
    else None
  }

  function RemoveAdmin(s: State, caller: Address, a: Address, auth: set<Address>): Outcome {
    var e := RemoveError(s, caller, a, auth);
    if e.Some? then Err(e.value)
    else
      var role := s.infos[a].role;
      Ok(s.(infos := s.infos - {a}, list := RemoveFirst(s.list, a),
            byRole := s.byRole[role := RemoveFirst(RoleAdmins(s, role), a)]))
  }

  function UpdateError(s: State, caller: Address, a: Address, role: Role, auth: set<Address>): Option<AdminError> {
    var e := CallError(s, caller, a, auth);
    if e.Some? then e
    else if a !in s.infos then Some(NotAdmin)
    else if !HasRoleAtLeast(s, caller, RequiredToAssign(role)) then Some(NotAdmin)
    else if caller == a && Rank(s.infos[caller].role) >= Rank(role) then Some(NotAdmin)
    else None
  }

  /** Out of the old role's list, then onto the new one's, which may be the same. */
  function UpdateAdminRole(s: State, caller: Address, a: Address, role: Role, auth: set<Address>): Outcome {
    var e := UpdateError(s, caller, a, role, auth);
    if e.Some? then Err(e.value)
    else
      var previous := s.infos[a].role;
      var t := s.(byRole := s.byRole[previous := RemoveFirst(RoleAdmins(s, previous), a)]);
      Ok(t.(byRole := t.byRole[role := RoleAdmins(t, role) + [a]],
            infos := s.infos[a := s.infos[a].(role := role, assignedAt := s.now, assignedBy := caller)]))
  }

  function DeactivateAdmin(s: State, caller: Address, a: Address, auth: set<Address>): Outcome {
    var e := CallError(s, caller, a, auth);
    if e.Some? then Err(e.value)
    else if a !in s.infos || caller !in s.infos then Err(NotAdmin)
    else if Rank(s.infos[caller].role) <= Rank(s.infos[a].role) then Err(NotAdmin)
    else if !s.infos[a].active then Err(AlreadyDeactivated)
    else Ok(s.(infos := s.infos[a := s.infos[a].(active := false)]))
  }

  function ReactivateAdmin(s: State, caller: Address, a: Address, auth: set<Address>): Outcome {
    var e := CallError(s, caller, a, auth);
    if e.Some? then Err(e.value)
    else if a !in s.infos || caller !in s.infos then Err(NotAdmin)
    else if Rank(s.infos[caller].role) < Rank(s.infos[a].role) then Err(NotAdmin)
    else if s.infos[a].active then Err(AlreadyActive)
    else Ok(s.(infos := s.infos[a := s.infos[a].(active := true)]))
  }

  /** How many listed admins other than `a` are effective. */
  function EffectiveBut(s: State, list: seq<Address>, a: Address): nat {
    if list == [] then 0
    else
      var last := list[|list| - 1];
      EffectiveBut(s, list[..|list| - 1], a) + (if last != a && Effective(s, last) then 1 else 0)
  }

  function SuspendError(s: State, caller: Address, a: Address, until: nat, auth: set<Address>): Option<AdminError> {
    if s.paused then Some(ContractPaused)
    else if caller !in auth then Some(Unauthorized)
    else if until <= s.now then Some(AdminSuspended)
    else if a !in s.infos then Some(NotAdmin)
    else if !s.infos[a].active then Some(AlreadyDeactivated)
    else if caller !in s.infos || Rank(s.infos[caller].role) < Rank(s.infos[a].role) then Some(NotAdmin)
    else if EffectiveBut(s, s.list, a) < s.minAdmins then Some(InvalidPauseAction)
    else None
  }

  function SuspendAdmin(s: State, caller: Address, a: Address, until: nat, auth: set<Address>): Outcome {
    var e := SuspendError(s, caller, a, until, auth);
    if e.Some? then Err(e.value) else Ok(s.(infos := s.infos[a := s.infos[a].(suspendedUntil := until)]))
  }
}
