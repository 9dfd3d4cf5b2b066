/** Who may call what in the admin contract, and what each call does. */
module AdminEffects {
  import opened Host
  import opened Lists
  import opened AdminRoles
  import opened AdminTheorems

  predicate Outranks(x: Role, y: Role) {
    (x == SuperAdmin && y != SuperAdmin) || (x == Admin && y == Operator)
  }

  /** Active, and past any suspension. */
  predicate InOffice(s: State, a: Address) {
    a in s.infos && s.infos[a].active && s.infos[a].suspendedUntil <= s.now
  }

  /** The contract runs, the caller has a record and signed the call, and `a` is no reserved address. */
  predicate Called(s: State, caller: Address, a: Address, auth: set<Address>) {
    !s.paused && caller in auth && caller in s.infos && a !in s.reserved
  }

  /** Operators are appointed by admins and super admins, all others by super admins. */
  predicate MayAppoint(s: State, caller: Address, role: Role) {
    InOffice(s, caller) && (s.infos[caller].role == SuperAdmin || (role == Operator && s.infos[caller].role == Admin))
  }

  /** The records of all but `a`, their order and their role lists, and the settings, are as they were. */
  ghost predicate OthersStay(s: State, t: State, a: Address) {
    && t == s.(infos := t.infos, list := t.list, byRole := t.byRole)
    && (forall b :: b != a ==> (b in t.infos <==> b in s.infos) && (b in s.infos ==> t.infos[b] == s.infos[b]))
    && Without(t.list, a) == Without(s.list, a)
    && (forall r :: Without(RoleAdmins(t, r), a) == Without(RoleAdmins(s, r), a))
  }

  lemma WithoutPush(list: seq<Address>, a: Address)
    ensures Without(list + [a], a) == Without(list, a)
  {
    assert (list + [a])[..|list|] == list;
  }

  lemma WithoutTwice(list: seq<Address>, a: Address)
    requires NoDup(list)
    ensures Without(Without(list, a), a) == Without(list, a)
  {
    WithoutList(list, a);
    WithoutAbsent(Without(list, a), a);
  }

  lemma RemovedFirst(list: seq<Address>, a: Address)
    requires NoDup(list)
    ensures Without(RemoveFirst(list, a), a) == Without(list, a) && a !in RemoveFirst(list, a)
  {
    RemoveFirstIsWithout(list, a);
    WithoutTwice(list, a);
    WithoutList(list, a);
  }

  // ----- Appointing and removing -----

  /** It is initialized once, by a call the first admin signed, who is the one super admin then. */
  lemma InitializeTakesEffect(s: State, a: Address, min: nat, max: nat, auth: set<Address>)
    requires Reachable(s)
    ensures Initialize(s, a, min, max, auth).Ok? <==> !s.initialized && 1 <= min <= max && a in auth
    ensures Initialize(s, a, min, max, auth).Ok? ==>
      var t := Initialize(s, a, min, max, auth).value;
      && t == State(s.reserved, s.now, false, true, min, max, [a], map[a := Info(a, SuperAdmin, s.now, a, true, 0)],
                    t.byRole)
      && RoleAdmins(t, SuperAdmin) == [a] && RoleAdmins(t, Admin) == RoleAdmins(t, Operator) == []
  {
    ReachableInv(s);
    if !s.initialized { NobodyUninitialized(s); }
  }

  /** A new admin is appointed by one in office who may, while there is room. */
  lemma AddSucceedsIff(s: State, caller: Address, a: Address, role: Role, auth: set<Address>)
    requires Reachable(s)
    ensures AddAdmin(s, caller, a, role, auth).Ok? <==>
      Called(s, caller, a, auth) && MayAppoint(s, caller, role) && a !in s.infos && |s.infos.Keys| < s.maxAdmins
  {
    ReachableInv(s);
    NoDupSize(s.list, s.infos.Keys);
  }

  lemma Appended(s: State, a: Address, info: Info)
    requires a !in s.infos
    ensures var t := s.(infos := s.infos[a := info], list := s.list + [a],
                        byRole := s.byRole[info.role := RoleAdmins(s, info.role) + [a]]);
      OthersStay(s, t, a) && RoleAdmins(t, info.role) == RoleAdmins(s, info.role) + [a]
  {
    WithoutPush(s.list, a);
    WithoutPush(RoleAdmins(s, info.role), a);
  }

  /** It is in office from now with the role asked for, at the end of the list and of the list of its
      role. */
  lemma AddTakesEffect(s: State, caller: Address, a: Address, role: Role, auth: set<Address>, t: State)
    requires Reachable(s) && AddAdmin(s, caller, a, role, auth) == Ok(t)
    ensures OthersStay(s, t, a) && a in t.infos && t.infos[a] == Info(a, role, s.now, caller, true, 0)
    ensures t.list == s.list + [a] && RoleAdmins(t, role) == RoleAdmins(s, role) + [a]
  {
    Appended(s, a, Info(a, role, s.now, caller, true, 0));
  }

  /** An admin is removed by one who outranks it, in office or not; it is on no list after that. */
  lemma RemoveTakesEffect(s: State, caller: Address, a: Address, auth: set<Address>)
    requires Reachable(s)
    ensures RemoveAdmin(s, caller, a, auth).Ok? <==>
      Called(s, caller, a, auth) && a in s.infos && Outranks(s.infos[caller].role, s.infos[a].role)
    ensures RemoveAdmin(s, caller, a, auth).Ok? ==>
      var t := RemoveAdmin(s, caller, a, auth).value;
      OthersStay(s, t, a) && a !in t.infos && a !in t.list && forall r :: a !in RoleAdmins(t, r)
  {
    ReachableInv(s);
    if a in s.infos {
      var role := s.infos[a].role;
      assert RoleOk(s, role);
      RemovedFirst(s.list, a);
      RemovedFirst(RoleAdmins(s, role), a);
      forall r | r != role ensures a !in RoleAdmins(s, r) { assert RoleOk(s, r); }
    }
  }

  /** The role of an admin, whatever it is, is changed by another in office who may appoint the new
      one. */
  lemma UpdateSucceedsIff(s: State, caller: Address, a: Address, role: Role, auth: set<Address>)
    ensures UpdateAdminRole(s, caller, a, role, auth).Ok? <==>
      Called(s, caller, a, auth) && a in s.infos && MayAppoint(s, caller, role) && caller != a
  {
  }

  /** The role lists after `a` went from the list of `from` to the end of that of `to`. */
  ghost predicate RoleMoved(s: State, t: State, a: Address, from: Role, to: Role) {
    && RoleAdmins(t, to) == Without(RoleAdmins(s, to), a) + [a]
    && (from != to ==> RoleAdmins(t, from) == Without(RoleAdmins(s, from), a))
    && forall r :: r != from && r != to ==> RoleAdmins(t, r) == RoleAdmins(s, r)
  }

  lemma RoleMoves(s: State, caller: Address, a: Address, role: Role, auth: set<Address>, t: State)
    requires Inv(s) && UpdateAdminRole(s, caller, a, role, auth) == Ok(t)
    ensures RoleMoved(s, t, a, s.infos[a].role, role)
  {
    var from := s.infos[a].role;
    assert RoleOk(s, from) && RoleOk(s, role);
    RemoveFirstIsWithout(RoleAdmins(s, from), a);
    if from != role { WithoutAbsent(RoleAdmins(s, role), a); }
  }

  lemma RoleListFacts(s: State, a: Address, r: Role)
    requires Inv(s)
    ensures Without(Without(RoleAdmins(s, r), a) + [a], a) == Without(RoleAdmins(s, r), a)
    ensures Without(Without(RoleAdmins(s, r), a), a) == Without(RoleAdmins(s, r), a)
    ensures a !in Without(RoleAdmins(s, r), a) && (a in RoleAdmins(s, r) <==> a in s.infos && s.infos[a].role == r)
  {
    assert RoleOk(s, r);
    WithoutPush(Without(RoleAdmins(s, r), a), a);
    WithoutTwice(RoleAdmins(s, r), a);
    WithoutList(RoleAdmins(s, r), a);
  }

  lemma MovedStays(s: State, t: State, a: Address, from: Role, to: Role)
    requires Inv(s) && a in s.infos && s.infos[a].role == from && RoleMoved(s, t, a, from, to)
    ensures forall r ::
      Without(RoleAdmins(t, r), a) == Without(RoleAdmins(s, r), a) && (r != to ==> a !in RoleAdmins(t, r))
  {
    forall r
      ensures Without(RoleAdmins(t, r), a) == Without(RoleAdmins(s, r), a) && (r != to ==> a !in RoleAdmins(t, r))
    {
      RoleListFacts(s, a, r);
    }
  }

  /** It moves to the end of the list of its role, and the record says by whom and when. */
  lemma UpdateTakesEffect(s: State, caller: Address, a: Address, role: Role, auth: set<Address>, t: State)
    requires Reachable(s) && UpdateAdminRole(s, caller, a, role, auth) == Ok(t)
    ensures OthersStay(s, t, a) && t.list == s.list && a in s.infos && a in t.infos
    ensures t.infos[a] == s.infos[a].(role := role, assignedAt := s.now, assignedBy := caller)
    ensures RoleMoved(s, t, a, s.infos[a].role, role) && forall r :: r != role ==> a !in RoleAdmins(t, r)
  {
    ReachableInv(s);
    RoleMoves(s, caller, a, role, auth, t);
    MovedStays(s, t, a, s.infos[a].role, role);
  }

  // ----- Status -----

  /** Nothing changed but the status of `a`. */
  ghost predicate OnlyStatus(s: State, t: State, a: Address, active: bool, until: nat) {
    a in s.infos && t == s.(infos := s.infos[a := s.infos[a].(active := active, suspendedUntil := until)])
  }

  /** An active admin is deactivated by one who outranks it, in office or not. */
  lemma DeactivateTakesEffect(s: State, caller: Address, a: Address, auth: set<Address>)
    ensures DeactivateAdmin(s, caller, a, auth).Ok? <==>
      Called(s, caller, a, auth) && a in s.infos && Outranks(s.infos[caller].role, s.infos[a].role) && s.infos[a].active
    ensures DeactivateAdmin(s, caller, a, auth).Ok? ==>
      OnlyStatus(s, DeactivateAdmin(s, caller, a, auth).value, a, false, s.infos[a].suspendedUntil)
  {
  }

  /** And reactivated by one who is not outranked by it, itself included. */
  lemma ReactivateTakesEffect(s: State, caller: Address, a: Address, auth: set<Address>)
    ensures ReactivateAdmin(s, caller, a, auth).Ok? <==>
      Called(s, caller, a, auth) && a in s.infos && !Outranks(s.infos[a].role, s.infos[caller].role)
      && !s.infos[a].active
    ensures ReactivateAdmin(s, caller, a, auth).Ok? ==>
      OnlyStatus(s, ReactivateAdmin(s, caller, a, auth).value, a, true, s.infos[a].suspendedUntil)
  {
  }

  /** An active admin is suspended until a moment to come by one who is not outranked by it, if
      enough others are in office. */
  lemma SuspendTakesEffect(s: State, caller: Address, a: Address, until: nat, auth: set<Address>)
    requires Reachable(s)
    ensures SuspendAdmin(s, caller, a, until, auth).Ok? <==>
      && !s.paused && caller in auth && caller in s.infos && a in s.infos && s.infos[a].active && until > s.now
      && !Outranks(s.infos[a].role, s.infos[caller].role)
      && |set b | b in s.infos && b != a && InOffice(s, b)| >= s.minAdmins
    ensures SuspendAdmin(s, caller, a, until, auth).Ok? ==>
      OnlyStatus(s, SuspendAdmin(s, caller, a, until, auth).value, a, true, until)
  {
    ReachableInv(s);
    CountIsEffective(s, s.list, a);
    assert (set x | x in s.list && x != a && Effective(s, x)) == set b | b in s.infos && b != a && InOffice(s, b);
  }

  /** The status of an admin changes only by a call that names it, signed by one who outranks it, or
      who is not outranked by it if it is brought back or suspended. */
  lemma StatusChangesAreAuthorized(s: State, c: Call, a: Address)
    requires Reachable(s) && Step(s, c).Ok? && a in s.infos && a in Step(s, c).value.infos
    requires var x, y := s.infos[a], Step(s, c).value.infos[a];
      x.active != y.active || x.suspendedUntil != y.suspendedUntil
    ensures (c.CallDeactivate? || c.CallReactivate? || c.CallSuspend?) && c.a == a
    ensures c.caller in c.auth && c.caller in s.infos
    ensures if c.CallDeactivate? then Outranks(s.infos[c.caller].role, s.infos[a].role)
            else !Outranks(s.infos[a].role, s.infos[c.caller].role)
  {
    ReachableInv(s);
    if c.CallInitialize? { NobodyUninitialized(s); }
  }
}
