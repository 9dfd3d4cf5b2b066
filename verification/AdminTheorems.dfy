/** The three admin indexes agree on every run. */
module AdminTheorems {
  import opened Host
  import opened Lists
  import opened AdminRoles

  // ----- Runs -----

  datatype Call =
    | CallTick(now: nat)
    | CallSetPaused(paused: bool)
    | CallInitialize(admin: Address, minAdmins: nat, maxAdmins: nat, auth: set<Address>)
    | CallAdd(caller: Address, a: Address, role: Role, auth: set<Address>)
    | CallRemove(caller: Address, a: Address, auth: set<Address>)
    | CallUpdate(caller: Address, a: Address, role: Role, auth: set<Address>)
    | CallDeactivate(caller: Address, a: Address, auth: set<Address>)
    | CallReactivate(caller: Address, a: Address, auth: set<Address>)
    | CallSuspend(caller: Address, a: Address, until: nat, auth: set<Address>)

  function Step(s: State, c: Call): Outcome {
    match c
    case CallTick(now) => Ok(if s.now <= now <= U64_MAX then s.(now := now) else s)
    case CallSetPaused(paused) => Ok(s.(paused := paused))
    case CallInitialize(a, lo, hi, auth) => Initialize(s, a, lo, hi, auth)
    case CallAdd(c, a, r, auth) => AddAdmin(s, c, a, r, auth)
    case CallRemove(c, a, auth) => RemoveAdmin(s, c, a, auth)
    case CallUpdate(c, a, r, auth) => UpdateAdminRole(s, c, a, r, auth)
    case CallDeactivate(c, a, auth) => DeactivateAdmin(s, c, a, auth)
    case CallReactivate(c, a, auth) => ReactivateAdmin(s, c, a, auth)
    case CallSuspend(c, a, until, auth) => SuspendAdmin(s, c, a, until, auth)
  }

  function Run(s: State, calls: seq<Call>): State {
    if calls == [] then s
    else
      var before := Run(s, calls[..|calls| - 1]);
      StateAfter(before, Step(before, calls[|calls| - 1]))
  }

  ghost predicate Reachable(s: State) {
    exists calls :: Run(Initial(s.reserved), calls) == s
  }

  lemma ReachableStep(s: State, c: Call)
    requires Reachable(s)
    ensures Reachable(StateAfter(s, Step(s, c)))
  {
    var calls :| Run(Initial(s.reserved), calls) == s;
    assert (calls + [c])[..|calls|] == calls;
    assert Run(Initial(s.reserved), calls + [c]) == StateAfter(s, Step(s, c));
  }

  // ----- The invariant -----

  /** The list of role `r` holds exactly the admins of that role, once each. */
  ghost predicate RoleOk(s: State, r: Role) {
    NoDup(RoleAdmins(s, r)) && forall a :: a in RoleAdmins(s, r) <==> a in s.infos && s.infos[a].role == r
  }

  ghost predicate ListOk(s: State) {
    && NoDup(s.list) && (forall a :: a in s.list <==> a in s.infos)
    && (forall a :: a in s.infos ==> s.infos[a].address == a)
    && (if s.initialized then 1 <= s.minAdmins && 1 <= |s.list| <= s.maxAdmins else s.list == [] && s.byRole == map[])
  }

  ghost predicate Inv(s: State) {
    ListOk(s) && forall r :: RoleOk(s, r)
  }

  lemma NobodyUninitialized(s: State)
    requires ListOk(s) && !s.initialized
    ensures s.infos == map[]
  {
    assert forall a :: a !in s.infos by {
      forall a ensures a !in s.infos {
        assert a !in s.list;
      }
    }
  }

  lemma InitializeKeepsInv(s: State, admin: Address, lo: nat, hi: nat, auth: set<Address>)
    requires Inv(s)
    ensures Inv(StateAfter(s, Initialize(s, admin, lo, hi, auth)))
  {
    if Initialize(s, admin, lo, hi, auth).Ok? {
      NobodyUninitialized(s);
      var t := Initialize(s, admin, lo, hi, auth).value;
      forall r ensures RoleOk(t, r) {
        assert RoleAdmins(t, r) == if r == SuperAdmin then [admin] else [];
      }
    }
  }

  lemma AddKeepsInv(s: State, caller: Address, a: Address, role: Role, auth: set<Address>)
    requires Inv(s)
    ensures Inv(StateAfter(s, AddAdmin(s, caller, a, role, auth)))
  {
    if AddAdmin(s, caller, a, role, auth).Ok? {
      var t := AddAdmin(s, caller, a, role, auth).value;
      assert caller in s.list;
      NoDupPush(s.list, a);
      forall r ensures RoleOk(t, r) {
        assert RoleOk(s, r);
        NoDupPush(RoleAdmins(s, r), a);
      }
    }
  }

  lemma RemoveKeepsList(s: State, caller: Address, a: Address, auth: set<Address>)
    requires ListOk(s) && RemoveAdmin(s, caller, a, auth).Ok?
    ensures ListOk(RemoveAdmin(s, caller, a, auth).value)
  {
    var t := RemoveAdmin(s, caller, a, auth).value;
    RemoveFirstIsWithout(s.list, a);
    WithoutList(s.list, a);
    assert caller in s.list && caller != a;
    assert caller in t.list;
  }

  lemma RemoveKeepsInv(s: State, caller: Address, a: Address, auth: set<Address>)
    requires Inv(s)
    ensures Inv(StateAfter(s, RemoveAdmin(s, caller, a, auth)))
  {
    if RemoveAdmin(s, caller, a, auth).Ok? {
      var t, role := RemoveAdmin(s, caller, a, auth).value, s.infos[a].role;
      RemoveKeepsList(s, caller, a, auth);
      forall r ensures RoleOk(t, r) {
        assert RoleOk(s, r);
        if r == role {
          RemoveFirstIsWithout(RoleAdmins(s, r), a);
          WithoutList(RoleAdmins(s, r), a);
        }
      }
    }
  }

  lemma UpdateKeepsInv(s: State, caller: Address, a: Address, role: Role, auth: set<Address>)
    requires Inv(s)
    ensures Inv(StateAfter(s, UpdateAdminRole(s, caller, a, role, auth)))
  {
    if UpdateAdminRole(s, caller, a, role, auth).Ok? {
      var t, was := UpdateAdminRole(s, caller, a, role, auth).value, s.infos[a].role;
      forall r ensures RoleOk(t, r) {
        assert RoleOk(s, r);
        var before := if r == was then Without(RoleAdmins(s, r), a) else RoleAdmins(s, r);
        if r == was {
          RemoveFirstIsWithout(RoleAdmins(s, r), a);
          WithoutList(RoleAdmins(s, r), a);
        }
        if r == role { NoDupPush(before, a); }
        assert RoleAdmins(t, r) == if r == role then before + [a] else before;
      }
    }
  }

  /** Calls that change neither who is admin nor anyone's role. */
  lemma StatusKeepsInv(s: State, t: State)
    requires Inv(s) && t.list == s.list && t.byRole == s.byRole && t.initialized == s.initialized
    requires t.minAdmins == s.minAdmins && t.maxAdmins == s.maxAdmins && t.infos.Keys == s.infos.Keys
    requires forall a :: a in s.infos ==> t.infos[a].role == s.infos[a].role && t.infos[a].address == s.infos[a].address
    ensures Inv(t)
  {
    forall r ensures RoleOk(t, r) {
      assert RoleOk(s, r);
      forall a ensures a in RoleAdmins(t, r) <==> a in t.infos && t.infos[a].role == r {
        assert a in t.infos.Keys <==> a in s.infos.Keys;
      }
    }
    forall a ensures a in t.list <==> a in t.infos {
      assert a in t.infos.Keys <==> a in s.infos.Keys;
    }
  }

  lemma StatusCallsKeepRoles(s: State, c: Call)
    requires !c.CallInitialize? && !c.CallAdd? && !c.CallRemove? && !c.CallUpdate?
    ensures var t := StateAfter(s, Step(s, c));
      && t.list == s.list && t.byRole == s.byRole && t.initialized == s.initialized
      && t.minAdmins == s.minAdmins && t.maxAdmins == s.maxAdmins && t.infos.Keys == s.infos.Keys
      && forall a :: a in s.infos ==> t.infos[a].role == s.infos[a].role && t.infos[a].address == s.infos[a].address
  {
  }

  lemma StatusStepKeepsInv(s: State, c: Call)
    requires Inv(s) && !c.CallInitialize? && !c.CallAdd? && !c.CallRemove? && !c.CallUpdate?
    ensures Inv(StateAfter(s, Step(s, c)))
  {
    StatusCallsKeepRoles(s, c);
    StatusKeepsInv(s, StateAfter(s, Step(s, c)));
  }

  lemma StepKeepsInv(s: State, c: Call)
    requires Inv(s)
    ensures Inv(StateAfter(s, Step(s, c)))
  {
    match c
    case CallInitialize(a, lo, hi, auth) => InitializeKeepsInv(s, a, lo, hi, auth);
    case CallAdd(c, a, r, auth) => AddKeepsInv(s, c, a, r, auth);
    case CallRemove(c, a, auth) => RemoveKeepsInv(s, c, a, auth);
    case CallUpdate(c, a, r, auth) => UpdateKeepsInv(s, c, a, r, auth);
    case _ => StatusStepKeepsInv(s, c);
  }

  lemma {:induction false} RunKeepsInv(s: State, calls: seq<Call>)
    requires Inv(s)
    ensures Inv(Run(s, calls))
  {
    if calls != [] {
      RunKeepsInv(s, calls[..|calls| - 1]);
      StepKeepsInv(Run(s, calls[..|calls| - 1]), calls[|calls| - 1]);
    }
  }

  lemma ReachableInv(s: State)
    requires Reachable(s)
    ensures Inv(s)
  {
    var calls :| Run(Initial(s.reserved), calls) == s;
    RunKeepsInv(Initial(s.reserved), calls);
  }

  // ----- Main results -----

  /** The admin list is the set of records without repetition, each role list is exactly the
      admins of that role without repetition, and once initialized there is always at least one
      admin and never more than the maximum. */
  lemma IndexesAgree(s: State, r: Role)
    requires Reachable(s)
    ensures NoDup(s.list) && forall a :: a in s.list <==> a in s.infos
    ensures NoDup(RoleAdmins(s, r)) && forall a :: a in RoleAdmins(s, r) <==> a in s.infos && s.infos[a].role == r
    ensures s.initialized ==> 1 <= |s.list| <= s.maxAdmins
  {
    ReachableInv(s);
    assert RoleOk(s, r);
  }

  function WithRole(s: State, r: Role): set<Address> {
    set a | a in s.infos && s.infos[a].role == r
  }

  lemma RoleCount(s: State, r: Role)
    requires Inv(s)
    ensures |RoleAdmins(s, r)| == |WithRole(s, r)|
  {
    assert RoleOk(s, r);
    NoDupSize(RoleAdmins(s, r), WithRole(s, r));
  }

  lemma RolesCover(s: State)
    ensures s.infos.Keys == WithRole(s, SuperAdmin) + WithRole(s, Admin) + WithRole(s, Operator)
  {
    forall a | a in s.infos ensures a in WithRole(s, s.infos[a].role) {}
  }

  lemma DisjointSize(x: set<Address>, y: set<Address>, z: set<Address>)
    requires x !! y && x !! z && y !! z
    ensures |x + y + z| == |x| + |y| + |z|
  {
    assert |x + y| == |x| + |y|;
    assert |(x + y) + z| == |x + y| + |z|;
  }

  /** The role lists partition the admin list. */
  lemma RolesPartition(s: State)
    requires Reachable(s)
    ensures |RoleAdmins(s, SuperAdmin)| + |RoleAdmins(s, Admin)| + |RoleAdmins(s, Operator)| == |s.list|
  {
    ReachableInv(s);
    RoleCount(s, SuperAdmin);
    RoleCount(s, Admin);
    RoleCount(s, Operator);
    NoDupSize(s.list, s.infos.Keys);
    RolesCover(s);
    DisjointSize(WithRole(s, SuperAdmin), WithRole(s, Admin), WithRole(s, Operator));
  }

  function EffectiveAdmins(s: State): set<Address> {
    set a | a in s.infos && Effective(s, a)
  }

  lemma {:induction false} CountIsEffective(s: State, list: seq<Address>, a: Address)
    requires NoDup(list)
    ensures EffectiveBut(s, list, a) == |set x | x in list && x != a && Effective(s, x)|
  {
    if list == [] {
      assert (set x | x in list && x != a && Effective(s, x)) == {};
    } else {
      var front, last := list[..|list| - 1], list[|list| - 1];
      assert list == front + [last];
      CountIsEffective(s, front, a);
      var before := set x | x in front && x != a && Effective(s, x);
      assert (set x | x in list && x != a && Effective(s, x)) == if last != a && Effective(s, last)
          then before + {last} else before;
    }
  }

  /** A suspension leaves at least MinAdmins admins able to act, and the target is none of them. */
  lemma SuspendLeavesEnough(s: State, caller: Address, a: Address, until: nat, auth: set<Address>)
    requires Reachable(s) && SuspendAdmin(s, caller, a, until, auth).Ok?
    ensures var t := SuspendAdmin(s, caller, a, until, auth).value;
      |EffectiveAdmins(t)| >= s.minAdmins >= 1 && a !in EffectiveAdmins(t)
  {
    ReachableInv(s);
    var t := SuspendAdmin(s, caller, a, until, auth).value;
    assert s.initialized by {
      if !s.initialized { NobodyUninitialized(s); }
    }
    CountIsEffective(s, s.list, a);
    assert EffectiveAdmins(t) == set x | x in s.list && x != a && Effective(s, x);
  }

  /** The call gives `role` to `a`, and its caller may. */
  predicate GivesRole(s: State, c: Call, a: Address, role: Role) {
    || (c.CallInitialize? && c.admin == a && a in c.auth && role == SuperAdmin && !s.initialized)
    || ((c.CallAdd? || c.CallUpdate?) && c.a == a && c.role == role
        && c.caller in c.auth && HasRoleAtLeast(s, c.caller, RequiredToAssign(role)))
  }

  /** Who may change what. A role appears or changes only by a call that names this address and
      this role, signed by a caller who is effective at that moment and has the role required to
      assign it (or by the one initialization); an admin leaves only by a removal signed by a
      caller who strictly outranks it and stays. */
  lemma RoleChangesAreAuthorized(s: State, c: Call, a: Address)
    requires Reachable(s) && Step(s, c).Ok?
    ensures var t := Step(s, c).value;
      a in t.infos && (a !in s.infos || t.infos[a].role != s.infos[a].role) ==> GivesRole(s, c, a, t.infos[a].role)
    ensures var t := Step(s, c).value;
      a in s.infos && a !in t.infos ==>
        && c.CallRemove? && c.a == a && c.caller in c.auth && c.caller in s.infos && c.caller in t.infos
        && Rank(s.infos[c.caller].role) > Rank(s.infos[a].role)
  {
    ReachableInv(s);
    if c.CallInitialize? { NobodyUninitialized(s); }
  }

  /** Call `i` of the run succeeded and gave `a` the role. */
  ghost predicate GrantedBy(reserved: set<Address>, calls: seq<Call>, i: nat, a: Address, role: Role) {
    && i < |calls|
    && var s := Run(Initial(reserved), calls[..i]);
    Step(s, calls[i]).Ok? && GivesRole(s, calls[i], a, role)
  }

  lemma {:induction false} RunKeepsReserved(reserved: set<Address>, calls: seq<Call>)
    ensures Run(Initial(reserved), calls).reserved == reserved && Reachable(Run(Initial(reserved), calls))
  {
    if calls != [] { RunKeepsReserved(reserved, calls[..|calls| - 1]); }
  }

  /** On every run the role of every admin goes back to a successful call of the run that gave
      it, signed by a caller who was then allowed to give it. */
  lemma {:induction false} RolesGoBackToGrants(reserved: set<Address>, calls: seq<Call>, a: Address)
    ensures var t := Run(Initial(reserved), calls);
      a in t.infos ==> exists i: nat :: GrantedBy(reserved, calls, i, a, t.infos[a].role)
  {
    if calls != [] {
      var k := |calls| - 1;
      var front, c := calls[..k], calls[k];
      var s := Run(Initial(reserved), front);
      RolesGoBackToGrants(reserved, front, a);
      var t := StateAfter(s, Step(s, c));
      if a in t.infos && a in s.infos && t.infos[a].role == s.infos[a].role {
        var i: nat :| GrantedBy(reserved, front, i, a, s.infos[a].role);
        assert front[..i] == calls[..i] && front[i] == calls[i];
        assert GrantedBy(reserved, calls, i, a, t.infos[a].role);
      } else if a in t.infos {
        RunKeepsReserved(reserved, front);
        RoleChangesAreAuthorized(s, c, a);
        assert GrantedBy(reserved, calls, k, a, t.infos[a].role);
      }
    }
  }

  // ----- Super admins -----

  predicate HasSuper(s: State) {
    exists a :: a in s.infos && s.infos[a].role == SuperAdmin
  }

  /** The call moves the only super admin to a lower role. */
  predicate DemotesLastSuper(s: State, c: Call) {
    && c.CallUpdate? && UpdateError(s, c.caller, c.a, c.role, c.auth).None?
    && s.infos[c.a].role == SuperAdmin && c.role != SuperAdmin && |RoleAdmins(s, SuperAdmin)| == 1
  }

  lemma OnlyOne(xs: set<Address>, a: Address)
    requires |xs| == 1 && a in xs
    ensures forall x :: x in xs ==> x == a
  {
    assert |xs - {a}| == 0;
    assert xs == (xs - {a}) + {a};
  }

  lemma AnotherOne(xs: set<Address>, a: Address) returns (x: Address)
    requires |xs| != 1 && a in xs
    ensures x in xs && x != a
  {
    assert |xs - {a}| == |xs| - 1 > 0;
    x :| x in xs - {a};
  }

  lemma SuperKeeps(s: State, c: Call, x: Address)
    requires Reachable(s) && x in s.infos && s.infos[x].role == SuperAdmin
    requires !(c.CallUpdate? && Step(s, c).Ok? && s.infos[c.a].role == SuperAdmin && c.role != SuperAdmin)
    ensures var t := StateAfter(s, Step(s, c)); x in t.infos && t.infos[x].role == SuperAdmin
  {
    ReachableInv(s);
    if c.CallInitialize? && Step(s, c).Ok? { NobodyUninitialized(s); }
  }

  /** A step keeps at least one super admin if and only if it is not a successful update of the
      only one to a lower role; no other call can take the last one away. */
  lemma SuperStaysIff(s: State, c: Call)
    requires Reachable(s) && HasSuper(s)
    ensures HasSuper(StateAfter(s, Step(s, c))) <==> !DemotesLastSuper(s, c)
  {
    ReachableInv(s);
    assert RoleOk(s, SuperAdmin);
    RoleCount(s, SuperAdmin);
    var t := StateAfter(s, Step(s, c));
    var supers := WithRole(s, SuperAdmin);
    if c.CallUpdate? && Step(s, c).Ok? && s.infos[c.a].role == SuperAdmin && c.role != SuperAdmin {
      if |supers| == 1 {
        OnlyOne(supers, c.a);
        forall x | x in t.infos ensures t.infos[x].role != SuperAdmin {
          assert x != c.a ==> x in s.infos && x !in supers;
        }
      } else {
        var other := AnotherOne(supers, c.a);
        assert t.infos[other].role == SuperAdmin;
      }
    } else {
      var x :| x in s.infos && s.infos[x].role == SuperAdmin;
      SuperKeeps(s, c, x);
    }
  }

  lemma NoSuperStep(s: State, c: Call)
    requires s.initialized && !HasSuper(s)
    ensures StateAfter(s, Step(s, c)).initialized && !HasSuper(StateAfter(s, Step(s, c)))
  {
  }

  /** Once lost, no call of any run brings a super admin back. */
  lemma {:induction false} NoSuperForever(s: State, calls: seq<Call>)
    requires s.initialized && !HasSuper(s)
    ensures Run(s, calls).initialized && !HasSuper(Run(s, calls))
  {
    if calls != [] {
      NoSuperForever(s, calls[..|calls| - 1]);
      NoSuperStep(Run(s, calls[..|calls| - 1]), calls[|calls| - 1]);
    }
  }

  /** And it can be lost: an admin the root appointed moves the root down to operator. */
  lemma AdminDemotesRoot(reserved: set<Address>, root: Address, adm: Address)
    requires root !in reserved && adm !in reserved && root != adm
    ensures var calls := [CallInitialize(root, 1, 2, {root}), CallAdd(root, adm, Admin, {root}),
                          CallUpdate(adm, root, Operator, {adm})];
      var s, t := Run(Initial(reserved), calls[..2]), Run(Initial(reserved), calls);
      HasSuper(s) && Step(s, calls[2]).Ok? && t.initialized && !HasSuper(t)
  {
    var calls := [CallInitialize(root, 1, 2, {root}), CallAdd(root, adm, Admin, {root}),
                  CallUpdate(adm, root, Operator, {adm})];
    assert calls[..|calls| - 1] == calls[..2] && calls[..2][..1] == calls[..1] && calls[..1][..0] == [];
    var s0, s1 := Run(Initial(reserved), calls[..0]), Run(Initial(reserved), calls[..1]);
    assert s0 == Initial(reserved) && calls[..1][0] == calls[0];
    assert s1 == StateAfter(Initial(reserved), Initialize(Initial(reserved), root, 1, 2, {root}));
    var s := Run(Initial(reserved), calls[..2]);
    assert s == StateAfter(s1, AddAdmin(s1, root, adm, Admin, {root}));
    assert s.infos[root].role == SuperAdmin;
  }

  // ----- MinAdmins -----

  lemma CountWithout(xs: set<Address>, a: Address, min: nat)
    ensures |xs - {a}| >= min <==> |xs| > min || (a !in xs && |xs| == min)
  {
    assert a !in xs ==> xs - {a} == xs;
    assert a in xs ==> |xs - {a}| == |xs| - 1;
  }

  /** Deactivation has no such guard as suspension: it takes the target out of the effective
      admins and nothing stops it at MinAdmins. */
  lemma DeactivationCountsDown(s: State, caller: Address, a: Address, auth: set<Address>)
    requires DeactivateAdmin(s, caller, a, auth).Ok?
    ensures var t := DeactivateAdmin(s, caller, a, auth).value;
      && EffectiveAdmins(t) == EffectiveAdmins(s) - {a}
      && (|EffectiveAdmins(t)| >= s.minAdmins <==>
            |EffectiveAdmins(s)| > s.minAdmins || (!Effective(s, a) && |EffectiveAdmins(s)| == s.minAdmins))
  {
    var t := DeactivateAdmin(s, caller, a, auth).value;
    assert EffectiveAdmins(t) == EffectiveAdmins(s) - {a};
    CountWithout(EffectiveAdmins(s), a, s.minAdmins);
  }

  /** Neither has removal: its guard is about super admins, whom nobody can remove. */
  lemma RemovalCountsDown(s: State, caller: Address, a: Address, auth: set<Address>)
    requires Reachable(s) && RemoveAdmin(s, caller, a, auth).Ok?
    ensures var t := RemoveAdmin(s, caller, a, auth).value;
      && EffectiveAdmins(t) == EffectiveAdmins(s) - {a}
      && (|EffectiveAdmins(t)| >= s.minAdmins <==>
            |EffectiveAdmins(s)| > s.minAdmins || (!Effective(s, a) && |EffectiveAdmins(s)| == s.minAdmins))
      && (|t.list| >= s.minAdmins <==> |s.list| > s.minAdmins)
  {
    var t := RemoveAdmin(s, caller, a, auth).value;
    ReachableInv(s);
    RemoveFirstIsWithout(s.list, a);
    WithoutList(s.list, a);
    assert EffectiveAdmins(t) == EffectiveAdmins(s) - {a};
    CountWithout(EffectiveAdmins(s), a, s.minAdmins);
  }

  lemma RunNext(s: State, calls: seq<Call>, c: Call)
    ensures Run(s, calls + [c]) == StateAfter(Run(s, calls), Step(Run(s, calls), c))
  {
    assert (calls + [c])[..|calls|] == calls;
  }

  /** Two admins, and MinAdmins is two. */
  function TwoAdmins(root: Address, adm: Address): seq<Call> {
    [CallInitialize(root, 2, 3, {root}), CallAdd(root, adm, Operator, {root})]
  }

  lemma TwoAdminsRun(reserved: set<Address>, root: Address, adm: Address)
    requires root !in reserved && adm !in reserved && root != adm
    ensures var s1 := Run(Initial(reserved), TwoAdmins(root, adm)[..1]);
      s1.minAdmins == 2 && EffectiveAdmins(s1) == {root}
    ensures var s := Run(Initial(reserved), TwoAdmins(root, adm));
      && s.minAdmins == 2 && Reachable(s) && s.reserved == reserved && !s.paused
      && s.infos.Keys == {root, adm} && s.list == [root, adm] && EffectiveAdmins(s) == {root, adm}
      && s.infos[root].role == SuperAdmin && s.infos[adm].role == Operator && s.infos[adm].active
  {
    var calls := TwoAdmins(root, adm);
    assert Run(Initial(reserved), []) == Initial(reserved);
    RunNext(Initial(reserved), [], calls[0]);
    RunNext(Initial(reserved), [calls[0]], calls[1]);
    assert [] + [calls[0]] == [calls[0]] == calls[..1] && [calls[0]] + [calls[1]] == calls;
    RunKeepsReserved(reserved, calls);
  }

  lemma RemoveSecond(x: Address, y: Address)
    requires x != y
    ensures RemoveFirst([x, y], y) == [x]
  {
    assert [x, y][1..] == [y] && [y][1..] == [];
  }

  /** A run that goes below MinAdmins: initialization starts there, and with two admins both a
      deactivation and a removal lead back. */
  lemma BelowMinAdmins(reserved: set<Address>, root: Address, adm: Address)
    requires root !in reserved && adm !in reserved && root != adm
    ensures var s1 := Run(Initial(reserved), TwoAdmins(root, adm)[..1]);
      EffectiveAdmins(s1) == {root} && s1.minAdmins == 2
    ensures var s := Run(Initial(reserved), TwoAdmins(root, adm));
      var d, r := DeactivateAdmin(s, root, adm, {root}), RemoveAdmin(s, root, adm, {root});
      && EffectiveAdmins(s) == {root, adm} && s.minAdmins == 2
      && d.Ok? && EffectiveAdmins(d.value) == {root} && d.value.minAdmins == 2
      && r.Ok? && EffectiveAdmins(r.value) == {root} && r.value.minAdmins == 2 && r.value.list == [root]
  {
    var s := Run(Initial(reserved), TwoAdmins(root, adm));
    TwoAdminsRun(reserved, root, adm);
    RemoveSecond(root, adm);
    DeactivationCountsDown(s, root, adm, {root});
    RemovalCountsDown(s, root, adm, {root});
    assert {root, adm} - {adm} == {root};
  }

  // ----- Callers who are deactivated or suspended -----

  /** The record of `who` with another status. */
  function WithStatus(s: State, who: Address, active: bool, until: nat): State
    requires who in s.infos
  {
    s.(infos := s.infos[who := s.infos[who].(active := active, suspendedUntil := until)])
  }

  /** What a caller may do to others whom it ranks against does not depend on its own status:
      removing, deactivating and reactivating succeed or fail alike, whatever the status. */
  lemma RankIgnoresStatus(s: State, caller: Address, a: Address, active: bool, until: nat, auth: set<Address>)
    requires caller in s.infos && a != caller
    ensures var t := WithStatus(s, caller, active, until);
      && ErrorOf(RemoveAdmin(t, caller, a, auth)) == ErrorOf(RemoveAdmin(s, caller, a, auth))
      && ErrorOf(DeactivateAdmin(t, caller, a, auth)) == ErrorOf(DeactivateAdmin(s, caller, a, auth))
      && ErrorOf(ReactivateAdmin(t, caller, a, auth)) == ErrorOf(ReactivateAdmin(s, caller, a, auth))
  {
  }

  lemma SuspendsWhileEnough(s: State, caller: Address, a: Address, until: nat, auth: set<Address>)
    requires Reachable(s) && caller in s.infos && !s.paused && caller in auth
    ensures SuspendAdmin(s, caller, a, until, auth).Ok? <==>
      && until > s.now && a in s.infos && s.infos[a].active && Rank(s.infos[caller].role) >= Rank(s.infos[a].role)
      && |EffectiveAdmins(s) - {a}| >= s.minAdmins
  {
    ReachableInv(s);
    CountIsEffective(s, s.list, a);
    assert EffectiveAdmins(s) - {a} == set x | x in s.list && x != a && Effective(s, x);
  }

  /** Exactly the calls a deactivated or suspended admin still makes with success: it cannot add or
      update anybody, but removes and deactivates whom it outranks, and reactivates and, as long
      as MinAdmins others are effective, suspends whom it does not rank below. */
  lemma IneffectiveCaller(s: State, caller: Address, a: Address, role: Role, until: nat, auth: set<Address>)
    requires Reachable(s) && caller in s.infos && !Effective(s, caller) && !s.paused && caller in auth
    ensures AddAdmin(s, caller, a, role, auth).Err? && UpdateAdminRole(s, caller, a, role, auth).Err?
    ensures RemoveAdmin(s, caller, a, auth).Ok? <==>
      a !in s.reserved && a in s.infos && Rank(s.infos[caller].role) > Rank(s.infos[a].role)
    ensures DeactivateAdmin(s, caller, a, auth).Ok? <==>
      a !in s.reserved && a in s.infos && Rank(s.infos[caller].role) > Rank(s.infos[a].role) && s.infos[a].active
    ensures ReactivateAdmin(s, caller, a, auth).Ok? <==>
      a !in s.reserved && a in s.infos && Rank(s.infos[caller].role) >= Rank(s.infos[a].role) && !s.infos[a].active
    ensures SuspendAdmin(s, caller, a, until, auth).Ok? <==>
      && until > s.now && a in s.infos && s.infos[a].active && Rank(s.infos[caller].role) >= Rank(s.infos[a].role)
      && |EffectiveAdmins(s) - {a}| >= s.minAdmins
  {
    SuspendsWhileEnough(s, caller, a, until, auth);
  }

  /** In particular a deactivated admin takes its deactivation back, leaving no trace of it. */
  lemma DeactivationIsUndone(s: State, caller: Address, a: Address, auth: set<Address>)
    requires DeactivateAdmin(s, caller, a, auth).Ok?
    ensures ReactivateAdmin(DeactivateAdmin(s, caller, a, auth).value, a, a, {a}) == Ok(s)
  {
    var t := DeactivateAdmin(s, caller, a, auth).value;
    assert t.infos[a := t.infos[a].(active := true)] == s.infos;
  }
}
