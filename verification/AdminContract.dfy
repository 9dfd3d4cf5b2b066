/** The admin entry points as the contract runs them. */
module AdminContract {
  import opened Host
  import opened Lists
  import opened AdminRoles
  import T = AdminTheorems

  /** The counting loop of suspend_admin. */
  method CountEffectiveBut(ghost s: State, list: seq<Address>, infos: map<Address, Info>, now: nat, a: Address)
      returns (n: nat)
    requires s.infos == infos && s.now == now
    ensures n == EffectiveBut(s, list, a)
  {
    n := 0;
    for i := 0 to |list|
      invariant n == EffectiveBut(s, list[..i], a)
    {
      assert list[..i + 1][..i] == list[..i];
      if list[i] != a && list[i] in infos && infos[list[i]].active && now >= infos[list[i]].suspendedUntil {
        n := n + 1;
      }
    }
    assert list[..|list|] == list;
  }

  class AdminStore {
    const reserved: set<Address>
    var now: nat
    var paused: bool
    var initialized: bool
    var minAdmins: nat
    var maxAdmins: nat
    var list: seq<Address>
    var infos: map<Address, Info>
    var byRole: map<Role, seq<Address>>

    ghost function Model(): State
      reads this
    {
      State(reserved, now, paused, initialized, minAdmins, maxAdmins, list, infos, byRole)
    }

    ghost predicate Valid()
      reads this
    {
      T.Reachable(Model())
    }

    constructor (holders: set<Address>)
      ensures reserved == holders && Valid() && Model() == AdminRoles.Initial(holders)
    {
      reserved := holders;
      now, paused, initialized, minAdmins, maxAdmins, list, infos, byRole := 0, false, false, 0, 0, [], map[], map[];
      new;
      assert T.Run(AdminRoles.Initial(reserved), []) == Model();
    }

    method SetEnvironment(t: nat, p: bool)
      requires Valid() && now <= t <= U64_MAX
      modifies this
      ensures Valid() && Model() == old(Model()).(now := t, paused := p)
    {
      T.ReachableStep(Model(), T.CallTick(t));
      now := t;
      T.ReachableStep(Model(), T.CallSetPaused(p));
      paused := p;
    }

    method Initialize(admin: Address, lo: nat, hi: nat, auth: set<Address>) returns (e: Option<AdminError>)
      requires Valid()
      modifies this
      ensures Valid()
      ensures var o := AdminRoles.Initialize(old(Model()), admin, lo, hi, auth);
        Model() == StateAfter(old(Model()), o) && e == ErrorOf(o)
    {
      T.ReachableStep(Model(), T.CallInitialize(admin, lo, hi, auth));
      if initialized {
        e := Some(AlreadyInitialized);
      } else if lo == 0 || lo > hi {
        e := Some(InvalidPauseAction);
      } else if admin !in auth {
        e := Some(Unauthorized);
      } else {
        initialized, minAdmins, maxAdmins, paused := true, lo, hi, false;
        infos := infos[admin := Info(admin, SuperAdmin, now, admin, true, 0)];
        list := [admin];
        byRole := map[SuperAdmin := [admin], Admin := [], Operator := []];
        e := None;
      }
    }

    method RequireCall(caller: Address, target: Address, auth: set<Address>) returns (e: Option<AdminError>)
      ensures e == CallError(Model(), caller, target, auth)
    {
      e := if paused then Some(ContractPaused)
           else if caller !in auth then Some(Unauthorized)
           else if target in reserved then Some(InvalidAdminAddress)
           else None;
    }

    method RequireRoleAtLeast(caller: Address, role: Role) returns (ok: bool)
      ensures ok <==> HasRoleAtLeast(Model(), caller, role)
    {
      ok := caller in infos && infos[caller].active && now >= infos[caller].suspendedUntil
          && Rank(infos[caller].role) >= Rank(role);
    }

    method AddAdmin(caller: Address, a: Address, role: Role, auth: set<Address>) returns (e: Option<AdminError>)
      requires Valid()
      modifies this
      ensures Valid()
      ensures var o := AdminRoles.AddAdmin(old(Model()), caller, a, role, auth);
        Model() == StateAfter(old(Model()), o) && e == ErrorOf(o)
    {
      T.ReachableStep(Model(), T.CallAdd(caller, a, role, auth));
      e := RequireCall(caller, a, auth);
      var ok := RequireRoleAtLeast(caller, RequiredToAssign(role));
      if e.None? {
        if !ok {
          e := Some(NotAdmin);
        } else if a in infos {
          e := Some(AlreadyActive);
        } else if |list| >= maxAdmins {
          e := Some(ThresholdExceedsSigners);
        } else {
          assert caller != a;  // the self-assignment check cannot fire
          infos := infos[a := Info(a, role, now, caller, true, 0)];
          list := list + [a];
          byRole := byRole[role := (if role in byRole then byRole[role] else []) + [a]];
        }
      }
    }

    method RemoveAdmin(caller: Address, a: Address, auth: set<Address>) returns (e: Option<AdminError>)
      requires Valid()
      modifies this
      ensures Valid()
      ensures var o := AdminRoles.RemoveAdmin(old(Model()), caller, a, auth);
        Model() == StateAfter(old(Model()), o) && e == ErrorOf(o)
    {
      T.ReachableStep(Model(), T.CallRemove(caller, a, auth));
      e := RequireCall(caller, a, auth);
      if e.None? {
        if a !in infos || caller !in infos || Rank(infos[caller].role) <= Rank(infos[a].role) {
          e := Some(NotAdmin);
        } else {
          var role := infos[a].role;
          assert role != SuperAdmin;  // the protection of the last super admins cannot fire
          var roleAdmins := if role in byRole then byRole[role] else [];
          infos := infos - {a};
          list := RemoveAt(list, a);
          roleAdmins := RemoveAt(roleAdmins, a);
          byRole := byRole[role := roleAdmins];
        }
      }
    }

    method UpdateAdminRole(caller: Address, a: Address, role: Role, auth: set<Address>) returns (e: Option<AdminError>)
      requires Valid()
      modifies this
      ensures Valid()
      ensures var o := AdminRoles.UpdateAdminRole(old(Model()), caller, a, role, auth);
        Model() == StateAfter(old(Model()), o) && e == ErrorOf(o)
    {
      T.ReachableStep(Model(), T.CallUpdate(caller, a, role, auth));
      e := RequireCall(caller, a, auth);
      var ok := RequireRoleAtLeast(caller, RequiredToAssign(role));
      if e.None? {
        if a !in infos || !ok {
          e := Some(NotAdmin);
        } else if caller == a && Rank(infos[caller].role) >= Rank(role) {
          e := Some(NotAdmin);
        } else {
          var was := infos[a].role;
          var oldAdmins := RemoveAt(if was in byRole then byRole[was] else [], a);
          byRole := byRole[was := oldAdmins];
          byRole := byRole[role := (if role in byRole then byRole[role] else []) + [a]];
          infos := infos[a := infos[a].(role := role, assignedAt := now, assignedBy := caller)];
        }
      }
    }

    method DeactivateAdmin(caller: Address, a: Address, auth: set<Address>) returns (e: Option<AdminError>)
      requires Valid()
      modifies this
      ensures Valid()
      ensures var o := AdminRoles.DeactivateAdmin(old(Model()), caller, a, auth);
        Model() == StateAfter(old(Model()), o) && e == ErrorOf(o)
    {
      T.ReachableStep(Model(), T.CallDeactivate(caller, a, auth));
      e := RequireCall(caller, a, auth);
      if e.None? {
        if a !in infos || caller !in infos || Rank(infos[caller].role) <= Rank(infos[a].role) {
          e := Some(NotAdmin);
        } else if !infos[a].active {
          e := Some(AlreadyDeactivated);
        } else {
          infos := infos[a := infos[a].(active := false)];
        }
      }
    }

    method ReactivateAdmin(caller: Address, a: Address, auth: set<Address>) returns (e: Option<AdminError>)
      requires Valid()
      modifies this
      ensures Valid()
      ensures var o := AdminRoles.ReactivateAdmin(old(Model()), caller, a, auth);
        Model() == StateAfter(old(Model()), o) && e == ErrorOf(o)
    {
      T.ReachableStep(Model(), T.CallReactivate(caller, a, auth));
      e := RequireCall(caller, a, auth);
      if e.None? {
        if a !in infos || caller !in infos || Rank(infos[caller].role) < Rank(infos[a].role) {
          e := Some(NotAdmin);
        } else if infos[a].active {
          e := Some(AlreadyActive);
        } else {
          infos := infos[a := infos[a].(active := true)];
        }
      }
    }

    method SuspendAdmin(caller: Address, a: Address, until: nat, auth: set<Address>) returns (e: Option<AdminError>)
      requires Valid()
      modifies this
      ensures Valid()
      ensures var o := AdminRoles.SuspendAdmin(old(Model()), caller, a, until, auth);
        Model() == StateAfter(old(Model()), o) && e == ErrorOf(o)
    {
      T.ReachableStep(Model(), T.CallSuspend(caller, a, until, auth));
      var left := CountEffectiveBut(Model(), list, infos, now, a);
      if paused {
        e := Some(ContractPaused);
      } else if caller !in auth {
        e := Some(Unauthorized);
      } else if until <= now {
        e := Some(AdminSuspended);
      } else if a !in infos {
        e := Some(NotAdmin);
      } else if !infos[a].active {
        e := Some(AlreadyDeactivated);
      } else if caller !in infos || Rank(infos[caller].role) < Rank(infos[a].role) {
        e := Some(NotAdmin);
      } else if left < minAdmins {
        e := Some(InvalidPauseAction);
      } else {
        infos := infos[a := infos[a].(suspendedUntil := until)];
        e := None;
      }
    }
  }
}
