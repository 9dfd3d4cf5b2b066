/** The registry entry points as the contract runs them. */
module RegistryContract {
  import opened Host
  import opened Lists
  import opened Registry
  import T = RegistryTheorems

  /** The page loop. */
  method ReadPage(ids: seq<Address>, offset: nat, limit: nat) returns (page: seq<Address>)
    requires |ids| <= HOST_VEC_LIMIT
    ensures page == Page(ids, offset, limit)
  {
    page := [];
    if offset < |ids| {
      var end := Min(WrapAddU32(offset, Min(limit, MAX_IDENTITIES_PAGE_SIZE)), |ids|);
      var i := offset;
      while i < end
        invariant offset <= i <= |ids| && (i <= end || i == offset)
        invariant page == ids[offset..i]
      {
        page := page + [ids[i]];
        i := i + 1;
      }
    }
  }

  class RegistryStore {
    var admin: Option<Address>
    var paused: bool
    var now: nat
    var hashPinned: bool
    var entries: map<Address, Entry>
    var owners: map<Address, Address>
    var identities: seq<Address>
    var nonInterface: set<Address>
    ghost var order: seq<Address>

    ghost function Model(): State
      reads this
    {
      State(admin, paused, now, hashPinned, entries, owners, identities, nonInterface, order)
    }

    ghost predicate Valid()
      reads this
    {
      T.Reachable(Model())
    }

    constructor ()
      ensures Valid() && Model() == Registry.Initial
    {
      admin, paused, now, hashPinned, entries, owners := None, false, 0, false, map[], map[];
      identities, nonInterface, order := [], {}, [];
      new;
      assert T.Run(Registry.Initial, []) == Model();
    }

    method SetEnvironment(t: nat, p: bool)
      requires Valid() && now <= t <= U64_MAX
      modifies this
      ensures Valid() && Model() == old(Model()).(now := t, paused := p)
    {
      T.ReachableStep(Model(), T.CallTick(t));
      now := t;
      T.ReachableStep(Model(), T.CallSetPaused(p));
      paused := p;
    }

    method Initialize(a: Address, auth: set<Address>) returns (e: Option<RegistryError>)
      requires Valid()
      modifies this
      ensures Valid()
      ensures var o := Registry.Initialize(old(Model()), a, auth);
        Model() == StateAfter(old(Model()), o) && e == ErrorOf(o)
    {
      T.ReachableStep(Model(), T.CallInitialize(a, auth));
      if admin.Some? {
        e := Some(AlreadyInitialized);
      } else if a !in auth {
        e := Some(Unauthorized);
      } else {
        admin, paused, identities := Some(a), false, [];
        e := None;
      }
    }

    method SetBondCodeHash(pinned: bool, auth: set<Address>) returns (e: Option<RegistryError>)
      requires Valid()
      modifies this
      ensures Valid()
      ensures var o := Registry.SetBondCodeHash(old(Model()), pinned, auth);
        Model() == StateAfter(old(Model()), o) && e == ErrorOf(o)
    {
      T.ReachableStep(Model(), T.CallPinHash(pinned, auth));
      if admin.None? {
        e := Some(NotInitialized);
      } else if admin.value !in auth {
        e := Some(Unauthorized);
      } else {
        hashPinned := pinned;
        e := None;
      }
    }

    method RequireAdmin(auth: set<Address>) returns (e: Option<RegistryError>)
      ensures e == AdminError(Model(), auth)
    {
      e := if paused then Some(ContractPaused)
           else if admin.None? then Some(NotInitialized)
           else if admin.value !in auth then Some(Unauthorized)
           else None;
    }

    /** What both registering entry points do last. */
    method BindIfFree(identity: Address, bond: Address) returns (e: Option<RegistryError>)
      modifies this
      ensures e == BindError(old(Model()), identity, bond)
      ensures Model() == if e.None? then Bind(old(Model()), identity, bond) else old(Model())
    {
      if identity in entries {
        e := Some(IdentityAlreadyRegistered);
      } else if bond in owners {
        e := Some(BondContractAlreadyRegistered);
      } else if |identities| >= HOST_VEC_LIMIT {
        e := Some(HostLimit);
      } else {
        entries := entries[identity := Entry(identity, bond, now, true)];
        owners := owners[bond := identity];
        var present := Contains(identities, identity);
        if !present {
          identities := identities + [identity];
        }
        order := order + [identity];
        e := None;
      }
    }

    method Register(identity: Address, bond: Address, allow: bool, supported: bool, auth: set<Address>)
        returns (e: Option<RegistryError>)
      requires Valid()
      modifies this
      ensures Valid()
      ensures var o := Registry.Register(old(Model()), identity, bond, allow, supported, auth);
        Model() == StateAfter(old(Model()), o) && e == ErrorOf(o)
    {
      T.ReachableStep(Model(), T.CallRegister(identity, bond, allow, supported, auth));
      e := RequireAdmin(auth);
      if e.None? {
        if !allow && !supported {
          e := Some(UnsupportedInterface);
        } else {
          e := BindIfFree(identity, bond);
          if e.None? && allow {
            nonInterface := nonInterface + {bond};
          }
        }
      }
    }

    method RegisterTrustless(caller: Address, identity: Address, codeMatches: bool, auth: set<Address>)
        returns (e: Option<RegistryError>)
      requires Valid()
      modifies this
      ensures Valid()
      ensures var o := Registry.RegisterTrustless(old(Model()), caller, identity, codeMatches, auth);
        Model() == StateAfter(old(Model()), o) && e == ErrorOf(o)
    {
      T.ReachableStep(Model(), T.CallTrustless(caller, identity, codeMatches, auth));
      if paused {
        e := Some(ContractPaused);
      } else if caller !in auth {
        e := Some(Unauthorized);
      } else if !hashPinned {
        e := Some(NotInitialized);
      } else if !codeMatches {
        e := Some(ContractCodeVerificationFailed);
      } else if identity in entries && entries[identity].bond == caller && entries[identity].active {
        e := None;
      } else {
        e := BindIfFree(identity, caller);
      }
    }

    /** deactivate and reactivate. */
    method SetActive(identity: Address, active: bool, auth: set<Address>) returns (e: Option<RegistryError>)
      requires Valid()
      modifies this
      ensures Valid()
      ensures var o := Registry.SetActive(old(Model()), identity, active, auth);
        Model() == StateAfter(old(Model()), o) && e == ErrorOf(o)
    {
      T.ReachableStep(Model(), T.CallSetActive(identity, active, auth));
      e := RequireAdmin(auth);
      if e.None? {
        if identity !in entries {
          e := Some(IdentityNotRegistered);
        } else if entries[identity].active == active {
          e := Some(if active then AlreadyActive else AlreadyDeactivated);
        } else {
          entries := entries[identity := entries[identity].(active := active)];
        }
      }
    }

    method Remove(identity: Address, auth: set<Address>) returns (e: Option<RegistryError>)
      requires Valid()
      modifies this
      ensures Valid()
      ensures var o := Registry.Remove(old(Model()), identity, auth);
        Model() == StateAfter(old(Model()), o) && e == ErrorOf(o)
    {
      T.ReachableStep(Model(), T.CallRemove(identity, auth));
      e := RequireAdmin(auth);
      if e.None? {
        if identity !in entries {
          e := Some(IdentityNotRegistered);
        } else {
          var bond := entries[identity].bond;
          entries := entries - {identity};
          owners := owners - {bond};
          identities := RemoveAt(identities, identity);
        }
      }
    }

    method GetIdentitiesPage(offset: nat, limit: nat) returns (page: seq<Address>)
      requires Valid()
      ensures |identities| <= HOST_VEC_LIMIT && page == Page(identities, offset, limit)
    {
      T.ReachableInv(Model());
      page := ReadPage(identities, offset, limit);
    }
  }
}
