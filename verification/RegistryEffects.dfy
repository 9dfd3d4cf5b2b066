/** Who may call what in the registry, what each call does, and what that means for whole runs. */
module RegistryEffects {
  import opened Host
  import opened Lists
  import opened Registry
  import opened RegistryTheorems

  /** The contract runs, and its admin signed the call. */
  predicate AdminSigned(s: State, auth: set<Address>) {
    !s.paused && s.admin.Some? && s.admin.value in auth
  }

  /** Neither is registered, and the list has room. */
  predicate IsFree(s: State, identity: Address, bond: Address) {
    identity !in s.entries && bond !in s.owners && |s.identities| < HOST_VEC_LIMIT
  }

  /** Both are registered with each other, active and as of now, at the end of the list, and nothing
      else changed. */
  predicate Registers(s: State, t: State, identity: Address, bond: Address, allowed: set<Address>) {
    t == s.(entries := s.entries[identity := Entry(identity, bond, s.now, true)],
            owners := s.owners[bond := identity], identities := s.identities + [identity],
            nonInterface := allowed, order := s.order + [identity])
  }

  /** The admin registers what is free, a bond without the interface only if asked to, and then keeps
      note of that. */
  lemma RegisterTakesEffect(s: State, identity: Address, bond: Address, allow: bool, supported: bool,
                            auth: set<Address>)
    requires Reachable(s)
    ensures Register(s, identity, bond, allow, supported, auth).Ok? <==>
      AdminSigned(s, auth) && (allow || supported) && IsFree(s, identity, bond)
    ensures Register(s, identity, bond, allow, supported, auth).Ok? ==>
      Registers(s, Register(s, identity, bond, allow, supported, auth).value, identity, bond,
                s.nonInterface + if allow then {bond} else {})
  {
    ReachableInv(s);
    assert s.nonInterface + {} == s.nonInterface;
  }

  /** A bond registers itself by a call it signed, if the admin pinned a code hash and its code has it;
      a repeated registration is accepted while active and changes nothing. */
  lemma TrustlessTakesEffect(s: State, bond: Address, identity: Address, matches: bool, auth: set<Address>)
    requires Reachable(s)
    ensures RegisterTrustless(s, bond, identity, matches, auth).Ok? <==>
      && !s.paused && bond in auth && s.hashPinned && matches
      && (IsFree(s, identity, bond)
          || (identity in s.entries && s.entries[identity].bond == bond && s.entries[identity].active))
    ensures RegisterTrustless(s, bond, identity, matches, auth).Ok? ==>
      var t := RegisterTrustless(s, bond, identity, matches, auth).value;
      if identity in s.entries then t == s else Registers(s, t, identity, bond, s.nonInterface)
  {
    ReachableInv(s);
  }

  /** The admin deactivates what is active and reactivates what is not, and nothing else changes. */
  lemma SetActiveTakesEffect(s: State, identity: Address, active: bool, auth: set<Address>)
    ensures SetActive(s, identity, active, auth).Ok? <==>
      AdminSigned(s, auth) && identity in s.entries && s.entries[identity].active != active
    ensures SetActive(s, identity, active, auth).Ok? ==>
      SetActive(s, identity, active, auth).value
        == s.(entries := s.entries[identity := s.entries[identity].(active := active)])
  {
  }

  lemma ListWithout(s: State, identity: Address)
    requires Reachable(s)
    ensures RemoveFirst(s.identities, identity) == Kept(s.identities, s.entries.Keys - {identity})
  {
    ReachableInv(s);
    RemoveFirstIsWithout(s.identities, identity);
    KeptIs(s.identities, s.entries.Keys);
    KeptWithout(s.identities, s.entries.Keys, identity);
  }

  /** The admin removes a registered identity with its bond; the others keep their order. */
  lemma RemoveTakesEffect(s: State, identity: Address, auth: set<Address>)
    requires Reachable(s)
    ensures Remove(s, identity, auth).Ok? <==> AdminSigned(s, auth) && identity in s.entries
    ensures Remove(s, identity, auth).Ok? ==>
      var t := Remove(s, identity, auth).value;
      && t == s.(entries := s.entries - {identity}, owners := s.owners - {s.entries[identity].bond},
                 identities := t.identities)
      && t.identities == Kept(s.identities, s.entries.Keys - {identity})
  {
    ListWithout(s, identity);
  }

  /** The first to initialize, by a call it signed, is the admin; the admin pins and unpins the hash. */
  lemma SettingsTakeEffect(s: State, caller: Address, pinned: bool, auth: set<Address>)
    requires Reachable(s)
    ensures Initialize(s, caller, auth).Ok? <==> s.admin == None && caller in auth
    ensures Initialize(s, caller, auth).Ok? ==>
      Initialize(s, caller, auth).value == s.(admin := Some(caller), paused := false)
    ensures SetBondCodeHash(s, pinned, auth).Ok? <==> s.admin.Some? && s.admin.value in auth
    ensures SetBondCodeHash(s, pinned, auth).Ok? ==> SetBondCodeHash(s, pinned, auth).value == s.(hashPinned := pinned)
  {
    ReachableInv(s);
    assert s.identities != [] ==> s.identities[0] in s.identities;
  }

  /** A page is the slice of the list asked for, cut to 200 and to the list. */
  lemma PageTells(s: State, offset: nat, limit: nat)
    requires Reachable(s)
    ensures |s.identities| <= HOST_VEC_LIMIT
    ensures var n := if limit > 200 then 200 else limit;
      Page(s.identities, offset, limit)
        == if offset >= |s.identities| then []
           else if offset + n <= |s.identities| then s.identities[offset..offset + n]
           else s.identities[offset..]
  {
    ReachableInv(s);
  }

  // ----- Over whole runs -----

  /** The call registers the two as of now; the admin signed it, or the bond did. */
  predicate Enters(s: State, c: Call, e: Entry) {
    && e.registeredAt == s.now
    && ((c.CallRegister? && c.identity == e.identity && c.bond == e.bond && AdminSigned(s, c.auth)
         && (c.allow || c.supported))
        || (c.CallTrustless? && c.identity == e.identity && c.caller == e.bond && e.bond in c.auth && c.codeMatches
            && s.hashPinned))
  }

  lemma StepEnters(s: State, c: Call, identity: Address)
    requires Reachable(s)
    ensures var t := StateAfter(s, Step(s, c));
      identity in t.entries ==>
        || (identity in s.entries && t.entries[identity].(active := true) == s.entries[identity].(active := true))
        || Enters(s, c, t.entries[identity])
  {
    match c
    case CallRegister(i, b, allow, supported, auth) => RegisterTakesEffect(s, i, b, allow, supported, auth);
    case CallTrustless(b, i, m, auth) => TrustlessTakesEffect(s, b, i, m, auth);
    case _ =>
  }

  /** Call `i` of the run entered the two. */
  ghost predicate EnteredBy(calls: seq<Call>, i: nat, e: Entry) {
    i < |calls| && Enters(Run(Initial, calls[..i]), calls[i], e)
  }

  /** On every run each registration goes back to a call that named just this identity and bond, and
      that the admin or the bond itself signed, at the moment on record. */
  lemma {:induction false} EntriesGoBackToCalls(calls: seq<Call>, identity: Address)
    ensures var t := Run(Initial, calls);
      identity in t.entries ==> exists i: nat :: EnteredBy(calls, i, t.entries[identity].(active := true))
  {
    if calls != [] {
      var k := |calls| - 1;
      var front, c := calls[..k], calls[k];
      var s, t := Run(Initial, front), Run(Initial, calls);
      assert Reachable(s);
      EntriesGoBackToCalls(front, identity);
      StepEnters(s, c, identity);
      if identity in t.entries {
        var e := t.entries[identity].(active := true);
        if identity in s.entries && s.entries[identity].(active := true) == e {
          var i: nat :| EnteredBy(front, i, e);
          assert front[..i] == calls[..i] && EnteredBy(calls, i, e);
        } else {
          assert EnteredBy(calls, k, e);
        }
      }
    }
  }
}
