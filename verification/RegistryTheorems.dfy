/** What every run of the registry keeps. */
module RegistryTheorems {
  import opened Host
  import opened Lists
  import opened Registry

  // ----- Runs -----

  datatype Call =
    | CallTick(now: nat)
    | CallSetPaused(paused: bool)
    | CallPinHash(pinned: bool, auth: set<Address>)
    | CallInitialize(admin: Address, auth: set<Address>)
    | CallRegister(identity: Address, bond: Address, allow: bool, supported: bool, auth: set<Address>)
    | CallTrustless(caller: Address, identity: Address, codeMatches: bool, auth: set<Address>)
    | CallSetActive(identity: Address, active: bool, auth: set<Address>)
    | CallRemove(identity: Address, auth: set<Address>)

  function Step(s: State, c: Call): Outcome {
    match c
    case CallTick(now) => Ok(if s.now <= now <= U64_MAX then s.(now := now) else s)
    case CallSetPaused(paused) => Ok(s.(paused := paused))
    case CallPinHash(pinned, auth) => SetBondCodeHash(s, pinned, auth)
    case CallInitialize(admin, auth) => Initialize(s, admin, auth)
    case CallRegister(i, b, allow, supported, auth) => Register(s, i, b, allow, supported, auth)
    case CallTrustless(c, i, m, auth) => RegisterTrustless(s, c, i, m, auth)
    case CallSetActive(i, active, auth) => SetActive(s, i, active, auth)
    case CallRemove(i, auth) => Remove(s, i, auth)
  }

  function Run(s: State, calls: seq<Call>): State {
    if calls == [] then s
    else
      var before := Run(s, calls[..|calls| - 1]);
      StateAfter(before, Step(before, calls[|calls| - 1]))
  }

  ghost predicate Reachable(s: State) {
    exists calls :: Run(Initial, calls) == s
  }

  lemma ReachableStep(s: State, c: Call)
    requires Reachable(s)
    ensures Reachable(StateAfter(s, Step(s, c)))
  {
    var calls :| Run(Initial, calls) == s;
    assert (calls + [c])[..|calls|] == calls;
    assert Run(Initial, calls + [c]) == StateAfter(s, Step(s, c));
  }

  // ----- The invariant -----

  /** Position of the last registration of `a`, counted from 1; 0 if there is none. */
  function LastRegistered(order: seq<Address>, a: Address): nat {
    if order == [] then 0
    else if order[|order| - 1] == a then |order|
    else LastRegistered(order[..|order| - 1], a)
  }

  /** The forward and the reverse map are inverse to each other. */
  ghost predicate Inverse(s: State) {
    && (forall i :: i in s.entries ==> s.entries[i].identity == i)
    && (forall i :: i in s.entries ==> s.entries[i].bond in s.owners && s.owners[s.entries[i].bond] == i)
    && (forall b :: b in s.owners ==> s.owners[b] in s.entries && s.entries[s.owners[b]].bond == b)
  }

  ghost predicate InOrder(ids: seq<Address>, order: seq<Address>) {
    forall i, j :: 0 <= i < j < |ids| ==> LastRegistered(order, ids[i]) < LastRegistered(order, ids[j])
  }

  ghost predicate ListOk(s: State) {
    && NoDup(s.identities) && |s.identities| <= HOST_VEC_LIMIT
    && (forall a :: a in s.identities <==> a in s.entries)
    && InOrder(s.identities, s.order)
  }

  lemma {:induction false} LastBounded(order: seq<Address>, a: Address)
    ensures LastRegistered(order, a) <= |order|
  {
    if order != [] { LastBounded(order[..|order| - 1], a); }
  }

  lemma BindKeepsOrder(s: State, a: Address)
    requires ListOk(s) && a !in s.identities
    ensures InOrder(s.identities + [a], s.order + [a])
  {
    var ids, order := s.identities + [a], s.order + [a];
    assert order[..|s.order|] == s.order;
    forall i, j | 0 <= i < j < |ids| ensures LastRegistered(order, ids[i]) < LastRegistered(order, ids[j]) {
      assert ids[i] != a;
      LastBounded(s.order, ids[i]);
      if j < |s.identities| { assert ids[j] in s.identities; }
    }
  }

  lemma BindKeepsInverse(s: State, identity: Address, bond: Address)
    requires Inverse(s) && BindError(s, identity, bond).None?
    ensures Inverse(Bind(s, identity, bond))
  {
    assert forall i :: i in s.entries ==> s.entries[i].bond != bond;
  }

  lemma BindKeepsInv(s: State, identity: Address, bond: Address)
    requires Inverse(s) && ListOk(s) && BindError(s, identity, bond).None?
    ensures Inverse(Bind(s, identity, bond)) && ListOk(Bind(s, identity, bond))
  {
    BindKeepsOrder(s, identity);
    NoDupPush(s.identities, identity);
    BindKeepsInverse(s, identity, bond);
  }

  /** Leaving one element out keeps the others in order. */
  lemma {:induction false} WithoutInOrder(ids: seq<Address>, order: seq<Address>, a: Address)
    requires InOrder(ids, order)
    ensures InOrder(Without(ids, a), order) && forall x :: x in Without(ids, a) ==> x in ids
  {
    if ids != [] {
      var front, last := ids[..|ids| - 1], ids[|ids| - 1];
      assert ids == front + [last];
      WithoutInOrder(front, order, a);
      forall x | x in front ensures LastRegistered(order, x) < LastRegistered(order, last) {
        var i :| 0 <= i < |front| && ids[i] == x;
        assert ids[|ids| - 1] == last;
      }
    }
  }

  function Unbound(s: State, identity: Address): State
    requires identity in s.entries
  {
    s.(entries := s.entries - {identity}, owners := s.owners - {s.entries[identity].bond},
       identities := RemoveFirst(s.identities, identity))
  }

  lemma UnbindKeepsInverse(s: State, identity: Address)
    requires Inverse(s) && identity in s.entries
    ensures Inverse(Unbound(s, identity))
  {
  }

  lemma UnlistKeepsList(s: State, identity: Address)
    requires ListOk(s) && identity in s.entries
    ensures ListOk(Unbound(s, identity))
  {
    RemoveFirstIsWithout(s.identities, identity);
    WithoutList(s.identities, identity);
    WithoutInOrder(s.identities, s.order, identity);
  }

  lemma RemoveKeepsInv(s: State, identity: Address, auth: set<Address>)
    requires Inverse(s) && ListOk(s) && Remove(s, identity, auth).Ok?
    ensures Inverse(Remove(s, identity, auth).value) && ListOk(Remove(s, identity, auth).value)
  {
    UnbindKeepsInverse(s, identity);
    UnlistKeepsList(s, identity);
  }

  /** The list can only be reset on initialization while nothing is registered. */
  ghost predicate Inv(s: State) {
    Inverse(s) && ListOk(s) && (s.admin.None? ==> s.entries == map[] && !s.hashPinned)
  }

  lemma RegisterKeepsInv(s: State, i: Address, b: Address, allow: bool, supported: bool, auth: set<Address>)
    requires Inv(s)
    ensures Inv(StateAfter(s, Register(s, i, b, allow, supported, auth)))
  {
    if Register(s, i, b, allow, supported, auth).Ok? {
      BindKeepsInv(s, i, b);
      assert Inverse(Opted(Bind(s, i, b), b, allow)) && ListOk(Opted(Bind(s, i, b), b, allow));
    }
  }

  lemma TrustlessKeepsInv(s: State, b: Address, i: Address, m: bool, auth: set<Address>)
    requires Inv(s)
    ensures Inv(StateAfter(s, RegisterTrustless(s, b, i, m, auth)))
  {
    if RegisterTrustless(s, b, i, m, auth).Ok? && BindError(s, i, b).None? { BindKeepsInv(s, i, b); }
  }

  lemma SetActiveKeepsInv(s: State, i: Address, active: bool, auth: set<Address>)
    requires Inv(s)
    ensures Inv(StateAfter(s, SetActive(s, i, active, auth)))
  {
  }

  lemma StepKeepsInv(s: State, c: Call)
    requires Inv(s)
    ensures Inv(StateAfter(s, Step(s, c)))
  {
    match c
    case CallRegister(i, b, allow, supported, auth) => RegisterKeepsInv(s, i, b, allow, supported, auth);
    case CallTrustless(b, i, m, auth) => TrustlessKeepsInv(s, b, i, m, auth);
    case CallRemove(i, auth) => if Remove(s, i, auth).Ok? { RemoveKeepsInv(s, i, auth); }
    case CallSetActive(i, active, auth) => SetActiveKeepsInv(s, i, active, auth);
    case _ =>
  }

  lemma {:induction false} RunKeepsInv(s: State, calls: seq<Call>)
    requires Inv(s)
    ensures Inv(Run(s, calls))
  {
    if calls != [] {
      RunKeepsInv(s, calls[..|calls| - 1]);
      StepKeepsInv(Run(s, calls[..|calls| - 1]), calls[|calls| - 1]);
    }
  }

  lemma ReachableInv(s: State)
    requires Reachable(s)
    ensures Inv(s)
  {
    var calls :| Run(Initial, calls) == s;
    RunKeepsInv(Initial, calls);
  }

  // ----- Main results -----

  lemma SameSize(s: State)
    requires Inverse(s)
    ensures |s.entries.Keys| == |s.owners.Keys|
    decreases |s.entries.Keys|
  {
    if s.entries.Keys == {} {
      assert forall b :: b !in s.owners;
      assert s.owners.Keys == {};
    } else {
      var i :| i in s.entries;
      var b := s.entries[i].bond;
      var t := s.(entries := s.entries - {i}, owners := s.owners - {b});
      assert t.entries.Keys == s.entries.Keys - {i} && t.owners.Keys == s.owners.Keys - {b};
      SameSize(t);
    }
  }

  /** Identities and bonds are in one-to-one correspondence: looking up the bond of an identity
      and then the identity of that bond leads back, and the other way round. */
  lemma RegistryIsBijection(s: State, identity: Address, bond: Address)
    requires Reachable(s)
    ensures (identity in s.entries && s.entries[identity].bond == bond) <==>
        (bond in s.owners && s.owners[bond] == identity)
    ensures |s.entries.Keys| == |s.owners.Keys|
  {
    ReachableInv(s);
    SameSize(s);
  }

  /** The list holds each registered identity once, in the order of their registrations. */
  lemma ListIsRegistrationOrder(s: State)
    requires Reachable(s)
    ensures NoDup(s.identities) && (forall a :: a in s.identities <==> a in s.entries) && InOrder(s.identities, s.order)
  {
    ReachableInv(s);
  }

  /** A registered identity cannot be registered again, by the admin or by a bond, and neither can
      a registered bond; only a bond that repeats its own active registration succeeds, and then
      nothing changes. */
  lemma NoSecondRegistration(s: State, bond: Address, identity: Address, allow: bool, supported: bool,
                             codeMatches: bool, auth: set<Address>)
    requires Reachable(s) && (identity in s.entries || bond in s.owners)
    ensures Register(s, identity, bond, allow, supported, auth).Err?
    ensures TrustlessError(s, bond, codeMatches, auth).None? ==>
      RegisterTrustless(s, bond, identity, codeMatches, auth) ==
        if identity in s.entries && s.entries[identity].bond == bond && s.entries[identity].active then Ok(s)
        else if identity in s.entries then Err(IdentityAlreadyRegistered)
        else Err(BondContractAlreadyRegistered)
  {
    RegistryIsBijection(s, identity, bond);
  }

  // ----- Pages -----

  lemma PageIs(ids: seq<Address>, offset: nat, limit: nat)
    requires |ids| <= HOST_VEC_LIMIT && offset <= |ids|
    ensures Page(ids, offset, limit) == ids[offset..Min(offset + Min(limit, MAX_IDENTITIES_PAGE_SIZE), |ids|)]
  {
  }

  lemma PageAdvances(ids: seq<Address>, offset: nat, limit: nat)
    requires |ids| <= HOST_VEC_LIMIT && offset <= |ids| && limit >= 1
    ensures var page := Page(ids, offset, limit);
      offset + |page| <= |ids| && page == ids[offset..offset + |page|] && (page == [] <==> offset == |ids|)
  {
    PageIs(ids, offset, limit);
  }

  /** Pages read one after the other, going on where the last one ended. */
  function Walk(ids: seq<Address>, offset: nat, limit: nat): seq<Address>
    requires |ids| <= HOST_VEC_LIMIT
    decreases |ids| - offset
  {
    var page := Page(ids, offset, limit);
    if page == [] then [] else page + Walk(ids, offset + |page|, limit)
  }

  /** One page of the walk, its length spelled out. */
  lemma WalkStep(ids: seq<Address>, offset: nat, limit: nat, n: nat)
    requires |ids| <= HOST_VEC_LIMIT && offset <= |ids| && limit >= 1
    requires n == Min(Min(limit, MAX_IDENTITIES_PAGE_SIZE), |ids| - offset)
    ensures Walk(ids, offset, limit) == if n == 0 then [] else ids[offset..offset + n] + Walk(ids, offset + n, limit)
  {
    PageAdvances(ids, offset, limit);
    PageIs(ids, offset, limit);
  }

  lemma SliceJoin(ids: seq<Address>, offset: nat, n: nat)
    requires offset + n <= |ids|
    ensures ids[offset..] == ids[offset..offset + n] + ids[offset + n..]
  {
  }

  lemma {:induction false} WalkIsList(ids: seq<Address>, offset: nat, limit: nat)
    requires |ids| <= HOST_VEC_LIMIT && offset <= |ids| && limit >= 1
    ensures Walk(ids, offset, limit) == ids[offset..]
    decreases |ids| - offset
  {
    var n := Min(Min(limit, MAX_IDENTITIES_PAGE_SIZE), |ids| - offset);
    WalkStep(ids, offset, limit, n);
    if n > 0 {
      WalkIsList(ids, offset + n, limit);
      SliceJoin(ids, offset, n);
    }
  }

  // ----- Paging while the registry changes -----

  /** A reader asks for a page of some size; before the next page anyone may call anything. */
  datatype Round = Round(limit: nat, between: seq<Call>)

  /** What was read, whether the reader met the end, and the list its last page came from. */
  datatype Reading = Reading(read: seq<Address>, done: bool, last: seq<Address>)

  function InterleavedWalk(s: State, offset: nat, rounds: seq<Round>): Reading
    decreases |rounds|
  {
    if rounds == [] || |s.identities| > HOST_VEC_LIMIT then Reading([], false, s.identities)
    else
      var page := Page(s.identities, offset, rounds[0].limit);
      if page == [] then Reading([], true, s.identities)
      else
        var rest := InterleavedWalk(Run(s, rounds[0].between), offset + |page|, rounds[1..]);
        rest.(read := page + rest.read)
  }

  /** The calls between two pages remove nobody on `read`, the part of the list already read. */
  predicate Spares(read: seq<Address>, calls: seq<Call>) {
    forall i :: 0 <= i < |calls| && calls[i].CallRemove? ==> calls[i].identity !in read
  }

  /** Every page asked for has a place, and what is removed between pages is yet unread. */
  predicate SparesRead(s: State, offset: nat, rounds: seq<Round>)
    decreases |rounds|
  {
    rounds == [] || |s.identities| > HOST_VEC_LIMIT ||
    var page := Page(s.identities, offset, rounds[0].limit);
    var next := offset + |page|;
    && rounds[0].limit >= 1
    && (next <= |s.identities| && page != [] ==>
          && Spares(s.identities[..next], rounds[0].between)
          && SparesRead(Run(s, rounds[0].between), next, rounds[1..]))
  }

  lemma StepSpares(s: State, c: Call, read: seq<Address>)
    requires Inv(s) && read <= s.identities && (c.CallRemove? ==> c.identity !in read)
    ensures Inv(StateAfter(s, Step(s, c))) && read <= StateAfter(s, Step(s, c)).identities
  {
    StepKeepsInv(s, c);
    if c.CallRemove? && Step(s, c).Ok? {
      var rest := s.identities[|read|..];
      assert s.identities == read + rest;
      RemoveFirstIsWithout(s.identities, c.identity);
      WithoutConcat(read, rest, c.identity);
      WithoutAbsent(read, c.identity);
    } else if c.CallInitialize? && s.identities != [] {
      assert s.identities[0] in s.identities;
    }
  }

  lemma {:induction false} ReadStays(s: State, calls: seq<Call>, read: seq<Address>)
    requires Inv(s) && read <= s.identities && Spares(read, calls)
    ensures Inv(Run(s, calls)) && read <= Run(s, calls).identities
  {
    if calls != [] {
      ReadStays(s, calls[..|calls| - 1], read);
      StepSpares(Run(s, calls[..|calls| - 1]), calls[|calls| - 1], read);
    }
  }

  /** A reading of what follows `read` on a list that goes on beginning with it. */
  predicate ReadsOn(read: seq<Address>, w: Reading) {
    read <= w.last && (w.done ==> w.read == w.last[|read|..])
  }

  lemma JoinReads(read: seq<Address>, page: seq<Address>, rest: Reading)
    requires ReadsOn(read + page, rest)
    ensures ReadsOn(read, rest.(read := page + rest.read))
  {
    assert (read + page)[..|read|] == read;
    if rest.done {
      assert rest.last == (read + page) + rest.last[|read + page|..];
    }
  }

  lemma WalkUnfolds(s: State, offset: nat, rounds: seq<Round>)
    requires rounds != [] && |s.identities| <= HOST_VEC_LIMIT && Page(s.identities, offset, rounds[0].limit) != []
    ensures var page := Page(s.identities, offset, rounds[0].limit);
      var rest := InterleavedWalk(Run(s, rounds[0].between), offset + |page|, rounds[1..]);
      InterleavedWalk(s, offset, rounds) == rest.(read := page + rest.read)
  {
  }

  lemma WalkStops(s: State, offset: nat, rounds: seq<Round>)
    requires offset <= |s.identities| <= HOST_VEC_LIMIT && SparesRead(s, offset, rounds)
    requires rounds == [] || Page(s.identities, offset, rounds[0].limit) == []
    ensures ReadsOn(s.identities[..offset], InterleavedWalk(s, offset, rounds))
  {
    if rounds != [] { PageAdvances(s.identities, offset, rounds[0].limit); }
  }

  lemma {:induction false} WalkReadsOn(s: State, offset: nat, rounds: seq<Round>)
    requires Inv(s) && offset <= |s.identities| && SparesRead(s, offset, rounds)
    ensures ReadsOn(s.identities[..offset], InterleavedWalk(s, offset, rounds))
    decreases |rounds|
  {
    if rounds == [] || Page(s.identities, offset, rounds[0].limit) == [] {
      WalkStops(s, offset, rounds);
    } else {
      var page := Page(s.identities, offset, rounds[0].limit);
      var next := offset + |page|;
      var t := Run(s, rounds[0].between);
      PageAdvances(s.identities, offset, rounds[0].limit);
      ReadStays(s, rounds[0].between, s.identities[..next]);
      WalkReadsOn(t, next, rounds[1..]);
      assert t.identities[..next] == s.identities[..next] == s.identities[..offset] + page;
      JoinReads(s.identities[..offset], page, InterleavedWalk(t, next, rounds[1..]));
      WalkUnfolds(s, offset, rounds);
    }
  }

  lemma {:induction false} WalkEndsReachable(s: State, offset: nat, rounds: seq<Round>)
    requires Inv(s)
    ensures NoDup(InterleavedWalk(s, offset, rounds).last)
    decreases |rounds|
  {
    if rounds != [] && Page(s.identities, offset, rounds[0].limit) != [] {
      RunKeepsInv(s, rounds[0].between);
      WalkUnfolds(s, offset, rounds);
      WalkEndsReachable(Run(s, rounds[0].between), offset + |Page(s.identities, offset, rounds[0].limit)|, rounds[1..]);
    }
  }

  /** As long as what is removed between the pages is yet unread, the interleaved walk reads the
      list as it is when the walk ends: no gap and no duplicate, whatever else is called. */
  lemma InterleavedWalkIsList(s: State, offset: nat, rounds: seq<Round>)
    requires Reachable(s) && offset <= |s.identities| && SparesRead(s, offset, rounds)
    ensures var w := InterleavedWalk(s, offset, rounds);
      s.identities[..offset] <= w.last && (w.done ==> w.read == w.last[offset..] && NoDup(w.read))
  {
    ReachableInv(s);
    WalkReadsOn(s, offset, rounds);
    WalkEndsReachable(s, offset, rounds);
  }

  // ----- Exactly when a page gap hides or repeats an identity -----

  lemma RunOne(s: State, c: Call)
    ensures Run(s, [c]) == StateAfter(s, Step(s, c))
  {
    assert [c][..0] == [] && Run(s, []) == s;
  }

  /** `a` is registered in `t` by one of the first `from` registrations: if `from` is the number of
      registrations up to some earlier state, it was registered then and was not removed since. */
  predicate Stands(from: nat, t: State, a: Address) {
    a in t.entries && LastRegistered(t.order, a) <= from
  }

  function AllStanding(from: nat, t: State): set<Address> {
    set a | a in t.entries && Stands(from, t, a)
  }

  function Standing(ids: seq<Address>, from: nat, t: State): seq<Address> {
    Kept(ids, AllStanding(from, t))
  }

  lemma StandingIs(ids: seq<Address>, from: nat, t: State)
    ensures forall a :: a in Standing(ids, from, t) <==> a in ids && Stands(from, t, a)
    ensures |Standing(ids, from, t)| <= |ids|
    ensures |Standing(ids, from, t)| == |ids| <==> forall a :: a in ids ==> Stands(from, t, a)
    ensures (forall a :: a in ids ==> Stands(from, t, a)) ==> Standing(ids, from, t) == ids
  {
    assert forall a :: a in AllStanding(from, t) <==> Stands(from, t, a);
    KeptIs(ids, AllStanding(from, t));
  }

  lemma StandingSame(ids: seq<Address>, from: nat, t: State, u: State)
    requires forall a :: Stands(from, t, a) == Stands(from, u, a)
    ensures Standing(ids, from, t) == Standing(ids, from, u)
  {
    assert AllStanding(from, t) == AllStanding(from, u);
  }

  lemma StandingRemoved(ids: seq<Address>, from: nat, t: State, u: State, x: Address)
    requires forall a :: Stands(from, u, a) <==> Stands(from, t, a) && a != x
    ensures Standing(ids, from, u) == Without(Standing(ids, from, t), x)
  {
    assert AllStanding(from, u) == AllStanding(from, t) - {x};
    KeptWithout(ids, AllStanding(from, t), x);
  }

  /** Who of `ids` still stands comes first in the list, in the old order; nobody behind does. */
  ghost predicate OldFirst(ids: seq<Address>, from: nat, t: State) {
    && from <= |t.order|
    && Standing(ids, from, t) <= t.identities
    && forall i :: |Standing(ids, from, t)| <= i < |t.identities| ==> !Stands(from, t, t.identities[i])
  }

  lemma BindKeepsOldFirst(ids: seq<Address>, from: nat, t: State, a: Address, b: Address)
    requires Inv(t) && OldFirst(ids, from, t) && BindError(t, a, b).None?
    ensures OldFirst(ids, from, Bind(t, a, b))
  {
    var u := Bind(t, a, b);
    assert u.order[..|t.order|] == t.order;
    StandingSame(ids, from, t, u);
  }

  /** Behind the first `k` identities nobody stands, before and after `a` is left out. */
  lemma RestStaysNew(rest: seq<Address>, from: nat, t: State, u: State, a: Address)
    requires NoDup(rest) && forall x :: x in rest ==> !Stands(from, t, x)
    requires forall x :: Stands(from, u, x) <==> Stands(from, t, x) && x != a
    ensures forall x :: x in Without(rest, a) ==> !Stands(from, u, x)
  {
    WithoutList(rest, a);
  }

  lemma UnlistSplit(ids: seq<Address>, k: seq<Address>, a: Address)
    requires NoDup(ids) && k <= ids
    ensures RemoveFirst(ids, a) == Without(k, a) + Without(ids[|k|..], a)
  {
    assert ids == k + ids[|k|..];
    RemoveFirstIsWithout(ids, a);
    WithoutConcat(k, ids[|k|..], a);
  }

  lemma RemoveKeepsOldFirst(ids: seq<Address>, from: nat, t: State, a: Address)
    requires Inv(t) && OldFirst(ids, from, t) && a in t.entries
    ensures OldFirst(ids, from, Unbound(t, a))
  {
    var u, k := Unbound(t, a), Standing(ids, from, t);
    var rest := t.identities[|k|..];
    UnlistSplit(t.identities, k, a);
    StandingRemoved(ids, from, t, u, a);
    RestStaysNew(rest, from, t, u, a);
    forall i | |Standing(ids, from, u)| <= i < |u.identities| ensures !Stands(from, u, u.identities[i]) {
      assert u.identities[i] in Without(rest, a);
    }
  }

  lemma SameKeepsOldFirst(ids: seq<Address>, from: nat, t: State, u: State)
    requires OldFirst(ids, from, t) && u.identities == t.identities && u.order == t.order
    requires u.entries.Keys == t.entries.Keys
    ensures OldFirst(ids, from, u)
  {
    StandingSame(ids, from, t, u);
  }

  lemma OtherCallsKeepList(t: State, c: Call)
    requires Inv(t) && (c.CallTick? || c.CallSetPaused? || c.CallPinHash? || c.CallInitialize? || c.CallSetActive?)
    ensures var u := StateAfter(t, Step(t, c));
      u.identities == t.identities && u.order == t.order && u.entries.Keys == t.entries.Keys
  {
    assert t.identities != [] ==> t.identities[0] in t.identities;
  }

  lemma RegisterKeepsOldFirst(ids: seq<Address>, from: nat, t: State, c: Call)
    requires Inv(t) && OldFirst(ids, from, t) && c.CallRegister?
    ensures OldFirst(ids, from, StateAfter(t, Step(t, c)))
  {
    if Step(t, c).Ok? {
      BindKeepsOldFirst(ids, from, t, c.identity, c.bond);
      SameKeepsOldFirst(ids, from, Bind(t, c.identity, c.bond), StateAfter(t, Step(t, c)));
    }
  }

  lemma TrustlessKeepsOldFirst(ids: seq<Address>, from: nat, t: State, c: Call)
    requires Inv(t) && OldFirst(ids, from, t) && c.CallTrustless?
    ensures OldFirst(ids, from, StateAfter(t, Step(t, c)))
  {
    if BindError(t, c.identity, c.caller).None? { BindKeepsOldFirst(ids, from, t, c.identity, c.caller); }
  }

  lemma StepKeepsOldFirst(ids: seq<Address>, from: nat, t: State, c: Call)
    requires Inv(t) && OldFirst(ids, from, t)
    ensures OldFirst(ids, from, StateAfter(t, Step(t, c)))
  {
    if c.CallRemove? {
      if Step(t, c).Ok? { RemoveKeepsOldFirst(ids, from, t, c.identity); }
    } else if c.CallRegister? {
      RegisterKeepsOldFirst(ids, from, t, c);
    } else if c.CallTrustless? {
      TrustlessKeepsOldFirst(ids, from, t, c);
    } else {
      OtherCallsKeepList(t, c);
      SameKeepsOldFirst(ids, from, t, StateAfter(t, Step(t, c)));
    }
  }

  /** After any calls: the identities that stand come first, in their old order; behind them are
      those registered since. */
  lemma {:induction false} OldComeFirst(s: State, calls: seq<Call>)
    requires Inv(s)
    ensures Inv(Run(s, calls)) && OldFirst(s.identities, |s.order|, Run(s, calls))
  {
    RunKeepsInv(s, calls);
    if calls == [] {
      forall a ensures LastRegistered(s.order, a) <= |s.order| {
        LastBounded(s.order, a);
      }
      StandingIs(s.identities, |s.order|, s);
    } else {
      var front := calls[..|calls| - 1];
      OldComeFirst(s, front);
      StepKeepsOldFirst(s.identities, |s.order|, Run(s, front), calls[|calls| - 1]);
    }
  }

  /** A reader that goes on at `offset` meets everybody who is yet unread and stands. */
  predicate MeetsAll(ids: seq<Address>, from: nat, t: State, offset: nat)
    requires offset <= |ids|
  {
    forall a :: a in ids[offset..] && Stands(from, t, a) ==> offset <= |t.identities| && a in t.identities[offset..]
  }

  /** The standing among the read and among the unread, in the list of `t`. */
  lemma StandingSplit(s: State, calls: seq<Call>, offset: nat)
    requires Inv(s) && offset <= |s.identities|
    ensures var t, from := Run(s, calls), |s.order|;
      NoDup(t.identities)
      && Standing(s.identities[..offset], from, t) + Standing(s.identities[offset..], from, t) <= t.identities
  {
    OldComeFirst(s, calls);
    assert s.identities == s.identities[..offset] + s.identities[offset..];
    KeptConcat(s.identities[..offset], s.identities[offset..], AllStanding(|s.order|, Run(s, calls)));
  }

  lemma MeetsStanding(ids: seq<Address>, from: nat, t: State, offset: nat)
    requires offset <= |ids|
    ensures MeetsAll(ids, from, t, offset) <==>
      forall a :: a in Standing(ids[offset..], from, t) ==> offset <= |t.identities| && a in t.identities[offset..]
    ensures Standing(ids[offset..], from, t) == [] <==> forall a :: a in ids[offset..] ==> !Stands(from, t, a)
  {
    var y := Standing(ids[offset..], from, t);
    StandingIs(ids[offset..], from, t);
    if y != [] { assert y[0] in y; }
  }

  /** The reader has read up to `offset` and will go on there. Of those still unread and standing,
      exactly as many are out of its sight as were removed among the read: it misses none if and
      only if every identity it read still stands, or no unread one does. */
  lemma GapIff(s: State, calls: seq<Call>, offset: nat)
    requires Reachable(s) && offset <= |s.identities|
    ensures var t := Run(s, calls);
      MeetsAll(s.identities, |s.order|, t, offset) <==>
           (forall a :: a in s.identities[..offset] ==> Stands(|s.order|, t, a))
           || (forall a :: a in s.identities[offset..] ==> !Stands(|s.order|, t, a))
  {
    var t, from := Run(s, calls), |s.order|;
    ReachableInv(s);
    StandingSplit(s, calls, offset);
    StandingIs(s.identities[..offset], from, t);
    MeetsStanding(s.identities, from, t, offset);
    SeenBehind(t.identities, Standing(s.identities[..offset], from, t),
               Standing(s.identities[offset..], from, t), offset);
  }

  lemma StandsAfterRemoval(s: State, k: nat, auth: set<Address>)
    requires Reachable(s) && k < |s.identities| && Remove(s, s.identities[k], auth).Ok?
    ensures var t := Remove(s, s.identities[k], auth).value;
      forall a :: Stands(|s.order|, t, a) <==> a in s.identities && a != s.identities[k]
  {
    var t := Remove(s, s.identities[k], auth).value;
    ReachableInv(s);
    forall a ensures Stands(|s.order|, t, a) <==> a in s.identities && a != s.identities[k] {
      LastBounded(s.order, a);
    }
  }

  lemma AllButOne(ids: seq<Address>, from: nat, t: State, k: nat, offset: nat)
    requires NoDup(ids) && k < |ids| && offset <= |ids|
    requires forall a :: Stands(from, t, a) <==> a in ids && a != ids[k]
    ensures (forall a :: a in ids[..offset] ==> Stands(from, t, a)) <==> k >= offset
    ensures (forall a :: a in ids[offset..] ==> !Stands(from, t, a)) ==> k >= offset || offset == |ids|
    ensures offset == |ids| ==> forall a :: a in ids[offset..] ==> !Stands(from, t, a)
  {
    if k < offset {
      var gone := ids[k];
      assert ids[..offset][k] == gone;
      assert gone in ids[..offset] && !Stands(from, t, gone);
      if offset < |ids| {
        var next := ids[offset];
        assert ids[offset..][0] == next;
        assert next in ids[offset..] && next in ids && next != gone && Stands(from, t, next);
      }
    }
  }

  /** A reader that goes on at `offset` of `later` meets everybody unread but identity `k`. */
  predicate MeetsOthers(ids: seq<Address>, later: seq<Address>, k: nat, offset: nat)
    requires k < |ids| && offset <= |ids|
  {
    forall a :: a in ids[offset..] && a != ids[k] ==> offset <= |later| && a in later[offset..]
  }

  lemma UnreadOthers(ids: seq<Address>, from: nat, t: State, k: nat, offset: nat)
    requires k < |ids| && offset <= |ids|
    requires forall a :: Stands(from, t, a) <==> a in ids && a != ids[k]
    ensures MeetsAll(ids, from, t, offset) <==> MeetsOthers(ids, t.identities, k, offset)
  {
    forall a | a in ids[offset..] ensures Stands(from, t, a) <==> a != ids[k] {
      assert a in ids;
    }
  }

  /** A page gap with one removal in it. */
  lemma RemovalGap(s: State, k: nat, offset: nat, auth: set<Address>, t: State)
    requires Reachable(s) && k < |s.identities| && offset <= |s.identities|
    requires Remove(s, s.identities[k], auth) == Ok(t)
    ensures MeetsAll(s.identities, |s.order|, t, offset) <==>
           (forall a :: a in s.identities[..offset] ==> Stands(|s.order|, t, a))
           || (forall a :: a in s.identities[offset..] ==> !Stands(|s.order|, t, a))
  {
    RunOne(s, CallRemove(s.identities[k], auth));
    GapIff(s, [CallRemove(s.identities[k], auth)], offset);
  }

  /** One removal: the reader still meets every unread identity but the removed one exactly when
      the removed one was unread as well, or nothing is unread. */
  lemma RemovalHidesIff(s: State, k: nat, offset: nat, auth: set<Address>)
    requires Reachable(s) && k < |s.identities| && offset <= |s.identities| && Remove(s, s.identities[k], auth).Ok?
    ensures MeetsOthers(s.identities, Remove(s, s.identities[k], auth).value.identities, k, offset)
      <==> k >= offset || offset == |s.identities|
  {
    var t := Remove(s, s.identities[k], auth).value;
    ListIsRegistrationOrder(s);
    RemovalGap(s, k, offset, auth, t);
    StandsAfterRemoval(s, k, auth);
    AllButOne(s.identities, |s.order|, t, k, offset);
    UnreadOthers(s.identities, |s.order|, t, k, offset);
  }

  /** Everybody registered in `t` before `a` was, the last time each. */
  function Ahead(t: State, a: Address): set<Address> {
    set x | x in t.entries && LastRegistered(t.order, x) < LastRegistered(t.order, a)
  }

  lemma AheadIsIndex(t: State, i: nat)
    requires Inv(t) && i < |t.identities|
    ensures |Ahead(t, t.identities[i])| == i
  {
    var a, before := t.identities[i], t.identities[..i];
    forall x | x in Ahead(t, a) ensures x in before {
      var j :| 0 <= j < |t.identities| && t.identities[j] == x;
      assert j < i;
      assert before[j] == x;
    }
    NoDupSize(before, Ahead(t, a));
  }

  lemma BehindIffIndex(ids: seq<Address>, i: nat, offset: nat)
    requires NoDup(ids) && i < |ids|
    ensures offset <= |ids| && ids[i] in ids[offset..] <==> i >= offset
  {
    if i >= offset { assert ids[offset..][i - offset] == ids[i]; }
  }

  /** Who was read and still stands has not moved back. */
  lemma StandsInFront(s: State, calls: seq<Call>, offset: nat, a: Address, i: nat)
    requires Inv(s) && offset <= |s.identities| && a in s.identities[..offset] && Stands(|s.order|, Run(s, calls), a)
    requires i < |Run(s, calls).identities| && Run(s, calls).identities[i] == a
    ensures i < offset
  {
    var t, from := Run(s, calls), |s.order|;
    var x := Standing(s.identities[..offset], from, t);
    StandingSplit(s, calls, offset);
    StandingIs(s.identities[..offset], from, t);
    var j :| 0 <= j < |x| && x[j] == a;
    assert (x + Standing(s.identities[offset..], from, t))[j] == a && t.identities[j] == a;
  }

  /** An identity already read is read a second time exactly when it was registered again after
      being read and at least `offset` of the others, counted when the next page is read, were
      registered before that. */
  lemma RereadIff(s: State, calls: seq<Call>, offset: nat, a: Address)
    requires Reachable(s) && offset <= |s.identities| && a in s.identities[..offset]
    ensures var t := Run(s, calls);
      offset <= |t.identities| && a in t.identities[offset..] <==>
        a in t.entries && !Stands(|s.order|, t, a) && |Ahead(t, a)| >= offset
  {
    var t, from := Run(s, calls), |s.order|;
    ReachableInv(s);
    RunKeepsInv(s, calls);
    if a in t.identities {
      var i :| 0 <= i < |t.identities| && t.identities[i] == a;
      AheadIsIndex(t, i);
      BehindIffIndex(t.identities, i, offset);
      if Stands(from, t, a) { StandsInFront(s, calls, offset, a, i); }
    }
  }

  /** Remove an identity already read and register it again: it is read twice exactly when
      anything is yet unread. */
  lemma RegisteringAgainRepeatsIff(s: State, k: nat, offset: nat, bond: Address, allow: bool, supported: bool,
                                   auth: set<Address>)
    requires Reachable(s) && k < offset <= |s.identities| && Remove(s, s.identities[k], auth).Ok?
    requires Register(Remove(s, s.identities[k], auth).value, s.identities[k], bond, allow, supported, auth).Ok?
    ensures var a := s.identities[k];
      var t := Register(Remove(s, a, auth).value, a, bond, allow, supported, auth).value;
      offset <= |t.identities| && (a in t.identities[offset..] <==> offset < |s.identities|)
  {
    var a := s.identities[k];
    ReachableInv(s);
    RemoveFirstIsWithout(s.identities, a);
    WithoutList(s.identities, a);
    NoDupPush(Without(s.identities, a), a);
    BehindIffIndex(Without(s.identities, a) + [a], |s.identities| - 1, offset);
  }

  // ----- A run that does both -----

  /** Pages of one identity with nothing called in between. */
  function Quiet(n: nat): seq<Round> {
    if n == 0 then [] else [Round(1, [])] + Quiet(n - 1)
  }

  /** A walk that begins with a page of one identity. */
  lemma OneThenRest(s: State, offset: nat, calls: seq<Call>, tail: seq<Round>)
    requires offset < |s.identities| <= HOST_VEC_LIMIT
    ensures var rest := InterleavedWalk(Run(s, calls), offset + 1, tail);
      InterleavedWalk(s, offset, [Round(1, calls)] + tail) == rest.(read := [s.identities[offset]] + rest.read)
  {
    var rounds := [Round(1, calls)] + tail;
    PageIs(s.identities, offset, 1);
    assert rounds[0] == Round(1, calls) && rounds[1..] == tail;
    assert Page(s.identities, offset, 1) == [s.identities[offset]];
    WalkUnfolds(s, offset, rounds);
  }

  lemma WalkIsOver(s: State, tail: seq<Round>)
    requires |s.identities| <= HOST_VEC_LIMIT
    ensures InterleavedWalk(s, |s.identities|, [Round(1, [])] + tail) == Reading([], true, s.identities)
  {
  }

  lemma {:induction false} QuietWalk(s: State, offset: nat, n: nat)
    requires offset <= |s.identities| <= HOST_VEC_LIMIT && n > |s.identities| - offset
    ensures InterleavedWalk(s, offset, Quiet(n)) == Reading(s.identities[offset..], true, s.identities)
    decreases n
  {
    if offset < |s.identities| {
      assert Run(s, []) == s;
      OneThenRest(s, offset, [], Quiet(n - 1));
      QuietWalk(s, offset + 1, n - 1);
      assert [s.identities[offset]] + s.identities[offset + 1..] == s.identities[offset..];
    } else {
      WalkIsOver(s, Quiet(n - 1));
    }
  }

  /** The admin registers three identities. */
  function ThreeIdentities(admin: Address): seq<Call> {
    [CallInitialize(admin, {admin}), CallRegister(Address(1), Address(4), true, true, {admin}),
     CallRegister(Address(2), Address(5), true, true, {admin}),
     CallRegister(Address(3), Address(6), true, true, {admin})]
  }

  lemma RunNext(s: State, calls: seq<Call>, c: Call)
    ensures Run(s, calls + [c]) == StateAfter(Run(s, calls), Step(Run(s, calls), c))
  {
    assert (calls + [c])[..|calls|] == calls;
  }

  /** The admin can register; these identities are listed and these bonds taken. */
  ghost predicate Holds(s: State, admin: Address, ids: seq<Address>, bonds: set<Address>) {
    Inv(s) && s.admin == Some(admin) && !s.paused && s.identities == ids && s.owners.Keys <= bonds
  }

  lemma RegistersNext(s: State, admin: Address, ids: seq<Address>, bonds: set<Address>, a: Address, b: Address)
    requires Holds(s, admin, ids, bonds) && a !in ids && b !in bonds && |ids| < HOST_VEC_LIMIT
    ensures Holds(StateAfter(s, Step(s, CallRegister(a, b, true, true, {admin}))), admin, ids + [a], bonds + {b})
  {
    var c := CallRegister(a, b, true, true, {admin});
    StepKeepsInv(s, c);
    assert BindError(s, a, b).None?;
    assert StateAfter(s, Step(s, c)) == Opted(Bind(s, a, b), b, true);
  }

  lemma RemovesFirst(s: State, admin: Address, ids: seq<Address>, bonds: set<Address>)
    requires Holds(s, admin, ids, bonds) && ids != []
    ensures Holds(StateAfter(s, Step(s, CallRemove(ids[0], {admin}))), admin, ids[1..], bonds)
  {
    StepKeepsInv(s, CallRemove(ids[0], {admin}));
    assert ids[0] in s.identities;
  }

  lemma OneRegistered(admin: Address)
    ensures Holds(Run(Initial, ThreeIdentities(admin)[..2]), admin, [Address(1)], {Address(4)})
  {
    var c := ThreeIdentities(admin);
    RunOne(Initial, c[0]);
    RunNext(Initial, [c[0]], c[1]);
    RegistersNext(Run(Initial, [c[0]]), admin, [], {}, Address(1), Address(4));
    assert [c[0]] + [c[1]] == c[..2];
    assert [] + [Address(1)] == [Address(1)] && {} + {Address(4)} == {Address(4)};
  }

  lemma TwoRegistered(admin: Address)
    ensures Holds(Run(Initial, ThreeIdentities(admin)[..3]), admin, [Address(1), Address(2)], {Address(4), Address(5)})
  {
    var c := ThreeIdentities(admin);
    OneRegistered(admin);
    RunNext(Initial, c[..2], c[2]);
    RegistersNext(Run(Initial, c[..2]), admin, [Address(1)], {Address(4)}, Address(2), Address(5));
    assert c[..2] + [c[2]] == c[..3];
    assert [Address(1)] + [Address(2)] == [Address(1), Address(2)];
    assert {Address(4)} + {Address(5)} == {Address(4), Address(5)};
  }

  lemma ThreeRegistered(admin: Address)
    ensures var s := Run(Initial, ThreeIdentities(admin));
      Reachable(s) && Holds(s, admin, [Address(1), Address(2), Address(3)], {Address(4), Address(5), Address(6)})
  {
    var c, ids, bonds := ThreeIdentities(admin), [Address(1), Address(2)], {Address(4), Address(5)};
    TwoRegistered(admin);
    RunNext(Initial, c[..3], c[3]);
    RegistersNext(Run(Initial, c[..3]), admin, ids, bonds, Address(3), Address(6));
    assert c[..3] + [c[3]] == c;
    assert ids + [Address(3)] == [Address(1), Address(2), Address(3)];
    assert bonds + {Address(6)} == {Address(4), Address(5), Address(6)};
  }

  lemma RegistersAgain(s: State, admin: Address)
    requires Holds(s, admin, [Address(1), Address(2), Address(3)], {Address(4), Address(5), Address(6)})
    ensures var calls := [CallRemove(Address(1), {admin}), CallRegister(Address(1), Address(7), true, true, {admin})];
      Run(s, calls).identities == [Address(2), Address(3), Address(1)]
  {
    var c1, c2 := CallRemove(Address(1), {admin}), CallRegister(Address(1), Address(7), true, true, {admin});
    var ids, bonds := [Address(1), Address(2), Address(3)], {Address(4), Address(5), Address(6)};
    RunOne(s, c1);
    RemovesFirst(s, admin, ids, bonds);
    assert ids[1..] == [Address(2), Address(3)];
    RunNext(s, [c1], c2);
    RegistersNext(Run(s, [c1]), admin, ids[1..], bonds, Address(1), Address(7));
    assert [c1] + [c2] == [c1, c2];
  }

  lemma OnePageThenQuiet(s: State, calls: seq<Call>, n: nat)
    requires 1 <= |s.identities| <= HOST_VEC_LIMIT && 1 <= |Run(s, calls).identities| <= HOST_VEC_LIMIT
    requires n >= |Run(s, calls).identities|
    ensures var t := Run(s, calls);
      InterleavedWalk(s, 0, [Round(1, calls)] + Quiet(n))
        == Reading([s.identities[0]] + t.identities[1..], true, t.identities)
  {
    OneThenRest(s, 0, calls, Quiet(n));
    QuietWalk(Run(s, calls), 1, n);
  }

  /** One page is read, its identity removed and registered again, and the other pages are read:
      the second identity, registered throughout, is missing, and the first comes twice. */
  lemma PagingMissesAndRepeats(admin: Address)
    ensures var s := Run(Initial, ThreeIdentities(admin));
      var calls := [CallRemove(Address(1), {admin}), CallRegister(Address(1), Address(7), true, true, {admin})];
      && Reachable(s)
      && InterleavedWalk(s, 0, [Round(1, calls)] + Quiet(3))
           == Reading([Address(1), Address(3), Address(1)], true, [Address(2), Address(3), Address(1)])
  {
    var s := Run(Initial, ThreeIdentities(admin));
    var calls := [CallRemove(Address(1), {admin}), CallRegister(Address(1), Address(7), true, true, {admin})];
    ThreeRegistered(admin);
    RegistersAgain(s, admin);
    OnePageThenQuiet(s, calls, 3);
  }

  /** Pages read at offsets that are multiples of the limit. */
  function Stride(ids: seq<Address>, offset: nat, limit: nat): seq<Address>
    requires |ids| <= HOST_VEC_LIMIT && limit >= 1
    decreases |ids| - offset
  {
    if offset >= |ids| then [] else Page(ids, offset, limit) + Stride(ids, offset + limit, limit)
  }

  lemma {:induction false} StrideIsShort(ids: seq<Address>, offset: nat, limit: nat)
    requires |ids| <= HOST_VEC_LIMIT && limit >= 1
    ensures |Stride(ids, offset, limit)| <= Max(|ids| - offset, 0)
    decreases |ids| - offset
  {
    if offset < |ids| {
      PageIs(ids, offset, limit);
      StrideIsShort(ids, offset + limit, limit);
    }
  }

  lemma StrideStep(ids: seq<Address>, offset: nat, limit: nat, end: nat)
    requires |ids| <= HOST_VEC_LIMIT && offset < |ids| && limit >= 1
    requires end == Min(offset + Min(limit, MAX_IDENTITIES_PAGE_SIZE), |ids|)
    ensures Stride(ids, offset, limit) == ids[offset..end] + Stride(ids, offset + limit, limit)
  {
    PageIs(ids, offset, limit);
  }

  lemma {:induction false} StrideIsList(ids: seq<Address>, offset: nat, limit: nat)
    requires |ids| <= HOST_VEC_LIMIT && offset <= |ids| && 1 <= limit <= MAX_IDENTITIES_PAGE_SIZE
    ensures Stride(ids, offset, limit) == ids[offset..]
    decreases |ids| - offset
  {
    if offset < |ids| {
      var end := Min(offset + limit, |ids|);
      StrideStep(ids, offset, limit, end);
      if end < |ids| {
        StrideIsList(ids, offset + limit, limit);
        SliceJoin(ids, offset, limit);
      }
    }
  }

  lemma StrideWithLargeLimit(ids: seq<Address>, offset: nat, limit: nat)
    requires |ids| <= HOST_VEC_LIMIT && offset < |ids| && limit > MAX_IDENTITIES_PAGE_SIZE
    ensures Stride(ids, offset, limit) == ids[offset..] <==> |ids| - offset <= MAX_IDENTITIES_PAGE_SIZE
  {
    PageIs(ids, offset, limit);
    StrideIsShort(ids, offset + limit, limit);
    if |ids| - offset <= MAX_IDENTITIES_PAGE_SIZE {
      assert Page(ids, offset, limit) == ids[offset..];
      assert Stride(ids, offset + limit, limit) == [];
    } else {
      assert |Stride(ids, offset, limit)| < |ids[offset..]|;
    }
  }

  /** A reader that advances by its own limit sees every identity exactly when the limit respects
      the page cap or one page holds everything that is left. */
  lemma StrideIsListIff(ids: seq<Address>, offset: nat, limit: nat)
    requires |ids| <= HOST_VEC_LIMIT && offset <= |ids| && limit >= 1
    ensures Stride(ids, offset, limit) == ids[offset..] <==>
      limit <= MAX_IDENTITIES_PAGE_SIZE || |ids| - offset <= MAX_IDENTITIES_PAGE_SIZE
  {
    if limit <= MAX_IDENTITIES_PAGE_SIZE {
      StrideIsList(ids, offset, limit);
    } else if offset < |ids| {
      StrideWithLargeLimit(ids, offset, limit);
    }
  }

  // ----- Removing undoes registering -----

  lemma {:induction false} RemoveLast(list: seq<Address>, a: Address)
    requires a !in list
    ensures RemoveFirst(list + [a], a) == list
  {
    if list != [] {
      assert (list + [a])[1..] == list[1..] + [a];
      RemoveLast(list[1..], a);
    }
  }

  lemma MapUndone<V>(m: map<Address, V>, k: Address, v: V)
    requires k !in m
    ensures m[k := v] - {k} == m
  {
  }

  lemma BindUndone(s: State, identity: Address, bond: Address)
    requires Inv(s) && BindError(s, identity, bond).None?
    ensures var t := Bind(s, identity, bond);
      && t.identities == s.identities + [identity]
      && t.entries - {identity} == s.entries && t.owners - {bond} == s.owners
      && RemoveFirst(t.identities, identity) == s.identities
  {
    RemoveLast(s.identities, identity);
    MapUndone(s.entries, identity, Entry(identity, bond, s.now, true));
    MapUndone(s.owners, bond, identity);
  }

  /** Registering an identity and removing it again leaves both maps and the list as they were,
      so that identity and bond can be registered anew. */
  lemma RemoveUndoesRegister(s: State, identity: Address, bond: Address, allow: bool, supported: bool,
                             auth: set<Address>)
    requires Reachable(s) && Register(s, identity, bond, allow, supported, auth).Ok?
    ensures var t := Register(s, identity, bond, allow, supported, auth).value;
      && t.entries[identity].bond == bond && t.owners[bond] == identity && t.identities == s.identities + [identity]
      && Remove(t, identity, auth).Ok?
      && Remove(t, identity, auth).value == t.(entries := s.entries, owners := s.owners, identities := s.identities)
  {
    ReachableInv(s);
    BindUndone(s, identity, bond);
  }
}
