/** The claims entry points as the contract runs them: storage maps reassigned in place, and
    loops over the pending list. */
module ClaimsContract {
  import opened Host
  import opened Claims
  import opened ClaimsTheorems

  /** Once the batch is full the rest of the list stays. */
  lemma PaysNoMore(cs: seq<Claim>, i: nat, kinds: set<ClaimType>, limit: nat, now: nat)
    requires i <= |cs| && |PaySplit(cs[..i], kinds, limit, now).paid| >= limit
    ensures var r := PaySplit(cs[..i], kinds, limit, now);
      PaySplit(cs, kinds, limit, now) == r.(kept := r.kept + cs[i..])
  {
    PaySplitConcat(cs[..i], cs[i..], kinds, limit, now);
    assert cs == cs[..i] + cs[i..];
  }

  /** One more claim, while the batch is not full. */
  lemma PaysNext(cs: seq<Claim>, i: nat, kinds: set<ClaimType>, limit: nat, now: nat)
    requires i < |cs| && |PaySplit(cs[..i], kinds, limit, now).paid| < limit
    ensures var r, c := PaySplit(cs[..i], kinds, limit, now), cs[i];
      PaySplit(cs[..i + 1], kinds, limit, now) ==
        if c.processed then r.(kept := r.kept + [c])
        else if IsExpired(c, now) then r.(dropped := r.dropped + [c])
        else if kinds != {} && c.kind !in kinds then r.(kept := r.kept + [c])
        else r.(paid := r.paid + [c])
  {
    var r, c := PaySplit(cs[..i], kinds, limit, now), cs[i];
    assert cs[..i + 1] == cs[..i] + [c] && [c][1..] == [];
    PaySplitConcat(cs[..i], [c], kinds, limit, now);
    var one := PaySplit([c], kinds, limit - |r.paid|, now);
    assert one == if c.processed then Split([], [c], [])
                  else if IsExpired(c, now) then Split([], [], [c])
                  else if kinds != {} && c.kind !in kinds then Split([], [c], [])
                  else Split([c], [], []);
  }

  /** A partial sum over what a pass took from a prefix, with the next claim, stays in range. */
  lemma SumNext(cs: seq<Claim>, i: nat, r: Split, part: seq<Claim>)
    requires i < |cs| && IsSplit(cs[..i], r) && (part == r.paid || part == r.dropped)
    requires (forall c :: c in cs ==> c.amount > 0) && Sum(cs) <= I128_MAX
    ensures 0 <= Sum(part) && Sum(part + [cs[i]]) == Sum(part) + cs[i].amount <= I128_MAX
  {
    var c := cs[i];
    assert [c][1..] == [] && cs == cs[..i] + ([c] + cs[i + 1..]);
    SumConcat(part, [c]);
    SumConcat(cs[..i], [c] + cs[i + 1..]);
    SumConcat([c], cs[i + 1..]);
    SumNonNegative(r.paid);
    SumNonNegative(r.kept);
    SumNonNegative(r.dropped);
    SumNonNegative(cs[i + 1..]);
  }

  /** The payment loop. It pays into local copies: the host commits them only if the call
      succeeds. No addition overflows. */
  method PayPass(claims: seq<Claim>, typeSet: set<ClaimType>, limit: nat, now: nat, byId: map<nat, Claim>)
    returns (paid: seq<Claim>, remaining: seq<Claim>, dropped: seq<Claim>,
             paidById: map<nat, Claim>, total: int, kinds: seq<ClaimType>)
    requires (forall c :: c in claims ==> c.amount > 0) && Sum(claims) <= I128_MAX
    ensures PaySplit(claims, typeSet, limit, now) == Split(paid, remaining, dropped)
    ensures paidById == MarkPaid(byId, paid) && total == Sum(paid) && kinds == KindsOf(paid)
  {
    paid, remaining, dropped, paidById, total, kinds := [], [], [], byId, 0, [];
    assert claims[..0] == [];
    var i := 0;
    while i < |claims|
      invariant 0 <= i <= |claims|
      invariant PaySplit(claims[..i], typeSet, limit, now) == Split(paid, remaining, dropped)
      invariant paidById == MarkPaid(byId, paid) && total == Sum(paid) && kinds == KindsOf(paid)
    {
      if |paid| >= limit {
        PaysNoMore(claims, i, typeSet, limit, now);
        remaining := remaining + claims[i..];
        return;
      }
      var c := claims[i];
      PaysNext(claims, i, typeSet, limit, now);
      if c.processed {
        remaining := remaining + [c];
      } else if IsExpired(c, now) {
        dropped := dropped + [c];
      } else if typeSet != {} && c.kind !in typeSet {
        remaining := remaining + [c];
      } else {
        PaySplitIsSplit(claims[..i], typeSet, limit, now);
        SumNext(claims, i, Split(paid, remaining, dropped), paid);
        assert InI128(total + c.amount);  // checked_add succeeds
        paidById := paidById[c.id := c.(processed := true)];
        total := total + c.amount;
        kinds := if c.kind in kinds then kinds else kinds + [c.kind];
        assert (paid + [c])[..|paid|] == paid;
        paid := paid + [c];
      }
      i := i + 1;
    }
    assert claims[..|claims|] == claims;
  }

  /** The full cleanup loop. */
  method CleanupPass(claims: seq<Claim>, now: nat)
    returns (valid: seq<Claim>, dropped: seq<Claim>, expiredAmount: int)
    requires (forall c :: c in claims ==> c.amount > 0) && Sum(claims) <= I128_MAX
    ensures CleanupSplit(claims, now) == Split([], valid, dropped) && expiredAmount == Sum(dropped)
  {
    valid, dropped, expiredAmount := [], [], 0;
    assert claims[..0] == [];
    for i := 0 to |claims|
      invariant CleanupSplit(claims[..i], now) == Split([], valid, dropped)
      invariant expiredAmount == Sum(dropped)
    {
      var c := claims[i];
      assert claims[..i + 1] == claims[..i] + [c] && [c][1..] == [];
      CleanupSplitConcat(claims[..i], [c], now);
      if IsExpired(c, now) {
        CleanupSplitIsSplit(claims[..i], now);
        SumNext(claims, i, Split([], valid, dropped), dropped);
        assert InI128(expiredAmount + c.amount);  // checked_add succeeds
        expiredAmount := expiredAmount + c.amount;
        dropped := dropped + [c];
      } else {
        valid := valid + [c];
      }
    }
    assert claims[..|claims|] == claims;
  }

  /** Past the limit the rest of the list stays. */
  lemma SweepsNoMore(cs: seq<Claim>, i: nat, limit: nat, now: nat)
    requires limit <= i <= |cs|
    ensures var r := SweepSplit(cs[..i], limit, now);
      SweepSplit(cs, limit, now) == r.(kept := r.kept + cs[i..])
  {
    SweepSplitConcat(cs[..i], cs[i..], limit, now);
    assert cs == cs[..i] + cs[i..];
  }

  /** One more claim within the limit. */
  lemma SweepsNext(cs: seq<Claim>, i: nat, limit: nat, now: nat)
    requires i < |cs| && i < limit
    ensures var r, c := SweepSplit(cs[..i], limit, now), cs[i];
      SweepSplit(cs[..i + 1], limit, now) ==
        if c.expiresAt != 0 && !c.processed && now > c.expiresAt then r.(dropped := r.dropped + [c])
        else r.(kept := r.kept + [c])
  {
    var c := cs[i];
    assert cs[..i + 1] == cs[..i] + [c] && [c][1..] == [];
    SweepSplitConcat(cs[..i], [c], limit, now);
  }

  /** The bounded sweep loop: it stops after `limit` claims and keeps the rest unseen. */
  method SweepPass(claims: seq<Claim>, limit: nat, now: nat)
    returns (valid: seq<Claim>, dropped: seq<Claim>, expiredAmount: int)
    requires (forall c :: c in claims ==> c.amount > 0) && Sum(claims) <= I128_MAX
    ensures SweepSplit(claims, limit, now) == Split([], valid, dropped) && expiredAmount == Sum(dropped)
  {
    valid, dropped, expiredAmount := [], [], 0;
    assert claims[..0] == [];
    for i := 0 to |claims|
      invariant SweepSplit(claims[..i], limit, now) == Split([], valid, dropped)
      invariant expiredAmount == Sum(dropped)
    {
      if i >= limit {
        SweepsNoMore(claims, i, limit, now);
        valid := valid + claims[i..];
        return;
      }
      var c := claims[i];
      SweepsNext(claims, i, limit, now);
      if c.expiresAt == 0 || c.processed {
        valid := valid + [c];
      } else if now > c.expiresAt {
        SweepSplitIsSplit(claims[..i], limit, now);
        SumNext(claims, i, Split([], valid, dropped), dropped);
        assert InI128(expiredAmount + c.amount);  // checked_add succeeds
        expiredAmount := expiredAmount + c.amount;
        dropped := dropped + [c];
      } else {
        valid := valid + [c];
      }
    }
    assert claims[..|claims|] == claims;
  }

  lemma {:induction false} AfterConcat(a: seq<Claim>, b: seq<Claim>, cursor: nat)
    ensures After(a + b, cursor) == After(a, cursor) + After(b, cursor)
  {
    if a == [] {
      assert a + b == b;
    } else {
      assert (a + b)[1..] == a[1..] + b;
      AfterConcat(a[1..], b, cursor);
    }
  }

  /** The cursor page loop. */
  method ReadPage(claims: seq<Claim>, startAfter: nat, limit: nat) returns (page: seq<Claim>, next: Option<nat>)
    ensures (page, next) == Page(claims, startAfter, limit)
  {
    var capped := Min(limit, MAX_PAGE_LIMIT);
    page, next := [], None;
    if capped == 0 {
      return;
    }
    assert claims[..0] == [];
    var i := 0;
    while i < |claims|
      invariant 0 <= i <= |claims| && |page| <= capped
      invariant page == After(claims[..i], startAfter)
      invariant next == if page == [] then None else Some(page[|page| - 1].id)
    {
      if claims[i].id > startAfter && |page| >= capped {
        AfterConcat(claims[..i], claims[i..], startAfter);
        assert claims == claims[..i] + claims[i..];
        return;
      }
      AfterConcat(claims[..i], [claims[i]], startAfter);
      assert claims[..i + 1] == claims[..i] + [claims[i]] && [claims[i]][1..] == [];
      if claims[i].id > startAfter {
        next := Some(claims[i].id);
        page := page + [claims[i]];
      }
      i := i + 1;
    }
    assert claims[..|claims|] == claims && page[..|page|] == page;
    if |page| < capped {
      next := None;
    }
  }

  /** The offset page loop. */
  method ReadOffsetPage(all: seq<Claim>, offset: nat, limit: nat) returns (page: seq<Claim>)
    ensures page == OffsetPage(all, offset, limit)
  {
    page := [];
    if offset >= |all| {
      return;
    }
    var effectiveLimit := if limit == 0 then MAX_QUERY_LIMIT else Min(limit, MAX_QUERY_LIMIT);
    var end := Min(offset + effectiveLimit, |all|);
    for i := offset to end
      invariant page == all[offset..i]
    {
      page := page + [all[i]];
    }
  }

  class ClaimsStore {
    var now: nat
    var pending: map<Address, seq<Claim>>
    var claimable: map<Address, int>
    var byId: map<nat, Claim>
    var counter: nat
    ghost var owner: map<nat, Address>
    ghost var log: seq<Entry>

    ghost function Model(): Ledger
      reads this
    {
      Ledger(now, pending, claimable, byId, counter, owner, log)
    }

    ghost predicate Valid()
      reads this
    {
      Reachable(Model())
    }

    constructor ()
      ensures Model() == Initial && Valid()
    {
      now, pending, claimable, byId, counter := 0, map[], map[], map[], 0;
      owner, log := map[], [];
      new;
      assert Model() == Run(Initial, []);
    }

    /** The ledger closes: time moves on between calls. */
    method AdvanceLedger(t: nat)
      requires Valid() && now <= t <= LATEST_CLOCK
      modifies this`now
      ensures Valid() && Model() == old(Model()).(now := t)
    {
      ReachableStep(Model(), Tick(t));
      now := t;
    }

    /** Store a pass over `u`'s list, as process_claims and both expiry entry points end. */
    method WriteBack(u: Address, r: Split, deduct: int, paidById: map<nat, Claim>, ghost how: EntryKind)
      requires u in pending && paidById == MarkPaid(byId, r.paid)
      requires 0 <= deduct == Deducted(r, how) <= Claimable(Model(), u) <= I128_MAX
      modifies this
      ensures Model() == Settle(old(Model()), u, r, how)
    {
      ghost var t := Settle(Model(), u, r, how);
      var current := if u in claimable then claimable[u] else 0;
      assert InI128(current - deduct) && current - deduct >= 0;  // checked_sub succeeds
      byId, log := paidById, t.log;
      if r.kept == [] {
        pending, claimable := pending - {u}, claimable - {u};
      } else {
        pending, claimable := pending[u := r.kept], claimable[u := current - deduct];
      }
    }

    method AddPendingClaim(u: Address, kind: ClaimType, amount: int, sourceId: nat, metadata: string)
      returns (r: Result<nat, ClaimError>)
      requires Valid()
      modifies this
      ensures Valid()
      ensures match Add(old(Model()), u, kind, amount, sourceId, metadata)
        case Ok(res) => r == Ok(res.1) && Model() == res.0
        case Err(e) => r == Err(e) && Model() == old(Model())
    {
      var claims := if u in pending then pending[u] else [];
      var current := if u in claimable then claimable[u] else 0;
      if amount <= 0 {
        r := Err(NonPositiveAmount);
      } else if counter >= U64_MAX {
        r := Err(CounterOverflow);
      } else if |claims| >= HOST_VEC_LIMIT {
        r := Err(HostLimit);
      } else if current + amount > I128_MAX {
        r := Err(ClaimableOverflow);
      } else {
        ghost var sum := Add(Model(), u, kind, amount, sourceId, metadata);
        AddIsReachable(Model(), u, kind, amount, sourceId, metadata);
        var expiresAt := WrapAddU64(now, DEFAULT_CLAIM_EXPIRY);
        StoreClaim(u, Claim(counter + 1, kind, amount, now, expiresAt, sourceId, metadata, false), claims, current);
        assert Model() == sum.value.0;
        r := Ok(counter);
      }
    }

    /** The writes of a new claim: the counter, the record, the list and the total. */
    method StoreClaim(u: Address, c: Claim, claims: seq<Claim>, current: int)
      requires claims == Pending(Model(), u) && current == Claimable(Model(), u)
      modifies this
      ensures Model() == WithClaim(old(Model()), u, c)
    {
      counter := c.id;
      byId := byId[c.id := c];
      pending := pending[u := claims + [c]];
      claimable := claimable[u := current + c.amount];
      owner := owner[c.id := u];
      log := log + [Entry(Added, u, c.id, c.amount)];
    }

    method ProcessClaims(u: Address, claimTypes: seq<ClaimType>, max: nat, auth: set<Address>, payoutOk: bool)
      returns (r: Result<Receipt, ClaimError>)
      requires Valid()
      modifies this
      ensures Valid()
      ensures match Process(old(Model()), u, (set k | k in claimTypes), max, auth, payoutOk)
        case Ok(res) => r == Ok(res.1) && Model() == res.0
        case Err(e) => r == Err(e) && Model() == old(Model())
    {
      ghost var before := Model();
      if u !in auth {
        return Err(Unauthorized);
      }
      var claims := if u in pending then pending[u] else [];
      if claims == [] {
        return Err(NoPendingClaims);
      }
      var typeSet: set<ClaimType> := {};
      for i := 0 to |claimTypes|
        invariant typeSet == set k | k in claimTypes[..i]
      {
        typeSet := typeSet + {claimTypes[i]};
      }
      assert claimTypes[..|claimTypes|] == claimTypes;

      PendingIsPayable(before, u);
      var paid, remaining, dropped, paidById, total, kinds := PayPass(claims, typeSet, BatchLimit(max), now, byId);
      if paid == [] {
        return Err(NoValidClaims);
      }
      if total > 0 && !payoutOk {
        return Err(TransferFailed);
      }
      ReachableStep(before, Call.ProcessClaims(u, typeSet, max, auth, payoutOk));
      PaySplitIsSplit(claims, typeSet, BatchLimit(max), now);
      SplitIsCovered(before, u, Split(paid, remaining, dropped));
      WriteBack(u, Split(paid, remaining, dropped), total, paidById, Forgone);
      return Ok(Receipt(|paid|, total, kinds));
    }

    method CleanupExpiredClaims(u: Address) returns (count: nat)
      requires Valid()
      modifies this
      ensures Valid()
      ensures (Model(), count) == Cleanup(old(Model()), u)
    {
      ghost var before := Model();
      var claims := if u in pending then pending[u] else [];
      if claims == [] {
        return 0;
      }
      PendingIsPayable(before, u);
      var valid, dropped, expiredAmount := CleanupPass(claims, now);
      if |dropped| > 0 {
        ReachableStep(before, CleanupExpired(u));
        CleanupSplitIsSplit(claims, now);
        SplitIsCovered(before, u, Split([], valid, dropped));
        WriteBack(u, Split([], valid, dropped), expiredAmount, byId, Dropped);
      }
      return |dropped|;
    }

    method ExpireClaimsBounded(u: Address, maxIter: nat) returns (count: nat)
      requires Valid()
      modifies this
      ensures Valid()
      ensures (Model(), count) == Sweep(old(Model()), u, maxIter)
    {
      ghost var before := Model();
      var claims := if u in pending then pending[u] else [];
      if claims == [] {
        return 0;
      }
      PendingIsPayable(before, u);
      var valid, dropped, expiredAmount := SweepPass(claims, BatchLimit(maxIter), now);
      if |dropped| > 0 {
        ReachableStep(before, ExpireBounded(u, maxIter));
        SweepSplitIsSplit(claims, BatchLimit(maxIter), now);
        SplitIsCovered(before, u, Split([], valid, dropped));
        WriteBack(u, Split([], valid, dropped), expiredAmount, byId, Dropped);
      }
      return |dropped|;
    }

    method GetPendingClaimsPage(u: Address, startAfter: nat, limit: nat)
      returns (page: seq<Claim>, next: Option<nat>)
      ensures (page, next) == Page(Pending(Model(), u), startAfter, limit)
    {
      page, next := ReadPage(if u in pending then pending[u] else [], startAfter, limit);
    }

    method GetPendingClaimsPaginated(u: Address, offset: nat, limit: nat) returns (page: seq<Claim>)
      ensures page == OffsetPage(Pending(Model(), u), offset, limit)
    {
      page := ReadOffsetPage(if u in pending then pending[u] else [], offset, limit);
    }
  }

  /** A reachable pending list holds positive amounts whose sum fits in i128. */
  lemma PendingIsPayable(s: Ledger, u: Address)
    requires Reachable(s)
    ensures forall c :: c in Pending(s, u) ==> c.amount > 0
    ensures Sum(Pending(s, u)) <= I128_MAX
  {
    ReachableInv(s);
    assert BalanceOk(s, u);
    if u in s.pending {
      assert AccountOk(s, u);
      assert forall c :: c in s.pending[u] ==> Good(s, u, c);
    }
  }

  lemma SplitIsCovered(s: Ledger, u: Address, r: Split)
    requires Reachable(s) && IsSplit(Pending(s, u), r) && u in s.pending
    ensures 0 <= Sum(r.paid) + Sum(r.dropped) <= Claimable(s, u) <= I128_MAX
    ensures 0 <= Sum(r.paid) && 0 <= Sum(r.dropped)
  {
    ReachableInv(s);
    PassNeverOverflows(s, u, r);
  }
}
