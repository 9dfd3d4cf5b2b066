/** What every run of the claims ledger keeps. */
module ClaimsTheorems {
  import opened Host
  import opened Lists
  import opened Claims

  // ----- Counting -----

  lemma {:induction false} CountConcat(a: seq<Entry>, b: seq<Entry>, kind: EntryKind, id: nat)
    ensures Count(a + b, kind, id) == Count(a, kind, id) + Count(b, kind, id)
  {
    if b == [] {
      assert a + b == a;
    } else {
      assert (a + b)[..|a + b| - 1] == a + b[..|b| - 1];
      CountConcat(a, b[..|b| - 1], kind, id);
    }
  }

  lemma {:induction false} TotalConcat(a: seq<Entry>, b: seq<Entry>, kind: EntryKind, u: Address)
    ensures Total(a + b, kind, u) == Total(a, kind, u) + Total(b, kind, u)
  {
    if b == [] {
      assert a + b == a;
    } else {
      assert (a + b)[..|a + b| - 1] == a + b[..|b| - 1];
      TotalConcat(a, b[..|b| - 1], kind, u);
    }
  }

  lemma {:induction false} CountEntries(k: EntryKind, u: Address, cs: seq<Claim>, kind: EntryKind, id: nat)
    ensures Count(Entries(k, u, cs), kind, id) == if k == kind then CountId(cs, id) else 0
  {
    if cs != [] {
      var e := [Entry(k, u, cs[0].id, cs[0].amount)];
      CountConcat(e, Entries(k, u, cs[1..]), kind, id);
      CountEntries(k, u, cs[1..], kind, id);
      assert e[..0] == [];
    }
  }

  lemma {:induction false} TotalEntries(k: EntryKind, u: Address, cs: seq<Claim>, kind: EntryKind, v: Address)
    ensures Total(Entries(k, u, cs), kind, v) == if k == kind && u == v then Sum(cs) else 0
  {
    if cs != [] {
      var e := [Entry(k, u, cs[0].id, cs[0].amount)];
      TotalConcat(e, Entries(k, u, cs[1..]), kind, v);
      TotalEntries(k, u, cs[1..], kind, v);
      assert e[..0] == [];
    }
  }

  /** What the log of a settled pass adds, per id and per user. */
  lemma SettleLog(s: Ledger, u: Address, r: Split, how: EntryKind, kind: EntryKind, id: nat, v: Address)
    requires how == Dropped || how == Forgone
    ensures var t := Settle(s, u, r, how);
      && Count(t.log, kind, id) == Count(s.log, kind, id) +
           (if kind == Paid then CountId(r.paid, id) else if kind == how then CountId(r.dropped, id) else 0)
      && Total(t.log, kind, v) == Total(s.log, kind, v) +
           (if v != u then 0 else if kind == Paid then Sum(r.paid) else if kind == how then Sum(r.dropped) else 0)
  {
    var p, d := Entries(Paid, u, r.paid), Entries(how, u, r.dropped);
    CountConcat(s.log + p, d, kind, id);
    CountConcat(s.log, p, kind, id);
    CountEntries(Paid, u, r.paid, kind, id);
    CountEntries(how, u, r.dropped, kind, id);
    TotalConcat(s.log + p, d, kind, v);
    TotalConcat(s.log, p, kind, v);
    TotalEntries(Paid, u, r.paid, kind, v);
    TotalEntries(how, u, r.dropped, kind, v);
  }

  lemma NothingOpen(log: seq<Entry>, u: Address)
    ensures Open(log, u) == 0 ==> Skipped(log, u) == 0
  {
  }

  /** Logging that the claims `cs` of `u` were settled: what stays open, and what was forgone. */
  lemma {:induction false} EntriesClose(log: seq<Entry>, k: EntryKind, u: Address, cs: seq<Claim>)
    requires k != Added && Open(log, u) >= |cs|
    ensures Open(log + Entries(k, u, cs), u) == Open(log, u) - |cs|
    ensures Open(log, u) > |cs| ==>
      Skipped(log + Entries(k, u, cs), u) == Skipped(log, u) + (if k == Forgone then Sum(cs) else 0)
    decreases |cs|
  {
    if cs == [] {
      assert log + Entries(k, u, cs) == log;
    } else {
      var e := Entry(k, u, cs[0].id, cs[0].amount);
      assert (log + [e])[..|log|] == log;
      EntriesClose(log + [e], k, u, cs[1..]);
      assert log + Entries(k, u, cs) == (log + [e]) + Entries(k, u, cs[1..]);
    }
  }

  lemma {:induction false} EntriesOfOthers(log: seq<Entry>, k: EntryKind, u: Address, cs: seq<Claim>, v: Address)
    requires u != v
    ensures Open(log + Entries(k, u, cs), v) == Open(log, v) && Skipped(log + Entries(k, u, cs), v) == Skipped(log, v)
    decreases |cs|
  {
    if cs == [] {
      assert log + Entries(k, u, cs) == log;
    } else {
      var e := Entry(k, u, cs[0].id, cs[0].amount);
      assert (log + [e])[..|log|] == log;
      NothingOpen(log, v);
      EntriesOfOthers(log + [e], k, u, cs[1..], v);
      assert log + Entries(k, u, cs) == (log + [e]) + Entries(k, u, cs[1..]);
    }
  }

  /** What a settled pass leaves open, and how it changes what was forgone. */
  lemma SettleCloses(s: Ledger, u: Address, r: Split, how: EntryKind, v: Address)
    requires how == Dropped || how == Forgone
    requires Open(s.log, u) == |r.paid| + |r.kept| + |r.dropped|
    ensures var t := Settle(s, u, r, how);
      && Open(t.log, v) == (if v == u then |r.kept| else Open(s.log, v))
      && Skipped(t.log, v) == if v != u then Skipped(s.log, v) else if r.kept == [] then 0
                              else Skipped(s.log, u) + (if how == Forgone then Sum(r.dropped) else 0)
  {
    var p, d := Entries(Paid, u, r.paid), Entries(how, u, r.dropped);
    if v == u {
      EntriesClose(s.log, Paid, u, r.paid);
      EntriesClose(s.log + p, how, u, r.dropped);
      NothingOpen(s.log + p + d, u);
    } else {
      EntriesOfOthers(s.log, Paid, u, r.paid, v);
      EntriesOfOthers(s.log + p, how, u, r.dropped, v);
    }
  }

  lemma SettledAfter(s: Ledger, u: Address, r: Split, how: EntryKind, id: nat)
    requires how == Dropped || how == Forgone
    ensures var t := Settle(s, u, r, how);
      && TimesSettled(t.log, id) == TimesSettled(s.log, id) + CountId(r.paid, id) + CountId(r.dropped, id)
      && Count(t.log, Paid, id) == Count(s.log, Paid, id) + CountId(r.paid, id)
  {
    SettleLog(s, u, r, how, Paid, id, u);
    SettleLog(s, u, r, how, Dropped, id, u);
    SettleLog(s, u, r, how, Forgone, id, u);
  }

  lemma {:induction false} CountMember(cs: seq<Claim>, id: nat)
    ensures CountId(cs, id) > 0 <==> exists c :: c in cs && c.id == id
  {
    if cs != [] {
      CountMember(cs[1..], id);
      assert cs == [cs[0]] + cs[1..];
    }
  }

  lemma {:induction false} CountIdConcat(a: seq<Claim>, b: seq<Claim>, id: nat)
    ensures CountId(a + b, id) == CountId(a, id) + CountId(b, id)
  {
    if a == [] {
      assert a + b == b;
    } else {
      assert (a + b)[1..] == a[1..] + b;
      CountIdConcat(a[1..], b, id);
    }
  }

  lemma {:induction false} SumConcat(a: seq<Claim>, b: seq<Claim>)
    ensures Sum(a + b) == Sum(a) + Sum(b)
  {
    if a == [] {
      assert a + b == b;
    } else {
      assert (a + b)[1..] == a[1..] + b;
      SumConcat(a[1..], b);
    }
  }

  lemma {:induction false} SumNonNegative(cs: seq<Claim>)
    requires forall c :: c in cs ==> c.amount > 0
    ensures Sum(cs) >= 0 && (cs != [] ==> Sum(cs) > 0)
  {
    if cs != [] { SumNonNegative(cs[1..]); }
  }

  lemma {:induction false} OrderedAppend(cs: seq<Claim>, c: Claim)
    requires Ordered(cs)
    requires forall d :: d in cs ==> d.id < c.id && d.expiresAt <= c.expiresAt
    ensures Ordered(cs + [c])
  {
    if cs == [] {
      assert ([c])[1..] == [];
      assert cs + [c] == [c];
    } else {
      assert (cs + [c])[1..] == cs[1..] + [c];
      OrderedAppend(cs[1..], c);
    }
  }

  // ----- A pass splits the list: nothing is lost, duplicated or reordered -----

  ghost predicate IsSplit(cs: seq<Claim>, r: Split) {
    && Sum(r.paid) + Sum(r.kept) + Sum(r.dropped) == Sum(cs)
    && (forall id :: CountId(r.paid, id) + CountId(r.kept, id) + CountId(r.dropped, id) == CountId(cs, id))
    && (forall c :: c in r.paid ==> c in cs)
    && (forall c :: c in r.kept ==> c in cs)
    && (forall c :: c in r.dropped ==> c in cs)
    && |r.paid| + |r.kept| + |r.dropped| == |cs|
    && (Ordered(cs) ==> Ordered(r.kept))
  }

  lemma ConsFacts(c: Claim, cs: seq<Claim>)
    ensures Sum([c] + cs) == c.amount + Sum(cs)
    ensures forall id :: CountId([c] + cs, id) == CountId(cs, id) + (if c.id == id then 1 else 0)
    ensures forall d :: d in [c] + cs <==> d == c || d in cs
    ensures Ordered([c] + cs) <==> (forall d :: d in cs ==> c.id < d.id && c.expiresAt <= d.expiresAt) && Ordered(cs)
  {
    assert ([c] + cs)[1..] == cs;
  }

  lemma SplitCons(c: Claim, rest: seq<Claim>, r: Split)
    requires IsSplit(rest, r)
    ensures IsSplit([c] + rest, r.(paid := [c] + r.paid))
    ensures IsSplit([c] + rest, r.(kept := [c] + r.kept))
    ensures IsSplit([c] + rest, r.(dropped := [c] + r.dropped))
  {
    ConsFacts(c, rest);
    ConsFacts(c, r.paid);
    ConsFacts(c, r.kept);
    ConsFacts(c, r.dropped);
  }

  lemma {:induction false} PaySplitIsSplit(cs: seq<Claim>, kinds: set<ClaimType>, limit: nat, now: nat)
    ensures IsSplit(cs, PaySplit(cs, kinds, limit, now))
  {
    if cs != [] && limit != 0 {
      assert cs == [cs[0]] + cs[1..];
      PaySplitIsSplit(cs[1..], kinds, limit - 1, now);
      PaySplitIsSplit(cs[1..], kinds, limit, now);
      SplitCons(cs[0], cs[1..], PaySplit(cs[1..], kinds, limit - 1, now));
      SplitCons(cs[0], cs[1..], PaySplit(cs[1..], kinds, limit, now));
    }
  }

  function Join(a: Split, b: Split): Split {
    Split(a.paid + b.paid, a.kept + b.kept, a.dropped + b.dropped)
  }

  lemma JoinCons(c: Claim, a: Split, b: Split)
    ensures Join(a.(paid := [c] + a.paid), b) == var r := Join(a, b); r.(paid := [c] + r.paid)
    ensures Join(a.(kept := [c] + a.kept), b) == var r := Join(a, b); r.(kept := [c] + r.kept)
    ensures Join(a.(dropped := [c] + a.dropped), b) == var r := Join(a, b); r.(dropped := [c] + r.dropped)
  {
    assert ([c] + a.paid) + b.paid == [c] + (a.paid + b.paid);
    assert ([c] + a.kept) + b.kept == [c] + (a.kept + b.kept);
    assert ([c] + a.dropped) + b.dropped == [c] + (a.dropped + b.dropped);
  }

  lemma {:induction false} PaySplitConcat(a: seq<Claim>, b: seq<Claim>, kinds: set<ClaimType>, limit: nat, now: nat)
    ensures var r := PaySplit(a, kinds, limit, now);
      && |r.paid| <= limit
      && PaySplit(a + b, kinds, limit, now) == Join(r, PaySplit(b, kinds, limit - |r.paid|, now))
  {
    if a == [] {
      assert a + b == b;
    } else if limit != 0 {
      assert (a + b)[1..] == a[1..] + b && (a + b)[0] == a[0];
      var c := a[0];
      var lim := if !c.processed && !IsExpired(c, now) && (kinds == {} || c.kind in kinds) then limit - 1 else limit;
      PaySplitConcat(a[1..], b, kinds, lim, now);
      var r := PaySplit(a[1..], kinds, lim, now);
      JoinCons(c, r, PaySplit(b, kinds, lim - |r.paid|, now));
    }
  }

  lemma {:induction false} SweepSplitConcat(a: seq<Claim>, b: seq<Claim>, limit: nat, now: nat)
    ensures SweepSplit(a + b, limit, now)
      == Join(SweepSplit(a, limit, now), SweepSplit(b, Max(limit - |a|, 0), now))
  {
    if a == [] {
      assert a + b == b;
    } else if limit != 0 {
      assert (a + b)[1..] == a[1..] + b;
      SweepSplitConcat(a[1..], b, limit - 1, now);
      JoinCons(a[0], SweepSplit(a[1..], limit - 1, now), SweepSplit(b, Max(limit - |a|, 0), now));
    }
  }

  lemma {:induction false} CleanupSplitConcat(a: seq<Claim>, b: seq<Claim>, now: nat)
    ensures CleanupSplit(a + b, now) == Join(CleanupSplit(a, now), CleanupSplit(b, now))
  {
    if a == [] {
      assert a + b == b;
    } else {
      assert (a + b)[1..] == a[1..] + b;
      CleanupSplitConcat(a[1..], b, now);
    }
  }

  lemma {:induction false} SweepSplitIsSplit(cs: seq<Claim>, limit: nat, now: nat)
    ensures IsSplit(cs, SweepSplit(cs, limit, now)) && SweepSplit(cs, limit, now).paid == []
  {
    if cs != [] && limit != 0 {
      assert cs == [cs[0]] + cs[1..];
      SweepSplitIsSplit(cs[1..], limit - 1, now);
      SplitCons(cs[0], cs[1..], SweepSplit(cs[1..], limit - 1, now));
    }
  }

  lemma {:induction false} CleanupSplitIsSplit(cs: seq<Claim>, now: nat)
    ensures IsSplit(cs, CleanupSplit(cs, now))
  {
    if cs != [] {
      assert cs == [cs[0]] + cs[1..];
      CleanupSplitIsSplit(cs[1..], now);
      SplitCons(cs[0], cs[1..], CleanupSplit(cs[1..], now));
    }
  }

  // ----- Every step keeps the invariant -----

  lemma {:induction false} MarkPaidAt(byId: map<nat, Claim>, cs: seq<Claim>, id: nat)
    requires forall c :: c in cs ==> c.id in byId
    requires forall c :: c in cs ==> byId[c.id] == c
    ensures MarkPaid(byId, cs).Keys == byId.Keys
    ensures id in byId ==>
      MarkPaid(byId, cs)[id] == if CountId(cs, id) > 0 then byId[id].(processed := true) else byId[id]
  {
    if cs != [] {
      var front, c := cs[..|cs| - 1], cs[|cs| - 1];
      MarkPaidAt(byId, front, id);
      assert cs == front + [c];
      CountIdConcat(front, [c], id);
      assert ([c])[1..] == [];
    }
  }

  lemma SettleKeepsAccounts(s: Ledger, u: Address, r: Split, how: EntryKind, v: Address)
    requires Inv(s) && u in s.pending && IsSplit(s.pending[u], r)
    requires v in Settle(s, u, r, how).pending
    ensures AccountOk(Settle(s, u, r, how), v)
  {
    var t := Settle(s, u, r, how);
    assert AccountOk(s, u) && v in s.pending && AccountOk(s, v);
    forall c | c in t.pending[v] ensures Good(t, v, c) {
      assert c in s.pending[v] && Good(s, v, c);
      assert forall d :: d in r.paid ==> Good(s, u, d);
      MarkPaidAt(s.byId, r.paid, c.id);
      CountMember(r.paid, c.id);
      assert FateOk(s, c.id);
      if v == u { CountMember(r.kept, c.id); }
      assert CountId(r.paid, c.id) == 0;
    }
  }

  /** No sum a pass forms leaves i128, and no subtraction goes below zero: the partial sums
      stay within the claimable total. */
  lemma PassNeverOverflows(s: Ledger, u: Address, r: Split)
    requires Inv(s) && u in s.pending && IsSplit(s.pending[u], r)
    ensures 0 <= Sum(r.paid) + Sum(r.dropped) <= Claimable(s, u) <= I128_MAX
    ensures 0 <= Sum(r.paid) && 0 <= Sum(r.dropped)
  {
    assert AccountOk(s, u) && BalanceOk(s, u);
    assert forall c :: c in s.pending[u] ==> Good(s, u, c);
    SumNonNegative(r.paid);
    SumNonNegative(r.kept);
    SumNonNegative(r.dropped);
  }

  lemma PendingAfterSettle(s: Ledger, u: Address, r: Split, how: EntryKind, v: Address)
    ensures Pending(Settle(s, u, r, how), v) == if v == u then r.kept else Pending(s, v)
  {
  }

  lemma SettleKeepsBalance(s: Ledger, u: Address, r: Split, how: EntryKind, v: Address)
    requires Inv(s) && u in s.pending && IsSplit(s.pending[u], r)
    requires how == Dropped || how == Forgone
    ensures BalanceOk(Settle(s, u, r, how), v)
  {
    assert BalanceOk(s, v);
    var t := Settle(s, u, r, how);
    assert BalanceOk(s, u);
    SettleLog(s, u, r, how, Added, 0, v);
    SettleLog(s, u, r, how, Paid, 0, v);
    SettleLog(s, u, r, how, Dropped, 0, v);
    SettleLog(s, u, r, how, Forgone, 0, v);
    SettleCloses(s, u, r, how, v);
    PendingAfterSettle(s, u, r, how, v);
    if v == u {
      PassNeverOverflows(s, u, r);
    }
  }

  lemma SettleKeepsFate(s: Ledger, u: Address, r: Split, how: EntryKind, id: nat)
    requires Inv(s) && u in s.pending && IsSplit(s.pending[u], r)
    requires 1 <= id <= s.counter && (how == Dropped || how == Forgone)
    ensures FateOk(Settle(s, u, r, how), id)
  {
    var cs := s.pending[u];
    assert AccountOk(s, u) && FateOk(s, id);
    PendingAfterSettle(s, u, r, how, s.owner[id]);
    SettledAfter(s, u, r, how, id);
    assert forall c :: c in cs ==> Good(s, u, c);
    MarkPaidAt(s.byId, r.paid, id);
    CountMember(cs, id);
    if s.owner[id] != u { assert CountId(cs, id) == 0; }
    assert CountId(r.paid, id) + CountId(r.kept, id) + CountId(r.dropped, id) == CountId(cs, id);
  }

  lemma SettleKeepsInv(s: Ledger, u: Address, r: Split, how: EntryKind)
    requires Inv(s) && u in s.pending && IsSplit(s.pending[u], r)
    requires how == Dropped || how == Forgone
    ensures Inv(Settle(s, u, r, how))
  {
    var t := Settle(s, u, r, how);
    assert AccountOk(s, u);
    assert forall c :: c in r.paid ==> Good(s, u, c);
    MarkPaidAt(s.byId, r.paid, 0);
    forall v | v in t.pending ensures AccountOk(t, v) { SettleKeepsAccounts(s, u, r, how, v); }
    forall v ensures BalanceOk(t, v) { SettleKeepsBalance(s, u, r, how, v); }
    forall id | 1 <= id <= t.counter ensures FateOk(t, id) { SettleKeepsFate(s, u, r, how, id); }
    forall id | id == 0 || id > t.counter ensures Unused(t, id) {
      assert Unused(s, id);
      SettledAfter(s, u, r, how, id);
      CountMember(s.pending[u], id);
      assert forall c :: c in s.pending[u] ==> Good(s, u, c);
    }
  }

  /** `t` is `s` after claim `c` was issued to `u`. */
  predicate Issues(s: Ledger, t: Ledger, u: Address, c: Claim) {
    && c.id == s.counter + 1 <= U64_MAX && c.amount > 0 && !c.processed
    && c.createdAt == s.now && c.expiresAt == s.now + DEFAULT_CLAIM_EXPIRY
    && Claimable(s, u) + c.amount <= I128_MAX && |Pending(s, u)| < HOST_VEC_LIMIT
    && t == s.(pending := s.pending[u := Pending(s, u) + [c]],
               claimable := s.claimable[u := Claimable(s, u) + c.amount],
               byId := s.byId[c.id := c], counter := c.id, owner := s.owner[c.id := u],
               log := s.log + [Entry(Added, u, c.id, c.amount)])
  }

  lemma AddKeepsAccounts(s: Ledger, t: Ledger, u: Address, c: Claim, v: Address)
    requires Inv(s) && Issues(s, t, u, c) && v in t.pending
    ensures AccountOk(t, v)
  {
    if v in s.pending {
      assert AccountOk(s, v);
      forall d | d in s.pending[v] ensures Good(t, v, d) { assert Good(s, v, d); }
    }
    if v == u { OrderedAppend(Pending(s, u), c); }
  }

  lemma AddKeepsBalance(s: Ledger, t: Ledger, u: Address, c: Claim, v: Address)
    requires Inv(s) && Issues(s, t, u, c)
    ensures BalanceOk(t, v)
  {
    assert BalanceOk(s, v);
    SumConcat(Pending(s, u), [c]);
    assert [c][1..] == [];
    assert t.log[..|t.log| - 1] == s.log;
  }

  lemma AddKeepsFate(s: Ledger, t: Ledger, u: Address, c: Claim, i: nat)
    requires Inv(s) && Issues(s, t, u, c)
    ensures if 1 <= i <= t.counter then FateOk(t, i) else Unused(t, i)
  {
    assert t.log[..|t.log| - 1] == s.log;
    CountIdConcat(Pending(s, u), [c], i);
    assert [c][1..] == [];
    if i == c.id {
      assert Unused(s, i);
      CountMember(Pending(s, u), i);
      assert u in s.pending ==> AccountOk(s, u) && forall d :: d in s.pending[u] ==> Good(s, u, d);
    } else if 1 <= i <= s.counter {
      assert FateOk(s, i);
    } else {
      assert Unused(s, i);
    }
  }

  lemma AddKeepsInv(s: Ledger, u: Address, kind: ClaimType, amount: int, sourceId: nat, metadata: string)
    requires Inv(s) && Add(s, u, kind, amount, sourceId, metadata).Ok?
    ensures Inv(Add(s, u, kind, amount, sourceId, metadata).value.0)
  {
    var (t, id) := Add(s, u, kind, amount, sourceId, metadata).value;
    var c := t.byId[id];
    assert Issues(s, t, u, c);
    forall v | v in t.pending ensures AccountOk(t, v) { AddKeepsAccounts(s, t, u, c, v); }
    forall v ensures BalanceOk(t, v) { AddKeepsBalance(s, t, u, c, v); }
    forall i | 1 <= i <= t.counter ensures FateOk(t, i) { AddKeepsFate(s, t, u, c, i); }
    forall i | i == 0 || i > t.counter ensures Unused(t, i) { AddKeepsFate(s, t, u, c, i); }
  }

  lemma TickKeepsInv(s: Ledger, t: nat)
    requires Inv(s) && s.now <= t <= LATEST_CLOCK
    ensures Inv(s.(now := t))
  {
    var s' := s.(now := t);
    forall v | v in s'.pending ensures AccountOk(s', v) {
      assert AccountOk(s, v);
      forall d | d in s.pending[v] ensures Good(s', v, d) { assert Good(s, v, d); }
    }
    forall v ensures BalanceOk(s', v) { assert BalanceOk(s, v); }
    forall i | 1 <= i <= s'.counter ensures FateOk(s', i) { assert FateOk(s, i); }
    forall i | i == 0 || i > s'.counter ensures Unused(s', i) { assert Unused(s, i); }
  }

  datatype Call =
    | Tick(t: nat)
    | AddClaim(u: Address, kind: ClaimType, amount: int, sourceId: nat, metadata: string)
    | ProcessClaims(u: Address, kinds: set<ClaimType>, max: nat, auth: set<Address>, payoutOk: bool)
    | CleanupExpired(u: Address)
    | ExpireBounded(u: Address, max: nat)

  /** One transaction; a failed one leaves the ledger as it was. */
  function Step(s: Ledger, call: Call): Ledger {
    match call
    case Tick(t) => if s.now <= t <= LATEST_CLOCK then s.(now := t) else s
    case AddClaim(u, k, a, src, m) => var r := Add(s, u, k, a, src, m); if r.Ok? then r.value.0 else s
    case ProcessClaims(u, ks, max, auth, ok) =>
      var r := Process(s, u, ks, max, auth, ok); if r.Ok? then r.value.0 else s
    case CleanupExpired(u) => Cleanup(s, u).0
    case ExpireBounded(u, max) => Sweep(s, u, max).0
  }

  function Run(s: Ledger, calls: seq<Call>): Ledger {
    if calls == [] then s else Step(Run(s, calls[..|calls| - 1]), calls[|calls| - 1])
  }

  lemma ExpireKeepsInv(s: Ledger, u: Address, r: Split)
    requires Inv(s) && IsSplit(Pending(s, u), r) && r.paid == []
    ensures Inv(Expire(s, u, r).0)
  {
    if r.dropped != [] {
      assert r.dropped[0] in Pending(s, u);
      SettleKeepsInv(s, u, r, Dropped);
    }
  }

  lemma StepKeepsInv(s: Ledger, call: Call)
    requires Inv(s)
    ensures Inv(Step(s, call))
  {
    match call
    case Tick(t) => if s.now <= t <= LATEST_CLOCK { TickKeepsInv(s, t); }
    case AddClaim(u, k, a, src, m) =>
      if Add(s, u, k, a, src, m).Ok? { AddKeepsInv(s, u, k, a, src, m); }
    case ProcessClaims(u, ks, max, auth, ok) =>
      if Process(s, u, ks, max, auth, ok).Ok? {
        var r := PaySplit(Pending(s, u), ks, BatchLimit(max), s.now);
        PaySplitIsSplit(Pending(s, u), ks, BatchLimit(max), s.now);
        SettleKeepsInv(s, u, r, Forgone);
      }
    case CleanupExpired(u) =>
      CleanupSplitIsSplit(Pending(s, u), s.now);
      ExpireKeepsInv(s, u, CleanupSplit(Pending(s, u), s.now));
    case ExpireBounded(u, max) =>
      SweepSplitIsSplit(Pending(s, u), BatchLimit(max), s.now);
      ExpireKeepsInv(s, u, SweepSplit(Pending(s, u), BatchLimit(max), s.now));
  }

  lemma {:induction false} RunKeepsInv(calls: seq<Call>)
    ensures Inv(Run(Initial, calls))
  {
    if calls != [] {
      RunKeepsInv(calls[..|calls| - 1]);
      StepKeepsInv(Run(Initial, calls[..|calls| - 1]), calls[|calls| - 1]);
    } else {
      forall u ensures BalanceOk(Initial, u) {}
    }
  }

  /** The ledgers that some run of calls reaches. */
  ghost predicate Reachable(s: Ledger) {
    exists calls :: Run(Initial, calls) == s
  }

  lemma ReachableStep(s: Ledger, call: Call)
    requires Reachable(s)
    ensures Reachable(Step(s, call))
  {
    var calls :| Run(Initial, calls) == s;
    assert (calls + [call])[..|calls|] == calls;
    assert Run(Initial, calls + [call]) == Step(s, call);
  }

  lemma ReachableInv(s: Ledger)
    requires Reachable(s)
    ensures Inv(s)
  {
    var calls :| Run(Initial, calls) == s;
    RunKeepsInv(calls);
  }

  // ----- Conservation -----

  /** In every reachable ledger, for every user: what was added is what was paid, dropped or
      still pends; the running total is the pending sum plus what payments have dropped as expired
      since the list was last empty. For
      every issued id: it was settled at most once, and it pends exactly when it was not. */
  lemma ClaimValueIsConserved(s: Ledger, u: Address, id: nat)
    requires Reachable(s)
    ensures Total(s.log, Added, u) ==
      Total(s.log, Paid, u) + Total(s.log, Dropped, u) + Total(s.log, Forgone, u) + Sum(Pending(s, u))
    ensures Claimable(s, u) == Sum(Pending(s, u)) + Skipped(s.log, u) && Skipped(s.log, u) >= 0
    ensures Pending(s, u) == [] ==> Claimable(s, u) == 0
    ensures TimesSettled(s.log, id) <= 1
    ensures 1 <= id <= s.counter <==> id in s.owner
    ensures id in s.owner ==>
      (TimesSettled(s.log, id) == 0
       <==> exists c :: c in Pending(s, s.owner[id]) && c.id == id)
    ensures id in s.byId ==> (s.byId[id].processed <==> Count(s.log, Paid, id) == 1)
    ensures forall c :: c in Pending(s, u) ==> !c.processed && c.id in s.byId && s.byId[c.id] == c
  {
    ReachableInv(s);
    assert BalanceOk(s, u);
    if u in s.pending {
      assert AccountOk(s, u);
      assert forall c :: c in s.pending[u] ==> Good(s, u, c);
    }
    if 1 <= id <= s.counter {
      assert FateOk(s, id);
      CountMember(Pending(s, s.owner[id]), id);
    } else {
      assert Unused(s, id);
    }
  }

  // ----- Payment -----

  /** The claims a payment may pay, in order. */
  function Eligible(cs: seq<Claim>, kinds: set<ClaimType>, now: nat): seq<Claim> {
    if cs == [] then []
    else
      (if !cs[0].processed && !IsExpired(cs[0], now) && (kinds == {} || cs[0].kind in kinds) then [cs[0]] else [])
      + Eligible(cs[1..], kinds, now)
  }

  /** A payment pays the oldest eligible claims, up to the batch limit, and no others. */
  lemma {:induction false} PaysOldestEligible(cs: seq<Claim>, kinds: set<ClaimType>, limit: nat, now: nat)
    ensures var e := Eligible(cs, kinds, now);
      PaySplit(cs, kinds, limit, now).paid == e[..Min(limit, |e|)]
  {
    if cs != [] && limit != 0 {
      PaysOldestEligible(cs[1..], kinds, limit - 1, now);
      PaysOldestEligible(cs[1..], kinds, limit, now);
    }
  }

  // ----- Bounded sweeping reaches full cleanup -----

  /** The number of claims at the front of an ordered list that have expired. */
  function ExpiredCount(cs: seq<Claim>, now: nat): nat {
    |Lapsed(cs, now)|
  }

  ghost predicate Fresh(cs: seq<Claim>) {
    forall c :: c in cs ==> !c.processed && c.expiresAt > 0
  }

  lemma {:induction false} NoneLapsed(cs: seq<Claim>, now: nat)
    requires forall c :: c in cs ==> !IsExpired(c, now)
    ensures Lapsed(cs, now) == [] && Live(cs, now) == cs
  {
    if cs != [] { NoneLapsed(cs[1..], now); }
  }

  /** Expiry times never decrease, so the expired claims are a prefix. */
  lemma {:induction false} ExpiredArePrefix(cs: seq<Claim>, now: nat)
    requires Ordered(cs) && Fresh(cs)
    ensures ExpiredCount(cs, now) <= |cs|
    ensures Lapsed(cs, now) == cs[..ExpiredCount(cs, now)]
    ensures Live(cs, now) == cs[ExpiredCount(cs, now)..]
  {
    if cs != [] {
      if IsExpired(cs[0], now) {
        ExpiredArePrefix(cs[1..], now);
      } else {
        NoneLapsed(cs, now);
      }
    }
  }

  lemma {:induction false} NoneSwept(cs: seq<Claim>, limit: nat, now: nat)
    requires forall c :: c in cs ==> !IsExpired(c, now)
    ensures SweepSplit(cs, limit, now) == Split([], cs, [])
  {
    if cs != [] && limit != 0 {
      var c, rest := cs[0], cs[1..];
      assert c in cs && cs == [c] + rest;
      NoneSwept(rest, limit - 1, now);
      assert SweepSplit(cs, limit, now).kept == [c] + SweepSplit(rest, limit - 1, now).kept;
    }
  }

  lemma TakeDropCons<T>(s: seq<T>, m: nat)
    requires 0 < m <= |s|
    ensures s[..m] == [s[0]] + s[1..][..m - 1] && s[m..] == s[1..][m - 1..]
  {
  }

  lemma SweptStep(cs: seq<Claim>, limit: nat, now: nat, m: nat)
    requires cs != [] && limit > 0 && m < |cs| && IsExpired(cs[0], now) && !cs[0].processed
    requires SweepSplit(cs[1..], limit - 1, now) == Split([], cs[1..][m..], cs[1..][..m])
    ensures SweepSplit(cs, limit, now) == Split([], cs[m + 1..], cs[..m + 1])
  {
    TakeDropCons(cs, m + 1);
  }

  /** One bounded pass drops the oldest expired claims, as many as it may look at. */
  lemma {:induction false} SweepDropsPrefix(cs: seq<Claim>, limit: nat, now: nat)
    requires Ordered(cs) && Fresh(cs)
    ensures ExpiredCount(cs, now) <= |cs|
    ensures SweepSplit(cs, limit, now)
      == Split([], cs[Min(limit, ExpiredCount(cs, now))..], cs[..Min(limit, ExpiredCount(cs, now))])
  {
    if cs == [] || limit == 0 {
      ExpiredArePrefix(cs, now);
    } else if IsExpired(cs[0], now) {
      SweepDropsPrefix(cs[1..], limit - 1, now);
      assert ExpiredCount(cs, now) == 1 + ExpiredCount(cs[1..], now);
      SweptStep(cs, limit, now, Min(limit - 1, ExpiredCount(cs[1..], now)));
    } else {
      NoneLapsed(cs, now);
      NoneSwept(cs, limit, now);
    }
  }

  lemma PendingIsFresh(s: Ledger, u: Address)
    requires Reachable(s)
    ensures Ordered(Pending(s, u)) && Fresh(Pending(s, u))
  {
    ReachableInv(s);
    if u in s.pending {
      assert AccountOk(s, u);
      assert forall c :: c in s.pending[u] ==> Good(s, u, c);
    }
  }

  lemma {:induction false} EntriesConcat(kind: EntryKind, u: Address, a: seq<Claim>, b: seq<Claim>)
    ensures Entries(kind, u, a + b) == Entries(kind, u, a) + Entries(kind, u, b)
  {
    if a == [] {
      assert a + b == b;
    } else {
      assert (a + b)[1..] == a[1..] + b;
      EntriesConcat(kind, u, a[1..], b);
    }
  }

  lemma Overwrite<K, V>(m: map<K, V>, k: K, v: V, w: V)
    ensures m[k := v] - {k} == m - {k} && m[k := v][k := w] == m[k := w]
  {
  }

  /** Dropping a prefix and then the rest is dropping both at once. */
  lemma DropsCompose(s: Ledger, u: Address, cs: seq<Claim>, m: nat, e: nat)
    requires m <= e <= |cs| && m < |cs|
    ensures var t := Settle(s, u, Split([], cs[m..], cs[..m]), Dropped);
      Settle(t, u, Split([], cs[e..], cs[m..e]), Dropped)
        == Settle(s, u, Split([], cs[e..], cs[..e]), Dropped)
  {
    assert cs[..e] == cs[..m] + cs[m..e];
    SumConcat(cs[..m], cs[m..e]);
    EntriesConcat(Dropped, u, cs[..m], cs[m..e]);
    var x, y := Entries(Dropped, u, cs[..m]), Entries(Dropped, u, cs[m..e]);
    assert (s.log + [] + x) + [] + y == s.log + [] + (x + y);
    var c1 := Claimable(s, u) - Sum(cs[..m]);
    Overwrite(s.pending, u, cs[m..], cs[e..]);
    Overwrite(s.claimable, u, c1, c1 - Sum(cs[m..e]));
    var t := Settle(s, u, Split([], cs[m..], cs[..m]), Dropped);
    assert Sum([]) == 0;
    assert Claimable(t, u) == c1;
  }

  /** Dropping the first `m` claims of `u`'s list. */
  function DropOldest(s: Ledger, u: Address, m: nat): Ledger
    requires m <= |Pending(s, u)|
  {
    var cs := Pending(s, u);
    if m == 0 then s else Settle(s, u, Split([], cs[m..], cs[..m]), Dropped)
  }

  lemma {:induction false} LapsedSuffix(cs: seq<Claim>, m: nat, now: nat)
    requires Ordered(cs) && Fresh(cs) && m <= ExpiredCount(cs, now)
    ensures m <= |cs| && ExpiredCount(cs[m..], now) == ExpiredCount(cs, now) - m
  {
    ExpiredArePrefix(cs, now);
    if m > 0 {
      if !IsExpired(cs[0], now) { NoneLapsed(cs, now); }
      LapsedSuffix(cs[1..], m - 1, now);
      assert cs[1..][m - 1..] == cs[m..];
    }
  }

  /** A bounded sweep drops min(limit, expired) claims, the oldest first; a full cleanup drops
      all expired ones. */
  lemma ExpiryEffect(s: Ledger, u: Address, max: nat)
    requires Reachable(s)
    ensures var e := ExpiredCount(Pending(s, u), s.now); var m := Min(BatchLimit(max), e);
      && m <= e <= |Pending(s, u)|
      && Sweep(s, u, max) == (DropOldest(s, u, m), m)
      && Cleanup(s, u) == (DropOldest(s, u, e), e)
      && ExpiredCount(Pending(s, u)[m..], s.now) == e - m
  {
    var cs := Pending(s, u);
    PendingIsFresh(s, u);
    ExpiredArePrefix(cs, s.now);
    SweepDropsPrefix(cs, BatchLimit(max), s.now);
    LapsedSuffix(cs, Min(BatchLimit(max), ExpiredCount(cs, s.now)), s.now);
  }

  lemma PendingAfterDrop(s: Ledger, u: Address, m: nat)
    requires m <= |Pending(s, u)|
    ensures Pending(DropOldest(s, u, m), u) == Pending(s, u)[m..]
  {
  }

  lemma DropTwice(s: Ledger, u: Address, m: nat, e: nat)
    requires m <= e <= |Pending(s, u)|
    ensures Pending(DropOldest(s, u, m), u) == Pending(s, u)[m..]
    ensures DropOldest(DropOldest(s, u, m), u, e - m) == DropOldest(s, u, e)
  {
    var cs := Pending(s, u);
    PendingAfterDrop(s, u, m);
    if 0 < m < e {
      assert cs[m..][..e - m] == cs[m..e] && cs[m..][e - m..] == cs[e..];
      DropsCompose(s, u, cs, m, e);
    }
  }

  lemma AddIsReachable(s: Ledger, u: Address, kind: ClaimType, amount: int, sourceId: nat, metadata: string)
    requires Reachable(s)
    ensures var r := Add(s, u, kind, amount, sourceId, metadata); r.Ok? ==> Reachable(r.value.0)
  {
    ReachableStep(s, AddClaim(u, kind, amount, sourceId, metadata));
  }

  lemma SweepIsReachable(s: Ledger, u: Address, max: nat)
    requires Reachable(s)
    ensures Reachable(Sweep(s, u, max).0) && Sweep(s, u, max).0.now == s.now
  {
    ReachableStep(s, ExpireBounded(u, max));
  }

  lemma CleanupDrops(s: Ledger, u: Address)
    requires Reachable(s)
    ensures var e := ExpiredCount(Pending(s, u), s.now);
      e <= |Pending(s, u)| && Cleanup(s, u).0 == DropOldest(s, u, e)
  {
    ExpiryEffect(s, u, 1);
  }

  /** Sweeping first does not change where a full cleanup ends. */
  lemma CleanupAbsorbsSweep(s: Ledger, u: Address, max: nat)
    requires Reachable(s)
    ensures Cleanup(Sweep(s, u, max).0, u).0 == Cleanup(s, u).0
  {
    var e := ExpiredCount(Pending(s, u), s.now);
    var m := Min(BatchLimit(max), e);
    var t := Sweep(s, u, max).0;
    ExpiryEffect(s, u, max);
    DropTwice(s, u, m, e);
    SweepIsReachable(s, u, max);
    CleanupDrops(t, u);
  }

  /** Bounded sweeps in a row, at one ledger time. */
  function Sweeps(s: Ledger, u: Address, maxes: seq<nat>): Ledger
    decreases |maxes|
  {
    if maxes == [] then s else Sweeps(Sweep(s, u, maxes[0]).0, u, maxes[1..])
  }

  function Capacity(maxes: seq<nat>): nat {
    if maxes == [] then 0 else BatchLimit(maxes[0]) + Capacity(maxes[1..])
  }

  lemma SliceSlice<T>(s: seq<T>, a: nat, b: nat)
    requires a + b <= |s|
    ensures s[a..][b..] == s[a + b..]
  {
  }

  /** One bounded sweep. */
  lemma OneSweep(s: Ledger, u: Address, max: nat)
    requires Reachable(s)
    ensures var e := ExpiredCount(Pending(s, u), s.now); var m := Min(BatchLimit(max), e);
      var t := Sweep(s, u, max).0;
      && Reachable(t) && m <= e <= |Pending(s, u)| && Pending(t, u) == Pending(s, u)[m..]
      && ExpiredCount(Pending(t, u), t.now) == e - m
  {
    SweepIsReachable(s, u, max);
    ExpiryEffect(s, u, max);
    PendingAfterDrop(s, u, Min(BatchLimit(max), ExpiredCount(Pending(s, u), s.now)));
  }

  /** Repeated bounded sweeps with any limits remove the oldest expired claims, one batch after
      another. */
  lemma {:induction false} SweepsDropOldest(s: Ledger, u: Address, maxes: seq<nat>)
    requires Reachable(s)
    ensures Min(Capacity(maxes), ExpiredCount(Pending(s, u), s.now)) <= |Pending(s, u)|
    ensures Pending(Sweeps(s, u, maxes), u)
      == Pending(s, u)[Min(Capacity(maxes), ExpiredCount(Pending(s, u), s.now))..]
    decreases |maxes|
  {
    if maxes != [] {
      var m := Min(BatchLimit(maxes[0]), ExpiredCount(Pending(s, u), s.now));
      OneSweep(s, u, maxes[0]);
      SweepsDropOldest(Sweep(s, u, maxes[0]).0, u, maxes[1..]);
      SliceSlice(Pending(s, u), m, Min(Capacity(maxes[1..]), ExpiredCount(Pending(s, u), s.now) - m));
    }
  }

  /** Once their capacity covers the expired claims, the ledger is exactly the one a single full
      cleanup gives: the same lists, totals, records and history. */
  lemma {:induction false} SweepsReachCleanup(s: Ledger, u: Address, maxes: seq<nat>)
    requires Reachable(s) && Capacity(maxes) >= ExpiredCount(Pending(s, u), s.now)
    ensures Sweeps(s, u, maxes) == Cleanup(s, u).0
    decreases |maxes|
  {
    if maxes != [] {
      OneSweep(s, u, maxes[0]);
      CleanupAbsorbsSweep(s, u, maxes[0]);
      SweepsReachCleanup(Sweep(s, u, maxes[0]).0, u, maxes[1..]);
    }
  }

  /** Each sweep may look at one claim at least, so as many sweeps as there are expired claims
      always suffice. */
  lemma {:induction false} CapacityGrows(maxes: seq<nat>)
    ensures Capacity(maxes) >= |maxes|
  {
    if maxes != [] { CapacityGrows(maxes[1..]); }
  }

  // ----- Paging -----

  lemma {:induction false} AfterSuffix(cs: seq<Claim>, cursor: nat)
    requires Ordered(cs)
    ensures Ordered(After(cs, cursor))
    ensures forall c :: c in After(cs, cursor) ==> c in cs && c.id > cursor
    ensures (forall c :: c in cs ==> c.id > cursor) ==> After(cs, cursor) == cs
  {
    if cs != [] { AfterSuffix(cs[1..], cursor); }
  }

  /** Moving the cursor to the last claim of a page skips exactly that page. */
  lemma {:induction false} AfterPage(cs: seq<Claim>, cursor: nat, k: nat)
    requires Ordered(cs) && 0 < k <= |After(cs, cursor)|
    ensures After(cs, After(cs, cursor)[k - 1].id) == After(cs, cursor)[k..]
    ensures After(cs, cursor)[k - 1].id > cursor
  {
    AfterSuffix(cs, cursor);
    if cs[0].id <= cursor {
      AfterPage(cs[1..], cursor, k);
    } else if k == 1 {
      AfterSuffix(cs[1..], cs[0].id);
      AfterSuffix(cs[1..], cursor);
    } else {
      AfterSuffix(cs[1..], cursor);
      AfterPage(cs[1..], cursor, k - 1);
      assert After(cs, cursor)[k - 1] in cs[1..] by {
        assert After(cs, cursor)[k - 1] == After(cs[1..], cursor)[k - 2];
      }
    }
  }

  /** Feed each page's cursor back until there is none. */
  function CursorWalk(cs: seq<Claim>, cursor: nat, limit: nat): seq<Claim>
    requires Ordered(cs) && limit >= 1
    decreases |After(cs, cursor)|
  {
    var (page, next) := Page(cs, cursor, limit);
    if next.None? then page
    else
      AfterPage(cs, cursor, |page|);
      page + CursorWalk(cs, next.value, limit)
  }

  lemma PageIsPrefix(cs: seq<Claim>, cursor: nat, limit: nat)
    requires limit >= 1
    ensures var (page, next) := Page(cs, cursor, limit);
      && After(cs, cursor) == page + After(cs, cursor)[|page|..]
      && (if next.None? then page == After(cs, cursor)
          else 0 < |page| && next.value == After(cs, cursor)[|page| - 1].id)
  {
  }

  lemma {:induction false} CursorWalkFrom(cs: seq<Claim>, cursor: nat, limit: nat)
    requires Ordered(cs) && limit >= 1
    ensures CursorWalk(cs, cursor, limit) == After(cs, cursor)
    decreases |After(cs, cursor)|
  {
    var (page, next) := Page(cs, cursor, limit);
    PageIsPrefix(cs, cursor, limit);
    if next.Some? {
      AfterPage(cs, cursor, |page|);
      CursorWalkFrom(cs, next.value, limit);
    }
  }

  /** On every reachable ledger, walking a user's pages from cursor 0 terminates and
      concatenates to the pending list, for every limit, also when the last page is full. */
  lemma CursorWalkIsPendingList(s: Ledger, u: Address, limit: nat)
    requires Reachable(s) && limit >= 1
    ensures Ordered(Pending(s, u)) && CursorWalk(Pending(s, u), 0, limit) == Pending(s, u)
  {
    PendingIsFresh(s, u);
    ReachableInv(s);
    CursorWalkFrom(Pending(s, u), 0, limit);
    AfterSuffix(Pending(s, u), 0);
    assert u in s.pending ==> AccountOk(s, u) && forall c :: c in s.pending[u] ==> Good(s, u, c);
  }

  // ----- Paging while the ledger changes -----

  /** A reader asks for a page of some size; before the next page anyone may call anything. */
  datatype Round = Round(limit: nat, between: seq<Call>)

  /** What was read, whether the reader was done, and the ledger its last page came from. */
  datatype Walk = Walk(read: seq<Claim>, done: bool, last: Ledger)

  function InterleavedWalk(s: Ledger, u: Address, cursor: nat, rounds: seq<Round>): Walk
    decreases |rounds|
  {
    if rounds == [] then Walk([], false, s)
    else
      var (page, next) := Page(Pending(s, u), cursor, rounds[0].limit);
      if next.None? then Walk(page, true, s)
      else
        var rest := InterleavedWalk(Run(s, rounds[0].between), u, next.value, rounds[1..]);
        rest.(read := page + rest.read)
  }

  lemma {:induction false} ReachableRun(s: Ledger, calls: seq<Call>)
    requires Reachable(s)
    ensures Reachable(Run(s, calls))
  {
    if calls != [] {
      ReachableRun(s, calls[..|calls| - 1]);
      ReachableStep(Run(s, calls[..|calls| - 1]), calls[|calls| - 1]);
    }
  }

  /** A pass over one list keeps claims of that list only and leaves all other lists alone. */
  lemma SettleKeepsOldClaims(s: Ledger, u: Address, r: Split, how: EntryKind, v: Address, c: Claim)
    requires IsSplit(Pending(s, u), r) && c in Pending(Settle(s, u, r, how), v)
    ensures c in Pending(s, v)
  {
    PendingAfterSettle(s, u, r, how, v);
  }

  lemma ExpireNeverReturns(s: Ledger, v: Address, r: Split, u: Address, c: Claim)
    requires IsSplit(Pending(s, v), r) && c in Pending(Expire(s, v, r).0, u)
    ensures c in Pending(s, u)
  {
    if r.dropped != [] { SettleKeepsOldClaims(s, v, r, Dropped, u, c); }
  }

  /** No call puts an issued claim back on a list. */
  lemma StepNeverReturns(s: Ledger, call: Call, u: Address, c: Claim)
    requires c in Pending(Step(s, call), u) && c.id <= s.counter
    ensures c in Pending(s, u)
  {
    match call
    case Tick(_) =>
    case AddClaim(_, _, _, _, _) =>
    case ProcessClaims(v, ks, max, auth, ok) =>
      PaySplitIsSplit(Pending(s, v), ks, BatchLimit(max), s.now);
      if Process(s, v, ks, max, auth, ok).Ok? {
        var r := PaySplit(Pending(s, v), ks, BatchLimit(max), s.now);
        SettleKeepsOldClaims(s, v, r, Forgone, u, c);
      }
    case CleanupExpired(v) =>
      CleanupSplitIsSplit(Pending(s, v), s.now);
      ExpireNeverReturns(s, v, CleanupSplit(Pending(s, v), s.now), u, c);
    case ExpireBounded(v, max) =>
      SweepSplitIsSplit(Pending(s, v), BatchLimit(max), s.now);
      ExpireNeverReturns(s, v, SweepSplit(Pending(s, v), BatchLimit(max), s.now), u, c);
  }

  lemma StepCountsUp(s: Ledger, call: Call)
    ensures s.counter <= Step(s, call).counter
  {
  }

  lemma {:induction false} RunCountsUp(s: Ledger, calls: seq<Call>)
    ensures s.counter <= Run(s, calls).counter
  {
    if calls != [] {
      RunCountsUp(s, calls[..|calls| - 1]);
      StepCountsUp(Run(s, calls[..|calls| - 1]), calls[|calls| - 1]);
    }
  }

  lemma {:induction false} RunNeverReturns(s: Ledger, calls: seq<Call>, u: Address, c: Claim)
    requires c in Pending(Run(s, calls), u) && c.id <= s.counter
    ensures c in Pending(s, u)
  {
    if calls != [] {
      RunCountsUp(s, calls[..|calls| - 1]);
      StepNeverReturns(Run(s, calls[..|calls| - 1]), calls[|calls| - 1], u, c);
      RunNeverReturns(s, calls[..|calls| - 1], u, c);
    }
  }

  /** What is still pending when the walk ends was pending all the time since its claim was made. */
  lemma {:induction false} WalkNeverReturns(s: Ledger, u: Address, cursor: nat, rounds: seq<Round>, c: Claim)
    requires c in Pending(InterleavedWalk(s, u, cursor, rounds).last, u) && c.id <= s.counter
    ensures c in Pending(s, u)
    decreases |rounds|
  {
    if rounds != [] {
      var (page, next) := Page(Pending(s, u), cursor, rounds[0].limit);
      if next.Some? {
        RunCountsUp(s, rounds[0].between);
        WalkNeverReturns(Run(s, rounds[0].between), u, next.value, rounds[1..], c);
        RunNeverReturns(s, rounds[0].between, u, c);
      }
    }
  }

  predicate Increasing(cs: seq<Claim>, above: nat) {
    && (forall c :: c in cs ==> c.id > above)
    && forall i, j :: 0 <= i < j < |cs| ==> cs[i].id < cs[j].id
  }

  lemma {:induction false} OrderedIsIncreasing(cs: seq<Claim>, above: nat)
    requires Ordered(cs) && forall c :: c in cs ==> c.id > above
    ensures Increasing(cs, above)
  {
    if cs != [] {
      var rest := cs[1..];
      assert forall c :: c in rest ==> c in cs;
      OrderedIsIncreasing(rest, above);
      forall i, j | 0 <= i < j < |cs| ensures cs[i].id < cs[j].id {
        assert rest[j - 1] == cs[j] && rest[j - 1] in rest;
        if i > 0 { assert rest[i - 1] == cs[i]; }
      }
    }
  }

  lemma {:induction false} AfterHolds(cs: seq<Claim>, cursor: nat)
    ensures forall c :: c in cs && c.id > cursor ==> c in After(cs, cursor)
  {
    if cs != [] { AfterHolds(cs[1..], cursor); }
  }

  /** A prefix of an increasing list holds exactly the ids up to its last. */
  lemma IncreasingPrefix(cs: seq<Claim>, k: nat, above: nat)
    requires Increasing(cs, above) && k <= |cs|
    ensures Increasing(cs[..k], above) && forall c :: c in cs[..k] ==> c in cs
    ensures k > 0 ==> forall c :: c in cs ==> (c in cs[..k] <==> c.id <= cs[k - 1].id)
  {
    if k > 0 {
      forall c | c in cs ensures c in cs[..k] <==> c.id <= cs[k - 1].id {
        var i :| 0 <= i < |cs| && cs[i] == c;
        if i < k { assert cs[..k][i] == c; }
        if c in cs[..k] {
          var j :| 0 <= j < k && cs[..k][j] == c;
          assert cs[j] == c;
        }
      }
    }
  }

  lemma PageOfList(cs: seq<Claim>, cursor: nat, limit: nat)
    requires Ordered(cs) && limit >= 1
    ensures var (page, next) := Page(cs, cursor, limit);
      && Increasing(page, cursor)
      && (forall c :: c in page ==> c in cs && (next.Some? ==> c.id <= next.value))
      && (forall c :: c in cs && c.id > cursor && (next.Some? ==> c.id <= next.value) ==> c in page)
      && (next.Some? ==> page != [] && page[|page| - 1].id == next.value > cursor)
  {
    var (page, next) := Page(cs, cursor, limit);
    var rest := After(cs, cursor);
    PageIsPrefix(cs, cursor, limit);
    AfterSuffix(cs, cursor);
    OrderedIsIncreasing(rest, cursor);
    AfterHolds(cs, cursor);
    IncreasingPrefix(rest, |page|, cursor);
  }

  /** One page of a reachable ledger: increasing behind the cursor, and complete up to the next. */
  lemma PageOfWalk(s: Ledger, u: Address, cursor: nat, limit: nat)
    requires Reachable(s) && limit >= 1
    ensures var (page, next) := Page(Pending(s, u), cursor, limit);
      && Increasing(page, cursor)
      && (forall c :: c in page ==> c in Pending(s, u) && (next.Some? ==> c.id <= next.value))
      && (forall c :: c in Pending(s, u) && c.id > cursor && (next.Some? ==> c.id <= next.value) ==> c in page)
      && (next.Some? ==> page != [] && cursor < next.value <= s.counter)
  {
    var cs := Pending(s, u);
    var (page, next) := Page(cs, cursor, limit);
    PendingIsFresh(s, u);
    PageOfList(cs, cursor, limit);
    if next.Some? {
      ReachableInv(s);
      var c := page[|page| - 1];
      assert c in cs;
      assert AccountOk(s, u) && Good(s, u, c);
    }
  }

  lemma {:induction false} WalkFrom(s: Ledger, u: Address, cursor: nat, rounds: seq<Round>)
    requires Reachable(s) && forall i :: 0 <= i < |rounds| ==> rounds[i].limit >= 1
    ensures var w := InterleavedWalk(s, u, cursor, rounds);
      && Increasing(w.read, cursor)
      && (w.done ==> forall c :: c in Pending(w.last, u) && c.id > cursor ==> c in w.read)
      && (!w.done ==> |w.read| >= |rounds|)
    decreases |rounds|
  {
    if rounds != [] {
      PageOfWalk(s, u, cursor, rounds[0].limit);
      var (page, next) := Page(Pending(s, u), cursor, rounds[0].limit);
      if next.Some? {
        var t := Run(s, rounds[0].between);
        ReachableRun(s, rounds[0].between);
        WalkFrom(t, u, next.value, rounds[1..]);
        var w := InterleavedWalk(s, u, cursor, rounds);
        forall c | w.done && c in Pending(w.last, u) && c.id > cursor ensures c in w.read {
          if c.id <= next.value { WalkNeverReturns(s, u, cursor, rounds, c); }
        }
      }
    }
  }

  lemma {:induction false} WalkEndsReachable(s: Ledger, u: Address, cursor: nat, rounds: seq<Round>)
    requires Reachable(s)
    ensures Reachable(InterleavedWalk(s, u, cursor, rounds).last)
    decreases |rounds|
  {
    if rounds != [] {
      var (page, next) := Page(Pending(s, u), cursor, rounds[0].limit);
      if next.Some? {
        ReachableRun(s, rounds[0].between);
        WalkEndsReachable(Run(s, rounds[0].between), u, next.value, rounds[1..]);
      }
    }
  }

  /** A walk from cursor 0, page sizes and calls between the pages being arbitrary: it returns
      ids in strictly increasing order, so no claim twice, and when it is done it has returned
      every claim that is pending as its last page is read, among them every claim that was
      pending throughout. Each page that is not the last returns something. */
  lemma InterleavedWalkIsComplete(s: Ledger, u: Address, rounds: seq<Round>)
    requires Reachable(s) && forall i :: 0 <= i < |rounds| ==> rounds[i].limit >= 1
    ensures var w := InterleavedWalk(s, u, 0, rounds);
      && (forall i, j :: 0 <= i < j < |w.read| ==> w.read[i].id < w.read[j].id)
      && (w.done ==> forall c :: c in Pending(w.last, u) ==> c in w.read)
      && (!w.done ==> |w.read| >= |rounds|)
  {
    WalkFrom(s, u, 0, rounds);
    var w := InterleavedWalk(s, u, 0, rounds);
    WalkEndsReachable(s, u, 0, rounds);
    ReachableInv(w.last);
    assert u in w.last.pending ==> AccountOk(w.last, u) && forall c :: c in w.last.pending[u] ==> Good(w.last, u, c);
  }

  // ----- Offset pages -----

  /** The documented offset loop: read a page, stop when it is empty, advance by its length. */
  function OffsetWalk(cs: seq<Claim>, offset: nat, limit: nat): seq<Claim>
    decreases |cs| - offset
  {
    var page := OffsetPage(cs, offset, limit);
    if page == [] then [] else page + OffsetWalk(cs, offset + |page|, limit)
  }

  lemma {:induction false} OffsetWalkIsRest(cs: seq<Claim>, offset: nat, limit: nat)
    requires offset <= |cs|
    ensures OffsetWalk(cs, offset, limit) == cs[offset..]
    decreases |cs| - offset
  {
    var page := OffsetPage(cs, offset, limit);
    if page != [] {
      OffsetWalkIsRest(cs, offset + |page|, limit);
      assert cs[offset..] == page + cs[offset + |page|..];
    }
  }

  // ----- Offset pages while the list changes -----

  lemma IncreasingPush(cs: seq<Claim>, c: Claim)
    ensures Increasing(cs + [c], 0) <==> Increasing(cs, 0) && c.id > 0 && forall d :: d in cs ==> d.id < c.id
  {
    var all := cs + [c];
    if Increasing(all, 0) {
      assert c in all;
      forall i | 0 <= i < |cs| ensures cs[i].id < c.id && cs[i].id > 0 {
        assert all[i] == cs[i] && all[|cs|] == c && cs[i] in all;
      }
      forall i, j | 0 <= i < j < |cs| ensures cs[i].id < cs[j].id {
        assert all[i] == cs[i] && all[j] == cs[j];
      }
    }
  }

  lemma {:induction false} KeptIncreasing(cs: seq<Claim>, keep: set<Claim>)
    requires Increasing(cs, 0)
    ensures Increasing(Kept(cs, keep), 0)
  {
    if cs != [] {
      var front, last := cs[..|cs| - 1], cs[|cs| - 1];
      assert cs == front + [last];
      IncreasingPush(front, last);
      KeptIncreasing(front, keep);
      KeptIs(front, keep);
      IncreasingPush(Kept(front, keep), last);
    }
  }

  predicate ById(cs: seq<Claim>) {
    forall i, j :: 0 <= i < j < |cs| ==> cs[i].id < cs[j].id
  }

  lemma SamePlace(xs: seq<Claim>, ds: seq<Claim>, i: nat, j: nat, m: nat)
    requires ById(xs) && ById(ds) && i <= j < |ds| && i < |xs| && m < |xs|
    requires forall p :: 0 <= p < i ==> xs[p] == ds[p]
    requires ds[j] == xs[i] && xs[m] == ds[i]
    ensures m == i
  {
  }

  lemma NotBefore(xs: seq<Claim>, ds: seq<Claim>, i: nat, j: nat)
    requires ById(xs) && i < |xs| && j < |ds| && ds[j] == xs[i]
    requires forall p :: 0 <= p < i && p < |ds| ==> xs[p] == ds[p]
    ensures i <= j
  {
  }

  /** The list `xs` holds exactly the claims of `ds` with ids up to `k`. */
  ghost predicate OldPart(xs: seq<Claim>, ds: seq<Claim>, k: nat) {
    forall c :: c in xs <==> c in ds && c.id <= k
  }

  lemma PlaceInLater(xs: seq<Claim>, ds: seq<Claim>, k: nat, i: nat) returns (j: nat)
    requires OldPart(xs, ds, k) && i < |xs|
    ensures j < |ds| && ds[j] == xs[i] && xs[i].id <= k
  {
    assert xs[i] in xs;
    j :| 0 <= j < |ds| && ds[j] == xs[i];
  }

  lemma PlaceInOld(xs: seq<Claim>, ds: seq<Claim>, k: nat, i: nat) returns (m: nat)
    requires OldPart(xs, ds, k) && i < |ds| && ds[i].id <= k
    ensures m < |xs| && xs[m] == ds[i]
  {
    assert ds[i] in ds;
    m :| 0 <= m < |xs| && xs[m] == ds[i];
  }

  lemma NextSame(xs: seq<Claim>, ds: seq<Claim>, k: nat, i: nat)
    requires ById(xs) && ById(ds) && OldPart(xs, ds, k) && i < |xs|
    requires i <= |ds| && forall p :: 0 <= p < i ==> xs[p] == ds[p]
    ensures i < |ds| && xs[i] == ds[i]
  {
    var j := PlaceInLater(xs, ds, k, i);
    NotBefore(xs, ds, i, j);
    assert ds[i].id <= ds[j].id;
    var m := PlaceInOld(xs, ds, k, i);
    SamePlace(xs, ds, i, j, m);
  }

  /** If both lists are ordered by id, `ds` begins with `xs`. */
  lemma {:induction false} BeginsWith(xs: seq<Claim>, ds: seq<Claim>, k: nat, n: nat)
    requires ById(xs) && ById(ds) && n <= |xs| && OldPart(xs, ds, k)
    ensures n <= |ds| && forall i :: 0 <= i < n ==> xs[i] == ds[i]
  {
    if n > 0 {
      BeginsWith(xs, ds, k, n - 1);
      NextSame(xs, ds, k, n - 1);
    }
  }

  lemma PendingIncreases(s: Ledger, u: Address)
    requires Reachable(s)
    ensures Increasing(Pending(s, u), 0) && NoDup(Pending(s, u))
    ensures forall c :: c in Pending(s, u) ==> c.id <= s.counter
  {
    ReachableInv(s);
    PendingIsFresh(s, u);
    if u in s.pending {
      assert AccountOk(s, u);
      forall c | c in s.pending[u] ensures 1 <= c.id <= s.counter { assert Good(s, u, c); }
    }
    OrderedIsIncreasing(Pending(s, u), 0);
  }

  /** Which claims of a later list are of the old one: those with old ids. */
  lemma OldPending(s: Ledger, calls: seq<Call>, u: Address, xs: seq<Claim>)
    requires Reachable(s) && xs == Kept(Pending(s, u), set c | c in Pending(Run(s, calls), u))
    ensures OldPart(xs, Pending(Run(s, calls), u), s.counter) && Increasing(xs, 0)
  {
    var cs, ds := Pending(s, u), Pending(Run(s, calls), u);
    PendingIncreases(s, u);
    KeptIncreasing(cs, set c | c in ds);
    KeptIs(cs, set c | c in ds);
    forall c ensures c in xs <==> c in ds && c.id <= s.counter {
      if c in ds && c.id <= s.counter { RunNeverReturns(s, calls, u, c); }
    }
  }

  /** After any calls: the claims of the old list that still pend come first, in their old order. */
  lemma OldPendFirst(s: Ledger, calls: seq<Call>, u: Address)
    requires Reachable(s)
    ensures var ds := Pending(Run(s, calls), u);
      Kept(Pending(s, u), set c | c in ds) <= ds
  {
    var ds := Pending(Run(s, calls), u);
    var xs := Kept(Pending(s, u), set c | c in ds);
    ReachableRun(s, calls);
    PendingIncreases(Run(s, calls), u);
    OldPending(s, calls, u, xs);
    BeginsWith(xs, ds, s.counter, |xs|);
  }

  /** A reader that goes on at `offset` of `ds` meets every unread claim of `cs` that still pends. */
  predicate MeetsPending(cs: seq<Claim>, ds: seq<Claim>, offset: nat)
    requires offset <= |cs|
  {
    forall c :: c in cs[offset..] && c in ds ==> offset <= |ds| && c in ds[offset..]
  }

  lemma MeetsKept(cs: seq<Claim>, ds: seq<Claim>, offset: nat, x: seq<Claim>, y: seq<Claim>)
    requires NoDup(ds) && offset <= |cs| && x + y <= ds
    requires x == Kept(cs[..offset], set c | c in ds) && y == Kept(cs[offset..], set c | c in ds)
    ensures MeetsPending(cs, ds, offset) <==>
      (forall c :: c in cs[..offset] ==> c in ds) || (forall c :: c in cs[offset..] ==> c !in ds)
  {
    KeptIs(cs[..offset], set c | c in ds);
    KeptIs(cs[offset..], set c | c in ds);
    SeenBehind(ds, x, y, offset);
    if y != [] { assert y[0] in y; }
  }

  /** The reader has read `offset` claims and goes on at that offset, whatever was called since. It
      misses no claim that still pends exactly when every claim it read still pends, or no unread
      one does: each claim paid or dropped among the read hides one. */
  lemma OffsetGapIff(s: Ledger, calls: seq<Call>, u: Address, offset: nat)
    requires Reachable(s) && offset <= |Pending(s, u)|
    ensures var cs, ds := Pending(s, u), Pending(Run(s, calls), u);
      MeetsPending(cs, ds, offset) <==>
        (forall c :: c in cs[..offset] ==> c in ds) || (forall c :: c in cs[offset..] ==> c !in ds)
  {
    var cs, ds := Pending(s, u), Pending(Run(s, calls), u);
    var keep := set c | c in ds;
    ReachableRun(s, calls);
    PendingIncreases(Run(s, calls), u);
    OldPendFirst(s, calls, u);
    assert cs == cs[..offset] + cs[offset..];
    KeptConcat(cs[..offset], cs[offset..], keep);
    MeetsKept(cs, ds, offset, Kept(cs[..offset], keep), Kept(cs[offset..], keep));
  }

  // ----- The edge of the clock -----

  lemma ClockWraps(now: nat)
    requires now <= U64_MAX
    ensures WrapAddU64(now, DEFAULT_CLAIM_EXPIRY) ==
      if now <= LATEST_CLOCK then now + DEFAULT_CLAIM_EXPIRY else now + DEFAULT_CLAIM_EXPIRY - U64_MAX - 1
  {
  }

  lemma TwoOrdered(a: Claim, b: Claim)
    ensures Ordered([a, b]) <==> a.id < b.id && a.expiresAt <= b.expiresAt
  {
    var cs, one := [a, b], [b];
    assert cs[1..] == one && one[1..] == [] && one[0] == b && cs[0] == a;
    assert Ordered(one[1..]);
    assert Ordered(one);
    assert b in one;
    assert Ordered(cs) <==> (forall c :: c in one ==> a.id < c.id && a.expiresAt <= c.expiresAt) && Ordered(one);
  }

  /** Two claims added one after the other, the first at `first`, the second at `second`: the
      list is in order exactly when the second comes at LATEST_CLOCK or before. Later, the
      release build's addition wraps and gives the second claim an expiry below the first's. */
  lemma OrderNeedsClockHeadroom(u: Address, first: nat, second: nat)
    requires first <= LATEST_CLOCK && first <= second <= U64_MAX
    ensures var s1 := Add(Initial.(now := first), u, FeeRebate, 1, 0, "");
      && s1.Ok?
      && var s2 := Add(s1.value.0.(now := second), u, FeeRebate, 1, 0, "");
      && s2.Ok? && |Pending(s2.value.0, u)| == 2
      && (Ordered(Pending(s2.value.0, u)) <==> second <= LATEST_CLOCK)
  {
    ClockWraps(first);
    ClockWraps(second);
    var s1 := Add(Initial.(now := first), u, FeeRebate, 1, 0, "").value.0;
    var s2 := Add(s1.(now := second), u, FeeRebate, 1, 0, "").value.0;
    var c1 := Claim(1, FeeRebate, 1, first, WrapAddU64(first, DEFAULT_CLAIM_EXPIRY), 0, "", false);
    var c2 := Claim(2, FeeRebate, 1, second, WrapAddU64(second, DEFAULT_CLAIM_EXPIRY), 0, "", false);
    assert Pending(s1, u) == [c1] && Pending(s2, u) == [c1, c2];
    TwoOrdered(c1, c2);
  }
}
