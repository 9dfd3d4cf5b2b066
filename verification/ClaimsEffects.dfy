/** What each call does to the claims, told from the ledgers before and after it. */
module ClaimsEffects {
  import opened Host
  import opened Lists
  import opened Claims
  import opened ClaimsTheorems

  const THIRTY_DAYS: nat := 2_592_000

  /** Everything about the users other than `u` is as it was, and so is the clock. */
  ghost predicate OthersStay(s: Ledger, t: Ledger, u: Address) {
    && t.now == s.now
    && forall v :: v != u ==> Pending(t, v) == Pending(s, v) && Claimable(t, v) == Claimable(s, v)
  }

  // ----- Adding -----

  /** A claim can be added exactly if its amount is positive and the id, the list and the running
      total have room. */
  lemma AddSucceedsIff(s: Ledger, u: Address, kind: ClaimType, amount: int, sourceId: nat, metadata: string)
    requires Reachable(s)
    ensures Add(s, u, kind, amount, sourceId, metadata).Ok? <==>
      && amount > 0 && s.counter < 0xFFFF_FFFF_FFFF_FFFF && |Pending(s, u)| < HOST_VEC_LIMIT
      && Claimable(s, u) + amount <= I128_MAX
  {
  }

  /** The ledger with one more claim, whoever made it. */
  lemma ClaimGrows(s: Ledger, u: Address, c: Claim)
    ensures var t := WithClaim(s, u, c);
      && t.counter == c.id && t.byId == s.byId[c.id := c] && Pending(t, u) == Pending(s, u) + [c] && OthersStay(s, t, u)
      && Claimable(t, u) == Claimable(s, u) + c.amount && Sum(Pending(t, u)) == Sum(Pending(s, u)) + c.amount
      && Total(t.log, Added, u) == Total(s.log, Added, u) + c.amount
  {
    var t := WithClaim(s, u, c);
    SumConcat(Pending(s, u), [c]);
    assert [c][1..] == [];
    assert t.log[..|t.log| - 1] == s.log;
  }

  lemma AddIs(s: Ledger, u: Address, kind: ClaimType, amount: int, sourceId: nat, metadata: string)
    requires Inv(s) && Add(s, u, kind, amount, sourceId, metadata).Ok?
    ensures var id := s.counter + 1;
      var c := Claim(id, kind, amount, s.now, s.now + THIRTY_DAYS, sourceId, metadata, false);
      Add(s, u, kind, amount, sourceId, metadata) == Ok((WithClaim(s, u, c), id)) && id !in s.byId
  {
  }

  /** It is issued as asked: the last claim of the list has the next id and the amount, the kind,
      the source and the text of the call, and lapses thirty days after now; the list, the record
      by id, the running total and what is booked as added grow by just that. */
  lemma AddTakesEffect(s: Ledger, u: Address, kind: ClaimType, amount: int, sourceId: nat, metadata: string)
    requires Reachable(s) && Add(s, u, kind, amount, sourceId, metadata).Ok?
    ensures var (t, id) := Add(s, u, kind, amount, sourceId, metadata).value;
      var c := Claim(id, kind, amount, s.now, s.now + THIRTY_DAYS, sourceId, metadata, false);
      && id == t.counter == s.counter + 1 && id !in s.byId && t.byId == s.byId[id := c]
      && Pending(t, u) == Pending(s, u) + [c] && OthersStay(s, t, u)
      && Claimable(t, u) == Claimable(s, u) + amount && Sum(Pending(t, u)) == Sum(Pending(s, u)) + amount
      && Total(t.log, Added, u) == Total(s.log, Added, u) + amount
  {
    var id := s.counter + 1;
    ReachableInv(s);
    AddIs(s, u, kind, amount, sourceId, metadata);
    ClaimGrows(s, u, Claim(id, kind, amount, s.now, s.now + THIRTY_DAYS, sourceId, metadata, false));
  }

  // ----- Paying -----

  predicate Payable(c: Claim, kinds: set<ClaimType>, now: nat) {
    !c.processed && now <= c.expiresAt && (kinds == {} || c.kind in kinds)
  }

  function CountPayable(cs: seq<Claim>, kinds: set<ClaimType>, now: nat): nat {
    if cs == [] then 0
    else CountPayable(cs[..|cs| - 1], kinds, now) + (if Payable(cs[|cs| - 1], kinds, now) then 1 else 0)
  }

  /** What a payment does with the claim at `i`: nothing once `limit` payable ones are behind it, and
      before that it pays what is payable, drops what has lapsed, and keeps what is of another kind. */
  ghost predicate Fated(cs: seq<Claim>, kinds: set<ClaimType>, limit: nat, now: nat, r: Split, i: nat)
    requires i < |cs|
  {
    var reached := CountPayable(cs[..i], kinds, now) < limit;
    && (cs[i] in r.paid <==> reached && Payable(cs[i], kinds, now))
    && (cs[i] in r.dropped <==> reached && now > cs[i].expiresAt)
    && (cs[i] in r.kept <==> cs[i] !in r.paid && cs[i] !in r.dropped)
  }

  /** No claim occurs twice, and all have an expiry and wait for payment. */
  ghost predicate Waiting(cs: seq<Claim>) {
    ById(cs) && forall c :: c in cs ==> !c.processed && c.expiresAt > 0
  }

  lemma {:induction false} CountPayableCons(c: Claim, cs: seq<Claim>, kinds: set<ClaimType>, now: nat)
    ensures CountPayable([c] + cs, kinds, now) ==
      CountPayable(cs, kinds, now) + (if Payable(c, kinds, now) then 1 else 0)
  {
    if cs == [] {
      assert ([c] + cs)[..0] == [];
    } else {
      assert ([c] + cs)[..|cs|] == [c] + cs[..|cs| - 1];
      CountPayableCons(c, cs[..|cs| - 1], kinds, now);
    }
  }

  lemma WaitingTail(cs: seq<Claim>)
    requires Waiting(cs) && cs != []
    ensures Waiting(cs[1..]) && cs[0] !in cs[1..]
  {
    var rest := cs[1..];
    forall i, j | 0 <= i < j < |rest| ensures rest[i].id < rest[j].id {
      assert rest[i] == cs[i + 1] && rest[j] == cs[j + 1];
    }
    forall i | 0 <= i < |rest| ensures rest[i] != cs[0] {
      assert rest[i] == cs[i + 1];
    }
  }

  lemma SplitMembers(cs: seq<Claim>, kinds: set<ClaimType>, limit: nat, now: nat)
    ensures var r := PaySplit(cs, kinds, limit, now);
      && (forall c :: c in r.paid ==> c in cs) && (forall c :: c in r.dropped ==> c in cs)
      && (forall c :: c in r.kept ==> c in cs)
  {
    PaySplitIsSplit(cs, kinds, limit, now);
  }

  /** Where nothing is reached, everything is kept. */
  lemma NothingReached(cs: seq<Claim>, kinds: set<ClaimType>, now: nat, i: nat)
    requires i < |cs|
    ensures Fated(cs, kinds, 0, now, PaySplit(cs, kinds, 0, now), i)
  {
  }

  lemma HeadFate(cs: seq<Claim>, kinds: set<ClaimType>, limit: nat, now: nat)
    requires Waiting(cs) && cs != [] && limit > 0
    ensures Fated(cs, kinds, limit, now, PaySplit(cs, kinds, limit, now), 0)
  {
    WaitingTail(cs);
    SplitMembers(cs[1..], kinds, limit - 1, now);
    SplitMembers(cs[1..], kinds, limit, now);
    assert cs[..0] == [];
  }

  lemma TailFate(cs: seq<Claim>, kinds: set<ClaimType>, limit: nat, now: nat, i: nat)
    requires Waiting(cs) && 0 < i < |cs| && limit > 0
    requires var lim := if Payable(cs[0], kinds, now) then limit - 1 else limit;
      Fated(cs[1..], kinds, lim, now, PaySplit(cs[1..], kinds, lim, now), i - 1)
    ensures Fated(cs, kinds, limit, now, PaySplit(cs, kinds, limit, now), i)
  {
    WaitingTail(cs);
    assert cs[..i] == [cs[0]] + cs[1..][..i - 1];
    CountPayableCons(cs[0], cs[1..][..i - 1], kinds, now);
    assert cs[1..][i - 1] == cs[i];
  }

  /** The payment pass, claim by claim. */
  lemma {:induction false} PassIsFated(cs: seq<Claim>, kinds: set<ClaimType>, limit: nat, now: nat, i: nat)
    requires Waiting(cs) && i < |cs|
    ensures Fated(cs, kinds, limit, now, PaySplit(cs, kinds, limit, now), i)
    decreases cs
  {
    if limit == 0 {
      NothingReached(cs, kinds, now, i);
    } else if i == 0 {
      HeadFate(cs, kinds, limit, now);
    } else {
      WaitingTail(cs);
      PassIsFated(cs[1..], kinds, if Payable(cs[0], kinds, now) then limit - 1 else limit, now, i - 1);
      TailFate(cs, kinds, limit, now, i);
    }
  }

  lemma {:induction false} EligibleIffPayable(cs: seq<Claim>, kinds: set<ClaimType>, now: nat)
    requires Waiting(cs)
    ensures Eligible(cs, kinds, now) != [] <==> exists c :: c in cs && Payable(c, kinds, now)
  {
    if cs != [] {
      WaitingTail(cs);
      EligibleIffPayable(cs[1..], kinds, now);
      assert cs == [cs[0]] + cs[1..];
      assert cs[0] in cs;
      if exists c :: c in cs && Payable(c, kinds, now) {
        var c :| c in cs && Payable(c, kinds, now);
        assert c == cs[0] || c in cs[1..];
      }
    }
  }

  lemma PendingWaits(s: Ledger, u: Address)
    requires Reachable(s)
    ensures Waiting(Pending(s, u)) && Ordered(Pending(s, u)) && forall c :: c in Pending(s, u) ==> c.amount > 0
  {
    ReachableInv(s);
    PendingIncreases(s, u);
    PendingIsFresh(s, u);
    if u in s.pending {
      assert AccountOk(s, u);
      forall c | c in s.pending[u] ensures c.amount > 0 { assert Good(s, u, c); }
    }
  }

  /** How many claims one payment or sweep may take. */
  function AtMostFifty(max: nat): nat {
    if 1 <= max <= 50 then max else 50
  }

  lemma PaysSomething(cs: seq<Claim>, kinds: set<ClaimType>, limit: nat, now: nat)
    requires Waiting(cs) && limit > 0 && forall c :: c in cs ==> c.amount > 0
    ensures var paid := PaySplit(cs, kinds, limit, now).paid;
      && (paid != [] <==> exists c :: c in cs && Payable(c, kinds, now))
      && (paid != [] ==> Sum(paid) > 0)
  {
    PaysOldestEligible(cs, kinds, limit, now);
    EligibleIffPayable(cs, kinds, now);
    SplitMembers(cs, kinds, limit, now);
    SumNonNegative(PaySplit(cs, kinds, limit, now).paid);
  }

  /** A payment succeeds exactly if the user signed, some pending claim is payable, and the token
      transfer succeeds. */
  lemma ProcessSucceedsIff(s: Ledger, u: Address, kinds: set<ClaimType>, max: nat, auth: set<Address>, payoutOk: bool)
    requires Reachable(s)
    ensures Process(s, u, kinds, max, auth, payoutOk).Ok? <==>
      u in auth && payoutOk && exists c :: c in Pending(s, u) && Payable(c, kinds, s.now)
  {
    PendingWaits(s, u);
    PaysSomething(Pending(s, u), kinds, BatchLimit(max), s.now);
  }

  lemma {:induction false} PaidById(cs: seq<Claim>, kinds: set<ClaimType>, limit: nat, now: nat)
    requires ById(cs)
    ensures ById(PaySplit(cs, kinds, limit, now).paid)
  {
    if cs != [] && limit != 0 {
      var rest := cs[1..];
      forall i, j | 0 <= i < j < |rest| ensures rest[i].id < rest[j].id {
        assert rest[i] == cs[i + 1] && rest[j] == cs[j + 1];
      }
      PaidById(rest, kinds, limit - 1, now);
      PaidById(rest, kinds, limit, now);
      SplitMembers(rest, kinds, limit - 1, now);
      var paid := PaySplit(rest, kinds, limit - 1, now).paid;
      forall i | 0 <= i < |paid| ensures cs[0].id < paid[i].id {
        assert paid[i] in rest;
        var j :| 0 <= j < |rest| && rest[j] == paid[i];
        assert cs[j + 1] == rest[j];
      }
    }
  }

  /** The claim at `p` is of kind `j`, and all before it are of earlier kinds. */
  predicate FirstOfKind(cs: seq<Claim>, kinds: seq<ClaimType>, j: nat, p: nat) {
    && j < |kinds| && p < |cs| && cs[p].kind == kinds[j]
    && forall q :: 0 <= q < p ==> cs[q].kind in kinds[..j]
  }

  ghost predicate Appears(cs: seq<Claim>, kinds: seq<ClaimType>, j: nat) {
    exists p: nat :: FirstOfKind(cs, kinds, j, p)
  }

  /** Each kind among the claims once, in the order in which they first appear. */
  ghost predicate KindsListed(kinds: seq<ClaimType>, cs: seq<Claim>) {
    && NoDup(kinds)
    && (forall c :: c in cs ==> c.kind in kinds)
    && forall j: nat :: j < |kinds| ==> Appears(cs, kinds, j)
  }

  lemma {:induction false} KindsAreListed(cs: seq<Claim>)
    ensures KindsListed(KindsOf(cs), cs)
  {
    if cs != [] {
      var front, last := cs[..|cs| - 1], cs[|cs| - 1];
      var ks, all := KindsOf(front), KindsOf(cs);
      assert cs == front + [last];
      KindsAreListed(front);
      forall j: nat | j < |all| ensures Appears(cs, all, j) {
        if j < |ks| {
          assert Appears(front, ks, j);
          var p: nat :| FirstOfKind(front, ks, j, p);
          assert all[..j] == ks[..j];
          assert FirstOfKind(cs, all, j, p);
        } else {
          assert all[..j] == ks;
          forall q | 0 <= q < |front| ensures cs[q].kind in ks {
            assert front[q] in front;
          }
          assert FirstOfKind(cs, all, j, |front|);
        }
      }
    }
  }

  /** The records of the paid claims are marked, all others stay. */
  ghost predicate Marked(before: map<nat, Claim>, after: map<nat, Claim>, paid: seq<Claim>) {
    && after.Keys == before.Keys
    && forall id :: id in before ==>
         after[id] == if exists c :: c in paid && c.id == id then before[id].(processed := true) else before[id]
  }

  lemma PaidAreMarked(s: Ledger, u: Address, paid: seq<Claim>)
    requires Inv(s) && forall c :: c in paid ==> c in Pending(s, u)
    ensures Marked(s.byId, MarkPaid(s.byId, paid), paid)
  {
    forall c | c in paid ensures c.id in s.byId && s.byId[c.id] == c {
      assert AccountOk(s, u) && Good(s, u, c);
    }
    MarkPaidAt(s.byId, paid, 0);
    forall id | id in s.byId
      ensures MarkPaid(s.byId, paid)[id]
        == if exists c :: c in paid && c.id == id then s.byId[id].(processed := true) else s.byId[id]
    {
      MarkPaidAt(s.byId, paid, id);
      CountMember(paid, id);
    }
  }

  lemma KeptById(cs: seq<Claim>, kinds: set<ClaimType>, limit: nat, now: nat)
    requires Ordered(cs) && forall c :: c in cs ==> c.id > 0
    ensures ById(PaySplit(cs, kinds, limit, now).kept)
  {
    var kept := PaySplit(cs, kinds, limit, now).kept;
    PaySplitIsSplit(cs, kinds, limit, now);
    OrderedIsIncreasing(kept, 0);
  }

  /** The parts of a list that a payment pays, drops and keeps, each in the order of the list. */
  ghost predicate SplitFor(cs: seq<Claim>, kinds: set<ClaimType>, limit: nat, now: nat, r: Split) {
    && (forall i :: 0 <= i < |cs| ==> Fated(cs, kinds, limit, now, r, i))
    && (forall c :: c in r.paid + r.dropped + r.kept ==> c in cs) && ById(r.paid) && ById(r.kept)
  }

  lemma PassSplits(s: Ledger, u: Address, kinds: set<ClaimType>, limit: nat)
    requires Reachable(s)
    ensures SplitFor(Pending(s, u), kinds, limit, s.now, PaySplit(Pending(s, u), kinds, limit, s.now))
  {
    var cs := Pending(s, u);
    PendingWaits(s, u);
    PendingIncreases(s, u);
    SplitMembers(cs, kinds, limit, s.now);
    PaidById(cs, kinds, limit, s.now);
    KeptById(cs, kinds, limit, s.now);
    forall i | 0 <= i < |cs| ensures Fated(cs, kinds, limit, s.now, PaySplit(cs, kinds, limit, s.now), i) {
      PassIsFated(cs, kinds, limit, s.now, i);
    }
  }

  /** The ledger after `u`'s list was split as `r`: the kept claims stay, the paid records are marked,
      and the running total loses what was paid, or is gone with the list. */
  ghost predicate Pays(s: Ledger, t: Ledger, u: Address, r: Split) {
    && Pending(t, u) == r.kept && OthersStay(s, t, u) && t.counter == s.counter && t.owner == s.owner
    && Claimable(t, u) == (if r.kept == [] then 0 else Claimable(s, u) - Sum(r.paid))
    && Marked(s.byId, t.byId, r.paid)
  }

  lemma PaymentSettles(s: Ledger, u: Address, r: Split)
    requires Marked(s.byId, MarkPaid(s.byId, r.paid), r.paid)
    ensures Pays(s, Settle(s, u, r, Forgone), u, r)
  {
  }

  lemma ProcessIs(s: Ledger, u: Address, kinds: set<ClaimType>, max: nat, auth: set<Address>, payoutOk: bool,
                  t: Ledger, receipt: Receipt, r: Split)
    requires Process(s, u, kinds, max, auth, payoutOk) == Ok((t, receipt))
    requires r == PaySplit(Pending(s, u), kinds, BatchLimit(max), s.now)
    ensures t == Settle(s, u, r, Forgone) && receipt == Receipt(|r.paid|, Sum(r.paid), KindsOf(r.paid))
  {
  }

  lemma PassMarks(s: Ledger, u: Address, kinds: set<ClaimType>, limit: nat)
    requires Reachable(s)
    ensures var paid := PaySplit(Pending(s, u), kinds, limit, s.now).paid;
      Marked(s.byId, MarkPaid(s.byId, paid), paid)
  {
    ReachableInv(s);
    SplitMembers(Pending(s, u), kinds, limit, s.now);
    PaidAreMarked(s, u, PaySplit(Pending(s, u), kinds, limit, s.now).paid);
  }

  lemma PassPays(s: Ledger, u: Address, kinds: set<ClaimType>, limit: nat, r: Split)
    requires Reachable(s) && r == PaySplit(Pending(s, u), kinds, limit, s.now)
    ensures SplitFor(Pending(s, u), kinds, limit, s.now, r) && Pays(s, Settle(s, u, r, Forgone), u, r)
    ensures KindsListed(KindsOf(r.paid), r.paid)
  {
    assert SplitFor(Pending(s, u), kinds, limit, s.now, r) by { PassSplits(s, u, kinds, limit); }
    assert Pays(s, Settle(s, u, r, Forgone), u, r) by {
      PassMarks(s, u, kinds, limit);
      PaymentSettles(s, u, r);
    }
    assert KindsListed(KindsOf(r.paid), r.paid) by { KindsAreListed(r.paid); }
  }

  /** It pays the claims it should and nothing else: `r` says claim by claim what happens to the
      list, and the receipt names the number, the sum and the kinds of what was paid. */
  lemma ProcessTakesEffect(s: Ledger, u: Address, kinds: set<ClaimType>, max: nat, auth: set<Address>, payoutOk: bool,
                           t: Ledger, receipt: Receipt) returns (r: Split)
    requires Reachable(s) && Process(s, u, kinds, max, auth, payoutOk) == Ok((t, receipt))
    ensures SplitFor(Pending(s, u), kinds, AtMostFifty(max), s.now, r) && Pays(s, t, u, r)
    ensures receipt.count == |r.paid| && receipt.total == Sum(r.paid) && KindsListed(receipt.kinds, r.paid)
  {
    r := PaySplit(Pending(s, u), kinds, BatchLimit(max), s.now);
    ProcessIs(s, u, kinds, max, auth, payoutOk, t, receipt, r);
    assert BatchLimit(max) == AtMostFifty(max);
    PassPays(s, u, kinds, AtMostFifty(max), r);
  }

  // ----- Expiring -----

  /** The first `m` claims of the list have lapsed, and no more than that: the next one has not, or
      there is none, or the call looks at no more. */
  predicate LapsedFirst(cs: seq<Claim>, now: nat, m: nat, looks: nat) {
    && m <= |cs| && m <= looks
    && (forall i :: 0 <= i < m ==> now > cs[i].expiresAt)
    && (m == looks || m == |cs| || now <= cs[m].expiresAt)
  }

  /** The ledger without the first `m` claims of `u`. */
  ghost predicate Expired(s: Ledger, t: Ledger, u: Address, m: nat) {
    && m <= |Pending(s, u)|
    && Pending(t, u) == Pending(s, u)[m..] && OthersStay(s, t, u)
    && t.byId == s.byId && t.counter == s.counter
    && Claimable(t, u) == if m == |Pending(s, u)| then 0 else Claimable(s, u) - Sum(Pending(s, u)[..m])
  }

  lemma {:induction false} LapsedAreFirst(cs: seq<Claim>, now: nat)
    requires Ordered(cs) && Fresh(cs)
    ensures LapsedFirst(cs, now, ExpiredCount(cs, now), |cs|)
  {
    if cs != [] {
      if IsExpired(cs[0], now) {
        LapsedAreFirst(cs[1..], now);
        var m := ExpiredCount(cs[1..], now);
        forall i | 0 <= i < m + 1 ensures now > cs[i].expiresAt {
          if i > 0 { assert cs[1..][i - 1] == cs[i]; }
        }
      } else {
        NoneLapsed(cs, now);
      }
    }
  }

  lemma DropIsExpired(s: Ledger, u: Address, m: nat)
    requires Reachable(s) && m <= |Pending(s, u)|
    ensures Expired(s, DropOldest(s, u, m), u, m)
  {
    ReachableInv(s);
    assert BalanceOk(s, u);
    if m == 0 {
      assert Pending(s, u)[0..] == Pending(s, u) && Pending(s, u)[..0] == [];
    }
  }

  lemma {:induction false} ExpiryGrows(cs: seq<Claim>, m: nat)
    requires Ordered(cs) && m < |cs|
    ensures forall c :: c in cs[m..] ==> cs[m].expiresAt <= c.expiresAt
  {
    if m == 0 {
      forall c | c in cs[0..] ensures cs[0].expiresAt <= c.expiresAt {
        if c != cs[0] { assert c in cs[1..] by { assert cs == [cs[0]] + cs[1..]; } }
      }
    } else {
      ExpiryGrows(cs[1..], m - 1);
      assert cs[1..][m - 1..] == cs[m..] && cs[1..][m - 1] == cs[m];
    }
  }

  lemma RestHasTime(cs: seq<Claim>, now: nat, m: nat)
    requires Ordered(cs) && LapsedFirst(cs, now, m, |cs|)
    ensures forall c :: c in cs[m..] ==> now <= c.expiresAt
  {
    if m < |cs| {
      ExpiryGrows(cs, m);
    }
  }

  /** The bounded sweep drops the lapsed claims at the front of the list, but at most as many as it
      may look at; a full cleanup drops all that have lapsed. Both say how many. */
  lemma ExpiryTakesEffect(s: Ledger, u: Address, max: nat)
    requires Reachable(s)
    ensures var (t, m) := Sweep(s, u, max);
      LapsedFirst(Pending(s, u), s.now, m, AtMostFifty(max)) && Expired(s, t, u, m)
    ensures var (t, m) := Cleanup(s, u);
      && LapsedFirst(Pending(s, u), s.now, m, |Pending(s, u)|) && Expired(s, t, u, m)
      && forall c :: c in Pending(t, u) ==> s.now <= c.expiresAt
  {
    var cs := Pending(s, u);
    PendingIsFresh(s, u);
    ExpiryEffect(s, u, max);
    LapsedAreFirst(cs, s.now);
    var e := ExpiredCount(cs, s.now);
    DropIsExpired(s, u, e);
    DropIsExpired(s, u, Min(BatchLimit(max), e));
    RestHasTime(cs, s.now, e);
  }

  // ----- Pages -----

  /** A cursor page holds the next claims behind the cursor, as many as asked for but at most fifty; it
      names its last id as the next cursor exactly if it is full. */
  lemma PageIs(s: Ledger, u: Address, cursor: nat, limit: nat)
    requires Reachable(s)
    ensures var (page, next) := Page(Pending(s, u), cursor, limit);
      var n := if limit <= 50 then limit else 50;
      && (forall c :: c in page ==> c in Pending(s, u) && c.id > cursor) && ById(page) && |page| <= n
      && (|page| < n ==> forall c :: c in Pending(s, u) && c.id > cursor ==> c in page)
      && next == if n > 0 && |page| == n then Some(page[n - 1].id) else None
  {
    if limit > 0 {
      PageOfWalk(s, u, cursor, limit);
    } else {
      assert Page(Pending(s, u), cursor, 0) == ([], None);
    }
  }

  /** An offset page is the slice asked for, cut to 200 and to the list; zero asks for 200. */
  lemma OffsetPageIs(cs: seq<Claim>, offset: nat, limit: nat)
    ensures var n := if limit == 0 || limit > 200 then 200 else limit;
      OffsetPage(cs, offset, limit)
        == if offset >= |cs| then [] else if offset + n <= |cs| then cs[offset..offset + n] else cs[offset..]
  {
  }

  // ----- Over whole runs -----

  /** The call adds claim `c` for `u`, as yet unpaid. */
  predicate Adds(s: Ledger, call: Call, u: Address, c: Claim) {
    && call.AddClaim? && call.u == u
    && c == Claim(s.counter + 1, call.kind, call.amount, s.now, s.now + THIRTY_DAYS, call.sourceId,
                  call.metadata, false)
  }

  /** The call is a payment that `u` signed. */
  predicate IsSignedPayment(call: Call, u: Address) {
    call.ProcessClaims? && call.u == u && u in call.auth
  }

  lemma AddRecords(s: Ledger, call: Call, id: nat)
    requires Reachable(s) && call.AddClaim?
    ensures var t := Step(s, call);
      && t.byId.Keys == t.owner.Keys && s.byId.Keys == s.owner.Keys
      && (id in s.byId ==> id in t.byId && t.byId[id] == s.byId[id] && t.owner[id] == s.owner[id])
      && (id in t.byId && id !in s.byId ==> Adds(s, call, t.owner[id], t.byId[id]))
  {
    var o := Add(s, call.u, call.kind, call.amount, call.sourceId, call.metadata);
    ReachableInv(s);
    if o.Ok? { AddIs(s, call.u, call.kind, call.amount, call.sourceId, call.metadata); }
  }

  lemma PendingIsOwned(s: Ledger, u: Address, c: Claim)
    requires Reachable(s) && c in Pending(s, u)
    ensures c.id in s.owner && s.owner[c.id] == u
  {
    ReachableInv(s);
    assert AccountOk(s, u) && Good(s, u, c);
  }

  lemma PaymentKeepsOwners(s: Ledger, call: Call)
    requires call.ProcessClaims?
    ensures Step(s, call).owner == s.owner
  {
  }

  lemma PaymentRecords(s: Ledger, call: Call, id: nat)
    requires Reachable(s) && call.ProcessClaims? && id in s.byId && id in s.owner
    ensures var t := Step(s, call);
      && t.byId.Keys == s.byId.Keys && t.owner == s.owner
      && (t.byId[id] == s.byId[id]
          || (t.byId[id] == s.byId[id].(processed := true) && IsSignedPayment(call, s.owner[id])))
  {
    PaymentKeepsOwners(s, call);
    if Process(s, call.u, call.kinds, call.max, call.auth, call.payoutOk).Ok? {
      var (t, receipt) := Process(s, call.u, call.kinds, call.max, call.auth, call.payoutOk).value;
      var r := ProcessTakesEffect(s, call.u, call.kinds, call.max, call.auth, call.payoutOk, t, receipt);
      ProcessSucceedsIff(s, call.u, call.kinds, call.max, call.auth, call.payoutOk);
      if exists c :: c in r.paid && c.id == id {
        var c :| c in r.paid && c.id == id;
        assert c in r.paid + r.dropped + r.kept;
        PendingIsOwned(s, call.u, c);
      }
    }
  }

  lemma OtherRecords(s: Ledger, call: Call)
    requires !call.ProcessClaims? && !call.AddClaim?
    ensures Step(s, call).byId == s.byId && Step(s, call).owner == s.owner
  {
    if call.CleanupExpired? {
      CleanupSplitIsSplit(Pending(s, call.u), s.now);
    } else if call.ExpireBounded? {
      SweepSplitIsSplit(Pending(s, call.u), BatchLimit(call.max), s.now);
    }
  }

  lemma StepKeepsKeys(s: Ledger, call: Call)
    requires Reachable(s) && call.ProcessClaims?
    ensures Step(s, call).byId.Keys == s.byId.Keys
  {
    if Process(s, call.u, call.kinds, call.max, call.auth, call.payoutOk).Ok? {
      var (t, receipt) := Process(s, call.u, call.kinds, call.max, call.auth, call.payoutOk).value;
      var r := ProcessTakesEffect(s, call.u, call.kinds, call.max, call.auth, call.payoutOk, t, receipt);
    }
  }

  /** Call `i` of the run added the claim. */
  ghost predicate AddedBy(calls: seq<Call>, i: nat, u: Address, c: Claim) {
    i < |calls| && Adds(Run(Initial, calls[..i]), calls[i], u, c)
  }

  /** Call `i` of the run is a payment that `u` signed. */
  predicate PaidBy(calls: seq<Call>, i: nat, u: Address) {
    i < |calls| && IsSignedPayment(calls[i], u)
  }

  lemma KeysMatch(calls: seq<Call>)
    ensures Run(Initial, calls).owner.Keys == Run(Initial, calls).byId.Keys
  {
    assert Reachable(Run(Initial, calls));
    ReachableInv(Run(Initial, calls));
  }

  /** On every run each record goes back to the call that added it, with the user, the amount and all
      else that call gave, and it is marked paid only if a payment of the run was signed by that user. */
  lemma {:induction false} RecordsGoBackToCalls(calls: seq<Call>, id: nat)
    ensures var t := Run(Initial, calls);
      id in t.byId ==>
        && id in t.owner
        && (exists i: nat :: AddedBy(calls, i, t.owner[id], t.byId[id].(processed := false)))
        && (t.byId[id].processed ==> exists i: nat :: PaidBy(calls, i, t.owner[id]))
  {
    if calls != [] {
      var k := |calls| - 1;
      var front, call := calls[..k], calls[k];
      var s, t := Run(Initial, front), Run(Initial, calls);
      assert Reachable(s);
      ReachableInv(s);
      KeysMatch(calls);
      RecordsGoBackToCalls(front, id);
      if call.AddClaim? {
        AddRecords(s, call, id);
      } else if !call.ProcessClaims? {
        OtherRecords(s, call);
      } else if id in s.byId {
        PaymentRecords(s, call, id);
      } else {
        StepKeepsKeys(s, call);
      }
      if id in s.byId {
        var i: nat :| AddedBy(front, i, s.owner[id], s.byId[id].(processed := false));
        assert calls[..i] == front[..i] && AddedBy(calls, i, s.owner[id], s.byId[id].(processed := false));
        if s.byId[id].processed {
          var j: nat :| PaidBy(front, j, s.owner[id]);
          assert PaidBy(calls, j, s.owner[id]);
        } else if t.byId[id].processed {
          assert PaidBy(calls, k, s.owner[id]);
        }
      } else if id in t.byId {
        assert AddedBy(calls, k, t.owner[id], t.byId[id].(processed := false));
      }
    }
  }
}
