/** Pull-payment claims (contracts/credence_bond/src/claims.rs).

    The first part is the specification: what each entry point does to the ledger, stated on
    values. ClaimsContract.dfy holds the loops, proved against it; ClaimsTheorems.dfy holds
    what every run keeps. */
module Claims {
  import opened Host

  const MAX_BATCH_CLAIMS: nat := 50
  const MAX_PAGE_LIMIT: nat := 50
  const MAX_QUERY_LIMIT: nat := 200
  const DEFAULT_CLAIM_EXPIRY: nat := 30 * 24 * 60 * 60

  /** Latest ledger time at which a claim's expiry still fits in u64. */
  const LATEST_CLOCK: nat := U64_MAX - DEFAULT_CLAIM_EXPIRY

  datatype ClaimType = VerifierReward | SlashingReward | PenaltyRefund | FeeRebate | DisputeReward

  datatype Claim = Claim(
    id: nat, kind: ClaimType, amount: int, createdAt: nat, expiresAt: nat,
    sourceId: nat, metadata: string, processed: bool)

  datatype Receipt = Receipt(count: nat, total: int, kinds: seq<ClaimType>)

  datatype ClaimError = NonPositiveAmount | CounterOverflow | ClaimableOverflow | HostLimit
                      | Unauthorized | NoPendingClaims | NoValidClaims | TransferFailed

  /** Expired claims are dropped and taken off the running total, but those a payment drops leave
      their amounts in it: these are forgone. */
  datatype EntryKind = Added | Paid | Dropped | Forgone

  /** One line of a claim's history. */
  datatype Entry = Entry(kind: EntryKind, user: Address, id: nat, amount: int)

  /** Storage, the ledger clock, and two history variables: `owner` (the user an id was issued to)
      and `log`. */
  datatype Ledger = Ledger(
    now: nat,
    pending: map<Address, seq<Claim>>,
    claimable: map<Address, int>,
    byId: map<nat, Claim>,
    counter: nat,
    owner: map<nat, Address>,
    log: seq<Entry>)

  const Initial: Ledger := Ledger(0, map[], map[], map[], 0, map[], [])

  function Pending(s: Ledger, u: Address): seq<Claim> {
    if u in s.pending then s.pending[u] else []
  }

  function Claimable(s: Ledger, u: Address): int {
    if u in s.claimable then s.claimable[u] else 0
  }

  predicate IsExpired(c: Claim, now: nat) {
    c.expiresAt > 0 && now > c.expiresAt
  }

  function Sum(cs: seq<Claim>): int {
    if cs == [] then 0 else cs[0].amount + Sum(cs[1..])
  }

  function CountId(cs: seq<Claim>, id: nat): nat {
    if cs == [] then 0 else (if cs[0].id == id then 1 else 0) + CountId(cs[1..], id)
  }

  function Live(cs: seq<Claim>, now: nat): seq<Claim> {
    if cs == [] then []
    else if IsExpired(cs[0], now) then Live(cs[1..], now)
    else [cs[0]] + Live(cs[1..], now)
  }

  function Lapsed(cs: seq<Claim>, now: nat): seq<Claim> {
    if cs == [] then []
    else if IsExpired(cs[0], now) then [cs[0]] + Lapsed(cs[1..], now)
    else Lapsed(cs[1..], now)
  }

  /** What one pass over a pending list does with each claim. */
  datatype Split = Split(paid: seq<Claim>, kept: seq<Claim>, dropped: seq<Claim>)

  /** The payment pass: pay at most `limit` live claims of the wanted kinds (an empty set
      wants all), drop the expired ones it meets, keep the rest in order. */
  function PaySplit(cs: seq<Claim>, kinds: set<ClaimType>, limit: nat, now: nat): Split {
    if cs == [] || limit == 0 then Split([], cs, [])
    else
      var c := cs[0];
      if !c.processed && !IsExpired(c, now) && (kinds == {} || c.kind in kinds) then
        var r := PaySplit(cs[1..], kinds, limit - 1, now);
        r.(paid := [c] + r.paid)
      else
        var r := PaySplit(cs[1..], kinds, limit, now);
        if !c.processed && IsExpired(c, now) then r.(dropped := [c] + r.dropped)
        else r.(kept := [c] + r.kept)
  }

  /** The bounded sweep: look at the first `limit` claims only; drop those that are expired,
      unprocessed and have an expiry. */
  function SweepSplit(cs: seq<Claim>, limit: nat, now: nat): Split {
    if cs == [] || limit == 0 then Split([], cs, [])
    else
      var c := cs[0];
      var r := SweepSplit(cs[1..], limit - 1, now);
      if c.expiresAt != 0 && !c.processed && now > c.expiresAt then r.(dropped := [c] + r.dropped)
      else r.(kept := [c] + r.kept)
  }

  function BatchLimit(max: nat): nat {
    if max == 0 then MAX_BATCH_CLAIMS else Min(max, MAX_BATCH_CLAIMS)
  }

  function MarkPaid(byId: map<nat, Claim>, cs: seq<Claim>): map<nat, Claim> {
    if cs == [] then byId
    else var c := cs[|cs| - 1]; MarkPaid(byId, cs[..|cs| - 1])[c.id := c.(processed := true)]
  }

  /** The kinds of `cs`, each once, in order of first appearance. */
  function KindsOf(cs: seq<Claim>): seq<ClaimType> {
    if cs == [] then []
    else
      var ks := KindsOf(cs[..|cs| - 1]);
      var k := cs[|cs| - 1].kind;
      if k in ks then ks else ks + [k]
  }

  function Entries(kind: EntryKind, u: Address, cs: seq<Claim>): seq<Entry> {
    if cs == [] then [] else [Entry(kind, u, cs[0].id, cs[0].amount)] + Entries(kind, u, cs[1..])
  }

  /** What a pass takes off the running total, the dropped claims being logged as `how`. */
  function Deducted(r: Split, how: EntryKind): int {
    Sum(r.paid) + (if how == Forgone then 0 else Sum(r.dropped))
  }

  /** The ledger after a pass over `u`'s list split it as `r`. An emptied list takes the running
      total with it. */
  function Settle(s: Ledger, u: Address, r: Split, how: EntryKind): Ledger {
    s.(pending := if r.kept == [] then s.pending - {u} else s.pending[u := r.kept],
       claimable := if r.kept == [] then s.claimable - {u} else s.claimable[u := Claimable(s, u) - Deducted(r, how)],
       byId := MarkPaid(s.byId, r.paid),
       log := s.log + Entries(Paid, u, r.paid) + Entries(how, u, r.dropped))
  }

  /** The ledger with a new claim of `u`. */
  function WithClaim(s: Ledger, u: Address, c: Claim): Ledger {
    s.(pending := s.pending[u := Pending(s, u) + [c]],
       claimable := s.claimable[u := Claimable(s, u) + c.amount],
       byId := s.byId[c.id := c],
       counter := c.id,
       owner := s.owner[c.id := u],
       log := s.log + [Entry(Added, u, c.id, c.amount)])
  }

  function Add(s: Ledger, u: Address, kind: ClaimType, amount: int, sourceId: nat, metadata: string)
    : Result<(Ledger, nat), ClaimError>
  {
    if amount <= 0 then Err(NonPositiveAmount)
    else if s.counter >= U64_MAX then Err(CounterOverflow)
    else if |Pending(s, u)| >= HOST_VEC_LIMIT then Err(HostLimit)
    else if Claimable(s, u) + amount > I128_MAX then Err(ClaimableOverflow)
    else
      var id := s.counter + 1;
      var c := Claim(id, kind, amount, s.now, WrapAddU64(s.now, DEFAULT_CLAIM_EXPIRY), sourceId, metadata, false);
      Ok((WithClaim(s, u, c), id))
  }

  function Process(s: Ledger, u: Address, kinds: set<ClaimType>, max: nat, auth: set<Address>, payoutOk: bool)
    : Result<(Ledger, Receipt), ClaimError>
  {
    if u !in auth then Err(Unauthorized)
    else if Pending(s, u) == [] then Err(NoPendingClaims)
    else
      var r := PaySplit(Pending(s, u), kinds, BatchLimit(max), s.now);
      if r.paid == [] then Err(NoValidClaims)
      else if Sum(r.paid) > 0 && !payoutOk then Err(TransferFailed)
      else Ok((Settle(s, u, r, Forgone), Receipt(|r.paid|, Sum(r.paid), KindsOf(r.paid))))
  }

  function CleanupSplit(cs: seq<Claim>, now: nat): Split {
    Split([], Live(cs, now), Lapsed(cs, now))
  }

  /** Settle only when something was dropped, as both expiry entry points do. */
  function Expire(s: Ledger, u: Address, r: Split): (Ledger, nat) {
    if r.dropped == [] then (s, 0) else (Settle(s, u, r, Dropped), |r.dropped|)
  }

  function Cleanup(s: Ledger, u: Address): (Ledger, nat) {
    Expire(s, u, CleanupSplit(Pending(s, u), s.now))
  }

  function Sweep(s: Ledger, u: Address, max: nat): (Ledger, nat) {
    Expire(s, u, SweepSplit(Pending(s, u), BatchLimit(max), s.now))
  }

  /** The claims behind a cursor. */
  function After(cs: seq<Claim>, cursor: nat): seq<Claim> {
    if cs == [] then []
    else if cs[0].id <= cursor then After(cs[1..], cursor)
    else [cs[0]] + After(cs[1..], cursor)
  }

  /** A cursor page: the next claims behind the cursor, and where to go on when it filled. */
  function Page(cs: seq<Claim>, cursor: nat, limit: nat): (seq<Claim>, Option<nat>) {
    var cap := Min(limit, MAX_PAGE_LIMIT);
    var rest := After(cs, cursor);
    var page := rest[..Min(cap, |rest|)];
    (page, if cap > 0 && |page| == cap then Some(page[cap - 1].id) else None)
  }

  /** An offset page. */
  function OffsetPage(cs: seq<Claim>, offset: nat, limit: nat): seq<Claim> {
    if offset >= |cs| then []
    else cs[offset..Min(offset + (if limit == 0 then MAX_QUERY_LIMIT else Min(limit, MAX_QUERY_LIMIT)), |cs|)]
  }

  // ----- The invariant -----

  /** Ids strictly increase and expiry times never decrease along a pending list. */
  predicate Ordered(cs: seq<Claim>) {
    cs == [] ||
    ((forall c :: c in cs[1..] ==> cs[0].id < c.id && cs[0].expiresAt <= c.expiresAt) && Ordered(cs[1..]))
  }

  predicate Good(s: Ledger, u: Address, c: Claim) {
    && 1 <= c.id <= s.counter
    && c.id in s.byId && s.byId[c.id] == c
    && c.id in s.owner && s.owner[c.id] == u
    && !c.processed && c.amount > 0
    && c.createdAt <= s.now && c.expiresAt == c.createdAt + DEFAULT_CLAIM_EXPIRY
  }

  function Count(log: seq<Entry>, kind: EntryKind, id: nat): nat {
    if log == [] then 0
    else Count(log[..|log| - 1], kind, id) +
         (if log[|log| - 1].kind == kind && log[|log| - 1].id == id then 1 else 0)
  }

  /** The amounts of one kind booked for a user. */
  function Total(log: seq<Entry>, kind: EntryKind, u: Address): int {
    if log == [] then 0
    else Total(log[..|log| - 1], kind, u) +
         (if log[|log| - 1].kind == kind && log[|log| - 1].user == u then log[|log| - 1].amount else 0)
  }

  /** How many claims of a user the log leaves pending. */
  function Open(log: seq<Entry>, u: Address): int {
    if log == [] then 0
    else Open(log[..|log| - 1], u) +
         (if log[|log| - 1].user != u then 0 else if log[|log| - 1].kind == Added then 1 else -1)
  }

  /** The amounts forgone since the user's list was last empty. */
  function Skipped(log: seq<Entry>, u: Address): int {
    if log == [] || Open(log, u) == 0 then 0
    else Skipped(log[..|log| - 1], u) +
         (if log[|log| - 1].kind == Forgone && log[|log| - 1].user == u then log[|log| - 1].amount else 0)
  }

  /** How often an id was paid or dropped. */
  function TimesSettled(log: seq<Entry>, id: nat): nat {
    Count(log, Paid, id) + Count(log, Dropped, id) + Count(log, Forgone, id)
  }

  predicate AccountOk(s: Ledger, u: Address)
    requires u in s.pending
  {
    && s.pending[u] != [] && |s.pending[u]| <= HOST_VEC_LIMIT
    && Ordered(s.pending[u])
    && forall c :: c in s.pending[u] ==> Good(s, u, c)
  }

  predicate BalanceOk(s: Ledger, u: Address) {
    && Open(s.log, u) == |Pending(s, u)|
    && Claimable(s, u) == Sum(Pending(s, u)) + Skipped(s.log, u)
    && 0 <= Skipped(s.log, u) && Claimable(s, u) <= I128_MAX
    && Total(s.log, Added, u) ==
         Total(s.log, Paid, u) + Total(s.log, Dropped, u) + Total(s.log, Forgone, u) + Sum(Pending(s, u))
  }

  /** An issued id is in exactly one place: paid, dropped, or on its owner's pending list. */
  predicate FateOk(s: Ledger, id: nat) {
    && id in s.byId && id in s.owner && s.byId[id].id == id
    && TimesSettled(s.log, id) + CountId(Pending(s, s.owner[id]), id) == 1
    && (s.byId[id].processed <==> Count(s.log, Paid, id) == 1)
  }

  predicate Unused(s: Ledger, id: nat) {
    TimesSettled(s.log, id) == 0
  }

  ghost predicate Inv(s: Ledger) {
    && s.now <= LATEST_CLOCK && s.counter <= U64_MAX
    && s.claimable.Keys == s.pending.Keys
    && (forall id :: id in s.byId ==> 1 <= id <= s.counter) && s.owner.Keys == s.byId.Keys
    && (forall u :: u in s.pending ==> AccountOk(s, u))
    && (forall u :: BalanceOk(s, u))
    && (forall id :: 1 <= id <= s.counter ==> FateOk(s, id))
    && (forall id :: id == 0 || id > s.counter ==> Unused(s, id))
  }
}
