/** Completeness of a whole keeper pass, while registrations and bonds change between pages. */
module ScannerTheorems {
  import opened Host
  import opened Arithmetic
  import opened Lists
  import opened Scanner

  datatype Call =
    | RegisterHolder(a: Address)
    | DeregisterHolder(a: Address)
    | WriteBond(a: Address, bond: Bond)
    | ScanPage(keeper: Address, cursor: nat, maxIter: nat, minRatio: nat, auth: set<Address>)
    | Advance(keeper: Address, next: nat)

  function Step(s: State, call: Call): State {
    match call
    case RegisterHolder(a) => Register(s, a)
    case DeregisterHolder(a) => Deregister(s, a)
    case WriteBond(a, b) => if BondOk(b) then s.(bonds := s.bonds[a := b]) else s
    case ScanPage(k, c, m, r, auth) => var o := Scan(s, k, c, m, r, auth); if o.Ok? then o.value.0 else s
    case Advance(k, n) => var o := AdvanceCursor(s, k, n); if o.Ok? then o.value else s
  }

  function Run(s: State, calls: seq<Call>): State {
    if calls == [] then s else Step(Run(s, calls[..|calls| - 1]), calls[|calls| - 1])
  }

  /** The holders in active slots. */
  function ActiveHolders(s: State): set<Address> {
    set a | a in s.active && s.active[a]
  }

  /** No holder has two slots, every slot has a flag, and RegistrySize is the number of active
      slots. */
  ghost predicate Inv(s: State) {
    && NoDup(s.registry) && |s.registry| <= HOST_VEC_LIMIT
    && (forall a :: a in s.registry <==> a in s.active)
    && s.size == |ActiveHolders(s)|
    && (forall a :: a in s.bonds ==> BondOk(s.bonds[a]))
  }

  lemma RegisterAgain(s: State, a: Address)
    requires Inv(s) && a in s.registry
    ensures Inv(Register(s, a))
  {
    var t := Register(s, a);
    if t != s { assert ActiveHolders(t) == ActiveHolders(s) + {a}; }
  }

  lemma RegisterNew(s: State, a: Address)
    requires Inv(s) && a !in s.registry
    ensures Inv(Register(s, a)) && s.registry <= Register(s, a).registry
  {
    var t := Register(s, a);
    if t != s {
      NoDupPush(s.registry, a);
      assert forall b :: b in t.registry <==> b in s.registry || b == a;
      assert ActiveHolders(t) == ActiveHolders(s) + {a};
    }
  }

  lemma RegisterKeepsInv(s: State, a: Address)
    requires Inv(s)
    ensures Inv(Register(s, a)) && s.registry <= Register(s, a).registry
  {
    if a in s.registry { RegisterAgain(s, a); } else { RegisterNew(s, a); }
  }

  lemma DeregisterKeepsInv(s: State, a: Address)
    requires Inv(s)
    ensures Inv(Deregister(s, a)) && s.registry == Deregister(s, a).registry
  {
    var t := Deregister(s, a);
    if t != s {
      assert a in ActiveHolders(s);
      assert ActiveHolders(t) == ActiveHolders(s) - {a};
    }
  }

  lemma StepKeepsInv(s: State, call: Call)
    requires Inv(s)
    ensures Inv(Step(s, call)) && s.registry <= Step(s, call).registry
  {
    match call
    case RegisterHolder(a) => RegisterKeepsInv(s, a);
    case DeregisterHolder(a) => DeregisterKeepsInv(s, a);
    case _ => assert ActiveHolders(Step(s, call)) == ActiveHolders(s);
  }

  lemma {:induction false} RunKeepsInv(s: State, calls: seq<Call>)
    requires Inv(s)
    ensures Inv(Run(s, calls)) && s.registry <= Run(s, calls).registry
  {
    if calls != [] {
      RunKeepsInv(s, calls[..|calls| - 1]);
      StepKeepsInv(Run(s, calls[..|calls| - 1]), calls[|calls| - 1]);
    }
  }

  ghost predicate Reachable(s: State) {
    exists calls :: Run(Initial, calls) == s
  }

  lemma ReachableStep(s: State, call: Call)
    requires Reachable(s)
    ensures Reachable(Step(s, call))
  {
    var calls :| Run(Initial, calls) == s;
    assert (calls + [call])[..|calls|] == calls;
    assert Run(Initial, calls + [call]) == Step(s, call);
  }

  lemma ReachableInv(s: State)
    requires Reachable(s)
    ensures Inv(s)
  {
    var calls :| Run(Initial, calls) == s;
    assert ActiveHolders(Initial) == {};
    RunKeepsInv(Initial, calls);
  }

  lemma BondsAreOk(s: State)
    requires Reachable(s)
    ensures forall a :: a in s.bonds ==> BondOk(s.bonds[a])
  {
    ReachableInv(s);
  }

  lemma {:induction false} HoldersFitSlots(list: seq<Address>, some: set<Address>)
    requires forall a :: a in some ==> a in list
    ensures |some| <= |list|
  {
    if list != [] {
      HoldersFitSlots(list[..|list| - 1], some - {list[|list| - 1]});
    } else {
      assert some == {};
    }
  }

  /** In every reachable state the cached size is the number of active slots. */
  lemma RegistrySizeIsActiveSlots(s: State)
    requires Reachable(s)
    ensures s.size == |set a | a in s.registry && IsActive(s, a)| <= |s.registry|
  {
    ReachableInv(s);
    assert (set a | a in s.registry && IsActive(s, a)) == ActiveHolders(s);
    HoldersFitSlots(s.registry, ActiveHolders(s));
  }

  // ----- What the ratio test means -----

  /** Up to the overflow guard, the test is slashed / bonded >= minRatio / 10000, exactly. When
      slashed * 10000 leaves i128 the code reads the ratio as 0, and reports such a holder only
      for minRatio == 0. */
  lemma RatioTestMeaning(b: Bond, minRatio: nat)
    requires BondOk(b) && b.bonded > 0
    ensures SlashRatio(b) >= minRatio <==>
      if b.slashed * BPS_DENOMINATOR <= I128_MAX then b.slashed * BPS_DENOMINATOR >= minRatio * b.bonded
      else minRatio == 0
  {
    var n, d := b.slashed * BPS_DENOMINATOR, b.bonded;
    if n <= I128_MAX {
      DivAtLeast(n, d, minRatio);
    }
  }

  // ----- A pass -----

  /** One slot of one page: who was there, whether it met the test when the page was read, and
      whether the scan reported it. */
  datatype Visit = Visit(slot: nat, holder: Address, qualified: bool, reported: bool)

  /** A keeper asks for a page of some size; before the next page anyone may call anything. */
  datatype Round = Round(maxIter: nat, between: seq<Call>)

  datatype Pass = Pass(visits: seq<Visit>, done: bool, failed: bool, last: State)

  ghost function PageVisits(s: State, candidates: seq<Candidate>, lo: nat, hi: nat, minRatio: nat): seq<Visit>
    requires hi <= |s.registry|
  {
    if hi <= lo then []
    else
      var a := s.registry[hi - 1];
      PageVisits(s, candidates, lo, hi - 1, minRatio) +
      [Visit(hi - 1, a, Qualifies(s, a, minRatio), exists c :: c in candidates && c.identity == a)]
  }

  /** The documented loop: scan, stop when done, otherwise go on from the returned cursor. */
  ghost function RunPass(s: State, keeper: Address, cursor: nat, minRatio: nat, rounds: seq<Round>): Pass
    decreases |rounds|
  {
    if rounds == [] then Pass([], false, false, s)
    else
      var o := Scan(s, keeper, cursor, rounds[0].maxIter, minRatio, {keeper});
      if o.Err? then Pass([], false, true, s)
      else
        var (t, r) := o.value;
        var visits := PageVisits(s, r.candidates, cursor, PageEnd(|s.registry|, cursor, rounds[0].maxIter), minRatio);
        if r.done then Pass(visits, true, false, t)
        else
          var rest := RunPass(Run(t, rounds[0].between), keeper, r.nextCursor, minRatio, rounds[1..]);
          rest.(visits := visits + rest.visits)
  }

  lemma {:induction false} CandidatesAreQualified(s: State, lo: nat, hi: nat, minRatio: nat)
    requires hi <= |s.registry|
    ensures forall c :: c in Candidates(s, lo, hi, minRatio) ==>
      exists i :: lo <= i < hi && s.registry[i] == c.identity && Qualifies(s, c.identity, minRatio)
    ensures forall i :: lo <= i < hi && Qualifies(s, s.registry[i], minRatio) ==>
      CandidateOf(s, s.registry[i]) in Candidates(s, lo, hi, minRatio)
  {
    if lo < hi {
      CandidatesAreQualified(s, lo, hi - 1, minRatio);
    }
  }

  /** A page visits its slots in order, and reports exactly those that qualify. */
  lemma {:induction false} PageIsComplete(s: State, cs: seq<Candidate>, lo: nat, hi: nat, end: nat, minRatio: nat)
    requires lo <= hi <= end <= |s.registry| && cs == Candidates(s, lo, end, minRatio)
    ensures var vs := PageVisits(s, cs, lo, hi, minRatio);
      && |vs| == hi - lo
      && forall k :: 0 <= k < |vs| ==>
           vs[k].slot == lo + k && vs[k].holder == s.registry[lo + k] && vs[k].reported == vs[k].qualified
  {
    if lo < hi {
      PageIsComplete(s, cs, lo, hi - 1, end, minRatio);
      CandidatesAreQualified(s, lo, end, minRatio);
      var a := s.registry[hi - 1];
      if Qualifies(s, a, minRatio) {
        assert CandidateOf(s, a) in cs && CandidateOf(s, a).identity == a;
      }
    }
  }

  ghost predicate VisitsFrom(vs: seq<Visit>, cursor: nat, registry: seq<Address>) {
    && cursor + |vs| <= |registry|
    && forall k :: 0 <= k < |vs| ==>
         vs[k].slot == cursor + k && vs[k].holder == registry[cursor + k] && vs[k].reported == vs[k].qualified
  }

  lemma VisitsJoin(a: seq<Visit>, b: seq<Visit>, cursor: nat, mid: nat, early: seq<Address>, late: seq<Address>)
    requires VisitsFrom(a, cursor, early) && early <= late && mid == cursor + |a| && VisitsFrom(b, mid, late)
    ensures VisitsFrom(a + b, cursor, late)
  {
    forall k | 0 <= k < |a + b|
      ensures (a + b)[k].slot == cursor + k && (a + b)[k].holder == late[cursor + k]
      ensures (a + b)[k].reported == (a + b)[k].qualified
    {
      if k < |a| { assert early[cursor + k] == late[cursor + k]; } else { assert (a + b)[k] == b[k - |a|]; }
    }
  }

  /** One page of a pass: never refused, and its cursor moves on unless the pass is done. */
  lemma PageOfPass(s: State, keeper: Address, cursor: nat, maxIter: nat, minRatio: nat)
    requires Inv(s) && (cursor < |s.registry| || cursor == 0)
    ensures Scan(s, keeper, cursor, maxIter, minRatio, {keeper}).Ok?
    ensures var (t, r) := Scan(s, keeper, cursor, maxIter, minRatio, {keeper}).value;
      var end := PageEnd(|s.registry|, cursor, maxIter);
      var vs := PageVisits(s, r.candidates, cursor, end, minRatio);
      && Inv(t) && t.registry == s.registry
      && VisitsFrom(vs, cursor, s.registry) && cursor + |vs| == end
      && (if r.done then end == |s.registry| else cursor < end < |s.registry| && r.nextCursor == end)
  {
    var (t, r) := Scan(s, keeper, cursor, maxIter, minRatio, {keeper}).value;
    var end := PageEnd(|s.registry|, cursor, maxIter);
    PageIsComplete(s, r.candidates, cursor, end, end, minRatio);
    StepKeepsInv(s, ScanPage(keeper, cursor, maxIter, minRatio, {keeper}));
  }

  lemma {:induction false} PassFrom(s: State, keeper: Address, cursor: nat, minRatio: nat, rounds: seq<Round>)
    requires Inv(s) && (cursor < |s.registry| || cursor == 0)
    ensures var p := RunPass(s, keeper, cursor, minRatio, rounds);
      && !p.failed && s.registry <= p.last.registry
      && VisitsFrom(p.visits, cursor, p.last.registry)
      && (p.done ==> cursor + |p.visits| == |p.last.registry|)
      && (!p.done ==> |p.visits| >= |rounds|)
    decreases |rounds|
  {
    if rounds != [] {
      PageOfPass(s, keeper, cursor, rounds[0].maxIter, minRatio);
      var (t, r) := Scan(s, keeper, cursor, rounds[0].maxIter, minRatio, {keeper}).value;
      if !r.done {
        var next := Run(t, rounds[0].between);
        RunKeepsInv(t, rounds[0].between);
        PassFrom(next, keeper, r.nextCursor, minRatio, rounds[1..]);
        var rest := RunPass(next, keeper, r.nextCursor, minRatio, rounds[1..]);
        var vs := PageVisits(s, r.candidates, cursor, r.nextCursor, minRatio);
        VisitsJoin(vs, rest.visits, cursor, r.nextCursor, s.registry, rest.last.registry);
      }
    }
  }

  /** A pass from cursor 0, with arbitrary calls between its pages: it is never refused, it
      inspects the slots 0, 1, 2, ... once each, it reports a slot exactly when its holder
      qualifies at that moment, and when it is done it has inspected every slot, those of the
      holders registered at the start among them. It is done after at most as many pages as the
      registry ends up having slots, plus one. */
  lemma PassIsComplete(s: State, keeper: Address, minRatio: nat, rounds: seq<Round>)
    requires Reachable(s)
    ensures var p := RunPass(s, keeper, 0, minRatio, rounds);
      && !p.failed
      && (forall k :: 0 <= k < |p.visits| ==>
            p.visits[k].slot == k && p.visits[k].reported == p.visits[k].qualified)
      && (p.done ==> |p.visits| == |p.last.registry| >= |s.registry|)
      && (p.done ==> forall k :: 0 <= k < |s.registry| ==> p.visits[k].holder == s.registry[k])
      && (|rounds| > |p.last.registry| ==> p.done)
  {
    ReachableInv(s);
    PassFrom(s, keeper, 0, minRatio, rounds);
  }

  // ----- Advancing the stored cursor by hand -----

  /** No call scans or advances for this keeper. */
  predicate LeavesCursor(calls: seq<Call>, keeper: Address) {
    forall i :: 0 <= i < |calls| && (calls[i].ScanPage? || calls[i].Advance?) ==> calls[i].keeper != keeper
  }

  lemma {:induction false} CursorStays(s: State, calls: seq<Call>, keeper: Address)
    requires LeavesCursor(calls, keeper)
    ensures KeeperCursor(Run(s, calls), keeper) == KeeperCursor(s, keeper)
  {
    if calls != [] { CursorStays(s, calls[..|calls| - 1], keeper); }
  }

  /** After a scan, and whatever happens before the keeper calls again, advance_keeper_cursor
      accepts exactly 0 and the slots beyond the cursor the scan returned. The documented advance
      to that very cursor succeeds if and only if the scan returned 0. */
  lemma AdvanceAfterScan(s: State, keeper: Address, cursor: nat, maxIter: nat, minRatio: nat, auth: set<Address>,
                         calls: seq<Call>, m: nat)
    requires Scan(s, keeper, cursor, maxIter, minRatio, auth).Ok? && LeavesCursor(calls, keeper)
    ensures var (t, r) := Scan(s, keeper, cursor, maxIter, minRatio, auth).value;
      var u := Run(t, calls);
      && (AdvanceCursor(u, keeper, m).Ok? <==> m == 0 || r.nextCursor < m <= |u.registry|)
      && (AdvanceCursor(u, keeper, r.nextCursor).Ok? <==> r.nextCursor == 0)
  {
    var (t, r) := Scan(s, keeper, cursor, maxIter, minRatio, auth).value;
    CursorStays(t, calls, keeper);
  }

  predicate Reports(r: ScanResult, a: Address) {
    exists c :: c in r.candidates && c.identity == a
  }

  /** A keeper that advances past the returned cursor and scans from its stored one reports no
      holder between the two, not on the page before and not on the page after. */
  lemma AdvanceSkips(s: State, keeper: Address, cursor: nat, n1: nat, n2: nat, minRatio: nat, m: nat, i: nat)
    requires Reachable(s) && cursor < |s.registry| && Scan(s, keeper, cursor, n1, minRatio, {keeper}).Ok?
    requires var (t, r) := Scan(s, keeper, cursor, n1, minRatio, {keeper}).value;
      0 < r.nextCursor <= i < m < |s.registry|
    ensures var (t, r) := Scan(s, keeper, cursor, n1, minRatio, {keeper}).value;
      var u := AdvanceCursor(t, keeper, m);
      && u.Ok? && KeeperCursor(u.value, keeper) == m
      && Scan(u.value, keeper, m, n2, minRatio, {keeper}).Ok?
      && !Reports(r, s.registry[i])
      && !Reports(Scan(u.value, keeper, m, n2, minRatio, {keeper}).value.1, s.registry[i])
  {
    ReachableInv(s);
    var (t, r) := Scan(s, keeper, cursor, n1, minRatio, {keeper}).value;
    var u := AdvanceCursor(t, keeper, m).value;
    var end := PageEnd(|s.registry|, m, n2);
    CandidatesAreQualified(s, cursor, r.nextCursor, minRatio);
    CandidatesAreQualified(u, m, end, minRatio);
  }

  /** Slashed by half, that is by 5000 basis points. */
  const HalfSlashed: Bond := Bond(true, 2, 1)

  /** Three holders, each half slashed. */
  function ThreeHolders(): seq<Call> {
    [RegisterHolder(Address(0)), RegisterHolder(Address(1)), RegisterHolder(Address(2)),
     WriteBond(Address(0), HalfSlashed), WriteBond(Address(1), HalfSlashed), WriteBond(Address(2), HalfSlashed)]
  }

  lemma ThreeHoldersState()
    ensures var s := Run(Initial, ThreeHolders());
      && s.registry == [Address(0), Address(1), Address(2)] && s.size == 3
      && forall a :: a in s.registry ==> Qualifies(s, a, 1)
  {
    var c := ThreeHolders();
    assert c[..6][..5] == c[..5] && c[..5][..4] == c[..4] && c[..4][..3] == c[..3];
    assert c[..3][..2] == c[..2] && c[..2][..1] == c[..1] && c[..1][..0] == [] && c[..6] == c;
    var s3 := Run(Initial, c[..3]);
    assert Run(Initial, c[..1]) == Register(Initial, Address(0));
    assert Run(Initial, c[..2]) == Register(Run(Initial, c[..1]), Address(1));
    assert s3 == Register(Run(Initial, c[..2]), Address(2));
    assert Run(Initial, c[..4]) == Step(s3, c[3]);
    assert Run(Initial, c[..5]) == Step(Run(Initial, c[..4]), c[4]);
    assert SlashRatio(HalfSlashed) == 5_000;
  }

  /** So a keeper can skip an active holder over the ratio: it reads slot 0, advances from the
      returned 1 to 2, and goes on there; the holder of slot 1 is on neither page. */
  lemma KeeperCanSkip(keeper: Address)
    ensures var s := Run(Initial, ThreeHolders());
      && Scan(s, keeper, 0, 1, 1, {keeper}).Ok? && Qualifies(s, Address(1), 1)
      && var (t, r) := Scan(s, keeper, 0, 1, 1, {keeper}).value;
      && r.nextCursor == 1 && !Reports(r, Address(1))
      && AdvanceCursor(t, keeper, 2).Ok?
      && var u := AdvanceCursor(t, keeper, 2).value;
      && Scan(u, keeper, 2, 1, 1, {keeper}).Ok?
      && var last := Scan(u, keeper, 2, 1, 1, {keeper}).value.1;
      last.done && !Reports(last, Address(1))
  {
    ThreeHoldersState();
    var s := Run(Initial, ThreeHolders());
    assert Reachable(s);
    AdvanceSkips(s, keeper, 0, 1, 1, 1, 2, 1);
  }
}
