/** What each call does to the scan registry, told from its states before and after, and what that
    means for whole runs. */
module ScannerEffects {
  import opened Host
  import opened Lists
  import opened Scanner
  import opened ScannerTheorems

  predicate ActiveIn(s: State, a: Address) {
    a in s.registry && a in s.active && s.active[a]
  }

  /** No other holder is touched, nor any bond or cursor. */
  ghost predicate OthersStay(s: State, t: State, a: Address) {
    && t.bonds == s.bonds && t.cursors == s.cursors
    && forall b :: b != a ==> (ActiveIn(t, b) <==> ActiveIn(s, b)) && (b in t.registry <==> b in s.registry)
  }

  /** Registering makes a holder active: a known one in its old slot, a new one in a slot of its own
      at the end, if there is room for one. The size counts it if it was not active before. */
  lemma RegisterTakesEffect(s: State, a: Address)
    requires Reachable(s)
    ensures var t := Register(s, a);
      && OthersStay(s, t, a)
      && (a in s.registry || |s.registry| < HOST_VEC_LIMIT ==>
            && ActiveIn(t, a) && t.size == s.size + (if ActiveIn(s, a) then 0 else 1)
            && t.registry == if a in s.registry then s.registry else s.registry + [a])
      && (a !in s.registry && |s.registry| >= HOST_VEC_LIMIT ==> t == s)
  {
    ReachableInv(s);
  }

  /** Deregistering makes it inactive and leaves its slot; the size drops if it was active. */
  lemma DeregisterTakesEffect(s: State, a: Address)
    requires Reachable(s)
    ensures var t := Deregister(s, a);
      && OthersStay(s, t, a) && !ActiveIn(t, a) && t.registry == s.registry
      && t.size == s.size - (if ActiveIn(s, a) then 1 else 0)
  {
    ReachableInv(s);
    if a in s.active && s.active[a] { assert a in ActiveHolders(s); }
  }

  /** Registering again after deregistering makes a holder active in its old slot, as it was. */
  lemma RegisterUndoesDeregister(s: State, a: Address)
    requires Reachable(s) && ActiveIn(s, a)
    ensures Register(Deregister(s, a), a) == s
  {
    ReachableInv(s);
    assert a in ActiveHolders(s);
    assert s.active[a := false][a := true] == s.active;
  }

  // ----- Reading -----

  /** The cursor of no other keeper, and nothing else, is touched. */
  ghost predicate OnlyCursor(s: State, t: State, keeper: Address) {
    && t == s.(cursors := t.cursors)
    && forall k :: k != keeper ==> KeeperCursor(t, k) == KeeperCursor(s, k)
  }

  /** How many slots a page has. */
  function SlotsAsked(maxIter: nat): nat {
    if maxIter == 0 then 50 else if maxIter > 200 then 200 else maxIter
  }

  /** The slot's holder is active, its bond is active and positive, and slashed / bonded is at least
      minRatio / 10000; where slashed * 10000 does not fit in i128 the ratio counts as 0. */
  predicate IsDue(s: State, a: Address, minRatio: nat) {
    && ActiveIn(s, a) && a in s.bonds && s.bonds[a].active && s.bonds[a].bonded > 0
    && if s.bonds[a].slashed * 10_000 <= I128_MAX then s.bonds[a].slashed * 10_000 >= minRatio * s.bonds[a].bonded
       else minRatio == 0
  }

  lemma DueQualifies(s: State, i: nat, minRatio: nat)
    requires Reachable(s) && i < |s.registry|
    ensures Qualifies(s, s.registry[i], minRatio) <==> IsDue(s, s.registry[i], minRatio)
  {
    var a := s.registry[i];
    ReachableInv(s);
    assert a in s.registry;
    if a in s.bonds && s.bonds[a].bonded > 0 { RatioTestMeaning(s.bonds[a], minRatio); }
  }

  /** The candidate tells the bond as it is stored, and what is left of it. */
  ghost predicate Tells(s: State, c: Candidate) {
    && c.identity in s.bonds && c.bonded == s.bonds[c.identity].bonded && c.slashed == s.bonds[c.identity].slashed
    && c.net == c.bonded - c.slashed
  }

  /** The candidates are the due holders of the slots from `lo` up to `hi`, in the order of the slots. */
  ghost predicate DueOf(s: State, lo: nat, hi: nat, minRatio: nat, cs: seq<Candidate>)
    requires hi <= |s.registry|
    decreases hi
  {
    if hi <= lo then cs == []
    else if IsDue(s, s.registry[hi - 1], minRatio) then
      cs != [] && Tells(s, cs[|cs| - 1]) && cs[|cs| - 1].identity == s.registry[hi - 1]
      && DueOf(s, lo, hi - 1, minRatio, cs[..|cs| - 1])
    else DueOf(s, lo, hi - 1, minRatio, cs)
  }

  lemma {:induction false} CandidatesAreDue(s: State, lo: nat, hi: nat, minRatio: nat)
    requires Reachable(s) && hi <= |s.registry|
    ensures DueOf(s, lo, hi, minRatio, Candidates(s, lo, hi, minRatio))
    decreases hi
  {
    if hi > lo {
      var cs, before := Candidates(s, lo, hi, minRatio), Candidates(s, lo, hi - 1, minRatio);
      CandidatesAreDue(s, lo, hi - 1, minRatio);
      DueQualifies(s, hi - 1, minRatio);
      if IsDue(s, s.registry[hi - 1], minRatio) {
        assert cs == before + [CandidateOf(s, s.registry[hi - 1])] && cs[..|cs| - 1] == before;
      } else {
        assert cs == before + [] == before;
      }
    }
  }

  /** What a scan of a registry with slots reports of the slots from `cursor` up to `end`. */
  ghost predicate PageOf(s: State, cursor: nat, end: nat, minRatio: nat, r: ScanResult)
    requires end <= |s.registry|
  {
    && DueOf(s, cursor, end, minRatio, r.candidates)
    && r.done == (end == |s.registry|) && r.nextCursor == (if r.done then 0 else end)
    && r.registrySize == |set a | a in s.active && s.active[a]|
  }

  lemma ScanIs(s: State, keeper: Address, cursor: nat, maxIter: nat, minRatio: nat, auth: set<Address>,
               t: State, r: ScanResult, end: nat)
    requires Scan(s, keeper, cursor, maxIter, minRatio, auth) == Ok((t, r)) && cursor < |s.registry| <= HOST_VEC_LIMIT
    requires end == Min(cursor + SlotsAsked(maxIter), |s.registry|)
    ensures r == ScanResult(Candidates(s, cursor, end, minRatio), if end == |s.registry| then 0 else end,
                            end == |s.registry|, s.size)
    ensures OnlyCursor(s, t, keeper) && KeeperCursor(t, keeper) == r.nextCursor
  {
    assert WrapAddU32(cursor, SlotsAsked(maxIter)) == cursor + SlotsAsked(maxIter);
  }

  /** A scan is accepted exactly if the keeper signed it and its cursor is a slot, or there is none. */
  lemma ScanSucceedsIff(s: State, keeper: Address, cursor: nat, maxIter: nat, minRatio: nat, auth: set<Address>)
    ensures Scan(s, keeper, cursor, maxIter, minRatio, auth).Ok? <==>
      keeper in auth && (s.registry == [] || cursor < |s.registry|)
  {
  }

  /** It reports just the due holders of its page, and where to go on; it stores that for its keeper
      and changes nothing else. */
  lemma ScanTakesEffect(s: State, keeper: Address, cursor: nat, maxIter: nat, minRatio: nat, auth: set<Address>,
                        t: State, r: ScanResult)
    requires Reachable(s) && s.registry != []
    requires Scan(s, keeper, cursor, maxIter, minRatio, auth) == Ok((t, r))
    ensures PageOf(s, cursor, Min(cursor + SlotsAsked(maxIter), |s.registry|), minRatio, r)
    ensures OnlyCursor(s, t, keeper) && KeeperCursor(t, keeper) == r.nextCursor
  {
    var end := Min(cursor + SlotsAsked(maxIter), |s.registry|);
    ReachableInv(s);
    ScanSucceedsIff(s, keeper, cursor, maxIter, minRatio, auth);
    ScanIs(s, keeper, cursor, maxIter, minRatio, auth, t, r, end);
    CandidatesAreDue(s, cursor, end, minRatio);
  }

  /** An accepted advance stores the cursor for its keeper and changes nothing else. */
  lemma AdvanceTakesEffect(s: State, keeper: Address, next: nat)
    ensures AdvanceCursor(s, keeper, next).Ok? <==> next == 0 || KeeperCursor(s, keeper) < next <= |s.registry|
    ensures AdvanceCursor(s, keeper, next).Ok? ==>
      var t := AdvanceCursor(s, keeper, next).value;
      OnlyCursor(s, t, keeper) && KeeperCursor(t, keeper) == next
  {
  }

  // ----- Over whole runs -----

  /** Call `i` registered the holder, with success, and it was not deregistered since. */
  ghost predicate StandsRegistered(calls: seq<Call>, i: nat, a: Address) {
    && i < |calls| && calls[i] == RegisterHolder(a) && a in Run(Initial, calls[..i + 1]).registry
    && forall j :: i < j < |calls| ==> calls[j] != DeregisterHolder(a)
  }

  lemma StepKeepsOthers(s: State, c: Call, a: Address)
    requires Reachable(s) && c != RegisterHolder(a) && c != DeregisterHolder(a)
    ensures ActiveIn(Step(s, c), a) <==> ActiveIn(s, a)
  {
    match c
    case RegisterHolder(b) => RegisterTakesEffect(s, b);
    case DeregisterHolder(b) => DeregisterTakesEffect(s, b);
    case _ =>
  }

  lemma {:induction false} RegistryGrows(calls: seq<Call>, i: nat, a: Address)
    requires i <= |calls| && a in Run(Initial, calls[..i]).registry
    ensures a in Run(Initial, calls).registry
    decreases |calls| - i
  {
    if i == |calls| {
      assert calls[..i] == calls;
    } else {
      var s := Run(Initial, calls[..i]);
      assert calls[..i + 1][..i] == calls[..i];
      assert Reachable(s);
      ReachableInv(s);
      StepKeepsInv(s, calls[i]);
      RegistryGrows(calls, i + 1, a);
    }
  }

  /** Registering last: it stands if the holder has a slot, and no earlier call stands otherwise. */
  lemma Registered(calls: seq<Call>, a: Address)
    requires calls != [] && calls[|calls| - 1] == RegisterHolder(a)
    ensures (exists i: nat :: StandsRegistered(calls, i, a)) <==> a in Run(Initial, calls).registry
  {
    var k := |calls| - 1;
    assert calls[..k + 1] == calls;
    if a in Run(Initial, calls).registry { assert StandsRegistered(calls, k, a); }
    forall i: nat | StandsRegistered(calls, i, a) ensures a in Run(Initial, calls).registry {
      RegistryGrows(calls, i + 1, a);
    }
  }

  lemma StandsOn(calls: seq<Call>, front: seq<Call>, c: Call, a: Address)
    requires calls == front + [c] && c != RegisterHolder(a) && c != DeregisterHolder(a)
    ensures (exists i: nat :: StandsRegistered(calls, i, a)) <==> exists i: nat :: StandsRegistered(front, i, a)
  {
    forall i: nat | StandsRegistered(front, i, a) ensures StandsRegistered(calls, i, a) {
      assert front[..i + 1] == calls[..i + 1] && front[i] == calls[i];
      forall j | i < j < |calls| ensures calls[j] != DeregisterHolder(a) {
        if j < |front| { assert front[j] == calls[j]; }
      }
    }
    forall i: nat | StandsRegistered(calls, i, a) ensures StandsRegistered(front, i, a) {
      assert front[..i + 1] == calls[..i + 1] && front[i] == calls[i];
      forall j | i < j < |front| ensures front[j] != DeregisterHolder(a) { assert front[j] == calls[j]; }
    }
  }

  /** On every run a holder is active exactly if a call registered it, in a slot it found or got, and
      no later call deregistered it. */
  lemma {:induction false} ActiveIsHistory(calls: seq<Call>, a: Address)
    ensures ActiveIn(Run(Initial, calls), a) <==> exists i: nat :: StandsRegistered(calls, i, a)
  {
    if calls != [] {
      var k := |calls| - 1;
      var front, c := calls[..k], calls[k];
      var s := Run(Initial, front);
      assert Reachable(s);
      ActiveIsHistory(front, a);
      assert calls[..k + 1] == calls;
      if c == RegisterHolder(a) {
        RegisterTakesEffect(s, a);
        Registered(calls, a);
      } else if c == DeregisterHolder(a) {
        DeregisterTakesEffect(s, a);
      } else {
        StepKeepsOthers(s, c, a);
        StandsOn(calls, front, c, a);
      }
    }
  }
}
