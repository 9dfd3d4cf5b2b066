/** The scanner entry points as the contract runs them. */
module ScannerContract {
  import opened Host
  import opened Lists
  import opened Scanner
  import T = ScannerTheorems

  class ScannerStore {
    var registry: seq<Address>
    var active: map<Address, bool>
    var size: nat
    var cursors: map<Address, nat>
    var bonds: map<Address, Bond>

    ghost function Model(): State
      reads this
    {
      State(registry, active, size, cursors, bonds)
    }

    ghost predicate Valid()
      reads this
    {
      T.Reachable(Model())
    }

    constructor ()
      ensures Model() == Initial && Valid()
    {
      registry, active, size, cursors, bonds := [], map[], 0, map[], map[];
      new;
      assert T.Run(Initial, []) == Model();
    }

    method RegisterBondHolder(a: Address)
      requires Valid()
      modifies this
      ensures Valid() && Model() == Register(old(Model()), a)
    {
      T.ReachableStep(Model(), T.RegisterHolder(a));
      var present := Contains(registry, a);
      if present {
        var isActive := if a in active then active[a] else true;
        if !isActive {
          active := active[a := true];
          size := size + 1;
        }
      } else if |registry| < HOST_VEC_LIMIT {
        registry := registry + [a];
        active := active[a := true];
        size := size + 1;
      }
    }

    method DeregisterBondHolder(a: Address)
      requires Valid()
      modifies this
      ensures Valid() && Model() == Deregister(old(Model()), a)
    {
      T.ReachableStep(Model(), T.DeregisterHolder(a));
      var present := Contains(registry, a);
      var isActive := if a in active then active[a] else true;
      if present && isActive {
        active := active[a := false];
        if size > 0 {
          size := size - 1;
        }
      }
    }

    /** A bond write of the rest of the contract; its guard keeps the accounting sane. */
    method WriteBond(a: Address, bond: Bond)
      requires Valid() && BondOk(bond)
      modifies this
      ensures Valid() && Model() == old(Model()).(bonds := old(bonds)[a := bond])
    {
      T.ReachableStep(Model(), T.WriteBond(a, bond));
      bonds := bonds[a := bond];
    }

    method AdvanceKeeperCursor(keeper: Address, next: nat) returns (r: Result<(), ScanError>)
      requires Valid()
      modifies this
      ensures Valid()
      ensures match AdvanceCursor(old(Model()), keeper, next)
        case Ok(t) => r == Ok(()) && Model() == t
        case Err(e) => r == Err(e) && Model() == old(Model())
    {
      T.ReachableStep(Model(), T.Advance(keeper, next));
      var current := if keeper in cursors then cursors[keeper] else 0;
      if next == 0 || (next > current && next <= |registry|) {
        cursors := cursors[keeper := next];
        r := Ok(());
      } else {
        r := Err(InvalidAdvance);
      }
    }

    method ScanLiquidationCandidates(keeper: Address, cursor: nat, maxIter: nat, minRatio: nat, auth: set<Address>)
      returns (r: Result<ScanResult, ScanError>)
      requires Valid()
      modifies this
      ensures Valid()
      ensures match Scan(old(Model()), keeper, cursor, maxIter, minRatio, auth)
        case Ok(res) => r == Ok(res.1) && Model() == res.0
        case Err(e) => r == Err(e) && Model() == old(Model())
    {
      T.ReachableStep(Model(), T.ScanPage(keeper, cursor, maxIter, minRatio, auth));
      var slots := |registry|;
      if keeper !in auth {
        r := Err(Unauthorized);
      } else if slots > 0 && cursor >= slots {
        r := Err(CursorOutOfRange);
      } else {
        var end := PageEnd(slots, cursor, maxIter);
        var done := end >= slots;
        var next := if done then 0 else end;
        T.BondsAreOk(Model());
        var found := ReadPage(cursor, end, minRatio);
        cursors := cursors[keeper := next];
        r := Ok(ScanResult(found, next, done, size));
      }
    }

    /** The scan loop over the slots [lo, hi). */
    method ReadPage(lo: nat, hi: nat, minRatio: nat) returns (candidates: seq<Candidate>)
      requires hi <= |registry|
      requires forall a :: a in bonds ==> BondOk(bonds[a])
      ensures candidates == Candidates(Model(), lo, hi, minRatio)
    {
      candidates := [];
      var i := lo;
      while i < hi
        invariant lo <= i && (i <= hi || candidates == [])
        invariant candidates == Candidates(Model(), lo, Min(i, hi), minRatio)
      {
        var a := registry[i];
        var isActive := if a in active then active[a] else true;
        if isActive && a in bonds && bonds[a].active && bonds[a].bonded > 0 {
          var b := bonds[a];
          var ratio := if InI128(b.slashed * BPS_DENOMINATOR) then
            TruncDiv(b.slashed * BPS_DENOMINATOR, b.bonded) else 0;
          if ratio >= minRatio {
            assert InI128(b.bonded - b.slashed);  // the subtraction does not wrap
            candidates := candidates + [Candidate(a, b.bonded, b.slashed, b.bonded - b.slashed)];
          }
        }
        i := i + 1;
      }
    }
  }
}
