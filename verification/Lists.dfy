/** What the contracts do with the vectors of addresses and ids they keep in storage. */
module Lists {

  predicate NoDup<T(==)>(list: seq<T>) {
    forall i, j :: 0 <= i < j < |list| ==> list[i] != list[j]
  }

  function Elements<T>(list: seq<T>): set<T> {
    set x | x in list
  }

  /** The list without `a`, its order kept. */
  function Without<T(==)>(list: seq<T>, a: T): seq<T> {
    if list == [] then []
    else Without(list[..|list| - 1], a) + (if list[|list| - 1] == a then [] else [list[|list| - 1]])
  }

  /** The list without the first `a`. */
  function RemoveFirst<T(==)>(list: seq<T>, a: T): seq<T> {
    if list == [] then []
    else if list[0] == a then list[1..]
    else [list[0]] + RemoveFirst(list[1..], a)
  }

  lemma {:induction false} WithoutList<T>(list: seq<T>, a: T)
    requires NoDup(list)
    ensures NoDup(Without(list, a))
    ensures forall b :: b in Without(list, a) <==> b in list && b != a
    ensures |Without(list, a)| == |list| - (if a in list then 1 else 0)
  {
    if list != [] {
      var front, last := list[..|list| - 1], list[|list| - 1];
      assert list == front + [last];
      WithoutList(front, a);
      assert last !in front;
    }
  }

  lemma {:induction false} WithoutAbsent<T>(list: seq<T>, a: T)
    requires a !in list
    ensures Without(list, a) == list
  {
    if list != [] { WithoutAbsent(list[..|list| - 1], a); }
  }

  lemma {:induction false} WithoutConcat<T>(x: seq<T>, y: seq<T>, a: T)
    ensures Without(x + y, a) == Without(x, a) + Without(y, a)
  {
    if y == [] {
      assert x + y == x;
    } else {
      assert (x + y)[..|x + y| - 1] == x + y[..|y| - 1];
      WithoutConcat(x, y[..|y| - 1], a);
    }
  }

  /** Where nothing occurs twice, removing the first occurrence removes them all. */
  lemma {:induction false} RemoveFirstIsWithout<T>(list: seq<T>, a: T)
    requires NoDup(list)
    ensures RemoveFirst(list, a) == Without(list, a)
  {
    if list != [] {
      assert list == [list[0]] + list[1..];
      WithoutConcat([list[0]], list[1..], a);
      assert [list[0]][..0] == [];
      assert list[0] !in list[1..];
      if list[0] == a { WithoutAbsent(list[1..], a); } else { RemoveFirstIsWithout(list[1..], a); }
    }
  }

  /** A list without repetition is as long as its set. */
  lemma {:induction false} NoDupSize<T>(list: seq<T>, all: set<T>)
    requires NoDup(list) && forall x :: x in list <==> x in all
    ensures |list| == |all|
  {
    if list != [] {
      var front, last := list[..|list| - 1], list[|list| - 1];
      assert list == front + [last];
      NoDupSize(front, all - {last});
    } else {
      assert all == {};
    }
  }

  /** The set of a list's elements is smaller than the list exactly when one occurs twice. */
  lemma {:induction false} ElementsFewer<T>(list: seq<T>)
    ensures |set x | x in list| <= |list|
    ensures NoDup(list) <==> |set x | x in list| == |list|
  {
    if list == [] {
      assert (set x | x in list) == {};
    } else {
      var front, last := list[..|list| - 1], list[|list| - 1];
      assert list == front + [last];
      ElementsFewer(front);
      assert (set x | x in list) == (set x | x in front) + {last};
      if last in front {
        assert (set x | x in list) == set x | x in front;
        var i :| 0 <= i < |front| && front[i] == last;
        assert list[i] == list[|list| - 1];
      } else if !NoDup(front) {
        var i, j :| 0 <= i < j < |front| && front[i] == front[j];
        assert list[i] == list[j];
      }
    }
  }

  lemma NoDupPush<T>(list: seq<T>, a: T)
    requires NoDup(list) && a !in list
    ensures NoDup(list + [a])
  {
  }

  /** The part of a list that lies in a set, its order kept. */
  function Kept<T(==)>(list: seq<T>, keep: set<T>): seq<T> {
    if list == [] then []
    else Kept(list[..|list| - 1], keep) + (if list[|list| - 1] in keep then [list[|list| - 1]] else [])
  }

  lemma {:induction false} KeptIs<T>(list: seq<T>, keep: set<T>)
    ensures forall a :: a in Kept(list, keep) <==> a in list && a in keep
    ensures |Kept(list, keep)| <= |list|
    ensures |Kept(list, keep)| == |list| <==> forall a :: a in list ==> a in keep
    ensures (forall a :: a in list ==> a in keep) ==> Kept(list, keep) == list
  {
    if list != [] {
      assert list == list[..|list| - 1] + [list[|list| - 1]];
      KeptIs(list[..|list| - 1], keep);
    }
  }

  lemma {:induction false} KeptConcat<T>(x: seq<T>, y: seq<T>, keep: set<T>)
    ensures Kept(x + y, keep) == Kept(x, keep) + Kept(y, keep)
  {
    if y == [] {
      assert x + y == x;
    } else {
      assert (x + y)[..|x + y| - 1] == x + y[..|y| - 1];
      KeptConcat(x, y[..|y| - 1], keep);
    }
  }

  lemma {:induction false} KeptWithout<T>(list: seq<T>, keep: set<T>, a: T)
    ensures Kept(list, keep - {a}) == Without(Kept(list, keep), a)
  {
    if list != [] {
      var front, last := list[..|list| - 1], list[|list| - 1];
      KeptWithout(front, keep, a);
      WithoutConcat(Kept(front, keep), if last in keep then [last] else [], a);
      assert [last][..0] == [];
    }
  }

  /** Of a list that begins with `x` and then `y`, a reader that goes on at `offset` sees all of `y`
      if and only if `x` fills the offset or `y` is empty. */
  lemma SeenBehind<T>(list: seq<T>, x: seq<T>, y: seq<T>, offset: nat)
    requires NoDup(list) && x + y <= list && |x| <= offset
    ensures (forall a :: a in y ==> offset <= |list| && a in list[offset..]) <==> |x| == offset || y == []
  {
    if |x| == offset {
      forall a | a in y ensures a in list[offset..] {
        var i :| 0 <= i < |y| && y[i] == a;
        assert list[offset..][i] == (x + y)[|x| + i];
      }
    } else if y != [] {
      assert (x + y)[|x|] == y[0] && list[|x|] == y[0];
      assert y[0] in y;
    }
  }

  /** A copy of the list that leaves out `a`. */
  method FilterOut<T(==)>(list: seq<T>, a: T) returns (rest: seq<T>)
    ensures rest == Without(list, a)
  {
    rest := [];
    for i := 0 to |list|
      invariant rest == Without(list[..i], a)
    {
      assert list[..i + 1][..i] == list[..i];
      if list[i] != a {
        rest := rest + [list[i]];
      }
    }
    assert list[..|list|] == list;
  }

  method Contains<T(==)>(list: seq<T>, a: T) returns (found: bool)
    ensures found <==> a in list
  {
    found := false;
    for i := 0 to |list|
      invariant found <==> a in list[..i]
    {
      if list[i] == a {
        found := true;
        break;
      }
    }
  }

  /** Find the first `a` and remove it from its position. */
  method RemoveAt<T(==)>(list: seq<T>, a: T) returns (rest: seq<T>)
    ensures rest == RemoveFirst(list, a)
  {
    var i := 0;
    while i < |list| && list[i] != a
      invariant i <= |list| && RemoveFirst(list, a) == list[..i] + RemoveFirst(list[i..], a)
    {
      assert list[i..][1..] == list[i + 1..];
      assert list[..i + 1] == list[..i] + [list[i]];
      i := i + 1;
    }
    assert i < |list| ==> list[i..][1..] == list[i + 1..];
    rest := if i < |list| then list[..i] + list[i + 1..] else list;
  }
}
