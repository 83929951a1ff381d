/** Filtering, mapping and ordering of sequences, as table queries use them. */
module Lists {

  function Filter<T>(keep: T -> bool, s: seq<T>): seq<T> {
    if s == [] then [] else (if keep(s[0]) then [s[0]] else []) + Filter(keep, s[1..])
  }

  function Map<T, U>(f: T -> U, s: seq<T>): (r: seq<U>)
    ensures |r| == |s|
    ensures forall i :: 0 <= i < |s| ==> r[i] == f(s[i])
  {
    seq(|s|, i requires 0 <= i < |s| => f(s[i]))
  }

  function Insert<T>(before: (T, T) -> bool, x: T, s: seq<T>): seq<T> {
    if s == [] || before(x, s[0]) then [x] + s else [s[0]] + Insert(before, x, s[1..])
  }

  function Sort<T>(before: (T, T) -> bool, s: seq<T>): seq<T> {
    if s == [] then [] else Insert(before, s[0], Sort(before, s[1..]))
  }

  function Take<T>(s: seq<T>, limit: nat): seq<T> {
    if |s| <= limit then s else s[..limit]
  }

  lemma {:induction false} FilterMembers<T>(keep: T -> bool, s: seq<T>)
    ensures forall x :: x in Filter(keep, s) <==> x in s && keep(x)
    ensures |Filter(keep, s)| <= |s|
  {
    if s != [] {
      FilterMembers(keep, s[1..]);
      assert s == [s[0]] + s[1..];
    }
  }

  lemma {:induction false} FilterAppend<T>(keep: T -> bool, a: seq<T>, b: seq<T>)
    ensures Filter(keep, a + b) == Filter(keep, a) + Filter(keep, b)
  {
    if a == [] {
      assert a + b == b;
    } else {
      FilterAppend(keep, a[1..], b);
      assert (a + b)[1..] == a[1..] + b;
      var kept := if keep(a[0]) then [a[0]] else [];
      assert Filter(keep, a + b) == kept + Filter(keep, a[1..] + b);
      assert Filter(keep, a) == kept + Filter(keep, a[1..]);
    }
  }

  /** The positions whose elements pass the test. */
  function Positions<T>(keep: T -> bool, s: seq<T>): set<nat> {
    set i: nat | i < |s| && keep(s[i])
  }

  /** A filter keeps one element for each position that passes. */
  lemma {:induction false} FilterCount<T>(keep: T -> bool, s: seq<T>)
    ensures |Filter(keep, s)| == |Positions(keep, s)|
  {
    if s == [] {
      assert Positions(keep, s) == {};
    } else {
      var n := |s| - 1;
      FilterCount(keep, s[..n]);
      FilterAppend(keep, s[..n], [s[n]]);
      assert s == s[..n] + [s[n]];
      assert [s[n]][1..] == [];
      PositionsNext(keep, s);
    }
  }

  lemma PositionsNext<T>(keep: T -> bool, s: seq<T>)
    requires s != []
    ensures |Positions(keep, s)| == |Positions(keep, s[..|s| - 1])| + if keep(s[|s| - 1]) then 1 else 0
  {
    var n := |s| - 1;
    if keep(s[n]) {
      assert Positions(keep, s) == Positions(keep, s[..n]) + {n};
    } else {
      assert Positions(keep, s) == Positions(keep, s[..n]);
    }
  }

  /** Filtering commutes with a mapping under which the two tests agree. */
  lemma {:induction false} FilterMap<T, U>(f: T -> U, keepT: T -> bool, keepU: U -> bool, s: seq<T>)
    requires forall x :: x in s ==> keepU(f(x)) == keepT(x)
    ensures Filter(keepU, Map(f, s)) == Map(f, Filter(keepT, s))
  {
    if s != [] {
      FilterMap(f, keepT, keepU, s[1..]);
      assert Map(f, s)[1..] == Map(f, s[1..]);
    }
  }

  ghost predicate SameOrder<T(!new), U>(f: T -> U, beforeT: (T, T) -> bool, beforeU: (U, U) -> bool, s: seq<T>) {
    forall x, y :: x in s && y in s ==> beforeU(f(x), f(y)) == beforeT(x, y)
  }

  lemma {:induction false} InsertMembers<T>(before: (T, T) -> bool, x: T, s: seq<T>)
    ensures multiset(Insert(before, x, s)) == multiset(s) + multiset{x}
  {
    if s != [] && !before(x, s[0]) {
      InsertMembers(before, x, s[1..]);
      assert s == [s[0]] + s[1..];
    }
  }

  lemma {:induction false} SortMembers<T>(before: (T, T) -> bool, s: seq<T>)
    ensures multiset(Sort(before, s)) == multiset(s)
  {
    if s != [] {
      SortMembers(before, s[1..]);
      InsertMembers(before, s[0], Sort(before, s[1..]));
      assert s == [s[0]] + s[1..];
    }
  }

  lemma SortKeepsMembers<T>(before: (T, T) -> bool, s: seq<T>)
    ensures |Sort(before, s)| == |s|
    ensures forall x :: x in Sort(before, s) <==> x in s
  {
    SortMembers(before, s);
    var r := Sort(before, s);
    assert |r| == |multiset(r)| && |s| == |multiset(s)|;
    forall x
      ensures x in r <==> x in s
    {
      assert x in multiset(r) <==> x in multiset(s);
    }
  }

  lemma {:induction false} InsertMap<T(!new), U>(f: T -> U, beforeT: (T, T) -> bool, beforeU: (U, U) -> bool,
                                                       x: T, s: seq<T>)
    requires SameOrder(f, beforeT, beforeU, [x] + s)
    ensures Insert(beforeU, f(x), Map(f, s)) == Map(f, Insert(beforeT, x, s))
  {
    if s == [] {
      assert Map(f, [x]) == [f(x)];
    } else {
      assert x in [x] + s && s[0] in [x] + s;
      assert Map(f, s)[1..] == Map(f, s[1..]);
      if beforeT(x, s[0]) {
        assert Map(f, [x] + s) == [f(x)] + Map(f, s);
      } else {
        InsertMap(f, beforeT, beforeU, x, s[1..]);
        var rest := Insert(beforeT, x, s[1..]);
        assert Map(f, [s[0]] + rest) == [f(s[0])] + Map(f, rest);
      }
    }
  }

  /** Sorting commutes with an order-preserving mapping. */
  lemma {:induction false} SortMap<T(!new), U>(f: T -> U, beforeT: (T, T) -> bool, beforeU: (U, U) -> bool, s: seq<T>)
    requires SameOrder(f, beforeT, beforeU, s)
    ensures Sort(beforeU, Map(f, s)) == Map(f, Sort(beforeT, s))
  {
    if s != [] {
      SortMap(f, beforeT, beforeU, s[1..]);
      assert Map(f, s)[1..] == Map(f, s[1..]);
      SortKeepsMembers(beforeT, s[1..]);
      InsertMap(f, beforeT, beforeU, s[0], Sort(beforeT, s[1..]));
    }
  }

  lemma TakeMap<T, U>(f: T -> U, s: seq<T>, limit: nat)
    ensures Take(Map(f, s), limit) == Map(f, Take(s, limit))
  {
  }

  // ---------------------------------------------------------------- strict orders

  ghost predicate StrictOn<T(!new)>(before: (T, T) -> bool, s: seq<T>) {
    && (forall x, y, z :: x in s && y in s && z in s && before(x, y) && before(y, z) ==> before(x, z))
    && (forall i, j :: 0 <= i < j < |s| ==> before(s[i], s[j]) || before(s[j], s[i]))
  }

  ghost predicate Sorted<T>(before: (T, T) -> bool, s: seq<T>) {
    forall i, j :: 0 <= i < j < |s| ==> before(s[i], s[j])
  }

  lemma {:induction false} InsertSorted<T(!new)>(before: (T, T) -> bool, x: T, s: seq<T>)
    requires Sorted(before, s)
    requires forall y, z :: y in s && z in s && before(x, y) && before(y, z) ==> before(x, z)
    requires forall y :: y in s ==> before(x, y) || before(y, x)
    ensures Sorted(before, Insert(before, x, s))
  {
    if s != [] {
      assert forall y :: y in s[1..] ==> y in s;
      if before(x, s[0]) {
        forall i | 0 <= i < |s|
          ensures before(x, s[i])
        {
          assert i > 0 ==> before(s[0], s[i]);
        }
      } else {
        InsertSorted(before, x, s[1..]);
        InsertMembers(before, x, s[1..]);
        var rest := Insert(before, x, s[1..]);
        forall y | y in rest
          ensures before(s[0], y)
        {
          assert y in multiset(rest);
          assert s[0] in s;
        }
      }
    }
  }

  lemma {:induction false} SortSorted<T(!new)>(before: (T, T) -> bool, s: seq<T>)
    requires StrictOn(before, s)
    ensures Sorted(before, Sort(before, s))
  {
    if s != [] {
      assert forall y :: y in s[1..] ==> y in s;
      SortSorted(before, s[1..]);
      SortKeepsMembers(before, s[1..]);
      InsertSorted(before, s[0], Sort(before, s[1..]));
    }
  }
}
