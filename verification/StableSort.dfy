/** Python's stable `list.sort`, as insertion after everything not greater. */
module StableSort {
  function Insert<T>(e: T, s: seq<T>, le: (T, T) -> bool): seq<T> {
    if s == [] || !le(s[0], e) then [e] + s else [s[0]] + Insert(e, s[1..], le)
  }

  function Sort<T>(xs: seq<T>, le: (T, T) -> bool): seq<T> {
    if xs == [] then [] else Insert(xs[|xs| - 1], Sort(xs[..|xs| - 1], le), le)
  }

  function Filter<T>(xs: seq<T>, p: T -> bool): (r: seq<T>)
    ensures forall x <- r :: x in xs && p(x)
  {
    if xs == [] then [] else
    var rest := Filter(xs[..|xs| - 1], p);
    if p(xs[|xs| - 1]) then rest + [xs[|xs| - 1]] else rest
  }

  ghost predicate Ordering<T(!new)>(le: (T, T) -> bool) {
    && (forall a, b :: le(a, b) || le(b, a))
    && (forall a, b, c :: le(a, b) && le(b, c) ==> le(a, c))
  }

  predicate Sorted<T>(xs: seq<T>, le: (T, T) -> bool) {
    forall i, j :: 0 <= i < j < |xs| ==> le(xs[i], xs[j])
  }

  lemma {:induction false} FilterAppend<T>(a: seq<T>, b: seq<T>, p: T -> bool)
    ensures Filter(a + b, p) == Filter(a, p) + Filter(b, p)
  {
    if b == [] {
      assert a + b == a;
    } else {
      var s := a + b;
      assert s[..|s| - 1] == a + b[..|b| - 1];
      FilterAppend(a, b[..|b| - 1], p);
    }
  }

  /** Where `Insert` puts its element. */
  lemma {:induction false} InsertSplits<T(!new)>(e: T, s: seq<T>, le: (T, T) -> bool) returns (k: nat)
    requires Ordering(le) && Sorted(s, le)
    ensures k <= |s| && Insert(e, s, le) == s[..k] + [e] + s[k..]
    ensures forall i :: 0 <= i < k ==> le(s[i], e)
    ensures forall i :: k <= i < |s| ==> !le(s[i], e)
  {
    if s == [] || !le(s[0], e) {
      k := 0;
      assert s[..0] + [e] + s[0..] == [e] + s;
    } else {
      var r := InsertSplits(e, s[1..], le);
      k := r + 1;
      assert s[..k] == [s[0]] + s[1..][..r];
      assert s[k..] == s[1..][r..];
    }
  }

  lemma {:induction false} SortSorts<T(!new)>(xs: seq<T>, le: (T, T) -> bool)
    requires Ordering(le)
    ensures Sorted(Sort(xs, le), le)
  {
    if xs != [] {
      var e, s := xs[|xs| - 1], Sort(xs[..|xs| - 1], le);
      SortSorts(xs[..|xs| - 1], le);
      var k := InsertSplits(e, s, le);
      var r := s[..k] + [e] + s[k..];
      forall i, j | 0 <= i < j < |r| ensures le(r[i], r[j]) {
        assert le(e, e);
      }
    }
  }

  lemma {:induction false} SortPermutes<T(!new)>(xs: seq<T>, le: (T, T) -> bool)
    ensures multiset(Sort(xs, le)) == multiset(xs)
  {
    if xs != [] {
      SortPermutes(xs[..|xs| - 1], le);
      InsertPermutes(xs[|xs| - 1], Sort(xs[..|xs| - 1], le), le);
      assert xs == xs[..|xs| - 1] + [xs[|xs| - 1]];
    }
  }

  lemma {:induction false} InsertPermutes<T(!new)>(e: T, s: seq<T>, le: (T, T) -> bool)
    ensures multiset(Insert(e, s, le)) == multiset(s) + multiset{e}
  {
    if s != [] && le(s[0], e) {
      InsertPermutes(e, s[1..], le);
      assert s == [s[0]] + s[1..];
    }
  }

  lemma {:induction false} FilterMembers<T>(xs: seq<T>, p: T -> bool, x: T)
    requires x in xs && p(x)
    ensures x in Filter(xs, p)
  {
    if x != xs[|xs| - 1] {
      FilterMembers(xs[..|xs| - 1], p, x);
    }
  }

  lemma {:induction false} InsertKeepsOrder<T(!new)>(e: T, s: seq<T>, le: (T, T) -> bool, p: T -> bool)
    requires Ordering(le) && Sorted(s, le)
    requires p(e) ==> forall x <- Filter(s, p) :: le(x, e)
    ensures Filter(Insert(e, s, le), p) == Filter(s, p) + if p(e) then [e] else []
  {
    hide Ordering, Filter;
    var t := if p(e) then [e] else [];
    FilterOne(e, p);
    if s == [] || !le(s[0], e) {
      FilterAppend([e], s, p);
      if p(e) {
        NoneKept(e, s, le, p);
      }
    } else {
      var rest := s[1..];
      assert s == [s[0]] + rest;
      FilterAppend([s[0]], rest, p);
      FilterAppend([s[0]], Insert(e, rest, le), p);
      InsertKeepsOrder(e, rest, le, p);
      var a, b := Filter([s[0]], p), Filter(rest, p);
      assert a + (b + t) == (a + b) + t;
    }
  }

  lemma FilterOne<T>(e: T, p: T -> bool)
    ensures Filter([e], p) == if p(e) then [e] else []
  {
    assert [e][..0] == [];
  }

  lemma NoneKept<T(!new)>(e: T, s: seq<T>, le: (T, T) -> bool, p: T -> bool)
    requires Ordering(le) && Sorted(s, le) && (s == [] || !le(s[0], e))
    requires forall x <- Filter(s, p) :: le(x, e)
    ensures Filter(s, p) == []
  {
    forall x | x in s ensures !le(x, e) {
      assert x == s[0] || le(s[0], x);
    }
  }

  /** Elements that were already in order among themselves keep that order. */
  lemma {:induction false} SortKeepsOrder<T(!new)>(xs: seq<T>, le: (T, T) -> bool, p: T -> bool)
    requires Ordering(le) && Sorted(Filter(xs, p), le)
    ensures Filter(Sort(xs, le), p) == Filter(xs, p)
  {
    if xs != [] {
      var init, e := xs[..|xs| - 1], xs[|xs| - 1];
      var f := Filter(init, p);
      assert f == Filter(xs, p)[..|f|];
      SortKeepsOrder(init, le, p);
      SortSorts(init, le);
      if p(e) {
        forall x | x in f ensures le(x, e) {
          var i :| 0 <= i < |f| && f[i] == x;
          assert Filter(xs, p)[i] == x && Filter(xs, p)[|f|] == e;
        }
      }
      InsertKeepsOrder(e, Sort(init, le), le, p);
    }
  }
}
