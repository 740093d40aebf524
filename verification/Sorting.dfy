/** Strictly ordered sequences, for sorting by a key that never ties. */
module Sorting {

  ghost predicate Sorted<T(!new)>(before: (T, T) -> bool, s: seq<T>)
  {
    forall i, j :: 0 <= i < j < |s| ==> before(s[i], s[j])
  }

  ghost predicate StrictOrder<T(!new)>(before: (T, T) -> bool)
  {
    && (forall a :: !before(a, a))
    && (forall a, b, c :: before(a, b) && before(b, c) ==> before(a, c))
  }

  function Insert<T(!new)>(before: (T, T) -> bool, s: seq<T>, x: T): (r: seq<T>)
    ensures forall e :: e in r <==> e in s || e == x
  {
    if s == [] || before(x, s[0]) then [x] + s
    else
      assert s == [s[0]] + s[1..];
      [s[0]] + Insert(before, s[1..], x)
  }

  lemma {:induction false} InsertSorted<T(!new)>(before: (T, T) -> bool, s: seq<T>, x: T)
    requires StrictOrder(before) && Sorted(before, s)
    requires forall e :: e in s ==> before(e, x) || before(x, e)
    ensures Sorted(before, Insert(before, s, x))
  {
    if s != [] && !before(x, s[0]) {
      assert s[0] in s && forall e :: e in s[1..] ==> e in s;
      InsertSorted(before, s[1..], x);
      var r := Insert(before, s[1..], x);
      forall i | 0 <= i < |r| ensures before(s[0], r[i]) {
        assert r[i] in r;
        if r[i] != x {
          var j :| 0 <= j < |s[1..]| && s[1..][j] == r[i];
        }
      }
    } else if s != [] {
      forall i | 0 <= i < |s| ensures before(x, s[i]) {
        assert i > 0 ==> before(s[0], s[i]);
      }
    }
  }

  /** One order, one arrangement. */
  lemma {:induction false} SortedUnique<T(!new)>(before: (T, T) -> bool, s: seq<T>, u: seq<T>)
    requires StrictOrder(before) && Sorted(before, s) && Sorted(before, u)
    requires forall e :: e in s <==> e in u
    ensures s == u
    decreases |s|
  {
    assert s != [] ==> s[0] in u;
    assert u != [] ==> u[0] in s;
    if s != [] {
      var i :| 0 <= i < |u| && u[i] == s[0];
      var j :| 0 <= j < |s| && s[j] == u[0];
      assert s[0] == u[0];
      assert s == [s[0]] + s[1..] && u == [u[0]] + u[1..];
      forall e ensures e in s[1..] <==> e in s && e != s[0] {
        TailOf(before, s, e);
      }
      forall e ensures e in u[1..] <==> e in u && e != u[0] {
        TailOf(before, u, e);
      }
      SortedUnique(before, s[1..], u[1..]);
    }
  }

  lemma TailOf<T(!new)>(before: (T, T) -> bool, s: seq<T>, e: T)
    requires StrictOrder(before) && Sorted(before, s) && s != []
    ensures e in s[1..] <==> e in s && e != s[0]
  {
    assert s == [s[0]] + s[1..];
    if e in s[1..] {
      var i :| 0 <= i < |s[1..]| && s[1..][i] == e;
      assert before(s[0], s[i + 1]);
    }
  }

  function Keep<T(!new)>(f: T -> bool, s: seq<T>): (r: seq<T>)
    ensures forall e :: e in r <==> e in s && f(e)
  {
    if s == [] then []
    else
      assert s == [s[0]] + s[1..];
      (if f(s[0]) then [s[0]] else []) + Keep(f, s[1..])
  }

  lemma {:induction false} KeepSorted<T(!new)>(before: (T, T) -> bool, f: T -> bool, s: seq<T>)
    requires Sorted(before, s)
    ensures Sorted(before, Keep(f, s))
  {
    if s != [] {
      KeepSorted(before, f, s[1..]);
      var r := Keep(f, s[1..]);
      forall i | 0 <= i < |r| ensures before(s[0], r[i]) {
        assert r[i] in r && r[i] in s[1..];
        var j :| 0 <= j < |s[1..]| && s[1..][j] == r[i];
        assert before(s[0], s[j + 1]);
      }
    }
  }
}
