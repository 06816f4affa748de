/**
  Ordering of result rows. SQL `ORDER BY` and lodash `orderBy` are both
  modelled by one stable insertion sort over a "less than or equal"
  relation; rows the relation cannot tell apart keep their input order
  (lodash promises this; for SQL it is the model's choice of one of the
  orders the database may return).
 */
module Sorting {

  ghost predicate Total<T(!new)>(le: (T, T) -> bool) {
    forall a, b :: le(a, b) || le(b, a)
  }

  ghost predicate Transitive<T(!new)>(le: (T, T) -> bool) {
    forall a, b, c :: le(a, b) && le(b, c) ==> le(a, c)
  }

  ghost predicate TotalPreorder<T(!new)>(le: (T, T) -> bool) {
    Total(le) && Transitive(le)
  }

  ghost predicate Sorted<T>(s: seq<T>, le: (T, T) -> bool) {
    forall i, j :: 0 <= i < j < |s| ==> le(s[i], s[j])
  }

  /**
    Every pair that `le` ranks equal (or out of order) is in `tie` order:
    the secondary order a stable sort by `le` keeps.
   */
  ghost predicate TiesOrdered<T>(s: seq<T>, le: (T, T) -> bool, tie: (T, T) -> bool) {
    forall i, j :: 0 <= i < j < |s| && le(s[j], s[i]) ==> tie(s[i], s[j])
  }

  /** Puts `x` before the first element it is at most, i.e. after every element strictly below it. */
  function Insert<T>(x: T, s: seq<T>, le: (T, T) -> bool): (r: seq<T>)
    ensures |r| == |s| + 1
    ensures multiset(r) == multiset(s) + multiset{x}
  {
    if s == [] || le(x, s[0]) then [x] + s
    else
      assert s == [s[0]] + s[1..];
      [s[0]] + Insert(x, s[1..], le)
  }

  /** Stable insertion sort. */
  function SortBy<T>(s: seq<T>, le: (T, T) -> bool): (r: seq<T>)
    ensures |r| == |s|
    ensures multiset(r) == multiset(s)
  {
    if s == [] then []
    else
      assert s == [s[0]] + s[1..];
      Insert(s[0], SortBy(s[1..], le), le)
  }

  lemma {:induction false} InsertSorted<T(!new)>(x: T, s: seq<T>, le: (T, T) -> bool)
    requires TotalPreorder(le)
    requires Sorted(s, le)
    ensures Sorted(Insert(x, s, le), le)
  {
    if s == [] || le(x, s[0]) {
    } else {
      InsertSorted(x, s[1..], le);
      var r := Insert(x, s[1..], le);
      assert le(s[0], x);
      forall y | y in r ensures le(s[0], y) {
        assert y in multiset(r);
        if y != x {
          assert y in multiset(s[1..]);
          var k :| 0 <= k < |s[1..]| && s[1..][k] == y;
          assert s[k + 1] == y;
        }
      }
      var full := [s[0]] + r;
      forall i, j | 0 <= i < j < |full| ensures le(full[i], full[j]) {
        if i == 0 {
          assert full[j] == r[j - 1];
          assert r[j - 1] in r;
        } else {
          assert full[i] == r[i - 1] && full[j] == r[j - 1];
        }
      }
    }
  }

  lemma {:induction false} SortBySorted<T(!new)>(s: seq<T>, le: (T, T) -> bool)
    requires TotalPreorder(le)
    ensures Sorted(SortBy(s, le), le)
  {
    if s != [] {
      SortBySorted(s[1..], le);
      InsertSorted(s[0], SortBy(s[1..], le), le);
    }
  }

  lemma {:induction false} InsertTies<T(!new)>(x: T, s: seq<T>, le: (T, T) -> bool, tie: (T, T) -> bool)
    requires TotalPreorder(le)
    requires TiesOrdered(s, le, tie)
    requires forall y :: y in s && le(y, x) ==> tie(x, y)
    ensures TiesOrdered(Insert(x, s, le), le, tie)
  {
    if s == [] || le(x, s[0]) {
      var full := [x] + s;
      forall i, j | 0 <= i < j < |full| && le(full[j], full[i]) ensures tie(full[i], full[j]) {
        if i == 0 {
          assert full[j] == s[j - 1] && s[j - 1] in s;
        } else {
          assert full[i] == s[i - 1] && full[j] == s[j - 1];
        }
      }
    } else {
      InsertTies(x, s[1..], le, tie);
      var r := Insert(x, s[1..], le);
      var full := [s[0]] + r;
      assert !le(x, s[0]);
      forall i, j | 0 <= i < j < |full| && le(full[j], full[i]) ensures tie(full[i], full[j]) {
        if i == 0 {
          assert full[j] == r[j - 1];
          var y := r[j - 1];
          assert y in multiset(r);
          if y == x {
            assert false;
          } else {
            assert y in multiset(s[1..]);
            var k :| 0 <= k < |s[1..]| && s[1..][k] == y;
            assert s[k + 1] == y;
          }
        } else {
          assert full[i] == r[i - 1] && full[j] == r[j - 1];
        }
      }
    }
  }

  /** A stable sort keeps the tie order of its input among rows `le` ranks equal. */
  lemma {:induction false} SortByTies<T(!new)>(s: seq<T>, le: (T, T) -> bool, tie: (T, T) -> bool)
    requires TotalPreorder(le)
    requires TiesOrdered(s, le, tie)
    ensures TiesOrdered(SortBy(s, le), le, tie)
  {
    if s != [] {
      var rest := s[1..];
      assert TiesOrdered(rest, le, tie) by {
        forall i, j | 0 <= i < j < |rest| && le(rest[j], rest[i]) ensures tie(rest[i], rest[j]) {
          assert rest[i] == s[i + 1] && rest[j] == s[j + 1];
        }
      }
      SortByTies(rest, le, tie);
      var sorted := SortBy(rest, le);
      forall y | y in sorted && le(y, s[0]) ensures tie(s[0], y) {
        assert y in multiset(sorted);
        assert y in multiset(rest);
        var k :| 0 <= k < |rest| && rest[k] == y;
        assert s[k + 1] == y;
      }
      InsertTies(s[0], sorted, le, tie);
    }
  }
}
