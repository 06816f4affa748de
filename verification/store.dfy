/**
  The three tables the repositories and controllers write: `list`,
  `listItem` and `seen`. Each is a sequence of rows in table order; the
  next-id counters stand for the auto-increment primary keys.
 */
module Store {
  import opened Entities
  import opened SeenEntity

  function ListKey(l: List): int { l.id }
  function ListItemKey(li: ListItem): int { li.id }
  function SeenKey(s: Seen): int { Num(s.id) }

  /** No two rows of the `list` table share an id. */
  predicate UniqueListIds(lists: seq<List>) {
    DistinctKeys(lists, ListKey)
  }

  predicate UniqueListItemIds(items: seq<ListItem>) {
    DistinctKeys(items, ListItemKey)
  }

  /** Stored seen rows carry an id, and no two share it. */
  predicate UniqueSeenIds(seen: seq<Seen>) {
    (forall i :: 0 <= i < |seen| ==> seen[i].id.Some?) && DistinctKeys(seen, SeenKey)
  }

  /** The `list` table's keys: unique, positive, below the counter. */
  predicate ListsValid(lists: seq<List>, next: Id) {
    0 < next && UniqueListIds(lists) && forall l :: l in lists ==> 0 < l.id < next
  }

  predicate ListItemsValid(items: seq<ListItem>, next: Id) {
    0 < next && UniqueListItemIds(items) && forall li :: li in items ==> 0 < li.id < next
  }

  predicate SeenValid(seen: seq<Seen>, next: Id) {
    0 < next && UniqueSeenIds(seen) && forall s :: s in seen ==> s.id.Some? && 0 < s.id.value < next
  }

  class Db {
    var lists: seq<List>
    var listItems: seq<ListItem>
    var seen: seq<Seen>
    var nextListId: Id
    var nextListItemId: Id
    var nextSeenId: Id

    /** Primary keys are unique, positive and below the auto-increment counter. */
    predicate Valid()
      reads this
    {
      ListsValid(lists, nextListId) && ListItemsValid(listItems, nextListItemId) && SeenValid(seen, nextSeenId)
    }

    constructor ()
      ensures Valid()
      ensures lists == [] && listItems == [] && seen == []
    {
      lists, listItems, seen := [], [], [];
      nextListId, nextListItemId, nextSeenId := 1, 1, 1;
    }
  }

  /** Inserting a row under the next id keeps the keys valid. */
  lemma ListsValidAppend(lists: seq<List>, next: Id, row: List)
    requires ListsValid(lists, next) && row.id == next
    ensures ListsValid(lists + [row], next + 1)
  {
    AppendKeepsDistinctKeys(lists, row, ListKey);
  }

  lemma ListItemsValidAppend(items: seq<ListItem>, next: Id, row: ListItem)
    requires ListItemsValid(items, next) && row.id == next
    ensures ListItemsValid(items + [row], next + 1)
  {
    AppendKeepsDistinctKeys(items, row, ListItemKey);
  }

  lemma SeenValidAppend(seen: seq<Seen>, next: Id, row: Seen)
    requires SeenValid(seen, next) && row.id == Some(next)
    ensures SeenValid(seen + [row], next + 1)
  {
    AppendKeepsDistinctKeys(seen, row, SeenKey);
  }

  /** Deleting rows keeps the keys valid. */
  lemma ListsValidFilter(lists: seq<List>, next: Id, p: List -> bool)
    requires ListsValid(lists, next)
    ensures ListsValid(Filter(lists, p), next)
  {
    FilterKeepsDistinctKeys(lists, p, ListKey);
  }

  lemma ListItemsValidFilter(items: seq<ListItem>, next: Id, p: ListItem -> bool)
    requires ListItemsValid(items, next)
    ensures ListItemsValid(Filter(items, p), next)
  {
    FilterKeepsDistinctKeys(items, p, ListItemKey);
  }

  lemma SeenValidFilter(seen: seq<Seen>, next: Id, p: Seen -> bool)
    requires SeenValid(seen, next)
    ensures SeenValid(Filter(seen, p), next)
  {
    FilterKeepsDistinctKeys(seen, p, SeenKey);
    var r := Filter(seen, p);
    forall i | 0 <= i < |r|
      ensures r[i].id.Some?
    {
      assert r[i] in seen;
    }
  }

  /** Two rows with the same key are the same row. */
  lemma DistinctKeysSameRow<T>(s: seq<T>, key: T -> int, i: int, j: int)
    requires DistinctKeys(s, key) && 0 <= i < |s| && 0 <= j < |s|
    requires key(s[i]) == key(s[j])
    ensures i == j
  {
    assert !(i < j) && !(j < i);
  }

  /** Keys that are pairwise distinct in a table stay so in any filtered part of it. */
  predicate DistinctKeys<T>(s: seq<T>, key: T -> int) {
    forall i, j :: 0 <= i < j < |s| ==> key(s[i]) != key(s[j])
  }

  /** Deleting rows keeps the primary keys unique. */
  lemma {:induction false} FilterKeepsDistinctKeys<T(!new)>(s: seq<T>, p: T -> bool, key: T -> int)
    requires DistinctKeys(s, key)
    ensures DistinctKeys(Filter(s, p), key)
  {
    if s != [] {
      var rest := Filter(s[1..], p);
      assert DistinctKeys(s[1..], key) by {
        forall i, j | 0 <= i < j < |s[1..]|
          ensures key(s[1..][i]) != key(s[1..][j])
        {
          assert s[1..][i] == s[i + 1] && s[1..][j] == s[j + 1];
        }
      }
      FilterKeepsDistinctKeys(s[1..], p, key);
      if p(s[0]) {
        var r := [s[0]] + rest;
        assert Filter(s, p) == r;
        forall i, j | 0 <= i < j < |r|
          ensures key(r[i]) != key(r[j])
        {
          if i == 0 {
            assert r[j] == rest[j - 1];
            assert r[j] in s[1..];
            var b :| 0 <= b < |s[1..]| && s[1..][b] == r[j];
            assert s[b + 1] == r[j];
          } else {
            assert r[i] == rest[i - 1] && r[j] == rest[j - 1];
          }
        }
      }
    }
  }

  /** Appending a row whose key is new keeps the keys distinct. */
  lemma AppendKeepsDistinctKeys<T>(s: seq<T>, x: T, key: T -> int)
    requires DistinctKeys(s, key)
    requires forall y :: y in s ==> key(y) != key(x)
    ensures DistinctKeys(s + [x], key)
  {
    var r := s + [x];
    forall i, j | 0 <= i < j < |r|
      ensures key(r[i]) != key(r[j])
    {
      assert r[i] == s[i];
      if j < |s| {
        assert r[j] == s[j];
      } else {
        assert s[i] in s;
      }
    }
  }

  /** The rows whose key is not `k`: `DELETE ... WHERE key = k`. */
  function WithoutKey<T(!new)>(s: seq<T>, key: T -> int, k: int): (r: seq<T>)
    ensures forall x :: x in r <==> x in s && key(x) != k
  {
    Filter(s, (x: T) => key(x) != k)
  }

  lemma WithoutKeyKeepsDistinctKeys<T(!new)>(s: seq<T>, key: T -> int, k: int)
    requires DistinctKeys(s, key)
    ensures DistinctKeys(WithoutKey(s, key, k), key)
  {
    FilterKeepsDistinctKeys(s, (x: T) => key(x) != k, key);
  }

  lemma DistinctKeysTail<T>(s: seq<T>, key: T -> int)
    requires s != [] && DistinctKeys(s, key)
    ensures DistinctKeys(s[1..], key)
    ensures forall x :: x in s[1..] ==> key(x) != key(s[0])
  {
    forall i, j | 0 <= i < j < |s[1..]|
      ensures key(s[1..][i]) != key(s[1..][j])
    {
      assert s[1..][i] == s[i + 1] && s[1..][j] == s[j + 1];
    }
    forall x | x in s[1..]
      ensures key(x) != key(s[0])
    {
      var j :| 0 <= j < |s[1..]| && s[1..][j] == x;
      assert s[j + 1] == x;
    }
  }

  /** Deleting by a unique key that occurs removes exactly one row. */
  lemma {:induction false} WithoutKeyRemovesOne<T(!new)>(s: seq<T>, key: T -> int, k: int)
    requires DistinctKeys(s, key)
    requires exists x :: x in s && key(x) == k
    ensures |WithoutKey(s, key, k)| == |s| - 1
  {
    assert s == [s[0]] + s[1..];
    DistinctKeysTail(s, key);
    if key(s[0]) == k {
      WithoutAbsentKey(s[1..], key, k);
    } else {
      var x :| x in s && key(x) == k;
      assert x in s[1..];
      WithoutKeyRemovesOne(s[1..], key, k);
    }
  }

  /** Deleting by a key that does not occur removes nothing. */
  lemma {:induction false} WithoutAbsentKey<T(!new)>(s: seq<T>, key: T -> int, k: int)
    requires forall x :: x in s ==> key(x) != k
    ensures WithoutKey(s, key, k) == s
  {
    if s != [] {
      assert s == [s[0]] + s[1..];
      WithoutAbsentKey(s[1..], key, k);
    }
  }

  /** Deleting by a key that occurs shrinks the table. */
  lemma {:induction false} WithoutPresentKey<T(!new)>(s: seq<T>, key: T -> int, k: int)
    requires exists x :: x in s && key(x) == k
    ensures |WithoutKey(s, key, k)| < |s|
  {
    assert s == [s[0]] + s[1..];
    if key(s[0]) != k {
      var x :| x in s && key(x) == k;
      assert x in s[1..];
      WithoutPresentKey(s[1..], key, k);
    } else {
      assert |WithoutKey(s[1..], key, k)| <= |s[1..]|;
    }
  }
}
