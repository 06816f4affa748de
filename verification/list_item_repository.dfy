/**
  The list-membership table (server/src/repository/listItemRepository.ts):
  adding many items at once, adding one item, removing one item, and the
  guards shared by add and remove (exactly one of a list id and the
  watchlist flag; the list must exist and be writable by the user).
 */
module ListItemRepository {
  import opened Entities
  import opened Store

  /** What identifies a membership row within its list. */
  datatype Key = Key(mediaItemId: Id, seasonId: Option<Id>, episodeId: Option<Id>)

  function KeyOf(li: ListItem): Key {
    Key(li.mediaItemId, li.seasonId, li.episodeId)
  }

  /** A row for the key on the list exists. */
  predicate HasRow(items: seq<ListItem>, listId: Id, k: Key) {
    exists li :: li in items && li.listId == listId && KeyOf(li) == k
  }

  /** The inserted row: the key under the next id, added `now`. */
  function NewRow(id: Id, listId: Id, k: Key, now: int): (r: ListItem)
    ensures r.id == id && r.listId == listId && KeyOf(r) == k && r.addedAt == now
  {
    ListItem(id, listId, k.mediaItemId, k.seasonId, k.episodeId, now)
  }

  // ------------------------------------------------------------ addManyItems

  /** The keys of the rows already on the list (the `Set` of serialised triples). */
  function ListKeys(items: seq<ListItem>, listId: Id): (r: set<Key>)
    ensures forall k :: k in r <==> HasRow(items, listId, k)
  {
    set li | li in items && li.listId == listId :: KeyOf(li)
  }

  /**
    The incoming keys that are not on the list yet, in their order. Keys
    repeated within the batch are all kept.
   */
  function NewKeys(existing: set<Key>, incoming: seq<Key>): (r: seq<Key>)
    ensures |r| <= |incoming|
    ensures forall k :: k in r <==> k in incoming && k !in existing
  {
    if incoming == [] then []
    else
      var last := incoming[|incoming| - 1];
      assert incoming == incoming[..|incoming| - 1] + [last];
      NewKeys(existing, incoming[..|incoming| - 1]) + (if last !in existing then [last] else [])
  }

  /** The rows the batch insert appends: consecutive ids from `next`, all on `listId`. */
  function NewRows(next: Id, listId: Id, keys: seq<Key>, now: int): (r: seq<ListItem>)
    ensures |r| == |keys|
    ensures forall i :: 0 <= i < |keys| ==> r[i] == NewRow(next + i, listId, keys[i], now)
  {
    if keys == [] then []
    else NewRows(next, listId, keys[..|keys| - 1], now) + [NewRow(next + |keys| - 1, listId, keys[|keys| - 1], now)]
  }

  /** The list `addManyItems` writes to: the user's own list with that id. */
  function OwnList(lists: seq<List>, listId: Id, userId: Id): (r: Option<List>)
    ensures r.Some? ==> r.value in lists && r.value.id == listId && r.value.userId == userId
    ensures r.None? <==> forall l :: l in lists ==> !(l.id == listId && l.userId == userId)
  {
    if lists == [] then None
    else if lists[0].id == listId && lists[0].userId == userId then Some(lists[0])
    else OwnList(lists[1..], listId, userId)
  }

  /**
    `addManyItems`: false (and nothing written) unless the list is the
    user's own; otherwise every incoming key not already on the list is
    appended, with the list id and the time `now`.
   */
  method AddManyItems(db: Db, userId: Id, listId: Id, incoming: seq<Key>, now: int) returns (ok: bool)
    requires db.Valid()
    modifies db
    ensures db.Valid()
    ensures ok <==> OwnList(old(db.lists), listId, userId).Some?
    ensures !ok ==> db.listItems == old(db.listItems) && db.nextListItemId == old(db.nextListItemId)
    ensures ok ==>
      var added := NewKeys(ListKeys(old(db.listItems), listId), incoming);
      db.listItems == old(db.listItems) + NewRows(old(db.nextListItemId), listId, added, now) &&
      db.nextListItemId == old(db.nextListItemId) + |added|
    ensures db.lists == old(db.lists) && db.seen == old(db.seen)
    ensures db.nextListId == old(db.nextListId) && db.nextSeenId == old(db.nextSeenId)
  {
    if OwnList(db.lists, listId, userId).None? {
      return false;
    }
    var batch := KeysToAdd(ListKeys(db.listItems, listId), incoming);
    InsertRows(db, listId, batch, now);
    ok := true;
  }

  /** The filter of the incoming keys against the existing set. */
  method KeysToAdd(existing: set<Key>, incoming: seq<Key>) returns (batch: seq<Key>)
    ensures batch == NewKeys(existing, incoming)
  {
    batch := [];
    var i := 0;
    while i < |incoming|
      invariant 0 <= i <= |incoming|
      invariant batch == NewKeys(existing, incoming[..i])
    {
      assert incoming[..i + 1][..i] == incoming[..i];
      if incoming[i] !in existing {
        batch := batch + [incoming[i]];
      }
      i := i + 1;
    }
    assert incoming[..|incoming|] == incoming;
  }

  /** The batch insert: one row per key, under consecutive ids. */
  method InsertRows(db: Db, listId: Id, batch: seq<Key>, now: int)
    requires db.Valid()
    modifies db
    ensures db.Valid()
    ensures db.listItems == old(db.listItems) + NewRows(old(db.nextListItemId), listId, batch, now)
    ensures db.nextListItemId == old(db.nextListItemId) + |batch|
    ensures db.lists == old(db.lists) && db.seen == old(db.seen)
    ensures db.nextListId == old(db.nextListId) && db.nextSeenId == old(db.nextSeenId)
  {
    var start := db.nextListItemId;
    var j := 0;
    while j < |batch|
      invariant 0 <= j <= |batch|
      invariant db.listItems == old(db.listItems) + NewRows(start, listId, batch[..j], now)
      invariant db.nextListItemId == start + j
      invariant db.Valid()
      invariant db.lists == old(db.lists) && db.seen == old(db.seen)
      invariant db.nextListId == old(db.nextListId) && db.nextSeenId == old(db.nextSeenId)
    {
      var row := NewRow(db.nextListItemId, listId, batch[j], now);
      ListItemsValidAppend(db.listItems, db.nextListItemId, row);
      assert batch[..j + 1][..j] == batch[..j];
      db.listItems := db.listItems + [row];
      db.nextListItemId := db.nextListItemId + 1;
      j := j + 1;
    }
    assert batch[..|batch|] == batch;
  }

  /** No appended row repeats a key the list already had. */
  lemma AddManySkipsExisting(items: seq<ListItem>, next: Id, listId: Id, incoming: seq<Key>, now: int)
    ensures var rows := NewRows(next, listId, NewKeys(ListKeys(items, listId), incoming), now);
      forall r :: r in rows ==> r.listId == listId && KeyOf(r) in incoming && !HasRow(items, listId, KeyOf(r))
  {
    var keys := NewKeys(ListKeys(items, listId), incoming);
    var rows := NewRows(next, listId, keys, now);
    forall r | r in rows
      ensures r.listId == listId && KeyOf(r) in incoming && !HasRow(items, listId, KeyOf(r))
    {
      var i :| 0 <= i < |rows| && rows[i] == r;
      assert keys[i] in keys;
    }
  }

  /** Every incoming key not yet on the list gets a row. */
  lemma AddManyAddsMissing(items: seq<ListItem>, next: Id, listId: Id, incoming: seq<Key>, now: int, k: Key)
    requires k in incoming && !HasRow(items, listId, k)
    ensures exists r :: r in NewRows(next, listId, NewKeys(ListKeys(items, listId), incoming), now) && KeyOf(r) == k
  {
    var keys := NewKeys(ListKeys(items, listId), incoming);
    var i :| 0 <= i < |keys| && keys[i] == k;
    assert NewRows(next, listId, keys, now)[i] == NewRow(next + i, listId, k, now);
  }

  /** A key sent twice in one batch, and not yet on the list, is inserted twice. */
  lemma AddManyKeepsRepeats(listId: Id, k: Key)
    ensures NewKeys(ListKeys([], listId), [k, k]) == [k, k]
  {
    assert [k, k][..1] == [k];
    assert [k][..0] == [];
  }

  // ------------------------------------------------------------ factory guard

  /** The arguments of `addItem` and `removeItem`. */
  datatype ItemArgs = ItemArgs(
    userId: Id,
    mediaItemId: Id,
    seasonId: Option<Id>,
    episodeId: Option<Id>,
    listId: Option<Id>,
    watchlist: Option<bool>)

  /** Exactly one of `listId` and `watchlist` is given (`watchlist: false` counts as given). */
  predicate OneTarget(args: ItemArgs) {
    args.listId.Some? != args.watchlist.Some?
  }

  const TargetError := "only one of listId and addToWatchlist arguments should be provided"

  /** The list by id, else the user's watchlist. */
  function TargetList(lists: seq<List>, args: ItemArgs): (r: Option<List>)
    ensures args.listId.Some? ==> r == FindList(lists, args.listId.value)
    ensures args.listId.None? ==> r == FindWatchlist(lists, args.userId)
  {
    if args.listId.Some? then FindList(lists, args.listId.value) else FindWatchlist(lists, args.userId)
  }

  /** Anyone may change a list except a private list of another user. */
  predicate Writable(l: List, userId: Id) {
    !(l.userId != userId && l.privacy == "private")
  }

  /** The list the operation goes on with, if the guard lets it through. */
  function Target(lists: seq<List>, args: ItemArgs): (r: Option<List>)
    requires OneTarget(args)
    ensures r.Some? <==> TargetList(lists, args).Some? && Writable(TargetList(lists, args).value, args.userId)
    ensures r.Some? ==> r == TargetList(lists, args)
  {
    var l := TargetList(lists, args);
    if l.Some? && Writable(l.value, args.userId) then l else None
  }

  // ------------------------------------------------------------ addItem

  /**
    The stored form of an added item: an episode row never keeps its season
    (`seasonId` is stored only without an episode id), and falsy ids are
    stored as null.
   */
  function AddKey(args: ItemArgs): (k: Key)
    ensures !(k.seasonId.Some? && k.episodeId.Some?)
    ensures k.mediaItemId == args.mediaItemId
    ensures k.episodeId.Some? <==> Truthy(args.episodeId)
    ensures k.episodeId.Some? ==> k.episodeId == args.episodeId
    ensures k.seasonId.Some? <==> args.episodeId.None? && Truthy(args.seasonId)
    ensures k.seasonId.Some? ==> k.seasonId == args.seasonId
  {
    Key(args.mediaItemId, if args.episodeId.None? then Norm(args.seasonId) else None, Norm(args.episodeId))
  }

  /** A given season, and a given episode, must belong to the show `mediaItemId`. */
  predicate BelongsToShow(c: Catalog, args: ItemArgs) {
    (args.mediaItemId != 0 && Truthy(args.seasonId) ==>
      exists s :: s in c.seasons && s.tvShowId == args.mediaItemId && s.id == args.seasonId.value) &&
    (args.mediaItemId != 0 && Truthy(args.episodeId) ==>
      exists e :: e in c.episodes && e.tvShowId == args.mediaItemId && e.id == args.episodeId.value)
  }

  /** `addItem` inserts exactly when all of its checks pass. */
  predicate AddAllowed(lists: seq<List>, items: seq<ListItem>, c: Catalog, args: ItemArgs)
    requires OneTarget(args)
  {
    Target(lists, args).Some? && BelongsToShow(c, args) &&
    !HasRow(items, Target(lists, args).value.id, AddKey(args))
  }

  method AddItem(db: Db, c: Catalog, args: ItemArgs, now: int) returns (r: Result<bool>)
    requires db.Valid()
    modifies db
    ensures db.Valid()
    ensures r.Failure? <==> !OneTarget(args)
    ensures r.Success? ==> (r.value <==> AddAllowed(old(db.lists), old(db.listItems), c, args))
    ensures r == Success(true) ==>
      db.listItems == old(db.listItems) +
        [NewRow(old(db.nextListItemId), Target(old(db.lists), args).value.id, AddKey(args), now)] &&
      db.nextListItemId == old(db.nextListItemId) + 1
    ensures r != Success(true) ==> db.listItems == old(db.listItems) && db.nextListItemId == old(db.nextListItemId)
    ensures db.lists == old(db.lists) && db.seen == old(db.seen)
    ensures db.nextListId == old(db.nextListId) && db.nextSeenId == old(db.nextSeenId)
  {
    if !OneTarget(args) {
      return Failure(TargetError);
    }
    var list := Target(db.lists, args);
    if list.None? || !BelongsToShow(c, args) {
      return Success(false);
    }
    var key := AddKey(args);
    if HasRow(db.listItems, list.value.id, key) {
      return Success(false);
    }
    var row := NewRow(db.nextListItemId, list.value.id, key, now);
    ListItemsValidAppend(db.listItems, db.nextListItemId, row);
    db.listItems := db.listItems + [row];
    db.nextListItemId := db.nextListItemId + 1;
    r := Success(true);
  }

  /** Adding the same item again is refused: the table changes at most once. */
  lemma AddItemIdempotent(lists: seq<List>, items: seq<ListItem>, c: Catalog, args: ItemArgs, id: Id, now: int)
    requires OneTarget(args) && AddAllowed(lists, items, c, args)
    ensures !AddAllowed(lists, items + [NewRow(id, Target(lists, args).value.id, AddKey(args), now)], c, args)
  {
    var row := NewRow(id, Target(lists, args).value.id, AddKey(args), now);
    assert row in items + [row];
  }

  /** No row stored by `addItem` has both a season and an episode. */
  lemma AddedRowHasOneGranularity(args: ItemArgs, id: Id, listId: Id, now: int)
    ensures var row := NewRow(id, listId, AddKey(args), now);
      !(row.seasonId.Some? && row.episodeId.Some?)
  {
  }

  // ------------------------------------------------------------ removeItem

  /** The row `removeItem` looks for: falsy ids as null, the season kept even with an episode. */
  function RemoveKey(args: ItemArgs): (k: Key)
    ensures k.mediaItemId == args.mediaItemId
    ensures k.seasonId.Some? <==> Truthy(args.seasonId)
    ensures k.episodeId.Some? <==> Truthy(args.episodeId)
  {
    Key(args.mediaItemId, Norm(args.seasonId), Norm(args.episodeId))
  }

  /** The first row of the list with the key (`.first()`). */
  function FirstRow(items: seq<ListItem>, listId: Id, k: Key): (r: Option<ListItem>)
    ensures r.Some? ==> r.value in items && r.value.listId == listId && KeyOf(r.value) == k
    ensures r.None? <==> !HasRow(items, listId, k)
  {
    if items == [] then None
    else if items[0].listId == listId && KeyOf(items[0]) == k then Some(items[0])
    else
      assert forall li :: li in items ==> li == items[0] || li in items[1..];
      FirstRow(items[1..], listId, k)
  }

  /** `DELETE FROM listItem WHERE id = :id`. */
  function DeleteRow(items: seq<ListItem>, id: Id): (r: seq<ListItem>)
    ensures forall li :: li in r <==> li in items && li.id != id
  {
    WithoutKey(items, ListItemKey, id)
  }

  predicate RemoveFinds(lists: seq<List>, items: seq<ListItem>, args: ItemArgs)
    requires OneTarget(args)
  {
    Target(lists, args).Some? && FirstRow(items, Target(lists, args).value.id, RemoveKey(args)).Some?
  }

  /** The `listItem` table after `removeItem`. */
  function RemoveResult(lists: seq<List>, items: seq<ListItem>, args: ItemArgs): (r: seq<ListItem>)
    ensures |r| <= |items|
    ensures forall li :: li in r ==> li in items
  {
    if OneTarget(args) && RemoveFinds(lists, items, args) then
      DeleteRow(items, FirstRow(items, Target(lists, args).value.id, RemoveKey(args)).value.id)
    else items
  }

  /**
    `removeItem`: deletes the first matching row of the list by its id and
    answers whether a row was deleted.
   */
  method RemoveItem(db: Db, args: ItemArgs) returns (r: Result<bool>)
    requires db.Valid()
    modifies db
    ensures db.Valid()
    ensures r.Failure? <==> !OneTarget(args)
    ensures r.Success? ==> (r.value <==> RemoveFinds(old(db.lists), old(db.listItems), args))
    ensures r == Success(true) ==>
      db.listItems == DeleteRow(old(db.listItems),
        FirstRow(old(db.listItems), Target(old(db.lists), args).value.id, RemoveKey(args)).value.id)
    ensures r != Success(true) ==> db.listItems == old(db.listItems)
    ensures db.listItems == RemoveResult(old(db.lists), old(db.listItems), args)
    ensures db.lists == old(db.lists) && db.seen == old(db.seen)
    ensures db.nextListId == old(db.nextListId) && db.nextListItemId == old(db.nextListItemId)
    ensures db.nextSeenId == old(db.nextSeenId)
  {
    if !OneTarget(args) {
      return Failure(TargetError);
    }
    var list := Target(db.lists, args);
    if list.None? {
      return Success(false);
    }
    var found := FirstRow(db.listItems, list.value.id, RemoveKey(args));
    if found.None? {
      return Success(false);
    }
    WithoutKeyKeepsDistinctKeys(db.listItems, ListItemKey, found.value.id);
    WithoutPresentKey(db.listItems, ListItemKey, found.value.id);
    var before := |db.listItems|;
    db.listItems := DeleteRow(db.listItems, found.value.id);
    var deleted := before - |db.listItems|;
    r := Success(deleted > 0);
  }

  /** `removeItem` deletes exactly one row, the one it found, when ids are unique. */
  lemma RemoveDeletesOneRow(items: seq<ListItem>, listId: Id, k: Key)
    requires UniqueListItemIds(items)
    requires FirstRow(items, listId, k).Some?
    ensures var found := FirstRow(items, listId, k).value;
      |DeleteRow(items, found.id)| == |items| - 1 &&
      found !in DeleteRow(items, found.id) &&
      forall li :: li in items && li != found ==> li in DeleteRow(items, found.id)
  {
    var found := FirstRow(items, listId, k).value;
    WithoutKeyRemovesOne(items, ListItemKey, found.id);
    forall li | li in items && li != found
      ensures li.id != found.id
    {
      var i :| 0 <= i < |items| && items[i] == li;
      var j :| 0 <= j < |items| && items[j] == found;
      if li.id == found.id {
        DistinctKeysSameRow(items, ListItemKey, i, j);
      }
    }
  }

  /** Without an episode id, `removeItem` looks for exactly the row `addItem` stores. */
  lemma RemoveKeyMatchesWithoutEpisode(args: ItemArgs)
    requires args.episodeId.None?
    ensures RemoveKey(args) == AddKey(args)
  {
  }

  /**
    As written, an item added with both a season id and an episode id is
    stored without its season, so removing it with the same arguments finds
    no row.
   */
  lemma AddThenRemoveMisses()
    ensures var args := ItemArgs(1, 10, Some(20), Some(30), Some(5), None);
      var row := NewRow(1, 5, AddKey(args), 0);
      FirstRow([row], 5, RemoveKey(args)).None?
  {
    var args := ItemArgs(1, 10, Some(20), Some(30), Some(5), None);
    assert RemoveKey(args).seasonId == Some(20);
    assert AddKey(args).seasonId == None;
  }

  /** The row the removal should look for: the key `addItem` stores. */
  function IntendedRemoveKey(args: ItemArgs): (k: Key)
    ensures k == AddKey(args)
    ensures args.episodeId.None? ==> k == RemoveKey(args)
  {
    Key(args.mediaItemId, if args.episodeId.None? then Norm(args.seasonId) else None, Norm(args.episodeId))
  }

  /**
    With the intended key, removing right after adding finds the added row
    and deleting it restores the table.
   */
  lemma AddThenRemoveIntended(lists: seq<List>, items: seq<ListItem>, c: Catalog, args: ItemArgs, next: Id, now: int)
    requires OneTarget(args) && AddAllowed(lists, items, c, args)
    requires forall li :: li in items ==> li.id < next
    ensures var row := NewRow(next, Target(lists, args).value.id, AddKey(args), now);
      FirstRow(items + [row], row.listId, IntendedRemoveKey(args)) == Some(row) &&
      DeleteRow(items + [row], next) == items
  {
    var row := NewRow(next, Target(lists, args).value.id, AddKey(args), now);
    FirstRowAppend(items, row);
    WithoutKeyAppend(items, row);
  }

  lemma {:induction false} FirstRowAppend(items: seq<ListItem>, row: ListItem)
    requires !HasRow(items, row.listId, KeyOf(row))
    ensures FirstRow(items + [row], row.listId, KeyOf(row)) == Some(row)
  {
    if items != [] {
      assert items[0] in items;
      assert (items + [row])[1..] == items[1..] + [row];
      assert forall li :: li in items[1..] ==> li in items;
      FirstRowAppend(items[1..], row);
    }
  }

  lemma {:induction false} WithoutKeyAppend(items: seq<ListItem>, row: ListItem)
    requires forall li :: li in items ==> li.id < row.id
    ensures WithoutKey(items + [row], ListItemKey, row.id) == items
  {
    if items == [] {
      assert Filter([row][1..], (x: ListItem) => ListItemKey(x) != row.id) == [];
    } else {
      assert items[0] in items;
      assert (items + [row])[1..] == items[1..] + [row];
      assert forall li :: li in items[1..] ==> li in items;
      WithoutKeyAppend(items[1..], row);
      assert items == [items[0]] + items[1..];
    }
  }
}
