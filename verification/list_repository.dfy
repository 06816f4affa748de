/**
  The `list` table rules of the list repository (server/src/repository/list.ts):
  creating, renaming/updating and deleting a list, and the list details
  with the total runtime of everything on the list.
 */
module ListRepository {
  import opened Entities
  import opened Strings
  import opened Store

  /** `name.trim().length === 0`: a name made only of whitespace is refused. */
  predicate BlankName(name: string) {
    Trim(name) == []
  }

  /** `s || fallback` on an optional string: absent and '' both fall back. */
  function OrDefault(s: Option<string>, fallback: string): (r: string)
    ensures s.Some? && s.value != "" ==> r == s.value
    ensures s.None? || s.value == "" ==> r == fallback
  {
    if s.Some? && s.value != "" then s.value else fallback
  }

  // ---------------------------------------------------------------- create

  datatype CreateArgs = CreateArgs(
    userId: Id,
    name: string,
    description: Option<string>,
    privacy: Option<string>,
    sortBy: Option<string>,
    sortOrder: Option<string>,
    isWatchlist: Option<bool>)

  /** The inserted row: defaults for the unset settings, both timestamps `now`. */
  function NewList(id: Id, args: CreateArgs, now: int): (r: List)
    ensures r.id == id && r.userId == args.userId && r.name == args.name
    ensures r.privacy == OrDefault(args.privacy, "private")
    ensures r.sortBy == OrDefault(args.sortBy, "recently-watched")
    ensures r.sortOrder == OrDefault(args.sortOrder, "desc")
    ensures r.isWatchlist <==> args.isWatchlist == Some(true)
    ensures r.createdAt == r.updatedAt == now
  {
    List(id, args.userId, args.name, args.description,
         OrDefault(args.privacy, "private"), OrDefault(args.sortBy, "recently-watched"),
         OrDefault(args.sortOrder, "desc"), args.isWatchlist == Some(true), now, now)
  }

  /**
    `create`: a blank name creates nothing; otherwise one row is appended
    under the next id. There is no check for an existing list of the same
    name, nor for an existing watchlist.
   */
  method Create(db: Db, args: CreateArgs, now: int) returns (r: Option<List>)
    requires db.Valid()
    modifies db
    ensures db.Valid()
    ensures r.None? <==> BlankName(args.name)
    ensures r.None? ==> db.lists == old(db.lists) && db.nextListId == old(db.nextListId)
    ensures r.Some? ==> r.value == NewList(old(db.nextListId), args, now)
    ensures r.Some? ==> db.lists == old(db.lists) + [r.value] && db.nextListId == old(db.nextListId) + 1
    ensures db.listItems == old(db.listItems) && db.seen == old(db.seen)
    ensures db.nextListItemId == old(db.nextListItemId) && db.nextSeenId == old(db.nextSeenId)
  {
    if BlankName(args.name) {
      return None;
    }
    var row := InsertList(db, args, now);
    r := Some(row);
  }

  /** The INSERT of `create`: the new row goes in under the next id. */
  method InsertList(db: Db, args: CreateArgs, now: int) returns (row: List)
    requires db.Valid()
    modifies db
    ensures db.Valid()
    ensures row == NewList(old(db.nextListId), args, now)
    ensures db.lists == old(db.lists) + [row] && db.nextListId == old(db.nextListId) + 1
    ensures db.listItems == old(db.listItems) && db.seen == old(db.seen)
    ensures db.nextListItemId == old(db.nextListItemId) && db.nextSeenId == old(db.nextSeenId)
  {
    row := NewList(db.nextListId, args, now);
    ListsValidAppend(db.lists, db.nextListId, row);
    db.lists := db.lists + [row];
    db.nextListId := db.nextListId + 1;
  }

  /** The created list can be found by its id. */
  lemma CreatedListIsFound(lists: seq<List>, nextId: Id, args: CreateArgs, now: int)
    requires forall l :: l in lists ==> l.id < nextId
    ensures FindList(lists + [NewList(nextId, args, now)], nextId) == Some(NewList(nextId, args, now))
  {
    FindListAppend(lists, NewList(nextId, args, now));
  }

  lemma {:induction false} FindListAppend(lists: seq<List>, l: List)
    requires forall x :: x in lists ==> x.id != l.id
    ensures FindList(lists + [l], l.id) == Some(l)
  {
    if lists != [] {
      assert (lists + [l])[1..] == lists[1..] + [l];
      FindListAppend(lists[1..], l);
    }
  }

  /**
    Creating a second watchlist leaves the user's watchlist as it was: the
    first watchlist in table order keeps answering for the user.
   */
  lemma {:induction false} CreateKeepsWatchlist(lists: seq<List>, row: List, userId: Id)
    requires FindWatchlist(lists, userId).Some?
    ensures FindWatchlist(lists + [row], userId) == FindWatchlist(lists, userId)
  {
    if !(lists[0].userId == userId && lists[0].isWatchlist) {
      assert (lists + [row])[1..] == lists[1..] + [row];
      CreateKeepsWatchlist(lists[1..], row, userId);
    }
  }

  // ---------------------------------------------------------------- update

  /** `update`'s arguments; an absent setting is left as it is. */
  datatype UpdateArgs = UpdateArgs(
    id: Option<Id>,
    userId: Option<Id>,
    name: string,
    description: Option<string>,
    privacy: Option<string>,
    sortBy: Option<string>,
    sortOrder: Option<string>)

  /**
    A row after the UPDATE statement: a watchlist keeps its name, settings
    that were not given keep their value, the update time is `now`.
   */
  function Updated(l: List, args: UpdateArgs, now: int): (r: List)
    ensures r.id == l.id && r.userId == l.userId && r.isWatchlist == l.isWatchlist && r.createdAt == l.createdAt
    ensures r.name == if l.isWatchlist then l.name else args.name
    ensures args.privacy.Some? ==> r.privacy == args.privacy.value
    ensures args.privacy.None? ==> r.privacy == l.privacy
    ensures args.sortBy.Some? ==> r.sortBy == args.sortBy.value
    ensures args.sortBy.None? ==> r.sortBy == l.sortBy
    ensures args.sortOrder.Some? ==> r.sortOrder == args.sortOrder.value
    ensures args.sortOrder.None? ==> r.sortOrder == l.sortOrder
    ensures args.description.Some? ==> r.description == args.description
    ensures args.description.None? ==> r.description == l.description
    ensures r.updatedAt == now
  {
    l.(name := if l.isWatchlist then l.name else args.name,
       description := if args.description.Some? then args.description else l.description,
       privacy := if args.privacy.Some? then args.privacy.value else l.privacy,
       sortBy := if args.sortBy.Some? then args.sortBy.value else l.sortBy,
       sortOrder := if args.sortOrder.Some? then args.sortOrder.value else l.sortOrder,
       updatedAt := now)
  }

  /** Another list of the user already carries the name. */
  predicate NameTaken(lists: seq<List>, userId: Id, name: string, id: Id) {
    exists l :: l in lists && l.userId == userId && l.name == name && l.id != id
  }

  /**
    What `update` answers: an error without an id or a user, nothing for a
    blank name, a missing list, a list of another user or a name taken by
    another of the user's lists, else the updated row.
   */
  function UpdateOutcome(lists: seq<List>, args: UpdateArgs, now: int): (r: Result<Option<List>>)
    ensures r.Failure? <==> args.id.None? || args.userId.None?
    ensures r.Success? && r.value.Some? ==>
      !BlankName(args.name) && FindList(lists, args.id.value).Some? &&
      FindList(lists, args.id.value).value.userId == args.userId.value &&
      !NameTaken(lists, args.userId.value, args.name, args.id.value) &&
      r.value.value == Updated(FindList(lists, args.id.value).value, args, now)
  {
    if args.id.None? || args.userId.None? then Failure("id and userId are required params")
    else if BlankName(args.name) then Success(None)
    else match FindList(lists, args.id.value)
      case None => Success(None)
      case Some(l) =>
        if l.userId != args.userId.value then Success(None)
        else if NameTaken(lists, args.userId.value, args.name, args.id.value) then Success(None)
        else Success(Some(Updated(l, args, now)))
  }

  /**
    `update` changes nothing for a blank name, a missing list, a list of
    another user, or a name another list of the user carries.
   */
  lemma UpdateRejected(lists: seq<List>, args: UpdateArgs, now: int)
    requires args.id.Some? && args.userId.Some?
    requires BlankName(args.name) || FindList(lists, args.id.value).None? ||
      FindList(lists, args.id.value).value.userId != args.userId.value ||
      NameTaken(lists, args.userId.value, args.name, args.id.value)
    ensures UpdateOutcome(lists, args, now) == Success(None)
    ensures UpdateLists(lists, args, now) == lists
  {
  }

  /** `UPDATE list SET ... WHERE id = :id`. */
  function UpdateRows(lists: seq<List>, id: Id, args: UpdateArgs, now: int): (r: seq<List>)
    ensures |r| == |lists|
  {
    if lists == [] then []
    else [if lists[0].id == id then Updated(lists[0], args, now) else lists[0]] + UpdateRows(lists[1..], id, args, now)
  }

  /** The UPDATE rewrites exactly the rows with the id. */
  lemma {:induction false} UpdateRowsAt(lists: seq<List>, id: Id, args: UpdateArgs, now: int)
    ensures forall i :: 0 <= i < |lists| ==>
      UpdateRows(lists, id, args, now)[i] == if lists[i].id == id then Updated(lists[i], args, now) else lists[i]
  {
    if lists != [] {
      UpdateRowsAt(lists[1..], id, args, now);
      var r := UpdateRows(lists, id, args, now);
      forall i | 1 <= i < |lists|
        ensures r[i] == UpdateRows(lists[1..], id, args, now)[i - 1]
      {
      }
    }
  }

  /** The `list` table after `update`: changed only when the update went through. */
  function UpdateLists(lists: seq<List>, args: UpdateArgs, now: int): seq<List> {
    var outcome := UpdateOutcome(lists, args, now);
    if outcome.Success? && outcome.value.Some? then UpdateRows(lists, args.id.value, args, now) else lists
  }

  /** After the UPDATE, the first row with the id is the updated row. */
  lemma {:induction false} FindUpdatedRow(lists: seq<List>, id: Id, args: UpdateArgs, now: int)
    requires FindList(lists, id).Some?
    ensures FindList(UpdateRows(lists, id, args, now), id) == Some(Updated(FindList(lists, id).value, args, now))
  {
    if lists[0].id != id {
      assert UpdateRows(lists, id, args, now)[1..] == UpdateRows(lists[1..], id, args, now);
      FindUpdatedRow(lists[1..], id, args, now);
    }
  }

  /** The UPDATE statement, row by row. */
  method ApplyUpdate(lists: seq<List>, id: Id, args: UpdateArgs, now: int) returns (rows: seq<List>)
    ensures rows == UpdateRows(lists, id, args, now)
  {
    rows := lists;
    var i := 0;
    while i < |rows|
      invariant 0 <= i <= |rows| == |lists|
      invariant forall k :: 0 <= k < i ==>
        rows[k] == if lists[k].id == id then Updated(lists[k], args, now) else lists[k]
      invariant forall k :: i <= k < |rows| ==> rows[k] == lists[k]
    {
      if rows[i].id == id {
        rows := rows[i := Updated(rows[i], args, now)];
      }
      i := i + 1;
    }
    UpdateRowsAt(lists, id, args, now);
  }

  /** `update` on the `list` table as a value: its answer and the new table. */
  method UpdateTable(lists: seq<List>, args: UpdateArgs, now: int) returns (r: Result<Option<List>>, rows: seq<List>)
    ensures r == UpdateOutcome(lists, args, now)
    ensures rows == UpdateLists(lists, args, now)
  {
    rows := lists;
    if args.id.None? || args.userId.None? {
      return Failure("id and userId are required params"), rows;
    }
    var id, userId := args.id.value, args.userId.value;
    if BlankName(args.name) {
      return Success(None), rows;
    }
    var list := FindList(lists, id);
    if list.None? || list.value.userId != userId || NameTaken(lists, userId, args.name, id) {
      return Success(None), rows;
    }
    UpdateAccepted(lists, args, now);
    rows := ApplyUpdate(lists, id, args, now);
    FindUpdatedRow(lists, id, args, now);
    r := Success(FindList(rows, id));
  }

  method Update(db: Db, args: UpdateArgs, now: int) returns (r: Result<Option<List>>)
    requires db.Valid()
    modifies db
    ensures db.Valid()
    ensures r == UpdateOutcome(old(db.lists), args, now)
    ensures db.lists == UpdateLists(old(db.lists), args, now)
    ensures db.listItems == old(db.listItems) && db.seen == old(db.seen)
    ensures db.nextListId == old(db.nextListId) && db.nextListItemId == old(db.nextListItemId)
    ensures db.nextSeenId == old(db.nextSeenId)
  {
    var rows;
    r, rows := UpdateTable(db.lists, args, now);
    if args.id.Some? {
      UpdateKeepsIds(db.lists, args.id.value, args, now);
    }
    db.lists := rows;
  }

  /** The UPDATE changes no id, so the table's ids stay unique and below the counter. */
  lemma UpdateKeepsIds(lists: seq<List>, id: Id, args: UpdateArgs, now: int)
    ensures forall i :: 0 <= i < |lists| ==> UpdateRows(lists, id, args, now)[i].id == lists[i].id
    ensures UniqueListIds(lists) ==> UniqueListIds(UpdateRows(lists, id, args, now))
    ensures forall next :: ListsValid(lists, next) ==> ListsValid(UpdateRows(lists, id, args, now), next)
  {
    var r := UpdateRows(lists, id, args, now);
    UpdateRowsAt(lists, id, args, now);
    forall next | ListsValid(lists, next)
      ensures ListsValid(r, next)
    {
      forall l | l in r
        ensures 0 < l.id < next
      {
        var i :| 0 <= i < |r| && r[i] == l;
        assert lists[i] in lists;
      }
    }
  }

  /** Only the target list changes. */
  lemma UpdateOnlyTarget(lists: seq<List>, args: UpdateArgs, now: int)
    ensures |UpdateLists(lists, args, now)| == |lists|
    ensures forall i :: 0 <= i < |lists| && (args.id.None? || lists[i].id != args.id.value) ==>
      UpdateLists(lists, args, now)[i] == lists[i]
  {
    if args.id.Some? {
      UpdateRowsAt(lists, args.id.value, args, now);
    }
  }

  /**
    After a rename, no other list of the same user carries the new name (a
    watchlist is not renamed).
   */
  lemma UpdatedNameIsUnique(lists: seq<List>, args: UpdateArgs, now: int)
    requires UpdateOutcome(lists, args, now).Success? && UpdateOutcome(lists, args, now).value.Some?
    requires !UpdateOutcome(lists, args, now).value.value.isWatchlist
    ensures var u := UpdateOutcome(lists, args, now).value.value;
      u.name == args.name &&
      forall l :: l in UpdateLists(lists, args, now) && l.userId == u.userId && l.name == u.name ==> l.id == u.id
  {
    UpdateAccepted(lists, args, now);
    NameStaysFree(lists, args.id.value, args, now, args.userId.value, args.name);
  }

  lemma UpdatedTwice(l: List, args: UpdateArgs, now: int)
    ensures Updated(Updated(l, args, now), args, now) == Updated(l, args, now)
  {
  }

  /** Applying the same update twice leaves the table as applying it once. */
  lemma UpdateIdempotent(lists: seq<List>, args: UpdateArgs, now: int)
    requires UpdateOutcome(lists, args, now).Success?
    ensures UpdateOutcome(UpdateLists(lists, args, now), args, now) == UpdateOutcome(lists, args, now)
    ensures UpdateLists(UpdateLists(lists, args, now), args, now) == UpdateLists(lists, args, now)
  {
    if UpdateOutcome(lists, args, now).value.Some? {
      var id := args.id.value;
      var r := UpdateRows(lists, id, args, now);
      SecondUpdateSucceeds(lists, args, now);
      UpdateRowsTwice(lists, id, args, now);
    }
  }

  lemma SecondUpdateSucceeds(lists: seq<List>, args: UpdateArgs, now: int)
    requires UpdateOutcome(lists, args, now).Success? && UpdateOutcome(lists, args, now).value.Some?
    ensures UpdateOutcome(UpdateRows(lists, args.id.value, args, now), args, now) == UpdateOutcome(lists, args, now)
  {
    var id, userId := args.id.value, args.userId.value;
    var l := FindList(lists, id).value;
    var r := UpdateRows(lists, id, args, now);
    FindUpdatedRow(lists, id, args, now);
    NameStaysFree(lists, id, args, now, userId, args.name);
    UpdatedTwice(l, args, now);
    UpdateAccepted(r, args, now);
  }

  /** The conditions of `update` met, the outcome is the updated row. */
  lemma UpdateAccepted(lists: seq<List>, args: UpdateArgs, now: int)
    requires args.id.Some? && args.userId.Some? && !BlankName(args.name)
    requires FindList(lists, args.id.value).Some? && FindList(lists, args.id.value).value.userId == args.userId.value
    requires !NameTaken(lists, args.userId.value, args.name, args.id.value)
    ensures UpdateOutcome(lists, args, now) == Success(Some(Updated(FindList(lists, args.id.value).value, args, now)))
    ensures UpdateLists(lists, args, now) == UpdateRows(lists, args.id.value, args, now)
  {
  }

  /** The UPDATE does not give another list of the user a name it did not have. */
  lemma NameStaysFree(lists: seq<List>, id: Id, args: UpdateArgs, now: int, userId: Id, name: string)
    requires !NameTaken(lists, userId, name, id)
    ensures !NameTaken(UpdateRows(lists, id, args, now), userId, name, id)
  {
    var r := UpdateRows(lists, id, args, now);
    UpdateRowsAt(lists, id, args, now);
    forall k | k in r && k.userId == userId && k.name == name
      ensures k.id == id
    {
      var i :| 0 <= i < |r| && r[i] == k;
      assert lists[i] in lists;
    }
  }

  lemma UpdateRowsTwice(lists: seq<List>, id: Id, args: UpdateArgs, now: int)
    ensures UpdateRows(UpdateRows(lists, id, args, now), id, args, now) == UpdateRows(lists, id, args, now)
  {
    var r := UpdateRows(lists, id, args, now);
    UpdateRowsAt(lists, id, args, now);
    UpdateRowsAt(r, id, args, now);
    forall i | 0 <= i < |r|
      ensures UpdateRows(r, id, args, now)[i] == r[i]
    {
      if lists[i].id == id {
        UpdatedTwice(lists[i], args, now);
      }
    }
  }

  // ---------------------------------------------------------------- delete

  /** The list `delete` may remove: the user's own list with that id, never a watchlist. */
  function DeleteTarget(lists: seq<List>, listId: Id, userId: Id): (r: Option<List>)
    ensures r.Some? ==> r.value in lists && r.value.id == listId && r.value.userId == userId && !r.value.isWatchlist
    ensures r.None? ==> forall l :: l in lists ==> !(l.id == listId && l.userId == userId && !l.isWatchlist)
  {
    if lists == [] then None
    else if lists[0].userId == userId && lists[0].id == listId && !lists[0].isWatchlist then Some(lists[0])
    else DeleteTarget(lists[1..], listId, userId)
  }

  /** `DELETE FROM list WHERE id = :listId`. */
  function DeleteLists(lists: seq<List>, listId: Id): (r: seq<List>)
    ensures forall l :: l in r <==> l in lists && l.id != listId
  {
    WithoutKey(lists, ListKey, listId)
  }

  /** `DELETE FROM listItem WHERE listId = :listId`. */
  function DeleteListItems(items: seq<ListItem>, listId: Id): (r: seq<ListItem>)
    ensures forall li :: li in r <==> li in items && li.listId != listId
  {
    Filter(items, (li: ListItem) => li.listId != listId)
  }

  /**
    `delete`: nothing happens unless the list is the user's own and not a
    watchlist; then its items and the list are deleted and the number of
    deleted lists is returned.
   */
  method Delete(db: Db, listId: Id, userId: Id) returns (n: nat)
    requires db.Valid()
    modifies db
    ensures db.Valid()
    ensures DeleteTarget(old(db.lists), listId, userId).None? ==>
      n == 0 && db.lists == old(db.lists) && db.listItems == old(db.listItems)
    ensures DeleteTarget(old(db.lists), listId, userId).Some? ==>
      db.lists == DeleteLists(old(db.lists), listId) &&
      db.listItems == DeleteListItems(old(db.listItems), listId) &&
      n == |old(db.lists)| - |db.lists|
    ensures db.seen == old(db.seen)
    ensures db.nextListId == old(db.nextListId) && db.nextListItemId == old(db.nextListItemId)
    ensures db.nextSeenId == old(db.nextSeenId)
  {
    if DeleteTarget(db.lists, listId, userId).None? {
      return 0;
    }
    ListItemsValidFilter(db.listItems, db.nextListItemId, (li: ListItem) => li.listId != listId);
    db.listItems := DeleteListItems(db.listItems, listId);
    var before := |db.lists|;
    WithoutKeyKeepsDistinctKeys(db.lists, ListKey, listId);
    db.lists := DeleteLists(db.lists, listId);
    n := before - |db.lists|;
  }

  /** Deleting a list also deletes every item on it. */
  lemma DeleteLeavesNoItems(items: seq<ListItem>, listId: Id)
    ensures forall li :: li in DeleteListItems(items, listId) ==> li.listId != listId
    ensures forall li :: li in items && li.listId != listId ==> li in DeleteListItems(items, listId)
  {
  }

  /**
    With unique ids exactly one list is deleted, and every watchlist and
    every list of another user survives.
   */
  lemma DeleteRemovesOnlyTarget(lists: seq<List>, listId: Id, userId: Id)
    requires UniqueListIds(lists)
    requires DeleteTarget(lists, listId, userId).Some?
    ensures |DeleteLists(lists, listId)| == |lists| - 1
    ensures forall l :: l in lists && (l.isWatchlist || l.userId != userId) ==> l in DeleteLists(lists, listId)
  {
    var t := DeleteTarget(lists, listId, userId).value;
    forall l | l in lists && l.id == listId
      ensures l == t
    {
      var i :| 0 <= i < |lists| && lists[i] == l;
      var j :| 0 <= j < |lists| && lists[j] == t;
      DistinctKeysSameRow(lists, ListKey, i, j);
    }
    WithoutKeyRemovesOne(lists, ListKey, listId);
  }

  // ---------------------------------------------------------------- details

  /** A list can be read by its owner, and by anyone when it is public. */
  predicate Visible(l: List, userId: Id) {
    l.userId == userId || l.privacy == "public"
  }

  /** The first list with the id that the user may read. */
  function VisibleList(lists: seq<List>, listId: Id, userId: Id): (r: Option<List>)
    ensures r.Some? ==> r.value in lists && r.value.id == listId && Visible(r.value, userId)
    ensures r.None? <==> forall l :: l in lists ==> !(l.id == listId && Visible(l, userId))
  {
    if lists == [] then None
    else if lists[0].id == listId && Visible(lists[0], userId) then Some(lists[0])
    else VisibleList(lists[1..], listId, userId)
  }

  /**
    The `seasonRuntime` subquery for one season: the sum over every episode
    of the season (specials and unaired episodes included) of its runtime,
    else the runtime of the season's show. No season, or a season without
    episodes, gives NULL.
   */
  function SeasonRuntime(c: Catalog, seasonId: Id): (r: Option<int>)
    ensures r.None? <==>
      (FindSeason(c.seasons, seasonId).None?
       || forall e :: e in c.episodes && e.seasonId == Some(seasonId) ==>
            e.runtime.None? && ShowRuntime(c.mediaItems, FindSeason(c.seasons, seasonId).value.tvShowId).None?)
  {
    match FindSeason(c.seasons, seasonId)
    case None => None
    case Some(s) =>
      var episodes := Filter(c.episodes, (e: Episode) => e.seasonId == Some(seasonId));
      var values := seq(|episodes|, i requires 0 <= i < |episodes| =>
        if episodes[i].runtime.Some? then episodes[i].runtime else ShowRuntime(c.mediaItems, s.tvShowId));
      SqlSumOfColumn(episodes, (e: Episode) => if e.runtime.Some? then e.runtime else ShowRuntime(c.mediaItems, s.tvShowId), values);
      SqlSum(values)
  }

  /**
    The `showRuntime` subquery for one show: the sum over every episode of
    the show (specials and unaired episodes included) of its runtime, else
    the show's runtime.
   */
  function ShowEpisodesRuntime(c: Catalog, showId: Id): (r: Option<int>)
    ensures r.None? <==> forall e :: e in c.episodes && e.tvShowId == showId ==> EpisodeRuntime(c.mediaItems, e).None?
  {
    var episodes := Filter(c.episodes, (e: Episode) => e.tvShowId == showId);
    var values := seq(|episodes|, i requires 0 <= i < |episodes| => EpisodeRuntime(c.mediaItems, episodes[i]));
    SqlSumOfColumn(episodes, (e: Episode) => EpisodeRuntime(c.mediaItems, e), values);
    SqlSum(values)
  }

  /**
    The CASE of `totalRuntime` for one list item: an episode item counts the
    episode's runtime (else the item's media item runtime), a season item
    the season runtime, a tv show the whole show, anything else its own
    runtime.
   */
  function ItemRuntime(c: Catalog, li: ListItem): (r: Option<int>)
    ensures li.episodeId.None? && li.seasonId.Some? ==> r == SeasonRuntime(c, li.seasonId.value)
    ensures li.episodeId.None? && li.seasonId.None? && FindMediaItem(c.mediaItems, li.mediaItemId).None? ==> r.None?
  {
    var m := FindMediaItem(c.mediaItems, li.mediaItemId);
    var itemRuntime := if m.Some? then m.value.runtime else None;
    if li.episodeId.Some? then
      var e := FindEpisode(c.episodes, li.episodeId.value);
      if e.Some? && e.value.runtime.Some? then e.value.runtime else itemRuntime
    else if li.seasonId.Some? then SeasonRuntime(c, li.seasonId.value)
    else if m.Some? && m.value.mediaType == Tv then ShowEpisodesRuntime(c, li.mediaItemId)
    else itemRuntime
  }

  /** The runtimes of the items on a list, in table order. */
  function ItemRuntimes(c: Catalog, items: seq<ListItem>, listId: Id): (r: seq<Option<int>>)
    ensures |r| <= |items|
  {
    if items == [] then []
    else (if items[0].listId == listId then [ItemRuntime(c, items[0])] else []) + ItemRuntimes(c, items[1..], listId)
  }

  /** The `totalRuntime` column: the SUM of the runtimes of the list's items. */
  function ListRuntime(c: Catalog, items: seq<ListItem>, listId: Id): (r: Option<int>)
    ensures r.None? <==> forall li :: li in items && li.listId == listId ==> ItemRuntime(c, li).None?
  {
    ItemRuntimesNone(c, items, listId);
    SqlSum(ItemRuntimes(c, items, listId))
  }

  /** Every value is NULL. */
  predicate AllNull(vs: seq<Option<int>>) {
    forall i :: 0 <= i < |vs| ==> vs[i].None?
  }

  lemma AllNullConcat(a: seq<Option<int>>, b: seq<Option<int>>)
    ensures AllNull(a + b) <==> AllNull(a) && AllNull(b)
  {
    if AllNull(a + b) {
      forall i | 0 <= i < |b|
        ensures b[i].None?
      {
        assert (a + b)[|a| + i] == b[i];
      }
      forall i | 0 <= i < |a|
        ensures a[i].None?
      {
        assert (a + b)[i] == a[i];
      }
    }
  }

  lemma {:induction false} ItemRuntimesNone(c: Catalog, items: seq<ListItem>, listId: Id)
    ensures AllNull(ItemRuntimes(c, items, listId)) <==>
      forall li :: li in items && li.listId == listId ==> ItemRuntime(c, li).None?
  {
    if items != [] {
      ItemRuntimesNone(c, items[1..], listId);
      var head := if items[0].listId == listId then [ItemRuntime(c, items[0])] else [];
      var rest := ItemRuntimes(c, items[1..], listId);
      assert ItemRuntimes(c, items, listId) == head + rest;
      AllNullConcat(head, rest);
      assert AllNull(head) <==> (items[0].listId == listId ==> ItemRuntime(c, items[0]).None?) by {
        if items[0].listId == listId {
          assert head[0] == ItemRuntime(c, items[0]);
        }
      }
      assert forall li :: li in items <==> li == items[0] || li in items[1..] by {
        assert items == [items[0]] + items[1..];
      }
    }
  }

  datatype ListDetails = ListDetails(list: List, totalRuntime: Option<int>)

  /**
    `details`: the list when the user may read it, with the SUM of its
    items' runtimes (NULL for an empty list or when no item has a runtime).
   */
  function Details(lists: seq<List>, c: Catalog, items: seq<ListItem>, listId: Id, userId: Id): (r: Option<ListDetails>)
    ensures r.Some? <==> exists l :: l in lists && l.id == listId && Visible(l, userId)
    ensures r.Some? ==> r.value.list in lists && r.value.list.id == listId && Visible(r.value.list, userId)
    ensures r.Some? ==> r.value.totalRuntime == ListRuntime(c, items, listId)
  {
    var l := VisibleList(lists, listId, userId);
    if l.None? then None
    else Some(ListDetails(l.value, ListRuntime(c, items, listId)))
  }

  /** SUM over two parts is the sum of the parts' SUMs (NULL only when both are). */
  lemma {:induction false} SqlSumAppend(a: seq<Option<int>>, b: seq<Option<int>>)
    ensures Num(SqlSum(a + b)) == Num(SqlSum(a)) + Num(SqlSum(b))
    ensures SqlSum(a + b).None? <==> SqlSum(a).None? && SqlSum(b).None?
  {
    if a == [] {
      assert a + b == b;
    } else {
      assert (a + b)[0] == a[0] && (a + b)[1..] == a[1..] + b;
      SqlSumAppend(a[1..], b);
      assert SqlSum(a + b) == match a[0]
        case None => SqlSum(a[1..] + b)
        case Some(v) => Some(v + Num(SqlSum(a[1..] + b)));
    }
  }

  lemma {:induction false} ItemRuntimesAppend(c: Catalog, items: seq<ListItem>, li: ListItem, listId: Id)
    ensures ItemRuntimes(c, items + [li], listId) ==
      ItemRuntimes(c, items, listId) + (if li.listId == listId then [ItemRuntime(c, li)] else [])
  {
    if items != [] {
      assert (items + [li])[1..] == items[1..] + [li];
      ItemRuntimesAppend(c, items[1..], li, listId);
    } else {
      assert [li][1..] == [];
    }
  }

  /**
    Adding an item to a list adds its runtime to the list's total, and
    adding it to another list leaves the total as it was.
   */
  lemma AddingItemAddsRuntime(lists: seq<List>, c: Catalog, items: seq<ListItem>, li: ListItem, listId: Id, userId: Id)
    requires Details(lists, c, items, listId, userId).Some?
    ensures var before := Details(lists, c, items, listId, userId).value.totalRuntime;
      var after := Details(lists, c, items + [li], listId, userId).value.totalRuntime;
      (li.listId == listId ==> Num(after) == Num(before) + Num(ItemRuntime(c, li))) &&
      (li.listId != listId ==> after == before)
  {
    ItemRuntimesAppend(c, items, li, listId);
    if li.listId == listId {
      SqlSumAppend(ItemRuntimes(c, items, listId), [ItemRuntime(c, li)]);
    } else {
      assert ItemRuntimes(c, items, listId) + [] == ItemRuntimes(c, items, listId);
    }
  }
}
