# MediaTracker library views, calendar and seen history in Dafny

This project models the server-side core of MediaTracker. That core turns stored facts into each user's view of their media library. The facts are media items, seasons, episodes, seen events, list items and ratings. The model covers:

- **The list-items view** (`items` and `mapRawResult` in `server/src/repository/list.ts`). Each left-joined subquery is a pure resolver over finite fact sequences (modules `ListAggregates` and `ListView`):
  - aired count, distinct seen-episode count, first unwatched, last aired, upcoming, total runtime;
  - watchlist membership and rating at exact granularity, last-seen dates.

  `mapRawResult` is a function from the resolved row to the response item. The ordering switch and the page arithmetic are in `ListItemsQuery` and `Pagination`.
- **The `list` table rules** (`create`, `update`, `delete`, and `details` with its `totalRuntime` CASE; module `ListRepository`).
- **The list-membership table** (`server/src/repository/listItemRepository.ts`): `addManyItems`, `addItem`, `removeItem` and their common guard (module `ListItemRepository`).
- **The release calendar** (`server/src/controllers/calendar.ts`, module `Calendar`):
  - the detailed form: list items expanded to episodes, the in-range filter, the mapping to entries, partition, `uniqBy` and the two `orderBy`s;
  - the simple form: grouped and ordered in SQL;
  - the two date forms of the bounds.
- **The seen-history routes** (`server/src/controllers/seen.ts`, module `SeenController`):
  - `add`: date validation and resolution, episode selection, durations, watchlist removal;
  - `addByExternalId` with its 12-hour repeat window;
  - `removeFromSeenHistory`;
  - `get` with its ordering and pagination.
- **The `Seen` record** and its two granularity predicates (`server/src/entity/seen.ts`, module `SeenEntity`).

The tables the routes write (`list`, `listItem`, `seen`) are fields of one `Store.Db` object. Its auto-increment counters stand for the primary keys. `Db.Valid()` says the keys are unique, positive and below the counter, and every method that writes a table keeps it. Catalog facts (media items, seasons, episodes, ratings) are read-only values.

## Encoding choices

- **Dates.** Dates are integers ordered like the ISO strings the database compares. `DateOnly(d) = d * DaySpan` is the `YYYY-MM-DD` string of day `d`. `Timestamp(d, ms) = d * DaySpan + 1 + ms` is a full timestamp on that day. So a date-only string sorts just before every timestamp of its day, as the string comparison does. A nullable date column is `Null`, `Blank` (the empty string, below every date) or `At(instant)`.
- **JavaScript values.**
  - `Truthy` is present and nonzero.
  - `Norm` is `x || null`.
  - `Num` is the coercion of `null` to 0.
- **Ordering.** SQL `ORDER BY` and lodash `orderBy` are one stable insertion sort over a "less than or equal" relation (`Sorting.SortBy`). Rows that compare equal keep table order. For SQL this is the model's choice among the orders the database may return.
- **Abstracted inputs.**
  - `now` is a parameter.
  - `parseISO` is a function parameter.
  - The tv-episode filters `unwatchedEpisodes`, `releasedEpisodes` and `nonSpecialEpisodes` are function parameters (they are defined outside this core).
  - The external lookup of `addByExternalId` is a parameter carrying its result.

## Where the code and its description differ

Each of these follows the code.

- The item type tests `seasonId` before `episodeId`.
- The unseen episode count is an unclamped subtraction; `ListView.UnseenCountCanBeNegative` exhibits a value of -1.
- `create` checks neither for a duplicate name nor for a second watchlist.
- A public list of another user passes the guard of `addItem` and `removeItem`.
- In `addManyItems` the privacy test is dead, because the query already requires the list to be the user's own.
- `watchlist: false` counts as given in the one-target check.
- In `get` with `extended`, the `title` column is the episode's title.
- In `release_date` mode the episode rows of `add` are dated by each episode's own release date, not by the date resolved before.
- Marking a whole show in `add` has no unwatched filter, whereas marking a season has one.

## Model

| member | source | states |
|---|---|---|
| SeenEntity.SeenColumnsDetermineRow | server/src/entity/seen.ts:3-26 | two seen rows that agree on every column of `seenColumns` are the same row |
| SeenEntity.SeenColumnsExact | server/src/entity/seen.ts:19-26 | `seenColumns` has six entries and names each column exactly once |
| SeenEntity.MediaItemSeenValueIff | server/src/entity/seen.ts:29-31 | a row is a media-item event iff its episode id is absent or 0 |
| SeenEntity.EpisodeSeenValueIff | server/src/entity/seen.ts:33-35 | a row is an episode event iff its episode id is present and nonzero |
| SeenEntity.MediaItemSeenValue | server/src/entity/seen.ts:29-31 | defines `mediaItemSeenValue`: no episode id, or 0 |
| SeenEntity.EpisodeSeenValue | server/src/entity/seen.ts:33-35 | defines `episodeSeenValue`: an episode id other than 0 |
| SeenEntity.SeenGranularityExclusive | server/src/entity/seen.ts:28-36 | every row is exactly one of a media-item event and an episode event |
| Entities.DatePrefix | server/src/controllers/calendar.ts:53-54 | the date-only prefix of an instant is the start of its day: at most the instant and less than a day before it |
| Strings.Trim | server/src/repository/list.ts:72 | `trim()`: a contiguous run of the input; empty iff every character is JavaScript white space; otherwise it starts and ends with a non-space character |
| Strings.StrLeTotal | server/src/repository/list.ts:906 | text order compares any two titles |
| Strings.StrLeTransitive | server/src/repository/list.ts:906 | text order is transitive |
| Sorting.SortBy | server/src/repository/list.ts:904-925 | an ORDER BY returns a permutation of its rows |
| Sorting.SortBySorted | server/src/repository/list.ts:904-925 | under a total preorder the result is sorted |
| Sorting.SortByTies | server/src/repository/list.ts:904-925 | the sort is stable: rows that compare equal keep their relative order |
| Entities.SqlMax | server/src/repository/list.ts:540 | `max`: NULL iff every value is NULL; otherwise a value of the column and at least every value |
| Entities.SqlSum | server/src/repository/list.ts:581 | `sum`: NULL iff every value is NULL |
| Entities.SqlSumOfColumn | server/src/repository/list.ts:199-254 | a `sum` over a computed column is NULL iff every row computes NULL |
| ListRepository.UpdateAccepted | server/src/repository/list.ts:98-109 | a non-blank, free name on the user's own list is accepted, and exactly the row with the id is rewritten |
| ListRepository.SecondUpdateSucceeds | server/src/repository/list.ts:88-96 | after an update the same update passes the name check again |
| ListRepository.NameStaysFree | server/src/repository/list.ts:88-96 | rewriting a list keeps a name free among the user's other lists |
| ListRepository.UpdatedTwice | server/src/repository/list.ts:98-107 | updating a row twice with the same arguments equals updating it once |
| ListItemsQuery.SlicePreservesSorted | server/src/repository/list.ts:936-941 | a page of sorted rows is sorted |
| Pagination.ItemsPerPage | server/src/repository/list.ts:927 | the page size is the given limit, else 15 |
| Pagination.CeilDiv | server/src/repository/list.ts:953 | the page count is the least `r` with `total <= r * size` |
| Pagination.PageWindow | server/src/repository/list.ts:950-957 | fails iff `from > total`; `from = size*(page-1)`, `to = min(total, size*page)`, `from <= to <= total`, and the page count covers the total exactly |
| Pagination.Slice | server/src/repository/list.ts:936-941 | LIMIT/OFFSET: empty past the end, else the rows from `skip` to `min(skip+take, n)` |
| Pagination.Paginate | server/src/repository/list.ts:927-969 | fails iff the page starts past the end; otherwise counts every row and returns the page number |
| Pagination.PageRejected | server/src/controllers/items.ts:48-51 | defines the route's page guard: a page given and not positive |
| Pagination.PaginateData | server/src/repository/list.ts:936-953 | a page's data are exactly the rows from `from` to `to` |
| Pagination.PageAtEndIsEmpty | server/src/repository/list.ts:955-957 | a page starting exactly at the end is accepted and empty |
| Pagination.AcceptedPageNumber | server/src/repository/list.ts:950-957 | an accepted page is at most one past the page count, and a non-empty page is within it |
| Pagination.RowOnItsPage | server/src/repository/list.ts:936-953 | row `i` is on page `i / size + 1` at position `i % size` |
| ListAggregates.AiredEpisodes | server/src/repository/list.ts:618-641 | holds exactly the non-special episodes of the show or season released before now |
| ListAggregates.Aired | server/src/repository/list.ts:618-644 | defines an aired episode: not special, released before now |
| ListAggregates.Upcoming | server/src/repository/list.ts:878-902 | defines an upcoming episode: not special, released at or after now |
| ListAggregates.UnwatchedAndOut | server/src/repository/list.ts:741-749 | defines a candidate for the first unwatched episode: not special, dated no later than now, and not seen by the user |
| ListAggregates.AiredEpisodesCount | server/src/repository/list.ts:618-641 | NULL iff no episode has aired, else the number of aired episodes |
| ListAggregates.AiredCountMonotone | server/src/repository/list.ts:618-641 | the aired count never drops as time passes |
| ListAggregates.ReleasedTodayHasAired | server/src/repository/list.ts:590 | an episode released on a day counts as aired at any time of that day, and not as upcoming |
| ListAggregates.AiredUpcomingPartition | server/src/repository/list.ts:826-902 | no episode is both aired and upcoming; an episode with a date is one of the two |
| ListAggregates.SeenEpisodesCount | server/src/repository/list.ts:689-709 | NULL iff the user saw no non-special episode, else the number of distinct seen non-special episodes |
| ListAggregates.SeenCountIgnoresRepeats | server/src/repository/list.ts:689-709 | watching an episode again leaves the count unchanged |
| ListAggregates.SeenCountCountsNewEpisode | server/src/repository/list.ts:689-709 | a first event for a non-special episode adds one |
| ListAggregates.MinKey | server/src/repository/list.ts:733-752 | the minimum `seasonAndEpisodeNumber`: attained, and at most every key |
| ListAggregates.MaxKey | server/src/repository/list.ts:826-837 | the maximum `seasonAndEpisodeNumber`: attained, and at least every key |
| ListAggregates.EpisodeWithKey | server/src/repository/list.ts:756-768 | the episode joined back by key is in scope and has that key; none iff no episode in scope has it |
| ListAggregates.FirstUnwatchedCandidates | server/src/repository/list.ts:741-749 | holds exactly the in-scope episodes that are non-special, dated, released by now and unseen by the user |
| ListAggregates.FirstUnwatched | server/src/repository/list.ts:733-802 | present iff a candidate exists; then an in-scope episode whose key is the least candidate key |
| ListAggregates.LastAired | server/src/repository/list.ts:826-850 | present iff an episode of the show has aired; then its key is the largest aired key |
| ListAggregates.UpcomingEpisodes | server/src/repository/list.ts:878-889 | holds exactly the non-special episodes of the show released at or after now |
| ListAggregates.UpcomingEpisode | server/src/repository/list.ts:878-902 | present iff an upcoming episode exists; then its key is the least upcoming key |
| ListAggregates.Runtimes | server/src/repository/list.ts:576-595 | each episode's runtime, else its show's runtime |
| ListAggregates.TotalRuntime | server/src/repository/list.ts:576-616 | NULL iff no aired episode in scope has a runtime, its own or its show's |
| ListAggregates.TotalRuntimeFallsBackToShow | server/src/repository/list.ts:576-595 | when no aired episode has its own runtime, the total is the aired count times the show runtime |
| ListAggregates.WatchlistEntry | server/src/repository/list.ts:501-534 | a watchlist row at exactly the granularity, none iff no such row |
| ListAggregates.WatchlistRowAt | server/src/repository/list.ts:501-534 | defines the watchlist row the join matches at a granularity: the show row, the season row or the episode row |
| ListAggregates.ShowWatchlistIgnoresNarrowerRows | server/src/repository/list.ts:501-508 | season and episode rows on the watchlist never make the show count as on the watchlist |
| ListAggregates.RatingEntry | server/src/repository/list.ts:646-681 | a rating of the user at exactly the granularity, none iff no such rating |
| ListAggregates.RatingAt | server/src/repository/list.ts:646-687 | defines the rating row the join matches: the user's rating or review at that granularity |
| ListAggregates.ShowRatingIgnoresNarrowerRatings | server/src/repository/list.ts:646-659 | season and episode ratings never stand in for the show's rating |
| ListAggregates.LastSeenAt | server/src/repository/list.ts:536-571 | `max(date)`: NULL iff no matching row has a date, else the date of a matching row |
| ListAggregates.EpisodeLastSeenAt | server/src/repository/list.ts:536-547 | NULL iff no dated row of the user for the episode; otherwise the date of one of them and at least every one |
| ListAggregates.SeasonLastSeenAt | server/src/repository/list.ts:548-561 | NULL iff no dated row of the user for an episode of the season; otherwise the date of one of them and at least every one |
| ListAggregates.MaxSeenDate | server/src/repository/list.ts:540 | `max(date)` over some rows: NULL iff none has a date, else one of their dates and at least every date |
| ListAggregates.MediaItemLastSeen | server/src/repository/list.ts:563-571 | the media item's group exists iff the user has a seen row for it; its date is NULL iff none of those rows is dated, otherwise the date of one of them and at least every one |
| ListView.OnSeason | server/src/repository/list.ts:498-499 | a join on a NULL id matches nothing |
| ListView.Resolve | server/src/repository/list.ts:497-902 | the resolved row of a list item; the season's seen count and last aired episode are the show's |
| ListView.Summary | server/src/repository/list.ts:1088-1111 | an episode object keeps the episode's id, and its runtime is `runtime \|\| null` |
| ListView.RatingOf | server/src/repository/list.ts:1059-1067 | a rating object exists iff the joined rating is truthy, and carries it |
| ListView.MediaItemOf | server/src/repository/list.ts:1031-1158 | tv seen iff aired minus seen is 0, else seen iff a last-seen row exists; the unseen count is present iff tv with a nonzero aired count, and is then the difference; runtime `\|\| null`; watchlist flag |
| ListView.SeasonOf | server/src/repository/list.ts:1159-1248 | the season object: seen iff the counts are equal; unseen count iff the aired count is truthy; first unwatched iff its episode number is truthy |
| ListView.EpisodeOf | server/src/repository/list.ts:1249-1283 | the episode object is seen iff its last seen date is truthy |
| ListView.MapRawResult | server/src/repository/list.ts:1022-1283 | the type is `season` iff the season id is truthy, `episode` iff only the episode id is; the season and episode objects exist iff their ids are truthy |
| ListView.TvSeenIff | server/src/repository/list.ts:1072-1077 | a tv item is seen iff its aired count equals its distinct seen count |
| ListView.NonTvSeenIff | server/src/repository/list.ts:1072-1077 | a non-tv item is seen iff the user has a seen row for it |
| ListView.UnseenCount | server/src/repository/list.ts:1079-1084 | the unseen count is present iff the item is tv with aired episodes, and then equals aired minus seen |
| ListView.UnseenCountCanBeNegative | server/src/repository/list.ts:1079-1084 | an item whose user saw more episodes than have aired shows an unseen count of -1 |
| ListView.SeasonUsesShowValues | server/src/repository/list.ts:711-731 | a season item reports the show's seen count and the show's last aired episode |
| ListView.FirstUnwatchedShown | server/src/repository/list.ts:733-768 | the first unwatched episode shown is present iff a candidate exists, with the least candidate key |
| ListView.EpisodeSeenNeedsDate | server/src/repository/list.ts:536-544 | an episode watched only without a date is shown as not seen |
| ListView.ShowOnWatchlistIff | server/src/repository/list.ts:501-508 | the show is on the watchlist iff a show-level watchlist row names it |
| ListView.SeasonOnWatchlistIff | server/src/repository/list.ts:513-520 | a season is on the watchlist iff a season-level watchlist row names it |
| ListView.EpisodeOnWatchlistIff | server/src/repository/list.ts:525-531 | an episode is on the watchlist iff a watchlist row names it |
| ListView.ShowRatingGranularity | server/src/repository/list.ts:646-659 | the show's rating comes from a rating with neither season nor episode |
| ListView.TotalRuntimeShown | server/src/repository/list.ts:1068-1071 | tv shows the aired total, other items their own runtime, with 0 shown as null |
| ListItemsQuery.TitleLeTotalPreorder | server/src/repository/list.ts:906 | the title order is total and transitive |
| ListItemsQuery.KeysLeTotalPreorder | server/src/repository/list.ts:904-925 | every ORDER BY clause the switch builds is a total preorder |
| ListItemsQuery.OrderIsTotalPreorder | server/src/repository/list.ts:904-925 | the relation of each clause is a total preorder |
| ListItemsQuery.Views | server/src/repository/list.ts:960-973 | one response item per selected row, in order |
| ListItemsQuery.Items | server/src/repository/list.ts:284-975 | fails without a watchlist or past the end; otherwise the selected items in ORDER BY order, whole or one page |
| ListItemsQuery.ItemsSpec | server/src/repository/list.ts:284-975 | fails iff the user has no watchlist or a nonzero page starts past the number of selected items |
| ListItemsQuery.Selected | server/src/repository/list.ts:488-495 | defines the WHERE clause: the rows of the requested list, narrowed by media type and tmdb id when given |
| ListItemsQuery.OrderKeys | server/src/repository/list.ts:904-925 | the ORDER BY terms: none iff random; at most two, the second the ascending title |
| ListItemsQuery.ItemsNeedWatchlist | server/src/repository/list.ts:296-300 | without a watchlist the query fails |
| ListItemsQuery.ItemsUnpaged | server/src/repository/list.ts:970-973 | unpaged, the result is a sorted permutation of the views of the selected items |
| ListItemsQuery.ItemsPaged | server/src/repository/list.ts:927-969 | paged, fails iff the page starts past the end; otherwise the count is every selected item and the data exactly the page's slice of the ordered items, itself sorted |
| ListItemsQuery.ReleaseDateOrder | server/src/repository/list.ts:909-912 | by release date in the chosen direction, ties by ascending title |
| ListItemsQuery.ListedAtOrder | server/src/repository/list.ts:914-917 | by date listed in the chosen direction, ties by ascending title |
| ListItemsQuery.TitleOrder | server/src/repository/list.ts:905-907 | by title, ascending when no order is given |
| ListItemsQuery.DefaultOrder | server/src/repository/list.ts:922-924 | without a case of its own, ascending list item id |
| ListRepository.OrDefault | server/src/repository/list.ts:144-150 | `s \|\| fallback`: an absent or empty value falls back |
| ListRepository.NewList | server/src/repository/list.ts:140-154 | the created row: defaults `private`, `recently-watched`, `desc`; watchlist only when true; both timestamps now |
| ListRepository.Create | server/src/repository/list.ts:113-162 | a blank name creates nothing; otherwise exactly one row is appended under the next id, and nothing else changes |
| ListRepository.InsertList | server/src/repository/list.ts:140-154 | the INSERT appends `NewList` under the next id, advances the counter and keeps the key invariant; the other tables are unchanged |
| ListRepository.CreatedListIsFound | server/src/repository/list.ts:140-161 | the created list is found by its id |
| ListRepository.CreateKeepsWatchlist | server/src/repository/list.ts:113-162 | creating another watchlist does not change which watchlist the user has |
| ListRepository.Updated | server/src/repository/list.ts:98-107 | an updated row keeps id, owner, kind and creation time; a watchlist keeps its name; each given privacy, description, sortBy and sortOrder becomes the row's value and each absent one keeps the old value; the update time is now |
| ListRepository.UpdateOutcome | server/src/repository/list.ts:57-111 | an error iff the id or user is missing; an updated row only for a non-blank, free name on the user's own list |
| ListRepository.UpdateRejected | server/src/repository/list.ts:72-96 | a blank name, a missing list, another user's list or a taken name changes nothing |
| ListRepository.BlankName | server/src/repository/list.ts:72-74 | defines the guard: a name given and empty after `trim()` |
| ListRepository.NameTaken | server/src/repository/list.ts:88-96 | defines the clash: another list of the user with the same name |
| ListRepository.UpdateRowsAt | server/src/repository/list.ts:98-107 | the UPDATE rewrites exactly the rows with the id |
| ListRepository.FindUpdatedRow | server/src/repository/list.ts:109 | the row read back after the UPDATE is the updated row |
| ListRepository.ApplyUpdate | server/src/repository/list.ts:98-107 | the row-by-row UPDATE equals the UPDATE statement |
| ListRepository.UpdateTable | server/src/repository/list.ts:57-111 | the answer and the new table of `update` |
| ListRepository.Update | server/src/repository/list.ts:57-111 | `update` on the tables: the outcome, the new `list` table, the other tables unchanged |
| ListRepository.UpdateKeepsIds | server/src/repository/list.ts:98-107 | the UPDATE changes no id and keeps the key invariant |
| ListRepository.UpdateOnlyTarget | server/src/repository/list.ts:107 | only the target list changes |
| ListRepository.UpdatedNameIsUnique | server/src/repository/list.ts:88-107 | after a rename no other list of the user carries the new name |
| ListRepository.UpdateIdempotent | server/src/repository/list.ts:57-111 | the same update applied twice gives the same table and outcome as once |
| ListRepository.DeleteTarget | server/src/repository/list.ts:171-175 | the list `delete` may remove is the user's own, with that id, and not a watchlist |
| ListRepository.DeleteLists | server/src/repository/list.ts:182 | removes exactly the lists with the id |
| ListRepository.DeleteListItems | server/src/repository/list.ts:181 | removes exactly the items on the list |
| ListRepository.Delete | server/src/repository/list.ts:164-184 | nothing happens without a target; otherwise the list and its items go and the number of deleted lists is returned |
| ListRepository.DeleteLeavesNoItems | server/src/repository/list.ts:181 | no item of the deleted list remains, and every other item does |
| ListRepository.DeleteRemovesOnlyTarget | server/src/repository/list.ts:164-184 | exactly one list goes; watchlists and other users' lists survive |
| ListRepository.VisibleList | server/src/repository/list.ts:192-197 | the list is found iff it has the id and is the user's own or public |
| ListRepository.Visible | server/src/repository/list.ts:194-197 | defines visibility: the user's own list or a public one |
| ListRepository.SeasonRuntime | server/src/repository/list.ts:199-254 | NULL iff no such season, or every episode of the season has no runtime and neither does the show |
| ListRepository.ShowEpisodesRuntime | server/src/repository/list.ts:199-254 | NULL iff every episode of the show has no runtime of its own or from the show |
| ListRepository.ItemRuntime | server/src/repository/list.ts:241-252 | a season item counts its season's runtime; an item without a media item counts NULL |
| ListRepository.ListRuntime | server/src/repository/list.ts:240-254 | the total is NULL iff no item of the list has a runtime |
| ListRepository.ItemRuntimesNone | server/src/repository/list.ts:240-254 | the runtimes of the list's items are all NULL iff every item of the list has no runtime |
| ListRepository.Details | server/src/repository/list.ts:186-282 | present iff the user may read the list; then the list with its total runtime |
| ListRepository.AddingItemAddsRuntime | server/src/repository/list.ts:240-254 | an item added to the list adds its runtime to the total; one added elsewhere changes nothing |
| ListItemRepository.NewRow | server/src/repository/listItemRepository.ts:51-57 | the inserted row carries the key, the list, the next id and the time |
| ListItemRepository.ListKeys | server/src/repository/listItemRepository.ts:28-45 | the set of keys already on the list |
| ListItemRepository.NewKeys | server/src/repository/listItemRepository.ts:47-50 | the incoming keys not already on the list, in order, repeats kept |
| ListItemRepository.NewRows | server/src/repository/listItemRepository.ts:51-60 | one row per new key on the list, under consecutive ids |
| ListItemRepository.OwnList | server/src/repository/listItemRepository.ts:20-26 | the list with the id owned by the user |
| ListItemRepository.AddManyItems | server/src/repository/listItemRepository.ts:12-65 | false and no change without the user's list; otherwise the new rows are appended |
| ListItemRepository.KeysToAdd | server/src/repository/listItemRepository.ts:47-50 | the loop keeps exactly the keys not in the existing set |
| ListItemRepository.InsertRows | server/src/repository/listItemRepository.ts:59-60 | the batch insert appends the rows under consecutive ids |
| ListItemRepository.AddManySkipsExisting | server/src/repository/listItemRepository.ts:43-50 | no appended row repeats a key the list had |
| ListItemRepository.AddManyAddsMissing | server/src/repository/listItemRepository.ts:47-57 | every incoming key not on the list gets a row |
| ListItemRepository.AddManyKeepsRepeats | server/src/repository/listItemRepository.ts:47-57 | a key sent twice in one batch is inserted twice |
| ListItemRepository.TargetList | server/src/repository/listItemRepository.ts:177-188 | the list by id, else the user's watchlist |
| ListItemRepository.Target | server/src/repository/listItemRepository.ts:177-192 | the list passes the guard iff it exists and is not another user's private list |
| ListItemRepository.OneTarget | server/src/repository/listItemRepository.ts:167-174 | defines the argument check: exactly one of a list id and the watchlist flag |
| ListItemRepository.Writable | server/src/repository/listItemRepository.ts:190-192 | defines write access: the list exists and is the user's or not private |
| ListItemRepository.AddKey | server/src/repository/listItemRepository.ts:92-107 | the stored key: falsy ids as null, and no season whenever an episode is given |
| ListItemRepository.AddItem | server/src/repository/listItemRepository.ts:67-112 | an error for zero or two targets; inserts exactly one row iff every check passes, else changes nothing |
| ListItemRepository.BelongsToShow | server/src/repository/listItemRepository.ts:70-97 | defines the check that a given season or episode belongs to the given show |
| ListItemRepository.AddAllowed | server/src/repository/listItemRepository.ts:70-101 | defines when `addItem` inserts: the target list is found and writable, the season or episode belongs to the show, and no equal row exists |
| ListItemRepository.AddItemIdempotent | server/src/repository/listItemRepository.ts:92-101 | adding the same item again is refused |
| ListItemRepository.AddedRowHasOneGranularity | server/src/repository/listItemRepository.ts:95-96 | a stored row never has both a season and an episode |
| ListItemRepository.RemoveKey | server/src/repository/listItemRepository.ts:117-124 | the key looked for: falsy ids as null, the season kept |
| ListItemRepository.FirstRow | server/src/repository/listItemRepository.ts:117-124 | the first row of the list with the key |
| ListItemRepository.DeleteRow | server/src/repository/listItemRepository.ts:128 | removes exactly the rows with the id |
| ListItemRepository.RemoveResult | server/src/repository/listItemRepository.ts:114-132 | the table after `removeItem`: the found row deleted, else unchanged |
| ListItemRepository.RemoveItem | server/src/repository/listItemRepository.ts:114-203 | an error for zero or two targets; true iff a row was found, and then the table is `RemoveResult` |
| ListItemRepository.RemoveDeletesOneRow | server/src/repository/listItemRepository.ts:126-131 | with unique ids exactly one row is deleted |
| ListItemRepository.RemoveKeyMatchesWithoutEpisode | server/src/repository/listItemRepository.ts:95-96 | without an episode, removal looks for exactly the stored key |
| ListItemRepository.AddThenRemoveMisses | server/src/repository/listItemRepository.ts:119-122 | an item added with a season and an episode is not found by removal with the same arguments |
| ListItemRepository.IntendedRemoveKey | server/src/repository/listItemRepository.ts:95-96 | the corrected removal key is the stored key |
| ListItemRepository.AddThenRemoveIntended | server/src/repository/listItemRepository.ts:92-132 | with the corrected key, removal right after adding finds the row and restores the table |
| Calendar.CalendarListItems | server/src/controllers/calendar.ts:170-175 | the list items of the user's watchlist, or of all the user's lists |
| Calendar.ShowEpisodesOf | server/src/controllers/calendar.ts:129-134 | a show-level list item joins every episode of its show; other items join none |
| Calendar.SeasonEpisodesOf | server/src/controllers/calendar.ts:135-139 | a season-level item joins its season's episodes; other items join none |
| Calendar.Expand | server/src/controllers/calendar.ts:125-168 | the rows of a list item; the item's seen flag iff show-level and seen by the user; the episode flag iff the user has seen the joined show or season episode, or, for a row with neither, the list item's own episode |
| Calendar.Rows | server/src/controllers/calendar.ts:125-168 | every row comes from a list item's expansion |
| Calendar.RowsCover | server/src/controllers/calendar.ts:125-168 | every expansion row of a listed item is a row |
| Calendar.ChosenEpisode | server/src/controllers/calendar.ts:197-236 | an entry's episode has a non-empty release date and the row's seen flag; none iff no joined episode has one |
| Calendar.ChosenIsTheJoinedEpisode | server/src/controllers/calendar.ts:197-236 | the one joined episode with a release date is the entry's episode |
| Calendar.ToEntry | server/src/controllers/calendar.ts:245-256 | the entry's release date is its episode's, else its media item's |
| Calendar.Entries | server/src/controllers/calendar.ts:188-237 | one entry per row, in order |
| Calendar.UniqBy | server/src/controllers/calendar.ts:243 | `uniqBy` as lodash runs it, one pass from the front keeping an element when its key is new: keeps only elements of the input |
| Calendar.UniqByFrom | server/src/controllers/calendar.ts:243 | the pass from a set of keys already met keeps only input elements whose key is not among them |
| Calendar.SubseqOf | server/src/controllers/calendar.ts:243 | defines "occurs in the input in the same order" (a subsequence) |
| Calendar.FirstOfItsKey | server/src/controllers/calendar.ts:243 | defines "the first element of the input with its key" |
| Calendar.UniqByFromDistinct | server/src/controllers/calendar.ts:243 | the pass keeps no two elements with one key, and none with a key already met |
| Calendar.UniqByFromKeepsFirst | server/src/controllers/calendar.ts:243 | the pass keeps the first element of each key not already met |
| Calendar.UniqByFromOnlyFirst | server/src/controllers/calendar.ts:243 | every element the pass keeps is the first of its key |
| Calendar.UniqByFromSubseq | server/src/controllers/calendar.ts:243 | the pass keeps the input order |
| Calendar.UniqBySubseq | server/src/controllers/calendar.ts:243 | `uniqBy` keeps the input order: its result is a subsequence of the input |
| Calendar.FirstOccurrence | server/src/controllers/calendar.ts:243 | every key of the input has a first element |
| Calendar.UniqByFirstAt | server/src/controllers/calendar.ts:243 | the first element of each key is kept, and it is the only kept element with that key |
| Calendar.UniqByKeepsFirst | server/src/controllers/calendar.ts:243 | for each input element, the first element with its key is kept |
| Calendar.UniqByDistinct | server/src/controllers/calendar.ts:243 | no two kept elements share a key |
| Calendar.UniqByCovers | server/src/controllers/calendar.ts:243 | every key of the input is kept |
| Calendar.LodashDateLeTotalPreorder | server/src/controllers/calendar.ts:257-262 | lodash's date order is total and transitive |
| Calendar.OrdersAreTotalPreorders | server/src/controllers/calendar.ts:257-262 | both `orderBy` relations are total preorders |
| Calendar.DetailedRows | server/src/controllers/calendar.ts:170-186 | every row is from a calendar list item and in range |
| Calendar.InRange | server/src/controllers/calendar.ts:176-186 | defines the range test: a non-tv item released in range, or one of the three joined episodes released in range |
| Calendar.MergeEntries | server/src/controllers/calendar.ts:238-244 | keeps only entries of the input |
| Calendar.MergeEntriesDistinct | server/src/controllers/calendar.ts:238-244 | no episode id is merged twice |
| Calendar.MergeEntriesCovers | server/src/controllers/calendar.ts:238-244 | every episode entry is represented by one of the same episode |
| Calendar.MergedEpisodeIsUnique | server/src/controllers/calendar.ts:238-244 | an episode entry of the merge comes from the `uniqBy` over the episode entries |
| Calendar.MergeEntriesKeepsFirst | server/src/controllers/calendar.ts:238-244 | of the entries of one episode, the merge keeps the first and only that one |
| Calendar.MergeEntriesKeepsOthers | server/src/controllers/calendar.ts:238-244 | every entry without an episode is kept by the merge |
| Calendar.DetailedOrder | server/src/controllers/calendar.ts:257-262 | ordered by release date, and equally dated episodes by `season*1000+episode` |
| Calendar.Detailed | server/src/controllers/calendar.ts:83-263 | the detailed calendar: a rearrangement of the merged entries (ordered, unique and complete by the lemmas around it) |
| Calendar.FirstOrderLe | server/src/controllers/calendar.ts:257-260 | defines the first `orderBy` key: `season*1000+episode` between episode entries, the release date between other entries, and episode entries first |
| Calendar.DetailedNoRepeatedEpisode | server/src/controllers/calendar.ts:238-263 | no episode occurs twice |
| Calendar.DetailedEntryOrigin | server/src/controllers/calendar.ts:83-263 | every entry comes from a row in range of a calendar list item |
| Calendar.DetailedEntriesInRange | server/src/controllers/calendar.ts:176-186 | a non-episode entry is a non-tv item released in range; an episode entry is in range or its item is |
| Calendar.ItemSeenOnlyShowLevel | server/src/controllers/calendar.ts:164-168 | the item seen flag comes only from a show-level list item the user has seen |
| Calendar.ExpansionRow | server/src/controllers/calendar.ts:129-139 | each expanded episode has its row |
| Calendar.RowEntryMerged | server/src/controllers/calendar.ts:238-263 | the episode of a row in range is on the calendar |
| Calendar.ExpandedRowSelected | server/src/controllers/calendar.ts:170-186 | an expansion row in range of a calendar list item passes the list filter and the inclusion test |
| Calendar.JoinedEpisodeEntry | server/src/controllers/calendar.ts:197-236 | a row joined to a dated episode becomes an entry keyed by that episode |
| Calendar.ExpandedEpisodeListed | server/src/controllers/calendar.ts:125-263 | every episode a show- or season-level calendar item expands to and released in range is listed |
| Calendar.NonEpisodeRowListed | server/src/controllers/calendar.ts:170-263 | every row in range of a calendar list item whose entry has no episode (a movie, game, book, or a show with no dated joined episode) is on the calendar |
| Calendar.SimpleExpand | server/src/controllers/calendar.ts:307-309 | each row's episodes belong to its show |
| Calendar.SimpleRows | server/src/controllers/calendar.ts:307-309 | every row comes from a list item |
| Calendar.SimpleLeTotalPreorder | server/src/controllers/calendar.ts:327-329 | the title, season, episode order is a total preorder |
| Calendar.SimpleItems | server/src/controllers/calendar.ts:331-350 | one entry per row, in order |
| Calendar.SimpleRangeRows | server/src/controllers/calendar.ts:310-323 | every row is from a calendar list item and in range |
| Calendar.SimpleGroupedAndOrdered | server/src/controllers/calendar.ts:325-329 | one entry per (media item, episode), ordered by title, season and episode number |
| Calendar.SimpleShowsListEpisodes | server/src/controllers/calendar.ts:331-332 | a tv entry has an episode of its show released in range, and carries that date |
| Calendar.SimpleEntriesInRange | server/src/controllers/calendar.ts:307-333 | every entry has a media item; an entry that is not tv is dated by its item and released in range itself or joined to an episode released in range |
| Calendar.SimpleCovers | server/src/controllers/calendar.ts:285-350 | every row in range of a calendar list item has its pair on the simple calendar |
| Calendar.Simple | server/src/controllers/calendar.ts:285-351 | the simple calendar: one entry per distinct (media item, episode) of the rows in range |
| Calendar.StartDayBoundary | server/src/controllers/calendar.ts:44-56 | a date-only release on the start day is within the detailed range and outside the simple range |
| SeenController.ResolvedDate | server/src/controllers/seen.ts:48-97 | a given date wins; failure only in `release_date` mode without the row |
| SeenController.ResolveDate | server/src/controllers/seen.ts:48-97 | the branch-by-branch reassignment gives `ResolvedDate` |
| SeenController.ShowEpisodes | server/src/controllers/seen.ts:100-104 | the episodes of the show, or of the season when given |
| SeenController.EpisodeDuration | server/src/controllers/seen.ts:129-135 | the episode's runtime in ms, else the show's |
| SeenController.EpisodeRows | server/src/controllers/seen.ts:124-137 | one row per episode with the user, item, episode, date and duration |
| SeenController.Stored | server/src/controllers/seen.ts:124-137 | the rows as inserted, under consecutive ids |
| SeenController.CreateMany | server/src/controllers/seen.ts:124 | appends the rows under consecutive ids and keeps the key invariant |
| SeenController.Add | server/src/controllers/seen.ts:24-234 | rejected or failed adds write nothing; otherwise the planned rows are appended, and a non-tv item leaves the watchlist |
| SeenController.Plan | server/src/controllers/seen.ts:24-234 | the rows `add` writes: none for a missing item; every planned row is new and belongs to the user and the item |
| SeenController.TooLate | server/src/controllers/seen.ts:59-66 | defines the guard: a given date more than an hour after now |
| SeenController.SeenUpTo | server/src/controllers/seen.ts:113-122 | exactly the unwatched, released, non-special episodes up to the last seen one |
| SeenController.SeasonEpisodes | server/src/controllers/seen.ts:164-187 | exactly the season's unwatched, non-special, released episodes |
| SeenController.ShowReleased | server/src/controllers/seen.ts:188-212 | exactly the show's non-special released episodes, watched or not |
| SeenController.AddRejectedIff | server/src/controllers/seen.ts:24-122 | rejected iff the item is missing, or the date is more than an hour ahead, or (the date resolves and) an episode id is given without a last seen episode id and no such episode exists |
| SeenController.FutureDateWritesNothing | server/src/controllers/seen.ts:59-66 | a date more than an hour ahead writes nothing |
| SeenController.MarkUpToLastEpisode | server/src/controllers/seen.ts:99-137 | every unwatched, released, non-special episode up to the last one gets a row |
| SeenController.MarkUpToLastEpisodeOnly | server/src/controllers/seen.ts:99-137 | only such episodes get rows |
| SeenController.UnknownLastEpisodeThrows | server/src/controllers/seen.ts:105-111 | an unknown last episode id fails with "No episode with id" |
| SeenController.ShowMarkIgnoresWatched | server/src/controllers/seen.ts:188-212 | marking a show writes rows for all its released non-special episodes, watched or not |
| SeenController.SeasonMarkSkipsWatched | server/src/controllers/seen.ts:164-187 | marking a season writes rows only for unwatched episodes |
| SeenController.ReleaseDateModeWins | server/src/controllers/seen.ts:129-135 | in `release_date` mode an episode row is dated by the episode |
| SeenController.RowsCarryGivenDate | server/src/controllers/seen.ts:179-185 | outside that mode every row carries the given date |
| SeenController.EpisodeRowsHaveDuration | server/src/controllers/seen.ts:179-185 | every episode row carries its episode's duration |
| SeenController.WatchlistRemovalIff | server/src/controllers/seen.ts:99-230 | of the adds that write, the item leaves the watchlist iff no last seen episode id is given and the item is not tv |
| SeenController.MarkItemWritesOneRow | server/src/controllers/seen.ts:213-221 | a non-tv item gets exactly one row without an episode |
| SeenController.StoredKeepsSeenValid | server/src/controllers/seen.ts:124-137 | appending stored rows keeps the key invariant |
| SeenController.ExternalEpisodeId | server/src/controllers/seen.ts:257-270 | the episode id of the lookup result |
| SeenController.AddByExternalId | server/src/controllers/seen.ts:252-300 | a lookup error or a repeat within 12 hours writes nothing; otherwise exactly one row dated now |
| SeenController.SeenRecently | server/src/controllers/seen.ts:271-288 | defines the repeat test: a row of the user and the same item and episode dated within the last 12 hours |
| SeenController.ExternalRepeatWithinWindow | server/src/controllers/seen.ts:271-288 | a repeat within 12 hours is dropped |
| SeenController.ExternalRepeatAfterWindow | server/src/controllers/seen.ts:271-300 | after 12 hours it is recorded |
| SeenController.ExternalWindowIsPerEvent | server/src/controllers/seen.ts:271-288 | a recent event of another episode does not block |
| SeenController.RemoveFromSeenHistory | server/src/controllers/seen.ts:336-356 | deletes exactly the user's rows the dispatch selects, and keeps the key invariant |
| SeenController.Erased | server/src/controllers/seen.ts:341-356 | defines the rows the dispatch deletes: the user's rows of the episode, else of the season's episodes, else of the item |
| SeenController.AfterRemoval | server/src/controllers/seen.ts:341-356 | exactly the rows that are not erased remain |
| SeenController.EpisodeRemovalIgnoresOthers | server/src/controllers/seen.ts:341-345 | with an episode id, the season and item ids are ignored |
| SeenController.SeasonRemovalIgnoresItem | server/src/controllers/seen.ts:346-351 | with a season id, the item id is ignored |
| SeenController.RemovalKeepsOthers | server/src/controllers/seen.ts:341-356 | other users' rows stay |
| SeenController.ItemRemovalTakesEpisodes | server/src/controllers/seen.ts:352-356 | removing an item also removes its episode rows |
| SeenController.RemovalIdempotent | server/src/controllers/seen.ts:341-356 | removing twice equals removing once |
| SeenController.JoinedEpisode | server/src/controllers/seen.ts:395-412 | the episode joined to a row is the one it names |
| SeenController.Matches | server/src/controllers/seen.ts:392-428 | defines the filter: the user's rows; with `extended`, narrowed by media type, tmdb id, season and episode number when given |
| SeenController.RowsOf | server/src/controllers/seen.ts:392-430 | one result row per matching seen row |
| SeenController.LaterOrSameIsTotalPreorder | server/src/controllers/seen.ts:430 | the newest-first order is a total preorder |
| SeenController.GetIsUserHistoryNewestFirst | server/src/controllers/seen.ts:392-477 | unpaged, exactly the user's matching rows, newest first |
| SeenController.UndatedLast | server/src/controllers/seen.ts:430 | rows without a date come after every dated row |
| SeenController.GetPaged | server/src/controllers/seen.ts:432-472 | paged, fails iff the page starts past the end; otherwise the count is every matching row and the data exactly the page's slice of the newest-first rows |
| SeenController.Get | server/src/controllers/seen.ts:382-477 | fails iff a nonzero page starts past the number of matching rows |
| SeenController.ExtendedTitleIsEpisodeTitle | server/src/controllers/seen.ts:395-412 | with `extended`, the title column is the episode's title |

## Left out

- Random ordering (`orderByRaw('random()')`): it has no statable order.
- The progress subqueries of the list-items view: they feed no property here.
- Display formatting in `mapRawResult`: image URLs, the genres split and sort, status lowercasing.
- HTTP plumbing: routes, status codes, request and response objects. The media-items route is reduced to its page guard, `Pagination.PageRejected`.
- External lookups and logging. The metadata lookup of `addByExternalId` is a parameter carrying its result.
- `parseISO`, `toISOString`, `addHours` and `new Date()`. Dates are integers, and `now` is a parameter.
- The tv-episode filters: function parameters, since they are defined outside this core.
- `seenRepository.deleteForTvSeason`: its meaning is taken from its name, since the seen repository is not part of this model.
- The season id passed to `createMany` in the last-seen branch: it is not a column of `Seen`.
- Left joins that match several rows: each resolver picks one match.
- Row order where SQL leaves it open: the model picks table order.
- Negative page numbers and limits: they are natural numbers in the model.
- Postgres NULL ordering: SQLite's NULL-first ascending order is modelled.
- SQL collation: text compares by code point.
- Transactions and the single-snapshot count and page read: concurrency is not modelled.
- A missing calendar `start` or `end` (a `RangeError` in `toISOString`).
- `deleteById`, `traktId`, `displayNumbers`, `allowComments` and the user name in `details`: they are plain columns with no logic.
- knex errors for undefined bindings.
- ListItemRepository.RemoveItem: models `removeItem` as written, so the finding below is kept in the model; the corrected key is `IntendedRemoveKey`.

## Findings

| source | as written | input that shows it | evidently intended | confidence | as-written member | corrected member |
|---|---|---|---|---|---|---|
| server/src/repository/listItemRepository.ts:95-96, 119-122 | `addItem` stores `seasonId` as null whenever `episodeId` is given, but `removeItem` looks for `seasonId \|\| null` | add then remove with mediaItemId 10, seasonId 20, episodeId 30 on list 5: the stored row has no season, so the removal finds nothing | removal looks for the row `addItem` stores | medium, not executed | ListItemRepository.AddThenRemoveMisses | ListItemRepository.AddThenRemoveIntended |
